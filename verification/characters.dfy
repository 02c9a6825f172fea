/** The character matrix: which button lights, lit together, draw each
    hexadecimal digit on the device's grid of buttons. */
module Characters {
  import opened Wrappers
  import opened Ascii

  /** The matrix's keys, in the order its glyphs are listed in GLYPHS. */
  const KEYS: string := "0123456789ABCDEF"

  /** The glyph of KEYS[v], for each v: a tuple of positions in the button
      table. Together with KEYS this is the matrix, a dictionary from the
      sixteen one-character strings "0".."F" to glyphs. */
  const GLYPHS: seq<seq<int>> := [
    [0, 1, 3, 6, 7, 9, 10, 11, 13, 14, 15, 18, 20, 21, 22],
    [1, 4, 5, 9, 12, 17, 19, 20, 21, 22],
    [0, 1, 3, 6, 10, 12, 16, 19, 20, 21, 22, 23],
    [0, 1, 3, 6, 9, 11, 15, 18, 20, 21, 22],
    [1, 4, 5, 7, 9, 11, 12, 13, 14, 17, 20, 21],
    [0, 1, 2, 6, 7, 8, 9, 11, 15, 18, 20, 21, 22],
    [0, 1, 2, 6, 7, 8, 9, 11, 14, 15, 18, 20, 21, 22],
    [3, 4, 5, 6, 10, 12, 16, 23],
    [0, 1, 3, 6, 8, 9, 11, 14, 15, 18, 20, 21, 22],
    [0, 1, 3, 6, 8, 9, 10, 11, 15, 18, 20, 21, 22],
    [4, 5, 7, 10, 11, 12, 13, 14, 15, 18, 19, 23],
    [4, 5, 6, 7, 10, 12, 13, 14, 15, 18, 20, 21, 22, 23],
    [4, 5, 7, 10, 14, 15, 18, 20, 21, 22],
    [4, 5, 6, 7, 10, 11, 14, 15, 18, 20, 21, 22, 23],
    [4, 5, 6, 7, 13, 14, 15, 20, 21, 22, 23],
    [4, 5, 6, 7, 13, 14, 15, 23]
  ]

  /** The number of positions a glyph can address (the button count). */
  const GRID_SIZE: nat := 24

  /** A one-character string holding a hexadecimal digit, in either case. */
  predicate IsHexDigit(c: string)
  {
    |c| == 1 && ('0' <= c[0] <= '9' || 'A' <= c[0] <= 'F' || 'a' <= c[0] <= 'f')
  }

  /** The position in KEYS of an upper-case hexadecimal digit character. */
  function KeyPosition(d: char): (v: nat)
    requires '0' <= d <= '9' || 'A' <= d <= 'F'
    ensures v < |KEYS| && KEYS[v] == d
  {
    if d <= '9' then d as int - '0' as int else d as int - 'A' as int + 10
  }

  /** A glyph is a strictly increasing tuple of grid positions: every
      position is in range and none is repeated. */
  predicate WellFormedGlyph(g: seq<int>)
  {
    && (forall k :: 0 <= k < |g| ==> 0 <= g[k] < GRID_SIZE)
    && (forall k :: 0 < k < |g| ==> g[k - 1] < g[k])
  }

  /** The glyphs of the digits 0..4 are well formed. */
  lemma LowDigitGlyphsWellFormed()
    ensures forall v :: 0 <= v < 5 ==> WellFormedGlyph(GLYPHS[v])
  {
  }

  /** The glyphs of the digits 5..9 are well formed. */
  lemma HighDigitGlyphsWellFormed()
    ensures forall v :: 5 <= v < 10 ==> WellFormedGlyph(GLYPHS[v])
  {
  }

  /** The glyphs of the letters A..F are well formed. */
  lemma LetterGlyphsWellFormed()
    ensures forall v :: 10 <= v < 16 ==> WellFormedGlyph(GLYPHS[v])
  {
  }

  /** Every glyph is well formed, so lighting one never indexes past the
      button table and never lights a button twice. */
  lemma GlyphsWellFormed()
    ensures |GLYPHS| == |KEYS|
    ensures forall v :: 0 <= v < |GLYPHS| ==> WellFormedGlyph(GLYPHS[v])
  {
    LowDigitGlyphsWellFormed();
    HighDigitGlyphsWellFormed();
    LetterGlyphsWellFormed();
  }

  /** The glyph `char_on` draws for `c`: `c.upper()` looked up in the matrix;
      None for anything but a single hexadecimal digit. */
  function Glyph(c: string): (r: Option<seq<int>>)
    ensures r.Some? <==> IsHexDigit(c)
    ensures r.Some? ==> r.value in GLYPHS && WellFormedGlyph(r.value)
    ensures r.Some? ==> r.value == GLYPHS[KeyPosition(UpperChar(c[0]))]
  {
    GlyphsWellFormed();
    var key := Upper(c);
    if |key| == 1 && key[0] in KEYS then Some(GLYPHS[KeyPosition(key[0])]) else None
  }

  /** The glyph for "0" lights fifteen buttons. */
  lemma ZeroGlyphSize()
    ensures Glyph("0").Some? && |Glyph("0").value| == 15
  {
  }

  /** Glyph lookup ignores case. */
  lemma GlyphIgnoresCase(c: string)
    ensures Glyph(Lower(c)) == Glyph(c)
  {
    UpperIgnoresCase(c);
  }
}
