/** Choosing the FaderPort among the host's MIDI ports. The host's port
    listing is a parameter: the same selection serves the input and the
    output side. */
module Ports {
  import opened Wrappers
  import opened Ascii

  /** The lower-case prefix of a FaderPort's port name. */
  const DEVICE_PREFIX: string := "faderport"

  /** `name.lower().startswith('faderport')`. */
  predicate IsFaderPort(name: string)
  {
    StartsWith(Lower(name), DEVICE_PREFIX)
  }

  /** The FaderPort port names among `names`, in their listed order. */
  function Matching(names: seq<string>): (r: seq<string>)
    ensures |r| <= |names|
    ensures forall n :: n in r <==> n in names && IsFaderPort(n)
    decreases |names|
  {
    if |names| == 0 then []
    else
      var rest := Matching(names[1..]);
      assert forall n :: n in names <==> n == names[0] || n in names[1..];
      if IsFaderPort(names[0]) then [names[0]] + rest else rest
  }

  /** `find_faderport_input_name` / `find_faderport_output_name`: the
      `number`-th FaderPort name, counting from 0, or None when there is no
      such port (a negative `number` included). */
  function FindFaderPortName(names: seq<string>, number: int): (r: Option<string>)
    ensures r.Some? <==> 0 <= number < |Matching(names)|
    ensures r.Some? ==> r.value in names && IsFaderPort(r.value)
    ensures r.Some? ==> r.value == Matching(names)[number]
  {
    var ports := Matching(names);
    if 0 <= number < |ports| then Some(ports[number]) else None
  }

  /** The filter keeps every FaderPort name as often as it is listed and
      drops every other name. */
  lemma MatchingCounts(names: seq<string>)
    ensures forall n :: multiset(Matching(names))[n] == if IsFaderPort(n) then multiset(names)[n] else 0
  {
    forall n {
      MatchingCount(names, n);
    }
  }

  /** `MatchingCounts` for one name. */
  lemma {:induction false} MatchingCount(names: seq<string>, n: string)
    ensures multiset(Matching(names))[n] == if IsFaderPort(n) then multiset(names)[n] else 0
    decreases |names|
  {
    if |names| > 0 {
      var head := if IsFaderPort(names[0]) then [names[0]] else [];
      MatchingCount(names[1..], n);
      MatchingCons(names);
      assert multiset(Matching(names)) == multiset(head) + multiset(Matching(names[1..]));
      assert names == [names[0]] + names[1..];
      assert multiset(names) == multiset{names[0]} + multiset(names[1..]);
    }
  }

  /** Filtering a non-empty listing: its head, if it is a FaderPort name,
      followed by the filtered tail. */
  lemma MatchingCons(names: seq<string>)
    requires 0 < |names|
    ensures Matching(names) == (if IsFaderPort(names[0]) then [names[0]] else []) + Matching(names[1..])
  {
  }

  /** The `k`-th match sits at a position of the listing preceded by exactly
      `k` matching names: selection counts FaderPorts in listing order. */
  lemma {:induction false} MatchPosition(names: seq<string>, k: nat)
    requires k < |Matching(names)|
    ensures exists i ::
      && 0 <= i < |names|
      && names[i] == Matching(names)[k]
      && IsFaderPort(names[i])
      && |Matching(names[..i])| == k
    decreases |names|
  {
    MatchingCons(names);
    var head := if IsFaderPort(names[0]) then [names[0]] else [];
    var rest := Matching(names[1..]);
    if IsFaderPort(names[0]) && k == 0 {
      assert names[..0] == [];
      assert names[0] == Matching(names)[0];
    } else {
      var k' := k - |head|;
      assert Matching(names)[k] == rest[k'];
      MatchPosition(names[1..], k');
      var i :|
        && 0 <= i < |names[1..]|
        && names[1..][i] == rest[k']
        && IsFaderPort(names[1..][i])
        && |Matching(names[1..][..i])| == k';
      MatchingPrefixCons(names, i + 1);
      assert names[i + 1] == Matching(names)[k];
    }
  }

  /** Filtering the first `j` names: the head, if it is a FaderPort name,
      followed by the filtered first `j - 1` names of the tail. */
  lemma MatchingPrefixCons(names: seq<string>, j: nat)
    requires 0 < j <= |names|
    ensures |Matching(names[..j])| == (if IsFaderPort(names[0]) then 1 else 0) + |Matching(names[1..][..j - 1])|
  {
    assert names[..j][1..] == names[1..][..j - 1];
    MatchingCons(names[..j]);
  }

  /** The selected port is the `number`-th FaderPort of the listing: it is
      listed at a position preceded by exactly `number` FaderPort names. */
  lemma FindsNumberedPort(names: seq<string>, number: int)
    requires FindFaderPortName(names, number).Some?
    ensures exists i ::
      && 0 <= i < |names|
      && names[i] == FindFaderPortName(names, number).value
      && IsFaderPort(names[i])
      && |Matching(names[..i])| == number
  {
    MatchPosition(names, number);
  }

  /** Selection is case-insensitive in the port names. */
  lemma IsFaderPortIgnoresCase(name: string)
    ensures IsFaderPort(Upper(name)) == IsFaderPort(name)
  {
    LowerIgnoresCase(name);
  }
}
