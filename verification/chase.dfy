/** The `chase` light pattern: one to four chasers running round a ring of
    twelve buttons, evenly spaced, each tick lighting the button under each
    chaser and then darkening everything. Only the order of messages is
    modelled; the pauses between ticks are not. */
module Chase {
  import opened Wrappers
  import opened Midi
  import opened Buttons
  import opened FaderPort

  /** The ring the chasers run round, by button name. */
  const CHASE_NAMES: seq<string> := [
    "Chan Down", "Bank", "Chan Up", "Output", "Off", "Undo",
    "Loop", "User", "Punch", "Shift", "Mix", "Read"
  ]

  const RING_SIZE: nat := 12

  /** Where each ring button sits in BUTTONS. */
  const RING_POSITION: seq<nat> := [6, 5, 4, 3, 10, 11, 18, 17, 16, 15, 14, 7]

  /** RING_POSITION locates each ring name in the button table. */
  lemma RingPositionsName()
    ensures |CHASE_NAMES| == |RING_POSITION| == RING_SIZE
    ensures forall i :: 0 <= i < RING_SIZE ==>
      RING_POSITION[i] < |BUTTONS| && BUTTONS[RING_POSITION[i]].name == CHASE_NAMES[i]
  {
  }

  /** No name occurs twice on the ring. */
  lemma RingNamesDistinct()
    ensures forall i, j :: 0 <= i < j < |CHASE_NAMES| ==> CHASE_NAMES[i] != CHASE_NAMES[j]
  {
  }

  /** The ring's buttons, in ring order. */
  function Ring(): (r: seq<Button>)
    ensures |r| == RING_SIZE
  {
    seq(RING_SIZE, i requires 0 <= i < RING_SIZE => BUTTONS[RING_POSITION[i]])
  }

  /** The driver builds the ring by looking each name up with
      `button_from_name`: every lookup succeeds, with the ring's button. */
  lemma RingIsLookedUpByName()
    ensures forall i :: 0 <= i < RING_SIZE ==> ButtonFromName(CHASE_NAMES[i]) == Ok(Ring()[i])
  {
    RingPositionsName();
    forall i | 0 <= i < RING_SIZE
      ensures ButtonFromName(CHASE_NAMES[i]) == Ok(Ring()[i])
    {
      NameRoundTrip(BUTTONS[RING_POSITION[i]]);
    }
  }

  /** The ring's buttons are pairwise distinct. */
  lemma RingDistinct()
    ensures forall i, j :: 0 <= i < j < RING_SIZE ==> Ring()[i] != Ring()[j]
  {
    var r := Ring();
    RingNamesDistinct();
    RingPositionsName();
    forall i, j | 0 <= i < j < RING_SIZE
      ensures r[i] != r[j]
    {
      assert r[i].name == CHASE_NAMES[i] && r[j].name == CHASE_NAMES[j];
    }
  }

  /** `num_lights if num_lights in [1, 2, 3, 4] else 2`. */
  function ChaserCount(numLights: int): (n: int)
    ensures 1 <= n <= 4
    ensures 1 <= numLights <= 4 ==> n == numLights
    ensures !(1 <= numLights <= 4) ==> n == 2
  {
    if 1 <= numLights <= 4 then numLights else 2
  }

  /** An `itertools.cycle` over `items` after `taken` items were drawn;
      `chase` cycles over the ring. */
  datatype Cycle = Cycle(items: seq<Button>, taken: nat)

  /** `next(it)`: the next item and the advanced iterator. The cycle never
      runs out, as its items are not empty. */
  function Next(it: Cycle): (Button, Cycle)
    requires |it.items| > 0
  {
    (it.items[it.taken % |it.items|], Cycle(it.items, it.taken + 1))
  }

  /** `consume(it, n)`: advance the iterator `n` steps. */
  function Consume(it: Cycle, n: nat): Cycle
  {
    Cycle(it.items, it.taken + n)
  }

  /** Draw `n` items with `next` and discard them, as `islice(it, n, n)`
      does when it is advanced. */
  function Drain(it: Cycle, n: nat): Cycle
    requires |it.items| > 0
    decreases n
  {
    if n == 0 then it else Drain(Next(it).1, n - 1)
  }

  /** Consuming `n` items is drawing and discarding `n` items one by one. */
  lemma {:induction false} ConsumeIsDraining(it: Cycle, n: nat)
    requires |it.items| > 0
    ensures Consume(it, n) == Drain(it, n)
    decreases n
  {
    if n > 0 {
      ConsumeIsDraining(Next(it).1, n - 1);
    }
  }

  /** Consuming `n` items and then drawing one yields the item `n` places
      further on, wrapping around. */
  lemma ConsumeSkips(it: Cycle, n: nat)
    requires |it.items| > 0
    ensures Next(Consume(it, n)).0 == it.items[(it.taken + n) % |it.items|]
    ensures Next(Consume(it, n)).1 == Consume(it, n + 1)
  {
  }

  /** The button chaser `i` of `n` shows at tick `t`: the chasers start
      `12 // n` buttons apart and all move one button per tick. */
  function ChaserButton(n: int, t: nat, i: nat): Button
    requires 1 <= n
  {
    RingAt(t + Offset(n, i))
  }

  /** The ring button `p` places on from the start, wrapping around. */
  function RingAt(p: nat): Button
  {
    Ring()[p % RING_SIZE]
  }

  /** How far ahead of the first chaser chaser `i` of `n` starts. */
  function Offset(n: int, i: nat): nat
    requires 1 <= n
  {
    i * (RING_SIZE / n)
  }

  /** The lights-on messages of the first `k` chasers at tick `t`, in chaser
      order. */
  function TickLights(n: nat, t: nat, k: nat): seq<Message>
    requires 1 <= n && k <= n
  {
    seq(k, i requires 0 <= i < k => LightMessage(ChaserButton(n, t, i), true))
  }

  /** The messages of the first `ticks` ticks: at each, the chasers' lights
      on, then `all_off`. */
  function Schedule(n: nat, ticks: nat): seq<Message>
    requires 1 <= n
  {
    if ticks == 0 then [] else Schedule(n, ticks - 1) + TickLights(n, ticks - 1, n) + AllOff()
  }

  /** The set-up loop of `chase`: one iterator per chaser, iterator `j`
      advanced `j * (12 // n)` steps. */
  method StartChasers(n: nat) returns (its: seq<Cycle>)
    requires 1 <= n <= 4
    ensures |its| == n
    ensures forall j :: 0 <= j < n ==> its[j] == Cycle(Ring(), Offset(n, j))
  {
    its := seq(n, _ => Cycle(Ring(), 0));
    var i := 1;
    while i < n
      invariant 1 <= i <= n
      invariant |its| == n
      invariant forall j :: 0 <= j < n ==> its[j] == Cycle(Ring(), if j < i then Offset(n, j) else 0)
    {
      its := its[i := Consume(its[i], Offset(n, i))];
      i := i + 1;
    }
  }

  /** One tick of `chase`: draw the next button from every iterator, in
      order, and light it. */
  method Tick(n: nat, x: nat, its0: seq<Cycle>) returns (tick: seq<Message>, its: seq<Cycle>)
    requires 1 <= n <= 4
    requires |its0| == n
    requires forall j :: 0 <= j < n ==> its0[j] == Cycle(Ring(), Offset(n, j) + x)
    ensures |its| == n
    ensures forall j :: 0 <= j < n ==> its[j] == Cycle(Ring(), Offset(n, j) + x + 1)
    ensures tick == TickLights(n, x, n)
  {
    its := its0;
    tick := [];
    var k := 0;
    while k < n
      invariant 0 <= k <= n
      invariant |its| == n
      invariant forall j :: 0 <= j < n ==> its[j] == Cycle(Ring(), Offset(n, j) + x + (if j < k then 1 else 0))
      invariant tick == TickLights(n, x, k)
    {
      DrawChaser(n, x, k, its[k]);
      var (button, next) := Next(its[k]);
      TickLightsStep(n, x, k);
      tick := tick + LightOn(button);
      its := its[k := next];
      k := k + 1;
    }
  }

  /** Drawing from chaser `k`'s iterator at tick `t` yields that chaser's
      button and advances the iterator by one. */
  lemma DrawChaser(n: nat, t: nat, k: nat, it: Cycle)
    requires 1 <= n && k < n
    requires it == Cycle(Ring(), Offset(n, k) + t)
    ensures |it.items| > 0
    ensures Next(it).0 == ChaserButton(n, t, k)
    ensures Next(it).1 == Cycle(Ring(), Offset(n, k) + t + 1)
  {
    var p := Offset(n, k) + t;
    assert it == Consume(Cycle(Ring(), 0), p);
    ConsumeSkips(Cycle(Ring(), 0), p);
    assert ChaserButton(n, t, k) == RingAt(p) == Ring()[p % RING_SIZE];
  }

  /** One more chaser appends its `light_on` message. */
  lemma TickLightsStep(n: nat, t: nat, k: nat)
    requires 1 <= n && k < n
    ensures TickLights(n, t, k + 1) == TickLights(n, t, k) + LightOn(ChaserButton(n, t, k))
  {
    assert LightOn(ChaserButton(n, t, k)) == [LightMessage(ChaserButton(n, t, k), true)];
  }

  /** One more tick appends that tick's messages. */
  lemma ScheduleStep(n: nat, x: nat)
    requires 1 <= n
    ensures Schedule(n, x + 1) == Schedule(n, x) + TickLights(n, x, n) + AllOff()
  {
  }

  /** `chase`: drive `n` cycling iterators over the ring exactly as the
      driver does, and collect the messages it sends. */
  method Chase(numLights: int, ticks: int) returns (ms: seq<Message>)
    ensures ms == Schedule(ChaserCount(numLights), if ticks < 0 then 0 else ticks)
  {
    var n := ChaserCount(numLights);
    var its := StartChasers(n);
    var off := AllOff();  // the same messages at every tick
    var total := if ticks < 0 then 0 else ticks;
    ms := [];
    var x := 0;
    assert Schedule(n, 0) == [];
    while x < total
      invariant 0 <= x <= total
      invariant |its| == n
      invariant forall j :: 0 <= j < n ==> its[j] == Cycle(Ring(), Offset(n, j) + x)
      invariant ms == Schedule(n, x)
    {
      var tick;
      tick, its := Tick(n, x, its);
      ScheduleStep(n, x);
      ms := ms + tick + off;
      x := x + 1;
      assert ms == Schedule(n, x);
    }
  }

  /** Two different offsets within the ring never land on the same slot. */
  lemma SlotsDistinct(t: nat, a: nat, b: nat)
    requires a < b < RING_SIZE
    ensures (t + a) % RING_SIZE != (t + b) % RING_SIZE
  {
  }

  /** The chasers start in increasing order, all within one turn of the ring. */
  lemma OffsetsSpread(n: int, i: nat, j: nat)
    requires 1 <= n <= 4 && i < j < n
    ensures Offset(n, i) < Offset(n, j) < RING_SIZE
  {
    assert n == 2 || n == 3 || n == 4;
  }

  /** At any tick no two chasers show the same button. */
  lemma ChasersNeverCollide(numLights: int, t: nat, i: nat, j: nat)
    requires i < j < ChaserCount(numLights)
    ensures ChaserButton(ChaserCount(numLights), t, i) != ChaserButton(ChaserCount(numLights), t, j)
  {
    ChasersDiffer(ChaserCount(numLights), t, i, j);
  }

  /** `ChasersNeverCollide` for a chaser count already in 1..4. */
  lemma ChasersDiffer(n: int, t: nat, i: nat, j: nat)
    requires 1 <= n <= 4 && i < j < n
    ensures ChaserButton(n, t, i) != ChaserButton(n, t, j)
  {
    var a, b := Offset(n, i), Offset(n, j);
    OffsetsSpread(n, i, j);
    ShiftedSlotsDiffer(t, a, b);
    assert ChaserButton(n, t, i) == RingAt(t + a);
    assert ChaserButton(n, t, j) == RingAt(t + b);
  }

  /** Two chasers less than one turn apart show different buttons. */
  lemma ShiftedSlotsDiffer(t: nat, a: nat, b: nat)
    requires a < b < RING_SIZE
    ensures RingAt(t + a) != RingAt(t + b)
  {
    SlotsDistinct(t, a, b);
    var p, q := (t + a) % RING_SIZE, (t + b) % RING_SIZE;
    RingDistinct();
    if q < p {
      assert Ring()[q] != Ring()[p];
    } else {
      assert Ring()[p] != Ring()[q];
    }
  }

  /** Every chaser shows a button of the table. */
  lemma RingButtonsAreButtons(i: int)
    requires 0 <= i < RING_SIZE
    ensures Ring()[i] in BUTTONS
  {
    RingPositionsName();
  }

  /** A tick only addresses button lights. */
  lemma TickAddressesButtons(n: nat, t: nat)
    requires 1 <= n
    ensures forall k :: 0 <= k < |TickLights(n, t, n)| && TickLights(n, t, n)[k].Polytouch? ==>
      TickLights(n, t, n)[k].note in LightsOf(BUTTONS)
  {
    forall k | 0 <= k < n
      ensures TickLights(n, t, n)[k].note in LightsOf(BUTTONS)
    {
      RingButtonsAreButtons((t + Offset(n, k)) % RING_SIZE);
    }
  }

  /** One tick clears every button light and leaves every other light
      alone. */
  lemma TickClears(n: nat, t: nat, lit: set<int>)
    requires 1 <= n
    ensures Lamps(lit, TickLights(n, t, n) + AllOff()) == lit - LightsOf(BUTTONS)
  {
    LampsAppend(lit, TickLights(n, t, n), AllOff());
    TickAddressesButtons(n, t);
    LampsOutside(lit, TickLights(n, t, n), LightsOf(BUTTONS));
  }

  /** Each tick darkens every button light and leaves the other lights as
      the earlier ticks left them. */
  lemma ScheduleLampsStep(n: nat, t: nat, lit: set<int>)
    requires 1 <= n
    ensures Lamps(lit, Schedule(n, t + 1)) == Lamps(lit, Schedule(n, t)) - LightsOf(BUTTONS)
  {
    var before := Schedule(n, t);
    var tick := TickLights(n, t, n) + AllOff();
    assert Schedule(n, t + 1) == before + tick;
    LampsAppend(lit, before, tick);
    TickClears(n, t, Lamps(lit, before));
  }

  /** Every tick ends with `all_off`, so after any number of ticks the
      pattern leaves every button dark, and lights that belong to no button
      as they were. */
  lemma {:induction false} ChaseEndsDark(n: nat, ticks: nat, lit: set<int>)
    requires 1 <= n && 0 < ticks
    ensures Lamps(lit, Schedule(n, ticks)) == lit - LightsOf(BUTTONS)
    decreases ticks
  {
    ScheduleLampsStep(n, ticks - 1, lit);
    if 1 < ticks {
      ChaseEndsDark(n, ticks - 1, lit);
    } else {
      assert Schedule(n, 0) == [];
    }
  }
}
