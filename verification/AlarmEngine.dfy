/**
 The alarm engine (lib/alarm/alarm_engine.c): each pass samples one register per table entry and emits events.
 Over whole histories the events of an entry are shown to be the edges of its condition, and nothing else.
 */
module AlarmEngine {
  import opened Words

  datatype Condition = Bitmask | Range | Change | Unknown

  datatype Entry = Entry(addr: u16, condition: Condition, lo: u16, hi: u16)

  datatype State = State(active: bool, prev: u16)

  datatype Kind = Trigger | Clear

  /** What is handed to the event callback; entry is the row of the table. */
  datatype Event = Event(entry: nat, kind: Kind, value: u16)

  const START := State(false, 0)

  // ---------------------------------------------------------------- conditions

  /** The & operator on uint16_t. */
  function AndWord(a: u16, b: u16): u16 {
    PowersOfTwo();
    Value(AndBits(Bits(a, 16), Bits(b, 16)))
  }

  function AndBits(x: seq<bool>, y: seq<bool>): (z: seq<bool>)
    requires |x| == |y|
    ensures |z| == |x|
    ensures forall i :: 0 <= i < |x| ==> z[i] == (x[i] && y[i])
  {
    seq(|x|, i requires 0 <= i < |x| => x[i] && y[i])
  }

  /** eval_bitmask and eval_range. */
  function Holds(e: Entry, value: u16): bool {
    match e.condition
    case Bitmask => AndWord(value, e.hi) == e.hi
    case Range => value < e.lo || value > e.hi
    case _ => false
  }

  /** Every digit of the mask is set in the value. */
  predicate AllSet(mask: u16, value: u16) {
    forall i :: 0 <= i < 16 && Bits(mask, 16)[i] ==> Bits(value, 16)[i]
  }

  /** The mask test is what it is meant to be: every digit of the mask is set in the value. */
  lemma BitmaskMeansAllBits(e: Entry, value: u16)
    requires e.condition == Bitmask
    ensures Holds(e, value) <==> AllSet(e.hi, value)
  {
    var both := AndBits(Bits(value, 16), Bits(e.hi, 16));
    PowersOfTwo();
    BitsOfValue(both);
    WordFromBits(AndWord(value, e.hi), e.hi);
    if AllSet(e.hi, value) {
      assert both == Bits(e.hi, 16);
    }
  }

  // ---------------------------------------------------------------- one entry, one pass

  datatype Step = Step(state: State, events: seq<Event>)

  predicate Sticky(e: Entry) {
    e.condition == Bitmask || e.condition == Range
  }

  /** What a pass does with one entry; an unreadable register changes nothing. */
  function Passed(i: nat, e: Entry, s: State, sample: Option<u16>): Step {
    if sample.None? then Step(s, [])
    else
      var v := sample.value;
      match e.condition
      case Change => Step(s.(prev := v), if v != s.prev then [Event(i, Trigger, v)] else [])
      case Unknown => Step(s, [])
      case _ =>
        var now := Holds(e, v);
        Step(s.(active := now), if now == s.active then [] else [Event(i, if now then Trigger else Clear, v)])
  }

  function Steps(table: seq<Entry>, states: seq<State>, samples: seq<Option<u16>>): (r: seq<Step>)
    requires |table| == |states| == |samples|
    ensures |r| == |table|
    ensures forall i :: 0 <= i < |table| ==> r[i] == Passed(i, table[i], states[i], samples[i])
  {
    seq(|table|, i requires 0 <= i < |table| => Passed(i, table[i], states[i], samples[i]))
  }

  function States(steps: seq<Step>): (r: seq<State>)
    ensures |r| == |steps|
    ensures forall i :: 0 <= i < |steps| ==> r[i] == steps[i].state
  {
    seq(|steps|, i requires 0 <= i < |steps| => steps[i].state)
  }

  /** The events of the first n steps, in table order. */
  function EventsOf(steps: seq<Step>, n: nat): seq<Event>
    requires n <= |steps|
  {
    if n == 0 then [] else EventsOf(steps, n - 1) + steps[n - 1].events
  }

  /** apply_sticky. */
  method ApplySticky(i: nat, e: Entry, s: State, v: u16, triggered: bool) returns (s': State, events: seq<Event>)
    requires Sticky(e) && triggered == Holds(e, v)
    ensures Step(s', events) == Passed(i, e, s, Some(v))
  {
    s', events := s, [];
    if triggered && !s.active {
      s' := s.(active := true);
      events := [Event(i, Trigger, v)];
    } else if !triggered && s.active {
      s' := s.(active := false);
      events := [Event(i, Clear, v)];
    }
  }

  /** The loop body of alarm_engine_run. */
  method PassEntry(i: nat, e: Entry, s: State, sample: Option<u16>) returns (s': State, events: seq<Event>)
    ensures Step(s', events) == Passed(i, e, s, sample)
  {
    s', events := s, [];
    if sample.None? {
      return;
    }
    var v := sample.value;
    match e.condition {
      case Bitmask =>
        s', events := ApplySticky(i, e, s, v, AndWord(v, e.hi) == e.hi);
      case Range =>
        s', events := ApplySticky(i, e, s, v, v < e.lo || v > e.hi);
      case Change =>
        var changed := v != s.prev;
        s' := s.(prev := v);
        if changed {
          events := [Event(i, Trigger, v)];
        }
      case Unknown =>
    }
  }

  /** alarm_engine_run; samples are what the read callback gives, events what goes to the event callback. */
  method Run(table: seq<Entry>, states: array<State>, samples: seq<Option<u16>>) returns (events: seq<Event>)
    requires |table| == states.Length == |samples|
    modifies states
    ensures states[..] == States(Steps(table, old(states[..]), samples))
    ensures events == EventsOf(Steps(table, old(states[..]), samples), |table|)
    ensures forall a, b :: 0 <= a < b < |events| ==> events[a].entry <= events[b].entry
  {
    ghost var steps := Steps(table, states[..], samples);
    events := [];
    var i := 0;
    while i < |table|
      invariant i <= |table|
      invariant events == EventsOf(steps, i)
      invariant forall j :: 0 <= j < |table| ==> states[j] == if j < i then steps[j].state else old(states[j])
    {
      var s, out := PassEntry(i, table[i], states[i], samples[i]);
      states[i] := s;
      events := events + out;
      i := i + 1;
    }
    forall k | 0 <= k < |steps| ensures Tagged(steps[k].events, k) {
      PassedTagged(k, table[k], old(states[..])[k], samples[k]);
    }
    InTableOrder(steps, |table|);
  }

  predicate Tagged(events: seq<Event>, k: nat) {
    forall j :: 0 <= j < |events| ==> events[j].entry == k
  }

  predicate AllTagged(steps: seq<Step>) {
    forall k :: 0 <= k < |steps| ==> Tagged(steps[k].events, k)
  }

  lemma PassedTagged(k: nat, e: Entry, s: State, sample: Option<u16>)
    ensures Tagged(Passed(k, e, s, sample).events, k)
  {
  }

  /** The events of a pass come in the order of the table. */
  lemma {:induction false} InTableOrder(steps: seq<Step>, n: nat)
    requires n <= |steps| && AllTagged(steps)
    ensures forall a :: 0 <= a < |EventsOf(steps, n)| ==> EventsOf(steps, n)[a].entry < n
    ensures forall a, b :: 0 <= a < b < |EventsOf(steps, n)| ==> EventsOf(steps, n)[a].entry <= EventsOf(steps, n)[b].entry
    decreases n
  {
    if n > 0 {
      InTableOrder(steps, n - 1);
      assert Tagged(steps[n - 1].events, n - 1);
    }
  }

  // ---------------------------------------------------------------- histories

  /** All passes: history[p][i] is the sample of entry i in pass p. */
  datatype Total = Total(states: seq<State>, events: seq<Event>)

  predicate Rectangular(table: seq<Entry>, history: seq<seq<Option<u16>>>) {
    forall p :: 0 <= p < |history| ==> |history[p]| == |table|
  }

  function Fresh(n: nat): (states: seq<State>)
    ensures |states| == n && forall i :: 0 <= i < n ==> states[i] == START
  {
    seq(n, _ => START)
  }

  function AllPasses(table: seq<Entry>, history: seq<seq<Option<u16>>>): (t: Total)
    requires Rectangular(table, history)
    ensures |t.states| == |table|
    decreases |history|
  {
    if history == [] then Total(Fresh(|table|), [])
    else
      var n := |history| - 1;
      var before := AllPasses(table, history[..n]);
      var steps := Steps(table, before.states, history[n]);
      Total(States(steps), before.events + EventsOf(steps, |table|))
  }

  /** The events of one entry. */
  function Only(events: seq<Event>, i: nat): seq<Event> {
    if events == [] then []
    else
      var n := |events| - 1;
      Only(events[..n], i) + if events[n].entry == i then [events[n]] else []
  }

  lemma {:induction false} OnlyConcat(a: seq<Event>, b: seq<Event>, i: nat)
    ensures Only(a + b, i) == Only(a, i) + Only(b, i)
    decreases |b|
  {
    if b == [] {
      assert a + b == a;
    } else {
      var n := |b| - 1;
      assert (a + b)[..|a + b| - 1] == a + b[..n];
      OnlyConcat(a, b[..n], i);
    }
  }

  lemma {:induction false} OnlyTagged(events: seq<Event>, k: nat, i: nat)
    requires Tagged(events, k)
    ensures Only(events, i) == if k == i then events else []
  {
    if events != [] {
      OnlyTagged(events[..|events| - 1], k, i);
    }
  }

  lemma OnlyAppend(before: seq<Event>, out: seq<Event>, k: nat, i: nat)
    requires Tagged(out, k) && (i == k ==> Only(before, i) == [])
    ensures Only(before + out, i) == if i == k then out else Only(before, i)
  {
    OnlyConcat(before, out, i);
    OnlyTagged(out, k, i);
    Neutral(Only(before, i), Only(out, i));
  }

  /** Entries before n have had their say, later ones not yet. */
  function SaidBy(steps: seq<Step>, n: nat, i: nat): seq<Event>
    requires i < |steps|
  {
    if i < n then steps[i].events else []
  }

  lemma EventsOneMore(steps: seq<Step>, n: nat)
    requires 0 < n <= |steps|
    ensures EventsOf(steps, n) == EventsOf(steps, n - 1) + steps[n - 1].events
  {
  }

  /** Within a pass an entry's events are its own step's. */
  lemma {:induction false} OnlyOfPass(steps: seq<Step>, events: seq<Event>, n: nat, i: nat)
    requires n <= |steps| && i < |steps| && AllTagged(steps) && events == EventsOf(steps, n)
    ensures Only(events, i) == SaidBy(steps, n, i)
    decreases n
  {
    if n > 0 {
      var before, out := EventsOf(steps, n - 1), steps[n - 1].events;
      EventsOneMore(steps, n);
      OnlyOfPass(steps, before, n - 1, i);
      OnlyAppend(before, out, n - 1, i);
    }
  }

  lemma Neutral(a: seq<Event>, b: seq<Event>)
    ensures a == [] ==> a + b == b
    ensures b == [] ==> a + b == a
  {
  }

  /** The readable samples of one entry, oldest first. */
  function Readable(history: seq<seq<Option<u16>>>, i: nat): seq<u16>
    requires forall p :: 0 <= p < |history| ==> i < |history[p]|
    decreases |history|
  {
    if history == [] then []
    else
      var n := |history| - 1;
      Readable(history[..n], i) + if history[n][i].Some? then [history[n][i].value] else []
  }

  // ---------------------------------------------------------------- what the events mean, without any state

  /** The last of some samples, and 0 before the first. */
  function Latest(r: seq<u16>): u16 {
    if r == [] then 0 else r[|r| - 1]
  }

  /** Before the first sample no condition holds. */
  predicate HoldsLast(e: Entry, r: seq<u16>) {
    r != [] && Holds(e, r[|r| - 1])
  }

  /** The edges of a condition over its samples. */
  function Edges(i: nat, e: Entry, r: seq<u16>): seq<Event>
    decreases |r|
  {
    if r == [] then []
    else
      var n := |r| - 1;
      Edges(i, e, r[..n]) +
      if Holds(e, r[n]) == HoldsLast(e, r[..n]) then [] else [Event(i, if Holds(e, r[n]) then Trigger else Clear, r[n])]
  }

  /** The changes of a register over its samples. */
  function Changes(i: nat, r: seq<u16>): seq<Event>
    decreases |r|
  {
    if r == [] then []
    else
      var n := |r| - 1;
      Changes(i, r[..n]) + if r[n] == Latest(r[..n]) then [] else [Event(i, Trigger, r[n])]
  }

  function Meaning(i: nat, e: Entry, r: seq<u16>): seq<Event> {
    if Sticky(e) then Edges(i, e, r) else if e.condition == Change then Changes(i, r) else []
  }

  predicate InStep(e: Entry, s: State, r: seq<u16>) {
    (Sticky(e) ==> s.active == HoldsLast(e, r)) && (e.condition == Change ==> s.prev == Latest(r))
  }

  /**
   In every history, unreadable samples included, the events of each entry are a function of its own readable
   samples: the edges of its condition, or the changes of its register. No other entry has any say in them.
   */
  lemma {:induction false} EventsAreMeaning(table: seq<Entry>, history: seq<seq<Option<u16>>>, i: nat)
    requires Rectangular(table, history) && i < |table|
    ensures Only(AllPasses(table, history).events, i) == Meaning(i, table[i], Readable(history, i))
    ensures InStep(table[i], AllPasses(table, history).states[i], Readable(history, i))
    decreases |history|
  {
    if history != [] {
      var n := |history| - 1;
      EventsAreMeaning(table, history[..n], i);
      LastPass(table, history, i);
      OneMoreSample(i, table[i], AllPasses(table, history[..n]).states[i], Readable(history[..n], i), history[n][i]);
    }
  }

  /** The last pass adds an entry's own step to its events. */
  lemma LastPass(table: seq<Entry>, history: seq<seq<Option<u16>>>, i: nat)
    requires Rectangular(table, history) && i < |table| && history != []
    ensures var n := |history| - 1;
      var before, after := AllPasses(table, history[..n]), AllPasses(table, history);
      var step := Passed(i, table[i], before.states[i], history[n][i]);
      after.states[i] == step.state && Only(after.events, i) == Only(before.events, i) + step.events
  {
    var n := |history| - 1;
    var before := AllPasses(table, history[..n]);
    OnlyConcat(before.events, EventsOf(Steps(table, before.states, history[n]), |table|), i);
    OnlyOfSteps(table, before.states, history[n], i);
  }

  lemma OnlyOfSteps(table: seq<Entry>, states: seq<State>, samples: seq<Option<u16>>, i: nat)
    requires |table| == |states| == |samples| && i < |table|
    ensures Only(EventsOf(Steps(table, states, samples), |table|), i) == Passed(i, table[i], states[i], samples[i]).events
  {
    var steps := Steps(table, states, samples);
    forall k | 0 <= k < |steps| ensures Tagged(steps[k].events, k) {
      PassedTagged(k, table[k], states[k], samples[k]);
    }
    OnlyOfPass(steps, EventsOf(steps, |table|), |table|, i);
  }

  function Extended(r: seq<u16>, sample: Option<u16>): seq<u16> {
    r + if sample.Some? then [sample.value] else []
  }

  lemma OneMoreSample(i: nat, e: Entry, s: State, r: seq<u16>, sample: Option<u16>)
    requires InStep(e, s, r)
    ensures Meaning(i, e, Extended(r, sample)) == Meaning(i, e, r) + Passed(i, e, s, sample).events
    ensures InStep(e, Passed(i, e, s, sample).state, Extended(r, sample))
  {
    if sample.Some? {
      assert Extended(r, sample)[..|r|] == r;
    } else {
      assert Extended(r, sample) == r;
    }
  }

  /** Edges alternate, starting with a trigger, and end as the condition stands. */
  lemma {:induction false} EdgesAlternate(i: nat, e: Entry, r: seq<u16>)
    ensures forall j :: 0 <= j < |Edges(i, e, r)| ==> Edges(i, e, r)[j].kind == if j % 2 == 0 then Trigger else Clear
    ensures |Edges(i, e, r)| % 2 == if HoldsLast(e, r) then 1 else 0
    decreases |r|
  {
    if r != [] {
      EdgesAlternate(i, e, r[..|r| - 1]);
    }
  }

  lemma {:induction false} EdgeValues(i: nat, e: Entry, r: seq<u16>, j: nat)
    requires j < |Edges(i, e, r)|
    ensures Edges(i, e, r)[j].value in r && (Edges(i, e, r)[j].kind == Trigger <==> Holds(e, Edges(i, e, r)[j].value))
    decreases |r|
  {
    var n := |r| - 1;
    if j < |Edges(i, e, r[..n])| {
      EdgeValues(i, e, r[..n], j);
    }
  }

  lemma StickyHistory(table: seq<Entry>, history: seq<seq<Option<u16>>>, i: nat)
    requires Rectangular(table, history) && i < |table| && Sticky(table[i])
    ensures var t, r := AllPasses(table, history), Readable(history, i);
      && (forall j :: 0 <= j < |Only(t.events, i)| ==>
            Only(t.events, i)[j].value in r && (Only(t.events, i)[j].kind == Trigger <==> Holds(table[i], Only(t.events, i)[j].value)))
      && (t.states[i].active <==> r != [] && Holds(table[i], r[|r| - 1]))
      && (t.states[i].active <==> |Only(t.events, i)| % 2 == 1)
  {
    var t, r := AllPasses(table, history), Readable(history, i);
    EventsAreMeaning(table, history, i);
    EdgesAlternate(i, table[i], r);
    forall j | 0 <= j < |Only(t.events, i)|
      ensures Only(t.events, i)[j].value in r && (Only(t.events, i)[j].kind == Trigger <==> Holds(table[i], Only(t.events, i)[j].value))
    {
      EdgeValues(i, table[i], r, j);
    }
  }

  /**
   A range entry, in every history: it triggers on samples below lo or above hi and clears on samples within
   them; it is active exactly if its last readable sample lies outside, and exactly if it has had an odd number
   of events.
   */
  lemma RangeAlarm(table: seq<Entry>, history: seq<seq<Option<u16>>>, i: nat)
    requires Rectangular(table, history) && i < |table| && table[i].condition == Range
    ensures var t, r, e := AllPasses(table, history), Readable(history, i), table[i];
      && (forall j :: 0 <= j < |Only(t.events, i)| ==>
            var event := Only(t.events, i)[j];
            && (event.kind == Trigger ==> event.value in r && (event.value < e.lo || event.value > e.hi))
            && (event.kind == Clear ==> event.value in r && e.lo <= event.value <= e.hi))
      && (t.states[i].active <==> r != [] && (r[|r| - 1] < e.lo || r[|r| - 1] > e.hi))
      && (t.states[i].active <==> |Only(t.events, i)| % 2 == 1)
  {
    StickyHistory(table, history, i);
  }

  /** A mask entry likewise, by the digits of the mask: it triggers when all of them are set. */
  lemma MaskAlarm(table: seq<Entry>, history: seq<seq<Option<u16>>>, i: nat)
    requires Rectangular(table, history) && i < |table| && table[i].condition == Bitmask
    ensures var t, r := AllPasses(table, history), Readable(history, i);
      && (forall j :: 0 <= j < |Only(t.events, i)| ==>
            var event := Only(t.events, i)[j];
            event.value in r && (event.kind == Trigger <==> AllSet(table[i].hi, event.value)))
      && (t.states[i].active <==> r != [] && AllSet(table[i].hi, r[|r| - 1]))
      && (t.states[i].active <==> |Only(t.events, i)| % 2 == 1)
  {
    StickyHistory(table, history, i);
    forall v: u16 ensures Holds(table[i], v) <==> AllSet(table[i].hi, v) {
      BitmaskMeansAllBits(table[i], v);
    }
  }

  /** So a sticky entry never raises twice without clearing in between, whatever the history. */
  lemma StickyAlternates(table: seq<Entry>, history: seq<seq<Option<u16>>>, i: nat, j: nat)
    requires Rectangular(table, history) && i < |table| && Sticky(table[i])
    requires j < |Only(AllPasses(table, history).events, i)|
    ensures Only(AllPasses(table, history).events, i)[j].kind == if j % 2 == 0 then Trigger else Clear
  {
    EventsAreMeaning(table, history, i);
    EdgesAlternate(i, table[i], Readable(history, i));
  }

  /** The number of samples that differ from the one before, the first from 0. */
  function Jumps(r: seq<u16>): nat
    decreases |r|
  {
    if r == [] then 0 else Jumps(r[..|r| - 1]) + if r[|r| - 1] == Latest(r[..|r| - 1]) then 0 else 1
  }

  lemma {:induction false} ChangesNeverClear(i: nat, r: seq<u16>)
    ensures |Changes(i, r)| == Jumps(r)
    ensures forall j :: 0 <= j < |Changes(i, r)| ==> Changes(i, r)[j].kind == Trigger
    decreases |r|
  {
    if r != [] {
      ChangesNeverClear(i, r[..|r| - 1]);
    }
  }

  /** A change entry raises exactly once per change and never clears. */
  lemma ChangeRaisesPerChange(table: seq<Entry>, history: seq<seq<Option<u16>>>, i: nat)
    requires Rectangular(table, history) && i < |table| && table[i].condition == Change
    ensures var events := Only(AllPasses(table, history).events, i);
      && |events| == Jumps(Readable(history, i))
      && forall j :: 0 <= j < |events| ==> events[j].kind == Trigger
  {
    EventsAreMeaning(table, history, i);
    ChangesNeverClear(i, Readable(history, i));
  }
}
