/**
 The echo filter of the sndio mixer: the values written to a control and not yet reported back, and the level they
 guard. A report of a value in flight is this client's own echo; any other report is news.
*/
module EchoModel {
  const CAPACITY: nat := 32
  const WORD: nat := 0x1_0000_0000

  type u32 = x: int | 0 <= x < WORD

  /** The oldest write gives way once `CAPACITY` are in flight. */
  function Sent(queue: seq<u32>, v: u32): seq<u32> {
    (if |queue| >= CAPACITY then queue[1..] else queue) + [v]
  }

  /** Where a value first stands in the queue. */
  function First(queue: seq<u32>, v: u32): (i: nat)
    ensures i <= |queue| && (forall k :: 0 <= k < i ==> queue[k] != v)
    ensures i < |queue| ==> queue[i] == v
  {
    if queue == [] || queue[0] == v then 0 else 1 + First(queue[1..], v)
  }

  /** A value in flight is done, and every write before it; any other supersedes them all. */
  function Echoed(queue: seq<u32>, v: u32): seq<u32> {
    var i := First(queue, v);
    if i < |queue| then queue[i + 1..] else []
  }

  /** One control: its level, and its writes in flight. */
  datatype Control = Control(level: u32, queue: seq<u32>)

  /** A value sent whatever the control is at, as a mute is. */
  function Force(c: Control, v: u32): Control {
    Control(v, Sent(c.queue, v))
  }

  /** A value sent unless the control is at it, as a level is. */
  function Write(c: Control, v: u32): Control {
    if v == c.level then c else Force(c, v)
  }

  function Report(c: Control, v: u32): Control {
    Control(if v in c.queue then c.level else v, Echoed(c.queue, v))
  }

  // ----- runs -----

  /** A value asked for by this client, a control described anew, or the report of the `index`th value sent. */
  datatype Event = Wrote(v: u32) | Forced(v: u32) | Described(v: u32) | Reported(index: nat)

  /** A control amid a run: what was really written to it, and the first write not passed over by the reports. */
  datatype Run = Run(control: Control, written: seq<u32>, due: nat)

  function Start(level: u32): Run { Run(Control(level, []), [], 0) }

  /** Reports come in the order of the writes, perhaps with gaps, and at most `CAPACITY` writes late. */
  predicate Timely(r: Run, e: Event) {
    e.Reported? ==> r.due <= e.index < |r.written| <= e.index + CAPACITY
  }

  function Happen(r: Run, e: Event): Run
    requires Timely(r, e)
    decreases e.Wrote?
  {
    match e
    case Wrote(v) =>
      if v == r.control.level then r else Happen(r, Forced(v))
    case Forced(v) => Run(Force(r.control, v), r.written + [v], r.due)
    case Described(v) => r.(control := r.control.(level := v))
    case Reported(index) => Run(Report(r.control, r.written[index]), r.written, index + 1)
  }

  function Level(initial: u32, written: seq<u32>): u32 {
    if written == [] then initial else written[|written| - 1]
  }

  /** The level last asked for or described. */
  function Last(level: u32, events: seq<Event>): u32
    decreases |events|
  {
    if events == [] then level
    else Last(if events[0].Reported? then level else events[0].v, events[1..])
  }

  /** The queue is an end of all that was written, long enough to hold every write whose report may still come. */
  ghost predicate Inv(r: Run) {
    && |r.control.queue| <= |r.written| && |r.control.queue| <= CAPACITY
    && r.control.queue == r.written[|r.written| - |r.control.queue|..]
    && (|r.written| - |r.control.queue| <= r.due || |r.written| - |r.control.queue| <= |r.written| - CAPACITY)
    && r.due <= |r.written|
  }

  lemma ForceKeeps(r: Run, v: u32)
    requires Inv(r)
    ensures Inv(Happen(r, Forced(v)))
  {
    var n, q := |r.written|, |r.control.queue|;
    var written := r.written + [v];
    if q >= CAPACITY {
      assert r.control.queue[1..] + [v] == written[n - q + 1..];
    } else {
      assert r.control.queue + [v] == written[n - q..];
    }
  }

  /** What this client asks for, or is told of a control, is the level from then on. */
  lemma OtherKeeps(r: Run, e: Event)
    requires Inv(r) && !e.Reported?
    ensures Inv(Happen(r, e)) && Happen(r, e).control.level == e.v
  {
    hide Sent;
    ForceKeeps(r, e.v);
  }

  /** The first match is no later than the write reported, so the writes still due stay in the queue. */
  lemma EchoedIsEnd(written: seq<u32>, from: nat, index: nat)
    requires from <= index < |written|
    ensures var i := First(written[from..], written[index]);
      && from + i <= index && Echoed(written[from..], written[index]) == written[from + i + 1..]
      && written[index] in written[from..]
  {
    var queue := written[from..];
    assert queue[index - from] == written[index];
    var i := First(queue, written[index]);
    assert queue[i + 1..] == written[from + i + 1..];
  }

  lemma ReportKeeps(r: Run, index: nat)
    requires Inv(r) && Timely(r, Reported(index))
    ensures Inv(Happen(r, Reported(index)))
    ensures r.written[index] in r.control.queue
    ensures Happen(r, Reported(index)).control.level == r.control.level
  {
    hide First, Echoed;
    EchoedIsEnd(r.written, |r.written| - |r.control.queue|, index);
  }

  ghost predicate AllTimely(r: Run, events: seq<Event>)
    decreases |events|
  {
    events == [] || (Timely(r, events[0]) && AllTimely(Happen(r, events[0]), events[1..]))
  }

  ghost function After(r: Run, events: seq<Event>): Run
    requires AllTimely(r, events)
    decreases |events|
  {
    if events == [] then r else After(Happen(r, events[0]), events[1..])
  }

  lemma {:induction false} AfterKeeps(r: Run, events: seq<Event>)
    requires Inv(r) && AllTimely(r, events)
    ensures Inv(After(r, events)) && After(r, events).control.level == Last(r.control.level, events)
    decreases |events|
  {
    hide Inv, Happen;
    if events != [] {
      if events[0].Reported? {
        ReportKeeps(r, events[0].index);
      } else {
        OtherKeeps(r, events[0]);
      }
      AfterKeeps(Happen(r, events[0]), events[1..]);
    }
  }

  lemma StartHolds(level: u32)
    ensures Inv(Start(level))
  {
  }

  /**
   However requests, descriptions and timely reports fall, of a level or of a mute, the control is always at what was
   last asked for or described, and the next timely report is taken for the echo it is.
  */
  lemma EchoesAreSilent(initial: u32, events: seq<Event>, next: nat)
    requires AllTimely(Start(initial), events)
    ensures var r := After(Start(initial), events);
      && r.control.level == Last(initial, events)
      && (Timely(r, Reported(next)) ==>
        && r.written[next] in r.control.queue
        && Report(r.control, r.written[next]).level == r.control.level)
  {
    StartHolds(initial);
    AfterKeeps(Start(initial), events);
    var r := After(Start(initial), events);
    if Timely(r, Reported(next)) {
      ReportKeeps(r, next);
    }
  }

  /** A value not in flight is news: it becomes the level, and nothing in flight outlives it. */
  lemma NewsSupersedes(c: Control, v: u32)
    ensures v !in c.queue <==> First(c.queue, v) == |c.queue|
    ensures v !in c.queue ==> Report(c, v) == Control(v, [])
    ensures v in c.queue ==> Report(c, v).level == c.level && |Report(c, v).queue| < |c.queue|
  {
    if v in c.queue {
      var k :| 0 <= k < |c.queue| && c.queue[k] == v;
    }
  }

  function WriteAll(c: Control, values: seq<u32>): Control {
    if values == [] then c else Write(WriteAll(c, values[..|values| - 1]), values[|values| - 1])
  }

  function Newest(values: seq<u32>): seq<u32> {
    values[if |values| > CAPACITY then |values| - CAPACITY else 0..]
  }

  lemma SentIsNewest(values: seq<u32>, v: u32)
    ensures Sent(Newest(values), v) == Newest(values + [v])
  {
  }

  lemma LastIsNew(level: u32, values: seq<u32>)
    requires values != [] && level !in values
    requires forall i, j :: 0 <= i < j < |values| ==> values[i] != values[j]
    ensures Level(level, values[..|values| - 1]) != values[|values| - 1]
  {
    if |values| > 1 {
      assert values[|values| - 2] != values[|values| - 1];
    }
  }

  /** Writes that each change the level leave the last `CAPACITY` of them in flight. */
  lemma {:induction false} BurstKeepsTheLast(level: u32, values: seq<u32>)
    requires forall i, j :: 0 <= i < j < |values| ==> values[i] != values[j]
    requires level !in values
    ensures WriteAll(Control(level, []), values) == Control(Level(level, values), Newest(values))
  {
    if values != [] {
      hide Sent, Newest;
      var before, v := values[..|values| - 1], values[|values| - 1];
      BurstKeepsTheLast(level, before);
      LastIsNew(level, values);
      SentIsNewest(before, v);
      assert values == before + [v];
    }
  }

  /** The bound is exact: of a burst of one more than `CAPACITY` different values the first one's report is believed. */
  lemma OneLaterIsBelieved(level: u32, values: seq<u32>)
    requires |values| == CAPACITY + 1 && level !in values
    requires forall i, j :: 0 <= i < j < |values| ==> values[i] != values[j]
    ensures var c := WriteAll(Control(level, []), values);
      Report(c, values[0]) == Control(values[0], []) && c.level != values[0]
  {
    BurstKeepsTheLast(level, values);
    var c := WriteAll(Control(level, []), values);
    assert values[0] !in c.queue;
    NewsSupersedes(c, values[0]);
  }
}
