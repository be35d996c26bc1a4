/**
 The device side: the atomic ioctl of the KMS emulator, its flip thread and the flip hold. A request names
 objects, how many properties each sets, and two parallel arrays of property ids and values; it is checked
 whole before anything is applied.
*/
module FakeKms {
  const ENOENT := 2
  const ENOMEM := 12
  const EBUSY := 16

  const WORD: nat := 0x1_0000_0000

  type errno = x: int | 0 < x witness ENOENT
  type u32 = x: int | 0 <= x < WORD

  // the properties the model names; the others are ids like any
  const PLANE_FB: u32 := 1
  const CRTC_ACTIVE: u32 := 2
  const CURSOR_FB: u32 := 3
  const MAX_BPC: u32 := 4
  const LINK_BPC: u32 := 5

  datatype Prop = Prop(obj: u32, value: nat)
  datatype Setting = Setting(obj: u32, prop: u32, value: nat)
  datatype Request = Request(settings: seq<Setting>, test: bool, event: bool, user: nat)
  datatype Event = Event(user: nat, sequence: u32)

  /** Which settings the display refuses, with what errno (0 takes it), and a number of outright failures owed. */
  datatype Faults = Faults(refuse: (bool, Setting) -> nat, fail: nat, failErr: errno, failTests: bool)

  datatype Device = Device(props: map<u32, Prop>, linkCap: nat, faults: Faults, flipPending: bool, user: nat,
                           held: bool, sequence: u32, done: nat, queue: seq<Event>)

  // ----- the atomic ioctl -----

  function Verdict(d: Device, s: Setting, test: bool): nat {
    if s.prop !in d.props || d.props[s.prop].obj != s.obj then ENOENT else d.faults.refuse(test, s)
  }

  /** The errno of the first setting that is refused, 0 when none is. */
  function Refusal(d: Device, ss: seq<Setting>, test: bool): nat {
    if ss == [] then 0 else
      var e := Refusal(d, ss[..|ss| - 1], test);
      if e != 0 then e else Verdict(d, ss[|ss| - 1], test)
  }

  function Apply(props: map<u32, Prop>, cap: nat, s: Setting): map<u32, Prop> {
    var set1 := props[s.prop := Prop(s.obj, s.value)];
    if s.prop == MAX_BPC && LINK_BPC in set1
    then set1[LINK_BPC := Prop(set1[LINK_BPC].obj, if s.value < cap then s.value else cap)]
    else set1
  }

  function ApplyAll(props: map<u32, Prop>, cap: nat, ss: seq<Setting>): map<u32, Prop> {
    if ss == [] then props else Apply(ApplyAll(props, cap, ss[..|ss| - 1]), cap, ss[|ss| - 1])
  }

  /** A request: the errno, 0 when it was taken, and the device after it. */
  function Atomic(d: Device, r: Request): (nat, Device) {
    if !r.test && d.flipPending then (EBUSY, d)
    else if Refusal(d, r.settings, r.test) != 0 then (Refusal(d, r.settings, r.test), d)
    else if (!r.test || d.faults.failTests) && d.faults.fail > 0 then
      (d.faults.failErr, d.(faults := d.faults.(fail := d.faults.fail - 1)))
    else if r.test then (0, d)
    else
      var applied := d.(props := ApplyAll(d.props, d.linkCap, r.settings));
      (0, if r.event then applied.(flipPending := true, user := r.user) else applied)
  }

  /** The flip thread: one completion event for the pending flip, unless flips are held. */
  function Flip(d: Device): Device {
    if !d.flipPending || d.held then d else
      var n := (d.sequence + 1) % WORD;
      d.(sequence := n, flipPending := false, done := d.done + 1, queue := d.queue + [Event(d.user, n)])
  }

  // ----- armed failures -----

  /** A real request made so many times over. */
  function Tried(d: Device, r: Request, times: nat): Device {
    if times == 0 then d else Atomic(Tried(d, r, times - 1), r).1
  }

  /** Exactly the failures armed befall requests that nothing else refuses, with their errno and no other trace. */
  lemma {:induction false} ArmedFailures(d: Device, r: Request, times: nat)
    requires !r.test && !d.flipPending && Refusal(d, r.settings, false) == 0 && times <= d.faults.fail
    ensures var t := Tried(d, r, times);
      && t == d.(faults := d.faults.(fail := d.faults.fail - times))
      && Atomic(t, r).0 == if times < d.faults.fail then d.faults.failErr else 0
  {
    hide Refusal;
    SameVerdicts(d, r.settings, d.faults.fail - times);
    if times > 0 {
      SameVerdicts(d, r.settings, d.faults.fail - (times - 1));
      ArmedFailures(d, r, times - 1);
    }
  }

  lemma {:induction false} SameVerdicts(d: Device, ss: seq<Setting>, fail: nat)
    ensures Refusal(d.(faults := d.faults.(fail := fail)), ss, false) == Refusal(d, ss, false)
  {
    if ss != [] {
      SameVerdicts(d, ss[..|ss| - 1], fail);
    }
  }

  // ----- atomicity -----

  /** The value the settings leave in property `p`, if they touch it; the link follows the depth it was allowed. */
  function Final(cap: nat, ss: seq<Setting>, p: u32): (v: seq<nat>)
    ensures |v| <= 1
  {
    if ss == [] then [] else
      var s := ss[|ss| - 1];
      if p == LINK_BPC && s.prop == MAX_BPC then [if s.value < cap then s.value else cap]
      else if s.prop == p then [s.value]
      else Final(cap, ss[..|ss| - 1], p)
  }

  ghost predicate Known(props: map<u32, Prop>, ss: seq<Setting>) {
    forall k :: 0 <= k < |ss| ==> ss[k].prop in props && props[ss[k].prop].obj == ss[k].obj
  }

  lemma {:induction false} RefusalKnown(d: Device, ss: seq<Setting>, test: bool)
    requires Refusal(d, ss, test) == 0
    ensures Known(d.props, ss)
    ensures forall k :: 0 <= k < |ss| ==> d.faults.refuse(test, ss[k]) == 0
  {
    if ss != [] {
      var front := ss[..|ss| - 1];
      RefusalKnown(d, front, test);
      assert ss == front + [ss[|ss| - 1]];
    }
  }

  lemma ApplyValue(props: map<u32, Prop>, cap: nat, s: Setting, p: u32)
    requires s.prop in props && props[s.prop].obj == s.obj && p in props
    ensures Apply(props, cap, s).Keys == props.Keys
    ensures Apply(props, cap, s)[p] ==
      Prop(props[p].obj, if p == LINK_BPC && s.prop == MAX_BPC then (if s.value < cap then s.value else cap)
                         else if s.prop == p then s.value else props[p].value)
  {
  }

  lemma KnownAfter(props: map<u32, Prop>, after: map<u32, Prop>, ss: seq<Setting>)
    requires Known(props, ss) && after.Keys == props.Keys && forall p :: p in props ==> after[p].obj == props[p].obj
    ensures Known(after, ss)
  {
  }

  lemma {:induction false} ApplyAllValues(props: map<u32, Prop>, cap: nat, ss: seq<Setting>)
    requires Known(props, ss)
    ensures var after := ApplyAll(props, cap, ss);
      && after.Keys == props.Keys
      && forall p :: p in props ==>
           after[p] == (var v := Final(cap, ss, p); if v == [] then props[p] else Prop(props[p].obj, v[0]))
  {
    if ss != [] {
      hide Apply;
      var front, s := ss[..|ss| - 1], ss[|ss| - 1];
      ApplyAllValues(props, cap, front);
      var before := ApplyAll(props, cap, front);
      KnownAfter(props, before, ss);
      forall p | p in props
        ensures p in ApplyAll(props, cap, ss)
        ensures ApplyAll(props, cap, ss)[p] ==
          (var v := Final(cap, ss, p); if v == [] then props[p] else Prop(props[p].obj, v[0]))
      {
        ApplyValue(before, cap, s, p);
      }
      ApplyValue(before, cap, s, s.prop);
    }
  }

  /**
   A request that fails or only tests changes no property, queues nothing and starts no flip; one that is
   taken sets every property it names to its last value, and nothing else but the link depth.
  */
  lemma AtomicIsAllOrNothing(d: Device, r: Request)
    ensures var (e, d') := Atomic(d, r);
      if e != 0 || r.test then
        d' == d || d' == d.(faults := d.faults.(fail := d'.faults.fail))
      else
        && Known(d.props, r.settings) && d'.props.Keys == d.props.Keys
        && (forall p :: p in d.props ==>
              d'.props[p] == (var v := Final(d.linkCap, r.settings, p);
                              if v == [] then d.props[p] else Prop(d.props[p].obj, v[0])))
        && d' == d.(props := d'.props, flipPending := r.event, user := if r.event then r.user else d.user)
        && !d.flipPending
  {
    if Atomic(d, r).0 == 0 && Refusal(d, r.settings, r.test) == 0 {
      RefusalKnown(d, r.settings, r.test);
      ApplyAllValues(d.props, d.linkCap, r.settings);
    }
  }

  // ----- every accepted event commit completes once -----

  datatype Step = Submit(request: Request) | Thread | Hold(on: bool) | SetFaults(faults: Faults)

  function Take(d: Device, s: Step): Device {
    match s
    case Submit(r) => Atomic(d, r).1
    case Thread => Flip(d)
    case Hold(on) => d.(held := on)
    case SetFaults(f) => d.(faults := f)
  }

  function Run(d: Device, steps: seq<Step>): Device {
    if steps == [] then d else Take(Run(d, steps[..|steps| - 1]), steps[|steps| - 1])
  }

  /** The user data of the event commits that were accepted, in order. */
  function Accepted(d: Device, steps: seq<Step>): seq<nat> {
    if steps == [] then [] else
      var front, s := steps[..|steps| - 1], steps[|steps| - 1];
      var before := Run(d, front);
      Accepted(d, front) +
      if s.Submit? && s.request.event && !s.request.test && Atomic(before, s.request).0 == 0
      then [s.request.user] else []
  }

  /** The events queued are the first of these completions, in order, numbered from one; the last may be owed. */
  ghost predicate Delivered(d: Device, users: seq<nat>) {
    && |users| == |d.queue| + (if d.flipPending then 1 else 0)
    && (forall k :: 0 <= k < |d.queue| ==> d.queue[k] == Event(users[k], (k + 1) % WORD))
    && (d.flipPending ==> d.user == users[|users| - 1])
    && d.done == |d.queue| && d.sequence == |d.queue| % WORD
  }

  lemma SubmitDelivers(d: Device, users: seq<nat>, r: Request)
    requires Delivered(d, users)
    ensures Delivered(Atomic(d, r).1, users + if r.event && !r.test && Atomic(d, r).0 == 0 then [r.user] else [])
  {
    hide Atomic, Known, Final;
    assert users + [] == users;
    AtomicIsAllOrNothing(d, r);
  }

  lemma FlipDelivers(d: Device, users: seq<nat>)
    requires Delivered(d, users)
    ensures Delivered(Flip(d), users)
  {
  }

  /**
   From a device that has delivered nothing: the events delivered are those of the accepted event commits, in
   order, numbered from one, and the only one that can be missing is that of the flip still pending.
  */
  lemma {:induction false} EveryFlipCompletesOnce(d: Device, steps: seq<Step>)
    requires !d.flipPending && d.queue == [] && d.sequence == 0 && d.done == 0
    ensures Delivered(Run(d, steps), Accepted(d, steps))
  {
    hide Atomic;
    if steps != [] {
      var front, s := steps[..|steps| - 1], steps[|steps| - 1];
      EveryFlipCompletesOnce(d, front);
      var before, users := Run(d, front), Accepted(d, front);
      match s
      case Submit(r) => SubmitDelivers(before, users, r);
      case Thread =>
        FlipDelivers(before, users);
        assert users + [] == users;
      case _ => assert users + [] == users;
    }
  }

  /** A pending flip completes at the flip thread's next turn once flips are no longer held. */
  lemma HeldFlipIsReleased(d: Device)
    requires d.flipPending
    ensures var h := Flip(d.(held := true)); h.flipPending && h.queue == d.queue
    ensures var r := Flip(Flip(d.(held := true)).(held := false));
      !r.flipPending && r.queue == d.queue + [Event(d.user, r.sequence)]
  {
  }

  // ----- the emulator -----

  /** A request as it arrives: objects, the number of properties of each, and the flat id and value arrays. */
  datatype Raw = Raw(objs: seq<u32>, counts: seq<nat>, ids: seq<u32>, values: seq<nat>)

  function Start(r: Raw, n: nat): nat
    requires n <= |r.counts|
  {
    if n == 0 then 0 else Start(r, n - 1) + r.counts[n - 1]
  }

  ghost predicate WellFormed(r: Raw) {
    |r.objs| == |r.counts| && |r.ids| == |r.values| == Start(r, |r.counts|)
  }

  lemma {:induction false} StartMonotone(r: Raw, m: nat, n: nat)
    requires m <= n <= |r.counts|
    ensures Start(r, m) <= Start(r, n)
  {
    if m < n {
      StartMonotone(r, m, n - 1);
    }
  }

  /** The settings of the first `n` objects. */
  ghost function Flat(r: Raw, n: nat): (ss: seq<Setting>)
    requires WellFormed(r) && n <= |r.objs|
    ensures |ss| == Start(r, n)
  {
    if n == 0 then [] else
      StartMonotone(r, n, |r.counts|);
      Flat(r, n - 1) + Group(r, n - 1, r.counts[n - 1])
  }

  /** The first `m` settings of object `i`. */
  ghost function Group(r: Raw, i: nat, m: nat): (ss: seq<Setting>)
    requires WellFormed(r) && i < |r.objs| && m <= r.counts[i]
    ensures |ss| == m
  {
    StartMonotone(r, i + 1, |r.counts|);
    seq(m, j requires 0 <= j < m => Setting(r.objs[i], r.ids[Start(r, i) + j], r.values[Start(r, i) + j]))
  }

  /** The settings before the `j`th of object `i`. */
  ghost function Before(r: Raw, i: nat, j: nat): seq<Setting>
    requires WellFormed(r) && i < |r.objs| && j <= r.counts[i]
  {
    Flat(r, i) + Group(r, i, j)
  }

  lemma ValidateNone(d: Device, r: Raw, test: bool)
    requires WellFormed(r)
    ensures Refusal(d, Flat(r, 0), test) == 0 && ApplyAll(d.props, d.linkCap, Flat(r, 0)) == d.props
  {
  }

  lemma BeforeEnds(r: Raw, i: nat)
    requires WellFormed(r) && i < |r.objs|
    ensures Before(r, i, 0) == Flat(r, i) && Before(r, i, r.counts[i]) == Flat(r, i + 1)
    ensures Start(r, i + 1) == Start(r, i) + r.counts[i]
  {
  }

  /** The entry the walk is at, and what it adds to the checks and to the table. */
  lemma BeforeNext(d: Device, r: Raw, i: nat, j: nat, test: bool)
    requires WellFormed(r) && i < |r.objs| && j < r.counts[i]
    ensures Start(r, i) + j < |r.ids|
    ensures var k := Start(r, i) + j; var s := Setting(r.objs[i], r.ids[k], r.values[k]);
      var front, next := Before(r, i, j), Before(r, i, j + 1);
      && (Refusal(d, front, test) == 0 ==> Refusal(d, next, test) == Verdict(d, s, test))
      && ApplyAll(d.props, d.linkCap, next) == Apply(ApplyAll(d.props, d.linkCap, front), d.linkCap, s)
  {
    StartMonotone(r, i + 1, |r.counts|);
    var k := Start(r, i) + j;
    assert Group(r, i, j + 1) == Group(r, i, j) + [Group(r, i, j + 1)[j]];
    assert Before(r, i, j + 1)[..|Before(r, i, j)|] == Before(r, i, j);
  }

  lemma RefusalFinal(d: Device, r: Raw, i: nat, j: nat, test: bool)
    requires WellFormed(r) && i < |r.objs| && j <= r.counts[i] && Refusal(d, Before(r, i, j), test) != 0
    ensures Refusal(d, Flat(r, |r.objs|), test) == Refusal(d, Before(r, i, j), test)
  {
    var rest := FlatPrefix(r, i, j);
    RefusalSticks(d, Before(r, i, j), rest, test);
  }

  lemma {:induction false} RefusalSticks(d: Device, done: seq<Setting>, rest: seq<Setting>, test: bool)
    requires Refusal(d, done, test) != 0
    ensures Refusal(d, done + rest, test) == Refusal(d, done, test)
  {
    if rest == [] {
      assert done + rest == done;
    } else {
      var front := rest[..|rest| - 1];
      RefusalSticks(d, done, front, test);
      assert (done + rest)[..|done + rest| - 1] == done + front;
    }
  }

  lemma {:induction false} FlatPrefix(r: Raw, i: nat, j: nat) returns (rest: seq<Setting>)
    requires WellFormed(r) && i < |r.objs| && j <= r.counts[i]
    ensures Flat(r, |r.objs|) == Before(r, i, j) + rest
  {
    StartMonotone(r, i + 1, |r.objs|);
    FlatExtends(r, i + 1, |r.objs|);
    rest := Flat(r, |r.objs|)[Start(r, i) + j..];
    assert Group(r, i, r.counts[i])[..j] == Group(r, i, j);
    assert Flat(r, i + 1)[..Start(r, i) + j] == Before(r, i, j);
  }

  lemma {:induction false} FlatExtends(r: Raw, m: nat, n: nat)
    requires WellFormed(r) && m <= n <= |r.objs|
    ensures Start(r, m) <= Start(r, n) && Flat(r, n)[..Start(r, m)] == Flat(r, m)
  {
    if m < n {
      FlatExtends(r, m, n - 1);
    }
  }

  class Emulator {
    var props: map<u32, Prop>
    var linkCap: nat
    var faults: Faults
    var flipPending: bool
    var user: nat
    var held: bool
    var sequence: u32
    var done: nat
    var queue: seq<Event>

    ghost function View(): Device
      reads this
    {
      Device(props, linkCap, faults, flipPending, user, held, sequence, done, queue)
    }

    constructor (table: map<u32, Prop>, cap: nat, f: Faults)
      ensures View() == Device(table, cap, f, false, 0, false, 0, 0, [])
    {
      props, linkCap, faults := table, cap, f;
      flipPending, user, held, sequence, done, queue := false, 0, false, 0, 0, [];
    }

    /** The first walk: every setting is checked before any is applied. */
    method Validate(r: Raw, test: bool) returns (err: nat)
      requires WellFormed(r)
      ensures err == Refusal(View(), Flat(r, |r.objs|), test)
    {
      hide Flat, Group, Before, Refusal;
      var k := 0;
      ValidateNone(View(), r, test);
      for i := 0 to |r.objs|
        invariant k == Start(r, i) && Refusal(View(), Flat(r, i), test) == 0
      {
        BeforeEnds(r, i);
        for j := 0 to r.counts[i]
          invariant k == Start(r, i) + j && Refusal(View(), Before(r, i, j), test) == 0
        {
          BeforeNext(View(), r, i, j, test);
          var s := Setting(r.objs[i], r.ids[k], r.values[k]);
          var verdict := if s.prop !in props || props[s.prop].obj != s.obj then ENOENT else faults.refuse(test, s);
          if verdict != 0 {
            RefusalFinal(View(), r, i, j + 1, test);
            return verdict;
          }
          k := k + 1;
        }
      }
      return 0;
    }

    /** The second walk: the settings land in the table in order. */
    method ApplySettings(r: Raw)
      requires WellFormed(r)
      modifies this`props
      ensures props == ApplyAll(old(props), linkCap, Flat(r, |r.objs|))
    {
      hide Flat, Group, Before, ApplyAll, Refusal, Verdict;
      ghost var was := View();
      var k := 0;
      ValidateNone(was, r, false);
      for i := 0 to |r.objs|
        invariant k == Start(r, i) && props == ApplyAll(was.props, linkCap, Flat(r, i))
      {
        BeforeEnds(r, i);
        for j := 0 to r.counts[i]
          invariant k == Start(r, i) + j && props == ApplyAll(was.props, linkCap, Before(r, i, j))
        {
          BeforeNext(was, r, i, j, false);
          var s := Setting(r.objs[i], r.ids[k], r.values[k]);
          props := props[s.prop := Prop(s.obj, s.value)];
          if s.prop == MAX_BPC && LINK_BPC in props {
            props := props[LINK_BPC := Prop(props[LINK_BPC].obj, if s.value < linkCap then s.value else linkCap)];
          }
          k := k + 1;
        }
      }
    }

    method EmuAtomic(r: Raw, test: bool, event: bool, data: nat) returns (err: nat)
      requires WellFormed(r)
      modifies this
      ensures (err, View()) == Atomic(old(View()), Request(Flat(r, |r.objs|), test, event, data))
    {
      hide Flat, ApplyAll, Refusal;
      if !test && flipPending {
        return EBUSY;
      }
      err := Validate(r, test);
      if err != 0 {
        return;
      }
      if (!test || faults.failTests) && faults.fail > 0 {
        faults := faults.(fail := faults.fail - 1);
        return faults.failErr;
      }
      if test {
        return 0;
      }
      ApplySettings(r);
      if event {
        flipPending, user := true, data;
      }
    }

    /** One turn of the flip thread's loop. */
    method FlipLoop()
      modifies this
      ensures View() == Flip(old(View()))
    {
      if !flipPending || held {
        return;
      }
      sequence := (sequence + 1) % WORD;
      flipPending := false;
      done := done + 1;
      queue := queue + [Event(user, sequence)];
    }

    method HoldFlips(hold: bool)
      modifies this
      ensures View() == old(View()).(held := hold)
    {
      held := hold;
    }
  }
}
