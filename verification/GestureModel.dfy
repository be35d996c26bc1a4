/**
 Who gets a gesture: the router walks the input sinks, the desktop first and the seat last, to the one that claims a
 begin, and keeps it as the owner of the gesture until it is told of the end. The seat claims everything; how the
 sinks in between answer is left open, as one answer for each call ever made.
*/
module GestureModel {
  datatype Option<T> = None | Some(value: T)

  datatype Kind = Swipe | Pinch | Hold

  datatype What = Began | Moved | Ended(cancelled: bool)

  /** A call to a sink, as the owner of the gesture or to ask whether it claims, with its answer; or a sink's death. */
  datatype Call = Call(sink: nat, kind: Kind, what: What, own: bool, claimed: bool) | Died(sink: nat)

  const DESKTOP: nat := 0
  const SEAT: nat := 1

  /** The desktop as a sink: locked, the kinds a setting binds an action to, the gestures it took for its own. */
  datatype Desk = Desk(locked: bool, bound: set<Kind>, owned: set<Kind>)

  datatype Router = Router(others: seq<nat>, owner: map<Kind, nat>, desk: Desk, log: seq<Call>)

  function Sinks(r: Router): seq<nat> { [DESKTOP] + r.others + [SEAT] }

  /** The desktop claims what it began, and everything once locked; a hold only then. */
  function DeskClaims(d: Desk, kind: Kind, what: What): bool {
    match what
    case Began => d.locked || (kind in d.bound && kind != Hold)
    case _ => kind in d.owned || d.locked
  }

  function DeskAfter(d: Desk, kind: Kind, what: What): Desk {
    match what
    case Began =>
      d.(owned := if kind != Hold && DeskClaims(d, kind, what) then d.owned + {kind} else d.owned - {kind})
    case Moved => d
    case Ended(_) => d.(owned := d.owned - {kind})
  }

  function Answer(r: Router, s: nat, kind: Kind, what: What, answers: nat -> bool): bool {
    if s == DESKTOP then DeskClaims(r.desk, kind, what) else s == SEAT || answers(|r.log|)
  }

  function Tell(r: Router, s: nat, kind: Kind, what: What, own: bool, answers: nat -> bool): Router {
    r.(log := r.log + [Call(s, kind, what, own, Answer(r, s, kind, what, answers))],
       desk := if s == DESKTOP then DeskAfter(r.desk, kind, what) else r.desk)
  }

  /** Where a walk from the `i`th sink stops, and what it leaves: at the owner unasked, or at the first claimant. */
  function Walk(r: Router, kind: Kind, what: What, owner: Option<nat>, i: nat, answers: nat -> bool): (w: (nat, Router))
    requires i < |Sinks(r)|
    ensures i <= w.0 < |Sinks(r)| && w.1.others == r.others && w.1.owner == r.owner
    decreases |Sinks(r)| - i
  {
    var s := Sinks(r)[i];
    if owner == Some(s) then (i, r) else
      var told := Tell(r, s, kind, what, false, answers);
      if Answer(r, s, kind, what, answers) then (i, told) else Walk(told, kind, what, owner, i + 1, answers)
  }

  function Release(r: Router, kind: Kind): Router {
    r.(owner := r.owner - {kind})
  }

  function Begin(r: Router, kind: Kind, answers: nat -> bool): Router {
    var ended := if kind in r.owner then Release(Tell(r, r.owner[kind], kind, Ended(true), true, answers), kind) else r;
    var (i, asked) := Walk(ended, kind, Began, None, 0, answers);
    asked.(owner := asked.owner[kind := Sinks(asked)[i]])
  }

  function Update(r: Router, kind: Kind, answers: nat -> bool): Router {
    if kind !in r.owner then r else
      var owner := r.owner[kind];
      var (i, asked) := Walk(r, kind, Moved, Some(owner), 0, answers);
      if Sinks(asked)[i] == owner then Tell(asked, owner, kind, Moved, true, answers)
      else Tell(Release(asked, kind), owner, kind, Ended(true), true, answers)
  }

  function End(r: Router, kind: Kind, cancelled: bool, answers: nat -> bool): Router {
    if kind !in r.owner then r else
      var owner := r.owner[kind];
      var (i, asked) := Walk(r, kind, Ended(cancelled), Some(owner), 0, answers);
      Tell(Release(asked, kind), owner, kind, Ended(cancelled || Sinks(asked)[i] != owner), true, answers)
  }

  /** A sink in the middle dies: it leaves the list, and what it owned is nobody's. */
  function Die(r: Router, s: nat): Router {
    if s !in r.others then r else
      r.(others := Without(r.others, s), log := r.log + [Died(s)],
         owner := map kind <- r.owner | r.owner[kind] != s :: r.owner[kind])
  }

  function Without(sinks: seq<nat>, s: nat): (t: seq<nat>)
    ensures forall x :: x in t <==> x in sinks && x != s
  {
    if sinks == [] then [] else (if sinks[0] == s then [] else [sinks[0]]) + Without(sinks[1..], s)
  }

  datatype Event =
    | Start(kind: Kind) | Move(kind: Kind) | Stop(kind: Kind, cancelled: bool)
    | Lock | Unlock | Bind(kinds: set<Kind>) | Death(sink: nat)

  function Do(r: Router, e: Event, answers: nat -> bool): Router {
    match e
    case Start(kind) => Begin(r, kind, answers)
    case Move(kind) => Update(r, kind, answers)
    case Stop(kind, cancelled) => End(r, kind, cancelled, answers)
    case Lock => r.(desk := r.desk.(locked := true))
    case Unlock => r.(desk := r.desk.(locked := false))
    case Bind(kinds) => r.(desk := r.desk.(bound := kinds))
    case Death(s) => Die(r, s)
  }

  function Run(r: Router, events: seq<Event>, answers: nat -> bool): Router
    decreases |events|
  {
    if events == [] then r else Run(Do(r, events[0], answers), events[1..], answers)
  }

  // ----- the protocol -----

  /** Whose turn it is: nobody's, the owner's, or the owner's who lost the gesture and must now be told so. */
  datatype Turn = Nobody | Owned(sink: nat) | Losing(sink: nat) | Broken

  /**
   A begin is offered when nobody owns, and one sink claims it. From then on an event is offered to other sinks, never
   the seat, before it goes to the owner; once one claims it, the owner is told of a cancelled end and of nothing else.
   The owner hears nothing after its end.
  */
  function Next(t: Turn, kind: Kind, c: Call): Turn {
    match c
    case Died(s) => if s == SEAT then Broken else if t == Owned(s) then Nobody else t
    case Call(s, k, what, own, claimed) =>
      if k != kind then t
      else if what == Began then
        if own || t != Nobody || (s == SEAT && !claimed) then Broken else if claimed then Owned(s) else t
      else if own then
        match t
        case Owned(o) => if o != s then Broken else if what == Moved then t else Nobody
        case Losing(o) => if o != s || what != Ended(true) then Broken else Nobody
        case _ => Broken
      else
        match t
        case Owned(o) => if o == s || s == SEAT then Broken else if claimed then Losing(o) else t
        case _ => Broken
  }

  function Track(log: seq<Call>, kind: Kind): Turn {
    if log == [] then Nobody else Next(Track(log[..|log| - 1], kind), kind, log[|log| - 1])
  }

  function TurnOf(r: Router, kind: Kind): Turn {
    if kind in r.owner then Owned(r.owner[kind]) else Nobody
  }

  ghost predicate Inv(r: Router) {
    && (forall kind :: Track(r.log, kind) == TurnOf(r, kind))
    && (forall kind <- r.owner :: r.owner[kind] in Sinks(r))
    && DESKTOP !in r.others && SEAT !in r.others
    && (forall kind :: kind in r.desk.owned <==> kind != Hold && kind in r.owner && r.owner[kind] == DESKTOP)
  }

  lemma TrackNext(log: seq<Call>, c: Call)
    ensures forall kind :: Track(log + [c], kind) == Next(Track(log, kind), kind, c)
  {
    assert (log + [c])[..|log|] == log;
  }

  /** How an offer ends: in the first claimant, or at the owner. */
  function TurnAfterWalk(what: What, owner: Option<nat>, stop: nat): Turn
    requires what != Began ==> owner.Some?
  {
    if what == Began || owner == Some(stop) then Owned(stop) else Losing(owner.value)
  }

  lemma {:induction false} WalkTracks(r: Router, kind: Kind, what: What, owner: Option<nat>, i: nat,
                                      answers: nat -> bool)
    requires i < |Sinks(r)| && SEAT !in r.others
    requires what == Began ==> owner == None && Track(r.log, kind) == Nobody
    requires what != Began ==> owner.Some? && owner.value in Sinks(r)[i..] && Track(r.log, kind) == Owned(owner.value)
    ensures var (j, w) := Walk(r, kind, what, owner, i, answers);
      && (forall k :: k != kind ==> Track(w.log, k) == Track(r.log, k))
      && Track(w.log, kind) == TurnAfterWalk(what, owner, Sinks(r)[j])
    decreases |Sinks(r)| - i
  {
    var s := Sinks(r)[i];
    if owner != Some(s) {
      var told := Tell(r, s, kind, what, false, answers);
      TrackNext(r.log, told.log[|r.log|]);
      assert s == SEAT ==> i == |Sinks(r)| - 1;
      if !Answer(r, s, kind, what, answers) {
        assert Sinks(r)[i..] == [s] + Sinks(r)[i + 1..];
        WalkTracks(told, kind, what, owner, i + 1, answers);
      }
    }
  }

  /** Past the desktop the walk leaves it alone. */
  lemma {:induction false} WalkPastDesk(r: Router, kind: Kind, what: What, owner: Option<nat>, i: nat,
                                        answers: nat -> bool)
    requires 0 < i < |Sinks(r)| && DESKTOP !in r.others
    ensures Walk(r, kind, what, owner, i, answers).1.desk == r.desk
    decreases |Sinks(r)| - i
  {
    var s := Sinks(r)[i];
    if owner != Some(s) && !Answer(r, s, kind, what, answers) {
      WalkPastDesk(Tell(r, s, kind, what, false, answers), kind, what, owner, i + 1, answers);
    }
  }

  /** The desktop is asked first, unless it is the owner, and the walk stops there exactly when it claims. */
  lemma WalkFromDesk(r: Router, kind: Kind, what: What, owner: Option<nat>, answers: nat -> bool)
    requires DESKTOP !in r.others
    ensures var (j, w) := Walk(r, kind, what, owner, 0, answers);
      if owner == Some(DESKTOP) then j == 0 && w == r
      else w.desk == DeskAfter(r.desk, kind, what) && (j == 0 <==> DeskClaims(r.desk, kind, what))
  {
    assert Sinks(r)[0] == DESKTOP;
    if owner != Some(DESKTOP) && !Answer(r, DESKTOP, kind, what, answers) {
      WalkPastDesk(Tell(r, DESKTOP, kind, what, false, answers), kind, what, owner, 1, answers);
    }
  }

  /** From place `i` on the sinks were asked once each, in order, up to `j`; only the one there claimed, if asked. */
  ghost predicate AskedInOrder(before: seq<Call>, after: seq<Call>, sinks: seq<nat>, kind: Kind, what: What, i: nat,
                               j: nat, atOwner: bool)
  {
    && i <= j < |sinks|
    && |after| == |before| + (j - i) + (if atOwner then 0 else 1)
    && after[..|before|] == before
    && forall n :: i <= n < i + |after| - |before| ==>
         after[n - i + |before|] == Call(sinks[n], kind, what, false, n == j)
  }

  lemma AskedOneMore(before: seq<Call>, after: seq<Call>, sinks: seq<nat>, kind: Kind, what: What, i: nat, j: nat,
                     atOwner: bool)
    requires i < |sinks|
    requires var now := before + [Call(sinks[i], kind, what, false, false)];
      AskedInOrder(now, after, sinks, kind, what, i + 1, j, atOwner)
    ensures AskedInOrder(before, after, sinks, kind, what, i, j, atOwner)
  {
    var now := before + [Call(sinks[i], kind, what, false, false)];
    assert after[..|before|] == now[..|before|] == before by {
      assert after[..|now|][..|before|] == after[..|before|];
    }
    assert after[|before|] == now[|before|] by {
      assert after[..|now|][|before|] == after[|before|];
    }
    forall n | i <= n < i + |after| - |before|
      ensures after[n - i + |before|] == Call(sinks[n], kind, what, false, n == j)
    {
      if n > i {
        assert n - (i + 1) + |now| == n - i + |before|;
      }
    }
  }

  /** A walk asks the sinks in list order, each once; all decline but, unless it is the owner, the one it stops at. */
  lemma {:induction false} WalkAsksInOrder(r: Router, kind: Kind, what: What, owner: Option<nat>, i: nat,
                                           answers: nat -> bool)
    requires i < |Sinks(r)|
    ensures var (j, w) := Walk(r, kind, what, owner, i, answers);
      AskedInOrder(r.log, w.log, Sinks(r), kind, what, i, j, owner == Some(Sinks(r)[j]))
    decreases |Sinks(r)| - i
  {
    var s := Sinks(r)[i];
    if owner != Some(s) {
      var told := Tell(r, s, kind, what, false, answers);
      if !Answer(r, s, kind, what, answers) {
        hide AskedInOrder, Answer;
        WalkAsksInOrder(told, kind, what, owner, i + 1, answers);
        var (j, w) := Walk(told, kind, what, owner, i + 1, answers);
        AskedOneMore(r.log, w.log, Sinks(r), kind, what, i, j, owner == Some(Sinks(r)[j]));
      }
    }
  }

  lemma TellTracks(r: Router, s: nat, kind: Kind, what: What, answers: nat -> bool)
    ensures var t := Tell(r, s, kind, what, true, answers);
      forall k ::
        Track(t.log, k) == Next(Track(r.log, k), k, Call(s, kind, what, true, Answer(r, s, kind, what, answers)))
  {
    TrackNext(r.log, Call(s, kind, what, true, Answer(r, s, kind, what, answers)));
  }

  lemma SinksHold(r: Router, j: nat)
    requires j < |Sinks(r)| && DESKTOP !in r.others
    ensures Sinks(r)[j] in Sinks(r) && (Sinks(r)[j] == DESKTOP <==> j == 0)
  {
    if 0 < j < |Sinks(r)| - 1 {
      assert Sinks(r)[j] == r.others[j - 1];
    }
  }

  /** What one kind of gesture needs for the rest of the invariant to carry over. */
  ghost predicate Settled(r: Router, t: Router, kind: Kind) {
    && t.others == r.others && t.owner - {kind} == r.owner - {kind}
    && (kind in t.owner ==> t.owner[kind] in Sinks(r))
    && (forall k :: k != kind ==> Track(t.log, k) == Track(r.log, k))
    && Track(t.log, kind) == TurnOf(t, kind)
    && t.desk.owned - {kind} == r.desk.owned - {kind}
    && (kind in t.desk.owned <==> kind != Hold && kind in t.owner && t.owner[kind] == DESKTOP)
  }

  lemma SettledKeeps(r: Router, t: Router, kind: Kind)
    requires Inv(r) && Settled(r, t, kind)
    ensures Inv(t)
  {
    forall k ensures Track(t.log, k) == TurnOf(t, k) {
      if k != kind {
        assert k in t.owner <==> k in t.owner - {kind};
        assert k in r.owner <==> k in r.owner - {kind};
      }
    }
    forall k <- t.owner ensures t.owner[k] in Sinks(t) {
      assert k != kind ==> k in t.owner - {kind} && k in r.owner - {kind};
    }
    forall k ensures k in t.desk.owned <==> k != Hold && k in t.owner && t.owner[k] == DESKTOP {
      if k != kind {
        assert k in t.owner <==> k in t.owner - {kind};
        assert k in r.owner <==> k in r.owner - {kind};
        assert k in t.desk.owned <==> k in t.desk.owned - {kind};
        assert k in r.desk.owned <==> k in r.desk.owned - {kind};
      }
    }
  }

  lemma EndOldKeeps(r: Router, kind: Kind, answers: nat -> bool)
    requires Inv(r) && kind in r.owner
    ensures Inv(Release(Tell(r, r.owner[kind], kind, Ended(true), true, answers), kind))
  {
    hide Track, Answer;
    TellTracks(r, r.owner[kind], kind, Ended(true), answers);
  }

  lemma BeginKeeps(r: Router, kind: Kind, answers: nat -> bool)
    requires Inv(r)
    ensures Inv(Begin(r, kind, answers))
  {
    hide Track, Walk, Tell, Inv, Sinks, DeskClaims;
    var ended := if kind in r.owner then Release(Tell(r, r.owner[kind], kind, Ended(true), true, answers), kind) else r;
    if kind in r.owner {
      EndOldKeeps(r, kind, answers);
    }
    Basics(ended, kind);
    WalkTracks(ended, kind, Began, None, 0, answers);
    WalkFromDesk(ended, kind, Began, None, answers);
    var (j, asked) := Walk(ended, kind, Began, None, 0, answers);
    SinksHold(ended, j);
    DeskTakes(ended.desk, kind);
    SameSinks(ended, asked);
    SettledKeeps(ended, Begin(r, kind, answers), kind);
  }

  lemma DeskTakes(d: Desk, kind: Kind)
    ensures var t := DeskAfter(d, kind, Began);
      t.owned - {kind} == d.owned - {kind} && (kind in t.owned <==> kind != Hold && DeskClaims(d, kind, Began))
  {
  }

  lemma SameSinks(r: Router, t: Router)
    requires r.others == t.others
    ensures Sinks(r) == Sinks(t)
  {
  }

  /** What the invariant says of one kind. */
  lemma Basics(r: Router, kind: Kind)
    requires Inv(r)
    ensures Track(r.log, kind) == TurnOf(r, kind) && DESKTOP !in r.others && SEAT !in r.others && |Sinks(r)| >= 2
    ensures kind in r.owner ==> r.owner[kind] in Sinks(r) && r.owner[kind] in Sinks(r)[0..]
    ensures kind in r.desk.owned <==> kind != Hold && kind in r.owner && r.owner[kind] == DESKTOP
  {
    hide Track;
    assert Sinks(r)[0..] == Sinks(r);
  }

  lemma UpdateKeeps(r: Router, kind: Kind, answers: nat -> bool)
    requires Inv(r)
    ensures Inv(Update(r, kind, answers))
  {
    hide Track, Walk, Answer, Inv, Sinks, DeskClaims;
    if kind in r.owner {
      var owner := r.owner[kind];
      Basics(r, kind);
      WalkTracks(r, kind, Moved, Some(owner), 0, answers);
      WalkFromDesk(r, kind, Moved, Some(owner), answers);
      var (j, asked) := Walk(r, kind, Moved, Some(owner), 0, answers);
      SameSinks(r, asked);
      SinksHold(r, j);
      if Sinks(asked)[j] == owner {
        TellTracks(asked, owner, kind, Moved, answers);
      } else {
        TellTracks(Release(asked, kind), owner, kind, Ended(true), answers);
      }
      SettledKeeps(r, Update(r, kind, answers), kind);
    }
  }

  lemma EndKeeps(r: Router, kind: Kind, cancelled: bool, answers: nat -> bool)
    requires Inv(r)
    ensures Inv(End(r, kind, cancelled, answers))
  {
    hide Track, Walk, Answer, Inv, Sinks, DeskClaims;
    if kind in r.owner {
      var owner := r.owner[kind];
      Basics(r, kind);
      WalkTracks(r, kind, Ended(cancelled), Some(owner), 0, answers);
      WalkFromDesk(r, kind, Ended(cancelled), Some(owner), answers);
      var (j, asked) := Walk(r, kind, Ended(cancelled), Some(owner), 0, answers);
      SameSinks(r, asked);
      TellTracks(Release(asked, kind), owner, kind, Ended(cancelled || Sinks(asked)[j] != owner), answers);
      SettledKeeps(r, End(r, kind, cancelled, answers), kind);
    }
  }

  lemma DieKeeps(r: Router, s: nat)
    requires Inv(r)
    ensures Inv(Die(r, s))
  {
    hide Track;
    if s in r.others {
      TrackNext(r.log, Died(s));
    }
  }

  lemma StepKeeps(r: Router, e: Event, answers: nat -> bool)
    requires Inv(r)
    ensures Inv(Do(r, e, answers))
  {
    hide Begin, Update, End, Die, Track;
    match e
    case Start(kind) => BeginKeeps(r, kind, answers);
    case Move(kind) => UpdateKeeps(r, kind, answers);
    case Stop(kind, cancelled) => EndKeeps(r, kind, cancelled, answers);
    case Death(s) => DieKeeps(r, s);
    case _ =>
  }

  /** Every run keeps to the protocol. */
  lemma {:induction false} RunKeeps(r: Router, events: seq<Event>, answers: nat -> bool)
    requires Inv(r)
    ensures Inv(Run(r, events, answers))
    decreases |events|
  {
    hide Inv, Do;
    if events != [] {
      StepKeeps(r, events[0], answers);
      RunKeeps(Do(r, events[0], answers), events[1..], answers);
    }
  }

  // ----- what the seat sees -----

  /** The calls the seat has had for a kind, read on their own. */
  datatype Gesture = Idle | Within | Wrong

  function SeatGesture(log: seq<Call>, kind: Kind): Gesture {
    if log == [] then Idle else
      var g := SeatGesture(log[..|log| - 1], kind);
      match log[|log| - 1]
      case Died(_) => g
      case Call(s, k, what, _, _) =>
        if s != SEAT || k != kind then g
        else if what == Began then (if g == Idle then Within else Wrong)
        else if g != Within then Wrong
        else if what == Moved then g else Idle
  }

  /** To the seat, whatever the other sinks do, a kind of gesture is begin, updates, end, over and over. */
  lemma {:induction false} SeatSeesGestures(log: seq<Call>, kind: Kind)
    requires Track(log, kind) != Broken
    ensures var t := Track(log, kind);
      SeatGesture(log, kind) == (if t == Owned(SEAT) || t == Losing(SEAT) then Within else Idle)
  {
    if log != [] {
      SeatSeesGestures(log[..|log| - 1], kind);
    }
  }

  lemma SeatInEveryRun(others: seq<nat>, bound: set<Kind>, events: seq<Event>, kind: Kind, answers: nat -> bool)
    requires DESKTOP !in others && SEAT !in others
    ensures SeatGesture(Run(Router(others, map[], Desk(false, bound, {}), []), events, answers).log, kind) != Wrong
  {
    hide Run;
    var r := Router(others, map[], Desk(false, bound, {}), []);
    RunKeeps(r, events, answers);
    SeatSeesGestures(Run(r, events, answers).log, kind);
  }

  // ----- who hears of an event -----

  /** From `before` to `after` the sinks before the owner, if there is one, were asked in order, up to place `j`. */
  ghost predicate Asked(before: seq<Call>, after: seq<Call>, sinks: seq<nat>, kind: Kind, what: What, j: nat,
                        owner: Option<nat>)
  {
    && j < |sinks| && AskedInOrder(before, after, sinks, kind, what, 0, j, owner == Some(sinks[j]))
    && (owner.Some? ==> owner.value !in sinks[..j])
  }

  /** One of the calls from `before` to `after` was claimed. */
  ghost predicate SomeClaimed(before: seq<Call>, after: seq<Call>) {
    exists n :: |before| <= n < |after| && after[n].Call? && after[n].claimed
  }

  lemma {:induction false} OwnerIsLast(r: Router, kind: Kind, what: What, owner: nat, i: nat, answers: nat -> bool)
    requires i < |Sinks(r)|
    ensures owner !in Sinks(r)[i..Walk(r, kind, what, Some(owner), i, answers).0]
    decreases |Sinks(r)| - i
  {
    var s, j := Sinks(r)[i], Walk(r, kind, what, Some(owner), i, answers).0;
    if s != owner && !Answer(r, s, kind, what, answers) {
      OwnerIsLast(Tell(r, s, kind, what, false, answers), kind, what, owner, i + 1, answers);
      assert Sinks(r)[i..j] == [s] + Sinks(r)[i + 1..j];
    } else {
      assert Sinks(r)[i..j] == [];
    }
  }

  lemma WalkIsAsked(r: Router, kind: Kind, what: What, owner: Option<nat>, answers: nat -> bool)
    ensures var (j, w) := Walk(r, kind, what, owner, 0, answers);
      Asked(r.log, w.log, Sinks(r), kind, what, j, owner)
    ensures var (j, w) := Walk(r, kind, what, owner, 0, answers);
      SomeClaimed(r.log, w.log) <==> owner != Some(Sinks(r)[j])
  {
    WalkAsksInOrder(r, kind, what, owner, 0, answers);
    var (j, w) := Walk(r, kind, what, owner, 0, answers);
    if owner.Some? {
      OwnerIsLast(r, kind, what, owner.value, 0, answers);
    }
    if owner != Some(Sinks(r)[j]) {
      assert w.log[j + |r.log|] == Call(Sinks(r)[j], kind, what, false, true);
    } else {
      forall n | |r.log| <= n < |w.log| ensures !(w.log[n].Call? && w.log[n].claimed) {
        assert w.log[n - |r.log| + |r.log|] == Call(Sinks(r)[n - |r.log|], kind, what, false, n - |r.log| == j);
      }
    }
  }

  /**
   The log after an event of an owned gesture: offers to the sinks before the owner, and one last call, to the owner. It
   hears of the event as it came if no offer was claimed, and of a cancelled end otherwise.
  */
  ghost predicate OwnerHears(r: Router, t: Router, kind: Kind, what: What)
    requires kind in r.owner
  {
    |t.log| > |r.log| &&
    var last := |t.log| - 1;
    && (exists j :: Asked(r.log, t.log[..last], Sinks(r), kind, what, j, Some(r.owner[kind])))
    && t.log[last].Call? && t.log[last].sink == r.owner[kind] && t.log[last].kind == kind && t.log[last].own
    && t.log[last].what == if SomeClaimed(r.log, t.log[..last]) then Ended(true) else what
  }

  lemma ToldLast(r: Router, asked: Router, t: Router, kind: Kind, what: What, answers: nat -> bool)
    requires kind in r.owner && (exists j :: Asked(r.log, asked.log, Sinks(r), kind, what, j, Some(r.owner[kind])))
    requires var heard := if SomeClaimed(r.log, asked.log) then Ended(true) else what;
      exists c :: t.log == asked.log + [Call(r.owner[kind], kind, heard, true, c)]
    ensures OwnerHears(r, t, kind, what)
  {
    hide SomeClaimed;
    assert t.log[..|t.log| - 1] == asked.log;
    var j :| Asked(r.log, asked.log, Sinks(r), kind, what, j, Some(r.owner[kind]));
  }

  /** The owner of a gesture hears of its end as it came unless a sink asked before claims it, and it is over. */
  lemma EndIsHeard(r: Router, kind: Kind, cancelled: bool, answers: nat -> bool)
    requires kind in r.owner
    ensures var t := End(r, kind, cancelled, answers);
      OwnerHears(r, t, kind, Ended(cancelled)) && t.owner == r.owner - {kind} && t.others == r.others
  {
    hide Walk, Asked, SomeClaimed, OwnerHears, Answer;
    var owner := r.owner[kind];
    WalkIsAsked(r, kind, Ended(cancelled), Some(owner), answers);
    var (j, asked) := Walk(r, kind, Ended(cancelled), Some(owner), 0, answers);
    SameSinks(r, asked);
    var t := End(r, kind, cancelled, answers);
    var heard := Ended(cancelled || Sinks(r)[j] != owner);
    assert t.log == asked.log
                 + [Call(owner, kind, heard, true, Answer(Release(asked, kind), owner, kind, heard, answers))];
    ToldLast(r, asked, t, kind, Ended(cancelled), answers);
  }

  /** So it does of an update, and stays the owner exactly if nobody claimed it. */
  lemma UpdateIsHeard(r: Router, kind: Kind, answers: nat -> bool)
    requires kind in r.owner
    ensures var t := Update(r, kind, answers);
      && OwnerHears(r, t, kind, Moved) && t.others == r.others
      && t.owner == if SomeClaimed(r.log, t.log[..|t.log| - 1]) then r.owner - {kind} else r.owner
  {
    hide Walk, Asked, SomeClaimed, OwnerHears, Answer;
    var owner := r.owner[kind];
    WalkIsAsked(r, kind, Moved, Some(owner), answers);
    var (j, asked) := Walk(r, kind, Moved, Some(owner), 0, answers);
    SameSinks(r, asked);
    var t := Update(r, kind, answers);
    var heard, at := if Sinks(r)[j] == owner then Moved else Ended(true),
      if Sinks(r)[j] == owner then asked else Release(asked, kind);
    assert t.log == asked.log + [Call(owner, kind, heard, true, Answer(at, owner, kind, heard, answers))];
    assert t.log[..|t.log| - 1] == asked.log;
    ToldLast(r, asked, t, kind, Moved, answers);
  }

  /** A begin first ends what is left of a gesture of its kind, and then goes to the first sink to claim it. */
  lemma BeginIsHeard(r: Router, kind: Kind, answers: nat -> bool)
    ensures var t := Begin(r, kind, answers);
      var before := if kind in r.owner then |r.log| + 1 else |r.log|;
      && before <= |t.log| && t.log[..|r.log|] == r.log && t.others == r.others
      && (kind in r.owner ==>
        exists c :: t.log[|r.log|] == Call(r.owner[kind], kind, Ended(true), true, c))
      && (exists j: nat :: j < |Sinks(r)|
            && Asked(t.log[..before], t.log, Sinks(r), kind, Began, j, None)
            && t.owner == r.owner[kind := Sinks(r)[j]])
  {
    hide Walk, Asked, Answer;
    var ended := if kind in r.owner then Release(Tell(r, r.owner[kind], kind, Ended(true), true, answers), kind) else r;
    WalkIsAsked(ended, kind, Began, None, answers);
    var (j, asked) := Walk(ended, kind, Began, None, 0, answers);
    SameSinks(r, ended);
    SameSinks(r, asked);
    AskedAfter(ended.log, asked.log, Sinks(r), kind, Began, j, None);
    var t := Begin(r, kind, answers);
    assert t.log[..|r.log|] == t.log[..|ended.log|][..|r.log|];
    assert kind in r.owner ==> t.log[|r.log|] == t.log[..|ended.log|][|r.log|];
    assert t.owner == r.owner[kind := Sinks(r)[j]];
  }

  lemma AskedAfter(before: seq<Call>, after: seq<Call>, sinks: seq<nat>, kind: Kind, what: What, j: nat,
                   owner: Option<nat>)
    requires Asked(before, after, sinks, kind, what, j, owner)
    ensures |before| <= |after| && after[..|before|] == before
  {
  }

  /** How the sinks answered the calls they got: the seat claims all, and those in between claim as they answer. */
  ghost predicate Answered(log: seq<Call>, answers: nat -> bool) {
    forall n :: 0 <= n < |log| && log[n].Call? && log[n].sink != DESKTOP ==>
      log[n].claimed == (log[n].sink == SEAT || answers(n))
  }

  lemma {:induction false} WalkAnswered(r: Router, kind: Kind, what: What, owner: Option<nat>, i: nat,
                                        answers: nat -> bool)
    requires i < |Sinks(r)| && Answered(r.log, answers)
    ensures Answered(Walk(r, kind, what, owner, i, answers).1.log, answers)
    decreases |Sinks(r)| - i
  {
    var s := Sinks(r)[i];
    if owner != Some(s) && !Answer(r, s, kind, what, answers) {
      WalkAnswered(Tell(r, s, kind, what, false, answers), kind, what, owner, i + 1, answers);
    }
  }

  lemma StepAnswered(r: Router, e: Event, answers: nat -> bool)
    requires Answered(r.log, answers)
    ensures Answered(Do(r, e, answers).log, answers)
  {
    hide Walk, DeskClaims, DeskAfter;
    match e
    case Start(kind) =>
      var ended :=
        if kind in r.owner then Release(Tell(r, r.owner[kind], kind, Ended(true), true, answers), kind) else r;
      WalkAnswered(ended, kind, Began, None, 0, answers);
    case Move(kind) =>
      if kind in r.owner {
        WalkAnswered(r, kind, Moved, Some(r.owner[kind]), 0, answers);
      }
    case Stop(kind, cancelled) =>
      if kind in r.owner {
        WalkAnswered(r, kind, Ended(cancelled), Some(r.owner[kind]), 0, answers);
      }
    case _ =>
  }

  lemma {:induction false} RunAnswered(r: Router, events: seq<Event>, answers: nat -> bool)
    requires Answered(r.log, answers)
    ensures Answered(Run(r, events, answers).log, answers)
    decreases |events|
  {
    hide Answered, Do;
    if events != [] {
      StepAnswered(r, events[0], answers);
      RunAnswered(Do(r, events[0], answers), events[1..], answers);
    }
  }

  lemma {:induction false} RunThen(r: Router, events: seq<Event>, e: Event, answers: nat -> bool)
    ensures Run(r, events + [e], answers) == Do(Run(r, events, answers), e, answers)
    decreases |events|
  {
    hide Do;
    if events == [] {
      assert events + [e] == [e] && [e][1..] == [];
    } else {
      assert (events + [e])[1..] == events[1..] + [e];
      RunThen(Do(r, events[0], answers), events[1..], e, answers);
    }
  }

  /**
   After every run an end reaches the owner of its gesture exactly as it came, if nobody asked before claims it, and as
   a cancelled one otherwise; and every claim ever made was the answer the sink gives.
  */
  lemma EndInEveryRun(others: seq<nat>, bound: set<Kind>, events: seq<Event>, kind: Kind, cancelled: bool,
                      answers: nat -> bool)
    ensures var start := Router(others, map[], Desk(false, bound, {}), []);
      var r, t := Run(start, events, answers), Run(start, events + [Stop(kind, cancelled)], answers);
      && Answered(t.log, answers)
      && (if kind in r.owner then OwnerHears(r, t, kind, Ended(cancelled)) && kind !in t.owner else t == r)
  {
    hide Run, OwnerHears;
    var start := Router(others, map[], Desk(false, bound, {}), []);
    RunThen(start, events, Stop(kind, cancelled), answers);
    RunAnswered(start, events + [Stop(kind, cancelled)], answers);
    if kind in Run(start, events, answers).owner {
      EndIsHeard(Run(start, events, answers), kind, cancelled, answers);
    }
  }

  /** The desktop takes a gesture begun exactly if it is locked, or an action is bound to its kind, a hold apart. */
  lemma DeskTakesBound(r: Router, kind: Kind, answers: nat -> bool)
    requires Inv(r)
    ensures var t := Begin(r, kind, answers);
      kind in t.owner && (t.owner[kind] == DESKTOP <==> r.desk.locked || (kind in r.desk.bound && kind != Hold))
  {
    hide Walk, Inv;
    Basics(r, kind);
    var ended := if kind in r.owner then Release(Tell(r, r.owner[kind], kind, Ended(true), true, answers), kind) else r;
    WalkFromDesk(ended, kind, Began, None, answers);
    SinksHold(ended, Walk(ended, kind, Began, None, 0, answers).0);
  }

  // ----- behind a lock -----

  predicate Concerns(e: Event, kind: Kind) {
    e == Start(kind) || e == Move(kind) || (e.Stop? && e.kind == kind)
  }

  predicate ClientOwned(r: Router, kind: Kind) {
    kind in r.owner && r.owner[kind] != DESKTOP
  }

  /** What any sink but the desktop is told of a kind of gesture. */
  function Foreign(log: seq<Call>, kind: Kind): seq<(nat, What)> {
    if log == [] then [] else
      var c := log[|log| - 1];
      Foreign(log[..|log| - 1], kind)
      + if c.Call? && c.kind == kind && c.sink != DESKTOP then [(c.sink, c.what)] else []
  }

  lemma {:induction false} ForeignSplits(xs: seq<Call>, ys: seq<Call>, kind: Kind)
    ensures Foreign(xs + ys, kind) == Foreign(xs, kind) + Foreign(ys, kind)
  {
    if ys == [] {
      assert xs + ys == xs;
    } else {
      assert (xs + ys)[..|xs + ys| - 1] == xs + ys[..|ys| - 1];
      ForeignSplits(xs, ys[..|ys| - 1], kind);
    }
  }

  lemma ForeignNext(log: seq<Call>, c: Call, kind: Kind)
    ensures Foreign(log + [c], kind)
         == Foreign(log, kind) + if c.Call? && c.kind == kind && c.sink != DESKTOP then [(c.sink, c.what)] else []
  {
    assert (log + [c])[..|log|] == log;
  }

  lemma ForeignTold(r: Router, s: nat, told: Kind, what: What, own: bool, kind: Kind, answers: nat -> bool)
    ensures var t := Tell(r, s, told, what, own, answers);
      Foreign(t.log, kind) == Foreign(r.log, kind) + if told == kind && s != DESKTOP then [(s, what)] else []
  {
    ForeignNext(r.log, Call(s, told, what, own, Answer(r, s, told, what, answers)), kind);
  }

  /** A locked desktop is where every walk ends. */
  lemma WalkLocked(r: Router, kind: Kind, what: What, owner: Option<nat>, answers: nat -> bool)
    requires r.desk.locked
    ensures Walk(r, kind, what, owner, 0, answers)
         == (0, if owner == Some(DESKTOP) then r else Tell(r, DESKTOP, kind, what, false, answers))
  {
    assert Sinks(r)[0] == DESKTOP;
  }

  /** What a client that owns a gesture hears when it is taken from it. */
  function Taken(r: Router, kind: Kind): seq<(nat, What)> {
    if ClientOwned(r, kind) then [(r.owner[kind], Ended(true))] else []
  }

  /** The owner of a kind, the same before and after. */
  predicate Kept(r: Router, t: Router, kind: Kind) {
    (kind in t.owner <==> kind in r.owner) && (kind in r.owner ==> t.owner[kind] == r.owner[kind])
  }

  /** What an event about `told` does behind a lock, as the owners and listeners of `kind` see it. */
  ghost predicate TakenBy(r: Router, t: Router, told: Kind, kind: Kind) {
    && t.desk.locked && t.others == r.others
    && Foreign(t.log, kind) == Foreign(r.log, kind) + (if told == kind then Taken(r, kind) else [])
    && (if told == kind then !ClientOwned(t, kind) else Kept(r, t, kind))
  }

  lemma LockedBegin(r: Router, told: Kind, kind: Kind, answers: nat -> bool)
    requires r.desk.locked
    ensures TakenBy(r, Begin(r, told, answers), told, kind)
  {
    hide Walk, Foreign, Answer, DeskClaims;
    var ended := if told in r.owner then Release(Tell(r, r.owner[told], told, Ended(true), true, answers), told) else r;
    if told in r.owner {
      ForeignTold(r, r.owner[told], told, Ended(true), true, kind, answers);
    }
    WalkLocked(ended, told, Began, None, answers);
    ForeignTold(ended, DESKTOP, told, Began, false, kind, answers);
  }

  lemma LockedUpdate(r: Router, told: Kind, kind: Kind, answers: nat -> bool)
    requires r.desk.locked
    ensures TakenBy(r, Update(r, told, answers), told, kind)
  {
    hide Walk, Foreign, Answer, DeskClaims;
    if told in r.owner {
      var owner := r.owner[told];
      WalkLocked(r, told, Moved, Some(owner), answers);
      if owner == DESKTOP {
        ForeignTold(r, owner, told, Moved, true, kind, answers);
      } else {
        var asked := Tell(r, DESKTOP, told, Moved, false, answers);
        ForeignTold(r, DESKTOP, told, Moved, false, kind, answers);
        ForeignTold(Release(asked, told), owner, told, Ended(true), true, kind, answers);
      }
    }
  }

  lemma LockedEnd(r: Router, told: Kind, cancelled: bool, kind: Kind, answers: nat -> bool)
    requires r.desk.locked
    ensures TakenBy(r, End(r, told, cancelled, answers), told, kind)
  {
    hide Walk, Foreign, Answer, DeskClaims;
    if told in r.owner {
      var owner := r.owner[told];
      WalkLocked(r, told, Ended(cancelled), Some(owner), answers);
      if owner == DESKTOP {
        ForeignTold(Release(r, told), owner, told, Ended(cancelled), true, kind, answers);
      } else {
        var asked := Tell(r, DESKTOP, told, Ended(cancelled), false, answers);
        ForeignTold(r, DESKTOP, told, Ended(cancelled), false, kind, answers);
        ForeignTold(Release(asked, told), owner, told, Ended(true), true, kind, answers);
      }
    }
  }

  lemma LockedDeath(r: Router, s: nat, kind: Kind)
    requires kind in r.owner ==> r.owner[kind] != s
    ensures var t := Die(r, s);
      t.desk == r.desk && Foreign(t.log, kind) == Foreign(r.log, kind) && Kept(r, t, kind)
  {
    ForeignNext(r.log, Died(s), kind);
  }

  /** One event behind a lock: if it is about the kind, a client that owned it is told of its end, and no one else. */
  lemma LockedEvent(r: Router, e: Event, kind: Kind, answers: nat -> bool)
    requires r.desk.locked && e != Unlock && (kind in r.owner ==> e != Death(r.owner[kind]))
    ensures var t := Do(r, e, answers);
      && t.desk.locked
      && Foreign(t.log, kind) == Foreign(r.log, kind) + (if Concerns(e, kind) then Taken(r, kind) else [])
      && (if Concerns(e, kind) then !ClientOwned(t, kind) else Kept(r, t, kind))
  {
    hide Begin, Update, End, Die, Foreign;
    match e
    case Start(told) => LockedBegin(r, told, kind, answers);
    case Move(told) => LockedUpdate(r, told, kind, answers);
    case Stop(told, cancelled) => LockedEnd(r, told, cancelled, kind, answers);
    case Death(s) => LockedDeath(r, s, kind);
    case _ =>
  }

  predicate AnyConcerns(events: seq<Event>, kind: Kind) {
    events != [] && (Concerns(events[0], kind) || AnyConcerns(events[1..], kind))
  }

  /**
   Once the desktop is locked, and for as long as it stays so, a gesture a client owns brings it exactly one cancelled
   end, with the next event of its kind, and of a gesture no client owns no client hears anything.
  */
  lemma {:induction false} LockedSilence(r: Router, events: seq<Event>, kind: Kind, answers: nat -> bool)
    requires r.desk.locked && Unlock !in events && (forall s :: Death(s) in events ==> s != DESKTOP)
    requires kind in r.owner ==> Death(r.owner[kind]) !in events
    ensures Foreign(Run(r, events, answers).log, kind)
         == Foreign(r.log, kind) + (if AnyConcerns(events, kind) then Taken(r, kind) else [])
    decreases |events|
  {
    hide Do, Foreign, Concerns;
    if events != [] {
      var e, t := events[0], Do(r, events[0], answers);
      assert e in events && forall x :: x in events[1..] ==> x in events;
      LockedEvent(r, e, kind, answers);
      LockedSilence(t, events[1..], kind, answers);
    }
  }
}
