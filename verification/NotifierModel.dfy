/**
 The notification store: the toasts kept, newest last, their expiry timers in the event loop, and the closes announced
 to listeners. A toast is told apart by a handle of its own, as ids wrap and a released toast must have no timer left.
*/
module NotifierModel {
  const WORD: nat := 0x1_0000_0000
  const EXPIRED: u32 := 1
  const DISMISSED: u32 := 2
  const RULE_CAPACITY: nat := 32

  type u32 = x: int | 0 <= x < WORD

  datatype Toast = Toast(handle: nat, id: u32, app: string, critical: bool, onScreen: bool, fromBus: bool)

  datatype Post = Post(app: string, critical: bool, fromBus: bool, expireMs: int, replacesId: u32)

  datatype Policy = Default | Allow | Mute

  datatype Rule = Rule(app: string, policy: Policy)

  /** The settings and the clock, as a post finds them. */
  datatype Settings = Settings(allowCritical: bool, rules: seq<Rule>, dnd: bool, seconds: real, history: nat)

  /** What became of a toast: it came on screen, was closed, or was taken off with no one told. */
  datatype Note = Shown(handle: nat) | Closed(handle: nat, id: u32, bus: bool, reason: u32) | Pulled(handle: nat)

  datatype Store = Store(toasts: seq<Toast>, timers: map<nat, real>, lastId: u32, made: nat,
                         announced: seq<(u32, u32)>, story: seq<Note>)

  const EMPTY := Store([], map[], 0, 0, [], [])

  /** Where the first toast of an id stands, or the end. */
  function Place(toasts: seq<Toast>, id: u32): (i: nat)
    ensures i <= |toasts| && (i < |toasts| ==> toasts[i].id == id)
    ensures forall k :: 0 <= k < i ==> toasts[k].id != id
  {
    if toasts == [] || toasts[0].id == id then 0 else 1 + Place(toasts[1..], id)
  }

  // ----- trimming -----

  function Off(toasts: seq<Toast>): seq<Toast> {
    if toasts == [] then [] else (if toasts[0].onScreen then [] else [toasts[0]]) + Off(toasts[1..])
  }

  function On(toasts: seq<Toast>): (kept: seq<Toast>)
    ensures forall t <- kept :: t in toasts && t.onScreen
    ensures forall t <- toasts :: t.onScreen ==> t in kept
  {
    if toasts == [] then [] else (if toasts[0].onScreen then [toasts[0]] else []) + On(toasts[1..])
  }

  /** Without the oldest `k` off-screen toasts. */
  function Dropped(toasts: seq<Toast>, k: nat): (kept: seq<Toast>)
    ensures forall t <- kept :: t in toasts
    ensures forall t <- toasts :: t.onScreen ==> t in kept
  {
    if toasts == [] || k == 0 then toasts
    else if toasts[0].onScreen then [toasts[0]] + Dropped(toasts[1..], k)
    else Dropped(toasts[1..], k - 1)
  }

  function Min(x: nat, y: nat): nat { if x < y then x else y }

  /** How many toasts a trim to `limit` drops: those past it, as far as there are toasts off screen. */
  function Surplus(toasts: seq<Toast>, limit: nat): nat {
    Min(if |toasts| > limit then |toasts| - limit else 0, |Off(toasts)|)
  }

  function Trimmed(toasts: seq<Toast>, limit: nat): seq<Toast> {
    Dropped(toasts, Surplus(toasts, limit))
  }

  /** A drop takes the oldest off-screen toasts, leaves the rest of them in order, and touches no toast on screen. */
  lemma {:induction false} DroppedIs(toasts: seq<Toast>, k: nat)
    requires k <= |Off(toasts)|
    ensures Off(Dropped(toasts, k)) == Off(toasts)[k..] && On(Dropped(toasts, k)) == On(toasts)
    ensures |Dropped(toasts, k)| == |toasts| - k
  {
    if toasts != [] && k > 0 {
      if toasts[0].onScreen {
        DroppedIs(toasts[1..], k);
        var kept := Dropped(toasts, k);
        assert kept[1..] == Dropped(toasts[1..], k);
      } else {
        DroppedIs(toasts[1..], k - 1);
        assert Off(toasts)[1..] == Off(toasts[1..]);
      }
    }
  }

  /** After a trim the store is within its limit, or everything left is on screen. */
  lemma TrimmedIsBounded(toasts: seq<Toast>, limit: nat)
    ensures |Trimmed(toasts, limit)| <= limit || Off(Trimmed(toasts, limit)) == []
    ensures |toasts| <= limit ==> Trimmed(toasts, limit) == toasts
    ensures On(Trimmed(toasts, limit)) == On(toasts)
  {
    DroppedIs(toasts, Surplus(toasts, limit));
  }

  function FirstOff(toasts: seq<Toast>): (i: nat)
    ensures i <= |toasts| && (i < |toasts| ==> !toasts[i].onScreen)
    ensures forall k :: 0 <= k < i ==> toasts[k].onScreen
  {
    if toasts == [] || !toasts[0].onScreen then 0 else 1 + FirstOff(toasts[1..])
  }

  function Removed(toasts: seq<Toast>, i: nat): seq<Toast>
    requires i < |toasts|
  {
    toasts[..i] + toasts[i + 1..]
  }

  lemma RemovedUnder(t: Toast, rest: seq<Toast>, i: nat)
    requires i < |rest|
    ensures Removed([t] + rest, i + 1) == [t] + Removed(rest, i)
  {
  }

  lemma FirstOffUnder(t: Toast, rest: seq<Toast>)
    requires t.onScreen
    ensures FirstOff([t] + rest) == FirstOff(rest) + 1
  {
    assert ([t] + rest)[1..] == rest;
  }

  lemma DroppedUnder(toasts: seq<Toast>, k: nat)
    requires toasts != [] && toasts[0].onScreen
    ensures Dropped(toasts, k) == [toasts[0]] + Dropped(toasts[1..], k) && Off(toasts) == Off(toasts[1..])
  {
    assert toasts == [toasts[0]] + toasts[1..];
  }

  /** One round of trimming is a drop of one. */
  lemma {:induction false} DropOneMore(toasts: seq<Toast>, k: nat)
    requires k < |Off(toasts)|
    ensures var kept := Dropped(toasts, k);
      var i := FirstOff(kept);
      i < |kept| && Removed(kept, i) == Dropped(toasts, k + 1)
  {
    hide FirstOff, Dropped, Removed, Off;
    SomeOff(toasts, k);
    if toasts[0].onScreen {
      DroppedUnder(toasts, k);
      DroppedUnder(toasts, k + 1);
      DropOneMore(toasts[1..], k);
      var rest := Dropped(toasts[1..], k);
      FirstOffUnder(toasts[0], rest);
      RemovedUnder(toasts[0], rest, FirstOff(rest));
    } else if k > 0 {
      DropOneMore(toasts[1..], k - 1);
    } else {
      OffFirst(toasts);
    }
  }

  lemma SomeOff(toasts: seq<Toast>, k: nat)
    requires k < |Off(toasts)|
    ensures toasts != []
    ensures !toasts[0].onScreen ==>
      && |Off(toasts[1..])| == |Off(toasts)| - 1 && Dropped(toasts, 0) == toasts
      && Dropped(toasts, k + 1) == Dropped(toasts[1..], k)
      && (k > 0 ==> Dropped(toasts, k) == Dropped(toasts[1..], k - 1))
      && Dropped(toasts[1..], 0) == toasts[1..]
  {
  }

  lemma OffFirst(toasts: seq<Toast>)
    requires toasts != [] && !toasts[0].onScreen
    ensures FirstOff(toasts) == 0 && Removed(toasts, 0) == toasts[1..]
  {
  }

  lemma {:induction false} NoneOff(toasts: seq<Toast>)
    ensures FirstOff(toasts) == |toasts| <==> Off(toasts) == []
  {
    if toasts != [] {
      NoneOff(toasts[1..]);
    }
  }

  // ----- posting and closing -----

  function PolicyFor(rules: seq<Rule>, app: string): Policy {
    if rules == [] then Default else if rules[0].app == app then rules[0].policy else PolicyFor(rules[1..], app)
  }

  function Capped(rules: seq<Rule>): seq<Rule> {
    if |rules| > RULE_CAPACITY then rules[..RULE_CAPACITY] else rules
  }

  function Shows(settings: Settings, app: string): bool {
    var policy := PolicyFor(Capped(settings.rules), app);
    policy == Allow || (policy == Default && !settings.dnd)
  }

  function Armed(timers: map<nat, real>, t: Toast, expireMs: int, seconds: real): map<nat, real> {
    if !t.onScreen || t.critical || expireMs == 0 then timers - {t.handle}
    else timers[t.handle := if expireMs > 0 then expireMs as real / 1000.0 else seconds]
  }

  /** Put `t` for the toast at `i`, noting whether it came on screen or, by `leaving`, left it. */
  function Replaced(s: Store, i: nat, t: Toast, leaving: Note): Store
    requires i < |s.toasts|
  {
    var was := s.toasts[i].onScreen;
    s.(toasts := s.toasts[i := t],
       story := s.story + if was == t.onScreen then [] else if t.onScreen then [Shown(t.handle)] else [leaving])
  }

  function Slot(s: Store, replacesId: u32): (Store, nat) {
    var i := if replacesId != 0 then Place(s.toasts, replacesId) else |s.toasts|;
    if i < |s.toasts| then (s, i) else
      var id := (s.lastId + 1) % WORD;
      (s.(toasts := s.toasts + [Toast(s.made, id, "", false, false, false)], lastId := id, made := s.made + 1), i)
  }

  function Filled(t: Toast, p: Post, settings: Settings): Toast {
    t.(app := p.app, critical := p.critical && settings.allowCritical, fromBus := p.fromBus,
       onScreen := Shows(settings, p.app))
  }

  function Posted(s: Store, p: Post, settings: Settings): (Store, u32) {
    var (slot, i) := Slot(s, p.replacesId);
    var t := Filled(slot.toasts[i], p, settings);
    var put := Replaced(slot, i, t, Pulled(t.handle));
    (put.(timers := Armed(put.timers, t, p.expireMs, settings.seconds),
          toasts := Trimmed(put.toasts, settings.history)),
     t.id)
  }

  function Closing(s: Store, id: u32, reason: u32): Store {
    var i := Place(s.toasts, id);
    if i == |s.toasts| || !s.toasts[i].onScreen then s else
      var t := s.toasts[i];
      var put := Replaced(s, i, t.(onScreen := false), Closed(t.handle, id, t.fromBus, reason));
      put.(timers := put.timers - {t.handle},
           announced := if t.fromBus then put.announced + [(id, reason)] else put.announced)
  }

  /** Where the toast of a handle stands, or the end. */
  function Spot(toasts: seq<Toast>, handle: nat): (i: nat)
    ensures i <= |toasts| && (i < |toasts| ==> toasts[i].handle == handle)
    ensures forall k :: 0 <= k < i ==> toasts[k].handle != handle
  {
    if toasts == [] || toasts[0].handle == handle then 0 else 1 + Spot(toasts[1..], handle)
  }

  /** The timer of a toast runs out: it stops, and closes by the toast's id. */
  function Expired(s: Store, handle: nat): Store {
    var i := Spot(s.toasts, handle);
    if handle !in s.timers || i == |s.toasts| then s
    else Closing(s.(timers := s.timers - {handle}), s.toasts[i].id, EXPIRED)
  }

  function AllOff(toasts: seq<Toast>): (off: seq<Toast>)
    ensures |off| == |toasts| && forall i :: 0 <= i < |toasts| ==> off[i] == toasts[i].(onScreen := false)
  {
    if toasts == [] then [] else [toasts[0].(onScreen := false)] + AllOff(toasts[1..])
  }

  function Pulls(toasts: seq<Toast>): seq<Note> {
    if toasts == [] then [] else
      var t := toasts[|toasts| - 1];
      Pulls(toasts[..|toasts| - 1]) + if t.onScreen then [Pulled(t.handle)] else []
  }

  function Handles(toasts: seq<Toast>): set<nat> {
    set t <- toasts :: t.handle
  }

  /** Do not disturb takes effect: everything leaves the screen, with no one told. */
  function Quieted(s: Store): Store {
    s.(toasts := AllOff(s.toasts), timers := s.timers - Handles(On(s.toasts)), story := s.story + Pulls(s.toasts))
  }

  function Cleared(s: Store): Store {
    s.(toasts := On(s.toasts))
  }

  // ----- what every run keeps -----

  /** Whether a toast is on screen, by its story alone. */
  datatype Phase = Away | Here | Wrong

  function PhaseAfter(p: Phase, n: Note, h: nat): Phase {
    if n.handle != h then p
    else match n
      case Shown(_) => if p == Away then Here else Wrong
      case _ => if p == Here then Away else Wrong
  }

  function PhaseOf(story: seq<Note>, h: nat): Phase {
    if story == [] then Away else PhaseAfter(PhaseOf(story[..|story| - 1], h), story[|story| - 1], h)
  }

  /** The closes of toasts from the bus. */
  function Announcements(story: seq<Note>): seq<(u32, u32)> {
    if story == [] then [] else
      var n := story[|story| - 1];
      Announcements(story[..|story| - 1]) + if n.Closed? && n.bus then [(n.id, n.reason)] else []
  }

  ghost predicate IsOn(toasts: seq<Toast>, h: nat) {
    exists t <- toasts :: t.handle == h && t.onScreen
  }

  ghost predicate Distinct(toasts: seq<Toast>) {
    forall i, j :: 0 <= i < j < |toasts| ==> toasts[i].handle != toasts[j].handle
  }

  /** Each toast's story alternates between coming on screen and leaving it, and ends where the toast is. */
  ghost predicate Told(toasts: seq<Toast>, story: seq<Note>) {
    forall h: nat :: PhaseOf(story, h) == if IsOn(toasts, h) then Here else Away
  }

  ghost predicate Inv(s: Store) {
    && Distinct(s.toasts) && (forall t <- s.toasts :: t.handle < s.made)
    && (forall h <- s.timers :: IsOn(s.toasts, h))
    && Told(s.toasts, s.story) && s.announced == Announcements(s.story)
  }

  lemma StoryNext(story: seq<Note>, n: Note)
    ensures forall h: nat :: PhaseOf(story + [n], h) == PhaseAfter(PhaseOf(story, h), n, h)
    ensures Announcements(story + [n]) == Announcements(story) + if n.Closed? && n.bus then [(n.id, n.reason)] else []
  {
    assert (story + [n])[..|story|] == story;
  }

  lemma IsOnAfter(toasts: seq<Toast>, i: nat, t: Toast, h: nat)
    requires Distinct(toasts) && i < |toasts| && t.handle == toasts[i].handle
    ensures IsOn(toasts[i := t], h) <==> if h == t.handle then t.onScreen else IsOn(toasts, h)
    ensures IsOn(toasts, t.handle) == toasts[i].onScreen
  {
    var after := toasts[i := t];
    if h == t.handle {
      assert after[i] == t;
    } else {
      if IsOn(toasts, h) {
        var k :| 0 <= k < |toasts| && toasts[k].handle == h && toasts[k].onScreen;
        assert after[k] == toasts[k];
      }
      if IsOn(after, h) {
        var k :| 0 <= k < |after| && after[k].handle == h && after[k].onScreen;
        assert after[k] == toasts[k];
      }
    }
    assert toasts[i] in toasts;
  }

  /** Replacing a toast, and noting what became of it, keeps the stories true. */
  lemma ReplacedTells(s: Store, i: nat, t: Toast, leaving: Note)
    requires i < |s.toasts| && Distinct(s.toasts) && Told(s.toasts, s.story) && t.handle == s.toasts[i].handle
    requires leaving.handle == t.handle && !leaving.Shown?
    ensures var put := Replaced(s, i, t, leaving);
      && Distinct(put.toasts) && Told(put.toasts, put.story)
      && Announcements(put.story) == Announcements(s.story)
        + (if s.toasts[i].onScreen && !t.onScreen && leaving.Closed? && leaving.bus
           then [(leaving.id, leaving.reason)] else [])
  {
    hide PhaseOf, IsOn, Announcements;
    var put := Replaced(s, i, t, leaving);
    var note := if t.onScreen then Shown(t.handle) else leaving;
    StoryNext(s.story, note);
    assert s.story + [] == s.story;
    forall h: nat ensures PhaseOf(put.story, h) == if IsOn(put.toasts, h) then Here else Away {
      IsOnAfter(s.toasts, i, t, h);
    }
  }

  lemma {:induction false} DroppedKeeps(toasts: seq<Toast>, k: nat)
    requires Distinct(toasts)
    ensures Distinct(Dropped(toasts, k)) && forall h: nat :: IsOn(Dropped(toasts, k), h) == IsOn(toasts, h)
  {
    if toasts != [] && k > 0 {
      DroppedKeeps(toasts[1..], if toasts[0].onScreen then k else k - 1);
      forall t <- toasts[1..] ensures t.handle != toasts[0].handle {
        var j :| 0 <= j < |toasts[1..]| && toasts[1..][j] == t;
        assert t == toasts[j + 1];
      }
    }
  }

  lemma {:induction false} OnKeeps(toasts: seq<Toast>)
    requires Distinct(toasts)
    ensures Distinct(On(toasts)) && forall h: nat :: IsOn(On(toasts), h) == IsOn(toasts, h)
  {
    if toasts != [] {
      OnKeeps(toasts[1..]);
    }
  }

  lemma {:induction false} PullsTell(toasts: seq<Toast>, story: seq<Note>, h: nat)
    requires Distinct(toasts)
    ensures PhaseOf(story + Pulls(toasts), h)
         == if IsOn(toasts, h) then PhaseAfter(PhaseOf(story, h), Pulled(h), h) else PhaseOf(story, h)
    ensures Announcements(story + Pulls(toasts)) == Announcements(story)
  {
    if toasts == [] {
      assert story + [] == story;
    } else {
      hide Distinct, IsOn, PhaseOf, Announcements;
      var n := |toasts| - 1;
      var front, t := toasts[..n], toasts[n];
      OneMoreOn(toasts, h);
      PullsTell(front, story, h);
      StoryNext(story + Pulls(front), Pulled(t.handle));
      assert story + Pulls(toasts) ==
        if t.onScreen then story + Pulls(front) + [Pulled(t.handle)] else story + Pulls(front);
    }
  }

  lemma OneMoreOn(toasts: seq<Toast>, h: nat)
    requires toasts != [] && Distinct(toasts)
    ensures var n := |toasts| - 1;
      && (IsOn(toasts, h) <==> IsOn(toasts[..n], h) || (toasts[n].handle == h && toasts[n].onScreen))
      && (toasts[n].handle == h ==> !IsOn(toasts[..n], h)) && Distinct(toasts[..n])
  {
    assert toasts == toasts[..|toasts| - 1] + [toasts[|toasts| - 1]];
  }

  lemma SlotKeeps(s: Store, replacesId: u32)
    requires Inv(s)
    ensures var (slot, i) := Slot(s, replacesId);
      Inv(slot) && i < |slot.toasts| && (i < |s.toasts| ==> slot == s)
  {
    hide PhaseOf, Announcements;
    var (slot, i) := Slot(s, replacesId);
    if i == |s.toasts| {
      assert slot.toasts[..i] == s.toasts;
      forall h: nat ensures IsOn(slot.toasts, h) == IsOn(s.toasts, h) {
        if IsOn(s.toasts, h) {
          var t :| t in s.toasts && t.handle == h && t.onScreen;
          assert t in slot.toasts;
        }
      }
    }
  }

  /** Timers armed and toasts dropped, the rest as it was: what a post does once its toast is in place. */
  lemma SettledKeeps(s: Store, timers: map<nat, real>, limit: nat)
    requires Distinct(s.toasts) && (forall t <- s.toasts :: t.handle < s.made)
    requires forall h <- timers :: IsOn(s.toasts, h)
    requires Told(s.toasts, s.story) && s.announced == Announcements(s.story)
    ensures Inv(s.(timers := timers, toasts := Trimmed(s.toasts, limit)))
  {
    hide PhaseOf, IsOn, Announcements, Dropped, Surplus;
    DroppedKeeps(s.toasts, Surplus(s.toasts, limit));
  }

  lemma ReplacedRest(s: Store, i: nat, t: Toast, leaving: Note)
    requires Inv(s) && i < |s.toasts| && t.handle == s.toasts[i].handle
    ensures var put := Replaced(s, i, t, leaving);
      && (forall x <- put.toasts :: x.handle < put.made)
      && (forall h <- s.timers :: h != t.handle ==> IsOn(put.toasts, h))
      && (t.onScreen ==> IsOn(put.toasts, t.handle))
  {
    hide PhaseOf, IsOn, Announcements;
    var put := Replaced(s, i, t, leaving);
    forall h: nat ensures IsOn(put.toasts, h) <==> if h == t.handle then t.onScreen else IsOn(s.toasts, h) {
      IsOnAfter(s.toasts, i, t, h);
    }
  }

  lemma PostKeeps(s: Store, p: Post, settings: Settings)
    requires Inv(s)
    ensures Inv(Posted(s, p, settings).0)
  {
    hide PhaseOf, IsOn, Announcements, Slot, Replaced, Trimmed, Told, Shows, Distinct;
    SlotKeeps(s, p.replacesId);
    var (slot, i) := Slot(s, p.replacesId);
    var t := Filled(slot.toasts[i], p, settings);
    var put := Replaced(slot, i, t, Pulled(t.handle));
    ReplacedTells(slot, i, t, Pulled(t.handle));
    ReplacedRest(slot, i, t, Pulled(t.handle));
    PutIs(slot, i, t, Pulled(t.handle));
    SettledKeeps(put, Armed(put.timers, t, p.expireMs, settings.seconds), settings.history);
  }

  /** What a replacement leaves alone. */
  lemma PutIs(s: Store, i: nat, t: Toast, leaving: Note)
    requires i < |s.toasts|
    ensures var put := Replaced(s, i, t, leaving);
      put.timers == s.timers && put.lastId == s.lastId && put.made == s.made && put.announced == s.announced
  {
  }

  lemma CloseKeeps(s: Store, id: u32, reason: u32)
    requires Inv(s)
    ensures Inv(Closing(s, id, reason))
  {
    hide PhaseOf, IsOn, Announcements, Replaced, Told, Distinct;
    var i := Place(s.toasts, id);
    if i < |s.toasts| && s.toasts[i].onScreen {
      var t := s.toasts[i].(onScreen := false);
      var note := Closed(t.handle, id, t.fromBus, reason);
      ReplacedTells(s, i, t, note);
      ReplacedRest(s, i, t, note);
      PutIs(s, i, t, note);
    }
  }

  lemma QuietKeeps(s: Store)
    requires Inv(s)
    ensures Inv(Quieted(s)) && Quieted(s).timers == map[] && Quieted(s).announced == s.announced
  {
    hide PhaseOf, Announcements, Pulls;
    var q := Quieted(s);
    forall h: nat ensures PhaseOf(q.story, h) == Away && !IsOn(q.toasts, h) {
      PullsTell(s.toasts, s.story, h);
    }
    PullsTell(s.toasts, s.story, 0);
    forall h <- s.timers ensures h in Handles(On(s.toasts)) {
      var t :| t in s.toasts && t.handle == h && t.onScreen;
      assert t in On(s.toasts);
    }
    assert q.timers == map[];
  }

  lemma ClearKeeps(s: Store)
    requires Inv(s)
    ensures Inv(Cleared(s))
  {
    hide PhaseOf, IsOn, Announcements;
    OnKeeps(s.toasts);
  }

  lemma TrimKeeps(s: Store, limit: nat)
    requires Inv(s)
    ensures Inv(s.(toasts := Trimmed(s.toasts, limit)))
  {
    hide PhaseOf, IsOn, Announcements, Trimmed, Distinct, Told;
    SettledKeeps(s, s.timers, limit);
  }

  datatype Event =
    | Posting(p: Post, settings: Settings) | Close(id: u32, reason: u32) | Expire(handle: nat)
    | Dnd(active: bool) | Clear | Trim(limit: nat)

  function Do(s: Store, e: Event): Store {
    match e
    case Posting(p, settings) => Posted(s, p, settings).0
    case Close(id, reason) => Closing(s, id, reason)
    case Expire(handle) => Expired(s, handle)
    case Dnd(active) => if active then Quieted(s) else s
    case Clear => Cleared(s)
    case Trim(limit) => s.(toasts := Trimmed(s.toasts, limit))
  }

  function Run(s: Store, events: seq<Event>): Store
    decreases |events|
  {
    if events == [] then s else Run(Do(s, events[0]), events[1..])
  }

  lemma StepKeeps(s: Store, e: Event)
    requires Inv(s)
    ensures Inv(Do(s, e))
  {
    hide Inv, Posted, Closing, Quieted, Cleared, Trimmed;
    match e
    case Posting(p, settings) => PostKeeps(s, p, settings);
    case Close(id, reason) => CloseKeeps(s, id, reason);
    case Expire(handle) =>
      var i := Spot(s.toasts, handle);
      if handle in s.timers && i < |s.toasts| {
        FewerTimers(s, handle);
        CloseKeeps(s.(timers := s.timers - {handle}), s.toasts[i].id, EXPIRED);
      }
    case Dnd(active) =>
      if active {
        QuietKeeps(s);
      }
    case Clear => ClearKeeps(s);
    case Trim(limit) => TrimKeeps(s, limit);
  }

  lemma FewerTimers(s: Store, handle: nat)
    requires Inv(s)
    ensures Inv(s.(timers := s.timers - {handle}))
  {
  }

  /**
   In every run a timer that runs is that of a toast listed and on screen, and what was announced is, one for one and
   in order, the closes of toasts from the bus, each of which took a toast off the screen it was on.
  */
  lemma {:induction false} RunKeeps(s: Store, events: seq<Event>)
    requires Inv(s)
    ensures Inv(Run(s, events))
    decreases |events|
  {
    hide Inv, Do;
    if events != [] {
      StepKeeps(s, events[0]);
      RunKeeps(Do(s, events[0]), events[1..]);
    }
  }

  lemma EveryRunHolds(events: seq<Event>)
    ensures var s := Run(EMPTY, events);
      && (forall h <- s.timers :: exists t <- s.toasts :: t.handle == h && t.onScreen)
      && s.announced == Announcements(s.story)
      && forall h: nat :: PhaseOf(s.story, h) == if IsOn(s.toasts, h) then Here else Away
  {
    hide Do, Run, PhaseOf, Announcements;
    EmptyHolds();
    RunKeeps(EMPTY, events);
  }

  lemma EmptyHolds()
    ensures Inv(EMPTY)
  {
  }

  /** What an expiry does to its own toast: it leaves the screen exactly if no older toast bears its id. */
  lemma ExpiryClosesItsToast(s: Store, handle: nat)
    requires Inv(s) && handle in s.timers
    ensures Spot(s.toasts, handle) < |s.toasts|
    ensures var t := s.toasts[Spot(s.toasts, handle)];
      var after := Expired(s, handle);
      && handle !in after.timers
      && (IsOn(after.toasts, handle) <==> Place(s.toasts, t.id) < Spot(s.toasts, handle))
      && (Place(s.toasts, t.id) == Spot(s.toasts, handle) ==>
        after.announced == if t.fromBus then s.announced + [(t.id, EXPIRED)] else s.announced)
  {
    hide Told, Announcements, Distinct, IsOn;
    SpotIsOn(s, handle);
    var t := s.toasts[Spot(s.toasts, handle)];
    var j := Place(s.toasts, t.id);
    assert Distinct(s.toasts) && IsOn(s.toasts, handle);
    IsOnAfter(s.toasts, j, s.toasts[j].(onScreen := false), handle);
    SpotsDiffer(s.toasts, j, Spot(s.toasts, handle));
  }

  lemma SpotIsOn(s: Store, handle: nat)
    requires Inv(s) && handle in s.timers
    ensures Spot(s.toasts, handle) < |s.toasts| && s.toasts[Spot(s.toasts, handle)].onScreen
    ensures Place(s.toasts, s.toasts[Spot(s.toasts, handle)].id) <= Spot(s.toasts, handle)
  {
    hide Told, Announcements;
    var k :| 0 <= k < |s.toasts| && s.toasts[k].handle == handle && s.toasts[k].onScreen;
    assert Spot(s.toasts, handle) == k;
  }

  lemma SpotsDiffer(toasts: seq<Toast>, i: nat, j: nat)
    requires Distinct(toasts) && i <= j < |toasts|
    ensures toasts[i].handle == toasts[j].handle <==> i == j
  {
  }

  // ----- what a post leaves -----

  /** If the first `k` off-screen toasts are dropped, the one at `i` stays exactly if it is on screen or behind them. */
  lemma {:induction false} DroppedHas(toasts: seq<Toast>, k: nat, i: nat)
    requires Distinct(toasts) && i < |toasts|
    ensures toasts[i] in Dropped(toasts, k) <==> toasts[i].onScreen || |Off(toasts[..i])| >= k
  {
    if k > 0 && i > 0 {
      var rest, less := toasts[1..], if toasts[0].onScreen then k else k - 1;
      assert rest[i - 1] == toasts[i] && toasts[..i][1..] == rest[..i - 1];
      assert Distinct(rest);
      DroppedHas(rest, less, i - 1);
      assert toasts[i] != toasts[0];
    } else if k > 0 && !toasts[0].onScreen {
      FirstIsGone(toasts, k - 1);
    }
  }

  lemma FirstIsGone(toasts: seq<Toast>, k: nat)
    requires Distinct(toasts) && toasts != []
    ensures toasts[0] !in Dropped(toasts[1..], k)
  {
    forall t <- toasts[1..] ensures t != toasts[0] {
      var j :| 0 <= j < |toasts[1..]| && toasts[1..][j] == t;
      assert t == toasts[j + 1];
    }
  }

  lemma {:induction false} OnAndOff(toasts: seq<Toast>)
    ensures |On(toasts)| + |Off(toasts)| == |toasts|
  {
    if toasts != [] {
      OnAndOff(toasts[1..]);
    }
  }

  lemma {:induction false} OffSplits(xs: seq<Toast>, ys: seq<Toast>)
    ensures Off(xs + ys) == Off(xs) + Off(ys)
  {
    if xs == [] {
      assert xs + ys == ys;
    } else {
      assert (xs + ys)[1..] == xs[1..] + ys;
      OffSplits(xs[1..], ys);
    }
  }

  /** The toast of a post, and the list it is put in, before the trim. */
  function Put(s: Store, p: Post, settings: Settings): (seq<Toast>, nat) {
    var (slot, i) := Slot(s, p.replacesId);
    (slot.toasts[i := Filled(slot.toasts[i], p, settings)], i)
  }

  /**
   The toast a post is answered for survives the post's own trim exactly if it is shown, or enough older toasts are off
   the screen to make the trim's surplus.
  */
  lemma PostSurvives(s: Store, p: Post, settings: Settings)
    requires Inv(s)
    ensures var (put, i) := Put(s, p, settings);
      put[i] in Posted(s, p, settings).0.toasts
      <==> Shows(settings, p.app) || |Off(put[..i])| >= Surplus(put, settings.history)
  {
    hide Shows, Armed, Dropped, Surplus, Off, PhaseOf, Announcements, Told;
    SlotKeeps(s, p.replacesId);
    var (put, i) := Put(s, p, settings);
    DroppedHas(put, Surplus(put, settings.history), i);
  }

  /** A new toast is dropped by its own post exactly if it is muted and the history is full of toasts on screen. */
  lemma NewToastSurvives(s: Store, p: Post, settings: Settings)
    requires Inv(s) && (p.replacesId == 0 || Place(s.toasts, p.replacesId) == |s.toasts|)
    ensures var (put, i) := Put(s, p, settings);
      put[i] in Posted(s, p, settings).0.toasts <==> Shows(settings, p.app) || |On(s.toasts)| < settings.history
  {
    hide Shows, Posted, PhaseOf, Announcements, Told, Distinct;
    PostSurvives(s, p, settings);
    var (put, i) := Put(s, p, settings);
    assert i == |s.toasts| && put[..i] == s.toasts && put == s.toasts + [put[i]];
    OffSplits(s.toasts, [put[i]]);
    OnAndOff(s.toasts);
    assert Off([put[i]]) == if put[i].onScreen then [] else [put[i]] by {
      assert [put[i]][1..] == [];
    }
  }

  /** A post is answered with the id of its toast; a toast it puts on screen is there when it returns. */
  lemma PostIsAnswered(s: Store, p: Post, settings: Settings)
    ensures var (after, id) := Posted(s, p, settings);
      && (if p.replacesId != 0 && Place(s.toasts, p.replacesId) < |s.toasts| then id == p.replacesId
          else id == (s.lastId + 1) % WORD)
      && (Shows(settings, p.app) ==> exists t <- after.toasts :: t.id == id && t.onScreen)
  {
    hide Shows, Armed, Dropped, Surplus;
    var (slot, i) := Slot(s, p.replacesId);
    var t := Filled(slot.toasts[i], p, settings);
    var put := Replaced(slot, i, t, Pulled(t.handle));
    assert put.toasts[i] == t;
  }

  predicate FirstFor(rules: seq<Rule>, i: nat, app: string) {
    i < |rules| && rules[i].app == app && forall j :: 0 <= j < i ==> rules[j].app != app
  }

  /** The first rule of an app has this policy, and is among those that fit. */
  ghost predicate Ruled(settings: Settings, app: string, policy: Policy) {
    exists i: nat :: i < RULE_CAPACITY && FirstFor(settings.rules, i, app) && settings.rules[i].policy == policy
  }

  /** A post of an app comes on screen: its rule allows it, or no rule mutes it and do not disturb is off. */
  ghost predicate Welcome(settings: Settings, app: string) {
    Ruled(settings, app, Allow) || (!Ruled(settings, app, Mute) && !settings.dnd)
  }

  lemma {:induction false} PolicyIsFirst(rules: seq<Rule>, app: string)
    ensures forall i: nat :: FirstFor(rules, i, app) ==> PolicyFor(rules, app) == rules[i].policy
    ensures (forall i: nat :: !FirstFor(rules, i, app)) ==> PolicyFor(rules, app) == Default
  {
    if rules != [] && rules[0].app != app {
      PolicyIsFirst(rules[1..], app);
      forall i: nat | i > 0 ensures FirstFor(rules, i, app) <==> FirstFor(rules[1..], i - 1, app) {
        FirstForRest(rules, i, app);
      }
      assert !FirstFor(rules, 0, app);
      assert forall i: nat :: FirstFor(rules[1..], i, app) ==> FirstFor(rules, i + 1, app);
    } else if rules != [] {
      assert FirstFor(rules, 0, app);
    }
  }

  lemma FirstForRest(rules: seq<Rule>, i: nat, app: string)
    requires 0 < i && rules != [] && rules[0].app != app
    ensures FirstFor(rules, i, app) <==> FirstFor(rules[1..], i - 1, app)
  {
    if FirstFor(rules[1..], i - 1, app) {
      forall j | 0 <= j < i ensures rules[j].app != app {
        assert j > 0 ==> rules[j] == rules[1..][j - 1];
      }
    }
  }

  lemma ShowsWelcome(settings: Settings, app: string)
    ensures Shows(settings, app) <==> Welcome(settings, app)
  {
    hide PolicyFor;
    var kept := Capped(settings.rules);
    PolicyIsFirst(kept, app);
    assert forall i: nat :: FirstFor(kept, i, app) <==> i < RULE_CAPACITY && FirstFor(settings.rules, i, app);
    if i: nat :| FirstFor(kept, i, app) {
      assert forall k: nat :: FirstFor(kept, k, app) ==> k == i;
    }
  }

  /** A toast is what a post says. */
  predicate Bears(t: Toast, handle: nat, p: Post, settings: Settings) {
    && t.handle == handle && t.app == p.app && t.fromBus == p.fromBus
    && t.critical == (p.critical && settings.allowCritical)
  }

  /** The handle of the toast a post is for: that of the one it replaces, or a new one. */
  function PostHandle(s: Store, p: Post): nat {
    var i := if p.replacesId != 0 then Place(s.toasts, p.replacesId) else |s.toasts|;
    if i < |s.toasts| then s.toasts[i].handle else s.made
  }

  /**
   After a post its toast is on screen exactly if the app is welcome, with a timer exactly if besides it is not critical
   and does not ask to stay; every other toast on screen, and its timer, is as it was.
  */
  lemma PostIsHeeded(s: Store, p: Post, settings: Settings)
    requires Inv(s)
    ensures var h, after := PostHandle(s, p), Posted(s, p, settings).0;
      && (IsOn(after.toasts, h) <==> Welcome(settings, p.app))
      && (h in after.timers <==>
            Welcome(settings, p.app) && !(p.critical && settings.allowCritical) && p.expireMs != 0)
      && (h in after.timers ==>
            after.timers[h] == if p.expireMs > 0 then p.expireMs as real / 1000.0 else settings.seconds)
      && (Welcome(settings, p.app) ==> exists t <- after.toasts :: Bears(t, h, p, settings) && t.onScreen)
      && (forall k: nat :: k != h ==> (IsOn(after.toasts, k) <==> IsOn(s.toasts, k)))
      && after.timers - {h} == s.timers - {h}
  {
    hide Shows, Welcome, PhaseOf, Announcements, Told, Distinct, IsOn, Trimmed;
    ShowsWelcome(settings, p.app);
    SlotKeeps(s, p.replacesId);
    var (slot, i) := Slot(s, p.replacesId);
    var t := Filled(slot.toasts[i], p, settings);
    forall k: nat
      ensures IsOn(Posted(s, p, settings).0.toasts, k) <==> if k == t.handle then t.onScreen else IsOn(s.toasts, k)
    {
      IsOnAfter(slot.toasts, i, t, k);
      TrimmedOn(slot.toasts[i := t], settings.history, k);
      SlotOn(s, p.replacesId, k);
    }
    if t.onScreen {
      var put := slot.toasts[i := t];
      assert put[i] == t && Bears(t, PostHandle(s, p), p, settings);
      TrimmedHas(put, settings.history, t);
    }
  }

  lemma TrimmedHas(toasts: seq<Toast>, limit: nat, t: Toast)
    requires t in toasts && t.onScreen
    ensures t in Trimmed(toasts, limit)
  {
  }

  /**
   A close takes the first toast of the id off the screen, if it is on it, with its timer, and announces it with the
   reason exactly if it came from the bus; nothing else changes, and no other close changes anything.
  */
  lemma CloseIsAnnounced(s: Store, id: u32, reason: u32)
    requires Inv(s)
    ensures var i, after := Place(s.toasts, id), Closing(s, id, reason);
      if i < |s.toasts| && s.toasts[i].onScreen then
        && |after.toasts| == |s.toasts| && after.toasts[i] == s.toasts[i].(onScreen := false)
        && (forall k :: 0 <= k < |s.toasts| && k != i ==> after.toasts[k] == s.toasts[k])
        && after.timers == s.timers - {s.toasts[i].handle} && after.lastId == s.lastId && after.made == s.made
        && after.announced == s.announced + if s.toasts[i].fromBus then [(id, reason)] else []
      else after == s
  {
    hide Inv;
  }

  lemma TrimmedOn(toasts: seq<Toast>, limit: nat, h: nat)
    ensures IsOn(Trimmed(toasts, limit), h) <==> IsOn(toasts, h)
  {
  }

  lemma SlotOn(s: Store, replacesId: u32, h: nat)
    requires Inv(s)
    ensures IsOn(Slot(s, replacesId).0.toasts, h) <==> IsOn(s.toasts, h)
    ensures Slot(s, replacesId).0.timers == s.timers
  {
    var toasts := Slot(s, replacesId).0.toasts;
    assert forall k :: 0 <= k < |s.toasts| ==> toasts[k] == s.toasts[k];
  }

  /** A post that is muted into a full history is dropped at once, and still answered. */
  lemma MutedPostMayVanish(p: Post, seconds: real)
    requires p.replacesId == 0
    ensures var settings := Settings(false, [Rule(p.app, Mute)], false, seconds, 0);
      var (after, id) := Posted(EMPTY, p, settings);
      after.toasts == [] && id == 1
  {
    var settings := Settings(false, [Rule(p.app, Mute)], false, seconds, 0);
    assert !Shows(settings, p.app);
    var t := Filled(Toast(0, 1, "", false, false, false), p, settings);
    assert Off([t]) == [t] by {
      assert [t][1..] == [];
    }
    DroppedIs([t], 1);
    var made := Toast(0, 1, "", false, false, false);
    assert EMPTY.toasts + [made] == [made];
    var put := [made][0 := t];
    assert put == [t];
    assert Posted(EMPTY, p, settings).0.toasts == Trimmed(put, 0) == Dropped([t], 1);
  }
}
