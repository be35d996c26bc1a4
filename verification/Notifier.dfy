/** The notification store as the object it is: a list of toasts updated in place, walked by its loops. */
module Notifier {
  import opened NotifierModel

  class Notifier {
    var toasts: seq<Toast>          // newest last
    var timers: map<nat, real>      // running, in the event loop
    var lastId: u32
    var made: nat
    var announced: seq<(u32, u32)>  // what listeners heard
    ghost var story: seq<Note>

    ghost function View(): Store
      reads this
    {
      Store(toasts, timers, lastId, made, announced, story)
    }

    constructor ()
      ensures View() == EMPTY && Inv(View())
    {
      toasts, timers, lastId, made, announced, story := [], map[], 0, 0, [], [];
      new;
      EmptyHolds();
    }

    method ById(id: u32) returns (i: nat)
      ensures i == Place(toasts, id)
    {
      i := 0;
      while i < |toasts|
        invariant i <= |toasts| && forall k :: 0 <= k < i ==> toasts[k].id != id
      {
        if toasts[i].id == id {
          return;
        }
        i := i + 1;
      }
    }

    method ArmTimer(t: Toast, expireMs: int, seconds: real)
      requires t.onScreen
      modifies this`timers
      ensures timers == Armed(old(timers), t, expireMs, seconds)
    {
      timers := timers - {t.handle};
      if t.critical || expireMs == 0 {
        return;
      }
      timers := timers[t.handle := if expireMs > 0 then expireMs as real / 1000.0 else seconds];
      assert timers == old(timers)[t.handle := timers[t.handle]];
    }

    method Trim(limit: nat)
      modifies this`toasts
      ensures toasts == Trimmed(old(toasts), limit)
    {
      hide Dropped, FirstOff, Off, On, Removed;
      ghost var k := 0;
      DroppedIs(toasts, 0);
      assert Dropped(toasts, 0) == toasts by {
        NoneDropped(toasts);
      }
      while |toasts| > limit
        invariant k <= |Off(old(toasts))| && toasts == Dropped(old(toasts), k) && |toasts| == |old(toasts)| - k
        invariant k <= (if |old(toasts)| > limit then |old(toasts)| - limit else 0)
        decreases |toasts|
      {
        var victim := 0;
        while victim < |toasts| && toasts[victim].onScreen
          invariant victim <= |toasts| && forall i :: 0 <= i < victim ==> toasts[i].onScreen
        {
          victim := victim + 1;
        }
        FirstOffIs(toasts, victim);
        DroppedIs(old(toasts), k);
        NoneOff(toasts);
        if victim == |toasts| {
          break;
        }
        DropOneMore(old(toasts), k);
        RemovedIs(toasts, victim);
        toasts := toasts[..victim] + toasts[victim + 1..];
        k := k + 1;
        DroppedIs(old(toasts), k);
      }
      DroppedIs(old(toasts), k);
    }

    /** The first rule for an app decides, among as many as are kept. */
    method RuleFor(rules: seq<Rule>, app: string) returns (policy: Policy)
      ensures policy == PolicyFor(Capped(rules), app)
    {
      ghost var kept := Capped(rules);
      var i := 0;
      policy := Default;
      while i < |rules| && i < RULE_CAPACITY
        invariant i <= |kept| && policy == Default
        invariant PolicyFor(kept, app) == PolicyFor(kept[i..], app)
        decreases |kept| - i
      {
        assert kept[i..][1..] == kept[i + 1..] && kept[i] == rules[i];
        if rules[i].app == app {
          policy := rules[i].policy;
          break;
        }
        i := i + 1;
      }
    }

    /** The toast a post replaces, or a new one at the end of the list. */
    method FindOrMake(replacesId: u32) returns (i: nat)
      modifies this
      ensures (View(), i) == Slot(old(View()), replacesId) && i < |toasts|
    {
      i := |toasts|;
      if replacesId != 0 {
        i := ById(replacesId);
      }
      if i == |toasts| {
        lastId := (lastId + 1) % WORD;
        toasts := toasts + [Toast(made, lastId, "", false, false, false)];
        made := made + 1;
      }
    }

    method Post(p: NotifierModel.Post, settings: Settings) returns (id: u32)
      modifies this
      ensures (View(), id) == Posted(old(View()), p, settings)
    {
      hide PolicyFor, Capped, Trimmed, Slot;
      var i := FindOrMake(p.replacesId);
      ghost var was := toasts[i].onScreen;
      id := toasts[i].id;
      var policy := RuleFor(settings.rules, p.app);
      var shown := policy == Allow || (policy == Default && !settings.dnd);
      toasts := toasts[i := toasts[i].(app := p.app, critical := p.critical && settings.allowCritical,
                                       fromBus := p.fromBus, onScreen := shown)];
      if shown {
        ArmTimer(toasts[i], p.expireMs, settings.seconds);
      } else {
        timers := timers - {toasts[i].handle};
      }
      story := story +
        if was == shown then [] else if shown then [Shown(toasts[i].handle)] else [Pulled(toasts[i].handle)];
      Trim(settings.history);
    }

    method Close(id: u32, reason: u32)
      modifies this
      ensures View() == Closing(old(View()), id, reason)
    {
      var i := ById(id);
      if i == |toasts| || !toasts[i].onScreen {
        return;
      }
      var t := toasts[i];
      timers := timers - {t.handle};
      toasts := toasts[i := t.(onScreen := false)];
      if t.fromBus {
        announced := announced + [(id, reason)];
      }
      story := story + [Closed(t.handle, id, t.fromBus, reason)];
    }

    /** The expiry callback of a toast's timer, which has stopped by then. */
    method Expire(handle: nat)
      requires handle in timers && Spot(toasts, handle) < |toasts|
      modifies this
      ensures View() == Expired(old(View()), handle)
    {
      hide Closing;
      var i := 0;
      while toasts[i].handle != handle
        invariant i <= Spot(toasts, handle) && View() == old(View())
        decreases |toasts| - i
      {
        i := i + 1;
      }
      timers := timers - {handle};
      Close(toasts[i].id, EXPIRED);
    }

    method Dismiss(id: u32)
      modifies this
      ensures View() == Closing(old(View()), id, DISMISSED)
    {
      Close(id, DISMISSED);
    }

    method ClearHistory()
      modifies this`toasts
      ensures View() == Cleared(old(View()))
    {
      hide On;
      var n := 0;
      ghost var seen := 0;
      SweptNone(toasts);
      while n < |toasts|
        invariant n <= |toasts| && seen <= |old(toasts)| && Swept(old(toasts), seen, toasts, n)
        decreases |toasts| - n
      {
        SweptNext(old(toasts), seen, toasts, n);
        if !toasts[n].onScreen {
          toasts := toasts[..n] + toasts[n + 1..];
        } else {
          n := n + 1;
        }
        seen := seen + 1;
      }
      SweptAll(old(toasts), seen, toasts, n);
    }

    /** Do not disturb, or a change to it: if it is in effect, everything leaves the screen. */
    method ApplyDnd(active: bool)
      modifies this
      ensures View() == if active then Quieted(old(View())) else old(View())
    {
      hide On, AllOff, Pulls, Handles, PulledSoFar, Quieted;
      if !active {
        return;
      }
      PullNone(View());
      for i := 0 to |toasts|
        invariant |toasts| == |old(toasts)|
        invariant View() == PulledSoFar(old(View()), i)
      {
        PullNext(old(View()), i);
        var t := toasts[i];
        if t.onScreen {
          timers := timers - {t.handle};
          toasts := toasts[i := t.(onScreen := false)];
          story := story + [Pulled(t.handle)];
        }
      }
      PullAll(old(View()));
    }
  }

  /** The first `seen` of the toasts there were are swept: those on screen are the first `n` of the toasts left. */
  ghost predicate Swept(before: seq<Toast>, seen: nat, toasts: seq<Toast>, n: nat)
    requires seen <= |before|
  {
    toasts == On(before[..seen]) + before[seen..] && n == |On(before[..seen])|
  }

  lemma SweptNone(before: seq<Toast>)
    ensures Swept(before, 0, before, 0)
  {
    assert before[..0] == [] && [] + before[0..] == before;
  }

  lemma SweptNext(before: seq<Toast>, seen: nat, toasts: seq<Toast>, n: nat)
    requires seen <= |before| && Swept(before, seen, toasts, n) && n < |toasts|
    ensures seen < |before|
    ensures if toasts[n].onScreen then Swept(before, seen + 1, toasts, n + 1)
      else Swept(before, seen + 1, toasts[..n] + toasts[n + 1..], n)
  {
    hide On;
    OnNext(before, seen);
    var kept := On(before[..seen]);
    assert toasts[n] == before[seen];
    if toasts[n].onScreen {
      assert kept + before[seen..] == kept + [before[seen]] + before[seen + 1..];
    } else {
      assert toasts[..n] == kept && toasts[n + 1..] == before[seen + 1..];
    }
  }

  lemma SweptAll(before: seq<Toast>, seen: nat, toasts: seq<Toast>, n: nat)
    requires seen <= |before| && Swept(before, seen, toasts, n) && n == |toasts|
    ensures toasts == On(before)
  {
    hide On;
    assert before[..|before|] == before;
    assert seen == |before|;
  }

  /** A store with the first `i` toasts taken off the screen. */
  ghost function PulledSoFar(s: Store, i: nat): Store
    requires i <= |s.toasts|
  {
    s.(toasts := AllOff(s.toasts[..i]) + s.toasts[i..], timers := s.timers - Handles(On(s.toasts[..i])),
       story := s.story + Pulls(s.toasts[..i]))
  }

  lemma PullNone(s: Store)
    ensures PulledSoFar(s, 0) == s
  {
    assert s.toasts[..0] == [] && [] + s.toasts[0..] == s.toasts;
    assert s.timers - {} == s.timers && s.story + [] == s.story;
  }

  lemma PullAll(s: Store)
    ensures PulledSoFar(s, |s.toasts|) == Quieted(s)
  {
    assert s.toasts[..|s.toasts|] == s.toasts && s.toasts[|s.toasts|..] == [];
    assert AllOff(s.toasts) + [] == AllOff(s.toasts);
  }

  lemma AllOffNext(toasts: seq<Toast>, i: nat)
    requires i < |toasts|
    ensures var t := toasts[i];
      var p, q := AllOff(toasts[..i]) + toasts[i..], AllOff(toasts[..i + 1]) + toasts[i + 1..];
      p[i] == t && q == if t.onScreen then p[i := t.(onScreen := false)] else p
  {
    hide AllOff;
  }

  lemma TimersNext(toasts: seq<Toast>, timers: map<nat, real>, i: nat)
    requires i < |toasts|
    ensures var p, q := timers - Handles(On(toasts[..i])), timers - Handles(On(toasts[..i + 1]));
      q == if toasts[i].onScreen then p - {toasts[i].handle} else p
  {
    hide On, Handles;
    OnNext(toasts, i);
  }

  lemma PullNext(s: Store, i: nat)
    requires i < |s.toasts|
    ensures var t, p := s.toasts[i], PulledSoFar(s, i);
      && |p.toasts| == |s.toasts| && p.toasts[i] == t
      && PulledSoFar(s, i + 1)
         == if t.onScreen then p.(toasts := p.toasts[i := t.(onScreen := false)], timers := p.timers - {t.handle},
                                  story := p.story + [Pulled(t.handle)])
            else p
  {
    hide On, Handles, AllOff;
    AllOffNext(s.toasts, i);
    TimersNext(s.toasts, s.timers, i);
    assert s.toasts[..i + 1][..i] == s.toasts[..i];
    var t, p, q := s.toasts[i], PulledSoFar(s, i), PulledSoFar(s, i + 1);
    assert q.story == if t.onScreen then p.story + [Pulled(t.handle)] else p.story;
  }

  lemma FirstOffIs(toasts: seq<Toast>, i: nat)
    requires i <= |toasts| && (i < |toasts| ==> !toasts[i].onScreen) && forall k :: 0 <= k < i ==> toasts[k].onScreen
    ensures FirstOff(toasts) == i
  {
  }

  lemma RemovedIs(toasts: seq<Toast>, i: nat)
    requires i < |toasts|
    ensures Removed(toasts, i) == toasts[..i] + toasts[i + 1..]
  {
  }

  lemma NoneDropped(toasts: seq<Toast>)
    ensures Dropped(toasts, 0) == toasts
  {
  }

  lemma {:induction false} OnSplits(xs: seq<Toast>, ys: seq<Toast>)
    ensures On(xs + ys) == On(xs) + On(ys)
  {
    if xs == [] {
      assert xs + ys == ys;
    } else {
      assert (xs + ys)[1..] == xs[1..] + ys;
      OnSplits(xs[1..], ys);
    }
  }

  lemma OnNext(toasts: seq<Toast>, i: nat)
    requires i < |toasts|
    ensures On(toasts[..i + 1]) == On(toasts[..i]) + if toasts[i].onScreen then [toasts[i]] else []
    ensures Handles(On(toasts[..i + 1]))
         == Handles(On(toasts[..i])) + if toasts[i].onScreen then {toasts[i].handle} else {}
  {
    assert toasts[..i + 1] == toasts[..i] + [toasts[i]];
    OnSplits(toasts[..i], [toasts[i]]);
    assert [toasts[i]][1..] == [];
  }
}
