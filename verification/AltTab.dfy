/**
 The window switcher: a walk over the ring of windows, with the list's head in it, from the window selected so far to
 the next or previous mapped one.
*/
module AltTab {
  datatype Option<T> = None | Some(value: T)

  /** The first mapped window from `i` on, or the end. */
  function NextFrom(mapped: seq<bool>, i: nat): (j: nat)
    requires i <= |mapped|
    ensures i <= j <= |mapped| && (j < |mapped| ==> mapped[j])
    ensures forall k :: i <= k < j ==> !mapped[k]
    decreases |mapped| - i
  {
    if i == |mapped| || mapped[i] then i else NextFrom(mapped, i + 1)
  }

  /** One past the last mapped window before `i`, or the start. */
  function PastPrev(mapped: seq<bool>, i: nat): (j: nat)
    requires i <= |mapped|
    ensures j <= i && (j > 0 ==> mapped[j - 1])
    ensures forall k :: j <= k < i ==> !mapped[k]
  {
    if i == 0 || mapped[i - 1] then i else PastPrev(mapped, i - 1)
  }

  /** The window to select: round the ring from the base, itself last, or from the head if there is no base. */
  function Target(mapped: seq<bool>, base: Option<nat>, forward: bool): Option<nat>
    requires base.Some? ==> base.value < |mapped|
  {
    if forward then
      var after := NextFrom(mapped, if base.Some? then base.value + 1 else 0);
      var j := if after < |mapped| then after else NextFrom(mapped, 0);
      if j < |mapped| then Some(j) else None
    else
      var before := PastPrev(mapped, if base.Some? then base.value else |mapped|);
      var j := if before > 0 then before else PastPrev(mapped, |mapped|);
      if j > 0 then Some(j - 1) else None
  }

  /** What the switcher remembers: whether it is up, the window selected last, even by an earlier use, and the focus. */
  datatype Selection = Selection(active: bool, selected: Option<nat>, focused: Option<nat>)

  predicate InRing(mapped: seq<bool>, s: Selection) {
    (s.selected.Some? ==> s.selected.value < |mapped|) && (s.focused.Some? ==> s.focused.value < |mapped|)
  }

  /** Where a step starts from: the window selected while the switcher is up, else the one in focus. */
  function Base(s: Selection): Option<nat> {
    if s.active && s.selected.Some? then s.selected else s.focused
  }

  function Stepped(mapped: seq<bool>, s: Selection, forward: bool): Selection
    requires InRing(mapped, s)
  {
    var target := Target(mapped, Base(s), forward);
    if target.Some? then s.(active := true, selected := target) else s
  }

  class Switcher {
    var mapped: seq<bool>           // the windows of the ring, in order
    var active: bool
    var selected: Option<nat>
    var focused: Option<nat>

    ghost function View(): Selection
      reads this
    {
      Selection(active, selected, focused)
    }

    ghost predicate Valid()
      reads this
    {
      InRing(mapped, View())
    }

    constructor (windows: seq<bool>, focus: Option<nat>)
      requires focus.Some? ==> focus.value < |windows|
      ensures Valid() && mapped == windows && focused == focus && !active && selected == None
    {
      mapped, active, selected, focused := windows, false, None, focus;
    }

    /** Place |mapped| is the head of the list. */
    method Step(forward: bool)
      requires Valid()
      modifies this`active, this`selected
      ensures Valid() && View() == Stepped(mapped, old(View()), forward)
    {
      hide Target, Passed;
      var head := |mapped|;
      if head == 0 {
        Empty(mapped, Base(View()), forward);
        return;
      }
      var base := if active && selected.Some? then selected else focused;
      var start: nat := if base.Some? then base.value else head;
      var n: nat, first := start, true;
      while first || n != start
        invariant first ==> n == start
        invariant !first ==> n < head && Passed(mapped, start, n, forward)
        invariant active == old(active) && selected == old(selected)
        decreases if first then 2 * head + 2 else Left(head, start, n, forward)
      {
        ghost var from, begun := n, !first;
        first := false;
        n := Beside(n, head, forward);
        if n == head {
          // back at the head it started from, the walk is over
          if start == head {
            Exhausted(mapped, base, start, from, forward);
            return;
          }
          n := Beside(n, head, forward);
        }
        Advanced(mapped, base, start, from, begun, n, forward);
        if mapped[n] {
          active := true;
          selected := Some(n);
          return;
        }
      }
      Exhausted(mapped, base, start, n, forward);
    }
  }

  /** The neighbour of a place of the ring. */
  function Beside(n: nat, head: nat, forward: bool): (m: nat)
    requires n <= head
    ensures m <= head
  {
    if forward then (if n == head then 0 else n + 1) else if n == 0 then head else n - 1
  }

  lemma Empty(mapped: seq<bool>, base: Option<nat>, forward: bool)
    requires mapped == [] && base.None?
    ensures Target(mapped, base, forward) == None
  {
  }

  /** One window further: either it is the target, or it is passed too; and there are fewer left. */
  lemma Advanced(mapped: seq<bool>, base: Option<nat>, start: nat, from: nat, begun: bool, n: nat, forward: bool)
    requires (base.Some? ==> base.value < |mapped|) && start == if base.Some? then base.value else |mapped|
    requires from <= |mapped| && (!begun ==> from == start) && n < |mapped|
    requires begun ==> from < |mapped| && from != start && Passed(mapped, start, from, forward)
    requires var m := Beside(from, |mapped|, forward);
      if m == |mapped| then start != m && n == Beside(m, |mapped|, forward) else n == m
    ensures mapped[n] ==> Target(mapped, base, forward) == Some(n)
    ensures !mapped[n] ==> Passed(mapped, start, n, forward)
    ensures begun ==> Left(|mapped|, start, n, forward) < Left(|mapped|, start, from, forward)
    ensures Left(|mapped|, start, n, forward) < 2 * |mapped| + 2
  {
  }

  /** A walk that is round has passed every window, and none is mapped. */
  lemma Exhausted(mapped: seq<bool>, base: Option<nat>, start: nat, n: nat, forward: bool)
    requires (base.Some? ==> base.value < |mapped|) && start == if base.Some? then base.value else |mapped|
    requires n < |mapped| && Passed(mapped, start, n, forward)
    requires n == start || (start == |mapped| && Beside(n, |mapped|, forward) == |mapped|)
    ensures Target(mapped, base, forward) == None
  {
    forall k | 0 <= k < |mapped| ensures !mapped[k] {
      assert Between(start, k, n, |mapped|, forward);
    }
  }

  /** What a walk from `start` has passed when it stands at `n`: only windows that are not mapped. */
  ghost predicate Passed(mapped: seq<bool>, start: nat, n: nat, forward: bool)
    requires n < |mapped|
  {
    forall k :: 0 <= k < |mapped| && Between(start, k, n, |mapped|, forward) ==> !mapped[k]
  }

  predicate Between(start: nat, k: nat, n: nat, head: nat, forward: bool) {
    if forward then
      if start == head then k <= n else if n > start then start < k <= n else k > start || k <= n
    else
      if start == head then k >= n else if n < start then n <= k < start else k < start || k >= n
  }

  /** How many windows a walk has yet to pass. */
  function Left(head: nat, start: nat, n: nat, forward: bool): nat {
    if forward then
      if start == head then (if n < head then head - n else 0)
      else if n > start then (if n <= head then head - n + start + 1 else 0) else start - n
    else
      if start == head then n
      else if n < start then (if start <= head then n + head - start + 1 else 0) else n - start
  }

  // ----- round and round -----

  /** The mapped windows from `i` on, in ring order. */
  function Ones(mapped: seq<bool>, i: nat): (ones: seq<nat>)
    requires i <= |mapped|
    ensures forall k <- ones :: i <= k < |mapped| && mapped[k]
    decreases |mapped| - i
  {
    if i == |mapped| then [] else (if mapped[i] then [i] else []) + Ones(mapped, i + 1)
  }

  lemma {:induction false} OnesAreAll(mapped: seq<bool>, i: nat)
    requires i <= |mapped|
    ensures forall k :: i <= k < |mapped| && mapped[k] ==> k in Ones(mapped, i)
    ensures forall a, b :: 0 <= a < b < |Ones(mapped, i)| ==> Ones(mapped, i)[a] < Ones(mapped, i)[b]
    decreases |mapped| - i
  {
    if i < |mapped| {
      OnesAreAll(mapped, i + 1);
      var rest := Ones(mapped, i + 1);
      forall b | 0 <= b < |rest| ensures i < rest[b] {
        assert rest[b] in rest;
      }
    }
  }

  /** Where a mapped window stands among the mapped ones. */
  lemma PlaceOf(mapped: seq<bool>, b: nat) returns (place: nat)
    requires b < |mapped| && mapped[b]
    ensures place < |Ones(mapped, 0)| && Ones(mapped, 0)[place] == b
  {
    OnesAreAll(mapped, 0);
    place :| 0 <= place < |Ones(mapped, 0)| && Ones(mapped, 0)[place] == b;
  }

  /** The place after or before one, round a ring of `r`. */
  function Turned(place: nat, r: nat, forward: bool): nat
    requires place < r
  {
    if forward then (if place + 1 == r then 0 else place + 1) else if place == 0 then r - 1 else place - 1
  }

  /** Nothing mapped lies between neighbours, before the first, or after the last. */
  lemma Neighbours(mapped: seq<bool>, place: nat, k: nat)
    requires place < |Ones(mapped, 0)| && k < |mapped| && mapped[k]
    ensures var ones := Ones(mapped, 0);
      && (k > ones[place] ==> place + 1 < |ones| && k >= ones[place + 1])
      && (k < ones[place] ==> place > 0 && k <= ones[place - 1])
      && ones[0] <= k <= ones[|ones| - 1]
  {
    hide Ones;
    OnesAreAll(mapped, 0);
    var i := PlaceOf(mapped, k);
  }

  lemma OneIs(mapped: seq<bool>, place: nat)
    requires place < |Ones(mapped, 0)|
    ensures Ones(mapped, 0)[place] < |mapped| && mapped[Ones(mapped, 0)[place]]
  {
    assert Ones(mapped, 0)[place] in Ones(mapped, 0);
  }

  lemma NextIs(mapped: seq<bool>, i: nat, j: nat)
    requires i <= j <= |mapped| && (j < |mapped| ==> mapped[j]) && forall k :: i <= k < j ==> !mapped[k]
    ensures NextFrom(mapped, i) == j
  {
  }

  lemma PrevIs(mapped: seq<bool>, i: nat, j: nat)
    requires j <= i <= |mapped| && (j > 0 ==> mapped[j - 1]) && forall k :: j <= k < i ==> !mapped[k]
    ensures PastPrev(mapped, i) == j
  {
  }

  lemma ForwardTurn(mapped: seq<bool>, place: nat)
    requires place < |Ones(mapped, 0)| && Ones(mapped, 0)[place] < |mapped|
    ensures var ones := Ones(mapped, 0);
      Target(mapped, Some(ones[place]), true) == Some(ones[Turned(place, |ones|, true)])
  {
    hide Ones, NextFrom;
    var ones := Ones(mapped, 0);
    var p, last := ones[place], place + 1 == |ones|;
    OneIs(mapped, Turned(place, |ones|, true));
    forall k: nat | p < k < |mapped| && mapped[k] ensures !last && k >= ones[place + 1] {
      Neighbours(mapped, place, k);
    }
    OnesAreAll(mapped, 0);
    NextIs(mapped, p + 1, if last then |mapped| else ones[place + 1]);
    forall k: nat | k < |mapped| && mapped[k] ensures k >= ones[0] {
      Neighbours(mapped, place, k);
    }
    OneIs(mapped, 0);
    NextIs(mapped, 0, ones[0]);
  }

  lemma BackTurn(mapped: seq<bool>, place: nat)
    requires place < |Ones(mapped, 0)| && Ones(mapped, 0)[place] < |mapped|
    ensures var ones := Ones(mapped, 0);
      Target(mapped, Some(ones[place]), false) == Some(ones[Turned(place, |ones|, false)])
  {
    hide Ones, PastPrev;
    var ones := Ones(mapped, 0);
    var p := ones[place];
    OneIs(mapped, Turned(place, |ones|, false));
    forall k: nat | k < p && mapped[k] ensures place > 0 && k <= ones[place - 1] {
      Neighbours(mapped, place, k);
    }
    OnesAreAll(mapped, 0);
    PrevIs(mapped, p, if place == 0 then 0 else ones[place - 1] + 1);
    forall k: nat | k < |mapped| && mapped[k] ensures k <= ones[|ones| - 1] {
      Neighbours(mapped, place, k);
    }
    OneIs(mapped, |ones| - 1);
    PrevIs(mapped, |mapped|, ones[|ones| - 1] + 1);
  }

  /** From a mapped window a step goes to its neighbour among the mapped ones. */
  lemma StepIsTurn(mapped: seq<bool>, place: nat, forward: bool)
    requires place < |Ones(mapped, 0)| && Ones(mapped, 0)[place] < |mapped|
    ensures var ones := Ones(mapped, 0);
      Target(mapped, Some(ones[place]), forward) == Some(ones[Turned(place, |ones|, forward)])
  {
    hide Target;
    if forward {
      ForwardTurn(mapped, place);
    } else {
      BackTurn(mapped, place);
    }
  }

  /** A step back undoes a step forward, and the other way round, from any mapped window. */
  lemma BackUndoesForward(mapped: seq<bool>, b: nat, forward: bool)
    requires b < |mapped| && mapped[b]
    ensures var t := Target(mapped, Some(b), forward);
      t.Some? && t.value < |mapped| && mapped[t.value] && Target(mapped, t, !forward) == Some(b)
  {
    hide Target, Ones;
    var place := PlaceOf(mapped, b);
    StepIsTurn(mapped, place, forward);
    var next := Turned(place, |Ones(mapped, 0)|, forward);
    OneIs(mapped, next);
    StepIsTurn(mapped, next, !forward);
  }

  /** With nothing mapped there is nothing to select, and otherwise there always is, and it is mapped. */
  lemma TargetIffMapped(mapped: seq<bool>, base: Option<nat>, forward: bool)
    requires base.Some? ==> base.value < |mapped|
    ensures Target(mapped, base, forward).Some? <==> true in mapped
    ensures Target(mapped, base, forward).Some? ==>
      Target(mapped, base, forward).value < |mapped| && mapped[Target(mapped, base, forward).value]
  {
  }

  /** How many windows on a step comes to `k`: a base comes last, once round; with none the ring starts at the head. */
  function Ahead(length: nat, base: Option<nat>, k: nat, forward: bool): int {
    if forward then
      if base.None? then k + 1 else if k > base.value then k - base.value else k + length - base.value
    else
      if base.None? then length - k else if k < base.value then base.value - k else base.value + length - k
  }

  /** A step goes to the nearest mapped window that way round, from any base, mapped or not, or from none. */
  lemma TargetIsNearest(mapped: seq<bool>, base: Option<nat>, forward: bool, k: nat)
    requires (base.Some? ==> base.value < |mapped|) && k < |mapped| && mapped[k]
    ensures var target := Target(mapped, base, forward);
      && target.Some? && target.value < |mapped| && mapped[target.value]
      && (k == target.value || Ahead(|mapped|, base, target.value, forward) < Ahead(|mapped|, base, k, forward))
  {
    TargetIffMapped(mapped, base, forward);
  }

  function Forwards(mapped: seq<bool>, b: nat, steps: nat): (j: nat)
    requires b < |mapped| && mapped[b]
    ensures j < |mapped| && mapped[j]
  {
    if steps == 0 then b else
      var at := Forwards(mapped, b, steps - 1);
      BackUndoesForward(mapped, at, true);
      Target(mapped, Some(at), true).value
  }

  /** Where `steps` turns lead from a place, up to once round. */
  function Around(place: nat, steps: nat, r: nat): nat
    requires place < r && steps <= r
  {
    if place + steps < r then place + steps else place + steps - r
  }

  lemma {:induction false} ForwardsTurn(mapped: seq<bool>, b: nat, place: nat, steps: nat)
    requires b < |mapped| && mapped[b] && place < |Ones(mapped, 0)| && Ones(mapped, 0)[place] == b
    requires steps <= |Ones(mapped, 0)|
    ensures Forwards(mapped, b, steps) == Ones(mapped, 0)[Around(place, steps, |Ones(mapped, 0)|)]
  {
    hide Target, Ones;
    if steps > 0 {
      ForwardsTurn(mapped, b, place, steps - 1);
      StepIsTurn(mapped, Around(place, steps - 1, |Ones(mapped, 0)|), true);
    }
  }

  ghost predicate Visited(mapped: seq<bool>, b: nat, k: nat)
    requires b < |mapped| && mapped[b]
  {
    exists i: nat :: i < |Ones(mapped, 0)| && Forwards(mapped, b, i) == k
  }

  /** Stepping forward from a mapped window visits every mapped window once, then comes back to it. */
  lemma ForwardsVisitAll(mapped: seq<bool>, b: nat)
    requires b < |mapped| && mapped[b]
    ensures Forwards(mapped, b, |Ones(mapped, 0)|) == b
    ensures forall i, j :: 0 <= i < j < |Ones(mapped, 0)| ==> Forwards(mapped, b, i) != Forwards(mapped, b, j)
    ensures forall k: nat :: k < |mapped| && mapped[k] ==> Visited(mapped, b, k)
  {
    hide Ones, Forwards;
    var r := |Ones(mapped, 0)|;
    var place := PlaceOf(mapped, b);
    ForwardsTurn(mapped, b, place, r);
    OnesAreAll(mapped, 0);
    forall i, j | 0 <= i < j < r ensures Forwards(mapped, b, i) != Forwards(mapped, b, j) {
      ForwardsTurn(mapped, b, place, i);
      ForwardsTurn(mapped, b, place, j);
    }
    forall k: nat | k < |mapped| && mapped[k] ensures Visited(mapped, b, k) {
      var at := PlaceOf(mapped, k);
      var i := if at >= place then at - place else at + r - place;
      ForwardsTurn(mapped, b, place, i);
      assert Forwards(mapped, b, i) == k;
    }
  }

  // ----- whole uses of the switcher -----

  function Presses(mapped: seq<bool>, s: Selection, n: nat): (t: Selection)
    requires InRing(mapped, s)
    ensures InRing(mapped, t)
  {
    if n == 0 then s else
      var u := Presses(mapped, s, n - 1);
      TargetIffMapped(mapped, Base(u), true);
      Stepped(mapped, u, true)
  }

  /** From the focus, whatever was selected before, the nth press selects the nth mapped window after it in the ring. */
  lemma {:induction false} PressesGoRound(mapped: seq<bool>, s: Selection, b: nat, n: nat)
    requires InRing(mapped, s) && !s.active && s.focused == Some(b) && b < |mapped| && mapped[b] && n > 0
    ensures var t := Presses(mapped, s, n);
      t.active && t.focused == s.focused && t.selected == Some(Forwards(mapped, b, n))
  {
    hide Target;
    BackUndoesForward(mapped, Forwards(mapped, b, n - 1), true);
    if n > 1 {
      PressesGoRound(mapped, s, b, n - 1);
    } else {
      assert Presses(mapped, s, 0) == s;
    }
  }

  /** Some press of once round selects `k`. */
  ghost predicate Selects(mapped: seq<bool>, s: Selection, k: nat)
    requires InRing(mapped, s)
  {
    exists i: nat :: 0 < i <= |Ones(mapped, 0)| && Presses(mapped, s, i).selected == Some(k)
  }

  /**
   As many presses as there are mapped windows select each of them once, the focused one last; so one press there and
   one back is where it started.
  */
  lemma PressesVisitAll(mapped: seq<bool>, s: Selection, b: nat)
    requires InRing(mapped, s) && !s.active && s.focused == Some(b) && b < |mapped| && mapped[b]
    ensures var r := |Ones(mapped, 0)|;
      && r > 0 && Presses(mapped, s, r).selected == Some(b)
      && (forall i, j :: 0 < i < j <= r ==> Presses(mapped, s, i).selected != Presses(mapped, s, j).selected)
      && (forall k: nat :: k < |mapped| && mapped[k] ==> Selects(mapped, s, k))
    ensures Stepped(mapped, Presses(mapped, s, 1), false).selected == Some(b)
  {
    hide Presses, Forwards, Ones, Target;
    var r := |Ones(mapped, 0)|;
    var place := PlaceOf(mapped, b);
    ForwardsVisitAll(mapped, b);
    StartsAt(mapped, b);
    forall i | 0 < i <= r ensures Presses(mapped, s, i).selected == Some(Forwards(mapped, b, i)) {
      PressesGoRound(mapped, s, b, i);
    }
    forall k: nat | k < |mapped| && mapped[k] ensures Selects(mapped, s, k) {
      var i: nat :| i < r && Forwards(mapped, b, i) == k;
      var at := if i == 0 then r else i;
      assert Presses(mapped, s, at).selected == Some(k);
    }
    BackUndoesForward(mapped, b, true);
    PressesGoRound(mapped, s, b, 1);
  }

  lemma StartsAt(mapped: seq<bool>, b: nat)
    requires b < |mapped| && mapped[b]
    ensures Forwards(mapped, b, 0) == b
    ensures Some(Forwards(mapped, b, 1)) == Target(mapped, Some(b), true)
  {
    assert Forwards(mapped, b, 0) == b;
    BackUndoesForward(mapped, b, true);
  }
}
