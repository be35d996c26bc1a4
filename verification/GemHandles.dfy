/**
 Client buffers imported for direct scanout. A GEM handle is one per buffer object on a drm fd, however many
 imports name it, so the backend counts its uses and closes it at the last; the device is the emulator's table
 of buffer objects and handles.
*/
module GemHandles {
  const EINTR := 4
  const EAGAIN := 11
  const ENOMEM := 12
  const EBUSY := 16

  /** An imported framebuffer: the client buffer, its framebuffer id and the distinct handles of its planes. */
  datatype DirectFb = DirectFb(buf: nat, fb: nat, handles: seq<nat>)

  predicate Transient(err: nat) {
    err == EBUSY || err == EAGAIN || err == EINTR || err == ENOMEM
  }

  ghost predicate Distinct(xs: seq<nat>) {
    forall i, j :: 0 <= i < j < |xs| ==> xs[i] != xs[j]
  }

  /** How many imported framebuffers list a handle. */
  function Uses(fbs: seq<DirectFb>, h: nat): nat {
    if fbs == [] then 0 else Uses(fbs[..|fbs| - 1], h) + if h in fbs[|fbs| - 1].handles then 1 else 0
  }

  lemma {:induction false} UsesConcat(a: seq<DirectFb>, b: seq<DirectFb>, h: nat)
    ensures Uses(a + b, h) == Uses(a, h) + Uses(b, h)
  {
    if b == [] {
      assert a + b == a;
    } else {
      var front := b[..|b| - 1];
      UsesConcat(a, front, h);
      assert (a + b)[..|a + b| - 1] == a + front;
    }
  }

  /** Moving the last entry into the hole counts every handle as removing the entry does. */
  lemma UsesAfterSwapRemove(fbs: seq<DirectFb>, i: nat, h: nat)
    requires i < |fbs|
    ensures Uses(fbs[i := fbs[|fbs| - 1]][..|fbs| - 1], h) + (if h in fbs[i].handles then 1 else 0) == Uses(fbs, h)
  {
    var n := |fbs| - 1;
    var rest := fbs[i := fbs[n]][..n];
    var last, hole := [fbs[n]], [fbs[i]];
    UsesConcat(fbs[..n], last, h);
    assert fbs == fbs[..n] + last;
    assert Uses(last, h) == Uses([], h) + (if h in fbs[n].handles then 1 else 0) by { assert last[..0] == []; }
    if i < n {
      var mid := fbs[i + 1..n];
      assert fbs[..n] == fbs[..i] + hole + mid;
      assert rest == fbs[..i] + last + mid;
      UsesConcat(fbs[..i] + hole, mid, h);
      UsesConcat(fbs[..i], hole, h);
      UsesConcat(fbs[..i] + last, mid, h);
      UsesConcat(fbs[..i], last, h);
      assert Uses(hole, h) == Uses([], h) + (if h in fbs[i].handles then 1 else 0) by { assert hole[..0] == []; }
    } else {
      assert rest == fbs[..n];
    }
  }

  /** One handle per buffer object, and the compositor's own objects are there. */
  ghost predicate Table(gems: map<nat, nat>, own: set<nat>, nextHandle: nat) {
    && own <= gems.Keys
    && (forall a, b :: a in gems && b in gems && gems[a] == gems[b] ==> a == b)
    && (forall a :: a in gems ==> gems[a] < nextHandle)
  }

  /**
   The books: every client object open on the device is counted, by as many as the imported framebuffers that
   list it and the `extra` uses of an import under way.
  */
  ghost predicate Counted(gems: map<nat, nat>, own: set<nat>, refs: map<nat, nat>, fbs: seq<DirectFb>,
                          extra: seq<nat>)
  {
    && (forall h :: h in refs ==> refs[h] == Uses(fbs, h) + (if h in extra then 1 else 0))
    && (forall h :: h !in refs ==> Uses(fbs, h) == 0 && h !in extra)
    && (forall h :: h in refs ==> refs[h] > 0)
    && (forall b :: b in gems && b !in own ==> gems[b] in refs)
    && (forall h :: h in refs ==> ClientHandle(gems, own, h))
  }

  /** A handle of an open object that is not the compositor's. */
  ghost predicate ClientHandle(gems: map<nat, nat>, own: set<nat>, h: nat) {
    exists b :: b in gems && b !in own && gems[b] == h
  }

  function Closed(gems: map<nat, nat>, handle: nat): map<nat, nat> {
    map b | b in gems && gems[b] != handle :: gems[b]
  }

  /** The objects that stay open: the compositor's, and those still counted. */
  ghost function Kept(gems: map<nat, nat>, own: set<nat>, refs: map<nat, nat>): map<nat, nat> {
    map b | b in gems && (b in own || gems[b] in refs) :: gems[b]
  }

  /** One use fewer: the count goes down, or at the last the handle closes with its one object. */
  lemma UnrefCounted(gems: map<nat, nat>, own: set<nat>, refs: map<nat, nat>, fbs: seq<DirectFb>, handle: nat,
                     extra: seq<nat>)
    requires Counted(gems, own, refs, fbs, [handle] + extra) && handle !in extra
    ensures handle in refs && refs[handle] > 0 && ClientHandle(gems, own, handle) && handle in gems.Values
    ensures refs[handle] > 1 ==> Counted(gems, own, refs[handle := refs[handle] - 1], fbs, extra)
    ensures refs[handle] > 1 ==> Kept(gems, own, refs[handle := refs[handle] - 1]) == gems
    ensures (forall a, b :: a in gems && b in gems && gems[a] == gems[b] ==> a == b) && refs[handle] == 1 ==>
              && Counted(Closed(gems, handle), own, refs - {handle}, fbs, extra)
              && Kept(gems, own, refs - {handle}) == Closed(gems, handle)
  {
    assert forall h :: h in [handle] + extra <==> h == handle || h in extra;
    var bo :| bo in gems && bo !in own && gems[bo] == handle;
    forall h | h in refs && h != handle
      ensures ClientHandle(Closed(gems, handle), own, h)
    {
      var b :| b in gems && b !in own && gems[b] == h;
      assert b in Closed(gems, handle);
    }
  }

  lemma TableClosed(gems: map<nat, nat>, own: set<nat>, nextHandle: nat, handle: nat)
    requires Table(gems, own, nextHandle)
    ensures forall a, b :: a in gems && b in gems && gems[a] == gems[b] ==> a == b
    ensures ClientHandle(gems, own, handle) ==> Table(Closed(gems, handle), own, nextHandle)
  {
  }

  ghost predicate Sound(gems: map<nat, nat>, own: set<nat>, nextHandle: nat, refs: map<nat, nat>, fbs: seq<DirectFb>) {
    && Table(gems, own, nextHandle) && Counted(gems, own, refs, fbs, [])
    && forall i :: 0 <= i < |fbs| ==> Distinct(fbs[i].handles) && fbs[i].fb != 0
  }

  /** Nothing leaks: with no framebuffer imported only the compositor's own objects are open, no handle is counted. */
  lemma NothingLeaks(gems: map<nat, nat>, own: set<nat>, nextHandle: nat, refs: map<nat, nat>)
    requires Sound(gems, own, nextHandle, refs, [])
    ensures gems.Keys == own && refs == map[]
  {
    assert forall h :: h !in refs;
    forall b | b in gems
      ensures b in own
    {
    }
  }

  /** Nothing closes early: every handle an imported framebuffer lists is open, as a client's. */
  lemma {:induction false} ListedIsOpen(gems: map<nat, nat>, own: set<nat>, nextHandle: nat, refs: map<nat, nat>,
                                        fbs: seq<DirectFb>, i: nat, h: nat)
    requires Sound(gems, own, nextHandle, refs, fbs) && i < |fbs| && h in fbs[i].handles
    ensures h in refs && ClientHandle(gems, own, h)
  {
    UsesAfterSwapRemove(fbs, i, h);
  }

  // ----- an import under way -----

  /** The framebuffer cached for a buffer, 0 when there is none. */
  function Lookup(fbs: seq<DirectFb>, buf: nat): nat {
    if fbs == [] then 0 else
      var found := Lookup(fbs[..|fbs| - 1], buf);
      if found != 0 then found else if fbs[|fbs| - 1].buf == buf then fbs[|fbs| - 1].fb else 0
  }

  lemma {:induction false} LookupSticks(fbs: seq<DirectFb>, rest: seq<DirectFb>, buf: nat)
    requires Lookup(fbs, buf) != 0
    ensures Lookup(fbs + rest, buf) == Lookup(fbs, buf)
  {
    if rest == [] {
      assert fbs + rest == fbs;
    } else {
      LookupSticks(fbs, rest[..|rest| - 1], buf);
      assert (fbs + rest)[..|fbs + rest| - 1] == fbs + rest[..|rest| - 1];
    }
  }

  lemma LookupNext(fbs: seq<DirectFb>, i: nat, buf: nat)
    requires i < |fbs| && Lookup(fbs[..i], buf) == 0 && fbs[i].fb != 0
    ensures fbs[i].buf == buf ==> Lookup(fbs, buf) == fbs[i].fb
    ensures fbs[i].buf != buf ==> Lookup(fbs[..i + 1], buf) == 0
  {
    assert fbs[..i + 1][..i] == fbs[..i];
    if fbs[i].buf == buf {
      LookupSticks(fbs[..i + 1], fbs[i + 1..], buf);
      assert fbs[..i + 1] + fbs[i + 1..] == fbs;
    }
  }

  /** The errno an import fails with: the first plane's that is refused, else the framebuffer's. */
  function FirstErr(refuse: seq<nat>, addErr: nat): nat {
    if refuse == [] then addErr else if refuse[0] != 0 then refuse[0] else FirstErr(refuse[1..], addErr)
  }

  lemma {:induction false} FirstErrNext(refuse: seq<nat>, i: nat, addErr: nat)
    requires i < |refuse| && FirstErr(refuse[..i], 0) == 0
    ensures refuse[i] == 0 ==> FirstErr(refuse[..i + 1], 0) == 0
    ensures refuse[i] != 0 ==> FirstErr(refuse, addErr) == refuse[i]
  {
    if i > 0 {
      assert refuse[..i][1..] == refuse[1..][..i - 1] && refuse[..i + 1][1..] == refuse[1..][..i];
      FirstErrNext(refuse[1..], i - 1, addErr);
    }
  }

  lemma {:induction false} FirstErrAll(refuse: seq<nat>, addErr: nat)
    requires FirstErr(refuse, 0) == 0
    ensures FirstErr(refuse, addErr) == addErr
  {
    if refuse != [] {
      FirstErrAll(refuse[1..], addErr);
    }
  }

  /** The table after an import: the planes' objects are open too, and no handle changed. */
  ghost predicate Imported(was: map<nat, nat>, planes: seq<nat>, gems: map<nat, nat>) {
    && gems.Keys == was.Keys + (set b | b in planes)
    && forall b :: b in was ==> gems[b] == was[b]
  }

  /** The handles of the planes, each once. */
  ghost predicate Lists(gems: map<nat, nat>, planes: seq<nat>, unique: seq<nat>) {
    && Distinct(unique)
    && (forall b :: b in planes ==> b in gems && gems[b] in unique)
    && (forall h :: h in unique ==> exists b :: b in planes && b in gems && gems[b] == h)
  }

  /** After some planes: the table and counts are those of before, and one use of each of their handles. */
  ghost predicate Mid(was: map<nat, nat>, own: set<nat>, old_: map<nat, nat>, fbs: seq<DirectFb>, done: seq<nat>,
                      gems: map<nat, nat>, next: nat, refs: map<nat, nat>, unique: seq<nat>) {
    && Table(gems, own, next) && own <= was.Keys
    && Counted(was, own, old_, fbs, []) && Counted(gems, own, refs, fbs, unique)
    && Imported(was, done, gems) && Lists(gems, done, unique)
    && forall b :: b in gems && b !in was ==> gems[b] !in old_
  }

  lemma MidStart(gems: map<nat, nat>, own: set<nat>, next: nat, refs: map<nat, nat>, fbs: seq<DirectFb>)
    requires Table(gems, own, next) && Counted(gems, own, refs, fbs, [])
    ensures Mid(gems, own, refs, fbs, [], gems, next, refs, [])
  {
  }

  lemma MidFacts(was: map<nat, nat>, own: set<nat>, old_: map<nat, nat>, fbs: seq<DirectFb>, done: seq<nat>,
                 gems: map<nat, nat>, next: nat, refs: map<nat, nat>, unique: seq<nat>)
    requires Mid(was, own, old_, fbs, done, gems, next, refs, unique)
    ensures Table(gems, own, next) && Counted(gems, own, refs, fbs, unique) && Distinct(unique)
  {
  }

  /** One use more of an object's handle, new on the device or not. */
  lemma RefCounted(gems: map<nat, nat>, own: set<nat>, refs: map<nat, nat>, fbs: seq<DirectFb>, unique: seq<nat>,
                   bo: nat, handle: nat)
    requires Counted(gems, own, refs, fbs, unique) && bo !in own
    requires if bo in gems then handle == gems[bo] else handle !in gems.Values
    ensures var after := gems[bo := handle];
      if handle in unique then Counted(after, own, refs, fbs, unique)
      else Counted(after, own, refs[handle := if handle in refs then refs[handle] + 1 else 1], fbs, unique + [handle])
  {
    var after := gems[bo := handle];
    forall h | h in refs || h == handle
      ensures ClientHandle(after, own, h)
    {
      if h == handle {
        assert bo in after;
      } else {
        var b :| b in gems && b !in own && gems[b] == h;
        assert b in after && after[b] == h;
      }
    }
    assert bo in gems ==> after == gems;
  }

  lemma ListsNext(was: map<nat, nat>, done: seq<nat>, gems: map<nat, nat>, unique: seq<nat>, bo: nat, handle: nat)
    requires Imported(was, done, gems) && Lists(gems, done, unique)
    requires bo in gems ==> handle == gems[bo]
    ensures Imported(was, done + [bo], gems[bo := handle])
    ensures Lists(gems[bo := handle], done + [bo], if handle in unique then unique else unique + [handle])
  {
    var after, unique' := gems[bo := handle], if handle in unique then unique else unique + [handle];
    forall h | h in unique'
      ensures exists b :: b in done + [bo] && b in after && after[b] == h
    {
      if h == handle {
        assert bo in done + [bo];
      } else {
        var b :| b in done && b in gems && gems[b] == h;
        assert b in done + [bo] && after[b] == h;
      }
    }
  }

  /** One more plane: its object is open, and its handle counted once for the import. */
  lemma MidNext(was: map<nat, nat>, own: set<nat>, old_: map<nat, nat>, fbs: seq<DirectFb>, done: seq<nat>,
                gems: map<nat, nat>, refs: map<nat, nat>, unique: seq<nat>,
                bo: nat, handle: nat, after: map<nat, nat>, next: nat)
    requires (exists n :: Mid(was, own, old_, fbs, done, gems, n, refs, unique)) && bo !in own
    requires after == gems[bo := handle] && Table(after, own, next)
    requires if bo in gems then handle == gems[bo] else handle !in gems.Values
    ensures var refs' := if handle in unique then refs
                         else refs[handle := if handle in refs then refs[handle] + 1 else 1];
      var unique' := if handle in unique then unique else unique + [handle];
      Mid(was, own, old_, fbs, done + [bo], after, next, refs', unique')
  {
    hide Counted, Imported, Lists, Table;
    RefCounted(gems, own, refs, fbs, unique, bo, handle);
    ListsNext(was, done, gems, unique, bo, handle);
    if bo !in gems {
      FreshUncounted(was, own, old_, fbs, done, gems, handle);
    }
  }

  lemma FreshUncounted(was: map<nat, nat>, own: set<nat>, old_: map<nat, nat>, fbs: seq<DirectFb>, done: seq<nat>,
                       gems: map<nat, nat>, handle: nat)
    requires Counted(was, own, old_, fbs, []) && Imported(was, done, gems) && handle !in gems.Values
    ensures handle !in old_
  {
  }

  /** Giving the uses back leaves what was there before. */
  lemma MidUndone(was: map<nat, nat>, own: set<nat>, old_: map<nat, nat>, fbs: seq<DirectFb>, done: seq<nat>,
                  gems: map<nat, nat>, unique: seq<nat>, after: map<nat, nat>, refs: map<nat, nat>)
    requires exists n, r :: Mid(was, own, old_, fbs, done, gems, n, r, unique)
    requires Counted(after, own, refs, fbs, []) && after == Kept(gems, own, refs)
    ensures after == was && refs == old_
  {
    assert forall h :: h in refs <==> h in old_;
    assert refs == old_;
  }

  /** The new framebuffer takes over the uses of the import. */
  lemma MidDone(was: map<nat, nat>, own: set<nat>, old_: map<nat, nat>, fbs: seq<DirectFb>, done: seq<nat>,
                gems: map<nat, nat>, next: nat, refs: map<nat, nat>, unique: seq<nat>, buf: nat, fb: nat)
    requires Mid(was, own, old_, fbs, done, gems, next, refs, unique)
    ensures Counted(gems, own, refs, fbs + [DirectFb(buf, fb, unique)], [])
    ensures Imported(was, done, gems) && Lists(gems, done, unique)
  {
    assert (fbs + [DirectFb(buf, fb, unique)])[..|fbs|] == fbs;
  }

  lemma KeptAll(gems: map<nat, nat>, own: set<nat>, refs: map<nat, nat>, fbs: seq<DirectFb>, extra: seq<nat>)
    requires Counted(gems, own, refs, fbs, extra)
    ensures Kept(gems, own, refs) == gems
  {
  }

  /** Taking an entry out of the list turns its uses into ones to give back. */
  lemma DropCounted(gems: map<nat, nat>, own: set<nat>, refs: map<nat, nat>, fbs: seq<DirectFb>, i: nat)
    requires Counted(gems, own, refs, fbs, []) && i < |fbs|
    ensures Counted(gems, own, refs, fbs[i := fbs[|fbs| - 1]][..|fbs| - 1], fbs[i].handles)
  {
    forall h: nat
      ensures Uses(fbs[i := fbs[|fbs| - 1]][..|fbs| - 1], h) + (if h in fbs[i].handles then 1 else 0) == Uses(fbs, h)
    {
      UsesAfterSwapRemove(fbs, i, h);
    }
  }

  lemma SwapRemoved(fbs: seq<DirectFb>, i: nat)
    requires i < |fbs|
    ensures var rest := fbs[i := fbs[|fbs| - 1]][..|fbs| - 1];
      multiset(rest) == multiset(fbs) - multiset{fbs[i]} && forall j :: 0 <= j < |rest| ==> rest[j] in fbs
  {
    var n := |fbs| - 1;
    var swapped := fbs[i := fbs[n]];
    assert swapped == swapped[..n] + [fbs[n]];
    assert multiset(swapped) == multiset(fbs) - multiset{fbs[i]} + multiset{fbs[n]};
    assert multiset(swapped[..n]) + multiset{fbs[n]} == multiset(swapped);
    assert multiset(swapped[..n]) == multiset(swapped) - multiset{fbs[n]};
  }

  class DirectFbs {
    var directFbs: seq<DirectFb>
    var gemHandles: map<nat, nat>
    // the device: buffer object to handle, the compositor's own objects, the next fresh handle
    var gems: map<nat, nat>
    const own: set<nat>
    var nextHandle: nat
    // refused closes, which must not happen
    var badCloses: nat

    ghost predicate Valid()
      reads this
    {
      Sound(gems, own, nextHandle, gemHandles, directFbs) && badCloses == 0
    }

    constructor (objects: map<nat, nat>, next: nat)
      requires Table(objects, objects.Keys, next)
      ensures Valid() && directFbs == [] && gems == objects && own == objects.Keys
    {
      directFbs, gemHandles, gems, own, nextHandle, badCloses := [], map[], objects, objects.Keys, next, 0;
    }

    /** The device opens a handle for an object, or returns the one it has. */
    method PrimeFdToHandle(bo: nat, refuse: nat) returns (err: nat, handle: nat)
      requires Table(gems, own, nextHandle)
      modifies this`gems, this`nextHandle
      ensures err == refuse && Table(gems, own, nextHandle)
      ensures err != 0 ==> gems == old(gems)
      ensures err == 0 ==> gems == old(gems)[bo := handle] && (bo in old(gems) ==> handle == old(gems)[bo])
      ensures err == 0 && bo !in old(gems) ==> handle !in old(gems).Values
    {
      err, handle := refuse, 0;
      if refuse != 0 {
        return;
      }
      if bo in gems {
        handle := gems[bo];
        assert gems == gems[bo := handle];
        return;
      }
      handle := nextHandle;
      nextHandle := nextHandle + 1;
      gems := gems[bo := handle];
    }

    method GemClose(handle: nat)
      modifies this`gems, this`badCloses
      ensures gems == Closed(old(gems), handle)
      ensures badCloses == old(badCloses) + if handle in old(gems).Values then 0 else 1
    {
      if handle !in gems.Values {
        badCloses := badCloses + 1;
      }
      gems := Closed(gems, handle);
    }

    method GemHandleRef(handle: nat)
      modifies this`gemHandles
      ensures gemHandles ==
        old(gemHandles)[handle := if handle in old(gemHandles) then old(gemHandles)[handle] + 1 else 1]
    {
      if handle in gemHandles {
        gemHandles := gemHandles[handle := gemHandles[handle] + 1];
      } else {
        gemHandles := gemHandles[handle := 1];
      }
    }

    /** The last use closes the handle; it is a client's, so nothing else goes with it. */
    method GemHandleUnref(handle: nat, ghost fbs: seq<DirectFb>, ghost extra: seq<nat>)
      requires Table(gems, own, nextHandle) && badCloses == 0
      requires Counted(gems, own, gemHandles, fbs, [handle] + extra) && handle !in extra
      modifies this`gems, this`gemHandles, this`badCloses
      ensures Table(gems, own, nextHandle) && badCloses == 0
      ensures Counted(gems, own, gemHandles, fbs, extra)
      ensures gems == Kept(old(gems), own, gemHandles) && gemHandles.Keys <= old(gemHandles).Keys
    {
      hide Counted, Table;
      UnrefCounted(gems, own, gemHandles, fbs, handle, extra);
      TableClosed(gems, own, nextHandle, handle);
      var refs := gemHandles[handle] - 1;
      gemHandles := gemHandles[handle := refs];
      if refs == 0 {
        GemClose(handle);
        gemHandles := gemHandles - {handle};
        assert gemHandles == old(gemHandles) - {handle};
      }
    }

    /** Drop the uses of an import that failed, or of a framebuffer that goes, in order. */
    method UnrefAll(unique: seq<nat>, ghost fbs: seq<DirectFb>)
      requires Table(gems, own, nextHandle) && badCloses == 0 && Distinct(unique)
      requires Counted(gems, own, gemHandles, fbs, unique)
      modifies this`gems, this`gemHandles, this`badCloses
      ensures Table(gems, own, nextHandle) && badCloses == 0 && Counted(gems, own, gemHandles, fbs, [])
      ensures gems == Kept(old(gems), own, gemHandles)
    {
      hide Counted, Table;
      KeptAll(gems, own, gemHandles, fbs, unique);
      for i := 0 to |unique|
        invariant Table(gems, own, nextHandle) && badCloses == 0
        invariant Counted(gems, own, gemHandles, fbs, unique[i..])
        invariant gems == Kept(old(gems), own, gemHandles) && gemHandles.Keys <= old(gemHandles).Keys
      {
        assert unique[i..] == [unique[i]] + unique[i + 1..];
        GemHandleUnref(unique[i], fbs, unique[i + 1..]);
      }
      assert unique[|unique|..] == [];
    }

    /**
     Import a client's buffer: its planes' objects, and what the device answers, an errno for each plane and one
     for the framebuffer. A failure leaves the counts and the table as they were.
    */
    method ImportDirectFb(buf: nat, planes: seq<nat>, refuse: seq<nat>, fb: nat, addErr: nat)
      returns (res: nat, tainted: bool)
      requires Valid() && |planes| <= 4 && |refuse| == |planes| && fb != 0
      requires forall i :: 0 <= i < |planes| ==> planes[i] !in own
      modifies this
      ensures Valid()
      ensures var cached, err := Lookup(old(directFbs), buf), FirstErr(refuse, addErr);
        res == (if cached != 0 then cached else if err != 0 then 0 else fb)
        && (tainted <==> cached == 0 && err != 0 && !Transient(err))
      ensures res != fb || Lookup(old(directFbs), buf) != 0 ==>
        gems == old(gems) && gemHandles == old(gemHandles) && directFbs == old(directFbs)
      ensures Lookup(old(directFbs), buf) == 0 && FirstErr(refuse, addErr) == 0 ==>
        && Imported(old(gems), planes, gems)
        && exists unique :: Lists(gems, planes, unique) && directFbs == old(directFbs) + [DirectFb(buf, fb, unique)]
    {
      hide Counted, Table, Uses, Lists, Imported, Mid, Distinct, Kept;
      var i := 0;
      assert directFbs[..0] == [];
      while i < |directFbs|
        invariant i <= |directFbs| && Lookup(directFbs[..i], buf) == 0
        invariant unchanged(this)
      {
        LookupNext(directFbs, i, buf);
        if directFbs[i].buf == buf {
          return directFbs[i].fb, false;
        }
        i := i + 1;
      }
      assert directFbs[..i] == directFbs;
      var unique: seq<nat> := [];
      MidStart(gems, own, nextHandle, gemHandles, directFbs);
      assert refuse[..0] == [] && planes[..0] == [];
      var p := 0;
      while p < |planes|
        invariant p <= |planes| && directFbs == old(directFbs) && badCloses == 0 && FirstErr(refuse[..p], 0) == 0
        invariant Mid(old(gems), own, old(gemHandles), directFbs, planes[..p], gems, nextHandle, gemHandles, unique)
      {
        assert planes[..p + 1] == planes[..p] + [planes[p]];
        FirstErrNext(refuse, p, addErr);
        ghost var before := gems;
        MidFacts(old(gems), own, old(gemHandles), directFbs, planes[..p], gems, nextHandle, gemHandles, unique);
        var err, handle := PrimeFdToHandle(planes[p], refuse[p]);
        if err != 0 {
          UnrefAll(unique, directFbs);
          ghost var mid: map<nat, nat> := before;
          MidUndone(old(gems), own, old(gemHandles), directFbs, planes[..p], mid, unique, gems, gemHandles);
          return 0, !Transient(err);
        }
        MidNext(old(gems), own, old(gemHandles), directFbs, planes[..p], before, gemHandles, unique,
                planes[p], handle, gems, nextHandle);
        if handle !in unique {
          unique := unique + [handle];
          GemHandleRef(handle);
        }
        p := p + 1;
      }
      assert refuse[..p] == refuse && planes[..p] == planes;
      FirstErrAll(refuse, addErr);
      MidFacts(old(gems), own, old(gemHandles), directFbs, planes, gems, nextHandle, gemHandles, unique);
      if addErr != 0 {
        ghost var mid := gems;
        UnrefAll(unique, directFbs);
        MidUndone(old(gems), own, old(gemHandles), directFbs, planes, mid, unique, gems, gemHandles);
        return 0, !Transient(addErr);
      }
      MidDone(old(gems), own, old(gemHandles), directFbs, planes, gems, nextHandle, gemHandles, unique, buf, fb);
      directFbs := directFbs + [DirectFb(buf, fb, unique)];
      return fb, false;
    }

    /** The buffer's framebuffer goes, and with it the last use of some handles. */
    method DropScanoutFb(buf: nat)
      requires Valid()
      modifies this
      ensures Valid() && gems == Kept(old(gems), own, gemHandles)
      ensures Lookup(old(directFbs), buf) == 0 ==> directFbs == old(directFbs) && gems == old(gems)
      ensures Lookup(old(directFbs), buf) != 0 ==>
        exists d: DirectFb :: d.buf == buf && d in old(directFbs)
          && multiset(directFbs) == multiset(old(directFbs)) - multiset{d}
    {
      hide Counted, Table, Uses;
      var i := 0;
      assert directFbs[..0] == [];
      while i < |directFbs|
        invariant i <= |directFbs| && Lookup(directFbs[..i], buf) == 0
        invariant unchanged(this)
      {
        LookupNext(directFbs, i, buf);
        if directFbs[i].buf == buf {
          var last := |directFbs| - 1;
          ghost var d, rest := directFbs[i], directFbs[i := directFbs[last]][..last];
          DropCounted(gems, own, gemHandles, directFbs, i);
          SwapRemoved(directFbs, i);
          UnrefAll(directFbs[i].handles, rest);
          directFbs := directFbs[i := directFbs[last]];
          directFbs := directFbs[..last];
          return;
        }
        i := i + 1;
      }
      assert directFbs[..i] == directFbs;
      KeptAll(gems, own, gemHandles, directFbs, []);
    }
  }
}
