/** A menu shown for a remote client: its model is replaced as a whole by the answer to the newest request, or kept. */
module DBusMenu {
  import opened MenuModel

  /** The answer to a layout request, as far as it is one. */
  datatype Reply = Malformed | Layout(revision: nat, root: Node)

  function Min(x: nat, y: nat): nat { if x < y then x else y }

  ghost predicate Sound(pool: seq<Record>, byId: map<i32, nat>) {
    Rooted(pool) && Points(pool, byId)
  }

  /** Entries of the index are as they were, or point past `from`. */
  ghost predicate PointsPast(before: map<i32, nat>, after: map<i32, nat>, from: nat) {
    forall id <- after :: after[id] >= from || (id in before && after[id] == before[id])
  }

  /** Pool, index and items appended to a destination: a reading in progress. */
  datatype Reading = Reading(pool: seq<Record>, byId: map<i32, nat>, read: seq<nat>, count: nat)

  /** From `s` to `t` items were read, `total` of them unless the bound was met. */
  ghost predicate ReadOn(s: Reading, t: Reading, total: nat, items: seq<Item>) {
    && Sound(s.pool, s.byId) && Sound(t.pool, t.byId) && s.count <= MAX_ITEMS
    && t.count == Min(s.count + total, MAX_ITEMS)
    && s.pool <= t.pool && PointsPast(s.byId, t.byId, |s.pool|)
    && s.read <= t.read && (forall k :: |s.read| <= k < |t.read| ==> |s.pool| <= t.read[k] < |t.pool|)
    && (s.count + total < MAX_ITEMS ==>
      && Trees(t.pool, t.read[|s.read|..], -1) == items
      && Named(t.pool, t.byId) == Indexed(Named(s.pool, s.byId), items))
  }

  lemma NothingRead(s: Reading, total: nat, items: seq<Item>)
    requires Sound(s.pool, s.byId) && s.count <= MAX_ITEMS
    requires s.count == MAX_ITEMS || (total == 0 && items == [])
    ensures ReadOn(s, s, total, items)
  {
    assert s.read[|s.read|..] == [];
  }

  /** One reading after another. */
  lemma ReadFurther(s: Reading, t: Reading, u: Reading, first: nat, xs: seq<Item>, second: nat, ys: seq<Item>)
    requires ReadOn(s, t, first, xs) && ReadOn(t, u, second, ys)
    ensures ReadOn(s, u, first + second, xs + ys)
  {
    hide Trees, Tree, Rooted;
    forall k | |s.read| <= k < |u.read| ensures |s.pool| <= u.read[k] < |u.pool| {
      if k < |t.read| {
        assert u.read[k] == t.read[k];
      }
    }
    if s.count + first + second < MAX_ITEMS {
      Appended(t.pool, u.pool, t.read[|s.read|..], u.read[|t.read|..]);
      assert u.read[|s.read|..] == t.read[|s.read|..] + u.read[|t.read|..];
      IndexedSplits(Named(s.pool, s.byId), xs, ys);
    }
  }

  function Unfilled(node: Node): Record
    requires node.Node?
  {
    Record(node.id, Look(node.properties), ShownAsMenu(Look(node.properties)), [])
  }

  function FilledWith(node: Node, kids: seq<nat>): Record
    requires node.Node?
  {
    Record(node.id, Look(node.properties), ShownAsMenu(Look(node.properties)) || kids != [], kids)
  }

  /** An item allocated, its children read, and filled in with them. */
  lemma ItemRead(s: Reading, t: Reading, node: Node, depth: nat)
    requires node.Node? && depth <= MAX_DEPTH && node.id != 0 && s.count < MAX_ITEMS && Sound(s.pool, s.byId)
    requires ReadOn(Reading(s.pool + [Unfilled(node)], s.byId, [], s.count + 1), t,
                    CountAll(node.children, depth + 1), ReadAll(node.children, depth + 1))
    ensures |s.pool| < |t.pool| && t.pool[|s.pool|] == Unfilled(node)
    ensures var place := |s.pool|;
      ReadOn(s, Reading(t.pool[place := FilledWith(node, t.read)], t.byId[node.id := place], s.read + [place], t.count),
             Count(node, depth), Read(node, depth))
  {
    hide Read, Trees, Tree, Look, ShownAsMenu;
    var place, kids := |s.pool|, t.read;
    var begun := s.pool + [Unfilled(node)];
    var after := t.pool[place := FilledWith(node, kids)];
    assert s.pool <= begun <= t.pool;
    NamedGrows(s.pool, begun, s.byId);
    Filled(s.pool, t.pool, after, t.byId, kids, node, depth);
    assert (s.read + [place])[|s.read|..] == [place];
    OneTree(after, place);
    if s.count + Count(node, depth) < MAX_ITEMS {
      assert kids[0..] == kids;
      IndexedOne(Named(s.pool, s.byId), node, depth);
      NamedWith(after, t.byId, node.id, place);
    }
  }

  lemma OneTree(pool: seq<Record>, place: nat)
    requires Rooted(pool) && place < |pool|
    ensures Trees(pool, [place], -1) == [Tree(pool, place)]
  {
    assert [place][..0] == [];
  }

  lemma IndexedOne(m: map<i32, Item>, node: Node, depth: nat)
    requires node.Node? && depth <= MAX_DEPTH && node.id != 0
    ensures |Read(node, depth)| == 1
    ensures Indexed(m, Read(node, depth))
         == Indexed(m, ReadAll(node.children, depth + 1))[node.id := Read(node, depth)[0]]
  {
    var item := Read(node, depth)[0];
    assert [item][..0] == [];
    assert Read(node, depth) == [item];
  }

  lemma NamedWith(pool: seq<Record>, byId: map<i32, nat>, id: i32, place: nat)
    requires Sound(pool, byId) && place < |pool|
    ensures Points(pool, byId[id := place])
    ensures Named(pool, byId[id := place]) == Named(pool, byId)[id := Tree(pool, place)]
  {
  }

  class Menu {
    var hasModel: bool               // false until a layout built the pool and the index
    var pool: seq<Record>
    var byId: map<i32, nat>
    var items: seq<nat>
    var revision: nat
    var ready: bool
    var nextSequence: nat
    var newestLayout: nat

    ghost predicate Valid()
      reads this
    {
      && Rooted(pool) && Points(pool, byId) && (forall k :: 0 <= k < |items| ==> items[k] < |pool|)
      && newestLayout <= nextSequence
    }

    /** The items shown, as trees. */
    ghost function Shown(): seq<Item>
      reads this
      requires Valid()
    {
      Trees(pool, items, -1)
    }

    ghost function Index(): map<i32, Item>
      reads this
      requires Valid()
    {
      Named(pool, byId)
    }

    constructor ()
      ensures Valid() && Shown() == [] && Index() == map[] && !ready && revision == 0
    {
      hasModel, pool, byId, items, revision, ready := false, [], map[], [], 0, false;
      nextSequence, newestLayout := 0, 0;
    }

    /** Read a node into the pool and the index, and append what it comes to to `destination`. */
    method ReadNode(node: Node, destination: seq<nat>, depth: nat, count: nat) returns (read: seq<nat>, counted: nat)
      requires Sound(pool, byId) && count <= MAX_ITEMS
      modifies this`pool, this`byId
      ensures ReadOn(Reading(old(pool), old(byId), destination, count), Reading(pool, byId, read, counted),
                     Count(node, depth), Read(node, depth))
      decreases node, 0
    {
      hide ReadOn, Sound, ReadAll, CountAll, Look, ShownAsMenu;
      ghost var start := Reading(pool, byId, destination, count);
      read, counted := destination, count;
      if depth > MAX_DEPTH || count >= MAX_ITEMS || !node.Node? {
        NothingRead(start, Count(node, depth), Read(node, depth));
        return;
      }
      if node.id == 0 {
        read, counted := ReadChildren(node.children, destination, depth + 1, count);
        return;
      }
      var place := |pool|;
      AllocatedIsSound(pool, byId, node);
      pool := pool + [Record(node.id, Look(node.properties), ShownAsMenu(Look(node.properties)), [])];
      var kids;
      kids, counted := ReadChildren(node.children, [], depth + 1, count + 1);
      ItemRead(start, Reading(pool, byId, kids, counted), node, depth);
      pool := pool[place := pool[place].(submenu := pool[place].submenu || kids != [], children := kids)];
      byId := byId[node.id := place];
      read := destination + [place];
    }

    method ReadChildren(nodes: seq<Node>, destination: seq<nat>, depth: nat, count: nat)
      returns (read: seq<nat>, counted: nat)
      requires Sound(pool, byId) && count <= MAX_ITEMS
      modifies this`pool, this`byId
      ensures ReadOn(Reading(old(pool), old(byId), destination, count), Reading(pool, byId, read, counted),
                     CountAll(nodes, depth), ReadAll(nodes, depth))
      decreases nodes, 1
    {
      hide ReadOn, Read, Count, Sound;
      ghost var start := Reading(pool, byId, destination, count);
      read, counted := destination, count;
      assert nodes[..0] == [];
      NothingRead(start, 0, []);
      for j := 0 to |nodes|
        invariant Sound(pool, byId) && counted <= MAX_ITEMS
        invariant ReadOn(start, Reading(pool, byId, read, counted), CountAll(nodes[..j], depth),
                         ReadAll(nodes[..j], depth))
      {
        ghost var before := Reading(pool, byId, read, counted);
        read, counted := ReadNode(nodes[j], read, depth, counted);
        assert nodes[..j + 1][..j] == nodes[..j];
        ReadFurther(start, before, Reading(pool, byId, read, counted), CountAll(nodes[..j], depth),
                    ReadAll(nodes[..j], depth), Count(nodes[j], depth), Read(nodes[j], depth));
        ReadOnIsSound(start, Reading(pool, byId, read, counted), CountAll(nodes[..j + 1], depth),
                      ReadAll(nodes[..j + 1], depth));
      }
      assert nodes[..|nodes|] == nodes;
    }

    /** Read a layout into an empty pool. */
    method ReadAnew(root: Node) returns (read: seq<nat>, count: nat)
      modifies this`pool, this`byId
      ensures count >= MAX_ITEMS <==> |Outline(root, 0, 0)| >= MAX_ITEMS
      ensures Rooted(pool) && Points(pool, byId) && forall k :: 0 <= k < |read| ==> read[k] < |pool|
      ensures count < MAX_ITEMS ==>
        Shows(Trees(pool, read, -1), root) && Named(pool, byId) == Indexed(map[], Trees(pool, read, -1))
    {
      hide ReadOn, Read, Count, Indexed, Trees, Tree, Rooted, Points, Named, Size, Outline, Shows;
      EmptyIsSound();
      pool, byId := [], map[];
      read, count := ReadNode(root, [], 0, 0);
      ReadWhole(root, pool, byId, read, count);
      MenuOfLayout(root, Read(root, 0));
    }

    /** Take the answer to request `sequence` for the model, if it is the newest and reads as a layout in bounds. */
    method ReadLayout(reply: Reply, sequence: nat) returns (accepted: bool)
      requires Valid()
      modifies this`hasModel, this`pool, this`byId, this`items, this`revision, this`ready
      ensures Valid()
      ensures accepted <==>
        && sequence == newestLayout && reply.Layout? && !reply.root.NotAStruct?
        && |Outline(reply.root, 0, 0)| < MAX_ITEMS
      ensures accepted ==>
        && Shows(Shown(), reply.root) && Index() == Indexed(map[], Shown())
        && revision == reply.revision && ready && hasModel
      ensures !accepted ==>
        && pool == old(pool) && byId == old(byId) && items == old(items) && hasModel == old(hasModel)
        && revision == old(revision) && ready == old(ready)
        && Shown() == old(Shown()) && Index() == old(Index())
    {
      if sequence != newestLayout || reply.Malformed? || reply.root.NotAStruct? {
        return false;
      }
      hide Indexed, Trees, Tree, Rooted, Points, Named, Outline, Shows;
      var previous, previousMap := pool, byId;
      var nextItems, count := ReadAnew(reply.root);
      if count >= MAX_ITEMS {
        pool, byId := previous, previousMap;
        return false;
      }
      hasModel, items, revision, ready := true, nextItems, reply.revision, true;
      return true;
    }

    method ClearModel()
      requires Valid()
      modifies this
      ensures Valid() && Shown() == [] && Index() == map[] && revision == 0 && !ready && !hasModel
      ensures nextSequence == old(nextSequence) && newestLayout == old(newestLayout)
    {
      items, pool, byId, hasModel, revision, ready := [], [], map[], false, 0, false;
    }

    /** Ask for the layout again: from here on no earlier answer counts. `built` says the message could be built. */
    method Refresh(built: bool) returns (sequence: nat)
      requires Valid()
      modifies this`nextSequence, this`newestLayout
      ensures Valid() && Shown() == old(Shown()) && Index() == old(Index())
      ensures built ==> sequence == newestLayout == nextSequence == old(nextSequence) + 1
      ensures !built ==> newestLayout == old(newestLayout) && nextSequence == old(nextSequence)
    {
      if !built {
        return 0;
      }
      nextSequence := nextSequence + 1;
      newestLayout := nextSequence;
      return newestLayout;
    }

    /** Any other call takes the next number, so it is never taken for a layout request. */
    method Number() returns (sequence: nat)
      requires Valid()
      modifies this`nextSequence
      ensures Valid() && Shown() == old(Shown()) && Index() == old(Index())
      ensures sequence == nextSequence == old(nextSequence) + 1 && sequence != newestLayout
    {
      nextSequence := nextSequence + 1;
      return nextSequence;
    }
  }

  /** What trees already read, and those read after them, come to together. */
  lemma Appended(p: seq<Record>, q: seq<Record>, xs: seq<nat>, ys: seq<nat>)
    requires Rooted(p) && Rooted(q) && p <= q
    requires (forall k :: 0 <= k < |xs| ==> xs[k] < |p|) && (forall k :: 0 <= k < |ys| ==> ys[k] < |q|)
    ensures forall k :: 0 <= k < |xs + ys| ==> (xs + ys)[k] < |q|
    ensures Trees(q, xs + ys, -1) == Trees(p, xs, -1) + Trees(q, ys, -1)
  {
    TreesStay(p, q, xs, -1);
    TreesSplit(q, xs, ys);
  }

  /** Filling in an item once its children are read: its tree is theirs under it, and the index is as it was. */
  lemma Filled(base: seq<Record>, before: seq<Record>, after: seq<Record>, byId: map<i32, nat>, kids: seq<nat>,
               node: Node, depth: nat)
    requires node.Node? && depth <= MAX_DEPTH && node.id != 0
    requires Rooted(base) && Rooted(before) && base < before && Points(before, byId)
    requires forall id <- byId :: byId[id] != |base|
    requires forall k :: 0 <= k < |kids| ==> |base| < kids[k] < |before|
    requires var look := Look(node.properties);
      after == before[|base| := Record(node.id, look, ShownAsMenu(look) || kids != [], kids)]
    ensures Rooted(after) && Points(after, byId) && Named(before, byId) == Named(after, byId)
    ensures Trees(before, kids, -1) == ReadAll(node.children, depth + 1) ==>
      [Tree(after, |base|)] == Read(node, depth)
  {
    forall i | 0 <= i < |after| ensures Below(after[i].children, i, |after|) {
      assert Below(before[i].children, i, |before|);
    }
    NamedStays(base, before, after, byId);
    TreesLowered(before, kids, |base|, -1);
    TreesStay(before, after, kids, |base|);
    KidsKnown(before, kids);
  }

  lemma AllocatedIsSound(pool: seq<Record>, byId: map<i32, nat>, node: Node)
    requires Sound(pool, byId) && node.Node?
    ensures Sound(pool + [Unfilled(node)], byId)
  {
    var grown := pool + [Unfilled(node)];
    forall i | 0 <= i < |grown| ensures Below(grown[i].children, i, |grown|) {
      assert i < |pool| ==> Below(pool[i].children, i, |pool|);
    }
  }

  lemma ReadOnIsSound(s: Reading, t: Reading, total: nat, items: seq<Item>)
    requires ReadOn(s, t, total, items)
    ensures Sound(t.pool, t.byId) && t.count <= MAX_ITEMS
  {
  }

  lemma EmptyIsSound()
    ensures Rooted([]) && Points([], map[])
  {
  }

  /** What reading a whole layout into an empty pool comes to. */
  lemma ReadWhole(root: Node, pool: seq<Record>, byId: map<i32, nat>, items: seq<nat>, count: nat)
    requires ReadOn(Reading([], map[], [], 0), Reading(pool, byId, items, count), Count(root, 0), Read(root, 0))
    ensures count >= MAX_ITEMS <==> Size(Read(root, 0)) >= MAX_ITEMS
    ensures Rooted(pool) && Points(pool, byId) && forall k :: 0 <= k < |items| ==> items[k] < |pool|
    ensures count < MAX_ITEMS ==>
      Trees(pool, items, -1) == Read(root, 0) && Named(pool, byId) == Indexed(map[], Read(root, 0))
  {
    hide Read, Count, Indexed, Trees, Tree;
    CountIsSize(root, 0);
    assert items[0..] == items;
    assert Named([], map[]) == map[];
  }

  lemma KidsKnown(pool: seq<Record>, kids: seq<nat>)
    requires Rooted(pool) && forall k :: 0 <= k < |kids| ==> kids[k] < |pool|
    ensures Trees(pool, kids, -1) == [] <==> kids == []
  {
  }
}
