/**
 Reading a D-Bus menu: what a layout means, and the pool the items read from it live in.
*/
module MenuModel {
  const MAX_DEPTH: nat := 16
  const MAX_ITEMS: nat := 4096

  type i32 = x: int | -0x8000_0000 <= x < 0x8000_0000

  datatype Value = Text(text: string) | Flag(flag: bool) | Number(number: i32) | Opaque

  datatype Property = Property(key: string, value: Value)

  /** A layout node as sent: a struct led by an id, a struct that is not, or no struct at all. */
  datatype Node =
    | Node(id: i32, properties: seq<Property>, children: seq<Node>)
    | Strange
    | NotAStruct

  /** An item of the menu shown. */
  datatype Item = Item(id: i32, look: map<string, Value>, submenu: bool, children: seq<Item>)

  function Look(properties: seq<Property>): map<string, Value> {
    if properties == [] then map[] else
      var last := properties[|properties| - 1];
      Look(properties[..|properties| - 1])[last.key := last.value]
  }

  predicate ShownAsMenu(look: map<string, Value>) {
    "children-display" in look && look["children-display"] == Text("submenu")
  }

  // ----- what a layout means -----

  /** The items of a node: what is too deep or not a node is pruned, and id 0 gives way to its children. */
  function Read(node: Node, depth: nat): seq<Item>
    decreases node
  {
    if depth > MAX_DEPTH || !node.Node? then [] else
      var kids := ReadAll(node.children, depth + 1);
      if node.id == 0 then kids
      else [Item(node.id, Look(node.properties), ShownAsMenu(Look(node.properties)) || kids != [], kids)]
  }

  function ReadAll(nodes: seq<Node>, depth: nat): seq<Item>
    decreases nodes
  {
    if nodes == [] then [] else ReadAll(nodes[..|nodes| - 1], depth) + Read(nodes[|nodes| - 1], depth)
  }

  /** How many items a node comes to, itself and all below it. */
  function Count(node: Node, depth: nat): nat
    decreases node
  {
    if depth > MAX_DEPTH || !node.Node? then 0
    else (if node.id == 0 then 0 else 1) + CountAll(node.children, depth + 1)
  }

  function CountAll(nodes: seq<Node>, depth: nat): nat
    decreases nodes
  {
    if nodes == [] then 0 else CountAll(nodes[..|nodes| - 1], depth) + Count(nodes[|nodes| - 1], depth)
  }

  function Size(items: seq<Item>): nat
    decreases items
  {
    if items == [] then 0 else
      var last := items[|items| - 1];
      Size(items[..|items| - 1]) + 1 + Size(last.children)
  }

  /** Each item by its id, an item after its children and the last of equal ids winning. */
  function Indexed(m: map<i32, Item>, items: seq<Item>): map<i32, Item>
    decreases items
  {
    if items == [] then m else
      var last := items[|items| - 1];
      Indexed(Indexed(m, items[..|items| - 1]), last.children)[last.id := last]
  }

  ghost predicate Occurs(x: Item, items: seq<Item>)
    decreases items
  {
    exists i :: 0 <= i < |items| && (items[i] == x || Occurs(x, items[i].children))
  }

  lemma {:induction false} SizeSplits(xs: seq<Item>, ys: seq<Item>)
    ensures Size(xs + ys) == Size(xs) + Size(ys)
  {
    if ys == [] {
      assert xs + ys == xs;
    } else {
      var front, last := ys[..|ys| - 1], ys[|ys| - 1];
      assert (xs + ys)[..|xs + ys| - 1] == xs + front;
      SizeSplits(xs, front);
    }
  }

  lemma {:induction false} IndexedSplits(m: map<i32, Item>, xs: seq<Item>, ys: seq<Item>)
    ensures Indexed(m, xs + ys) == Indexed(Indexed(m, xs), ys)
  {
    if ys == [] {
      assert xs + ys == xs;
    } else {
      var front, last := ys[..|ys| - 1], ys[|ys| - 1];
      assert (xs + ys)[..|xs + ys| - 1] == xs + front;
      IndexedSplits(m, xs, front);
    }
  }

  /** The number the reader goes by is the number of items the layout means. */
  lemma {:induction false} CountIsSize(node: Node, depth: nat)
    ensures Count(node, depth) == Size(Read(node, depth))
    decreases node
  {
    if depth <= MAX_DEPTH && node.Node? {
      CountAllIsSize(node.children, depth + 1);
      var kids := ReadAll(node.children, depth + 1);
      if node.id != 0 {
        var item := Read(node, depth)[0];
        assert Read(node, depth) == [item] && [item][..0] == [];
      }
    }
  }

  lemma {:induction false} CountAllIsSize(nodes: seq<Node>, depth: nat)
    ensures CountAll(nodes, depth) == Size(ReadAll(nodes, depth))
    decreases nodes
  {
    if nodes != [] {
      var n := |nodes| - 1;
      CountAllIsSize(nodes[..n], depth);
      CountIsSize(nodes[n], depth);
      SizeSplits(ReadAll(nodes[..n], depth), Read(nodes[n], depth));
    }
  }

  lemma OccursEarlier(x: Item, items: seq<Item>, n: nat)
    requires n <= |items| && Occurs(x, items[..n])
    ensures Occurs(x, items)
  {
    var i :| 0 <= i < n && (items[..n][i] == x || Occurs(x, items[..n][i].children));
    assert items[i] == x || Occurs(x, items[i].children);
  }

  /** Whatever the index holds was in it before or is an item of the layout, under its own id. */
  lemma {:induction false} IndexedHolds(m: map<i32, Item>, items: seq<Item>, id: i32)
    requires id in Indexed(m, items)
    ensures var x := Indexed(m, items)[id];
      (id in m && x == m[id]) || (x.id == id && Occurs(x, items))
    decreases items
  {
    if items != [] {
      var n := |items| - 1;
      var front, last := items[..n], items[n];
      var before := Indexed(m, front);
      if id == last.id {
        assert Occurs(last, items);
      } else {
        IndexedHolds(before, last.children, id);
        var x := Indexed(m, items)[id];
        if Occurs(x, last.children) {
          assert Occurs(x, items[n].children);
        }
        if id in before && x == before[id] {
          IndexedHolds(m, front, id);
          if Occurs(x, front) {
            OccursEarlier(x, items, n);
          }
        }
      }
    }
  }

  lemma {:induction false} IndexedKeeps(m: map<i32, Item>, items: seq<Item>)
    ensures m.Keys <= Indexed(m, items).Keys
    decreases items
  {
    if items != [] {
      var n := |items| - 1;
      IndexedKeeps(m, items[..n]);
      IndexedKeeps(Indexed(m, items[..n]), items[n].children);
    }
  }

  /** Every item of the layout is found under its id. */
  lemma {:induction false} IndexedFinds(m: map<i32, Item>, items: seq<Item>, x: Item)
    requires Occurs(x, items)
    ensures x.id in Indexed(m, items)
    decreases items
  {
    var i :| 0 <= i < |items| && (items[i] == x || Occurs(x, items[i].children));
    var n := |items| - 1;
    var front, last := items[..n], items[n];
    if i == n {
      if last != x {
        IndexedFinds(Indexed(m, front), last.children, x);
      }
    } else {
      assert front[i] == items[i];
      assert Occurs(x, front);
      IndexedFinds(m, front, x);
      IndexedKeeps(Indexed(m, front), last.children);
    }
  }

  /** With ids that name one item each, the index is exact: what it finds under an item's id is that item. */
  lemma IndexIsExact(items: seq<Item>, x: Item)
    requires Occurs(x, items)
    requires forall y :: Occurs(y, items) && y.id == x.id ==> y == x
    ensures x.id in Indexed(map[], items) && Indexed(map[], items)[x.id] == x
  {
    IndexedFinds(map[], items, x);
    IndexedHolds(map[], items, x.id);
  }

  lemma OccursInEither(x: Item, xs: seq<Item>, ys: seq<Item>)
    requires Occurs(x, xs + ys)
    ensures Occurs(x, xs) || Occurs(x, ys)
  {
    var i :| 0 <= i < |xs + ys| && ((xs + ys)[i] == x || Occurs(x, (xs + ys)[i].children));
    if i < |xs| {
      assert xs[i] == x || Occurs(x, xs[i].children);
    } else {
      assert ys[i - |xs|] == x || Occurs(x, ys[i - |xs|].children);
    }
  }

  /** No item read has id 0, and every item with children opens as a submenu. */
  lemma {:induction false} ItemsAreSound(node: Node, depth: nat, x: Item)
    requires Occurs(x, Read(node, depth))
    ensures x.id != 0 && (x.children != [] ==> x.submenu)
    decreases node
  {
    var items := Read(node, depth);
    var i :| 0 <= i < |items| && (items[i] == x || Occurs(x, items[i].children));
    if node.id == 0 || items[i] != x {
      AllItemsAreSound(node.children, depth + 1, x);
    }
  }

  lemma {:induction false} AllItemsAreSound(nodes: seq<Node>, depth: nat, x: Item)
    requires Occurs(x, ReadAll(nodes, depth))
    ensures x.id != 0 && (x.children != [] ==> x.submenu)
    decreases nodes
  {
    var n := |nodes| - 1;
    OccursInEither(x, ReadAll(nodes[..n], depth), Read(nodes[n], depth));
    if Occurs(x, Read(nodes[n], depth)) {
      ItemsAreSound(nodes[n], depth, x);
    } else {
      AllItemsAreSound(nodes[..n], depth, x);
    }
  }

  // ----- the outline of a layout -----

  /** One line of an outline: how many items it is under, its id, and its look. */
  datatype Entry = Entry(level: nat, id: i32, look: map<string, Value>)

  /** A layout in document order: the nodes of an id other than 0, at most `MAX_DEPTH` deep, under those above them. */
  function Outline(node: Node, depth: nat, level: nat): seq<Entry>
    decreases node
  {
    if !node.Node? || depth > MAX_DEPTH then []
    else if node.id == 0 then Outlines(node.children, depth + 1, level)
    else [Entry(level, node.id, Look(node.properties))] + Outlines(node.children, depth + 1, level + 1)
  }

  function Outlines(nodes: seq<Node>, depth: nat, level: nat): seq<Entry>
    decreases nodes
  {
    if nodes == [] then [] else
      Outlines(nodes[..|nodes| - 1], depth, level) + Outline(nodes[|nodes| - 1], depth, level)
  }

  /** The outline of a menu shown. */
  function Listed(items: seq<Item>, level: nat): seq<Entry>
    decreases items
  {
    if items == [] then [] else
      var last := items[|items| - 1];
      Listed(items[..|items| - 1], level) + [Entry(level, last.id, last.look)] + Listed(last.children, level + 1)
  }

  /** Every item opens as a submenu exactly if it says so or has children. */
  predicate Opens(items: seq<Item>)
    decreases items
  {
    items == [] ||
    (var last := items[|items| - 1];
     && Opens(items[..|items| - 1]) && Opens(last.children)
     && (last.submenu <==> ShownAsMenu(last.look) || last.children != []))
  }

  lemma {:induction false} ListedSplits(xs: seq<Item>, ys: seq<Item>, level: nat)
    ensures Listed(xs + ys, level) == Listed(xs, level) + Listed(ys, level)
    ensures Opens(xs + ys) <==> Opens(xs) && Opens(ys)
  {
    if ys == [] {
      assert xs + ys == xs;
    } else {
      var front := ys[..|ys| - 1];
      assert (xs + ys)[..|xs + ys| - 1] == xs + front;
      ListedSplits(xs, front, level);
    }
  }

  /** What is read of a layout has the layout's outline, and opens as it should. */
  lemma {:induction false} ReadIsListed(node: Node, depth: nat, level: nat)
    ensures Listed(Read(node, depth), level) == Outline(node, depth, level) && Opens(Read(node, depth))
    decreases node
  {
    if node.Node? && depth <= MAX_DEPTH {
      if node.id == 0 {
        AllReadIsListed(node.children, depth + 1, level);
      } else {
        AllReadIsListed(node.children, depth + 1, level + 1);
        var item := Read(node, depth)[0];
        assert Read(node, depth) == [item] && [item][..0] == [];
      }
    }
  }

  lemma {:induction false} AllReadIsListed(nodes: seq<Node>, depth: nat, level: nat)
    ensures Listed(ReadAll(nodes, depth), level) == Outlines(nodes, depth, level) && Opens(ReadAll(nodes, depth))
    decreases nodes
  {
    if nodes != [] {
      var n := |nodes| - 1;
      AllReadIsListed(nodes[..n], depth, level);
      ReadIsListed(nodes[n], depth, level);
      ListedSplits(ReadAll(nodes[..n], depth), Read(nodes[n], depth), level);
    }
  }

  lemma {:induction false} ListedBelow(items: seq<Item>, level: nat)
    ensures forall e <- Listed(items, level) :: e.level >= level
    ensures |Listed(items, level)| == Size(items)
    decreases items
  {
    if items != [] {
      ListedBelow(items[..|items| - 1], level);
      ListedBelow(items[|items| - 1].children, level + 1);
    }
  }

  lemma AfterLastLine(a: seq<Entry>, x: Entry, b: seq<Entry>, level: nat)
    requires x.level == level && forall e <- b :: e.level > level
    ensures var all := a + [x] + b;
      all[|a|] == x && all[..|a|] == a && all[|a| + 1..] == b && forall k :: |a| < k < |all| ==> all[k].level > level
  {
    var all := a + [x] + b;
    forall k | |a| < k < |all| ensures all[k].level > level {
      assert all[k] == b[k - |a| - 1];
    }
  }

  /** An outline falls apart at its last line of the top level in one way only. */
  lemma LastLine(a: seq<Entry>, x: Entry, b: seq<Entry>, c: seq<Entry>, y: Entry, d: seq<Entry>, level: nat)
    requires a + [x] + b == c + [y] + d && x.level == y.level == level
    requires (forall e <- b :: e.level > level) && (forall e <- d :: e.level > level)
    ensures a == c && x == y && b == d
  {
    AfterLastLine(a, x, b, level);
    AfterLastLine(c, y, d, level);
  }

  /** An outline determines the menu. */
  lemma {:induction false} OutlineIsOneMenu(xs: seq<Item>, ys: seq<Item>, level: nat)
    requires Listed(xs, level) == Listed(ys, level) && Opens(xs) && Opens(ys)
    ensures xs == ys
    decreases xs
  {
    ListedBelow(xs, level);
    ListedBelow(ys, level);
    if xs == [] {
      assert Size(ys) == 0;
    } else if ys != [] {
      var m, n := |xs| - 1, |ys| - 1;
      var x, y := xs[m], ys[n];
      ListedBelow(x.children, level + 1);
      ListedBelow(y.children, level + 1);
      LastLine(Listed(xs[..m], level), Entry(level, x.id, x.look), Listed(x.children, level + 1),
               Listed(ys[..n], level), Entry(level, y.id, y.look), Listed(y.children, level + 1), level);
      OutlineIsOneMenu(xs[..m], ys[..n], level);
      OutlineIsOneMenu(x.children, y.children, level + 1);
      assert x == y;
      assert xs == xs[..m] + [x] && ys == ys[..n] + [y];
    }
  }

  /** A menu as a layout has it: of its outline, and every item opening as it should. */
  ghost predicate Shows(items: seq<Item>, node: Node) {
    Listed(items, 0) == Outline(node, 0, 0) && Opens(items)
  }

  /** So there is one menu as a layout has it, which is what is read of it, with as many items as the outline lines. */
  lemma MenuOfLayout(node: Node, items: seq<Item>)
    ensures items == Read(node, 0) <==> Shows(items, node)
    ensures |Outline(node, 0, 0)| == Size(Read(node, 0))
  {
    hide Listed, Opens, Read, Outline, Size;
    ReadIsListed(node, 0, 0);
    ListedBelow(Read(node, 0), 0);
    if Listed(items, 0) == Outline(node, 0, 0) && Opens(items) {
      OutlineIsOneMenu(items, Read(node, 0), 0);
    }
  }

  // ----- the pool -----

  /** An item where it was allocated; its children are places in the pool, all of them later. */
  datatype Record = Record(id: i32, look: map<string, Value>, submenu: bool, children: seq<nat>)

  ghost predicate Rooted(pool: seq<Record>) {
    forall i :: 0 <= i < |pool| ==> Below(pool[i].children, i, |pool|)
  }

  ghost predicate Below(places: seq<nat>, from: nat, to: nat) {
    forall k :: 0 <= k < |places| ==> from < places[k] < to
  }

  ghost function Tree(pool: seq<Record>, i: nat): Item
    requires Rooted(pool) && i < |pool|
    decreases |pool| - i, |pool[i].children| + 1
  {
    Item(pool[i].id, pool[i].look, pool[i].submenu, Trees(pool, pool[i].children, i))
  }

  ghost function Trees(pool: seq<Record>, places: seq<nat>, above: int): seq<Item>
    requires Rooted(pool) && -1 <= above && forall k :: 0 <= k < |places| ==> above < places[k] < |pool|
    decreases |pool| - above, |places|
  {
    if places == [] then [] else
      Trees(pool, places[..|places| - 1], above) + [Tree(pool, places[|places| - 1])]
  }

  /** A tree depends on nothing before its root. */
  lemma {:induction false} TreeStays(p: seq<Record>, q: seq<Record>, i: nat)
    requires Rooted(p) && Rooted(q) && i < |p| <= |q| && (forall k :: i <= k < |p| ==> p[k] == q[k])
    ensures Tree(p, i) == Tree(q, i)
    decreases |p| - i, |p[i].children| + 1
  {
    TreesStay(p, q, p[i].children, i);
  }

  lemma {:induction false} TreesStay(p: seq<Record>, q: seq<Record>, places: seq<nat>, above: int)
    requires Rooted(p) && Rooted(q) && |p| <= |q| && -1 <= above
    requires forall k :: above < k < |p| ==> p[k] == q[k]
    requires forall k :: 0 <= k < |places| ==> above < places[k] < |p|
    ensures Trees(p, places, above) == Trees(q, places, above)
    decreases |p| - above, |places|
  {
    if places != [] {
      TreesStay(p, q, places[..|places| - 1], above);
      TreeStays(p, q, places[|places| - 1]);
    }
  }

  lemma {:induction false} TreesLowered(pool: seq<Record>, places: seq<nat>, above: int, lower: int)
    requires Rooted(pool) && -1 <= lower <= above && forall k :: 0 <= k < |places| ==> above < places[k] < |pool|
    ensures Trees(pool, places, above) == Trees(pool, places, lower)
    decreases |places|
  {
    if places != [] {
      TreesLowered(pool, places[..|places| - 1], above, lower);
    }
  }

  lemma {:induction false} TreesSplit(pool: seq<Record>, xs: seq<nat>, ys: seq<nat>)
    requires Rooted(pool) && forall k :: 0 <= k < |xs + ys| ==> (xs + ys)[k] < |pool|
    ensures (forall k :: 0 <= k < |xs| ==> xs[k] < |pool|) && (forall k :: 0 <= k < |ys| ==> ys[k] < |pool|)
    ensures Trees(pool, xs + ys, -1) == Trees(pool, xs, -1) + Trees(pool, ys, -1)
  {
    assert forall k :: 0 <= k < |xs| ==> xs[k] == (xs + ys)[k];
    assert forall k :: 0 <= k < |ys| ==> ys[k] == (xs + ys)[|xs| + k];
    if ys == [] {
      assert xs + ys == xs;
    } else {
      var n := |ys| - 1;
      assert (xs + ys)[..|xs + ys| - 1] == xs + ys[..n];
      TreesSplit(pool, xs, ys[..n]);
    }
  }

  ghost predicate Points(pool: seq<Record>, byId: map<i32, nat>) {
    forall id <- byId :: byId[id] < |pool|
  }

  /** The index by the trees it points to. */
  ghost function Named(pool: seq<Record>, byId: map<i32, nat>): map<i32, Item>
    requires Rooted(pool) && Points(pool, byId)
  {
    map id <- byId :: Tree(pool, byId[id])
  }

  /** Filling in the one item still being read changes no tree the index points to. */
  lemma NamedStays(base: seq<Record>, p: seq<Record>, q: seq<Record>, byId: map<i32, nat>)
    requires Rooted(base) && Rooted(p) && Rooted(q) && Points(p, byId)
    requires |base| < |p| == |q| && base <= p && base <= q && p[|base| + 1..] == q[|base| + 1..]
    requires forall id <- byId :: byId[id] != |base|
    ensures Named(p, byId) == Named(q, byId)
  {
    forall id <- byId ensures Tree(p, byId[id]) == Tree(q, byId[id]) {
      var i := byId[id];
      if i < |base| {
        TreeStays(base, p, i);
        TreeStays(base, q, i);
      } else {
        forall k | i <= k < |p| ensures p[k] == q[k] {
          assert p[k] == p[|base| + 1..][k - |base| - 1];
          assert q[k] == q[|base| + 1..][k - |base| - 1];
        }
        TreeStays(p, q, i);
      }
    }
  }

  lemma NamedGrows(p: seq<Record>, q: seq<Record>, byId: map<i32, nat>)
    requires Rooted(p) && Rooted(q) && p <= q && Points(p, byId)
    ensures Points(q, byId) && Named(p, byId) == Named(q, byId)
  {
    forall id <- byId ensures Tree(p, byId[id]) == Tree(q, byId[id]) {
      TreeStays(p, q, byId[id]);
    }
  }
}
