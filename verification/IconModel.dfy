/**
 Finding an icon: the indexes of one generation of the store, resolution against them with no cache, and the cache in
 front of it. Symbols are the strings they are hashed from, and cache keys the pairs they are mixed from.
*/
module IconModel {
  datatype Option<T> = None | Some(value: T)

  /** Premultiplied pixels, row by row. */
  datatype Icon = Icon(width: nat, height: nat, argb: seq<nat>)

  /** A png of a name, and the size of the directory it was found in. */
  datatype Source = Source(path: string, size: nat)

  datatype Entry = Entry(pngs: seq<Source>, svg: Option<string>)

  /** What the scan of the themes leaves of a name: some file, and at most one png of a size. */
  predicate Indexed(n: Entry) {
    && (n.svg.Some? || n.pngs != [])
    && forall i, j :: 0 <= i < j < |n.pngs| ==> n.pngs[i].size != n.pngs[j].size
  }

  /** What the files hold while a generation lasts: loading a path fails or gives an icon. */
  datatype Files = Files(png: string -> Option<Icon>, svg: (string, nat) -> Option<Icon>)

  /** The indexes of a generation: lower-case desktop ids to their Icon= value, and names to their files. */
  datatype Generation = Generation(desktop: map<string, string>, names: map<string, Entry>, files: Files)

  ghost predicate Valid(g: Generation) {
    (forall d <- g.desktop :: g.desktop[d] != "") && (forall n <- g.names :: Indexed(g.names[n]))
  }

  // ----- buckets -----

  const MIN_PX: nat := 16
  const MAX_PX: nat := 512

  predicate IsBucket(b: nat) {
    b == 16 || b == 32 || b == 64 || b == 128 || b == 256 || b == 512
  }

  /** The raster size for a desired one: the least bucket to cover it, or the largest there is. */
  ghost predicate BucketFor(desired: nat, b: nat) {
    && IsBucket(b)
    && (desired <= b || b == MAX_PX)
    && (forall c: nat :: IsBucket(c) && c < b ==> c < desired)
  }

  method IconBucket(desired: nat) returns (b: nat)
    ensures BucketFor(desired, b)
  {
    b := MIN_PX;
    while b < desired && b < MAX_PX
      invariant IsBucket(b) && forall c: nat :: IsBucket(c) && c < b ==> c < desired
      decreases MAX_PX - b
    {
      b := b * 2;
    }
  }

  // ----- the files of a name -----

  predicate Covers(s: Source, bucket: nat) { s.size >= bucket }

  /** The first of the smallest pngs that cover the bucket. */
  function Cover(pngs: seq<Source>, bucket: nat): Option<Source> {
    if pngs == [] then None else
      var s := pngs[|pngs| - 1];
      var best := Cover(pngs[..|pngs| - 1], bucket);
      if Covers(s, bucket) && (best.None? || s.size < best.value.size) then Some(s) else best
  }

  function Largest(pngs: seq<Source>): Option<Source> {
    if pngs == [] then None else
      var s := pngs[|pngs| - 1];
      var best := Largest(pngs[..|pngs| - 1]);
      if best.None? || s.size > best.value.size then Some(s) else best
  }

  lemma {:induction false} CoverIsSmallest(pngs: seq<Source>, bucket: nat)
    ensures match Cover(pngs, bucket)
      case None => forall s <- pngs :: !Covers(s, bucket)
      case Some(best) =>
        best in pngs && Covers(best, bucket) && forall s <- pngs :: Covers(s, bucket) ==> best.size <= s.size
  {
    if pngs != [] {
      var n := |pngs| - 1;
      CoverIsSmallest(pngs[..n], bucket);
      assert pngs == pngs[..n] + [pngs[n]];
    }
  }

  lemma {:induction false} LargestIsLargest(pngs: seq<Source>)
    ensures match Largest(pngs)
      case None => pngs == []
      case Some(best) => best in pngs && forall s <- pngs :: s.size <= best.size
  {
    if pngs != [] {
      var n := |pngs| - 1;
      LargestIsLargest(pngs[..n]);
      assert pngs == pngs[..n] + [pngs[n]];
    }
  }

  /** What is loaded for a name: the smallest png that covers, else the svg, else the largest png. */
  function NameIcon(f: Files, n: Entry, bucket: nat): Option<Icon>
    requires Indexed(n)
  {
    LargestIsLargest(n.pngs);
    match (Cover(n.pngs, bucket), n.svg)
    case (Some(best), _) => f.png(best.path)
    case (None, Some(path)) => f.svg(path, bucket)
    case _ => f.png(Largest(n.pngs).value.path)
  }

  // ----- resolution with no cache -----

  function Lower(s: string): string {
    if s == [] then [] else [if 'A' <= s[0] <= 'Z' then s[0] + 32 as char else s[0]] + Lower(s[1..])
  }

  predicate EndsWith(s: string, tail: string) {
    |s| >= |tail| && s[|s| - |tail|..] == tail
  }

  predicate IsPath(s: string) { s != "" && s[0] == '/' }

  function FileIcon(f: Files, path: string, bucket: nat): Option<Icon> {
    if EndsWith(path, ".svg") then f.svg(path, bucket)
    else if EndsWith(path, ".png") then f.png(path)
    else None
  }

  /** A name or path as an Icon= value gives it. */
  ghost function Value(g: Generation, v: string, bucket: nat): Option<Icon>
    requires Valid(g)
  {
    if IsPath(v) then FileIcon(g.files, v, bucket)
    else if v in g.names then NameIcon(g.files, g.names[v], bucket)
    else None
  }

  ghost function Sym(g: Generation, sym: string, bucket: nat): Option<Icon>
    requires Valid(g)
  {
    if sym in g.desktop then Value(g, g.desktop[sym], bucket)
    else if sym in g.names then NameIcon(g.files, g.names[sym], bucket)
    else None
  }

  ghost function Find(g: Generation, sym: string, bucket: nat, id: string): Option<Icon>
    requires Valid(g)
  {
    var icon := Sym(g, sym, bucket);
    if icon.Some? || id == "" then icon else
      var folded := if Lower(id) != sym then Sym(g, Lower(id), bucket) else None;
      if folded.Some? || !IsPath(id) then folded else FileIcon(g.files, id, bucket)
  }

  // ----- which file a lookup loads -----

  datatype File = Png(path: string) | Svg(path: string)

  function Load(f: Files, file: File, bucket: nat): Option<Icon> {
    match file
    case Png(path) => f.png(path)
    case Svg(path) => f.svg(path, bucket)
  }

  /** The file to show a name by: the smallest png that covers; if none does, the svg; failing it, the largest png. */
  ghost predicate Fittest(n: Entry, bucket: nat, file: File) {
    match file
    case Svg(path) => n.svg == Some(path) && forall s <- n.pngs :: !Covers(s, bucket)
    case Png(path) =>
      exists best <- n.pngs :: best.path == path &&
        if Covers(best, bucket) then forall s <- n.pngs :: Covers(s, bucket) ==> best.size <= s.size
        else n.svg.None? && forall s <- n.pngs :: !Covers(s, bucket) && s.size <= best.size
  }

  lemma NameIsFittest(f: Files, n: Entry, bucket: nat)
    requires Indexed(n)
    ensures exists file :: Fittest(n, bucket, file)
    ensures forall file :: Fittest(n, bucket, file) ==> NameIcon(f, n, bucket) == Load(f, file, bucket)
  {
    CoverIsSmallest(n.pngs, bucket);
    LargestIsLargest(n.pngs);
    var file := match (Cover(n.pngs, bucket), n.svg)
      case (Some(best), _) => Png(best.path)
      case (None, Some(path)) => Svg(path)
      case _ => Png(Largest(n.pngs).value.path);
    assert Fittest(n, bucket, file);
    assert NameIcon(f, n, bucket) == Load(f, file, bucket);
    forall other | Fittest(n, bucket, other) ensures other == file {
    }
  }

  /** The file an Icon= value, or a desktop id or name, stands for. */
  ghost predicate ValueNames(g: Generation, v: string, bucket: nat, file: File) {
    if IsPath(v) then file == (if EndsWith(v, ".svg") then Svg(v) else Png(v)) && (file.Png? ==> EndsWith(v, ".png"))
    else v in g.names && Fittest(g.names[v], bucket, file)
  }

  ghost predicate SymNames(g: Generation, sym: string, bucket: nat, file: File) {
    if sym in g.desktop then ValueNames(g, g.desktop[sym], bucket, file)
    else sym in g.names && Fittest(g.names[sym], bucket, file)
  }

  ghost predicate Loads(g: Generation, sym: string, bucket: nat) {
    exists file :: SymNames(g, sym, bucket, file) && Load(g.files, file, bucket).Some?
  }

  lemma ValueLoads(g: Generation, v: string, bucket: nat)
    requires Valid(g)
    ensures forall file :: ValueNames(g, v, bucket, file) ==> Value(g, v, bucket) == Load(g.files, file, bucket)
    ensures (forall file :: !ValueNames(g, v, bucket, file)) ==> Value(g, v, bucket) == None
  {
    hide Fittest, NameIcon;
    if IsPath(v) {
      var file := if EndsWith(v, ".svg") then Svg(v) else Png(v);
      assert EndsWith(v, ".svg") || EndsWith(v, ".png") ==> ValueNames(g, v, bucket, file);
    } else if v in g.names {
      NameIsFittest(g.files, g.names[v], bucket);
      var file :| Fittest(g.names[v], bucket, file);
      assert ValueNames(g, v, bucket, file);
    }
  }

  lemma SymLoads(g: Generation, sym: string, bucket: nat)
    requires Valid(g)
    ensures Sym(g, sym, bucket).Some? <==> Loads(g, sym, bucket)
    ensures forall file :: SymNames(g, sym, bucket, file) ==> Sym(g, sym, bucket) == Load(g.files, file, bucket)
  {
    hide Fittest, NameIcon, ValueNames, Value;
    if sym in g.desktop {
      ValueLoads(g, g.desktop[sym], bucket);
      if Sym(g, sym, bucket).Some? {
        var file :| ValueNames(g, g.desktop[sym], bucket, file);
        assert SymNames(g, sym, bucket, file);
      }
    } else if sym in g.names {
      NameIsFittest(g.files, g.names[sym], bucket);
      var file :| Fittest(g.names[sym], bucket, file);
      assert SymNames(g, sym, bucket, file);
    }
  }

  /**
   A lookup answers with the file its symbol stands for, if that loads; else with the file the lower-case id stands for;
   else with the id itself, if it is the path of a file that loads; and else with nothing.
  */
  lemma FindLoads(g: Generation, sym: string, bucket: nat, id: string)
    requires Valid(g)
    ensures var icon, folds := Find(g, sym, bucket, id), id != "" && Loads(g, Lower(id), bucket);
      && (Loads(g, sym, bucket) ==>
        forall file :: SymNames(g, sym, bucket, file) ==> icon == Load(g.files, file, bucket))
      && (!Loads(g, sym, bucket) && folds ==>
        forall file :: SymNames(g, Lower(id), bucket, file) ==> icon == Load(g.files, file, bucket))
      && (!Loads(g, sym, bucket) && !folds ==>
        icon == if !IsPath(id) then None else if EndsWith(id, ".svg") then g.files.svg(id, bucket)
                else if EndsWith(id, ".png") then g.files.png(id) else None)
  {
    hide Sym, Loads, SymNames, Lower;
    SymLoads(g, sym, bucket);
    SymLoads(g, Lower(id), bucket);
  }

  // ----- resolution through the cache -----

  type Cache = map<(string, nat), Option<Icon>>

  ghost function CachedValue(g: Generation, cache: Cache, v: string, bucket: nat): (Cache, Option<Icon>)
    requires Valid(g)
  {
    if (v, bucket) in cache then (cache, cache[(v, bucket)])
    else (cache[(v, bucket) := Value(g, v, bucket)], Value(g, v, bucket))
  }

  ghost function CachedSym(g: Generation, cache: Cache, sym: string, bucket: nat): (Cache, Option<Icon>)
    requires Valid(g)
  {
    if sym in g.desktop then CachedValue(g, cache, g.desktop[sym], bucket)
    else (cache, Sym(g, sym, bucket))
  }

  ghost function CachedFind(g: Generation, cache: Cache, sym: string, bucket: nat, id: string): (Cache, Option<Icon>)
    requires Valid(g)
  {
    if (sym, bucket) in cache then (cache, cache[(sym, bucket)]) else
      var (first, icon) := CachedSym(g, cache, sym, bucket);
      if icon.Some? || id == "" then (first[(sym, bucket) := icon], icon) else
        var (second, folded) := if Lower(id) != sym then CachedSym(g, first, Lower(id), bucket) else (first, None);
        var last := if folded.Some? || !IsPath(id) then folded else FileIcon(g.files, id, bucket);
        (second[(sym, bucket) := last], last)
  }

  // ----- when the cache tells the truth -----

  /** An Icon= value means the same as a value and as a query of its own. */
  ghost predicate Agrees(g: Generation, ids: string -> string, v: string)
    requires Valid(g)
  {
    forall b :: IsBucket(b) ==> Value(g, v, b) == Find(g, v, b, ids(v))
  }

  /** A lookup consults an Icon= value: that of its own desktop entry or, where it gives nothing, of its folded id's. */
  ghost predicate Consults(g: Generation, ids: string -> string, sym: string, v: string, bucket: nat)
    requires Valid(g)
  {
    || (sym in g.desktop && v == g.desktop[sym])
    || (Sym(g, sym, bucket) == None && Folds(g, sym, ids(sym)) && v == g.desktop[Lower(ids(sym))])
  }

  predicate Folds(g: Generation, sym: string, id: string) {
    id != "" && Lower(id) != sym && Lower(id) in g.desktop
  }

  /** Every value some lookup but its own consults means the same as a query of its own. */
  ghost predicate AllAgree(g: Generation, ids: string -> string)
    requires Valid(g)
  {
    forall sym: string, v: string, b: nat :: IsBucket(b) && sym != v && Consults(g, ids, sym, v, b) ==>
      Value(g, v, b) == Find(g, v, b, ids(v))
  }

  /** Every cached answer is the uncached one. */
  ghost predicate Coherent(g: Generation, ids: string -> string, cache: Cache)
    requires Valid(g)
  {
    forall key <- cache :: IsBucket(key.1) && cache[key] == Find(g, key.0, key.1, ids(key.0))
  }

  /** Amid a lookup: its own key may hold what its symbol means as a value. */
  ghost predicate CoherentBut(g: Generation, ids: string -> string, cache: Cache, sym: string, bucket: nat)
    requires Valid(g)
  {
    && (forall key <- cache :: key != (sym, bucket) ==>
      IsBucket(key.1) && cache[key] == Find(g, key.0, key.1, ids(key.0)))
    && ((sym, bucket) in cache ==> cache[(sym, bucket)] == Value(g, sym, bucket))
  }

  lemma CachedSymTells(g: Generation, ids: string -> string, cache: Cache, sym: string, bucket: nat, part: string)
    requires Valid(g) && CoherentBut(g, ids, cache, sym, bucket) && IsBucket(bucket)
    requires part in g.desktop && g.desktop[part] != sym ==>
      var v := g.desktop[part]; Value(g, v, bucket) == Find(g, v, bucket, ids(v))
    ensures var (after, icon) := CachedSym(g, cache, part, bucket);
      CoherentBut(g, ids, after, sym, bucket) && icon == Sym(g, part, bucket)
  {
    hide Find, Value, IsBucket;
    if part in g.desktop {
      var v := g.desktop[part];
      assert (v, bucket).0 == v && (v, bucket).1 == bucket;
    }
  }

  lemma CachedFindTells(g: Generation, ids: string -> string, cache: Cache, sym: string, bucket: nat)
    requires Valid(g) && AllAgree(g, ids) && Coherent(g, ids, cache) && IsBucket(bucket)
    ensures var (after, icon) := CachedFind(g, cache, sym, bucket, ids(sym));
      Coherent(g, ids, after) && icon == Find(g, sym, bucket, ids(sym))
  {
    hide Value, CachedSym, Sym, Lower, FileIcon, IsBucket;
    var id := ids(sym);
    if (sym, bucket) in cache {
      assert (sym, bucket).0 == sym && (sym, bucket).1 == bucket;
    } else {
      if sym in g.desktop {
        assert Consults(g, ids, sym, g.desktop[sym], bucket);
      }
      CachedSymTells(g, ids, cache, sym, bucket, sym);
      var (first, icon) := CachedSym(g, cache, sym, bucket);
      if icon == None && id != "" && Lower(id) != sym {
        if Lower(id) in g.desktop {
          assert Consults(g, ids, sym, g.desktop[Lower(id)], bucket);
        }
        CachedSymTells(g, ids, first, sym, bucket, Lower(id));
      }
    }
  }

  /** Lookups, and reloads that start a generation with an empty cache. */
  datatype Event = Lookup(sym: string, bucket: nat) | Reload(next: Generation)

  ghost predicate Sound(events: seq<Event>, ids: string -> string) {
    forall e <- events ::
      (e.Lookup? ==> IsBucket(e.bucket)) && (e.Reload? ==> Valid(e.next) && AllAgree(e.next, ids))
  }

  /** The answers of a run through the cache. */
  ghost function Answers(g: Generation, cache: Cache, events: seq<Event>, ids: string -> string): seq<Option<Icon>>
    requires Valid(g) && forall e <- events :: e.Reload? ==> Valid(e.next)
    decreases |events|
  {
    if events == [] then [] else
      assert forall e <- events[1..] :: e in events;
      match events[0]
      case Lookup(sym, bucket) =>
        var (after, icon) := CachedFind(g, cache, sym, bucket, ids(sym));
        [icon] + Answers(g, after, events[1..], ids)
      case Reload(next) => assert events[0] in events; Answers(next, map[], events[1..], ids)
  }

  /** The answers the current generation itself would give. */
  ghost function Truths(g: Generation, events: seq<Event>, ids: string -> string): seq<Option<Icon>>
    requires Valid(g) && forall e <- events :: e.Reload? ==> Valid(e.next)
    decreases |events|
  {
    if events == [] then [] else
      assert forall e <- events[1..] :: e in events;
      match events[0]
      case Lookup(sym, bucket) => [Find(g, sym, bucket, ids(sym))] + Truths(g, events[1..], ids)
      case Reload(next) => assert events[0] in events; Truths(next, events[1..], ids)
  }

  lemma {:induction false} RunTells(g: Generation, cache: Cache, events: seq<Event>, ids: string -> string)
    requires Valid(g) && AllAgree(g, ids) && Coherent(g, ids, cache) && Sound(events, ids)
    ensures Answers(g, cache, events, ids) == Truths(g, events, ids)
    decreases |events|
  {
    hide Find, CachedFind, AllAgree, Coherent, IsBucket;
    if events != [] {
      assert events[0] in events && forall e <- events[1..] :: e in events;
      match events[0]
      case Lookup(sym, bucket) =>
        CachedFindTells(g, ids, cache, sym, bucket);
        RunTells(g, CachedFind(g, cache, sym, bucket, ids(sym)).0, events[1..], ids);
      case Reload(next) =>
        EmptyIsCoherent(next, ids);
        RunTells(next, map[], events[1..], ids);
    }
  }

  lemma EmptyIsCoherent(g: Generation, ids: string -> string)
    requires Valid(g)
    ensures Coherent(g, ids, map[])
  {
  }

  /** Where a value and a query of its own differ, looking up what consults the value makes the query wrong. */
  lemma DisagreementShows(g: Generation, ids: string -> string, sym: string, v: string, bucket: nat)
    requires Valid(g) && IsBucket(bucket) && sym != v && Consults(g, ids, sym, v, bucket)
    requires Value(g, v, bucket) != Find(g, v, bucket, ids(v))
    ensures var run := [Lookup(sym, bucket), Lookup(v, bucket)];
      Answers(g, map[], run, ids) != Truths(g, run, ids)
  {
    hide Find, Value, Lower, FileIcon, Consults;
    var second := [Lookup(v, bucket)];
    var run := [Lookup(sym, bucket), Lookup(v, bucket)];
    assert run[1..] == second && second[1..] == [];
    ValueIsKept(g, ids, sym, v, bucket);
    var after := CachedFind(g, map[], sym, bucket, ids(sym)).0;
    assert Answers(g, after, second, ids)[0] == Value(g, v, bucket);
    assert Truths(g, second, ids)[0] == Find(g, v, bucket, ids(v));
    assert Answers(g, map[], run, ids)[1] == Value(g, v, bucket);
    assert Truths(g, run, ids)[1] == Find(g, v, bucket, ids(v));
  }

  /** A lookup leaves the icon of a value it consults in the cache, under the value. */
  lemma ValueIsKept(g: Generation, ids: string -> string, sym: string, v: string, bucket: nat)
    requires Valid(g) && sym != v && Consults(g, ids, sym, v, bucket)
    ensures var after := CachedFind(g, map[], sym, bucket, ids(sym)).0;
      (v, bucket) in after && after[(v, bucket)] == Value(g, v, bucket)
  {
    hide Value, Lower, FileIcon, NameIcon;
    assert (v, bucket) != (sym, bucket);
  }

  /** The cache tells the truth over every run of lookups exactly if all values consulted from elsewhere agree. */
  lemma TruthfulIffAgree(g: Generation, ids: string -> string)
    requires Valid(g)
    ensures AllAgree(g, ids) <==>
      forall events: seq<Event> :: (forall e <- events :: e.Lookup? && IsBucket(e.bucket)) ==>
        Answers(g, map[], events, ids) == Truths(g, events, ids)
  {
    hide Answers, Truths, Find, Value, IsBucket, Consults;
    EmptyIsCoherent(g, ids);
    if AllAgree(g, ids) {
      forall events: seq<Event> | forall e <- events :: e.Lookup? && IsBucket(e.bucket)
        ensures Answers(g, map[], events, ids) == Truths(g, events, ids)
      {
        RunTells(g, map[], events, ids);
      }
    } else {
      var sym: string, v: string, b: nat :| IsBucket(b) && sym != v && Consults(g, ids, sym, v, b)
        && Value(g, v, b) != Find(g, v, b, ids(v));
      DisagreementShows(g, ids, sym, v, b);
      var run := [Lookup(sym, b), Lookup(v, b)];
      assert forall e <- run :: e.Lookup? && IsBucket(e.bucket);
    }
  }

  // ----- what makes a value agree -----

  /** A query's id, folded, leads to no index, and is no path. */
  predicate FoldsNowhere(g: Generation, sym: string, id: string) {
    id == "" || ((Lower(id) == sym || (Lower(id) !in g.desktop && Lower(id) !in g.names)) && !IsPath(id))
  }

  /**
   What can be told from the indexes: the value is no desktop id but that of an entry named by itself; a path is no name
   and is looked up by itself only; and any other value is looked up by an id that leads nowhere else.
  */
  ghost predicate Plain(g: Generation, ids: string -> string, v: string) {
    && (v in g.desktop ==> g.desktop[v] == v)
    && (if IsPath(v) then
          v !in g.names && ids(v) == v && Lower(v) !in g.names && (Lower(v) == v || Lower(v) !in g.desktop)
        else FoldsNowhere(g, v, ids(v)))
  }

  lemma PlainAgrees(g: Generation, ids: string -> string, v: string)
    requires Valid(g) && v != "" && Plain(g, ids, v)
    ensures Agrees(g, ids, v)
  {
    hide Lower, FileIcon, NameIcon;
  }

  const FOX := Entry([Source("/fox.png", 48)], None)

  function FoxDen(f: Files): Generation {
    Generation(map["firefox" := "fox", "launcher" := "Firefox"], map["fox" := FOX], f)
  }

  lemma FoxDenIsValid(f: Files)
    ensures Valid(FoxDen(f)) && forall d <- FoxDen(f).desktop :: FoxDen(f).desktop[d] !in FoxDen(f).desktop
    ensures Sym(FoxDen(f), "Firefox", 32) == None == Value(FoxDen(f), "Firefox", 32)
    ensures Sym(FoxDen(f), "firefox", 32) == f.png("/fox.png")
  {
    assert FOX.pngs[..0] == [];
  }

  /** In a generation of plain values the cache tells the truth. */
  lemma PlainIsTruthful(g: Generation, ids: string -> string)
    requires Valid(g) && forall d <- g.desktop :: Plain(g, ids, g.desktop[d])
    ensures AllAgree(g, ids)
  {
    hide Find, Value, Plain, IsBucket;
    forall sym: string, v: string, b: nat | IsBucket(b) && sym != v && Consults(g, ids, sym, v, b)
      ensures Value(g, v, b) == Find(g, v, b, ids(v))
    {
      PlainAgrees(g, ids, v);
    }
  }

  /** No value is a desktop id, and still the cache may lie: an unresolved value that folds to a desktop id. */
  lemma FoldingValueLies(f: Files)
    requires f.png("/fox.png").Some?
    ensures var run := [Lookup("launcher", 32), Lookup("Firefox", 32)];
      && Valid(FoxDen(f)) && (forall d <- FoxDen(f).desktop :: FoxDen(f).desktop[d] !in FoxDen(f).desktop)
      && Answers(FoxDen(f), map[], run, s => s) != Truths(FoxDen(f), run, s => s)
  {
    hide Sym, Value, Answers, Truths, Valid, Lower;
    FoxDenIsValid(f);
    FoxFolds();
    assert FoxDen(f).desktop["launcher"] == "Firefox";
    DisagreementShows(FoxDen(f), (s: string) => s, "launcher", "Firefox", 32);
  }

  lemma FoxFolds()
    ensures Lower("Firefox") == "firefox"
  {
    assert "Firefox"[1..] == "irefox" && "irefox"[1..] == "refox" && "refox"[1..] == "efox" && "efox"[1..] == "fox";
    assert "fox"[1..] == "ox" && "ox"[1..] == "x" && "x"[1..] == "";
    assert Lower("x") == "x";
    assert Lower("ox") == "ox";
    assert Lower("fox") == "fox";
    assert Lower("efox") == "efox";
    assert Lower("refox") == "refox";
    assert Lower("irefox") == "irefox";
  }
}
