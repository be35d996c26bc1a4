/** The icon store as the object it is: its indexes and its cache, filled lookup by lookup and dropped by a reload. */
module IconStore {
  import opened IconModel

  class Store {
    var desktop: map<string, string>
    var names: map<string, Entry>
    var files: Files
    var cache: Cache

    ghost function View(): Generation
      reads this
    {
      Generation(desktop, names, files)
    }

    /** A generation: its indexes, as built from what is installed, and an empty cache. */
    constructor (g: Generation)
      ensures View() == g && cache == map[]
    {
      desktop, names, files, cache := g.desktop, g.names, g.files, map[];
    }

    /** Whatever was cached, the answers from here on are those of the new generation. */
    method Reload(g: Generation, ghost ids: string -> string)
      requires Valid(g)
      modifies this
      ensures View() == g && Coherent(View(), ids, cache)
    {
      desktop, names, files, cache := g.desktop, g.names, g.files, map[];
    }

    /** The smallest png that covers the bucket; with none that does, the svg at that size; else the largest png. */
    method ResolveName(n: Entry, bucket: nat) returns (icon: Option<Icon>)
      requires Indexed(n)
      ensures icon == NameIcon(files, n, bucket)
      ensures (exists s <- n.pngs :: Covers(s, bucket)) ==>
        exists best <- n.pngs :: Covers(best, bucket) && icon == files.png(best.path)
          && forall s <- n.pngs :: Covers(s, bucket) ==> best.size <= s.size
      ensures (forall s <- n.pngs :: !Covers(s, bucket)) && n.svg.Some? ==> icon == files.svg(n.svg.value, bucket)
      ensures (forall s <- n.pngs :: !Covers(s, bucket)) && n.svg.None? ==>
        exists best <- n.pngs :: icon == files.png(best.path) && forall s <- n.pngs :: s.size <= best.size
    {
      var cover: Option<Source>, largest: Option<Source> := None, None;
      for i := 0 to |n.pngs|
        invariant cover == Cover(n.pngs[..i], bucket) && largest == Largest(n.pngs[..i])
      {
        var s := n.pngs[i];
        assert n.pngs[..i + 1][..i] == n.pngs[..i];
        if s.size >= bucket && (cover.None? || s.size < cover.value.size) {
          cover := Some(s);
        }
        if largest.None? || s.size > largest.value.size {
          largest := Some(s);
        }
      }
      assert n.pngs[..|n.pngs|] == n.pngs;
      CoverIsSmallest(n.pngs, bucket);
      LargestIsLargest(n.pngs);
      if cover.Some? {
        return files.png(cover.value.path);
      }
      if n.svg.Some? {
        return files.svg(n.svg.value, bucket);
      }
      return files.png(largest.value.path);
    }

    method ValueIcon(v: string, bucket: nat) returns (icon: Option<Icon>)
      requires Valid(View()) && v != ""
      modifies this`cache
      ensures (cache, icon) == CachedValue(View(), old(cache), v, bucket)
    {
      hide NameIcon;
      if (v, bucket) in cache {
        return cache[(v, bucket)];
      }
      icon := None;
      if v[0] == '/' {
        if EndsWith(v, ".svg") {
          icon := files.svg(v, bucket);
        } else if EndsWith(v, ".png") {
          icon := files.png(v);
        }
      } else if v in names {
        icon := ResolveName(names[v], bucket);
      }
      cache := cache[(v, bucket) := icon];
    }

    method ResolveSym(sym: string, bucket: nat) returns (icon: Option<Icon>)
      requires Valid(View())
      modifies this`cache
      ensures (cache, icon) == CachedSym(View(), old(cache), sym, bucket)
    {
      hide NameIcon, CachedValue;
      if sym in desktop {
        icon := ValueIcon(desktop[sym], bucket);
      } else if sym in names {
        icon := ResolveName(names[sym], bucket);
      } else {
        icon := None;
      }
    }

    /** With values that agree, and ids that go with their symbols, the answer is the uncached one, as are all kept. */
    method FindIcon(sym: string, desired: nat, id: string, ghost ids: string -> string)
      returns (icon: Option<Icon>, ghost bucket: nat)
      requires Valid(View())
      modifies this`cache
      ensures BucketFor(desired, bucket) && (cache, icon) == CachedFind(View(), old(cache), sym, bucket, id)
      ensures id == ids(sym) && AllAgree(View(), ids) && Coherent(View(), ids, old(cache)) ==>
        Coherent(View(), ids, cache) && icon == Find(View(), sym, bucket, id)
    {
      hide CachedSym, BucketFor, AllAgree, Coherent, Find, IsBucket;
      ghost var before := cache;
      var b := IconBucket(desired);
      bucket := b;
      assert IsBucket(b) by {
        BucketsAre(desired, b);
      }
      if id == ids(sym) && AllAgree(View(), ids) && Coherent(View(), ids, before) {
        CachedFindTells(View(), ids, before, sym, b);
      }
      if (sym, b) in cache {
        icon := cache[(sym, b)];
        return;
      }
      icon := ResolveSym(sym, b);
      if icon.None? && id != "" {
        var lsym := Lower(id);
        if lsym != sym {
          icon := ResolveSym(lsym, b);
        }
        if icon.None? && id[0] == '/' {
          if EndsWith(id, ".svg") {
            icon := files.svg(id, b);
          } else if EndsWith(id, ".png") {
            icon := files.png(id);
          }
        }
      }
      cache := cache[(sym, b) := icon];
    }
  }

  lemma BucketsAre(desired: nat, b: nat)
    requires BucketFor(desired, b)
    ensures IsBucket(b)
  {
  }
}
