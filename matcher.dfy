/** The colour matcher: the palette, the transparency policy and the memo table from
    pixel triples to palette entries, seeded from the palette's exact colours and
    extended by every search that finds an entry. */
module ColorMatcher {
  import opened Wrappers
  import opened Hex
  import opened Palette
  import opened Resolver

  /** The table the seeding loop has built after `p[..n]`: every opaque entry under its
      decoded triple; when two entries decode alike, the later one overwrites the earlier. */
  function SeedUpTo(p: seq<Entry>, n: nat): (m: map<Rgb, Entry>)
    requires WellFormed(p) && n <= |p|
    ensures forall k | k in m :: IsOpaque(m[k]) && IsColor(m[k].color) && EntryRgb(m[k]) == k
    decreases n
  {
    if n == 0 then map[]
    else if IsOpaque(p[n - 1]) then SeedUpTo(p, n - 1)[EntryRgb(p[n - 1]) := p[n - 1]]
    else SeedUpTo(p, n - 1)
  }

  /** The table after the whole palette. */
  function Seed(p: seq<Entry>): map<Rgb, Entry>
    requires WellFormed(p)
  {
    SeedUpTo(p, |p|)
  }

  /** The seeded keys are exactly the triples of the opaque entries of `p[..n]`. */
  lemma {:induction false} SeedKeys(p: seq<Entry>, n: nat)
    requires WellFormed(p) && n <= |p|
    ensures forall k :: k in SeedUpTo(p, n) <==> exists i | 0 <= i < n :: IsOpaque(p[i]) && EntryRgb(p[i]) == k
  {
    if n > 0 {
      SeedKeys(p, n - 1);
    }
  }

  /** Each seeded key holds the last opaque entry of `p[..n]` that decodes to it. */
  lemma {:induction false} SeedLast(p: seq<Entry>, n: nat)
    requires WellFormed(p) && n <= |p|
    ensures forall i | 0 <= i < n && IsOpaque(p[i]) ::
              (forall j | i < j < n && IsOpaque(p[j]) :: EntryRgb(p[j]) != EntryRgb(p[i])) ==>
                EntryRgb(p[i]) in SeedUpTo(p, n) && SeedUpTo(p, n)[EntryRgb(p[i])] == p[i]
  {
    if n > 0 {
      SeedLast(p, n - 1);
    }
  }

  /** When no two opaque entries decode alike, every seeded answer is the one the
      search would give. */
  lemma SeedAgrees(p: seq<Entry>)
    requires WellFormed(p) && DistinctRgbs(p)
    ensures CacheAgrees(p, Seed(p))
  {
    SeedKeys(p, |p|);
    SeedLast(p, |p|);
    forall k | k in Seed(p) ensures Nearest(p, k) == Some(Seed(p)[k]) {
      var i :| 0 <= i < |p| && IsOpaque(p[i]) && EntryRgb(p[i]) == k;
      NearestExact(p, k, i);
    }
  }

  /** Storing into a table laid over another is storing into the upper table. */
  lemma OverlayUpdate(m1: map<Rgb, Entry>, m2: map<Rgb, Entry>, k: Rgb, e: Entry)
    ensures (m1 + m2)[k := e] == m1 + m2[k := e]
  {
  }

  /** Two tables that agree with the search still do when one is laid over the other. */
  lemma UnionAgrees(p: seq<Entry>, m1: map<Rgb, Entry>, m2: map<Rgb, Entry>)
    requires WellFormed(p) && CacheAgrees(p, m1) && CacheAgrees(p, m2)
    ensures CacheAgrees(p, m1 + m2)
  {
  }

  /** Without distinct colours the seeded table can disagree with the search: for two
      entries spelling the same colour the table keeps the second, the search the first. */
  lemma SeedDuplicateDisagrees()
    ensures var p := [Entry("#000000", "a.png", "0"), Entry("#000000", "b.png", "1")];
            WellFormed(p) && Seed(p)[Rgb(0, 0, 0)] == p[1] && Nearest(p, Rgb(0, 0, 0)) == Some(p[0])
  {
    var p := [Entry("#000000", "a.png", "0"), Entry("#000000", "b.png", "1")];
    assert IsColor(p[0].color) && IsColor(p[1].color);
    assert EntryRgb(p[0]) == Rgb(0, 0, 0) == EntryRgb(p[1]);
    SeedLast(p, 2);
    NearestExact(p, Rgb(0, 0, 0), 0);
  }

  /** The shipped table decodes to 88 distinct triples, so its seeded cache agrees with
      the search. */
  lemma TableSeedAgrees()
    ensures WellFormed(Table) && CacheAgrees(Table, Seed(Table))
  {
    TableDistinct();
    SeedAgrees(Table);
  }

  /** `after` keeps every answer `before` holds, and possibly more. */
  predicate Extends(before: map<Rgb, Entry>, after: map<Rgb, Entry>) {
    before.Keys <= after.Keys && forall k | k in before :: after[k] == before[k]
  }

  /** One call of the resolver as a function of the cache before it: the answer and the
      cache after it. */
  datatype Lookup = Lookup(result: Option<Entry>, cache: map<Rgb, Entry>)

  function LookupStep(p: seq<Entry>, asWhite: bool, cache: map<Rgb, Entry>, c: Rgb, a: int): (l: Lookup)
    requires WellFormed(p)
    ensures Extends(cache, l.cache)
    ensures l.result.None? ==> l.cache == cache
    ensures l.cache.Keys <= cache.Keys + {c}
    ensures Override(p, asWhite, a).Some? || c in cache ==> l.cache == cache
    ensures Override(p, asWhite, a).None? && c !in cache && l.result.Some? ==> l.cache == cache[c := l.result.value]
  {
    var o := Override(p, asWhite, a);
    if o.Some? then Lookup(o, cache)
    else if c in cache then Lookup(Some(cache[c]), cache)
    else
      var n := Nearest(p, c);
      if n.Some? then Lookup(n, cache[c := n.value]) else Lookup(None, cache)
  }

  /** A cache that agrees with the search stays so, and the answer is then the resolver's. */
  lemma LookupCorrect(p: seq<Entry>, asWhite: bool, cache: map<Rgb, Entry>, c: Rgb, a: int)
    requires WellFormed(p) && CacheAgrees(p, cache)
    ensures CacheAgrees(p, LookupStep(p, asWhite, cache, c, a).cache)
    ensures LookupStep(p, asWhite, cache, c, a).result == Resolve(p, asWhite, c, a)
  {
  }

  /** Asking again for the same pixel gives the same answer and leaves the cache alone. */
  lemma LookupRepeat(p: seq<Entry>, asWhite: bool, cache: map<Rgb, Entry>, c: Rgb, a: int)
    requires WellFormed(p)
    ensures var l := LookupStep(p, asWhite, cache, c, a);
            LookupStep(p, asWhite, l.cache, c, a) == l
  {
  }

  /** Once a triple is cached, every later pixel of that colour is answered from the
      cache, whatever its alpha, unless it is overridden as transparent. */
  lemma LookupHit(p: seq<Entry>, asWhite: bool, cache: map<Rgb, Entry>, c: Rgb, a: int)
    requires WellFormed(p) && c in cache && Override(p, asWhite, a).None?
    ensures LookupStep(p, asWhite, cache, c, a) == Lookup(Some(cache[c]), cache)
  {
  }

  class Matcher {
    const palette: seq<Entry>
    /** Transparent pixels become the white entry when set, a transparent marker otherwise. */
    const transparentAsWhite: bool
    var cache: map<Rgb, Entry>

    /** Every cached answer is the one the search would give. */
    predicate Consistent()
      reads this
    {
      WellFormed(palette) && CacheAgrees(palette, cache)
    }

    constructor (p: seq<Entry>, asWhite: bool)
      requires WellFormed(p)
      ensures palette == p && transparentAsWhite == asWhite && cache == map[]
      ensures Consistent()
    {
      palette := p;
      transparentAsWhite := asWhite;
      cache := map[];
    }

    /** The start-up loop: every opaque entry is stored under its decoded triple. */
    method SeedCache()
      requires WellFormed(palette)
      modifies this
      ensures cache == old(cache) + Seed(palette)
      ensures old(Consistent()) && DistinctRgbs(palette) ==> Consistent()
    {
      var i := 0;
      while i < |palette|
        invariant 0 <= i <= |palette|
        invariant cache == old(cache) + SeedUpTo(palette, i)
      {
        var item := palette[i];
        if |item.color| <= 7 {
          var key := ColorRgb(item.color);
          OverlayUpdate(old(cache), SeedUpTo(palette, i), key, item);
          cache := cache[key := item];
        }
        i := i + 1;
      }
      if old(Consistent()) && DistinctRgbs(palette) {
        SeedAgrees(palette);
        UnionAgrees(palette, old(cache), Seed(palette));
      }
    }

    /** The resolver for one pixel: the transparency override first, then the cache, then
        the search, whose answer is cached when there is one. */
    method FindClosest(r: int, g: int, b: int, a: int) returns (res: Option<Entry>)
      requires WellFormed(palette)
      modifies this
      ensures Lookup(res, cache) == LookupStep(palette, transparentAsWhite, old(cache), Rgb(r, g, b), a)
      ensures old(Consistent()) ==> Consistent() && res == Resolve(palette, transparentAsWhite, Rgb(r, g, b), a)
    {
      if a < 128 {
        var k := FindFirst(palette, if transparentAsWhite then IsWhite else IsTransparentMarker);
        if k.Some? {
          return Some(palette[k.value]);
        }
      }
      var key := Rgb(r, g, b);
      if key in cache {
        return Some(cache[key]);
      }
      res := SearchNearest(palette, key);
      if res.Some? {
        cache := cache[key := res.value];
      }
      if old(Consistent()) {
        LookupCorrect(palette, transparentAsWhite, old(cache), key, a);
      }
    }
  }

  /** The page's start-up: a matcher over the shipped table with transparent pixels drawn
      white, its cache seeded from the table, and every cached answer the search's. */
  method StartUp() returns (m: Matcher)
    ensures fresh(m) && m.palette == Table && m.transparentAsWhite && m.Consistent()
    ensures m.cache == Seed(Table)
  {
    TableDistinct();
    m := new Matcher(Table, true);
    m.SeedCache();
  }
}
