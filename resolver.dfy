/** What the resolver answers for one pixel, stated as functions of the palette: the
    transparency override, the first nearest opaque entry under squared Euclidean
    distance, and their combination. */
module Resolver {
  import opened Wrappers
  import opened Hex
  import opened Palette

  /** Squared Euclidean distance between two triples; zero exactly for equal triples. */
  function SqDist(c: Rgb, d: Rgb): (n: int)
    ensures n >= 0
    ensures n == 0 <==> c == d
  {
    var dr, dg, db := c.r - d.r, c.g - d.g, c.b - d.b;
    SquareSumZero(dr, dg, db);
    dr * dr + dg * dg + db * db
  }

  lemma SquareSumZero(x: int, y: int, z: int)
    ensures x * x >= 0 && y * y >= 0 && z * z >= 0
    ensures x * x + y * y + z * z == 0 <==> x == 0 && y == 0 && z == 0
  {
    if x != 0 { assert x * x > 0 by { SquarePositive(x); } }
    if y != 0 { assert y * y > 0 by { SquarePositive(y); } }
    if z != 0 { assert z * z > 0 by { SquarePositive(z); } }
  }

  lemma SquarePositive(x: int)
    requires x != 0
    ensures x * x > 0
  {
    if x > 0 {
      assert x * x >= x;
    } else {
      assert (-x) * (-x) >= -x;
    }
  }

  /** The distance from a pixel's triple to an opaque entry's colour. */
  function Dist(e: Entry, c: Rgb): int
    requires IsOpaque(e) && IsColor(e.color)
  {
    SqDist(c, EntryRgb(e))
  }

  /** `k` is the first opaque entry of `p[..n]` at minimal distance from `c`: every
      opaque entry before it is strictly farther, every one after it is no closer. */
  predicate IsFirstNearest(p: seq<Entry>, n: nat, c: Rgb, k: nat)
    requires WellFormed(p) && n <= |p|
  {
    k < n && IsOpaque(p[k]) &&
    (forall j | 0 <= j < k && IsOpaque(p[j]) :: Dist(p[j], c) > Dist(p[k], c)) &&
    (forall j | k < j < n && IsOpaque(p[j]) :: Dist(p[j], c) >= Dist(p[k], c))
  }

  /** The scan over `p[..n]`: non-opaque entries are skipped, and a later entry replaces
      the best one so far only when it is strictly closer. `None` plays the part of the
      initial "no candidate, infinite distance". */
  function NearestIndex(p: seq<Entry>, n: nat, c: Rgb): (k: Option<nat>)
    requires WellFormed(p) && n <= |p|
    ensures k.Some? ==> k.value < n && IsOpaque(p[k.value])
    decreases n
  {
    if n == 0 then None
    else
      var best := NearestIndex(p, n - 1, c);
      if !IsOpaque(p[n - 1]) then best
      else if best.None? || Dist(p[n - 1], c) < Dist(p[best.value], c) then Some(n - 1)
      else best
  }

  /** The scan finds nothing exactly when the prefix has no opaque entry, and otherwise
      finds the first nearest opaque entry. */
  lemma {:induction false} NearestIndexSpec(p: seq<Entry>, n: nat, c: Rgb)
    requires WellFormed(p) && n <= |p|
    ensures NearestIndex(p, n, c).None? <==> forall j | 0 <= j < n :: !IsOpaque(p[j])
    ensures NearestIndex(p, n, c).Some? ==> IsFirstNearest(p, n, c, NearestIndex(p, n, c).value)
  {
    if n > 0 {
      NearestIndexSpec(p, n - 1, c);
      var best := NearestIndex(p, n - 1, c);
      if !IsOpaque(p[n - 1]) {
        assert NearestIndex(p, n, c) == best;
        if best.Some? {
          SkipKeepsNearest(p, n, c, best.value);
        }
      } else if best.None? {
        assert NearestIndex(p, n, c) == Some(n - 1);
        FirstOpaqueIsNearest(p, n, c);
      } else if Dist(p[n - 1], c) < Dist(p[best.value], c) {
        assert NearestIndex(p, n, c) == Some(n - 1);
        CloserTakesOver(p, n, c, best.value);
      } else {
        assert NearestIndex(p, n, c) == best;
        FartherKeepsNearest(p, n, c, best.value);
      }
    }
  }

  // One step of the scan per case, each in a proof of its own.

  lemma SkipKeepsNearest(p: seq<Entry>, n: nat, c: Rgb, k: nat)
    requires WellFormed(p) && 0 < n <= |p| && !IsOpaque(p[n - 1]) && IsFirstNearest(p, n - 1, c, k)
    ensures IsFirstNearest(p, n, c, k)
  {
  }

  lemma FirstOpaqueIsNearest(p: seq<Entry>, n: nat, c: Rgb)
    requires WellFormed(p) && 0 < n <= |p| && IsOpaque(p[n - 1])
    requires forall j | 0 <= j < n - 1 :: !IsOpaque(p[j])
    ensures IsFirstNearest(p, n, c, n - 1)
  {
  }

  lemma CloserTakesOver(p: seq<Entry>, n: nat, c: Rgb, k: nat)
    requires WellFormed(p) && 0 < n <= |p| && IsOpaque(p[n - 1]) && IsFirstNearest(p, n - 1, c, k)
    requires Dist(p[n - 1], c) < Dist(p[k], c)
    ensures IsFirstNearest(p, n, c, n - 1)
  {
    forall j | 0 <= j < n - 1 && IsOpaque(p[j]) ensures Dist(p[j], c) > Dist(p[n - 1], c) {
      assert Dist(p[j], c) >= Dist(p[k], c);
    }
  }

  lemma FartherKeepsNearest(p: seq<Entry>, n: nat, c: Rgb, k: nat)
    requires WellFormed(p) && 0 < n <= |p| && IsOpaque(p[n - 1]) && IsFirstNearest(p, n - 1, c, k)
    requires Dist(p[n - 1], c) >= Dist(p[k], c)
    ensures IsFirstNearest(p, n, c, k)
  {
  }

  /** The entry the nearest search returns for `c`, or `None` when no entry is opaque. */
  function Nearest(p: seq<Entry>, c: Rgb): (e: Option<Entry>)
    requires WellFormed(p)
    ensures e.Some? ==> IsOpaque(e.value) && e.value in p
  {
    match NearestIndex(p, |p|, c)
    case None => None
    case Some(k) => Some(p[k])
  }

  /** The search returns the first opaque entry that minimises the distance; it returns
      nothing only for a palette without opaque entries. */
  lemma NearestIsMinimal(p: seq<Entry>, c: Rgb)
    requires WellFormed(p)
    ensures Nearest(p, c).None? <==> forall j | 0 <= j < |p| :: !IsOpaque(p[j])
    ensures Nearest(p, c).Some? ==>
              exists k | 0 <= k < |p| :: IsFirstNearest(p, |p|, c, k) && Nearest(p, c) == Some(p[k])
  {
    NearestIndexSpec(p, |p|, c);
  }

  /** An exact match wins: when `p[k]` is the first opaque entry whose colour decodes to
      `c`, the search returns index `k`. */
  lemma NearestExact(p: seq<Entry>, c: Rgb, k: nat)
    requires WellFormed(p) && k < |p| && IsOpaque(p[k]) && EntryRgb(p[k]) == c
    requires forall j | 0 <= j < k && IsOpaque(p[j]) :: EntryRgb(p[j]) != c
    ensures NearestIndex(p, |p|, c) == Some(k)
    ensures Nearest(p, c) == Some(p[k])
  {
    NearestIndexSpec(p, |p|, c);
    assert Dist(p[k], c) == 0;
  }

  /** The entry a transparent pixel is drawn with, when the pixel's alpha is below 128:
      the first white entry under the white policy, the first `#RRGGBB00` marker otherwise. */
  function Override(p: seq<Entry>, asWhite: bool, a: int): (e: Option<Entry>)
    ensures e.Some? ==> a < 128 && e.value in p
    ensures e.Some? && asWhite ==> IsWhite(e.value)
    ensures e.Some? && !asWhite ==> IsTransparentMarker(e.value)
    ensures e.Some? ==>
              exists k | 0 <= k < |p| ::
                e.value == p[k] &&
                forall j | 0 <= j < k :: !(if asWhite then IsWhite(p[j]) else IsTransparentMarker(p[j]))
    ensures a < 128 && asWhite && (exists j | 0 <= j < |p| :: IsWhite(p[j])) ==> e.Some?
    ensures a < 128 && !asWhite && (exists j | 0 <= j < |p| :: IsTransparentMarker(p[j])) ==> e.Some?
  {
    if a >= 128 then None
    else
      var k := FindFirst(p, if asWhite then IsWhite else IsTransparentMarker);
      if k.Some? then Some(p[k.value]) else None
  }

  /** What the resolver answers for a pixel `(c, a)` when every cached answer is right:
      the override if there is one, and the nearest opaque entry otherwise. */
  function Resolve(p: seq<Entry>, asWhite: bool, c: Rgb, a: int): (e: Option<Entry>)
    requires WellFormed(p)
    ensures e.Some? ==> e.value in p
  {
    var o := Override(p, asWhite, a);
    if o.Some? then o else Nearest(p, c)
  }

  /** Pixels with alpha 128 or more are matched by colour alone. */
  lemma ResolveOpaquePixel(p: seq<Entry>, asWhite: bool, c: Rgb, a: int)
    requires WellFormed(p) && a >= 128
    ensures Resolve(p, asWhite, c, a) == Nearest(p, c)
  {
  }

  /** Under the white policy a transparent pixel gets the first white entry, whatever its colour. */
  lemma ResolveTransparentWhite(p: seq<Entry>, c: Rgb, a: int, k: nat)
    requires WellFormed(p) && a < 128
    requires k < |p| && IsWhite(p[k]) && forall j | 0 <= j < k :: !IsWhite(p[j])
    ensures Resolve(p, true, c, a) == Some(p[k])
  {
    FindFirstAt(p, IsWhite, k);
  }

  /** Under the marker policy a transparent pixel gets the first `#RRGGBB00` entry,
      whatever its colour. */
  lemma ResolveTransparentMarker(p: seq<Entry>, c: Rgb, a: int, k: nat)
    requires WellFormed(p) && a < 128
    requires k < |p| && IsTransparentMarker(p[k]) && forall j | 0 <= j < k :: !IsTransparentMarker(p[j])
    ensures Resolve(p, false, c, a) == Some(p[k])
  {
    FindFirstAt(p, IsTransparentMarker, k);
  }

  /** A transparent pixel for which the palette has no override target falls through to
      the colour search, with the alpha ignored. */
  lemma ResolveFallThrough(p: seq<Entry>, asWhite: bool, c: Rgb, a: int)
    requires WellFormed(p)
    requires asWhite ==> forall j | 0 <= j < |p| :: !IsWhite(p[j])
    requires !asWhite ==> forall j | 0 <= j < |p| :: !IsTransparentMarker(p[j])
    ensures Resolve(p, asWhite, c, a) == Nearest(p, c)
  {
    var want := if asWhite then IsWhite else IsTransparentMarker;
    assert FindFirst(p, want).None?;
  }

  /** The resolver finds nothing exactly when there is no override and no opaque entry. */
  lemma ResolveNone(p: seq<Entry>, asWhite: bool, c: Rgb, a: int)
    requires WellFormed(p)
    ensures Resolve(p, asWhite, c, a).None? <==>
              Override(p, asWhite, a).None? && forall j | 0 <= j < |p| :: !IsOpaque(p[j])
  {
    NearestIsMinimal(p, c);
  }

  /** Every cached answer is what the search would return for its key. */
  predicate CacheAgrees(p: seq<Entry>, cache: map<Rgb, Entry>)
    requires WellFormed(p)
  {
    forall k | k in cache :: Nearest(p, k) == Some(cache[k])
  }

  /** The loop of the search: entries are visited in order, and the running best is
      replaced only by a strictly closer opaque entry. */
  method SearchNearest(p: seq<Entry>, c: Rgb) returns (closest: Option<Entry>)
    requires WellFormed(p)
    ensures closest == Nearest(p, c)
  {
    closest := None;
    var minDistance: Option<int> := None;
    ghost var best: Option<nat> := None;
    var i := 0;
    while i < |p|
      invariant 0 <= i <= |p|
      invariant best == NearestIndex(p, i, c)
      invariant best.None? ==> closest.None? && minDistance.None?
      invariant best.Some? ==> closest == Some(p[best.value]) && minDistance == Some(Dist(p[best.value], c))
    {
      var e := p[i];
      if IsOpaque(e) {
        var distance := SqDist(c, ColorRgb(e.color));
        if minDistance.None? || distance < minDistance.value {
          minDistance := Some(distance);
          closest := Some(e);
          best := Some(i);
        }
      }
      i := i + 1;
    }
  }

  /** With the shipped table and the white policy, every transparent pixel becomes the
      `-1` shade of snow, `#ffffff`. */
  lemma TableTransparentIsSnow(c: Rgb, a: int)
    requires a < 128
    ensures WellFormed(Table) && Resolve(Table, true, c, a) == Some(Entry("#ffffff", "snow.png", "-1"))
  {
    TableWellFormed();
    TableWhite();
    WhiteAt84();
  }

  /** The shipped table has no transparent marker, so under the other policy a transparent
      pixel is matched by its colour like any other. */
  lemma TableMarkerPolicyFallsThrough(c: Rgb, a: int)
    ensures WellFormed(Table) && Resolve(Table, false, c, a) == Nearest(Table, c)
  {
    TableWellFormed();
    ResolveFallThrough(Table, false, c, a);
  }

  /** Every pixel resolves to some entry of the shipped table. */
  lemma TableAlwaysResolves(asWhite: bool, c: Rgb, a: int)
    ensures WellFormed(Table) && Resolve(Table, asWhite, c, a).Some?
  {
    TableWellFormed();
    ResolveNone(Table, asWhite, c, a);
    assert IsOpaque(Table[0]);
  }
}
