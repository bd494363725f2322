/** The quantizing pass over an image: pixels are visited in row-major order in chunks of
    100, each pixel is resolved to a palette entry and drawn as a 32x32 tile, and the
    progress is reported after every chunk. */
module Pipeline {
  import opened Wrappers
  import opened Hex
  import opened Palette
  import opened Resolver
  import opened ColorMatcher

  /** Pixels handled per chunk. */
  const ChunkSize: nat := 100
  /** Side of the square drawn for one pixel. */
  const CellSize: nat := 32

  /** What is drawn for one resolved pixel: the square at `(left, top)` filled with the
      entry's colour and texture, and the entry's shade label when numbers are shown. */
  datatype Tile = Tile(left: int, top: int, entry: Entry, caption: Option<string>)

  /** Column and row of the pixel with row-major index `idx` in an image `w` wide. */
  function Column(idx: nat, w: nat): nat
    requires w > 0
  {
    idx % w
  }

  function Row(idx: nat, w: nat): nat
    requires w > 0
  {
    idx / w
  }

  /** The pixel index lies in the image exactly when its row does, and column and row
      give the index back. */
  lemma Decompose(idx: nat, w: nat, h: nat)
    requires w > 0 && idx < w * h
    ensures Column(idx, w) < w && Row(idx, w) < h
    ensures Row(idx, w) * w + Column(idx, w) == idx
  {
    if Row(idx, w) >= h {
      MulMono(h, Row(idx, w), w);
    }
  }

  lemma MulMono(a: nat, b: nat, w: nat)
    requires a <= b
    ensures a * w <= b * w
  {
  }

  /** Column and row of `y * w + x` are `x` and `y`: distinct pixels have distinct indices. */
  lemma Compose(x: nat, y: nat, w: nat)
    requires x < w
    ensures Column(y * w + x, w) == x && Row(y * w + x, w) == y
  {
    DivModUnique(y * w + x, w, y, x);
  }

  lemma DivModUnique(n: nat, w: nat, q: nat, r: nat)
    requires r < w && n == q * w + r
    ensures n / w == q && n % w == r
  {
    var q', r' := n / w, n % w;
    assert q' * w + r' == q * w + r;
    if q' < q {
      MulMono(q' + 1, q, w);
    } else if q < q' {
      MulMono(q + 1, q', w);
    }
  }

  /** The red, green, blue and alpha bytes of pixel `idx` in RGBA order. */
  function PixelRgb(data: seq<int>, idx: nat): Rgb
    requires 4 * idx + 3 < |data|
  {
    Rgb(data[4 * idx], data[4 * idx + 1], data[4 * idx + 2])
  }

  function PixelAlpha(data: seq<int>, idx: nat): int
    requires 4 * idx + 3 < |data|
  {
    data[4 * idx + 3]
  }

  /** The tile drawn for pixel `idx` when it resolved to `e`; nothing is drawn for `None`. */
  function TileFor(idx: nat, w: nat, e: Option<Entry>, showNumbers: bool): (t: Option<Tile>)
    requires w > 0
    ensures t.Some? <==> e.Some?
    ensures t.Some? ==> t.value.entry == e.value &&
                        t.value.left == CellSize * Column(idx, w) && t.value.top == CellSize * Row(idx, w)
    ensures t.Some? ==> (t.value.caption.Some? <==> showNumbers)
    ensures t.Some? && showNumbers ==> t.value.caption == Some(e.value.text)
  {
    match e
    case None => None
    case Some(entry) =>
      Some(Tile(Column(idx, w) * CellSize, Row(idx, w) * CellSize, entry,
                if showNumbers then Some(entry.text) else None))
  }

  /** The tile of pixel `idx` when every cached answer is right: the tile of the
      resolver's answer for the pixel's colour and alpha. */
  function PixelTile(p: seq<Entry>, asWhite: bool, data: seq<int>, w: nat, showNumbers: bool, idx: nat): Option<Tile>
    requires WellFormed(p) && w > 0 && 4 * idx + 3 < |data|
  {
    TileFor(idx, w, Resolve(p, asWhite, PixelRgb(data, idx), PixelAlpha(data, idx)), showNumbers)
  }

  /** The picture the pass draws when every cached answer is right, pixel by pixel. */
  function Mosaic(p: seq<Entry>, asWhite: bool, data: seq<int>, w: nat, h: nat, showNumbers: bool): (m: seq<Option<Tile>>)
    requires WellFormed(p) && w > 0 && |data| == 4 * (w * h)
    ensures |m| == w * h
  {
    seq(w * h, idx requires 0 <= idx < w * h =>
      PixelInData(idx, w, h);
      PixelTile(p, asWhite, data, w, showNumbers, idx))
  }

  /** Every pixel of the image has its tile in the mosaic, inside the canvas `32w x 32h`,
      and no two pixels' tiles overlap. */
  lemma MosaicCovers(p: seq<Entry>, asWhite: bool, data: seq<int>, w: nat, h: nat, showNumbers: bool, x: nat, y: nat)
    requires WellFormed(p) && w > 0 && |data| == 4 * (w * h) && x < w && y < h
    ensures y * w + x < w * h
    ensures var t := Mosaic(p, asWhite, data, w, h, showNumbers)[y * w + x];
            t.Some? ==> t.value.left == CellSize * x && t.value.top == CellSize * y &&
                        0 <= t.value.left && t.value.left + CellSize <= CellSize * w &&
                        0 <= t.value.top && t.value.top + CellSize <= CellSize * h
  {
    MulMono(y + 1, h, w);
    Compose(x, y, w);
  }

  /** Two different pixels are drawn on disjoint squares. */
  lemma TilesDisjoint(i: nat, j: nat, w: nat)
    requires w > 0 && i != j
    ensures CellSize * Column(i, w) + CellSize <= CellSize * Column(j, w) ||
            CellSize * Column(j, w) + CellSize <= CellSize * Column(i, w) ||
            CellSize * Row(i, w) + CellSize <= CellSize * Row(j, w) ||
            CellSize * Row(j, w) + CellSize <= CellSize * Row(i, w)
  {
  }

  /** The number of chunks for `total` pixels: `ceil(total / 100)`. */
  function NumChunks(total: nat): (n: nat)
    ensures ChunkSize * n >= total
    ensures n > 0 ==> ChunkSize * (n - 1) < total
  {
    (total + ChunkSize - 1) / ChunkSize
  }

  /** Pixels handled once `k` chunks are done. */
  function Done(k: nat, total: nat): (d: nat)
    ensures d <= total
  {
    if ChunkSize * k < total then ChunkSize * k else total
  }

  /** The progress reported after `done` of `total` pixels, as a whole percentage rounded down. */
  function Percent(done: nat, total: nat): (pc: int)
    requires 0 < total && done <= total
    ensures 0 <= pc <= 100
    ensures pc == 100 <==> done == total
  {
    PercentBound(done, total);
    100 * done / total
  }

  lemma PercentBound(done: nat, total: nat)
    requires 0 < total && done <= total
    ensures 0 <= 100 * done / total <= 100
    ensures 100 * done / total == 100 <==> done == total
  {
    if done == total {
      DivModUnique(100 * done, total, 100, 0);
    } else {
      DivBelow(100 * done, total, 100);
    }
  }

  lemma DivBelow(n: nat, d: nat, q: nat)
    requires d > 0 && n < q * d
    ensures n / d < q
  {
    if n / d >= q {
      MulMono(q, n / d, d);
    }
  }

  /** The values reported after each chunk, in order. */
  function ProgressTrace(total: nat): (t: seq<int>)
    ensures |t| == NumChunks(total)
  {
    seq(NumChunks(total), k requires 0 <= k < NumChunks(total) => Percent(Done(k + 1, total), total))
  }

  /** Progress stays within 0..100, never goes down, and reaches 100 at the last chunk
      and not before. */
  lemma ProgressTraceSpec(total: nat)
    ensures forall k | 0 <= k < |ProgressTrace(total)| :: 0 <= ProgressTrace(total)[k] <= 100
    ensures forall j, k | 0 <= j <= k < |ProgressTrace(total)| :: ProgressTrace(total)[j] <= ProgressTrace(total)[k]
    ensures total > 0 ==> |ProgressTrace(total)| > 0 && ProgressTrace(total)[|ProgressTrace(total)| - 1] == 100
    ensures forall k | 0 <= k < |ProgressTrace(total)| - 1 :: ProgressTrace(total)[k] < 100
  {
    var t := ProgressTrace(total);
    forall j, k | 0 <= j <= k < |t| ensures t[j] <= t[k] {
      PercentMono(Done(j + 1, total), Done(k + 1, total), total);
    }
  }

  lemma PercentMono(d1: nat, d2: nat, total: nat)
    requires 0 < total && d1 <= d2 <= total
    ensures Percent(d1, total) <= Percent(d2, total)
  {
    DivMono(100 * d1, 100 * d2, total);
  }

  lemma DivMono(a: nat, b: nat, d: nat)
    requires d > 0 && a <= b
    ensures a / d <= b / d
  {
    if a / d > b / d {
      MulMono(b / d + 1, a / d, d);
    }
  }

  /** The chunks cover every pixel once: pixel `idx` lies in chunk `idx / 100`, one of the
      `NumChunks(total)` chunks, between its start and its clamped end. */
  lemma ChunkCoverage(idx: nat, total: nat)
    requires idx < total
    ensures idx / ChunkSize < NumChunks(total)
    ensures ChunkSize * (idx / ChunkSize) <= idx < Done(idx / ChunkSize + 1, total)
  {
  }

  /** The values recorded so far are those reported after each of the first chunks. */
  predicate Reported(progress: seq<int>, total: nat)
  {
    forall k | 0 <= k < |progress| :: 0 < total && progress[k] == Percent(Done(k + 1, total), total)
  }

  /** Recording the value reported after the next chunk keeps the record. */
  lemma ReportedSnoc(progress: seq<int>, total: nat, pc: int)
    requires Reported(progress, total) && 0 < total
    requires pc == Percent(Done(|progress| + 1, total), total)
    ensures Reported(progress + [pc], total)
  {
  }

  /** A record of as many values as there are chunks is the whole trace. */
  lemma ReportedTrace(progress: seq<int>, total: nat)
    requires Reported(progress, total)
    requires ChunkSize * |progress| >= total
    requires |progress| > 0 ==> ChunkSize * (|progress| - 1) < total
    ensures progress == ProgressTrace(total)
  {
  }

  /** Every recorded tile sits on the square of its pixel. */
  predicate Placed(tiles: seq<Option<Tile>>, w: nat)
    requires w > 0
  {
    forall idx | 0 <= idx < |tiles| :: tiles[idx].Some? ==>
      tiles[idx].value.left == CellSize * Column(idx, w) && tiles[idx].value.top == CellSize * Row(idx, w)
  }

  /** Every recorded tile is the one the resolver's answer gives. */
  predicate Faithful(p: seq<Entry>, asWhite: bool, data: seq<int>, w: nat, showNumbers: bool, tiles: seq<Option<Tile>>)
    requires WellFormed(p) && w > 0 && 4 * |tiles| <= |data|
  {
    forall idx | 0 <= idx < |tiles| :: tiles[idx] == PixelTile(p, asWhite, data, w, showNumbers, idx)
  }

  /** Tile `i` sits on the square of pixel `lo + i`. */
  predicate PlacedFrom(ts: seq<Option<Tile>>, lo: nat, w: nat)
    requires w > 0
  {
    forall i | 0 <= i < |ts| :: ts[i].Some? ==>
      ts[i].value.left == CellSize * Column(lo + i, w) && ts[i].value.top == CellSize * Row(lo + i, w)
  }

  /** Tile `i` is the tile of the resolver's answer for pixel `lo + i`. */
  predicate ResolvedFrom(p: seq<Entry>, asWhite: bool, data: seq<int>, w: nat, showNumbers: bool,
                         ts: seq<Option<Tile>>, lo: nat)
    requires WellFormed(p) && w > 0 && 4 * (lo + |ts|) <= |data|
  {
    forall i | 0 <= i < |ts| :: ts[i] == PixelTile(p, asWhite, data, w, showNumbers, lo + i)
  }

  /** The tiles drawn for pixels `lo` up to `hi` and the cache after them, when the
      pixels are looked up in order starting from `cache`: each lookup sees the cache
      the previous ones left. */
  function Pass(p: seq<Entry>, asWhite: bool, cache: map<Rgb, Entry>, data: seq<int>, w: nat, showNumbers: bool,
                lo: nat, hi: nat): (r: (seq<Option<Tile>>, map<Rgb, Entry>))
    requires WellFormed(p) && w > 0 && lo <= hi && 4 * hi <= |data|
    ensures |r.0| == hi - lo
    decreases hi - lo
  {
    if hi == lo then ([], cache)
    else
      var before := Pass(p, asWhite, cache, data, w, showNumbers, lo, hi - 1);
      var l := LookupStep(p, asWhite, before.1, PixelRgb(data, hi - 1), PixelAlpha(data, hi - 1));
      (before.0 + [TileFor(hi - 1, w, l.result, showNumbers)], l.cache)
  }

  /** One more pixel: the pass up to `hi + 1` is the pass up to `hi` followed by one
      lookup of pixel `hi`. */
  lemma PassStep(p: seq<Entry>, asWhite: bool, cache: map<Rgb, Entry>, data: seq<int>, w: nat,
                 showNumbers: bool, lo: nat, hi: nat)
    requires WellFormed(p) && w > 0 && lo <= hi && 4 * (hi + 1) <= |data|
    ensures var before := Pass(p, asWhite, cache, data, w, showNumbers, lo, hi);
            var l := LookupStep(p, asWhite, before.1, PixelRgb(data, hi), PixelAlpha(data, hi));
            Pass(p, asWhite, cache, data, w, showNumbers, lo, hi + 1) == (before.0 + [TileFor(hi, w, l.result, showNumbers)], l.cache)
  {
  }

  /** The pass keeps every cached answer and adds only the triples of the pixels it
      looks up. */
  lemma {:induction false} PassGrows(p: seq<Entry>, asWhite: bool, cache: map<Rgb, Entry>, data: seq<int>, w: nat,
                                     showNumbers: bool, lo: nat, hi: nat)
    requires WellFormed(p) && w > 0 && lo <= hi && 4 * hi <= |data|
    ensures var after := Pass(p, asWhite, cache, data, w, showNumbers, lo, hi).1;
            Extends(cache, after) &&
            forall k | k in after && k !in cache :: exists idx | lo <= idx < hi :: PixelRgb(data, idx) == k
    decreases hi - lo
  {
    if hi > lo {
      PassGrows(p, asWhite, cache, data, w, showNumbers, lo, hi - 1);
    }
  }

  /** Looking up `lo..mid` and then `mid..hi` is looking up `lo..hi`. */
  lemma {:induction false} PassSplit(p: seq<Entry>, asWhite: bool, cache: map<Rgb, Entry>, data: seq<int>, w: nat,
                                     showNumbers: bool, lo: nat, mid: nat, hi: nat)
    requires WellFormed(p) && w > 0 && lo <= mid <= hi && 4 * hi <= |data|
    ensures var first := Pass(p, asWhite, cache, data, w, showNumbers, lo, mid);
            var second := Pass(p, asWhite, first.1, data, w, showNumbers, mid, hi);
            Pass(p, asWhite, cache, data, w, showNumbers, lo, hi) == (first.0 + second.0, second.1)
    decreases hi - mid
  {
    if hi > mid {
      PassSplit(p, asWhite, cache, data, w, showNumbers, lo, mid, hi - 1);
      var first := Pass(p, asWhite, cache, data, w, showNumbers, lo, mid);
      var second := Pass(p, asWhite, first.1, data, w, showNumbers, mid, hi - 1);
      var l := LookupStep(p, asWhite, second.1, PixelRgb(data, hi - 1), PixelAlpha(data, hi - 1));
      var t := TileFor(hi - 1, w, l.result, showNumbers);
      assert Pass(p, asWhite, first.1, data, w, showNumbers, mid, hi) == (second.0 + [t], l.cache);
      assert Pass(p, asWhite, cache, data, w, showNumbers, lo, hi) == ((first.0 + second.0) + [t], l.cache);
      assert (first.0 + second.0) + [t] == first.0 + (second.0 + [t]);
    } else {
      var first := Pass(p, asWhite, cache, data, w, showNumbers, lo, mid);
      assert first.0 + [] == first.0;
    }
  }

  /** The pass up to `|tiles|`, continued up to `end` from the cache it left, is the
      pass up to `end`. */
  lemma PassThen(p: seq<Entry>, asWhite: bool, cache: map<Rgb, Entry>, data: seq<int>, w: nat, showNumbers: bool,
                 tiles: seq<Option<Tile>>, mid: map<Rgb, Entry>, chunk: seq<Option<Tile>>, after: map<Rgb, Entry>, end: nat)
    requires WellFormed(p) && w > 0 && |tiles| <= end && 4 * end <= |data|
    requires (tiles, mid) == Pass(p, asWhite, cache, data, w, showNumbers, 0, |tiles|)
    requires (chunk, after) == Pass(p, asWhite, mid, data, w, showNumbers, |tiles|, end)
    ensures (tiles + chunk, after) == Pass(p, asWhite, cache, data, w, showNumbers, 0, end)
  {
    PassSplit(p, asWhite, cache, data, w, showNumbers, 0, |tiles|, end);
  }

  /** The tile of a lookup made with a cache whose answers are right is the tile of the
      resolver's answer. */
  lemma TileResolves(p: seq<Entry>, asWhite: bool, data: seq<int>, w: nat, showNumbers: bool,
                     before: map<Rgb, Entry>, k: nat, t: Option<Tile>)
    requires WellFormed(p) && w > 0 && 4 * k + 3 < |data| && CacheAgrees(p, before)
    requires t == TileFor(k, w, LookupStep(p, asWhite, before, PixelRgb(data, k), PixelAlpha(data, k)).result, showNumbers)
    ensures t == PixelTile(p, asWhite, data, w, showNumbers, k)
  {
    LookupCorrect(p, asWhite, before, PixelRgb(data, k), PixelAlpha(data, k));
  }

  /** One pixel: its four bytes are read at `4 * idx`, resolved through the matcher, and
      the answer, if any, is drawn on the pixel's square. */
  method DrawPixel(m: Matcher, data: seq<int>, w: nat, showNumbers: bool, idx: nat) returns (tile: Option<Tile>)
    requires WellFormed(m.palette) && w > 0 && 4 * idx + 3 < |data|
    modifies m
    ensures tile.Some? ==> tile.value.left == CellSize * Column(idx, w) && tile.value.top == CellSize * Row(idx, w)
    ensures var l := LookupStep(m.palette, m.transparentAsWhite, old(m.cache), PixelRgb(data, idx), PixelAlpha(data, idx));
            m.cache == l.cache && tile == TileFor(idx, w, l.result, showNumbers)
    ensures old(m.Consistent()) ==> m.Consistent() && tile == PixelTile(m.palette, m.transparentAsWhite, data, w, showNumbers, idx)
  {
    var i := idx * 4;
    var r, g, b, a := data[i], data[i + 1], data[i + 2], data[i + 3];
    assert Rgb(r, g, b) == PixelRgb(data, idx) && a == PixelAlpha(data, idx);
    var closest := m.FindClosest(r, g, b, a);
    tile := TileFor(idx, w, closest, showNumbers);
  }

  /** The loop of one chunk: pixels `start` up to `end` are resolved through the matcher
      in order, and their tiles collected. */
  method DrawRange(m: Matcher, data: seq<int>, w: nat, showNumbers: bool, start: nat, end: nat)
      returns (chunk: seq<Option<Tile>>)
    requires WellFormed(m.palette) && w > 0 && start <= end && 4 * end <= |data|
    modifies m
    ensures (chunk, m.cache) == Pass(m.palette, m.transparentAsWhite, old(m.cache), data, w, showNumbers, start, end)
  {
    chunk := [];
    var idx := start;
    while idx < end
      invariant start <= idx <= end
      invariant chunk == Pass(m.palette, m.transparentAsWhite, old(m.cache), data, w, showNumbers, start, idx).0
      invariant m.cache == Pass(m.palette, m.transparentAsWhite, old(m.cache), data, w, showNumbers, start, idx).1
    {
      PassStep(m.palette, m.transparentAsWhite, old(m.cache), data, w, showNumbers, start, idx);
      var tile := DrawPixel(m, data, w, showNumbers, idx);
      chunk := chunk + [tile];
      idx := idx + 1;
    }
  }

  /** What a pass has drawn from square `start` on: tiles on their squares and, when the
      cache it began with was right, a cache that is still right and the resolver's
      tiles. */
  predicate Drawn(p: seq<Entry>, asWhite: bool, data: seq<int>, w: nat, showNumbers: bool,
                  start: nat, chunk: seq<Option<Tile>>, after: map<Rgb, Entry>, agreed: bool)
    requires WellFormed(p) && w > 0 && 4 * (start + |chunk|) <= |data|
  {
    PlacedFrom(chunk, start, w) &&
    (agreed ==> CacheAgrees(p, after) && ResolvedFrom(p, asWhite, data, w, showNumbers, chunk, start))
  }

  /** The pass over `lo..hi` places its tiles, and, from a right cache, keeps it right and
      draws the resolver's tiles. */
  lemma {:induction false} PassDrawn(p: seq<Entry>, asWhite: bool, cache: map<Rgb, Entry>, data: seq<int>, w: nat,
                                     showNumbers: bool, lo: nat, hi: nat, agreed: bool)
    requires WellFormed(p) && w > 0 && lo <= hi && 4 * hi <= |data|
    requires agreed ==> CacheAgrees(p, cache)
    ensures var r := Pass(p, asWhite, cache, data, w, showNumbers, lo, hi);
            Drawn(p, asWhite, data, w, showNumbers, lo, r.0, r.1, agreed)
    decreases hi - lo
  {
    if hi > lo {
      PassDrawn(p, asWhite, cache, data, w, showNumbers, lo, hi - 1, agreed);
      var r := Pass(p, asWhite, cache, data, w, showNumbers, lo, hi - 1);
      var l := LookupStep(p, asWhite, r.1, PixelRgb(data, hi - 1), PixelAlpha(data, hi - 1));
      var t := TileFor(hi - 1, w, l.result, showNumbers);
      DrawnStep(p, asWhite, data, w, showNumbers, lo, hi - 1, r.0, r.1, agreed, t, l.cache);
    }
  }

  /** One pixel drawn with the lookup from the cache `before` keeps what was drawn. */
  lemma DrawnStep(p: seq<Entry>, asWhite: bool, data: seq<int>, w: nat, showNumbers: bool,
                  start: nat, idx: nat, chunk: seq<Option<Tile>>, before: map<Rgb, Entry>, agreed: bool,
                  tile: Option<Tile>, after: map<Rgb, Entry>)
    requires WellFormed(p) && w > 0 && idx == start + |chunk| && 4 * (idx + 1) <= |data|
    requires Drawn(p, asWhite, data, w, showNumbers, start, chunk, before, agreed)
    requires var l := LookupStep(p, asWhite, before, PixelRgb(data, idx), PixelAlpha(data, idx));
             after == l.cache && tile == TileFor(idx, w, l.result, showNumbers)
    ensures Drawn(p, asWhite, data, w, showNumbers, start, chunk + [tile], after, agreed)
  {
    SnocPlaced(chunk, tile, start, idx, w);
    if agreed {
      TileResolves(p, asWhite, data, w, showNumbers, before, idx, tile);
      LookupCorrect(p, asWhite, before, PixelRgb(data, idx), PixelAlpha(data, idx));
      SnocResolved(p, asWhite, data, w, showNumbers, chunk, tile, start, idx);
    }
  }

    /** Tiles placed from `lo` on, followed by one on the next square, are placed from `lo` on. */
  lemma SnocPlaced(ts: seq<Option<Tile>>, t: Option<Tile>, lo: nat, idx: nat, w: nat)
    requires w > 0 && PlacedFrom(ts, lo, w) && idx == lo + |ts|
    requires t.Some? ==> t.value.left == CellSize * Column(idx, w) && t.value.top == CellSize * Row(idx, w)
    ensures PlacedFrom(ts + [t], lo, w)
  {
  }

  /** Tiles of the resolver's answers from `lo` on, followed by the next pixel's, are
      still the resolver's answers from `lo` on. */
  lemma SnocResolved(p: seq<Entry>, asWhite: bool, data: seq<int>, w: nat, showNumbers: bool,
                     ts: seq<Option<Tile>>, t: Option<Tile>, lo: nat, idx: nat)
    requires WellFormed(p) && w > 0 && idx == lo + |ts| && 4 * idx + 3 < |data|
    requires ResolvedFrom(p, asWhite, data, w, showNumbers, ts, lo)
    requires t == PixelTile(p, asWhite, data, w, showNumbers, idx)
    ensures ResolvedFrom(p, asWhite, data, w, showNumbers, ts + [t], lo)
  {
  }

  /** One chunk: the pixels `start` up to `min(start + 100, total)` are resolved through
      the matcher in order and their tiles appended; then the processed count grows by
      the chunk's length and the progress percentage is computed from it. */
  method ProcessChunk(m: Matcher, data: seq<int>, w: nat, total: nat, showNumbers: bool,
                      tiles: seq<Option<Tile>>, start: nat, processed: nat)
      returns (next: seq<Option<Tile>>, processed': nat, progress: int)
    requires WellFormed(m.palette) && w > 0 && |data| == 4 * total
    requires |tiles| == start == processed < total
    modifies m
    ensures processed' == |next| == (if start + ChunkSize < total then start + ChunkSize else total)
    ensures next[..start] == tiles && next == tiles + next[start..]
    ensures progress == Percent(processed', total)
    ensures Placed(tiles, w) ==> Placed(next, w)
    ensures (next[start..], m.cache) == Pass(m.palette, m.transparentAsWhite, old(m.cache), data, w, showNumbers, start, processed')
    ensures Extends(old(m.cache), m.cache)
    ensures old(m.Consistent()) ==> m.Consistent()
    ensures old(m.Consistent()) && Faithful(m.palette, m.transparentAsWhite, data, w, showNumbers, tiles) ==>
              Faithful(m.palette, m.transparentAsWhite, data, w, showNumbers, next)
  {
    var end := if start + ChunkSize < total then start + ChunkSize else total;
    var chunk := DrawRange(m, data, w, showNumbers, start, end);
    PassDrawn(m.palette, m.transparentAsWhite, old(m.cache), data, w, showNumbers, start, end, old(m.Consistent()));
    next := tiles + chunk;
    assert next[..start] == tiles && next[start..] == chunk;
    ExtendPlaced(tiles, chunk, w);
    PassGrows(m.palette, m.transparentAsWhite, old(m.cache), data, w, showNumbers, start, end);
    if old(m.Consistent()) {
      ExtendFaithful(m.palette, m.transparentAsWhite, data, w, showNumbers, tiles, chunk);
    }
    processed' := processed + (end - start);
    progress := 100 * processed' / total;
  }

  /** The pass: the chunks in order, each starting 100 pixels after the previous one,
      with the progress value recorded after every chunk. */
  method Quantize(m: Matcher, data: seq<int>, w: nat, h: nat, showNumbers: bool)
      returns (tiles: seq<Option<Tile>>, progress: seq<int>)
    requires WellFormed(m.palette) && |data| == 4 * (w * h)
    modifies m
    ensures |tiles| == w * h
    ensures w > 0 ==> Placed(tiles, w)
    ensures progress == ProgressTrace(w * h)
    ensures Extends(old(m.cache), m.cache)
    ensures w > 0 ==> (tiles, m.cache) == Pass(m.palette, m.transparentAsWhite, old(m.cache), data, w, showNumbers, 0, w * h)
    ensures w == 0 ==> m.cache == old(m.cache)
    ensures old(m.Consistent()) ==> m.Consistent()
    ensures old(m.Consistent()) && w > 0 ==>
              tiles == Mosaic(m.palette, m.transparentAsWhite, data, w, h, showNumbers)
  {
    var total := w * h;
    tiles, progress := [], [];
    var processed := 0;
    var start := 0;
    while start < total
      invariant total > 0 ==> w > 0
      invariant start == ChunkSize * |progress|
      invariant processed == |tiles| == Done(|progress|, total)
      invariant |progress| > 0 ==> ChunkSize * (|progress| - 1) < total
      invariant Reported(progress, total)
      invariant total > 0 ==> var r := Pass(m.palette, m.transparentAsWhite, old(m.cache), data, w, showNumbers, 0, |tiles|);
                                tiles == r.0 && m.cache == r.1
      invariant total == 0 ==> m.cache == old(m.cache)
      invariant total > 0 ==> Placed(tiles, w)
      invariant Extends(old(m.cache), m.cache)
      invariant old(m.Consistent()) ==> m.Consistent()
      invariant old(m.Consistent()) && total > 0 ==> Faithful(m.palette, m.transparentAsWhite, data, w, showNumbers, tiles)
      decreases total - start
    {
      var pc;
      var next;
      ghost var mid := m.cache;
      next, processed, pc := ProcessChunk(m, data, w, total, showNumbers, tiles, start, processed);
      PassThen(m.palette, m.transparentAsWhite, old(m.cache), data, w, showNumbers, tiles, mid, next[start..], m.cache, processed);
      tiles := next;
      assert processed == Done(|progress| + 1, total);
      ReportedSnoc(progress, total, pc);
      progress := progress + [pc];
      start := start + ChunkSize;
    }
    ReportedTrace(progress, total);
    if old(m.Consistent()) && w > 0 {
      MosaicFaithful(m.palette, m.transparentAsWhite, data, w, h, showNumbers, tiles);
    }
  }

  /** Tiles on their squares, followed by a chunk placed from where they end, are on
      their squares. */
  lemma ExtendPlaced(tiles: seq<Option<Tile>>, chunk: seq<Option<Tile>>, w: nat)
    requires w > 0
    requires PlacedFrom(chunk, |tiles|, w)
    ensures Placed(tiles, w) ==> Placed(tiles + chunk, w)
  {
    if Placed(tiles, w) {
      forall idx | 0 <= idx < |tiles + chunk| && (tiles + chunk)[idx].Some?
        ensures (tiles + chunk)[idx].value.left == CellSize * Column(idx, w) &&
                (tiles + chunk)[idx].value.top == CellSize * Row(idx, w)
      {
        if idx >= |tiles| {
          assert (tiles + chunk)[idx] == chunk[idx - |tiles|];
        }
      }
    }
  }

  /** Tiles of the resolver's answers, followed by a chunk of the resolver's answers from
      where they end, are the resolver's answers. */
  lemma ExtendFaithful(p: seq<Entry>, asWhite: bool, data: seq<int>, w: nat, showNumbers: bool,
                       tiles: seq<Option<Tile>>, chunk: seq<Option<Tile>>)
    requires WellFormed(p) && w > 0 && 4 * (|tiles| + |chunk|) <= |data|
    requires ResolvedFrom(p, asWhite, data, w, showNumbers, chunk, |tiles|)
    ensures Faithful(p, asWhite, data, w, showNumbers, tiles) ==> Faithful(p, asWhite, data, w, showNumbers, tiles + chunk)
  {
    if Faithful(p, asWhite, data, w, showNumbers, tiles) {
      forall idx | 0 <= idx < |tiles + chunk|
        ensures (tiles + chunk)[idx] == PixelTile(p, asWhite, data, w, showNumbers, idx)
      {
        if idx >= |tiles| {
          assert (tiles + chunk)[idx] == chunk[idx - |tiles|];
        }
      }
    }
  }

  /** A faithful recording of every pixel is the mosaic. */
  lemma MosaicFaithful(p: seq<Entry>, asWhite: bool, data: seq<int>, w: nat, h: nat, showNumbers: bool,
                       tiles: seq<Option<Tile>>)
    requires WellFormed(p) && w > 0 && |data| == 4 * (w * h) && |tiles| == w * h
    requires Faithful(p, asWhite, data, w, showNumbers, tiles)
    ensures tiles == Mosaic(p, asWhite, data, w, h, showNumbers)
  {
  }

  lemma PixelInData(idx: nat, w: nat, h: nat)
    requires idx < w * h
    ensures w > 0 && 4 * idx + 3 < 4 * (w * h)
  {
  }
}
