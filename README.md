# Palette mosaic quantizer

A Dafny model of the image-to-palette quantizer of a block-art web page
(`app/page.tsx`). The page turns each pixel of an uploaded image into one of 88
palette entries (22 materials with four shades each) and draws a 32x32 tile per
pixel, then draws a grid over the tiles. The model covers the following:

- **The palette** (`palette.dfy`, module `Palette`). The 88 entries are given as
  colour string, texture and shade label. Lemmas prove that the palette is
  well-formed, that its 88 colours decode to 88 different triples, and that the
  white entry is where the resolver looks for it.
- **Colour strings** (`hex.dfy`, module `Hex`). A `#RRGGBB` string decodes to an
  RGB triple, as the page does with base-16 `parseInt`. The page has no encoder;
  one is added to the model as the partner of the decoder, with round-trip lemmas.
- **The resolver** (`resolver.dfy`, module `Resolver`). This is what
  `findClosestColor` answers for one pixel:
  - a transparency override for alpha below 128: the white entry, or a
    `#RRGGBB00` marker under the other policy;
  - otherwise the first opaque entry at minimal squared distance, where a later
    entry wins only when it is strictly closer.
  It also holds the search loop, `SearchNearest`, proved against that function.
- **The matcher** (`matcher.dfy`, module `ColorMatcher`). A class holds the
  palette, the transparency policy and the colour cache. Its methods are the
  start-up loop that seeds the cache (`SeedCache`) and `FindClosest`. Each
  method's new state is tied to a pure function (`Seed`/`SeedUpTo`,
  `LookupStep`). Lemmas show that a cache in which every answer equals the
  search's answer stays so, and that the answers are then the resolver's.
  `StartUp` builds the page's matcher over the shipped palette, whose seeded
  cache is proved to agree with the search.
- **The pass** (`pipeline.dfy`, module `Pipeline`). This is `processImage`:
  - chunks of 100 pixels in row-major order, each pixel read from the RGBA
    buffer at `4 * idx`;
  - each pixel resolved through the matcher and drawn at `(32x, 32y)`;
  - a progress value reported after each chunk.
  It is proved against `Pass`, the fold of the matcher's lookups over the pixels
  in order (tiles and cache exactly), and against `Mosaic` (when the cache
  starts right) and `ProgressTrace`.
- **The grid** (`grid.dfy`, module `Grid`). These are the four line loops: thin
  lines every 32 units and heavy lines every 1024, proved against `Lines`.

The cache key of the page is the string `"r,g,b"`. Two keys are equal exactly when
the three numbers are, so the model keys the cache by the triple `Rgb(r, g, b)`.
`Number.MAX_VALUE`, the initial "best distance", is modelled as "no candidate yet"
(`None`): every real distance is smaller.

The page's code and a plain reading of its intent differ on how the cache is
seeded. The seeding loop at `app/page.tsx:170-178` assigns unconditionally, so
when two entries decode to the same triple the later entry is cached. The search
at lines 238-262 returns the earlier one. The model follows the code. The
property that a seeded answer agrees with the search is therefore proved only
under the hypothesis that no two opaque entries decode alike (`SeedAgrees`).
`SeedDuplicateDisagrees` exhibits the difference on a two-entry palette. The
shipped palette decodes to 88 different triples (`TableDistinct`), so the
hypothesis holds for it and the seeded cache of `StartUp` agrees with the search.

The transparency policy is a constructor parameter of `Matcher`. The page always
uses the white policy (`app/page.tsx:29`). The other branch is modelled as
written, and `TableMarkerPolicyFallsThrough` states what it does with the shipped
palette.

## Model

| member | source | states |
|---|---|---|
| Hex.DigitValue | app/page.tsx:173-175 | a hexadecimal digit, upper or lower case, is worth 0..15 |
| Hex.PairValue | app/page.tsx:173-175 | two hex digits read in base 16 give a byte whose high and low nibbles are the two digit values |
| Hex.ColorRgb | app/page.tsx:245-248 | a `#RRGGBB` colour decodes to three bytes, from characters 1-2, 3-4 and 5-6 |
| Hex.DigitRoundTrip | app/page.tsx:173-175 | reading back the digit the model's encoder writes for d gives d; the page itself only reads |
| Hex.ByteRoundTrip | app/page.tsx:173-175 | reading back the two digits the model's encoder writes for a byte gives the byte |
| Hex.ColorRoundTrip | app/page.tsx:173-175 | decoding the colour the model's encoder writes for a triple gives the triple back |
| Hex.ColorRgbInjective | app/page.tsx:246-248 | two colours decode alike exactly when their digits have the same values |
| Hex.WhiteSpellings | app/page.tsx:219 | `#ffffff` and `#FFFFFF` are both colours and decode to the same white triple `(255, 255, 255)`, although the string comparison at line 219 tells them apart |
| Palette.FindFirst | app/page.tsx:219 | the search over the palette returns the first accepted entry, and nothing exactly when no entry is accepted |
| Palette.FindFirstAt | app/page.tsx:219 | the search stops at the first accepted entry |
| Palette.Shades | app/page.tsx:35-38 | a material's four shades share its texture and carry the labels `-1`, `0`, `1`, `2` in order |
| Palette.Material | app/page.tsx:34-144 | every material of the palette has four shades sharing one texture, labelled `-1`..`2` |
| Palette.Table | app/page.tsx:34-144 | the palette: the 22 materials' four shades each, in declaration order |
| Palette.IsOpaque | app/page.tsx:243 | an entry takes part in colour matching (and in seeding, line 172) when its colour string has at most 7 characters |
| Palette.IsWhite | app/page.tsx:219 | the white policy's target is an entry spelled exactly `#ffffff` |
| Palette.IsTransparentMarker | app/page.tsx:224-225 | the other policy's target is a 9-character colour whose last two characters are `00` |
| Palette.TableAt | app/page.tsx:34-144 | the palette is the materials' shades in declaration order, 88 entries |
| Palette.TableShape | app/page.tsx:34-144 | the palette has 88 entries; each run of four shares a texture and is labelled `-1`, `0`, `1`, `2` |
| Palette.InkColors | app/page.tsx:35-38 | the four colours of the ink material are well-formed `#RRGGBB` strings, and each decodes to a triple that the table's index maps back to that shade's position (one lemma per shade, `InkShade0` to `InkShade3`) |
| Palette.RedColors | app/page.tsx:40-43 | the four colours of the red material are well-formed `#RRGGBB` strings, and each decodes to a triple that the table's index maps back to that shade's position (one lemma per shade, `RedShade0` to `RedShade3`) |
| Palette.GreenColors | app/page.tsx:45-48 | the four colours of the green material are well-formed `#RRGGBB` strings, and each decodes to a triple that the table's index maps back to that shade's position (one lemma per shade, `GreenShade0` to `GreenShade3`) |
| Palette.BrownColors | app/page.tsx:50-53 | the four colours of the brown material are well-formed `#RRGGBB` strings, and each decodes to a triple that the table's index maps back to that shade's position (one lemma per shade, `BrownShade0` to `BrownShade3`) |
| Palette.BlueColors | app/page.tsx:55-58 | the four colours of the blue material are well-formed `#RRGGBB` strings, and each decodes to a triple that the table's index maps back to that shade's position (one lemma per shade, `BlueShade0` to `BlueShade3`) |
| Palette.PurpleColors | app/page.tsx:60-63 | the four colours of the purple material are well-formed `#RRGGBB` strings, and each decodes to a triple that the table's index maps back to that shade's position (one lemma per shade, `PurpleShade0` to `PurpleShade3`) |
| Palette.CyanColors | app/page.tsx:65-68 | the four colours of the cyan material are well-formed `#RRGGBB` strings, and each decodes to a triple that the table's index maps back to that shade's position (one lemma per shade, `CyanShade0` to `CyanShade3`) |
| Palette.LightGrayColors | app/page.tsx:70-73 | the four colours of the lightGray material are well-formed `#RRGGBB` strings, and each decodes to a triple that the table's index maps back to that shade's position (one lemma per shade, `LightGrayShade0` to `LightGrayShade3`) |
| Palette.GrayColors | app/page.tsx:75-78 | the four colours of the gray material are well-formed `#RRGGBB` strings, and each decodes to a triple that the table's index maps back to that shade's position (one lemma per shade, `GrayShade0` to `GrayShade3`) |
| Palette.PinkColors | app/page.tsx:80-83 | the four colours of the pink material are well-formed `#RRGGBB` strings, and each decodes to a triple that the table's index maps back to that shade's position (one lemma per shade, `PinkShade0` to `PinkShade3`) |
| Palette.LimeColors | app/page.tsx:85-88 | the four colours of the lime material are well-formed `#RRGGBB` strings, and each decodes to a triple that the table's index maps back to that shade's position (one lemma per shade, `LimeShade0` to `LimeShade3`) |
| Palette.YellowColors | app/page.tsx:90-93 | the four colours of the yellow material are well-formed `#RRGGBB` strings, and each decodes to a triple that the table's index maps back to that shade's position (one lemma per shade, `YellowShade0` to `YellowShade3`) |
| Palette.LightBlueColors | app/page.tsx:95-98 | the four colours of the lightBlue material are well-formed `#RRGGBB` strings, and each decodes to a triple that the table's index maps back to that shade's position (one lemma per shade, `LightBlueShade0` to `LightBlueShade3`) |
| Palette.MagentaColors | app/page.tsx:100-103 | the four colours of the magenta material are well-formed `#RRGGBB` strings, and each decodes to a triple that the table's index maps back to that shade's position (one lemma per shade, `MagentaShade0` to `MagentaShade3`) |
| Palette.OrangeColors | app/page.tsx:105-108 | the four colours of the orange material are well-formed `#RRGGBB` strings, and each decodes to a triple that the table's index maps back to that shade's position (one lemma per shade, `OrangeShade0` to `OrangeShade3`) |
| Palette.BoneColors | app/page.tsx:110-113 | the four colours of the bone material are well-formed `#RRGGBB` strings, and each decodes to a triple that the table's index maps back to that shade's position (one lemma per shade, `BoneShade0` to `BoneShade3`) |
| Palette.PumpkinColors | app/page.tsx:115-118 | the four colours of the pumpkin material are well-formed `#RRGGBB` strings, and each decodes to a triple that the table's index maps back to that shade's position (one lemma per shade, `PumpkinShade0` to `PumpkinShade3`) |
| Palette.MelonColors | app/page.tsx:120-123 | the four colours of the melon material are well-formed `#RRGGBB` strings, and each decodes to a triple that the table's index maps back to that shade's position (one lemma per shade, `MelonShade0` to `MelonShade3`) |
| Palette.FlintColors | app/page.tsx:125-128 | the four colours of the flint material are well-formed `#RRGGBB` strings, and each decodes to a triple that the table's index maps back to that shade's position (one lemma per shade, `FlintShade0` to `FlintShade3`) |
| Palette.GunpowderColors | app/page.tsx:130-133 | the four colours of the gunpowder material are well-formed `#RRGGBB` strings, and each decodes to a triple that the table's index maps back to that shade's position (one lemma per shade, `GunpowderShade0` to `GunpowderShade3`) |
| Palette.LapisOreColors | app/page.tsx:135-138 | the four colours of the lapisOre material are well-formed `#RRGGBB` strings, and each decodes to a triple that the table's index maps back to that shade's position (one lemma per shade, `LapisOreShade0` to `LapisOreShade3`) |
| Palette.SnowColors | app/page.tsx:140-143 | the four colours of the snow material are well-formed `#RRGGBB` strings, and each decodes to a triple that the table's index maps back to that shade's position (one lemma per shade, `SnowShade0` to `SnowShade3`) |
| Palette.MaterialIndexed | app/page.tsx:34-144 | every shade of every material is a well-formed colour whose triple the index maps back to its position |
| Palette.TableIndexed | app/page.tsx:34-144 | entry i of the palette decodes to a triple that the index maps back to i |
| Palette.TableDistinct | app/page.tsx:34-144 | the palette is well formed and no two of its entries decode to the same triple |
| Palette.TableWellFormed | app/page.tsx:34-144 | every palette entry is opaque, decodable, and not a transparent marker |
| Palette.NoWhiteInkToCyan | app/page.tsx:35-68 | no shade of the first seven materials is `#ffffff` |
| Palette.NoWhiteLightGrayToMagenta | app/page.tsx:70-103 | no shade of the next seven materials is `#ffffff` |
| Palette.NoWhiteOrangeToLapisOre | app/page.tsx:105-138 | no shade of the last seven materials before snow is `#ffffff` |
| Palette.NoWhiteBeforeSnow | app/page.tsx:35-138 | only snow has a white shade |
| Palette.NoWhiteBefore84 | app/page.tsx:35-138 | none of the first 84 entries is white |
| Palette.WhiteAt84 | app/page.tsx:140 | entry 84 is snow's `-1` shade, `#ffffff` |
| Palette.TableWhite | app/page.tsx:219 | the white search over the shipped palette returns entry 84 |
| Resolver.SqDist | app/page.tsx:250-253 | the squared distance is never negative and is zero exactly for equal triples |
| Resolver.NearestIndex | app/page.tsx:238-262 | the scan's best candidate, if any, is an opaque entry of the prefix scanned |
| Resolver.NearestIndexSpec | app/page.tsx:238-262 | the scan finds nothing iff no opaque entry was scanned, otherwise the first opaque entry at minimal distance (earlier ones strictly farther, later ones no closer, so a tie keeps the earlier entry) |
| Resolver.Nearest | app/page.tsx:238-268 | the search's answer is an opaque palette entry |
| Resolver.NearestIsMinimal | app/page.tsx:238-268 | the search returns nothing iff the palette has no opaque entry, otherwise the first nearest one |
| Resolver.NearestExact | app/page.tsx:231-235 | an exact colour match wins: the first opaque entry decoding to the pixel's triple is the answer |
| Resolver.Override | app/page.tsx:216-229 | a pixel with alpha below 128 gets the first white entry (white policy) or the first `#RRGGBB00` marker (other policy) when the palette has one: the answer is such an entry and no earlier entry is; nothing is overridden otherwise |
| Resolver.Resolve | app/page.tsx:214-269 | the resolver's answer, with a right cache, is an entry of the palette |
| Resolver.ResolveOpaquePixel | app/page.tsx:216 | alpha 128 or more is matched by colour alone |
| Resolver.ResolveTransparentWhite | app/page.tsx:216-220 | under the white policy a transparent pixel gets the first white entry whatever its colour |
| Resolver.ResolveTransparentMarker | app/page.tsx:221-228 | under the marker policy a transparent pixel gets the first `#RRGGBB00` entry whatever its colour |
| Resolver.ResolveFallThrough | app/page.tsx:216-229 | a transparent pixel with no override target falls through to the colour search |
| Resolver.ResolveNone | app/page.tsx:214-269 | the resolver answers nothing iff there is no override and no opaque entry |
| Resolver.SearchNearest | app/page.tsx:238-262 | the search loop returns exactly the first nearest opaque entry |
| Resolver.TableTransparentIsSnow | app/page.tsx:216-220 | with the shipped palette every transparent pixel becomes snow `-1`, `#ffffff` |
| Resolver.TableMarkerPolicyFallsThrough | app/page.tsx:221-228 | the shipped palette has no transparent marker, so the other policy matches transparent pixels by colour |
| Resolver.TableAlwaysResolves | app/page.tsx:214-269 | every pixel resolves to an entry of the shipped palette |
| ColorMatcher.SeedUpTo | app/page.tsx:170-178 | the seeded table maps each key to an opaque entry that decodes to that key |
| ColorMatcher.SeedKeys | app/page.tsx:170-178 | the seeded keys are exactly the triples of the opaque entries |
| ColorMatcher.SeedLast | app/page.tsx:177 | each key holds the last opaque entry decoding to it: a later entry overwrites an earlier one |
| ColorMatcher.SeedAgrees | app/page.tsx:231-235 | with distinct colours every seeded answer is the one the search gives |
| ColorMatcher.SeedDuplicateDisagrees | app/page.tsx:177 | with two entries spelling one colour the seeded table keeps the second while the search returns the first |
| ColorMatcher.UnionAgrees | app/page.tsx:170-178 | seeding over a right cache keeps it right |
| ColorMatcher.LookupStep | app/page.tsx:214-269 | one lookup never changes a cached entry and adds at most the pixel's own triple; it adds nothing when it answers nothing, when the pixel is overridden as transparent, or when the triple is already cached; a miss that finds an answer adds exactly that answer under the pixel's triple |
| ColorMatcher.TableSeedAgrees | app/page.tsx:166-180 | the cache seeded from the shipped palette holds only answers the search gives |
| ColorMatcher.LookupCorrect | app/page.tsx:231-268 | a right cache stays right after a lookup, and the answer is the resolver's |
| ColorMatcher.LookupRepeat | app/page.tsx:231-235 | asking again for the same pixel gives the same answer and leaves the cache unchanged |
| ColorMatcher.LookupHit | app/page.tsx:232-235 | a cached triple is answered from the cache whatever its alpha, unless overridden as transparent |
| ColorMatcher.Matcher.constructor | app/page.tsx:153 | a matcher starts with the given palette and policy and an empty, hence right, cache |
| ColorMatcher.Matcher.SeedCache | app/page.tsx:170-178 | the start-up loop adds the seeded table to the cache and keeps it right when colours are distinct |
| ColorMatcher.Matcher.FindClosest | app/page.tsx:214-269 | the answer and the new cache are those of one lookup; a right cache stays right and the answer is then the resolver's |
| ColorMatcher.StartUp | app/page.tsx:166-180 | at start-up the matcher holds the shipped palette, uses the white policy (line 29), and its cache is the seeded table, every answer of which is the search's |
| Pipeline.Column | app/page.tsx:320 | the column of pixel idx is `idx % width` |
| Pipeline.Row | app/page.tsx:321 | the row of pixel idx is `floor(idx / width)` |
| Pipeline.PixelRgb | app/page.tsx:323-326 | the colour of pixel idx is the bytes at `4 * idx`, `4 * idx + 1` and `4 * idx + 2` |
| Pipeline.PixelAlpha | app/page.tsx:327 | the alpha of pixel idx is the byte at `4 * idx + 3` |
| Pipeline.Decompose | app/page.tsx:320-321 | a pixel index inside the image has column below the width and row below the height, and `row * w + column` is the index |
| Pipeline.Compose | app/page.tsx:320-321 | the column and row of `y * w + x` are `x` and `y` |
| Pipeline.TileFor | app/page.tsx:332-358 | a resolved pixel is drawn on the square at `(32x, 32y)` with its entry, captioned with the entry's shade label iff numbers are shown; nothing is drawn for no answer |
| Pipeline.Mosaic | app/page.tsx:319-361 | the picture has one slot per pixel |
| Pipeline.MosaicCovers | app/page.tsx:319-361 | pixel `(x, y)` is drawn at `(32x, 32y)` inside the `32w x 32h` canvas |
| Pipeline.TilesDisjoint | app/page.tsx:336-337 | two different pixels are drawn on disjoint squares |
| Pipeline.NumChunks | app/page.tsx:373-375 | the chunk count is the least whose chunks reach the pixel total |
| Pipeline.Done | app/page.tsx:363 | the processed count after k chunks never exceeds the total |
| Pipeline.Percent | app/page.tsx:364 | the reported progress is 0..100 and is 100 exactly when every pixel is done |
| Pipeline.ProgressTrace | app/page.tsx:363-365 | one progress value is reported per chunk |
| Pipeline.ProgressTraceSpec | app/page.tsx:363-365 | progress stays in 0..100, never decreases, ends at 100 and is below 100 before the last chunk |
| Pipeline.PercentMono | app/page.tsx:364 | more pixels done never reports less progress |
| Pipeline.ChunkCoverage | app/page.tsx:317-319 | pixel idx lies in chunk idx / 100, one of the chunks, between its start and its clamped end |
| Pipeline.DrawPixel | app/page.tsx:320-358 | a pixel's tile lies on its square; the new cache and the tile are those of one lookup of the pixel's bytes; with a right cache the tile is that of the resolver's answer and the cache stays right |
| Pipeline.ProcessChunk | app/page.tsx:314-370 | a chunk appends the tiles of pixels start up to min(start + 100, total), each on its square; the appended tiles and the new cache are exactly those of looking the pixels up in order from the old cache; it reports the progress of the processed count and only adds to the cache |
| Pipeline.Quantize | app/page.tsx:309-375 | the pass yields one tile slot per pixel, each on its square; the tiles and the final cache are exactly those of looking every pixel up in order from the starting cache; it reports the progress trace, only adds to the cache, and draws the mosaic when the cache starts right |
| Pipeline.Pass | app/page.tsx:319-331 | looking pixels `lo` up to `hi` up in order, each with the cache the previous lookups left, gives one tile slot per pixel |
| Pipeline.PassStep | app/page.tsx:319-331 | one more pixel adds the tile of its lookup and the cache that lookup leaves |
| Pipeline.PassGrows | app/page.tsx:263-266 | looking pixels up keeps every cached answer and adds only the triples of the pixels looked up |
| Pipeline.PassSplit | app/page.tsx:373-375 | looking up `lo..mid` and then `mid..hi` from the cache the first part left is looking up `lo..hi` |
| Pipeline.PassThen | app/page.tsx:373-375 | the chunks so far followed by the next chunk are the pass up to the next chunk's end |
| Pipeline.DrawRange | app/page.tsx:319-360 | the loop of one chunk draws exactly the tiles and leaves exactly the cache of looking its pixels up in order |
| Pipeline.PassDrawn | app/page.tsx:319-360 | the tiles of a pass lie on their pixels' squares; from a right cache the cache stays right and every tile is the resolver's |
| Pipeline.DrawnStep | app/page.tsx:329-358 | one more lookup keeps the tiles on their squares and, from a right cache, keeps the cache right and draws the resolver's tile |
| Pipeline.TileResolves | app/page.tsx:329-358 | with a right cache, the tile of a lookup is the tile of the resolver's answer |
| Pipeline.ReportedTrace | app/page.tsx:363-375 | the values recorded after each chunk, one per chunk, are the progress trace |
| Pipeline.MosaicFaithful | app/page.tsx:319-361 | tiles recorded faithfully for every pixel are the mosaic |
| Grid.Vertical | app/page.tsx:390-413 | vertical line k runs down the whole canvas height at x = 32k (thin) or 1024k (heavy) |
| Grid.Horizontal | app/page.tsx:398-421 | horizontal line k runs across the whole canvas width at y = 32k (thin) or 1024k (heavy) |
| Grid.Lines | app/page.tsx:386-421 | the grid is the thin verticals, thin horizontals, heavy verticals and heavy horizontals, in that order |
| Grid.Verticals | app/page.tsx:390-395 | a vertical family has one line per index, in order |
| Grid.Horizontals | app/page.tsx:398-403 | a horizontal family has one line per index, in order |
| Grid.DrawGrid | app/page.tsx:386-421 | the four loops draw thin verticals, thin horizontals, heavy verticals, heavy horizontals, `w + 1` or `h + 1` of each, in that order |
| Grid.CellEdgesDrawn | app/page.tsx:390-403 | the four edges of every pixel square are thin lines crossing the whole canvas |
| Grid.LineOnBoundary | app/page.tsx:390-421 | each drawn line crosses the whole canvas along a multiple of 32 (thin, within the canvas) or of 1024 (heavy) |
| Grid.LinesOnBoundaries | app/page.tsx:390-421 | there are `2(w + 1) + 2(h + 1)` lines and every one lies on a pixel boundary |
| Grid.HeavyVisible | app/page.tsx:408-421 | heavy line k lies inside the canvas iff `32k <= w`, and then on the thin line of column 32k |

## Left out

- Canvas and DOM drawing (`fillRect`, `drawImage`, `fillText`, fonts, the
  caption's backing box) is modelled as the list of tiles and lines the page
  draws. Pixels are not rasterised. Whether a texture image has finished loading
  only decides between colour-plus-texture and colour-only drawing, so it is not
  modelled.
- Image upload, `FileReader`, image preloading, `setTimeout`/`await` scheduling
  and React state are left out, because they are I/O and scheduling. The chunks
  are run one after another, as the awaited loop does.
- Pipeline.Percent: computes the whole percentage `floor(100 * done / total)`
  exactly. The page computes `Math.floor((done / total) * 100)` in floating
  point, which can be one lower (29 of 100 pixels gives 28). Floating point is
  not modelled. The `0` reported before the first chunk is not part of
  `ProgressTrace`.
- Hex.ColorRgb, Resolver.NearestIndex, Resolver.Nearest, Resolver.Resolve,
  ColorMatcher.SeedUpTo, ColorMatcher.LookupStep, ColorMatcher.Matcher and
  Pipeline.Quantize: `parseInt`'s leniency (partial or invalid digits, `NaN`)
  is not modelled. These members require well-formed `#RRGGBB` colours
  (`WellFormed` for a palette), and every entry of the shipped palette is
  proved to be one.
- Pixel channels are plain integers. The model does not restrict them to the
  0..255 of a `Uint8ClampedArray`, and nothing in the resolver depends on that
  range.
- Zoom, pan, dragging, download and the page layout (`app/layout.tsx`) are user
  interface, and are not part of this model.
