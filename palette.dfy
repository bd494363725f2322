/** The fixed palette: 22 material groups of four shades each, and the searches the
    resolver runs over a palette. */
module Palette {
  import opened Wrappers
  import opened Hex

  /** One palette entry: its colour string, the texture drawn over the cell, and the
      shade label written into the cell. */
  datatype Entry = Entry(color: string, image: string, text: string)

  /** Entries whose colour string has no alpha suffix take part in RGB matching. */
  predicate IsOpaque(e: Entry) { |e.color| <= 7 }

  /** The entry used for transparent pixels under the white policy. */
  predicate IsWhite(e: Entry) { e.color == "#ffffff" }

  /** A colour `#RRGGBBAA` whose alpha digits are `00`: the marker the transparent
      policy looks for. */
  predicate IsTransparentMarker(e: Entry) { |e.color| == 9 && e.color[7..9] == "00" }

  /** Every opaque entry spells a `#RRGGBB` colour, so its channels can be decoded. */
  predicate WellFormed(p: seq<Entry>) {
    forall i | 0 <= i < |p| :: IsOpaque(p[i]) ==> IsColor(p[i].color)
  }

  function EntryRgb(e: Entry): Rgb
    requires IsOpaque(e) && IsColor(e.color)
  {
    ColorRgb(e.color)
  }

  /** No two opaque entries decode to the same triple. */
  predicate DistinctRgbs(p: seq<Entry>)
    requires WellFormed(p)
  {
    forall i, j | 0 <= i < j < |p| && IsOpaque(p[i]) && IsOpaque(p[j]) ::
      EntryRgb(p[i]) != EntryRgb(p[j])
  }

  /** The index of the first entry satisfying `want`, scanning as `Array.prototype.find` does. */
  function FindFirst(p: seq<Entry>, want: Entry -> bool): (k: Option<nat>)
    ensures k.Some? ==> k.value < |p| && want(p[k.value])
    ensures k.Some? ==> forall j | 0 <= j < k.value :: !want(p[j])
    ensures k.None? <==> forall j | 0 <= j < |p| :: !want(p[j])
  {
    if p == [] then None
    else if want(p[0]) then Some(0)
    else match FindFirst(p[1..], want)
      case None => None
      case Some(k) => Some(k + 1)
  }

  /** `FindFirst` returns `k` when `p[k]` is the first entry that `want` accepts. */
  lemma FindFirstAt(p: seq<Entry>, want: Entry -> bool, k: nat)
    requires k < |p| && want(p[k]) && forall j | 0 <= j < k :: !want(p[j])
    ensures FindFirst(p, want) == Some(k)
  {
  }

  /** The shade labels, in the order every material lists them. */
  const Labels: seq<string> := ["-1", "0", "1", "2"]

  /** The four shades of one material, lightest first, labelled `-1`, `0`, `1`, `2`. */
  function Shades(image: string, c0: string, c1: string, c2: string, c3: string): (g: seq<Entry>)
    ensures |g| == 4 && forall j | 0 <= j < 4 :: g[j].image == image && g[j].text == Labels[j]
  {
    [Entry(c0, image, Labels[0]), Entry(c1, image, Labels[1]),
     Entry(c2, image, Labels[2]), Entry(c3, image, Labels[3])]
  }

  /** The palette's materials in declaration order. */
  function Material(n: nat): (g: seq<Entry>)
    requires n < 22
    ensures |g| == 4
    ensures forall j | 0 <= j < 4 :: g[j].image == g[0].image && g[j].text == Labels[j]
  {
    match n
    case 0 => Shades("ink.png", "#191919", "#161616", "#131313", "#101010")
    case 1 => Shades("red.png", "#FD1A1E", "#D6161A", "#AB1114", "#7D0B0E")
    case 2 => Shades("green.png", "#5D7532", "#50642B", "#415024", "#313C1C")
    case 3 => Shades("brown.png", "#5D4530", "#4F3B2A", "#413023", "#31251B")
    case 4 => Shades("blue.png", "#2F44A8", "#293A8E", "#223072", "#1B2554")
    case 5 => Shades("purple.png", "#753AA8", "#63328E", "#502972", "#3C2054")
    case 6 => Shades("cyan.png", "#46758F", "#3C6379", "#315062", "#263C48")
    case 7 => Shades("lightgray.png", "#9F9F9F", "#878787", "#6C6C6C", "#505050")
    case 8 => Shades("gray.png", "#9CA0B0", "#848795", "#6A6D77", "#4E5058")
    case 9 => Shades("pink.png", "#EF779D", "#C96585", "#A1526B", "#763D4F")
    case 10 => Shades("lime.png", "#77C528", "#65A723", "#52861D", "#3D6217")
    case 11 => Shades("yellow.png", "#E1E23E", "#BEBF35", "#98982C", "#6F7022")
    case 12 => Shades("lightblue.png", "#5E90D1", "#517AB1", "#42628D", "#324967")
    case 13 => Shades("magenta.png", "#A946D1", "#8F3CB1", "#73318D", "#552667")
    case 14 => Shades("orange.png", "#D27737", "#B2652F", "#8E5227", "#683D1E")
    case 15 => Shades("bone.png", "#FFFCF4", "#D8D4CE", "#ACA9A4", "#7D7C78")
    case 16 => Shades("pumpkin.png", "#F6E69E", "#D0C386", "#A69B6C", "#78724F")
    case 17 => Shades("melon.png", "#8D6448", "#78563D", "#604532", "#473426")
    case 18 => Shades("flint.png", "#454545", "#3B3B3B", "#303030", "#252525")
    case 19 => Shades("gunpowder.png", "#909090", "#7A7A7A", "#636363", "#494949")
    case 20 => Shades("lapisore.png", "#4576FB", "#3B64D5", "#3151AA", "#253C7C")
    case 21 => Shades("snow.png", "#ffffff", "#D8D8D8", "#ACACAC", "#7E7E7E")
    case _ => Shades("", "", "", "", "")
  }

  /** The palette as the resolver scans it: the shades of every material, in order. */
  const Table: seq<Entry> := seq(88, i requires 0 <= i < 88 => Material(i / 4)[i % 4])

  /** Entry `i` of the table is shade `i % 4` of material `i / 4`. */
  lemma TableAt(i: int)
    requires 0 <= i < 88
    ensures |Table| == 88 && Table[i] == Material(i / 4)[i % 4]
  {
  }

  /** Every material is four consecutive entries sharing one texture and labelled
      `-1`, `0`, `1`, `2` in order. */
  lemma TableShape()
    ensures |Table| == 88
    ensures forall i | 0 <= i < 88 :: Table[i].text == Labels[i % 4]
    ensures forall i | 0 <= i < 88 :: Table[i].image == Table[i - i % 4].image
  {
    forall i | 0 <= i < 88
      ensures Table[i].text == Labels[i % 4] && Table[i].image == Table[i - i % 4].image
    {
      var j := i - i % 4;
      assert j / 4 == i / 4 && j % 4 == 0;
      TableAt(i);
      TableAt(j);
    }
  }

  // Distinctness of the 88 triples is shown through an index: a function from triples
  // to positions. Once every entry is shown to decode to a triple that the index maps
  // back to the entry's own position, no two entries can share a triple, without
  // comparing the 3828 pairs one by one.

  /** A triple packed as the number `0xRRGGBB`. */
  function Key(c: Rgb): int {
    0x10000 * c.r + 0x100 * c.g + c.b
  }

  /** The packed triple of entry `i`, written out from the palette's colour strings;
      `ShadeIndexed` checks each one against the decoded string. */
  function TableKey(i: nat): int
    requires i < 88
  {
    if i == 0 then 0x191919
    else if i == 1 then 0x161616
    else if i == 2 then 0x131313
    else if i == 3 then 0x101010
    else if i == 4 then 0xFD1A1E
    else if i == 5 then 0xD6161A
    else if i == 6 then 0xAB1114
    else if i == 7 then 0x7D0B0E
    else if i == 8 then 0x5D7532
    else if i == 9 then 0x50642B
    else if i == 10 then 0x415024
    else if i == 11 then 0x313C1C
    else if i == 12 then 0x5D4530
    else if i == 13 then 0x4F3B2A
    else if i == 14 then 0x413023
    else if i == 15 then 0x31251B
    else if i == 16 then 0x2F44A8
    else if i == 17 then 0x293A8E
    else if i == 18 then 0x223072
    else if i == 19 then 0x1B2554
    else if i == 20 then 0x753AA8
    else if i == 21 then 0x63328E
    else if i == 22 then 0x502972
    else if i == 23 then 0x3C2054
    else if i == 24 then 0x46758F
    else if i == 25 then 0x3C6379
    else if i == 26 then 0x315062
    else if i == 27 then 0x263C48
    else if i == 28 then 0x9F9F9F
    else if i == 29 then 0x878787
    else if i == 30 then 0x6C6C6C
    else if i == 31 then 0x505050
    else if i == 32 then 0x9CA0B0
    else if i == 33 then 0x848795
    else if i == 34 then 0x6A6D77
    else if i == 35 then 0x4E5058
    else if i == 36 then 0xEF779D
    else if i == 37 then 0xC96585
    else if i == 38 then 0xA1526B
    else if i == 39 then 0x763D4F
    else if i == 40 then 0x77C528
    else if i == 41 then 0x65A723
    else if i == 42 then 0x52861D
    else if i == 43 then 0x3D6217
    else if i == 44 then 0xE1E23E
    else if i == 45 then 0xBEBF35
    else if i == 46 then 0x98982C
    else if i == 47 then 0x6F7022
    else if i == 48 then 0x5E90D1
    else if i == 49 then 0x517AB1
    else if i == 50 then 0x42628D
    else if i == 51 then 0x324967
    else if i == 52 then 0xA946D1
    else if i == 53 then 0x8F3CB1
    else if i == 54 then 0x73318D
    else if i == 55 then 0x552667
    else if i == 56 then 0xD27737
    else if i == 57 then 0xB2652F
    else if i == 58 then 0x8E5227
    else if i == 59 then 0x683D1E
    else if i == 60 then 0xFFFCF4
    else if i == 61 then 0xD8D4CE
    else if i == 62 then 0xACA9A4
    else if i == 63 then 0x7D7C78
    else if i == 64 then 0xF6E69E
    else if i == 65 then 0xD0C386
    else if i == 66 then 0xA69B6C
    else if i == 67 then 0x78724F
    else if i == 68 then 0x8D6448
    else if i == 69 then 0x78563D
    else if i == 70 then 0x604532
    else if i == 71 then 0x473426
    else if i == 72 then 0x454545
    else if i == 73 then 0x3B3B3B
    else if i == 74 then 0x303030
    else if i == 75 then 0x252525
    else if i == 76 then 0x909090
    else if i == 77 then 0x7A7A7A
    else if i == 78 then 0x636363
    else if i == 79 then 0x494949
    else if i == 80 then 0x4576FB
    else if i == 81 then 0x3B64D5
    else if i == 82 then 0x3151AA
    else if i == 83 then 0x253C7C
    else if i == 84 then 0xFFFFFF
    else if i == 85 then 0xD8D8D8
    else if i == 86 then 0xACACAC
    else 0x7E7E7E
  }

  /** The first position from `i` on whose packed triple is `k`, or -1. */
  function IndexFrom(k: int, i: nat): int
    requires i <= 88
    decreases 88 - i
  {
    if i == 88 then -1 else if TableKey(i) == k then i else IndexFrom(k, i + 1)
  }

  /** The scan from `lo` stops at `i` when `i` is the first position with key `k`. */
  lemma IndexFromAt(k: int, lo: nat, i: nat)
    requires lo <= i < 88 && TableKey(i) == k
    requires forall j | lo <= j < i :: TableKey(j) != k
    ensures IndexFrom(k, lo) == i
    decreases i - lo
  {
    if lo < i {
      IndexFromAt(k, lo + 1, i);
    }
  }

  /** The position of the entry whose colour decodes to `c`, or -1 when none does. */
  function TableIndex(c: Rgb): int {
    IndexFrom(Key(c), 0)
  }

  /** Shade `j` of material `n` spells a `#RRGGBB` colour, and the triple it decodes
      to maps back to its position `4 * n + j` in the table. */
  predicate ShadeIndexed(n: nat, j: nat)
    requires n < 22 && j < 4
  {
    IsColor(Material(n)[j].color) && TableIndex(ColorRgb(Material(n)[j].color)) == 4 * n + j
  }

  /** All four shades of material `n` are indexed. */
  predicate MaterialColors(n: nat)
    requires n < 22
  {
    ShadeIndexed(n, 0) && ShadeIndexed(n, 1) && ShadeIndexed(n, 2) && ShadeIndexed(n, 3)
  }

  /** No shade of materials `lo` up to `hi` is spelled `#ffffff`. */
  predicate NoWhiteIn(lo: nat, hi: nat)
    requires lo <= hi <= 22
  {
    forall n, j | lo <= n < hi && 0 <= j < 4 :: !IsWhite(Material(n)[j])
  }

  /** Only snow, the last material, has a white shade. */
  lemma NoWhiteBeforeSnow()
    ensures NoWhiteIn(0, 21)
  {
    NoWhiteInkToCyan();
    NoWhiteLightGrayToMagenta();
    NoWhiteOrangeToLapisOre();
  }

  // Comparing all 84 colours in one proof goes over the resource limit, so they
  // are compared seven materials at a time.
  lemma NoWhiteInkToCyan()
    ensures NoWhiteIn(0, 7)
  {
  }

  lemma NoWhiteLightGrayToMagenta()
    ensures NoWhiteIn(7, 14)
  {
  }

  lemma NoWhiteOrangeToLapisOre()
    ensures NoWhiteIn(14, 21)
  {
  }

  /** Every shade of material `n` is indexed. */
  lemma MaterialIndexed(n: nat)
    requires n < 22
    ensures MaterialColors(n)
  {
    if n == 0 { InkColors(); }
    else if n == 1 { RedColors(); }
    else if n == 2 { GreenColors(); }
    else if n == 3 { BrownColors(); }
    else if n == 4 { BlueColors(); }
    else if n == 5 { PurpleColors(); }
    else if n == 6 { CyanColors(); }
    else if n == 7 { LightGrayColors(); }
    else if n == 8 { GrayColors(); }
    else if n == 9 { PinkColors(); }
    else if n == 10 { LimeColors(); }
    else if n == 11 { YellowColors(); }
    else if n == 12 { LightBlueColors(); }
    else if n == 13 { MagentaColors(); }
    else if n == 14 { OrangeColors(); }
    else if n == 15 { BoneColors(); }
    else if n == 16 { PumpkinColors(); }
    else if n == 17 { MelonColors(); }
    else if n == 18 { FlintColors(); }
    else if n == 19 { GunpowderColors(); }
    else if n == 20 { LapisOreColors(); }
    else { SnowColors(); }
  }

  /** Entry `i` spells a `#RRGGBB` colour whose triple maps back to `i`. */
  lemma TableIndexed(i: int)
    requires 0 <= i < 88
    ensures |Table| == 88 && IsColor(Table[i].color) && TableIndex(ColorRgb(Table[i].color)) == i
  {
    TableAt(i);
    MaterialIndexed(i / 4);
    var j := i % 4;
    assert j == 0 || j == 1 || j == 2 || j == 3;
  }

  /** Every entry of the table is opaque, spells a `#RRGGBB` colour, and is not a
      transparent marker. */
  lemma TableWellFormed()
    ensures WellFormed(Table)
    ensures forall i | 0 <= i < 88 :: IsOpaque(Table[i]) && !IsTransparentMarker(Table[i])
  {
    forall i | 0 <= i < 88
      ensures IsColor(Table[i].color) && IsOpaque(Table[i]) && !IsTransparentMarker(Table[i])
    {
      TableIndexed(i);
    }
  }

  /** None of the first 84 entries is white. */
  lemma NoWhiteBefore84()
    ensures |Table| == 88 && forall i | 0 <= i < 84 :: !IsWhite(Table[i])
  {
    NoWhiteBeforeSnow();
    forall i | 0 <= i < 84 ensures !IsWhite(Table[i]) {
      TableAt(i);
    }
  }

  /** Entry 84 is the `-1` shade of snow, `#ffffff`. */
  lemma WhiteAt84()
    ensures |Table| == 88 && Table[84] == Entry("#ffffff", "snow.png", "-1")
  {
    TableAt(84);
  }

  /** The search for the white entry stops at entry 84. */
  lemma TableWhite()
    ensures FindFirst(Table, IsWhite) == Some(84)
  {
    NoWhiteBefore84();
    WhiteAt84();
    FindFirstAt(Table, IsWhite, 84);
  }

  /** The table is well formed and no two of its entries decode to the same triple, so
      the seeded cache maps every triple to the one entry that has it. */
  lemma TableDistinct()
    ensures WellFormed(Table) && DistinctRgbs(Table)
  {
    TableWellFormed();
    forall i, j | 0 <= i < j < 88 ensures EntryRgb(Table[i]) != EntryRgb(Table[j]) {
      TableIndexed(i);
      TableIndexed(j);
    }
  }

  // Decoding one shade and finding its triple in the index costs up to half of the
  // resource limit, so every shade is checked in a proof of its own and each material
  // collects its four.
  lemma InkColors()
    ensures MaterialColors(0)
  {
    InkShade0(); InkShade1(); InkShade2(); InkShade3();
  }

  lemma RedColors()
    ensures MaterialColors(1)
  {
    RedShade0(); RedShade1(); RedShade2(); RedShade3();
  }

  lemma GreenColors()
    ensures MaterialColors(2)
  {
    GreenShade0(); GreenShade1(); GreenShade2(); GreenShade3();
  }

  lemma BrownColors()
    ensures MaterialColors(3)
  {
    BrownShade0(); BrownShade1(); BrownShade2(); BrownShade3();
  }

  lemma BlueColors()
    ensures MaterialColors(4)
  {
    BlueShade0(); BlueShade1(); BlueShade2(); BlueShade3();
  }

  lemma PurpleColors()
    ensures MaterialColors(5)
  {
    PurpleShade0(); PurpleShade1(); PurpleShade2(); PurpleShade3();
  }

  lemma CyanColors()
    ensures MaterialColors(6)
  {
    CyanShade0(); CyanShade1(); CyanShade2(); CyanShade3();
  }

  lemma LightGrayColors()
    ensures MaterialColors(7)
  {
    LightGrayShade0(); LightGrayShade1(); LightGrayShade2(); LightGrayShade3();
  }

  lemma GrayColors()
    ensures MaterialColors(8)
  {
    GrayShade0(); GrayShade1(); GrayShade2(); GrayShade3();
  }

  lemma PinkColors()
    ensures MaterialColors(9)
  {
    PinkShade0(); PinkShade1(); PinkShade2(); PinkShade3();
  }

  lemma LimeColors()
    ensures MaterialColors(10)
  {
    LimeShade0(); LimeShade1(); LimeShade2(); LimeShade3();
  }

  lemma YellowColors()
    ensures MaterialColors(11)
  {
    YellowShade0(); YellowShade1(); YellowShade2(); YellowShade3();
  }

  lemma LightBlueColors()
    ensures MaterialColors(12)
  {
    LightBlueShade0(); LightBlueShade1(); LightBlueShade2(); LightBlueShade3();
  }

  lemma MagentaColors()
    ensures MaterialColors(13)
  {
    MagentaShade0(); MagentaShade1(); MagentaShade2(); MagentaShade3();
  }

  lemma OrangeColors()
    ensures MaterialColors(14)
  {
    OrangeShade0(); OrangeShade1(); OrangeShade2(); OrangeShade3();
  }

  lemma BoneColors()
    ensures MaterialColors(15)
  {
    BoneShade0(); BoneShade1(); BoneShade2(); BoneShade3();
  }

  lemma PumpkinColors()
    ensures MaterialColors(16)
  {
    PumpkinShade0(); PumpkinShade1(); PumpkinShade2(); PumpkinShade3();
  }

  lemma MelonColors()
    ensures MaterialColors(17)
  {
    MelonShade0(); MelonShade1(); MelonShade2(); MelonShade3();
  }

  lemma FlintColors()
    ensures MaterialColors(18)
  {
    FlintShade0(); FlintShade1(); FlintShade2(); FlintShade3();
  }

  lemma GunpowderColors()
    ensures MaterialColors(19)
  {
    GunpowderShade0(); GunpowderShade1(); GunpowderShade2(); GunpowderShade3();
  }

  lemma LapisOreColors()
    ensures MaterialColors(20)
  {
    LapisOreShade0(); LapisOreShade1(); LapisOreShade2(); LapisOreShade3();
  }

  lemma SnowColors()
    ensures MaterialColors(21)
  {
    SnowShade0(); SnowShade1(); SnowShade2(); SnowShade3();
  }

  lemma InkShade0()
    ensures ShadeIndexed(0, 0)
  {
    assert ColorRgb(Material(0)[0].color) == Rgb(25, 25, 25);
    IndexFromAt(0x191919, 0, 0);
  }

  lemma InkShade1()
    ensures ShadeIndexed(0, 1)
  {
    assert ColorRgb(Material(0)[1].color) == Rgb(22, 22, 22);
    IndexFromAt(0x161616, 0, 1);
  }

  lemma InkShade2()
    ensures ShadeIndexed(0, 2)
  {
    assert ColorRgb(Material(0)[2].color) == Rgb(19, 19, 19);
    IndexFromAt(0x131313, 0, 2);
  }

  lemma InkShade3()
    ensures ShadeIndexed(0, 3)
  {
    assert ColorRgb(Material(0)[3].color) == Rgb(16, 16, 16);
    IndexFromAt(0x101010, 0, 3);
  }

  lemma RedShade0()
    ensures ShadeIndexed(1, 0)
  {
    assert ColorRgb(Material(1)[0].color) == Rgb(253, 26, 30);
    IndexFromAt(0xFD1A1E, 0, 4);
  }

  lemma RedShade1()
    ensures ShadeIndexed(1, 1)
  {
    assert ColorRgb(Material(1)[1].color) == Rgb(214, 22, 26);
    IndexFromAt(0xD6161A, 0, 5);
  }

  lemma RedShade2()
    ensures ShadeIndexed(1, 2)
  {
    assert ColorRgb(Material(1)[2].color) == Rgb(171, 17, 20);
    IndexFromAt(0xAB1114, 0, 6);
  }

  lemma RedShade3()
    ensures ShadeIndexed(1, 3)
  {
    assert ColorRgb(Material(1)[3].color) == Rgb(125, 11, 14);
    IndexFromAt(0x7D0B0E, 0, 7);
  }

  lemma GreenShade0()
    ensures ShadeIndexed(2, 0)
  {
    assert ColorRgb(Material(2)[0].color) == Rgb(93, 117, 50);
    IndexFromAt(0x5D7532, 0, 8);
  }

  lemma GreenShade1()
    ensures ShadeIndexed(2, 1)
  {
    assert ColorRgb(Material(2)[1].color) == Rgb(80, 100, 43);
    IndexFromAt(0x50642B, 0, 9);
  }

  lemma GreenShade2()
    ensures ShadeIndexed(2, 2)
  {
    assert ColorRgb(Material(2)[2].color) == Rgb(65, 80, 36);
    IndexFromAt(0x415024, 0, 10);
  }

  lemma GreenShade3()
    ensures ShadeIndexed(2, 3)
  {
    assert ColorRgb(Material(2)[3].color) == Rgb(49, 60, 28);
    IndexFromAt(0x313C1C, 0, 11);
  }

  lemma BrownShade0()
    ensures ShadeIndexed(3, 0)
  {
    assert ColorRgb(Material(3)[0].color) == Rgb(93, 69, 48);
    IndexFromAt(0x5D4530, 0, 12);
  }

  lemma BrownShade1()
    ensures ShadeIndexed(3, 1)
  {
    assert ColorRgb(Material(3)[1].color) == Rgb(79, 59, 42);
    IndexFromAt(0x4F3B2A, 0, 13);
  }

  lemma BrownShade2()
    ensures ShadeIndexed(3, 2)
  {
    assert ColorRgb(Material(3)[2].color) == Rgb(65, 48, 35);
    IndexFromAt(0x413023, 0, 14);
  }

  lemma BrownShade3()
    ensures ShadeIndexed(3, 3)
  {
    assert ColorRgb(Material(3)[3].color) == Rgb(49, 37, 27);
    IndexFromAt(0x31251B, 0, 15);
  }

  lemma BlueShade0()
    ensures ShadeIndexed(4, 0)
  {
    assert ColorRgb(Material(4)[0].color) == Rgb(47, 68, 168);
    IndexFromAt(0x2F44A8, 0, 16);
  }

  lemma BlueShade1()
    ensures ShadeIndexed(4, 1)
  {
    assert ColorRgb(Material(4)[1].color) == Rgb(41, 58, 142);
    IndexFromAt(0x293A8E, 0, 17);
  }

  lemma BlueShade2()
    ensures ShadeIndexed(4, 2)
  {
    assert ColorRgb(Material(4)[2].color) == Rgb(34, 48, 114);
    IndexFromAt(0x223072, 0, 18);
  }

  lemma BlueShade3()
    ensures ShadeIndexed(4, 3)
  {
    assert ColorRgb(Material(4)[3].color) == Rgb(27, 37, 84);
    IndexFromAt(0x1B2554, 0, 19);
  }

  lemma PurpleShade0()
    ensures ShadeIndexed(5, 0)
  {
    assert ColorRgb(Material(5)[0].color) == Rgb(117, 58, 168);
    IndexFromAt(0x753AA8, 0, 20);
  }

  lemma PurpleShade1()
    ensures ShadeIndexed(5, 1)
  {
    assert ColorRgb(Material(5)[1].color) == Rgb(99, 50, 142);
    IndexFromAt(0x63328E, 0, 21);
  }

  lemma PurpleShade2()
    ensures ShadeIndexed(5, 2)
  {
    assert ColorRgb(Material(5)[2].color) == Rgb(80, 41, 114);
    IndexFromAt(0x502972, 0, 22);
  }

  lemma PurpleShade3()
    ensures ShadeIndexed(5, 3)
  {
    assert ColorRgb(Material(5)[3].color) == Rgb(60, 32, 84);
    IndexFromAt(0x3C2054, 0, 23);
  }

  lemma CyanShade0()
    ensures ShadeIndexed(6, 0)
  {
    assert ColorRgb(Material(6)[0].color) == Rgb(70, 117, 143);
    IndexFromAt(0x46758F, 0, 24);
  }

  lemma CyanShade1()
    ensures ShadeIndexed(6, 1)
  {
    assert ColorRgb(Material(6)[1].color) == Rgb(60, 99, 121);
    IndexFromAt(0x3C6379, 0, 25);
  }

  lemma CyanShade2()
    ensures ShadeIndexed(6, 2)
  {
    assert ColorRgb(Material(6)[2].color) == Rgb(49, 80, 98);
    IndexFromAt(0x315062, 0, 26);
  }

  lemma CyanShade3()
    ensures ShadeIndexed(6, 3)
  {
    assert ColorRgb(Material(6)[3].color) == Rgb(38, 60, 72);
    IndexFromAt(0x263C48, 0, 27);
  }

  lemma LightGrayShade0()
    ensures ShadeIndexed(7, 0)
  {
    assert ColorRgb(Material(7)[0].color) == Rgb(159, 159, 159);
    IndexFromAt(0x9F9F9F, 0, 28);
  }

  lemma LightGrayShade1()
    ensures ShadeIndexed(7, 1)
  {
    assert ColorRgb(Material(7)[1].color) == Rgb(135, 135, 135);
    IndexFromAt(0x878787, 0, 29);
  }

  lemma LightGrayShade2()
    ensures ShadeIndexed(7, 2)
  {
    assert ColorRgb(Material(7)[2].color) == Rgb(108, 108, 108);
    IndexFromAt(0x6C6C6C, 0, 30);
  }

  lemma LightGrayShade3()
    ensures ShadeIndexed(7, 3)
  {
    assert ColorRgb(Material(7)[3].color) == Rgb(80, 80, 80);
    IndexFromAt(0x505050, 0, 31);
  }

  lemma GrayShade0()
    ensures ShadeIndexed(8, 0)
  {
    assert ColorRgb(Material(8)[0].color) == Rgb(156, 160, 176);
    IndexFromAt(0x9CA0B0, 0, 32);
  }

  lemma GrayShade1()
    ensures ShadeIndexed(8, 1)
  {
    assert ColorRgb(Material(8)[1].color) == Rgb(132, 135, 149);
    IndexFromAt(0x848795, 0, 33);
  }

  lemma GrayShade2()
    ensures ShadeIndexed(8, 2)
  {
    assert ColorRgb(Material(8)[2].color) == Rgb(106, 109, 119);
    IndexFromAt(0x6A6D77, 0, 34);
  }

  lemma GrayShade3()
    ensures ShadeIndexed(8, 3)
  {
    assert ColorRgb(Material(8)[3].color) == Rgb(78, 80, 88);
    IndexFromAt(0x4E5058, 0, 35);
  }

  lemma PinkShade0()
    ensures ShadeIndexed(9, 0)
  {
    assert ColorRgb(Material(9)[0].color) == Rgb(239, 119, 157);
    IndexFromAt(0xEF779D, 0, 36);
  }

  lemma PinkShade1()
    ensures ShadeIndexed(9, 1)
  {
    assert ColorRgb(Material(9)[1].color) == Rgb(201, 101, 133);
    IndexFromAt(0xC96585, 0, 37);
  }

  lemma PinkShade2()
    ensures ShadeIndexed(9, 2)
  {
    assert ColorRgb(Material(9)[2].color) == Rgb(161, 82, 107);
    IndexFromAt(0xA1526B, 0, 38);
  }

  lemma PinkShade3()
    ensures ShadeIndexed(9, 3)
  {
    assert ColorRgb(Material(9)[3].color) == Rgb(118, 61, 79);
    IndexFromAt(0x763D4F, 0, 39);
  }

  lemma LimeShade0()
    ensures ShadeIndexed(10, 0)
  {
    assert ColorRgb(Material(10)[0].color) == Rgb(119, 197, 40);
    IndexFromAt(0x77C528, 0, 40);
  }

  lemma LimeShade1()
    ensures ShadeIndexed(10, 1)
  {
    assert ColorRgb(Material(10)[1].color) == Rgb(101, 167, 35);
    IndexFromAt(0x65A723, 0, 41);
  }

  lemma LimeShade2()
    ensures ShadeIndexed(10, 2)
  {
    assert ColorRgb(Material(10)[2].color) == Rgb(82, 134, 29);
    IndexFromAt(0x52861D, 0, 42);
  }

  lemma LimeShade3()
    ensures ShadeIndexed(10, 3)
  {
    assert ColorRgb(Material(10)[3].color) == Rgb(61, 98, 23);
    IndexFromAt(0x3D6217, 0, 43);
  }

  lemma YellowShade0()
    ensures ShadeIndexed(11, 0)
  {
    assert ColorRgb(Material(11)[0].color) == Rgb(225, 226, 62);
    IndexFromAt(0xE1E23E, 0, 44);
  }

  lemma YellowShade1()
    ensures ShadeIndexed(11, 1)
  {
    assert ColorRgb(Material(11)[1].color) == Rgb(190, 191, 53);
    IndexFromAt(0xBEBF35, 0, 45);
  }

  lemma YellowShade2()
    ensures ShadeIndexed(11, 2)
  {
    assert ColorRgb(Material(11)[2].color) == Rgb(152, 152, 44);
    IndexFromAt(0x98982C, 0, 46);
  }

  lemma YellowShade3()
    ensures ShadeIndexed(11, 3)
  {
    assert ColorRgb(Material(11)[3].color) == Rgb(111, 112, 34);
    IndexFromAt(0x6F7022, 0, 47);
  }

  lemma LightBlueShade0()
    ensures ShadeIndexed(12, 0)
  {
    assert ColorRgb(Material(12)[0].color) == Rgb(94, 144, 209);
    IndexFromAt(0x5E90D1, 0, 48);
  }

  lemma LightBlueShade1()
    ensures ShadeIndexed(12, 1)
  {
    assert ColorRgb(Material(12)[1].color) == Rgb(81, 122, 177);
    IndexFromAt(0x517AB1, 0, 49);
  }

  lemma LightBlueShade2()
    ensures ShadeIndexed(12, 2)
  {
    assert ColorRgb(Material(12)[2].color) == Rgb(66, 98, 141);
    IndexFromAt(0x42628D, 0, 50);
  }

  lemma LightBlueShade3()
    ensures ShadeIndexed(12, 3)
  {
    assert ColorRgb(Material(12)[3].color) == Rgb(50, 73, 103);
    IndexFromAt(0x324967, 0, 51);
  }

  lemma MagentaShade0()
    ensures ShadeIndexed(13, 0)
  {
    assert ColorRgb(Material(13)[0].color) == Rgb(169, 70, 209);
    IndexFromAt(0xA946D1, 0, 52);
  }

  lemma MagentaShade1()
    ensures ShadeIndexed(13, 1)
  {
    assert ColorRgb(Material(13)[1].color) == Rgb(143, 60, 177);
    IndexFromAt(0x8F3CB1, 0, 53);
  }

  lemma MagentaShade2()
    ensures ShadeIndexed(13, 2)
  {
    assert ColorRgb(Material(13)[2].color) == Rgb(115, 49, 141);
    IndexFromAt(0x73318D, 0, 54);
  }

  lemma MagentaShade3()
    ensures ShadeIndexed(13, 3)
  {
    assert ColorRgb(Material(13)[3].color) == Rgb(85, 38, 103);
    IndexFromAt(0x552667, 0, 55);
  }

  lemma OrangeShade0()
    ensures ShadeIndexed(14, 0)
  {
    assert ColorRgb(Material(14)[0].color) == Rgb(210, 119, 55);
    IndexFromAt(0xD27737, 0, 56);
  }

  lemma OrangeShade1()
    ensures ShadeIndexed(14, 1)
  {
    assert ColorRgb(Material(14)[1].color) == Rgb(178, 101, 47);
    IndexFromAt(0xB2652F, 0, 57);
  }

  lemma OrangeShade2()
    ensures ShadeIndexed(14, 2)
  {
    assert ColorRgb(Material(14)[2].color) == Rgb(142, 82, 39);
    IndexFromAt(0x8E5227, 0, 58);
  }

  lemma OrangeShade3()
    ensures ShadeIndexed(14, 3)
  {
    assert ColorRgb(Material(14)[3].color) == Rgb(104, 61, 30);
    IndexFromAt(0x683D1E, 0, 59);
  }

  lemma BoneShade0()
    ensures ShadeIndexed(15, 0)
  {
    assert ColorRgb(Material(15)[0].color) == Rgb(255, 252, 244);
    IndexFromAt(0xFFFCF4, 0, 60);
  }

  lemma BoneShade1()
    ensures ShadeIndexed(15, 1)
  {
    assert ColorRgb(Material(15)[1].color) == Rgb(216, 212, 206);
    IndexFromAt(0xD8D4CE, 0, 61);
  }

  lemma BoneShade2()
    ensures ShadeIndexed(15, 2)
  {
    assert ColorRgb(Material(15)[2].color) == Rgb(172, 169, 164);
    IndexFromAt(0xACA9A4, 0, 62);
  }

  lemma BoneShade3()
    ensures ShadeIndexed(15, 3)
  {
    assert ColorRgb(Material(15)[3].color) == Rgb(125, 124, 120);
    IndexFromAt(0x7D7C78, 0, 63);
  }

  lemma PumpkinShade0()
    ensures ShadeIndexed(16, 0)
  {
    assert ColorRgb(Material(16)[0].color) == Rgb(246, 230, 158);
    IndexFromAt(0xF6E69E, 0, 64);
  }

  lemma PumpkinShade1()
    ensures ShadeIndexed(16, 1)
  {
    assert ColorRgb(Material(16)[1].color) == Rgb(208, 195, 134);
    IndexFromAt(0xD0C386, 0, 65);
  }

  lemma PumpkinShade2()
    ensures ShadeIndexed(16, 2)
  {
    assert ColorRgb(Material(16)[2].color) == Rgb(166, 155, 108);
    IndexFromAt(0xA69B6C, 0, 66);
  }

  lemma PumpkinShade3()
    ensures ShadeIndexed(16, 3)
  {
    assert ColorRgb(Material(16)[3].color) == Rgb(120, 114, 79);
    IndexFromAt(0x78724F, 0, 67);
  }

  lemma MelonShade0()
    ensures ShadeIndexed(17, 0)
  {
    assert ColorRgb(Material(17)[0].color) == Rgb(141, 100, 72);
    IndexFromAt(0x8D6448, 0, 68);
  }

  lemma MelonShade1()
    ensures ShadeIndexed(17, 1)
  {
    assert ColorRgb(Material(17)[1].color) == Rgb(120, 86, 61);
    IndexFromAt(0x78563D, 0, 69);
  }

  lemma MelonShade2()
    ensures ShadeIndexed(17, 2)
  {
    assert ColorRgb(Material(17)[2].color) == Rgb(96, 69, 50);
    IndexFromAt(0x604532, 0, 70);
  }

  lemma MelonShade3()
    ensures ShadeIndexed(17, 3)
  {
    assert ColorRgb(Material(17)[3].color) == Rgb(71, 52, 38);
    IndexFromAt(0x473426, 0, 71);
  }

  lemma FlintShade0()
    ensures ShadeIndexed(18, 0)
  {
    assert ColorRgb(Material(18)[0].color) == Rgb(69, 69, 69);
    IndexFromAt(0x454545, 0, 72);
  }

  lemma FlintShade1()
    ensures ShadeIndexed(18, 1)
  {
    assert ColorRgb(Material(18)[1].color) == Rgb(59, 59, 59);
    IndexFromAt(0x3B3B3B, 0, 73);
  }

  lemma FlintShade2()
    ensures ShadeIndexed(18, 2)
  {
    assert ColorRgb(Material(18)[2].color) == Rgb(48, 48, 48);
    IndexFromAt(0x303030, 0, 74);
  }

  lemma FlintShade3()
    ensures ShadeIndexed(18, 3)
  {
    assert ColorRgb(Material(18)[3].color) == Rgb(37, 37, 37);
    IndexFromAt(0x252525, 0, 75);
  }

  lemma GunpowderShade0()
    ensures ShadeIndexed(19, 0)
  {
    assert ColorRgb(Material(19)[0].color) == Rgb(144, 144, 144);
    IndexFromAt(0x909090, 0, 76);
  }

  lemma GunpowderShade1()
    ensures ShadeIndexed(19, 1)
  {
    assert ColorRgb(Material(19)[1].color) == Rgb(122, 122, 122);
    IndexFromAt(0x7A7A7A, 0, 77);
  }

  lemma GunpowderShade2()
    ensures ShadeIndexed(19, 2)
  {
    assert ColorRgb(Material(19)[2].color) == Rgb(99, 99, 99);
    IndexFromAt(0x636363, 0, 78);
  }

  lemma GunpowderShade3()
    ensures ShadeIndexed(19, 3)
  {
    assert ColorRgb(Material(19)[3].color) == Rgb(73, 73, 73);
    IndexFromAt(0x494949, 0, 79);
  }

  lemma LapisOreShade0()
    ensures ShadeIndexed(20, 0)
  {
    assert ColorRgb(Material(20)[0].color) == Rgb(69, 118, 251);
    IndexFromAt(0x4576FB, 0, 80);
  }

  lemma LapisOreShade1()
    ensures ShadeIndexed(20, 1)
  {
    assert ColorRgb(Material(20)[1].color) == Rgb(59, 100, 213);
    IndexFromAt(0x3B64D5, 0, 81);
  }

  lemma LapisOreShade2()
    ensures ShadeIndexed(20, 2)
  {
    assert ColorRgb(Material(20)[2].color) == Rgb(49, 81, 170);
    IndexFromAt(0x3151AA, 0, 82);
  }

  lemma LapisOreShade3()
    ensures ShadeIndexed(20, 3)
  {
    assert ColorRgb(Material(20)[3].color) == Rgb(37, 60, 124);
    IndexFromAt(0x253C7C, 0, 83);
  }

  lemma SnowShade0()
    ensures ShadeIndexed(21, 0)
  {
    assert ColorRgb(Material(21)[0].color) == Rgb(255, 255, 255);
    IndexFromAt(0xFFFFFF, 0, 84);
  }

  lemma SnowShade1()
    ensures ShadeIndexed(21, 1)
  {
    assert ColorRgb(Material(21)[1].color) == Rgb(216, 216, 216);
    IndexFromAt(0xD8D8D8, 0, 85);
  }

  lemma SnowShade2()
    ensures ShadeIndexed(21, 2)
  {
    assert ColorRgb(Material(21)[2].color) == Rgb(172, 172, 172);
    IndexFromAt(0xACACAC, 0, 86);
  }

  lemma SnowShade3()
    ensures ShadeIndexed(21, 3)
  {
    assert ColorRgb(Material(21)[3].color) == Rgb(126, 126, 126);
    IndexFromAt(0x7E7E7E, 0, 87);
  }
}
