/** Where the gradient's colours come from (liquidgradient/index.js,
    initGradientColors and normalizeColor): the custom properties
    --gradient-color-1, --gradient-color-2, ... of the container's computed
    style are probed in order, each value is trimmed, a "#RGB" shorthand is
    widened to "#RRGGBB", the value is turned into a "0x..." numeric literal,
    blank values are dropped, and each remaining literal is split into three
    channel intensities in [0, 1]. */
module ColorSource {
  import opened JsText

  /** A colour as three channel intensities (the THREE.Vector3 of a wave). */
  datatype Rgb = Rgb(r: real, g: real, b: real)

  const GradientVariableName: string := "gradient-color"

  // ---------------------------------------------------------------------------
  // Discovery: the probing loop
  // ---------------------------------------------------------------------------

  /** The custom property probed for colour k: "--gradient-color-k". */
  function VarName(k: nat): (name: string)
    ensures |name| > 17 && name[..17] == "--gradient-color-" && name[17..] == DecimalString(k)
  {
    "--" + GradientVariableName + "-" + DecimalString(k)
  }

  /** Different indices probe different properties. */
  lemma VarNameInjective(a: nat, b: nat)
    ensures VarName(a) == VarName(b) ==> a == b
  {
    if VarName(a) == VarName(b) {
      DecimalStringInjective(a, b);
    }
  }

  /** The container's computed style, from property name to value. */
  type Style = map<string, string>

  /** getPropertyValue: the value of a property, "" when it is not set. */
  function PropertyValue(style: Style, name: string): (value: string)
    ensures name !in style ==> value == ""
  {
    if name in style then style[name] else ""
  }

  /** names are --gradient-color-1 up to --gradient-color-|names|, each
      with a value other than "". */
  predicate Probed(style: Style, names: seq<string>) {
    forall j :: 0 <= j < |names| ==> names[j] == VarName(j + 1) && PropertyValue(style, names[j]) != ""
  }

  /** names is what the probing loop collects: the probed names, and the next
      index's property has the value "". */
  predicate IsDiscovery(style: Style, names: seq<string>) {
    Probed(style, names) && PropertyValue(style, VarName(|names| + 1)) == ""
  }

  lemma ProbedSnoc(style: Style, names: seq<string>)
    requires Probed(style, names) && PropertyValue(style, VarName(|names| + 1)) != ""
    ensures Probed(style, names + [VarName(|names| + 1)])
  {
  }

  /** A name not yet collected: every collected name has a smaller index. */
  lemma NextNameIsNew(style: Style, names: seq<string>)
    requires Probed(style, names)
    ensures VarName(|names| + 1) !in names
  {
    forall j | 0 <= j < |names|
      ensures names[j] != VarName(|names| + 1)
    {
      VarNameInjective(j + 1, |names| + 1);
    }
  }

  lemma SubsetCardinality(a: set<string>, b: set<string>)
    requires a <= b
    ensures |a| <= |b|
  {
    assert b == a + (b - a);
  }

  /** The while loop of initGradientColors. The loop always stops: every name
      it pushes is a distinct property that the style sets. */
  method DiscoverNames(style: Style) returns (names: seq<string>)
    ensures IsDiscovery(style, names)
  {
    var color := PropertyValue(style, VarName(1));
    var current := 1;
    names := [];
    ghost var seen: set<string> := {};
    while color != ""
      invariant current == |names| + 1
      invariant Probed(style, names)
      invariant color == PropertyValue(style, VarName(current))
      invariant seen <= style.Keys && |seen| == |names|
      invariant forall x :: x in seen ==> x in names
      decreases |style.Keys| - |seen|
    {
      var name := VarName(current);
      NextNameIsNew(style, names);
      ProbedSnoc(style, names);
      names := names + [name];
      seen := seen + {name};
      SubsetCardinality(seen, style.Keys);
      current := current + 1;
      color := PropertyValue(style, VarName(current));
    }
  }

  /** Every index up to the number of names found has a value set. */
  lemma DiscoveredValuesSet(style: Style, names: seq<string>)
    requires IsDiscovery(style, names)
    ensures forall j :: 1 <= j <= |names| ==> PropertyValue(style, VarName(j)) != ""
  {
    forall j | 1 <= j <= |names|
      ensures PropertyValue(style, VarName(j)) != ""
    {
      assert names[j - 1] == VarName(j);
    }
  }

  /** A gap truncates the list: if index g is unset, fewer than g names are
      collected, whatever the later indices hold. */
  lemma DiscoveryStopsAtGap(style: Style, names: seq<string>, g: nat)
    requires IsDiscovery(style, names)
    requires 1 <= g && PropertyValue(style, VarName(g)) == ""
    ensures |names| < g
  {
    DiscoveredValuesSet(style, names);
  }

  /** The loop's outcome is determined by the style. */
  lemma DiscoveryUnique(style: Style, a: seq<string>, b: seq<string>)
    requires IsDiscovery(style, a) && IsDiscovery(style, b)
    ensures a == b
  {
    DiscoveryStopsAtGap(style, a, |b| + 1);
    DiscoveryStopsAtGap(style, b, |a| + 1);
  }

  /** Variables at indices 1, 2 and 4 with index 3 missing: exactly the
      first two are collected, index 4 is never reached. */
  lemma DiscoveryGapExample(v1: string, v2: string, v4: string, names: seq<string>)
    requires v1 != "" && v2 != "" && v4 != ""
    requires IsDiscovery(map[VarName(1) := v1, VarName(2) := v2, VarName(4) := v4], names)
    ensures names == [VarName(1), VarName(2)]
  {
    var style := map[VarName(1) := v1, VarName(2) := v2, VarName(4) := v4];
    VarNameInjective(1, 2);
    VarNameInjective(1, 4);
    VarNameInjective(2, 4);
    VarNameInjective(3, 1);
    VarNameInjective(3, 2);
    VarNameInjective(3, 4);
    assert IsDiscovery(style, [VarName(1), VarName(2)]);
    DiscoveryUnique(style, names, [VarName(1), VarName(2)]);
  }

  /** Only indices 1 .. |names| + 1 are ever read: a style that agrees with
      this one there yields the same names. */
  lemma DiscoveryReadsOnlyPrefix(style: Style, other: Style, names: seq<string>)
    requires IsDiscovery(style, names)
    requires forall j :: 1 <= j <= |names| + 1 ==> PropertyValue(other, VarName(j)) == PropertyValue(style, VarName(j))
    ensures IsDiscovery(other, names)
  {
    forall j | 0 <= j < |names|
      ensures PropertyValue(other, names[j]) != ""
    {
      assert names[j] == VarName(j + 1);
    }
  }

  // ---------------------------------------------------------------------------
  // One value: trim, widen the shorthand, make the "0x" literal
  // ---------------------------------------------------------------------------

  /** `s.split("").map(c => c + c).join("")`: each character written twice,
      so position i of the result holds character i / 2 of s. */
  function DoubleEach(s: string): (r: string)
    ensures |r| == 2 * |s|
    ensures forall i :: 0 <= i < |r| ==> r[i] == s[i / 2]
  {
    if s == [] then []
    else
      var rest := DoubleEach(s[1..]);
      assert forall i :: 2 <= i < 2 * |s| ==> rest[i - 2] == s[i / 2];
      [s[0], s[0]] + rest
  }

  /** A value of exactly four characters is taken for "#RGB" and becomes '#'
      followed by its last three characters each doubled; any other value is
      kept. The first character is not checked. */
  function ExpandShorthand(hex: string): (r: string)
    ensures |hex| == 4 ==> r == ['#', hex[1], hex[1], hex[2], hex[2], hex[3], hex[3]]
    ensures |hex| != 4 ==> r == hex
  {
    if |hex| == 4 then
      var doubled := DoubleEach(hex[1..]);
      assert doubled == [hex[1], hex[1], hex[2], hex[2], hex[3], hex[3]];
      "#" + doubled
    else hex
  }

  /** `hex && "0x" + hex.substr(1)` applied to the expanded value: "" stays
      "", anything else becomes a "0x" literal. */
  function HexLiteral(hex: string): (lit: string)
    ensures lit == "" <==> hex == ""
    ensures lit != "" ==> |lit| >= 2 && lit[..2] == "0x"
  {
    var wide := ExpandShorthand(hex);
    if wide == "" then "" else "0x" + wide[1..]
  }

  /** The mapping step for one raw value: trim, then make the literal. The
      result is "" exactly for a blank value. */
  function ColorLiteral(raw: string): (lit: string)
    ensures lit == "" <==> AllWhitespace(raw)
    ensures lit != "" ==> |lit| >= 2 && lit[..2] == "0x"
  {
    HexLiteral(Trim(raw))
  }

  /** Number(lit) for a literal "0x" + digits: NaN unless the digits are a
      non-empty run of hex digits. */
  function LiteralNumber(lit: string): (n: Number)
    requires |lit| >= 2 && lit[..2] == "0x"
    ensures n.Finite? <==> |lit| > 2 && AllHexDigits(lit[2..])
    ensures n.Finite? ==> 0 <= n.value < Pow16(|lit| - 2)
  {
    match ParseHex(lit[2..])
    case Some(v) => Finite(v)
    case None => NaN
  }

  // ---------------------------------------------------------------------------
  // normalizeColor
  // ---------------------------------------------------------------------------

  /** `hexCode >> 16 & 255` */
  function RedByte(code: Number): (byte: int)
    ensures 0 <= byte < 256
    ensures code.NaN? ==> byte == 0
  {
    And255(ShiftRight(ToInt32(code), 16))
  }

  /** `hexCode >> 8 & 255` */
  function GreenByte(code: Number): (byte: int)
    ensures 0 <= byte < 256
    ensures code.NaN? ==> byte == 0
  {
    And255(ShiftRight(ToInt32(code), 8))
  }

  /** `255 & hexCode` */
  function BlueByte(code: Number): (byte: int)
    ensures 0 <= byte < 256
    ensures code.NaN? ==> byte == 0
  {
    And255(ToInt32(code))
  }

  /** normalizeColor: each byte divided by 255. Every channel lies in [0, 1];
      NaN gives black; a 24-bit value gives its three bytes. */
  function NormalizeColor(code: Number): (c: Rgb)
    ensures 0.0 <= c.r <= 1.0 && 0.0 <= c.g <= 1.0 && 0.0 <= c.b <= 1.0
    ensures code.NaN? ==> c == Rgb(0.0, 0.0, 0.0)
    ensures code.Finite? && 0 <= code.value < 0x100_0000 ==>
      c == Rgb((code.value / 0x1_0000) as real / 255.0,
               (code.value / 0x100 % 0x100) as real / 255.0,
               (code.value % 0x100) as real / 255.0)
  {
    ChannelBytesOfInteger(if code.Finite? then code.value else 0);
    TopByteOf24(if code.Finite? then code.value else 0);
    Rgb(Channel(RedByte(code)), Channel(GreenByte(code)), Channel(BlueByte(code)))
  }

  /** `byte / 255` */
  function Channel(byte: int): (c: real)
    requires 0 <= byte < 256
    ensures 0.0 <= c <= 1.0
  {
    byte as real / 255.0
  }

  lemma TopByteOf24(v: int)
    ensures 0 <= v < 0x100_0000 ==> v / 0x1_0000 % 0x100 == v / 0x1_0000
  {
    if 0 <= v < 0x100_0000 {
      DivModUnique(v, 0x1_0000, v / 0x1_0000, v % 0x1_0000);
      assert 0 <= v / 0x1_0000 < 0x100;
    }
  }

  /** For any integer, ToInt32 followed by the shifts and masks picks bits
      16-23, 8-15 and 0-7 of the integer itself. */
  lemma ChannelBytesOfInteger(v: int)
    ensures RedByte(Finite(v)) == v / 0x1_0000 % 0x100
    ensures GreenByte(Finite(v)) == v / 0x100 % 0x100
    ensures BlueByte(Finite(v)) == v % 0x100
  {
    var t := ToInt32(Finite(v));
    var m := (v - t) / TwoTo32;
    assert t == v - m * TwoTo32;
    assert Pow2(16) == 0x1_0000 && Pow2(8) == 0x100;
    var q16, q8 := v / 0x1_0000, v / 0x100;
    DivModUnique(t, 0x1_0000, q16 - m * 0x1_0000, v % 0x1_0000);
    DivModUnique(q16 - m * 0x1_0000, 0x100, q16 / 0x100 - m * 0x100, q16 % 0x100);
    DivModUnique(t, 0x100, q8 - m * 0x100_0000, v % 0x100);
    DivModUnique(q8 - m * 0x100_0000, 0x100, q8 / 0x100 - m * 0x1_0000, q8 % 0x100);
  }

  /** The three bytes of a 24-bit value put back together give the value. */
  lemma ChannelBytesRecompose(v: int)
    requires 0 <= v < 0x100_0000
    ensures RedByte(Finite(v)) * 0x1_0000 + GreenByte(Finite(v)) * 0x100 + BlueByte(Finite(v)) == v
  {
    ChannelBytesOfInteger(v);
    BytesRecompose(v);
  }

  lemma BytesRecompose(v: int)
    requires 0 <= v < 0x100_0000
    ensures (v / 0x1_0000 % 0x100) * 0x1_0000 + (v / 0x100 % 0x100) * 0x100 + v % 0x100 == v
  {
    var q := v / 0x100;
    assert v == q * 0x100 + v % 0x100;
    assert q == q / 0x100 * 0x100 + q % 0x100;
    DivModUnique(v, 0x1_0000, q / 0x100, (q % 0x100) * 0x100 + v % 0x100);
  }

  /** Equal bytes give equal colours. */
  lemma SameBytesSameColor(c: Number, d: Number)
    requires RedByte(c) == RedByte(d) && GreenByte(c) == GreenByte(d) && BlueByte(c) == BlueByte(d)
    ensures NormalizeColor(c) == NormalizeColor(d)
  {
  }

  /** normalizeColor undoes the packing of three bytes into 0xRRGGBB. */
  lemma NormalizeColorInverts(r: nat, g: nat, b: nat)
    requires r < 256 && g < 256 && b < 256
    ensures NormalizeColor(Finite(r * 0x1_0000 + g * 0x100 + b)) == Rgb(r as real / 255.0, g as real / 255.0, b as real / 255.0)
  {
    var v := r * 0x1_0000 + g * 0x100 + b;
    DivModUnique(v, 0x1_0000, r, g * 0x100 + b);
    DivModUnique(v, 0x100, r * 0x100 + g, b);
    DivModUnique(r * 0x100 + g, 0x100, r, g);
  }

  // ---------------------------------------------------------------------------
  // The map / filter / map chain over the discovered names
  // ---------------------------------------------------------------------------

  /** The colour of one non-blank literal. */
  function ColorOf(lit: string): (c: Rgb)
    requires |lit| >= 2 && lit[..2] == "0x"
    ensures 0.0 <= c.r <= 1.0 && 0.0 <= c.g <= 1.0 && 0.0 <= c.b <= 1.0
    ensures !AllHexDigits(lit[2..]) || |lit| == 2 ==> c == Rgb(0.0, 0.0, 0.0)
  {
    NormalizeColor(LiteralNumber(lit))
  }

  /** What the first map yields: "" or a "0x" literal. */
  predicate IsLiteral(s: string) {
    s == "" || (|s| >= 2 && s[..2] == "0x")
  }

  /** Array.prototype.map: the callback applied to each element, in order. */
  function Map<A, B>(f: A --> B, s: seq<A>): (r: seq<B>)
    requires forall i :: 0 <= i < |s| ==> f.requires(s[i])
    ensures |r| == |s|
    ensures forall i :: 0 <= i < |s| ==> r[i] == f(s[i])
  {
    seq(|s|, i requires 0 <= i < |s| => f(s[i]))
  }

  /** Mapping a concatenation maps each part. */
  lemma MapAppend<A, B>(f: A --> B, a: seq<A>, b: seq<A>)
    requires forall i :: 0 <= i < |a| ==> f.requires(a[i])
    requires forall i :: 0 <= i < |b| ==> f.requires(b[i])
    ensures forall i :: 0 <= i < |a + b| ==> f.requires((a + b)[i])
    ensures Map(f, a + b) == Map(f, a) + Map(f, b)
  {
    forall i | 0 <= i < |a + b| ensures f.requires((a + b)[i]) {
      if i >= |a| {
        assert (a + b)[i] == b[i - |a|];
      }
    }
    var m, ma, mb := Map(f, a + b), Map(f, a), Map(f, b);
    forall i | 0 <= i < |m| ensures m[i] == (ma + mb)[i] {
      if i >= |a| {
        assert (a + b)[i] == b[i - |a|];
      }
    }
  }

  /** The first callback: look the property up, trim, make the literal. */
  function LiteralCallback(style: Style): string -> string {
    name => ColorLiteral(PropertyValue(style, name))
  }

  /** The first map: each discovered property's literal, blank ones as "". */
  function HexLiterals(style: Style, names: seq<string>): (lits: seq<string>)
    ensures |lits| == |names|
    ensures forall i :: 0 <= i < |lits| ==> IsLiteral(lits[i])
  {
    Map(LiteralCallback(style), names)
  }

  /** A literal is "" exactly when its property's value is blank. */
  lemma HexLiteralsBlank(style: Style, names: seq<string>)
    ensures forall i :: 0 <= i < |names| ==>
      (HexLiterals(style, names)[i] == "" <==> AllWhitespace(PropertyValue(style, names[i])))
  {
    var lits := HexLiterals(style, names);
    forall i | 0 <= i < |names|
      ensures lits[i] == "" <==> AllWhitespace(PropertyValue(style, names[i]))
    {
      assert lits[i] == ColorLiteral(PropertyValue(style, names[i]));
    }
  }

  /** filter(Boolean) on strings: keeps the non-empty ones, in order. */
  function FilterNonEmpty(lits: seq<string>): (kept: seq<string>)
    ensures |kept| <= |lits|
    ensures forall i :: 0 <= i < |kept| ==> kept[i] != ""
  {
    if lits == [] then []
    else (if lits[0] == "" then [] else [lits[0]]) + FilterNonEmpty(lits[1..])
  }

  /** The filter drops exactly the empty strings: what it keeps is what was
      there and not empty. */
  lemma {:induction false} FilterNonEmptyMembers(lits: seq<string>, s: string)
    ensures s in FilterNonEmpty(lits) <==> s in lits && s != ""
  {
    if lits != [] {
      FilterNonEmptyMembers(lits[1..], s);
      assert lits == [lits[0]] + lits[1..];
    }
  }

  lemma {:induction false} FilterNonEmptyAppend(a: seq<string>, b: seq<string>)
    ensures FilterNonEmpty(a + b) == FilterNonEmpty(a) + FilterNonEmpty(b)
  {
    if a != [] {
      assert (a + b)[1..] == a[1..] + b;
      FilterNonEmptyAppend(a[1..], b);
    } else {
      assert a + b == b;
    }
  }

  lemma {:induction false} FilterNonEmptyKeepsAll(lits: seq<string>)
    requires forall i :: 0 <= i < |lits| ==> lits[i] != ""
    ensures FilterNonEmpty(lits) == lits
  {
    if lits != [] {
      FilterNonEmptyKeepsAll(lits[1..]);
    }
  }

  lemma {:induction false} FilterKeepsLiterals(lits: seq<string>)
    requires forall i :: 0 <= i < |lits| ==> IsLiteral(lits[i])
    ensures forall i :: 0 <= i < |FilterNonEmpty(lits)| ==> IsLiteral(FilterNonEmpty(lits)[i])
  {
    if lits != [] {
      FilterKeepsLiterals(lits[1..]);
      assert IsLiteral(lits[0]);
    }
  }

  /** initGradientColors after the loop: the colours of the discovered
      properties whose values are not blank. */
  function GradientColors(style: Style, names: seq<string>): (colors: seq<Rgb>)
    ensures |colors| <= |names|
  {
    var lits := HexLiterals(style, names);
    FilterKeepsLiterals(lits);
    Map(ColorOf, FilterNonEmpty(lits))
  }

  /** Colours keep discovery order: the chain distributes over concatenation. */
  lemma GradientColorsAppend(style: Style, a: seq<string>, b: seq<string>)
    ensures GradientColors(style, a + b) == GradientColors(style, a) + GradientColors(style, b)
  {
    var la, lb := HexLiterals(style, a), HexLiterals(style, b);
    MapAppend(LiteralCallback(style), a, b);
    FilterNonEmptyAppend(la, lb);
    FilterKeepsLiterals(la);
    FilterKeepsLiterals(lb);
    MapAppend(ColorOf, FilterNonEmpty(la), FilterNonEmpty(lb));
  }

  /** One property contributes nothing when its value is blank, and one colour
      otherwise. */
  lemma GradientColorsOfOne(style: Style, name: string)
    ensures AllWhitespace(PropertyValue(style, name)) ==> GradientColors(style, [name]) == []
    ensures !AllWhitespace(PropertyValue(style, name)) ==>
      GradientColors(style, [name]) == [ColorOf(ColorLiteral(PropertyValue(style, name)))]
  {
    var lit := ColorLiteral(PropertyValue(style, name));
    MapOne(LiteralCallback(style), name);
    FilterNonEmptyOne(lit);
    if lit != "" {
      MapOne(ColorOf, lit);
    }
  }

  lemma MapOne<A, B>(f: A --> B, x: A)
    requires f.requires(x)
    ensures Map(f, [x]) == [f(x)]
  {
  }

  lemma FilterNonEmptyOne(s: string)
    ensures FilterNonEmpty([s]) == if s == "" then [] else [s]
  {
    assert [s][1..] == [];
  }

  /** When no discovered value is blank, there is one colour per property, in
      discovery order. */
  lemma GradientColorsNoBlanks(style: Style, names: seq<string>)
    requires forall i :: 0 <= i < |names| ==> !AllWhitespace(PropertyValue(style, names[i]))
    ensures |GradientColors(style, names)| == |names|
    ensures forall i :: 0 <= i < |names| ==>
      GradientColors(style, names)[i] == ColorOf(ColorLiteral(PropertyValue(style, names[i])))
  {
    HexLiteralsBlank(style, names);
    FilterNonEmptyKeepsAll(HexLiterals(style, names));
  }

  // ---------------------------------------------------------------------------
  // What a stylesheet value turns into, end to end
  // ---------------------------------------------------------------------------

  /** "#rrggbb" as a stylesheet author writes it. */
  function FormatHex(r: nat, g: nat, b: nat): string {
    "#" + HexString(r, 2) + HexString(g, 2) + HexString(b, 2)
  }

  lemma ByteHexValue(x: nat)
    requires x < 256
    ensures HexValue(HexString(x, 2)) == x
  {
    assert Pow16(2) == 256;
    HexRoundTrip(x, 2);
  }

  /** Two hex digits are worth less than 256. */
  lemma PairBelow256(h: string)
    requires |h| == 2 && AllHexDigits(h)
    ensures HexValue(h) < 256
  {
    assert Pow16(2) == 256;
  }

  /** Three two-digit fields read as one six-digit number. */
  lemma SixDigitValue(h1: string, h2: string, h3: string)
    requires |h1| == 2 && |h2| == 2 && |h3| == 2
    requires AllHexDigits(h1) && AllHexDigits(h2) && AllHexDigits(h3)
    ensures AllHexDigits(h1 + h2 + h3)
    ensures HexValue(h1 + h2 + h3) == HexValue(h1) * 0x1_0000 + HexValue(h2) * 0x100 + HexValue(h3)
  {
    assert Pow16(2) == 256;
    HexValueAppend(h1, h2);
    HexValueAppend(h1 + h2, h3);
  }

  /** A "#rrggbb" value, in either letter case and with any surrounding
      white space, yields exactly the colour its three digit pairs spell. */
  lemma LonghandRoundTrip(raw: string, h1: string, h2: string, h3: string)
    requires |h1| == 2 && |h2| == 2 && |h3| == 2
    requires AllHexDigits(h1) && AllHexDigits(h2) && AllHexDigits(h3)
    requires Trim(raw) == "#" + (h1 + h2 + h3)
    ensures ColorLiteral(raw) != ""
    ensures ColorOf(ColorLiteral(raw)) ==
      Rgb(HexValue(h1) as real / 255.0, HexValue(h2) as real / 255.0, HexValue(h3) as real / 255.0)
  {
    LongLiteral(raw, Trim(raw), h1 + h2 + h3);
    PairsColor(h1, h2, h3);
  }

  /** The literal "0x" + three digit pairs has the pairs' values over 255. */
  lemma PairsColor(h1: string, h2: string, h3: string)
    requires |h1| == 2 && |h2| == 2 && |h3| == 2
    requires AllHexDigits(h1) && AllHexDigits(h2) && AllHexDigits(h3)
    ensures ColorOf("0x" + (h1 + h2 + h3)) ==
      Rgb(HexValue(h1) as real / 255.0, HexValue(h2) as real / 255.0, HexValue(h3) as real / 255.0)
  {
    var digits := h1 + h2 + h3;
    SixDigitValue(h1, h2, h3);
    PairBelow256(h1);
    PairBelow256(h2);
    PairBelow256(h3);
    ColorOfDigits("0x" + digits, digits, HexValue(h1), HexValue(h2), HexValue(h3));
  }

  /** Writing three bytes as "#rrggbb" and reading the value back gives the
      three bytes over 255. */
  lemma FormatHexRoundTrip(raw: string, r: nat, g: nat, b: nat)
    requires r < 256 && g < 256 && b < 256
    requires Trim(raw) == FormatHex(r, g, b)
    ensures ColorOf(ColorLiteral(raw)) == Rgb(r as real / 255.0, g as real / 255.0, b as real / 255.0)
  {
    FormatHexPairs(r, g, b);
    LonghandRoundTrip(raw, HexString(r, 2), HexString(g, 2), HexString(b, 2));
  }

  lemma FormatHexPairs(r: nat, g: nat, b: nat)
    requires r < 256 && g < 256 && b < 256
    ensures FormatHex(r, g, b) == "#" + (HexString(r, 2) + HexString(g, 2) + HexString(b, 2))
    ensures HexValue(HexString(r, 2)) == r && HexValue(HexString(g, 2)) == g && HexValue(HexString(b, 2)) == b
  {
    var h1, h2, h3 := HexString(r, 2), HexString(g, 2), HexString(b, 2);
    assert "#" + h1 + h2 + h3 == "#" + (h1 + h2 + h3);
    ByteHexValue(r);
    ByteHexValue(g);
    ByteHexValue(b);
  }

  /** A four-character value gives the same literal as its seven-character
      long form with each of the last three characters doubled. */
  lemma ShorthandEqualsLonghand(raw: string, t: string)
    requires t == Trim(raw) && |t| == 4
    ensures ColorLiteral(raw) == ColorLiteral(['#', t[1], t[1], t[2], t[2], t[3], t[3]])
  {
    var long := ['#', t[1], t[1], t[2], t[2], t[3], t[3]];
    TrimKeepsTrimmed(long);
    assert ExpandShorthand(t) == long;
  }

  /** A literal "0x" + h, with h the hex digits of 0xRRGGBB, has colour
      (RR, GG, BB) / 255. */
  lemma ColorOfDigits(lit: string, h: string, r: nat, g: nat, b: nat)
    requires r < 256 && g < 256 && b < 256
    requires lit == "0x" + h && h != [] && AllHexDigits(h)
    requires HexValue(h) == r * 0x1_0000 + g * 0x100 + b
    ensures ColorOf(lit) == Rgb(r as real / 255.0, g as real / 255.0, b as real / 255.0)
  {
    assert lit[2..] == h;
    NormalizeColorInverts(r, g, b);
  }

  /** The doubled digits of "#RGB" read as 0xRRGGBB = 17 * 0xRGB by channel. */
  lemma ShorthandDigitsValue(x: char, y: char, z: char)
    requires IsHexDigit(x) && IsHexDigit(y) && IsHexDigit(z)
    ensures AllHexDigits([x, x, y, y, z, z])
    ensures HexValue([x, x, y, y, z, z]) == (17 * HexDigitValue(x)) * 0x1_0000 + (17 * HexDigitValue(y)) * 0x100 + 17 * HexDigitValue(z)
  {
    assert [x, x, y, y, z, z] == [x, x] + [y, y] + [z, z];
    PairValue(x);
    PairValue(y);
    PairValue(z);
    SixDigitValue([x, x], [y, y], [z, z]);
  }

  /** A "#RGB" shorthand gives channels 17 * digit / 255. */
  lemma ShorthandChannels(raw: string, t: string)
    requires t == Trim(raw) && |t| == 4 && IsHexDigit(t[1]) && IsHexDigit(t[2]) && IsHexDigit(t[3])
    ensures ColorOf(ColorLiteral(raw)) ==
      Rgb((17 * HexDigitValue(t[1])) as real / 255.0,
          (17 * HexDigitValue(t[2])) as real / 255.0,
          (17 * HexDigitValue(t[3])) as real / 255.0)
  {
    ShorthandLiteral(raw, t);
    DoubledDigitsColor(t[1], t[2], t[3]);
  }

  /** The colour of "0x" followed by three doubled hex digits. */
  lemma DoubledDigitsColor(x: char, y: char, z: char)
    requires IsHexDigit(x) && IsHexDigit(y) && IsHexDigit(z)
    ensures ColorOf("0x" + [x, x, y, y, z, z]) ==
      Rgb((17 * HexDigitValue(x)) as real / 255.0, (17 * HexDigitValue(y)) as real / 255.0, (17 * HexDigitValue(z)) as real / 255.0)
  {
    var h := [x, x, y, y, z, z];
    ShorthandDigitsValue(x, y, z);
    ColorOfDigits("0x" + h, h, 17 * HexDigitValue(x), 17 * HexDigitValue(y), 17 * HexDigitValue(z));
  }

  /** The literal of a four-character value: "0x" and the doubled digits. */
  lemma ShorthandLiteral(raw: string, t: string)
    requires t == Trim(raw) && |t| == 4
    ensures ColorLiteral(raw) == "0x" + [t[1], t[1], t[2], t[2], t[3], t[3]]
  {
    assert ExpandShorthand(t)[1..] == [t[1], t[1], t[2], t[2], t[3], t[3]];
  }

  lemma PairValue(c: char)
    requires IsHexDigit(c)
    ensures AllHexDigits([c, c]) && HexValue([c, c]) == 17 * HexDigitValue(c)
  {
    assert [c, c][..1] == [c];
    assert [c][..0] == [];
  }

  /** A value that is not hex after its first character (most colour names,
      an rgb() form, "#ggg") or a lone character yields NaN, hence black. */
  lemma MalformedIsBlack(raw: string, t: string)
    requires t == Trim(raw) && !AllWhitespace(raw)
    requires |t| == 1 || exists i :: 1 <= i < |t| && !IsHexDigit(t[i])
    ensures ColorOf(ColorLiteral(raw)) == Rgb(0.0, 0.0, 0.0)
  {
    var digits := ExpandShorthand(t)[1..];
    assert ColorLiteral(raw) == "0x" + digits;
    if |t| != 1 {
      var i :| 1 <= i < |t| && !IsHexDigit(t[i]);
      ExpandedKeepsNonHex(t, i);
    }
    NonHexLiteralIsBlack("0x" + digits, digits);
  }

  /** Widening a shorthand copies a non-hex character into the digits. */
  lemma ExpandedKeepsNonHex(t: string, i: nat)
    requires 1 <= i < |t| && !IsHexDigit(t[i])
    ensures !AllHexDigits(ExpandShorthand(t)[1..])
  {
    var digits := ExpandShorthand(t)[1..];
    if |t| == 4 {
      if i == 1 {
        assert digits[0] == t[1];
      } else if i == 2 {
        assert digits[2] == t[2];
      } else {
        assert digits[4] == t[3];
      }
    } else {
      assert digits[i - 1] == t[i];
    }
  }

  /** "0x" followed by nothing or by a non-hex character is NaN: black. */
  lemma NonHexLiteralIsBlack(lit: string, digits: string)
    requires lit == "0x" + digits && (digits == [] || !AllHexDigits(digits))
    ensures ColorOf(lit) == Rgb(0.0, 0.0, 0.0)
  {
    assert lit[2..] == digits;
  }

  /** Bits above the low 24 do not reach the channels: adding any multiple
      of 2^24 leaves the colour unchanged. */
  lemma HighByteIgnored(k: int, low: nat)
    requires low < 0x100_0000
    ensures NormalizeColor(Finite(k * 0x100_0000 + low)) == NormalizeColor(Finite(low))
  {
    ChannelBytesOfInteger(k * 0x100_0000 + low);
    ChannelBytesOfInteger(low);
    HighByteArith(k, low);
    SameBytesSameColor(Finite(k * 0x100_0000 + low), Finite(low));
  }

  lemma HighByteArith(k: int, low: nat)
    requires low < 0x100_0000
    ensures var v := k * 0x100_0000 + low;
      && v / 0x1_0000 % 0x100 == low / 0x1_0000 % 0x100
      && v / 0x100 % 0x100 == low / 0x100 % 0x100
      && v % 0x100 == low % 0x100
  {
    var v := k * 0x100_0000 + low;
    DivModUnique(v, 0x1_0000, k * 0x100 + low / 0x1_0000, low % 0x1_0000);
    DivModUnique(k * 0x100 + low / 0x1_0000, 0x100, k, low / 0x1_0000);
    DivModUnique(v, 0x100, k * 0x1_0000 + low / 0x100, low % 0x100);
    DivModUnique(k * 0x1_0000 + low / 0x100, 0x100, k * 0x100 + low / 0x100 / 0x100, low / 0x100 % 0x100);
  }

  /** Four two-digit fields read as one eight-digit number 0xRRGGBBAA. */
  lemma EightDigitValue(h1: string, h2: string, h3: string, h4: string)
    requires |h1| == 2 && |h2| == 2 && |h3| == 2 && |h4| == 2
    requires AllHexDigits(h1) && AllHexDigits(h2) && AllHexDigits(h3) && AllHexDigits(h4)
    ensures AllHexDigits(h1 + h2 + h3 + h4)
    ensures HexValue(h1 + h2 + h3 + h4)
         == HexValue(h1) * 0x100_0000 + (HexValue(h2) * 0x1_0000 + HexValue(h3) * 0x100 + HexValue(h4))
  {
    assert h1 + h2 + h3 + h4 == h1 + (h2 + h3 + h4);
    SixDigitValue(h2, h3, h4);
    assert Pow16(6) == 0x100_0000;
    HexValueAppend(h1, h2 + h3 + h4);
  }

  /** The 8-digit "#rrggbbaa" form, in either letter case, is not recognised:
      its value is read as a 32-bit number, so the channels come out as the
      green, blue and alpha pairs. */
  lemma AlphaFormShiftsChannels(raw: string, h1: string, h2: string, h3: string, h4: string)
    requires |h1| == 2 && |h2| == 2 && |h3| == 2 && |h4| == 2
    requires AllHexDigits(h1) && AllHexDigits(h2) && AllHexDigits(h3) && AllHexDigits(h4)
    requires Trim(raw) == "#" + (h1 + h2 + h3 + h4)
    ensures ColorOf(ColorLiteral(raw)) ==
      Rgb(HexValue(h2) as real / 255.0, HexValue(h3) as real / 255.0, HexValue(h4) as real / 255.0)
  {
    LongLiteral(raw, Trim(raw), h1 + h2 + h3 + h4);
    AlphaPairsColor(h1, h2, h3, h4);
  }

  /** The literal "0x" + four digit pairs has the last three pairs' values
      over 255. */
  lemma AlphaPairsColor(h1: string, h2: string, h3: string, h4: string)
    requires |h1| == 2 && |h2| == 2 && |h3| == 2 && |h4| == 2
    requires AllHexDigits(h1) && AllHexDigits(h2) && AllHexDigits(h3) && AllHexDigits(h4)
    ensures ColorOf("0x" + (h1 + h2 + h3 + h4)) ==
      Rgb(HexValue(h2) as real / 255.0, HexValue(h3) as real / 255.0, HexValue(h4) as real / 255.0)
  {
    EightDigitValue(h1, h2, h3, h4);
    PairBelow256(h1);
    PairBelow256(h2);
    PairBelow256(h3);
    PairBelow256(h4);
    ThirtyTwoBitDigitsColor(h1 + h2 + h3 + h4, HexValue(h1), HexValue(h2), HexValue(h3), HexValue(h4));
  }

  /** A literal whose digits are worth 0xRRGGBBAA has colour (GG, BB, AA) / 255. */
  lemma ThirtyTwoBitDigitsColor(digits: string, r: nat, g: nat, b: nat, a: nat)
    requires r < 256 && g < 256 && b < 256 && a < 256
    requires digits != [] && AllHexDigits(digits)
    requires HexValue(digits) == r * 0x100_0000 + (g * 0x1_0000 + b * 0x100 + a)
    ensures ColorOf("0x" + digits) == Rgb(g as real / 255.0, b as real / 255.0, a as real / 255.0)
  {
    LiteralValue(digits, HexValue(digits));
    ThirtyTwoBitColor(r, g, b, a);
  }

  /** normalizeColor of 0xRRGGBBAA: the top byte is dropped. */
  lemma ThirtyTwoBitColor(r: nat, g: nat, b: nat, a: nat)
    requires r < 256 && g < 256 && b < 256 && a < 256
    ensures NormalizeColor(Finite(r * 0x100_0000 + (g * 0x1_0000 + b * 0x100 + a)))
         == Rgb(g as real / 255.0, b as real / 255.0, a as real / 255.0)
  {
    HighByteIgnored(r, g * 0x1_0000 + b * 0x100 + a);
    NormalizeColorInverts(g, b, a);
  }

  /** A trimmed value "#" + digits other than a shorthand becomes "0x" + digits. */
  lemma LongLiteral(raw: string, t: string, digits: string)
    requires t == Trim(raw) && t == "#" + digits && |digits| != 3
    ensures ColorLiteral(raw) == "0x" + digits
  {
    assert t[1..] == digits;
  }

  /** The colour of "0x" + digits is normalizeColor of the digits' value. */
  lemma LiteralValue(digits: string, v: nat)
    requires digits != [] && AllHexDigits(digits) && HexValue(digits) == v
    ensures ColorOf("0x" + digits) == NormalizeColor(Finite(v))
  {
    assert ("0x" + digits)[2..] == digits;
  }

  /** The first character of a trimmed value that is not a shorthand is
      dropped unread, whether or not it is '#'. */
  lemma FirstCharacterDropped(raw: string, t: string)
    requires t == Trim(raw) && t != [] && |t| != 4
    ensures ColorLiteral(raw) == "0x" + t[1..]
  {
  }

  /** A colour name is not understood: "red" loses its 'r' and is read as
      0xed, no red, no green and blue at 237/255. */
  lemma RedIsReadAsBlue(raw: string)
    requires Trim(raw) == "red"
    ensures ColorOf(ColorLiteral(raw)) == Rgb(0.0, 0.0, 237.0 / 255.0)
  {
    var t := Trim(raw);
    FirstCharacterDropped(raw, t);
    assert t[1..] == "ed";
    assert "ed"[..1] == "e" && "e"[..0] == [];
    LiteralValue("ed", 237);
    NormalizeColorInverts(0, 0, 237);
  }
}
