/**
 * The SVG badge renderer of the counter route: a dispatcher on the theme, a fixed-size
 * two-zone badge, and a row of one sprite image per decimal digit.
 *
 * Each renderer is split into the values the source computes before its template
 * (a record) and the template itself (a Render function); the template's indentation
 * is not modelled, its lines are joined with "\n".
 */
module Badge {
  import opened Decimal
  import opened XmlEscape
  import opened Http

  /** The total length of some texts. */
  function TotalLength(parts: seq<string>): nat {
    if parts == [] then 0 else |parts[0]| + TotalLength(parts[1..])
  }

  /**
   * The parts joined with sep in between (`Array.prototype.join`): the text starts with the
   * first part and is exactly as long as the parts plus n - 1 separators; JoinAppend says
   * the parts follow each other in order, one sep apart.
   */
  function Join(parts: seq<string>, sep: string): (r: string)
    ensures parts == [] ==> r == ""
    ensures |parts| >= 1 ==> parts[0] <= r
    ensures |parts| >= 1 ==> |r| == TotalLength(parts) + (|parts| - 1) * |sep|
  {
    if parts == [] then ""
    else if |parts| == 1 then parts[0]
    else parts[0] + sep + Join(parts[1..], sep)
  }

  /** Joining p + q is joining p, a separator, then joining q. */
  lemma {:induction false} JoinAppend(p: seq<string>, q: seq<string>, sep: string)
    requires p != [] && q != []
    ensures Join(p + q, sep) == Join(p, sep) + sep + Join(q, sep)
  {
    if |p| == 1 {
      assert (p + q)[1..] == q;
    } else {
      JoinAppend(p[1..], q, sep);
      assert (p + q)[1..] == p[1..] + q;
    }
  }

  /** One part joins to itself; two parts join to the first, sep, then the second. */
  lemma JoinPair(a: string, b: string, sep: string)
    ensures Join([a], sep) == a
    ensures Join([a, b], sep) == a + sep + b
  {
    JoinAppend([a], [b], sep);
    assert [a] + [b] == [a, b];
  }

  /** A substitution `${...}` of a template literal. */
  datatype Subst =
    | Num(n: int)          // a number, printed with `toString()`
    | Str(s: string)       // a string, inserted as it is
    | EscapedText(raw: string) // `escapeXml(raw)`

  function SubstText(v: Subst): string {
    match v
    case Num(n) => IntToString(n)
    case Str(s) => s
    case EscapedText(raw) => EscapeXml(raw)
  }

  /**
   * A template literal `p0${v0}p1${v1}...pn`: its string parts with the substituted values
   * in between. A JavaScript template always has one value fewer than parts, the case
   * every caller here uses; with fewer values the parts after the last value are dropped,
   * and surplus values are ignored.
   */
  function Template(parts: seq<string>, values: seq<Subst>): string {
    if parts == [] then ""
    else if values == [] || |parts| == 1 then parts[0]
    else parts[0] + SubstText(values[0]) + Template(parts[1..], values[1..])
  }

  // ---------------------------------------------------------------- dispatcher

  const DigitTheme: string := "3d-num"

  /** `buildSvg`: the "3d-num" theme selects the digit renderer, every other theme the simple badge. */
  function BuildSvg(name: string, count: int, theme: string): string {
    if theme == DigitTheme then BuildDigitImageSvg(name, count)
    else BuildSimpleBadgeSvg(name, count, theme)
  }

  /** An unknown theme is never an error: it renders exactly the default "simple" badge. */
  lemma BuildSvgDispatch(name: string, count: int, theme: string)
    ensures theme == DigitTheme ==> BuildSvg(name, count, theme) == BuildDigitImageSvg(name, count)
    ensures theme != DigitTheme ==> BuildSvg(name, count, theme) == BuildSvg(name, count, "simple")
  {
    if theme != DigitTheme {
      SimpleBadgeThemeIndependent(name, count, theme, "simple");
    }
  }

  // ---------------------------------------------------------------- simple badge

  /** The values `buildSimpleBadgeSvg` computes before filling its template. */
  datatype SimpleBadge = SimpleBadge(
    labelText: string,
    value: string,
    width: int,
    height: int,
    bgColor: string,
    textColor: string,
    accentColor: string,
    caption: string)

  /** The background colour is "#111827" whatever the theme. */
  function SimpleBadgeOf(name: string, count: int, theme: string): (b: SimpleBadge)
    ensures b.bgColor == "#111827"
  {
    SimpleBadge(
      name,
      IntToString(count),
      180,
      32,
      if theme == "dark" then "#111827" else "#111827",
      "#F9FAFB",
      "#10B981",
      "nth visitor")
  }

  /** The string parts of the simple badge's template, one per gap between substitutions. */
  const SimpleBadgeParts: seq<string> := [
    "<svg width=\"", "\" height=\"", "\" viewBox=\"0 0 ", " ", "\"\nfill=\"none\" xmlns=\"http://www.w3.org/2000/svg\"\nrole=\"img\" aria-label=\"", " ",
    "\">\n<title>", " counter</title>\n<!-- background -->\n<rect width=\"", "\" height=\"", "\" rx=\"6\" fill=\"",
    "\" />\n<!-- left highlighted area (value zone) -->\n<rect x=\"0\" y=\"0\" width=\"100\" height=\"", "\" rx=\"6\" fill=\"",
    "\" />\n<!-- right zone (label zone) -->\n<rect x=\"100\" y=\"0\" width=\"", "\" height=\"", "\" rx=\"6\" fill=\"rgba(15,23,42,0.9)\" />\n"
      + "<!-- VALUE on the LEFT -->\n<text x=\"90\" y=\"20\"\nfill=\"",
    "\"\nfont-family=\"ui-monospace, SFMono-Regular, Menlo, Monaco, Consolas, 'Liberation Mono', 'Courier New', monospace\"\n"
      + "font-size=\"14\"\ntext-anchor=\"end\">\n",
    "\n</text>\n<!-- LABEL on the RIGHT -->\n<text x=\"", "\" y=\"20\"\nfill=\"",
    "\"\nfont-family=\"system-ui, -apple-system, BlinkMacSystemFont, 'Segoe UI', sans-serif\"\n"
      + "font-size=\"12\"\ntext-anchor=\"end\">\n",
    "\n</text>\n</svg>"]

  /** `buildSimpleBadgeSvg`'s template filled with the badge's values. */
  function RenderSimpleBadge(b: SimpleBadge): string {
    var w, h := Num(b.width), Num(b.height);
    Template(SimpleBadgeParts, [
      w, h, w, h, Str(b.labelText), Str(b.value),
      Str(b.labelText), w, h, Str(b.bgColor),
      h, Str(b.accentColor),
      Num(b.width - 100), h, Str(b.textColor),
      EscapedText(b.value),
      Num(b.width - 10), Str(b.textColor),
      EscapedText(b.caption)])
  }

  /** `buildSimpleBadgeSvg`. */
  function BuildSimpleBadgeSvg(name: string, count: int, theme: string): string {
    RenderSimpleBadge(SimpleBadgeOf(name, count, theme))
  }

  /**
   * The simple badge is 180 by 32 on a #111827 background whatever the theme; its value
   * text is the count's decimal rendering, which escaping leaves unchanged and which reads
   * back as the count; its caption is the fixed text "nth visitor".
   */
  lemma SimpleBadgeLayout(name: string, count: int, theme: string)
    ensures var b := SimpleBadgeOf(name, count, theme);
      && b.width == 180 && b.height == 32
      && b.bgColor == "#111827"
      && b.value == IntToString(count)
      && EscapeXml(b.value) == b.value
      && ParseNumber(EscapeXml(b.value)) == Some(count)
      && EscapeXml(b.caption) == "nth visitor"
  {
    var b := SimpleBadgeOf(name, count, theme);
    DecimalTextNeedsNoEscaping(count);
    ParseNumberOfIntToString(count);
    EscapeXmlIdentity("nth visitor");
  }

  /** Both arms of the colour choice are "#111827", so the theme never changes the output. */
  lemma SimpleBadgeThemeIndependent(name: string, count: int, theme1: string, theme2: string)
    ensures BuildSimpleBadgeSvg(name, count, theme1) == BuildSimpleBadgeSvg(name, count, theme2)
  {
  }

  /** A decimal rendering holds only digits and '-', so escaping it changes nothing. */
  lemma DecimalTextNeedsNoEscaping(count: int)
    ensures EscapeXml(IntToString(count)) == IntToString(count)
  {
    var v := IntToString(count);
    IntToStringIsDecimal(count);
    forall i | 0 <= i < |v|
      ensures !IsMarkup(v[i])
    {
      if i > 0 || count >= 0 {
        assert IsDigit(v[i]) by {
          if count < 0 {
            assert v[i] == v[1..][i - 1];
          }
        }
      }
    }
    EscapeXmlIdentity(v);
  }

  // ---------------------------------------------------------------- digit sprites

  const DigitWidth: int := 32
  const DigitHeight: int := 32
  const Gap: int := 4

  /** One embedded image per digit; the base64 payloads are placeholders. */
  const DigitSprites: map<char, string> := map[
    '0' := "data:image/gif;base64,PASTE_0_HERE",
    '1' := "data:image/gif;base64,PASTE_1_HERE",
    '2' := "data:image/gif;base64,PASTE_2_HERE",
    '3' := "data:image/gif;base64,PASTE_3_HERE",
    '4' := "data:image/gif;base64,PASTE_4_HERE",
    '5' := "data:image/gif;base64,PASTE_5_HERE",
    '6' := "data:image/gif;base64,PASTE_6_HERE",
    '7' := "data:image/gif;base64,PASTE_7_HERE",
    '8' := "data:image/gif;base64,PASTE_8_HERE",
    '9' := "data:image/gif;base64,PASTE_9_HERE"]

  /** Every digit has a sprite, and none is empty. */
  lemma SpriteForEveryDigit(d: char)
    requires IsDigit(d)
    ensures d in DigitSprites && DigitSprites[d] != ""
  {
  }

  const ImageTagParts: seq<string> := ["<image href=\"", "\" x=\"", "\" y=\"0\" width=\"", "\" height=\"", "\" />"]

  /** One `<image>` element placed at x. */
  function ImageTag(src: string, x: int): string {
    Template(ImageTagParts, [Str(src), Num(x), Num(DigitWidth), Num(DigitHeight)])
  }

  /** A filled template begins with the template's first string part. */
  lemma TemplateStartsWithFirstPart(parts: seq<string>, values: seq<Subst>)
    requires parts != []
    ensures parts[0] <= Template(parts, values)
  {
  }

  /** An image tag is never empty: it starts with `<image href="`. */
  lemma ImageTagShape(src: string, x: int)
    ensures "<image href=\"" <= ImageTag(src, x)
    ensures ImageTag(src, x) != ""
  {
    TemplateStartsWithFirstPart(ImageTagParts, [Str(src), Num(x), Num(DigitWidth), Num(DigitHeight)]);
  }

  /**
   * The callback of `digits.map`: an image for a digit, the empty string otherwise. The
   * missing-sprite branch cannot be taken, so the slot is non-empty exactly for a digit.
   */
  function DigitSlot(d: char, index: int): (r: string)
    ensures r != "" <==> IsDigit(d)
  {
    if !IsDigit(d) then ""
    else if d !in DigitSprites || DigitSprites[d] == "" then ""
    else
      ImageTagShape(DigitSprites[d], index * (DigitWidth + Gap));
      ImageTag(DigitSprites[d], index * (DigitWidth + Gap))
  }

  /** `s.map((c, index) => f(c, index))` over the characters of a string. */
  function MapIndexed(f: (char, int) -> string, s: string): seq<string> {
    if s == [] then []
    else MapIndexed(f, s[..|s| - 1]) + [f(s[|s| - 1], |s| - 1)]
  }

  lemma {:induction false} MapIndexedLength(f: (char, int) -> string, s: string)
    ensures |MapIndexed(f, s)| == |s|
  {
    if s != [] {
      MapIndexedLength(f, s[..|s| - 1]);
    }
  }

  lemma {:induction false} MapIndexedAt(f: (char, int) -> string, s: string, i: nat)
    requires i < |s|
    ensures |MapIndexed(f, s)| == |s| && MapIndexed(f, s)[i] == f(s[i], i)
  {
    var k := |s| - 1;
    MapIndexedLength(f, s[..k]);
    if i < k {
      MapIndexedAt(f, s[..k], i);
      assert s[..k][i] == s[i];
    }
  }

  /** `digits.map((d, index) => ...)`: one slot per character of the count's text. */
  function DigitSlots(digits: string): seq<string> {
    MapIndexed(DigitSlot, digits)
  }

  /** The values `buildDigitImageSvg` computes before filling its template. */
  datatype DigitBadge = DigitBadge(
    labelText: string,
    value: string,
    width: int,
    height: int,
    images: seq<string>)

  /** One slot per character of the count's text, on a canvas 36 per slot wide less the last gap. */
  function DigitBadgeOf(name: string, count: int): (b: DigitBadge)
    ensures |b.images| == |b.value|
    ensures b.width == 36 * |b.images| - 4
  {
    var value := IntToString(count);
    var digits := value;
    MapIndexedLength(DigitSlot, digits);
    DigitBadge(
      name,
      value,
      |digits| * DigitWidth + (|digits| - 1) * Gap,
      DigitHeight,
      DigitSlots(digits))
  }

  /** The string parts of the digit badge's template. */
  const DigitBadgeParts: seq<string> := [
    "<svg width=\"", "\" height=\"", "\" viewBox=\"0 0 ", " ",
    "\"\nxmlns=\"http://www.w3.org/2000/svg\" role=\"img\" aria-label=\"", " ", "\">\n<title>", " counter</title>\n",
    "\n</svg>"]

  /** `buildDigitImageSvg`'s template filled with the badge's values; the images are joined by newlines. */
  function RenderDigitBadge(b: DigitBadge): string {
    var w, h := Num(b.width), Num(b.height);
    Template(DigitBadgeParts, [w, h, w, h, Str(b.labelText), Str(b.value), Str(b.labelText), Str(Join(b.images, "\n"))])
  }

  /** `buildDigitImageSvg`. */
  function BuildDigitImageSvg(name: string, count: int): string {
    RenderDigitBadge(DigitBadgeOf(name, count))
  }

  // ---------------------------------------------------------------- the <svg> element

  /** The start of an `<svg>` element of width w and height h, up to the last number of its viewBox. */
  function SvgOpening(w: int, h: int): string {
    "<svg width=\"" + IntToString(w) + ("\" height=\"" + IntToString(h)
      + ("\" viewBox=\"0 0 " + IntToString(w) + (" " + IntToString(h))))
  }

  /** One step through a template: the k-th part, then the k-th value, then the rest. */
  lemma TemplateStep(parts: seq<string>, values: seq<Subst>, k: nat)
    requires k + 1 < |parts| && k < |values|
    ensures Template(parts[k..], values[k..])
      == parts[k] + SubstText(values[k]) + Template(parts[k + 1..], values[k + 1..])
  {
    assert parts[k..][1..] == parts[k + 1..];
    assert values[k..][1..] == values[k + 1..];
  }

  /** A prefix stays a prefix when the same text is put in front of both. */
  lemma PrefixPrepend(x: string, a: string, b: string)
    requires a <= b
    ensures x + a <= x + b
  {
    assert (x + b)[..|x + a|] == x + b[..|a|];
  }

  /** If a begins the rest of the template after part k, part k and value k followed by a begin it at k. */
  lemma TemplatePrefixStep(parts: seq<string>, values: seq<Subst>, k: nat, a: string)
    requires k + 1 < |parts| && k < |values|
    requires a <= Template(parts[k + 1..], values[k + 1..])
    ensures parts[k] + SubstText(values[k]) + a <= Template(parts[k..], values[k..])
  {
    TemplateStep(parts, values, k);
    PrefixPrepend(parts[k] + SubstText(values[k]), a, Template(parts[k + 1..], values[k + 1..]));
  }

  /**
   * Both badge templates open with `<svg width="${width}" height="${height}" viewBox="0 0
   * ${width} ${height}`, so their output starts with the `<svg>` element of that size.
   */
  lemma SvgOpeningOfTemplate(parts: seq<string>, values: seq<Subst>, w: int, h: int)
    requires |parts| >= 5 && parts[0] == "<svg width=\"" && parts[1] == "\" height=\""
    requires parts[2] == "\" viewBox=\"0 0 " && parts[3] == " "
    requires |values| >= 4 && values[0] == Num(w) && values[1] == Num(h) && values[2] == Num(w) && values[3] == Num(h)
    ensures SvgOpening(w, h) <= Template(parts, values)
  {
    var x3 := parts[3] + SubstText(values[3]);
    TemplatePrefixStep(parts, values, 3, "");
    assert x3 + "" == x3;
    var x2 := parts[2] + SubstText(values[2]) + x3;
    TemplatePrefixStep(parts, values, 2, x3);
    var x1 := parts[1] + SubstText(values[1]) + x2;
    TemplatePrefixStep(parts, values, 1, x2);
    TemplatePrefixStep(parts, values, 0, x1);
    assert parts[0..] == parts && values[0..] == values;
  }

  /** The simple badge's output opens with `<svg width="180" height="32" viewBox="0 0 180 32"`. */
  lemma SimpleBadgeSvgOpening(name: string, count: int, theme: string)
    ensures SvgOpening(180, 32) <= BuildSimpleBadgeSvg(name, count, theme)
  {
    var b := SimpleBadgeOf(name, count, theme);
    var w, h := Num(b.width), Num(b.height);
    SvgOpeningOfTemplate(SimpleBadgeParts, [
      w, h, w, h, Str(b.labelText), Str(b.value),
      Str(b.labelText), w, h, Str(b.bgColor),
      h, Str(b.accentColor),
      Num(b.width - 100), h, Str(b.textColor),
      EscapedText(b.value),
      Num(b.width - 10), Str(b.textColor),
      EscapedText(b.caption)], 180, 32);
  }

  /** The digit badge's output opens with an `<svg>` element of its computed width and height 32. */
  lemma DigitBadgeSvgOpening(name: string, count: int)
    ensures SvgOpening(DigitBadgeOf(name, count).width, 32) <= BuildDigitImageSvg(name, count)
  {
    var b := DigitBadgeOf(name, count);
    var w, h := Num(b.width), Num(b.height);
    SvgOpeningOfTemplate(DigitBadgeParts,
      [w, h, w, h, Str(b.labelText), Str(b.value), Str(b.labelText), Str(Join(b.images, "\n"))], b.width, 32);
  }

  /**
   * With n the length of the count's text: n slots on a canvas n*32 + (n-1)*4 wide and 32
   * high. Every character takes its place in the width, digit or not.
   */
  lemma DigitBadgeLayout(name: string, count: int)
    ensures DigitBadgeOf(name, count).value == IntToString(count)
    ensures |DigitBadgeOf(name, count).images| == |IntToString(count)|
    ensures DigitBadgeOf(name, count).width == |IntToString(count)| * 32 + (|IntToString(count)| - 1) * 4
    ensures DigitBadgeOf(name, count).height == 32
  {
    MapIndexedLength(DigitSlot, IntToString(count));
  }

  /**
   * Slot i holds the digit's sprite as an image at x = 36*i exactly when character i of
   * the count's text is a digit; any other character leaves the slot empty.
   */
  lemma DigitSlotPlacement(name: string, count: int, i: nat)
    requires i < |IntToString(count)|
    ensures |DigitBadgeOf(name, count).images| == |IntToString(count)|
    ensures IsDigit(IntToString(count)[i]) ==> IntToString(count)[i] in DigitSprites
    ensures IsDigit(IntToString(count)[i]) ==>
      DigitBadgeOf(name, count).images[i] == ImageTag(DigitSprites[IntToString(count)[i]], 36 * i)
    ensures !IsDigit(IntToString(count)[i]) ==> DigitBadgeOf(name, count).images[i] == ""
    ensures DigitBadgeOf(name, count).images[i] != "" <==> IsDigit(IntToString(count)[i])
  {
    var v := IntToString(count);
    var slots := DigitBadgeOf(name, count).images;
    MapIndexedAt(DigitSlot, v, i);
    assert slots == MapIndexed(DigitSlot, v);
    assert slots[i] == DigitSlot(v[i], i);
    if IsDigit(v[i]) {
      SpriteForEveryDigit(v[i]);
      assert i * (DigitWidth + Gap) == 36 * i;
    }
  }

  /** How many slots hold an image (a non-empty string). */
  function CountImages(slots: seq<string>): nat {
    if slots == [] then 0
    else CountImages(slots[..|slots| - 1]) + (if slots[|slots| - 1] != "" then 1 else 0)
  }

  /** How many characters of s are digits. */
  function CountDigits(s: string): nat {
    if s == [] then 0
    else CountDigits(s[..|s| - 1]) + (if IsDigit(s[|s| - 1]) then 1 else 0)
  }

  /** There is one image per digit character, whatever the other characters are. */
  lemma {:induction false} DigitSlotsImageCount(digits: string)
    ensures CountImages(DigitSlots(digits)) == CountDigits(digits)
  {
    if digits != [] {
      var k := |digits| - 1;
      var prev := DigitSlots(digits[..k]);
      var last := DigitSlot(digits[k], k);
      var slots := DigitSlots(digits);
      assert slots == prev + [last];
      assert slots[..|slots| - 1] == prev && slots[|slots| - 1] == last;
      DigitSlotsImageCount(digits[..k]);
      if IsDigit(digits[k]) {
        SpriteForEveryDigit(digits[k]);
        ImageTagShape(DigitSprites[digits[k]], k * (DigitWidth + Gap));
      }
    }
  }

  lemma {:induction false} CountDigitsAll(s: string)
    requires AllDigits(s)
    ensures CountDigits(s) == |s|
  {
    if s != [] {
      CountDigitsAll(s[..|s| - 1]);
    }
  }

  /**
   * For a non-negative count the number of images is its number of decimal digits k, at
   * least 1, where 10^(k-1) <= count < 10^k (k = 1 for 0), and the canvas is 36*k - 4 wide.
   * A negative count renders its '-' as an empty first slot and an image per digit after it.
   */
  lemma DigitImageCount(name: string, count: int)
    ensures count >= 0 ==>
      && CountImages(DigitBadgeOf(name, count).images) == |IntToString(count)| >= 1
      && count < Pow10(|IntToString(count)|)
      && (|IntToString(count)| == 1 || Pow10(|IntToString(count)| - 1) <= count)
      && DigitBadgeOf(name, count).width == 36 * |IntToString(count)| - 4
    ensures count < 0 ==>
      && DigitBadgeOf(name, count).images[0] == ""
      && CountImages(DigitBadgeOf(name, count).images) == |IntToString(count)| - 1
  {
    var v := IntToString(count);
    IntToStringIsDecimal(count);
    DigitSlotsImageCount(v);
    DigitBadgeLayout(name, count);
    if count >= 0 {
      CountDigitsAll(v);
      NatToStringLength(count);
    } else {
      DigitSlotPlacement(name, count, 0);
      CountDigitsAll(v[1..]);
      CountDigitsSplit(v);
    }
  }

  lemma {:induction false} CountDigitsSplit(s: string)
    requires s != []
    ensures CountDigits(s) == (if IsDigit(s[0]) then 1 else 0) + CountDigits(s[1..])
  {
    if |s| > 1 {
      var k := |s| - 1;
      assert s[..k][1..] == s[1..][..k - 1];
      CountDigitsSplit(s[..k]);
    } else {
      assert s[..0] == [] && s[1..] == [];
    }
  }

  /** Count 0 gives one image on a 32-wide canvas; count 105 gives three images, 104 wide. */
  lemma DigitBadgeExamples(name: string)
    ensures DigitBadgeOf(name, 0).width == 32 && CountImages(DigitBadgeOf(name, 0).images) == 1
    ensures DigitBadgeOf(name, 105).width == 104 && CountImages(DigitBadgeOf(name, 105).images) == 3
  {
    DigitImageCount(name, 0);
    DigitImageCount(name, 105);
    assert NatToString(10) == "10";
    assert NatToString(105) == NatToString(10) + "5";
  }
}
