# Visitor counter badge — a verified model

The repository is a small edge web service that counts visits to one profile
(`Jervi-sir`) and answers each visit with an SVG badge showing the new count.
This model covers two of its route handlers:

- `GET /api/counter` reads an optional `theme` query parameter (default `"simple"`).
  It increments the key `counter:Jervi-sir` in a key-value store and renders the
  returned count. The theme `"3d-num"` renders one sprite image per decimal digit;
  every other theme renders a fixed 180×32 two-zone badge. In the simple badge, two
  slots go through `escapeXml`: the value inside the left `<text>` element and the
  caption `nth visitor` inside the right one. `escapeXml` is a chain of five
  replace-alls that produces the predefined entities of XML 1.0 (Fifth Edition),
  section 4.6. The label goes unescaped into `aria-label` and `<title>`, the value
  unescaped into `aria-label`, and the digit badge escapes nothing. These raw insertions are harmless:
  the label `Jervi-sir` and a count's decimal text hold no markup character
  (`CounterRoute.CounterNameNeedsNoEscaping`, `Badge.DecimalTextNeedsNoEscaping`).
- `GET /api/cheat` overrides the counter. It refuses a missing or wrong `secret`
  with 403. Next it refuses a `value` that is not a finite non-negative number with 400.
  Otherwise it writes the value to the same key and answers 200 with a confirmation text.

The model is split into these modules:

| file | module | models |
|---|---|---|
| `http.dfy` | `Http` | an `Option` for query parameters and environment variables, and the `Response` record |
| `decimal.dfy` | `Decimal` | `Number#toString` on integers and `Number(text)` limited to decimal integers |
| `escape.dfy` | `XmlEscape` | `escapeXml` and the properties of its output |
| `badge.dfy` | `Badge` | `buildSvg`, `buildSimpleBadgeSvg`, `buildDigitImageSvg` and `DIGIT_SPRITES` |
| `kv_store.dfy` | `KvStore` | the key-value store as a class over a `map<string, int>`, with `incr` and `set` |
| `counter_route.dfy` | `CounterRoute` | the counter `GET` handler, as a method on the store |
| `cheat_route.dfy` | `CheatRoute` | the override `GET` handler: a pure decision (`Decide`) and a method that acts on it |

Each renderer is modelled as the record of values the source computes before its
template, plus the template itself. A JavaScript template literal is a `Template` of
its fixed string parts and its substitutions (a number, a raw string, or an escaped
string).

## Model

| member | source | states |
|---|---|---|
| XmlEscape.ReplaceAll | app/api/counter/route.ts:181-186 | `String.prototype.replace` with a global pattern of one character: every occurrence replaced, left to right (definition only; its properties are the `ReplaceAll…` lemmas below) |
| XmlEscape.EscapeXml | app/api/counter/route.ts:180-187 | `escapeXml`: the replace-alls of `&`, `"`, `'`, `<` and `>` in that order (definition only; what it computes is stated by `EscapeXmlIsPerCharacter`, `EscapeXmlIsEscaped`, `UnescapeEscapeXml` and the lemmas after them) |
| XmlEscape.ReplaceAllRemoves | app/api/counter/route.ts:181-186 | after replacing every `c` by a text that does not contain `c`, no `c` is left |
| XmlEscape.ReplaceAllAbsent | app/api/counter/route.ts:181-186 | a replace-all of a character that does not occur changes nothing |
| XmlEscape.ReplaceAllAppend | app/api/counter/route.ts:181-186 | a global replace works piecewise: replacing in `a + b` is replacing in `a`, then in `b` |
| XmlEscape.ReplaceAllSingleton | app/api/counter/route.ts:181-186 | on one character, a replace-all gives the replacement exactly when that character is the one replaced |
| XmlEscape.LaterPassesKeep | app/api/counter/route.ts:183-186 | an entity produced by an earlier pass holds none of the characters later passes replace, so they leave it intact |
| XmlEscape.EscapeXmlPlainChar | app/api/counter/route.ts:180-187 | `escapeXml` leaves a character other than `& " ' < >` alone |
| XmlEscape.EscapeXmlMarkupChar | app/api/counter/route.ts:182-186 | each of `& " ' < >` escapes to exactly its own entity (`&amp;`, `&quot;`, `&apos;`, `&lt;`, `&gt;`), including `&`, which the first pass writes and no later pass touches |
| XmlEscape.EscapeXmlOneChar | app/api/counter/route.ts:180-187 | on one character, the five passes equal the per-character entity map |
| XmlEscape.EscapeXmlIsPerCharacter | app/api/counter/route.ts:181-186 | because `&` is replaced first, the five chained replace-alls equal one per-character map over the whole string |
| XmlEscape.EntityAtAppend | app/api/counter/route.ts:180-187 | an entity that starts at some position still starts there after more text is appended |
| XmlEscape.EscapedConcat | app/api/counter/route.ts:180-187 | two escaped texts joined together are still escaped |
| XmlEscape.EscapeCharIsEscaped | app/api/counter/route.ts:182-186 | the escape of any one character holds no raw `< > " '`, and each `&` in it starts an entity |
| XmlEscape.EscapeEachIsEscaped | app/api/counter/route.ts:180-187 | the per-character map's output is escaped |
| XmlEscape.EscapeXmlIsEscaped | app/api/counter/route.ts:180-187 | `escapeXml` output contains no raw `<`, `>`, `"` or `'`, and every `&` in it starts one of the five predefined entities |
| XmlEscape.EscapeEachIdentity | app/api/counter/route.ts:180-187 | the per-character map is the identity on text without the five markup characters |
| XmlEscape.EscapeXmlIdentity | app/api/counter/route.ts:180-187 | `escapeXml` is the identity on text without the five markup characters |
| XmlEscape.UnescapeEscapeChar | app/api/counter/route.ts:182-186 | decoding the escape of one character gives back that character, whatever follows it |
| XmlEscape.UnescapeEscapeEach | app/api/counter/route.ts:180-187 | decoding the per-character escape gives back the input |
| XmlEscape.UnescapeEscapeXml | app/api/counter/route.ts:180-187 | decoding the five entities after `escapeXml` gives back the input, for every input |
| XmlEscape.EscapeEachGrows | app/api/counter/route.ts:180-187 | escaping never shortens a text; a text with a markup character comes out strictly longer and containing a `&` |
| XmlEscape.EscapeXmlFixedPoint | app/api/counter/route.ts:180-187 | `escapeXml(s) == s` if and only if `s` holds none of the five markup characters |
| XmlEscape.EscapeXmlTwice | app/api/counter/route.ts:180-187 | escaping twice equals escaping once if and only if the input has no markup character, so `escapeXml` is not idempotent |
| XmlEscape.EscapeEachOfAmp | app/api/counter/route.ts:182 | the escape of `&amp;` is `&amp;amp;` |
| XmlEscape.EscapeXmlDoubleEscapesAmp | app/api/counter/route.ts:182 | `&` escapes to `&amp;` and, escaped again, to `&amp;amp;` |
| Decimal.NatToString | app/api/counter/route.ts:89 | `toString` of a non-negative integer (definition only; stated by `NatToStringIsDecimal`, `DecimalValueOfNatToString` and `NatToStringLength`) |
| Decimal.IntToString | app/api/counter/route.ts:89 | `toString` of an integer: `-` before the digits of a negative one (definition only; stated by `IntToStringIsDecimal` and `ParseNumberOfIntToString`) |
| Decimal.ParseNumber | app/api/cheat/route.ts:23 | `Number(text)` on decimal integers: a finite number is read exactly from the empty text, a digit run, or `-` followed by a digit run; a digit run reads as its decimal value (leading zeros included) and `-` negates it; a value read is negative only when the text starts with `-` |
| Decimal.ParseNumberExamples | app/api/cheat/route.ts:23 | `007` reads as 7 and `-0` as 0; `abc`, `1x` and a lone `-` read as no finite number |
| Decimal.NatToStringIsDecimal | app/api/counter/route.ts:89 | `toString` of a non-negative integer is a non-empty run of decimal digits with no leading zero unless it is 0 |
| Decimal.IntToStringIsDecimal | app/api/counter/route.ts:89 | `toString` of an integer is digits, preceded by `-` exactly for a negative integer |
| Decimal.DecimalValueOfNatToString | app/api/counter/route.ts:89 | the digits of `toString(n)` read back as `n` |
| Decimal.ParseNumberOfIntToString | app/api/cheat/route.ts:23 | `Number(n.toString())` is `n` for every integer `n` |
| Decimal.NatToStringLength | app/api/counter/route.ts:146-147 | the number k of digits of `toString(n)` satisfies `n < 10^k` and, when k > 1, `10^(k-1) <= n` |
| Badge.Join | app/api/counter/route.ts:167 | `Array.prototype.join`: no parts give `""`; otherwise the text starts with the first part and is exactly as long as all parts plus n − 1 separators |
| Badge.JoinAppend | app/api/counter/route.ts:167 | joining `p + q` (both non-empty) is joining `p`, one separator, then joining `q`: the parts appear in order, one separator apart |
| Badge.JoinPair | app/api/counter/route.ts:167 | one part joins to itself; two parts `a`, `b` join to `a + sep + b` |
| Badge.SubstText | app/api/counter/route.ts:99-129 | the text of a `${…}` substitution: a number through `toString()`, a string as it is, or `escapeXml` of a string (definition only) |
| Badge.Template | app/api/counter/route.ts:98-133 | a template literal: its fixed parts with the substitutions' texts in between (definition only; stated by `TemplateStartsWithFirstPart`, `TemplateStep` and `SvgOpeningOfTemplate`) |
| Badge.BuildSvg | app/api/counter/route.ts:59-75 | `buildSvg`: theme `"3d-num"` gives the digit badge, any other theme the simple badge (definition only; stated by `BuildSvgDispatch`) |
| Badge.SimpleBadgeOf | app/api/counter/route.ts:88-96 | the values computed before the simple template; the background is `#111827` whatever the theme |
| Badge.RenderSimpleBadge | app/api/counter/route.ts:98-133 | the simple template filled with those values, the value and the caption through `escapeXml` (definition only; stated by `SimpleBadgeSvgOpening` and `SimpleBadgeLayout`) |
| Badge.BuildSimpleBadgeSvg | app/api/counter/route.ts:79-134 | `buildSimpleBadgeSvg`: the values, then the template (definition only; stated by `SimpleBadgeLayout`, `SimpleBadgeThemeIndependent` and `SimpleBadgeSvgOpening`) |
| Badge.SvgOpeningOfTemplate | app/api/counter/route.ts:99 | a template (both badge templates, lines 99 and 170) whose first parts are `<svg width="`, `" height="`, `" viewBox="0 0 `, ` ` with values width, height, width, height, starts with `<svg width="W" height="H" viewBox="0 0 W H` |
| Badge.SimpleBadgeSvgOpening | app/api/counter/route.ts:99 | the simple badge's output starts with `<svg width="180" height="32" viewBox="0 0 180 32` |
| Badge.DigitBadgeSvgOpening | app/api/counter/route.ts:170 | the digit badge's output starts with `<svg width="W" height="32" viewBox="0 0 W 32`, W its computed width |
| Badge.DigitSlot | app/api/counter/route.ts:158-166 | the callback of `map`: a slot is non-empty exactly when the character is a digit |
| Badge.DigitBadgeOf | app/api/counter/route.ts:145-157 | the values computed before the digit template: one slot per character of `count.toString()`, and a width of 36 per slot less 4 |
| Badge.RenderDigitBadge | app/api/counter/route.ts:167-175 | the digit template filled with those values, the slots joined by newlines (definition only; stated by `DigitBadgeSvgOpening`) |
| Badge.BuildDigitImageSvg | app/api/counter/route.ts:138-176 | `buildDigitImageSvg`: the values, then the template (definition only; stated by `DigitBadgeSvgOpening`, `DigitBadgeLayout`, `DigitSlotPlacement` and `DigitImageCount`) |
| Badge.BuildSvgDispatch | app/api/counter/route.ts:59-75 | `"3d-num"` selects the digit renderer; every other theme renders the same output as `"simple"` |
| Badge.SimpleBadgeLayout | app/api/counter/route.ts:88-129 | the simple badge is 180×32 on `#111827`; its value text is `count.toString()`, unchanged by escaping and reading back as the count; its caption escapes to `nth visitor` |
| Badge.SimpleBadgeThemeIndependent | app/api/counter/route.ts:94 | both arms of the colour choice are `#111827`, so the simple badge is identical for every theme |
| Badge.DecimalTextNeedsNoEscaping | app/api/counter/route.ts:120 | `escapeXml(count.toString())` is `count.toString()` |
| Badge.SpriteForEveryDigit | app/api/counter/route.ts:22-33 | the sprite table has a non-empty entry for each digit `0`–`9` |
| Badge.TemplateStartsWithFirstPart | app/api/counter/route.ts:165 | a template literal's output starts with its first fixed part |
| Badge.ImageTag | app/api/counter/route.ts:165 | the `<image href="${src}" x="${x}" y="0" width="32" height="32" />` template (definition only; stated by `ImageTagShape`) |
| Badge.ImageTagShape | app/api/counter/route.ts:165 | a digit's image tag is non-empty and starts with `<image href="` |
| Badge.MapIndexed | app/api/counter/route.ts:157-158 | `Array.prototype.map` with the index passed to the callback (definition only; stated by `MapIndexedLength` and `MapIndexedAt`) |
| Badge.DigitSlots | app/api/counter/route.ts:157-166 | `digits.map(...)` with the digit callback (definition only; stated by `DigitSlotPlacement` and `DigitSlotsImageCount`) |
| Badge.MapIndexedLength | app/api/counter/route.ts:157-158 | `map` over the digits gives one slot per character |
| Badge.MapIndexedAt | app/api/counter/route.ts:157-158 | slot i is the callback applied to character i and index i |
| Badge.DigitBadgeLayout | app/api/counter/route.ts:145-157 | with n the length of `count.toString()`: n slots, width n·32 + (n−1)·4, height 32 |
| Badge.DigitSlotPlacement | app/api/counter/route.ts:157-166 | slot i is the image of that digit's sprite at x = 36·i when character i is a digit, and empty otherwise; it is non-empty exactly when the character is a digit |
| Badge.DigitSlotsImageCount | app/api/counter/route.ts:157-167 | the number of `<image>` slots equals the number of digit characters |
| Badge.CountDigitsAll | app/api/counter/route.ts:157-167 | every character of an all-digit text counts |
| Badge.DigitImageCount | app/api/counter/route.ts:146-167 | for a count ≥ 0, the number of images is its number of decimal digits k ≥ 1, with `10^(k-1) <= count < 10^k` (or k = 1), and the width is 36k − 4; for a negative count, slot 0 (the `-`) is empty and there are k − 1 images |
| Badge.CountDigitsSplit | app/api/counter/route.ts:157-167 | digit counting splits at the first character, used for the `-` slot of a negative count |
| Badge.DigitBadgeExamples | app/api/counter/route.ts:146-167 | count 0 gives width 32 and one image; count 105 gives width 104 and three images |
| KvStore.Store.Incr | app/api/counter/route.ts:40 | `incr` returns the previous value plus one, a missing key counting as 0, and writes it to that key only |
| KvStore.Store.Set | app/api/cheat/route.ts:29 | `set` writes the value to that key only |
| KvStore.CounterKey | app/api/counter/route.ts:40 | the key is `counter:` followed by the name |
| KvStore.CounterKeyInjective | app/api/counter/route.ts:40 | two names give the same key if and only if they are equal |
| Http.Option.GetOr | app/api/counter/route.ts:37 | the `??` operator: the value when present, else the fallback (definition only; stated by `CounterRoute.ResolveTheme` and `CheatRoute.RequestedValue`) |
| CounterRoute.ResolveTheme | app/api/counter/route.ts:37 | an absent theme becomes `"simple"`; a given one is kept |
| CounterRoute.Get | app/api/counter/route.ts:35-55 | only `counter:Jervi-sir` changes, by exactly one (missing counts as 0); the answer is 200 with the SVG headers and the badge of the new count in the resolved theme |
| CounterRoute.CounterNameNeedsNoEscaping | app/api/counter/route.ts:8 | the label, inserted unescaped, has no markup character, so escaping it would change nothing |
| CounterRoute.ThemeFallback | app/api/counter/route.ts:37 | any theme other than `"3d-num"` renders exactly what an absent theme renders |
| CheatRoute.Authorized | app/api/cheat/route.ts:18 | the secret check passes only when a non-empty secret is configured |
| CheatRoute.RequestedValue | app/api/cheat/route.ts:23 | `Number(valueStr ?? "0")`: an absent or empty value reads as 0; a value read as negative came from a text starting with `-` |
| CheatRoute.ResponseFor | app/api/cheat/route.ts:19-34 | status 403, 400 and 200 correspond exactly to refusal by secret, refusal by value and success |
| CheatRoute.Decide | app/api/cheat/route.ts:14-29 | 403 exactly when the secret is missing, empty or not the configured one; otherwise 400 exactly when the value does not parse or is negative; otherwise an override to the parsed, non-negative value |
| CheatRoute.Get | app/api/cheat/route.ts:11-35 | the response is the one for the decision; only on success is `counter:Jervi-sir` written, with the parsed value; on 403 and 400 the store is unchanged |
| CheatRoute.MissingSecretForbidden | app/api/cheat/route.ts:18-20 | a missing or empty secret, or an unset or empty configured secret, always gives 403 |
| CheatRoute.SecretCheckedFirst | app/api/cheat/route.ts:17-26 | with a wrong secret the value is never looked at: every value gives 403, never 400 |
| CheatRoute.AbsentValueSetsZero | app/api/cheat/route.ts:23 | with the right secret, an absent or empty `value` sets the counter to 0 |
| CheatRoute.NonNumericRefused | app/api/cheat/route.ts:23-25 | with the right secret, a value holding a character that is neither a digit nor a leading `-` (as `abc`) is refused with 400 |
| CheatRoute.DecimalValueDecision | app/api/cheat/route.ts:23-29 | with the right secret, the decimal text of v ≥ 0 sets the counter to exactly v, and that of v < 0 gives 400 |
| CheatRoute.ConfirmationReadsBack | app/api/cheat/route.ts:31-34 | the 200 body is `Counter for "Jervi-sir" set to ` followed by text that reads back as the value written |
| CheatRoute.OverrideThenVisit | app/api/cheat/route.ts:29 | after an override to v, the next counter visit stores and renders v + 1; after a refused override it renders one more than before |

## Left out

- `Number(text)` is modelled only for decimal integers with an optional leading `-`, and the empty text reads as 0. Fractions, exponents, hexadecimal, binary and octal prefixes (`0b101`, `0o17`), surrounding whitespace, whitespace-only text (which `Number()` reads as 0, so `?value=+` sets the counter to 0 in the source but gets 400 here), a leading `+`, and `Infinity` are floating-point behaviour and are not modelled; every such text reads as no finite number (400). The text `-0` reads as 0 and sets the counter to 0, as `Number("-0") < 0` is false in the source.
- Decimal.ParseNumber: reads the exact integer, whereas `Number()` rounds integers above 2^53 to the nearest double (`9007199254740993` is stored as 9007199254740992) and turns a digit string of more than about 309 digits into `Infinity`.
- CheatRoute.DecimalValueDecision: holds for every v ≥ 0, whereas the source stores a rounded value above 2^53 and answers 400 for a text so long that `Number()` gives `Infinity`; the model overrides to the exact value there.
- `Number#toString` of numbers at or above 1e21 (exponent notation) and of non-integers is not modelled; counts are unbounded integers. The store's 64-bit limit on `incr` is not modelled.
- The key-value store is a sequential map. Network errors, async/await, and the atomicity of `incr` under concurrent requests are left out.
- Query parameters, the configured secret (`process.env.CHEAT_SECRET`) and the store are parameters of the handlers. The `Request` object, the `edge` runtime flag and the header plumbing are left out. The two SVG headers are kept as a list of string pairs.
- The whitespace and indentation of the SVG template literals, and `.trim()`, are not modelled: the template lines are joined with `"\n"`.
- The sprite strings are kept as the source's placeholder data URLs. Their image content plays no part.
- app/page.tsx, lib/redis.ts and app/api/counter/[name]/route.ts are not part of this model.
- An empty `value` is modelled as the code behaves (`Number("")` is 0, so the counter is set to 0), not as a validation failure.
