/** `GET /api/counter`: count one more visit of the fixed counter and answer with its badge. */
module CounterRoute {
  import opened Http
  import opened KvStore
  import opened Badge
  import opened XmlEscape

  /** The one and only counter this route serves. */
  const CounterName: string := "Jervi-sir"

  const SvgHeaders: seq<(string, string)> := [
    ("Content-Type", "image/svg+xml; charset=utf-8"),
    ("Cache-Control", "no-store, no-cache, must-revalidate, max-age=0")]

  /** The `theme` query parameter, "simple" when it is absent. */
  function ResolveTheme(themeParam: Option<string>): (theme: string)
    ensures themeParam.None? ==> theme == "simple"
    ensures themeParam.Some? ==> theme == themeParam.value
  {
    themeParam.GetOr("simple")
  }

  /**
   * The handler: increments `counter:Jervi-sir` by exactly one (from 0 when missing),
   * leaves every other key alone, and renders the value the increment returned.
   */
  method Get(store: Store, themeParam: Option<string>) returns (resp: Response)
    modifies store
    ensures store.entries == old(store.entries)[CounterKey(CounterName) := old(store.Current(CounterKey(CounterName))) + 1]
    ensures resp == Response(200, BuildSvg(CounterName, store.Current(CounterKey(CounterName)), ResolveTheme(themeParam)), SvgHeaders)
  {
    var theme := themeParam.GetOr("simple");
    var key := CounterKey(CounterName);
    var count := store.Incr(key);
    assert count == store.Current(key);
    var svg := BuildSvg(CounterName, count, theme);
    resp := Response(200, svg, SvgHeaders);
  }

  /** The label is placed in the badge unescaped; it holds none of the five markup characters, so that is harmless. */
  lemma CounterNameNeedsNoEscaping()
    ensures EscapeXml(CounterName) == CounterName
  {
    EscapeXmlIdentity(CounterName);
  }

  /** Every theme other than "3d-num", including the default, renders the same simple badge. */
  lemma ThemeFallback(themeParam: Option<string>, count: int)
    ensures ResolveTheme(themeParam) != DigitTheme ==>
      BuildSvg(CounterName, count, ResolveTheme(themeParam)) == BuildSvg(CounterName, count, ResolveTheme(None))
  {
    BuildSvgDispatch(CounterName, count, ResolveTheme(themeParam));
  }
}
