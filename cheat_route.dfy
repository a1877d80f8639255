/**
 * `GET /api/cheat?secret=...&value=...`: overwrite the fixed counter, guarded by a shared
 * secret (checked first, 403) and a non-negative value (checked second, 400).
 */
module CheatRoute {
  import opened Http
  import opened Decimal
  import opened KvStore
  import CounterRoute
  import Badge

  const CounterName: string := "Jervi-sir"

  /** What the guards decide. */
  datatype Outcome = Forbidden | InvalidValue | Override(value: int)

  /**
   * The configured secret accepts the request: a non-empty `secret` parameter equal to
   * the configured one. An unset or empty configured secret accepts nothing.
   */
  predicate Authorized(secretParam: Option<string>, configured: Option<string>)
    ensures Authorized(secretParam, configured) ==> configured.Some? && configured.value != ""
  {
    secretParam.Some? && secretParam.value != "" && configured == secretParam
  }

  /**
   * `Number(valueStr ?? "0")`, with `None` for a non-finite number. An absent or empty
   * parameter reads as 0, and a negative value was written with a leading '-'.
   */
  function RequestedValue(valueParam: Option<string>): (r: Option<int>)
    ensures valueParam.None? ==> r == Some(0)
    ensures valueParam == Some("") ==> r == Some(0)
    ensures r.Some? && r.value < 0 ==> valueParam.Some? && |valueParam.value| >= 2 && valueParam.value[0] == '-'
  {
    ParseNumber(valueParam.GetOr("0"))
  }

  /** The two guards in the source's order: `!secret || secret !== CHEAT_SECRET`, then the value. */
  function Decide(secretParam: Option<string>, configured: Option<string>, valueParam: Option<string>): (r: Outcome)
    ensures r.Forbidden? <==> !Authorized(secretParam, configured)
    ensures r.InvalidValue? <==>
      Authorized(secretParam, configured) && (RequestedValue(valueParam).None? || RequestedValue(valueParam).value < 0)
    ensures r.Override? ==> r.value >= 0 && RequestedValue(valueParam) == Some(r.value)
  {
    if secretParam.None? || secretParam.value == "" || Some(secretParam.value) != configured then Forbidden
    else
      match RequestedValue(valueParam)
      case None => InvalidValue
      case Some(v) => if v < 0 then InvalidValue else Override(v)
  }

  /** The answer for each outcome: 403, 400 or 200, one status per outcome. */
  function ResponseFor(o: Outcome): (r: Response)
    ensures r.status == 403 <==> o.Forbidden?
    ensures r.status == 400 <==> o.InvalidValue?
    ensures r.status == 200 <==> o.Override?
  {
    match o
    case Forbidden => Response(403, "Forbidden", [])
    case InvalidValue => Response(400, "Invalid value", [])
    case Override(v) => Response(200, "Counter for \"" + CounterName + "\" set to " + IntToString(v), [])
  }

  /**
   * The handler: answers what Decide says, and writes the parsed value to
   * `counter:Jervi-sir` (and nothing else) only on success.
   */
  method Get(store: Store, secretParam: Option<string>, configured: Option<string>, valueParam: Option<string>)
    returns (resp: Response)
    modifies store
    ensures resp == ResponseFor(Decide(secretParam, configured, valueParam))
    ensures Decide(secretParam, configured, valueParam).Override? ==>
      store.entries == old(store.entries)[CounterKey(CounterName) := Decide(secretParam, configured, valueParam).value]
    ensures !Decide(secretParam, configured, valueParam).Override? ==> store.entries == old(store.entries)
  {
    var outcome := Decide(secretParam, configured, valueParam);
    if outcome.Override? {
      store.Set(CounterKey(CounterName), outcome.value);
    }
    resp := ResponseFor(outcome);
  }

  /** A missing or empty secret, or an unset or empty configured secret, is always refused. */
  lemma MissingSecretForbidden(secretParam: Option<string>, configured: Option<string>, valueParam: Option<string>)
    ensures Decide(None, configured, valueParam) == Forbidden
    ensures Decide(Some(""), configured, valueParam) == Forbidden
    ensures Decide(secretParam, None, valueParam) == Forbidden
    ensures Decide(secretParam, Some(""), valueParam) == Forbidden
  {
  }

  /** The secret is checked first: a refused secret gives 403 whatever the value, never 400. */
  lemma SecretCheckedFirst(secretParam: Option<string>, configured: Option<string>, value1: Option<string>, value2: Option<string>)
    requires !Authorized(secretParam, configured)
    ensures Decide(secretParam, configured, value1) == Decide(secretParam, configured, value2) == Forbidden
    ensures ResponseFor(Decide(secretParam, configured, value1)).status == 403
  {
  }

  /**
   * With the right secret and no `value` parameter, the counter is set to 0; an empty
   * `value` does the same, because `Number("")` is 0.
   */
  lemma AbsentValueSetsZero(secret: string)
    requires secret != ""
    ensures Decide(Some(secret), Some(secret), None) == Override(0)
    ensures Decide(Some(secret), Some(secret), Some("")) == Override(0)
  {
    assert "0" == NatToString(0);
    DecimalValueOfNatToString(0);
  }

  /**
   * With the right secret, a value holding a character that is neither a digit nor a
   * leading '-' (as in `abc` or `1x`) reads as no finite number and is refused with 400.
   */
  lemma NonNumericRefused(secret: string, s: string, i: int)
    requires secret != ""
    requires 0 <= i < |s| && !IsDigit(s[i]) && (i > 0 || s[i] != '-')
    ensures Decide(Some(secret), Some(secret), Some(s)) == InvalidValue
    ensures ResponseFor(Decide(Some(secret), Some(secret), Some(s))).status == 400
  {
    assert !AllDigits(s);
    if |s| >= 2 && s[0] == '-' {
      assert s[1..][i - 1] == s[i];
    }
  }

  /**
   * With the right secret, the decimal text of a non-negative v sets the counter to exactly
   * v, and that of a negative v is refused with 400.
   */
  lemma DecimalValueDecision(secret: string, v: int)
    requires secret != ""
    ensures v >= 0 ==> Decide(Some(secret), Some(secret), Some(IntToString(v))) == Override(v)
    ensures v < 0 ==> Decide(Some(secret), Some(secret), Some(IntToString(v))) == InvalidValue
  {
    ParseNumberOfIntToString(v);
  }

  /** The confirmation names the counter and ends with the decimal text of the value written. */
  lemma ConfirmationReadsBack(v: int)
    ensures var body := ResponseFor(Override(v)).body;
      && ResponseFor(Override(v)).status == 200
      && body[..|"Counter for \"Jervi-sir\" set to "|] == "Counter for \"Jervi-sir\" set to "
      && ParseNumber(body[|"Counter for \"Jervi-sir\" set to "|..]) == Some(v)
  {
    var prefix := "Counter for \"Jervi-sir\" set to ";
    var body := ResponseFor(Override(v)).body;
    assert body == prefix + IntToString(v);
    assert body[|prefix|..] == IntToString(v);
    ParseNumberOfIntToString(v);
  }

  /**
   * An override followed by a visit: after a successful override to v the next counter
   * badge shows v + 1; after a refused one it shows the old value plus one.
   */
  method OverrideThenVisit(store: Store, secretParam: Option<string>, configured: Option<string>,
                           valueParam: Option<string>, themeParam: Option<string>)
    returns (overrideResp: Response, badgeResp: Response)
    modifies store
    ensures overrideResp == ResponseFor(Decide(secretParam, configured, valueParam))
    ensures store.entries == old(store.entries)[CounterKey(CounterName) := ShownAfter(old(store.Current(CounterKey(CounterName))), Decide(secretParam, configured, valueParam))]
    ensures badgeResp.body == Badge.BuildSvg(CounterName, ShownAfter(old(store.Current(CounterKey(CounterName))), Decide(secretParam, configured, valueParam)), CounterRoute.ResolveTheme(themeParam))
  {
    var key := CounterKey(CounterName);
    ghost var before := store.entries;
    ghost var outcome := Decide(secretParam, configured, valueParam);
    ghost var shown := ShownAfter(store.Current(key), outcome);
    overrideResp := Get(store, secretParam, configured, valueParam);
    ghost var written := store.entries;
    assert store.Current(key) + 1 == shown;
    assert CounterRoute.CounterName == CounterName;
    badgeResp := CounterRoute.Get(store, themeParam);
    assert store.entries == written[key := shown];
    assert written[key := shown] == before[key := shown] by {
      if outcome.Override? {
        assert written == before[key := outcome.value];
      }
    }
  }

  /** The count the next visit shows after an override attempt: v + 1 after an override to v, otherwise one more than before. */
  function ShownAfter(before: int, o: Outcome): int {
    if o.Override? then o.value + 1 else before + 1
  }
}
