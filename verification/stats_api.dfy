/**
  The statistics endpoint's gate and range: a request must carry the secret
  key, and the `range` query parameter chooses how many days back the report
  reaches. The date arithmetic and the database query are not modelled; the
  response is the status with the effective range.
 */
module StatsApi {
  import opened Common

  const Forbidden: int := 403
  const DefaultRange: int := 30
  const MaxRange: int := 365

  datatype StatsResponse = Denied | Report(range: int)

  /** `Math.min(parseInt(param || '30', 10) || 30, 365)`. */
  function Range(param: Option<string>): int {
    var text := if param.None? || param.value == "" then "30" else param.value;
    var parsed := ParseInt(text, 10);
    var days := if parsed.None? || parsed.value == 0 then DefaultRange else parsed.value;
    if days < MaxRange then days else MaxRange
  }

  /** `onRequestGet`, up to the query: a missing or empty key, or one other
      than the secret, is refused before anything else happens. */
  function HandleGet(key: Option<string>, statsKey: string, rangeParam: Option<string>): StatsResponse {
    if key.None? || key.value == "" || key.value != statsKey then Denied
    else Report(Range(rangeParam))
  }

  function Status(r: StatsResponse): int {
    if r.Denied? then Forbidden else 200
  }

  // ---------------------------------------------------------------------------
  // Properties
  // ---------------------------------------------------------------------------

  /** The report is served exactly for the right, non-empty key; so a server
      whose secret is empty serves nobody. */
  lemma KeyGate(key: Option<string>, statsKey: string, rangeParam: Option<string>)
    ensures Status(HandleGet(key, statsKey, rangeParam)) == Forbidden <==>
              key.None? || key.value != statsKey || statsKey == ""
    ensures HandleGet(key, statsKey, rangeParam).Report? ==> HandleGet(key, statsKey, rangeParam).range == Range(rangeParam)
  {
  }

  /** The range never exceeds 365 days; a missing, unparsable or zero value
      gives 30, and any other value is its leading integer capped at 365,
      with no lower bound. */
  lemma RangeProperties(param: Option<string>)
    ensures Range(param) <= MaxRange
    ensures param.None? ==> Range(param) == DefaultRange
    ensures param.Some? && param.value != "" && (ParseInt(param.value, 10).None? || ParseInt(param.value, 10) == Some(0)) ==>
              Range(param) == DefaultRange
    ensures param.Some? && ParseInt(param.value, 10).Some? && ParseInt(param.value, 10).value != 0 ==>
              Range(param) == if ParseInt(param.value, 10).value < MaxRange then ParseInt(param.value, 10).value else MaxRange
  {
    ParseThirty();
  }

  lemma ParseThirty()
    ensures ParseInt("30", 10) == Some(30)
  {
    ParseIntDigits("30");
    assert "30"[..1] == "3" && "3"[..0] == "";
  }

  /** A negative range is passed through: "-7" asks for -7 days. */
  lemma NegativeRangeKept()
    ensures Range(Some("-7")) == -7
  {
    var t := "-7";
    assert LeadingSpaces(t) == 0 by {
      assert !IsSpace(t[0]);
    }
    assert TrimStart(t) == t;
    var u := t[1..];
    assert u == "7";
    assert DigitRun(u, 10) == 1 by {
      assert DigitRun(u[1..], 10) == 0;
    }
    assert u[..1] == "7" && "7"[..0] == "";
    assert DigitsValue(u[..1], 10) == 7;
  }
}
