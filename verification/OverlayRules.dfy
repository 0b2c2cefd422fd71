/** Which settings an overlay may touch, and within which limits. */
module OverlayRules {
  import opened Basics

  datatype Float = Finite(r: real) | NaN | PlusInf | MinusInf

  /** A proposed value. A text carries what parsing it as a float gives, if anything. */
  datatype Raw = RawBool(b: bool) | RawNumber(f: Float) | RawText(text: string, parsed: Option<Float>) | RawOther

  datatype Setting = Num(r: real) | Whole(n: int) | Text(s: string)

  type Changes = map<string, Setting>

  const ALLOWED_KEYS: set<string> := {
    "MIN_EDGE", "OUTSIDER_MAX_PRICE", "TRADE_MIN_PRICE", "TRADE_MAX_PRICE", "DEAD_ZONE_WIDTH",
    "FAVORITE_THRESHOLD", "BET_SIZING_MODE", "MAX_BET_SIZE_USDC", "DAILY_LOSS_LIMIT_USDC", "FLIP_THRESHOLD",
    "NO_MIN_EDGE", "FAVORITE_MIN_EDGE", "CRYPTO_MIN_EDGE", "TRADE_NO_FLIP_THRESHOLD",
    "TRADE_MIN_TIME_LEFT_SEC", "TRADE_MAX_TIME_LEFT_SEC"
  }

  const BOUNDS: map<string, (real, real)> := map[
    "MIN_EDGE" := (-0.05, 0.20),
    "OUTSIDER_MAX_PRICE" := (0.10, 0.50),
    "TRADE_MIN_PRICE" := (0.01, 0.50),
    "TRADE_MAX_PRICE" := (0.50, 0.99),
    "DEAD_ZONE_WIDTH" := (0.02, 0.25),
    "FAVORITE_THRESHOLD" := (0.50, 0.85),
    "MAX_BET_SIZE_USDC" := (1.0, 100.0),
    "DAILY_LOSS_LIMIT_USDC" := (-500.0, -10.0),
    "FLIP_THRESHOLD" := (0.50, 0.90),
    "TRADE_NO_FLIP_THRESHOLD" := (0.10, 0.90),
    "TRADE_MIN_TIME_LEFT_SEC" := (0.0, 3600.0),
    "TRADE_MAX_TIME_LEFT_SEC" := (1.0, 3600.0)
  ]

  const SIZING_MODES: set<string> := {"flat", "fixed", "scaled", "kelly"}
  const ENUM_KEY: string := "BET_SIZING_MODE"
  const INTEGER_KEYS: set<string> := {"TRADE_MIN_TIME_LEFT_SEC", "TRADE_MAX_TIME_LEFT_SEC"}

  function AsFloat(value: Raw): Option<Float> {
    match value
    case RawNumber(f) => Some(f)
    case RawText(_, parsed) => parsed
    case _ => None
  }

  /** The value an allowed key is stored with, or nothing when the value is refused. */
  function CleanValue(key: string, value: Raw): Option<Setting> {
    if key !in ALLOWED_KEYS then None
    else if key == ENUM_KEY then
      if value.RawText? && Lower(value.text) in SIZING_MODES then Some(Text(Lower(value.text))) else None
    else if key in BOUNDS then
      var f := AsFloat(value);
      if f.None? || !f.value.Finite? then None
      else
        var r := f.value.r;
        if !(BOUNDS[key].0 <= r <= BOUNDS[key].1) then None
        else if key !in INTEGER_KEYS then Some(Num(r))
        else if r.Floor as real != r then None
        else Some(Whole(r.Floor))
    else None
  }

  function Numeric(v: Setting): real {
    match v
    case Num(r) => r
    case Whole(n) => n as real
    case Text(_) => 0.0
  }

  /** Both keys present implies the first does not exceed the second. */
  predicate PairOrdered(m: Changes, low: string, high: string) {
    low in m && high in m ==> Numeric(m[low]) <= Numeric(m[high])
  }

  predicate PairsOrdered(m: Changes) {
    && PairOrdered(m, "TRADE_MIN_PRICE", "TRADE_MAX_PRICE")
    && PairOrdered(m, "TRADE_MIN_TIME_LEFT_SEC", "TRADE_MAX_TIME_LEFT_SEC")
  }

  /** The cleaned changes of a proposal: stripped keys, later items overwriting earlier ones. */
  function Cleaned(items: seq<(string, Raw)>): Option<Changes> {
    if items == [] then Some(map[])
    else
      var n := |items| - 1;
      var rest, key := Cleaned(items[..n]), Strip(items[n].0);
      var v := CleanValue(key, items[n].1);
      if rest.None? || v.None? then None else Some(rest.value[key := v.value])
  }

  function Validated(items: seq<(string, Raw)>): Option<Changes> {
    var m := Cleaned(items);
    if m.Some? && PairsOrdered(m.value) then m else None
  }

  lemma {:induction false} RefusedItem(items: seq<(string, Raw)>, n: nat)
    requires n <= |items| && Cleaned(items[..n]).None?
    ensures Cleaned(items).None?
  {
    if n == |items| {
      assert items[..n] == items;
    } else {
      assert items[..|items| - 1][..n] == items[..n];
      RefusedItem(items[..|items| - 1], n);
    }
  }

  method ValidateOverlayChanges(items: seq<(string, Raw)>) returns (r: Result<Changes>)
    ensures r.Ok? <==> Validated(items).Some?
    ensures r.Ok? ==> Some(r.value) == Validated(items) && ValidChanges(r.value)
  {
    var cleaned: Changes := map[];
    for n := 0 to |items|
      invariant Cleaned(items[..n]) == Some(cleaned)
    {
      var key := Strip(items[n].0);
      var v := CleanValue(key, items[n].1);
      assert items[..n + 1][..n] == items[..n];
      if v.None? {
        RefusedItem(items, n + 1);
        return Err("prohibited key, or value outside its declared type and bounds");
      }
      cleaned := cleaned[key := v.value];
    }
    assert items[..|items|] == items;
    if !PairsOrdered(cleaned) {
      return Err("minimum exceeds maximum");
    }
    ValidatedIsDeclared(items);
    return Ok(cleaned);
  }

  /** A declared key with a value of its declared type inside its limits. */
  predicate Declared(key: string, v: Setting) {
    || (key == ENUM_KEY && v.Text? && v.s in SIZING_MODES)
    || (key in BOUNDS && BOUNDS[key].0 <= Numeric(v) <= BOUNDS[key].1
        && if key in INTEGER_KEYS then v.Whole? else v.Num?)
  }

  ghost predicate AllDeclared(m: Changes) {
    forall key | key in m :: Declared(key, m[key])
  }

  ghost predicate ValidChanges(m: Changes) {
    PairsOrdered(m) && AllDeclared(m)
  }

  lemma CleanIsDeclared(key: string, value: Raw)
    requires CleanValue(key, value).Some?
    ensures Declared(key, CleanValue(key, value).value)
  {
  }

  lemma {:induction false} CleanedDeclared(items: seq<(string, Raw)>)
    requires Cleaned(items).Some?
    ensures AllDeclared(Cleaned(items).value)
  {
    if items == [] {
    } else {
      var n := |items| - 1;
      CleanedDeclared(items[..n]);
      CleanIsDeclared(Strip(items[n].0), items[n].1);
    }
  }

  /** Whatever passes validation touches declared keys only, inside their limits, with both pairs in order. */
  lemma ValidatedIsDeclared(items: seq<(string, Raw)>)
    requires Validated(items).Some?
    ensures ValidChanges(Validated(items).value)
  {
    CleanedDeclared(items);
  }

  /** For each key the last item that names it decides. */
  lemma {:induction false} LastItemWins(items: seq<(string, Raw)>, i: nat)
    requires Cleaned(items).Some? && i < |items|
    requires forall j | i < j < |items| :: Strip(items[j].0) != Strip(items[i].0)
    ensures var key := Strip(items[i].0);
            key in Cleaned(items).value && CleanValue(key, items[i].1) == Some(Cleaned(items).value[key])
  {
    var n := |items| - 1;
    if i == n {
    } else {
      assert Strip(items[n].0) != Strip(items[i].0);
      LastItemWins(items[..n], i);
    }
  }
}
