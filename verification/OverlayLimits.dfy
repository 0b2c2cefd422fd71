/** The declared limits, and exactly which proposals pass them. */
module OverlayLimits {
  import opened Basics
  import opened OverlayRules
  import opened Overlays
  import opened OverlayHistories

  /** The declared range of a numeric key. */
  function LimitsOf(key: string): Option<(real, real)> {
    match key
    case "MIN_EDGE" => Some((-0.05, 0.20))
    case "OUTSIDER_MAX_PRICE" => Some((0.10, 0.50))
    case "TRADE_MIN_PRICE" => Some((0.01, 0.50))
    case "TRADE_MAX_PRICE" => Some((0.50, 0.99))
    case "DEAD_ZONE_WIDTH" => Some((0.02, 0.25))
    case "FAVORITE_THRESHOLD" => Some((0.50, 0.85))
    case "MAX_BET_SIZE_USDC" => Some((1.0, 100.0))
    case "DAILY_LOSS_LIMIT_USDC" => Some((-500.0, -10.0))
    case "FLIP_THRESHOLD" => Some((0.50, 0.90))
    case "TRADE_NO_FLIP_THRESHOLD" => Some((0.10, 0.90))
    case "TRADE_MIN_TIME_LEFT_SEC" => Some((0.0, 3600.0))
    case "TRADE_MAX_TIME_LEFT_SEC" => Some((1.0, 3600.0))
    case _ => None
  }

  predicate WholeSeconds(key: string) {
    key == "TRADE_MIN_TIME_LEFT_SEC" || key == "TRADE_MAX_TIME_LEFT_SEC"
  }

  lemma LimitsListed(key: string)
    ensures key in BOUNDS <==> LimitsOf(key).Some?
    ensures key in BOUNDS ==> BOUNDS[key] == LimitsOf(key).value && key in ALLOWED_KEYS && key != ENUM_KEY
    ensures key in INTEGER_KEYS <==> WholeSeconds(key)
  {
  }

  /** The finite number that a proposed value is or parses to; truth values are none. */
  function NumberIn(value: Raw): Option<real> {
    match value
    case RawNumber(Finite(r)) => Some(r)
    case RawText(_, Some(Finite(r))) => Some(r)
    case _ => None
  }

  /**
   A numeric key takes exactly the finite numbers inside its limits, ends included, and the two time keys only
   whole ones; the number is stored as it is.
   */
  lemma NumericItemExactly(key: string, value: Raw)
    requires LimitsOf(key).Some?
    ensures var x, (low, high) := NumberIn(value), LimitsOf(key).value;
            && (CleanValue(key, value).Some? <==>
                  x.Some? && low <= x.value <= high && (WholeSeconds(key) ==> x.value.Floor as real == x.value))
            && (CleanValue(key, value).Some? ==> Numeric(CleanValue(key, value).value) == x.value)
  {
    LimitsListed(key);
  }

  /** The sizing mode takes exactly the four words, in any case; every other key is refused. */
  lemma OtherItemExactly(key: string, value: Raw)
    requires LimitsOf(key).None?
    ensures CleanValue(key, value).Some? <==>
            && key == "BET_SIZING_MODE" && value.RawText?
            && var word := Lower(value.text); word == "flat" || word == "fixed" || word == "scaled" || word == "kelly"
    ensures CleanValue(key, value).Some? ==> CleanValue(key, value) == Some(Text(Lower(value.text)))
  {
    LimitsListed(key);
  }

  /** The item has a key, once stripped, and a value that pass. */
  predicate Passes(item: (string, Raw)) {
    CleanValue(Strip(item.0), item.1).Some?
  }

  lemma CleanedMore(front: seq<(string, Raw)>, item: (string, Raw))
    ensures Cleaned(front + [item]).Some? <==> Cleaned(front).Some? && Passes(item)
  {
    var items := front + [item];
    assert items[..|front|] == front && items[|front|] == item;
    var key := Strip(item.0);
    var v := CleanValue(key, item.1);
    assert Cleaned(items) ==
           if Cleaned(front).None? || v.None? then None else Some(Cleaned(front).value[key := v.value]);
  }

  /** A proposal is cleaned exactly when each of its items passes by itself. */
  lemma {:induction false} CleanedExactly(items: seq<(string, Raw)>)
    ensures Cleaned(items).Some? <==> forall i | 0 <= i < |items| :: Passes(items[i])
  {
    if items == [] {
    } else {
      var n := |items| - 1;
      CleanedExactly(items[..n]);
      CleanedMore(items[..n], items[n]);
      assert items == items[..n] + [items[n]];
      EachPasses(items);
    }
  }

  lemma EachPasses(items: seq<(string, Raw)>)
    requires items != []
    ensures var n := |items| - 1;
            (forall i | 0 <= i < |items| :: Passes(items[i])) <==>
              (forall i | 0 <= i < n :: Passes(items[..n][i])) && Passes(items[n])
  {
    var n := |items| - 1;
    assert forall i | 0 <= i < n :: items[..n][i] == items[i];
  }

  const MIN_TIME := "TRADE_MIN_TIME_LEFT_SEC"
  const MAX_TIME := "TRADE_MAX_TIME_LEFT_SEC"

  function Seconds(n: int): Raw {
    RawNumber(Finite(n as real))
  }

  lemma SecondsStored(key: string, n: int)
    requires (key == MIN_TIME && 0 <= n <= 3600) || (key == MAX_TIME && 1 <= n <= 3600)
    ensures CleanValue(key, Seconds(n)) == Some(Whole(n)) && Strip(key) == key
  {
    LimitsListed(key);
    assert (n as real).Floor == n;
  }

  /** A proposal of both time limits is accepted exactly when the minimum does not exceed the maximum. */
  lemma TimePairExactly(low: int, high: int)
    requires 0 <= low <= 3600 && 1 <= high <= 3600
    ensures Validated([(MIN_TIME, Seconds(low)), (MAX_TIME, Seconds(high))]).Some? <==> low <= high
  {
    var items := [(MIN_TIME, Seconds(low)), (MAX_TIME, Seconds(high))];
    SecondsStored(MIN_TIME, low);
    SecondsStored(MAX_TIME, high);
    assert items[..1] == [items[0]] && items[..1][..0] == [];
    assert Cleaned(items[..1]) == Some(map[MIN_TIME := Whole(low)]);
    var m: Changes := map[MIN_TIME := Whole(low)][MAX_TIME := Whole(high)];
    assert Cleaned(items) == Some(m);
    assert PairOrdered(m, MIN_TIME, MAX_TIME) <==> low <= high;
    assert "TRADE_MIN_PRICE" !in m;
  }

  /** Over any history, an effective number that is not the base's lies inside the declared range of its key. */
  lemma LimitsNeverLeft(h: seq<Action>, now: int, base: Changes, q: Query, key: string)
    ensures var e := InForce(Run(State([], now), h), base, q);
            key in e && !(key in base && e[key] == base[key]) ==>
              || (LimitsOf(key).Some? && LimitsOf(key).value.0 <= Numeric(e[key]) <= LimitsOf(key).value.1)
              || (key == "BET_SIZING_MODE" && e[key] in {Text("flat"), Text("fixed"), Text("scaled"), Text("kelly")})
  {
    OnlyDeclaredKeysMove(h, now, base, q, key);
    LimitsListed(key);
  }
}
