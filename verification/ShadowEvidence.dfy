/**
 The evidence accumulator for shadow policies: one pass over the rows fills, per arm, parallel lists of
 predictions and outcomes and a list of profits. Floats are reals.
 */
module ShadowEvidence {
  import opened Basics

  datatype Arm = MarketOnly | MarketLogreg | MarketLgbm | FullWeighted | FullWeightedMrf | OutsiderAgreeOnly | Legacy

  const ARMS: seq<Arm> := [
    MarketOnly, MarketLogreg, MarketLgbm, FullWeighted, FullWeightedMrf, OutsiderAgreeOnly, Legacy]

  /** An ISO date. */
  type Day = s: string | |s| == 10 witness "0001-01-01"

  /** A mapping: every key with its text (empty for a falsy value), and the keys whose value is a finite number. */
  datatype Cells = Cells(texts: map<string, string>, numbers: map<string, real>)

  /** A telemetry row: its cells, its resolved outcome, its UTC day and the arm summaries of its payload. */
  datatype Row = Row(
    cells: Cells,
    outcome: Option<bool>,
    day: Option<Day>,
    hasPayload: bool,
    summaries: map<Arm, Cells>)

  datatype Side = BuyYes | BuyNo

  datatype Observation = Observation(prediction: real, outcome: real)

  datatype Evaluation = Evaluation(marketId: string, day: Day, pnl: real)

  // ---- One row, one arm ----

  function Number(c: Cells, key: string): Option<real> {
    if key in c.numbers then Some(c.numbers[key]) else None
  }

  function TextOf(c: Cells, key: string): string {
    if key in c.texts then c.texts[key] else ""
  }

  function OrElse<T>(a: Option<T>, b: Option<T>): Option<T> {
    if a.Some? then a else b
  }

  /** Python's `or` on an optional number: zero counts as absent. */
  function OrIfZero(a: Option<real>, b: Option<real>): Option<real> {
    if a.Some? && a.value != 0.0 then a else b
  }

  function SideOf(text: string): Option<Side> {
    var t := Upper(Strip(text));
    if t in {"BUY_YES", "YES", "UP"} then Some(BuyYes)
    else if t in {"BUY_NO", "NO", "DOWN"} then Some(BuyNo)
    else None
  }

  predicate Truthy(text: string) {
    Lower(Strip(text)) in {"1", "true", "yes", "on"}
  }

  /** The arm's summary, when it is there and not empty. */
  function Summary(row: Row, arm: Arm): Option<Cells> {
    if arm in row.summaries && row.summaries[arm].texts != map[] then Some(row.summaries[arm]) else None
  }

  function LegacyProbability(c: Cells): Option<real> {
    var explicit := OrElse(Number(c, "p_legacy_yes"), Number(c, "p_logreg_yes"));
    var win, side := Number(c, "p_logreg_win"), SideOf(TextOf(c, "candidate_side"));
    if explicit.Some? then explicit
    else if win.None? || side.None? then None
    else Some(if side.value == BuyYes then win.value else 1.0 - win.value)
  }

  function Probability(row: Row, arm: Arm): Option<real> {
    var own := match arm
      case MarketOnly => OrElse(Number(row.cells, "weighted_p_market_yes"), Number(row.cells, "p_market_yes"))
      case Legacy => LegacyProbability(row.cells)
      case FullWeightedMrf => Number(row.cells, "weighted_p_final_yes")
      case _ => None;
    var summary := Summary(row, arm);
    if summary.Some? then OrIfZero(Number(summary.value, "p_final_yes"), own) else own
  }

  function Eligible(summary: Option<Cells>): bool {
    summary.Some? && "policy_eligible" in summary.value.texts && Truthy(TextOf(summary.value, "policy_eligible"))
  }

  function SummarySide(row: Row, arm: Arm): Option<Side> {
    var summary := Summary(row, arm);
    if summary.Some? then SideOf(TextOf(summary.value, "selected_side")) else None
  }

  /** The side of the weighted arm before the policy has its say. */
  function RawSide(row: Row): Option<Side> {
    OrElse(SummarySide(row, FullWeightedMrf), SideOf(TextOf(row.cells, "weighted_selected_side")))
  }

  function LegacySide(c: Cells): Option<Side> {
    SideOf(TextOf(c, if "legacy_action" in c.texts then "legacy_action"
                     else if "final_action" in c.texts then "final_action" else "candidate_side"))
  }

  function SelectedSide(row: Row, arm: Arm): Option<Side> {
    match arm
    case Legacy => LegacySide(row.cells)
    case FullWeightedMrf =>
      var summary := Summary(row, arm);
      if summary.Some? && "policy_eligible" in summary.value.texts then
        if Eligible(summary) then SideOf(TextOf(summary.value, "policy_selected_side")) else None
      else if Strip(TextOf(row.cells, "weighted_policy_id")) != "" then None
      else RawSide(row)
    case _ => SummarySide(row, arm)
  }

  function AskFor(row: Row, side: Side, summary: Option<Cells>): Option<real> {
    var key := if side == BuyYes then "yes_ask" else "no_ask";
    var quoted :=
      if summary.None? then None
      else OrElse(if Eligible(summary) then Number(summary.value, "policy_selected_ask") else None,
                  OrElse(Number(summary.value, "selected_ask"), Number(summary.value, key)));
    var named := OrElse(Number(row.cells, "legacy_ask"), Number(row.cells, "candidate_ask"));
    OrElse(quoted, OrElse(named, Number(row.cells, key)))
  }

  function CostFor(row: Row, side: Side, summary: Option<Cells>): real {
    var key := if side == BuyYes then "yes_cost_per_share" else "no_cost_per_share";
    var quoted :=
      if summary.None? then None
      else OrElse(if Eligible(summary) then Number(summary.value, "policy_selected_cost_per_share") else None,
                  OrElse(Number(summary.value, "selected_cost_per_share"), Number(summary.value, key)));
    var own := OrElse(Number(row.cells, "observed_cost_per_share"), Number(row.cells, "weighted_cost_per_share"));
    var cost := OrElse(quoted, own);
    if cost.Some? then cost.value else 0.0
  }

  /** The profit per share; none without a side, an outcome or an ask strictly between 0 and 1. */
  function Pnl(row: Row, arm: Arm): (r: Option<real>)
    ensures r.Some? ==> row.outcome.Some? && r.value < 1.0
    ensures r.Some? && r.value > 0.0 ==> SelectedSide(row, arm) == Some(if row.outcome.value then BuyYes else BuyNo)
  {
    var side := SelectedSide(row, arm);
    if side.None? || row.outcome.None? then None
    else
      var ask := AskFor(row, side.value, Summary(row, arm));
      var cost := CostFor(row, side.value, Summary(row, arm));
      if ask.None? || !(0.0 < ask.value < 1.0) then None
      else
        var won := row.outcome.value == (side.value == BuyYes);
        Some((if won then 1.0 else 0.0) - ask.value - (if cost > 0.0 then cost else 0.0))
  }

  // ---- What the accumulator should hold ----

  /** The observation of a row that has both a prediction and an outcome. */
  function Observed(row: Row, arm: Arm): seq<Observation> {
    var p := Probability(row, arm);
    if p.Some? && row.outcome.Some? then [Observation(p.value, if row.outcome.value then 1.0 else 0.0)] else []
  }

  function Evaluated(row: Row, arm: Arm): seq<Evaluation> {
    var pnl := Pnl(row, arm);
    if pnl.Some? then [Evaluation(TextOf(row.cells, "market_id"), DayOf(row), pnl.value)] else []
  }

  function Observations(rows: seq<Row>, arm: Arm): seq<Observation> {
    if rows == [] then [] else Observations(rows[..|rows| - 1], arm) + Observed(rows[|rows| - 1], arm)
  }

  function Evaluations(rows: seq<Row>, arm: Arm): seq<Evaluation> {
    if rows == [] then [] else Evaluations(rows[..|rows| - 1], arm) + Evaluated(rows[|rows| - 1], arm)
  }

  function DayOf(row: Row): Day {
    if row.day.Some? then row.day.value else "0001-01-01"
  }

  function Count(rows: seq<Row>, counted: Row -> bool): nat {
    if rows == [] then 0 else Count(rows[..|rows| - 1], counted) + if counted(rows[|rows| - 1]) then 1 else 0
  }

  /** The named markets with an outcome. */
  function Resolved(rows: seq<Row>): set<string> {
    set row | row in rows && row.outcome.Some? && TextOf(row.cells, "market_id") != "" :: TextOf(row.cells, "market_id")
  }

  /** The lists of one arm. */
  datatype Lists = Lists(predictions: seq<real>, outcomes: seq<real>, pnls: seq<Evaluation>, coverage: nat)

  /** The two parallel lists hold the observations, entry by entry. */
  ghost predicate Aligned(predictions: seq<real>, outcomes: seq<real>, observations: seq<Observation>) {
    && |predictions| == |outcomes| == |observations|
    && forall i | 0 <= i < |observations| :: Observation(predictions[i], outcomes[i]) == observations[i]
  }

  ghost predicate Tracks(lists: Lists, rows: seq<Row>, arm: Arm) {
    && Aligned(lists.predictions, lists.outcomes, Observations(rows, arm))
    && lists.pnls == Evaluations(rows, arm)
    && lists.coverage == Count(rows, (row: Row) => arm in row.summaries)
  }

  datatype Counters = Counters(telemetry: nat, candidates: nat, rawCandidates: nat)

  function CountersOf(rows: seq<Row>): Counters {
    Counters(
      Count(rows, (row: Row) => row.hasPayload),
      Count(rows, (row: Row) => SelectedSide(row, FullWeightedMrf).Some?),
      Count(rows, (row: Row) => RawSide(row).Some?))
  }

  // ---- The accumulator ----

  lemma RowMore(rows: seq<Row>, row: Row, arm: Arm)
    ensures Observations(rows + [row], arm) == Observations(rows, arm) + Observed(row, arm)
    ensures Evaluations(rows + [row], arm) == Evaluations(rows, arm) + Evaluated(row, arm)
  {
    assert (rows + [row])[..|rows|] == rows;
  }

  lemma CountMore(rows: seq<Row>, row: Row, counted: Row -> bool)
    ensures Count(rows + [row], counted) == Count(rows, counted) + if counted(row) then 1 else 0
  {
    assert (rows + [row])[..|rows|] == rows;
  }

  /** Both lists grow together or not at all. */
  method Observe(predictions: seq<real>, outcomes: seq<real>, row: Row, arm: Arm, ghost observations: seq<Observation>)
    returns (ps: seq<real>, os: seq<real>)
    requires Aligned(predictions, outcomes, observations)
    ensures Aligned(ps, os, observations + Observed(row, arm))
  {
    ps, os := predictions, outcomes;
    var p := Probability(row, arm);
    if p.Some? && row.outcome.Some? {
      ps := ps + [p.value];
      os := os + [if row.outcome.value then 1.0 else 0.0];
    }
  }

  /** One arm's share of one row. */
  method VisitArm(lists: Lists, row: Row, arm: Arm, ghost seen: seq<Row>) returns (next: Lists)
    requires Tracks(lists, seen, arm)
    ensures Tracks(next, seen + [row], arm)
  {
    next := lists;
    if arm in row.summaries {
      next := next.(coverage := next.coverage + 1);
    }
    var predictions, outcomes := Observe(next.predictions, next.outcomes, row, arm, Observations(seen, arm));
    next := next.(predictions := predictions, outcomes := outcomes);
    var pnl := Pnl(row, arm);
    if pnl.Some? {
      next := next.(pnls := next.pnls + [Evaluation(TextOf(row.cells, "market_id"), DayOf(row), pnl.value)]);
    }
    RowMore(seen, row, arm);
    CountMore(seen, row, (row: Row) => arm in row.summaries);
  }

  /** The pass over all rows. */
  method Accumulate(rows: seq<Row>) returns (arms: map<Arm, Lists>, counters: Counters, resolved: set<string>)
    ensures TracksAll(arms, rows, ARMS)
    ensures counters == CountersOf(rows)
    ensures resolved == Resolved(rows)
  {
    arms := NoLists(ARMS);
    counters := Counters(0, 0, 0);
    resolved := {};
    assert forall i, k | 0 <= i < k < |ARMS| :: ARMS[i] != ARMS[k];
    for i := 0 to |rows|
      invariant TracksAll(arms, rows[..i], ARMS)
      invariant counters == CountersOf(rows[..i]) && resolved == Resolved(rows[..i])
    {
      var row := rows[i];
      ghost var seen := rows[..i];
      assert rows[..i + 1] == seen + [row];
      resolved := Resolve(resolved, row, seen);
      arms := VisitRow(arms, row, ARMS, seen);
      counters := CountRow(counters, row, seen);
    }
    assert rows[..|rows|] == rows;
  }

  function NoLists(names: seq<Arm>): (arms: map<Arm, Lists>)
    ensures TracksAll(arms, [], names)
  {
    map arm | arm in names :: Lists([], [], [], 0)
  }

  method Resolve(before: set<string>, row: Row, ghost seen: seq<Row>) returns (resolved: set<string>)
    requires before == Resolved(seen)
    ensures resolved == Resolved(seen + [row])
  {
    resolved := before;
    var marketId := TextOf(row.cells, "market_id");
    if row.outcome.Some? && marketId != "" {
      resolved := resolved + {marketId};
    }
  }

  ghost predicate TracksAll(arms: map<Arm, Lists>, rows: seq<Row>, names: seq<Arm>) {
    forall arm | arm in names :: arm in arms && Tracks(arms[arm], rows, arm)
  }

  method VisitRow(before: map<Arm, Lists>, row: Row, names: seq<Arm>, ghost seen: seq<Row>)
    returns (arms: map<Arm, Lists>)
    requires TracksAll(before, seen, names) && forall i, k | 0 <= i < k < |names| :: names[i] != names[k]
    ensures TracksAll(arms, seen + [row], names)
  {
    arms := before;
    for a := 0 to |names|
      invariant TracksAll(arms, seen + [row], names[..a]) && TracksAll(arms, seen, names[a..])
    {
      var name := names[a];
      var next := VisitArm(arms[name], row, name, seen);
      OneArmMore(arms, next, row, names, a, seen);
      arms := arms[name := next];
    }
    assert names[..|names|] == names;
  }

  lemma OneArmMore(arms: map<Arm, Lists>, next: Lists, row: Row, names: seq<Arm>, a: nat, seen: seq<Row>)
    requires a < |names| && forall i, k | 0 <= i < k < |names| :: names[i] != names[k]
    requires TracksAll(arms, seen + [row], names[..a]) && TracksAll(arms, seen, names[a..])
    requires Tracks(next, seen + [row], names[a])
    ensures TracksAll(arms[names[a] := next], seen + [row], names[..a + 1])
    ensures TracksAll(arms[names[a] := next], seen, names[a + 1..])
  {
    forall arm | arm in names[..a + 1] ensures arm == names[a] || arm in names[..a] {
      var k :| 0 <= k < a + 1 && names[..a + 1][k] == arm;
      if k < a { assert names[..a][k] == arm; }
    }
    forall arm | arm in names[a + 1..] ensures arm != names[a] && arm in names[a..] {
      var k :| 0 <= k < |names| - a - 1 && names[a + 1..][k] == arm;
      assert names[a..][k + 1] == arm;
    }
  }

  method CountRow(before: Counters, row: Row, ghost seen: seq<Row>) returns (counters: Counters)
    requires before == CountersOf(seen)
    ensures counters == CountersOf(seen + [row])
  {
    counters := before;
    if row.hasPayload {
      counters := counters.(telemetry := counters.telemetry + 1);
    }
    if RawSide(row).Some? {
      counters := counters.(rawCandidates := counters.rawCandidates + 1);
    }
    if SelectedSide(row, FullWeightedMrf).Some? {
      counters := counters.(candidates := counters.candidates + 1);
    }
    assert (seen + [row])[..|seen|] == seen;
  }

  // ---- Scores, before rounding ----

  function Sum(xs: seq<real>): real {
    if xs == [] then 0.0 else Sum(xs[..|xs| - 1]) + xs[|xs| - 1]
  }

  function Mean(xs: seq<real>): real
    requires xs != []
  {
    Sum(xs) / |xs| as real
  }

  function SquaredError(prediction: real, outcome: real): real {
    (prediction - outcome) * (prediction - outcome)
  }

  function SquaredErrors(predictions: seq<real>, outcomes: seq<real>): (r: seq<real>)
    requires |predictions| == |outcomes|
    ensures |r| == |predictions|
  {
    if predictions == [] then []
    else
      var n := |predictions| - 1;
      SquaredErrors(predictions[..n], outcomes[..n])
      + [SquaredError(predictions[n], outcomes[n])]
  }

  function Brier(predictions: seq<real>, outcomes: seq<real>): real
    requires |predictions| == |outcomes| && predictions != []
  {
    Mean(SquaredErrors(predictions, outcomes))
  }

  function CalibrationError(predictions: seq<real>, outcomes: seq<real>): real
    requires |predictions| == |outcomes| && predictions != []
  {
    var gap := Mean(predictions) - Mean(outcomes);
    if gap < 0.0 then -gap else gap
  }

  /** The square of a sum s of n errors is at most n times the sum q of their squares. */
  ghost predicate SquareWithin(n: real, q: real, s: real) {
    s * s <= n * q
  }

  lemma NonPositive(x: real, m: real)
    requires m > 0.0 && x * m <= 0.0
    ensures x <= 0.0
  {
  }

  lemma SquareStep(n: real, q: real, s: real, d: real)
    requires n >= 1.0 && SquareWithin(n, q, s)
    ensures SquareWithin(n + 1.0, q + d * d, s + d)
  {
    var e := s - n * d;
    assert e * e == s * s - 2.0 * n * (s * d) + n * n * (d * d);
    var x := 2.0 * (s * d) - q - n * (d * d);
    assert x * n == 2.0 * n * (s * d) - n * q - n * n * (d * d);
    assert x * n <= s * s - n * q - e * e + (s * s - s * s);
    NonPositive(x, n);
  }

  lemma {:induction false} SquareOfSum(ps: seq<real>, os: seq<real>)
    requires |ps| == |os|
    ensures SquareWithin(|ps| as real, Sum(SquaredErrors(ps, os)), Sum(ps) - Sum(os))
  {
    if ps == [] {
    } else {
      var n := |ps| - 1;
      SquareOfSum(ps[..n], os[..n]);
      var d, q, s := ps[n] - os[n], Sum(SquaredErrors(ps[..n], os[..n])), Sum(ps[..n]) - Sum(os[..n]);
      ErrorsMore(ps, os);
      if n > 0 {
        SquareStep(n as real, q, s, d);
      }
      assert Sum(ps) - Sum(os) == s + d && |ps| as real == n as real + 1.0;
    }
  }

  lemma ErrorsMore(ps: seq<real>, os: seq<real>)
    requires |ps| == |os| > 0
    ensures var n := |ps| - 1; var d := ps[n] - os[n];
            Sum(SquaredErrors(ps, os)) == Sum(SquaredErrors(ps[..n], os[..n])) + d * d
  {
    var n := |ps| - 1;
    assert SquaredErrors(ps, os)[..n] == SquaredErrors(ps[..n], os[..n]);
  }

  lemma DivideSquares(n: real, s: real, t: real, q: real)
    requires n > 0.0 && SquareWithin(n, q, s - t)
    ensures (s / n - t / n) * (s / n - t / n) <= q / n
  {
    var a, b := s / n - t / n, q / n;
    assert a * n == s - t && b * n == q;
    var x := (a * a - b) * n;
    calc {
      x * n;
      (a * n) * (a * n) - n * (b * n);
      (s - t) * (s - t) - n * q;
    }
    NonPositive(x, n);
    NonPositive(a * a - b, n);
  }

  ghost predicate WithinBrier(error: real, brier: real) {
    error * error <= brier
  }

  /** The squared calibration error is at most the Brier score. */
  lemma CalibrationWithinBrier(ps: seq<real>, os: seq<real>)
    requires |ps| == |os| && ps != []
    ensures WithinBrier(CalibrationError(ps, os), Brier(ps, os))
  {
    SquareOfSum(ps, os);
    DivideSquares(|ps| as real, Sum(ps), Sum(os), Sum(SquaredErrors(ps, os)));
  }

  // ---- Clusters ----

  function Cluster(e: Evaluation): string {
    e.marketId + "|" + e.day
  }

  /** Two evaluations share a cluster exactly when they share market and day, whatever the market's name. */
  lemma ClusterIsMarketDay(e: Evaluation, f: Evaluation)
    ensures Cluster(e) == Cluster(f) <==> e.marketId == f.marketId && e.day == f.day
  {
    if Cluster(e) == Cluster(f) {
      var c := Cluster(e);
      assert |c| == |e.marketId| + 11 == |f.marketId| + 11;
      assert e.marketId == c[..|c| - 11] == f.marketId;
      assert e.day == c[|c| - 10..] == f.day;
    }
  }

  /** The profits of one cluster, in order. */
  function PnlsOf(evaluations: seq<Evaluation>, cluster: string): seq<real> {
    if evaluations == [] then []
    else
      var last := evaluations[|evaluations| - 1];
      PnlsOf(evaluations[..|evaluations| - 1], cluster) + if Cluster(last) == cluster then [last.pnl] else []
  }

  function NetPnl(evaluations: seq<Evaluation>): real {
    if evaluations == [] then 0.0
    else NetPnl(evaluations[..|evaluations| - 1]) + evaluations[|evaluations| - 1].pnl
  }

  ghost predicate NoRepeats(keys: seq<string>) {
    forall i, k | 0 <= i < k < |keys| :: keys[i] != keys[k]
  }

  /** The grouping: each cluster once, with exactly its own profits in order, and no empty group. */
  ghost predicate Grouped(evaluations: seq<Evaluation>, keys: seq<string>, grouped: map<string, seq<real>>) {
    && NoRepeats(keys)
    && (forall c :: c in keys <==> c in grouped)
    && (forall i | 0 <= i < |evaluations| :: Cluster(evaluations[i]) in grouped)
    && (forall c | c in grouped :: grouped[c] == PnlsOf(evaluations, c) && grouped[c] != [])
  }

  method GroupByCluster(evaluations: seq<Evaluation>) returns (keys: seq<string>, grouped: map<string, seq<real>>)
    ensures Grouped(evaluations, keys, grouped)
  {
    keys, grouped := [], map[];
    for i := 0 to |evaluations|
      invariant Grouped(evaluations[..i], keys, grouped)
    {
      assert evaluations[..i + 1] == evaluations[..i] + [evaluations[i]];
      keys, grouped := AddToGroup(keys, grouped, evaluations[i], evaluations[..i]);
    }
    assert evaluations[..|evaluations|] == evaluations;
  }

  method AddToGroup(keys0: seq<string>, grouped0: map<string, seq<real>>, e: Evaluation, ghost seen: seq<Evaluation>)
    returns (keys: seq<string>, grouped: map<string, seq<real>>)
    requires Grouped(seen, keys0, grouped0)
    ensures Grouped(seen + [e], keys, grouped)
  {
    GroupedMore(seen, keys0, grouped0, e);
    var c := Cluster(e);
    keys := if c in grouped0 then keys0 else keys0 + [c];
    grouped := grouped0[c := GroupOf(grouped0, c) + [e.pnl]];
  }

  /** The group a further evaluation belongs to, before it is added. */
  function GroupOf(grouped: map<string, seq<real>>, cluster: string): seq<real> {
    if cluster in grouped then grouped[cluster] else []
  }

  lemma GroupedMore(evaluations: seq<Evaluation>, keys: seq<string>, grouped: map<string, seq<real>>, e: Evaluation)
    requires Grouped(evaluations, keys, grouped)
    ensures Grouped(evaluations + [e], if Cluster(e) in grouped then keys else keys + [Cluster(e)],
                    grouped[Cluster(e) := GroupOf(grouped, Cluster(e)) + [e.pnl]])
  {
    var c := Cluster(e);
    if c !in grouped { NoneYet(evaluations, c); }
    var next := grouped[c := GroupOf(grouped, c) + [e.pnl]];
    forall k | k in next ensures next[k] == PnlsOf(evaluations + [e], k) { PnlsMore(evaluations, e, k); }
  }

  lemma {:induction false} NoneYet(evaluations: seq<Evaluation>, cluster: string)
    requires forall i | 0 <= i < |evaluations| :: Cluster(evaluations[i]) != cluster
    ensures PnlsOf(evaluations, cluster) == []
  {
    if evaluations == [] {
    } else {
      NoneYet(evaluations[..|evaluations| - 1], cluster);
    }
  }

  /** The sum of the cluster totals. */
  function ClusterTotal(evaluations: seq<Evaluation>, keys: seq<string>): real {
    if keys == [] then 0.0
    else ClusterTotal(evaluations, keys[..|keys| - 1]) + Sum(PnlsOf(evaluations, keys[|keys| - 1]))
  }

  lemma {:induction false} OneMore(evaluations: seq<Evaluation>, e: Evaluation, keys: seq<string>)
    requires NoRepeats(keys)
    ensures ClusterTotal(evaluations + [e], keys) ==
            ClusterTotal(evaluations, keys) + if Cluster(e) in keys then e.pnl else 0.0
  {
    if keys == [] {
    } else {
      var before, key := keys[..|keys| - 1], keys[|keys| - 1];
      OneMore(evaluations, e, before);
      PnlsMore(evaluations, e, key);
      LastIsNew(keys, Cluster(e));
    }
  }

  /** A key is the last one or among the earlier ones, never both. */
  lemma LastIsNew(keys: seq<string>, c: string)
    requires NoRepeats(keys) && keys != []
    ensures c in keys <==> c == keys[|keys| - 1] || c in keys[..|keys| - 1]
    ensures !(c == keys[|keys| - 1] && c in keys[..|keys| - 1])
  {
    assert keys == keys[..|keys| - 1] + [keys[|keys| - 1]];
  }

  lemma PnlsMore(evaluations: seq<Evaluation>, e: Evaluation, cluster: string)
    ensures PnlsOf(evaluations + [e], cluster) ==
            PnlsOf(evaluations, cluster) + if Cluster(e) == cluster then [e.pnl] else []
    ensures Sum(PnlsOf(evaluations + [e], cluster)) ==
            Sum(PnlsOf(evaluations, cluster)) + if Cluster(e) == cluster then e.pnl else 0.0
  {
    assert (evaluations + [e])[..|evaluations|] == evaluations;
    var mine := PnlsOf(evaluations, cluster);
    assert (mine + [e.pnl])[..|mine|] == mine;
    assert mine + [] == mine;
  }

  lemma {:induction false} NothingYet(keys: seq<string>)
    ensures ClusterTotal([], keys) == 0.0
  {
    if keys == [] {
    } else {
      NothingYet(keys[..|keys| - 1]);
    }
  }

  /** Regrouping by market and day preserves the sum: cluster totals add up to the net profit. */
  lemma {:induction false} ClustersAddUp(evaluations: seq<Evaluation>, keys: seq<string>)
    requires NoRepeats(keys) && forall i | 0 <= i < |evaluations| :: Cluster(evaluations[i]) in keys
    ensures ClusterTotal(evaluations, keys) == NetPnl(evaluations)
  {
    if evaluations == [] {
      NothingYet(keys);
    } else {
      var before, e := evaluations[..|evaluations| - 1], evaluations[|evaluations| - 1];
      ClustersAddUp(before, keys);
      OneMore(before, e, keys);
      assert evaluations == before + [e];
    }
  }

  /** The sum of the groups, cluster by cluster. */
  function GroupedTotal(keys: seq<string>, grouped: map<string, seq<real>>): real
    requires forall c | c in keys :: c in grouped
  {
    if keys == [] then 0.0
    else
      assert keys[|keys| - 1] in keys;
      GroupedTotal(keys[..|keys| - 1], grouped) + Sum(grouped[keys[|keys| - 1]])
  }

  lemma {:induction false} GroupedIsCluster(evaluations: seq<Evaluation>, keys: seq<string>,
                                            grouped: map<string, seq<real>>)
    requires forall c | c in keys :: c in grouped && grouped[c] == PnlsOf(evaluations, c)
    ensures GroupedTotal(keys, grouped) == ClusterTotal(evaluations, keys)
  {
    if keys == [] {
    } else {
      GroupedIsCluster(evaluations, keys[..|keys| - 1], grouped);
    }
  }

  /** The groups the loop builds add up to the arm's net profit. */
  lemma GroupingPreservesPnl(evaluations: seq<Evaluation>, keys: seq<string>, grouped: map<string, seq<real>>)
    requires Grouped(evaluations, keys, grouped)
    ensures GroupedTotal(keys, grouped) == NetPnl(evaluations)
  {
    ClustersAddUp(evaluations, keys);
    GroupedIsCluster(evaluations, keys, grouped);
  }

  /** Over any rows: each arm's lists are equally long, its calibration error is within its Brier score. */
  lemma EvidenceIsSound(lists: Lists, rows: seq<Row>, arm: Arm)
    requires Tracks(lists, rows, arm)
    ensures |lists.predictions| == |lists.outcomes|
    ensures lists.predictions != [] ==>
              WithinBrier(CalibrationError(lists.predictions, lists.outcomes), Brier(lists.predictions, lists.outcomes))
  {
    if lists.predictions != [] {
      CalibrationWithinBrier(lists.predictions, lists.outcomes);
    }
  }
}
