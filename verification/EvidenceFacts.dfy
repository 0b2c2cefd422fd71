/** Profits, predictions and scores of the shadow evidence, told from the cells of a row. */
module EvidenceFacts {
  import opened Basics
  import opened Texts
  import opened ShadowEvidence

  // ---- Words ----

  /** A side is written as one of three words each, in any case and with any white space around it. */
  lemma SideExactly(text: string)
    ensures SideOf(text) == Some(BuyYes) <==> Writes(text, "BUY_YES") || Writes(text, "YES") || Writes(text, "UP")
    ensures SideOf(text) == Some(BuyNo) <==> Writes(text, "BUY_NO") || Writes(text, "NO") || Writes(text, "DOWN")
  {
    WritesUpper(text, "BUY_YES");
    WritesUpper(text, "YES");
    WritesUpper(text, "UP");
    WritesUpper(text, "BUY_NO");
    WritesUpper(text, "NO");
    WritesUpper(text, "DOWN");
  }

  lemma TruthExactly(text: string)
    ensures Truthy(text) <==> Writes(text, "1") || Writes(text, "true") || Writes(text, "yes") || Writes(text, "on")
  {
    WritesLower(text, "1");
    WritesLower(text, "true");
    WritesLower(text, "yes");
    WritesLower(text, "on");
  }

  // ---- Where ask and cost come from ----

  function Cell(c: Cells, key: string): Option<real> {
    if key in c.numbers then Some(c.numbers[key]) else None
  }

  /** The first number that is there. */
  function FirstOf(cells: seq<Option<real>>): Option<real> {
    if cells == [] then None else if cells[0].Some? then cells[0] else FirstOf(cells[1..])
  }

  /** The policy found the row eligible: the summary has the key, and its text says so. */
  ghost predicate PolicyEligible(summary: Cells) {
    "policy_eligible" in summary.texts &&
    var text := summary.texts["policy_eligible"];
    Writes(text, "1") || Writes(text, "true") || Writes(text, "yes") || Writes(text, "on")
  }

  lemma EligibleExactly(summary: Cells)
    ensures Eligible(Some(summary)) <==> PolicyEligible(summary)
  {
    if "policy_eligible" in summary.texts { TruthExactly(summary.texts["policy_eligible"]); }
  }

  /**
   The ask: an eligible summary's policy ask, its selected ask, its ask of the side; then the row's legacy ask,
   its candidate ask, its ask of the side. The first that is there.
   */
  lemma AskExactly(row: Row, side: Side, summary: Option<Cells>)
    ensures var key := if side == BuyYes then "yes_ask" else "no_ask";
            var own := [Cell(row.cells, "legacy_ask"), Cell(row.cells, "candidate_ask"), Cell(row.cells, key)];
            && (summary == None ==> AskFor(row, side, summary) == FirstOf(own))
            && (summary.Some? ==>
                  var c := summary.value;
                  var policy := if PolicyEligible(c) then Cell(c, "policy_selected_ask") else None;
                  AskFor(row, side, summary) == FirstOf([policy, Cell(c, "selected_ask"), Cell(c, key)] + own))
  {
    var key := if side == BuyYes then "yes_ask" else "no_ask";
    var x, y, z := Cell(row.cells, "legacy_ask"), Cell(row.cells, "candidate_ask"), Cell(row.cells, key);
    FirstOfThree(x, y, z);
    if summary.Some? {
      var c := summary.value;
      EligibleExactly(c);
      var policy := if PolicyEligible(c) then Cell(c, "policy_selected_ask") else None;
      FirstOfSix(policy, Cell(c, "selected_ask"), Cell(c, key), [x, y, z]);
    }
  }

  lemma FirstOfThree(x: Option<real>, y: Option<real>, z: Option<real>)
    ensures FirstOf([x, y, z]) == OrElse(OrElse(x, y), z) == OrElse(x, OrElse(y, z))
  {
    assert [z][1..] == [] && FirstOf([z]) == z;
    assert [y, z][1..] == [z] && FirstOf([y, z]) == OrElse(y, z);
    assert [x, y, z][1..] == [y, z];
  }

  lemma FirstOfSix(x: Option<real>, y: Option<real>, z: Option<real>, rest: seq<Option<real>>)
    ensures FirstOf([x, y, z] + rest) == OrElse(OrElse(x, OrElse(y, z)), FirstOf(rest))
  {
    assert ([z] + rest)[1..] == rest && FirstOf([z] + rest) == OrElse(z, FirstOf(rest));
    assert ([y, z] + rest)[1..] == [z] + rest && FirstOf([y, z] + rest) == OrElse(y, FirstOf([z] + rest));
    assert ([x, y, z] + rest)[1..] == [y, z] + rest;
  }

  /** The cost, in the same order; the row's observed cost, then its weighted cost, then nothing. */
  lemma CostExactly(row: Row, side: Side, summary: Option<Cells>)
    ensures var key := if side == BuyYes then "yes_cost_per_share" else "no_cost_per_share";
            var own := [Cell(row.cells, "observed_cost_per_share"), Cell(row.cells, "weighted_cost_per_share"),
                Some(0.0)];
            && (summary == None ==> Some(CostFor(row, side, summary)) == FirstOf(own))
            && (summary.Some? ==>
                  var c := summary.value;
                  var policy := if PolicyEligible(c) then Cell(c, "policy_selected_cost_per_share") else None;
                  Some(CostFor(row, side, summary)) ==
                  FirstOf([policy, Cell(c, "selected_cost_per_share"), Cell(c, key)] + own))
  {
    var key := if side == BuyYes then "yes_cost_per_share" else "no_cost_per_share";
    var x, y := Cell(row.cells, "observed_cost_per_share"), Cell(row.cells, "weighted_cost_per_share");
    FirstOfThree(x, y, Some(0.0));
    if summary.Some? {
      var c := summary.value;
      EligibleExactly(c);
      var policy := if PolicyEligible(c) then Cell(c, "policy_selected_cost_per_share") else None;
      FirstOfSix(policy, Cell(c, "selected_cost_per_share"), Cell(c, key), [x, y, Some(0.0)]);
    }
  }

  // ---- Profit ----

  /**
   A profit exists exactly with a side, an outcome and an ask strictly between 0 and 1. With the ask and a
   positive cost added back it is 1 on the winning side and 0 on the losing one.
   */
  lemma PnlExactly(row: Row, arm: Arm)
    ensures var side := SelectedSide(row, arm);
            Pnl(row, arm).Some? <==>
              && side.Some? && row.outcome.Some?
              && var ask := AskFor(row, side.value, Summary(row, arm)); ask.Some? && 0.0 < ask.value < 1.0
    ensures Pnl(row, arm).Some? ==>
              var side := SelectedSide(row, arm).value;
              var ask, cost := AskFor(row, side, Summary(row, arm)).value, CostFor(row, side, Summary(row, arm));
              var won := row.outcome.value <==> side == BuyYes;
              && (cost > 0.0 ==> Pnl(row, arm).value + ask + cost == if won then 1.0 else 0.0)
              && (cost <= 0.0 ==> Pnl(row, arm).value + ask == if won then 1.0 else 0.0)
  {
  }

  /** Turning a row's outcome from NO to YES moves its profit by exactly one, up for BUY_YES and down for BUY_NO. */
  lemma FlippedOutcome(row: Row, arm: Arm)
    ensures var yes, no := Pnl(row.(outcome := Some(true)), arm), Pnl(row.(outcome := Some(false)), arm);
            && (yes.Some? <==> no.Some?)
            && (yes.Some? ==> yes.value - no.value == if SelectedSide(row, arm) == Some(BuyYes) then 1.0 else -1.0)
  {
    var yes, no := row.(outcome := Some(true)), row.(outcome := Some(false));
    var side := SelectedSide(row, arm);
    SameSide(row, yes, arm);
    SameSide(row, no, arm);
    if side.Some? {
      SameQuotes(row, yes, side.value, Summary(row, arm));
      SameQuotes(row, no, side.value, Summary(row, arm));
    }
  }

  lemma SameSide(row: Row, other: Row, arm: Arm)
    requires other.cells == row.cells && other.summaries == row.summaries
    ensures SelectedSide(other, arm) == SelectedSide(row, arm) && Summary(other, arm) == Summary(row, arm)
  {
  }

  lemma SameQuotes(row: Row, other: Row, side: Side, summary: Option<Cells>)
    requires other.cells == row.cells
    ensures AskFor(other, side, summary) == AskFor(row, side, summary)
    ensures CostFor(other, side, summary) == CostFor(row, side, summary)
  {
  }

  /** Without a summary, raising a non-negative observed cost by d lowers the profit by d. */
  lemma RaisedCost(row: Row, arm: Arm, d: real)
    requires Summary(row, arm) == None && d >= 0.0 && Pnl(row, arm).Some?
    requires "observed_cost_per_share" in row.cells.numbers && row.cells.numbers["observed_cost_per_share"] >= 0.0
    ensures var raised := row.cells.numbers["observed_cost_per_share"] + d;
            var other := row.(cells := row.cells.(numbers := row.cells.numbers["observed_cost_per_share" := raised]));
            Pnl(other, arm) == Some(Pnl(row, arm).value - d)
  {
    var raised := row.cells.numbers["observed_cost_per_share"] + d;
    var other := row.(cells := row.cells.(numbers := row.cells.numbers["observed_cost_per_share" := raised]));
    RaisedSide(row, other, arm);
    RaisedAsk(row, other, SelectedSide(row, arm).value, raised);
  }

  lemma RaisedSide(row: Row, other: Row, arm: Arm)
    requires other.cells.texts == row.cells.texts && other.summaries == row.summaries
    ensures SelectedSide(other, arm) == SelectedSide(row, arm) && Summary(other, arm) == Summary(row, arm)
  {
    var a, b := row.cells, other.cells;
    assert forall key: string :: TextOf(a, key) == TextOf(b, key);
  }

  lemma RaisedAsk(row: Row, other: Row, side: Side, raised: real)
    requires other.cells.numbers == row.cells.numbers["observed_cost_per_share" := raised]
    ensures AskFor(other, side, None) == AskFor(row, side, None) && CostFor(other, side, None) == raised
  {
    AskExactly(row, side, None);
    AskExactly(other, side, None);
  }

  // ---- Predictions ----

  /** The arm's summary is there and has at least one cell. */
  predicate Summed(row: Row, arm: Arm) {
    arm in row.summaries && row.summaries[arm].texts.Keys != {}
  }

  lemma SummaryExactly(row: Row, arm: Arm)
    ensures Summary(row, arm) == if Summed(row, arm) then Some(row.summaries[arm]) else None
  {
    if arm in row.summaries {
      assert row.summaries[arm].texts.Keys == {} <==> row.summaries[arm].texts == map[];
    }
  }

  /** A summary's own prediction counts unless it is zero, which counts as missing; otherwise the row's cells decide. */
  lemma PredictionExactly(row: Row, arm: Arm)
    ensures var own := OwnPrediction(row, arm);
            Probability(row, arm) ==
            if Summed(row, arm) && "p_final_yes" in row.summaries[arm].numbers
               && row.summaries[arm].numbers["p_final_yes"] != 0.0
            then Some(row.summaries[arm].numbers["p_final_yes"]) else own
  {
    SummaryExactly(row, arm);
    LegacyExactly(row.cells);
    var x, y := Cell(row.cells, "weighted_p_market_yes"), Cell(row.cells, "p_market_yes");
    assert [x, y][1..] == [y] && [y][1..] == [];
    assert FirstOf([y]) == y;
  }

  /** What the row itself predicts for an arm. Only three arms have cells of their own. */
  function OwnPrediction(row: Row, arm: Arm): Option<real> {
    match arm
    case MarketOnly => FirstOf([Cell(row.cells, "weighted_p_market_yes"), Cell(row.cells, "p_market_yes")])
    case FullWeightedMrf => Cell(row.cells, "weighted_p_final_yes")
    case Legacy => LegacyPrediction(row.cells)
    case _ => None
  }

  /** The legacy probability on the YES axis: given outright, or from the candidate side's chance to win. */
  function LegacyPrediction(c: Cells): Option<real> {
    var win, side := Cell(c, "p_logreg_win"),
        SideOf(if "candidate_side" in c.texts then c.texts["candidate_side"] else "");
    FirstOf([
      Cell(c, "p_legacy_yes"), Cell(c, "p_logreg_yes"),
      if win == None || side == None then None
      else if side == Some(BuyYes) then win else Some(1.0 - win.value)])
  }

  lemma LegacyExactly(c: Cells)
    ensures LegacyProbability(c) == LegacyPrediction(c)
  {
    var win, side := Cell(c, "p_logreg_win"),
        SideOf(if "candidate_side" in c.texts then c.texts["candidate_side"] else "");
    var last := if win == None || side == None then None else if side == Some(BuyYes) then win
        else Some(1.0 - win.value);
    FirstOfThree(Cell(c, "p_legacy_yes"), Cell(c, "p_logreg_yes"), last);
  }

  /**
   A row is an observation of an arm exactly with a prediction and an outcome, which counts 1 for YES and 0
   for NO.
   */
  lemma ObservedExactly(row: Row, arm: Arm)
    ensures |Observed(row, arm)| == if Probability(row, arm).Some? && row.outcome.Some? then 1 else 0
    ensures |Observed(row, arm)| == 1 ==>
              && Some(Observed(row, arm)[0].prediction) == Probability(row, arm)
              && (row.outcome == Some(true) ==> Observed(row, arm)[0].outcome == 1.0)
              && (row.outcome == Some(false) ==> Observed(row, arm)[0].outcome == 0.0)
  {
  }

  /** A row is an evaluation of an arm exactly with a profit, under its market and its day. */
  lemma EvaluatedExactly(row: Row, arm: Arm)
    ensures |Evaluated(row, arm)| == if Pnl(row, arm).Some? then 1 else 0
    ensures |Evaluated(row, arm)| == 1 ==>
              var e := Evaluated(row, arm)[0];
              && Some(e.pnl) == Pnl(row, arm)
              && e.marketId == (if "market_id" in row.cells.texts then row.cells.texts["market_id"] else "")
              && (row.day.Some? ==> e.day == row.day.value) && (row.day.None? ==> e.day == "0001-01-01")
  {
  }

  // ---- Sides ----

  function Written(c: Cells, key: string): string {
    if key in c.texts then c.texts[key] else ""
  }

  /**
   The side an arm trades. The legacy arm reads the first of three keys that the row has; the weighted arm obeys
   an eligibility verdict, trades nothing under a named policy without one, and otherwise falls back to the raw
   side; every other arm reads its summary.
   */
  lemma SelectedExactly(row: Row, arm: Arm)
    ensures arm == Legacy ==>
              SelectedSide(row, arm) ==
              SideOf(if "legacy_action" in row.cells.texts then row.cells.texts["legacy_action"]
                     else if "final_action" in row.cells.texts then row.cells.texts["final_action"]
                     else Written(row.cells, "candidate_side"))
    ensures arm != Legacy && arm != FullWeightedMrf ==>
              SelectedSide(row, arm) ==
              if Summed(row, arm) then SideOf(Written(row.summaries[arm], "selected_side")) else None
    ensures arm == FullWeightedMrf && Summed(row, arm) && "policy_eligible" in row.summaries[arm].texts ==>
              SelectedSide(row, arm) ==
              if PolicyEligible(row.summaries[arm])
              then SideOf(Written(row.summaries[arm], "policy_selected_side")) else None
    ensures arm == FullWeightedMrf && !(Summed(row, arm) && "policy_eligible" in row.summaries[arm].texts) ==>
              SelectedSide(row, arm) ==
              if AllSpace(Written(row.cells, "weighted_policy_id")) then RawSide(row) else None
  {
    SummaryExactly(row, arm);
    if Summed(row, arm) { EligibleExactly(row.summaries[arm]); }
    BlankPolicy(Written(row.cells, "weighted_policy_id"));
  }

  lemma BlankPolicy(text: string)
    ensures AllSpace(text) <==> Strip(text) == ""
  {
    if AllSpace(text) { BlankStrips(text); }
    var pre, post := StripSplits(text);
  }

  /** The raw side: the summary's selected side if it names one, else the row's weighted side. */
  lemma RawExactly(row: Row)
    ensures var own := SideOf(Written(row.cells, "weighted_selected_side"));
            RawSide(row) ==
            if Summed(row, FullWeightedMrf) && SideOf(Written(row.summaries[FullWeightedMrf], "selected_side")).Some?
            then SideOf(Written(row.summaries[FullWeightedMrf], "selected_side")) else own
  {
    SummaryExactly(row, FullWeightedMrf);
  }

  // ---- Scores ----

  lemma {:induction false} SumAppend(xs: seq<real>, ys: seq<real>)
    ensures Sum(xs + ys) == Sum(xs) + Sum(ys)
  {
    if ys == [] {
      assert xs + ys == xs;
    } else {
      var n := |ys| - 1;
      SumAppend(xs, ys[..n]);
      assert (xs + ys)[..|xs + ys| - 1] == xs + ys[..n];
    }
  }

  lemma {:induction false} ErrorsAppend(ps: seq<real>, os: seq<real>, qs: seq<real>, us: seq<real>)
    requires |ps| == |os| && |qs| == |us|
    ensures SquaredErrors(ps + qs, os + us) == SquaredErrors(ps, os) + SquaredErrors(qs, us)
  {
    if qs == [] {
      assert ps + qs == ps && os + us == os;
    } else {
      var n := |qs| - 1;
      ErrorsAppend(ps, os, qs[..n], us[..n]);
      var k := |ps| + n;
      assert (ps + qs)[..k] == ps + qs[..n] && (os + us)[..k] == os + us[..n];
      assert (ps + qs)[k] == qs[n] && (os + us)[k] == us[n];
    }
  }

  /** Scores of one observation: the squared error, and the error itself. */
  lemma SingleScores(p: real, o: real)
    ensures Brier([p], [o]) == (p - o) * (p - o)
    ensures CalibrationError([p], [o]) == if p >= o then p - o else o - p
  {
    assert [p][..0] == [] && [o][..0] == [];
    SumOfOne(p);
    SumOfOne(o);
    SumOfOne(SquaredError(p, o));
    assert SquaredErrors([p], [o]) == [SquaredError(p, o)];
  }

  lemma SumOfOne(x: real)
    ensures Sum([x]) == x && Mean([x]) == x
  {
    assert [x][..0] == [];
  }

  function Weighted(n: nat, x: real): real {
    n as real * x
  }

  lemma MeanTimes(xs: seq<real>)
    requires xs != []
    ensures Weighted(|xs|, Mean(xs)) == Sum(xs)
  {
  }

  /** A score over two batches is the mean of the batches' scores, weighted by their lengths. */
  lemma ScoresAverage(ps: seq<real>, os: seq<real>, qs: seq<real>, us: seq<real>)
    requires |ps| == |os| > 0 && |qs| == |us| > 0
    ensures Weighted(|ps + qs|, Brier(ps + qs, os + us)) ==
            Weighted(|ps|, Brier(ps, os)) + Weighted(|qs|, Brier(qs, us))
    ensures Weighted(|ps + qs|, Mean(ps + qs)) == Weighted(|ps|, Mean(ps)) + Weighted(|qs|, Mean(qs))
  {
    SumAppend(ps, qs);
    MeanTimes(ps);
    MeanTimes(qs);
    MeanTimes(ps + qs);
    ErrorsAppend(ps, os, qs, us);
    SumAppend(SquaredErrors(ps, os), SquaredErrors(qs, us));
    MeanTimes(SquaredErrors(ps, os));
    MeanTimes(SquaredErrors(qs, us));
    MeanTimes(SquaredErrors(ps + qs, os + us));
  }

  /** The calibration error is the distance of the two means. */
  lemma CalibrationIsDistance(ps: seq<real>, os: seq<real>)
    requires |ps| == |os| > 0
    ensures CalibrationError(ps, os) >= 0.0
    ensures CalibrationError(ps, os) == Mean(ps) - Mean(os) || CalibrationError(ps, os) == Mean(os) - Mean(ps)
  {
  }

  // ---- Counters ----

  /** What one more row adds to the counters. */
  lemma CountersExactly(rows: seq<Row>, row: Row)
    ensures CountersOf([]) == Counters(0, 0, 0)
    ensures var c, d := CountersOf(rows), CountersOf(rows + [row]);
            && d.telemetry == c.telemetry + (if row.hasPayload then 1 else 0)
            && d.candidates == c.candidates + (if SelectedSide(row, FullWeightedMrf).Some? then 1 else 0)
            && d.rawCandidates == c.rawCandidates + (if RawSide(row).Some? then 1 else 0)
  {
    CountMore(rows, row, (row: Row) => row.hasPayload);
    CountMore(rows, row, (row: Row) => SelectedSide(row, FullWeightedMrf).Some?);
    CountMore(rows, row, (row: Row) => RawSide(row).Some?);
  }

  /** The coverage of an arm counts the rows that have its summary, empty ones included. */
  lemma CoverageExactly(lists: Lists, rows: seq<Row>, next: Lists, row: Row, arm: Arm)
    requires Tracks(lists, rows, arm) && Tracks(next, rows + [row], arm)
    ensures next.coverage == lists.coverage + if arm in row.summaries.Keys then 1 else 0
  {
    CountMore(rows, row, (row: Row) => arm in row.summaries);
  }

  /** A market is resolved exactly when it has a name and some row of it has an outcome. */
  lemma ResolvedExactly(rows: seq<Row>, market: string)
    ensures market in Resolved(rows) <==>
            market != "" &&
            exists i | 0 <= i < |rows| :: rows[i].outcome.Some? && Written(rows[i].cells, "market_id") == market
  {
  }

  /** Every arm is visited, once. */
  lemma AllArms(arm: Arm)
    ensures arm in ARMS && forall i, k | 0 <= i < k < |ARMS| :: ARMS[i] != ARMS[k]
  {
  }
}
