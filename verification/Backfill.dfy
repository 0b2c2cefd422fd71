/** The model-key backfill: a keyset-paged loop over closed trades that changes the rows it pages over. */
module Backfill {
  import opened Basics

  const WINDOW: int := 30 * SECOND

  datatype Source = Reconstructed | Ambiguous

  /** What a version field of the metadata converts to. */
  datatype VersionField = NoVersion | VersionNumber(n: int) | NotANumber

  /** The metadata column after parsing; text that is no JSON object counts as none. Empty texts are absent keys. */
  datatype Metadata = NoMetadata | Fields(phaseModel: string, confirmKey: string, confirmVersion: VersionField)

  /** The columns of a trade that the backfill only reads. */
  datatype Facts = Facts(
    mode: string,
    closed: bool,
    createdAt: Option<int>,
    marketId: string,
    asset: Option<string>,
    outcomeBought: string,
    modelVersion: Option<int>,
    hasPnl: bool,
    metadata: Metadata)

  /** The columns it writes. */
  datatype Attribution = Attribution(
    modelKey: Option<string>, source: Option<Source>, confirmKey: Option<string>, confirmVersion: Option<int>)

  datatype Trade = Trade(id: int, facts: Facts, attribution: Attribution)

  datatype Decision = Decision(
    marketId: string, asset: Option<string>, createdAt: int, action: string, usedModel: Option<string>)

  datatype Job = Job(
    registry: set<(string, int)>,
    decisions: seq<Decision>,
    mode: string,
    before: Option<int>,
    afterId: int)

  datatype Stats = Stats(reconstructed: nat, ambiguous: nat, invalidKey: nat, confirmed: nat, processed: nat)

  predicate Qualifies(job: Job, t: Trade) {
    && t.facts.mode == job.mode && t.facts.closed && t.facts.modelVersion.Some? && t.facts.hasPnl
    && t.attribution.modelKey.None? && t.attribution.source.None?
    && (job.before.Some? ==> t.facts.createdAt.Some? && t.facts.createdAt.value < job.before.value)
  }

  /** The row is selected by a backfill that starts after the job's id. */
  predicate Selected(job: Job, t: Trade) {
    t.id > job.afterId && Qualifies(job, t)
  }

  // ---- Attribution of one trade ----

  predicate Nearby(d: Decision, t: Facts) {
    && t.createdAt.Some? && d.marketId == t.marketId && d.asset == t.asset
    && t.createdAt.value - WINDOW <= d.createdAt <= t.createdAt.value + WINDOW
    && (t.outcomeBought == "YES" ==> d.action == "BUY_YES")
    && (t.outcomeBought == "NO" ==> d.action == "BUY_NO")
  }

  /** The models named by the decisions near a trade. */
  function FunnelModels(decisions: seq<Decision>, t: Facts): seq<string> {
    if decisions == [] then []
    else
      var d := decisions[0];
      (if d.usedModel.Some? && Nearby(d, t) then [d.usedModel.value] else []) + FunnelModels(decisions[1..], t)
  }

  /** Exactly one distinct model is named. */
  predicate OneModel(models: seq<string>) {
    models != [] && forall m | m in models :: m == models[0]
  }

  /** The model key found for a trade; the empty text when none is. */
  function FoundKey(job: Job, t: Facts): string {
    if t.metadata.Fields? && t.metadata.phaseModel != "" then t.metadata.phaseModel
    else if t.createdAt.None? || t.marketId == "" then ""
    else
      var models := FunnelModels(job.decisions, t);
      if OneModel(models) then models[0] else ""
  }

  predicate Confirms(job: Job, t: Facts) {
    && t.metadata.Fields? && t.metadata.confirmKey != "" && t.metadata.confirmVersion.VersionNumber?
    && (t.metadata.confirmKey, t.metadata.confirmVersion.n) in job.registry
  }

  predicate KeyIsValid(job: Job, t: Facts) {
    FoundKey(job, t) != "" && t.modelVersion.Some? && (FoundKey(job, t), t.modelVersion.value) in job.registry
  }

  function Attributed(job: Job, t: Facts, a: Attribution): Attribution {
    var valid, confirms := KeyIsValid(job, t), Confirms(job, t);
    Attribution(
      if valid then Some(FoundKey(job, t)) else None,
      Some(if valid then Reconstructed else Ambiguous),
      if confirms then Some(t.metadata.confirmKey) else a.confirmKey,
      if confirms then Some(t.metadata.confirmVersion.n) else a.confirmVersion)
  }

  function Counted(job: Job, t: Facts, s: Stats): Stats {
    var c := s.(processed := s.processed + 1, confirmed := s.confirmed + if Confirms(job, t) then 1 else 0);
    if KeyIsValid(job, t) then c.(reconstructed := c.reconstructed + 1)
    else if FoundKey(job, t) != "" then c.(invalidKey := c.invalidKey + 1)
    else c.(ambiguous := c.ambiguous + 1)
  }

  // ---- One unpaged pass ----

  const ZERO: Stats := Stats(0, 0, 0, 0, 0)

  function Written(job: Job, t: Trade): Trade {
    t.(attribution := Attributed(job, t.facts, t.attribution))
  }

  function Pass(job: Job, rows: seq<Trade>): (r: seq<Trade>)
    ensures |r| == |rows|
  {
    if rows == [] then []
    else
      var n := |rows| - 1;
      Pass(job, rows[..n]) + [if Selected(job, rows[n]) then Written(job, rows[n]) else rows[n]]
  }

  function PassStats(job: Job, rows: seq<Trade>): Stats {
    if rows == [] then ZERO
    else
      var n := |rows| - 1;
      var s := PassStats(job, rows[..n]);
      if Selected(job, rows[n]) then Counted(job, rows[n].facts, s) else s
  }

  /** The ids of the selected rows, in table order. */
  function SelectedIds(job: Job, rows: seq<Trade>): seq<int> {
    if rows == [] then []
    else
      var n := |rows| - 1;
      SelectedIds(job, rows[..n]) + if Selected(job, rows[n]) then [rows[n].id] else []
  }

  lemma {:induction false} PassAt(job: Job, rows: seq<Trade>, i: nat)
    requires i < |rows|
    ensures Pass(job, rows)[i] == if Selected(job, rows[i]) then Written(job, rows[i]) else rows[i]
  {
    if i == |rows| - 1 {
    } else {
      PassAt(job, rows[..|rows| - 1], i);
    }
  }

  predicate IdsAscend(rows: seq<Trade>) {
    forall i, j | 0 <= i < j < |rows| :: rows[i].id < rows[j].id
  }

  /** The loop body for one trade: what apply mode writes, and the counters. */
  method AttributeTrade(job: Job, t: Facts, a: Attribution, stats: Stats) returns (b: Attribution, s: Stats)
    ensures b == Attributed(job, t, a) && s == Counted(job, t, stats)
  {
    s := stats.(processed := stats.processed + 1);
    b := a;
    var foundKey, confirm := "", false;
    if t.metadata.Fields? {
      foundKey := t.metadata.phaseModel;
      if t.metadata.confirmKey != "" && t.metadata.confirmVersion.VersionNumber?
         && (t.metadata.confirmKey, t.metadata.confirmVersion.n) in job.registry {
        confirm := true;
        s := s.(confirmed := s.confirmed + 1);
      }
    }
    if foundKey == "" && t.createdAt.Some? && t.marketId != "" {
      var models := FunnelModels(job.decisions, t);
      if OneModel(models) {
        foundKey := models[0];
      }
    }
    if foundKey != "" {
      if t.modelVersion.Some? && (foundKey, t.modelVersion.value) in job.registry {
        b := b.(modelKey := Some(foundKey), source := Some(Reconstructed));
        s := s.(reconstructed := s.reconstructed + 1);
      } else {
        b := b.(modelKey := None, source := Some(Ambiguous));
        s := s.(invalidKey := s.invalidKey + 1);
      }
    } else {
      b := b.(modelKey := None, source := Some(Ambiguous));
      s := s.(ambiguous := s.ambiguous + 1);
    }
    if confirm {
      b := b.(confirmKey := Some(t.metadata.confirmKey), confirmVersion := Some(t.metadata.confirmVersion.n));
    }
  }

  // ---- Progress of a paged pass ----

  /** The rows once the first p have been visited. */
  ghost function Partly(job: Job, rows: seq<Trade>, p: nat, apply: bool): seq<Trade>
    requires p <= |rows|
  {
    if apply then Pass(job, rows[..p]) + rows[p..] else rows
  }

  /** The first p of the original rows have been visited, and only they. */
  ghost predicate Progress(job: Job, all: seq<Trade>, p: nat, apply: bool, rows: seq<Trade>, stats: Stats,
                           visited: seq<int>) {
    && p <= |all| && rows == Partly(job, all, p, apply)
    && stats == PassStats(job, all[..p]) && visited == SelectedIds(job, all[..p])
  }

  /** Rows that are not selected need no visit. */
  lemma {:induction false} SkipTo(job: Job, rows: seq<Trade>, p: nat, q: nat)
    requires p <= q <= |rows| && NoneSelected(job, rows, p, q)
    ensures PassStats(job, rows[..q]) == PassStats(job, rows[..p])
    ensures SelectedIds(job, rows[..q]) == SelectedIds(job, rows[..p])
    ensures Pass(job, rows[..q]) == Pass(job, rows[..p]) + rows[p..q]
  {
    if p == q {
    } else {
      SkipTo(job, rows, p, q - 1);
      assert rows[..q][..q - 1] == rows[..q - 1];
      assert rows[p..q] == rows[p..q - 1] + [rows[q - 1]];
    }
  }

  lemma SkipProgress(job: Job, all: seq<Trade>, p: nat, q: nat, apply: bool, rows: seq<Trade>, stats: Stats,
                     visited: seq<int>)
    requires Progress(job, all, p, apply, rows, stats, visited)
    requires p <= q <= |all| && NoneSelected(job, all, p, q)
    ensures Progress(job, all, q, apply, rows, stats, visited)
  {
    SkipTo(job, all, p, q);
    assert all[p..] == all[p..q] + all[q..];
  }

  lemma VisitProgress(job: Job, all: seq<Trade>, p: nat, apply: bool, rows: seq<Trade>, stats: Stats, visited: seq<int>)
    requires Progress(job, all, p, apply, rows, stats, visited) && p < |all| && Selected(job, all[p])
    ensures |rows| == |all| && rows[p] == all[p]
    ensures Progress(job, all, p + 1, apply, if apply then rows[p := Written(job, all[p])] else rows,
                     Counted(job, all[p].facts, stats), visited + [all[p].id])
  {
    assert all[..p + 1][..p] == all[..p];
    if apply {
      assert Partly(job, all, p + 1, apply) == rows[p := Written(job, all[p])];
    }
  }

  /** The query after p visited rows sees the unvisited rows as they were, and no visited row. */
  lemma QuerySeesTheRest(job: Job, all: seq<Trade>, p: nat, apply: bool, lastId: int, i: nat)
    requires IdsAscend(all) && p <= |all| && i < |all|
    requires CursorAt(job, all, p, lastId)
    ensures var t := Partly(job, all, p, apply)[i];
            t.id > lastId && Qualifies(job, t) <==> p <= i && Selected(job, all[i])
  {
    if i < p {
      PassAt(job, all[..p], i);
      assert i < p - 1 ==> all[i].id < all[p - 1].id;
    } else if p > 0 {
      assert all[p - 1].id < all[i].id;
    }
  }

  // ---- The paged loop ----

  class TradeTable {
    var rows: seq<Trade>

    constructor (rows: seq<Trade>)
      ensures this.rows == rows
    {
      this.rows := rows;
    }

    /**
     The batch query: the first `limit` qualifying rows with an id above `lastId`, in id order, as row
     positions. No qualifying row is passed over, and a batch below the limit leaves none behind.
     */
    method SelectBatch(job: Job, lastId: int, limit: nat) returns (batch: seq<nat>)
      requires limit >= 1
      ensures |batch| <= limit
      ensures forall n | 0 <= n < |batch| :: DueNext(job, rows, lastId, batch, n)
      ensures |batch| == limit || NoneDue(job, rows, lastId, After(batch, |batch|, 0), |rows|)
    {
      batch := [];
      var i := 0;
      while i < |rows| && |batch| < limit
        invariant After(batch, |batch|, 0) <= i <= |rows| && |batch| <= limit
        invariant forall n | 0 <= n < |batch| :: DueNext(job, rows, lastId, batch, n)
        invariant NoneDue(job, rows, lastId, After(batch, |batch|, 0), i)
      {
        if Due(job, rows[i], lastId) {
          forall n | 0 <= n < |batch| + 1 ensures DueNext(job, rows, lastId, batch + [i], n) {
            assert n < |batch| ==> DueNext(job, rows, lastId, batch, n);
          }
          batch := batch + [i];
        }
        i := i + 1;
      }
    }

    /** Visit the row at position q, writing it in apply mode. */
    method VisitRow(job: Job, apply: bool, q: nat, stats: Stats) returns (s: Stats)
      requires q < |rows|
      modifies this
      ensures rows == if apply then old(rows)[q := Written(job, old(rows)[q])] else old(rows)
      ensures s == Counted(job, old(rows)[q].facts, stats)
    {
      var t, a := rows[q], rows[q].attribution;
      a, s := AttributeTrade(job, t.facts, a, stats);
      if apply {
        rows := rows[q := t.(attribution := a)];
      }
    }

    /** Visit the rows of one batch in order. */
    method ProcessBatch(job: Job, apply: bool, batch: seq<nat>, stats0: Stats,
                        ghost all: seq<Trade>, ghost from: nat, ghost visited0: seq<int>)
      returns (stats: Stats, ghost visited: seq<int>)
      requires Progress(job, all, from, apply, rows, stats0, visited0)
      requires batch != [] && NextBatch(job, all, from, batch)
      modifies this
      ensures Progress(job, all, batch[|batch| - 1] + 1, apply, rows, stats, visited)
    {
      stats, visited := stats0, visited0;
      ghost var p := from;
      for n := 0 to |batch|
        invariant p == After(batch, n, from)
        invariant Progress(job, all, p, apply, rows, stats, visited)
      {
        var q := batch[n];
        assert SelectedNext(job, all, from, batch, n);
        SkipProgress(job, all, p, q, apply, rows, stats, visited);
        VisitProgress(job, all, q, apply, rows, stats, visited);
        stats := VisitRow(job, apply, q, stats);
        visited := visited + [all[q].id];
        p := q + 1;
      }
    }

    /** One turn of the loop: fetch a batch, visit it, move the last id. */
    method NextPage(job: Job, apply: bool, batchSize: nat, lastId: int, stats0: Stats,
                    ghost all: seq<Trade>, ghost p0: nat, ghost visited0: seq<int>)
      returns (more: bool, last: int, stats: Stats, ghost p: nat, ghost visited: seq<int>)
      requires batchSize >= 1 && IdsAscend(all) && Progress(job, all, p0, apply, rows, stats0, visited0)
      requires CursorAt(job, all, p0, lastId)
      modifies this
      ensures Progress(job, all, p, apply, rows, stats, visited) && CursorAt(job, all, p, last)
      ensures more ==> p > p0
      ensures !more ==> p == p0 && NoneSelected(job, all, p, |all|)
    {
      var batch := SelectBatch(job, lastId, batchSize);
      BatchIsNext(job, all, p0, apply, lastId, batch);
      if batch == [] {
        more, last, stats, p, visited := false, lastId, stats0, p0, visited0;
        return;
      }
      stats, visited := ProcessBatch(job, apply, batch, stats0, all, p0, visited0);
      var q := batch[|batch| - 1];
      assert SelectedNext(job, all, p0, batch, |batch| - 1);
      p := q + 1;
      RowKeepsId(job, all, p, apply, q);
      more, last := true, rows[q].id;
    }

    /**
     The backfill. In either mode and for any batch size it visits every row that was selected at the
     start exactly once, in id order, and its counters and table are those of one unpaged pass.
     */
    method RunBackfill(job: Job, apply: bool, batchSize: nat) returns (stats: Stats, ghost visited: seq<int>)
      requires batchSize >= 1 && IdsAscend(rows)
      modifies this
      ensures rows == if apply then Pass(job, old(rows)) else old(rows)
      ensures stats == PassStats(job, old(rows))
      ensures visited == SelectedIds(job, old(rows))
    {
      ghost var all := rows;
      stats, visited := ZERO, [];
      var lastId, more := job.afterId, true;
      ghost var p := 0;
      Started(job, all, apply);
      while more
        invariant Progress(job, all, p, apply, rows, stats, visited) && CursorAt(job, all, p, lastId)
        invariant !more ==> NoneSelected(job, all, p, |all|)
        decreases |all| - p, more
      {
        more, lastId, stats, p, visited := NextPage(job, apply, batchSize, lastId, stats, all, p, visited);
      }
      Finished(job, all, p, apply, rows, stats, visited);
    }
  }

  lemma Started(job: Job, all: seq<Trade>, apply: bool)
    ensures Progress(job, all, 0, apply, all, ZERO, []) && CursorAt(job, all, 0, job.afterId)
  {
  }

  lemma Finished(job: Job, all: seq<Trade>, p: nat, apply: bool, rows: seq<Trade>, stats: Stats, visited: seq<int>)
    requires Progress(job, all, p, apply, rows, stats, visited) && NoneSelected(job, all, p, |all|)
    ensures rows == if apply then Pass(job, all) else all
    ensures stats == PassStats(job, all) && visited == SelectedIds(job, all)
  {
    SkipProgress(job, all, p, |all|, apply, rows, stats, visited);
    assert all[..|all|] == all;
  }

  /** The last id is that of the last visited row, or the starting id before any. */
  ghost predicate CursorAt(job: Job, all: seq<Trade>, p: nat, lastId: int) {
    p <= |all| && if p == 0 then lastId == job.afterId else lastId == all[p - 1].id && lastId > job.afterId
  }

  lemma RowKeepsId(job: Job, all: seq<Trade>, p: nat, apply: bool, i: nat)
    requires i < p <= |all|
    ensures |Partly(job, all, p, apply)| == |all| && Partly(job, all, p, apply)[i].id == all[i].id
  {
    PassAt(job, all[..p], i);
  }

  predicate Due(job: Job, t: Trade, lastId: int) {
    t.id > lastId && Qualifies(job, t)
  }

  ghost predicate NoneDue(job: Job, rows: seq<Trade>, lastId: int, from: nat, to: nat) {
    to <= |rows| && forall i | from <= i < to :: !Due(job, rows[i], lastId)
  }

  ghost predicate NoneSelected(job: Job, rows: seq<Trade>, from: nat, to: nat) {
    to <= |rows| && forall i | from <= i < to :: !Selected(job, rows[i])
  }

  /** The position after the first n rows of a batch that starts no earlier than `from`. */
  function After(batch: seq<nat>, n: nat, from: nat): nat
    requires n <= |batch|
  {
    if n == 0 then from else batch[n - 1] + 1
  }

  /** The n-th row of the batch is due, and no row since the one before it is. */
  ghost predicate DueNext(job: Job, rows: seq<Trade>, lastId: int, batch: seq<nat>, n: nat) {
    && n < |batch| && After(batch, n, 0) <= batch[n] < |rows|
    && Due(job, rows[batch[n]], lastId) && NoneDue(job, rows, lastId, After(batch, n, 0), batch[n])
  }

  /** The n-th row of the batch is selected, and no row since the one before it is. */
  ghost predicate SelectedNext(job: Job, all: seq<Trade>, p: nat, batch: seq<nat>, n: nat) {
    && n < |batch| && p <= batch[n] && After(batch, n, p) <= batch[n] < |all|
    && Selected(job, all[batch[n]]) && NoneSelected(job, all, After(batch, n, p), batch[n])
  }

  /** The batch lists selected rows from p on without passing one over, and is empty only when none is left. */
  ghost predicate NextBatch(job: Job, all: seq<Trade>, p: nat, batch: seq<nat>) {
    && (forall n | 0 <= n < |batch| :: SelectedNext(job, all, p, batch, n))
    && (batch == [] ==> NoneSelected(job, all, p, |all|))
  }

  lemma BatchIsNext(job: Job, all: seq<Trade>, p: nat, apply: bool, lastId: int, batch: seq<nat>)
    requires IdsAscend(all) && p <= |all|
    requires CursorAt(job, all, p, lastId)
    requires var rows := Partly(job, all, p, apply);
             && (forall n | 0 <= n < |batch| :: DueNext(job, rows, lastId, batch, n))
             && (batch == [] ==> NoneDue(job, rows, lastId, 0, |rows|))
    ensures NextBatch(job, all, p, batch)
  {
    var rows := Partly(job, all, p, apply);
    forall n | 0 <= n < |batch|
      ensures SelectedNext(job, all, p, batch, n)
    {
      assert DueNext(job, rows, lastId, batch, n);
      QuerySeesTheRest(job, all, p, apply, lastId, batch[n]);
      if n > 0 {
        assert DueNext(job, rows, lastId, batch, n - 1);
        QuerySeesTheRest(job, all, p, apply, lastId, batch[n - 1]);
      }
      forall i | After(batch, n, p) <= i < batch[n] ensures !Selected(job, all[i]) {
        QuerySeesTheRest(job, all, p, apply, lastId, i);
        assert !Due(job, rows[i], lastId);
      }
    }
    if batch == [] {
      forall i | p <= i < |all| ensures !Selected(job, all[i]) {
        QuerySeesTheRest(job, all, p, apply, lastId, i);
        assert !Due(job, rows[i], lastId);
      }
    }
  }

  // ---- What a pass guarantees ----

  /** Every visited row is counted in exactly one of the three outcomes, and every selected row is visited. */
  lemma {:induction false} StatsBalance(job: Job, rows: seq<Trade>)
    ensures var s := PassStats(job, rows);
            s.processed == s.reconstructed + s.ambiguous + s.invalidKey == |SelectedIds(job, rows)|
  {
    if rows == [] {
    } else {
      StatsBalance(job, rows[..|rows| - 1]);
    }
  }

  /** The id belongs to a selected row. */
  ghost predicate IdSelected(job: Job, rows: seq<Trade>, id: int) {
    exists i | 0 <= i < |rows| :: rows[i].id == id && Selected(job, rows[i])
  }

  lemma {:induction false} VisitedExactly(job: Job, rows: seq<Trade>, id: int)
    ensures id in SelectedIds(job, rows) <==> IdSelected(job, rows, id)
  {
    if rows == [] {
    } else {
      var n := |rows| - 1;
      VisitedExactly(job, rows[..n], id);
      SelectedFront(job, rows, id);
    }
  }

  lemma SelectedFront(job: Job, rows: seq<Trade>, id: int)
    requires rows != []
    ensures var n := |rows| - 1;
            IdSelected(job, rows, id) <==>
              IdSelected(job, rows[..n], id) || (rows[n].id == id && Selected(job, rows[n]))
  {
    var n := |rows| - 1;
    if IdSelected(job, rows[..n], id) {
      var i :| 0 <= i < n && rows[..n][i].id == id && Selected(job, rows[..n][i]);
      assert rows[i].id == id && Selected(job, rows[i]);
    }
    if IdSelected(job, rows, id) {
      var i :| 0 <= i < |rows| && rows[i].id == id && Selected(job, rows[i]);
      if i < n { assert rows[..n][i].id == id && Selected(job, rows[..n][i]); }
    }
  }

  ghost predicate Ascending(ids: seq<int>) {
    forall i, j | 0 <= i < j < |ids| :: ids[i] < ids[j]
  }

  lemma {:induction false} VisitsAscend(job: Job, rows: seq<Trade>)
    requires IdsAscend(rows)
    ensures Ascending(SelectedIds(job, rows))
  {
    if rows == [] {
    } else {
      var n := |rows| - 1;
      var ids := SelectedIds(job, rows[..n]);
      VisitsAscend(job, rows[..n]);
      forall k | 0 <= k < |ids| ensures ids[k] < rows[n].id {
        VisitedExactly(job, rows[..n], ids[k]);
        var i :| 0 <= i < n && rows[..n][i].id == ids[k] && Selected(job, rows[..n][i]);
      }
    }
  }

  /** The visited ids are those of the selected rows, each once, ascending. */
  lemma VisitsAreExact(job: Job, rows: seq<Trade>)
    requires IdsAscend(rows)
    ensures Ascending(SelectedIds(job, rows))
    ensures forall id: int :: id in SelectedIds(job, rows) <==> IdSelected(job, rows, id)
  {
    VisitsAscend(job, rows);
    forall id: int
      ensures id in SelectedIds(job, rows) <==> IdSelected(job, rows, id)
    {
      VisitedExactly(job, rows, id);
    }
  }

  /** Each selected row ends with a key that the registry pairs with its version, or with none, and says which. */
  lemma WrittenKeysAreRegistered(job: Job, rows: seq<Trade>, i: nat)
    requires i < |rows| && Selected(job, rows[i])
    ensures var t := Pass(job, rows)[i];
            && t.id == rows[i].id && t.facts == rows[i].facts
            && (t.attribution.source == Some(Reconstructed) <==> t.attribution.modelKey.Some?)
            && (t.attribution.source == Some(Ambiguous) <==> t.attribution.modelKey.None?)
            && (t.attribution.modelKey.Some? ==>
                  (t.attribution.modelKey.value, t.facts.modelVersion.value) in job.registry)
            && (t.attribution.confirmKey != rows[i].attribution.confirmKey
                || t.attribution.confirmVersion != rows[i].attribution.confirmVersion ==>
                  t.attribution.confirmKey.Some? && t.attribution.confirmVersion.Some?
                  && (t.attribution.confirmKey.value, t.attribution.confirmVersion.value) in job.registry)
  {
    PassAt(job, rows, i);
  }

  /**
   After an apply, a second one that looks no further back and in the same mode and period processes no
   row and changes none, even if the registry or the decision log has changed in between.
   */
  lemma {:induction false} SecondApplyIsIdle(job: Job, again: Job, rows: seq<Trade>)
    requires again.mode == job.mode && again.before == job.before && again.afterId >= job.afterId
    ensures PassStats(again, Pass(job, rows)) == ZERO && Pass(again, Pass(job, rows)) == Pass(job, rows)
  {
    if rows == [] {
    } else {
      var n := |rows| - 1;
      SecondApplyIsIdle(job, again, rows[..n]);
      assert Pass(job, rows)[..n] == Pass(job, rows[..n]);
    }
  }

  // ---- Attribution, told from the columns ----

  /** A decision with a model for the trade's market and asset, within 30 seconds of it, on the side it bought. */
  predicate Speaks(d: Decision, t: Facts) {
    && d.usedModel.Some? && t.createdAt.Some? && d.marketId == t.marketId && d.asset == t.asset
    && d.createdAt - t.createdAt.value <= 30_000_000 && t.createdAt.value - d.createdAt <= 30_000_000
    && (t.outcomeBought == "YES" ==> d.action == "BUY_YES") && (t.outcomeBought == "NO" ==> d.action == "BUY_NO")
  }

  /** Some decision speaks for model m. */
  ghost predicate Spoken(decisions: seq<Decision>, t: Facts, m: string) {
    exists i | 0 <= i < |decisions| :: Speaks(decisions[i], t) && decisions[i].usedModel == Some(m)
  }

  lemma {:induction false} FunnelExactly(decisions: seq<Decision>, t: Facts, m: string)
    ensures m in FunnelModels(decisions, t) <==> Spoken(decisions, t, m)
  {
    if decisions == [] {
    } else {
      var d, rest := decisions[0], decisions[1..];
      FunnelExactly(rest, t, m);
      if Spoken(rest, t, m) {
        var i :| 0 <= i < |rest| && Speaks(rest[i], t) && rest[i].usedModel == Some(m);
        assert decisions[i + 1] == rest[i];
      }
      if Spoken(decisions, t, m) {
        var i :| 0 <= i < |decisions| && Speaks(decisions[i], t) && decisions[i].usedModel == Some(m);
        if i > 0 { assert rest[i - 1] == decisions[i]; }
      }
    }
  }

  /** The metadata names a model. */
  predicate HasModel(t: Facts) {
    t.metadata.Fields? && t.metadata.phaseModel != ""
  }

  /** The candidate model of a trade: that of its metadata, else the only one its decisions speak for. */
  ghost predicate CandidateIs(job: Job, t: Facts, m: string) {
    if HasModel(t) then m == t.metadata.phaseModel
    else t.marketId != "" && m != "" && Spoken(job.decisions, t, m) && forall o | Spoken(job.decisions, t, o) :: o == m
  }

  lemma FoundExactly(job: Job, t: Facts, m: string)
    requires m != ""
    ensures FoundKey(job, t) == m <==> CandidateIs(job, t, m)
  {
    if !HasModel(t) {
      var models := FunnelModels(job.decisions, t);
      forall o: string ensures o in models <==> Spoken(job.decisions, t, o) { FunnelExactly(job.decisions, t, o); }
      if models != [] { assert models[0] in models; }
      if t.createdAt.None? { assert !Spoken(job.decisions, t, m); }
    }
  }

  /**
   A selected row gets the key m exactly when m is its candidate and the registry pairs it with the row's
   version; without such a candidate it gets none and is marked ambiguous.
   */
  lemma KeyExactly(job: Job, rows: seq<Trade>, i: nat, m: string)
    requires i < |rows| && Selected(job, rows[i]) && m != ""
    ensures var t, a := rows[i].facts, Pass(job, rows)[i].attribution;
            && (a.modelKey == Some(m) <==> CandidateIs(job, t, m) && (m, t.modelVersion.value) in job.registry)
            && (a.modelKey == Some(m) ==> a.source == Some(Reconstructed))
            && (CandidateIs(job, t, m) && (m, t.modelVersion.value) !in job.registry ==>
                  a.modelKey == None && a.source == Some(Ambiguous))
  {
    PassAt(job, rows, i);
    FoundExactly(job, rows[i].facts, m);
  }

  /** Two decisions that speak for different models leave a row without a metadata model ambiguous. */
  lemma TwoModelsAreAmbiguous(job: Job, rows: seq<Trade>, i: nat, x: nat, y: nat)
    requires i < |rows| && Selected(job, rows[i]) && !HasModel(rows[i].facts)
    requires x < |job.decisions| && y < |job.decisions|
    requires Speaks(job.decisions[x], rows[i].facts) && Speaks(job.decisions[y], rows[i].facts)
    requires job.decisions[x].usedModel != job.decisions[y].usedModel
    ensures Pass(job, rows)[i].attribution.modelKey == None
    ensures Pass(job, rows)[i].attribution.source == Some(Ambiguous)
  {
    var t := rows[i].facts;
    PassAt(job, rows, i);
    var m, o := job.decisions[x].usedModel.value, job.decisions[y].usedModel.value;
    assert Spoken(job.decisions, t, m) && Spoken(job.decisions, t, o);
    if FoundKey(job, t) != "" { FoundExactly(job, t, FoundKey(job, t)); }
  }

  /** Decisions that all speak for one model make it the candidate of a row without a metadata model. */
  lemma OneModelIsCandidate(job: Job, t: Facts, x: nat, m: string)
    requires !HasModel(t) && t.marketId != "" && m != "" && x < |job.decisions| && Speaks(job.decisions[x], t)
    requires forall y | 0 <= y < |job.decisions| && Speaks(job.decisions[y], t) :: job.decisions[y].usedModel == Some(m)
    ensures CandidateIs(job, t, m)
  {
  }

  /** The confirming columns change exactly for a registered pair in the metadata, and to that pair. */
  lemma ConfirmExactly(job: Job, rows: seq<Trade>, i: nat)
    requires i < |rows| && Selected(job, rows[i])
    ensures var data, a, b := rows[i].facts.metadata, rows[i].attribution, Pass(job, rows)[i].attribution;
            if data.Fields? && data.confirmKey != "" && data.confirmVersion.VersionNumber?
               && (data.confirmKey, data.confirmVersion.n) in job.registry
            then b.confirmKey == Some(data.confirmKey) && b.confirmVersion == Some(data.confirmVersion.n)
            else b.confirmKey == a.confirmKey && b.confirmVersion == a.confirmVersion
  {
    PassAt(job, rows, i);
  }

  /**
   Which rows a pass changes: the closed ones of its mode above its id and before its date, with a profit and
   a version, that have neither a key nor an attribution yet.
   */
  lemma ChangedExactly(job: Job, rows: seq<Trade>, i: nat)
    requires i < |rows|
    ensures var t, f := rows[i], rows[i].facts;
            Pass(job, rows)[i] != t <==>
              && t.id > job.afterId && f.mode == job.mode && f.closed && f.hasPnl && f.modelVersion.Some?
              && t.attribution.modelKey == None && t.attribution.source == None
              && (job.before.Some? ==> f.createdAt.Some? && f.createdAt.value < job.before.value)
    ensures Pass(job, rows)[i].id == rows[i].id && Pass(job, rows)[i].facts == rows[i].facts
  {
    PassAt(job, rows, i);
  }

  /** How a visit of one trade is counted: by whether it has a candidate and whether that is registered. */
  lemma CountedExactly(job: Job, t: Facts, s: Stats, m: string)
    requires t.modelVersion.Some? && m != "" && CandidateIs(job, t, m)
    ensures var c, registered := Counted(job, t, s), (m, t.modelVersion.value) in job.registry;
            && c.processed == s.processed + 1 && c.ambiguous == s.ambiguous
            && c.reconstructed == s.reconstructed + (if registered then 1 else 0)
            && c.invalidKey == s.invalidKey + (if registered then 0 else 1)
  {
    FoundExactly(job, t, m);
  }

  lemma AmbiguousExactly(job: Job, t: Facts, s: Stats)
    requires forall m: string | m != "" :: !CandidateIs(job, t, m)
    ensures var c := Counted(job, t, s);
            && c.processed == s.processed + 1 && c.ambiguous == s.ambiguous + 1
            && c.reconstructed == s.reconstructed && c.invalidKey == s.invalidKey
  {
    if FoundKey(job, t) != "" { FoundExactly(job, t, FoundKey(job, t)); }
  }

  /** A registered confirming pair is counted, whatever becomes of the key. */
  lemma ConfirmCounted(job: Job, t: Facts, s: Stats)
    ensures var data := t.metadata;
            Counted(job, t, s).confirmed ==
            if data.Fields? && data.confirmKey != "" && data.confirmVersion.VersionNumber?
               && (data.confirmKey, data.confirmVersion.n) in job.registry
            then s.confirmed + 1 else s.confirmed
  {
  }
}
