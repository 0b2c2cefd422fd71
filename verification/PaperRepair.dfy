/**
 The migration that repairs PAPER fill idempotency: six ordered statements over fills, attempts,
 requests, trades and reservations. Timestamps are microseconds.
 */
module PaperRepair {
  import opened Basics

  const MINUTE: int := 60 * SECOND
  const REASON: string := "Recovered after missing execution fill idempotency constraint"
  const REASON_EXPIRED: string := REASON + "; request expired"

  /** A row id; only equality and order matter. */
  datatype Id = Id(n: int)

  datatype State =
    | AwaitingApproval | Ready | Claimed | Submitting | Accepted | Unknown | PartiallyFilled
    | Reconciling | ManualReviewRequired | Rejected | OtherState(name: string)

  datatype Intent = Open | Close

  datatype Fill = Fill(attemptId: Id, gateway: Option<string>, providerTradeId: Option<string>, timestamp: int)

  datatype Attempt = Attempt(
    requestId: Id, status: string, finishedAt: Option<int>, error: Option<string>, providerOrderId: Option<string>)

  datatype Hold = Hold(claimedAt: Option<int>, claimedBy: Option<string>, leaseExpiresAt: Option<int>)

  datatype Request = Request(
    mode: string,
    intent: Intent,
    marketId: string,
    tradeId: Id,
    createdAt: int,
    state: State,
    hold: Hold,
    expiresAt: Option<int>,
    updatedAt: int,
    reason: Option<string>)

  datatype TradeRow = TradeRow(status: string, positionStatus: string, error: Option<string>)

  datatype Reservation = Reservation(requestId: Option<Id>, releasedAt: Option<int>)

  type Fills = map<Id, Fill>
  type Attempts = map<Id, Attempt>
  type Requests = map<Id, Request>
  type Trades = map<Id, TradeRow>
  type Reservations = map<Id, Reservation>

  // ---- Deduplication of fills ----

  predicate Keyed(f: Fill) {
    f.gateway.Some? && f.providerTradeId.Some?
  }

  predicate SameKey(f: Fill, g: Fill) {
    Keyed(f) && Keyed(g) && f.gateway == g.gateway && f.providerTradeId == g.providerTradeId
  }

  /** Fill x comes before fill y by (timestamp, id). */
  predicate Earlier(fills: Fills, x: Id, y: Id)
    requires x in fills && y in fills
  {
    fills[x].timestamp < fills[y].timestamp || (fills[x].timestamp == fills[y].timestamp && x.n < y.n)
  }

  predicate Duplicate(fills: Fills, y: Id)
    requires y in fills
  {
    exists x | x in fills :: SameKey(fills[x], fills[y]) && Earlier(fills, x, y)
  }

  function Deduplicated(fills: Fills): Fills {
    map y | y in fills && !Duplicate(fills, y) :: fills[y]
  }

  /** What the unique constraint on (gateway, provider_trade_id) demands. */
  ghost predicate ProviderKeysUnique(fills: Fills) {
    forall x, y | x in fills && y in fills
                  && fills[x].gateway.Some? && fills[x].gateway == fills[y].gateway
                  && fills[x].providerTradeId.Some? && fills[x].providerTradeId == fills[y].providerTradeId :: x == y
  }

  lemma {:induction false} EarliestOf(fills: Fills, ids: set<Id>) returns (x: Id)
    requires ids != {} && ids <= fills.Keys
    ensures x in ids && forall y | y in ids && y != x :: Earlier(fills, x, y)
    decreases ids
  {
    var first :| first in ids;
    var rest := ids - {first};
    if rest == {} {
      x := first;
      assert forall y | y in ids :: y == first || y in rest;
    } else {
      var z := EarliestOf(fills, rest);
      assert forall y | y in ids :: y == first || y in rest;
      x := if Earlier(fills, z, first) then z else first;
      assert Id(z.n) != Id(first.n);
    }
  }

  /**
   Of the fills that share a gateway and a provider trade id, both present, exactly one survives: the one with
   the least timestamp and, among those, the least id.
   */
  lemma EarliestFillSurvives(fills: Fills, y: Id) returns (x: Id)
    requires y in fills && fills[y].gateway.Some? && fills[y].providerTradeId.Some?
    ensures x in Deduplicated(fills) && Deduplicated(fills)[x] == fills[x]
    ensures fills[x].gateway == fills[y].gateway && fills[x].providerTradeId == fills[y].providerTradeId
    ensures forall z | z in fills && z != x
                       && fills[z].gateway == fills[y].gateway &&
                         fills[z].providerTradeId == fills[y].providerTradeId ::
              && z !in Deduplicated(fills)
              && (fills[x].timestamp < fills[z].timestamp || (fills[x].timestamp == fills[z].timestamp && x.n < z.n))
  {
    var group := set z | z in fills && SameKey(fills[z], fills[y]);
    assert y in group;
    x := EarliestOf(fills, group);
    forall z | z in fills && SameKey(fills[z], fills[y]) && z != x
      ensures Earlier(fills, x, z) && z !in Deduplicated(fills)
    {
      assert z in group && SameKey(fills[x], fills[z]);
    }
    forall z | z in fills && SameKey(fills[z], fills[x]) ensures !Earlier(fills, z, x) { assert z in group; }
  }

  lemma DeduplicatedIsUnique(fills: Fills)
    ensures ProviderKeysUnique(Deduplicated(fills))
    ensures forall y | y in fills && (fills[y].gateway.None? || fills[y].providerTradeId.None?) ::
              y in Deduplicated(fills) && Deduplicated(fills)[y] == fills[y]
  {
    forall x, y | x in Deduplicated(fills) && y in Deduplicated(fills) && SameKey(fills[x], fills[y])
      ensures x == y
    {
      assert !Earlier(fills, x, y) && !Earlier(fills, y, x);
    }
  }

  // ---- Which requests are recovered ----

  predicate Stuck(r: Request) {
    r.mode == "PAPER" && r.state in {Submitting, Reconciling, ManualReviewRequired}
  }

  predicate HasProviderOrder(attempts: Attempts, id: Id) {
    exists a | a in attempts :: attempts[a].requestId == id && attempts[a].providerOrderId.Some?
  }

  predicate AttemptHasFill(fills: Fills, a: Id) {
    exists f | f in fills :: fills[f].attemptId == a
  }

  predicate HasFill(fills: Fills, attempts: Attempts, id: Id) {
    exists a | a in attempts :: attempts[a].requestId == id && AttemptHasFill(fills, a)
  }

  /** No venue ever saw the request: none of its attempts has a provider order or a surviving fill. */
  predicate NeverExecuted(fills: Fills, attempts: Attempts, id: Id) {
    !HasProviderOrder(attempts, id) && !HasFill(fills, attempts, id)
  }

  /** An attempt of a stuck request that left neither a provider order nor a fill. */
  predicate Broken(fills: Fills, requests: Requests, attempts: Attempts, a: Id)
    requires a in attempts
  {
    && attempts[a].requestId in requests && Stuck(requests[attempts[a].requestId])
    && attempts[a].providerOrderId.None? && !AttemptHasFill(fills, a)
  }

  function Failed(a: Attempt, at: int): Attempt {
    a.(status := "FAILED", error := Some(REASON), finishedAt := if a.finishedAt.Some? then a.finishedAt else Some(at))
  }

  ghost predicate AttemptsMarked(fills: Fills, requests: Requests, before: Attempts, after: Attempts, at: int) {
    && after.Keys == before.Keys
    && forall a | a in before ::
         after[a] == if Broken(fills, requests, before, a) then Failed(before[a], at) else before[a]
  }

  predicate Recent(r: Request, now: int) {
    r.createdAt >= now - 15 * MINUTE
  }

  function Readied(r: Request, now: int): Request {
    r.(state := Ready, hold := Hold(None, None, None), expiresAt := Some(now + 10 * MINUTE), updatedAt := now,
       reason := Some(REASON))
  }

  function Finalized(r: Request, at: int): Request {
    r.(state := Rejected, updatedAt := at, reason := Some(REASON_EXPIRED))
  }

  /** A request rejected with a reason that starts with the recovery text. */
  predicate RejectedByRecovery(r: Request) {
    r.state == Rejected && r.reason.Some? && REASON <= r.reason.value
  }

  // ---- The partial unique indexes on requests ----

  predicate ActiveState(s: State) {
    s in {
      AwaitingApproval, Ready, Claimed, Submitting, Accepted, Unknown, PartiallyFilled, Reconciling,
      ManualReviewRequired}
  }

  ghost predicate OpenIndexHolds(requests: Requests) {
    forall x, y | x in requests && y in requests
                  && requests[x].intent == Open && ActiveState(requests[x].state)
                  && requests[y].intent == Open && ActiveState(requests[y].state)
                  && requests[x].mode == requests[y].mode && requests[x].marketId == requests[y].marketId :: x == y
  }

  ghost predicate CloseIndexHolds(requests: Requests) {
    forall x, y | x in requests && y in requests
                  && requests[x].intent == Close && ActiveState(requests[x].state)
                  && requests[y].intent == Close && ActiveState(requests[y].state)
                  && requests[x].tradeId == requests[y].tradeId :: x == y
  }

  ghost predicate IndexesHold(requests: Requests) {
    OpenIndexHolds(requests) && CloseIndexHolds(requests)
  }

  /** An update that keeps the indexed columns and makes no request active keeps both indexes. */
  ghost predicate NoneActivated(before: Requests, after: Requests) {
    && after.Keys == before.Keys
    && forall id | id in before ::
         && after[id].intent == before[id].intent && after[id].mode == before[id].mode
         && after[id].marketId == before[id].marketId && after[id].tradeId == before[id].tradeId
         && (ActiveState(after[id].state) ==> ActiveState(before[id].state))
  }

  lemma IndexesKept(before: Requests, after: Requests)
    requires IndexesHold(before) && NoneActivated(before, after)
    ensures IndexesHold(after)
  {
  }

  /** The recent never-executed stuck requests, and only they, went back to READY. */
  ghost predicate RecentReadied(fills: Fills, attempts: Attempts, before: Requests, after: Requests, now: int) {
    && after.Keys == before.Keys
    && forall id | id in before ::
         after[id] ==
         if Stuck(before[id]) && Recent(before[id], now) && NeverExecuted(fills, attempts, id)
         then Readied(before[id], now) else before[id]
  }

  /** The never-executed stuck requests, and only they, were rejected. */
  ghost predicate StuckRejected(fills: Fills, attempts: Attempts, before: Requests, after: Requests, at: int) {
    && after.Keys == before.Keys
    && forall id | id in before ::
         after[id] ==
         if Stuck(before[id]) && NeverExecuted(fills, attempts, id) then Finalized(before[id], at) else before[id]
  }

  lemma ReadyingKeepsIndexes(fills: Fills, attempts: Attempts, before: Requests, after: Requests, now: int)
    requires RecentReadied(fills, attempts, before, after, now) && IndexesHold(before)
    ensures IndexesHold(after)
  {
    IndexesKept(before, after);
  }

  lemma RejectingKeepsIndexes(fills: Fills, attempts: Attempts, before: Requests, after: Requests, at: int)
    requires StuckRejected(fills, attempts, before, after, at) && IndexesHold(before)
    ensures IndexesHold(after)
  {
    IndexesKept(before, after);
  }

  // ---- The statements ----

  class Database {
    var fills: Fills
    var attempts: Attempts
    var requests: Requests
    var trades: Trades
    var reservations: Reservations

    constructor (fills: Fills, attempts: Attempts, requests: Requests, trades: Trades, reservations: Reservations)
      ensures this.fills == fills && this.attempts == attempts && this.requests == requests
      ensures this.trades == trades && this.reservations == reservations
    {
      this.fills, this.attempts, this.requests := fills, attempts, requests;
      this.trades, this.reservations := trades, reservations;
    }

    /** Mark the attempts of stuck PAPER requests that have neither a provider order nor a fill. */
    method FailBrokenAttempts(at: int)
      modifies `attempts
      ensures AttemptsMarked(fills, requests, old(attempts), attempts, at)
    {
      attempts := map a | a in attempts ::
        if Broken(fills, requests, attempts, a) then Failed(attempts[a], at) else attempts[a];
    }

    /** Put recent never-executed requests back to READY. */
    method ReadyRecentRequests(now: int)
      requires IndexesHold(requests)
      modifies `requests
      ensures RecentReadied(fills, attempts, old(requests), requests, now) && IndexesHold(requests)
    {
      requests := map id | id in requests ::
        if Stuck(requests[id]) && Recent(requests[id], now) && NeverExecuted(fills, attempts, id)
        then Readied(requests[id], now) else requests[id];
      ReadyingKeepsIndexes(fills, attempts, old(requests), requests, now);
    }

    /** Reject the never-executed requests that are still stuck. */
    method RejectStuckRequests(at: int)
      requires IndexesHold(requests)
      modifies `requests
      ensures StuckRejected(fills, attempts, old(requests), requests, at) && IndexesHold(requests)
    {
      requests := map id | id in requests ::
        if Stuck(requests[id]) && NeverExecuted(fills, attempts, id) then Finalized(requests[id], at) else requests[id];
      RejectingKeepsIndexes(fills, attempts, old(requests), requests, at);
    }

    method FailedEntry(t: Id) returns (row: TradeRow)
      requires EntryRejected(requests, t)
      ensures EntryFailed(requests, t, row)
    {
      var id :| id in requests && RejectsEntry(requests, id, t);
      row := TradeRow("FAILED", "ENTRY_FAILED", requests[id].reason);
    }

    /** Fail the trades of rejected OPEN requests; with several such requests any one of them gives the error text. */
    method FailTrades()
      modifies `trades
      ensures trades.Keys == old(trades).Keys
      ensures forall t | t in trades && !EntryRejected(requests, t) :: trades[t] == old(trades)[t]
      ensures forall t | t in trades && EntryRejected(requests, t) :: EntryFailed(requests, t, trades[t])
    {
      ghost var before := trades;
      var todo := trades.Keys;
      while todo != {}
        invariant TradesMidway(requests, before, trades, todo)
        decreases todo
      {
        var t :| t in todo;
        var row := trades[t];
        if EntryRejected(requests, t) {
          row := FailedEntry(t);
        }
        TradesStep(requests, before, trades, todo, t, row);
        trades := trades[t := row];
        todo := todo - {t};
      }
    }

    /** Release the reservations of requests rejected by the recovery. */
    method ReleaseReservations(at: int)
      modifies `reservations
      ensures reservations.Keys == old(reservations).Keys
      ensures forall v | v in reservations ::
                reservations[v] ==
                if HeldForRejected(requests, old(reservations)[v]) then Released(old(reservations)[v], at)
                                   else old(reservations)[v]
    {
      reservations := map v | v in reservations ::
        if HeldForRejected(requests, reservations[v]) then Released(reservations[v], at) else reservations[v];
    }

    /**
     The whole migration. Off PostgreSQL no fill is deleted, so the unique constraint may fail, which
     rolls everything back.
     */
    method Upgrade(postgres: bool, now: int, at: int) returns (ok: bool)
      requires IndexesHold(requests)
      modifies this
      ensures ok <==> postgres || ProviderKeysUnique(old(fills))
      ensures !ok ==> fills == old(fills) && attempts == old(attempts) && requests == old(requests)
                      && trades == old(trades) && reservations == old(reservations)
      ensures ok ==> ProviderKeysUnique(fills) && fills == if postgres then Deduplicated(old(fills)) else old(fills)
      ensures ok ==> Partitioned(fills, old(attempts), old(requests), requests, now, at) && IndexesHold(requests)
      ensures ok ==> forall id | id in requests ::
                       RequestMoved(fills, old(attempts), id, old(requests)[id], requests[id], now, at)
      ensures ok ==> AttemptsMarked(fills, old(requests), old(attempts), attempts, at)
      ensures ok ==> SettledWithRequests(requests, old(trades), trades, old(reservations), reservations, at)
    {
      if postgres {
        DeduplicatedIsUnique(fills);
        fills := Deduplicated(fills);
      }
      ok := postgres || UniqueKeys(fills);
      if ok {
        FailBrokenAttempts(at);
        ReadyRecentRequests(now);
        ghost var mid := requests;
        RejectStuckRequests(at);
        TwoUpdatesPartition(fills, old(attempts), attempts, old(requests), mid, requests, now, at);
        MovedExactly(fills, old(attempts), old(requests), requests, now, at);
        FailTrades();
        ReleaseReservations(at);
      }
    }
  }

  /** The check the database makes when it builds the unique constraint. */
  predicate UniqueKeys(fills: Fills)
    ensures UniqueKeys(fills) <==> ProviderKeysUnique(fills)
  {
    !exists x | x in fills :: exists y | y in fills :: x != y && SameKey(fills[x], fills[y])
  }

  predicate RejectsEntry(requests: Requests, id: Id, trade: Id) {
    && id in requests && requests[id].tradeId == trade && requests[id].mode == "PAPER" && requests[id].intent == Open
    && RejectedByRecovery(requests[id])
  }

  predicate EntryRejected(requests: Requests, trade: Id) {
    exists id | id in requests :: RejectsEntry(requests, id, trade)
  }

  /** The failed row of a trade; its error is the reason of one of the requests that reject its entry. */
  ghost predicate EntryFailed(requests: Requests, trade: Id, row: TradeRow) {
    && row.status == "FAILED" && row.positionStatus == "ENTRY_FAILED"
    && exists id :: RejectsEntry(requests, id, trade) && row.error == requests[id].reason
  }

  /** What the statement makes of one trade. */
  ghost predicate TradeSettled(requests: Requests, t: Id, before: TradeRow, after: TradeRow) {
    if EntryRejected(requests, t) then EntryFailed(requests, t, after) else after == before
  }

  /** The trades while those in todo are still to be visited. */
  ghost predicate TradesMidway(requests: Requests, before: Trades, trades: Trades, todo: set<Id>) {
    && trades.Keys == before.Keys && todo <= before.Keys
    && (forall t | t in todo :: trades[t] == before[t])
    && (forall t | t in before.Keys - todo :: TradeSettled(requests, t, before[t], trades[t]))
  }

  lemma TradesStep(requests: Requests, before: Trades, trades: Trades, todo: set<Id>, t: Id, row: TradeRow)
    requires TradesMidway(requests, before, trades, todo) && t in todo && TradeSettled(requests, t, before[t], row)
    ensures TradesMidway(requests, before, trades[t := row], todo - {t})
  {
    var next := trades[t := row];
    forall u | u in before.Keys - (todo - {t}) ensures TradeSettled(requests, u, before[u], next[u]) {
      assert u == t || u in before.Keys - todo;
    }
  }

  predicate HeldForRejected(requests: Requests, v: Reservation) {
    v.requestId.Some? && v.requestId.value in requests && RejectedByRecovery(requests[v.requestId.value])
  }

  function Released(v: Reservation, at: int): Reservation {
    if v.releasedAt.Some? then v else v.(releasedAt := Some(at))
  }

  // ---- The same, told from the columns ----

  /** Some attempt of the request has a provider order, or a fill carries that attempt's id. */
  ghost predicate SeenByVenue(fills: Fills, attempts: Attempts, id: Id) {
    exists a | a in attempts && attempts[a].requestId == id ::
      attempts[a].providerOrderId.Some? || exists f | f in fills :: fills[f].attemptId == a
  }

  /** A PAPER request in one of the three states that never end by themselves. */
  predicate Hangs(r: Request) {
    r.mode == "PAPER" && (r.state == Submitting || r.state == Reconciling || r.state == ManualReviewRequired)
  }

  /**
   What becomes of a request: one that hangs and that no venue saw is put back to READY for ten minutes if it
   is at most fifteen minutes old, and rejected otherwise; every other request keeps its row.
   */
  ghost predicate RequestMoved(fills: Fills, attempts: Attempts, id: Id, before: Request, after: Request, now: int,
                               at: int) {
    if !Hangs(before) || SeenByVenue(fills, attempts, id) then after == before
    else if before.createdAt >= now - 900_000_000 then
      after == before.(state := Ready, hold := Hold(None, None, None), expiresAt := Some(now + 600_000_000),
                       updatedAt := now,
                       reason := Some("Recovered after missing execution fill idempotency constraint"))
    else
      after == before.(state := Rejected, updatedAt := at,
                       reason := Some("Recovered after missing execution fill idempotency constraint; request expired"))
  }

  lemma NeverExecutedExactly(fills: Fills, attempts: Attempts, id: Id)
    ensures NeverExecuted(fills, attempts, id) <==> !SeenByVenue(fills, attempts, id)
  {
  }

  lemma ReasonTexts()
    ensures REASON == "Recovered after missing execution fill idempotency constraint"
    ensures REASON_EXPIRED == "Recovered after missing execution fill idempotency constraint; request expired"
  {
  }

  lemma MovedExactly(fills: Fills, attempts: Attempts, before: Requests, after: Requests, now: int, at: int)
    requires Partitioned(fills, attempts, before, after, now, at)
    ensures forall id | id in after :: RequestMoved(fills, attempts, id, before[id], after[id], now, at)
  {
    ReasonTexts();
    forall id | id in after
      ensures RequestMoved(fills, attempts, id, before[id], after[id], now, at)
    {
      NeverExecutedExactly(fills, attempts, id);
    }
  }

  /** A request that a venue saw keeps its row, whatever its state and age. */
  lemma SeenRequestsStay(fills: Fills, attempts: Attempts, id: Id, a: Id, before: Request, after: Request, now: int,
                         at: int)
    requires RequestMoved(fills, attempts, id, before, after, now, at) && a in attempts && attempts[a].requestId == id
    requires attempts[a].providerOrderId.Some? || exists f | f in fills :: fills[f].attemptId == a
    ensures after == before
  {
  }

  /** An attempt is failed exactly when its request hangs and it left neither a provider order nor a fill. */
  lemma AttemptFailedExactly(fills: Fills, requests: Requests, before: Attempts, after: Attempts, at: int, a: Id)
    requires AttemptsMarked(fills, requests, before, after, at) && a in before
    ensures var row := before[a];
            after[a] ==
            if row.requestId in requests && Hangs(requests[row.requestId]) && row.providerOrderId == None
               && forall f | f in fills :: fills[f].attemptId != a
            then row.(status := "FAILED",
                      error := Some("Recovered after missing execution fill idempotency constraint"),
                      finishedAt := if row.finishedAt == None then Some(at) else row.finishedAt)
            else row
  {
    ReasonTexts();
  }

  /** A request ended REJECTED with a reason that begins with the recovery text. */
  predicate RecoveryRejection(r: Request) {
    && r.state == Rejected && r.reason.Some?
    && "Recovered after missing execution fill idempotency constraint" <= r.reason.value
  }

  /**
   A trade is failed exactly when some PAPER request to open it carries such a rejection, and takes its reason
   from one; a reservation is released exactly when its own request carries one, at the time it already had.
   */
  lemma SettledExactly(
    requests: Requests, trades0: Trades, trades: Trades, reservations0: Reservations, reservations: Reservations,
        at: int)
    requires SettledWithRequests(requests, trades0, trades, reservations0, reservations, at)
    ensures forall t | t in trades ::
              if exists id | id in requests :: OpensWith(requests[id], t) && RecoveryRejection(requests[id])
              then && trades[t].status == "FAILED" && trades[t].positionStatus == "ENTRY_FAILED"
                   && exists id | id in requests ::
                        OpensWith(requests[id], t) && RecoveryRejection(requests[id]) &&
                            trades[t].error == requests[id].reason
              else trades[t] == trades0[t]
    ensures forall v | v in reservations ::
              var r := reservations0[v].requestId;
              if r.Some? && r.value in requests && RecoveryRejection(requests[r.value]) &&
                  reservations0[v].releasedAt == None
              then reservations[v] == Reservation(r, Some(at)) else reservations[v] == reservations0[v]
  {
    ReasonTexts();
    forall t | t in trades
      ensures EntryRejected(requests, t) <==>
              exists id | id in requests :: OpensWith(requests[id], t) && RecoveryRejection(requests[id])
    {
      assert forall id | id in requests ::
          RejectsEntry(requests, id, t) <==> OpensWith(requests[id], t) && RecoveryRejection(requests[id]);
    }
  }

  predicate OpensWith(r: Request, trade: Id) {
    r.tradeId == trade && r.mode == "PAPER" && r.intent == Open
  }

  /** The states the two partial indexes cover: all but the rejected and the ones this migration does not name. */
  lemma ActiveExactly(s: State)
    ensures ActiveState(s) <==> !s.Rejected? && !s.OtherState?
  {
  }

  /**
   What the two partial unique indexes forbid: two active requests to open one market in one mode, or to close
   one trade.
   */
  ghost predicate Collide(r: Request, q: Request) {
    && !r.state.Rejected? && !r.state.OtherState? && !q.state.Rejected? && !q.state.OtherState?
    && ((r.intent == Open && q.intent == Open && r.mode == q.mode && r.marketId == q.marketId)
        || (r.intent == Close && q.intent == Close && r.tradeId == q.tradeId))
  }

  lemma IndexesExactly(requests: Requests)
    ensures IndexesHold(requests) <==>
            forall x, y | x in requests && y in requests && x != y :: !Collide(requests[x], requests[y])
  {
    forall s: State ensures ActiveState(s) <==> !s.Rejected? && !s.OtherState? { ActiveExactly(s); }
    if forall x, y | x in requests && y in requests && x != y :: !Collide(requests[x], requests[y]) {
      forall x, y | x in requests && y in requests && Collide(requests[x], requests[y]) ensures x == y { }
    }
  }

  // ---- What the whole migration does ----

  /** Every stuck and never executed request ends READY if recent, REJECTED if not; no other request changes. */
  ghost predicate Partitioned(fills: Fills, attempts: Attempts, before: Requests, after: Requests, now: int, at: int) {
    && after.Keys == before.Keys
    && forall id | id in before ::
         after[id] ==
         if !Stuck(before[id]) || !NeverExecuted(fills, attempts, id) then before[id]
         else if Recent(before[id], now) then Readied(before[id], now)
         else Finalized(before[id], at)
  }

  ghost predicate SettledWithRequests(
    requests: Requests, trades0: Trades, trades: Trades, reservations0: Reservations, reservations: Reservations,
    at: int)
  {
    && trades.Keys == trades0.Keys
    && (forall t | t in trades && !EntryRejected(requests, t) :: trades[t] == trades0[t])
    && (forall t | t in trades && EntryRejected(requests, t) :: EntryFailed(requests, t, trades[t]))
    && reservations.Keys == reservations0.Keys
    && (forall v | v in reservations ::
          reservations[v] == if HeldForRejected(requests, reservations0[v]) then Released(reservations0[v], at)
                             else reservations0[v])
  }

  /** Marking attempts changes neither question the request updates ask about them. */
  lemma MarkingKeepsExecution(fills: Fills, requests: Requests, before: Attempts, after: Attempts, at: int, id: Id)
    requires AttemptsMarked(fills, requests, before, after, at)
    ensures NeverExecuted(fills, after, id) <==> NeverExecuted(fills, before, id)
  {
    assert forall a | a in before ::
        after[a].requestId == before[a].requestId && after[a].providerOrderId == before[a].providerOrderId;
  }

  lemma TwoUpdatesPartition(
    fills: Fills, attempts0: Attempts, attempts: Attempts, requests0: Requests, mid: Requests, requests: Requests,
    now: int, at: int)
    requires AttemptsMarked(fills, requests0, attempts0, attempts, at)
    requires RecentReadied(fills, attempts, requests0, mid, now) && StuckRejected(fills, attempts, mid, requests, at)
    ensures Partitioned(fills, attempts0, requests0, requests, now, at)
  {
    forall id | id in requests0
      ensures NeverExecuted(fills, attempts, id) <==> NeverExecuted(fills, attempts0, id)
    {
      MarkingKeepsExecution(fills, requests0, attempts0, attempts, at, id);
    }
  }

  /** The requests this migration rejects. */
  predicate RejectedHere(fills: Fills, attempts: Attempts, before: Requests, id: Id, now: int) {
    id in before && Stuck(before[id]) && NeverExecuted(fills, attempts, id) && !Recent(before[id], now)
  }

  /**
   Which rejected requests the last two statements act on: those rejected here and those an earlier recovery
   rejected.
   */
  lemma RecoveredExactly(fills: Fills, attempts: Attempts, before: Requests, after: Requests, now: int, at: int, id: Id)
    requires Partitioned(fills, attempts, before, after, now, at) && id in before
    ensures RejectedByRecovery(after[id]) <==>
            RejectedHere(fills, attempts, before, id, now) || RejectedByRecovery(before[id])
    ensures RejectedHere(fills, attempts, before, id, now) ==> !RejectedByRecovery(before[id])
  {
    assert REASON <= REASON_EXPIRED;
  }

  ghost predicate NoEarlierRecovery(before: Requests) {
    forall id | id in before :: !RejectedByRecovery(before[id])
  }

  /** They act on exactly the requests rejected here if and only if no request carries a recovery reason beforehand. */
  lemma OnlyOwnRejections(fills: Fills, attempts: Attempts, before: Requests, after: Requests, now: int, at: int)
    requires Partitioned(fills, attempts, before, after, now, at)
    ensures (forall id | id in before ::
               RejectedByRecovery(after[id]) <==> RejectedHere(fills, attempts, before, id, now)) <==>
            NoEarlierRecovery(before)
  {
    forall id | id in before
      ensures (RejectedByRecovery(after[id]) <==> RejectedHere(fills, attempts, before, id, now)) <==>
              !RejectedByRecovery(before[id])
    {
      RecoveredExactly(fills, attempts, before, after, now, at, id);
    }
  }

  /**
   With no earlier recovery reason: a reservation is released if and only if it already was or its request
   is rejected here, so the reservations of requests put back to READY keep their rows; a trade fails if
   and only if one of its PAPER OPEN requests is rejected here, and gets the expiry text.
   */
  lemma RecoveryIsConsistent(
    fills: Fills, attempts: Attempts, before: Requests, after: Requests, trades0: Trades, trades: Trades,
    reservations0: Reservations, reservations: Reservations, now: int, at: int)
    requires Partitioned(fills, attempts, before, after, now, at)
    requires SettledWithRequests(after, trades0, trades, reservations0, reservations, at)
    requires NoEarlierRecovery(before)
    ensures forall v | v in reservations ::
              reservations[v] ==
              if reservations0[v].requestId.Some?
                 && RejectedHere(fills, attempts, before, reservations0[v].requestId.value, now)
              then Released(reservations0[v], at) else reservations0[v]
    ensures forall t | t in trades ::
              trades[t] ==
              if EntryRejectedHere(fills, attempts, before, t, now)
              then TradeRow("FAILED", "ENTRY_FAILED", Some(REASON_EXPIRED)) else trades0[t]
  {
    OnlyOwnRejections(fills, attempts, before, after, now, at);
    forall t | t in trades
      ensures EntryRejected(after, t) <==> EntryRejectedHere(fills, attempts, before, t, now)
    {
      FailedExactly(fills, attempts, before, after, now, at, t);
    }
    assert forall id | id in before && RejectedByRecovery(after[id]) :: after[id].reason == Some(REASON_EXPIRED);
  }

  /** One of the trade's OPEN requests is rejected by this migration. */
  ghost predicate EntryRejectedHere(fills: Fills, attempts: Attempts, before: Requests, trade: Id, now: int) {
    exists id | id in before ::
      RejectedHere(fills, attempts, before, id, now) && before[id].intent == Open && before[id].tradeId == trade
  }

  /** An earlier recovery rejected one of the trade's PAPER OPEN requests. */
  ghost predicate EntryRejectedEarlier(before: Requests, trade: Id) {
    exists id | id in before :: RejectsEntry(before, id, trade)
  }

  lemma RejectsEntryExactly(
    fills: Fills, attempts: Attempts, before: Requests, after: Requests, now: int, at: int, id: Id, t: Id)
    requires Partitioned(fills, attempts, before, after, now, at) && id in before
    ensures RejectsEntry(after, id, t) <==>
            || (RejectedHere(fills, attempts, before, id, now) && before[id].intent == Open && before[id].tradeId == t)
            || RejectsEntry(before, id, t)
  {
    RecoveredExactly(fills, attempts, before, after, now, at, id);
  }

  /**
   Without that assumption: a trade fails exactly when one of its OPEN requests was rejected here or by an
   earlier recovery.
   */
  lemma FailedExactly(fills: Fills, attempts: Attempts, before: Requests, after: Requests, now: int, at: int, t: Id)
    requires Partitioned(fills, attempts, before, after, now, at)
    ensures EntryRejected(after, t) <==>
            EntryRejectedHere(fills, attempts, before, t, now) || EntryRejectedEarlier(before, t)
  {
    forall id | id in before
      ensures RejectsEntry(after, id, t) <==>
              || (RejectedHere(fills, attempts, before, id, now)
                  && before[id].intent == Open && before[id].tradeId == t)
              || RejectsEntry(before, id, t)
    {
      RejectsEntryExactly(fills, attempts, before, after, now, at, id, t);
    }
  }

  /**
   One request that an earlier recovery rejected: nothing is rejected here, yet its trade fails and its
   reservation is released.
   */
  lemma EarlierRecoveryIsCaught(now: int, at: int)
    returns (requests: Requests, trades0: Trades, trades: Trades, reservations0: Reservations,
             reservations: Reservations)
    ensures Partitioned(map[], map[], requests, requests, now, at)
    ensures SettledWithRequests(requests, trades0, trades, reservations0, reservations, at)
    ensures (forall id :: !RejectedHere(map[], map[], requests, id, now)) && !NoEarlierRecovery(requests)
    ensures trades0 == map[Id(7) := TradeRow("OPEN", "OPEN", None)]
    ensures trades == map[Id(7) := TradeRow("FAILED", "ENTRY_FAILED", Some(REASON))]
    ensures reservations0 == map[Id(5) := Reservation(Some(Id(1)), None)]
    ensures reservations == map[Id(5) := Reservation(Some(Id(1)), Some(at))]
  {
    var r := Request("PAPER", Open, "m", Id(7), 0, Rejected, Hold(None, None, None), None, 0, Some(REASON));
    requests := map[Id(1) := r];
    trades0 := map[Id(7) := TradeRow("OPEN", "OPEN", None)];
    trades := map[Id(7) := TradeRow("FAILED", "ENTRY_FAILED", Some(REASON))];
    reservations0 := map[Id(5) := Reservation(Some(Id(1)), None)];
    reservations := map[Id(5) := Reservation(Some(Id(1)), Some(at))];
    assert RejectedByRecovery(requests[Id(1)]) && RejectsEntry(requests, Id(1), Id(7));
  }

  /**
   Without that assumption: an open reservation is released exactly for a request rejected here or by an
   earlier recovery.
   */
  lemma ReleasedExactly(
    fills: Fills, attempts: Attempts, before: Requests, after: Requests, trades0: Trades, trades: Trades,
    reservations0: Reservations, reservations: Reservations, now: int, at: int, id: Id, v: Id)
    requires Partitioned(fills, attempts, before, after, now, at)
    requires SettledWithRequests(after, trades0, trades, reservations0, reservations, at)
    requires v in reservations && reservations0[v] == Reservation(Some(id), None) && id in before
    ensures reservations[v].releasedAt.Some? <==>
            RejectedHere(fills, attempts, before, id, now) || RejectedByRecovery(before[id])
  {
    RecoveredExactly(fills, attempts, before, after, now, at, id);
  }
}
