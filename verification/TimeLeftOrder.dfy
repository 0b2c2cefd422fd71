/**
 Price order survives every combination of overlays; the order of the time-left pair does not. When it does,
 exactly.
 */
module TimeLeftOrder {
  import opened Basics
  import opened OverlayRules
  import opened Overlays
  import opened OverlayHistories

  const LOW: string := "TRADE_MIN_TIME_LEFT_SEC"
  const HIGH: string := "TRADE_MAX_TIME_LEFT_SEC"

  ghost predicate TimeOrdered(m: Changes) {
    LOW in m && HIGH in m && Numeric(m[LOW]) <= Numeric(m[HIGH])
  }

  // ---- Where the two ends can come from ----

  /** The overlay is or can come into force for the query: open, not past its expiry, in scope. */
  predicate Usable(row: Option<Overlay>, q: Query, now: int) {
    && row.Some? && Open(row.value.status) && InScope(row.value, q)
    && (row.value.expiresAt.None? || row.value.expiresAt.value > now)
  }

  /** The base settings as a source, below every row. */
  const BASE: int := -1

  /** The base settings or a usable row, which gives the key a value. */
  predicate Source(s: State, base: Changes, q: Query, key: string, i: int) {
    if i == BASE then key in base
    else 0 <= i < |s.rows| && Usable(s.rows[i], q, s.now) && key in s.rows[i].value.changes
  }

  function ValueAt(s: State, base: Changes, q: Query, key: string, i: int): real
    requires Source(s, base, q, key, i)
  {
    Numeric(if i == BASE then base[key] else s.rows[i].value.changes[key])
  }

  /** Source i can decide the key while source j is in force too: j is not above it, or leaves the key alone. */
  predicate Leads(s: State, key: string, i: int, j: int) {
    0 <= j < |s.rows| && i < j && s.rows[j].Some? ==> key !in s.rows[j].value.changes
  }

  /** No source of the minimum exceeds a source of the maximum that can be decisive together with it. */
  ghost predicate NoClash(s: State, base: Changes, q: Query) {
    && LOW in base && HIGH in base
    && forall a, b | Source(s, base, q, LOW, a) && Source(s, base, q, HIGH, b)
                     && Leads(s, LOW, a, b) && Leads(s, HIGH, b, a) ::
         ValueAt(s, base, q, LOW, a) <= ValueAt(s, base, q, HIGH, b)
  }

  ghost predicate NonCreating(h: seq<Action>) {
    forall i | 0 <= i < |h| :: !h[i].Create?
  }

  /** The pair is ordered after every history of applying, rolling back, expiring and waiting. */
  ghost predicate AlwaysOrdered(s: State, base: Changes, q: Query) {
    forall h: seq<Action> | NonCreating(h) :: TimeOrdered(InForce(Run(s, h), base, q))
  }

  // ---- Without a clash the pair is always ordered ----

  /** Row i after a history without creations: same contents, and closed if it was closed. */
  ghost predicate RowKept(s: State, t: State, i: int)
    requires 0 <= i < |s.rows| == |t.rows|
  {
    && (t.rows[i].Some? <==> s.rows[i].Some?)
    && (s.rows[i].Some? ==>
          var o, p := s.rows[i].value, t.rows[i].value;
          && p == o.(status := p.status) && (Open(p.status) ==> Open(o.status)))
  }

  lemma {:induction false} RowsKept(s: State, h: seq<Action>)
    requires NonCreating(h)
    ensures var t := Run(s, h);
            |t.rows| == |s.rows| && t.now >= s.now && forall i | 0 <= i < |s.rows| :: RowKept(s, t, i)
  {
    if h == [] {
    } else {
      var n := |h| - 1;
      RowsKept(s, h[..n]);
      var t, u := Run(s, h[..n]), Run(s, h);
      forall i | 0 <= i < |s.rows| ensures |u.rows| == |s.rows| && RowKept(s, u, i) { assert RowKept(s, t, i); }
    }
  }

  /** Whatever sets a key in a later state is a source of it now. */
  lemma SetterIsSource(s: State, t: State, base: Changes, q: Query, key: string, i: int)
    requires 0 <= i < |s.rows| == |t.rows| && t.now >= s.now && RowKept(s, t, i) && Sets(t.rows[i], q, t.now, key)
    ensures Source(s, base, q, key, i) && t.rows[i].value.changes == s.rows[i].value.changes
  {
  }

  /** Row i decides the key in state t, or the base does. */
  ghost predicate Decides(t: State, q: Query, key: string, i: int) {
    if i == BASE then forall j | 0 <= j < |t.rows| :: !Sets(t.rows[j], q, t.now, key)
    else TopSetter(t.rows, q, t.now, key, i)
  }

  /** What decides a key leads over whatever decides the other one. */
  lemma DeciderLeads(s: State, t: State, q: Query, key: string, other: string, i: int, j: int)
    requires |t.rows| == |s.rows| && forall k | 0 <= k < |s.rows| :: RowKept(s, t, k)
    requires Decides(t, q, key, i) && Decides(t, q, other, j)
    ensures Leads(s, key, i, j)
  {
    if 0 <= j < |s.rows| && i < j {
      assert RowKept(s, t, j) && !Sets(t.rows[j], q, t.now, key);
    }
  }

  lemma DeciderIsSource(s: State, t: State, base: Changes, q: Query, key: string) returns (i: int)
    requires |t.rows| == |s.rows| && t.now >= s.now && (forall k | 0 <= k < |s.rows| :: RowKept(s, t, k)) && key in base
    ensures Decides(t, q, key, i) && Source(s, base, q, key, i)
    ensures key in InForce(t, base, q) && Numeric(InForce(t, base, q)[key]) == ValueAt(s, base, q, key, i)
  {
    i := EffectiveCases(t.rows, base, q, t.now, key);
    if i != BASE { SetterIsSource(s, t, base, q, key, i); }
  }

  lemma NoClashOrders(s: State, base: Changes, q: Query, h: seq<Action>)
    requires NoClash(s, base, q) && NonCreating(h)
    ensures TimeOrdered(InForce(Run(s, h), base, q))
  {
    var t := Run(s, h);
    RowsKept(s, h);
    var a := DeciderIsSource(s, t, base, q, LOW);
    var b := DeciderIsSource(s, t, base, q, HIGH);
    DeciderLeads(s, t, q, LOW, HIGH, a, b);
    DeciderLeads(s, t, q, HIGH, LOW, b, a);
    assert ValueAt(s, base, q, LOW, a) <= ValueAt(s, base, q, HIGH, b);
  }

  // ---- A clash can be brought about ----

  /** Apply rows a and b and roll back all others, for the first n rows. */
  function Isolate(n: nat, a: int, b: int): seq<Action> {
    if n == 0 then []
    else Isolate(n - 1, a, b) + [IsolateOne(n - 1, a, b)]
  }

  function IsolatedRow(row: Option<Overlay>, chosen: bool): Option<Overlay> {
    if row.None? || !Open(row.value.status) then row
    else Some(row.value.(status := if chosen then Applied else RolledBack))
  }

  /** Of the rows of s, the first n have been applied if chosen and rolled back if not. */
  ghost predicate Isolated(s: State, t: State, n: nat, a: int, b: int) {
    && t.now == s.now && |t.rows| == |s.rows|
    && forall k | 0 <= k < |s.rows| ::
         t.rows[k] == if k < n then IsolatedRow(s.rows[k], k == a || k == b) else s.rows[k]
  }

  function IsolateOne(n: nat, a: int, b: int): Action {
    if n == a || n == b then Apply(n) else Rollback(n)
  }

  lemma IsolateStep(s: State, t: State, n: nat, a: int, b: int)
    requires n < |s.rows| && Isolated(s, t, n, a, b)
    ensures Isolated(s, Do(t, IsolateOne(n, a, b)), n + 1, a, b)
  {
  }

  lemma {:induction false} IsolateRuns(s: State, n: nat, a: int, b: int)
    requires n <= |s.rows|
    ensures NonCreating(Isolate(n, a, b)) && Isolated(s, Run(s, Isolate(n, a, b)), n, a, b)
  {
    if n == 0 {
    } else {
      IsolateRuns(s, n - 1, a, b);
      var h := Isolate(n - 1, a, b);
      IsolateStep(s, Run(s, h), n - 1, a, b);
      RunOne(s, h, IsolateOne(n - 1, a, b));
    }
  }

  /** With only two sources left, the one that leads decides the key. */
  lemma LeaderDecides(s: State, t: State, base: Changes, q: Query, key: string, i: int, j: int)
    requires Source(s, base, q, key, i) && Leads(s, key, i, j)
    requires Isolated(s, t, |s.rows|, i, j) || Isolated(s, t, |s.rows|, j, i)
    ensures key in InForce(t, base, q) && Numeric(InForce(t, base, q)[key]) == ValueAt(s, base, q, key, i)
  {
    forall k | 0 <= k < |t.rows| && Sets(t.rows[k], q, t.now, key) ensures k <= i {
      assert k == i || k == j;
    }
    if i == BASE {
      NoSetterKeepsBase(t.rows, base, q, t.now, key);
    } else {
      assert Sets(t.rows[i], q, t.now, key);
      TopSetterWins(t.rows, base, q, t.now, key, i);
    }
  }

  lemma OrderedMeansNoClash(s: State, base: Changes, q: Query, a: int, b: int)
    requires AlwaysOrdered(s, base, q)
    requires Source(s, base, q, LOW, a) && Source(s, base, q, HIGH, b) && Leads(s, LOW, a, b) && Leads(s, HIGH, b, a)
    ensures ValueAt(s, base, q, LOW, a) <= ValueAt(s, base, q, HIGH, b)
  {
    var h := Isolate(|s.rows|, a, b);
    IsolateRuns(s, |s.rows|, a, b);
    var t := Run(s, h);
    assert TimeOrdered(InForce(t, base, q));
    LeaderDecides(s, t, base, q, LOW, a, b);
    LeaderDecides(s, t, base, q, HIGH, b, a);
  }

  /** Rolling every row back leaves the base, so an always ordered pair is there in the base. */
  lemma OrderedMeansBase(s: State, base: Changes, q: Query)
    requires AlwaysOrdered(s, base, q)
    ensures LOW in base && HIGH in base
  {
    IsolateRuns(s, |s.rows|, BASE, BASE);
    var t := Run(s, Isolate(|s.rows|, BASE, BASE));
    assert TimeOrdered(InForce(t, base, q));
    NothingLive(t.rows, base, q, t.now);
  }

  /**
   From any table: the time-left pair is ordered under every application, rollback and expiry of its rows
   if and only if no source of the minimum clashes with a source of the maximum.
   */
  lemma TimeOrderExactly(s: State, base: Changes, q: Query)
    ensures AlwaysOrdered(s, base, q) <==> NoClash(s, base, q)
  {
    if NoClash(s, base, q) {
      forall h: seq<Action> | NonCreating(h)
        ensures TimeOrdered(InForce(Run(s, h), base, q))
      {
        NoClashOrders(s, base, q, h);
      }
    }
    if AlwaysOrdered(s, base, q) {
      OrderedMeansBase(s, base, q);
      forall a, b | Source(s, base, q, LOW, a) && Source(s, base, q, HIGH, b)
                    && Leads(s, LOW, a, b) && Leads(s, HIGH, b, a)
        ensures ValueAt(s, base, q, LOW, a) <= ValueAt(s, base, q, HIGH, b)
      {
        OrderedMeansNoClash(s, base, q, a, b);
      }
    }
  }

  // ---- Two histories that break the order ----

  lemma {:induction false} UpperFixed(s: string)
    requires forall i | 0 <= i < |s| :: !('a' <= s[i] <= 'z')
    ensures Upper(s) == s
  {
    if s == "" {
    } else {
      UpperFixed(s[1..]);
      assert s == [s[0]] + s[1..];
    }
  }

  lemma ShadowTargetsPaper(o: Overlay)
    requires o.target == "SHADOW_SIMULATION"
    ensures TargetsPaper(o)
  {
    assert Strip(o.target) == o.target;
    UpperFixed(o.target);
  }

  lemma EmptyScope()
    ensures NormalizeAsset("") == "" && NormalizeRegime("") == ""
  {
    assert Strip("") == "" && Upper("") == "" && Lower("") == "";
    assert Without("", '/') == "" && Without("", '-') == "";
  }

  /** An overlay created without asset and regime is in scope of every query. */
  lemma UnscopedIsInScope(o: Overlay, q: Query)
    requires o.target == "SHADOW_SIMULATION" && o.asset == "" && o.regime == ""
    ensures InScope(o, q)
  {
    ShadowTargetsPaper(o);
    EmptyScope();
  }

  /** The proposal of one end of the pair. */
  function Proposal(key: string, seconds: int): seq<(string, Raw)> {
    [(key, RawNumber(Finite(seconds as real)))]
  }

  lemma ProposalValid(key: string, seconds: int)
    requires key in {LOW, HIGH} && 1 <= seconds <= 3600
    ensures Validated(Proposal(key, seconds)) == Some(map[key := Whole(seconds)])
  {
    var items := Proposal(key, seconds);
    assert Strip(key) == key;
    assert (seconds as real).Floor == seconds;
    assert CleanValue(key, items[0].1) == Some(Whole(seconds));
    assert items[..0] == [];
    assert Cleaned(items) == Some(map[key := Whole(seconds)]);
  }

  function Proposed(key: string, seconds: int, now: int, status: Status): Overlay {
    Overlay("SHADOW_SIMULATION", "", "", map[key := Whole(seconds)], status, now, Some(now + 3600 * SECOND))
  }

  lemma {:induction false} RunOne(s: State, h: seq<Action>, a: Action)
    ensures Run(s, h + [a]) == Do(Run(s, h), a)
  {
    assert (h + [a])[..|h|] == h;
  }

  lemma CreatesOne(s: State, key: string, seconds: int)
    requires key in {LOW, HIGH} && 1 <= seconds <= 3600
    ensures Do(s, Create(Proposal(key, seconds), 3600, "", "")) ==
            s.(rows := s.rows + [Some(Proposed(key, seconds, s.now, Pending))])
  {
    ProposalValid(key, seconds);
    assert Strip("") == "";
  }

  /** Two overlays, created and applied in turn. */
  function BothApplied(first: string, x: int, second: string, y: int): seq<Action> {
    [Create(Proposal(first, x), 3600, "", "")] + [Create(Proposal(second, y), 3600, "", "")] + [Apply(0)] + [Apply(1)]
  }

  lemma AppliesBoth(a: Overlay, b: Overlay, now: int)
    requires a.status == b.status == Pending
    ensures Do(Do(State([Some(a), Some(b)], now), Apply(0)), Apply(1)) ==
            State([Some(a.(status := Applied)), Some(b.(status := Applied))], now)
  {
  }

  lemma RunFour(s: State, a: Action, b: Action, c: Action, d: Action)
    ensures Run(s, [a] + [b] + [c] + [d]) == Do(Do(Do(Do(s, a), b), c), d)
  {
    RunOne(s, [], a);
    assert [] + [a] == [a];
    RunOne(s, [a], b);
    RunOne(s, [a] + [b], c);
    RunOne(s, [a] + [b] + [c], d);
  }

  lemma BothAppliedRuns(first: string, x: int, second: string, y: int, now: int)
    requires first in {LOW, HIGH} && second in {LOW, HIGH} && 1 <= x <= 3600 && 1 <= y <= 3600
    ensures Run(State([], now), BothApplied(first, x, second, y)) ==
            State([Some(Proposed(first, x, now, Applied)), Some(Proposed(second, y, now, Applied))], now)
  {
    var a, b := Proposed(first, x, now, Pending), Proposed(second, y, now, Pending);
    CreatesOne(State([], now), first, x);
    assert [] + [Some(a)] == [Some(a)];
    CreatesOne(State([Some(a)], now), second, y);
    assert [Some(a)] + [Some(b)] == [Some(a), Some(b)];
    AppliesBoth(a, b, now);
    var c, d := Create(Proposal(first, x), 3600, "", ""), Create(Proposal(second, y), 3600, "", "");
    RunFour(State([], now), c, d, Apply(0), Apply(1));
  }

  function Limits(low: int, high: int): Changes {
    map[LOW := Whole(low), HIGH := Whole(high)]
  }

  lemma TwoInForce(a: Overlay, b: Overlay, base: Changes, q: Query, now: int)
    requires InScope(a, q) && InScope(b, q) && Live(b, now)
    ensures Effective([Some(a), Some(b)], base, q, now) == (if Live(a, now) then base + a.changes else base) + b.changes
  {
    var rows := [Some(a), Some(b)];
    assert rows[..1] == [Some(a)] && rows[..1][..0] == [];
    assert Effective(rows[..1][..0], base, q, now) == base;
    assert Effective(rows[..1], base, q, now) == if Live(a, now) then base + a.changes else base;
  }

  /** Two overlays that are valid one by one put the minimum above the maximum. */
  lemma TimeOrderCanBreak(now: int, q: Query)
    ensures TimeOrdered(Limits(60, 900))
    ensures !TimeOrdered(InForce(Run(State([], now), BothApplied(LOW, 600, HIGH, 300)), Limits(60, 900), q))
  {
    BothAppliedRuns(LOW, 600, HIGH, 300, now);
    var a, b := Proposed(LOW, 600, now, Applied), Proposed(HIGH, 300, now, Applied);
    UnscopedIsInScope(a, q);
    UnscopedIsInScope(b, q);
    TwoInForce(a, b, Limits(60, 900), q, now);
  }

  lemma RollsBackFirst(a: Overlay, b: Overlay, now: int)
    requires Open(a.status)
    ensures Do(State([Some(a), Some(b)], now), Rollback(0)) == State([Some(a.(status := RolledBack)), Some(b)], now)
  {
  }

  /** With the first overlay in force the pair is 600 and 900; without it, 600 and 300. */
  lemma FirstMatters(a: Overlay, b: Overlay, now: int, q: Query)
    requires a.changes == map[HIGH := Whole(900)] && b.changes == map[LOW := Whole(600)]
    requires InScope(a, q) && InScope(b, q) && Live(b, now)
    ensures TimeOrdered(Effective([Some(a), Some(b)], Limits(60, 300), q, now)) <==> Live(a, now)
  {
    TwoInForce(a, b, Limits(60, 300), q, now);
  }

  /** Each of two overlays keeps the pair ordered as it is applied, and rolling the first one back breaks the order. */
  lemma RollbackCanBreakTimeOrder(now: int, q: Query)
    ensures TimeOrdered(Limits(60, 300))
    ensures TimeOrdered(InForce(Run(State([], now), BothApplied(HIGH, 900, LOW, 600)), Limits(60, 300), q))
    ensures var h := BothApplied(HIGH, 900, LOW, 600) + [Rollback(0)];
            !TimeOrdered(InForce(Run(State([], now), h), Limits(60, 300), q))
  {
    var a, b := Proposed(HIGH, 900, now, Applied), Proposed(LOW, 600, now, Applied);
    var c := a.(status := RolledBack);
    BothAppliedRuns(HIGH, 900, LOW, 600, now);
    RunOne(State([], now), BothApplied(HIGH, 900, LOW, 600), Rollback(0));
    RollsBackFirst(a, b, now);
    UnscopedIsInScope(a, q);
    UnscopedIsInScope(b, q);
    UnscopedIsInScope(c, q);
    FirstMatters(a, b, now, q);
    FirstMatters(c, b, now, q);
  }
}
