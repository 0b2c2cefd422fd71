/** The overlay table through its lifecycle, and the PAPER settings resolved from it. Timestamps are microseconds. */
module Overlays {
  import opened Basics
  import opened OverlayRules

  const MAX_TTL: int := 86400 * SECOND

  datatype Status = Pending | Applied | Expired | RolledBack | Rejected

  datatype Overlay = Overlay(
    target: string,
    asset: string,
    regime: string,
    changes: Changes,
    status: Status,
    createdAt: int,
    expiresAt: Option<int>)

  /** The table in id order. `None` stands for an id that was handed out but has no row. */
  type Rows = seq<Option<Overlay>>

  // ---- Scope ----

  datatype Query = Query(asset: string, regime: string)

  const PAPER_TARGETS: set<string> := {"PAPER", "PAPER_TRADING", "SHADOW_SIMULATION"}

  function Without(s: string, c: char): string {
    if s == "" then "" else (if s[0] == c then "" else [s[0]]) + Without(s[1..], c)
  }

  function NormalizeAsset(s: string): string {
    var text := Without(Without(Upper(Strip(s)), '/'), '-');
    var n := |text| - 4;
    if n >= 0 && text[n..] == "USDT" then text[..n] else text
  }

  function NormalizeRegime(s: string): string {
    Lower(Strip(s))
  }

  predicate TargetsPaper(o: Overlay) {
    var target := Upper(Strip(o.target));
    target == "" || target in PAPER_TARGETS
  }

  predicate AssetMatches(o: Overlay, q: Query) {
    NormalizeAsset(q.asset) == "" || NormalizeAsset(o.asset) == "" || NormalizeAsset(o.asset) == NormalizeAsset(q.asset)
  }

  predicate RegimeMatches(o: Overlay, q: Query) {
    NormalizeRegime(o.regime) == "" || NormalizeRegime(o.regime) == NormalizeRegime(q.regime)
  }

  predicate InScope(o: Overlay, q: Query) {
    TargetsPaper(o) && AssetMatches(o, q) && RegimeMatches(o, q)
  }

  // ---- Lifecycle ----

  predicate Live(o: Overlay, now: int) {
    o.status == Applied && (o.expiresAt.None? || o.expiresAt.value > now)
  }

  predicate Open(s: Status) {
    s == Pending || s == Applied
  }

  predicate Overdue(o: Overlay, now: int) {
    Open(o.status) && o.expiresAt.Some? && o.expiresAt.value <= now
  }

  function Min(a: int, b: int): int {
    if a <= b then a else b
  }

  function NewOverlay(changes: Changes, ttl: int, asset: string, regime: string, now: int): Overlay {
    Overlay("SHADOW_SIMULATION", Strip(asset), Strip(regime), changes, Pending, now,
            Some(now + Min(ttl, 86400) * SECOND))
  }

  predicate HasRow(rows: Rows, id: int) {
    0 <= id < |rows| && rows[id].Some?
  }

  function WithStatus(rows: Rows, id: int, s: Status): Rows
    requires HasRow(rows, id)
  {
    rows[id := Some(rows[id].value.(status := s))]
  }

  function ExpiredRow(row: Option<Overlay>, now: int): Option<Overlay> {
    if row.Some? && Overdue(row.value, now) then Some(row.value.(status := Expired)) else row
  }

  function OverdueCount(rows: Rows, now: int): nat {
    if rows == [] then 0
    else
      var n := |rows| - 1;
      OverdueCount(rows[..n], now) + if rows[n].Some? && Overdue(rows[n].value, now) then 1 else 0
  }

  function ExpireAll(rows: Rows, now: int): (r: Rows)
    ensures |r| == |rows| && forall i | 0 <= i < |rows| :: r[i] == ExpiredRow(rows[i], now)
  {
    seq(|rows|, i requires 0 <= i < |rows| => ExpiredRow(rows[i], now))
  }

  // ---- What each call does to the table ----

  datatype State = State(rows: Rows, now: int)

  datatype Action =
    | Create(items: seq<(string, Raw)>, ttl: int, asset: string, regime: string)
    | Apply(id: int)
    | Rollback(id: int)
    | Expire
    | Wait(elapsed: nat)

  /** One call; a call that raises leaves the table alone. Resolving settings acts on the table as `Expire`. */
  function Do(s: State, a: Action): State {
    match a
    case Create(items, ttl, asset, regime) =>
      if Validated(items).None? then s
      else s.(rows := s.rows + [Some(NewOverlay(Validated(items).value, ttl, asset, regime, s.now))])
    case Apply(id) =>
      if HasRow(s.rows, id) && s.rows[id].value.status == Pending
      then s.(rows := WithStatus(s.rows, id, Applied)) else s
    case Rollback(id) =>
      if HasRow(s.rows, id) && Open(s.rows[id].value.status) then s.(rows := WithStatus(s.rows, id, RolledBack)) else s
    case Expire => s.(rows := ExpireAll(s.rows, s.now))
    case Wait(d) => s.(now := s.now + d)
  }

  // ---- Resolution ----

  predicate Counts(row: Option<Overlay>, q: Query, now: int) {
    row.Some? && Live(row.value, now) && InScope(row.value, q)
  }

  /** Base settings, overridden by each active in-scope overlay in id order. */
  function Effective(rows: Rows, base: Changes, q: Query, now: int): Changes {
    if rows == [] then base
    else
      var n := |rows| - 1;
      var before := Effective(rows[..n], base, q, now);
      if Counts(rows[n], q, now) then before + rows[n].value.changes else before
  }

  /** The ids of the overlays that contributed, ascending. */
  function AppliedIds(rows: Rows, q: Query, now: int): seq<int> {
    if rows == [] then []
    else
      var n := |rows| - 1;
      AppliedIds(rows[..n], q, now) + if Counts(rows[n], q, now) then [n] else []
  }

  // ---- The table as the agent changes it ----

  class Table {
    var rows: Rows

    constructor ()
      ensures rows == []
    {
      rows := [];
    }

    method CreateConfigOverlay(items: seq<(string, Raw)>, ttl: int, asset: string, regime: string, now: int)
      returns (r: Result<int>)
      modifies this
      ensures r.Ok? <==> Validated(items).Some?
      ensures r.Ok? ==> r.value == |old(rows)|
      ensures rows == Do(State(old(rows), now), Create(items, ttl, asset, regime)).rows
    {
      var v := ValidateOverlayChanges(items);
      if v.Err? {
        return Err(v.reason);
      }
      var expiresAt := now + (if ttl <= 86400 then ttl else 86400) * SECOND;
      r := Ok(|rows|);
      var o := Overlay("SHADOW_SIMULATION", Strip(asset), Strip(regime), v.value, Pending, now, Some(expiresAt));
      rows := rows + [Some(o)];
    }

    method ApplyShadowOverlay(id: int) returns (ok: bool)
      modifies this
      ensures ok <==> HasRow(old(rows), id) && old(rows)[id].value.status == Pending
      ensures forall now: int :: rows == Do(State(old(rows), now), Apply(id)).rows
    {
      ok := HasRow(rows, id) && rows[id].value.status == Pending;
      if ok {
        rows := rows[id := Some(rows[id].value.(status := Applied))];
      }
    }

    method RollbackOverlay(id: int) returns (ok: bool)
      modifies this
      ensures ok <==> HasRow(old(rows), id) && Open(old(rows)[id].value.status)
      ensures forall now: int :: rows == Do(State(old(rows), now), Rollback(id)).rows
    {
      ok := HasRow(rows, id) && (rows[id].value.status == Pending || rows[id].value.status == Applied);
      if ok {
        rows := rows[id := Some(rows[id].value.(status := RolledBack))];
      }
    }

    method ExpireOverlays(now: int) returns (count: nat)
      modifies this
      ensures rows == Do(State(old(rows), now), Expire).rows
      ensures count == OverdueCount(old(rows), now)
    {
      count := 0;
      for i := 0 to |rows|
        invariant |rows| == |old(rows)|
        invariant forall j | 0 <= j < |rows| :: rows[j] == if j < i then ExpiredRow(old(rows)[j], now) else old(rows)[j]
        invariant count == OverdueCount(old(rows)[..i], now)
      {
        assert old(rows)[..i + 1][..i] == old(rows)[..i];
        if rows[i].Some? && Overdue(rows[i].value, now) {
          rows := rows[i := Some(rows[i].value.(status := Expired))];
          count := count + 1;
        }
      }
      assert old(rows)[..|rows|] == old(rows);
    }

    /** Expires what is due, then folds the remaining active overlays into the base settings. */
    method ResolvePaperRuntimeSettings(base: Changes, q: Query, now: int) returns (effective: Changes, ids: seq<int>)
      modifies this
      ensures rows == Do(State(old(rows), now), Expire).rows
      ensures effective == Effective(old(rows), base, q, now)
      ensures ids == AppliedIds(old(rows), q, now)
    {
      var _ := ExpireOverlays(now);
      ExpiryIsInvisible(old(rows), base, q, now);
      effective, ids := base, [];
      for i := 0 to |rows|
        invariant effective == Effective(rows[..i], base, q, now)
        invariant ids == AppliedIds(rows[..i], q, now)
      {
        assert rows[..i + 1][..i] == rows[..i];
        if Counts(rows[i], q, now) {
          effective := effective + rows[i].value.changes;
          ids := ids + [i];
        }
      }
      assert rows[..|rows|] == rows;
    }
  }

  /** Marking overdue rows as expired does not change what is in force. */
  lemma {:induction false} ExpiryIsInvisible(rows: Rows, base: Changes, q: Query, now: int)
    ensures Effective(ExpireAll(rows, now), base, q, now) == Effective(rows, base, q, now)
    ensures AppliedIds(ExpireAll(rows, now), q, now) == AppliedIds(rows, q, now)
  {
    if rows == [] {
    } else {
      var n := |rows| - 1;
      ExpiryIsInvisible(rows[..n], base, q, now);
      assert ExpireAll(rows, now)[..n] == ExpireAll(rows[..n], now);
    }
  }

  // ---- What the fold computes ----

  predicate Sets(row: Option<Overlay>, q: Query, now: int, key: string) {
    Counts(row, q, now) && key in row.value.changes
  }

  /** Row i is the highest-id active in-scope overlay that sets the key. */
  predicate TopSetter(rows: Rows, q: Query, now: int, key: string, i: int) {
    0 <= i < |rows| && Sets(rows[i], q, now, key) && forall j | i < j < |rows| :: !Sets(rows[j], q, now, key)
  }

  /** The effective value is the change of the top setter. */
  lemma {:induction false} TopSetterWins(rows: Rows, base: Changes, q: Query, now: int, key: string, i: int)
    requires TopSetter(rows, q, now, key, i)
    ensures key in Effective(rows, base, q, now) && Effective(rows, base, q, now)[key] == rows[i].value.changes[key]
  {
    var n := |rows| - 1;
    if i == n {
    } else {
      assert !Sets(rows[n], q, now, key);
      assert TopSetter(rows[..n], q, now, key, i);
      TopSetterWins(rows[..n], base, q, now, key, i);
    }
  }

  /** Without a setter the base value, or its absence, stands. */
  lemma {:induction false} NoSetterKeepsBase(rows: Rows, base: Changes, q: Query, now: int, key: string)
    requires forall i | 0 <= i < |rows| :: !Sets(rows[i], q, now, key)
    ensures key in Effective(rows, base, q, now) <==> key in base
    ensures key in base ==> Effective(rows, base, q, now)[key] == base[key]
  {
    if rows == [] {
    } else {
      var n := |rows| - 1;
      assert !Sets(rows[n], q, now, key);
      NoSetterKeepsBase(rows[..n], base, q, now, key);
    }
  }

  /** Either some row is the top setter of a key, or no row sets it. */
  lemma FindTopSetter(rows: Rows, q: Query, now: int, key: string) returns (i: int)
    ensures i == -1 || TopSetter(rows, q, now, key, i)
    ensures i == -1 ==> forall j | 0 <= j < |rows| :: !Sets(rows[j], q, now, key)
  {
    i := |rows| - 1;
    while i >= 0 && !Sets(rows[i], q, now, key)
      invariant -1 <= i < |rows|
      invariant forall j | i < j < |rows| :: !Sets(rows[j], q, now, key)
    {
      i := i - 1;
    }
  }

  /** A key that is not the base's carries a top setter's change; any other key is as in the base. */
  lemma EffectiveCases(rows: Rows, base: Changes, q: Query, now: int, key: string) returns (i: int)
    ensures i != -1 ==> TopSetter(rows, q, now, key, i) && key in Effective(rows, base, q, now)
                        && Effective(rows, base, q, now)[key] == rows[i].value.changes[key]
    ensures i == -1 ==> (forall j | 0 <= j < |rows| :: !Sets(rows[j], q, now, key))
                        && (key in Effective(rows, base, q, now) <==> key in base)
                        && (key in base ==> Effective(rows, base, q, now)[key] == base[key])
  {
    i := FindTopSetter(rows, q, now, key);
    if i != -1 {
      TopSetterWins(rows, base, q, now, key, i);
    } else {
      NoSetterKeepsBase(rows, base, q, now, key);
    }
  }
}
