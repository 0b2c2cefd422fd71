/** What overlays can and cannot do to PAPER settings, over whole histories of the table. */
module OverlayHistories {
  import opened Basics
  import opened OverlayRules
  import opened Overlays

  function Run(s: State, h: seq<Action>): State {
    if h == [] then s else Do(Run(s, h[..|h| - 1]), h[|h| - 1])
  }

  function InForce(s: State, base: Changes, q: Query): Changes {
    Effective(s.rows, base, q, s.now)
  }

  // ---- What every row of the table satisfies ----

  ghost predicate RowOk(o: Overlay, now: int) {
    ValidChanges(o.changes) && o.createdAt <= now && o.expiresAt.Some? && o.expiresAt.value <= o.createdAt + MAX_TTL
  }

  ghost predicate TableOk(s: State) {
    forall i | HasRow(s.rows, i) :: RowOk(s.rows[i].value, s.now)
  }

  lemma TableOkStep(s: State, a: Action)
    requires TableOk(s)
    ensures TableOk(Do(s, a))
  {
    var t := Do(s, a);
    forall i | HasRow(t.rows, i)
      ensures RowOk(t.rows[i].value, t.now)
    {
      if i < |s.rows| {
        assert HasRow(s.rows, i);
      } else {
        ValidatedIsDeclared(a.items);
      }
    }
  }

  lemma {:induction false} TableOkAfter(s: State, h: seq<Action>)
    requires TableOk(s)
    ensures TableOk(Run(s, h))
  {
    if h == [] {
    } else {
      TableOkAfter(s, h[..|h| - 1]);
      TableOkStep(Run(s, h[..|h| - 1]), h[|h| - 1]);
    }
  }

  // ---- Only declared keys, inside their limits ----

  /**
   From an empty table, over any history, a setting that is not as in the base belongs to a declared key
   and lies inside that key's limits.
   */
  lemma OnlyDeclaredKeysMove(h: seq<Action>, now: int, base: Changes, q: Query, key: string)
    ensures var e := InForce(Run(State([], now), h), base, q);
            (key in base ==> key in e) &&
            (key in e && !(key in base && e[key] == base[key]) ==> Declared(key, e[key]))
  {
    var s := Run(State([], now), h);
    TableOkAfter(State([], now), h);
    var i := EffectiveCases(s.rows, base, q, s.now, key);
    if i != -1 {
      assert HasRow(s.rows, i) && RowOk(s.rows[i].value, s.now);
    }
  }

  /** The three allow-listed keys without declared limits can never be moved. */
  lemma UndeclaredKeysNeverMove(h: seq<Action>, now: int, base: Changes, q: Query, key: string)
    requires key in {"NO_MIN_EDGE", "FAVORITE_MIN_EDGE", "CRYPTO_MIN_EDGE"}
    ensures var e := InForce(Run(State([], now), h), base, q);
            (key in e <==> key in base) && (key in base ==> e[key] == base[key])
  {
    OnlyDeclaredKeysMove(h, now, base, q, key);
  }

  // ---- Price order ----

  ghost predicate PriceOrdered(m: Changes) {
    && "TRADE_MIN_PRICE" in m && "TRADE_MAX_PRICE" in m
    && Numeric(m["TRADE_MIN_PRICE"]) <= 0.5 <= Numeric(m["TRADE_MAX_PRICE"])
  }

  /** However overlays combine, effective prices stay on their sides of one half. */
  lemma PriceOrderKept(h: seq<Action>, now: int, base: Changes, q: Query)
    requires PriceOrdered(base)
    ensures PriceOrdered(InForce(Run(State([], now), h), base, q))
  {
    OnlyDeclaredKeysMove(h, now, base, q, "TRADE_MIN_PRICE");
    OnlyDeclaredKeysMove(h, now, base, q, "TRADE_MAX_PRICE");
  }

  // ---- Erasure ----

  function Erased(s: State, i: nat): State
    requires i < |s.rows|
  {
    s.(rows := s.rows[i := None])
  }

  /** Every call acts the same on the other rows whether or not row i exists. */
  lemma EraseCommutes(s: State, a: Action, i: nat)
    requires i < |s.rows|
    ensures |s.rows| <= |Do(s, a).rows| && Do(Erased(s, i), a) == Erased(Do(s, a), i)
  {
    assert Do(Erased(s, i), a).rows == Erased(Do(s, a), i).rows;
  }

  lemma {:induction false} EraseCommutesAll(s: State, h: seq<Action>, i: nat)
    requires i < |s.rows|
    ensures |s.rows| <= |Run(s, h).rows| && Run(Erased(s, i), h) == Erased(Run(s, h), i)
  {
    if h == [] {
    } else {
      EraseCommutesAll(s, h[..|h| - 1], i);
      EraseCommutes(Run(s, h[..|h| - 1]), h[|h| - 1], i);
    }
  }

  /** A row that does not count for a query leaves no trace in what the query sees. */
  lemma {:induction false} IdleRowUnseen(rows: Rows, base: Changes, q: Query, now: int, i: nat)
    requires i < |rows| && !Counts(rows[i], q, now)
    ensures Effective(rows, base, q, now) == Effective(rows[i := None], base, q, now)
  {
    var n := |rows| - 1;
    if i < n {
      IdleRowUnseen(rows[..n], base, q, now, i);
      assert rows[i := None][..n] == rows[..n][i := None];
    } else {
      assert rows[i := None][..n] == rows[..n];
    }
  }

  /** The history in which the overlay was never created; only its id is used up. */
  function NeverCreated(s: State, h: seq<Action>): State {
    Run(s.(rows := s.rows + [None]), h)
  }

  /**
   After a creation and any later calls, an overlay that is not active for a query has the same effect
   on it as if it had never existed.
   */
  lemma IdleOverlayLeavesNoTrace(s: State, c: Action, h: seq<Action>, base: Changes, q: Query)
    requires c.Create? && Validated(c.items).Some?
    ensures var t := Run(Do(s, c), h);
            |s.rows| < |t.rows| &&
            (!Counts(t.rows[|s.rows|], q, t.now) ==> InForce(t, base, q) == InForce(NeverCreated(s, h), base, q))
  {
    var i := |s.rows|;
    EraseCommutesAll(Do(s, c), h, i);
    assert Do(s, c).rows[i := None] == s.rows + [None];
    var t := Run(Do(s, c), h);
    assert NeverCreated(s, h) == Erased(t, i);
    if !Counts(t.rows[i], q, t.now) {
      IdleRowUnseen(t.rows, base, q, t.now, i);
    }
  }

  ghost predicate Dead(s: State, i: int) {
    HasRow(s.rows, i) && !Open(s.rows[i].value.status)
  }

  lemma {:induction false} DeadForever(s: State, h: seq<Action>, i: int)
    requires Dead(s, i)
    ensures Dead(Run(s, h), i)
  {
    if h == [] {
    } else {
      DeadForever(s, h[..|h| - 1], i);
    }
  }

  lemma {:induction false} RunTwice(s: State, g: seq<Action>, h: seq<Action>)
    ensures Run(Run(s, g), h) == Run(s, g + h)
  {
    if h == [] {
      assert g + h == g;
    } else {
      RunTwice(s, g, h[..|h| - 1]);
      assert (g + h)[..|g + h| - 1] == g + h[..|h| - 1];
    }
  }

  /**
   Once an overlay is rolled back or expired, it is as if it had never existed, for every later history and
   every query.
   */
  lemma Erasure(s: State, c: Action, g: seq<Action>, h: seq<Action>, base: Changes, q: Query)
    requires c.Create? && Validated(c.items).Some? && Dead(Run(Do(s, c), g), |s.rows|)
    ensures InForce(Run(Do(s, c), g + h), base, q) == InForce(NeverCreated(s, g + h), base, q)
  {
    RunTwice(Do(s, c), g, h);
    DeadForever(Run(Do(s, c), g), h, |s.rows|);
    IdleOverlayLeavesNoTrace(s, c, g + h, base, q);
  }

  // ---- Scope ----

  lemma {:induction false} ScopeIsFixed(s: State, h: seq<Action>, i: nat)
    requires HasRow(s.rows, i)
    ensures HasRow(Run(s, h).rows, i)
    ensures var o, p := s.rows[i].value, Run(s, h).rows[i].value;
            p.target == o.target && p.asset == o.asset && p.regime == o.regime
  {
    if h == [] {
    } else {
      ScopeIsFixed(s, h[..|h| - 1], i);
    }
  }

  /**
   An overlay for another asset, or for a regime the query does not name, never affects the query,
   whatever is done to it or to other overlays.
   */
  lemma ScopeNonInterference(s: State, c: Action, h: seq<Action>, base: Changes, q: Query)
    requires c.Create? && Validated(c.items).Some?
    requires var o := NewOverlay(Validated(c.items).value, c.ttl, c.asset, c.regime, s.now);
             !AssetMatches(o, q) || !RegimeMatches(o, q)
    ensures InForce(Run(Do(s, c), h), base, q) == InForce(NeverCreated(s, h), base, q)
  {
    ScopeIsFixed(Do(s, c), h, |s.rows|);
    IdleOverlayLeavesNoTrace(s, c, h, base, q);
  }

  // ---- Bounded effect ----

  function Elapsed(h: seq<Action>): nat {
    if h == [] then 0
    else Elapsed(h[..|h| - 1]) + if h[|h| - 1].Wait? then h[|h| - 1].elapsed else 0
  }

  /** Without creations, time passes and no row gains a later expiry. */
  lemma {:induction false} NoNewDeadlines(s: State, h: seq<Action>)
    requires forall a | a in h :: !a.Create?
    ensures var t := Run(s, h);
            && t.now == s.now + Elapsed(h) && |t.rows| == |s.rows|
            && forall i | HasRow(t.rows, i) ::
                 HasRow(s.rows, i) && t.rows[i].value.expiresAt == s.rows[i].value.expiresAt
  {
    if h == [] {
    } else {
      assert forall a | a in h[..|h| - 1] :: a in h;
      NoNewDeadlines(s, h[..|h| - 1]);
      assert !h[|h| - 1].Create?;
    }
  }

  lemma {:induction false} NothingLive(rows: Rows, base: Changes, q: Query, now: int)
    requires forall i | HasRow(rows, i) :: !Live(rows[i].value, now)
    ensures Effective(rows, base, q, now) == base
  {
    if rows == [] {
    } else {
      var n := |rows| - 1;
      forall i | HasRow(rows[..n], i) ensures !Live(rows[..n][i].value, now) { assert HasRow(rows, i); }
      NothingLive(rows[..n], base, q, now);
      assert rows[n].Some? ==> HasRow(rows, n);
    }
  }

  /** Once a day has passed without a creation, the settings in force are the base settings. */
  lemma BoundedEffect(g: seq<Action>, h: seq<Action>, start: int, base: Changes, q: Query)
    requires (forall a | a in h :: !a.Create?) && Elapsed(h) >= MAX_TTL
    ensures InForce(Run(State([], start), g + h), base, q) == base
  {
    var s := Run(State([], start), g);
    RunTwice(State([], start), g, h);
    TableOkAfter(State([], start), g);
    NoNewDeadlines(s, h);
    var t := Run(s, h);
    forall i | HasRow(t.rows, i)
      ensures !Live(t.rows[i].value, t.now)
    {
      assert RowOk(s.rows[i].value, s.now);
    }
    NothingLive(t.rows, base, q, t.now);
  }
}
