/** Which queries an overlay reaches and for how long, told from the texts people write. */
module OverlayScope {
  import opened Basics
  import opened Texts
  import opened OverlayRules
  import opened Overlays
  import opened OverlayHistories
  import TimeLeftOrder

  // ---- Texts that name an asset or a regime ----

  /** An asset symbol: upper-case letters and digits, not ending in USDT. */
  predicate IsSymbol(c: string) {
    && c != "" && (forall i | 0 <= i < |c| :: 'A' <= c[i] <= 'Z' || '0' <= c[i] <= '9')
    && !(|c| >= 4 && c[|c| - 4..] == "USDT")
  }

  /** The text writes the symbol, alone or as a pair with USDT, in any case; the empty symbol is a blank text. */
  ghost predicate NamesAsset(text: string, c: string) {
    if c == "" then AllSpace(text)
    else
      && IsSymbol(c)
      && (Writes(text, c) || Writes(text, c + "USDT") || Writes(text, c + "/USDT") || Writes(text, c + "-USDT"))
  }

  /** The text writes the word, in any case; the empty word is a blank text. */
  ghost predicate NamesRegime(text: string, word: string) {
    if word == "" then AllSpace(text) else Trimmed(word) && Writes(text, word)
  }

  predicate Clean(s: string) {
    forall i | 0 <= i < |s| :: s[i] != '/' && s[i] != '-'
  }

  function Kept(x: char, c: char): string {
    if x == c then "" else [x]
  }

  lemma WithoutHead(x: char, s: string, c: char)
    ensures Without([x] + s, c) == Kept(x, c) + Without(s, c)
  {
    assert ([x] + s)[1..] == s;
  }

  lemma {:induction false} WithoutAppend(a: string, b: string, c: char)
    ensures Without(a + b, c) == Without(a, c) + Without(b, c)
  {
    if a == "" {
      assert a + b == b;
    } else {
      var x, rest := a[0], a[1..];
      assert a == [x] + rest && a + b == [x] + (rest + b);
      WithoutAppend(rest, b, c);
      WithoutHead(x, rest, c);
      WithoutHead(x, rest + b, c);
    }
  }

  lemma {:induction false} WithoutAbsent(s: string, c: char)
    requires forall i | 0 <= i < |s| :: s[i] != c
    ensures Without(s, c) == s
  {
    if s == "" {
    } else {
      WithoutAbsent(s[1..], c);
    }
  }

  /** Removing slashes and hyphens from a symbol and a suffix leaves the symbol and the clean suffix. */
  lemma DashesRemoved(c: string, suffix: string)
    requires Clean(c)
    ensures Without(Without(c + suffix, '/'), '-') == c + Without(Without(suffix, '/'), '-')
  {
    WithoutAppend(c, suffix, '/');
    WithoutAbsent(c, '/');
    WithoutAppend(c, Without(suffix, '/'), '-');
    WithoutAbsent(c, '-');
  }

  predicate IsMark(mark: string) {
    mark == "" || mark == ['/'] || mark == ['-']
  }

  lemma MarkRemoved(mark: string, tail: string)
    requires IsMark(mark) && Clean(tail)
    ensures Without(Without(mark + tail, '/'), '-') == tail
  {
    WithoutAbsent(tail, '/');
    WithoutAbsent(tail, '-');
    if mark == "" {
      assert mark + tail == tail;
    } else if mark == ['/'] {
      WithoutHead('/', tail, '/');
      assert Kept('/', '/') + tail == tail;
    } else {
      WithoutHead('-', tail, '/');
      WithoutHead('-', tail, '-');
      assert Kept('-', '-') + tail == tail;
    }
  }

  /** Dropping a final USDT from a symbol, alone or with that tail, gives the symbol. */
  lemma TailDropped(c: string, tail: string, t: string)
    requires IsSymbol(c) && (tail == "" || tail == "USDT") && t == c + tail
    ensures (var n := |t| - 4; if n >= 0 && t[n..] == "USDT" then t[..n] else t) == c
  {
    if tail == "" {
      assert t == c;
    } else {
      assert t[|c|..] == "USDT" && t[..|c|] == c;
    }
  }

  lemma SymbolChars(c: string, mark: string, tail: string)
    requires IsSymbol(c) && IsMark(mark) && (tail == "USDT" || tail == "")
    ensures Clean(c) && Clean(tail)
    ensures forall i | 0 <= i < |c + (mark + tail)| :: '!' <= (c + (mark + tail))[i] < 'a'
  {
  }

  lemma UpperNormalizes(text: string, c: string, tail: string, word: string)
    requires Upper(Strip(text)) == word && Without(Without(word, '/'), '-') == c + tail
    requires IsSymbol(c) && (tail == "USDT" || tail == "")
    ensures NormalizeAsset(text) == c
  {
    TailDropped(c, tail, c + tail);
  }

  lemma SymbolText(text: string, c: string, mark: string, tail: string)
    requires IsSymbol(c) && IsMark(mark) && (tail == "USDT" || tail == "")
    requires Writes(text, c + (mark + tail))
    ensures NormalizeAsset(text) == c
  {
    SymbolChars(c, mark, tail);
    WritesUpper(text, c + (mark + tail));
    DashesRemoved(c, mark + tail);
    MarkRemoved(mark, tail);
    UpperNormalizes(text, c, tail, c + (mark + tail));
  }

  lemma AssetNormalizes(text: string, c: string)
    requires NamesAsset(text, c)
    ensures NormalizeAsset(text) == c
  {
    if c == "" {
      BlankStrips(text);
      assert Upper("") == "" && Without("", '/') == "" && Without("", '-') == "";
    } else if Writes(text, c) {
      assert c + ("" + "") == c;
      SymbolText(text, c, "", "");
    } else if Writes(text, c + "USDT") {
      assert "" + "USDT" == "USDT";
      SymbolText(text, c, "", "USDT");
    } else if Writes(text, c + "/USDT") {
      assert ['/'] + "USDT" == "/USDT";
      SymbolText(text, c, ['/'], "USDT");
    } else {
      assert ['-'] + "USDT" == "-USDT";
      SymbolText(text, c, ['-'], "USDT");
    }
  }

  lemma RegimeNormalizes(text: string, word: string)
    requires NamesRegime(text, word)
    ensures NormalizeRegime(text) == Lower(word) && (NormalizeRegime(text) == "" <==> word == "")
  {
    LowerAt(word);
    if word == "" {
      BlankStrips(text);
      assert Lower("") == "";
    } else {
      WritesExactly(text, word);
    }
  }

  lemma StripTwice(text: string)
    ensures Strip(Strip(text)) == Strip(text)
  {
    var pre, post := StripSplits(text);
    StripAround("", Strip(text), "");
    assert "" + Strip(text) + "" == Strip(text);
  }

  lemma BlankExactly(text: string)
    ensures AllSpace(text) <==> Upper(Strip(text)) == ""
  {
    if AllSpace(text) { BlankStrips(text); }
    UpperAt(Strip(text));
    var pre, post := StripSplits(text);
  }

  /** An overlay row counts as a PAPER one exactly when its target is blank or writes one of three names. */
  lemma TargetExactly(o: Overlay)
    ensures TargetsPaper(o) <==>
            || AllSpace(o.target) || Writes(o.target, "PAPER") || Writes(o.target, "PAPER_TRADING")
            || Writes(o.target, "SHADOW_SIMULATION")
  {
    WritesUpper(o.target, "PAPER");
    WritesUpper(o.target, "PAPER_TRADING");
    WritesUpper(o.target, "SHADOW_SIMULATION");
    BlankExactly(o.target);
  }

  // ---- What a query sees of one overlay ----

  /** The asset symbol and the regime word that two texts name; empty for a blank text. */
  datatype Scope = Scope(asset: string, regime: string)

  ghost predicate Names(texts: Query, scope: Scope) {
    NamesAsset(texts.asset, scope.asset) && NamesRegime(texts.regime, scope.regime)
  }

  /**
   An overlay's scope covers a query's: the assets are the same or one is blank, and the overlay's regime is
   blank or reads as the query's. A query without a regime sees no overlay that has one.
   */
  ghost predicate Covers(scope: Scope, asked: Scope) {
    && (scope.asset == "" || asked.asset == "" || scope.asset == asked.asset)
    && (scope.regime == "" || ReadsAs(scope.regime, asked.regime))
  }

  /** What the stored texts of a created overlay match, from the texts it was created with. */
  lemma MatchesExactly(o: Overlay, texts: Query, scope: Scope, q: Query, asked: Scope)
    requires o.asset == Strip(texts.asset) && o.regime == Strip(texts.regime)
    requires Names(texts, scope) && Names(q, asked)
    ensures AssetMatches(o, q) && RegimeMatches(o, q) <==> Covers(scope, asked)
  {
    StripTwice(texts.asset);
    StripTwice(texts.regime);
    AssetNormalizes(texts.asset, scope.asset);
    AssetNormalizes(q.asset, asked.asset);
    RegimeNormalizes(texts.regime, scope.regime);
    RegimeNormalizes(q.regime, asked.regime);
    ReadsLower(scope.regime, asked.regime);
  }

  lemma {:induction false} IdsBelow(rows: Rows, q: Query, now: int)
    ensures forall id | id in AppliedIds(rows, q, now) :: 0 <= id < |rows|
  {
    if rows == [] {
    } else {
      IdsBelow(rows[..|rows| - 1], q, now);
    }
  }

  lemma LastRow(rows: Rows, row: Option<Overlay>, base: Changes, q: Query, now: int)
    ensures |rows| in AppliedIds(rows + [row], q, now) <==> Counts(row, q, now)
    ensures Effective(rows + [row], base, q, now) ==
            if Counts(row, q, now) then Effective(rows, base, q, now) + row.value.changes
            else Effective(rows, base, q, now)
  {
    assert (rows + [row])[..|rows|] == rows;
    IdsBelow(rows, q, now);
  }

  /** The overlay of a creation, once applied. */
  lemma AppliedAfter(s: State, items: seq<(string, Raw)>, ttl: int, asset: string, regime: string, d: nat)
    returns (o: Overlay, t: State)
    requires Validated(items).Some?
    ensures t == Do(Do(Do(s, Create(items, ttl, asset, regime)), Apply(|s.rows|)), Wait(d))
    ensures t.rows == s.rows + [Some(o)] && t.now == s.now + d
    ensures o.asset == Strip(asset) && o.regime == Strip(regime) && o.target == "SHADOW_SIMULATION"
    ensures o.changes == Validated(items).value && o.status == Applied
    ensures o.expiresAt == Some(s.now + (if ttl <= 86400 then ttl else 86400) * 1_000_000)
  {
    var made := NewOverlay(Validated(items).value, ttl, asset, regime, s.now);
    o := made.(status := Applied);
    assert (s.rows + [Some(made)])[|s.rows| := Some(o)] == s.rows + [Some(o)];
    t := Do(Do(Do(s, Create(items, ttl, asset, regime)), Apply(|s.rows|)), Wait(d));
  }

  /** When a created and applied overlay counts for a query. */
  lemma CountsExactly(o: Overlay, texts: Query, scope: Scope, q: Query, asked: Scope, now: int)
    requires o.asset == Strip(texts.asset) && o.regime == Strip(texts.regime) && o.target == "SHADOW_SIMULATION"
    requires Names(texts, scope) && Names(q, asked) && o.status == Applied && o.expiresAt.Some?
    ensures Counts(Some(o), q, now) <==> Covers(scope, asked) && now < o.expiresAt.value
  {
    TimeLeftOrder.ShadowTargetsPaper(o);
    MatchesExactly(o, texts, scope, q, asked);
  }

  /**
   From any table: an overlay created for some texts and applied is among the ids and settings resolved for
   other texts exactly when its scope covers theirs and its life, capped at a day, has not run out. Otherwise
   the query sees what it would see without it.
   */
  lemma InForceExactly(s: State, items: seq<(string, Raw)>, ttl: int, texts: Query, scope: Scope, d: nat,
                       base: Changes, q: Query, asked: Scope)
    requires Validated(items).Some? && Names(texts, scope) && Names(q, asked)
    ensures var t := Do(Do(Do(s, Create(items, ttl, texts.asset, texts.regime)), Apply(|s.rows|)), Wait(d));
            var on := Covers(scope, asked) && d < (if ttl <= 86400 then ttl else 86400) * 1_000_000;
            var rest := Effective(s.rows, base, q, t.now);
            && (|s.rows| in AppliedIds(t.rows, q, t.now) <==> on)
            && InForce(t, base, q) == if on then rest + Validated(items).value else rest
  {
    var o, t := AppliedAfter(s, items, ttl, texts.asset, texts.regime, d);
    CountsExactly(o, texts, scope, q, asked, t.now);
    LastRow(s.rows, Some(o), base, q, t.now);
  }

  /** Over every history: an overlay whose scope does not cover a query's never affects it, whatever is done to it. */
  lemma OtherScopeNeverSeen(s: State, c: Action, scope: Scope, h: seq<Action>, base: Changes, q: Query, asked: Scope)
    requires c.Create? && Validated(c.items).Some? && Names(Query(c.asset, c.regime), scope) && Names(q, asked)
    requires !Covers(scope, asked)
    ensures InForce(Run(Do(s, c), h), base, q) == InForce(NeverCreated(s, h), base, q)
  {
    var o := NewOverlay(Validated(c.items).value, c.ttl, c.asset, c.regime, s.now);
    MatchesExactly(o, Query(c.asset, c.regime), scope, q, asked);
    ScopeNonInterference(s, c, h, base, q);
  }

  // ---- The lifecycle ----

  /** The row was still open and its expiry has come. */
  predicate Due(o: Overlay, now: int) {
    (o.status == Pending || o.status == Applied) && o.expiresAt.Some? && now >= o.expiresAt.value
  }

  /** What each call does to the status of one row; nothing but the status of an existing row ever changes. */
  lemma LifecycleExactly(s: State, a: Action, i: int)
    requires HasRow(s.rows, i)
    ensures HasRow(Do(s, a).rows, i)
    ensures var o, p := s.rows[i].value, Do(s, a).rows[i].value;
            && p == o.(status := p.status)
            && p.status ==
               (if a == Apply(i) && o.status == Pending then Applied
                else if a == Rollback(i) && (o.status == Pending || o.status == Applied) then RolledBack
                else if a == Expire && Due(o, s.now) then Expired
                else o.status)
  {
  }

  /**
   A creation adds one pending row at the end, which ends at most a day later, or nothing; no other call adds
   rows.
   */
  lemma CreationExactly(s: State, a: Action)
    ensures var t := Do(s, a);
            if a.Create? && Validated(a.items).Some?
            then && |t.rows| == |s.rows| + 1 && t.rows[..|s.rows|] == s.rows && t.rows[|s.rows|].Some?
                 && var o := t.rows[|s.rows|].value;
                 && o.status == Pending && o.createdAt == s.now && o.changes == Validated(a.items).value
                 && o.expiresAt == Some(s.now + (if a.ttl <= 86400 then a.ttl else 86400) * 1_000_000)
            else |t.rows| == |s.rows|
  {
  }
}
