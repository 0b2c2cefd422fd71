/** Canonical manifests: the normaliser, the canonical text, and the self-hashing manifest builder. */
module Manifests {
  import opened Basics
  import opened Tags
  import opened CanonicalJson

  type Text = s: string | s != "" witness "0"

  /**
   A Python value. A float is its repr, a datetime its UTC form with "Z" (none when naive), a decimal its
   fixed-point text. The items of a mapping carry the string form of their keys, those of a set their repr.
   */
  datatype Value =
    | VNull
    | VBool(b: bool)
    | VInt(n: int)
    | VFloat(repr: FloatRepr)
    | VNonFinite
    | VDecimal(text: Text)
    | VStr(s: string)
    | VDate(iso: string)
    | VDatetime(utc: Option<string>)
    | VList(items: seq<Value>)
    | VSet(members: seq<Tagged<Value>>)
    | VMap(entries: seq<Tagged<Value>>)
    | VOther(typeName: string)

  // ---- Normalisation ----

  function Typed(kind: string, value: string): Json {
    JObj([Tagged("__type", JStr(kind)), Tagged("value", JStr(value))])
  }

  function Normalize(v: Value): (r: Result<Json>)
    decreases v
  {
    match v
    case VNull => Ok(JNull)
    case VBool(b) => Ok(JBool(b))
    case VInt(n) => Ok(JInt(n))
    case VFloat(repr) => Ok(JFloat(repr))
    case VNonFinite => Err("non-finite floats are not allowed in manifests")
    case VDecimal(text) => Ok(JStr(text))
    case VStr(s) => Ok(JStr(s))
    case VDate(iso) => Ok(Typed("date", iso))
    case VDatetime(Some(utc)) => Ok(Typed("datetime", utc))
    case VDatetime(None) => Err("naive datetimes are not allowed in manifests")
    case VOther(name) => Err("unsupported manifest value: " + name)
    case VList(items) => Listed(seq(|items|, i requires 0 <= i < |items| => Tagged("", Normalize(items[i]))))
    case VSet(members) =>
      Listed(Sort(seq(|members|, i requires 0 <= i < |members| => Tagged(members[i].tag, Normalize(members[i].value)))))
    case VMap(entries) =>
      Mapped(Sort(seq(|entries|, i requires 0 <= i < |entries| => Tagged(entries[i].tag, Normalize(entries[i].value)))))
  }

  function Listed(each: seq<Tagged<Result<Json>>>): Result<Json> {
    match Collect(each)
    case Ok(fields) => Ok(JList(Values(fields)))
    case Err(e) => Err(e)
  }

  function Mapped(each: seq<Tagged<Result<Json>>>): Result<Json> {
    match Collect(each)
    case Ok(fields) => Ok(JObj(Collapse(fields)))
    case Err(e) => Err(e)
  }

  /** All values if every item has one, else the first error. */
  function Collect(xs: seq<Tagged<Result<Json>>>): Result<seq<Tagged<Json>>> {
    if xs == [] then Ok([])
    else
      match Collect(xs[..|xs| - 1])
      case Err(e) => Err(e)
      case Ok(done) =>
        match xs[|xs| - 1].value
        case Ok(j) => Ok(done + [Tagged(xs[|xs| - 1].tag, j)])
        case Err(e) => Err(e)
  }

  function Values(fields: seq<Tagged<Json>>): seq<Json> {
    seq(|fields|, i requires 0 <= i < |fields| => fields[i].value)
  }

  /** The normalised items of a mapping, in their own order. */
  function Each(entries: seq<Tagged<Value>>): (r: seq<Tagged<Result<Json>>>) {
    seq(|entries|, i requires 0 <= i < |entries| => Tagged(entries[i].tag, Normalize(entries[i].value)))
  }

  /** canonical_json: only a value that normalises to an object has a canonical text. */
  function CanonicalText(v: Value): Result<string> {
    match Normalize(v)
    case Err(e) => Err(e)
    case Ok(JObj(fields)) => Ok(Dumps(JObj(fields)))
    case Ok(_) => Err("manifest payload must be a mapping")
  }

  // ---- Normal forms ----

  /** Objects have strictly sorted keys, at every depth. */
  ghost predicate Normal(j: Json) {
    match j
    case JList(items) => forall i | 0 <= i < |items| :: Normal(items[i])
    case JObj(fields) => StrictlySorted(fields) && forall i | 0 <= i < |fields| :: Normal(fields[i].value)
    case _ => true
  }

  /** A JSON value as the Python value it is. */
  function Embed(j: Json): Value {
    match j
    case JNull => VNull
    case JBool(b) => VBool(b)
    case JInt(n) => VInt(n)
    case JFloat(repr) => VFloat(repr)
    case JStr(s) => VStr(s)
    case JList(items) => VList(seq(|items|, i requires 0 <= i < |items| => Embed(items[i])))
    case JObj(fields) =>
      VMap(seq(|fields|, i requires 0 <= i < |fields| => Tagged(fields[i].tag, Embed(fields[i].value))))
  }

  lemma {:induction false} CollectIs(xs: seq<Tagged<Result<Json>>>)
    ensures Collect(xs).Ok? <==> forall i | 0 <= i < |xs| :: xs[i].value.Ok?
    ensures Collect(xs).Ok? ==> var fs := Collect(xs).value;
              |fs| == |xs| && forall i | 0 <= i < |xs| :: fs[i].tag == xs[i].tag && xs[i].value == Ok(fs[i].value)
  {
    if xs == [] {
    } else {
      CollectIs(xs[..|xs| - 1]);
    }
  }

  lemma CollectFinds(xs: seq<Tagged<Result<Json>>>, tag: string)
    requires Collect(xs).Ok?
    ensures Find(xs, tag) == match Find(Collect(xs).value, tag) case None => None case Some(j) => Some(Ok(j))
  {
    CollectIs(xs);
    if xs == [] {
    } else {
      CollectFinds(xs[..|xs| - 1], tag);
      CollectIs(xs[..|xs| - 1]);
      var fs := Collect(xs).value;
      assert fs[..|xs| - 1] == Collect(xs[..|xs| - 1]).value;
    }
  }

  /** A mapping is normalised item by item, sorted and then filled into a dictionary. */
  lemma MapIs(entries: seq<Tagged<Value>>)
    ensures Normalize(VMap(entries)) == Mapped(Sort(Each(entries)))
  {
    assert Each(entries) ==
           seq(|entries|, i requires 0 <= i < |entries| => Tagged(entries[i].tag, Normalize(entries[i].value)));
  }

  lemma SetIs(members: seq<Tagged<Value>>)
    ensures Normalize(VSet(members)) == Listed(Sort(Each(members)))
  {
    assert Each(members) ==
           seq(|members|, i requires 0 <= i < |members| => Tagged(members[i].tag, Normalize(members[i].value)));
  }

  lemma MappedIsSorted(xs: seq<Tagged<Result<Json>>>)
    requires Sorted(xs) && Collect(xs).Ok?
    ensures Sorted(Collect(xs).value)
    ensures Mapped(xs) == Ok(JObj(Collapse(Collect(xs).value))) && StrictlySorted(Collapse(Collect(xs).value))
  {
    CollectIs(xs);
    CollapseIsStrict(Collect(xs).value);
  }

  /** Every result is normal. */
  lemma {:induction false} NormalizeIsNormal(v: Value)
    requires Normalize(v).Ok?
    ensures Normal(Normalize(v).value)
    decreases v, 1
  {
    match v
    case VList(items) =>
      var each := seq(|items|, i requires 0 <= i < |items| => Tagged("", Normalize(items[i])));
      CollectIs(each);
      forall i | 0 <= i < |items| ensures Normal(Normalize(v).value.items[i]) {
        assert each[i].value == Normalize(items[i]);
        NormalizeIsNormal(items[i]);
      }
    case VSet(members) =>
      SetIs(members);
      EachIsNormal(v, members);
    case VMap(entries) =>
      MapIs(entries);
      EachIsNormal(v, entries);
      SortSorts(Each(entries));
      MappedIsSorted(Sort(Each(entries)));
      CollapseElements(Collect(Sort(Each(entries))).value);
    case VDate(iso) => TypedIsNormal("date", iso);
    case VDatetime(Some(utc)) => TypedIsNormal("datetime", utc);
    case _ =>
  }

  lemma TypedIsNormal(kind: string, value: string)
    ensures Normal(Typed(kind, value))
  {
    assert Below("__type", "value");
  }

  lemma {:induction false} EachIsNormal(v: Value, items: seq<Tagged<Value>>)
    requires v == VSet(items) || v == VMap(items)
    ensures Collect(Sort(Each(items))).Ok? ==> forall f | f in Collect(Sort(Each(items))).value :: Normal(f.value)
    decreases v, 0
  {
    var sorted := Sort(Each(items));
    CollectIs(sorted);
    SortElements(Each(items));
    if Collect(sorted).Ok? {
      var fields := Collect(sorted).value;
      forall i | 0 <= i < |fields| ensures Normal(fields[i].value) {
        var k :| 0 <= k < |items| && Each(items)[k] == sorted[i];
        NormalizeIsNormal(items[k].value);
      }
    }
  }

  lemma {:induction false} CollectOks(xs: seq<Tagged<Result<Json>>>, fs: seq<Tagged<Json>>)
    requires |xs| == |fs| && forall i | 0 <= i < |xs| :: xs[i] == Tagged(fs[i].tag, Ok(fs[i].value))
    ensures Collect(xs) == Ok(fs)
  {
    CollectIs(xs);
    assert Collect(xs).value == fs;
  }

  lemma EmbeddedFields(fields: seq<Tagged<Json>>) returns (entries: seq<Tagged<Value>>)
    ensures Embed(JObj(fields)) == VMap(entries) && |entries| == |fields|
    ensures forall i | 0 <= i < |fields| :: entries[i] == Tagged(fields[i].tag, Embed(fields[i].value))
  {
    entries := Embed(JObj(fields)).entries;
  }

  /** Normalising a normal form changes nothing. */
  lemma {:induction false} NormalizeIdempotent(j: Json)
    requires Normal(j)
    ensures Normalize(Embed(j)) == Ok(j)
  {
    match j
    case JList(items) =>
      var vs := Embed(j).items;
      var each := seq(|vs|, i requires 0 <= i < |vs| => Tagged("", Normalize(vs[i])));
      var fs := seq(|items|, i requires 0 <= i < |items| => Tagged("", items[i]));
      forall i | 0 <= i < |items| ensures each[i] == Tagged(fs[i].tag, Ok(fs[i].value)) {
        NormalizeIdempotent(items[i]);
      }
      CollectOks(each, fs);
      assert Values(fs) == items;
    case JObj(fields) =>
      var entries := EmbeddedFields(fields);
      var each := Each(entries);
      forall i | 0 <= i < |fields| ensures each[i] == Tagged(fields[i].tag, Ok(fields[i].value)) {
        NormalizeIdempotent(fields[i].value);
      }
      MapIs(entries);
      StrictIsFixed(each);
      StrictIsFixed(fields);
      CollectOks(each, fields);
    case _ =>
  }

  // ---- The canonical text ----

  /** Two payloads have the same canonical text exactly when their normalised forms are equal. */
  lemma CanonicalTextDecides(v: Value, w: Value)
    requires CanonicalText(v).Ok? && CanonicalText(w).Ok?
    ensures CanonicalText(v) == CanonicalText(w) <==> Normalize(v) == Normalize(w)
  {
    PrintInjective(Normalize(v).value, Normalize(w).value, "", "");
  }

  /** The normal form can be read back from the canonical text. */
  lemma CanonicalTextParses(v: Value)
    requires CanonicalText(v).Ok?
    ensures Parse(CanonicalText(v).value) == Some((Normalize(v).value, ""))
  {
    ParsePrint(Normalize(v).value, "");
  }

  // ---- Key order ----

  /** The same value with the items of its mappings and sets, at every depth, in another order. */
  ghost predicate Reordered(v: Value, w: Value)
    decreases v
  {
    match (v, w)
    case (VList(xs), VList(ys)) => |xs| == |ys| && forall i | 0 <= i < |xs| :: Reordered(xs[i], ys[i])
    case (VMap(xs), VMap(ys)) =>
      SameTags(xs, ys) &&
      forall i, k | 0 <= i < |xs| && 0 <= k < |ys| && xs[i].tag == ys[k].tag ::
        Reordered(xs[i].value, ys[k].value)
    case (VSet(xs), VSet(ys)) =>
      SameTags(xs, ys) &&
      forall i, k | 0 <= i < |xs| && 0 <= k < |ys| && xs[i].tag == ys[k].tag ::
        Reordered(xs[i].value, ys[k].value)
    case _ => v == w
  }

  /** Both sequences carry the same tags, each once. */
  ghost predicate SameTags<T>(xs: seq<Tagged<T>>, ys: seq<Tagged<T>>) {
    Distinct(xs) && Distinct(ys) && forall t: string :: Find(xs, t).Some? <==> Find(ys, t).Some?
  }

  lemma {:induction false} EachFinds(entries: seq<Tagged<Value>>, tag: string)
    ensures Find(Each(entries), tag) == match Find(entries, tag) case None => None case Some(v) => Some(Normalize(v))
  {
    if entries == [] {
    } else {
      var before := entries[..|entries| - 1];
      EachFinds(before, tag);
      assert Each(entries)[..|entries| - 1] == Each(before);
    }
  }

  /** Normalisation, its errors included, does not depend on the order of keys with distinct string forms. */
  lemma {:induction false} KeyOrderIrrelevant(v: Value, w: Value)
    requires Reordered(v, w)
    ensures Normalize(v) == Normalize(w)
    decreases v, 1
  {
    match (v, w)
    case (VList(xs), VList(ys)) =>
      forall i | 0 <= i < |xs| ensures Normalize(xs[i]) == Normalize(ys[i]) { KeyOrderIrrelevant(xs[i], ys[i]); }
      assert seq(|xs|, i requires 0 <= i < |xs| => Tagged("", Normalize(xs[i]))) ==
             seq(|ys|, i requires 0 <= i < |ys| => Tagged("", Normalize(ys[i])));
    case (VMap(xs), VMap(ys)) =>
      MapIs(xs);
      MapIs(ys);
      ItemOrderIrrelevant(v, xs, ys);
    case (VSet(xs), VSet(ys)) =>
      SetIs(xs);
      SetIs(ys);
      ItemOrderIrrelevant(v, xs, ys);
    case _ =>
  }

  lemma {:induction false} ItemOrderIrrelevant(v: Value, xs: seq<Tagged<Value>>, ys: seq<Tagged<Value>>)
    requires v == VMap(xs) || v == VSet(xs)
    requires SameTags(xs, ys)
    requires forall i, k | 0 <= i < |xs| && 0 <= k < |ys| && xs[i].tag == ys[k].tag ::
             Reordered(xs[i].value, ys[k].value)
    ensures Sort(Each(xs)) == Sort(Each(ys))
    decreases v, 0
  {
    forall t: string ensures Find(Each(xs), t) == Find(Each(ys), t) {
      EachFinds(xs, t);
      EachFinds(ys, t);
      if Find(xs, t).Some? {
        var i := FoundAt(xs, t);
        var k := FoundAt(ys, t);
        KeyOrderIrrelevant(xs[i].value, ys[k].value);
      }
    }
    SortForgetsOrder(Each(xs), Each(ys));
  }

  /** What a key holds after normalisation, against the last item that had it before. */
  ghost predicate Agrees(item: Option<Value>, field: Option<Json>) {
    match item
    case None => field == None
    case Some(v) => field.Some? && Normalize(v) == Ok(field.value)
  }

  /** A normalised mapping holds, under each key's string form, the last item with that form, and nothing else. */
  lemma MapLookup(entries: seq<Tagged<Value>>, tag: string)
    requires Normalize(VMap(entries)).Ok?
    ensures Normalize(VMap(entries)).value.JObj? && StrictlySorted(Normalize(VMap(entries)).value.fields)
    ensures Agrees(Find(entries, tag), Find(Normalize(VMap(entries)).value.fields, tag))
  {
    var sorted := Sort(Each(entries));
    MapIs(entries);
    SortSorts(Each(entries));
    MappedIsSorted(sorted);
    CollapseIsStrict(Collect(sorted).value);
    EachFinds(entries, tag);
    CollectFinds(sorted, tag);
    assert Find(sorted, tag) == Find(Each(entries), tag);
  }

  lemma MapOk(entries: seq<Tagged<Value>>)
    requires forall i | 0 <= i < |entries| :: Normalize(entries[i].value).Ok?
    ensures Normalize(VMap(entries)).Ok?
  {
    MapIs(entries);
    SortElements(Each(entries));
    CollectIs(Sort(Each(entries)));
  }

  /** With equal string forms the order does matter: the later item wins. */
  lemma CollidingKeysDependOnOrder(key: string)
    ensures Normalize(VMap([Tagged(key, VNull), Tagged(key, VBool(true))])) !=
            Normalize(VMap([Tagged(key, VBool(true)), Tagged(key, VNull)]))
  {
    var a, b := [Tagged(key, VNull), Tagged(key, VBool(true))], [Tagged(key, VBool(true)), Tagged(key, VNull)];
    MapOk(a);
    MapOk(b);
    MapLookup(a, key);
    MapLookup(b, key);
  }

  /** What a mapping holds under a string form once normalised: the last item with that form decides. */
  function NormAt(entries: seq<Tagged<Value>>, tag: string): Option<Result<Json>> {
    match Find(entries, tag)
    case None => None
    case Some(v) => Some(Normalize(v))
  }

  /** Two mappings normalise to the same object if and only if they hold the same under every string form. */
  lemma SameObjectExactly(xs: seq<Tagged<Value>>, ys: seq<Tagged<Value>>)
    requires Normalize(VMap(xs)).Ok? && Normalize(VMap(ys)).Ok?
    ensures Normalize(VMap(xs)) == Normalize(VMap(ys)) <==> forall t: string :: NormAt(xs, t) == NormAt(ys, t)
  {
    var fs := FieldsOf(xs);
    var gs := FieldsOf(ys);
    if forall t: string :: NormAt(xs, t) == NormAt(ys, t) {
      forall t: string ensures Find(fs, t) == Find(gs, t) { assert NormAt(xs, t) == NormAt(ys, t); }
      SortedDetermined(fs, gs);
    }
  }

  /** The fields of a normalised mapping, with what each holds. */
  lemma FieldsOf(entries: seq<Tagged<Value>>) returns (fields: seq<Tagged<Json>>)
    requires Normalize(VMap(entries)).Ok?
    ensures Normalize(VMap(entries)) == Ok(JObj(fields)) && StrictlySorted(fields)
    ensures forall t: string ::
              NormAt(entries, t) == match Find(fields, t) case None => None case Some(j) => Some(Ok(j))
  {
    MapLookup(entries, "");
    fields := Normalize(VMap(entries)).value.fields;
    forall t: string
      ensures NormAt(entries, t) == match Find(fields, t) case None => None case Some(j) => Some(Ok(j))
    {
      MapLookup(entries, t);
    }
  }

  ghost predicate Permuted(xs: seq<Tagged<Value>>, ys: seq<Tagged<Value>>) {
    multiset(xs) == multiset(ys)
  }

  /** Items that share a string form share a normal form. */
  ghost predicate Agreeing(entries: seq<Tagged<Value>>) {
    forall i, k | 0 <= i < |entries| && 0 <= k < |entries| && entries[i].tag == entries[k].tag ::
      Normalize(entries[i].value) == Normalize(entries[k].value)
  }

  ghost predicate AllNormalize(entries: seq<Tagged<Value>>) {
    forall i | 0 <= i < |entries| :: Normalize(entries[i].value).Ok?
  }

  lemma PermutedItem(xs: seq<Tagged<Value>>, ys: seq<Tagged<Value>>, k: nat) returns (i: nat)
    requires Permuted(xs, ys) && k < |ys|
    ensures i < |xs| && xs[i] == ys[k]
  {
    assert ys[k] in multiset(ys);
    assert ys[k] in multiset(xs);
    i :| 0 <= i < |xs| && xs[i] == ys[k];
  }

  lemma PermutedNormalizes(xs: seq<Tagged<Value>>, ys: seq<Tagged<Value>>)
    requires Permuted(xs, ys) && AllNormalize(xs)
    ensures Normalize(VMap(ys)).Ok?
  {
    forall k | 0 <= k < |ys| ensures Normalize(ys[k].value).Ok? { var i := PermutedItem(xs, ys, k); }
    MapOk(ys);
  }

  lemma AgreeingAt(xs: seq<Tagged<Value>>, ys: seq<Tagged<Value>>, tag: string)
    requires Permuted(xs, ys) && Agreeing(xs)
    ensures NormAt(xs, tag) == NormAt(ys, tag)
  {
    if Find(xs, tag).Some? {
      var i := FoundAt(xs, tag);
      var k := PermutedItem(ys, xs, i);
      FindAt(ys, k);
    }
    if Find(ys, tag).Some? {
      var k := FoundAt(ys, tag);
      var i := PermutedItem(xs, ys, k);
      FindAt(xs, i);
      var j := FoundAt(xs, tag);
    }
  }

  /** The items with the i-th moved to the end. */
  function MovedLast(xs: seq<Tagged<Value>>, i: nat): seq<Tagged<Value>>
    requires i < |xs|
  {
    xs[..i] + xs[i + 1..] + [xs[i]]
  }

  lemma MovedLastIs(xs: seq<Tagged<Value>>, i: nat)
    requires i < |xs|
    ensures Permuted(xs, MovedLast(xs, i)) && NormAt(MovedLast(xs, i), xs[i].tag) == Some(Normalize(xs[i].value))
  {
    assert xs == xs[..i] + [xs[i]] + xs[i + 1..];
  }

  /** Every order of the items gives the same object. */
  ghost predicate OrderFree(xs: seq<Tagged<Value>>) {
    forall ys: seq<Tagged<Value>> | Permuted(xs, ys) :: Normalize(VMap(ys)) == Normalize(VMap(xs))
  }

  lemma AgreeingOrderFree(xs: seq<Tagged<Value>>, ys: seq<Tagged<Value>>)
    requires AllNormalize(xs) && Agreeing(xs) && Permuted(xs, ys)
    ensures Normalize(VMap(ys)) == Normalize(VMap(xs))
  {
    PermutedNormalizes(xs, xs);
    PermutedNormalizes(xs, ys);
    forall t: string ensures NormAt(xs, t) == NormAt(ys, t) { AgreeingAt(xs, ys, t); }
    SameObjectExactly(xs, ys);
  }

  lemma OrderFreeAgrees(xs: seq<Tagged<Value>>, i: nat, k: nat)
    requires AllNormalize(xs) && OrderFree(xs) && i < |xs| && k < |xs| && xs[i].tag == xs[k].tag
    ensures Normalize(xs[i].value) == Normalize(xs[k].value)
  {
    var ys, zs := MovedLast(xs, i), MovedLast(xs, k);
    MovedLastIs(xs, i);
    MovedLastIs(xs, k);
    PermutedNormalizes(xs, ys);
    PermutedNormalizes(xs, zs);
    assert Normalize(VMap(ys)) == Normalize(VMap(xs)) && Normalize(VMap(zs)) == Normalize(VMap(xs));
    SameObjectExactly(ys, zs);
  }

  // ---- Errors and key order ----

  /** Item i is refused, and no refused item has a lower string form. */
  ghost predicate LowestRefused(xs: seq<Tagged<Value>>, i: int) {
    && 0 <= i < |xs| && Normalize(xs[i].value).Err?
    && forall k | 0 <= k < |xs| && Normalize(xs[k].value).Err? :: !Below(xs[k].tag, xs[i].tag)
  }

  /** The refused items with the lowest string form are refused for one reason. */
  ghost predicate ErrorsAgree(xs: seq<Tagged<Value>>) {
    forall i, k | LowestRefused(xs, i) && LowestRefused(xs, k) :: Normalize(xs[i].value) == Normalize(xs[k].value)
  }

  lemma {:induction false} FirstErrorAt(xs: seq<Tagged<Result<Json>>>) returns (p: nat)
    requires Collect(xs).Err?
    ensures p < |xs| && xs[p].value == Err(Collect(xs).reason) && forall k | 0 <= k < p :: xs[k].value.Ok?
  {
    var before := xs[..|xs| - 1];
    if Collect(before).Err? {
      p := FirstErrorAt(before);
    } else {
      p := |xs| - 1;
      CollectIs(before);
    }
  }

  /** The first error of sorted items is one with the lowest tag. */
  lemma LowestError(each: seq<Tagged<Result<Json>>>, bad: Tagged<Result<Json>>) returns (p: nat)
    requires bad in each && bad.value.Err?
    ensures var sorted := Sort(each);
            && p < |sorted| && sorted[p] in each && sorted[p].value.Err?
            && Mapped(sorted) == Err(sorted[p].value.reason)
            && (forall k | 0 <= k < p :: sorted[k].value.Ok?)
            && (forall e | e in each && e.value.Err? :: !Below(e.tag, sorted[p].tag))
  {
    var sorted := Sort(each);
    SortSorts(each);
    SortElements(each);
    SortContains(each, bad);
    CollectIs(sorted);
    p := FirstErrorAt(sorted);
    forall e | e in each && e.value.Err? ensures !Below(e.tag, sorted[p].tag) {
      SortContains(each, e);
      LowestOf(sorted, p, e);
    }
  }

  /** Where the first error of a mapping with a refused item is, among its sorted items and among its own. */
  lemma ErrorPosition(xs: seq<Tagged<Value>>) returns (p: nat, i: nat)
    requires !AllNormalize(xs)
    ensures var sorted := Sort(Each(xs));
            && p < |sorted| && i < |xs| && sorted[p] == Each(xs)[i] && LowestRefused(xs, i)
            && Normalize(VMap(xs)) == Normalize(xs[i].value)
            && forall k | 0 <= k < p :: sorted[k].value.Ok?
  {
    var each := Each(xs);
    var bad := RefusedItem(xs);
    p := LowestError(each, each[bad]);
    i := ItemAt(each, Sort(each)[p]);
    LowestInEach(xs, i);
    ErrorIs(xs, Sort(each)[p], i);
  }

  lemma ItemAt(each: seq<Tagged<Result<Json>>>, item: Tagged<Result<Json>>) returns (i: nat)
    requires item in each
    ensures i < |each| && each[i] == item
  {
    i :| 0 <= i < |each| && each[i] == item;
  }

  lemma ErrorIs(xs: seq<Tagged<Value>>, item: Tagged<Result<Json>>, i: nat)
    requires i < |xs|
    ensures Each(xs)[i] == item && item.value.Err? && Mapped(Sort(Each(xs))) == Err(item.value.reason) ==>
              Normalize(VMap(xs)) == Normalize(xs[i].value)
  {
    MapIs(xs);
  }

  lemma RefusedItem(xs: seq<Tagged<Value>>) returns (i: nat)
    requires !AllNormalize(xs)
    ensures i < |xs| && Each(xs)[i] in Each(xs) && Each(xs)[i].value.Err?
  {
    i :| 0 <= i < |xs| && Normalize(xs[i].value).Err?;
  }

  lemma LowestInEach(xs: seq<Tagged<Value>>, i: nat)
    requires i < |xs| && Each(xs)[i].value.Err?
    requires forall e | e in Each(xs) && e.value.Err? :: !Below(e.tag, Each(xs)[i].tag)
    ensures LowestRefused(xs, i)
  {
    forall k | 0 <= k < |xs| && Normalize(xs[k].value).Err? ensures !Below(xs[k].tag, xs[i].tag) {
      assert Each(xs)[k] in Each(xs);
    }
  }

  lemma LowestOf(sorted: seq<Tagged<Result<Json>>>, p: nat, bad: Tagged<Result<Json>>)
    requires Sorted(sorted) && p < |sorted| && bad in sorted && bad.value.Err?
    requires forall k | 0 <= k < p :: sorted[k].value.Ok?
    ensures !Below(bad.tag, sorted[p].tag)
  {
    var q :| 0 <= q < |sorted| && sorted[q] == bad;
    BelowTrichotomy(bad.tag, bad.tag);
  }

  lemma PermutedLowest(xs: seq<Tagged<Value>>, ys: seq<Tagged<Value>>, k: nat) returns (i: nat)
    requires Permuted(xs, ys) && LowestRefused(ys, k)
    ensures LowestRefused(xs, i) && xs[i] == ys[k]
  {
    i := PermutedItem(xs, ys, k);
    forall j | 0 <= j < |xs| && Normalize(xs[j].value).Err? ensures !Below(xs[j].tag, xs[i].tag) {
      var l := PermutedItem(ys, xs, j);
    }
  }

  lemma ErrorsAgreeOrderFree(xs: seq<Tagged<Value>>, ys: seq<Tagged<Value>>)
    requires !AllNormalize(xs) && ErrorsAgree(xs) && Permuted(xs, ys)
    ensures Normalize(VMap(ys)) == Normalize(VMap(xs))
  {
    var p, i := ErrorPosition(xs);
    var l := PermutedItem(ys, xs, i);
    var q, k := ErrorPosition(ys);
    var j := PermutedLowest(xs, ys, k);
  }

  /** The items with the i-th moved to the front. */
  function MovedFirst(xs: seq<Tagged<Value>>, i: nat): seq<Tagged<Value>>
    requires i < |xs|
  {
    [xs[i]] + (xs[..i] + xs[i + 1..])
  }

  lemma FrontPermuted(xs: seq<Tagged<Value>>, i: nat)
    requires i < |xs|
    ensures Permuted(xs, MovedFirst(xs, i)) && MovedFirst(xs, i)[0] == xs[i]
    ensures Normalize(xs[i].value).Err? ==> !AllNormalize(MovedFirst(xs, i))
  {
    assert xs == xs[..i] + [xs[i]] + xs[i + 1..];
  }

  /** A lowest refused item that comes first gives the error. */
  lemma FrontErrorWins(xs: seq<Tagged<Value>>, i: nat)
    requires LowestRefused(xs, i)
    ensures Permuted(xs, MovedFirst(xs, i)) && Normalize(VMap(MovedFirst(xs, i))) == Normalize(xs[i].value)
  {
    var ys := MovedFirst(xs, i);
    FrontPermuted(xs, i);
    var p, k := ErrorPosition(ys);
    var j := PermutedLowest(xs, ys, k);
    BelowTrichotomy(xs[j].tag, xs[i].tag);
    FirstOfEach(ys);
    var sorted := Sort(Each(ys));
    SortFirst(Each(ys), xs[i].tag);
    FirstIsError(sorted, p, xs[i].tag);
  }

  lemma FirstIsError(sorted: seq<Tagged<Result<Json>>>, p: nat, tag: string)
    requires p < |sorted| && sorted[p].tag == tag && forall k | 0 <= k < p :: sorted[k].value.Ok?
    requires First(sorted, tag).Some? && First(sorted, tag).value.Err?
    ensures sorted[p].value == First(sorted, tag).value
  {
    var f := FirstFound(sorted, tag);
    assert f == p;
  }

  lemma FirstOfEach(ys: seq<Tagged<Value>>)
    requires ys != []
    ensures First(Each(ys), ys[0].tag) == Some(Normalize(ys[0].value))
  {
    var each := Each(ys);
    assert each == [each[0]] + each[1..];
    FirstOfHead(each[0], each[1..]);
  }

  lemma OrderFreeErrorsAgree(xs: seq<Tagged<Value>>, i: nat, k: nat)
    requires OrderFree(xs) && LowestRefused(xs, i) && LowestRefused(xs, k)
    ensures Normalize(xs[i].value) == Normalize(xs[k].value)
  {
    FrontErrorWins(xs, i);
    FrontErrorWins(xs, k);
    assert Normalize(VMap(MovedFirst(xs, i))) == Normalize(VMap(xs));
    assert Normalize(VMap(MovedFirst(xs, k))) == Normalize(VMap(xs));
  }

  /**
   Exactly when the order of a mapping's items does not matter. If every item normalises: items that share
   a string form share a normal form. If not: the refused items with the lowest string form are refused
   for one reason.
   */
  lemma OrderFreeExactly(xs: seq<Tagged<Value>>)
    ensures OrderFree(xs) <==> if AllNormalize(xs) then Agreeing(xs) else ErrorsAgree(xs)
  {
    if AllNormalize(xs) {
      OrderFreeWhenOk(xs);
    } else {
      OrderFreeWhenRefused(xs);
    }
  }

  lemma OrderFreeWhenOk(xs: seq<Tagged<Value>>)
    requires AllNormalize(xs)
    ensures OrderFree(xs) <==> Agreeing(xs)
  {
    if Agreeing(xs) {
      forall ys: seq<Tagged<Value>> | Permuted(xs, ys) ensures Normalize(VMap(ys)) == Normalize(VMap(xs)) {
        AgreeingOrderFree(xs, ys);
      }
    }
    if OrderFree(xs) {
      forall i, k | 0 <= i < |xs| && 0 <= k < |xs| && xs[i].tag == xs[k].tag
        ensures Normalize(xs[i].value) == Normalize(xs[k].value)
      {
        OrderFreeAgrees(xs, i, k);
      }
    }
  }

  lemma OrderFreeWhenRefused(xs: seq<Tagged<Value>>)
    requires !AllNormalize(xs)
    ensures OrderFree(xs) <==> ErrorsAgree(xs)
  {
    if ErrorsAgree(xs) {
      forall ys: seq<Tagged<Value>> | Permuted(xs, ys) ensures Normalize(VMap(ys)) == Normalize(VMap(xs)) {
        ErrorsAgreeOrderFree(xs, ys);
      }
    }
    if OrderFree(xs) {
      forall i, k | LowestRefused(xs, i) && LowestRefused(xs, k)
        ensures Normalize(xs[i].value) == Normalize(xs[k].value)
      {
        OrderFreeErrorsAgree(xs, i, k);
      }
    }
  }

  // ---- The manifest builder ----

  const KIND := "manifest_kind"
  const HASH := "manifest_hash"
  const SCHEMA := "schema_version"

  predicate Blank(v: Value) {
    v == VNull || v == VStr("")
  }

  /** A required key that is absent, None or the empty string. */
  predicate Missing(payload: seq<Tagged<Value>>, key: string) {
    match Find(payload, key)
    case None => true
    case Some(v) => Blank(v)
  }

  /** The payload with its kind set and the schema version filled in. */
  function Labelled(kind: Text, payload: seq<Tagged<Value>>): seq<Tagged<Value>> {
    var result := Put(payload, KIND, VStr(kind));
    if Find(result, SCHEMA).Some? then result else Put(result, SCHEMA, VStr("2"))
  }

  function ManifestHash(hash: string -> Text, v: Value): Result<Text> {
    match CanonicalText(v)
    case Ok(text) => Ok(hash(text))
    case Err(e) => Err(e)
  }

  function BuildManifest(hash: string -> Text, kind: Text, payload: seq<Tagged<Value>>,
                         required: seq<string>): Result<Json> {
    if exists key | key in required :: Missing(payload, key) then Err(kind + " manifest is missing required fields")
    else Sealed(hash, Labelled(kind, payload))
  }

  /** The result with the hash of everything else put in. */
  function Sealed(hash: string -> Text, result: seq<Tagged<Value>>): Result<Json> {
    match ManifestHash(hash, VMap(Without(result, HASH)))
    case Err(e) => Err(e)
    case Ok(h) => Normalize(VMap(Put(result, HASH, VStr(h))))
  }

  const EXPERIMENT_REQUIRED: seq<string> := [
    "code_sha", "dataset_fingerprint", "feature_pipeline_version", "train_window", "oot_window", "seed", "model_params",
    "strategy_params", "backtest_params"]

  const DEPLOYMENT_REQUIRED: seq<string> := ["models", "strategy", "risk_policy", "execution_policy"]

  function BuildExperimentManifest(hash: string -> Text, payload: seq<Tagged<Value>>): Result<Json> {
    BuildManifest(hash, "experiment", payload, EXPERIMENT_REQUIRED)
  }

  function BuildDeploymentManifest(hash: string -> Text, payload: seq<Tagged<Value>>): Result<Json> {
    BuildManifest(hash, "deployment", payload, DEPLOYMENT_REQUIRED)
  }

  lemma LabelledFinds(kind: Text, payload: seq<Tagged<Value>>, tag: string)
    ensures Find(Labelled(kind, payload), tag) ==
            if tag == KIND then Some(VStr(kind))
            else if tag == SCHEMA && Find(payload, SCHEMA).None? then Some(VStr("2"))
            else Find(payload, tag)
  {
    PutFinds(payload, KIND, VStr(kind), tag);
    PutFinds(payload, KIND, VStr(kind), SCHEMA);
    PutFinds(Put(payload, KIND, VStr(kind)), SCHEMA, VStr("2"), tag);
  }

  lemma LabelledDistinct(kind: Text, payload: seq<Tagged<Value>>)
    requires Distinct(payload)
    ensures Distinct(Labelled(kind, payload))
  {
    PutDistinct(payload, KIND, VStr(kind));
    PutDistinct(Put(payload, KIND, VStr(kind)), SCHEMA, VStr("2"));
  }

  /** Distinctly keyed mappings that look up the same normalise the same. */
  lemma SameLookupNormalizesSame(xs: seq<Tagged<Value>>, ys: seq<Tagged<Value>>)
    requires Distinct(xs) && Distinct(ys) && SameLookup(xs, ys)
    ensures Normalize(VMap(xs)) == Normalize(VMap(ys))
  {
    forall t: string ensures Find(Each(xs), t) == Find(Each(ys), t) {
      EachFinds(xs, t);
      EachFinds(ys, t);
    }
    MapIs(xs);
    MapIs(ys);
    SortForgetsOrder(Each(xs), Each(ys));
  }

  /** Mappings that differ at most in their hash normalise the same without it, and with the same hash put in. */
  lemma HashAside(xs: seq<Tagged<Value>>, ys: seq<Tagged<Value>>, h: Value)
    requires Distinct(xs) && Distinct(ys)
    requires forall t: string | t != HASH :: Find(xs, t) == Find(ys, t)
    ensures Normalize(VMap(Without(xs, HASH))) == Normalize(VMap(Without(ys, HASH)))
    ensures Normalize(VMap(Put(xs, HASH, h))) == Normalize(VMap(Put(ys, HASH, h)))
  {
    var xs', ys', xs1, ys1 := Without(xs, HASH), Without(ys, HASH), Put(xs, HASH, h), Put(ys, HASH, h);
    WithoutDistinct(xs, HASH);
    WithoutDistinct(ys, HASH);
    PutDistinct(xs, HASH, h);
    PutDistinct(ys, HASH, h);
    forall t: string ensures Find(xs', t) == Find(ys', t) && Find(xs1, t) == Find(ys1, t) {
      WithoutFinds(xs, HASH, t);
      WithoutFinds(ys, HASH, t);
      PutFinds(xs, HASH, h, t);
      PutFinds(ys, HASH, h, t);
    }
    SameLookupNormalizesSame(xs', ys');
    SameLookupNormalizesSame(xs1, ys1);
  }

  lemma SealedSame(hash: string -> Text, xs: seq<Tagged<Value>>, ys: seq<Tagged<Value>>)
    requires Distinct(xs) && Distinct(ys)
    requires forall t: string | t != HASH :: Find(xs, t) == Find(ys, t)
    ensures Sealed(hash, xs) == Sealed(hash, ys)
  {
    var h := ManifestHash(hash, VMap(Without(xs, HASH)));
    HashAside(xs, ys, if h.Ok? then VStr(h.value) else VNull);
  }

  /** A hash supplied by the caller never influences the manifest, and neither does the order of the payload. */
  lemma CallerHashIrrelevant(hash: string -> Text, kind: Text, p: seq<Tagged<Value>>, q: seq<Tagged<Value>>,
                             required: seq<string>)
    requires Distinct(p) && Distinct(q) && (HASH in required ==> (Missing(p, HASH) <==> Missing(q, HASH)))
    requires forall t: string | t != HASH :: Find(p, t) == Find(q, t)
    ensures BuildManifest(hash, kind, p, required) == BuildManifest(hash, kind, q, required)
  {
    var p', q' := Labelled(kind, p), Labelled(kind, q);
    LabelledDistinct(kind, p);
    LabelledDistinct(kind, q);
    forall t: string | t != HASH ensures Find(p', t) == Find(q', t) {
      LabelledFinds(kind, p, t);
      LabelledFinds(kind, q, t);
    }
    SealedSame(hash, p', q');
    assert forall key | key in required :: Missing(p, key) <==> Missing(q, key);
  }

  lemma HashDropped(hash: string -> Text, kind: Text, payload: seq<Tagged<Value>>, required: seq<string>)
    requires Distinct(payload) && HASH !in required
    ensures BuildManifest(hash, kind, payload, required) == BuildManifest(hash, kind, Without(payload, HASH), required)
  {
    var q := Without(payload, HASH);
    WithoutDistinct(payload, HASH);
    forall t: string | t != HASH ensures Find(payload, t) == Find(q, t) { WithoutFinds(payload, HASH, t); }
    CallerHashIrrelevant(hash, kind, payload, q, required);
  }

  lemma HashNotRequired()
    ensures HASH !in EXPERIMENT_REQUIRED && HASH !in DEPLOYMENT_REQUIRED
  {
    forall key | key in EXPERIMENT_REQUIRED + DEPLOYMENT_REQUIRED ensures key != HASH {
      assert |HASH| == 13 && HASH[0] == 'm' && HASH[1] == 'a';
    }
  }

  lemma ExperimentDropsHash(hash: string -> Text, payload: seq<Tagged<Value>>)
    requires Distinct(payload)
    ensures BuildExperimentManifest(hash, payload) == BuildExperimentManifest(hash, Without(payload, HASH))
  {
    HashNotRequired();
    HashDropped(hash, "experiment", payload, EXPERIMENT_REQUIRED);
  }

  lemma DeploymentDropsHash(hash: string -> Text, payload: seq<Tagged<Value>>)
    requires Distinct(payload)
    ensures BuildDeploymentManifest(hash, payload) == BuildDeploymentManifest(hash, Without(payload, HASH))
  {
    HashNotRequired();
    HashDropped(hash, "deployment", payload, DEPLOYMENT_REQUIRED);
  }

  /** Neither builder looks at a hash in the payload. */
  lemma BuildersIgnoreCallerHash(hash: string -> Text, payload: seq<Tagged<Value>>)
    requires Distinct(payload)
    ensures BuildExperimentManifest(hash, payload) == BuildExperimentManifest(hash, Without(payload, HASH))
    ensures BuildDeploymentManifest(hash, payload) == BuildDeploymentManifest(hash, Without(payload, HASH))
  {
    ExperimentDropsHash(hash, payload);
    DeploymentDropsHash(hash, payload);
  }

  /** The fields of a mapping normalised without its hash are those of the mapping with a hash, less that hash. */
  lemma BareFields(result: seq<Tagged<Value>>, h: Text, without: seq<Tagged<Json>>, fields: seq<Tagged<Json>>)
    requires Normalize(VMap(Without(result, HASH))) == Ok(JObj(without)) && StrictlySorted(without)
    requires Normalize(VMap(Put(result, HASH, VStr(h)))) == Ok(JObj(fields)) && StrictlySorted(fields)
    ensures without == Without(fields, HASH)
  {
    var less := Without(fields, HASH);
    forall t: string ensures Find(without, t) == Find(less, t) { FieldLookup(result, h, t, without, fields); }
    WithoutStrict(fields, HASH);
    SortedDetermined(without, less);
  }

  /** A mapping that normalises to an object is sorted into its fields. */
  lemma MapFields(entries: seq<Tagged<Value>>) returns (fields: seq<Tagged<Json>>)
    requires Normalize(VMap(entries)).Ok?
    ensures Normalize(VMap(entries)) == Ok(JObj(fields)) && Normal(JObj(fields))
  {
    MapLookup(entries, "");
    NormalizeIsNormal(VMap(entries));
    fields := Normalize(VMap(entries)).value.fields;
  }

  lemma HashField(result: seq<Tagged<Value>>, h: Text, fields: seq<Tagged<Json>>)
    requires Normalize(VMap(Put(result, HASH, VStr(h)))) == Ok(JObj(fields))
    ensures Find(fields, HASH) == Some(JStr(h))
  {
    MapLookup(Put(result, HASH, VStr(h)), HASH);
    PutFinds(result, HASH, VStr(h), HASH);
  }

  /** The fields agree with the mapping everywhere but at the hash. */
  ghost predicate AgreeAside(result: seq<Tagged<Value>>, fields: seq<Tagged<Json>>) {
    forall t: string | t != HASH :: Agrees(Find(result, t), Find(fields, t))
  }

  /** A mapping normalised with its hash put in, against the same mapping normalised without it. */
  lemma SealedParts(result: seq<Tagged<Value>>, h: Text) returns (fields: seq<Tagged<Json>>)
    requires Normalize(VMap(Without(result, HASH))).Ok? && Normalize(VMap(Put(result, HASH, VStr(h)))).Ok?
    ensures Normalize(VMap(Put(result, HASH, VStr(h)))) == Ok(JObj(fields)) && Normal(JObj(fields))
    ensures Normalize(VMap(Without(result, HASH))) == Ok(JObj(Without(fields, HASH)))
    ensures AgreeAside(result, fields) && Find(fields, HASH) == Some(JStr(h))
  {
    var without := MapFields(Without(result, HASH));
    fields := MapFields(Put(result, HASH, VStr(h)));
    BareFields(result, h, without, fields);
    HashField(result, h, fields);
    forall t: string | t != HASH ensures Agrees(Find(result, t), Find(fields, t)) {
      FieldLookup(result, h, t, without, fields);
    }
  }

  /** A stored hash that is the hash of the other fields' canonical text. */
  ghost predicate HashFits(hash: string -> Text, fields: seq<Tagged<Json>>, h: Text) {
    Find(fields, HASH) == Some(JStr(h)) && h == hash(Dumps(JObj(Without(fields, HASH))))
  }

  lemma SealedFits(hash: string -> Text, result: seq<Tagged<Value>>) returns (h: Text, fields: seq<Tagged<Json>>)
    requires Sealed(hash, result).Ok?
    ensures Sealed(hash, result) == Ok(JObj(fields)) && Normal(JObj(fields))
    ensures HashFits(hash, fields, h) && AgreeAside(result, fields)
  {
    h := ManifestHash(hash, VMap(Without(result, HASH))).value;
    fields := SealedParts(result, h);
  }

  lemma FieldLookup(
    result: seq<Tagged<Value>>, h: Text, tag: string, without: seq<Tagged<Json>>, fields: seq<Tagged<Json>>)
    requires Normalize(VMap(Without(result, HASH))) == Ok(JObj(without))
    requires Normalize(VMap(Put(result, HASH, VStr(h)))) == Ok(JObj(fields))
    ensures Find(without, tag) == Find(Without(fields, HASH), tag)
    ensures tag != HASH ==> Agrees(Find(result, tag), Find(fields, tag))
  {
    MapLookup(Without(result, HASH), tag);
    MapLookup(Put(result, HASH, VStr(h)), tag);
    WithoutFinds(result, HASH, tag);
    PutFinds(result, HASH, VStr(h), tag);
    WithoutFinds(fields, HASH, tag);
  }

  lemma {:induction false} WithoutNormal(fields: seq<Tagged<Json>>, tag: string)
    requires Normal(JObj(fields))
    ensures Normal(JObj(Without(fields, tag)))
  {
    WithoutStrict(fields, tag);
    WithoutElements(fields, tag);
  }

  lemma {:induction false} WithoutElements(fields: seq<Tagged<Json>>, tag: string)
    ensures forall i | 0 <= i < |Without(fields, tag)| :: Without(fields, tag)[i] in fields
  {
    if fields == [] {
    } else {
      WithoutElements(fields[..|fields| - 1], tag);
    }
  }

  /** A manifest without its hash field hashes to the hash it stores. */
  lemma ManifestSelfVerifies(hash: string -> Text, kind: Text, payload: seq<Tagged<Value>>, required: seq<string>)
    returns (fields: seq<Tagged<Json>>, h: Text)
    ensures BuildManifest(hash, kind, payload, required).Ok? ==>
              && BuildManifest(hash, kind, payload, required) == Ok(JObj(fields))
              && Find(fields, HASH) == Some(JStr(h))
              && ManifestHash(hash, Embed(JObj(Without(fields, HASH)))) == Ok(h)
  {
    h, fields := "0", [];
    if BuildManifest(hash, kind, payload, required).Ok? {
      h, fields := SealedFits(hash, Labelled(kind, payload));
      WithoutNormal(fields, HASH);
      NormalizeIdempotent(JObj(Without(fields, HASH)));
    }
  }

  lemma {:induction false} EmbedFinds(fields: seq<Tagged<Json>>, tag: string)
    ensures Find(Embed(JObj(fields)).entries, tag) ==
            match Find(fields, tag) case None => None case Some(j) => Some(Embed(j))
  {
    if fields == [] {
    } else {
      var before := fields[..|fields| - 1];
      EmbedFinds(before, tag);
      var entries := EmbeddedFields(fields);
      var entries' := EmbeddedFields(before);
      assert entries[..|fields| - 1] == entries';
    }
  }

  lemma EmbedDistinct(fields: seq<Tagged<Json>>)
    requires StrictlySorted(fields)
    ensures Distinct(Embed(JObj(fields)).entries)
  {
    StrictIsSortedDistinct(fields);
    var entries := EmbeddedFields(fields);
  }

  /** The fields of a manifest read back as the items of a payload. */
  ghost predicate ReadBack(fields: seq<Tagged<Json>>, entries: seq<Tagged<Value>>) {
    && Distinct(entries)
    && forall t: string ::
         Find(entries, t) == match Find(fields, t) case None => None case Some(j) => Some(Embed(j))
  }

  lemma ReadItems(fields: seq<Tagged<Json>>) returns (entries: seq<Tagged<Value>>)
    requires Normal(JObj(fields))
    ensures Embed(JObj(fields)) == VMap(entries) && ReadBack(fields, entries)
    ensures Normalize(VMap(entries)) == Ok(JObj(fields))
  {
    entries := EmbeddedFields(fields);
    EmbedDistinct(fields);
    forall t: string
      ensures Find(entries, t) == match Find(fields, t) case None => None case Some(j) => Some(Embed(j))
    {
      EmbedFinds(fields, t);
    }
    NormalizeIdempotent(JObj(fields));
  }

  /** Dropping the hash before or after reading a manifest back as a payload makes no difference to its normal form. */
  lemma ReadWithout(fields: seq<Tagged<Json>>, entries: seq<Tagged<Value>>)
    requires Normal(JObj(fields)) && ReadBack(fields, entries)
    ensures Normalize(VMap(Without(entries, HASH))) == Ok(JObj(Without(fields, HASH)))
  {
    WithoutNormal(fields, HASH);
    var ys := ReadItems(Without(fields, HASH));
    var xs := Without(entries, HASH);
    WithoutDistinct(entries, HASH);
    forall t: string ensures Find(xs, t) == Find(ys, t) {
      WithoutFinds(entries, HASH, t);
      WithoutFinds(fields, HASH, t);
    }
    SameLookupNormalizesSame(xs, ys);
  }

  lemma NeverBlanked(v: Value, j: Json)
    requires Normalize(v) == Ok(j) && !Blank(v)
    ensures !Blank(Embed(j))
  {
  }

  lemma LabelledFilled(kind: Text, payload: seq<Tagged<Value>>, key: string)
    requires !Missing(payload, key)
    ensures !Missing(Labelled(kind, payload), key)
  {
    LabelledFinds(kind, payload, key);
  }

  /** A required key stays filled in the manifest. */
  lemma StaysFilled(kind: Text, payload: seq<Tagged<Value>>, fields: seq<Tagged<Json>>, entries: seq<Tagged<Value>>,
                    key: string)
    requires AgreeAside(Labelled(kind, payload), fields) && ReadBack(fields, entries)
    requires !Missing(payload, key) && key != HASH
    ensures !Missing(entries, key)
  {
    LabelledFilled(kind, payload, key);
    var item, field := Find(Labelled(kind, payload), key), Find(fields, key);
    assert Agrees(item, field);
    NeverBlanked(item.value, field.value);
  }

  lemma LabelledFixed(kind: Text, entries: seq<Tagged<Value>>)
    requires Distinct(entries) && Find(entries, KIND) == Some(VStr(kind)) && Find(entries, SCHEMA).Some?
    ensures Labelled(kind, entries) == entries
  {
    PutSame(entries, KIND, VStr(kind));
  }

  lemma Labels(kind: Text, payload: seq<Tagged<Value>>)
    ensures Find(Labelled(kind, payload), KIND) == Some(VStr(kind)) && Find(Labelled(kind, payload), SCHEMA).Some?
  {
    LabelledFinds(kind, payload, KIND);
    LabelledFinds(kind, payload, SCHEMA);
  }

  lemma LabelledAlready(kind: Text, result: seq<Tagged<Value>>, fields: seq<Tagged<Json>>, entries: seq<Tagged<Value>>)
    requires AgreeAside(result, fields) && ReadBack(fields, entries)
    requires Find(result, KIND) == Some(VStr(kind)) && Find(result, SCHEMA).Some?
    ensures Labelled(kind, entries) == entries
  {
    assert Agrees(Find(result, KIND), Find(fields, KIND));
    assert Agrees(Find(result, SCHEMA), Find(fields, SCHEMA));
    LabelledFixed(kind, entries);
  }

  lemma ReadHash(hash: string -> Text, fields: seq<Tagged<Json>>, h: Text, entries: seq<Tagged<Value>>)
    requires Normal(JObj(fields)) && HashFits(hash, fields, h) && ReadBack(fields, entries)
    ensures ManifestHash(hash, VMap(Without(entries, HASH))) == Ok(h)
  {
    ReadWithout(fields, entries);
  }

  /** Sealing a mapping that already carries the right hash. */
  lemma SealedAlready(hash: string -> Text, fields: seq<Tagged<Json>>, h: Text, entries: seq<Tagged<Value>>)
    requires Normal(JObj(fields)) && HashFits(hash, fields, h) && ReadBack(fields, entries)
    ensures Sealed(hash, entries) == Normalize(VMap(entries))
  {
    ReadHash(hash, fields, h, entries);
    assert Find(entries, HASH) == Some(VStr(h));
    PutSame(entries, HASH, VStr(h));
  }

  lemma AllFilled(
    kind: Text, payload: seq<Tagged<Value>>, required: seq<string>, fields: seq<Tagged<Json>>,
    entries: seq<Tagged<Value>>)
    requires AgreeAside(Labelled(kind, payload), fields) && ReadBack(fields, entries) && !Missing(entries, HASH)
    requires forall key | key in required :: !Missing(payload, key)
    ensures forall key | key in required :: !Missing(entries, key)
  {
    forall key | key in required && key != HASH ensures !Missing(entries, key) {
      StaysFilled(kind, payload, fields, entries, key);
    }
  }

  lemma BuildOfLabelled(hash: string -> Text, kind: Text, entries: seq<Tagged<Value>>, required: seq<string>)
    requires Labelled(kind, entries) == entries && forall key | key in required :: !Missing(entries, key)
    ensures BuildManifest(hash, kind, entries, required) == Sealed(hash, entries)
  {
  }

  lemma BuildPasses(hash: string -> Text, kind: Text, payload: seq<Tagged<Value>>, required: seq<string>)
    ensures BuildManifest(hash, kind, payload, required).Ok? ==>
              && BuildManifest(hash, kind, payload, required) == Sealed(hash, Labelled(kind, payload))
              && forall key | key in required :: !Missing(payload, key)
  {
  }

  lemma HashFilled(hash: string -> Text, fields: seq<Tagged<Json>>, h: Text, entries: seq<Tagged<Value>>)
    requires HashFits(hash, fields, h) && ReadBack(fields, entries)
    ensures !Missing(entries, HASH)
  {
    assert Find(entries, HASH) == Some(Embed(JStr(h)));
  }

  /** A manifest read back as a payload passes the checks and needs no label. */
  lemma ReadBackPasses(
    hash: string -> Text, kind: Text, payload: seq<Tagged<Value>>, required: seq<string>, h: Text,
    fields: seq<Tagged<Json>>, entries: seq<Tagged<Value>>)
    requires forall key | key in required :: !Missing(payload, key)
    requires AgreeAside(Labelled(kind, payload), fields) && HashFits(hash, fields, h) && ReadBack(fields, entries)
    ensures BuildManifest(hash, kind, entries, required) == Sealed(hash, entries)
  {
    HashFilled(hash, fields, h, entries);
    AllFilled(kind, payload, required, fields, entries);
    Labels(kind, payload);
    LabelledAlready(kind, Labelled(kind, payload), fields, entries);
    BuildOfLabelled(hash, kind, entries, required);
  }

  /** Building a manifest from a manifest changes nothing. */
  lemma RebuildChangesNothing(hash: string -> Text, kind: Text, payload: seq<Tagged<Value>>, required: seq<string>)
    returns (fields: seq<Tagged<Json>>, entries: seq<Tagged<Value>>)
    ensures BuildManifest(hash, kind, payload, required).Ok? ==>
              && BuildManifest(hash, kind, payload, required) == Ok(JObj(fields))
              && Embed(JObj(fields)) == VMap(entries)
              && BuildManifest(hash, kind, entries, required) == Ok(JObj(fields))
  {
    BuildPasses(hash, kind, payload, required);
    fields, entries := [], [];
    if BuildManifest(hash, kind, payload, required).Ok? {
      var h;
      h, fields := SealedFits(hash, Labelled(kind, payload));
      entries := ReadItems(fields);
      ReadBackPasses(hash, kind, payload, required, h, fields, entries);
      SealedAlready(hash, fields, h, entries);
    }
  }

  // ---- What is refused, and what typed values become ----

  /** The value holds, at some depth, a non-finite float, a naive datetime or a value of another type. */
  ghost predicate HoldsRefused(v: Value) {
    match v
    case VNonFinite => true
    case VDatetime(utc) => utc == None
    case VOther(_) => true
    case VList(items) => exists i | 0 <= i < |items| :: HoldsRefused(items[i])
    case VSet(members) => exists i | 0 <= i < |members| :: HoldsRefused(members[i].value)
    case VMap(entries) => exists i | 0 <= i < |entries| :: HoldsRefused(entries[i].value)
    case _ => false
  }

  lemma MapRefused(entries: seq<Tagged<Value>>)
    ensures Normalize(VMap(entries)).Ok? <==> AllNormalize(entries)
    ensures Normalize(VSet(entries)).Ok? <==> AllNormalize(entries)
  {
    MapIs(entries);
    SetIs(entries);
    var each := Each(entries);
    var sorted := Sort(each);
    CollectIs(sorted);
    SortElements(each);
    if AllNormalize(entries) {
      forall i | 0 <= i < |sorted| ensures sorted[i].value.Ok? { var k := ItemAt(each, sorted[i]); }
    } else {
      var bad := RefusedItem(entries);
      SortContains(each, each[bad]);
    }
  }

  lemma ListRefused(items: seq<Value>)
    ensures Normalize(VList(items)).Ok? <==> forall i | 0 <= i < |items| :: Normalize(items[i]).Ok?
  {
    var each := seq(|items|, i requires 0 <= i < |items| => Tagged("", Normalize(items[i])));
    CollectIs(each);
    assert forall i | 0 <= i < |items| :: each[i].value == Normalize(items[i]);
  }

  /** Normalisation fails exactly on a value that holds something refused, however deep. */
  lemma {:induction false} RefusedExactly(v: Value)
    ensures Normalize(v).Err? <==> HoldsRefused(v)
  {
    match v
    case VList(items) =>
      ListRefused(items);
      forall i | 0 <= i < |items| ensures Normalize(items[i]).Err? <==>
          HoldsRefused(items[i]) { RefusedExactly(items[i]); }
    case VSet(members) =>
      MapRefused(members);
      forall i | 0 <= i < |members|
        ensures Normalize(members[i].value).Err? <==> HoldsRefused(members[i].value)
      {
        RefusedExactly(members[i].value);
      }
    case VMap(entries) =>
      MapRefused(entries);
      forall i | 0 <= i < |entries|
        ensures Normalize(entries[i].value).Err? <==> HoldsRefused(entries[i].value)
      {
        RefusedExactly(entries[i].value);
      }
    case _ =>
  }

  /** Dates and datetimes normalise as the mappings that spell them out; a decimal as its text. */
  lemma TypedValues(text: Text, iso: string)
    ensures Normalize(VDatetime(Some(iso))) ==
            Normalize(VMap([Tagged("__type", VStr("datetime")), Tagged("value", VStr(iso))]))
    ensures Normalize(VDate(iso)) == Normalize(VMap([Tagged("__type", VStr("date")), Tagged("value", VStr(iso))]))
    ensures Normalize(VDecimal(text)) == Normalize(VStr(text))
  {
    SpelledOut("datetime", iso);
    SpelledOut("date", iso);
  }

  lemma SpelledOut(kind: string, value: string)
    ensures Normalize(VMap([Tagged("__type", VStr(kind)), Tagged("value", VStr(value))])) == Ok(Typed(kind, value))
  {
    TypedIsNormal(kind, value);
    NormalizeIdempotent(Typed(kind, value));
    var fields := Typed(kind, value).fields;
    assert Embed(Typed(kind, value)).entries == [Tagged("__type", VStr(kind)), Tagged("value", VStr(value))];
  }

  // ---- What a manifest holds ----

  /** A key the builder must find filled: present, not None and not the empty string. */
  predicate Filled(payload: seq<Tagged<Value>>, key: string) {
    Find(payload, key).Some? && Find(payload, key) != Some(VNull) && Find(payload, key) != Some(VStr(""))
  }

  /** Some key holds something refused. */
  ghost predicate HasRefused(entries: seq<Tagged<Value>>) {
    exists key: string :: RefusedAt(entries, key)
  }

  ghost predicate RefusedAt(entries: seq<Tagged<Value>>, key: string) {
    RefusedIn(Find(entries, key))
  }

  ghost predicate RefusedIn(item: Option<Value>) {
    item.Some? && HoldsRefused(item.value)
  }

  lemma TextNotRefused(text: string)
    ensures !RefusedIn(Some(VStr(text)))
  {
  }

  /** The payload holds something refused outside its hash and its kind. */
  ghost predicate RefusedOutside(payload: seq<Tagged<Value>>) {
    exists key: string | key != "manifest_hash" && key != "manifest_kind" :: RefusedAt(payload, key)
  }

  /**
   A build fails exactly when a required key is not filled or the payload holds something refused outside its
   hash and kind.
   */
  lemma BuildRefusedExactly(hash: string -> Text, kind: Text, payload: seq<Tagged<Value>>, required: seq<string>)
    requires Distinct(payload)
    ensures BuildManifest(hash, kind, payload, required).Err? <==>
            (exists key | key in required :: !Filled(payload, key)) || RefusedOutside(payload)
  {
    assert forall key | key in required :: Missing(payload, key) <==> !Filled(payload, key);
    SealedRefused(hash, kind, payload);
  }

  lemma EntriesRefused(entries: seq<Tagged<Value>>)
    requires Distinct(entries)
    ensures Normalize(VMap(entries)).Err? <==> HasRefused(entries)
  {
    RefusedExactly(VMap(entries));
    if HoldsRefused(VMap(entries)) {
      var i :| 0 <= i < |entries| && HoldsRefused(entries[i].value);
      FindAt(entries, i);
      assert RefusedAt(entries, entries[i].tag);
    }
    if HasRefused(entries) {
      var key: string :| RefusedAt(entries, key);
      var i := FoundAt(entries, key);
    }
  }

  lemma BareRefused(kind: Text, payload: seq<Tagged<Value>>, key: string)
    ensures RefusedAt(Without(Labelled(kind, payload), HASH), key) <==>
            key != HASH && key != KIND && RefusedAt(payload, key)
  {
    WithoutFinds(Labelled(kind, payload), HASH, key);
    LabelledRefused(kind, payload, key);
  }

  lemma LabelledRefused(kind: Text, payload: seq<Tagged<Value>>, key: string)
    ensures RefusedAt(Labelled(kind, payload), key) <==> key != KIND && RefusedAt(payload, key)
  {
    LabelledFinds(kind, payload, key);
    TextNotRefused(kind);
    TextNotRefused("2");
  }

  lemma FullRefused(kind: Text, payload: seq<Tagged<Value>>, h: Text, key: string)
    ensures RefusedAt(Put(Labelled(kind, payload), HASH, VStr(h)), key) <==>
            key != HASH && key != KIND && RefusedAt(payload, key)
  {
    PutFinds(Labelled(kind, payload), HASH, VStr(h), key);
    LabelledRefused(kind, payload, key);
    TextNotRefused(h);
  }

  lemma BareNormalizes(kind: Text, payload: seq<Tagged<Value>>)
    requires Distinct(payload)
    ensures Normalize(VMap(Without(Labelled(kind, payload), HASH))).Err? <==> RefusedOutside(payload)
  {
    var bare := Without(Labelled(kind, payload), HASH);
    LabelledDistinct(kind, payload);
    WithoutDistinct(Labelled(kind, payload), HASH);
    EntriesRefused(bare);
    forall key: string ensures RefusedAt(bare, key) <==> key != HASH && key != KIND && RefusedAt(payload, key) {
      BareRefused(kind, payload, key);
    }
  }

  lemma FullNormalizes(kind: Text, payload: seq<Tagged<Value>>, h: Text)
    requires Distinct(payload)
    ensures Normalize(VMap(Put(Labelled(kind, payload), HASH, VStr(h)))).Err? <==> RefusedOutside(payload)
  {
    var full := Put(Labelled(kind, payload), HASH, VStr(h));
    LabelledDistinct(kind, payload);
    PutDistinct(Labelled(kind, payload), HASH, VStr(h));
    EntriesRefused(full);
    forall key: string ensures RefusedAt(full, key) <==> key != HASH && key != KIND && RefusedAt(payload, key) {
      FullRefused(kind, payload, h, key);
    }
  }

  lemma HashRefused(hash: string -> Text, entries: seq<Tagged<Value>>)
    ensures ManifestHash(hash, VMap(entries)).Ok? <==> Normalize(VMap(entries)).Ok?
  {
    if Normalize(VMap(entries)).Ok? { MapLookup(entries, ""); }
  }

  lemma SealedRefused(hash: string -> Text, kind: Text, payload: seq<Tagged<Value>>)
    requires Distinct(payload)
    ensures Sealed(hash, Labelled(kind, payload)).Err? <==> RefusedOutside(payload)
  {
    var bare := Without(Labelled(kind, payload), HASH);
    BareNormalizes(kind, payload);
    HashRefused(hash, bare);
    var h := ManifestHash(hash, VMap(bare));
    if h.Ok? { FullNormalizes(kind, payload, h.value); }
  }

  /**
   Beside its hash a manifest holds exactly: its kind, the payload's schema version or "2", and the normal form
   of every other key of the payload.
   */
  lemma ManifestHolds(hash: string -> Text, kind: Text, payload: seq<Tagged<Value>>, required: seq<string>, key: string)
    returns (fields: seq<Tagged<Json>>)
    requires key != "manifest_hash"
    ensures BuildManifest(hash, kind, payload, required).Ok? ==>
              && BuildManifest(hash, kind, payload, required) == Ok(JObj(fields))
              && (key == "manifest_kind" ==> Find(fields, key) == Some(JStr(kind)))
              && (key == "schema_version" && Find(payload, key) == None ==> Find(fields, key) == Some(JStr("2")))
              && (key != "manifest_kind" && Find(payload, key).Some? ==>
                    Find(fields, key).Some? && Normalize(Find(payload, key).value) == Ok(Find(fields, key).value))
              && (key != "manifest_kind" && key != "schema_version" && Find(payload, key) == None ==>
                    Find(fields, key) == None)
  {
    BuildPasses(hash, kind, payload, required);
    fields := [];
    if BuildManifest(hash, kind, payload, required).Ok? {
      var h;
      h, fields := SealedFits(hash, Labelled(kind, payload));
      HoldsAt(kind, payload, fields, key);
    }
  }

  lemma HoldsAt(kind: Text, payload: seq<Tagged<Value>>, fields: seq<Tagged<Json>>, key: string)
    requires AgreeAside(Labelled(kind, payload), fields) && key != HASH
    ensures key == KIND ==> Find(fields, key) == Some(JStr(kind))
    ensures key == SCHEMA && Find(payload, key) == None ==> Find(fields, key) == Some(JStr("2"))
    ensures key != KIND && Find(payload, key).Some? ==>
              Find(fields, key).Some? && Normalize(Find(payload, key).value) == Ok(Find(fields, key).value)
    ensures key != KIND && key != SCHEMA && Find(payload, key) == None ==> Find(fields, key) == None
  {
    var item, field := Find(Labelled(kind, payload), key), Find(fields, key);
    LabelledFinds(kind, payload, key);
    AgreesItem(item, field);
    if key == KIND {
      AgreesText(kind, field);
    } else if key == SCHEMA && Find(payload, key) == None {
      AgreesText("2", field);
    }
  }

  lemma AgreesItem(item: Option<Value>, field: Option<Json>)
    requires Agrees(item, field)
    ensures item.None? ==> field == None
    ensures item.Some? ==> field.Some? && Normalize(item.value) == Ok(field.value)
  {
  }

  lemma AgreesText(text: string, field: Option<Json>)
    requires Agrees(Some(VStr(text)), field)
    ensures field == Some(JStr(text))
  {
  }

  /** The keys each builder requires. */
  lemma RequiredKeys(key: string)
    ensures key in EXPERIMENT_REQUIRED <==>
            || key == "code_sha" || key == "dataset_fingerprint" || key == "feature_pipeline_version"
            || key == "train_window" || key == "oot_window" || key == "seed" || key == "model_params"
            || key == "strategy_params" || key == "backtest_params"
    ensures key in DEPLOYMENT_REQUIRED <==>
            key == "models" || key == "strategy" || key == "risk_policy" || key == "execution_policy"
  {
  }
}
