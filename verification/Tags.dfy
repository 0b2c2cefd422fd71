/**
 Tagged sequences: the items of a mapping under the string form of their keys, or of a set under
 their repr. Looking a tag up means the last item that carries it, as in a Python dictionary that is
 filled from left to right.
 */
module Tags {
  import opened Basics

  datatype Tagged<T> = Tagged(tag: string, value: T)

  // ---- String order ----

  /** Python's order on str: code point by code point. */
  predicate Below(a: string, b: string) {
    b != "" && (a == "" || a[0] < b[0] || (a[0] == b[0] && Below(a[1..], b[1..])))
  }

  lemma {:induction false} BelowTrichotomy(a: string, b: string)
    ensures Below(a, b) || a == b || Below(b, a)
    ensures !(Below(a, b) && Below(b, a)) && !Below(a, a)
  {
    if a == "" {
    } else {
      BelowTrichotomy(a[1..], a[1..]);
      if b != "" {
        BelowTrichotomy(a[1..], b[1..]);
        assert a == [a[0]] + a[1..] && b == [b[0]] + b[1..];
      }
    }
  }

  lemma {:induction false} BelowTransitive(a: string, b: string, c: string)
    requires Below(a, b) && Below(b, c)
    ensures Below(a, c)
  {
    if a == "" || a[0] != b[0] || b[0] != c[0] {
    } else {
      BelowTransitive(a[1..], b[1..], c[1..]);
    }
  }

  // ---- Lookup ----

  function Find<T>(xs: seq<Tagged<T>>, tag: string): Option<T> {
    if xs == [] then None
    else if xs[|xs| - 1].tag == tag then Some(xs[|xs| - 1].value)
    else Find(xs[..|xs| - 1], tag)
  }

  ghost predicate Distinct<T>(xs: seq<Tagged<T>>) {
    forall i, j | 0 <= i < j < |xs| :: xs[i].tag != xs[j].tag
  }

  ghost predicate SameLookup<T>(xs: seq<Tagged<T>>, ys: seq<Tagged<T>>) {
    forall t: string :: Find(xs, t) == Find(ys, t)
  }

  lemma {:induction false} FindAt<T>(xs: seq<Tagged<T>>, i: nat)
    requires i < |xs|
    ensures Find(xs, xs[i].tag).Some?
    ensures Distinct(xs) ==> Find(xs, xs[i].tag) == Some(xs[i].value)
  {
    if i == |xs| - 1 {
    } else {
      assert xs[..|xs| - 1][i] == xs[i];
      FindAt(xs[..|xs| - 1], i);
    }
  }

  lemma {:induction false} FoundAt<T>(xs: seq<Tagged<T>>, tag: string) returns (i: nat)
    requires Find(xs, tag).Some?
    ensures i < |xs| && xs[i] == Tagged(tag, Find(xs, tag).value)
  {
    i := |xs| - 1;
    if xs[i].tag != tag {
      i := FoundAt(xs[..i], tag);
    }
  }

  // ---- Stable sort ----

  /** Pairwise: no later item is below an earlier one. */
  ghost predicate Sorted<T>(xs: seq<Tagged<T>>) {
    forall i, j | 0 <= i < j < |xs| :: !Below(xs[j].tag, xs[i].tag)
  }

  ghost predicate StrictlySorted<T>(xs: seq<Tagged<T>>) {
    forall i, j | 0 <= i < j < |xs| :: Below(xs[i].tag, xs[j].tag)
  }

  /** Insert after every item that is not above x. */
  function Place<T>(xs: seq<Tagged<T>>, x: Tagged<T>): seq<Tagged<T>> {
    if xs == [] || !Below(x.tag, xs[|xs| - 1].tag) then xs + [x]
    else Place(xs[..|xs| - 1], x) + [xs[|xs| - 1]]
  }

  function Sort<T>(xs: seq<Tagged<T>>): seq<Tagged<T>> {
    if xs == [] then [] else Place(Sort(xs[..|xs| - 1]), xs[|xs| - 1])
  }

  lemma {:induction false} PlaceElements<T>(xs: seq<Tagged<T>>, x: Tagged<T>)
    ensures forall i | 0 <= i < |Place(xs, x)| :: Place(xs, x)[i] == x || Place(xs, x)[i] in xs
  {
    if xs == [] || !Below(x.tag, xs[|xs| - 1].tag) {
    } else {
      PlaceElements(xs[..|xs| - 1], x);
    }
  }

  lemma {:induction false} SortElements<T>(xs: seq<Tagged<T>>)
    ensures forall i | 0 <= i < |Sort(xs)| :: Sort(xs)[i] in xs
  {
    if xs == [] {
    } else {
      SortElements(xs[..|xs| - 1]);
      PlaceElements(Sort(xs[..|xs| - 1]), xs[|xs| - 1]);
    }
  }

  lemma {:induction false} PlaceContains<T>(xs: seq<Tagged<T>>, x: Tagged<T>, y: Tagged<T>)
    requires y == x || y in xs
    ensures y in Place(xs, x)
  {
    if xs == [] || !Below(x.tag, xs[|xs| - 1].tag) {
    } else {
      var before, last := xs[..|xs| - 1], xs[|xs| - 1];
      if y != last {
        PlaceContains(before, x, y);
      }
    }
  }

  lemma {:induction false} SortContains<T>(xs: seq<Tagged<T>>, y: Tagged<T>)
    requires y in xs
    ensures y in Sort(xs)
  {
    var before, last := xs[..|xs| - 1], xs[|xs| - 1];
    if y in before {
      SortContains(before, y);
    }
    PlaceContains(Sort(before), last, y);
  }

  /** The first item with a tag. */
  function First<T>(xs: seq<Tagged<T>>, tag: string): Option<T> {
    if xs == [] then None
    else
      var f := First(xs[..|xs| - 1], tag);
      if f.Some? then f else if xs[|xs| - 1].tag == tag then Some(xs[|xs| - 1].value) else None
  }

  lemma {:induction false} FirstFound<T>(xs: seq<Tagged<T>>, tag: string) returns (i: nat)
    requires First(xs, tag).Some?
    ensures i < |xs| && xs[i] == Tagged(tag, First(xs, tag).value) && forall k | 0 <= k < i :: xs[k].tag != tag
  {
    var before := xs[..|xs| - 1];
    if First(before, tag).Some? {
      i := FirstFound(before, tag);
    } else {
      i := |xs| - 1;
      forall k | 0 <= k < i ensures xs[k].tag != tag { NoFirst(before, tag, k); }
    }
  }

  lemma {:induction false} NoFirst<T>(xs: seq<Tagged<T>>, tag: string, k: nat)
    requires First(xs, tag).None? && k < |xs|
    ensures xs[k].tag != tag
  {
    if k == |xs| - 1 {
    } else {
      NoFirst(xs[..|xs| - 1], tag, k);
    }
  }

  lemma {:induction false} FirstOfHead<T>(x: Tagged<T>, xs: seq<Tagged<T>>)
    ensures First([x] + xs, x.tag) == Some(x.value)
  {
    if xs == [] {
      assert [x] + xs == [x] && [x][..0] == [];
    } else {
      FirstOfHead(x, xs[..|xs| - 1]);
      assert ([x] + xs)[..|xs|] == [x] + xs[..|xs| - 1];
    }
  }

  function FirstOr<T>(first: Option<T>, x: Tagged<T>, tag: string): Option<T> {
    if first.Some? then first else if x.tag == tag then Some(x.value) else None
  }

  lemma FirstAppend<T>(xs: seq<Tagged<T>>, x: Tagged<T>, tag: string)
    ensures First(xs + [x], tag) == FirstOr(First(xs, tag), x, tag)
  {
    assert (xs + [x])[..|xs|] == xs;
  }

  /** A placed item goes after those with its own tag. */
  lemma {:induction false} PlaceFirst<T>(xs: seq<Tagged<T>>, x: Tagged<T>, tag: string)
    ensures First(Place(xs, x), tag) == FirstOr(First(xs, tag), x, tag)
  {
    if xs == [] || !Below(x.tag, xs[|xs| - 1].tag) {
      FirstAppend(xs, x, tag);
    } else {
      var before, last := xs[..|xs| - 1], xs[|xs| - 1];
      PlaceFirst(before, x, tag);
      BelowTrichotomy(x.tag, last.tag);
      FirstAppend(Place(before, x), last, tag);
    }
  }

  /** The sort is stable: of the items with one tag, the first stays first. */
  lemma {:induction false} SortFirst<T>(xs: seq<Tagged<T>>, tag: string)
    ensures First(Sort(xs), tag) == First(xs, tag)
  {
    if xs == [] {
    } else {
      var before, last := xs[..|xs| - 1], xs[|xs| - 1];
      SortFirst(before, tag);
      PlaceFirst(Sort(before), last, tag);
    }
  }

  /** Fill a dictionary from a sorted sequence: an item with the tag of the one before it replaces it. */
  function Collapse<T>(xs: seq<Tagged<T>>): seq<Tagged<T>> {
    if xs == [] then []
    else
      var done, last := Collapse(xs[..|xs| - 1]), xs[|xs| - 1];
      if done != [] && done[|done| - 1].tag == last.tag then done[..|done| - 1] + [last] else done + [last]
  }

  lemma {:induction false} CollapseElements<T>(xs: seq<Tagged<T>>)
    ensures forall i | 0 <= i < |Collapse(xs)| :: Collapse(xs)[i] in xs
  {
    if xs == [] {
    } else {
      CollapseElements(xs[..|xs| - 1]);
    }
  }

  /** No item is above the tag. */
  ghost predicate UpTo<T>(xs: seq<Tagged<T>>, tag: string) {
    forall i | 0 <= i < |xs| :: !Below(tag, xs[i].tag)
  }

  lemma {:induction false} PlaceUpTo<T>(xs: seq<Tagged<T>>, x: Tagged<T>, tag: string)
    requires UpTo(xs, tag) && !Below(tag, x.tag)
    ensures UpTo(Place(xs, x), tag)
  {
    if xs == [] || !Below(x.tag, xs[|xs| - 1].tag) {
    } else {
      PlaceUpTo(xs[..|xs| - 1], x, tag);
    }
  }

  lemma {:induction false} UpToMono<T>(xs: seq<Tagged<T>>, a: string, b: string)
    requires UpTo(xs, a) && !Below(b, a)
    ensures UpTo(xs, b)
  {
    forall i | 0 <= i < |xs| ensures !Below(b, xs[i].tag) {
      NotBelowTransitive(xs[i].tag, a, b);
    }
  }

  lemma NotBelowTransitive(a: string, b: string, c: string)
    requires !Below(b, a) && !Below(c, b)
    ensures !Below(c, a)
  {
    BelowTrichotomy(a, b);
    BelowTrichotomy(b, c);
    BelowTrichotomy(a, c);
    if a != b && b != c { BelowTransitive(a, b, c); }
  }

  lemma SortedAppend<T>(xs: seq<Tagged<T>>, x: Tagged<T>)
    requires Sorted(xs)
    ensures UpTo(xs, x.tag) <==> Sorted(xs + [x])
  {
    if Sorted(xs + [x]) {
      forall i | 0 <= i < |xs| ensures !Below(x.tag, xs[i].tag) {
        assert (xs + [x])[i] == xs[i] && (xs + [x])[|xs|] == x;
      }
    }
  }

  lemma {:induction false} PlaceSorted<T>(xs: seq<Tagged<T>>, x: Tagged<T>)
    requires Sorted(xs)
    ensures Sorted(Place(xs, x))
  {
    if xs == [] {
    } else {
      var before, last := xs[..|xs| - 1], xs[|xs| - 1];
      assert xs == before + [last];
      SortedAppend(before, last);
      if Below(x.tag, last.tag) {
        BelowTrichotomy(x.tag, last.tag);
        PlaceSorted(before, x);
        PlaceUpTo(before, x, last.tag);
        SortedAppend(Place(before, x), last);
      } else {
        UpToMono(before, last.tag, x.tag);
        SortedAppend(xs, x);
      }
    }
  }

  lemma {:induction false} PlaceFinds<T>(xs: seq<Tagged<T>>, x: Tagged<T>, tag: string)
    ensures Find(Place(xs, x), tag) == if tag == x.tag then Some(x.value) else Find(xs, tag)
  {
    if xs == [] || !Below(x.tag, xs[|xs| - 1].tag) {
      assert (xs + [x])[..|xs|] == xs;
    } else {
      var before, last := xs[..|xs| - 1], xs[|xs| - 1];
      PlaceFinds(before, x, tag);
      BelowTrichotomy(x.tag, last.tag);
      var placed := Place(before, x);
      assert (placed + [last])[..|placed|] == placed;
    }
  }

  lemma DistinctAppend<T>(xs: seq<Tagged<T>>, x: Tagged<T>)
    ensures Distinct(xs + [x]) <==> Distinct(xs) && Find(xs, x.tag) == None
  {
    var all := xs + [x];
    if Distinct(xs) && Find(xs, x.tag) == None {
      forall i | 0 <= i < |xs| ensures xs[i].tag != x.tag { FindAt(xs, i); }
    }
    if Distinct(all) {
      assert all[..|xs|] == xs && all[|xs|] == x;
      assert forall i | 0 <= i < |xs| :: all[i] == xs[i];
      if Find(xs, x.tag).Some? { var i := FoundAt(xs, x.tag); }
    }
  }

  lemma {:induction false} PlaceDistinct<T>(xs: seq<Tagged<T>>, x: Tagged<T>)
    requires Distinct(xs) && Find(xs, x.tag) == None
    ensures Distinct(Place(xs, x))
  {
    if xs == [] || !Below(x.tag, xs[|xs| - 1].tag) {
      DistinctAppend(xs, x);
    } else {
      var before, last := xs[..|xs| - 1], xs[|xs| - 1];
      assert xs == before + [last];
      DistinctAppend(before, last);
      PlaceDistinct(before, x);
      PlaceFinds(before, x, last.tag);
      DistinctAppend(Place(before, x), last);
    }
  }

  /** The sort is a sort, and looks up the same. */
  lemma {:induction false} SortSorts<T>(xs: seq<Tagged<T>>)
    ensures Sorted(Sort(xs)) && SameLookup(Sort(xs), xs)
    ensures Distinct(xs) ==> StrictlySorted(Sort(xs))
  {
    SortKeepsOrder(xs);
    if Distinct(xs) {
      SortKeepsDistinct(xs);
      var ys := Sort(xs);
      forall i, j | 0 <= i < j < |ys| ensures Below(ys[i].tag, ys[j].tag) { BelowTrichotomy(ys[i].tag, ys[j].tag); }
    }
  }

  lemma {:induction false} SortKeepsOrder<T>(xs: seq<Tagged<T>>)
    ensures Sorted(Sort(xs)) && SameLookup(Sort(xs), xs)
  {
    if xs == [] {
    } else {
      var before, last := xs[..|xs| - 1], xs[|xs| - 1];
      SortKeepsOrder(before);
      PlaceSorted(Sort(before), last);
      forall t: string ensures Find(Sort(xs), t) == Find(xs, t) { PlaceFinds(Sort(before), last, t); }
    }
  }

  lemma {:induction false} SortKeepsDistinct<T>(xs: seq<Tagged<T>>)
    requires Distinct(xs)
    ensures Distinct(Sort(xs))
  {
    if xs == [] {
    } else {
      var before, last := xs[..|xs| - 1], xs[|xs| - 1];
      assert xs == before + [last];
      DistinctAppend(before, last);
      SortKeepsDistinct(before);
      SortKeepsOrder(before);
      PlaceDistinct(Sort(before), last);
    }
  }

  lemma StrictIsSortedDistinct<T>(xs: seq<Tagged<T>>)
    requires StrictlySorted(xs)
    ensures Sorted(xs) && Distinct(xs)
  {
    forall i, j | 0 <= i < j < |xs| ensures !Below(xs[j].tag, xs[i].tag) && xs[i].tag != xs[j].tag {
      BelowTrichotomy(xs[i].tag, xs[j].tag);
    }
  }

  lemma LastIsHighest<T>(xs: seq<Tagged<T>>, tag: string)
    requires StrictlySorted(xs) && xs != [] && Find(xs, tag).Some?
    ensures tag == xs[|xs| - 1].tag || Below(tag, xs[|xs| - 1].tag)
  {
    var i := FoundAt(xs, tag);
  }

  lemma BeforeLast<T>(xs: seq<Tagged<T>>, tag: string)
    requires StrictlySorted(xs) && xs != []
    ensures Find(xs[..|xs| - 1], tag) == if tag == xs[|xs| - 1].tag then None else Find(xs, tag)
  {
    var before, last := xs[..|xs| - 1], xs[|xs| - 1];
    StrictIsSortedDistinct(xs);
    assert xs == before + [last];
    DistinctAppend(before, last);
  }

  /** A strictly sorted sequence is determined by its lookups. */
  lemma {:induction false} SortedDetermined<T>(xs: seq<Tagged<T>>, ys: seq<Tagged<T>>)
    requires StrictlySorted(xs) && StrictlySorted(ys) && SameLookup(xs, ys)
    ensures xs == ys
    decreases |xs|
  {
    if xs == [] || ys == [] {
      if xs != [] { FindAt(xs, 0); }
      if ys != [] { FindAt(ys, 0); }
    } else {
      var x, y := xs[|xs| - 1], ys[|ys| - 1];
      assert Find(xs, x.tag) == Find(ys, x.tag) && Find(xs, y.tag) == Find(ys, y.tag);
      LastIsHighest(ys, x.tag);
      LastIsHighest(xs, y.tag);
      BelowTrichotomy(x.tag, y.tag);
      var xs', ys' := xs[..|xs| - 1], ys[..|ys| - 1];
      forall t: string ensures Find(xs', t) == Find(ys', t) {
        BeforeLast(xs, t);
        BeforeLast(ys, t);
      }
      SortedDetermined(xs', ys');
      assert xs == xs' + [x] && ys == ys' + [y];
    }
  }

  /** Sorting forgets the order of distinctly tagged items. */
  lemma SortForgetsOrder<T>(xs: seq<Tagged<T>>, ys: seq<Tagged<T>>)
    requires Distinct(xs) && Distinct(ys) && SameLookup(xs, ys)
    ensures Sort(xs) == Sort(ys)
  {
    SortSorts(xs);
    SortSorts(ys);
    assert SameLookup(Sort(xs), Sort(ys));
    SortedDetermined(Sort(xs), Sort(ys));
  }

  lemma StrictAppend<T>(xs: seq<Tagged<T>>, x: Tagged<T>)
    requires StrictlySorted(xs) && (xs != [] ==> Below(xs[|xs| - 1].tag, x.tag))
    ensures StrictlySorted(xs + [x])
  {
    forall i | 0 <= i < |xs| - 1 ensures Below(xs[i].tag, x.tag) {
      BelowTransitive(xs[i].tag, xs[|xs| - 1].tag, x.tag);
    }
  }

  lemma StrictRetop<T>(xs: seq<Tagged<T>>, x: Tagged<T>)
    requires StrictlySorted(xs) && xs != [] && xs[|xs| - 1].tag == x.tag
    ensures StrictlySorted(xs[..|xs| - 1] + [x])
  {
    StrictAppend(xs[..|xs| - 1], x);
  }

  lemma {:induction false} CollapseStrict<T>(xs: seq<Tagged<T>>)
    requires Sorted(xs)
    ensures StrictlySorted(Collapse(xs))
    ensures xs != [] ==> Collapse(xs) != [] && Collapse(xs)[|Collapse(xs)| - 1] == xs[|xs| - 1]
  {
    if xs == [] {
    } else {
      var before, last := xs[..|xs| - 1], xs[|xs| - 1];
      CollapseStrict(before);
      var done := Collapse(before);
      if done != [] && done[|done| - 1].tag == last.tag {
        StrictRetop(done, last);
      } else {
        if before != [] {
          BelowTrichotomy(before[|before| - 1].tag, last.tag);
          assert !Below(last.tag, before[|before| - 1].tag);
        }
        StrictAppend(done, last);
      }
    }
  }

  lemma {:induction false} CollapseIsStrict<T>(xs: seq<Tagged<T>>)
    requires Sorted(xs)
    ensures StrictlySorted(Collapse(xs)) && SameLookup(Collapse(xs), xs)
  {
    CollapseStrict(xs);
    if xs == [] {
    } else {
      var before, last := xs[..|xs| - 1], xs[|xs| - 1];
      CollapseIsStrict(before);
      assert xs == before + [last];
      forall t: string ensures Find(Collapse(xs), t) == Find(xs, t) { CollapseFinds(before, last, t); }
    }
  }

  lemma FindAppend<T>(xs: seq<Tagged<T>>, x: Tagged<T>, tag: string)
    ensures Find(xs + [x], tag) == if tag == x.tag then Some(x.value) else Find(xs, tag)
  {
    assert (xs + [x])[..|xs|] == xs;
  }

  lemma CollapseFinds<T>(before: seq<Tagged<T>>, last: Tagged<T>, tag: string)
    requires StrictlySorted(Collapse(before)) && SameLookup(Collapse(before), before)
    ensures Find(Collapse(before + [last]), tag) == if tag == last.tag then Some(last.value) else Find(before, tag)
  {
    var xs, done := before + [last], Collapse(before);
    assert xs[..|xs| - 1] == before;
    if done != [] && done[|done| - 1].tag == last.tag {
      BeforeLast(done, tag);
      FindAppend(done[..|done| - 1], last, tag);
    } else {
      FindAppend(done, last, tag);
    }
  }

  /** Sorting and collapsing change nothing that is strictly sorted already. */
  lemma StrictIsFixed<T>(xs: seq<Tagged<T>>)
    requires StrictlySorted(xs)
    ensures Sort(xs) == xs && Collapse(xs) == xs
  {
    StrictIsSortedDistinct(xs);
    SortForgetsOrder(xs, xs);
    SortSorts(xs);
    SortedDetermined(Sort(xs), xs);
    CollapseIsStrict(xs);
    SortedDetermined(Collapse(xs), xs);
  }

  // ---- Dictionary updates ----

  function Without<T>(xs: seq<Tagged<T>>, tag: string): seq<Tagged<T>> {
    if xs == [] then []
    else Without(xs[..|xs| - 1], tag) + if xs[|xs| - 1].tag == tag then [] else [xs[|xs| - 1]]
  }

  function Replace<T>(xs: seq<Tagged<T>>, tag: string, value: T): seq<Tagged<T>> {
    if xs == [] then []
    else Replace(xs[..|xs| - 1], tag, value) + [if xs[|xs| - 1].tag == tag then Tagged(tag, value) else xs[|xs| - 1]]
  }

  /** Assignment: in place when the key is there, at the end otherwise. */
  function Put<T>(xs: seq<Tagged<T>>, tag: string, value: T): seq<Tagged<T>> {
    if Find(xs, tag).Some? then Replace(xs, tag, value) else xs + [Tagged(tag, value)]
  }

  lemma {:induction false} WithoutFinds<T>(xs: seq<Tagged<T>>, tag: string, t: string)
    ensures Find(Without(xs, tag), t) == if t == tag then None else Find(xs, t)
  {
    if xs == [] {
    } else {
      var before, last := xs[..|xs| - 1], xs[|xs| - 1];
      WithoutFinds(before, tag, t);
      var rest := Without(before, tag);
      assert (rest + [last])[..|rest|] == rest;
      assert rest + [] == rest;
    }
  }

  lemma {:induction false} WithoutDistinct<T>(xs: seq<Tagged<T>>, tag: string)
    requires Distinct(xs)
    ensures Distinct(Without(xs, tag))
  {
    if xs == [] {
    } else {
      var before, last := xs[..|xs| - 1], xs[|xs| - 1];
      assert xs == before + [last];
      DistinctAppend(before, last);
      WithoutDistinct(before, tag);
      WithoutFinds(before, tag, last.tag);
      DistinctAppend(Without(before, tag), last);
      assert Without(before, tag) + [] == Without(before, tag);
    }
  }

  lemma {:induction false} WithoutUpTo<T>(xs: seq<Tagged<T>>, tag: string, t: string)
    requires UpTo(xs, t)
    ensures UpTo(Without(xs, tag), t)
  {
    if xs == [] {
    } else {
      WithoutUpTo(xs[..|xs| - 1], tag, t);
    }
  }

  lemma {:induction false} WithoutSorted<T>(xs: seq<Tagged<T>>, tag: string)
    requires Sorted(xs)
    ensures Sorted(Without(xs, tag))
  {
    if xs == [] {
    } else {
      var before, last := xs[..|xs| - 1], xs[|xs| - 1];
      assert xs == before + [last];
      SortedAppend(before, last);
      WithoutSorted(before, tag);
      WithoutUpTo(before, tag, last.tag);
      var rest := Without(before, tag);
      SortedAppend(rest, last);
      assert rest + [] == rest;
    }
  }

  lemma WithoutStrict<T>(xs: seq<Tagged<T>>, tag: string)
    requires StrictlySorted(xs)
    ensures StrictlySorted(Without(xs, tag))
  {
    StrictIsSortedDistinct(xs);
    WithoutSorted(xs, tag);
    WithoutDistinct(xs, tag);
    var ys := Without(xs, tag);
    forall i, j | 0 <= i < j < |ys| ensures Below(ys[i].tag, ys[j].tag) { BelowTrichotomy(ys[i].tag, ys[j].tag); }
  }

  lemma {:induction false} ReplaceIs<T>(xs: seq<Tagged<T>>, tag: string, value: T)
    ensures |Replace(xs, tag, value)| == |xs|
    ensures forall i | 0 <= i < |xs| ::
              Replace(xs, tag, value)[i] == if xs[i].tag == tag then Tagged(tag, value) else xs[i]
  {
    if xs == [] {
    } else {
      ReplaceIs(xs[..|xs| - 1], tag, value);
    }
  }

  lemma {:induction false} ReplaceFinds<T>(xs: seq<Tagged<T>>, tag: string, value: T, t: string)
    ensures Find(Replace(xs, tag, value), t) == if t == tag && Find(xs, t).Some? then Some(value) else Find(xs, t)
  {
    if xs == [] {
    } else {
      var before := xs[..|xs| - 1];
      ReplaceFinds(before, tag, value, t);
      ReplaceIs(before, tag, value);
      ReplaceIs(xs, tag, value);
      assert Replace(xs, tag, value)[..|xs| - 1] == Replace(before, tag, value);
    }
  }

  lemma PutFinds<T>(xs: seq<Tagged<T>>, tag: string, value: T, t: string)
    ensures Find(Put(xs, tag, value), t) == if t == tag then Some(value) else Find(xs, t)
  {
    ReplaceFinds(xs, tag, value, t);
    assert (xs + [Tagged(tag, value)])[..|xs|] == xs;
  }

  lemma PutDistinct<T>(xs: seq<Tagged<T>>, tag: string, value: T)
    requires Distinct(xs)
    ensures Distinct(Put(xs, tag, value))
  {
    ReplaceIs(xs, tag, value);
    DistinctAppend(xs, Tagged(tag, value));
  }

  lemma PutSame<T>(xs: seq<Tagged<T>>, tag: string, value: T)
    requires Distinct(xs) && Find(xs, tag) == Some(value)
    ensures Put(xs, tag, value) == xs
  {
    ReplaceIs(xs, tag, value);
    forall i | 0 <= i < |xs| ensures Replace(xs, tag, value)[i] == xs[i] { FindAt(xs, i); }
  }
}
