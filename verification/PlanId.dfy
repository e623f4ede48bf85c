/** Plan ids: a canonical form of JSON decides equality up to the order of object keys. */
module PlanId {
  import opened Sorting

  /** A JSON value; objects keep an order of their entries. */
  datatype Json =
    | Null | Bool(b: bool) | Number(digits: string) | Str(s: string)
    | Arr(items: seq<Json>) | Obj(entries: seq<Entry>)

  datatype Entry = Entry(key: string, value: Json)

  const BY_KEY: Entry -> string := (e: Entry) => e.key

  ghost predicate UniqueKeys(entries: seq<Entry>) {
    forall i, j :: 0 <= i < j < |entries| ==> entries[i].key != entries[j].key
  }

  /** No object has two entries with one key, at any depth. */
  ghost predicate Valid(j: Json) {
    match j
    case Arr(items) => forall i :: 0 <= i < |items| ==> Valid(items[i])
    case Obj(entries) => UniqueKeys(entries) && forall i :: 0 <= i < |entries| ==> Valid(entries[i].value)
    case _ => true
  }

  /** Equal up to the order of entries in every object. */
  ghost predicate Same(a: Json, b: Json)
    decreases a
  {
    match (a, b)
    case (Arr(xs), Arr(ys)) => |xs| == |ys| && forall i :: 0 <= i < |xs| ==> Same(xs[i], ys[i])
    case (Obj(xs), Obj(ys)) => Covered(xs, ys) && KeysIn(ys, xs)
    case (Arr(_), _) => false
    case (Obj(_), _) => false
    case _ => a == b
  }

  /** Every entry of `xs` has its counterpart in `ys`. */
  ghost predicate Covered(xs: seq<Entry>, ys: seq<Entry>)
    decreases xs, 0
  {
    forall i :: 0 <= i < |xs| ==> Matched(xs[i], ys)
  }

  ghost predicate Matched(x: Entry, ys: seq<Entry>)
    decreases x, 0
  {
    exists j :: 0 <= j < |ys| && ys[j].key == x.key && Same(x.value, ys[j].value)
  }

  ghost predicate HasKey(xs: seq<Entry>, key: string) {
    exists i :: 0 <= i < |xs| && xs[i].key == key
  }

  ghost predicate KeysIn(ys: seq<Entry>, xs: seq<Entry>) {
    forall j :: 0 <= j < |ys| ==> HasKey(xs, ys[j].key)
  }

  function Canon(j: Json): Json
    decreases j, 1
  {
    match j
    case Arr(items) => Arr(CanonItems(items))
    case Obj(entries) => Obj(SortBy(BY_KEY, CanonEntries(entries)))
    case _ => j
  }

  function CanonItems(items: seq<Json>): (r: seq<Json>)
    ensures |r| == |items|
    decreases items, 0
  {
    if items == [] then [] else [Canon(items[0])] + CanonItems(items[1..])
  }

  function CanonEntries(entries: seq<Entry>): (r: seq<Entry>)
    ensures |r| == |entries|
    decreases entries, 0
  {
    if entries == [] then [] else [Entry(entries[0].key, Canon(entries[0].value))] + CanonEntries(entries[1..])
  }

  lemma {:induction false} ItemAt(xs: seq<Json>, i: nat)
    requires i < |xs|
    ensures CanonItems(xs)[i] == Canon(xs[i])
    decreases |xs|
  {
    if i > 0 { ItemAt(xs[1..], i - 1); }
  }

  lemma {:induction false} EntryAt(xs: seq<Entry>, i: nat)
    requires i < |xs|
    ensures CanonEntries(xs)[i] == Entry(xs[i].key, Canon(xs[i].value)) && CanonEntries(xs)[i] in CanonEntries(xs)
    decreases |xs|
  {
    if i > 0 { EntryAt(xs[1..], i - 1); }
  }

  // ----- the loop of the object arm -----

  /** Inserting into a map replaces the value of a known key and appends a new one. */
  function MapInsert(entries: seq<Entry>, key: string, value: Json): seq<Entry> {
    if entries == [] then [Entry(key, value)]
    else if entries[0].key == key then [Entry(key, value)] + entries[1..]
    else [entries[0]] + MapInsert(entries[1..], key, value)
  }

  lemma {:induction false} InsertNewKey(entries: seq<Entry>, key: string, value: Json)
    requires forall i :: 0 <= i < |entries| ==> entries[i].key != key
    ensures MapInsert(entries, key, value) == entries + [Entry(key, value)]
  {
    if entries != [] {
      InsertNewKey(entries[1..], key, value);
      assert entries == [entries[0]] + entries[1..];
    }
  }

  lemma CanonOfCons(x: Entry, xs: seq<Entry>)
    ensures CanonEntries([x] + xs) == [Entry(x.key, Canon(x.value))] + CanonEntries(xs)
  {
    assert ([x] + xs)[1..] == xs;
  }

  lemma {:induction false} InsertCommutes(x: Entry, xs: seq<Entry>)
    ensures CanonEntries(Insert(BY_KEY, x, xs)) == Insert(BY_KEY, Entry(x.key, Canon(x.value)), CanonEntries(xs))
  {
    if xs == [] || Leq(x.key, xs[0].key) {
      CanonOfCons(x, xs);
    } else {
      InsertCommutes(x, xs[1..]);
      CanonOfCons(xs[0], Insert(BY_KEY, x, xs[1..]));
      assert CanonEntries(xs)[1..] == CanonEntries(xs[1..]);
    }
  }

  /** Sorting first and canonicalizing the values later is the same. */
  lemma {:induction false} SortCommutes(xs: seq<Entry>)
    ensures CanonEntries(SortBy(BY_KEY, xs)) == SortBy(BY_KEY, CanonEntries(xs))
  {
    if xs != [] {
      SortCommutes(xs[1..]);
      InsertCommutes(xs[0], SortBy(BY_KEY, xs[1..]));
      assert CanonEntries(xs)[1..] == CanonEntries(xs[1..]);
    }
  }

  lemma SortedEntryIsEntry(entries: seq<Entry>, i: nat)
    requires i < |SortBy(BY_KEY, entries)|
    ensures SortBy(BY_KEY, entries)[i] in entries
  {
    SortByIs(BY_KEY, entries);
    assert SortBy(BY_KEY, entries)[i] in multiset(entries);
  }

  lemma EntryIsSmaller(entries: seq<Entry>, e: Entry)
    requires e in entries
    ensures e.value < Obj(entries)
  {
  }

  lemma UniqueAfterSort(entries: seq<Entry>)
    requires UniqueKeys(entries)
    ensures UniqueKeys(SortBy(BY_KEY, entries))
  {
    var sorted := SortBy(BY_KEY, entries);
    SortByIs(BY_KEY, entries);
    forall i, j | 0 <= i < j < |sorted|
      ensures sorted[i].key != sorted[j].key
    {
      SortedEntryIsEntry(entries, i);
      SortedEntryIsEntry(entries, j);
      if sorted[i].key == sorted[j].key {
        assert sorted[i] == sorted[j];
        TwoOccurrences(sorted, i, j);
        OneOccurrence(entries, sorted[i]);
      }
    }
  }

  lemma TwoOccurrences(xs: seq<Entry>, i: nat, j: nat)
    requires i < j < |xs| && xs[i] == xs[j]
    ensures multiset(xs)[xs[i]] >= 2
  {
    assert xs == xs[..j] + [xs[j]] + xs[j + 1..];
    assert xs[i] in xs[..j];
  }

  lemma {:induction false} OneOccurrence(xs: seq<Entry>, x: Entry)
    requires UniqueKeys(xs)
    ensures multiset(xs)[x] <= 1
  {
    if xs != [] {
      OneOccurrence(xs[1..], x);
      assert xs == [xs[0]] + xs[1..];
      assert forall i :: 0 <= i < |xs[1..]| ==> xs[1..][i].key != xs[0].key;
    }
  }

  method CanonicalizeItems(v: Json) returns (out: seq<Json>)
    requires Valid(v) && v.Arr?
    ensures out == CanonItems(v.items)
    decreases v, 0
  {
    out := [];
    ghost var goal := CanonItems(v.items);
    for i := 0 to |v.items|
      invariant out == goal[..i]
    {
      var item := CanonicalizeJson(v.items[i]);
      ItemAt(v.items, i);
      out := out + [item];
    }
    assert goal[..|v.items|] == goal;
  }

  lemma NextKeyIsNew(sorted: seq<Entry>, i: nat)
    requires UniqueKeys(sorted) && i < |sorted|
    ensures var done := CanonEntries(sorted)[..i]; forall k :: 0 <= k < |done| ==> done[k].key != sorted[i].key
    ensures CanonEntries(sorted)[..i + 1] == CanonEntries(sorted)[..i] + [Entry(sorted[i].key, Canon(sorted[i].value))]
  {
    EntryAt(sorted, i);
    forall k | 0 <= k < i
      ensures CanonEntries(sorted)[k].key == sorted[k].key
    {
      EntryAt(sorted, k);
    }
  }

  method CanonicalizeEntries(v: Json) returns (canonical: seq<Entry>)
    requires Valid(v) && v.Obj?
    ensures canonical == SortBy(BY_KEY, CanonEntries(v.entries))
    decreases v, 0
  {
    var sorted := SortBy(BY_KEY, v.entries);
    SortCommutes(v.entries);
    UniqueAfterSort(v.entries);
    canonical := [];
    ghost var goal := CanonEntries(sorted);
    for i := 0 to |sorted|
      invariant canonical == goal[..i]
    {
      SortedEntryIsEntry(v.entries, i);
      EntryIsSmaller(v.entries, sorted[i]);
      var value := CanonicalizeJson(sorted[i].value);
      NextKeyIsNew(sorted, i);
      InsertNewKey(canonical, sorted[i].key, value);
      canonical := MapInsert(canonical, sorted[i].key, value);
    }
    assert goal[..|sorted|] == goal;
  }

  /** The recursion of the source: sort an object's entries, then fill a map with the
      canonical values. */
  method CanonicalizeJson(v: Json) returns (r: Json)
    requires Valid(v)
    ensures r == Canon(v)
    decreases v, 1
  {
    match v {
      case Arr(items) =>
        var out := CanonicalizeItems(v);
        return Arr(out);
      case Obj(entries) =>
        var canonical := CanonicalizeEntries(v);
        return Obj(canonical);
      case _ => return v;
    }
  }

  // ----- canonical forms decide sameness -----

  lemma SameElements(xs: seq<Entry>, ys: seq<Entry>)
    requires UniqueKeys(xs) && UniqueKeys(ys)
    requires forall x :: x in xs <==> x in ys
    ensures multiset(xs) == multiset(ys)
  {
    forall x
      ensures multiset(xs)[x] == multiset(ys)[x]
    {
      OneOccurrence(xs, x);
      OneOccurrence(ys, x);
      assert x in multiset(xs) <==> x in xs;
      assert x in multiset(ys) <==> x in ys;
    }
  }

  lemma SortedAlike(xs: seq<Entry>, ys: seq<Entry>)
    requires UniqueKeys(xs) && UniqueKeys(ys)
    ensures SortBy(BY_KEY, xs) == SortBy(BY_KEY, ys) <==> forall x :: x in xs <==> x in ys
  {
    if forall x :: x in xs <==> x in ys {
      SameElements(xs, ys);
      SortIgnoresOrder(BY_KEY, xs, ys);
    }
    if SortBy(BY_KEY, xs) == SortBy(BY_KEY, ys) {
      SortByIs(BY_KEY, xs);
      SortByIs(BY_KEY, ys);
      forall x
        ensures x in xs <==> x in ys
      {
        assert x in multiset(xs) <==> x in multiset(ys);
      }
    }
  }

  /** The induction hypothesis for two lists of values. */
  ghost predicate Decided(a: Json, b: Json) { Canon(a) == Canon(b) <==> Same(a, b) }

  lemma ArraysDecide(xs: seq<Json>, ys: seq<Json>)
    requires forall i :: 0 <= i < |xs| && i < |ys| ==> Decided(xs[i], ys[i])
    ensures Decided(Arr(xs), Arr(ys))
  {
    var cx, cy := CanonItems(xs), CanonItems(ys);
    assert Canon(Arr(xs)) == Arr(cx) && Canon(Arr(ys)) == Arr(cy);
    if cx == cy {
      assert |xs| == |cx| == |cy| == |ys|;
      forall i | 0 <= i < |xs|
        ensures Same(xs[i], ys[i])
      {
        assert cx[i] == cy[i];
        ItemAt(xs, i);
        ItemAt(ys, i);
        assert Decided(xs[i], ys[i]);
      }
    }
    if Same(Arr(xs), Arr(ys)) {
      forall i | 0 <= i < |xs|
        ensures cx[i] == cy[i]
      {
        ItemAt(xs, i);
        ItemAt(ys, i);
        assert Decided(xs[i], ys[i]);
      }
    }
  }

  ghost predicate AllDecided(xs: seq<Entry>, ys: seq<Entry>) {
    forall i, j :: 0 <= i < |xs| && 0 <= j < |ys| ==> Decided(xs[i].value, ys[j].value)
  }

  lemma MatchedIsMember(x: Entry, ys: seq<Entry>)
    requires forall j :: 0 <= j < |ys| ==> Decided(x.value, ys[j].value)
    ensures Matched(x, ys) <==> Entry(x.key, Canon(x.value)) in CanonEntries(ys)
  {
    var cy, e := CanonEntries(ys), Entry(x.key, Canon(x.value));
    if Matched(x, ys) {
      var j :| 0 <= j < |ys| && ys[j].key == x.key && Same(x.value, ys[j].value);
      EntryAt(ys, j);
      assert Decided(x.value, ys[j].value);
    }
    if e in cy {
      var j :| 0 <= j < |cy| && cy[j] == e;
      EntryAt(ys, j);
      assert Decided(x.value, ys[j].value);
      assert ys[j].key == x.key && Same(x.value, ys[j].value);
    }
  }

  lemma CoveredIsSubset(xs: seq<Entry>, ys: seq<Entry>)
    requires AllDecided(xs, ys)
    ensures Covered(xs, ys) <==> forall x :: x in CanonEntries(xs) ==> x in CanonEntries(ys)
  {
    var cx, cy := CanonEntries(xs), CanonEntries(ys);
    forall i | 0 <= i < |xs|
      ensures Matched(xs[i], ys) <==> cx[i] in cy
    {
      EntryAt(xs, i);
      MatchedIsMember(xs[i], ys);
    }
    if Covered(xs, ys) {
      forall x | x in cx
        ensures x in cy
      {
        var i :| 0 <= i < |cx| && cx[i] == x;
        assert Matched(xs[i], ys);
      }
    }
    if forall x :: x in cx ==> x in cy {
      forall i | 0 <= i < |xs|
        ensures Matched(xs[i], ys)
      {
        assert cx[i] in cx;
      }
    }
  }

  /** If every canonical entry of `xs` is one of `ys`, the converse is a matter of keys. */
  lemma ConverseByKeys(cx: seq<Entry>, cy: seq<Entry>)
    requires UniqueKeys(cy) && forall x :: x in cx ==> x in cy
    ensures (forall y :: y in cy ==> y in cx) <==> KeysIn(cy, cx)
  {
    if KeysIn(cy, cx) {
      forall y | y in cy
        ensures y in cx
      {
        var j :| 0 <= j < |cy| && cy[j] == y;
        var i :| 0 <= i < |cx| && cx[i].key == cy[j].key;
        assert cx[i] in cy;
        var k :| 0 <= k < |cy| && cy[k] == cx[i];
        assert k == j;
      }
    }
    if forall y :: y in cy ==> y in cx {
      forall j | 0 <= j < |cy|
        ensures HasKey(cx, cy[j].key)
      {
        assert cy[j] in cx;
      }
    }
  }

  lemma CanonKeyAt(xs: seq<Entry>)
    ensures forall i :: 0 <= i < |xs| ==> CanonEntries(xs)[i].key == xs[i].key
  {
    forall i | 0 <= i < |xs|
      ensures CanonEntries(xs)[i].key == xs[i].key
    {
      EntryAt(xs, i);
    }
  }

  lemma CanonKeys(xs: seq<Entry>, ys: seq<Entry>)
    ensures KeysIn(CanonEntries(ys), CanonEntries(xs)) <==> KeysIn(ys, xs)
    ensures UniqueKeys(xs) ==> UniqueKeys(CanonEntries(xs))
  {
    CanonKeyAt(xs);
    CanonKeyAt(ys);
    var cx, cy := CanonEntries(xs), CanonEntries(ys);
    assert |cx| == |xs| && |cy| == |ys|;
    if KeysIn(ys, xs) { KeysOnly(xs, cx, ys, cy); }
    if KeysIn(cy, cx) { KeysOnly(cx, xs, cy, ys); }
  }

  lemma KeysOnly(xs: seq<Entry>, cx: seq<Entry>, ys: seq<Entry>, cy: seq<Entry>)
    requires |cx| == |xs| && |cy| == |ys| && KeysIn(ys, xs)
    requires forall i :: 0 <= i < |xs| ==> cx[i].key == xs[i].key
    requires forall i :: 0 <= i < |ys| ==> cy[i].key == ys[i].key
    ensures KeysIn(cy, cx)
  {
    forall j | 0 <= j < |cy|
      ensures HasKey(cx, cy[j].key)
    {
      var i :| 0 <= i < |xs| && xs[i].key == ys[j].key;
      assert cx[i].key == cy[j].key;
    }
  }

  lemma ObjectIs(xs: seq<Entry>, ys: seq<Entry>)
    ensures Same(Obj(xs), Obj(ys)) <==> Covered(xs, ys) && KeysIn(ys, xs)
    ensures Canon(Obj(xs)) == Obj(SortBy(BY_KEY, CanonEntries(xs)))
  {
  }

  lemma ElementsDecide(xs: seq<Entry>, ys: seq<Entry>)
    requires UniqueKeys(xs) && UniqueKeys(ys) && AllDecided(xs, ys)
    ensures SortBy(BY_KEY, CanonEntries(xs)) == SortBy(BY_KEY, CanonEntries(ys)) <==> Covered(xs, ys) && KeysIn(ys, xs)
  {
    var cx, cy := CanonEntries(xs), CanonEntries(ys);
    CanonKeys(xs, ys);
    CanonKeys(ys, xs);
    SortedAlike(cx, cy);
    CoveredIsSubset(xs, ys);
    if forall x :: x in cx ==> x in cy { ConverseByKeys(cx, cy); }
  }

  lemma ObjectsDecide(xs: seq<Entry>, ys: seq<Entry>)
    requires UniqueKeys(xs) && UniqueKeys(ys) && AllDecided(xs, ys)
    ensures Decided(Obj(xs), Obj(ys))
  {
    ElementsDecide(xs, ys);
    ObjectIs(xs, ys);
    ObjectIs(ys, xs);
  }

  /** Two valid values have one canonical form exactly when they are the same up to the order
      of object keys; arrays keep their order. */
  lemma {:induction false} CanonDecides(a: Json, b: Json)
    requires Valid(a) && Valid(b)
    ensures Canon(a) == Canon(b) <==> Same(a, b)
    decreases a
  {
    match (a, b) {
      case (Arr(xs), Arr(ys)) =>
        forall i | 0 <= i < |xs| && i < |ys|
          ensures Decided(xs[i], ys[i])
        {
          CanonDecides(xs[i], ys[i]);
        }
        ArraysDecide(xs, ys);
        assert Decided(a, b);
      case (Obj(xs), Obj(ys)) =>
        forall i, j | 0 <= i < |xs| && 0 <= j < |ys|
          ensures Decided(xs[i].value, ys[j].value)
        {
          CanonDecides(xs[i].value, ys[j].value);
        }
        ObjectsDecide(xs, ys);
        assert Decided(a, b);
      case _ =>
    }
  }

  lemma {:induction false} CanonIsSame(a: Json)
    requires Valid(a)
    ensures Valid(Canon(a)) && Same(a, Canon(a))
    decreases a
  {
    match a {
      case Arr(items) =>
        forall i | 0 <= i < |items|
          ensures Valid(CanonItems(items)[i]) && Same(items[i], CanonItems(items)[i])
        {
          CanonIsSame(items[i]);
          ItemAt(items, i);
        }
      case Obj(entries) =>
        forall i | 0 <= i < |entries|
          ensures Valid(Canon(entries[i].value)) && Same(entries[i].value, Canon(entries[i].value))
        {
          CanonIsSame(entries[i].value);
        }
        CanonObjectIsSame(entries);
      case _ =>
    }
  }

  lemma SortedMembers(c: seq<Entry>, x: Entry)
    ensures x in SortBy(BY_KEY, c) <==> x in c
  {
    SortByIs(BY_KEY, c);
    assert x in multiset(SortBy(BY_KEY, c)) <==> x in multiset(c);
  }

  lemma SortedCoverage(entries: seq<Entry>)
    requires forall i :: 0 <= i < |entries| ==> Same(entries[i].value, Canon(entries[i].value))
    ensures Covered(entries, SortBy(BY_KEY, CanonEntries(entries)))
  {
    var c, sorted := CanonEntries(entries), SortBy(BY_KEY, CanonEntries(entries));
    forall i | 0 <= i < |entries|
      ensures Matched(entries[i], sorted)
    {
      EntryAt(entries, i);
      SortedMembers(c, c[i]);
      var j :| 0 <= j < |sorted| && sorted[j] == c[i];
      assert sorted[j].key == entries[i].key;
    }
  }

  lemma SortedOrigin(entries: seq<Entry>, j: nat) returns (i: nat)
    requires j < |SortBy(BY_KEY, CanonEntries(entries))|
    ensures i < |entries|
    ensures SortBy(BY_KEY, CanonEntries(entries))[j] == Entry(entries[i].key, Canon(entries[i].value))
  {
    var c := CanonEntries(entries);
    SortedEntryIsEntry(c, j);
    i :| i < |c| && c[i] == SortBy(BY_KEY, c)[j];
    EntryAt(entries, i);
  }

  lemma CanonObjectIsSame(entries: seq<Entry>)
    requires UniqueKeys(entries)
    requires forall i :: 0 <= i < |entries| ==> Valid(Canon(entries[i].value)) && Same(entries[i].value, Canon(entries[i].value))
    ensures Valid(Canon(Obj(entries))) && Same(Obj(entries), Canon(Obj(entries)))
  {
    var sorted := SortBy(BY_KEY, CanonEntries(entries));
    CanonKeys(entries, entries);
    UniqueAfterSort(CanonEntries(entries));
    SortedCoverage(entries);
    forall j | 0 <= j < |sorted|
      ensures Valid(sorted[j].value) && HasKey(entries, sorted[j].key)
    {
      var i := SortedOrigin(entries, j);
    }
    ObjectIs(entries, sorted);
    assert KeysIn(sorted, entries);
  }

  /** The keys of a canonical object ascend by code points, and its values are canonical. */
  lemma CanonIsSorted(entries: seq<Entry>)
    ensures Canon(Obj(entries)).Obj?
    ensures var sorted := Canon(Obj(entries)).entries;
            && (forall i, j :: 0 <= i < j < |sorted| ==> Leq(sorted[i].key, sorted[j].key))
            && forall i :: 0 <= i < |sorted| ==> exists j :: 0 <= j < |entries| && sorted[i] == Entry(entries[j].key, Canon(entries[j].value))
  {
    var sorted := SortBy(BY_KEY, CanonEntries(entries));
    SortByIs(BY_KEY, CanonEntries(entries));
    forall i, j | 0 <= i < j < |sorted|
      ensures Leq(sorted[i].key, sorted[j].key)
    {
      assert Leq(BY_KEY(sorted[i]), BY_KEY(sorted[j]));
    }
    forall i | 0 <= i < |sorted|
      ensures exists j :: 0 <= j < |entries| && sorted[i] == Entry(entries[j].key, Canon(entries[j].value))
    {
      var j := SortedOrigin(entries, i);
    }
  }

  lemma CanonIsIdempotent(a: Json)
    requires Valid(a)
    ensures Canon(Canon(a)) == Canon(a)
  {
    CanonIsSame(a);
    CanonDecides(a, Canon(a));
  }

  // ----- plan ids -----

  const INFIX := "_plan_"

  function HashInput(namespace: string, workspaceUid: string, payload: Json): Json {
    Obj([Entry("namespace", Str(namespace)), Entry("workspace_uid", Str(workspaceUid)), Entry("payload", payload)])
  }

  /** The id of a plan, over an opaque digest of the canonical text. */
  function PlanIdOf(digest: Json -> string, namespace: string, workspaceUid: string, payload: Json): string {
    namespace + INFIX + digest(Canon(HashInput(namespace, workspaceUid, payload)))
  }

  /** Two different plans of one namespace whose canonical values have one digest. */
  ghost predicate Collide(digest: Json -> string, ns1: string, uid1: string, p1: Json, ns2: string, uid2: string, p2: Json) {
    var a, b := Canon(HashInput(ns1, uid1, p1)), Canon(HashInput(ns2, uid2, p2));
    ns1 == ns2 && a != b && digest(a) == digest(b)
  }

  /** With a digest of fixed length, two plans have one id exactly when they agree on
      namespace and workspace and their payloads are the same, or their digests collide. */
  lemma PlanIdsDecide(digest: Json -> string, n: nat, ns1: string, uid1: string, p1: Json, ns2: string, uid2: string, p2: Json)
    requires forall j :: |digest(j)| == n
    requires Valid(p1) && Valid(p2)
    ensures PlanIdOf(digest, ns1, uid1, p1) == PlanIdOf(digest, ns2, uid2, p2)
            <==> (ns1 == ns2 && uid1 == uid2 && Same(p1, p2)) || Collide(digest, ns1, uid1, p1, ns2, uid2, p2)
  {
    InputsDecide(ns1, uid1, p1, ns2, uid2, p2);
    IdsSplit(ns1, digest(Canon(HashInput(ns1, uid1, p1))), ns2, digest(Canon(HashInput(ns2, uid2, p2))));
  }

  /** An id reads namespace, infix, digest. */
  lemma IdReads(digest: Json -> string, ns: string, uid: string, payload: Json)
    ensures var id := PlanIdOf(digest, ns, uid, payload);
            && ns + "_plan_" <= id
            && id[|ns| + 6..] == digest(Canon(HashInput(ns, uid, payload)))
  {
  }

  lemma IdsSplit(ns1: string, d1: string, ns2: string, d2: string)
    requires |d1| == |d2|
    ensures ns1 + INFIX + d1 == ns2 + INFIX + d2 <==> ns1 == ns2 && d1 == d2
  {
    var x, y := ns1 + INFIX + d1, ns2 + INFIX + d2;
    assert x[|x| - |d1|..] == d1 && y[|y| - |d2|..] == d2;
    assert x[..|x| - |d1| - |INFIX|] == ns1 && y[..|y| - |d2| - |INFIX|] == ns2;
  }

  /** The digest's length is no hindrance: one that sends every value to 64 characters
      meets the assumption, and tells no two plans of a namespace apart. */
  lemma ConstantDigestCollides(ns: string, uid: string, p1: Json, p2: Json)
    requires Valid(p1) && Valid(p2)
    ensures var digest := (j: Json) => seq(64, _ => '0');
            (forall j :: |digest(j)| == 64) && (Collide(digest, ns, uid, p1, ns, uid, p2) <==> !Same(p1, p2))
  {
    InputsDecide(ns, uid, p1, ns, uid, p2);
  }

  lemma KeysDiffer()
    ensures "namespace" != "workspace_uid" && "namespace" != "payload" && "workspace_uid" != "payload"
  {
    assert |"namespace"| == 9 && |"workspace_uid"| == 13 && |"payload"| == 7;
  }

  lemma InputsDecide(ns1: string, uid1: string, p1: Json, ns2: string, uid2: string, p2: Json)
    requires Valid(p1) && Valid(p2)
    ensures Canon(HashInput(ns1, uid1, p1)) == Canon(HashInput(ns2, uid2, p2))
            <==> ns1 == ns2 && uid1 == uid2 && Same(p1, p2)
  {
    KeysDiffer();
    ThreeEntriesDecide("namespace", "workspace_uid", "payload", ns1, uid1, p1, ns2, uid2, p2);
  }

  lemma ThreeCovered(xs: seq<Entry>, ys: seq<Entry>)
    requires |xs| == |ys| == 3 && UniqueKeys(xs) && forall i :: 0 <= i < 3 ==> xs[i].key == ys[i].key
    ensures Covered(xs, ys) && KeysIn(ys, xs) <==> forall i :: 0 <= i < 3 ==> Same(xs[i].value, ys[i].value)
  {
    if Covered(xs, ys) {
      forall i | 0 <= i < 3
        ensures Same(xs[i].value, ys[i].value)
      {
        assert Matched(xs[i], ys);
        var j :| 0 <= j < |ys| && ys[j].key == xs[i].key && Same(xs[i].value, ys[j].value);
        assert j == i;
      }
    }
    forall i | 0 <= i < 3
      ensures HasKey(xs, ys[i].key) && (Same(xs[i].value, ys[i].value) ==> Matched(xs[i], ys))
    {
      assert xs[i].key == ys[i].key;
    }
  }

  lemma ThreeEntriesDecide(k0: string, k1: string, k2: string,
                           ns1: string, uid1: string, p1: Json, ns2: string, uid2: string, p2: Json)
    requires k0 != k1 && k0 != k2 && k1 != k2 && Valid(p1) && Valid(p2)
    ensures var a := Obj([Entry(k0, Str(ns1)), Entry(k1, Str(uid1)), Entry(k2, p1)]);
            var b := Obj([Entry(k0, Str(ns2)), Entry(k1, Str(uid2)), Entry(k2, p2)]);
            Canon(a) == Canon(b) <==> ns1 == ns2 && uid1 == uid2 && Same(p1, p2)
  {
    var xs := [Entry(k0, Str(ns1)), Entry(k1, Str(uid1)), Entry(k2, p1)];
    var ys := [Entry(k0, Str(ns2)), Entry(k1, Str(uid2)), Entry(k2, p2)];
    CanonDecides(Obj(xs), Obj(ys));
    ObjectIs(xs, ys);
    ThreeCovered(xs, ys);
    StringsSame(ns1, ns2);
    StringsSame(uid1, uid2);
    ThreeValues(xs, ys);
  }

  lemma ThreeValues(xs: seq<Entry>, ys: seq<Entry>)
    requires |xs| == |ys| == 3
    ensures (forall i :: 0 <= i < 3 ==> Same(xs[i].value, ys[i].value))
            <==> Same(xs[0].value, ys[0].value) && Same(xs[1].value, ys[1].value) && Same(xs[2].value, ys[2].value)
  {
  }

  lemma StringsSame(a: string, b: string)
    ensures Same(Str(a), Str(b)) <==> a == b
  {
  }
}
