/** Normalizing the rows of a rule patch: validation, uniqueness, consistency and order. */
module RuleInput {
  import opened Basics

  type Text = int
  /** SKUs are ordered by `rank`, which stands for their text order. */
  datatype SkuId = SkuId(rank: int)
  type Date = int

  const RATE_ONE := 1_000_000

  /** One requested rule; rates are in millionths, so six decimal places are exact. */
  datatype Item = Item(sku: SkuId, product: Text, productType: Text, promotion: int, management: int, date: Date) {
    predicate Valid() {
      0 <= promotion <= RATE_ONE && 0 <= management <= RATE_ONE
    }
  }

  datatype RuleKey = RuleKey(sku: SkuId, date: Date)
  datatype Identity = Identity(product: Text, productType: Text)

  function KeyOf(item: Item): RuleKey {
    RuleKey(item.sku, item.date)
  }

  function IdentityOf(item: Item): Identity {
    Identity(item.product, item.productType)
  }

  /** The order of the normalized rows: by SKU, then by date. */
  predicate Before(a: Item, b: Item) {
    a.sku.rank < b.sku.rank || (a.sku == b.sku && a.date < b.date)
  }

  ghost predicate StrictlySorted(items: seq<Item>) {
    forall i, j :: 0 <= i < j < |items| ==> Before(items[i], items[j])
  }

  ghost predicate DistinctKeys(items: seq<Item>) {
    forall i, j :: 0 <= i < j < |items| ==> KeyOf(items[i]) != KeyOf(items[j])
  }

  ghost predicate ConsistentTypes(items: seq<Item>) {
    forall a, b :: a in items && b in items && a.sku == b.sku ==> IdentityOf(a) == IdentityOf(b)
  }

  // ---------------------------------------------------------------- sorting

  function Insert(items: seq<Item>, x: Item): seq<Item> {
    if items == [] then [x]
    else if Before(x, items[|items| - 1]) then Insert(items[..|items| - 1], x) + [items[|items| - 1]]
    else items + [x]
  }

  lemma {:induction false} InsertKeeps(items: seq<Item>, x: Item)
    ensures multiset(Insert(items, x)) == multiset(items) + multiset{x}
  {
    if items != [] && Before(x, items[|items| - 1]) {
      assert items == items[..|items| - 1] + [items[|items| - 1]];
      InsertKeeps(items[..|items| - 1], x);
    }
  }

  lemma {:induction false} InsertSorted(items: seq<Item>, x: Item)
    requires StrictlySorted(items) && forall y :: y in items ==> KeyOf(y) != KeyOf(x)
    ensures StrictlySorted(Insert(items, x))
  {
    if items != [] {
      var front, last := items[..|items| - 1], items[|items| - 1];
      assert items == front + [last];
      if Before(x, last) {
        InsertSorted(front, x);
        InsertKeeps(front, x);
        var head := Insert(front, x);
        forall i | 0 <= i < |head|
          ensures Before(head[i], last)
        {
          assert head[i] in multiset(head);
          assert head[i] in front || head[i] == x;
        }
      } else {
        assert last in items;
        assert forall i :: 0 <= i < |items| ==> items[i] == last || Before(items[i], last);
      }
    }
  }

  /** `sorted(result, key=...)` */
  function Sort(items: seq<Item>): seq<Item> {
    if items == [] then [] else Insert(Sort(items[..|items| - 1]), items[|items| - 1])
  }

  lemma {:induction false} SortKeeps(items: seq<Item>)
    ensures multiset(Sort(items)) == multiset(items)
    ensures |Sort(items)| == |items|
    ensures forall x :: x in Sort(items) <==> x in items
  {
    if items != [] {
      assert items == items[..|items| - 1] + [items[|items| - 1]];
      SortKeeps(items[..|items| - 1]);
      InsertKeeps(Sort(items[..|items| - 1]), items[|items| - 1]);
    }
    assert |multiset(Sort(items))| == |multiset(items)|;
    assert forall x :: x in Sort(items) <==> x in multiset(Sort(items));
    assert forall x :: x in items <==> x in multiset(items);
  }

  lemma {:induction false} SortSorts(items: seq<Item>)
    requires DistinctKeys(items)
    ensures StrictlySorted(Sort(items))
  {
    if items != [] {
      var front, last := items[..|items| - 1], items[|items| - 1];
      SortSorts(front);
      SortKeeps(front);
      InsertSorted(Sort(front), last);
    }
  }

  // ---------------------------------------------------------------- the loop

  /** The rows a patch may contain. */
  ghost predicate Acceptable(items: seq<Item>) {
    items != [] && Clean(items)
  }

  ghost predicate Clean(items: seq<Item>) {
    (forall x :: x in items ==> x.Valid()) && DistinctKeys(items) && ConsistentTypes(items)
  }

  lemma CleanPrefix(items: seq<Item>, all: seq<Item>)
    requires Clean(all) && items <= all
    ensures Clean(items)
  {
    assert forall x :: x in items ==> x in all;
  }

  datatype InputError = NoRows | MalformedRow | DuplicateSkuDate | MixedCatalogIdentity

  /** An input row: the fields it was read into, and whether all of them were well formed. */
  datatype InputRow = InputRow(wellFormed: bool, item: Item)

  function Items(rows: seq<InputRow>): (items: seq<Item>)
    ensures |items| == |rows| && forall i :: 0 <= i < |rows| ==> items[i] == rows[i].item
  {
    seq(|rows|, i requires 0 <= i < |rows| => rows[i].item)
  }

  function Keys(items: seq<Item>): set<RuleKey> {
    set x | x in items :: KeyOf(x)
  }

  function Skus(items: seq<Item>): set<SkuId> {
    set x | x in items :: x.sku
  }

  /** What the loop remembers: the keys seen and the catalog identity of each SKU. */
  ghost predicate Remembers(items: seq<Item>, seen: set<RuleKey>, types: map<SkuId, Identity>) {
    && seen == Keys(items)
    && types.Keys == Skus(items)
    && (forall x :: x in items ==> types[x.sku] == IdentityOf(x))
  }

  lemma RememberStep(items: seq<Item>, seen: set<RuleKey>, types: map<SkuId, Identity>, x: Item)
    requires Remembers(items, seen, types)
    requires x.sku in types ==> types[x.sku] == IdentityOf(x)
    ensures Remembers(items + [x], seen + {KeyOf(x)}, types[x.sku := IdentityOf(x)])
  {
    assert forall y :: y in items + [x] <==> y in items || y == x;
  }

  lemma GrowDistinct(items: seq<Item>, x: Item)
    requires DistinctKeys(items) && KeyOf(x) !in Keys(items)
    ensures DistinctKeys(items + [x])
  {
    assert forall i :: 0 <= i < |items| ==> items[i] in items;
  }

  ghost predicate Collected(items: seq<Item>, seen: set<RuleKey>, types: map<SkuId, Identity>) {
    (forall x :: x in items ==> x.Valid()) && DistinctKeys(items) && Remembers(items, seen, types)
  }

  lemma CollectStep(done: seq<Item>, x: Item, seen: set<RuleKey>, types: map<SkuId, Identity>)
    requires Collected(done, seen, types) && x.Valid() && KeyOf(x) !in seen
    requires x.sku in types ==> types[x.sku] == IdentityOf(x)
    ensures Collected(done + [x], seen + {KeyOf(x)}, types[x.sku := IdentityOf(x)])
  {
    RememberStep(done, seen, types, x);
    GrowDistinct(done, x);
  }

  lemma CollectedIsClean(items: seq<Item>, seen: set<RuleKey>, types: map<SkuId, Identity>)
    requires Collected(items, seen, types)
    ensures Clean(items)
  {
  }

  /** The first objection to the next row, if any; an unobjectionable row is remembered. */
  method Check(row: InputRow, ghost done: seq<Item>, seen: set<RuleKey>, types: map<SkuId, Identity>)
    returns (objection: Option<InputError>, seen': set<RuleKey>, types': map<SkuId, Identity>)
    requires Collected(done, seen, types)
    ensures objection.None? <==> row.wellFormed && Clean(done + [row.item])
    ensures objection.None? ==> Collected(done + [row.item], seen', types')
  {
    seen', types' := seen, types;
    var item := row.item;
    ghost var all := done + [item];
    if !row.wellFormed || !item.Valid() {
      assert item in all;
      return Some(MalformedRow), seen, types;
    }
    if KeyOf(item) in seen {
      DuplicateKey(done, item);
      return Some(DuplicateSkuDate), seen, types;
    }
    if item.sku in types && types[item.sku] != IdentityOf(item) {
      MixedIdentity(done, item, seen, types);
      return Some(MixedCatalogIdentity), seen, types;
    }
    CollectStep(done, item, seen, types);
    CollectedIsClean(all, seen + {KeyOf(item)}, types[item.sku := IdentityOf(item)]);
    return None, seen + {KeyOf(item)}, types[item.sku := IdentityOf(item)];
  }

  /** The rows are all well formed and may form a patch. */
  ghost predicate ValidRows(rows: seq<InputRow>) {
    WellFormed(rows) && Acceptable(Items(rows))
  }

  ghost predicate WellFormed(rows: seq<InputRow>) {
    forall i :: 0 <= i < |rows| ==> rows[i].wellFormed
  }

  lemma RowObjected(rows: seq<InputRow>, i: nat)
    requires i < |rows| && (!rows[i].wellFormed || !Clean(Items(rows[..i]) + [rows[i].item]))
    ensures !ValidRows(rows)
  {
    assert Items(rows[..i]) + [rows[i].item] <= Items(rows);
    if Clean(Items(rows)) {
      CleanPrefix(Items(rows[..i]) + [rows[i].item], Items(rows));
    }
  }

  lemma RowRead(rows: seq<InputRow>, i: nat)
    requires i < |rows| && WellFormed(rows[..i]) && rows[i].wellFormed
    ensures WellFormed(rows[..i + 1]) && Items(rows[..i + 1]) == Items(rows[..i]) + [rows[i].item]
  {
  }

  /** The validation loop: all rows, or the first objection to one of them. */
  method Collect(rows: seq<InputRow>) returns (result: Result<seq<Item>, InputError>)
    ensures result.Ok? <==> ValidRows(rows)
    ensures result.Ok? ==> result.value == Items(rows)
  {
    if rows == [] {
      return Err(NoRows);
    }
    var items: seq<Item> := [];
    var seen: set<RuleKey> := {};
    var types: map<SkuId, Identity> := map[];
    for i := 0 to |rows|
      invariant items == Items(rows[..i]) && WellFormed(rows[..i])
      invariant Collected(items, seen, types)
    {
      var objection;
      objection, seen, types := Check(rows[i], items, seen, types);
      if objection.Some? {
        RowObjected(rows, i);
        return Err(objection.value);
      }
      RowRead(rows, i);
      items := items + [rows[i].item];
    }
    assert rows[..|rows|] == rows;
    CollectedIsClean(items, seen, types);
    return Ok(items);
  }

  /** The rows are accepted exactly when all are well formed and may form a patch; they come back sorted. */
  method Normalize(rows: seq<InputRow>) returns (result: Result<seq<Item>, InputError>)
    ensures result.Ok? <==> ValidRows(rows)
    ensures result.Ok? ==> StrictlySorted(result.value) && multiset(result.value) == multiset(Items(rows))
    ensures result.Ok? ==> result.value == Sort(Items(rows))
  {
    result := Collect(rows);
    if result.Ok? {
      SortKeeps(result.value);
      SortSorts(result.value);
      result := Ok(Sort(result.value));
    }
  }

  lemma DuplicateKey(done: seq<Item>, x: Item)
    requires KeyOf(x) in Keys(done)
    ensures !DistinctKeys(done + [x])
  {
    var y :| y in done && KeyOf(y) == KeyOf(x);
    var j :| 0 <= j < |done| && done[j] == y;
    assert KeyOf((done + [x])[j]) == KeyOf((done + [x])[|done|]);
  }

  lemma MixedIdentity(done: seq<Item>, x: Item, seen: set<RuleKey>, types: map<SkuId, Identity>)
    requires Remembers(done, seen, types)
    requires x.sku in types && types[x.sku] != IdentityOf(x)
    ensures !ConsistentTypes(done + [x])
  {
    var y :| y in done && y.sku == x.sku;
    assert y in done + [x] && x in done + [x] && IdentityOf(y) != IdentityOf(x);
  }

  /** What the patch relies on after normalization. */
  lemma SortedIsAcceptable(items: seq<Item>, sorted: seq<Item>)
    requires Acceptable(items) && StrictlySorted(sorted) && multiset(sorted) == multiset(items)
    ensures Acceptable(sorted)
  {
    assert forall x :: x in sorted <==> x in multiset(sorted);
    assert forall x :: x in items <==> x in multiset(items);
    assert |multiset(sorted)| == |multiset(items)|;
    assert forall i, j :: 0 <= i < j < |sorted| ==>
                            Before(sorted[i], sorted[j]) && KeyOf(sorted[i]) != KeyOf(sorted[j]);
  }
}
