/** The loops that compute a comparison, its scopes and its coverage verdict. */
module FeeReconcile {
  import opened Basics
  import opened SetSums
  import opened FeeComparison

  /** A Python Counter: absent counters read as zero. */
  type Stats = map<Counter, int>

  function Get(stats: Stats, c: Counter): int {
    if c in stats then stats[c] else 0
  }

  function Bump(stats: Stats, c: Counter, n: int): Stats {
    stats[c := Get(stats, c) + n]
  }

  /** Counters fixed while a side is indexed, before any key is compared. */
  predicate PerSide(c: Counter) {
    c.Rows? || c.UnknownKeys? || c.DuplicateKeys? || c.DuplicateExcess?
  }

  // ---------------------------------------------------------------- indexing one side

  ghost function DuplicateAt(rows: seq<Record>): Key -> int {
    (k: Key) => Flag(|RowsAt(rows, k)| > 1)
  }

  ghost function ExcessAt(rows: seq<Record>): Key -> int {
    (k: Key) => if RowsAt(rows, k) == [] then 0 else |RowsAt(rows, k)| - 1
  }

  type Index = map<Key, seq<Record>>

  ghost predicate Indexes(index: Index, rows: seq<Record>) {
    index.Keys == KeysIn(rows) && forall k :: k in index ==> index[k] == RowsAt(rows, k)
  }

  function Grown(index: Index, row: Record): Index {
    match KeyOf(row)
    case None => index
    case Some(k) => index[k := (if k in index then index[k] else []) + [row]]
  }

  /** One more row keeps the index exact. */
  lemma IndexStep(index: Index, done: seq<Record>, row: Record)
    requires Indexes(index, done)
    ensures Indexes(Grown(index, row), done + [row])
    ensures UnknownRows(done + [row]) == UnknownRows(done) + Flag(KeyOf(row).None?)
  {
    forall k
      ensures k in Grown(index, row) <==> k in KeysIn(done + [row])
      ensures k in Grown(index, row) ==> Grown(index, row)[k] == RowsAt(done + [row], k)
    {
      Appended(done, row, k);
      RowsAtKeys(done, k);
    }
    Appended(done, row, Key(0, Promotion, 0, 0, 0));
  }

  method IndexRows(rows: seq<Record>) returns (index: Index, unknown: nat)
    ensures Indexes(index, rows)
    ensures unknown == UnknownRows(rows)
  {
    index, unknown := map[], 0;
    for i := 0 to |rows|
      invariant Indexes(index, rows[..i])
      invariant unknown == UnknownRows(rows[..i])
    {
      IndexStep(index, rows[..i], rows[i]);
      assert rows[..i + 1] == rows[..i] + [rows[i]];
      match KeyOf(rows[i])
      case None => unknown := unknown + 1;
      case Some(k) => index := index[k := (if k in index then index[k] else []) + [rows[i]]];
    }
    assert rows[..|rows|] == rows;
  }

  method CountDuplicates(index: Index, ghost rows: seq<Record>) returns (duplicates: int, excess: int)
    requires Indexes(index, rows)
    ensures duplicates == Sum(KeysIn(rows), DuplicateAt(rows))
    ensures excess == Sum(KeysIn(rows), ExcessAt(rows))
  {
    duplicates, excess := 0, 0;
    var todo := index.Keys;
    ghost var done: set<Key> := {};
    while todo != {}
      invariant done !! todo && done + todo == KeysIn(rows)
      invariant duplicates == Sum(done, DuplicateAt(rows))
      invariant excess == Sum(done, ExcessAt(rows))
    {
      var k :| k in todo;
      RowsAtKeys(rows, k);
      SumPick(done + {k}, DuplicateAt(rows), k);
      SumPick(done + {k}, ExcessAt(rows), k);
      assert done + {k} - {k} == done;
      duplicates := duplicates + (if |index[k]| > 1 then 1 else 0);
      excess := excess + (|index[k]| - 1);
      todo := todo - {k};
      done := done + {k};
    }
    assert done == KeysIn(rows);
  }

  /** What indexing a side counts. */
  datatype Totals = Totals(rows: int, unknown: int, duplicates: int, excess: int)

  ghost predicate Totalled(t: Totals, rows: seq<Record>) {
    && t.rows == |rows|
    && t.unknown == UnknownRows(rows)
    && t.duplicates == Sum(KeysIn(rows), DuplicateAt(rows))
    && t.excess == Sum(KeysIn(rows), ExcessAt(rows))
  }

  method IndexSide(rows: seq<Record>) returns (index: Index, totals: Totals)
    ensures Indexes(index, rows)
    ensures Totalled(totals, rows)
  {
    var unknown, duplicates, excess;
    index, unknown := IndexRows(rows);
    duplicates, excess := CountDuplicates(index, rows);
    totals := Totals(|rows|, unknown, duplicates, excess);
  }

  /** A per-side counter in terms of its own side only. */
  ghost function SideValue(c: Counter, baseline: seq<Record>, system: seq<Record>): int
    requires PerSide(c)
  {
    var rows := if c.side == Baseline then baseline else system;
    match c
    case Rows(_) => |rows|
    case UnknownKeys(_) => UnknownRows(rows)
    case DuplicateKeys(_) => Sum(KeysIn(rows), DuplicateAt(rows))
    case DuplicateExcess(_) => Sum(KeysIn(rows), ExcessAt(rows))
  }

  /** The keys of the other side add nothing to a side's own counters. */
  lemma SideCount(c: Counter, baseline: seq<Record>, system: seq<Record>, receiptBasis: bool)
    requires PerSide(c)
    ensures Count(c, baseline, system, receiptBasis) == SideValue(c, baseline, system)
  {
    var rows := if c.side == Baseline then baseline else system;
    var keys := AllKeys(baseline, system);
    var part := PartAt(c, baseline, system, receiptBasis);
    var others := keys - KeysIn(rows);
    assert keys == KeysIn(rows) + others;
    match c
    case Rows(_) => SumZero(keys, part);
    case UnknownKeys(_) => SumZero(keys, part);
    case DuplicateKeys(_) => SideSum(rows, others, part, DuplicateAt(rows));
    case DuplicateExcess(_) => SideSum(rows, others, part, ExcessAt(rows));
  }

  lemma SideSum(rows: seq<Record>, others: set<Key>, part: Key -> int, own: Key -> int)
    requires others !! KeysIn(rows)
    requires forall k :: part(k) == own(k)
    requires forall k :: RowsAt(rows, k) == [] ==> own(k) == 0
    ensures Sum(KeysIn(rows) + others, part) == Sum(KeysIn(rows), own)
  {
    forall k | k in others
      ensures part(k) == 0
    {
      RowsAtKeys(rows, k);
    }
    SumUnion(KeysIn(rows), others, part);
    SumZero(others, part);
    SumEqual(KeysIn(rows), part, own);
  }

  // ---------------------------------------------------------------- comparing one key

  const FIELDS := [Amount, Rate, Receipt, Sku]

  function Position(f: Field): nat {
    match f
    case Amount => 0
    case Rate => 1
    case Receipt => 2
    case Sku => 3
  }

  function FieldOf(c: Counter): Option<Field> {
    match c
    case UnknownPairs(f) => Some(f)
    case ComparedPairs(f) => Some(f)
    case DifferencePairs(f) => Some(f)
    case DeltaCent(f) => Some(f)
    case _ => None
  }

  method CompareField(stats: Stats, f: Field, before: Record, after: Record, receiptBasis: bool) returns (stats': Stats)
    ensures forall c :: Get(stats', c) == Get(stats, c) +
              if FieldOf(c) == Some(f) then FieldPart(c, before, after, receiptBasis) else 0
  {
    var known := ValueOf(before, f).Some? && ValueOf(after, f).Some?;
    if f == Receipt && !receiptBasis {
      known := false;
    }
    if !known {
      return Bump(stats, UnknownPairs(f), 1);
    }
    stats' := Bump(stats, ComparedPairs(f), 1);
    if ValueOf(before, f) != ValueOf(after, f) {
      stats' := Bump(stats', DifferencePairs(f), 1);
      if f == Amount {
        stats' := Bump(stats', DeltaCent(f), after.amountCent.value - before.amountCent.value);
      } else if f == Receipt {
        stats' := Bump(stats', DeltaCent(f), after.receiptCent.value - before.receiptCent.value);
      }
    }
  }

  method CompareFields(stats: Stats, before: Record, after: Record, receiptBasis: bool) returns (stats': Stats)
    ensures forall c :: Get(stats', c) == Get(stats, c) + FieldPart(c, before, after, receiptBasis)
  {
    stats' := stats;
    for i := 0 to |FIELDS|
      invariant forall c :: Get(stats', c) == Get(stats, c) +
                  if FieldOf(c).Some? && Position(FieldOf(c).value) < i then FieldPart(c, before, after, receiptBasis)
                  else 0
    {
      assert Position(FIELDS[i]) == i;
      stats' := CompareField(stats', FIELDS[i], before, after, receiptBasis);
    }
  }

  method CompareKey(stats: Stats, b: seq<Record>, s: seq<Record>, receiptBasis: bool) returns (stats': Stats)
    requires b != [] || s != []
    ensures forall c :: Get(stats', c) == Get(stats, c) + if PerSide(c) then 0 else KeyPart(c, b, s, receiptBasis)
  {
    if |b| > 1 || |s| > 1 {
      return Bump(stats, Ambiguous, 1);
    }
    if b == [] || s == [] {
      return Bump(stats, Only(if b != [] then Baseline else System), 1);
    }
    stats' := Bump(stats, Matched, 1);
    stats' := CompareFields(stats', b[0], s[0], receiptBasis);
  }

  // ---------------------------------------------------------------- the whole comparison

  ghost predicate Complete(stats: Stats, baseline: seq<Record>, system: seq<Record>, receiptBasis: bool) {
    forall c :: Get(stats, c) == Count(c, baseline, system, receiptBasis)
  }

  /** The per-side counters are final and the others cover the keys in `done`. */
  ghost predicate Progress(stats: Stats, done: set<Key>, baseline: seq<Record>, system: seq<Record>,
                           receiptBasis: bool) {
    forall c :: Get(stats, c) ==
      if PerSide(c) then SideValue(c, baseline, system) else Sum(done, PartAt(c, baseline, system, receiptBasis))
  }

  lemma ProgressStep(stats: Stats, stats': Stats, done: set<Key>, k: Key, baseline: seq<Record>, system: seq<Record>,
                     receiptBasis: bool)
    requires Progress(stats, done, baseline, system, receiptBasis) && k !in done
    requires forall c :: Get(stats', c) == Get(stats, c) +
               if PerSide(c) then 0 else KeyPart(c, RowsAt(baseline, k), RowsAt(system, k), receiptBasis)
    ensures Progress(stats', done + {k}, baseline, system, receiptBasis)
  {
    assert done + {k} - {k} == done;
    forall c
      ensures Sum(done + {k}, PartAt(c, baseline, system, receiptBasis))
           == Sum(done, PartAt(c, baseline, system, receiptBasis)) +
              KeyPart(c, RowsAt(baseline, k), RowsAt(system, k), receiptBasis)
    {
      SumPick(done + {k}, PartAt(c, baseline, system, receiptBasis), k);
    }
  }

  lemma ProgressEnd(stats: Stats, baseline: seq<Record>, system: seq<Record>, receiptBasis: bool)
    requires Progress(stats, AllKeys(baseline, system), baseline, system, receiptBasis)
    ensures Complete(stats, baseline, system, receiptBasis)
  {
    forall c
      ensures Get(stats, c) == Count(c, baseline, system, receiptBasis)
    {
      if PerSide(c) {
        SideCount(c, baseline, system, receiptBasis);
      }
    }
  }

  function TotalAt(c: Counter, left: Totals, right: Totals): int
    requires PerSide(c)
  {
    var side := if c.side == Baseline then left else right;
    match c
    case Rows(_) => side.rows
    case UnknownKeys(_) => side.unknown
    case DuplicateKeys(_) => side.duplicates
    case DuplicateExcess(_) => side.excess
  }

  function InitialStats(left: Totals, right: Totals): Stats {
    map[Matched := 0,
        Rows(Baseline) := left.rows, UnknownKeys(Baseline) := left.unknown,
        DuplicateKeys(Baseline) := left.duplicates, DuplicateExcess(Baseline) := left.excess,
        Rows(System) := right.rows, UnknownKeys(System) := right.unknown,
        DuplicateKeys(System) := right.duplicates, DuplicateExcess(System) := right.excess]
  }

  lemma InitialAt(left: Totals, right: Totals, c: Counter)
    ensures Get(InitialStats(left, right), c) == if PerSide(c) then TotalAt(c, left, right) else 0
  {
  }

  method IndexBoth(baseline: seq<Record>, system: seq<Record>, receiptBasis: bool)
    returns (stats: Stats, left: Index, right: Index)
    ensures Indexes(left, baseline) && Indexes(right, system)
    ensures Progress(stats, {}, baseline, system, receiptBasis)
  {
    var totalsL, totalsR;
    left, totalsL := IndexSide(baseline);
    right, totalsR := IndexSide(system);
    stats := InitialStats(totalsL, totalsR);
    NoKeysYet(totalsL, totalsR, baseline, system, receiptBasis);
  }

  lemma NoKeysYet(left: Totals, right: Totals, baseline: seq<Record>, system: seq<Record>, receiptBasis: bool)
    requires Totalled(left, baseline) && Totalled(right, system)
    ensures Progress(InitialStats(left, right), {}, baseline, system, receiptBasis)
  {
    forall c
      ensures Get(InitialStats(left, right), c) ==
              if PerSide(c) then SideValue(c, baseline, system) else Sum({}, PartAt(c, baseline, system, receiptBasis))
    {
      InitialAt(left, right, c);
    }
  }

  /** Index both sides, then compare key by key: every counter ends at its meaning. */
  method CompareRecords(baseline: seq<Record>, system: seq<Record>, receiptBasis: bool) returns (stats: Stats)
    ensures Complete(stats, baseline, system, receiptBasis)
  {
    var left, right;
    stats, left, right := IndexBoth(baseline, system, receiptBasis);
    var todo := left.Keys + right.Keys;
    ghost var done: set<Key> := {};
    while todo != {}
      invariant done !! todo && done + todo == AllKeys(baseline, system)
      invariant Progress(stats, done, baseline, system, receiptBasis)
    {
      var k :| k in todo;
      RowsAtKeys(baseline, k);
      RowsAtKeys(system, k);
      var b := if k in left then left[k] else [];
      var s := if k in right then right[k] else [];
      ghost var before := stats;
      stats := CompareKey(stats, b, s, receiptBasis);
      ProgressStep(before, stats, done, k, baseline, system, receiptBasis);
      todo := todo - {k};
      done := done + {k};
    }
    assert done == AllKeys(baseline, system);
    ProgressEnd(stats, baseline, system, receiptBasis);
  }

  // ---------------------------------------------------------------- scopes and coverage

  ghost function CounterAt(byScope: map<Scope, Stats>, c: Counter): Scope -> int {
    (scope: Scope) => if scope in byScope then Get(byScope[scope], c) else 0
  }

  /** All keys of the side are known and none is used twice. */
  ghost predicate Resolved(rows: seq<Record>) {
    && (forall r :: r in rows ==> KeyOf(r).Some?)
    && (forall k :: k in KeysIn(rows) ==> |RowsAt(rows, k)| == 1)
  }

  ghost predicate ScopesComplete(byScope: map<Scope, Stats>, baseline: seq<Record>, system: seq<Record>,
                                 receiptBasis: bool) {
    forall scope :: scope in byScope ==>
      Complete(byScope[scope], Within(baseline, {scope}), Within(system, {scope}), receiptBasis)
  }

  method CompareScopes(baseline: seq<Record>, system: seq<Record>, receiptBasis: bool)
    returns (byScope: map<Scope, Stats>)
    ensures byScope.Keys == ScopesOf(baseline) + ScopesOf(system)
    ensures ScopesComplete(byScope, baseline, system, receiptBasis)
  {
    byScope := map[];
    var todo := ScopesOf(baseline) + ScopesOf(system);
    while todo != {}
      invariant byScope.Keys !! todo && byScope.Keys + todo == ScopesOf(baseline) + ScopesOf(system)
      invariant ScopesComplete(byScope, baseline, system, receiptBasis)
    {
      var scope :| scope in todo;
      var scoped := CompareRecords(Within(baseline, {scope}), Within(system, {scope}), receiptBasis);
      byScope := byScope[scope := scoped];
      todo := todo - {scope};
    }
  }

  lemma TotalsAddUp(total: Stats, byScope: map<Scope, Stats>, c: Counter, baseline: seq<Record>, system: seq<Record>,
                    receiptBasis: bool)
    requires Complete(total, baseline, system, receiptBasis)
    requires byScope.Keys == ScopesOf(baseline) + ScopesOf(system) &&
             ScopesComplete(byScope, baseline, system, receiptBasis)
    ensures Get(total, c) == Sum(byScope.Keys, CounterAt(byScope, c))
  {
    ScopeDecomposition(c, baseline, system, receiptBasis);
    forall scope | scope in byScope
      ensures ScopedCount(c, baseline, system, receiptBasis)(scope) == CounterAt(byScope, c)(scope)
    {
    }
    SumEqual(byScope.Keys, ScopedCount(c, baseline, system, receiptBasis), CounterAt(byScope, c));
  }

  lemma CoverageMeans(side: Side, baseline: seq<Record>, system: seq<Record>, receiptBasis: bool)
    ensures Count(UnknownKeys(side), baseline, system, receiptBasis) == 0 &&
            Count(DuplicateKeys(side), baseline, system, receiptBasis) == 0
            <==> Resolved(if side == Baseline then baseline else system)
  {
    SideCount(UnknownKeys(side), baseline, system, receiptBasis);
    SideCount(DuplicateKeys(side), baseline, system, receiptBasis);
    ResolvedMeans(if side == Baseline then baseline else system);
  }

  /**
   * Compare everything, then each (month, direction) scope on its own: every total is the sum of
   * its scoped parts, and coverage is complete exactly when all keys are known and unique.
   */
  method Reconcile(baseline: seq<Record>, system: seq<Record>, receiptBasis: bool)
    returns (total: Stats, byScope: map<Scope, Stats>, complete: bool)
    ensures Complete(total, baseline, system, receiptBasis)
    ensures byScope.Keys == ScopesOf(baseline) + ScopesOf(system) &&
            ScopesComplete(byScope, baseline, system, receiptBasis)
    ensures forall c :: Get(total, c) == Sum(byScope.Keys, CounterAt(byScope, c))
    ensures complete <==> Resolved(baseline) && Resolved(system)
  {
    total := CompareRecords(baseline, system, receiptBasis);
    byScope := CompareScopes(baseline, system, receiptBasis);
    complete := Get(total, UnknownKeys(Baseline)) == 0 && Get(total, DuplicateKeys(Baseline)) == 0
                && Get(total, UnknownKeys(System)) == 0 && Get(total, DuplicateKeys(System)) == 0;
    CoverageMeans(Baseline, baseline, system, receiptBasis);
    CoverageMeans(System, baseline, system, receiptBasis);
    forall c
      ensures Get(total, c) == Sum(byScope.Keys, CounterAt(byScope, c))
    {
      TotalsAddUp(total, byScope, c, baseline, system, receiptBasis);
    }
  }

  lemma {:induction false} NoUnknownRows(rows: seq<Record>)
    ensures UnknownRows(rows) == 0 <==> forall r :: r in rows ==> KeyOf(r).Some?
  {
    if rows != [] {
      var front, last := rows[..|rows| - 1], rows[|rows| - 1];
      assert rows == front + [last];
      NoUnknownRows(front);
    }
  }

  lemma ResolvedMeans(rows: seq<Record>)
    ensures Resolved(rows) <==> UnknownRows(rows) == 0 && Sum(KeysIn(rows), DuplicateAt(rows)) == 0
  {
    NoUnknownRows(rows);
    forall k | k in KeysIn(rows)
      ensures |RowsAt(rows, k)| >= 1
    {
      RowsAtKeys(rows, k);
    }
    if forall k :: k in KeysIn(rows) ==> |RowsAt(rows, k)| == 1 {
      SumZero(KeysIn(rows), DuplicateAt(rows));
    } else {
      var k :| k in KeysIn(rows) && |RowsAt(rows, k)| != 1;
      SumPick(KeysIn(rows), DuplicateAt(rows), k);
      SumAtMost(KeysIn(rows) - {k}, (x: Key) => 0, DuplicateAt(rows));
      SumZero(KeysIn(rows) - {k}, (x: Key) => 0);
    }
  }
}
