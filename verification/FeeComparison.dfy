/** Comparing two lists of coupon fee records: what each counter of the comparison means. */
module FeeComparison {
  import opened Basics
  import opened SetSums

  /** Identifiers are only compared; an integer stands for each text. */
  type Text = int

  datatype Direction = Promotion | Management

  datatype Record = Record(
    month: Option<Text>,
    direction: Option<Direction>,
    order: Option<Text>,
    coupon: Option<Text>,
    store: Option<Text>,
    amountCent: Option<int>,
    rate: Option<real>,
    receiptCent: Option<int>,
    sku: Option<Text>)

  datatype Key = Key(month: Text, direction: Direction, order: Text, coupon: Text, store: Text)

  datatype Scope = Scope(month: Option<Text>, direction: Option<Direction>)

  function KeyOf(r: Record): Option<Key> {
    if r.month.Some? && r.direction.Some? && r.order.Some? && r.coupon.Some? && r.store.Some?
    then Some(Key(r.month.value, r.direction.value, r.order.value, r.coupon.value, r.store.value))
    else None
  }

  function ScopeOf(r: Record): Scope {
    Scope(r.month, r.direction)
  }

  function KeyScope(k: Key): Scope {
    Scope(Some(k.month), Some(k.direction))
  }

  datatype Side = Baseline | System
  datatype Field = Amount | Rate | Receipt | Sku

  datatype Counter =
    | Rows(side: Side)
    | UnknownKeys(side: Side)
    | DuplicateKeys(side: Side)
    | DuplicateExcess(side: Side)
    | Ambiguous
    | Only(side: Side)
    | Matched
    | UnknownPairs(field: Field)
    | ComparedPairs(field: Field)
    | DifferencePairs(field: Field)
    | DeltaCent(field: Field)

  // ---------------------------------------------------------------- the records of one key

  function RowsAt(rows: seq<Record>, k: Key): seq<Record> {
    if rows == [] then []
    else
      var front := RowsAt(rows[..|rows| - 1], k);
      if KeyOf(rows[|rows| - 1]) == Some(k) then front + [rows[|rows| - 1]] else front
  }

  function KeysIn(rows: seq<Record>): set<Key> {
    set r | r in rows && KeyOf(r).Some? :: KeyOf(r).value
  }

  function UnknownRows(rows: seq<Record>): nat {
    if rows == [] then 0
    else UnknownRows(rows[..|rows| - 1]) + (if KeyOf(rows[|rows| - 1]).None? then 1 else 0)
  }

  lemma {:induction false} RowsAtKeys(rows: seq<Record>, k: Key)
    ensures k in KeysIn(rows) <==> RowsAt(rows, k) != []
    ensures forall r :: r in RowsAt(rows, k) ==> r in rows && KeyOf(r) == Some(k)
  {
    if rows != [] {
      var front, last := rows[..|rows| - 1], rows[|rows| - 1];
      assert rows == front + [last];
      RowsAtKeys(front, k);
      assert k in KeysIn(rows) <==> k in KeysIn(front) || KeyOf(last) == Some(k);
    }
  }

  lemma Appended(rows: seq<Record>, r: Record, k: Key)
    ensures UnknownRows(rows + [r]) == UnknownRows(rows) + (if KeyOf(r).None? then 1 else 0)
    ensures RowsAt(rows + [r], k) == if KeyOf(r) == Some(k) then RowsAt(rows, k) + [r] else RowsAt(rows, k)
    ensures KeysIn(rows + [r]) == KeysIn(rows) + (if KeyOf(r).Some? then {KeyOf(r).value} else {})
  {
    assert (rows + [r])[..|rows|] == rows;
  }

  // ---------------------------------------------------------------- what a matched pair contributes

  datatype Value = Cents(cents: int) | Fraction(rate: real) | Code(text: Text)

  function ValueOf(r: Record, f: Field): Option<Value> {
    match f
    case Amount => if r.amountCent.Some? then Some(Cents(r.amountCent.value)) else None
    case Rate => if r.rate.Some? then Some(Fraction(r.rate.value)) else None
    case Receipt => if r.receiptCent.Some? then Some(Cents(r.receiptCent.value)) else None
    case Sku => if r.sku.Some? then Some(Code(r.sku.value)) else None
  }

  /** Both values are known; receipts also need the system's receipt basis to be the order receipt. */
  predicate Known(f: Field, before: Record, after: Record, receiptBasis: bool) {
    ValueOf(before, f).Some? && ValueOf(after, f).Some? && (f == Receipt ==> receiptBasis)
  }

  function Delta(f: Field, before: Record, after: Record): int {
    match (f, before, after)
    case (Amount, _, _) => after.amountCent.GetOr(0) - before.amountCent.GetOr(0)
    case (Receipt, _, _) => after.receiptCent.GetOr(0) - before.receiptCent.GetOr(0)
    case _ => 0
  }

  function Flag(b: bool): int {
    if b then 1 else 0
  }

  function FieldPart(c: Counter, before: Record, after: Record, receiptBasis: bool): int {
    match c
    case UnknownPairs(f) => Flag(!Known(f, before, after, receiptBasis))
    case ComparedPairs(f) => Flag(Known(f, before, after, receiptBasis))
    case DifferencePairs(f) => Flag(Known(f, before, after, receiptBasis) && ValueOf(before, f) != ValueOf(after, f))
    case DeltaCent(f) => if Known(f, before, after, receiptBasis) then Delta(f, before, after) else 0
    case _ => 0
  }

  /** What one key adds to a counter, given its baseline rows and its system rows. */
  function KeyPart(c: Counter, b: seq<Record>, s: seq<Record>, receiptBasis: bool): int {
    match c
    case Rows(_) => 0
    case UnknownKeys(_) => 0
    case DuplicateKeys(side) => Flag(|if side == Baseline then b else s| > 1)
    case DuplicateExcess(side) => var n := |if side == Baseline then b else s|; if n == 0 then 0 else n - 1
    case Ambiguous => Flag(|b| > 1 || |s| > 1)
    case Only(side) => Flag(if side == Baseline then |b| == 1 && |s| == 0 else |b| == 0 && |s| == 1)
    case Matched => Flag(|b| == 1 && |s| == 1)
    case _ => if |b| == 1 && |s| == 1 then FieldPart(c, b[0], s[0], receiptBasis) else 0
  }

  function RowPart(c: Counter, baseline: seq<Record>, system: seq<Record>): int {
    match c
    case Rows(side) => |if side == Baseline then baseline else system|
    case UnknownKeys(side) => UnknownRows(if side == Baseline then baseline else system)
    case _ => 0
  }

  ghost function PartAt(c: Counter, baseline: seq<Record>, system: seq<Record>, receiptBasis: bool): Key -> int {
    (k: Key) => KeyPart(c, RowsAt(baseline, k), RowsAt(system, k), receiptBasis)
  }

  function AllKeys(baseline: seq<Record>, system: seq<Record>): set<Key> {
    KeysIn(baseline) + KeysIn(system)
  }

  /** The value of a counter, whatever order the comparison visits rows and keys in. */
  ghost function Count(c: Counter, baseline: seq<Record>, system: seq<Record>, receiptBasis: bool): int {
    RowPart(c, baseline, system) + Sum(AllKeys(baseline, system), PartAt(c, baseline, system, receiptBasis))
  }

  // ---------------------------------------------------------------- scopes

  /** The records whose scope is one of `scopes`, in order. */
  function Within(rows: seq<Record>, scopes: set<Scope>): seq<Record> {
    if rows == [] then []
    else
      var front := Within(rows[..|rows| - 1], scopes);
      if ScopeOf(rows[|rows| - 1]) in scopes then front + [rows[|rows| - 1]] else front
  }

  function ScopesOf(rows: seq<Record>): set<Scope> {
    set r | r in rows :: ScopeOf(r)
  }

  /** Splitting the scopes splits rows and unknown rows, and keeps each key's rows together. */
  lemma {:induction false} WithinSplits(rows: seq<Record>, t: set<Scope>, u: set<Scope>)
    requires t !! u
    ensures |Within(rows, t + u)| == |Within(rows, t)| + |Within(rows, u)|
    ensures UnknownRows(Within(rows, t + u)) == UnknownRows(Within(rows, t)) + UnknownRows(Within(rows, u))
  {
    if rows != [] {
      var front, last := rows[..|rows| - 1], rows[|rows| - 1];
      WithinSplits(front, t, u);
      Appended(Within(front, t + u), last, Key(0, Promotion, 0, 0, 0));
      Appended(Within(front, t), last, Key(0, Promotion, 0, 0, 0));
      Appended(Within(front, u), last, Key(0, Promotion, 0, 0, 0));
    }
  }

  lemma {:induction false} WithinRowsAt(rows: seq<Record>, t: set<Scope>, k: Key)
    ensures RowsAt(Within(rows, t), k) == if KeyScope(k) in t then RowsAt(rows, k) else []
  {
    if rows != [] {
      var front, last := rows[..|rows| - 1], rows[|rows| - 1];
      WithinRowsAt(front, t, k);
      Appended(Within(front, t), last, k);
    }
  }

  lemma WithinKeys(rows: seq<Record>, t: set<Scope>)
    ensures KeysIn(Within(rows, t)) == set k | k in KeysIn(rows) && KeyScope(k) in t
  {
    forall k
      ensures k in KeysIn(Within(rows, t)) <==> k in KeysIn(rows) && KeyScope(k) in t
    {
      RowsAtKeys(Within(rows, t), k);
      RowsAtKeys(rows, k);
      WithinRowsAt(rows, t, k);
    }
  }

  lemma {:induction false} WithinAll(rows: seq<Record>, t: set<Scope>)
    requires ScopesOf(rows) <= t
    ensures Within(rows, t) == rows
  {
    if rows != [] {
      var front, last := rows[..|rows| - 1], rows[|rows| - 1];
      assert rows == front + [last];
      assert ScopeOf(last) in ScopesOf(rows) && ScopesOf(front) <= ScopesOf(rows);
      WithinAll(front, t);
    }
  }

  /** A key's contribution is the same whether its scope is looked at alone or with others. */
  lemma SameParts(c: Counter, baseline: seq<Record>, system: seq<Record>, receiptBasis: bool, t: set<Scope>,
                  all: set<Scope>)
    requires t <= all
    ensures Sum(AllKeys(Within(baseline, t), Within(system, t)),
                PartAt(c, Within(baseline, t), Within(system, t), receiptBasis))
         == Sum(AllKeys(Within(baseline, t), Within(system, t)),
                PartAt(c, Within(baseline, all), Within(system, all), receiptBasis))
  {
    WithinKeys(baseline, t);
    WithinKeys(system, t);
    var keys := AllKeys(Within(baseline, t), Within(system, t));
    forall k | k in keys
      ensures PartAt(c, Within(baseline, t), Within(system, t), receiptBasis)(k)
           == PartAt(c, Within(baseline, all), Within(system, all), receiptBasis)(k)
    {
      WithinRowsAt(baseline, t, k);
      WithinRowsAt(system, t, k);
      WithinRowsAt(baseline, all, k);
      WithinRowsAt(system, all, k);
    }
    SumEqual(keys, PartAt(c, Within(baseline, t), Within(system, t), receiptBasis),
             PartAt(c, Within(baseline, all), Within(system, all), receiptBasis));
  }

  lemma KeysSplit(baseline: seq<Record>, system: seq<Record>, t: set<Scope>, u: set<Scope>)
    requires t !! u
    ensures AllKeys(Within(baseline, t + u), Within(system, t + u))
         == AllKeys(Within(baseline, t), Within(system, t)) + AllKeys(Within(baseline, u), Within(system, u))
    ensures AllKeys(Within(baseline, t), Within(system, t)) !! AllKeys(Within(baseline, u), Within(system, u))
  {
    WithinKeys(baseline, t);
    WithinKeys(system, t);
    WithinKeys(baseline, u);
    WithinKeys(system, u);
    WithinKeys(baseline, t + u);
    WithinKeys(system, t + u);
  }

  /** Counters add up over disjoint sets of scopes. */
  lemma CountSplits(c: Counter, baseline: seq<Record>, system: seq<Record>, receiptBasis: bool, t: set<Scope>,
                    u: set<Scope>)
    requires t !! u
    ensures Count(c, Within(baseline, t + u), Within(system, t + u), receiptBasis)
         == Count(c, Within(baseline, t), Within(system, t), receiptBasis)
          + Count(c, Within(baseline, u), Within(system, u), receiptBasis)
  {
    WithinSplits(baseline, t, u);
    WithinSplits(system, t, u);
    SameParts(c, baseline, system, receiptBasis, t, t + u);
    SameParts(c, baseline, system, receiptBasis, u, t + u);
    KeysSplit(baseline, system, t, u);
    SumUnion(AllKeys(Within(baseline, t), Within(system, t)), AllKeys(Within(baseline, u), Within(system, u)),
             PartAt(c, Within(baseline, t + u), Within(system, t + u), receiptBasis));
  }

  ghost function ScopedCount(c: Counter, baseline: seq<Record>, system: seq<Record>, receiptBasis: bool): Scope -> int {
    (scope: Scope) => Count(c, Within(baseline, {scope}), Within(system, {scope}), receiptBasis)
  }

  lemma {:induction false} CountOverScopes(c: Counter, baseline: seq<Record>, system: seq<Record>, receiptBasis: bool,
                                           t: set<Scope>)
    ensures Count(c, Within(baseline, t), Within(system, t), receiptBasis) ==
            Sum(t, ScopedCount(c, baseline, system, receiptBasis))
  {
    if t == {} {
      WithinNone(baseline);
      WithinNone(system);
    } else {
      var scope :| scope in t;
      var rest := t - {scope};
      assert t == rest + {scope};
      CountOverScopes(c, baseline, system, receiptBasis, rest);
      CountSplits(c, baseline, system, receiptBasis, rest, {scope});
      SumPick(t, ScopedCount(c, baseline, system, receiptBasis), scope);
    }
  }

  lemma {:induction false} WithinNone(rows: seq<Record>)
    ensures Within(rows, {}) == []
  {
    if rows != [] {
      WithinNone(rows[..|rows| - 1]);
    }
  }

  /**
   * Every counter of the whole comparison, signed cent deltas included, is the sum of that counter
   * over the (month, direction) scopes, for any records, also those with unknown keys.
   */
  lemma ScopeDecomposition(c: Counter, baseline: seq<Record>, system: seq<Record>, receiptBasis: bool)
    ensures Count(c, baseline, system, receiptBasis)
         == Sum(ScopesOf(baseline) + ScopesOf(system), ScopedCount(c, baseline, system, receiptBasis))
  {
    var all := ScopesOf(baseline) + ScopesOf(system);
    WithinAll(baseline, all);
    WithinAll(system, all);
    CountOverScopes(c, baseline, system, receiptBasis, all);
  }
}
