/** What the counters of a comparison count, by the fields of the records. */
module FeeMeaning {
  import opened Basics
  import opened SetSums
  import opened FeeComparison

  // ---------------------------------------------------------------- where a key occurs

  ghost predicate HasKey(r: Record, k: Key) {
    && r.month == Some(k.month) && r.direction == Some(k.direction) && r.order == Some(k.order)
    && r.coupon == Some(k.coupon) && r.store == Some(k.store)
  }

  ghost predicate KeyUnknown(r: Record) {
    r.month.None? || r.direction.None? || r.order.None? || r.coupon.None? || r.store.None?
  }

  /** The positions of the records with a key, and of those without one. */
  ghost function Places(rows: seq<Record>, k: Key): set<int> {
    set i | 0 <= i < |rows| && HasKey(rows[i], k)
  }

  ghost function UnknownPlaces(rows: seq<Record>): set<int> {
    set i | 0 <= i < |rows| && KeyUnknown(rows[i])
  }

  lemma PlacesStep(rows: seq<Record>, k: Key)
    requires rows != []
    ensures var n := |rows| - 1;
            && Places(rows, k) == Places(rows[..n], k) + (if HasKey(rows[n], k) then {n} else {})
            && |Places(rows, k)| == |Places(rows[..n], k)| + if HasKey(rows[n], k) then 1 else 0
  {
    var n := |rows| - 1;
    assert Places(rows, k) == Places(rows[..n], k) + (if HasKey(rows[n], k) then {n} else {});
    assert n !in Places(rows[..n], k);
  }

  lemma {:induction false} RowsAtSize(rows: seq<Record>, k: Key)
    ensures |RowsAt(rows, k)| == |Places(rows, k)|
  {
    if rows != [] {
      RowsAtSize(rows[..|rows| - 1], k);
      PlacesStep(rows, k);
    }
  }

  lemma {:induction false} RowsAtPlace(rows: seq<Record>, k: Key, i: int)
    requires i in Places(rows, k)
    ensures rows[i] in RowsAt(rows, k)
  {
    if i < |rows| - 1 {
      RowsAtPlace(rows[..|rows| - 1], k, i);
    }
  }

  lemma {:induction false} PlaceOfRow(rows: seq<Record>, k: Key, r: Record) returns (i: int)
    requires r in RowsAt(rows, k)
    ensures i in Places(rows, k) && rows[i] == r
  {
    var n := |rows| - 1;
    if r in RowsAt(rows[..n], k) {
      i := PlaceOfRow(rows[..n], k, r);
    } else {
      i := n;
    }
  }

  lemma {:induction false} UnknownRowsArePlaces(rows: seq<Record>)
    ensures UnknownRows(rows) == |UnknownPlaces(rows)|
  {
    if rows != [] {
      var n := |rows| - 1;
      UnknownRowsArePlaces(rows[..n]);
      assert UnknownPlaces(rows) == UnknownPlaces(rows[..n]) + if KeyUnknown(rows[n]) then {n} else {};
      assert n !in UnknownPlaces(rows[..n]);
    }
  }

  /** The keys that occur on either side. */
  lemma KeysAre(baseline: seq<Record>, system: seq<Record>, k: Key)
    ensures k in AllKeys(baseline, system) <==> Places(baseline, k) != {} || Places(system, k) != {}
  {
    RowsAtKeys(baseline, k);
    RowsAtKeys(system, k);
    RowsAtSize(baseline, k);
    RowsAtSize(system, k);
  }

  /** The key has exactly one record on the side, `r`. */
  ghost predicate Alone(rows: seq<Record>, k: Key, r: Record) {
    |Places(rows, k)| == 1 && exists i :: i in Places(rows, k) && rows[i] == r
  }

  ghost predicate Paired(baseline: seq<Record>, system: seq<Record>, k: Key) {
    |Places(baseline, k)| == 1 && |Places(system, k)| == 1
  }

  lemma OnlyRow(rows: seq<Record>, k: Key) returns (r: Record)
    requires |Places(rows, k)| == 1
    ensures RowsAt(rows, k) == [r] && Alone(rows, k, r)
    ensures forall other :: Alone(rows, k, other) ==> other == r
  {
    RowsAtSize(rows, k);
    r := RowsAt(rows, k)[0];
    var place := PlaceOfRow(rows, k, r);
    forall other | Alone(rows, k, other)
      ensures other == r
    {
      var i :| i in Places(rows, k) && rows[i] == other;
      RowsAtPlace(rows, k, i);
    }
  }

  // ---------------------------------------------------------------- the fields of a pair

  ghost predicate BothKnown(f: Field, before: Record, after: Record, receiptBasis: bool) {
    match f
    case Amount => before.amountCent.Some? && after.amountCent.Some?
    case Rate => before.rate.Some? && after.rate.Some?
    case Receipt => receiptBasis && before.receiptCent.Some? && after.receiptCent.Some?
    case Sku => before.sku.Some? && after.sku.Some?
  }

  ghost predicate Unequal(f: Field, before: Record, after: Record) {
    match f
    case Amount => before.amountCent != after.amountCent
    case Rate => before.rate != after.rate
    case Receipt => before.receiptCent != after.receiptCent
    case Sku => before.sku != after.sku
  }

  /** The pair of a key can be compared in the field, and whether it differs there. */
  ghost predicate Comparable(f: Field, baseline: seq<Record>, system: seq<Record>, receiptBasis: bool, k: Key) {
    exists before, after ::
      Alone(baseline, k, before) && Alone(system, k, after) && BothKnown(f, before, after, receiptBasis)
  }

  ghost predicate Differs(f: Field, baseline: seq<Record>, system: seq<Record>, receiptBasis: bool, k: Key) {
    exists before, after ::
      Alone(baseline, k, before) && Alone(system, k, after) && BothKnown(f, before, after, receiptBasis) &&
      Unequal(f, before, after)
  }

  lemma PairParts(f: Field, baseline: seq<Record>, system: seq<Record>, receiptBasis: bool, k: Key)
    requires Paired(baseline, system, k)
    ensures var b, s := RowsAt(baseline, k), RowsAt(system, k);
            && KeyPart(ComparedPairs(f), b, s, receiptBasis) == Flag(Comparable(f, baseline, system, receiptBasis, k))
            && KeyPart(UnknownPairs(f), b, s, receiptBasis) == Flag(!Comparable(f, baseline, system, receiptBasis, k))
            && KeyPart(DifferencePairs(f), b, s, receiptBasis) == Flag(Differs(f, baseline, system, receiptBasis, k))
  {
    var before := OnlyRow(baseline, k);
    var after := OnlyRow(system, k);
    assert Known(f, before, after, receiptBasis) <==> BothKnown(f, before, after, receiptBasis);
  }

  // ---------------------------------------------------------------- the counters

  lemma {:induction false} SumOfFlags<T>(s: set<T>, f: T -> int, chosen: set<T>)
    requires chosen <= s && forall x :: x in s ==> f(x) == if x in chosen then 1 else 0
    ensures Sum(s, f) == |chosen|
  {
    assert s == chosen + (s - chosen);
    SumUnion(chosen, s - chosen, f);
    SumOnes(chosen, f);
    SumZero(s - chosen, f);
  }

  /** A counter that only keys add to, one each, is the number of those keys. */
  lemma CounterIsSize(c: Counter, baseline: seq<Record>, system: seq<Record>, receiptBasis: bool, chosen: set<Key>)
    requires !c.Rows? && !c.UnknownKeys? && chosen <= AllKeys(baseline, system)
    requires forall k :: k in AllKeys(baseline, system) ==>
               PartAt(c, baseline, system, receiptBasis)(k) == if k in chosen then 1 else 0
    ensures Count(c, baseline, system, receiptBasis) == |chosen|
  {
    SumOfFlags(AllKeys(baseline, system), PartAt(c, baseline, system, receiptBasis), chosen);
  }

  /** How often a key occurs decides which of the key counters it adds to. */
  lemma PartsOfKey(baseline: seq<Record>, system: seq<Record>, receiptBasis: bool, k: Key)
    ensures var b, s, m, n := RowsAt(baseline, k), RowsAt(system, k), |Places(baseline, k)|, |Places(system, k)|;
            && KeyPart(Matched, b, s, receiptBasis) == Flag(m == 1 && n == 1)
            && KeyPart(Ambiguous, b, s, receiptBasis) == Flag(m > 1 || n > 1)
            && KeyPart(Only(Baseline), b, s, receiptBasis) == Flag(m == 1 && n == 0)
            && KeyPart(Only(System), b, s, receiptBasis) == Flag(m == 0 && n == 1)
            && KeyPart(DuplicateKeys(Baseline), b, s, receiptBasis) == Flag(m > 1)
            && KeyPart(DuplicateKeys(System), b, s, receiptBasis) == Flag(n > 1)
            && KeyPart(DuplicateExcess(Baseline), b, s, receiptBasis) == (if m == 0 then 0 else m - 1)
            && KeyPart(DuplicateExcess(System), b, s, receiptBasis) == (if n == 0 then 0 else n - 1)
  {
    RowsAtSize(baseline, k);
    RowsAtSize(system, k);
  }

  ghost predicate OccursAs(c: Counter, m: nat, n: nat) {
    match c
    case Matched => m == 1 && n == 1
    case Ambiguous => m > 1 || n > 1
    case Only(side) => if side == Baseline then m == 1 && n == 0 else m == 0 && n == 1
    case DuplicateKeys(side) => if side == Baseline then m > 1 else n > 1
    case _ => false
  }

  /** The keys that occur as often on the two sides as the counter asks for. */
  ghost function Occurring(c: Counter, baseline: seq<Record>, system: seq<Record>): set<Key> {
    set k | k in AllKeys(baseline, system) && OccursAs(c, |Places(baseline, k)|, |Places(system, k)|)
  }

  /**
   * Matched keys have one record on each side, ambiguous ones several on some side, one-sided ones a single record
   * in all, and repeated ones several on their side.
   */
  lemma KeyCounters(c: Counter, baseline: seq<Record>, system: seq<Record>, receiptBasis: bool)
    requires c.Matched? || c.Ambiguous? || c.Only? || c.DuplicateKeys?
    ensures Count(c, baseline, system, receiptBasis) == |Occurring(c, baseline, system)|
  {
    var chosen := Occurring(c, baseline, system);
    forall k | k in AllKeys(baseline, system)
      ensures PartAt(c, baseline, system, receiptBasis)(k) == if k in chosen then 1 else 0
    {
      PartsOfKey(baseline, system, receiptBasis, k);
    }
    CounterIsSize(c, baseline, system, receiptBasis, chosen);
  }

  /** The records of a side are all counted, and so are those without a key. */
  lemma RowCounters(side: Side, baseline: seq<Record>, system: seq<Record>, receiptBasis: bool)
    ensures var rows := if side == Baseline then baseline else system;
            && Count(Rows(side), baseline, system, receiptBasis) == |rows|
            && Count(UnknownKeys(side), baseline, system, receiptBasis) == |UnknownPlaces(rows)|
  {
    var keys := AllKeys(baseline, system);
    UnknownRowsArePlaces(if side == Baseline then baseline else system);
    SumZero(keys, PartAt(Rows(side), baseline, system, receiptBasis));
    SumZero(keys, PartAt(UnknownKeys(side), baseline, system, receiptBasis));
  }

  /** The excess of a side is the sum, over its keys, of the records after the first. */
  lemma ExcessCounter(side: Side, baseline: seq<Record>, system: seq<Record>, receiptBasis: bool, excess: Key -> int)
    requires var rows := if side == Baseline then baseline else system;
             forall k :: k in AllKeys(baseline, system) ==>
               excess(k) == if |Places(rows, k)| == 0 then 0 else |Places(rows, k)| - 1
    ensures Count(DuplicateExcess(side), baseline, system, receiptBasis) == Sum(AllKeys(baseline, system), excess)
  {
    var keys := AllKeys(baseline, system);
    forall k | k in keys
      ensures PartAt(DuplicateExcess(side), baseline, system, receiptBasis)(k) == excess(k)
    {
      PartsOfKey(baseline, system, receiptBasis, k);
    }
    SumEqual(keys, PartAt(DuplicateExcess(side), baseline, system, receiptBasis), excess);
  }

  /** A key without a pair adds nothing to the field counters. */
  lemma NoPairNoPart(f: Field, baseline: seq<Record>, system: seq<Record>, receiptBasis: bool, k: Key)
    requires !Paired(baseline, system, k)
    ensures var b, s := RowsAt(baseline, k), RowsAt(system, k);
            && KeyPart(ComparedPairs(f), b, s, receiptBasis) == 0 && KeyPart(UnknownPairs(f), b, s, receiptBasis) == 0
            && KeyPart(DifferencePairs(f), b, s, receiptBasis) == 0 && KeyPart(DeltaCent(f), b, s, receiptBasis) == 0
    ensures !Comparable(f, baseline, system, receiptBasis, k) && !Differs(f, baseline, system, receiptBasis, k)
  {
    RowsAtSize(baseline, k);
    RowsAtSize(system, k);
  }

  ghost predicate PairAs(c: Counter, baseline: seq<Record>, system: seq<Record>, receiptBasis: bool, k: Key) {
    match c
    case ComparedPairs(f) => Comparable(f, baseline, system, receiptBasis, k)
    case UnknownPairs(f) => Paired(baseline, system, k) && !Comparable(f, baseline, system, receiptBasis, k)
    case DifferencePairs(f) => Differs(f, baseline, system, receiptBasis, k)
    case _ => false
  }

  /** Pairs are compared where both values are known, and counted as different where the known values differ. */
  lemma FieldCounters(c: Counter, baseline: seq<Record>, system: seq<Record>, receiptBasis: bool)
    requires c.ComparedPairs? || c.UnknownPairs? || c.DifferencePairs?
    ensures Count(c, baseline, system, receiptBasis)
         == |set k | k in AllKeys(baseline, system) && PairAs(c, baseline, system, receiptBasis, k)|
  {
    var chosen := set k | k in AllKeys(baseline, system) && PairAs(c, baseline, system, receiptBasis, k);
    forall k | k in AllKeys(baseline, system)
      ensures PartAt(c, baseline, system, receiptBasis)(k) == if k in chosen then 1 else 0
    {
      if Paired(baseline, system, k) {
        PairParts(c.field, baseline, system, receiptBasis, k);
      } else {
        NoPairNoPart(c.field, baseline, system, receiptBasis, k);
      }
    }
    CounterIsSize(c, baseline, system, receiptBasis, chosen);
  }

  /** The cents of the system's record less those of the baseline's. */
  ghost function CentsBetween(f: Field, before: Record, after: Record): int
    requires (f == Amount || f == Receipt) && BothKnown(f, before, after, true)
  {
    if f == Amount then after.amountCent.value - before.amountCent.value
    else after.receiptCent.value - before.receiptCent.value
  }

  /** A delta counter is the sum, over the keys that differ, of system cents less baseline cents. */
  lemma DeltaCounters(f: Field, baseline: seq<Record>, system: seq<Record>, receiptBasis: bool, gap: Key -> int)
    requires f == Amount || f == Receipt
    requires forall k, before, after ::
               Alone(baseline, k, before) && Alone(system, k, after) && BothKnown(f, before, after, receiptBasis)
               ==> gap(k) == CentsBetween(f, before, after)
    ensures Count(DeltaCent(f), baseline, system, receiptBasis)
         == Sum((set k | k in AllKeys(baseline, system) && Differs(f, baseline, system, receiptBasis, k)), gap)
  {
    var keys := AllKeys(baseline, system);
    var differing := set k | k in keys && Differs(f, baseline, system, receiptBasis, k);
    var part := PartAt(DeltaCent(f), baseline, system, receiptBasis);
    assert keys == differing + (keys - differing);
    forall k | k in keys
      ensures part(k) == if k in differing then gap(k) else 0
    {
      DeltaAt(f, baseline, system, receiptBasis, gap, k);
    }
    SumUnion(differing, keys - differing, part);
    SumEqual(differing, part, gap);
    SumZero(keys - differing, part);
  }

  lemma DeltaAt(f: Field, baseline: seq<Record>, system: seq<Record>, receiptBasis: bool, gap: Key -> int, k: Key)
    requires f == Amount || f == Receipt
    requires forall before, after ::
               Alone(baseline, k, before) && Alone(system, k, after) && BothKnown(f, before, after, receiptBasis)
               ==> gap(k) == CentsBetween(f, before, after)
    ensures KeyPart(DeltaCent(f), RowsAt(baseline, k), RowsAt(system, k), receiptBasis)
         == if Differs(f, baseline, system, receiptBasis, k) then gap(k) else 0
  {
    if Paired(baseline, system, k) {
      var before := OnlyRow(baseline, k);
      var after := OnlyRow(system, k);
      assert Known(f, before, after, receiptBasis) <==> BothKnown(f, before, after, receiptBasis);
    } else {
      NoPairNoPart(f, baseline, system, receiptBasis, k);
    }
  }

  // ---------------------------------------------------------------- scopes

  /** The records of a scope are those of its month and direction, each as often as in the whole list. */
  lemma {:induction false} ScopeHolds(rows: seq<Record>, month: Option<Text>, direction: Option<Direction>, r: Record)
    ensures multiset(Within(rows, {Scope(month, direction)}))[r]
         == if r.month == month && r.direction == direction then multiset(rows)[r] else 0
  {
    if rows != [] {
      var front, last := rows[..|rows| - 1], rows[|rows| - 1];
      assert rows == front + [last];
      ScopeHolds(front, month, direction, r);
    }
  }

  /** The scopes are the pairs of month and direction that occur. */
  lemma ScopesAre(rows: seq<Record>, month: Option<Text>, direction: Option<Direction>)
    ensures Scope(month, direction) in ScopesOf(rows) <==>
            exists r :: r in rows && r.month == month && r.direction == direction
  {
    if r :| r in rows && r.month == month && r.direction == direction {
      assert ScopeOf(r) == Scope(month, direction);
    }
  }
}
