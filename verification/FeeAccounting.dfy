/** What the counters of a comparison add up to, and what they do not depend on. */
module FeeAccounting {
  import opened Basics
  import opened SetSums
  import opened FeeComparison

  ghost function SizeAt(rows: seq<Record>): Key -> int {
    (k: Key) => |RowsAt(rows, k)|
  }

  /** Every row has an unknown key or is one of the rows of its key. */
  lemma {:induction false} RowsByKey(rows: seq<Record>, keys: set<Key>)
    requires KeysIn(rows) <= keys
    ensures |rows| == UnknownRows(rows) + Sum(keys, SizeAt(rows))
  {
    if rows == [] {
      SumZero(keys, SizeAt(rows));
    } else {
      var front, last := rows[..|rows| - 1], rows[|rows| - 1];
      assert rows == front + [last];
      RowsByKey(front, keys);
      match KeyOf(last)
      case None =>
        SumEqual(keys, SizeAt(front), SizeAt(rows));
      case Some(k) =>
        assert k in KeysIn(rows);
        SumPick(keys, SizeAt(front), k);
        SumPick(keys, SizeAt(rows), k);
        SumEqual(keys - {k}, SizeAt(front), SizeAt(rows));
    }
  }

  lemma PresentKeys(rows: seq<Record>, keys: set<Key>, present: Key -> int)
    requires KeysIn(rows) <= keys
    requires forall k :: k in keys ==> present(k) == Flag(k in KeysIn(rows))
    ensures Sum(keys, present) == |KeysIn(rows)|
  {
    var absent := keys - KeysIn(rows);
    assert keys == KeysIn(rows) + absent;
    SumUnion(KeysIn(rows), absent, present);
    SumOnes(KeysIn(rows), present);
    SumZero(absent, present);
  }

  /** Each side's rows are its unknown-key rows, its distinct keys and its duplicate excess. */
  lemma RowsAccounted(side: Side, baseline: seq<Record>, system: seq<Record>, receiptBasis: bool)
    ensures Count(Rows(side), baseline, system, receiptBasis)
         == Count(UnknownKeys(side), baseline, system, receiptBasis)
          + |KeysIn(if side == Baseline then baseline else system)|
          + Count(DuplicateExcess(side), baseline, system, receiptBasis)
  {
    var rows := if side == Baseline then baseline else system;
    var keys := AllKeys(baseline, system);
    RowsByKey(rows, keys);
    SumZero(keys, PartAt(Rows(side), baseline, system, receiptBasis));
    SumZero(keys, PartAt(UnknownKeys(side), baseline, system, receiptBasis));
    var present := (k: Key) => Flag(k in KeysIn(rows));
    PresentKeys(rows, keys, present);
    forall k | k in keys
      ensures SizeAt(rows)(k) == present(k) + PartAt(DuplicateExcess(side), baseline, system, receiptBasis)(k)
    {
      RowsAtKeys(rows, k);
    }
    SumPlus(keys, present, PartAt(DuplicateExcess(side), baseline, system, receiptBasis), SizeAt(rows));
  }

  /** The keys of both sides split into matched, one-sided and ambiguous ones. */
  lemma KeysAccounted(baseline: seq<Record>, system: seq<Record>, receiptBasis: bool)
    ensures |AllKeys(baseline, system)|
         == Count(Matched, baseline, system, receiptBasis) + Count(Ambiguous, baseline, system, receiptBasis)
          + Count(Only(Baseline), baseline, system, receiptBasis) + Count(Only(System), baseline, system, receiptBasis)
  {
    var matched, ambiguous := PartAt(Matched, baseline, system, receiptBasis),
                              PartAt(Ambiguous, baseline, system, receiptBasis);
    var left, right := PartAt(Only(Baseline), baseline, system, receiptBasis),
                       PartAt(Only(System), baseline, system, receiptBasis);
    forall k | k in AllKeys(baseline, system)
      ensures matched(k) + ambiguous(k) + left(k) + right(k) == 1
    {
      RowsAtKeys(baseline, k);
      RowsAtKeys(system, k);
    }
    SumPartition(AllKeys(baseline, system), matched, ambiguous, left, right);
  }

  /** For every field, matched keys are either compared or unknown, and only compared ones can differ. */
  lemma PairsAccounted(f: Field, baseline: seq<Record>, system: seq<Record>, receiptBasis: bool)
    ensures Count(Matched, baseline, system, receiptBasis)
         == Count(ComparedPairs(f), baseline, system, receiptBasis) +
            Count(UnknownPairs(f), baseline, system, receiptBasis)
    ensures Count(DifferencePairs(f), baseline, system, receiptBasis) <=
            Count(ComparedPairs(f), baseline, system, receiptBasis)
  {
    var keys := AllKeys(baseline, system);
    var compared, unknown := PartAt(ComparedPairs(f), baseline, system, receiptBasis),
                             PartAt(UnknownPairs(f), baseline, system, receiptBasis);
    var matched, differing := PartAt(Matched, baseline, system, receiptBasis),
                              PartAt(DifferencePairs(f), baseline, system, receiptBasis);
    forall k | k in keys
      ensures matched(k) == compared(k) + unknown(k)
      ensures differing(k) <= compared(k)
    {
      FieldParts(f, RowsAt(baseline, k), RowsAt(system, k), receiptBasis);
    }
    SumPlus(keys, compared, unknown, matched);
    SumAtMost(keys, differing, compared);
  }

  lemma FieldParts(f: Field, b: seq<Record>, s: seq<Record>, receiptBasis: bool)
    ensures KeyPart(Matched, b, s, receiptBasis) ==
            KeyPart(ComparedPairs(f), b, s, receiptBasis) + KeyPart(UnknownPairs(f), b, s, receiptBasis)
    ensures KeyPart(DifferencePairs(f), b, s, receiptBasis) <= KeyPart(ComparedPairs(f), b, s, receiptBasis)
  {
  }

  // ---------------------------------------------------------------- swapping the sides

  function Other(side: Side): Side {
    if side == Baseline then System else Baseline
  }

  /** The counter that plays the same role once the sides are swapped. */
  function Mirror(c: Counter): Counter {
    match c
    case Rows(side) => Rows(Other(side))
    case UnknownKeys(side) => UnknownKeys(Other(side))
    case DuplicateKeys(side) => DuplicateKeys(Other(side))
    case DuplicateExcess(side) => DuplicateExcess(Other(side))
    case Only(side) => Only(Other(side))
    case _ => c
  }

  /** Swapping the sides swaps the one-sided counters and negates the deltas. */
  lemma SwapMirrors(c: Counter, baseline: seq<Record>, system: seq<Record>, receiptBasis: bool)
    ensures Count(Mirror(c), system, baseline, receiptBasis)
         == if c.DeltaCent? then -Count(c, baseline, system, receiptBasis) else Count(c, baseline, system, receiptBasis)
  {
    var keys := AllKeys(baseline, system);
    assert AllKeys(system, baseline) == keys;
    if c.DeltaCent? {
      SumNegated(keys, PartAt(c, baseline, system, receiptBasis), PartAt(Mirror(c), system, baseline, receiptBasis));
    } else {
      SumEqual(keys, PartAt(Mirror(c), system, baseline, receiptBasis), PartAt(c, baseline, system, receiptBasis));
    }
  }

  // ---------------------------------------------------------------- input order

  lemma {:induction false} RowsAtCounts(rows: seq<Record>, k: Key, r: Record)
    ensures multiset(RowsAt(rows, k))[r] == if KeyOf(r) == Some(k) then multiset(rows)[r] else 0
  {
    if rows != [] {
      var front, last := rows[..|rows| - 1], rows[|rows| - 1];
      assert rows == front + [last];
      RowsAtCounts(front, k, r);
    }
  }

  /** Reordering the rows reorders the rows of each key and nothing else. */
  lemma Reordered(a: seq<Record>, b: seq<Record>, k: Key)
    requires multiset(a) == multiset(b)
    ensures |RowsAt(a, k)| == |RowsAt(b, k)|
    ensures |RowsAt(a, k)| == 1 ==> RowsAt(a, k) == RowsAt(b, k)
  {
    forall r
      ensures multiset(RowsAt(a, k))[r] == multiset(RowsAt(b, k))[r]
    {
      RowsAtCounts(a, k, r);
      RowsAtCounts(b, k, r);
    }
    assert multiset(RowsAt(a, k)) == multiset(RowsAt(b, k));
    assert |multiset(RowsAt(a, k))| == |multiset(RowsAt(b, k))|;
    if |RowsAt(a, k)| == 1 {
      assert RowsAt(b, k)[0] in multiset(RowsAt(b, k));
    }
  }

  lemma ReorderedTotals(a: seq<Record>, b: seq<Record>)
    requires multiset(a) == multiset(b)
    ensures |a| == |b| && KeysIn(a) == KeysIn(b) && UnknownRows(a) == UnknownRows(b)
  {
    assert |multiset(a)| == |multiset(b)|;
    forall k
      ensures k in KeysIn(a) <==> k in KeysIn(b)
      ensures SizeAt(a)(k) == SizeAt(b)(k)
    {
      RowsAtKeys(a, k);
      RowsAtKeys(b, k);
      Reordered(a, b, k);
    }
    RowsByKey(a, KeysIn(a));
    RowsByKey(b, KeysIn(a));
    SumEqual(KeysIn(a), SizeAt(a), SizeAt(b));
  }

  /** No counter depends on the order of either input. */
  lemma OrderIrrelevant(c: Counter, baseline: seq<Record>, system: seq<Record>, baseline': seq<Record>,
                        system': seq<Record>, receiptBasis: bool)
    requires multiset(baseline) == multiset(baseline') && multiset(system) == multiset(system')
    ensures Count(c, baseline, system, receiptBasis) == Count(c, baseline', system', receiptBasis)
  {
    ReorderedTotals(baseline, baseline');
    ReorderedTotals(system, system');
    var keys := AllKeys(baseline, system);
    forall k | k in keys
      ensures PartAt(c, baseline, system, receiptBasis)(k) == PartAt(c, baseline', system', receiptBasis)(k)
    {
      Reordered(baseline, baseline', k);
      Reordered(system, system', k);
    }
    SumEqual(keys, PartAt(c, baseline, system, receiptBasis), PartAt(c, baseline', system', receiptBasis));
  }
}
