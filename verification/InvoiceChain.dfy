/** Deciding whether the invoices of one store and number form a single version chain. */
module InvoiceChain {
  import opened Basics

  datatype InvoiceId = InvoiceId(n: int)
  datatype StoreId = StoreId(n: int)
  datatype Number = Number(n: int)
  datatype GroupKey = GroupKey(store: StoreId, number: Number)

  datatype Invoice = Invoice(
    id: InvoiceId,
    store: StoreId,
    number: Number,
    version: int,
    registeredAt: int,
    supersedes: Option<InvoiceId>,
    isCurrent: bool)
  {
    function Key(): GroupKey {
      GroupKey(store, number)
    }
  }

  ghost predicate DistinctIds(rows: seq<Invoice>) {
    forall i, j :: 0 <= i < j < |rows| ==> rows[i].id != rows[j].id
  }

  // ---------------------------------------------------------------- list comprehensions over invoices

  datatype Query = Roots | ChildrenOf(parent: InvoiceId) | Current | Group(key: GroupKey)

  predicate Matches(row: Invoice, q: Query) {
    match q
    case Roots => row.supersedes.None?
    case ChildrenOf(parent) => row.supersedes == Some(parent)
    case Current => row.isCurrent
    case Group(key) => row.Key() == key
  }

  /** `[row for row in rows if ...]` */
  function Select(rows: seq<Invoice>, q: Query): seq<Invoice> {
    if rows == [] then []
    else
      var last := rows[|rows| - 1];
      Select(rows[..|rows| - 1], q) + (if Matches(last, q) then [last] else [])
  }

  lemma {:induction false} SelectMembers(rows: seq<Invoice>, q: Query)
    ensures forall x :: x in Select(rows, q) <==> x in rows && Matches(x, q)
  {
    if rows != [] {
      SelectMembers(rows[..|rows| - 1], q);
      assert rows == rows[..|rows| - 1] + [rows[|rows| - 1]];
    }
  }

  lemma SelectNone(rows: seq<Invoice>, q: Query)
    requires forall y :: y in rows ==> !Matches(y, q)
    ensures Select(rows, q) == []
  {
    SelectMembers(rows, q);
    var s := Select(rows, q);
    assert forall i :: 0 <= i < |s| ==> s[i] in s;
  }

  lemma SelectStep(rows: seq<Invoice>, i: nat, q: Query)
    requires i < |rows|
    ensures Select(rows[..i + 1], q) == Select(rows[..i], q) + if Matches(rows[i], q) then [rows[i]] else []
  {
    assert rows[..i + 1][..i] == rows[..i];
  }

  lemma {:induction false} SelectDistinct(rows: seq<Invoice>, q: Query)
    requires DistinctIds(rows)
    ensures DistinctIds(Select(rows, q))
  {
    if rows != [] {
      var front := Select(rows[..|rows| - 1], q);
      SelectDistinct(rows[..|rows| - 1], q);
      SelectMembers(rows[..|rows| - 1], q);
      assert forall i :: 0 <= i < |front| ==> front[i] in rows[..|rows| - 1];
    }
  }

  /** The only match is the whole selection. */
  lemma {:induction false} SelectOnly(rows: seq<Invoice>, q: Query, x: Invoice)
    requires DistinctIds(rows) && x in rows && Matches(x, q)
    requires forall y :: y in rows && Matches(y, q) ==> y == x
    ensures Select(rows, q) == [x]
  {
    var front, last := rows[..|rows| - 1], rows[|rows| - 1];
    assert rows == front + [last];
    if last == x {
      assert forall y :: y in front ==> y.id != x.id;
      SelectNone(front, q);
    } else {
      SelectOnly(front, q, x);
    }
  }

  // ---------------------------------------------------------------- what a version chain is

  ghost function Predecessor(p: seq<Invoice>, i: nat): Option<InvoiceId>
    requires i <= |p|
  {
    if i == 0 then None else Some(p[i - 1].id)
  }

  /**
   * First to last: the first supersedes nothing, each next the one before, versions count from 1, only the last is
   * current.
   */
  ghost predicate IsChain(p: seq<Invoice>) {
    && p != []
    && (forall i {:trigger Predecessor(p, i)} :: 0 <= i < |p| ==> p[i].supersedes == Predecessor(p, i))
    && (forall i :: 0 <= i < |p| ==> p[i].version == i + 1)
    && (forall i :: 0 <= i < |p| ==> (p[i].isCurrent <==> i == |p| - 1))
  }

  ghost predicate Ordering(p: seq<Invoice>, group: seq<Invoice>) {
    multiset(p) == multiset(group) && IsChain(p)
  }

  ghost predicate IsVersionChain(group: seq<Invoice>) {
    exists p :: Ordering(p, group)
  }

  lemma SameMembers(p: seq<Invoice>, group: seq<Invoice>)
    requires multiset(p) == multiset(group)
    ensures |p| == |group|
    ensures forall x :: x in p <==> x in group
  {
    assert |multiset(p)| == |multiset(group)|;
    assert forall x :: x in p <==> x in multiset(p);
    assert forall x :: x in group <==> x in multiset(group);
  }

  lemma {:induction false} IndexOf(rows: seq<Invoice>, x: Invoice) returns (i: nat)
    requires x in rows
    ensures i < |rows| && rows[i] == x
  {
    i :| 0 <= i < |rows| && rows[i] == x;
  }

  lemma SameId(rows: seq<Invoice>, x: Invoice, y: Invoice)
    requires DistinctIds(rows) && x in rows && y in rows && x.id == y.id
    ensures x == y
  {
    var i := IndexOf(rows, x);
    var j := IndexOf(rows, y);
  }

  /** In a chain the only root is the first row and the only current row the last. */
  lemma ChainEnds(p: seq<Invoice>, group: seq<Invoice>)
    requires DistinctIds(group) && Ordering(p, group)
    ensures Select(group, Roots) == [p[0]]
    ensures Select(group, Current) == [p[|p| - 1]]
  {
    SameMembers(p, group);
    forall y | y in group
      ensures Matches(y, Roots) <==> y == p[0]
      ensures Matches(y, Current) <==> y == p[|p| - 1]
    {
      var i := IndexOf(p, y);
      assert p[i].supersedes == Predecessor(p, i) && p[0].version == 1;
    }
    SelectOnly(group, Roots, p[0]);
    SelectOnly(group, Current, p[|p| - 1]);
  }

  lemma OnlyRoot(p: seq<Invoice>, group: seq<Invoice>, y: Invoice)
    requires Ordering(p, group) && y in group && y.supersedes.None?
    ensures y == p[0]
  {
    SameMembers(p, group);
    var i := IndexOf(p, y);
    assert p[i].supersedes == Predecessor(p, i);
  }

  lemma OnlyChild(p: seq<Invoice>, group: seq<Invoice>, k: nat, y: Invoice)
    requires DistinctIds(group) && Ordering(p, group) && k < |p|
    requires y in group && y.supersedes == Some(p[k].id)
    ensures k + 1 < |p| && y == p[k + 1]
  {
    SameMembers(p, group);
    var i := IndexOf(p, y);
    assert p[i].supersedes == Predecessor(p, i);
    SameId(group, p[i - 1], p[k]);
    assert p[i - 1].version == p[k].version;
  }

  /** In a chain the children of each row are exactly the next one. */
  lemma ChainChildren(p: seq<Invoice>, group: seq<Invoice>, k: nat)
    requires DistinctIds(group) && Ordering(p, group) && k < |p|
    ensures Select(group, ChildrenOf(p[k].id)) == if k + 1 < |p| then [p[k + 1]] else []
  {
    SameMembers(p, group);
    forall y | y in group && Matches(y, ChildrenOf(p[k].id))
      ensures k + 1 < |p| && y == p[k + 1]
    {
      OnlyChild(p, group, k, y);
    }
    if k + 1 < |p| {
      assert p[k + 1].supersedes == Predecessor(p, k + 1);
      SelectOnly(group, ChildrenOf(p[k].id), p[k + 1]);
    } else {
      SelectNone(group, ChildrenOf(p[k].id));
    }
  }

  // ---------------------------------------------------------------- the walk

  /** `walk` starts at a root, follows links within the group, counts versions and repeats no row. */
  ghost predicate IsWalk(walk: seq<Invoice>, group: seq<Invoice>) {
    && (forall i :: 0 <= i < |walk| ==> walk[i] in group)
    && (forall i {:trigger Predecessor(walk, i)} :: 0 <= i < |walk| ==> walk[i].supersedes == Predecessor(walk, i))
    && (forall i :: 0 <= i < |walk| ==> walk[i].version == i + 1)
    && DistinctIds(walk)
  }

  /** Following a link to a row that counts on leads to a row not visited before. */
  lemma WalkExtends(walk: seq<Invoice>, group: seq<Invoice>, next: Invoice)
    requires IsWalk(walk, group) && next in group
    requires next.supersedes == Predecessor(walk, |walk|) && next.version == |walk| + 1
    requires DistinctIds(group)
    ensures IsWalk(walk + [next], group)
  {
    var longer := walk + [next];
    forall i | 0 <= i < |walk|
      ensures walk[i].id != next.id
    {
      if walk[i].id == next.id {
        SameId(group, walk[i], next);
      }
    }
    forall i | 0 <= i < |longer|
      ensures longer[i] in group
      ensures longer[i].supersedes == Predecessor(longer, i)
      ensures longer[i].version == i + 1
    {
      assert Predecessor(longer, i) == Predecessor(walk, i);
    }
  }

  lemma {:induction false} DistinctPart(walk: seq<Invoice>, group: seq<Invoice>)
    requires DistinctIds(walk) && (forall x :: x in walk ==> x in group)
    ensures multiset(walk) <= multiset(group)
  {
    forall x | x in multiset(walk)
      ensures multiset(walk)[x] <= multiset(group)[x]
    {
      assert x in walk;
      OccursOnce(walk, x);
    }
  }

  lemma {:induction false} OccursOnce(rows: seq<Invoice>, x: Invoice)
    requires DistinctIds(rows) && x in rows
    ensures multiset(rows)[x] == 1
  {
    var i := IndexOf(rows, x);
    assert rows == rows[..i] + [x] + rows[i + 1..];
    assert x !in rows[..i] && x !in rows[i + 1..];
  }

  /** A walk over as many rows as the group has is an ordering of the group. */
  lemma FullWalk(walk: seq<Invoice>, group: seq<Invoice>)
    requires IsWalk(walk, group)
    ensures |walk| <= |group|
    ensures |walk| == |group| ==> multiset(walk) == multiset(group)
  {
    DistinctPart(walk, group);
    var rest := multiset(group) - multiset(walk);
    assert multiset(group) == multiset(walk) + rest;
  }

  lemma ChildCount(p: seq<Invoice>, group: seq<Invoice>, parent: InvoiceId)
    requires DistinctIds(group) && Ordering(p, group) && parent in Ids(group)
    ensures |Select(group, ChildrenOf(parent))| <= 1
  {
    SameMembers(p, group);
    var x :| x in group && x.id == parent;
    var k := IndexOf(p, x);
    ChainChildren(p, group, k);
  }

  /** A walk can only follow the ordering of a chain. */
  lemma {:induction false} WalkFollowsChain(p: seq<Invoice>, group: seq<Invoice>, walk: seq<Invoice>, i: nat)
    requires DistinctIds(group) && Ordering(p, group) && IsWalk(walk, group) && i < |walk|
    ensures i < |p| && walk[i] == p[i]
  {
    assert walk[i] in group && walk[i].supersedes == Predecessor(walk, i);
    if i == 0 {
      OnlyRoot(p, group, walk[0]);
    } else {
      WalkFollowsChain(p, group, walk, i - 1);
      OnlyChild(p, group, i - 1, walk[i]);
    }
  }

  /** The walk has reached a row that nothing in the group supersedes. */
  ghost predicate Ended(walk: seq<Invoice>, group: seq<Invoice>) {
    walk != [] && Select(group, ChildrenOf(walk[|walk| - 1].id)) == []
  }

  /** The first row to supersede the walk's last row does not count on from it. */
  ghost predicate Miscounts(walk: seq<Invoice>, group: seq<Invoice>) {
    walk != [] &&
    var next := Select(group, ChildrenOf(walk[|walk| - 1].id));
    next != [] && next[0].version != |walk| + 1
  }

  /** A chain's walk ends with the chain and never miscounts. */
  lemma WalkOfChain(p: seq<Invoice>, group: seq<Invoice>, walk: seq<Invoice>)
    requires DistinctIds(group) && Ordering(p, group) && IsWalk(walk, group) && walk != []
    ensures !Miscounts(walk, group)
    ensures Ended(walk, group) ==> walk == p
  {
    WalkFollowsChain(p, group, walk, |walk| - 1);
    ChainChildren(p, group, |walk| - 1);
    if Ended(walk, group) {
      forall i | 0 <= i < |walk|
        ensures walk[i] == p[i]
      {
        WalkFollowsChain(p, group, walk, i);
      }
    }
  }

  /** A full walk that ends in the only current row is an ordering. */
  lemma WalkIsOrdering(walk: seq<Invoice>, group: seq<Invoice>, current: Invoice)
    requires DistinctIds(group) && IsWalk(walk, group) && walk != [] && |walk| == |group|
    requires Select(group, Current) == [current] && walk[|walk| - 1].id == current.id
    ensures Ordering(walk, group)
  {
    FullWalk(walk, group);
    SelectMembers(group, Current);
    assert current in [current];
    SameId(group, walk[|walk| - 1], current);
    forall i | 0 <= i < |walk|
      ensures walk[i].isCurrent <==> i == |walk| - 1
    {
      assert walk[i].isCurrent ==> walk[i] in [current];
    }
  }

  lemma IdsGrow(walk: seq<Invoice>, next: Invoice)
    requires DistinctIds(walk + [next])
    ensures Ids(walk + [next]) == Ids(walk) + {next.id}
    ensures next.id !in Ids(walk)
  {
    var longer := walk + [next];
    assert longer[|walk|] == next;
    assert forall i :: 0 <= i < |walk| ==> longer[i] == walk[i] && longer[i].id != longer[|walk|].id;
  }

  /** Follow the links from the root; `revisited` tells whether the walk came back to a row it had seen. */
  method FollowLinks(group: seq<Invoice>, root: Invoice, children: map<InvoiceId, seq<Invoice>>)
    returns (chain: seq<Invoice>, counts: bool, ghost revisited: bool)
    requires DistinctIds(group) && root in group && root.supersedes.None? && root.version == 1
    requires forall k :: k in children <==> k in Ids(group) && Select(group, ChildrenOf(k)) != []
    requires forall k :: k in children ==> children[k] == Select(group, ChildrenOf(k))
    ensures IsWalk(chain, group)
    ensures if counts then Ended(chain, group) else Miscounts(chain, group)
    ensures !revisited
  {
    chain, counts, revisited := [], true, true;
    var cursor := root;
    var seen: set<InvoiceId> := {};
    WalkExtends([], group, root);
    assert [] + [root] == [root];
    while cursor.id !in seen
      invariant IsWalk(chain + [cursor], group)
      invariant seen == Ids(chain)
      invariant cursor.id !in seen
      decreases |group| - |chain|
    {
      FullWalk(chain + [cursor], group);
      IdsGrow(chain, cursor);
      seen := seen + {cursor.id};
      chain := chain + [cursor];
      assert cursor == chain[|chain| - 1] && cursor.id in Ids(group);
      if cursor.id !in children {
        revisited := false;
        break;
      }
      var next: Invoice := children[cursor.id][0];
      if next.version != cursor.version + 1 {
        counts, revisited := false, false;
        break;
      }
      SelectMembers(group, ChildrenOf(cursor.id));
      assert next in Select(group, ChildrenOf(cursor.id));
      WalkExtends(chain, group, next);
      IdsGrow(chain, next);
      cursor := next;
    }
  }

  /** Decide whether the group is one version chain, and give its order if it is. */
  method WalkChain(group: seq<Invoice>) returns (valid: bool, chain: seq<Invoice>)
    requires DistinctIds(group)
    ensures valid <==> IsVersionChain(group)
    ensures valid ==> Ordering(chain, group)
  {
    chain := [];
    var roots := Select(group, Roots);
    var currentRows := Select(group, Current);
    var children := ChildLists(group);
    valid := |roots| == 1 && roots[0].version == 1 && |currentRows| == 1
             && forall k :: k in children ==> |children[k]| <= 1;
    if valid {
      SelectMembers(group, Roots);
      assert roots[0] in roots;
      ghost var revisited;
      chain, valid, revisited := FollowLinks(group, roots[0], children);
      if IsVersionChain(group) {
        ghost var p :| Ordering(p, group);
        WalkOfChain(p, group, chain);
        ChainEnds(p, group);
        SameMembers(p, group);
      }
      valid := valid && |chain| == |group| && chain[|chain| - 1].id == currentRows[0].id;
      if valid {
        WalkIsOrdering(chain, group, currentRows[0]);
      }
    } else if IsVersionChain(group) {
      ghost var p :| Ordering(p, group);
      ChainEnds(p, group);
      forall k | k in children
        ensures |children[k]| <= 1
      {
        ChildCount(p, group, k);
      }
    }
  }

  function Ids(rows: seq<Invoice>): set<InvoiceId> {
    set x | x in rows :: x.id
  }

  /** The rows of the group by the row they supersede, for parents inside the group. */
  method ChildLists(group: seq<Invoice>) returns (children: map<InvoiceId, seq<Invoice>>)
    ensures forall k :: k in children <==> k in Ids(group) && Select(group, ChildrenOf(k)) != []
    ensures forall k :: k in children ==> children[k] == Select(group, ChildrenOf(k))
  {
    children := map[];
    var ids := Ids(group);
    for i := 0 to |group|
      invariant forall k :: k in children <==> k in ids && Select(group[..i], ChildrenOf(k)) != []
      invariant forall k :: k in children ==> children[k] == Select(group[..i], ChildrenOf(k))
    {
      var row := group[i];
      forall k
        ensures Select(group[..i + 1], ChildrenOf(k)) ==
                Select(group[..i], ChildrenOf(k)) + if row.supersedes == Some(k) then [row] else []
      {
        SelectStep(group, i, ChildrenOf(k));
      }
      if row.supersedes.Some? && row.supersedes.value in ids {
        var parent := row.supersedes.value;
        children := children[parent := (if parent in children then children[parent] else []) + [row]];
      }
    }
    assert group[..|group|] == group;
  }
}
