/** The backfill of physical ids, version kinds, the number registry and the exception table. */
module InvoiceBackfill {
  import opened Basics
  import opened InvoiceChain

  /** Digests of a store and number, or of an invoice id, taken to be free of collisions. */
  datatype PhysicalId = OfGroup(key: GroupKey) | OfInvoice(id: InvoiceId)

  datatype Reason = NumberUsedByMultipleStores | AmbiguousVersionChain

  datatype Entry = Entry(physical: PhysicalId, first: InvoiceId, store: StoreId, registeredAt: int)

  type Physical = map<InvoiceId, PhysicalId>
  type Kinds = map<InvoiceId, int>
  type Registry = map<Number, Entry>
  type Exceptions = map<InvoiceId, Reason>

  /** The columns and tables the backfill fills. */
  datatype Tables = Tables(physical: Physical, kinds: Kinds, registry: Registry, exceptions: Exceptions)

  function StoresOf(rows: seq<Invoice>, number: Number): set<StoreId> {
    set x | x in rows && x.number == number :: x.store
  }

  ghost predicate ValidGroup(rows: seq<Invoice>, key: GroupKey) {
    IsVersionChain(Select(rows, Group(key)))
  }

  /** The group needs a human: its number is shared between stores or its versions are no chain. */
  ghost predicate Exceptional(rows: seq<Invoice>, key: GroupKey) {
    |StoresOf(rows, key.number)| > 1 || !ValidGroup(rows, key)
  }

  function PhysicalOf(valid: bool, row: Invoice): PhysicalId {
    if valid then OfGroup(row.Key()) else OfInvoice(row.id)
  }

  function KindOf(valid: bool, row: Invoice): int {
    if valid && row.supersedes.Some? then 2 else 1
  }

  /** What the backfill owes one invoice. */
  ghost predicate Settled(rows: seq<Invoice>, row: Invoice, t: Tables) {
    var valid := ValidGroup(rows, row.Key());
    && row.id in t.physical && t.physical[row.id] == PhysicalOf(valid, row)
    && row.id in t.kinds && t.kinds[row.id] == KindOf(valid, row)
    && (row.id in t.exceptions <==> Exceptional(rows, row.Key()))
    && (row.id in t.exceptions ==>
          t.exceptions[row.id] == if |StoresOf(rows, row.number)| > 1 then NumberUsedByMultipleStores
                                  else AmbiguousVersionChain)
    && (row.id !in t.exceptions ==> row.number in t.registry)
  }

  /** A registry entry stands for one whole, unambiguous group and names its first version. */
  ghost predicate Registered(rows: seq<Invoice>, number: Number, e: Entry) {
    var key := GroupKey(e.store, number);
    && !Exceptional(rows, key)
    && e.physical == OfGroup(key)
    && exists first :: first in rows && first.Key() == key && first.supersedes.None? &&
                       first.id == e.first && first.registeredAt == e.registeredAt
  }

  ghost predicate Backfilled(rows: seq<Invoice>, t: Tables) {
    && (forall row :: row in rows ==> Settled(rows, row, t))
    && (forall n :: n in t.registry ==> Registered(rows, n, t.registry[n]))
  }

  // ---------------------------------------------------------------- what the backfill guarantees

  lemma TwoStores(rows: seq<Invoice>, a: Invoice, b: Invoice)
    requires a in rows && b in rows && a.number == b.number && a.store != b.store
    ensures |StoresOf(rows, a.number)| > 1
  {
    var stores := StoresOf(rows, a.number);
    assert a.store in stores && b.store in stores;
    assert {a.store, b.store} <= stores;
    SubsetSize({a.store, b.store}, stores);
  }

  lemma InGroup(rows: seq<Invoice>, row: Invoice)
    requires row in rows
    ensures row in Select(rows, Group(row.Key()))
  {
    SelectMembers(rows, Group(row.Key()));
  }

  /** Within a version chain, versions tell rows apart and only one row is current. */
  lemma ChainSeparates(group: seq<Invoice>, a: Invoice, b: Invoice)
    requires IsVersionChain(group) && a in group && b in group && a != b
    ensures a.version != b.version
    ensures !(a.isCurrent && b.isCurrent)
  {
    var p :| Ordering(p, group);
    SameMembers(p, group);
    var i := IndexOf(p, a);
    var j := IndexOf(p, b);
  }

  /** The new unique constraints hold: (physical id, version) and one current row per physical id. */
  lemma PhysicalUnique(rows: seq<Invoice>, t: Tables, a: Invoice, b: Invoice)
    requires DistinctIds(rows) && Backfilled(rows, t)
    requires a in rows && b in rows && a != b && t.physical[a.id] == t.physical[b.id]
    ensures a.version != b.version
    ensures !(a.isCurrent && b.isCurrent)
  {
    assert Settled(rows, a, t);
    assert Settled(rows, b, t);
    if a.id == b.id {
      SameId(rows, a, b);
    }
    InGroup(rows, a);
    InGroup(rows, b);
    ChainSeparates(Select(rows, Group(a.Key())), a, b);
  }

  /** Distinct registry numbers have distinct physical ids. */
  lemma RegistryUnique(rows: seq<Invoice>, t: Tables, m: Number, n: Number)
    requires Backfilled(rows, t)
    requires m in t.registry && n in t.registry && t.registry[m].physical == t.registry[n].physical
    ensures m == n
  {
    assert Registered(rows, m, t.registry[m]) && Registered(rows, n, t.registry[n]);
  }

  /** Every invoice is covered by the registry entry of its number or by an exception, never both. */
  lemma CoveredOnce(rows: seq<Invoice>, t: Tables, row: Invoice)
    requires Backfilled(rows, t) && row in rows
    ensures row.number in t.registry <==> row.id !in t.exceptions
    ensures row.number in t.registry ==>
              t.registry[row.number].physical == t.physical[row.id] && t.registry[row.number].store == row.store
  {
    assert Settled(rows, row, t);
    if row.number in t.registry {
      assert Registered(rows, row.number, t.registry[row.number]);
      var first :| first in rows && first.Key() == GroupKey(t.registry[row.number].store, row.number);
      if first.store != row.store {
        TwoStores(rows, row, first);
      }
    }
  }

  // ---------------------------------------------------------------- the loops

  /** Outside the given invoices nothing changed, and the registry only grew. */
  ghost predicate Extends(t: Tables, t': Tables, ids: set<InvoiceId>) {
    && (forall id :: id !in ids ==>
          && (id in t.physical ==> id in t'.physical && t'.physical[id] == t.physical[id])
          && (id in t.kinds ==> id in t'.kinds && t'.kinds[id] == t.kinds[id])
          && (id in t'.exceptions <==> id in t.exceptions)
          && (id in t.exceptions ==> t'.exceptions[id] == t.exceptions[id]))
    && t.registry.Keys <= t'.registry.Keys
  }

  lemma StaysSettled(rows: seq<Invoice>, row: Invoice, t: Tables, t': Tables, ids: set<InvoiceId>)
    requires Settled(rows, row, t) && Extends(t, t', ids) && row.id !in ids
    ensures Settled(rows, row, t')
  {
  }

  /** `UPDATE` physical id and version kind of each row of a group, in chain order if it is a chain. */
  method WriteRows(t: Tables, rows: seq<Invoice>, valid: bool) returns (t': Tables)
    requires DistinctIds(rows) && (valid ==> IsChain(rows))
    ensures t' == t.(physical := t'.physical, kinds := t'.kinds)
    ensures Extends(t, t', Ids(rows))
    ensures forall x :: x in rows ==> x.id in t'.physical && t'.physical[x.id] == PhysicalOf(valid, x)
    ensures forall x :: x in rows ==> x.id in t'.kinds && t'.kinds[x.id] == KindOf(valid, x)
  {
    t' := t;
    for i := 0 to |rows|
      invariant t' == t.(physical := t'.physical, kinds := t'.kinds)
      invariant Extends(t, t', Ids(rows))
      invariant forall k :: 0 <= k < i ==>
                              rows[k].id in t'.physical && t'.physical[rows[k].id] == PhysicalOf(valid, rows[k])
      invariant forall k :: 0 <= k < i ==> rows[k].id in t'.kinds && t'.kinds[rows[k].id] == KindOf(valid, rows[k])
    {
      var row := rows[i];
      assert row.id in Ids(rows);
      assert valid ==> row.supersedes == Predecessor(rows, i);
      t' := t'.(physical := t'.physical[row.id := if valid then OfGroup(row.Key()) else OfInvoice(row.id)],
                kinds := t'.kinds[row.id := if !valid || i == 0 then 1 else 2]);
    }
  }

  /** `INSERT` one exception per row; the table's unique invoice id is never hit twice. */
  method WriteExceptions(t: Tables, group: seq<Invoice>, reason: Reason) returns (t': Tables)
    requires DistinctIds(group)
    requires forall x :: x in group ==> x.id !in t.exceptions
    ensures t' == t.(exceptions := t'.exceptions)
    ensures Extends(t, t', Ids(group))
    ensures forall x :: x in group ==> x.id in t'.exceptions && t'.exceptions[x.id] == reason
  {
    t' := t;
    for i := 0 to |group|
      invariant t' == t.(exceptions := t'.exceptions)
      invariant Extends(t, t', Ids(group))
      invariant forall k :: 0 <= k < i ==> group[k].id in t'.exceptions && t'.exceptions[group[k].id] == reason
      invariant forall k :: i <= k < |group| ==> group[k].id !in t'.exceptions
    {
      assert group[i].id in Ids(group) && group[i].id !in t'.exceptions;
      t' := t'.(exceptions := t'.exceptions[group[i].id := reason]);
    }
  }

  lemma GroupFacts(rows: seq<Invoice>, key: GroupKey)
    requires DistinctIds(rows)
    ensures DistinctIds(Select(rows, Group(key)))
    ensures forall x :: x in Select(rows, Group(key)) <==> x in rows && x.Key() == key
  {
    SelectDistinct(rows, Group(key));
    SelectMembers(rows, Group(key));
  }

  /** Walk one group and write its rows; a chain also yields its first version. */
  method WriteGroup(t: Tables, group: seq<Invoice>) returns (t': Tables, valid: bool, first: Option<Invoice>)
    requires DistinctIds(group)
    ensures valid <==> IsVersionChain(group)
    ensures valid ==> first.Some? && first.value in group && first.value.supersedes.None?
    ensures t' == t.(physical := t'.physical, kinds := t'.kinds)
    ensures Extends(t, t', Ids(group))
    ensures forall x :: x in group ==> x.id in t'.physical && t'.physical[x.id] == PhysicalOf(valid, x)
    ensures forall x :: x in group ==> x.id in t'.kinds && t'.kinds[x.id] == KindOf(valid, x)
  {
    var chain;
    valid, chain := WalkChain(group);
    first := None;
    if valid {
      SameMembers(chain, group);
      ChainDistinct(chain, group);
      assert Ids(chain) == Ids(group);
      assert chain[0] in chain && chain[0].supersedes == Predecessor(chain, 0);
      first := Some(chain[0]);
    }
    t' := WriteRows(t, if valid then chain else group, valid);
  }

  lemma SettleGroup(rows: seq<Invoice>, row: Invoice, t: Tables)
    requires var valid := ValidGroup(rows, row.Key());
             && row.id in t.physical && t.physical[row.id] == PhysicalOf(valid, row)
             && row.id in t.kinds && t.kinds[row.id] == KindOf(valid, row)
    requires if Exceptional(rows, row.Key())
             then row.id in t.exceptions &&
                  t.exceptions[row.id] == if |StoresOf(rows, row.number)| > 1 then NumberUsedByMultipleStores
                                          else AmbiguousVersionChain
             else row.id !in t.exceptions && row.number in t.registry
    ensures Settled(rows, row, t)
  {
  }

  /** One turn of the main loop: walk the group, write its rows, then register it or report it. */
  method BackfillGroup(rows: seq<Invoice>, key: GroupKey, group: seq<Invoice>, stores: set<StoreId>, t: Tables)
    returns (t': Tables)
    requires DistinctIds(rows) && group == Select(rows, Group(key)) && stores == StoresOf(rows, key.number) &&
             stores != {}
    requires forall x :: x in group ==> x.id !in t.exceptions
    requires !Exceptional(rows, key) ==> key.number !in t.registry
    ensures Extends(t, t', Ids(group))
    ensures forall x :: x in group ==> Settled(rows, x, t')
    ensures if Exceptional(rows, key) then t'.registry == t.registry
            else exists e :: t'.registry == t.registry[key.number := e] && Registered(rows, key.number, e) &&
                             e.store == key.store
  {
    GroupFacts(rows, key);
    var valid, first;
    t', valid, first := WriteGroup(t, group);
    if |stores| == 1 && valid {
      var e := Entry(OfGroup(key), first.value.id, key.store, first.value.registeredAt);
      assert Registered(rows, key.number, e);
      t' := t'.(registry := t'.registry[key.number := e]);
    }
    if |stores| > 1 || !valid {
      t' := WriteExceptions(t', group, if |stores| > 1 then NumberUsedByMultipleStores else AmbiguousVersionChain);
    }
    forall x | x in group
      ensures Settled(rows, x, t')
    {
      SettleGroup(rows, x, t');
    }
  }

  lemma ChainDistinct(chain: seq<Invoice>, group: seq<Invoice>)
    requires DistinctIds(group) && Ordering(chain, group)
    ensures DistinctIds(chain)
  {
    SameMembers(chain, group);
    forall i, j | 0 <= i < j < |chain|
      ensures chain[i].id != chain[j].id
    {
      if chain[i].id == chain[j].id {
        SameId(group, chain[i], chain[j]);
      }
    }
  }

  function KeysOf(rows: seq<Invoice>): set<GroupKey> {
    set x | x in rows :: x.Key()
  }

  ghost predicate DistinctKeys(keys: seq<GroupKey>) {
    forall i, j :: 0 <= i < j < |keys| ==> keys[i] != keys[j]
  }

  ghost predicate GroupsUpTo(rows: seq<Invoice>, groups: map<GroupKey, seq<Invoice>>) {
    && groups.Keys == KeysOf(rows)
    && forall k :: k in groups ==> groups[k] == Select(rows, Group(k))
  }

  ghost predicate StoresUpTo(rows: seq<Invoice>, stores: map<Number, set<StoreId>>) {
    forall n :: StoresOf(rows, n) == if n in stores then stores[n] else {}
  }

  lemma GroupsStep(rows: seq<Invoice>, i: nat, groups: map<GroupKey, seq<Invoice>>)
    requires i < |rows| && GroupsUpTo(rows[..i], groups)
    ensures var key := rows[i].Key();
            GroupsUpTo(rows[..i + 1], groups[key := (if key in groups then groups[key] else []) + [rows[i]]])
  {
    var key := rows[i].Key();
    assert rows[..i + 1] == rows[..i] + [rows[i]];
    forall k
      ensures Select(rows[..i + 1], Group(k)) == Select(rows[..i], Group(k)) + if k == key then [rows[i]] else []
    {
      SelectStep(rows, i, Group(k));
    }
    if key !in groups {
      SelectNone(rows[..i], Group(key));
    }
  }

  lemma StoresStep(rows: seq<Invoice>, i: nat, stores: map<Number, set<StoreId>>)
    requires i < |rows| && StoresUpTo(rows[..i], stores)
    ensures var n := rows[i].number;
            StoresUpTo(rows[..i + 1], stores[n := (if n in stores then stores[n] else {}) + {rows[i].store}])
  {
    assert rows[..i + 1] == rows[..i] + [rows[i]];
    forall n
      ensures StoresOf(rows[..i + 1], n) == StoresOf(rows[..i], n) + if n == rows[i].number then {rows[i].store} else {}
    {
    }
  }

  /** The first loop: rows by store and number, in order of first appearance, and the stores of each number. */
  method GroupRows(rows: seq<Invoice>)
    returns (groups: map<GroupKey, seq<Invoice>>, order: seq<GroupKey>, stores: map<Number, set<StoreId>>)
    ensures GroupsUpTo(rows, groups) && StoresUpTo(rows, stores)
    ensures DistinctKeys(order) && forall k :: k in order <==> k in groups
    ensures forall k :: k in groups ==> k.number in stores
  {
    groups, order, stores := map[], [], map[];
    for i := 0 to |rows|
      invariant GroupsUpTo(rows[..i], groups) && StoresUpTo(rows[..i], stores)
      invariant DistinctKeys(order) && forall k :: k in order <==> k in groups
      invariant forall k :: k in groups ==> k.number in stores
    {
      var row := rows[i];
      var key := row.Key();
      GroupsStep(rows, i, groups);
      StoresStep(rows, i, stores);
      stores := stores[row.number := (if row.number in stores then stores[row.number] else {}) + {row.store}];
      if key !in groups {
        order := order + [key];
      }
      groups := groups[key := (if key in groups then groups[key] else []) + [row]];
    }
    assert rows[..|rows|] == rows;
  }

  /** The rows whose group comes up in the first `g` turns. */
  ghost predicate Done(order: seq<GroupKey>, g: nat, key: GroupKey)
    requires g <= |order|
  {
    exists i :: 0 <= i < g && order[i] == key
  }

  /** After `g` turns: finished groups settled, the others untouched, the registry sound. */
  ghost predicate TurnInv(rows: seq<Invoice>, order: seq<GroupKey>, g: nat, t: Tables)
    requires g <= |order|
  {
    && (forall row :: row in rows && Done(order, g, row.Key()) ==> Settled(rows, row, t))
    && (forall row :: row in rows && !Done(order, g, row.Key()) ==> row.id !in t.exceptions)
    && (forall n :: n in t.registry ==>
                      Registered(rows, n, t.registry[n]) && Done(order, g, GroupKey(t.registry[n].store, n)))
  }

  lemma DoneStep(order: seq<GroupKey>, g: nat, k: GroupKey)
    requires g < |order|
    ensures Done(order, g + 1, k) <==> Done(order, g, k) || k == order[g]
  {
  }

  lemma TurnKeepsRow(rows: seq<Invoice>, order: seq<GroupKey>, g: nat, t: Tables, t': Tables, row: Invoice)
    requires DistinctIds(rows) && g < |order| && TurnInv(rows, order, g, t)
    requires Extends(t, t', Ids(Select(rows, Group(order[g]))))
    requires row in rows && (row.Key() == order[g] ==> Settled(rows, row, t'))
    ensures Done(order, g + 1, row.Key()) ==> Settled(rows, row, t')
    ensures !Done(order, g + 1, row.Key()) ==> row.id !in t'.exceptions
  {
    DoneStep(order, g, row.Key());
    if row.Key() != order[g] {
      NotInGroup(rows, row, order[g]);
      if Done(order, g, row.Key()) {
        StaysSettled(rows, row, t, t', Ids(Select(rows, Group(order[g]))));
      }
    }
  }

  lemma TurnKeeps(rows: seq<Invoice>, order: seq<GroupKey>, g: nat, t: Tables, t': Tables)
    requires DistinctIds(rows) && g < |order| && TurnInv(rows, order, g, t)
    requires Extends(t, t', Ids(Select(rows, Group(order[g]))))
    requires forall x :: x in rows && x.Key() == order[g] ==> Settled(rows, x, t')
    requires t'.registry == t.registry ||
             exists e :: t'.registry == t.registry[order[g].number := e] && Registered(rows, order[g].number, e) &&
                         e.store == order[g].store
    ensures TurnInv(rows, order, g + 1, t')
  {
    forall row | row in rows
      ensures Done(order, g + 1, row.Key()) ==> Settled(rows, row, t')
      ensures !Done(order, g + 1, row.Key()) ==> row.id !in t'.exceptions
    {
      TurnKeepsRow(rows, order, g, t, t', row);
    }
    forall n | n in t'.registry
      ensures Registered(rows, n, t'.registry[n]) && Done(order, g + 1, GroupKey(t'.registry[n].store, n))
    {
      DoneStep(order, g, GroupKey(t'.registry[n].store, n));
    }
  }

  /** The group whose turn it is has no exceptions yet, and its number is free in the registry. */
  lemma TurnReady(rows: seq<Invoice>, order: seq<GroupKey>, g: nat, t: Tables)
    requires DistinctIds(rows) && DistinctKeys(order) && g < |order| && order[g] in KeysOf(rows) &&
             TurnInv(rows, order, g, t)
    ensures StoresOf(rows, order[g].number) != {}
    ensures forall x :: x in Select(rows, Group(order[g])) ==> x.id !in t.exceptions
    ensures !Exceptional(rows, order[g]) ==> order[g].number !in t.registry
  {
    var key := order[g];
    SelectMembers(rows, Group(key));
    var member :| member in rows && member.Key() == key;
    assert member.store in StoresOf(rows, key.number);
    assert !Done(order, g, key);
    if !Exceptional(rows, key) && key.number in t.registry {
      OneGroupPerNumber(rows, key, t.registry[key.number], member);
    }
  }

  lemma AllDone(rows: seq<Invoice>, order: seq<GroupKey>, t: Tables)
    requires TurnInv(rows, order, |order|, t) && forall k :: k in KeysOf(rows) ==> k in order
    ensures Backfilled(rows, t)
  {
    forall row | row in rows
      ensures Settled(rows, row, t)
    {
      assert row.Key() in KeysOf(rows);
      assert Done(order, |order|, row.Key());
    }
  }

  /** The whole backfill: every invoice is settled and every registry entry is sound. */
  method Backfill(rows: seq<Invoice>) returns (t: Tables)
    requires DistinctIds(rows)
    ensures Backfilled(rows, t)
  {
    var groups, order, stores := GroupRows(rows);
    t := Tables(map[], map[], map[], map[]);
    for g := 0 to |order|
      invariant TurnInv(rows, order, g, t)
    {
      var key := order[g];
      assert key in order;
      TurnReady(rows, order, g, t);
      GroupFacts(rows, key);
      ghost var before := t;
      t := BackfillGroup(rows, key, groups[key], stores[key.number], t);
      TurnKeeps(rows, order, g, before, t);
    }
    AllDone(rows, order, t);
  }

  /** A registered number belongs to one group only. */
  lemma OneGroupPerNumber(rows: seq<Invoice>, key: GroupKey, e: Entry, member: Invoice)
    requires !Exceptional(rows, key) && Registered(rows, key.number, e)
    requires member in rows && member.Key() == key
    ensures GroupKey(e.store, key.number) == key
  {
    var first :| first in rows && first.Key() == GroupKey(e.store, key.number);
    if first.store != member.store {
      TwoStores(rows, first, member);
    }
  }

  lemma NotInGroup(rows: seq<Invoice>, row: Invoice, key: GroupKey)
    requires DistinctIds(rows) && row in rows && row.Key() != key
    ensures row.id !in Ids(Select(rows, Group(key)))
  {
    SelectMembers(rows, Group(key));
    if row.id in Ids(Select(rows, Group(key))) {
      var other :| other in Select(rows, Group(key)) && other.id == row.id;
      SameId(rows, row, other);
    }
  }

  // ---------------------------------------------------------------- what is written, invoice by invoice

  /** The invoices of a chain share a physical id; the first is an original, the others are replacements. */
  lemma ChainIsWritten(rows: seq<Invoice>, t: Tables, key: GroupKey, p: seq<Invoice>, i: nat)
    requires DistinctIds(rows) && Backfilled(rows, t) && Ordering(p, Select(rows, Group(key))) && i < |p|
    ensures p[i].id in t.kinds && t.kinds[p[i].id] == if i == 0 then 1 else 2
    ensures p[i].id in t.physical && p[0].id in t.physical && t.physical[p[i].id] == t.physical[p[0].id]
  {
    GroupFacts(rows, key);
    SameMembers(p, Select(rows, Group(key)));
    assert p[i] in p && p[0] in p;
    assert p[i].supersedes == Predecessor(p, i) && p[0].supersedes == Predecessor(p, 0);
    assert Settled(rows, p[i], t) && Settled(rows, p[0], t);
  }

  /** An invoice outside a chain is an original of its own: no other invoice has its physical id. */
  lemma LooseIsWritten(rows: seq<Invoice>, t: Tables, row: Invoice, other: Invoice)
    requires DistinctIds(rows) && Backfilled(rows, t) && row in rows && other in rows && other != row
    requires !IsVersionChain(Select(rows, Group(GroupKey(row.store, row.number))))
    ensures row.id in t.kinds && t.kinds[row.id] == 1
    ensures row.id in t.physical && other.id in t.physical && t.physical[row.id] != t.physical[other.id]
  {
    assert Settled(rows, row, t) && Settled(rows, other, t);
    assert row.Key() == GroupKey(row.store, row.number);
  }

  /** An exception says whether the number is shared between stores or the versions are no chain. */
  lemma ExceptionSays(rows: seq<Invoice>, t: Tables, row: Invoice)
    requires Backfilled(rows, t) && row in rows && row.id in t.exceptions
    ensures t.exceptions[row.id] == NumberUsedByMultipleStores <==>
            exists other :: other in rows && other.number == row.number && other.store != row.store
    ensures t.exceptions[row.id] == AmbiguousVersionChain ==>
            !IsVersionChain(Select(rows, Group(GroupKey(row.store, row.number))))
  {
    assert Settled(rows, row, t);
    if other :| other in rows && other.number == row.number && other.store != row.store {
      TwoStores(rows, row, other);
    } else {
      assert StoresOf(rows, row.number) == {row.store};
    }
  }

  /** A registry entry names the one store of its number and the first version, with its registration date. */
  lemma EntrySays(rows: seq<Invoice>, t: Tables, number: Number)
    requires Backfilled(rows, t) && number in t.registry
    ensures exists first :: first in rows && first.number == number && first.store == t.registry[number].store &&
                            first.supersedes == None && first.id == t.registry[number].first &&
                            first.registeredAt == t.registry[number].registeredAt
    ensures forall row :: row in rows && row.number == number ==> row.store == t.registry[number].store
  {
    var e := t.registry[number];
    assert Registered(rows, number, e);
    var first :| first in rows && first.Key() == GroupKey(e.store, number) && first.supersedes.None? &&
                 first.id == e.first && first.registeredAt == e.registeredAt;
    forall row | row in rows && row.number == number
      ensures row.store == e.store
    {
      if row.store != e.store {
        TwoStores(rows, first, row);
      }
    }
  }
}
