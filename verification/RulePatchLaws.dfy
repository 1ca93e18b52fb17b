/** What a rule patch guarantees: exact links, preview and apply in step, replay, and histories of calls. */
module RulePatchLaws {
  import opened Basics
  import opened RuleInput
  import opened RulePatch

  // ---------------------------------------------------------------- the effect of the mutation loop

  /** SKUs only change type, to the type their items name. */
  ghost predicate Retyped(skus: Catalog, skus': Catalog, items: seq<Item>, call: Call) {
    && (forall x :: x in items ==> x.sku in skus)
    && skus'.Keys == skus.Keys
    && (forall x :: x in items ==> skus'[x.sku] == Retype(skus[x.sku], x.productType, call))
    && (forall s :: s in skus && s !in Skus(items) ==> skus'[s] == skus[s])
  }

  /** Rules are only added, one per new key. */
  ghost predicate Grown(rules: Rules, rules': Rules, items: seq<Item>) {
    rules'.Keys == rules.Keys + Keys(items) && forall k :: k in rules ==> rules'[k] == rules[k]
  }

  /** The content of each new rule; its link is the one the final rules give. */
  ghost predicate Filled(skus: Catalog, rules: Rules, rules': Rules, items: seq<Item>, call: Call) {
    forall x :: x in items && KeyOf(x) !in rules ==>
      KeyOf(x) in rules' && x.sku in skus &&
      rules'[KeyOf(x)] == NewRule(x, skus[x.sku], LinkFor(rules', KeyOf(x)), call)
  }

  ghost predicate Effect(w: Work, w': Work, items: seq<Item>, call: Call) {
    Retyped(w.skus, w'.skus, items, call) && Grown(w.rules, w'.rules, items) &&
    Filled(w.skus, w.rules, w'.rules, items, call)
  }

  /** A rule that is not earlier does not move a link. */
  lemma LinkStable(rules: Rules, k: RuleKey, r: Rule, key: RuleKey)
    requires !(k.sku == key.sku && k.date < key.date)
    ensures LinkFor(rules[k := r], key) == LinkFor(rules, key)
  {
    assert Earlier(rules[k := r], key) == Earlier(rules, key);
  }

  lemma SkusStep(w: Work, prev: Work, front: seq<Item>, x: Item, call: Call)
    requires Retyped(w.skus, prev.skus, front, call) && x.sku in w.skus
    requires forall y :: y in front && y.sku == x.sku ==> y.productType == x.productType
    ensures Retyped(w.skus, ApplyItem(prev, x, call).skus, front + [x], call)
  {
    if x.sku in Skus(front) {
      var y :| y in front && y.sku == x.sku;
      assert prev.skus[x.sku] == Retype(w.skus[x.sku], x.productType, call);
    }
    assert forall y :: y in front + [x] <==> y in front || y == x;
    assert Skus(front + [x]) == Skus(front) + {x.sku};
  }

  lemma SameNames(skus: Catalog, skus': Catalog, items: seq<Item>, call: Call, s: SkuId)
    requires Retyped(skus, skus', items, call) && s in skus
    ensures skus'[s].name == skus[s].name && skus'[s].scope == skus[s].scope
  {
    if s in Skus(items) {
      var y :| y in items && y.sku == s;
    }
  }

  lemma GrownStep(w: Work, prev: Work, front: seq<Item>, x: Item, call: Call)
    requires Grown(w.rules, prev.rules, front) && x.sku in prev.skus
    ensures Grown(w.rules, ApplyItem(prev, x, call).rules, front + [x])
  {
    assert forall y :: y in front + [x] <==> y in front || y == x;
    assert Keys(front + [x]) == Keys(front) + {KeyOf(x)};
  }

  lemma FilledStep(w: Work, prev: Work, front: seq<Item>, x: Item, call: Call, y: Item)
    requires Effect(w, prev, front, call) && x.sku in w.skus
    requires forall z :: z in front ==> Before(z, x)
    requires (y in front || y == x) && KeyOf(y) !in w.rules
    ensures var next := ApplyItem(prev, x, call).rules;
            KeyOf(y) in next && y.sku in w.skus &&
            next[KeyOf(y)] == NewRule(y, w.skus[y.sku], LinkFor(next, KeyOf(y)), call)
  {
    SameNames(w.skus, prev.skus, front, call, x.sku);
    assert KeyOf(x) !in Keys(front);
    if KeyOf(x) !in w.rules {
      LinkStable(prev.rules, KeyOf(x), NewRule(x, prev.skus[x.sku], LinkFor(prev.rules, KeyOf(x)), call), KeyOf(y));
    }
  }

  lemma RulesStep(w: Work, prev: Work, front: seq<Item>, x: Item, call: Call)
    requires Effect(w, prev, front, call) && x.sku in w.skus
    requires forall y :: y in front ==> Before(y, x)
    ensures Grown(w.rules, ApplyItem(prev, x, call).rules, front + [x])
    ensures Filled(w.skus, w.rules, ApplyItem(prev, x, call).rules, front + [x], call)
  {
    GrownStep(w, prev, front, x, call);
    forall y | y in front + [x] && KeyOf(y) !in w.rules
      ensures var next := ApplyItem(prev, x, call).rules;
              KeyOf(y) in next && y.sku in w.skus &&
              next[KeyOf(y)] == NewRule(y, w.skus[y.sku], LinkFor(next, KeyOf(y)), call)
    {
      FilledStep(w, prev, front, x, call, y);
    }
  }

  lemma {:induction false} ApplyEffect(w: Work, items: seq<Item>, call: Call)
    requires StrictlySorted(items) && ConsistentTypes(items) && forall x :: x in items ==> x.sku in w.skus
    ensures Effect(w, ApplyAll(w, items, call), items, call)
  {
    if items != [] {
      var front, x := items[..|items| - 1], items[|items| - 1];
      assert front + [x] == items;
      assert x in items && forall y :: y in front ==> y in items;
      ApplyEffect(w, front, call);
      assert forall y :: y in front && y.sku == x.sku ==> IdentityOf(y) == IdentityOf(x);
      SkusStep(w, ApplyAll(w, front, call), front, x, call);
      RulesStep(w, ApplyAll(w, front, call), front, x, call);
    }
  }

  /** The call is accepted and stored, as opposed to previewed or replayed. */
  ghost predicate Applies(db: Db, call: Call) {
    var result := Outcome(db, call).1;
    result.Ok? && result.value.applied && !result.value.replayed
  }

  lemma NoObjections(skus: Catalog, rules: Rules, items: seq<Item>)
    requires Unblocked(Diff(skus, rules, items))
    ensures forall x :: x in items ==> Objections(skus, rules, x).None?
  {
    var diff := Diff(skus, rules, items);
    assert forall i :: 0 <= i < |items| ==> diff[i].error.None?;
  }

  lemma AppliedEffect(db: Db, call: Call)
    requires Applies(db, call)
    ensures forall x :: x in PayloadOf(call).items ==> Objections(db.skus, db.rules, x).None?
    ensures Outcome(db, call) == (AppliedDb(db, call), Ok(AppliedReport(db, call)))
    ensures Acceptable(PayloadOf(call).items) && StrictlySorted(PayloadOf(call).items) && call.key !in db.audits
    ensures var after := AppliedDb(db, call);
            Effect(Work(db.skus, db.rules), Work(after.skus, after.rules), PayloadOf(call).items, call)
  {
    var raw, items := Items(call.rows), PayloadOf(call).items;
    SortKeeps(raw);
    SortSorts(raw);
    SortedIsAcceptable(raw, items);
    NoObjections(db.skus, db.rules, items);
    ApplyEffect(Work(db.skus, db.rules), items, call);
  }

  // ---------------------------------------------------------------- predecessor links

  /** The rule links to its immediate predecessor by effective date, or to nothing if it has none. */
  ghost predicate Linked(rules: Rules, k: RuleKey)
    requires k in rules
  {
    match rules[k].previous
    case None => forall q :: q in rules && q.sku == k.sku ==> q.date >= k.date
    case Some(v) => exists p :: p in rules && p.sku == k.sku && p.date < k.date && rules[p].version == v &&
                                forall q :: q in rules && q.sku == k.sku && p.date < q.date ==> q.date >= k.date
  }

  lemma LinkForIsLink(rules: Rules, k: RuleKey)
    requires k in rules && rules[k].previous == LinkFor(rules, k)
    ensures Linked(rules, k)
  {
    var p := LatestEarlier(rules, k);
    forall q | q in rules && q.sku == k.sku && q.date < k.date
      ensures p.Some? && q.date <= p.value.date
    {
      assert q in Earlier(rules, k);
    }
  }

  /**
   * Every rule a patch creates links to its immediate predecessor in the final state, rules created
   * later in the same batch included, and no existing rule changes.
   */
  lemma CreatedRulesAreLinked(db: Db, call: Call, k: RuleKey)
    requires Applies(db, call) && k in Outcome(db, call).0.rules
    ensures k !in db.rules ==> Linked(Outcome(db, call).0.rules, k)
    ensures k in db.rules ==> Outcome(db, call).0.rules[k] == db.rules[k]
  {
    AppliedEffect(db, call);
    if k !in db.rules {
      var x :| x in PayloadOf(call).items && KeyOf(x) == k;
      LinkForIsLink(Outcome(db, call).0.rules, k);
    }
  }

  /** Versions tell rules apart, and derived versions belong to audited keys. */
  ghost predicate Sound(db: Db) {
    && VersionsUnique(db.rules)
    && (forall k :: k in db.rules && db.rules[k].version.Derived? ==> db.rules[k].version.key in db.audits)
    && (forall k :: k in db.audits && db.audits[k].isPatch ==> db.audits[k].report.applied)
  }

  lemma CreatedVersion(db: Db, call: Call, k: RuleKey)
    requires Applies(db, call) && k in Outcome(db, call).0.rules && k !in db.rules
    ensures Outcome(db, call).0.rules[k].version == Derived(call.key, k)
  {
    AppliedEffect(db, call);
    var x :| x in PayloadOf(call).items && KeyOf(x) == k;
  }

  ghost predicate VersionsUnique(rules: Rules) {
    forall a, b :: a in rules && b in rules && rules[a].version == rules[b].version ==> a == b
  }

  lemma GrownIsUnique(rules: Rules, rules': Rules, items: seq<Item>, key: Text)
    requires VersionsUnique(rules) && Grown(rules, rules', items)
    requires forall k :: k in rules && rules[k].version.Derived? ==> rules[k].version.key != key
    requires forall k :: k in rules' && k !in rules ==> rules'[k].version == Derived(key, k)
    ensures VersionsUnique(rules')
  {
    forall a, b | a in rules' && b in rules' && rules'[a].version == rules'[b].version
      ensures a == b
    {
      assert (a in rules ==> rules'[a] == rules[a]) && (b in rules ==> rules'[b] == rules[b]);
    }
  }

  lemma SoundAfterApply(db: Db, call: Call)
    requires Sound(db) && Applies(db, call)
    ensures Sound(Outcome(db, call).0)
  {
    AppliedEffect(db, call);
    var after := Outcome(db, call).0;
    forall k | k in after.rules && k !in db.rules
      ensures after.rules[k].version == Derived(call.key, k)
    {
      CreatedVersion(db, call, k);
    }
    GrownIsUnique(db.rules, after.rules, PayloadOf(call).items, call.key);
    forall k | k in after.rules && after.rules[k].version.Derived?
      ensures after.rules[k].version.key in after.audits
    {
      assert k in db.rules ==> after.rules[k] == db.rules[k];
    }
  }

  /** The batch puts a new rule between an existing rule and its predecessor. */
  ghost predicate CutsIn(rules: Rules, items: seq<Item>, k: RuleKey) {
    exists x :: x in items && KeyOf(x) !in rules && x.sku == k.sku && x.date < k.date &&
                forall q :: q in rules && q.sku == k.sku && x.date < q.date ==> q.date >= k.date
  }

  lemma NotCutIfLinked(rules: Rules, rules': Rules, items: seq<Item>, k: RuleKey)
    requires Grown(rules, rules', items) && VersionsUnique(rules') && k in rules && Linked(rules, k) &&
             Linked(rules', k)
    ensures !CutsIn(rules, items, k)
  {
    forall x | x in items && KeyOf(x) !in rules && x.sku == k.sku && x.date < k.date
      ensures exists q :: q in rules && q.sku == k.sku && x.date < q.date && q.date < k.date
    {
      assert KeyOf(x) in rules';
      var v := rules[k].previous.value;
      var p :| p in rules' && p.sku == k.sku && p.date < k.date && rules'[p].version == v &&
               forall q :: q in rules' && q.sku == k.sku && p.date < q.date ==> q.date >= k.date;
      var p0 :| p0 in rules && p0.sku == k.sku && p0.date < k.date && rules[p0].version == v;
      assert p == p0 && p.date >= x.date && p != KeyOf(x);
    }
  }

  lemma CutIfNotLinked(rules: Rules, rules': Rules, items: seq<Item>, k: RuleKey)
    requires Grown(rules, rules', items) && k in rules && Linked(rules, k) && !Linked(rules', k)
    ensures CutsIn(rules, items, k)
  {
    var q: RuleKey;
    match rules[k].previous {
      case None =>
        q :| q in rules' && q.sku == k.sku && q.date < k.date;
      case Some(v) =>
        var p :| p in rules && p.sku == k.sku && p.date < k.date && rules[p].version == v &&
                 forall o :: o in rules && o.sku == k.sku && p.date < o.date ==> o.date >= k.date;
        q :| q in rules' && q.sku == k.sku && p.date < q.date && q.date < k.date;
    }
    assert q in Keys(items);
    var x :| x in items && KeyOf(x) == q;
  }

  /**
   * Patches never rewrite an existing rule, so its link can go stale: a correct link stays correct
   * exactly when the batch does not cut in between the rule and its predecessor.
   */
  lemma ExistingLinkSurvivesIff(db: Db, call: Call, k: RuleKey)
    requires Sound(db) && Applies(db, call) && k in db.rules && Linked(db.rules, k)
    ensures k in Outcome(db, call).0.rules
    ensures Linked(Outcome(db, call).0.rules, k) <==> !CutsIn(db.rules, PayloadOf(call).items, k)
  {
    AppliedEffect(db, call);
    SoundAfterApply(db, call);
    var rules' := Outcome(db, call).0.rules;
    if Linked(rules', k) {
      NotCutIfLinked(db.rules, rules', PayloadOf(call).items, k);
    } else {
      CutIfNotLinked(db.rules, rules', PayloadOf(call).items, k);
    }
  }

  /** One row is its own sorted list. */
  lemma SingleRow(item: Item)
    ensures Sort(Items([InputRow(true, item)])) == [item]
    ensures item.Valid() ==> ValidRows([InputRow(true, item)])
  {
    assert Items([InputRow(true, item)]) == [item];
    assert [item][..0] == [];
    assert Sort([item]) == Insert(Sort([]), item);
  }

  /** It does happen: a rule of day 10 with no predecessor, and an accepted batch that adds one of day 5. */
  lemma LinkGoesStale() returns (db: Db, call: Call, k: RuleKey)
    ensures Sound(db) && Applies(db, call) && k in db.rules && Linked(db.rules, k)
    ensures CutsIn(db.rules, PayloadOf(call).items, k)
    ensures k in Outcome(db, call).0.rules && !Linked(Outcome(db, call).0.rules, k)
  {
    var sku, item := SkuId(1), Item(SkuId(1), 7, 3, 0, 0, 5);
    k := RuleKey(sku, 10);
    db := Db(map[sku := Sku(None, Some(7), 0, 3, false, None, None)],
             map[k := Rule(Prior(0), true, 0, 0, None, None, 0, 3, 0, 0, 0)], map[]);
    call := Call([InputRow(true, item)], true, 0, 0, 0, 1, None, true, false, true, 0);
    call := call.(fingerprint := Some(FingerprintOf(db, call)));
    SingleRow(item);
    assert PayloadOf(call).items == [item];
    assert Diff(db.skus, db.rules, [item])[0].error.None?;
    assert item in PayloadOf(call).items && KeyOf(item) !in db.rules;
    ExistingLinkSurvivesIff(db, call, k);
  }

  // ---------------------------------------------------------------- preview and apply

  /** The diff reads only the rows the fingerprint covers. */
  lemma DiffIsRelevant(skus: Catalog, rules: Rules, items: seq<Item>)
    ensures Diff(RelevantSkus(skus, items), RelevantRules(rules, items), items) == Diff(skus, rules, items)
  {
    forall i | 0 <= i < |items|
      ensures EntryFor(RelevantSkus(skus, items), RelevantRules(rules, items), items[i]) ==
              EntryFor(skus, rules, items[i])
    {
      assert items[i] in items && items[i].sku in Skus(items);
    }
  }

  function CreatedKeys(diff: seq<Entry>): set<RuleKey> {
    set e | e in diff && e.action == Create :: KeyOf(e.item)
  }

  /** Nothing changes unless a new patch is accepted: not by a refusal, a preview or a replay. */
  lemma OnlyApplyChanges(db: Db, call: Call)
    requires Outcome(db, call).0 != db
    ensures Applies(db, call) && call.apply && call.key !in db.audits
  {
  }

  /**
   * Applying a preview made on `db0` succeeds on `db` exactly if the request is the same, the
   * concerned rows are the same as when previewed, and the preview was applicable.
   */
  lemma ApplyMatchesPreview(db0: Db, preview: Call, db: Db, call: Call)
    requires Refusal(preview).None? && !preview.apply && preview.key !in db0.audits
    requires Refusal(call).None? && call.apply && call.key !in db.audits
    requires call.fingerprint == Some(Outcome(db0, preview).1.value.fingerprint)
    ensures var items := PayloadOf(preview).items;
            Applies(db, call) <==>
              && PayloadOf(call) == PayloadOf(preview)
              && RelevantSkus(db.skus, items) == RelevantSkus(db0.skus, items)
              && RelevantRules(db.rules, items) == RelevantRules(db0.rules, items)
              && Outcome(db0, preview).1.value.canApply
    ensures Applies(db, call) ==> Outcome(db, call).1.value.diff == StampAll(Outcome(db0, preview).1.value.diff, call)
  {
    DiffIsRelevant(db0.skus, db0.rules, PayloadOf(preview).items);
    DiffIsRelevant(db.skus, db.rules, PayloadOf(call).items);
  }

  lemma CreatedAreNew(skus: Catalog, rules: Rules, items: seq<Item>)
    requires Unblocked(Diff(skus, rules, items))
    ensures rules.Keys + Keys(items) == rules.Keys + CreatedKeys(Diff(skus, rules, items))
  {
    var diff := Diff(skus, rules, items);
    forall x | x in items && KeyOf(x) !in rules
      ensures KeyOf(x) in CreatedKeys(diff)
    {
      var j :| 0 <= j < |items| && items[j] == x;
      assert diff[j] in diff && diff[j].error.None?;
    }
    forall c | c in diff && c.action == Create
      ensures KeyOf(c.item) in Keys(items)
    {
      var j :| 0 <= j < |diff| && diff[j] == c;
      assert items[j] in items;
    }
  }

  /** What an accepted patch leaves for one of its rows. */
  ghost predicate Performed(db: Db, after: Db, x: Item) {
    && KeyOf(x) in after.rules
    && after.rules[KeyOf(x)].isActive
    && after.rules[KeyOf(x)].promotion == x.promotion && after.rules[KeyOf(x)].management == x.management
    && (KeyOf(x) in db.rules ==> after.rules[KeyOf(x)] == db.rules[KeyOf(x)])
    && x.sku in db.skus && x.sku in after.skus
    && after.skus[x.sku] == after.skus[x.sku].(productType := x.productType, product := Some(x.product))
  }

  lemma EffectPerforms(db: Db, after: Db, items: seq<Item>, call: Call, x: Item)
    requires Effect(Work(db.skus, db.rules), Work(after.skus, after.rules), items, call)
    requires x in items && Objections(db.skus, db.rules, x).None?
    ensures Performed(db, after, x)
  {
    assert KeyOf(x) in Keys(items);
  }

  lemma RowPerformed(db: Db, call: Call, x: Item)
    requires Applies(db, call) && x in PayloadOf(call).items
    ensures Performed(db, Outcome(db, call).0, x)
  {
    AppliedEffect(db, call);
    EffectPerforms(db, AppliedDb(db, call), PayloadOf(call).items, call, x);
  }

  /** An accepted patch does exactly what its diff says: one rule per Create, nothing per Noop, types as listed. */
  lemma ApplyPerformsDiff(db: Db, call: Call)
    requires Applies(db, call)
    ensures Outcome(db, call).0.rules.Keys == db.rules.Keys + CreatedKeys(PreviewOf(db, call).diff)
    ensures forall x :: x in PayloadOf(call).items ==> Performed(db, Outcome(db, call).0, x)
    ensures forall s :: s in db.skus && s !in Skus(PayloadOf(call).items) ==>
                          s in Outcome(db, call).0.skus && Outcome(db, call).0.skus[s] == db.skus[s]
  {
    AppliedEffect(db, call);
    CreatedAreNew(db.skus, db.rules, PayloadOf(call).items);
    forall x | x in PayloadOf(call).items
      ensures Performed(db, Outcome(db, call).0, x)
    {
      RowPerformed(db, call, x);
    }
  }

  // ---------------------------------------------------------------- after a patch

  /** Every row is already as requested. */
  ghost predicate Settled(db: Db, items: seq<Item>) {
    forall x :: x in items ==>
      && EntryFor(db.skus, db.rules, x).action == Noop && EntryFor(db.skus, db.rules, x).error.None?
      && x.sku in db.skus && db.skus[x.sku].productType == x.productType
  }

  lemma SettledAfterApply(db: Db, call: Call)
    requires Applies(db, call)
    ensures Settled(Outcome(db, call).0, PayloadOf(call).items)
  {
    forall x | x in PayloadOf(call).items
      ensures Performed(db, Outcome(db, call).0, x)
    {
      RowPerformed(db, call, x);
    }
  }

  lemma SettledPreview(db: Db, items: seq<Item>)
    requires Settled(db, items)
    ensures Unblocked(Diff(db.skus, db.rules, items))
    ensures forall i :: 0 <= i < |items| ==> Diff(db.skus, db.rules, items)[i].action == Noop
  {
    assert forall i :: 0 <= i < |items| ==> items[i] in items;
  }

  /** A fresh preview of the same rows finds nothing left to do, and applying it changes no rule and no SKU. */
  lemma NothingLeftToDo(db: Db, call: Call, again: Call)
    requires Applies(db, call)
    requires Refusal(again).None? && !again.apply && again.key !in Outcome(db, call).0.audits
    requires PayloadOf(again).items == PayloadOf(call).items
    ensures var after := Outcome(db, call).0;
            var preview := Outcome(after, again).1;
            && preview.Ok? && preview.value.canApply
            && (forall i :: 0 <= i < |preview.value.diff| ==> preview.value.diff[i].action == Noop)
            && var second := Outcome(after, again.(apply := true, fingerprint := Some(preview.value.fingerprint))).0;
               second.rules == after.rules && second.skus == after.skus
  {
    var after := Outcome(db, call).0;
    SettledAfterApply(db, call);
    SettledPreview(after, PayloadOf(call).items);
    SecondApply(after, again.(apply := true, fingerprint := Some(FingerprintOf(after, again))));
  }

  lemma SettledRules(rules: Rules, rules': Rules, items: seq<Item>)
    requires Grown(rules, rules', items) && forall x :: x in items ==> KeyOf(x) in rules
    ensures rules' == rules
  {
    assert Keys(items) <= rules.Keys;
  }

  lemma SettledSkus(skus: Catalog, skus': Catalog, items: seq<Item>, call: Call)
    requires Retyped(skus, skus', items, call) && forall x :: x in items ==> skus[x.sku].productType == x.productType
    ensures skus' == skus
  {
    forall s | s in skus
      ensures skus'[s] == skus[s]
    {
      if s in Skus(items) {
        var x :| x in items && x.sku == s;
      }
    }
  }

  /** A patch whose rows are all settled leaves rules and catalog as they are. */
  lemma SecondApply(db: Db, call: Call)
    requires Settled(db, PayloadOf(call).items)
    ensures Outcome(db, call).0.rules == db.rules && Outcome(db, call).0.skus == db.skus
  {
    if Applies(db, call) {
      AppliedEffect(db, call);
      SettledRules(db.rules, AppliedDb(db, call).rules, PayloadOf(call).items);
      SettledSkus(db.skus, AppliedDb(db, call).skus, PayloadOf(call).items, call);
    }
  }

  // ---------------------------------------------------------------- histories of calls

  /** The tables after a series of calls. */
  ghost function After(db: Db, calls: seq<Call>): Db {
    if calls == [] then db else Outcome(After(db, calls[..|calls| - 1]), calls[|calls| - 1]).0
  }

  /** Rules, audits and SKUs are never removed, and rules and audits never change. */
  ghost predicate Preserves(db: Db, db': Db) {
    && (forall k :: k in db.rules ==> k in db'.rules && db'.rules[k] == db.rules[k])
    && (forall k :: k in db.audits ==> k in db'.audits && db'.audits[k] == db.audits[k])
    && db'.skus.Keys == db.skus.Keys
  }

  lemma CallPreserves(db: Db, call: Call)
    requires Sound(db)
    ensures Preserves(db, Outcome(db, call).0) && Sound(Outcome(db, call).0)
  {
    if Applies(db, call) {
      AppliedEffect(db, call);
      SoundAfterApply(db, call);
    }
  }

  /** Whatever calls follow, published rules and audit rows stay as they are. */
  lemma {:induction false} HistoryPreserves(db: Db, calls: seq<Call>)
    requires Sound(db)
    ensures Preserves(db, After(db, calls)) && Sound(After(db, calls))
  {
    if calls != [] {
      HistoryPreserves(db, calls[..|calls| - 1]);
      CallPreserves(After(db, calls[..|calls| - 1]), calls[|calls| - 1]);
    }
  }

  /**
   * However many calls come between, repeating an accepted call's key answers with the stored
   * report and changes nothing if the request is the same, and is rejected if it is not.
   */
  lemma ReplayForever(db: Db, call: Call, calls: seq<Call>, again: Call)
    requires Sound(db) && Applies(db, call)
    requires again.key == call.key && Refusal(again).None?
    ensures var later := After(Outcome(db, call).0, calls);
            Outcome(later, again) ==
              (later,
               if PayloadOf(again) == PayloadOf(call) then Ok(Outcome(db, call).1.value.(replayed := true))
               else Err(KeyReused))
  {
    AppliedEffect(db, call);
    SoundAfterApply(db, call);
    HistoryPreserves(Outcome(db, call).0, calls);
  }
}
