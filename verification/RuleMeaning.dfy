/** What a rule patch accepts, answers and writes, by the columns of its rows. */
module RuleMeaning {
  import opened Basics
  import opened RuleInput
  import opened RulePatch
  import opened RulePatchLaws

  // ---------------------------------------------------------------- what is accepted

  /** Rows with rates from 0 to 1, one per SKU and date, naming one product and type per SKU. */
  lemma ValidRowsMean(rows: seq<InputRow>)
    ensures ValidRows(rows) <==>
            && rows != []
            && (forall i :: 0 <= i < |rows| ==>
                  && rows[i].wellFormed
                  && 0 <= rows[i].item.promotion <= 1_000_000 && 0 <= rows[i].item.management <= 1_000_000)
            && (forall i, j :: 0 <= i < j < |rows| && rows[i].item.sku == rows[j].item.sku ==>
                  && rows[i].item.date != rows[j].item.date
                  && rows[i].item.product == rows[j].item.product
                  && rows[i].item.productType == rows[j].item.productType)
  {
    var items := Items(rows);
    if ValidRows(rows) {
      forall i | 0 <= i < |rows|
        ensures rows[i].item.Valid()
      {
        assert items[i] in items;
      }
      forall i, j | 0 <= i < j < |rows| && rows[i].item.sku == rows[j].item.sku
        ensures rows[i].item.date != rows[j].item.date && IdentityOf(rows[i].item) == IdentityOf(rows[j].item)
      {
        assert KeyOf(items[i]) != KeyOf(items[j]);
        assert items[i] in items && items[j] in items;
      }
    }
  }

  /** Every way a call can be turned down, in the order the code asks. */
  lemma ErrorsMean(db: Db, call: Call)
    ensures var result := Outcome(db, call).1;
            var known := call.key in db.audits;
            var same := known && db.audits[call.key].isPatch && db.audits[call.key].report.payload == PayloadOf(call);
            if !ValidRows(call.rows) then result == Err(BadInput)
            else if call.apply && call.fingerprint.None? then result == Err(FingerprintMissing)
            else if !call.argumentsValid then result == Err(BadArguments)
            else if call.writerBusy then result == Err(WriterBusy)
            else if !call.actorAllowed then result == Err(ActorRejected)
            else if known && !same then result == Err(KeyReused)
            else if known then result == Ok(db.audits[call.key].report.(replayed := true))
            else if !call.apply then result.Ok? && !result.value.applied && !result.value.replayed
            else if call.fingerprint.value != FingerprintOf(db, call) then result == Err(FingerprintStale)
            else if exists x :: x in PayloadOf(call).items && Objections(db.skus, db.rules, x).Some? then
              result == Err(BatchBlocked)
            else result.Ok? && result.value.applied && !result.value.replayed && Applies(db, call)
  {
    var items := PayloadOf(call).items;
    var diff := Diff(db.skus, db.rules, items);
    assert forall i :: 0 <= i < |items| ==> diff[i].error == Objections(db.skus, db.rules, items[i]);
    if x :| x in items && Objections(db.skus, db.rules, x).Some? {
      var i :| 0 <= i < |items| && items[i] == x;
      assert diff[i].error.Some?;
    }
  }

  /** The payload is the request: the same rows, in order of SKU and date, with source, actor and reason. */
  lemma PayloadMeans(call: Call)
    ensures var p := PayloadOf(call);
            && multiset(p.items) == multiset(Items(call.rows))
            && p.source == call.source && p.actor == call.actor && p.reason == call.reason
  {
    SortKeeps(Items(call.rows));
  }

  // ---------------------------------------------------------------- what is written

  /** A created rule is active, has the row's rates and type, the SKU's name and scope, and the call's author. */
  lemma CreatedRuleIs(db: Db, call: Call, x: Item)
    requires Applies(db, call) && x in PayloadOf(call).items && RuleKey(x.sku, x.date) !in db.rules
    ensures x.sku in db.skus && RuleKey(x.sku, x.date) in Outcome(db, call).0.rules
    ensures var rule, sku := Outcome(db, call).0.rules[RuleKey(x.sku, x.date)], db.skus[x.sku];
            && rule.isActive && rule.promotion == x.promotion && rule.management == x.management
            && rule.nameSnapshot == sku.name && rule.scopeSnapshot == sku.scope && rule.typeSnapshot == x.productType
            && rule.createdBy == call.actor && rule.reason == call.reason && rule.publishedAt == call.now
            && rule.version == Derived(call.key, RuleKey(x.sku, x.date))
  {
    AppliedEffect(db, call);
    assert KeyOf(x) == RuleKey(x.sku, x.date);
  }

  /** A listed SKU only changes its type; who changed it and when is noted exactly if it did. */
  lemma ListedSkuIs(db: Db, call: Call, x: Item)
    requires Applies(db, call) && x in PayloadOf(call).items
    ensures x.sku in db.skus && x.sku in Outcome(db, call).0.skus
    ensures var before, after := db.skus[x.sku], Outcome(db, call).0.skus[x.sku];
            && after.productType == x.productType
            && after.name == before.name && after.product == before.product && after.scope == before.scope
            && after.isService == before.isService
            && (if before.productType == x.productType
                then after.modifiedAt == before.modifiedAt && after.modifiedBy == before.modifiedBy
                else after.modifiedAt == Some(call.now) && after.modifiedBy == Some(call.actor))
  {
    AppliedEffect(db, call);
  }

  /** An accepted call leaves one audit row with its report, and no other audit row changes. */
  lemma AuditIs(db: Db, call: Call)
    requires Applies(db, call)
    ensures var after := Outcome(db, call).0;
            && after.audits.Keys == db.audits.Keys + {call.key}
            && after.audits[call.key].isPatch && Ok(after.audits[call.key].report) == Outcome(db, call).1
            && forall k :: k in db.audits && k != call.key ==> after.audits[k] == db.audits[k]
  {
    AppliedEffect(db, call);
  }

  // ---------------------------------------------------------------- what is shown

  /** An entry of the diff shows the SKU and the rule it was made on. */
  lemma EntryShows(skus: Catalog, rules: Rules, items: seq<Item>, i: nat)
    requires i < |items|
    ensures var entry, x := Diff(skus, rules, items)[i], items[i];
            var key := RuleKey(x.sku, x.date);
            && entry.item == x
            && (x.sku in skus ==>
                  && entry.scope == Some(skus[x.sku].scope) && entry.isService == Some(skus[x.sku].isService)
                  && entry.typeBefore == Some(skus[x.sku].productType) && entry.modifiedAt == skus[x.sku].modifiedAt)
            && (x.sku !in skus ==>
                  entry.scope.None? && entry.isService.None? && entry.typeBefore.None? && entry.modifiedAt.None?)
            && entry.existing == (if key in rules then Some(rules[key].version) else None)
  {
    assert KeyOf(items[i]) == RuleKey(items[i].sku, items[i].date);
  }

  /** After an accepted call its entries also name the versions it created. */
  lemma StampShows(db: Db, call: Call, i: nat)
    requires Applies(db, call) && i < |PayloadOf(call).items|
    ensures var report := Outcome(db, call).1.value;
            var x := PayloadOf(call).items[i];
            && |report.diff| == |PayloadOf(call).items| && report.diff[i].item == x
            && report.diff[i].created == if RuleKey(x.sku, x.date) in db.rules then None
                                         else Some(Derived(call.key, RuleKey(x.sku, x.date)))
  {
    var x := PayloadOf(call).items[i];
    AppliedEffect(db, call);
    assert Objections(db.skus, db.rules, x).None?;
  }
}
