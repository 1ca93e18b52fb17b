/** Preview, apply and replay of a batch of additive fee rules. */
module RulePatch {
  import opened Basics
  import opened RuleInput

  type Time = int

  /** Rule versions: earlier ones, and those derived from an idempotency key, SKU and date without collisions. */
  datatype Version = Prior(n: int) | Derived(key: Text, rule: RuleKey)

  datatype Rule = Rule(
    version: Version, isActive: bool, promotion: int, management: int, previous: Option<Version>,
    nameSnapshot: Option<Text>, scopeSnapshot: Text, typeSnapshot: Text,
    createdBy: Text, reason: Text, publishedAt: Time)

  datatype Sku = Sku(
    name: Option<Text>, product: Option<Text>, scope: Text, productType: Text, isService: bool,
    modifiedAt: Option<Time>, modifiedBy: Option<Text>)

  type Catalog = map<SkuId, Sku>
  /** The unique constraint on (sku_id, effective_date) makes the pair a key. */
  type Rules = map<RuleKey, Rule>

  datatype Payload = Payload(items: seq<Item>, source: Text, actor: Text, reason: Text)

  /** The digest of a request and of the rows it concerns, taken to be free of collisions. */
  datatype Fingerprint = Fingerprint(payload: Payload, skus: Catalog, rules: Rules)

  datatype Action = Create | Noop | Blocked
  datatype Objection = UnknownSku | ProductIdMismatch | ExistingRuleConflict

  datatype Entry = Entry(
    item: Item, action: Action, error: Option<Objection>, scope: Option<Text>, isService: Option<bool>,
    typeBefore: Option<Text>, modifiedAt: Option<Time>, existing: Option<Version>, created: Option<Version>)

  datatype Report = Report(applied: bool, replayed: bool, fingerprint: Fingerprint, payload: Payload, diff: seq<Entry>,
                           canApply: bool)

  /** An audit row; `isPatch` tells a rule patch from the other users of the table. */
  datatype Audit = Audit(isPatch: bool, report: Report)

  datatype Db = Db(skus: Catalog, rules: Rules, audits: map<Text, Audit>)

  datatype PatchError = BadInput | BadArguments | FingerprintMissing | WriterBusy | ActorRejected | KeyReused |
                        FingerprintStale | BatchBlocked

  /** One call, with what it finds outside the tables it works on. */
  datatype Call = Call(
    rows: seq<InputRow>, argumentsValid: bool, source: Text, actor: Text, reason: Text, key: Text,
    fingerprint: Option<Fingerprint>, apply: bool, writerBusy: bool, actorAllowed: bool, now: Time)

  // ---------------------------------------------------------------- the diff

  function RelevantSkus(skus: Catalog, items: seq<Item>): Catalog {
    map s | s in skus && s in Skus(items) :: skus[s]
  }

  function RelevantRules(rules: Rules, items: seq<Item>): Rules {
    map k | k in rules && k.sku in Skus(items) :: rules[k]
  }

  function Objections(skus: Catalog, rules: Rules, item: Item): Option<Objection> {
    if item.sku !in skus then Some(UnknownSku)
    else if skus[item.sku].product != Some(item.product) then Some(ProductIdMismatch)
    else if KeyOf(item) in rules &&
            var rule := rules[KeyOf(item)];
            !rule.isActive || rule.promotion != item.promotion || rule.management != item.management
      then Some(ExistingRuleConflict)
    else None
  }

  function EntryFor(skus: Catalog, rules: Rules, item: Item): Entry {
    var error := Objections(skus, rules, item);
    var sku := if item.sku in skus then Some(skus[item.sku]) else None;
    Entry(item,
          if error.Some? then Blocked else if KeyOf(item) in rules then Noop else Create,
          error,
          if sku.Some? then Some(sku.value.scope) else None,
          if sku.Some? then Some(sku.value.isService) else None,
          if sku.Some? then Some(sku.value.productType) else None,
          if sku.Some? then sku.value.modifiedAt else None,
          if KeyOf(item) in rules then Some(rules[KeyOf(item)].version) else None,
          None)
  }

  function Diff(skus: Catalog, rules: Rules, items: seq<Item>): (d: seq<Entry>)
    ensures |d| == |items| && forall i :: 0 <= i < |items| ==> d[i] == EntryFor(skus, rules, items[i])
  {
    seq(|items|, i requires 0 <= i < |items| => EntryFor(skus, rules, items[i]))
  }

  predicate Unblocked(diff: seq<Entry>) {
    forall i :: 0 <= i < |diff| ==> diff[i].error.None?
  }

  // ---------------------------------------------------------------- applying

  /** Rules of the same SKU with an earlier effective date. */
  function Earlier(rules: Rules, key: RuleKey): set<RuleKey> {
    set k | k in rules && k.sku == key.sku && k.date < key.date
  }

  /** The rule in force just before `key`. */
  function LatestEarlier(rules: Rules, key: RuleKey): (r: Option<RuleKey>)
    ensures r.None? <==> Earlier(rules, key) == {}
    ensures r.Some? ==>
              r.value in Earlier(rules, key) && forall k :: k in Earlier(rules, key) ==> k.date <= r.value.date
  {
    First(Earlier(rules, key), (a: RuleKey, b: RuleKey) => a.date >= b.date)
  }

  function LinkFor(rules: Rules, key: RuleKey): Option<Version> {
    match LatestEarlier(rules, key)
    case None => None
    case Some(k) => Some(rules[k].version)
  }

  function Retype(sku: Sku, productType: Text, call: Call): Sku {
    if sku.productType == productType then sku
    else sku.(productType := productType, modifiedAt := Some(call.now), modifiedBy := Some(call.actor))
  }

  function NewRule(item: Item, sku: Sku, link: Option<Version>, call: Call): Rule {
    Rule(Derived(call.key, KeyOf(item)), true, item.promotion, item.management, link,
         sku.name, sku.scope, item.productType, call.actor, call.reason, call.now)
  }

  datatype Work = Work(skus: Catalog, rules: Rules)

  function ApplyItem(w: Work, item: Item, call: Call): Work {
    if item.sku !in w.skus then w
    else
      var sku := w.skus[item.sku];
      Work(w.skus[item.sku := Retype(sku, item.productType, call)],
           if KeyOf(item) in w.rules then w.rules
           else w.rules[KeyOf(item) := NewRule(item, sku, LinkFor(w.rules, KeyOf(item)), call)])
  }

  function ApplyAll(w: Work, items: seq<Item>, call: Call): Work {
    if items == [] then w
    else ApplyItem(ApplyAll(w, items[..|items| - 1], call), items[|items| - 1], call)
  }

  function Stamp(entry: Entry, call: Call): Entry {
    if entry.action == Create then entry.(created := Some(Derived(call.key, KeyOf(entry.item)))) else entry
  }

  function StampAll(diff: seq<Entry>, call: Call): (d: seq<Entry>)
    ensures |d| == |diff| && forall i :: 0 <= i < |diff| ==> d[i] == Stamp(diff[i], call)
  {
    seq(|diff|, i requires 0 <= i < |diff| => Stamp(diff[i], call))
  }

  // ---------------------------------------------------------------- one call

  function PayloadOf(call: Call): Payload {
    Payload(Sort(Items(call.rows)), call.source, call.actor, call.reason)
  }

  function FingerprintOf(db: Db, call: Call): Fingerprint {
    var p := PayloadOf(call);
    Fingerprint(p, RelevantSkus(db.skus, p.items), RelevantRules(db.rules, p.items))
  }

  function PreviewOf(db: Db, call: Call): Report {
    var p := PayloadOf(call);
    var diff := Diff(db.skus, db.rules, p.items);
    Report(false, false, FingerprintOf(db, call), p, diff, Unblocked(diff))
  }

  function AppliedReport(db: Db, call: Call): Report {
    var preview := PreviewOf(db, call);
    preview.(applied := true, diff := StampAll(preview.diff, call))
  }

  function AppliedDb(db: Db, call: Call): Db {
    var w := ApplyAll(Work(db.skus, db.rules), PayloadOf(call).items, call);
    Db(w.skus, w.rules, db.audits[call.key := Audit(true, AppliedReport(db, call))])
  }

  /** The checks made before any table is read. */
  ghost function Refusal(call: Call): Option<PatchError> {
    if !ValidRows(call.rows) then Some(BadInput)
    else if call.apply && call.fingerprint.None? then Some(FingerprintMissing)
    else if !call.argumentsValid then Some(BadArguments)
    else if call.writerBusy then Some(WriterBusy)
    else if !call.actorAllowed then Some(ActorRejected)
    else None
  }

  /** The answer to a call and the tables after it. */
  ghost function Outcome(db: Db, call: Call): (Db, Result<Report, PatchError>) {
    if Refusal(call).Some? then (db, Err(Refusal(call).value))
    else if call.key in db.audits then
      var audit := db.audits[call.key];
      if !audit.isPatch || audit.report.payload != PayloadOf(call) then (db, Err(KeyReused))
      else (db, Ok(audit.report.(replayed := true)))
    else if !call.apply then (db, Ok(PreviewOf(db, call)))
    else if call.fingerprint != Some(FingerprintOf(db, call)) then (db, Err(FingerprintStale))
    else if !PreviewOf(db, call).canApply then (db, Err(BatchBlocked))
    else (AppliedDb(db, call), Ok(AppliedReport(db, call)))
  }

  class RuleStore {
    var skus: Catalog
    var rules: Rules
    var audits: map<Text, Audit>

    function Tables(): Db
      reads this
    {
      Db(skus, rules, audits)
    }

    /** One transaction: either everything the outcome says is stored, or nothing. */
    method PatchRules(call: Call) returns (result: Result<Report, PatchError>)
      modifies this
      ensures (Tables(), result) == Outcome(old(Tables()), call)
    {
      var normalized := Normalize(call.rows);
      if normalized.Err? {
        return Err(BadInput);
      }
      var items := normalized.value;
      if call.apply && call.fingerprint.None? {
        return Err(FingerprintMissing);
      }
      if !call.argumentsValid {
        return Err(BadArguments);
      }
      var payload := Payload(items, call.source, call.actor, call.reason);
      if call.writerBusy {
        return Err(WriterBusy);
      }
      if !call.actorAllowed {
        return Err(ActorRejected);
      }
      if call.key in audits {
        var replay := audits[call.key];
        if !replay.isPatch || replay.report.payload != payload {
          return Err(KeyReused);
        }
        return Ok(replay.report.(replayed := true));
      }
      var fingerprint := Fingerprint(payload, RelevantSkus(skus, items), RelevantRules(rules, items));
      var diff := BuildDiff(skus, rules, items);
      var report := Report(false, false, fingerprint, payload, diff, Unblocked(diff));
      if !call.apply {
        return Ok(report);
      }
      if call.fingerprint != Some(fingerprint) {
        return Err(FingerprintStale);
      }
      if !report.canApply {
        return Err(BatchBlocked);
      }
      SortSorts(Items(call.rows));
      var skus', rules', stamped := ApplyRows(skus, rules, items, diff, call);
      report := report.(applied := true, diff := stamped);
      skus, rules := skus', rules';
      audits := audits[call.key := Audit(true, report)];
      return Ok(report);
    }
  }

  /** The row names a known SKU by its own product. */
  ghost predicate Identified(skus: Catalog, item: Item) {
    item.sku in skus && skus[item.sku].product == Some(item.product)
  }

  /** The rule the row asks for is in force already, with the same rates. */
  ghost predicate InPlace(rules: Rules, item: Item) {
    && KeyOf(item) in rules
    && var rule := rules[KeyOf(item)];
       rule.isActive && rule.promotion == item.promotion && rule.management == item.management
  }

  /** What an entry of the diff tells about its row and the state it was made on. */
  ghost predicate Classifies(skus: Catalog, rules: Rules, item: Item, entry: Entry) {
    && entry.item == item
    && (entry.action == Create <==> Identified(skus, item) && KeyOf(item) !in rules)
    && (entry.action == Noop <==> Identified(skus, item) && InPlace(rules, item))
    && (entry.action == Blocked <==> entry.error.Some?)
    && (entry.error == Some(UnknownSku) <==> item.sku !in skus)
    && (entry.error == Some(ProductIdMismatch) <==> item.sku in skus && !Identified(skus, item))
    && (entry.error == Some(ExistingRuleConflict) <==>
          Identified(skus, item) && KeyOf(item) in rules && !InPlace(rules, item))
    && (entry.existing.Some? <==> KeyOf(item) in rules) && entry.created.None?
  }

  /** The diff, one entry per row in order; a batch is unblocked exactly if every row is new or in place. */
  method BuildDiff(skus: Catalog, rules: Rules, items: seq<Item>) returns (diff: seq<Entry>)
    ensures diff == Diff(skus, rules, items)
    ensures |diff| == |items| && forall i :: 0 <= i < |items| ==> Classifies(skus, rules, items[i], diff[i])
    ensures Unblocked(diff) <==>
              forall x :: x in items ==> Identified(skus, x) && (KeyOf(x) in rules ==> InPlace(rules, x))
  {
    diff := [];
    for i := 0 to |items|
      invariant |diff| == i && forall j :: 0 <= j < i ==> diff[j] == EntryFor(skus, rules, items[j])
    {
      diff := diff + [EntryFor(skus, rules, items[i])];
    }
    UnblockedMeans(skus, rules, items);
  }

  lemma UnblockedMeans(skus: Catalog, rules: Rules, items: seq<Item>)
    ensures Unblocked(Diff(skus, rules, items)) <==>
            forall x :: x in items ==> Identified(skus, x) && (KeyOf(x) in rules ==> InPlace(rules, x))
  {
    var diff := Diff(skus, rules, items);
    forall i | 0 <= i < |items|
      ensures diff[i].error.None? <==>
                Identified(skus, items[i]) && (KeyOf(items[i]) in rules ==> InPlace(rules, items[i]))
    {
      assert diff[i] == EntryFor(skus, rules, items[i]);
    }
    if Unblocked(diff) {
      forall x | x in items
        ensures Identified(skus, x) && (KeyOf(x) in rules ==> InPlace(rules, x))
      {
        var i :| 0 <= i < |items| && items[i] == x;
        assert diff[i].error.None?;
      }
    }
  }

  /** One turn of the mutation loop, which acts on the entry made before the loop started. */
  method ApplyRow(skus: Catalog, rules: Rules, entry: Entry, call: Call)
    returns (skus': Catalog, rules': Rules, stamped: Entry)
    requires entry.item.sku in skus && (entry.action == Noop || entry.action == Create)
    requires entry.action == Noop <==> KeyOf(entry.item) in rules
    ensures Work(skus', rules') == ApplyItem(Work(skus, rules), entry.item, call)
    ensures stamped == Stamp(entry, call)
  {
    skus', rules', stamped := skus, rules, entry;
    var item := entry.item;
    var sku := skus[item.sku];
    if sku.productType != item.productType {
      skus' := skus'[item.sku := sku.(productType := item.productType, modifiedAt := Some(call.now),
                                      modifiedBy := Some(call.actor))];
    } else {
      assert skus == skus[item.sku := sku];
    }
    if entry.action == Noop {
      return;
    }
    var previous := LatestEarlier(rules, KeyOf(item));
    var rule := Rule(Derived(call.key, KeyOf(item)), true, item.promotion, item.management,
                     if previous.Some? then Some(rules[previous.value].version) else None,
                     sku.name, sku.scope, item.productType, call.actor, call.reason, call.now);
    rules' := rules'[KeyOf(item) := rule];
    stamped := entry.(created := Some(rule.version));
  }

  lemma TurnReady(w: Work, items: seq<Item>, diff: seq<Entry>, i: nat, call: Call)
    requires StrictlySorted(items) && diff == Diff(w.skus, w.rules, items) && Unblocked(diff) && i < |items|
    ensures var done := ApplyAll(w, items[..i], call);
            && diff[i].item == items[i] && items[i].sku in done.skus
            && (diff[i].action == Noop || diff[i].action == Create)
            && (diff[i].action == Noop <==> KeyOf(items[i]) in done.rules)
            && ApplyAll(w, items[..i + 1], call) == ApplyItem(done, items[i], call)
  {
    assert diff[i].error.None?;
    KeysSoFar(w, items, i, call);
    assert items[..i + 1][..i] == items[..i];
  }

  method ApplyRows(skus: Catalog, rules: Rules, items: seq<Item>, diff: seq<Entry>, call: Call)
    returns (skus': Catalog, rules': Rules, stamped: seq<Entry>)
    requires StrictlySorted(items) && diff == Diff(skus, rules, items) && Unblocked(diff)
    ensures Work(skus', rules') == ApplyAll(Work(skus, rules), items, call)
    ensures stamped == StampAll(diff, call)
  {
    skus', rules', stamped := skus, rules, [];
    for i := 0 to |items|
      invariant Work(skus', rules') == ApplyAll(Work(skus, rules), items[..i], call)
      invariant |stamped| == i && forall j :: 0 <= j < i ==> stamped[j] == Stamp(diff[j], call)
    {
      TurnReady(Work(skus, rules), items, diff, i, call);
      var entry;
      skus', rules', entry := ApplyRow(skus', rules', diff[i], call);
      stamped := stamped + [entry];
    }
    assert items[..|items|] == items;
  }

  /** While the loop runs, row `i` is new exactly if it was new before the loop. */
  lemma {:induction false} KeysSoFar(w: Work, items: seq<Item>, i: nat, call: Call)
    requires i <= |items| && StrictlySorted(items)
    ensures var done := ApplyAll(w, items[..i], call);
            && done.skus.Keys == w.skus.Keys
            && w.rules.Keys <= done.rules.Keys
            && done.rules.Keys <= w.rules.Keys + Keys(items[..i])
            && forall j :: i <= j < |items| ==> KeyOf(items[j]) !in Keys(items[..i])
  {
    if i > 0 {
      assert items[..i][..i - 1] == items[..i - 1];
      assert items[..i] == items[..i - 1] + [items[i - 1]];
      KeysSoFar(w, items, i - 1, call);
    }
    forall j | i <= j < |items|
      ensures KeyOf(items[j]) !in Keys(items[..i])
    {
      forall x | x in items[..i]
        ensures KeyOf(x) != KeyOf(items[j])
      {
        var k :| 0 <= k < i && items[k] == x;
        assert Before(items[k], items[j]);
      }
    }
  }
}
