/** What the round retirement refuses and what it writes, by the columns of its tables. */
module RoundLaws {
  import opened Basics
  import opened RoundRetirement

  // ---------------------------------------------------------------- what is written

  /** The lead of the round waits in the headquarters pool. */
  ghost predicate WaitsAtHeadquarters(db: Db, id: RoundId) {
    && id in db.rounds && db.rounds[id].lead.Some? && db.rounds[id].lead.value in db.leads
    && db.leads[db.rounds[id].lead.value].pool == Some(HeadquartersPool)
  }

  /**
   * A center whose round is closed goes back to headquarters if the lead waits there and to allocation otherwise;
   * its assignment is cleared and nothing else of it changes.
   */
  lemma ReleasedCenterIs(db: Db, now: Time, o: OrderId)
    requires o in db.centers && ClosedAsStale(db, db.centers[o].current)
    ensures o in Upgraded(db, now).centers
    ensures var before, after := db.centers[o], Upgraded(db, now).centers[o];
            var waits := WaitsAtHeadquarters(db, before.current.value);
            && after.leadStatus == (if waits then Headquarters else PendingAllocation)
            && after.roundStatus == (if waits then Headquarters else PendingAllocation)
            && after.reassignReason == Some(if waits then InHeadquartersPool else LegacyEngineRetired)
            && after.current == None && after.roundNo == 0 && after.assignedAt == None
            && after.assignedAtSource == ClueProjection
            && after.store == None && after.storeName == None && after.city == None && after.province == None
            && after.expiresAt == None && after.updatedAt == now && after.rest == before.rest
  {
    CenterStatements(db, now);
  }

  /** Every other center stays as it is. */
  lemma OtherCentersStay(db: Db, now: Time, o: OrderId)
    requires o in db.centers && !ClosedAsStale(db, db.centers[o].current)
    ensures o in Upgraded(db, now).centers && Upgraded(db, now).centers[o] == db.centers[o]
  {
    CenterStatements(db, now);
  }

  /** A stale round that is kept is closed by the retirement, which it is dated by what the row last knew. */
  lemma ClosedRoundIs(db: Db, id: RoundId)
    requires id in db.rounds && db.rounds[id].mode == Legacy && SafeStale(db, id) && id in UpgradedRounds(db)
    ensures var before, after := db.rounds[id], UpgradedRounds(db)[id];
            && after.status == ClosedReassigned && after.mode == Formal
            && after.terminalReason == Some(LegacyEngineRetired) && after.reassignReason == Some(LegacyEngineRetired)
            && after.reassignedAt == Some(before.reassignedAt.GetOr(before.updatedAt))
            && after.autoExpiry == Some(false)
            && after.order == before.order && after.lead == before.lead && after.roundNo == before.roundNo
            && after.store == before.store && after.followed == before.followed
            && after.createdAt == before.createdAt && after.updatedAt == before.updatedAt && after.rest == before.rest
  {
  }

  /** Any other legacy round that is kept only turns formal; while active it no longer expires by itself. */
  lemma ConvertedRoundIs(db: Db, id: RoundId)
    requires id in db.rounds && db.rounds[id].mode == Legacy && !SafeStale(db, id) && id in UpgradedRounds(db)
    ensures var before, after := db.rounds[id], UpgradedRounds(db)[id];
            && after == before.(mode := Formal, autoExpiry := after.autoExpiry)
            && after.autoExpiry == if before.status == ActiveUnfollowed || before.status == ActiveFollowed
                                   then Some(false) else before.autoExpiry
  {
  }

  /** Rounds of the other modes are neither changed nor deleted. */
  lemma OtherRoundsStay(db: Db, id: RoundId)
    requires id in db.rounds && db.rounds[id].mode != Legacy
    ensures id in UpgradedRounds(db) && UpgradedRounds(db)[id] == db.rounds[id]
  {
  }

  /** A legacy round is deleted exactly if a formal round has its lead and number. */
  lemma DeletedIff(db: Db, id: RoundId)
    requires id in db.rounds && db.rounds[id].mode == Legacy
    ensures id !in UpgradedRounds(db) <==>
            exists f :: f in db.rounds && db.rounds[f].mode == Formal && db.rounds[id].lead.Some? &&
                        db.rounds[f].lead == db.rounds[id].lead && db.rounds[f].roundNo == db.rounds[id].roundNo
  {
    LogIsLegacy(db, id);
    forall f | f in db.rounds && db.rounds[f].mode == Formal && db.rounds[id].lead.Some? &&
               db.rounds[f].lead == db.rounds[id].lead && db.rounds[f].roundNo == db.rounds[id].roundNo
      ensures f in Occupants(db.rounds, db.rounds[id])
    {
    }
    if id !in UpgradedRounds(db) {
      assert LogOf(db)[id].retained.value in Occupants(db.rounds, db.rounds[id]);
    }
  }

  // ---------------------------------------------------------------- what is refused

  ghost predicate NamedByRecords(db: Db, id: RoundId) {
    || (exists rec :: rec in db.followUps && db.followUps[rec].round == id)
    || id in db.decisions || id in db.cycleItems || id in db.poolEntries
  }

  ghost predicate LeadHas(db: Db, id: RoundId) {
    exists k :: k in db.leads && db.leads[k].current == Some(id)
  }

  ghost predicate CenterHas(db: Db, o: OrderId, id: RoundId) {
    o in db.centers && db.centers[o].current == Some(id)
  }

  /** A stale round: active, never followed, on no record, no lead's current round, at most its own order's. */
  lemma StaleMeans(db: Db, id: RoundId)
    requires id in db.rounds
    ensures SafeStale(db, id) <==>
            var r := db.rounds[id];
            && r.status == ActiveUnfollowed && !r.followed && !NamedByRecords(db, id) && !LeadHas(db, id)
            && (forall o :: CenterHas(db, o, id) ==> o == r.order)
            && (r.lead.Some? && r.lead.value in db.leads ==>
                  var lead := db.leads[r.lead.value];
                  && lead.order == Some(r.order) && lead.current.None? && lead.lifecycleActive && lead.orderActive
                  && lead.pool != Some(StoreFollowUpPool) && !lead.isAssigned)
  {
    var r := db.rounds[id];
    assert Recorded(db, id) <==> NamedByRecords(db, id);
    assert LeadPoints(db, id) <==> LeadHas(db, id);
    if forall o :: CenterHas(db, o, id) ==> o == r.order {
      forall o | o in db.centers && db.centers[o].current == Some(id)
        ensures o == r.order
      {
        assert CenterHas(db, o, id);
      }
    }
  }

  /** A formal round has the slot of a legacy round that is of another order or that something still refers to. */
  ghost predicate CollisionAt(db: Db, id: RoundId, f: RoundId) {
    && id in db.rounds && f in db.rounds && db.rounds[id].mode == Legacy && db.rounds[f].mode == Formal
    && db.rounds[id].lead.Some? && db.rounds[f].lead == db.rounds[id].lead
    && db.rounds[f].roundNo == db.rounds[id].roundNo
    && (db.rounds[f].order != db.rounds[id].order || NamedByRecords(db, id) || LeadHas(db, id) ||
        exists o :: CenterHas(db, o, id))
  }

  lemma CollisionMeans(db: Db, id: RoundId)
    requires id in db.rounds
    ensures UnsafeCollision(db, id) <==> exists f :: CollisionAt(db, id, f)
  {
    if UnsafeCollision(db, id) {
      var f :| f in Occupants(db.rounds, db.rounds[id]) &&
               (db.rounds[f].order != db.rounds[id].order || Recorded(db, id) || LeadPoints(db, id) ||
                CenterPoints(db, id));
      if CenterPoints(db, id) {
        var o :| o in db.centers && db.centers[o].current == Some(id);
        assert CenterHas(db, o, id);
      }
      assert CollisionAt(db, id, f);
    }
    if f :| CollisionAt(db, id, f) {
      assert f in Occupants(db.rounds, db.rounds[id]);
      if o :| CenterHas(db, o, id) {
        assert CenterPoints(db, id);
      }
    }
  }

  /** The round names a store, and its lead shows it as its own and is in that store's hands. */
  ghost predicate LeadOwns(db: Db, id: RoundId) {
    && id in db.rounds
    && var r := db.rounds[id];
       && r.store.Some? && (exists i :: 0 <= i < |r.store.value| && r.store.value[i] != ' ')
       && r.lead.Some? && r.lead.value in db.leads
       && var lead := db.leads[r.lead.value];
          && lead.order == Some(r.order) && lead.current == Some(id) && lead.lifecycleActive && lead.orderActive
          && (lead.pool.None? || lead.pool.value == StoreFollowUpPool) && lead.isAssigned
  }

  /** Besides, the center of its order, and no other, shows it as current. */
  ghost predicate OwnedBy(db: Db, id: RoundId) {
    && LeadOwns(db, id)
    && CenterHas(db, db.rounds[id].order, id) && forall o :: CenterHas(db, o, id) ==> o == db.rounds[id].order
  }

  lemma BadOwnershipMeans(db: Db, id: RoundId, center: Option<OrderId>)
    requires id in db.rounds
    ensures BadOwnership(db, id, center) <==> !(center == Some(db.rounds[id].order) && LeadOwns(db, id))
  {
  }

  /** An active legacy round that is kept must be stale or owned. */
  lemma InvalidMeans(db: Db, id: RoundId)
    requires id in db.rounds
    ensures InvalidActive(db, id) <==>
            && db.rounds[id].mode == Legacy
            && (db.rounds[id].status == ActiveUnfollowed || db.rounds[id].status == ActiveFollowed)
            && id in UpgradedRounds(db) && !SafeStale(db, id) && !OwnedBy(db, id)
  {
    if db.rounds[id].mode == Legacy {
      LogIsLegacy(db, id);
    }
    JoinMeans(db, id);
  }

  lemma JoinMeans(db: Db, id: RoundId)
    requires id in db.rounds
    ensures ((!CenterPoints(db, id) && BadOwnership(db, id, None))
             || exists o :: o in db.centers && db.centers[o].current == Some(id) && BadOwnership(db, id, Some(o)))
            <==> !OwnedBy(db, id)
  {
    forall center
      ensures BadOwnership(db, id, center) <==> !(center == Some(db.rounds[id].order) && LeadOwns(db, id))
    {
      BadOwnershipMeans(db, id, center);
    }
    if CenterPoints(db, id) {
      var o :| o in db.centers && db.centers[o].current == Some(id);
      assert CenterHas(db, o, id);
    }
    if OwnedBy(db, id) {
      forall o | o in db.centers && db.centers[o].current == Some(id)
        ensures !BadOwnership(db, id, Some(o))
      {
        assert CenterHas(db, o, id);
      }
    } else if CenterPoints(db, id) {
      var o: OrderId;
      if p :| CenterHas(db, p, id) && p != db.rounds[id].order {
        o := p;
      } else {
        o :| CenterHas(db, o, id);
      }
      assert BadOwnership(db, id, Some(o));
    }
  }

  /** An active legacy round that the upgrade does not delete. */
  ghost predicate KeptActive(db: Db, id: RoundId) {
    && id in db.rounds && db.rounds[id].mode == Legacy && id in UpgradedRounds(db)
    && (db.rounds[id].status == ActiveUnfollowed || db.rounds[id].status == ActiveFollowed)
  }

  /** An active legacy round of a lead that is not about to be closed. */
  ghost predicate Competes(db: Db, id: RoundId) {
    && id in db.rounds && db.rounds[id].mode == Legacy && db.rounds[id].lead.Some? && !SafeStale(db, id)
    && (db.rounds[id].status == ActiveUnfollowed || db.rounds[id].status == ActiveFollowed)
  }

  /** A follow-up record agrees with the round it names. */
  ghost predicate RecordAgrees(db: Db, f: FollowUp) {
    && f.round in db.rounds
    && var r := db.rounds[f.round];
       f.order == r.order && f.roundNo == r.roundNo && f.store.GetOr("") == r.store.GetOr("")
  }

  lemma RoundsPass(db: Db)
    ensures (forall id :: id in db.rounds ==> !UnsafeCollision(db, id)) <==> forall id, f :: !CollisionAt(db, id, f)
    ensures (forall id :: id in db.rounds ==> !InvalidActive(db, id)) <==>
            forall id :: KeptActive(db, id) ==> SafeStale(db, id) || OwnedBy(db, id)
  {
    forall id | id in db.rounds
      ensures UnsafeCollision(db, id) <==> exists f :: CollisionAt(db, id, f)
      ensures InvalidActive(db, id) <==> KeptActive(db, id) && !SafeStale(db, id) && !OwnedBy(db, id)
    {
      CollisionMeans(db, id);
      InvalidMeans(db, id);
    }
  }

  lemma CompetitorsPass(db: Db)
    ensures (forall a, b ::
               a in db.rounds && b in db.rounds && a != b && CompetingActive(db, a) && CompetingActive(db, b)
               ==> db.rounds[a].lead != db.rounds[b].lead) <==>
            forall a, b :: Competes(db, a) && Competes(db, b) && a != b ==> db.rounds[a].lead != db.rounds[b].lead
  {
    forall id | id in db.rounds
      ensures CompetingActive(db, id) <==> Competes(db, id)
    {
    }
  }

  lemma RecordsPass(db: Db)
    ensures (forall rec :: rec in db.followUps ==> !Inconsistent(db, rec)) <==>
            forall rec :: rec in db.followUps ==> RecordAgrees(db, db.followUps[rec])
  {
    forall rec | rec in db.followUps
      ensures Inconsistent(db, rec) <==> !RecordAgrees(db, db.followUps[rec])
    {
    }
  }

  /** Exactly what the guard lets through. */
  lemma GuardMeans(db: Db)
    ensures Guard(db) <==>
            && (forall id :: id in db.rounds ==> db.rounds[id].mode in {Legacy, Formal, Trial})
            && (forall id, f :: !CollisionAt(db, id, f))
            && (forall id :: KeptActive(db, id) ==> SafeStale(db, id) || OwnedBy(db, id))
            && (forall a, b :: Competes(db, a) && Competes(db, b) && a != b ==> db.rounds[a].lead != db.rounds[b].lead)
            && (forall rec :: rec in db.followUps ==> RecordAgrees(db, db.followUps[rec]))
  {
    RoundsPass(db);
    CompetitorsPass(db);
    RecordsPass(db);
  }

  // ---------------------------------------------------------------- the downgrade

  /** A round took the slot of a retired round after the upgrade. */
  ghost predicate TakesSlot(rounds: Rounds, log: RoundLog, id: RoundId, f: RoundId) {
    && id in log && f in rounds && f != id && log[id].retained != Some(f)
    && rounds[f].mode == Formal && log[id].round.lead.Some?
    && rounds[f].lead == log[id].round.lead && rounds[f].roundNo == log[id].round.roundNo
  }

  /** A released center has been given another round since. */
  ghost predicate Reassigned(centers: Centers, log: CenterLog, o: OrderId) {
    && o in log && o in centers && centers[o].current.Some? && log[o].current.Some?
    && centers[o].current.value != log[o].current.value
  }

  /** The downgrade is refused exactly if a slot was taken or a center reassigned meanwhile. */
  lemma ConflictsMean(rounds: Rounds, log: RoundLog, centers: Centers, centerLog: CenterLog)
    ensures NamespaceConflict(rounds, log) <==> exists id, f :: TakesSlot(rounds, log, id, f)
    ensures CenterConflict(centers, centerLog) <==> exists o :: Reassigned(centers, centerLog, o)
  {
    if NamespaceConflict(rounds, log) {
      var id, f :| id in log && f in rounds && rounds[f].mode == Formal && SameSlot(rounds[f], log[id].round) &&
                   f != id && log[id].retained != Some(f);
      assert TakesSlot(rounds, log, id, f);
    }
    if id, f :| TakesSlot(rounds, log, id, f) {
      assert SameSlot(rounds[f], log[id].round);
    }
    if CenterConflict(centers, centerLog) {
      var o :| o in centerLog && o in centers && centers[o].current.Some? && centerLog[o].current.Some? &&
               centers[o].current != centerLog[o].current;
      assert Reassigned(centers, centerLog, o);
    }
  }

  /**
   * An accepted downgrade, also a late one: a deleted round comes back as logged if its id is free, a kept one gets
   * its logged mode, status, reasons, date and expiry back, and rounds that came later stay.
   */
  lemma DowngradedRoundIs(rounds: Rounds, log: RoundLog, id: RoundId)
    ensures var after := DowngradedRounds(rounds, log);
            && (id in after <==> id in rounds || (id in log && log[id].retained.Some?))
            && (id in log && log[id].retained.Some? ==> after[id] == if id in rounds then rounds[id] else log[id].round)
            && (id in rounds && id !in log ==> after[id] == rounds[id])
            && (id in rounds && id in log && log[id].retained.None? ==>
                  var was := log[id].round;
                  after[id] == rounds[id].(mode := Legacy, status := was.status, autoExpiry := was.autoExpiry,
                                           terminalReason := was.terminalReason, reassignReason := was.reassignReason,
                                           reassignedAt := was.reassignedAt))
  {
  }

  /** A logged center gets all its projection columns back, and no other center changes. */
  lemma DowngradedCenterIs(centers: Centers, log: CenterLog, o: OrderId)
    requires o in centers
    ensures o in DowngradedCenters(centers, log)
    ensures var after := DowngradedCenters(centers, log)[o];
            if o !in log then after == centers[o]
            else
              && after.leadStatus == log[o].leadStatus && after.current == log[o].current
              && after.roundNo == log[o].roundNo && after.roundStatus == log[o].roundStatus
              && after.assignedAt == log[o].assignedAt && after.assignedAtSource == log[o].assignedAtSource
              && after.store == log[o].store && after.storeName == log[o].storeName
              && after.city == log[o].city && after.province == log[o].province
              && after.expiresAt == log[o].expiresAt && after.reassignReason == log[o].reassignReason
              && after.updatedAt == log[o].updatedAt && after.rest == centers[o].rest
  {
  }
}
