/**
 * The demolition event model: one event per dwelling each year, and the
 * demolition of a dwelling, whose household first moves to the dwelling the
 * search found or, when there is none, leaves the study area.
 */
module Demolition {
  import opened Tally
  import opened Entities
  import opened Registry
  import opened RealEstate
  import opened Moves
  import opened Migration

  /** An event asking whether dwelling `dwellingId` is demolished this year. */
  datatype DemolitionEvent = DemolitionEvent(dwellingId: int)

  /**
   * The parts of a valid registry that a demolition changes: dwellings in
   * known zones and of known types under their own positive ids below `hd`,
   * households and dwellings linked both ways, members registered, and the
   * vacancy index consistent.
   */
  ghost predicate Consistent(zr: map<int, nat>, n: nat, ds: map<int, Dwelling>, hs: map<int, Household>,
                             ps: map<int, Person>, vac: map<nat, set<int>>, hd: int)
  {
    && DwellingsWellFormed(ds, zr) && TypesKnown(ds, n) && IdsBelow(ds.Keys, hd)
    && HouseholdsLinked(ds, hs) && PersonsLinked(hs, ps) && VacancyIndexed(ds, zr, vac)
  }

  /** Demolishing a vacant dwelling, after taking it out of the vacancy index, keeps the registry consistent. */
  lemma DemolishVacantKeepsConsistent(zr: map<int, nat>, n: nat, ds: map<int, Dwelling>, hs: map<int, Household>,
                                      ps: map<int, Person>, vac: map<nat, set<int>>, hd: int, id: int)
    requires Consistent(zr, n, ds, hs, ps, vac, hd) && id in ds && ds[id].residentId == NoId
    ensures Consistent(zr, n, ds - {id}, hs, ps, RemoveFromBucket(vac, RegionOf(ds, zr, id), id), hd)
    ensures forall h :: h in hs ==> hs[h].dwellingId != id
  {
    assert NoId !in ds;
    RemoveVacantKeepsLinks(ds, hs, id);
    RemoveDwellingKeepsIndex(ds, zr, vac, id);
  }

  /**
   * Demolishing an occupied dwelling whose household has moved into the
   * vacant dwelling `newDd`, which left the vacancy index, keeps the
   * registry consistent, and no household refers to the demolished dwelling.
   */
  lemma DemolishRelocatedKeepsConsistent(zr: map<int, nat>, n: nat, ds: map<int, Dwelling>, hs: map<int, Household>,
                                         ps: map<int, Person>, vac: map<nat, set<int>>, hd: int, id: int, newDd: int)
    requires Consistent(zr, n, ds, hs, ps, vac, hd) && id in ds && ds[id].residentId in hs
    requires newDd in ds && ds[newDd].residentId == NoId
    ensures var h := ds[id].residentId;
            var hs' := hs[h := hs[h].(dwellingId := newDd)];
            && Consistent(zr, n, WithResident(ds, newDd, h) - {id}, hs', ps,
                          RemoveFromBucket(vac, RegionOf(ds, zr, newDd), newDd), hd)
            && forall g :: g in hs' ==> hs'[g].dwellingId != id
  {
    var h := ds[id].residentId;
    assert NoId !in ds;
    assert hs[h].dwellingId == id;
    RelocateKeepsLinks(ds, hs, h, newDd);
    OccupyKeepsIndex(ds, zr, vac, newDd, h);
    var vac' := RemoveFromBucket(vac, RegionOf(ds, zr, newDd), newDd);
    assert id !in Bucket(vac, RegionOf(ds, zr, id));
    RemoveUnindexedKeepsIndex(WithResident(ds, newDd, h), zr, vac', id);
    var hs' := hs[h := hs[h].(dwellingId := newDd)];
    assert PersonsLinked(hs', ps) by {
      forall g | g in hs' ensures hs'[g].personIds == hs[g].personIds {
      }
    }
  }

  /**
   * Demolishing an occupied dwelling whose household out-migrated (which
   * vacated and indexed the dwelling) and which then left the vacancy index
   * again keeps the registry consistent with the vacancy buckets as before.
   */
  lemma DemolishOutmigratedKeepsConsistent(zr: map<int, nat>, n: nat, ds: map<int, Dwelling>, hs: map<int, Household>,
                                           ps: map<int, Person>, vac: map<nat, set<int>>, hd: int, id: int)
    requires Consistent(zr, n, ds, hs, ps, vac, hd) && id in ds && ds[id].residentId in hs
    ensures var h, r := ds[id].residentId, RegionOf(ds, zr, id);
            var vac' := RemoveFromBucket(AddToBucket(vac, r, id), r, id);
            && WithResident(ds, id, NoId) - {id} == ds - {id}
            && Consistent(zr, n, ds - {id}, hs - {h}, ps - Members(hs[h]), vac', hd)
            && (forall g :: g in hs - {h} ==> hs[g].dwellingId != id)
            && (forall r' :: Bucket(vac', r') == Bucket(vac, r'))
  {
    var h, r := ds[id].residentId, RegionOf(ds, zr, id);
    var ds' := WithResident(ds, id, NoId);
    assert NoId !in ds;
    assert hs[h].dwellingId == id;
    assert ds' - {id} == ds - {id};
    VacateKeepsIndex(ds, zr, vac, id);
    RemoveDwellingKeepsIndex(ds', zr, AddToBucket(vac, r, id), id);
    AddThenRemoveFromBucket(vac, r, id);
    RemoveVacatedKeepsLinks(ds, hs, h);
    RemoveVacantKeepsLinks(ds', hs - {h}, id);
    RemoveMembersKeepsPersons(hs, ps, h);
  }

  /**
   * The demolition model. The demolition probability of a dwelling in a
   * year (a scripted calculator in the source), the random draw and the
   * result of the dwelling search are given to HandleEvent.
   */
  class DemolitionModel {
    const data: RealEstateDataManager
    const inOutMigration: InOutMigration
    /** The year of the last PrepareYear, -1 before the first. */
    var currentYear: int
    /** Households forced out of the study area because no dwelling was found for them. */
    var lackOfDwellingForcedOutmigration: int

    /** The registry is valid and the migration model works on the same registry. */
    ghost predicate Valid()
      reads this, data
    {
      inOutMigration.data == data && data.Valid()
    }

    constructor (data: RealEstateDataManager, inOutMigration: InOutMigration)
      requires inOutMigration.data == data
      ensures this.data == data && this.inOutMigration == inOutMigration
      ensures currentYear == -1 && lackOfDwellingForcedOutmigration == 0
      ensures Valid() == data.Valid()
    {
      this.data := data;
      this.inOutMigration := inOutMigration;
      currentYear := -1;
      lackOfDwellingForcedOutmigration := 0;
    }

    /** Record the year and list one event for every registered dwelling, each dwelling once. */
    method PrepareYear(year: int) returns (events: seq<DemolitionEvent>)
      requires Valid()
      modifies this`currentYear
      ensures currentYear == year
      ensures |events| == |data.dwellings|
      ensures forall i :: 0 <= i < |events| ==> events[i].dwellingId in data.dwellings
      ensures forall id :: id in data.dwellings ==> DemolitionEvent(id) in events
      ensures forall i, j :: 0 <= i < j < |events| ==> events[i] != events[j]
    {
      currentYear := year;
      var ds := data.dwellings;
      events := [];
      var rest := ds.Keys;
      while rest != {}
        invariant currentYear == year && rest <= ds.Keys
        invariant |events| + |rest| == |ds|
        invariant forall i :: 0 <= i < |events| ==> events[i].dwellingId in ds && events[i].dwellingId !in rest
        invariant forall id :: id in ds && id !in rest ==> DemolitionEvent(id) in events
        invariant forall i, j :: 0 <= i < j < |events| ==> events[i] != events[j]
        decreases |rest|
      {
        NonEmptyHasElement(rest);
        var id :| id in rest;
        var dd := ds[id];
        events := events + [DemolitionEvent(dd.id)];
        rest := rest - {id};
      }
    }

    /**
     * A dwelling that is still registered is demolished when the draw is
     * below its demolition probability for the current year; otherwise
     * nothing happens. `newDdId` is the result of the dwelling search for
     * its household.
     */
    method HandleEvent(event: DemolitionEvent, draw: real, probability: (Dwelling, int) -> real, newDdId: int)
      returns (r: bool)
      requires Valid() && SearchResultValid(data, newDdId)
      modifies this`lackOfDwellingForcedOutmigration, inOutMigration`outMigrationPPCounter
      modifies data`dwellings, data`households, data`persons, data`vacDwellingsByRegion
      ensures Valid()
      ensures r == (event.dwellingId in old(data.dwellings) &&
                    draw < probability(old(data.dwellings[event.dwellingId]), currentYear))
      ensures !r ==> && data.dwellings == old(data.dwellings) && data.households == old(data.households)
                     && data.persons == old(data.persons) && data.vacDwellingsByRegion == old(data.vacDwellingsByRegion)
                     && lackOfDwellingForcedOutmigration == old(lackOfDwellingForcedOutmigration)
                     && inOutMigration.outMigrationPPCounter == old(inOutMigration.outMigrationPPCounter)
      ensures r ==> && data.dwellings.Keys == old(data.dwellings.Keys) - {event.dwellingId}
                    && forall h :: h in data.households ==> data.households[h].dwellingId != event.dwellingId
      ensures r ==> var dd := old(data.dwellings[event.dwellingId]);
                    && (dd.residentId == NoId ==>
                          && data.dwellings == old(data.dwellings) - {dd.id}
                          && data.households == old(data.households) && data.persons == old(data.persons)
                          && data.vacDwellingsByRegion ==
                               RemoveFromBucket(old(data.vacDwellingsByRegion), RegionOf(old(data.dwellings), data.geo.zoneRegion, dd.id), dd.id)
                          && lackOfDwellingForcedOutmigration == old(lackOfDwellingForcedOutmigration)
                          && inOutMigration.outMigrationPPCounter == old(inOutMigration.outMigrationPPCounter))
                    && (dd.residentId != NoId && newDdId > 0 ==>
                          && data.dwellings == WithResident(old(data.dwellings), newDdId, dd.residentId) - {dd.id}
                          && data.households == old(data.households)[dd.residentId := old(data.households[dd.residentId]).(dwellingId := newDdId)]
                          && data.persons == old(data.persons)
                          && data.vacDwellingsByRegion ==
                               RemoveFromBucket(old(data.vacDwellingsByRegion), RegionOf(old(data.dwellings), data.geo.zoneRegion, newDdId), newDdId)
                          && lackOfDwellingForcedOutmigration == old(lackOfDwellingForcedOutmigration)
                          && inOutMigration.outMigrationPPCounter == old(inOutMigration.outMigrationPPCounter))
                    && (dd.residentId != NoId && newDdId <= 0 ==>
                          && data.dwellings == old(data.dwellings) - {dd.id}
                          && data.households == old(data.households) - {dd.residentId}
                          && data.persons == old(data.persons) - Members(old(data.households[dd.residentId]))
                          && (forall r :: Bucket(data.vacDwellingsByRegion, r) == Bucket(old(data.vacDwellingsByRegion), r))
                          && lackOfDwellingForcedOutmigration == old(lackOfDwellingForcedOutmigration) + 1
                          && inOutMigration.outMigrationPPCounter ==
                               old(inOutMigration.outMigrationPPCounter) + old(data.households[dd.residentId]).Size())
    {
      var id := event.dwellingId;
      if id in data.dwellings {
        var dd := data.dwellings[id];
        if draw < probability(dd, currentYear) {
          r := DemolishDwelling(dd, newDdId);
          return;
        }
      }
      r := false;
    }

    /**
     * Demolish dwelling `dd`: its household moves out first (to dwelling
     * `newDdId`, or out of the study area when the search found none), a
     * vacant dwelling leaves the vacancy index; then the dwelling leaves the
     * registry.
     */
    method DemolishDwelling(dd: Dwelling, newDdId: int) returns (r: bool)
      requires Valid() && dd.id in data.dwellings && data.dwellings[dd.id] == dd && SearchResultValid(data, newDdId)
      modifies this`lackOfDwellingForcedOutmigration, inOutMigration`outMigrationPPCounter
      modifies data`dwellings, data`households, data`persons, data`vacDwellingsByRegion
      ensures r && Valid()
      ensures data.dwellings.Keys == old(data.dwellings.Keys) - {dd.id}
      ensures forall h :: h in data.households ==> data.households[h].dwellingId != dd.id
      ensures dd.residentId == NoId ==>
                && data.dwellings == old(data.dwellings) - {dd.id}
                && data.households == old(data.households) && data.persons == old(data.persons)
                && data.vacDwellingsByRegion ==
                     RemoveFromBucket(old(data.vacDwellingsByRegion), RegionOf(old(data.dwellings), data.geo.zoneRegion, dd.id), dd.id)
                && lackOfDwellingForcedOutmigration == old(lackOfDwellingForcedOutmigration)
                && inOutMigration.outMigrationPPCounter == old(inOutMigration.outMigrationPPCounter)
      ensures dd.residentId != NoId && newDdId > 0 ==>
                && data.dwellings == WithResident(old(data.dwellings), newDdId, dd.residentId) - {dd.id}
                && data.households == old(data.households)[dd.residentId := old(data.households[dd.residentId]).(dwellingId := newDdId)]
                && data.persons == old(data.persons)
                && data.vacDwellingsByRegion ==
                     RemoveFromBucket(old(data.vacDwellingsByRegion), RegionOf(old(data.dwellings), data.geo.zoneRegion, newDdId), newDdId)
                && lackOfDwellingForcedOutmigration == old(lackOfDwellingForcedOutmigration)
                && inOutMigration.outMigrationPPCounter == old(inOutMigration.outMigrationPPCounter)
      ensures dd.residentId != NoId && newDdId <= 0 ==>
                && data.dwellings == old(data.dwellings) - {dd.id}
                && data.households == old(data.households) - {dd.residentId}
                && data.persons == old(data.persons) - Members(old(data.households[dd.residentId]))
                && (forall r :: Bucket(data.vacDwellingsByRegion, r) == Bucket(old(data.vacDwellingsByRegion), r))
                && lackOfDwellingForcedOutmigration == old(lackOfDwellingForcedOutmigration) + 1
                && inOutMigration.outMigrationPPCounter ==
                     old(inOutMigration.outMigrationPPCounter) + old(data.households[dd.residentId]).Size()
    {
      var dwellingId := dd.id;
      var hhId := dd.residentId;
      ghost var ds, hs, ps, vac := data.dwellings, data.households, data.persons, data.vacDwellingsByRegion;
      ghost var zr := data.geo.zoneRegion;
      ghost var n, hd := data.numDwellingTypes, data.highestDwellingIdInUse;
      if hhId in data.households {
        MoveOutHousehold(dwellingId, hhId, newDdId);
        if newDdId > 0 {
          DemolishRelocatedKeepsConsistent(zr, n, ds, hs, ps, vac, hd, dwellingId, newDdId);
        } else {
          DemolishOutmigratedKeepsConsistent(zr, n, ds, hs, ps, vac, hd, dwellingId);
        }
      } else {
        assert hhId == NoId;
        var _ := data.RemoveDwellingFromVacancyList(dwellingId);
        DemolishVacantKeepsConsistent(zr, n, ds, hs, ps, vac, hd, dwellingId);
      }
      data.RemoveDwelling(dwellingId);
      r := true;
    }

    /**
     * Household `hhId` of dwelling `dwellingId` moves out: into dwelling
     * `newDdId` when the search found one, the demolished dwelling not being
     * released (old dwelling -1); otherwise it out-migrates, overriding the
     * event rules, the dwelling it vacated leaves the vacancy index again,
     * and the forced out-migration is counted.
     */
    method MoveOutHousehold(dwellingId: int, hhId: int, newDdId: int)
      requires Valid() && dwellingId in data.dwellings && data.dwellings[dwellingId].residentId == hhId
      requires hhId in data.households && SearchResultValid(data, newDdId)
      modifies this`lackOfDwellingForcedOutmigration, inOutMigration`outMigrationPPCounter
      modifies data`dwellings, data`households, data`persons, data`vacDwellingsByRegion
      ensures newDdId > 0 ==>
                && data.dwellings == WithResident(old(data.dwellings), newDdId, hhId)
                && data.households == old(data.households)[hhId := old(data.households[hhId]).(dwellingId := newDdId)]
                && data.persons == old(data.persons)
                && data.vacDwellingsByRegion ==
                     RemoveFromBucket(old(data.vacDwellingsByRegion), RegionOf(old(data.dwellings), data.geo.zoneRegion, newDdId), newDdId)
                && lackOfDwellingForcedOutmigration == old(lackOfDwellingForcedOutmigration)
                && inOutMigration.outMigrationPPCounter == old(inOutMigration.outMigrationPPCounter)
      ensures newDdId <= 0 ==>
                var region := RegionOf(old(data.dwellings), data.geo.zoneRegion, dwellingId);
                && data.dwellings == WithResident(old(data.dwellings), dwellingId, NoId)
                && data.households == old(data.households) - {hhId}
                && data.persons == old(data.persons) - Members(old(data.households[hhId]))
                && data.vacDwellingsByRegion ==
                     RemoveFromBucket(AddToBucket(old(data.vacDwellingsByRegion), region, dwellingId), region, dwellingId)
                && lackOfDwellingForcedOutmigration == old(lackOfDwellingForcedOutmigration) + 1
                && inOutMigration.outMigrationPPCounter == old(inOutMigration.outMigrationPPCounter) + old(data.households[hhId]).Size()
    {
      if newDdId > 0 {
        MoveHousehold(data, hhId, newDdId);
      } else {
        ForceOutmigration(dwellingId, hhId);
      }
    }

    /**
     * MoveOutHousehold when the search found no dwelling: the household
     * out-migrates, overriding the event rules, the dwelling it vacated
     * leaves the vacancy index again, and the forced out-migration is counted.
     */
    method ForceOutmigration(dwellingId: int, hhId: int)
      requires Valid() && dwellingId in data.dwellings && data.dwellings[dwellingId].residentId == hhId
      requires hhId in data.households
      modifies this`lackOfDwellingForcedOutmigration, inOutMigration`outMigrationPPCounter
      modifies data`dwellings, data`households, data`persons, data`vacDwellingsByRegion
      ensures var region := RegionOf(old(data.dwellings), data.geo.zoneRegion, dwellingId);
              && data.dwellings == WithResident(old(data.dwellings), dwellingId, NoId)
              && data.households == old(data.households) - {hhId}
              && data.persons == old(data.persons) - Members(old(data.households[hhId]))
              && data.vacDwellingsByRegion ==
                   RemoveFromBucket(AddToBucket(old(data.vacDwellingsByRegion), region, dwellingId), region, dwellingId)
              && lackOfDwellingForcedOutmigration == old(lackOfDwellingForcedOutmigration) + 1
              && inOutMigration.outMigrationPPCounter == old(inOutMigration.outMigrationPPCounter) + old(data.households[hhId]).Size()
    {
      ghost var hs := data.households;
      var done := inOutMigration.OutMigrateHh(hhId, true);
      assert done && hs[hhId].dwellingId == dwellingId;
      var _ := data.RemoveDwellingFromVacancyList(dwellingId);
      lackOfDwellingForcedOutmigration := lackOfDwellingForcedOutmigration + 1;
    }
  }
}
