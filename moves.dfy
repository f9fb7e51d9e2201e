/**
 * The part of the household relocation model that the migration and
 * demolition models call: the result of the dwelling search, and the move
 * of a household into a vacant dwelling with no old dwelling to release
 * (the `moveHousehold(hh, -1, newDdId)` form).
 */
module Moves {
  import opened Entities
  import opened Registry
  import opened RealEstate

  /** What the dwelling search may return: no dwelling (an id of 0 or less), or a registered vacant dwelling. */
  ghost predicate SearchResultValid(data: RealEstateDataManager, id: int)
    reads data
  {
    id <= 0 || (id in data.dwellings && data.dwellings[id].residentId == NoId)
  }

  /**
   * Household `hhId` moves into dwelling `newDd`: the dwelling leaves the
   * vacancy index and names the household as resident, and the household
   * names the dwelling. The old dwelling id is -1, so no dwelling is
   * vacated. A household that had no dwelling keeps the registry valid.
   */
  method MoveHousehold(data: RealEstateDataManager, hhId: int, newDd: int)
    requires hhId in data.households && newDd in data.dwellings && data.dwellings[newDd].zoneId in data.geo.zoneRegion
    modifies data`dwellings, data`households, data`vacDwellingsByRegion
    ensures data.dwellings == WithResident(old(data.dwellings), newDd, hhId)
    ensures data.households == old(data.households)[hhId := old(data.households)[hhId].(dwellingId := newDd)]
    ensures data.vacDwellingsByRegion ==
              RemoveFromBucket(old(data.vacDwellingsByRegion), RegionOf(old(data.dwellings), data.geo.zoneRegion, newDd), newDd)
    ensures (old(data.Valid()) && old(data.households[hhId].dwellingId) == NoId && old(data.dwellings[newDd].residentId) == NoId)
              ==> data.Valid()
  {
    ghost var ds, hs, vac := data.dwellings, data.households, data.vacDwellingsByRegion;
    ghost var moveIn := data.Valid() && hs[hhId].dwellingId == NoId && ds[newDd].residentId == NoId;
    if moveIn {
      assert NoId !in ds;
      OccupyKeepsIndex(ds, data.geo.zoneRegion, vac, newDd, hhId);
      MoveInKeepsLinks(ds, hs, hhId, newDd);
    }
    var _ := data.RemoveDwellingFromVacancyList(newDd);
    data.dwellings := WithResident(data.dwellings, newDd, hhId);
    data.households := data.households[hhId := data.households[hhId].(dwellingId := newDd)];
  }
}
