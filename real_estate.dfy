/**
 * The real-estate data manager: the dwelling registry, the vacancy index by
 * region, the dwelling id counter, the quality distribution, the table of
 * rent shares by income category, the yearly price and vacancy aggregates,
 * and the developable land of each zone.
 *
 * The household and person registry that the manager consults and that the
 * event models change lives on the same object, so that the consistency
 * conditions between dwellings, households and the vacancy index can be
 * stated in one place.
 */
module RealEstate {
  import opened Entities
  import opened Tally
  import opened Market
  import opened Registry

  /** One entry of the initial quality distribution: a share, or NaN when there are no dwellings to divide by. */
  datatype QualityShare = Share(value: real) | NaN

  /** Every dwelling's type is a position in the list of `n` dwelling types. */
  ghost predicate TypesKnown(ds: map<int, Dwelling>, n: nat)
  {
    forall id :: id in ds ==> ds[id].dwellingType < n
  }

  /** Every dwelling's quality is one of the levels 1..q. */
  ghost predicate QualitiesKnown(ds: map<int, Dwelling>, q: nat)
  {
    forall id :: id in ds ==> 1 <= ds[id].quality <= q
  }

  /** No id of `ids` exceeds `bound`. */
  ghost predicate IdsBelow(ids: set<int>, bound: int)
  {
    forall id :: id in ids ==> id <= bound
  }

  /** Land still available for construction: dwelling capacity or developable acres, as the zone counts it. */
  function AvailableCapacity(dev: Development): real
  {
    if dev.useDwellingCapacity then dev.dwellingCapacity as real else dev.developableArea
  }

  /** Building on a zone uses up one dwelling of capacity, or `acres` of developable area. */
  function Converted(dev: Development, acres: real): (dev': Development)
    ensures dev'.useDwellingCapacity == dev.useDwellingCapacity
    ensures AvailableCapacity(dev') == AvailableCapacity(dev) - (if dev.useDwellingCapacity then 1.0 else acres)
    ensures dev.useDwellingCapacity ==> dev'.developableArea == dev.developableArea
    ensures !dev.useDwellingCapacity ==> dev'.dwellingCapacity == dev.dwellingCapacity
  {
    if dev.useDwellingCapacity then dev.(dwellingCapacity := dev.dwellingCapacity - 1)
    else dev.(developableArea := dev.developableArea - acres)
  }

  /** The highest of the set `s` of region ids. */
  ghost predicate IsMaximum(h: int, s: set<nat>)
  {
    h in s && forall r :: r in s ==> r <= h
  }

  /**
   * The vacancy rates of dwelling type `t` in regions 0..h, from the
   * vacant and occupied counts of each region; 0 for an id that is not a region.
   */
  method VacancyRow(ds: map<int, Dwelling>, zr: map<int, nat>, regions: set<nat>, t: nat, h: nat,
                    vacant: seq<int>, occupied: seq<int>) returns (row: seq<real>)
    requires |vacant| == h + 1 && |occupied| == h + 1
    requires forall r :: 0 <= r <= h ==> vacant[r] == |TypeRegionCell(ds, zr, ds.Keys, t, r, false)|
    requires forall r :: 0 <= r <= h ==> occupied[r] == |TypeRegionCell(ds, zr, ds.Keys, t, r, true)|
    requires forall r :: r in regions ==> r <= h
    ensures |row| == h + 1
    ensures forall r :: 0 <= r <= h ==> row[r] == if r in regions then VacancyRateOfCell(ds, zr, t, r) else 0.0
  {
    row := seq(h + 1, _ => 0.0);
    var rest := regions;
    while rest != {}
      invariant rest <= regions && |row| == h + 1
      invariant forall r :: 0 <= r <= h ==>
                  row[r] == if r in regions && r !in rest then VacancyRateOfCell(ds, zr, t, r) else 0.0
      decreases |rest|
    {
      NonEmptyHasElement(rest);
      var region :| region in rest;
      var v, o := vacant[region], occupied[region];
      var rate := if v + o > 0 then v as real / (v + o) as real else 0.0;
      row := row[region := rate];
      rest := rest - {region};
    }
  }

  /**
   * The share of rent category `rc` among the occupied dwellings whose
   * household is in income category `ic`, after one extra count of the top
   * rent category for the top income category `top`; 0 for an income
   * category without counts.
   */
  ghost function RentShareOf(ds: map<int, Dwelling>, incomeCategoryOf: int -> nat, top: nat, ic: nat, rc: int): real
  {
    var extra := if ic == top && rc == RentCategories then 1 else 0;
    var total := |IncomeCell(ds, incomeCategoryOf, ds.Keys, ic)| + (if ic == top then 1 else 0);
    if total == 0 then 0.0
    else (|RentCell(ds, incomeCategoryOf, ds.Keys, ic, rc)| + extra) as real / total as real
  }

  /** The rent categories of income category `ic` over the whole registry, with the extra top rent for the top income category. */
  ghost function ToppedUpRents(ds: map<int, Dwelling>, incomeCategoryOf: int -> nat, top: nat, ic: nat): multiset<int>
  {
    Rents(ds, incomeCategoryOf, ds.Keys, ic) + (if ic == top then multiset{RentCategories} else multiset{})
  }

  /** The topped-up rents of an income category count its dwellings, and the shares they give are RentShareOf. */
  lemma ToppedUpRentsCount(ds: map<int, Dwelling>, incomeCategoryOf: int -> nat, top: nat, ic: nat)
    ensures |ToppedUpRents(ds, incomeCategoryOf, top, ic)| == |IncomeCell(ds, incomeCategoryOf, ds.Keys, ic)| + (if ic == top then 1 else 0)
    ensures forall rc :: RentShare(ToppedUpRents(ds, incomeCategoryOf, top, ic), rc) == RentShareOf(ds, incomeCategoryOf, top, ic, rc)
  {
    RentsCount(ds, incomeCategoryOf, ds.Keys, ic);
  }

  /**
   * The share of rent category `rc` paid by households of one income
   * category whose rent categories are `m`: the list of shares for
   * 0..RentCategories that the source stores per income category.
   */
  method ShareRow(m: multiset<int>) returns (row: seq<real>)
    ensures |row| == RentCategories + 1
    ensures forall rc :: 0 <= rc <= RentCategories ==> row[rc] == RentShare(m, rc)
    ensures |m| > 0 && (forall v :: v in m ==> 0 <= v <= RentCategories) ==> RealSum(row) == 1.0
    ensures |m| == 0 ==> forall rc :: 0 <= rc <= RentCategories ==> row[rc] == 0.0
  {
    row := [];
    var rc := 0;
    while rc <= RentCategories
      invariant 0 <= rc <= RentCategories + 1 && |row| == rc
      invariant forall k :: 0 <= k < rc ==> row[k] == RentShare(m, k)
    {
      var share := if |m| != 0 then m[rc] as real / |m| as real else 0.0;
      row := row + [share];
      rc := rc + 1;
    }
    if forall v :: v in m ==> 0 <= v <= RentCategories {
      RentSharesSumToOne(m, row);
    }
  }

  /** `table` holds, for every income category's rents, the shares of the rent categories 0..RentCategories. */
  ghost predicate IsShareTable(rents: seq<multiset<int>>, table: seq<seq<real>>)
  {
    && |table| == |rents|
    && (forall k :: 0 <= k < |rents| ==> |table[k]| == RentCategories + 1)
    && forall k, rc :: 0 <= k < |rents| && 0 <= rc <= RentCategories ==> table[k][rc] == RentShare(rents[k], rc)
  }

  /** The share rows of all income categories, in the order of the categories. */
  method ShareTable(rents: seq<multiset<int>>) returns (table: seq<seq<real>>)
    ensures IsShareTable(rents, table)
  {
    table := [];
    var ic := 0;
    while ic < |rents|
      invariant 0 <= ic <= |rents| && |table| == ic
      invariant forall k :: 0 <= k < ic ==> |table[k]| == RentCategories + 1
      invariant forall k, rc :: 0 <= k < ic && 0 <= rc <= RentCategories ==> table[k][rc] == RentShare(rents[k], rc)
    {
      var row := ShareRow(rents[ic]);
      table := table + [row];
      ic := ic + 1;
    }
  }

  /**
   * The share row of income category `ic` computed from its topped-up
   * rents: each share is RentShareOf, the top income category gives the top
   * rent category a positive share, a category with dwellings (and the top
   * one) has shares adding up to 1 when no price is -RentCategoryWidth or less, and any other
   * category has only zero shares.
   */
  lemma ShareRowOfRegistry(ds: map<int, Dwelling>, incomeCategoryOf: int -> nat, top: nat, ic: nat, row: seq<real>)
    requires |row| == RentCategories + 1
    requires forall rc :: 0 <= rc <= RentCategories ==> row[rc] == RentShare(ToppedUpRents(ds, incomeCategoryOf, top, ic), rc)
    ensures forall rc :: 0 <= rc <= RentCategories ==> row[rc] == RentShareOf(ds, incomeCategoryOf, top, ic, rc)
    ensures ic == top ==> row[RentCategories] > 0.0
    ensures (forall id :: id in ds ==> ds[id].price > -(RentCategoryWidth as int)) && (ic == top || |IncomeCell(ds, incomeCategoryOf, ds.Keys, ic)| > 0) ==>
              RealSum(row) == 1.0
    ensures ic != top && |IncomeCell(ds, incomeCategoryOf, ds.Keys, ic)| == 0 ==>
              forall rc :: 0 <= rc <= RentCategories ==> row[rc] == 0.0
  {
    var m := ToppedUpRents(ds, incomeCategoryOf, top, ic);
    ToppedUpRentsCount(ds, incomeCategoryOf, top, ic);
    if ic == top {
      assert m[RentCategories] > 0;
    }
    if forall id :: id in ds ==> ds[id].price > -(RentCategoryWidth as int) {
      RentsInRange(ds, incomeCategoryOf, ds.Keys, ic);
      RentSharesSumToOne(m, row);
    }
  }

  /**
   * The rent tally after the dwellings `done`: the largest id and the
   * largest bedroom count met (0 when none is positive) and the rent table.
   */
  ghost predicate RentTallied(ds: map<int, Dwelling>, incomeCategoryOf: int -> nat, n: nat, done: set<int>,
                              highestId: int, largestBedrooms: int, rents: seq<multiset<int>>)
  {
    && done <= ds.Keys
    && highestId >= 0 && (highestId == 0 || highestId in done)
    && (forall id :: id in done ==> id <= highestId)
    && largestBedrooms >= 0 && (largestBedrooms == 0 || exists id :: id in done && ds[id].bedrooms == largestBedrooms)
    && (forall id :: id in done ==> ds[id].bedrooms <= largestBedrooms)
    && rents == RentTable(ds, incomeCategoryOf, done, n)
  }

  /** Tallying one more dwelling raises the maxima to its id and bedrooms and adds its rent to its household's category. */
  lemma RentTallyStep(ds: map<int, Dwelling>, incomeCategoryOf: int -> nat, n: nat, done: set<int>, x: int,
                      highestId: int, largestBedrooms: int, rents: seq<multiset<int>>)
    requires RentTallied(ds, incomeCategoryOf, n, done, highestId, largestBedrooms, rents)
    requires x in ds && x !in done && incomeCategoryOf(ds[x].residentId) < n
    ensures var ic := incomeCategoryOf(ds[x].residentId);
            RentTallied(ds, incomeCategoryOf, n, done + {x},
                        if x > highestId then x else highestId,
                        if ds[x].bedrooms > largestBedrooms then ds[x].bedrooms else largestBedrooms,
                        if ds[x].residentId > 0 then rents[ic := rents[ic] + multiset{RentCategory(ds[x].price)}] else rents)
  {
    RentTableAdd(ds, incomeCategoryOf, done, x, n);
    var b := if ds[x].bedrooms > largestBedrooms then ds[x].bedrooms else largestBedrooms;
    if b != 0 {
      if b == ds[x].bedrooms {
        assert x in done + {x} && ds[x].bedrooms == b;
      } else {
        var w :| w in done && ds[w].bedrooms == b;
        assert w in done + {x};
      }
    }
  }

  /**
   * The quality distribution of dwellings `ds`: the number of dwellings of
   * each of the `levels` quality levels, and each level's share of all
   * dwellings, NaN when there are none; the shares add up to 1.
   */
  ghost predicate QualityDistribution(ds: map<int, Dwelling>, levels: nat, counts: seq<int>, shares: seq<QualityShare>)
  {
    && counts == QualityCounts(ds, ds.Keys, levels)
    && |shares| == levels
    && (|ds| == 0 ==> forall i :: 0 <= i < levels ==> shares[i] == NaN)
    && (|ds| > 0 ==> forall i :: 0 <= i < levels ==> shares[i] == Share(counts[i] as real / |ds| as real))
    && (|ds| > 0 ==> RealSum(Fractions(counts, |ds|)) == 1.0)
  }

  /** `highest` is the highest id of dwellings `ds`, 0 when there is none, and `largest` their highest bedroom count. */
  ghost predicate HighestVariables(ds: map<int, Dwelling>, highest: int, largest: int)
  {
    && highest >= 0 && (highest == 0 || highest in ds)
    && (forall id :: id in ds ==> id <= highest)
    && largest >= 0
    && (largest == 0 || exists id :: id in ds && ds[id].bedrooms == largest)
    && (forall id :: id in ds ==> ds[id].bedrooms <= largest)
  }

  /**
   * The rent share table of dwellings `ds` with `n` income categories: one
   * row per income category over rent categories 0..RentCategories, each
   * share RentShareOf the registry, the top income category with a positive
   * top share, rows adding up to 1 for categories with dwellings and for the
   * top one when no price is -RentCategoryWidth or less, and all-zero rows
   * otherwise.
   */
  ghost predicate RentShares(ds: map<int, Dwelling>, incomeCategoryOf: int -> nat, n: nat, table: seq<seq<real>>)
    requires n > 0
  {
    && |table| == n
    && (forall ic :: 0 <= ic < n ==> |table[ic]| == RentCategories + 1)
    && (forall ic, rc :: 0 <= ic < n && 0 <= rc <= RentCategories ==>
          table[ic][rc] == RentShareOf(ds, incomeCategoryOf, n - 1, ic, rc))
    && table[n - 1][RentCategories] > 0.0
    && ((forall id :: id in ds ==> ds[id].price > -(RentCategoryWidth as int)) ==>
          forall ic | 0 <= ic < n && (ic == n - 1 || |IncomeCell(ds, incomeCategoryOf, ds.Keys, ic)| > 0)
            :: RealSum(table[ic]) == 1.0)
    && (forall ic :: 0 <= ic < n - 1 && |IncomeCell(ds, incomeCategoryOf, ds.Keys, ic)| == 0 ==>
          forall rc :: 0 <= rc <= RentCategories ==> table[ic][rc] == 0.0)
  }

  /** The registry of dwellings, households and persons with the vacancy index and the market statistics. */
  class RealEstateDataManager {
    /** Zones, their regions and the set of region ids. */
    const geo: Geo
    /** Number of dwelling types; a dwelling's type is a position in that list. */
    const numDwellingTypes: nat
    /** Number of quality levels; qualities run from 1. */
    const qualityLevels: nat
    /** Number of income categories; the last one is the highest. */
    const numIncomeCategories: nat

    var dwellings: map<int, Dwelling>
    /** Vacant dwelling ids by region. */
    var vacDwellingsByRegion: map<nat, set<int>>
    var highestDwellingIdInUse: int
    /** The ids handed out by GetNextDwellingId since setup. */
    ghost var issuedDwellingIds: set<int>
    var largestNoBedrooms: int
    var dwellingsByQuality: seq<int>
    var initialQualityShares: seq<QualityShare>
    /** Share of each rent category (0..RentCategories) by income category. */
    var rentShareByIncome: seq<seq<real>>
    var avePrice: seq<real>
    var aveVac: seq<real>
    /** Developable land by zone. */
    var developments: map<int, Development>

    var households: map<int, Household>
    var persons: map<int, Person>
    var highestHouseholdIdInUse: int
    var highestPersonIdInUse: int

    /** The state as loaded: entities consistent with each other, before the vacancy index is built. */
    ghost predicate Loaded()
      reads this`dwellings, this`households, this`persons, this`highestHouseholdIdInUse, this`highestPersonIdInUse
    {
      && geo.WellFormed()
      && DwellingsWellFormed(dwellings, geo.zoneRegion)
      && TypesKnown(dwellings, numDwellingTypes)
      && HouseholdsLinked(dwellings, households)
      && PersonsLinked(households, persons)
      && IdsBelow(households.Keys, highestHouseholdIdInUse)
      && IdsBelow(persons.Keys, highestPersonIdInUse)
    }

    /** The state after setup and after every event: also the vacancy index and the dwelling id counter agree. */
    ghost predicate Valid()
      reads this
    {
      && Loaded()
      && VacancyIndexed(dwellings, geo.zoneRegion, vacDwellingsByRegion)
      && IdsBelow(dwellings.Keys, highestDwellingIdInUse)
      && IdsBelow(issuedDwellingIds, highestDwellingIdInUse)
    }

    constructor (geo: Geo, numDwellingTypes: nat, qualityLevels: nat, numIncomeCategories: nat,
                 dwellings: map<int, Dwelling>, households: map<int, Household>, persons: map<int, Person>,
                 developments: map<int, Development>, highestHouseholdIdInUse: int, highestPersonIdInUse: int)
      ensures this.geo == geo && this.numDwellingTypes == numDwellingTypes
      ensures this.qualityLevels == qualityLevels && this.numIncomeCategories == numIncomeCategories
      ensures this.dwellings == dwellings && this.households == households && this.persons == persons
      ensures this.developments == developments
      ensures this.highestHouseholdIdInUse == highestHouseholdIdInUse
      ensures this.highestPersonIdInUse == highestPersonIdInUse
      ensures vacDwellingsByRegion == map[] && highestDwellingIdInUse == 0 && issuedDwellingIds == {}
    {
      this.geo := geo;
      this.numDwellingTypes := numDwellingTypes;
      this.qualityLevels := qualityLevels;
      this.numIncomeCategories := numIncomeCategories;
      this.dwellings := dwellings;
      this.households := households;
      this.persons := persons;
      this.developments := developments;
      this.highestHouseholdIdInUse := highestHouseholdIdInUse;
      this.highestPersonIdInUse := highestPersonIdInUse;
      vacDwellingsByRegion := map[];
      highestDwellingIdInUse := 0;
      issuedDwellingIds := {};
      largestNoBedrooms := 0;
      dwellingsByQuality := [];
      initialQualityShares := [];
      rentShareByIncome := [];
      avePrice := [];
      aveVac := [];
    }

    /** The quality distribution as setup leaves it, over the registry's dwellings. */
    ghost predicate QualityDistributionFilled()
      reads this`dwellings, this`dwellingsByQuality, this`initialQualityShares
    {
      QualityDistribution(dwellings, qualityLevels, dwellingsByQuality, initialQualityShares)
    }

    /** The highest dwelling id and bedroom count as setup leaves them. */
    ghost predicate HighestVariablesSet()
      reads this`dwellings, this`highestDwellingIdInUse, this`largestNoBedrooms
    {
      HighestVariables(dwellings, highestDwellingIdInUse, largestNoBedrooms)
    }

    /** The rent share table as setup leaves it. */
    ghost predicate RentSharesComputed(incomeCategoryOf: int -> nat)
      requires numIncomeCategories > 0
      reads this`dwellings, this`rentShareByIncome
    {
      RentShares(dwellings, incomeCategoryOf, numIncomeCategories, rentShareByIncome)
    }

    /** The first two steps of Setup: the quality distribution, then the highest variables and the rent shares. */
    method ComputeStatistics(incomeCategoryOf: int -> nat)
      requires QualitiesKnown(dwellings, qualityLevels)
      requires numIncomeCategories > 0 && forall h :: incomeCategoryOf(h) < numIncomeCategories
      modifies this`dwellingsByQuality, this`initialQualityShares
      modifies this`highestDwellingIdInUse, this`issuedDwellingIds, this`largestNoBedrooms, this`rentShareByIncome
      ensures QualityDistributionFilled()
      ensures HighestVariablesSet() && issuedDwellingIds == {}
      ensures RentSharesComputed(incomeCategoryOf)
    {
      FillQualityDistribution();
      SetHighestVariablesAndCalculateRentShareByIncome(incomeCategoryOf);
    }

    /**
     * One-time initialisation: the quality distribution, the highest dwelling
     * id and bedroom count with the rent shares, then the vacancy index.
     */
    method Setup(incomeCategoryOf: int -> nat)
      requires ZonesKnown(dwellings, geo.zoneRegion) && vacDwellingsByRegion == map[]
      requires QualitiesKnown(dwellings, qualityLevels)
      requires numIncomeCategories > 0 && forall h :: incomeCategoryOf(h) < numIncomeCategories
      modifies this`dwellingsByQuality, this`initialQualityShares, this`vacDwellingsByRegion
      modifies this`highestDwellingIdInUse, this`issuedDwellingIds, this`largestNoBedrooms, this`rentShareByIncome
      ensures VacancyIndexed(dwellings, geo.zoneRegion, vacDwellingsByRegion)
      ensures Valid() <==> Loaded()
      ensures forall r :: Bucket(vacDwellingsByRegion, r) == VacantInRegion(dwellings, geo.zoneRegion, dwellings.Keys, r)
      ensures QualityDistributionFilled()
      ensures HighestVariablesSet() && issuedDwellingIds == {}
      ensures RentSharesComputed(incomeCategoryOf)
    {
      ComputeStatistics(incomeCategoryOf);
      BuildVacancyIndex();
    }

    /**
     * The last step of Setup: the vacancy index of the registry as loaded. The state is then valid
     * exactly when the loaded registries are consistent and the id counter is set.
     */
    method BuildVacancyIndex()
      requires ZonesKnown(dwellings, geo.zoneRegion) && vacDwellingsByRegion == map[]
      modifies this`vacDwellingsByRegion
      ensures VacancyIndexed(dwellings, geo.zoneRegion, vacDwellingsByRegion)
      ensures Valid() <==> Loaded() && IdsBelow(dwellings.Keys, highestDwellingIdInUse) && IdsBelow(issuedDwellingIds, highestDwellingIdInUse)
      ensures forall r :: Bucket(vacDwellingsByRegion, r) == VacantInRegion(dwellings, geo.zoneRegion, dwellings.Keys, r)
    {
      IdentifyVacantDwellings();
      VacancyIndexedIffBucketsAreVacant(dwellings, geo.zoneRegion, vacDwellingsByRegion);
    }

    /** A dwelling id above every id in use and every id handed out before. */
    method GetNextDwellingId() returns (id: int)
      modifies this`highestDwellingIdInUse, this`issuedDwellingIds
      ensures id == old(highestDwellingIdInUse) + 1 && highestDwellingIdInUse == id
      ensures issuedDwellingIds == old(issuedDwellingIds) + {id}
      ensures old(Valid()) ==> Valid()
      ensures old(Valid()) ==> (forall d :: d in dwellings ==> d < id) && forall i :: i in old(issuedDwellingIds) ==> i < id
    {
      highestDwellingIdInUse := highestDwellingIdInUse + 1;
      id := highestDwellingIdInUse;
      issuedDwellingIds := issuedDwellingIds + {id};
    }

    /** The number of vacant dwellings the index holds for `region`; 0 for a region without a bucket. */
    function NumberOfVacantDDinRegion(region: nat): (n: nat)
      reads this
      ensures region !in vacDwellingsByRegion ==> n == 0
    {
      |Bucket(vacDwellingsByRegion, region)|
    }

    /** In a consistent state the vacant count of a region is the number of its dwellings with no resident. */
    lemma VacantCountIsVacantDwellings(region: nat)
      requires Valid()
      ensures NumberOfVacantDDinRegion(region) == |VacantInRegion(dwellings, geo.zoneRegion, dwellings.Keys, region)|
    {
      VacancyIndexedIffBucketsAreVacant(dwellings, geo.zoneRegion, vacDwellingsByRegion);
    }

    /** The ids of the vacant dwellings the index holds for `region`, each once; none for a region without a bucket. */
    method GetListOfVacantDwellingsInRegion(region: nat) returns (ids: seq<int>)
      ensures |ids| == NumberOfVacantDDinRegion(region)
      ensures forall i :: 0 <= i < |ids| ==> ids[i] in Bucket(vacDwellingsByRegion, region)
      ensures forall id :: id in Bucket(vacDwellingsByRegion, region) ==> id in ids
      ensures forall i, j :: 0 <= i < j < |ids| ==> ids[i] != ids[j]
    {
      var bucket := if region in vacDwellingsByRegion then vacDwellingsByRegion[region] else {};
      ids := ListOf(bucket);
    }

    /** Put dwelling `dd` in the bucket of its zone's region, creating the bucket if needed. */
    method AddDwellingToVacancyList(dd: Dwelling)
      requires dd.zoneId in geo.zoneRegion
      modifies this`vacDwellingsByRegion
      ensures vacDwellingsByRegion == AddToBucket(old(vacDwellingsByRegion), geo.zoneRegion[dd.zoneId], dd.id)
    {
      var region := geo.zoneRegion[dd.zoneId];
      if region !in vacDwellingsByRegion {
        vacDwellingsByRegion := vacDwellingsByRegion[region := {}];
      }
      vacDwellingsByRegion := vacDwellingsByRegion[region := vacDwellingsByRegion[region] + {dd.id}];
    }

    /**
     * Take dwelling `ddId` out of the bucket of its region; `found` says
     * whether it was there (the source logs a consistency warning when not).
     */
    method RemoveDwellingFromVacancyList(ddId: int) returns (found: bool)
      requires ddId in dwellings && dwellings[ddId].zoneId in geo.zoneRegion
      modifies this`vacDwellingsByRegion
      ensures found == (ddId in Bucket(old(vacDwellingsByRegion), RegionOf(dwellings, geo.zoneRegion, ddId)))
      ensures vacDwellingsByRegion == RemoveFromBucket(old(vacDwellingsByRegion), RegionOf(dwellings, geo.zoneRegion, ddId), ddId)
      ensures !found ==> vacDwellingsByRegion == old(vacDwellingsByRegion)
    {
      ghost var before := vacDwellingsByRegion;
      var region := geo.zoneRegion[dwellings[ddId].zoneId];
      found := false;
      if region in vacDwellingsByRegion {
        found := ddId in vacDwellingsByRegion[region];
        vacDwellingsByRegion := vacDwellingsByRegion[region := vacDwellingsByRegion[region] - {ddId}];
      }
      if !found {
        RemoveAbsentFromBucket(before, region, ddId);
      }
    }

    /** Dwelling `id` loses its resident and joins the vacancy index. */
    method VacateDwelling(id: int)
      requires id in dwellings && dwellings[id].id == id && dwellings[id].zoneId in geo.zoneRegion
      modifies this`dwellings, this`vacDwellingsByRegion
      ensures dwellings == WithResident(old(dwellings), id, NoId)
      ensures vacDwellingsByRegion == AddToBucket(old(vacDwellingsByRegion), RegionOf(old(dwellings), geo.zoneRegion, id), id)
      ensures old(VacancyIndexed(dwellings, geo.zoneRegion, vacDwellingsByRegion)) ==>
                VacancyIndexed(dwellings, geo.zoneRegion, vacDwellingsByRegion)
    {
      ghost var ds, vac := dwellings, vacDwellingsByRegion;
      dwellings := WithResident(dwellings, id, NoId);
      AddDwellingToVacancyList(dwellings[id]);
      if VacancyIndexed(ds, geo.zoneRegion, vac) {
        VacateKeepsIndex(ds, geo.zoneRegion, vac, id);
      }
    }

    /** Drop dwelling `id` from the registry (the vacancy index is the caller's business). */
    method RemoveDwelling(id: int)
      modifies this`dwellings
      ensures dwellings == old(dwellings) - {id}
    {
      dwellings := dwellings - {id};
    }

    /** Count the dwellings of every quality level 1..qualityLevels; entry q-1 is the count of level q. */
    method CountByQuality() returns (counts: seq<int>)
      requires QualitiesKnown(dwellings, qualityLevels)
      ensures counts == QualityCounts(dwellings, dwellings.Keys, qualityLevels)
    {
      var ds := dwellings;
      counts := seq(qualityLevels, _ => 0);
      QualityCountsOfNone(ds, qualityLevels);
      ghost var done: set<int> := {};
      var rest := ds.Keys;
      while rest != {}
        invariant done + rest == ds.Keys && done !! rest
        invariant counts == QualityCounts(ds, done, qualityLevels)
        decreases |rest|
      {
        NonEmptyHasElement(rest);
        var id :| id in rest;
        var q := ds[id].quality;
        QualityCountsStep(ds, done, id, qualityLevels);
        counts := counts[q - 1 := counts[q - 1] + 1];
        done := done + {id};
        rest := rest - {id};
      }
    }

    /** Count dwellings by quality and store each level's share of all dwellings (NaN when there are none). */
    method FillQualityDistribution()
      requires QualitiesKnown(dwellings, qualityLevels)
      modifies this`dwellingsByQuality, this`initialQualityShares
      ensures dwellingsByQuality == QualityCounts(dwellings, dwellings.Keys, qualityLevels)
      ensures |initialQualityShares| == qualityLevels
      ensures |dwellings| == 0 ==> forall i :: 0 <= i < qualityLevels ==> initialQualityShares[i] == NaN
      ensures |dwellings| > 0 ==> forall i :: 0 <= i < qualityLevels ==>
                initialQualityShares[i] == Share(dwellingsByQuality[i] as real / |dwellings| as real)
      ensures |dwellings| > 0 ==> RealSum(Fractions(dwellingsByQuality, |dwellings|)) == 1.0
    {
      var counts := CountByQuality();
      QualityCountsSum(dwellings, dwellings.Keys, qualityLevels);
      dwellingsByQuality := counts;
      var total := Sum(counts);
      var shares: seq<QualityShare> := [];
      var qual := 1;
      while qual <= qualityLevels
        invariant 1 <= qual <= qualityLevels + 1 && |shares| == qual - 1
        invariant forall i :: 0 <= i < qual - 1 ==>
                    shares[i] == if total == 0 then NaN else Share(counts[i] as real / total as real)
      {
        var share := if total == 0 then NaN else Share(counts[qual - 1] as real / total as real);
        shares := shares + [share];
        qual := qual + 1;
      }
      initialQualityShares := shares;
      if total > 0 {
        SharesSumToOne(counts, total);
      }
    }

    /**
     * One pass over the registry: the highest dwelling id and bedroom count
     * (starting from 0), and for each income category the rent categories of
     * the occupied dwellings whose household is in it.
     */
    method TallyRents(incomeCategoryOf: int -> nat) returns (highestId: int, largestBedrooms: int, rents: seq<multiset<int>>)
      requires forall h :: incomeCategoryOf(h) < numIncomeCategories
      ensures highestId >= 0 && (highestId == 0 || highestId in dwellings)
      ensures forall id :: id in dwellings ==> id <= highestId
      ensures largestBedrooms >= 0 && (largestBedrooms == 0 || exists id :: id in dwellings && dwellings[id].bedrooms == largestBedrooms)
      ensures forall id :: id in dwellings ==> dwellings[id].bedrooms <= largestBedrooms
      ensures rents == RentTable(dwellings, incomeCategoryOf, dwellings.Keys, numIncomeCategories)
    {
      var ds := dwellings;
      var n := numIncomeCategories;
      highestId, largestBedrooms := 0, 0;
      rents := seq(n, _ => multiset{});
      RentTableOfNone(ds, incomeCategoryOf, n);
      ghost var done: set<int> := {};
      var rest := ds.Keys;
      while rest != {}
        invariant done + rest == ds.Keys && done !! rest
        invariant RentTallied(ds, incomeCategoryOf, n, done, highestId, largestBedrooms, rents)
        decreases |rest|
      {
        NonEmptyHasElement(rest);
        var id :| id in rest;
        var dd := ds[id];
        RentTallyStep(ds, incomeCategoryOf, n, done, id, highestId, largestBedrooms, rents);
        if id > highestId { highestId := id; }
        if dd.bedrooms > largestBedrooms { largestBedrooms := dd.bedrooms; }
        var hhId := dd.residentId;
        if hhId > 0 {
          var ic := incomeCategoryOf(hhId);
          rents := rents[ic := rents[ic] + multiset{RentCategory(dd.price)}];
        }
        done := done + {id};
        rest := rest - {id};
      }
    }

    /**
     * The highest dwelling id and bedroom count in the registry, and the
     * table of rent shares by income category, where the highest income
     * category always counts one dwelling of the top rent category.
     */
    method SetHighestVariablesAndCalculateRentShareByIncome(incomeCategoryOf: int -> nat)
      requires numIncomeCategories > 0 && forall h :: incomeCategoryOf(h) < numIncomeCategories
      modifies this`highestDwellingIdInUse, this`issuedDwellingIds, this`largestNoBedrooms, this`rentShareByIncome
      ensures highestDwellingIdInUse >= 0 && (highestDwellingIdInUse == 0 || highestDwellingIdInUse in dwellings)
      ensures forall id :: id in dwellings ==> id <= highestDwellingIdInUse
      ensures issuedDwellingIds == {}
      ensures largestNoBedrooms >= 0 &&
                (largestNoBedrooms == 0 || exists id :: id in dwellings && dwellings[id].bedrooms == largestNoBedrooms)
      ensures forall id :: id in dwellings ==> dwellings[id].bedrooms <= largestNoBedrooms
      ensures |rentShareByIncome| == numIncomeCategories
      ensures forall ic :: 0 <= ic < numIncomeCategories ==> |rentShareByIncome[ic]| == RentCategories + 1
      ensures forall ic, rc :: 0 <= ic < numIncomeCategories && 0 <= rc <= RentCategories ==>
                rentShareByIncome[ic][rc] == RentShareOf(dwellings, incomeCategoryOf, numIncomeCategories - 1, ic, rc)
      ensures rentShareByIncome[numIncomeCategories - 1][RentCategories] > 0.0
      ensures (forall id :: id in dwellings ==> dwellings[id].price > -(RentCategoryWidth as int)) ==>
                forall ic | 0 <= ic < numIncomeCategories &&
                              (ic == numIncomeCategories - 1 || |IncomeCell(dwellings, incomeCategoryOf, dwellings.Keys, ic)| > 0)
                  :: RealSum(rentShareByIncome[ic]) == 1.0
      ensures forall ic :: 0 <= ic < numIncomeCategories - 1 && |IncomeCell(dwellings, incomeCategoryOf, dwellings.Keys, ic)| == 0 ==>
                forall rc :: 0 <= rc <= RentCategories ==> rentShareByIncome[ic][rc] == 0.0
    {
      var ds := dwellings;
      var n := numIncomeCategories;
      var highestId, largestBedrooms, rents := TallyRents(incomeCategoryOf);
      highestDwellingIdInUse := highestId;
      issuedDwellingIds := {};
      largestNoBedrooms := largestBedrooms;
      var top := n - 1;
      rents := rents[top := rents[top] + multiset{RentCategories}];
      var table := ShareTable(rents);
      forall ic | 0 <= ic < n
        ensures forall rc :: 0 <= rc <= RentCategories ==> table[ic][rc] == RentShareOf(ds, incomeCategoryOf, top, ic, rc)
        ensures ic == top ==> table[ic][RentCategories] > 0.0
        ensures (forall id :: id in ds ==> ds[id].price > -(RentCategoryWidth as int)) && (ic == top || |IncomeCell(ds, incomeCategoryOf, ds.Keys, ic)| > 0) ==>
                  RealSum(table[ic]) == 1.0
        ensures ic != top && |IncomeCell(ds, incomeCategoryOf, ds.Keys, ic)| == 0 ==>
                  forall rc :: 0 <= rc <= RentCategories ==> table[ic][rc] == 0.0
      {
        assert rents[ic] == ToppedUpRents(ds, incomeCategoryOf, top, ic);
        ShareRowOfRegistry(ds, incomeCategoryOf, top, ic, table[ic]);
      }
      rentShareByIncome := table;
    }

    /** Put every dwelling without a resident in the bucket of its region. */
    method IdentifyVacantDwellings()
      requires ZonesKnown(dwellings, geo.zoneRegion)
      modifies this`vacDwellingsByRegion
      ensures forall r :: Bucket(vacDwellingsByRegion, r) ==
                Bucket(old(vacDwellingsByRegion), r) + VacantInRegion(dwellings, geo.zoneRegion, dwellings.Keys, r)
    {
      var ds, zr := dwellings, geo.zoneRegion;
      ghost var start := vacDwellingsByRegion;
      ghost var done: set<int> := {};
      VacantInRegionOfNone(ds, zr);
      var rest := ds.Keys;
      while rest != {}
        invariant dwellings == ds
        invariant done + rest == ds.Keys && done !! rest
        invariant forall r :: Bucket(vacDwellingsByRegion, r) == Bucket(start, r) + VacantInRegion(ds, zr, done, r)
        decreases |rest|
      {
        NonEmptyHasElement(rest);
        var id :| id in rest;
        IndexDwelling(id, start, done);
        done := done + {id};
        rest := rest - {id};
      }
      assert done == ds.Keys;
    }

    /** One step of IdentifyVacantDwellings: add dwelling `id` to its region's bucket if it has no resident. */
    method IndexDwelling(id: int, ghost start: map<nat, set<int>>, ghost done: set<int>)
      requires id in dwellings && id !in done && dwellings[id].zoneId in geo.zoneRegion
      requires forall r :: Bucket(vacDwellingsByRegion, r) == Bucket(start, r) + VacantInRegion(dwellings, geo.zoneRegion, done, r)
      modifies this`vacDwellingsByRegion
      ensures forall r :: Bucket(vacDwellingsByRegion, r) ==
                Bucket(start, r) + VacantInRegion(dwellings, geo.zoneRegion, done + {id}, r)
    {
      var dd := dwellings[id];
      ghost var vac := vacDwellingsByRegion;
      if dd.residentId == NoId {
        vacDwellingsByRegion := AddToBucket(vacDwellingsByRegion, geo.zoneRegion[dd.zoneId], id);
      }
      IndexBuildStep(dwellings, geo.zoneRegion, start, vac, done, id, vacDwellingsByRegion);
    }

    /** Count, for every dwelling type, the vacant and occupied dwellings and the sum of their prices. */
    method TallyByType() returns (vacant: seq<int>, occupied: seq<int>, price: seq<int>)
      requires TypesKnown(dwellings, numDwellingTypes)
      ensures vacant == TypeCounts(dwellings, dwellings.Keys, numDwellingTypes, false)
      ensures occupied == TypeCounts(dwellings, dwellings.Keys, numDwellingTypes, true)
      ensures price == TypePrices(dwellings, dwellings.Keys, numDwellingTypes)
    {
      var ds := dwellings;
      var n := numDwellingTypes;
      vacant := seq(n, _ => 0);
      occupied := seq(n, _ => 0);
      price := seq(n, _ => 0);
      TypeTablesOfNone(ds, n);
      ghost var done: set<int> := {};
      var rest := ds.Keys;
      while rest != {}
        invariant done + rest == ds.Keys && done !! rest
        invariant vacant == TypeCounts(ds, done, n, false)
        invariant occupied == TypeCounts(ds, done, n, true)
        invariant price == TypePrices(ds, done, n)
        decreases |rest|
      {
        NonEmptyHasElement(rest);
        var id :| id in rest;
        var dd := ds[id];
        var t := dd.dwellingType;
        TypeCountsStep(ds, done, id, n);
        TypePricesStep(ds, done, id, n);
        price := AddAt(price, t, dd.price);
        if dd.residentId > 0 {
          occupied := AddAt(occupied, t, 1);
        } else {
          vacant := AddAt(vacant, t, 1);
        }
        done := done + {id};
        rest := rest - {id};
      }
    }

    /** Region-wide vacancy rate and average price of every dwelling type (0 for a type without dwellings). */
    method CalculateRegionWidePriceAndVacancyByDwellingType()
      requires TypesKnown(dwellings, numDwellingTypes)
      modifies this`aveVac, this`avePrice
      ensures |aveVac| == numDwellingTypes && |avePrice| == numDwellingTypes
      ensures forall t :: 0 <= t < numDwellingTypes ==>
                aveVac[t] == VacancyRateOfType(dwellings, t) && avePrice[t] == AveragePriceOfType(dwellings, t)
    {
      var ds := dwellings;
      var n := numDwellingTypes;
      var vacant, occupied, price := TallyByType();
      var vacs: seq<real> := [];
      var prices: seq<real> := [];
      var dto := 0;
      while dto < n
        invariant 0 <= dto <= n && |vacs| == dto && |prices| == dto
        invariant forall t :: 0 <= t < dto ==> vacs[t] == VacancyRateOfType(ds, t) && prices[t] == AveragePriceOfType(ds, t)
      {
        TypeDwellingsSplit(ds, ds.Keys, dto);
        var count := vacant[dto] + occupied[dto];
        if count > 0 {
          vacs := vacs + [vacant[dto] as real / count as real];
          prices := prices + [price[dto] as real / count as real];
        } else {
          vacs := vacs + [0.0];
          prices := prices + [0.0];
        }
        dto := dto + 1;
      }
      aveVac := vacs;
      avePrice := prices;
    }

    /** The highest region id (the source's stream maximum over the region ids). */
    method HighestRegionId() returns (h: nat)
      requires geo.regions != {}
      ensures IsMaximum(h, geo.regions)
    {
      var rest := geo.regions;
      NonEmptyHasElement(rest);
      var first :| first in rest;
      h := first;
      rest := rest - {first};
      while rest != {}
        invariant rest <= geo.regions && h in geo.regions
        invariant forall r :: r in geo.regions && r !in rest ==> r <= h
        decreases |rest|
      {
        NonEmptyHasElement(rest);
        var r :| r in rest;
        if r > h {
          h := r;
        }
        rest := rest - {r};
      }
    }

    /** Vacant and occupied dwelling counts by type and by region 0..h. */
    method TallyByTypeAndRegion(h: nat) returns (vacant: seq<seq<int>>, occupied: seq<seq<int>>)
      requires geo.WellFormed() && ZonesKnown(dwellings, geo.zoneRegion) && TypesKnown(dwellings, numDwellingTypes)
      requires IsMaximum(h, geo.regions)
      ensures vacant == RegionCounts(dwellings, geo.zoneRegion, dwellings.Keys, numDwellingTypes, h, false)
      ensures occupied == RegionCounts(dwellings, geo.zoneRegion, dwellings.Keys, numDwellingTypes, h, true)
    {
      var ds, zr := dwellings, geo.zoneRegion;
      var n := numDwellingTypes;
      var zeros: seq<int> := seq(h + 1, _ => 0);
      vacant := seq(n, _ => zeros);
      occupied := seq(n, _ => zeros);
      RegionTablesOfNone(ds, zr, n, h);
      ghost var done: set<int> := {};
      var rest := ds.Keys;
      while rest != {}
        invariant done + rest == ds.Keys && done !! rest
        invariant vacant == RegionCounts(ds, zr, done, n, h, false)
        invariant occupied == RegionCounts(ds, zr, done, n, h, true)
        decreases |rest|
      {
        NonEmptyHasElement(rest);
        var id :| id in rest;
        var dd := ds[id];
        var t := dd.dwellingType;
        var region := zr[dd.zoneId];
        RegionCountsStep(ds, zr, done, id, n, h);
        if dd.residentId > 0 {
          occupied := Increment(occupied, t, region);
        } else {
          vacant := Increment(vacant, t, region);
        }
        done := done + {id};
        rest := rest - {id};
      }
    }

    /**
     * Vacancy rate of every (dwelling type, region) cell, for regions 0 up
     * to the highest region id; 0 for a cell without dwellings and for an
     * id that is not a region.
     */
    method GetVacancyRateByTypeAndRegion() returns (vacRate: seq<seq<real>>)
      requires geo.WellFormed() && ZonesKnown(dwellings, geo.zoneRegion) && TypesKnown(dwellings, numDwellingTypes)
      ensures |vacRate| == numDwellingTypes
      ensures forall t :: 0 <= t < numDwellingTypes ==> IsMaximum(|vacRate[t]| - 1, geo.regions)
      ensures forall t, r :: 0 <= t < numDwellingTypes && 0 <= r < |vacRate[t]| ==>
                vacRate[t][r] == if r in geo.regions then VacancyRateOfCell(dwellings, geo.zoneRegion, t, r) else 0.0
    {
      var ds, zr, regions := dwellings, geo.zoneRegion, geo.regions;
      var n := numDwellingTypes;
      var h := HighestRegionId();
      var vacant, occupied := TallyByTypeAndRegion(h);
      vacRate := [];
      var dto := 0;
      while dto < n
        invariant 0 <= dto <= n && |vacRate| == dto
        invariant forall t :: 0 <= t < dto ==> |vacRate[t]| == h + 1
        invariant forall t, r :: 0 <= t < dto && 0 <= r <= h ==>
                    vacRate[t][r] == if r in regions then VacancyRateOfCell(ds, zr, t, r) else 0.0
      {
        var row := VacancyRow(ds, zr, regions, dto, h, vacant[dto], occupied[dto]);
        vacRate := vacRate + [row];
        dto := dto + 1;
      }
    }

    /**
     * Number of dwellings of every (dwelling type, region) cell for regions 0
     * up to the highest region id; every cell starts at 1, so each holds its
     * dwelling count plus one.
     */
    method GetDwellingCountByTypeAndRegion() returns (dwellingCount: seq<seq<int>>)
      requires geo.WellFormed() && ZonesKnown(dwellings, geo.zoneRegion) && TypesKnown(dwellings, numDwellingTypes)
      ensures |dwellingCount| == numDwellingTypes
      ensures forall t :: 0 <= t < numDwellingTypes ==> IsMaximum(|dwellingCount[t]| - 1, geo.regions)
      ensures forall t, r :: 0 <= t < numDwellingTypes && 0 <= r < |dwellingCount[t]| ==>
                dwellingCount[t][r] == |TypeRegionDwellings(dwellings, geo.zoneRegion, dwellings.Keys, t, r)| + 1
    {
      var ds, zr := dwellings, geo.zoneRegion;
      var n := numDwellingTypes;
      var h := HighestRegionId();
      var ones: seq<int> := seq(h + 1, _ => 1);
      dwellingCount := seq(n, _ => ones);
      RegionTablesOfNone(ds, zr, n, h);
      ghost var counted := RegionTotals(ds, zr, {}, n, h);
      ghost var done: set<int> := {};
      var rest := ds.Keys;
      while rest != {}
        invariant done + rest == ds.Keys && done !! rest
        invariant counted == RegionTotals(ds, zr, done, n, h)
        invariant |dwellingCount| == n && forall t :: 0 <= t < n ==> |dwellingCount[t]| == h + 1
        invariant forall t, r :: 0 <= t < n && 0 <= r <= h ==> dwellingCount[t][r] == counted[t][r] + 1
        decreases |rest|
      {
        NonEmptyHasElement(rest);
        var id :| id in rest;
        var dd := ds[id];
        var t := dd.dwellingType;
        var region := zr[dd.zoneId];
        RegionTotalsStep(ds, zr, done, id, n, h);
        counted := Increment(counted, t, region);
        dwellingCount := dwellingCount[t := dwellingCount[t][region := dwellingCount[t][region] + 1]];
        done := done + {id};
        rest := rest - {id};
      }
    }

    /** Land available for construction in `zone`: its dwelling capacity, or its developable acres. */
    function GetAvailableCapacityForConstruction(zone: int): (c: real)
      reads this
      requires zone in developments
      ensures developments[zone].useDwellingCapacity ==> c == developments[zone].dwellingCapacity as real
      ensures !developments[zone].useDwellingCapacity ==> c == developments[zone].developableArea
    {
      AvailableCapacity(developments[zone])
    }

    /** Use up the land of one new dwelling in `zone`: one unit of capacity, or `acres` of area. */
    method ConvertLand(zone: int, acres: real)
      requires zone in developments
      modifies this`developments
      ensures developments == old(developments)[zone := Converted(old(developments)[zone], acres)]
      ensures GetAvailableCapacityForConstruction(zone) ==
                old(GetAvailableCapacityForConstruction(zone)) - (if developments[zone].useDwellingCapacity then 1.0 else acres)
    {
      developments := developments[zone := Converted(developments[zone], acres)];
    }

    // The household registry.

    /** A household id above every id in use. */
    method GetNextHouseholdId() returns (id: int)
      modifies this`highestHouseholdIdInUse
      ensures id == old(highestHouseholdIdInUse) + 1 && highestHouseholdIdInUse == id
      ensures old(Valid()) ==> Valid() && forall h :: h in households ==> h < id
    {
      highestHouseholdIdInUse := highestHouseholdIdInUse + 1;
      id := highestHouseholdIdInUse;
    }

    /** A person id above every id in use. */
    method GetNextPersonId() returns (id: int)
      modifies this`highestPersonIdInUse
      ensures id == old(highestPersonIdInUse) + 1 && highestPersonIdInUse == id
      ensures old(Valid()) ==> Valid() && forall p :: p in persons ==> p < id
    {
      highestPersonIdInUse := highestPersonIdInUse + 1;
      id := highestPersonIdInUse;
    }

    /** Number of persons in the registry. */
    function TotalPopulation(): (n: nat)
      reads this
      ensures n == |persons.Keys|
    {
      |persons|
    }

    /** The household ids, each once, in the order of a traversal of the registry. */
    method HouseholdArray() returns (hhs: seq<int>)
      ensures |hhs| == |households|
      ensures forall i :: 0 <= i < |hhs| ==> hhs[i] in households
      ensures forall h :: h in households ==> h in hhs
      ensures forall i, j :: 0 <= i < j < |hhs| ==> hhs[i] != hhs[j]
    {
      hhs := ListOf(households.Keys);
    }

    /** Register a household without a dwelling under a fresh id. */
    method AddHousehold(hh: Household)
      requires Valid() && hh.id !in households && 0 < hh.id <= highestHouseholdIdInUse
      requires hh.dwellingId == NoId && hh.personIds == []
      modifies this`households
      ensures households == old(households)[hh.id := hh]
      ensures Valid()
    {
      AddUnhousedKeepsLinks(dwellings, households, hh);
      households := households[hh.id := hh];
    }

    /** Register a person under a fresh id. */
    method AddPerson(p: Person)
      requires Valid() && p.id !in persons && p.id <= highestPersonIdInUse
      modifies this`persons
      ensures persons == old(persons)[p.id := p]
      ensures Valid()
    {
      AddPersonKeepsPersons(households, persons, p);
      persons := persons[p.id := p];
    }

    /** Make registered person `pid` the last member of household `hhId`. */
    method AddPersonToHousehold(pid: int, hhId: int)
      requires Valid() && pid in persons && hhId in households && persons[pid].householdId == hhId
      requires forall i :: 0 <= i < |households[hhId].personIds| ==> households[hhId].personIds[i] != pid
      modifies this`households
      ensures households == old(households)[hhId := old(households)[hhId].(personIds := old(households)[hhId].personIds + [pid])]
      ensures Valid()
    {
      AppendMemberKeepsPersons(households, persons, hhId, pid);
      MembersIrrelevantToLinks(dwellings, households, hhId, households[hhId].personIds + [pid]);
      households := households[hhId := households[hhId].(personIds := households[hhId].personIds + [pid])];
    }

    /**
     * Remove household `hhId` and its persons; the dwelling it lived in, if
     * any, is vacated and joins the vacancy index.
     */
    method RemoveHousehold(hhId: int)
      requires Valid() && hhId in households
      modifies this`households, this`persons, this`dwellings, this`vacDwellingsByRegion
      ensures households == old(households) - {hhId}
      ensures persons == old(persons) - Members(old(households)[hhId])
      ensures var dd := old(households)[hhId].dwellingId;
              if dd == NoId then dwellings == old(dwellings) && vacDwellingsByRegion == old(vacDwellingsByRegion)
              else dwellings == WithResident(old(dwellings), dd, NoId) &&
                   vacDwellingsByRegion == AddToBucket(old(vacDwellingsByRegion), RegionOf(old(dwellings), geo.zoneRegion, dd), dd)
      ensures Valid()
    {
      var hh := households[hhId];
      RemoveMembersKeepsPersons(households, persons, hhId);
      if hh.dwellingId != NoId {
        RemoveVacatedKeepsLinks(dwellings, households, hhId);
        VacateDwelling(hh.dwellingId);
      } else {
        RemoveUnhousedKeepsLinks(dwellings, households, hhId);
      }
      persons := persons - Members(hh);
      households := households - {hhId};
    }
  }
}
