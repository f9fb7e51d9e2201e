/**
 * The entities of the housing-market simulation: dwellings, households,
 * persons, zones grouped into regions, and the developable land of a zone.
 * Entities that the simulation updates are mutated by replacing their value
 * in a registry map (see RealEstate.RealEstateDataManager).
 */
module Entities {

  /** Highest rent category; rents are binned in steps of RentCategoryWidth and capped here. */
  const RentCategories: nat := 25
  /** Monthly rent covered by one rent category. */
  const RentCategoryWidth: nat := 200

  /** Resident id of a dwelling nobody lives in, and dwelling id of a household without a dwelling. */
  const NoId: int := -1

  /**
   * A dwelling. `dwellingType` is the position of the dwelling's type in the
   * model's list of dwelling types (the source's `dwellingTypes.indexOf`).
   */
  datatype Dwelling = Dwelling(
    id: int,
    zoneId: int,
    dwellingType: nat,
    quality: int,
    bedrooms: int,
    price: int,
    residentId: int,
    yearBuilt: int)

  /** Only unemployment is distinguished by the core; every other occupation keeps its code. */
  datatype Occupation = Unemployed | OtherOccupation(code: int)

  /**
   * A person. Gender, race and role are kept as the enumeration codes the
   * in-migration templates store.
   */
  datatype Person = Person(
    id: int,
    householdId: int,
    age: int,
    gender: int,
    race: int,
    role: int,
    occupation: Occupation,
    workplace: int,
    income: int)

  /** The attributes of one member of a household that an in-migrant copy keeps. */
  datatype PersonTemplate = PersonTemplate(age: int, gender: int, race: int, role: int)

  /** A household: its dwelling (NoId when unhoused), car count and members in insertion order. */
  datatype Household = Household(id: int, dwellingId: int, autos: int, personIds: seq<int>)
  {
    /** Number of members (the source's `getHhSize`). */
    function Size(): nat { |personIds| }
  }

  /** Zones and the region each zone belongs to; regions are the set of known region ids. */
  datatype Geo = Geo(zoneRegion: map<int, nat>, regions: set<nat>)
  {
    /** There is at least one region and every zone's region is known. */
    ghost predicate WellFormed()
    {
      regions != {} && forall z :: z in zoneRegion ==> zoneRegion[z] in regions
    }
  }

  /** Developable land of a zone: counted in dwellings or measured in acres. */
  datatype Development = Development(useDwellingCapacity: bool, dwellingCapacity: int, developableArea: real)

  /** Integer division truncating toward zero, as Java's cast of a quotient to `int` does. */
  function JavaDiv(a: int, b: int): (q: int)
    requires b > 0
    ensures a >= 0 ==> q * b <= a < (q + 1) * b
    ensures a < 0 ==> (q - 1) * b < a <= q * b
  {
    if a >= 0 then a / b else -((-a) / b)
  }
}
