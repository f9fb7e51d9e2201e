# SILO housing market core in Dafny

This project models the housing-market core of the SILO land-use microsimulation, which has three parts.

- **The real-estate data manager** (`RealEstateDataManagerImpl`) keeps:
  - the dwelling registry;
  - the vacancy index, a set of vacant dwellings per region;
  - the dwelling id counter;
  - the quality distribution of the dwelling stock;
  - the table of rent shares by household income category;
  - the yearly vacancy and price aggregates by dwelling type and by (type, region);
  - the developable land of each zone.
- **The in- and out-migration model** (`InOutMigration`):
  - turns a year's migration targets (from a migration table, or from the gap to a population target) into OUT events for households drawn from the registry, and IN events for new households that copy drawn households;
  - carries these events out, counting the persons who migrate.
- **The demolition model** (`DemolitionModel`):
  - lists one event per dwelling each year and demolishes a dwelling when a draw falls below its demolition probability;
  - first moves its household to the dwelling the search found, or, when the search found none, out of the study area.

The household and person registry, which the source keeps in a separate household data manager, is part of the same `RealEstate.RealEstateDataManager` object. This lets its consistency conditions with the dwellings and the vacancy index be stated once, as `Valid()`.

- **`Valid()` requires:**
  - every dwelling lies in a zone of a known region, under its own positive id;
  - households and dwellings refer to each other both ways;
  - members are registered persons;
  - a dwelling is in its region's vacancy bucket exactly when its resident is -1, and buckets hold nothing else;
  - no id exceeds its counter.
- **Preserving `Valid()`:** every event handler keeps it. Setup builds the vacancy index and the id counter on any registry whose dwellings lie in known zones, as the source does without checking anything else. The state after setup is valid exactly when the loaded registries were already consistent (`Loaded()`: dwellings under their own positive ids, two-way household and dwelling links, registered members with matching household ids, ids below their counters).
- **Loops over hash collections:** the source walks them in an unspecified order. The model takes an element by arbitrary choice (`:|`) from the set not yet visited.
- **Market statistics:** each is specified by a table function over the registry (module `Market`), with a step lemma per loop iteration.

Modules, in dependency order:

| module | what it holds |
|---|---|
| `Entities` | the records: dwelling, household, person, zones and regions, development |
| `Tally` | sums and shares of count tables, listing a set |
| `Market` | the market statistics as functions of the registry |
| `Registry` | bucket operations and the consistency conditions over registry maps, with lemmas on which updates keep them |
| `RealEstate` | the data manager class |
| `Moves` | what the relocation model's search may return, and a move into a vacant dwelling |
| `MigrationPlan` | policy selection, targets, household selection and the plan of a year, as functions |
| `Migration` | the in- and out-migration class |
| `Demolition` | the demolition class |

All source paths below are relative to the repository root.

## Model

| member | source | states |
|---|---|---|
| Entities.JavaDiv | siloCore/src/main/java/de/tum/bgu/msm/data/dwelling/RealEstateDataManagerImpl.java:222 | the quotient is truncated toward zero, as Java's cast of a quotient to int: it is the floor for non-negative dividends and the ceiling for negative ones |
| Tally.ListOf | siloCore/src/main/java/de/tum/bgu/msm/data/dwelling/RealEstateDataManagerImpl.java:128-131 | the array of a set holds every element of the set exactly once and nothing else |
| Tally.SumUpdate | siloCore/src/main/java/de/tum/bgu/msm/data/dwelling/RealEstateDataManagerImpl.java:194 | adding d to one entry of a table adds d to its sum |
| Tally.FractionsSum | siloCore/src/main/java/de/tum/bgu/msm/data/dwelling/RealEstateDataManagerImpl.java:196-199 | the shares of a table of counts, multiplied by the total, add up to the table's sum |
| Tally.SharesSumToOne | siloCore/src/main/java/de/tum/bgu/msm/data/dwelling/RealEstateDataManagerImpl.java:196-199 | shares of a table whose sum is its total add up to 1 |
| Tally.CountsCoverMultiset | siloCore/src/main/java/de/tum/bgu/msm/data/dwelling/RealEstateDataManagerImpl.java:230-233 | when all elements of a multiset lie in 0..k, the multiplicities of 0..k add up to its size |
| Market.RentCategory | siloCore/src/main/java/de/tum/bgu/msm/data/dwelling/RealEstateDataManagerImpl.java:222-223 | the rent category never exceeds 25; it is non-negative exactly for prices above -200, since the quotient is truncated toward zero; for a non-negative price below the cap it is the band of width 200 holding the price, and the cap is reached only by prices of at least 5000 |
| Market.Rate | siloCore/src/main/java/de/tum/bgu/msm/data/dwelling/RealEstateDataManagerImpl.java:388-394 | a vacancy rate lies in [0,1], is 0 for an empty cell, and otherwise times the cell size gives the vacant count |
| Market.Average | siloCore/src/main/java/de/tum/bgu/msm/data/dwelling/RealEstateDataManagerImpl.java:390-394 | an average price is 0 with no dwellings, and otherwise times the count gives the price total |
| Market.QualityCountsStep | siloCore/src/main/java/de/tum/bgu/msm/data/dwelling/RealEstateDataManagerImpl.java:193-195 | one more dwelling adds one to the count of its own quality level and leaves every other level's count |
| Market.QualityCountsSum | siloCore/src/main/java/de/tum/bgu/msm/data/dwelling/RealEstateDataManagerImpl.java:193-198 | when every quality is a level, the quality counts add up to the number of dwellings |
| Market.PriceSumRemove | siloCore/src/main/java/de/tum/bgu/msm/data/dwelling/RealEstateDataManagerImpl.java:372-374 | the price total does not depend on the order of the dwellings |
| Market.PriceSumAdd | siloCore/src/main/java/de/tum/bgu/msm/data/dwelling/RealEstateDataManagerImpl.java:374 | one more dwelling adds its price to the price total |
| Market.TypeCountsStep | siloCore/src/main/java/de/tum/bgu/msm/data/dwelling/RealEstateDataManagerImpl.java:372-381 | one more dwelling adds one to the occupied count of its type when its resident is positive, otherwise to the vacant count, and leaves the other table unchanged |
| Market.TypePricesStep | siloCore/src/main/java/de/tum/bgu/msm/data/dwelling/RealEstateDataManagerImpl.java:373-374 | one more dwelling adds its price to its type's price total only |
| Market.TypeDwellingsSplit | siloCore/src/main/java/de/tum/bgu/msm/data/dwelling/RealEstateDataManagerImpl.java:388-390 | the dwellings of a type are its vacant ones plus its occupied ones |
| Market.RegionCountsStep | siloCore/src/main/java/de/tum/bgu/msm/data/dwelling/RealEstateDataManagerImpl.java:406-413 | one more dwelling adds one to the occupied or vacant count of its own (type, region) cell and to no other cell |
| Market.RegionTotalsStep | siloCore/src/main/java/de/tum/bgu/msm/data/dwelling/RealEstateDataManagerImpl.java:455-457 | one more dwelling adds one to the dwelling count of its own (type, region) cell only |
| Market.TypeRegionSplit | siloCore/src/main/java/de/tum/bgu/msm/data/dwelling/RealEstateDataManagerImpl.java:419-420 | a (type, region) cell's dwellings are its vacant ones plus its occupied ones |
| Market.RentsCount | siloCore/src/main/java/de/tum/bgu/msm/data/dwelling/RealEstateDataManagerImpl.java:218-224 | the rents of an income category hold one entry per occupied dwelling of that category, and rent category rc as often as the (category, rc) cell has dwellings |
| Market.RentTableAdd | siloCore/src/main/java/de/tum/bgu/msm/data/dwelling/RealEstateDataManagerImpl.java:215-225 | one more dwelling adds its rent category to its household's income category when its resident id is positive, and changes nothing otherwise |
| Market.RentsInRange | siloCore/src/main/java/de/tum/bgu/msm/data/dwelling/RealEstateDataManagerImpl.java:222-223 | with no price of -200 or less, every rent category counted lies in 0..25 |
| Market.RentShare | siloCore/src/main/java/de/tum/bgu/msm/data/dwelling/RealEstateDataManagerImpl.java:233-238 | a rent share is non-negative, positive when the rent category was counted, and 0 for a category with no counts |
| Market.RentSharesSumToOne | siloCore/src/main/java/de/tum/bgu/msm/data/dwelling/RealEstateDataManagerImpl.java:229-240 | the shares of rent categories 0..25 of one income category add up to 1 when it has counts, and are all 0 when it has none |
| Registry.AddToBucket | siloCore/src/main/java/de/tum/bgu/msm/data/dwelling/RealEstateDataManagerImpl.java:355-357 | the region's bucket gains the dwelling (the bucket is created when absent); every other region's bucket is unchanged |
| Registry.RemoveFromBucket | siloCore/src/main/java/de/tum/bgu/msm/data/dwelling/RealEstateDataManagerImpl.java:332-335 | the region's bucket loses the dwelling; every other bucket is unchanged and no bucket is created |
| Registry.AddToBucketIdempotent | siloCore/src/main/java/de/tum/bgu/msm/data/dwelling/RealEstateDataManagerImpl.java:356-357 | adding a dwelling twice is adding it once, and adding one already present changes nothing |
| Registry.RemoveAbsentFromBucket | siloCore/src/main/java/de/tum/bgu/msm/data/dwelling/RealEstateDataManagerImpl.java:333-345 | removing a dwelling that is not in its bucket changes no bucket (the source only warns) |
| Registry.AddThenRemoveFromBucket | siloCore/src/main/java/de/tum/bgu/msm/models/realEstate/DemolitionModel.java:105-107 | adding a dwelling to a bucket it was not in and removing it again restores every bucket |
| Registry.IndexBuildStep | siloCore/src/main/java/de/tum/bgu/msm/data/dwelling/RealEstateDataManagerImpl.java:174-183 | when every bucket holds its start plus the vacant dwellings visited, adding the next dwelling if its resident is -1 keeps that so |
| Registry.VacancyIndexedIffBucketsAreVacant | siloCore/src/main/java/de/tum/bgu/msm/data/dwelling/RealEstateDataManagerImpl.java:172-184 | the index is consistent (a dwelling is in its region's bucket iff its resident is -1, and buckets hold only dwellings of their region) exactly when every bucket equals the vacant dwellings of its region |
| Registry.WithResident | siloCore/src/main/java/de/tum/bgu/msm/data/dwelling/RealEstateDataManagerImpl.java:524 | setting a dwelling's resident changes that field of that dwelling and nothing else |
| Registry.VacateKeepsIndex | siloCore/src/main/java/de/tum/bgu/msm/data/dwelling/RealEstateDataManagerImpl.java:522-526 | vacating a dwelling and adding it to its bucket keeps the index consistent |
| Registry.OccupyKeepsIndex | siloCore/src/main/java/de/tum/bgu/msm/models/realEstate/DemolitionModel.java:103-104 | giving a vacant dwelling a resident and taking it out of its bucket keeps the index consistent |
| Registry.RemoveUnindexedKeepsIndex | siloCore/src/main/java/de/tum/bgu/msm/models/realEstate/DemolitionModel.java:93 | dropping a dwelling that is in no bucket keeps the index consistent |
| Registry.RemoveDwellingKeepsIndex | siloCore/src/main/java/de/tum/bgu/msm/models/realEstate/DemolitionModel.java:91-93 | taking a dwelling out of its bucket and then out of the registry keeps the index consistent |
| Registry.MoveInKeepsLinks | siloCore/src/main/java/de/tum/bgu/msm/models/relocation/InOutMigration.java:147-148 | an unhoused household moving into a vacant dwelling keeps households and dwellings linked both ways |
| Registry.RemoveUnhousedKeepsLinks | siloCore/src/main/java/de/tum/bgu/msm/models/relocation/InOutMigration.java:162-164 | removing a household without a dwelling keeps the links |
| Registry.RemoveVacatedKeepsLinks | siloCore/src/main/java/de/tum/bgu/msm/models/relocation/InOutMigration.java:191 | removing a household after vacating its dwelling keeps the links |
| Registry.RemoveMembersKeepsPersons | siloCore/src/main/java/de/tum/bgu/msm/models/relocation/InOutMigration.java:191 | removing a household together with its persons keeps every other household's members registered |
| Registry.AddUnhousedKeepsLinks | siloCore/src/main/java/de/tum/bgu/msm/models/relocation/InOutMigration.java:105-106 | registering a new household with dwelling -1 keeps the links |
| Registry.MembersIrrelevantToLinks | siloCore/src/main/java/de/tum/bgu/msm/models/relocation/InOutMigration.java:114 | changing the members of a household does not affect the dwelling links |
| Registry.RemoveVacantKeepsLinks | siloCore/src/main/java/de/tum/bgu/msm/models/realEstate/DemolitionModel.java:91-93 | a vacant dwelling can leave the registry without breaking the links, and no household refers to it |
| Registry.RelocateKeepsLinks | siloCore/src/main/java/de/tum/bgu/msm/models/realEstate/DemolitionModel.java:103-104 | a household moving to a vacant dwelling, its old dwelling then leaving the registry, keeps the links and leaves no household on the old dwelling |
| Registry.AddPersonKeepsPersons | siloCore/src/main/java/de/tum/bgu/msm/models/relocation/InOutMigration.java:113 | registering a person with an unused id keeps every household's membership |
| Registry.AppendMemberKeepsPersons | siloCore/src/main/java/de/tum/bgu/msm/models/relocation/InOutMigration.java:114 | appending a registered person of the household who is not yet a member keeps the membership consistent |
| Registry.MembersCount | siloCore/src/main/java/de/tum/bgu/msm/models/relocation/InOutMigration.java:176 | a household whose members are listed once each has as many member ids as its size |
| Registry.RemoveMembersCount | siloCore/src/main/java/de/tum/bgu/msm/models/relocation/InOutMigration.java:176-191 | removing a household's persons takes exactly its size off the person registry |
| RealEstate.Converted | siloCore/src/main/java/de/tum/bgu/msm/data/dwelling/RealEstateDataManagerImpl.java:481-488 | building uses up one dwelling of capacity when the zone counts capacity, and the given acres otherwise; the other measure is unchanged |
| RealEstate.VacancyRow | siloCore/src/main/java/de/tum/bgu/msm/data/dwelling/RealEstateDataManagerImpl.java:416-425 | the vacancy rate of every region of a dwelling type is the cell's rate; an id in 0..highest that is not a region gets 0 |
| RealEstate.ToppedUpRentsCount | siloCore/src/main/java/de/tum/bgu/msm/data/dwelling/RealEstateDataManagerImpl.java:227-230 | the rents of an income category, with the extra top rent for the highest category, count its occupied dwellings (plus one); their shares are the rent shares of the registry |
| RealEstate.ShareRow | siloCore/src/main/java/de/tum/bgu/msm/data/dwelling/RealEstateDataManagerImpl.java:230-240 | stores the share of each rent category 0..25; they add up to 1 when there are counts in range, and are all 0 when there are none |
| RealEstate.ShareTable | siloCore/src/main/java/de/tum/bgu/msm/data/dwelling/RealEstateDataManagerImpl.java:229-242 | every income category's row holds the shares of its own rents |
| RealEstate.ShareRowOfRegistry | siloCore/src/main/java/de/tum/bgu/msm/data/dwelling/RealEstateDataManagerImpl.java:227-242 | each share is that of the registry. Then: the highest income category has a positive share at 25; a category with dwellings, and the highest one, has shares adding up to 1 when no price is -200 or less; any other category has only zero shares |
| RealEstate.RentTallyStep | siloCore/src/main/java/de/tum/bgu/msm/data/dwelling/RealEstateDataManagerImpl.java:215-225 | tallying one more dwelling raises the maxima to its id and bedroom count, and adds its rent category to its household's income category when its resident id is positive |
| RealEstate.RealEstateDataManager.constructor | siloCore/src/main/java/de/tum/bgu/msm/data/dwelling/RealEstateDataManagerImpl.java:55-64 | the manager holds the given registries, types and zones, with an empty vacancy index |
| RealEstate.RealEstateDataManager.Setup | siloCore/src/main/java/de/tum/bgu/msm/data/dwelling/RealEstateDataManagerImpl.java:72-77 | after setup the vacancy index is consistent with the registry, the state is valid exactly when the loaded registries are consistent (`Loaded()`), every bucket holds exactly the vacant dwellings of its region, and only the statistics, the dwelling id counter and the index are written, so the registries are unchanged. The quality counts and their shares (NaN without dwellings, adding up to 1 otherwise) are those of the registry. The id counter is 0 or the highest dwelling id, and the largest bedroom count is the registry's. The rent-share table is the registry's: a positive share at 25 for the highest income category, rows adding up to 1 where the category has dwellings (and for the highest one) when no price is -200 or less, and all-zero rows otherwise |
| RealEstate.RealEstateDataManager.ComputeStatistics | siloCore/src/main/java/de/tum/bgu/msm/data/dwelling/RealEstateDataManagerImpl.java:73-74 | the quality distribution, the highest id and bedroom count, and the rent-share table are all those of the registry, with no id handed out yet |
| RealEstate.RealEstateDataManager.BuildVacancyIndex | siloCore/src/main/java/de/tum/bgu/msm/data/dwelling/RealEstateDataManagerImpl.java:75 | from any registry whose dwellings lie in known zones, the vacancy index becomes consistent with the registry and every bucket holds exactly the vacant dwellings of its region; the state is then valid exactly when the loaded registries are consistent and no id exceeds its counter |
| RealEstate.RealEstateDataManager.GetNextDwellingId | siloCore/src/main/java/de/tum/bgu/msm/data/dwelling/RealEstateDataManagerImpl.java:102-106 | returns the counter plus one and stores it; in a valid state this is above every registered dwelling id and above every id handed out before, and validity is kept |
| RealEstate.RealEstateDataManager.NumberOfVacantDDinRegion | siloCore/src/main/java/de/tum/bgu/msm/data/dwelling/RealEstateDataManagerImpl.java:133-136 | a region without a bucket has no vacant dwellings |
| RealEstate.RealEstateDataManager.VacantCountIsVacantDwellings | siloCore/src/main/java/de/tum/bgu/msm/data/dwelling/RealEstateDataManagerImpl.java:133-136 | in a valid state a region's vacant count is the number of its dwellings whose resident is -1 |
| RealEstate.RealEstateDataManager.GetListOfVacantDwellingsInRegion | siloCore/src/main/java/de/tum/bgu/msm/data/dwelling/RealEstateDataManagerImpl.java:127-131 | lists the region's bucket, each dwelling once; its length is the region's vacant count, and it is empty for a region without a bucket |
| RealEstate.RealEstateDataManager.AddDwellingToVacancyList | siloCore/src/main/java/de/tum/bgu/msm/data/dwelling/RealEstateDataManagerImpl.java:352-362 | the dwelling joins the bucket of its zone's region, which is created if absent; the other buckets are unchanged |
| RealEstate.RealEstateDataManager.RemoveDwellingFromVacancyList | siloCore/src/main/java/de/tum/bgu/msm/data/dwelling/RealEstateDataManagerImpl.java:326-346 | the dwelling leaves its region's bucket; found says whether it was there, and when it was not, the index is unchanged |
| RealEstate.RealEstateDataManager.VacateDwelling | siloCore/src/main/java/de/tum/bgu/msm/data/dwelling/RealEstateDataManagerImpl.java:521-526 | the dwelling's resident becomes -1, it joins its region's bucket, and a consistent index stays consistent |
| RealEstate.RealEstateDataManager.RemoveDwelling | siloCore/src/main/java/de/tum/bgu/msm/data/dwelling/RealEstateDataManagerImpl.java:153-156 | exactly that dwelling leaves the registry |
| RealEstate.RealEstateDataManager.CountByQuality | siloCore/src/main/java/de/tum/bgu/msm/data/dwelling/RealEstateDataManagerImpl.java:190-195 | entry q-1 is the number of dwellings of quality q |
| RealEstate.RealEstateDataManager.FillQualityDistribution | siloCore/src/main/java/de/tum/bgu/msm/data/dwelling/RealEstateDataManagerImpl.java:189-200 | stores the dwelling count of every quality level and each level's share of all dwellings (NaN with no dwellings); with dwellings the shares add up to 1 |
| RealEstate.RealEstateDataManager.TallyRents | siloCore/src/main/java/de/tum/bgu/msm/data/dwelling/RealEstateDataManagerImpl.java:207-226 | the highest dwelling id and bedroom count (0 when none is positive, and otherwise attained by a dwelling), and each income category's rent categories of its occupied dwellings |
| RealEstate.RealEstateDataManager.SetHighestVariablesAndCalculateRentShareByIncome | siloCore/src/main/java/de/tum/bgu/msm/data/dwelling/RealEstateDataManagerImpl.java:203-243 | stores the highest dwelling id and bedroom count and the rent-share table; each share is the registry's; the highest income category has a positive share at 25; categories with dwellings, and the highest one, sum to 1 when no price is -200 or less; the others are all 0 |
| RealEstate.RealEstateDataManager.IdentifyVacantDwellings | siloCore/src/main/java/de/tum/bgu/msm/data/dwelling/RealEstateDataManagerImpl.java:172-184 | every bucket gains exactly the dwellings of its region whose resident is -1 |
| RealEstate.RealEstateDataManager.IndexDwelling | siloCore/src/main/java/de/tum/bgu/msm/data/dwelling/RealEstateDataManagerImpl.java:175-179 | one step of building the index: the dwelling joins its region's bucket exactly when its resident is -1 |
| RealEstate.RealEstateDataManager.TallyByType | siloCore/src/main/java/de/tum/bgu/msm/data/dwelling/RealEstateDataManagerImpl.java:368-381 | the vacant count, occupied count (resident > 0) and price total of every dwelling type |
| RealEstate.RealEstateDataManager.CalculateRegionWidePriceAndVacancyByDwellingType | siloCore/src/main/java/de/tum/bgu/msm/data/dwelling/RealEstateDataManagerImpl.java:365-397 | every type's vacancy rate is vacant over all its dwellings and its average price is price total over count, both 0 for a type without dwellings |
| RealEstate.RealEstateDataManager.HighestRegionId | siloCore/src/main/java/de/tum/bgu/msm/data/dwelling/RealEstateDataManagerImpl.java:403 | the highest region id |
| RealEstate.RealEstateDataManager.TallyByTypeAndRegion | siloCore/src/main/java/de/tum/bgu/msm/data/dwelling/RealEstateDataManagerImpl.java:404-413 | the vacant and occupied counts of every (type, region) cell for regions 0..highest |
| RealEstate.RealEstateDataManager.GetVacancyRateByTypeAndRegion | siloCore/src/main/java/de/tum/bgu/msm/data/dwelling/RealEstateDataManagerImpl.java:400-427 | one row per type, with one entry per id 0..highest region; each region's entry is the cell's vacancy rate (0 for an empty cell) and every other id's entry is 0 |
| RealEstate.RealEstateDataManager.GetDwellingCountByTypeAndRegion | siloCore/src/main/java/de/tum/bgu/msm/data/dwelling/RealEstateDataManagerImpl.java:448-459 | one row per type, with one entry per id 0..highest region; each entry is the cell's dwelling count plus one |
| RealEstate.RealEstateDataManager.GetAvailableCapacityForConstruction | siloCore/src/main/java/de/tum/bgu/msm/data/dwelling/RealEstateDataManagerImpl.java:462-473 | the zone's dwelling capacity when the zone counts capacity in dwellings, otherwise its developable area; ConvertLand lowers it by 1 or by the acres |
| RealEstate.RealEstateDataManager.ConvertLand | siloCore/src/main/java/de/tum/bgu/msm/data/dwelling/RealEstateDataManagerImpl.java:480-488 | the zone's land is converted as Converted states, which lowers the capacity available for construction by 1 or by the acres; other zones are unchanged |
| RealEstate.RealEstateDataManager.GetNextHouseholdId | siloCore/src/main/java/de/tum/bgu/msm/models/relocation/InOutMigration.java:288 | returns the household counter plus one and stores it; in a valid state it is above every registered household id |
| RealEstate.RealEstateDataManager.GetNextPersonId | siloCore/src/main/java/de/tum/bgu/msm/models/relocation/InOutMigration.java:110 | returns the person counter plus one and stores it; in a valid state it is above every registered person id |
| RealEstate.RealEstateDataManager.TotalPopulation | siloCore/src/main/java/de/tum/bgu/msm/models/relocation/InOutMigration.java:226 | the number of registered persons, the current population the population targets are compared with (also 247) |
| RealEstate.RealEstateDataManager.HouseholdArray | siloCore/src/main/java/de/tum/bgu/msm/models/relocation/InOutMigration.java:232 | lists every registered household exactly once |
| RealEstate.RealEstateDataManager.AddHousehold | siloCore/src/main/java/de/tum/bgu/msm/models/relocation/InOutMigration.java:105-106 | registers the new unhoused household, keeping the state valid |
| RealEstate.RealEstateDataManager.AddPerson | siloCore/src/main/java/de/tum/bgu/msm/models/relocation/InOutMigration.java:113 | registers the new person, keeping the state valid |
| RealEstate.RealEstateDataManager.AddPersonToHousehold | siloCore/src/main/java/de/tum/bgu/msm/models/relocation/InOutMigration.java:114 | appends the person to the household's members, keeping the state valid |
| RealEstate.RealEstateDataManager.RemoveHousehold | siloCore/src/main/java/de/tum/bgu/msm/models/relocation/InOutMigration.java:191 | removes the household and its persons, vacating and indexing its dwelling if it had one, keeping the state valid |
| MigrationPlan.JavaUpperCase | siloCore/src/main/java/de/tum/bgu/msm/models/relocation/InOutMigration.java:63 | the upper case of an ASCII lower-case letter, I for the dotless i and S for the long s; every other character is left alone |
| MigrationPlan.JavaLowerCase | siloCore/src/main/java/de/tum/bgu/msm/models/relocation/InOutMigration.java:63 | the lower case of an ASCII upper-case letter, i for the dotted capital I and k for the Kelvin sign; every other character is left alone |
| MigrationPlan.CharEqualsIgnoreCaseIsFolding | siloCore/src/main/java/de/tum/bgu/msm/models/relocation/InOutMigration.java:63 | equalsIgnoreCase's three tests on a pair of characters hold exactly when the lower cases of their upper cases agree |
| MigrationPlan.PolicyFromName | siloCore/src/main/java/de/tum/bgu/msm/models/relocation/InOutMigration.java:62-89 | the policy whose name equals the property ignoring case, or none when no policy's name matches |
| MigrationPlan.PolicyNameRoundTrip | siloCore/src/main/java/de/tum/bgu/msm/models/relocation/InOutMigration.java:63-71 | every policy is selected by its own name |
| MigrationPlan.PolicyIgnoresCase | siloCore/src/main/java/de/tum/bgu/msm/models/relocation/InOutMigration.java:63-71 | names equal ignoring case select the same policy |
| MigrationPlan.DotlessIPolicyName | siloCore/src/main/java/de/tum/bgu/msm/models/relocation/InOutMigration.java:63 | a name spelled with a dotless i selects the population policy, as equalsIgnoreCase matches it through its upper case |
| MigrationPlan.DottedCapitalIPolicyName | siloCore/src/main/java/de/tum/bgu/msm/models/relocation/InOutMigration.java:67 | a name spelled with a dotted capital I selects the migration policy, as equalsIgnoreCase matches it through its lower case |
| MigrationPlan.LongerNameSelectsNone | siloCore/src/main/java/de/tum/bgu/msm/models/relocation/InOutMigration.java:62-89 | a name longer than every policy name selects no policy |
| MigrationPlan.MigrationTargets | siloCore/src/main/java/de/tum/bgu/msm/models/relocation/InOutMigration.java:222-231 | for the migration table, the year's table values. Otherwise the gap to the population target: out-migrants when the target is below the population, in-migrants when it is above. Never both positive, and they close the gap exactly (also 243-252) |
| MigrationPlan.NewPerson | siloCore/src/main/java/de/tum/bgu/msm/models/relocation/InOutMigration.java:110-112 | an in-migrant copies age, gender, race and role, is unemployed, and has workplace -1 and income 0 |
| MigrationPlan.Selected | siloCore/src/main/java/de/tum/bgu/msm/models/relocation/InOutMigration.java:236 | the index (int)(n * draw) of a draw in [0,1) lies in the array |
| MigrationPlan.Picks | siloCore/src/main/java/de/tum/bgu/msm/models/relocation/InOutMigration.java:233-240 | there are no picks exactly when the target is not positive, and every pick indexes a household |
| MigrationPlan.PicksAreSelections | siloCore/src/main/java/de/tum/bgu/msm/models/relocation/InOutMigration.java:235-236 | the j-th pick is the selection of the j-th draw, picking with replacement |
| MigrationPlan.PicksReachTarget | siloCore/src/main/java/de/tum/bgu/msm/models/relocation/InOutMigration.java:233-239 | with a positive target, the picked households' sizes sum to at least the target |
| MigrationPlan.PicksStopAtTarget | siloCore/src/main/java/de/tum/bgu/msm/models/relocation/InOutMigration.java:235-239 | the sizes of all picks but the last sum to less than the target, so the picks stop as soon as it is reached |
| MigrationPlan.OutEvents | siloCore/src/main/java/de/tum/bgu/msm/models/relocation/InOutMigration.java:237 | one OUT event per pick, for the picked household's id |
| MigrationPlan.InEvents | siloCore/src/main/java/de/tum/bgu/msm/models/relocation/InOutMigration.java:288-292 | one IN event per new household, numbered consecutively from the first new id |
| MigrationPlan.InEventsFresh | siloCore/src/main/java/de/tum/bgu/msm/models/relocation/InOutMigration.java:288-292 | the IN events' household ids are pairwise distinct and none is below the first new id |
| MigrationPlan.SelectOutmigrants | siloCore/src/main/java/de/tum/bgu/msm/models/relocation/InOutMigration.java:232-240 | the OUT events are exactly those of the picks for the out-migration target |
| MigrationPlan.CopyPersons | siloCore/src/main/java/de/tum/bgu/msm/models/relocation/InOutMigration.java:263-273 | the templates are the age, gender, race and role of the household's members, in member order |
| MigrationPlan.NewPersonsAt | siloCore/src/main/java/de/tum/bgu/msm/models/relocation/InOutMigration.java:108-115 | the new persons are numbered consecutively from the first new id, the j-th made from the j-th template |
| MigrationPlan.NewPersonsCount | siloCore/src/main/java/de/tum/bgu/msm/models/relocation/InOutMigration.java:108-115 | there are as many new persons as templates |
| MigrationPlan.NewMembersCopyTemplates | siloCore/src/main/java/de/tum/bgu/msm/models/relocation/InOutMigration.java:108-115 | reading back the new household's members gives exactly the templates it was made from |
| MigrationPlan.InmigrantsAddToPopulation | siloCore/src/main/java/de/tum/bgu/msm/models/relocation/InOutMigration.java:110-113 | in-migrants with new ids add their number to the population |
| MigrationPlan.AddThenRemovePersons | siloCore/src/main/java/de/tum/bgu/msm/models/relocation/InOutMigration.java:162-164 | persons added under new ids and removed again leave the person registry as it was |
| MigrationPlan.TemplateMapAt | siloCore/src/main/java/de/tum/bgu/msm/models/relocation/InOutMigration.java:255-294 | the in-migrating households are exactly the new ids, the j-th copying the members of the j-th pick |
| MigrationPlan.InmigrantStep | siloCore/src/main/java/de/tum/bgu/msm/models/relocation/InOutMigration.java:261-295 | one more in-migrant pick adds one IN event and one template entry, both under the next household id |
| MigrationPlan.InmigrantLoopDone | siloCore/src/main/java/de/tum/bgu/msm/models/relocation/InOutMigration.java:296 | when the loop ends, all in-migrant picks have been made |
| MigrationPlan.HouseholdsInOrder | siloCore/src/main/java/de/tum/bgu/msm/models/relocation/InOutMigration.java:232 | the households of the registry in the order of the listing |
| MigrationPlan.ListedSelectable | siloCore/src/main/java/de/tum/bgu/msm/models/relocation/InOutMigration.java:232-236 | a listing of a registry whose households all have members gives households to pick from |
| MigrationPlan.ListedMembersKnown | siloCore/src/main/java/de/tum/bgu/msm/models/relocation/InOutMigration.java:265 | the members of listed households are registered persons |
| MigrationPlan.AddMemberStep | siloCore/src/main/java/de/tum/bgu/msm/models/relocation/InOutMigration.java:110-114 | one more member extends the member list by the next id and the person registry by that person |
| MigrationPlan.NewPersonsFresh | siloCore/src/main/java/de/tum/bgu/msm/models/relocation/InOutMigration.java:110 | ids above every registered id are not registered |
| MigrationPlan.NewMembersAreNewPersons | siloCore/src/main/java/de/tum/bgu/msm/models/relocation/InOutMigration.java:108-115 | the new household's members are exactly the new persons |
| Migration.InOutMigration.constructor | siloCore/src/main/java/de/tum/bgu/msm/models/relocation/InOutMigration.java:52-91 | the model for the policy that the property names, with empty templates and zero counters |
| Migration.InOutMigration.CreateInmigrants | siloCore/src/main/java/de/tum/bgu/msm/models/relocation/InOutMigration.java:253-296 | one IN event per in-migrant pick, each with the next household id; the templates map each new id to the members of its pick |
| Migration.InOutMigration.AddMember | siloCore/src/main/java/de/tum/bgu/msm/models/relocation/InOutMigration.java:109-114 | one template becomes a registered member under the next person id |
| Migration.InOutMigration.AddMembers | siloCore/src/main/java/de/tum/bgu/msm/models/relocation/InOutMigration.java:108-115 | the household's members become the new persons of its templates, under consecutive new ids |
| Migration.InOutMigration.CreateHousehold | siloCore/src/main/java/de/tum/bgu/msm/models/relocation/InOutMigration.java:104-115 | a new household with dwelling -1, no cars and new members copied from its templates, none of whom was registered before |
| Migration.InOutMigration.OutMigrateHh | siloCore/src/main/java/de/tum/bgu/msm/models/relocation/InOutMigration.java:170-193 | false with nothing changed when the event rules forbid it without override or the household does not exist. Otherwise true: its size is added to the out counter, it leaves with its persons, and its dwelling becomes vacant and indexed |
| Migration.InOutMigration.SettleInmigrant | siloCore/src/main/java/de/tum/bgu/msm/models/relocation/InOutMigration.java:146-152 | the household moves into the found dwelling, the dwelling leaves its region's vacancy bucket, and the household's size is added to the in counter |
| Migration.InOutMigration.RejectInmigrant | siloCore/src/main/java/de/tum/bgu/msm/models/relocation/InOutMigration.java:162-166 | the failure is counted; the household and the persons created for it leave again, counted as out-migrants |
| Migration.InOutMigration.PlanYear | siloCore/src/main/java/de/tum/bgu/msm/models/relocation/InOutMigration.java:232-296 | the events and templates are the planned year: OUT events for the out-migrant picks, then IN events for new ids copying the in-migrant picks |
| Migration.InOutMigration.ListYear | siloCore/src/main/java/de/tum/bgu/msm/models/relocation/InOutMigration.java:222-252 | lists every household once, with the year's targets for the current population |
| Migration.InOutMigration.PrepareYear | siloCore/src/main/java/de/tum/bgu/msm/models/relocation/InOutMigration.java:215-303 | the events are the plan of the year from one listing of the registry and the draws, with the targets of the policy; no person changes, no household due to in-migrate is registered yet, and both person counters are 0 |
| Migration.InOutMigration.InmigrateHh | siloCore/src/main/java/de/tum/bgu/msm/models/relocation/InOutMigration.java:93-167 | creates the household with copied members. With a dwelling id > 0 it moves in, the dwelling leaves its region's vacancy bucket, the in counter grows by its size, and the result is true. Otherwise the failure is counted and it leaves again (households, persons and dwellings as before, its size counted as out-migrants), and the result is false |
| Migration.InOutMigration.InmigrateInto | siloCore/src/main/java/de/tum/bgu/msm/models/relocation/InOutMigration.java:104-161 | the created household moves into the found dwelling, which leaves its region's vacancy bucket, and its persons are counted as in-migrants |
| Migration.InOutMigration.InmigrateAndLeave | siloCore/src/main/java/de/tum/bgu/msm/models/relocation/InOutMigration.java:104-115 | the created household leaves again at once; the registries are as before, and the failure and the out-migrants are counted (also 162-166) |
| Migration.InOutMigration.HandleEvent | siloCore/src/main/java/de/tum/bgu/msm/models/relocation/InOutMigration.java:195-206 | an IN event in-migrates: true exactly when a dwelling was found, and then the household is registered with copies of its template persons, lives in the found dwelling (which leaves its region's vacancy bucket) and its persons count as in-migrants; otherwise the registries are as before, the persons count as out-migrants, and the failure is counted. An OUT event out-migrates with override: true exactly when the household still exists (so a second OUT for it is false), and then it leaves with its persons, its dwelling is vacated and indexed, and its size is added to the out-migrants; otherwise nothing changes |
| Moves.MoveHousehold | siloCore/src/main/java/de/tum/bgu/msm/models/realEstate/DemolitionModel.java:103-104 | the household and the new dwelling name each other, the new dwelling leaves the vacancy index, no old dwelling is released, and an unhoused household moving into a vacant dwelling keeps the state valid |
| Demolition.DemolishVacantKeepsConsistent | siloCore/src/main/java/de/tum/bgu/msm/models/realEstate/DemolitionModel.java:88-93 | demolishing a vacant dwelling after taking it out of the index keeps the registry consistent, and no household refers to it |
| Demolition.DemolishRelocatedKeepsConsistent | siloCore/src/main/java/de/tum/bgu/msm/models/realEstate/DemolitionModel.java:101-104 | demolishing an occupied dwelling whose household moved to a vacant dwelling keeps the registry consistent, and no household refers to the demolished dwelling |
| Demolition.DemolishOutmigratedKeepsConsistent | siloCore/src/main/java/de/tum/bgu/msm/models/realEstate/DemolitionModel.java:105-107 | demolishing a dwelling whose household out-migrated keeps the registry consistent, with every vacancy bucket as before the demolition |
| Demolition.DemolitionModel.constructor | siloCore/src/main/java/de/tum/bgu/msm/models/realEstate/DemolitionModel.java:33-39 | the current year starts at -1 and the forced out-migration count at 0 |
| Demolition.DemolitionModel.PrepareYear | siloCore/src/main/java/de/tum/bgu/msm/models/realEstate/DemolitionModel.java:60-67 | records the year and lists exactly one event per registered dwelling, each with that dwelling's id |
| Demolition.DemolitionModel.HandleEvent | siloCore/src/main/java/de/tum/bgu/msm/models/realEstate/DemolitionModel.java:70-78 | true exactly when the dwelling still exists and the draw is below its demolition probability for the current year. Then exactly that dwelling is gone, no household refers to it, and the case of DemolishDwelling holds: vacant, relocated or out-migrated. Otherwise nothing changes, the out-migrant counter included |
| Demolition.DemolitionModel.DemolishDwelling | siloCore/src/main/java/de/tum/bgu/msm/models/realEstate/DemolitionModel.java:84-99 | always true. Exactly the dwelling leaves the registry, the state stays valid, and no household refers to it. A vacant dwelling first leaves the index; a relocated household moves to the new dwelling with persons unchanged; an out-migrated household leaves with its persons, buckets as before, counted as forced out, and its size is added to the out-migrants. In the other two cases the out-migrant counter is unchanged |
| Demolition.DemolitionModel.MoveOutHousehold | siloCore/src/main/java/de/tum/bgu/msm/models/realEstate/DemolitionModel.java:101-110 | with a found dwelling the household moves there without releasing the old one; otherwise it out-migrates with override, its dwelling's vacancy entry is removed again, the forced out-migration is counted, and its size is added to the out-migrants. A move leaves the out-migrant counter unchanged |
| Demolition.DemolitionModel.ForceOutmigration | siloCore/src/main/java/de/tum/bgu/msm/models/realEstate/DemolitionModel.java:105-109 | the household leaves with its persons, its dwelling is vacated, added to and removed from the index again, the forced out-migration is counted, and its size is added to the out-migrants |

## Left out

- Reading the development file, writing the final dwelling file, the yearly summaries and all logging and track-writer output are I/O. Only the warning condition of removeDwellingFromVacancyList is kept, as its result.
- Shares, rates and averages are Java floats and doubles in the source. The model uses exact reals: a rent share `count / sum` is a float division, here an exact one.
- GetNextDwellingId, GetNextHouseholdId and GetNextPersonId do not model 32-bit overflow of the int counters. The same holds for the person counters and the price totals, because integers here are unbounded.
- The population target series of the growth-rate policy is computed with Math.pow and Math.round on doubles (InOutMigration.java:71-83). It is an input table, populationByYear, shared with the population policy.
- JavaUpperCase and JavaLowerCase follow Character.toUpperCase and Character.toLowerCase only on the ASCII letters and on the four other characters whose case maps reach an ASCII letter (U+0130, U+0131, U+017F, U+212A). Every other character is left alone. This changes no comparison with the ASCII policy names, but equalsIgnoreCase on two arbitrary strings is not modelled.
- The constructor stops the program (System.exit) on an unknown policy name. The model states a known name as the constructor's precondition instead.
- The code calls several models whose interface is all it sees:
  - the demolition probability, a scripted calculator (DemolitionJSCalculator), is a function parameter of HandleEvent;
  - the dwelling search of the relocation model (searchForNewDwelling) is an input id, assumed to be 0 or less, or a registered vacant dwelling;
  - the uniform random numbers are a draw parameter or a stream of draws in [0, 1).
  - The stream does not follow how many draws other models consume. The float draws of the in-migrant selection are treated like the double draws.
- The demolition constructor's choice of calculator script by implementation, and its exception for unsupported implementations, are left out: the probability is a parameter.
- NewPerson and CopyPersons keep gender and role as the codes the templates store, and give the new person the template's gender and role. InOutMigration.java:268 and :270 encode them as `ordinal()+1` and `ordinal()`, and InOutMigration.java:110-112 decodes them with Gender.valueOf(int) and PersonRole.valueOf(int). Neither valueOf is part of this model. The model assumes each inverts its encoding, so the in-migrant has the copied person's gender and role.
- TotalPopulation: the household data manager's getTotalPopulation is not part of this model. It is taken to be the number of registered persons.
- The household data manager is not part of this model; it is folded into RealEstateDataManager. Its removeHousehold is modelled as: remove the household and its members, and vacate and index its dwelling. Its getNextHouseholdId and getNextPersonId are modelled as raising the counter by one and returning it; addHousehold and addPerson as inserting into the registry map under the entity's id; addPersonToHousehold as appending the person to the household's members and setting the person's household id. This is what the demolition model's later removal from the vacancy index needs.
- The relocation model's moveHousehold is modelled only in the form the core uses, with old dwelling -1.
- The income category of a household is a function parameter from household id to category: the income computation (HouseholdUtil) is not part of the model.
- The lack-of-dwelling counters (IssueCounter) are fields of the migration and demolition classes.
- The vacancy sets hold dwelling objects in the source and dwelling ids here. Each registered id has one dwelling object.
- Hash-map and hash-set iteration order is arbitrary. Two orders are fixed instead:
  - an in-migrant's template persons are taken in member order;
  - the IN and OUT draws are taken from one stream, OUT first.
- The employment, car ownership and driver's license steps of in-migration and out-migration are commented out in the source and are not modelled.
- The unreachable default branch of the migration handleEvent is not modelled; an event kind is In or Out.
- PrepareYear resets the two person counters before planning rather than after. No planning step reads them, so the outcome is the same.
- Setup and BuildVacancyIndex do not check that the loaded registries are consistent with each other, and neither does the source. They promise `Valid()` exactly when `Loaded()` holds of the registries as loaded, and nothing about validity otherwise.
- Several preconditions stand where the source would fail at run time rather than handle the input:
  - Setup requires known dwelling qualities, zones in known regions, and income categories in range; the source would index out of bounds or dereference null. It also requires the empty vacancy index the constructor leaves, since the source runs setup once.
  - MigrationTargets, ListYear and PrepareYear require the year to be a row of the tables the policy reads: of the migration table (both columns) under the migration-table policy, of the population-target table otherwise. TableDataSet.getIndexedValueAt fails at run time on a missing row (InOutMigration.java:224, :227, :245, :248).
  - ListYear and PrepareYear require, when a target is positive, at least one household and a member in every household. The source would index an empty array, or could keep drawing empty households.
- The accessors getCurrentQualShares, getInitialQualShares, getRentPaymentsForIncomeGroup, getDwelling, getDwellings, addDwelling and setAvePriceByDwellingType are left out; the core's events do not use them. The manager's prepareYear only calls calculateRegionWidePriceAndVacancyByDwellingType, which is modelled.
- RENT_CATEGORIES = 25 comes from the comment at RealEstateDataManagerImpl.java:210, since its definition is not part of this model. The rent shares are stated to sum to 1 only when no price is -200 or less: the quotient is truncated toward zero, so a price of -200 or less gives a negative rent category, which the share loop over 0..25 never counts.
