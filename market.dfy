/**
 * Specification of the market statistics the real-estate manager derives
 * from its registry: which dwellings fall in each (type, region) cell,
 * vacancy rates, average prices, quality counts and the rent paid by
 * households of each income category.
 *
 * Every cell function takes the set `ids` of dwelling ids looked at so far,
 * so that the loops computing the statistics can state their progress; the
 * statistic of the whole registry `ds` is the cell over `ds.Keys`. The
 * tables (`QualityCounts`, `TypeCounts`, ...) gather the cells the source
 * keeps in one array, and each has a step lemma saying how one more
 * dwelling changes it.
 */
module Market {
  import opened Entities
  import opened Tally

  /** The aggregates count a dwelling as occupied when its resident id is positive. */
  predicate Occupied(d: Dwelling)
  {
    d.residentId > 0
  }

  /** Rent category of a monthly price: the price over RentCategoryWidth, truncated, capped at RentCategories. */
  function RentCategory(price: int): (rc: int)
    ensures rc <= RentCategories
    ensures price > -(RentCategoryWidth as int) ==> 0 <= rc
    ensures price <= -(RentCategoryWidth as int) ==> rc < 0
    ensures price >= 0 && rc < RentCategories ==>
              rc * RentCategoryWidth <= price < (rc + 1) * RentCategoryWidth
    ensures price >= 0 && rc == RentCategories ==> RentCategories * RentCategoryWidth <= price
  {
    var c := JavaDiv(price, RentCategoryWidth);
    if c < RentCategories then c else RentCategories
  }

  /** The share `part` is of `whole`, and 0 when `whole` is empty. */
  function Rate(part: nat, whole: nat): (r: real)
    requires part <= whole
    ensures 0.0 <= r <= 1.0
    ensures whole == 0 ==> r == 0.0
    ensures whole > 0 ==> r * (whole as real) == part as real
  {
    if whole > 0 then part as real / whole as real else 0.0
  }

  /** Average of a total over `count` items, and 0 when there are none. */
  function Average(total: int, count: nat): (r: real)
    ensures count == 0 ==> r == 0.0
    ensures count > 0 ==> r * (count as real) == total as real
  {
    if count > 0 then total as real / count as real else 0.0
  }

  /** The size of a cell grows by one exactly when the added dwelling belongs to it. */
  lemma CountStep(cell: set<int>, cell': set<int>, x: int, belongs: bool)
    requires x !in cell
    requires cell' == if belongs then cell + {x} else cell
    ensures |cell'| == |cell| + (if belongs then 1 else 0)
  {
  }

  // Quality levels.

  /** Dwellings of quality level `q` among `ids`. */
  ghost function QualityCell(ds: map<int, Dwelling>, ids: set<int>, q: int): set<int>
  {
    set id | id in ids && id in ds && ds[id].quality == q
  }

  /** The number of dwellings of each quality level 1..levels among `ids`; entry q-1 counts level q. */
  ghost function QualityCounts(ds: map<int, Dwelling>, ids: set<int>, levels: nat): seq<int>
  {
    seq(levels, i => |QualityCell(ds, ids, i + 1)|)
  }

  /** One more dwelling adds one to the count of its quality level and leaves the other counts. */
  lemma QualityCountsStep(ds: map<int, Dwelling>, done: set<int>, x: int, levels: nat)
    requires x in ds && x !in done && 1 <= ds[x].quality <= levels
    ensures QualityCounts(ds, done + {x}, levels) == AddAt(QualityCounts(ds, done, levels), ds[x].quality - 1, 1)
  {
    var before, after := QualityCounts(ds, done, levels), QualityCounts(ds, done + {x}, levels);
    forall i | 0 <= i < levels ensures after[i] == AddAt(before, ds[x].quality - 1, 1)[i] {
      CountStep(QualityCell(ds, done, i + 1), QualityCell(ds, done + {x}, i + 1), x, ds[x].quality == i + 1);
    }
  }

  /** When every dwelling's quality is a level, the quality counts add up to the number of dwellings. */
  lemma {:induction false} QualityCountsSum(ds: map<int, Dwelling>, ids: set<int>, levels: nat)
    requires ids <= ds.Keys && forall id :: id in ids ==> 1 <= ds[id].quality <= levels
    ensures Sum(QualityCounts(ds, ids, levels)) == |ids|
    decreases ids
  {
    if ids == {} {
      SumZeros(QualityCounts(ds, ids, levels));
    } else {
      var x := Pick(ids);
      QualityCountsSum(ds, ids - {x}, levels);
      assert ids - {x} + {x} == ids;
      QualityCountsStep(ds, ids - {x}, x, levels);
      SumUpdate(QualityCounts(ds, ids - {x}, levels), ds[x].quality - 1, 1);
    }
  }

  /** Dwellings of quality level `q` among no dwellings (the loops' starting point). */
  lemma QualityCountsOfNone(ds: map<int, Dwelling>, levels: nat)
    ensures QualityCounts(ds, {}, levels) == seq(levels, _ => 0)
  {
    forall q | 1 <= q <= levels ensures QualityCell(ds, {}, q) == {} {
    }
  }

  // Dwelling types.

  /** Dwellings of type `t` among `ids` that are occupied (or not, as `occupied` says). */
  ghost function TypeCell(ds: map<int, Dwelling>, ids: set<int>, t: nat, occupied: bool): set<int>
  {
    set id | id in ids && id in ds && ds[id].dwellingType == t && Occupied(ds[id]) == occupied
  }

  /** Dwellings of type `t` among `ids`. */
  ghost function TypeDwellings(ds: map<int, Dwelling>, ids: set<int>, t: nat): set<int>
  {
    set id | id in ids && id in ds && ds[id].dwellingType == t
  }

  /** The number of occupied (or of unoccupied) dwellings of each of the types 0..n-1 among `ids`. */
  ghost function TypeCounts(ds: map<int, Dwelling>, ids: set<int>, n: nat, occupied: bool): seq<int>
  {
    seq(n, t requires 0 <= t < n => |TypeCell(ds, ids, t, occupied)|)
  }

  /** Price of dwelling `id`, and 0 for an id not in the registry. */
  function PriceOf(ds: map<int, Dwelling>, id: int): int
  {
    if id in ds then ds[id].price else 0
  }

  /** Sum of the prices of the dwellings `ids`. */
  ghost function PriceSum(ds: map<int, Dwelling>, ids: set<int>): int
    decreases ids
  {
    if ids == {} then 0
    else
      var id := Pick(ids);
      PriceOf(ds, id) + PriceSum(ds, ids - {id})
  }

  /** The price sum does not depend on which dwelling is taken out first. */
  lemma {:induction false} PriceSumRemove(ds: map<int, Dwelling>, ids: set<int>, y: int)
    requires y in ids
    ensures PriceSum(ds, ids) == PriceOf(ds, y) + PriceSum(ds, ids - {y})
    decreases ids
  {
    var x := Pick(ids);
    if x != y {
      PriceSumRemove(ds, ids - {x}, y);
      PriceSumRemove(ds, ids - {y}, x);
      assert ids - {x} - {y} == ids - {y} - {x};
    }
  }

  /** Adding one more dwelling adds its price. */
  lemma PriceSumAdd(ds: map<int, Dwelling>, ids: set<int>, y: int)
    requires y !in ids
    ensures PriceSum(ds, ids + {y}) == PriceSum(ds, ids) + PriceOf(ds, y)
  {
    PriceSumRemove(ds, ids + {y}, y);
    assert ids + {y} - {y} == ids;
  }

  /** The sum of the prices of the dwellings of each of the types 0..n-1 among `ids`. */
  ghost function TypePrices(ds: map<int, Dwelling>, ids: set<int>, n: nat): seq<int>
  {
    seq(n, t requires 0 <= t < n => PriceSum(ds, TypeDwellings(ds, ids, t)))
  }

  /** One more dwelling grows the cell of its type and occupancy by one, and no other cell. */
  lemma TypeCellStep(ds: map<int, Dwelling>, done: set<int>, x: int, t: nat, occupied: bool)
    requires x in ds && x !in done
    ensures |TypeCell(ds, done + {x}, t, occupied)| ==
              |TypeCell(ds, done, t, occupied)| + (if ds[x].dwellingType == t && Occupied(ds[x]) == occupied then 1 else 0)
  {
    var belongs := ds[x].dwellingType == t && Occupied(ds[x]) == occupied;
    if belongs {
      assert TypeCell(ds, done + {x}, t, occupied) == TypeCell(ds, done, t, occupied) + {x};
    } else {
      assert TypeCell(ds, done + {x}, t, occupied) == TypeCell(ds, done, t, occupied);
    }
  }

  /** One more dwelling adds one to its type's entry in the table of its occupancy. */
  lemma TypeCountsGrow(ds: map<int, Dwelling>, done: set<int>, x: int, n: nat, occupied: bool)
    requires x in ds && x !in done && ds[x].dwellingType < n && Occupied(ds[x]) == occupied
    ensures TypeCounts(ds, done + {x}, n, occupied) == AddAt(TypeCounts(ds, done, n, occupied), ds[x].dwellingType, 1)
  {
    var after, inc := TypeCounts(ds, done + {x}, n, occupied), AddAt(TypeCounts(ds, done, n, occupied), ds[x].dwellingType, 1);
    forall t | 0 <= t < n ensures after[t] == inc[t] {
      TypeCellStep(ds, done, x, t, occupied);
    }
  }

  /** One more dwelling leaves the table of the other occupancy as it was. */
  lemma TypeCountsKeep(ds: map<int, Dwelling>, done: set<int>, x: int, n: nat, occupied: bool)
    requires x in ds && x !in done && Occupied(ds[x]) != occupied
    ensures TypeCounts(ds, done + {x}, n, occupied) == TypeCounts(ds, done, n, occupied)
  {
    var after, before := TypeCounts(ds, done + {x}, n, occupied), TypeCounts(ds, done, n, occupied);
    forall t | 0 <= t < n ensures after[t] == before[t] {
      TypeCellStep(ds, done, x, t, occupied);
    }
  }

  /** One more dwelling adds one to the occupied or the vacant count of its type, and leaves the other table. */
  lemma TypeCountsStep(ds: map<int, Dwelling>, done: set<int>, x: int, n: nat)
    requires x in ds && x !in done && ds[x].dwellingType < n
    ensures TypeCounts(ds, done + {x}, n, Occupied(ds[x])) ==
              AddAt(TypeCounts(ds, done, n, Occupied(ds[x])), ds[x].dwellingType, 1)
    ensures TypeCounts(ds, done + {x}, n, !Occupied(ds[x])) == TypeCounts(ds, done, n, !Occupied(ds[x]))
  {
    TypeCountsGrow(ds, done, x, n, Occupied(ds[x]));
    TypeCountsKeep(ds, done, x, n, !Occupied(ds[x]));
  }

  /** One more dwelling adds its price to the price sum of its type. */
  lemma TypePricesStep(ds: map<int, Dwelling>, done: set<int>, x: int, n: nat)
    requires x in ds && x !in done && ds[x].dwellingType < n
    ensures TypePrices(ds, done + {x}, n) == AddAt(TypePrices(ds, done, n), ds[x].dwellingType, ds[x].price)
  {
    var t := ds[x].dwellingType;
    var before, after := TypePrices(ds, done, n), TypePrices(ds, done + {x}, n);
    var inc := AddAt(before, t, ds[x].price);
    forall t' | 0 <= t' < n ensures after[t'] == inc[t'] {
      if t' == t {
        assert TypeDwellings(ds, done + {x}, t') == TypeDwellings(ds, done, t') + {x};
        PriceSumAdd(ds, TypeDwellings(ds, done, t'), x);
      } else {
        assert TypeDwellings(ds, done + {x}, t') == TypeDwellings(ds, done, t');
      }
    }
  }

  /** The type tables of no dwellings are all zeros. */
  lemma TypeTablesOfNone(ds: map<int, Dwelling>, n: nat)
    ensures TypeCounts(ds, {}, n, true) == seq(n, _ => 0) && TypeCounts(ds, {}, n, false) == seq(n, _ => 0)
    ensures TypePrices(ds, {}, n) == seq(n, _ => 0)
  {
    forall t | 0 <= t < n
      ensures TypeCell(ds, {}, t, true) == {} && TypeCell(ds, {}, t, false) == {} && TypeDwellings(ds, {}, t) == {}
    {
    }
  }

  /** The dwellings of a type are its occupied and its unoccupied ones, so the count is their sum. */
  lemma TypeDwellingsSplit(ds: map<int, Dwelling>, ids: set<int>, t: nat)
    ensures |TypeDwellings(ds, ids, t)| == |TypeCell(ds, ids, t, false)| + |TypeCell(ds, ids, t, true)|
  {
    assert TypeDwellings(ds, ids, t) == TypeCell(ds, ids, t, false) + TypeCell(ds, ids, t, true);
    assert TypeCell(ds, ids, t, false) !! TypeCell(ds, ids, t, true);
  }

  /** The region-wide vacancy rate of dwelling type `t`: vacant over all dwellings of the type. */
  ghost function VacancyRateOfType(ds: map<int, Dwelling>, t: nat): real
  {
    var v := |TypeCell(ds, ds.Keys, t, false)|;
    var o := |TypeCell(ds, ds.Keys, t, true)|;
    Rate(v, v + o)
  }

  /** The region-wide average price of dwelling type `t`. */
  ghost function AveragePriceOfType(ds: map<int, Dwelling>, t: nat): real
  {
    Average(PriceSum(ds, TypeDwellings(ds, ds.Keys, t)), |TypeDwellings(ds, ds.Keys, t)|)
  }

  // Dwelling types by region.

  /** Dwellings of type `t` in region `r` among `ids` that are occupied (or not, as `occupied` says). */
  ghost function TypeRegionCell(ds: map<int, Dwelling>, zr: map<int, nat>, ids: set<int>, t: nat, r: nat, occupied: bool): set<int>
  {
    set id | id in ids && id in ds && ds[id].zoneId in zr && ds[id].dwellingType == t
               && zr[ds[id].zoneId] == r && Occupied(ds[id]) == occupied
  }

  /** Dwellings of type `t` in region `r` among `ids`. */
  ghost function TypeRegionDwellings(ds: map<int, Dwelling>, zr: map<int, nat>, ids: set<int>, t: nat, r: nat): set<int>
  {
    set id | id in ids && id in ds && ds[id].zoneId in zr && ds[id].dwellingType == t && zr[ds[id].zoneId] == r
  }

  /** Occupied (or unoccupied) dwelling counts by type 0..n-1 and region 0..h among `ids`. */
  ghost function RegionCounts(ds: map<int, Dwelling>, zr: map<int, nat>, ids: set<int>, n: nat, h: nat, occupied: bool): seq<seq<int>>
  {
    seq(n, t requires 0 <= t < n => seq(h + 1, r requires 0 <= r <= h => |TypeRegionCell(ds, zr, ids, t, r, occupied)|))
  }

  /** Dwelling counts by type 0..n-1 and region 0..h among `ids`. */
  ghost function RegionTotals(ds: map<int, Dwelling>, zr: map<int, nat>, ids: set<int>, n: nat, h: nat): seq<seq<int>>
  {
    seq(n, t requires 0 <= t < n => seq(h + 1, r requires 0 <= r <= h => |TypeRegionDwellings(ds, zr, ids, t, r)|))
  }

  /** One more dwelling grows the cell of its type, region and occupancy by one, and no other cell. */
  lemma TypeRegionCellStep(ds: map<int, Dwelling>, zr: map<int, nat>, done: set<int>, x: int, t: nat, r: nat, occupied: bool)
    requires x in ds && x !in done && ds[x].zoneId in zr
    ensures |TypeRegionCell(ds, zr, done + {x}, t, r, occupied)| ==
              |TypeRegionCell(ds, zr, done, t, r, occupied)| +
              (if ds[x].dwellingType == t && zr[ds[x].zoneId] == r && Occupied(ds[x]) == occupied then 1 else 0)
  {
    if ds[x].dwellingType == t && zr[ds[x].zoneId] == r && Occupied(ds[x]) == occupied {
      assert TypeRegionCell(ds, zr, done + {x}, t, r, occupied) == TypeRegionCell(ds, zr, done, t, r, occupied) + {x};
    } else {
      assert TypeRegionCell(ds, zr, done + {x}, t, r, occupied) == TypeRegionCell(ds, zr, done, t, r, occupied);
    }
  }

  /** One more dwelling adds one to its (type, region) entry in the table of its occupancy. */
  lemma RegionCountsGrow(ds: map<int, Dwelling>, zr: map<int, nat>, done: set<int>, x: int, n: nat, h: nat, occupied: bool)
    requires x in ds && x !in done && ds[x].zoneId in zr && ds[x].dwellingType < n && zr[ds[x].zoneId] <= h
    requires Occupied(ds[x]) == occupied
    ensures RegionCounts(ds, zr, done + {x}, n, h, occupied) ==
              Increment(RegionCounts(ds, zr, done, n, h, occupied), ds[x].dwellingType, zr[ds[x].zoneId])
  {
    var after := RegionCounts(ds, zr, done + {x}, n, h, occupied);
    var inc := Increment(RegionCounts(ds, zr, done, n, h, occupied), ds[x].dwellingType, zr[ds[x].zoneId]);
    forall t | 0 <= t < n ensures after[t] == inc[t] {
      forall r | 0 <= r <= h ensures after[t][r] == inc[t][r] {
        TypeRegionCellStep(ds, zr, done, x, t, r, occupied);
      }
    }
  }

  /** One more dwelling leaves the (type, region) table of the other occupancy as it was. */
  lemma RegionCountsKeep(ds: map<int, Dwelling>, zr: map<int, nat>, done: set<int>, x: int, n: nat, h: nat, occupied: bool)
    requires x in ds && x !in done && ds[x].zoneId in zr && Occupied(ds[x]) != occupied
    ensures RegionCounts(ds, zr, done + {x}, n, h, occupied) == RegionCounts(ds, zr, done, n, h, occupied)
  {
    var after, before := RegionCounts(ds, zr, done + {x}, n, h, occupied), RegionCounts(ds, zr, done, n, h, occupied);
    forall t | 0 <= t < n ensures after[t] == before[t] {
      forall r | 0 <= r <= h ensures after[t][r] == before[t][r] {
        TypeRegionCellStep(ds, zr, done, x, t, r, occupied);
      }
    }
  }

  /** One more dwelling adds one to the occupied or the vacant count of its (type, region) cell. */
  lemma RegionCountsStep(ds: map<int, Dwelling>, zr: map<int, nat>, done: set<int>, x: int, n: nat, h: nat)
    requires x in ds && x !in done && ds[x].zoneId in zr && ds[x].dwellingType < n && zr[ds[x].zoneId] <= h
    ensures RegionCounts(ds, zr, done + {x}, n, h, Occupied(ds[x])) ==
              Increment(RegionCounts(ds, zr, done, n, h, Occupied(ds[x])), ds[x].dwellingType, zr[ds[x].zoneId])
    ensures RegionCounts(ds, zr, done + {x}, n, h, !Occupied(ds[x])) == RegionCounts(ds, zr, done, n, h, !Occupied(ds[x]))
  {
    RegionCountsGrow(ds, zr, done, x, n, h, Occupied(ds[x]));
    RegionCountsKeep(ds, zr, done, x, n, h, !Occupied(ds[x]));
  }

  /** One more dwelling adds one to the count of its (type, region) cell. */
  lemma RegionTotalsStep(ds: map<int, Dwelling>, zr: map<int, nat>, done: set<int>, x: int, n: nat, h: nat)
    requires x in ds && x !in done && ds[x].zoneId in zr && ds[x].dwellingType < n && zr[ds[x].zoneId] <= h
    ensures RegionTotals(ds, zr, done + {x}, n, h) ==
              Increment(RegionTotals(ds, zr, done, n, h), ds[x].dwellingType, zr[ds[x].zoneId])
  {
    var t, r := ds[x].dwellingType, zr[ds[x].zoneId];
    var before, after := RegionTotals(ds, zr, done, n, h), RegionTotals(ds, zr, done + {x}, n, h);
    var inc := Increment(before, t, r);
    forall t' | 0 <= t' < n ensures after[t'] == inc[t'] {
      forall r' | 0 <= r' <= h ensures after[t'][r'] == inc[t'][r'] {
        CountStep(TypeRegionDwellings(ds, zr, done, t', r'), TypeRegionDwellings(ds, zr, done + {x}, t', r'), x, t' == t && r' == r);
      }
    }
  }

  /** The (type, region) tables of no dwellings are all zeros. */
  lemma RegionTablesOfNone(ds: map<int, Dwelling>, zr: map<int, nat>, n: nat, h: nat)
    ensures RegionCounts(ds, zr, {}, n, h, true) == seq(n, _ => seq(h + 1, _ => 0))
    ensures RegionCounts(ds, zr, {}, n, h, false) == seq(n, _ => seq(h + 1, _ => 0))
    ensures RegionTotals(ds, zr, {}, n, h) == seq(n, _ => seq(h + 1, _ => 0))
  {
    var zeros := seq(h + 1, _ => 0);
    forall t | 0 <= t < n
      ensures RegionCounts(ds, zr, {}, n, h, true)[t] == zeros && RegionCounts(ds, zr, {}, n, h, false)[t] == zeros
      ensures RegionTotals(ds, zr, {}, n, h)[t] == zeros
    {
      forall r | 0 <= r <= h
        ensures TypeRegionCell(ds, zr, {}, t, r, true) == {} && TypeRegionCell(ds, zr, {}, t, r, false) == {}
        ensures TypeRegionDwellings(ds, zr, {}, t, r) == {}
      {
      }
    }
  }

  /** The (type, region) vacancy rate of the whole registry: vacant over all dwellings of the cell. */
  ghost function VacancyRateOfCell(ds: map<int, Dwelling>, zr: map<int, nat>, t: nat, r: nat): real
  {
    var v := |TypeRegionCell(ds, zr, ds.Keys, t, r, false)|;
    var o := |TypeRegionCell(ds, zr, ds.Keys, t, r, true)|;
    Rate(v, v + o)
  }

  /** The (type, region) cells of the occupied and the vacant dwellings partition the cell's dwellings. */
  lemma TypeRegionSplit(ds: map<int, Dwelling>, zr: map<int, nat>, ids: set<int>, t: nat, r: nat)
    ensures |TypeRegionDwellings(ds, zr, ids, t, r)| ==
              |TypeRegionCell(ds, zr, ids, t, r, false)| + |TypeRegionCell(ds, zr, ids, t, r, true)|
  {
    assert TypeRegionDwellings(ds, zr, ids, t, r) ==
             TypeRegionCell(ds, zr, ids, t, r, false) + TypeRegionCell(ds, zr, ids, t, r, true);
    assert TypeRegionCell(ds, zr, ids, t, r, false) !! TypeRegionCell(ds, zr, ids, t, r, true);
  }

  // Rents by income category.

  /** Occupied dwellings among `ids` whose household is in income category `ic`. */
  ghost function IncomeCell(ds: map<int, Dwelling>, incomeCategoryOf: int -> nat, ids: set<int>, ic: nat): set<int>
  {
    set id | id in ids && id in ds && Occupied(ds[id]) && incomeCategoryOf(ds[id].residentId) == ic
  }

  /** Occupied dwellings among `ids` whose household is in income category `ic` and whose rent is in category `rc`. */
  ghost function RentCell(ds: map<int, Dwelling>, incomeCategoryOf: int -> nat, ids: set<int>, ic: nat, rc: int): set<int>
  {
    set id | id in ids && id in ds && Occupied(ds[id]) && incomeCategoryOf(ds[id].residentId) == ic
               && RentCategory(ds[id].price) == rc
  }

  /** The rent category of dwelling `id` when a household of income category `ic` lives there, and nothing otherwise. */
  ghost function RentOf(ds: map<int, Dwelling>, incomeCategoryOf: int -> nat, id: int, ic: nat): multiset<int>
  {
    if id in ds && Occupied(ds[id]) && incomeCategoryOf(ds[id].residentId) == ic
    then multiset{RentCategory(ds[id].price)} else multiset{}
  }

  /** The rent categories of the occupied dwellings among `ids` whose household is in income category `ic`. */
  ghost function Rents(ds: map<int, Dwelling>, incomeCategoryOf: int -> nat, ids: set<int>, ic: nat): multiset<int>
    decreases ids
  {
    if ids == {} then multiset{}
    else
      var id := Pick(ids);
      Rents(ds, incomeCategoryOf, ids - {id}, ic) + RentOf(ds, incomeCategoryOf, id, ic)
  }

  /** The rent multiset does not depend on which dwelling is taken out first. */
  lemma {:induction false} RentsRemove(ds: map<int, Dwelling>, incomeCategoryOf: int -> nat, ids: set<int>, y: int, ic: nat)
    requires y in ids
    ensures Rents(ds, incomeCategoryOf, ids, ic) == Rents(ds, incomeCategoryOf, ids - {y}, ic) + RentOf(ds, incomeCategoryOf, y, ic)
    decreases ids
  {
    var x := Pick(ids);
    if x != y {
      RentsRemove(ds, incomeCategoryOf, ids - {x}, y, ic);
      RentsRemove(ds, incomeCategoryOf, ids - {y}, x, ic);
      assert ids - {x} - {y} == ids - {y} - {x};
    }
  }

  /** The rent multiset of an income category has one element per occupied dwelling of that category. */
  lemma {:induction false} RentsSize(ds: map<int, Dwelling>, incomeCategoryOf: int -> nat, ids: set<int>, ic: nat)
    ensures |Rents(ds, incomeCategoryOf, ids, ic)| == |IncomeCell(ds, incomeCategoryOf, ids, ic)|
    decreases ids
  {
    if ids != {} {
      var x := Pick(ids);
      var rest := ids - {x};
      assert rest + {x} == ids;
      RentsSize(ds, incomeCategoryOf, rest, ic);
      var belongs := x in ds && Occupied(ds[x]) && incomeCategoryOf(ds[x].residentId) == ic;
      CountStep(IncomeCell(ds, incomeCategoryOf, rest, ic), IncomeCell(ds, incomeCategoryOf, ids, ic), x, belongs);
    }
  }

  /** Whether dwelling `x` is in the cell (ic, rc): occupied by a household of category `ic`, with rent category `rc`. */
  ghost predicate InRentCell(ds: map<int, Dwelling>, incomeCategoryOf: int -> nat, x: int, ic: nat, rc: int)
  {
    x in ds && Occupied(ds[x]) && incomeCategoryOf(ds[x].residentId) == ic && RentCategory(ds[x].price) == rc
  }

  /** One more dwelling adds one to the cell (ic, rc) exactly when it belongs there. */
  lemma RentCellAdd(ds: map<int, Dwelling>, incomeCategoryOf: int -> nat, rest: set<int>, x: int, ic: nat, rc: int)
    requires x !in rest
    ensures |RentCell(ds, incomeCategoryOf, rest + {x}, ic, rc)| ==
              |RentCell(ds, incomeCategoryOf, rest, ic, rc)| + (if InRentCell(ds, incomeCategoryOf, x, ic, rc) then 1 else 0)
  {
    var belongs := InRentCell(ds, incomeCategoryOf, x, ic, rc);
    var cell := RentCell(ds, incomeCategoryOf, rest, ic, rc);
    assert RentCell(ds, incomeCategoryOf, rest + {x}, ic, rc) == if belongs then cell + {x} else cell;
  }

  /** The rent of one dwelling counts once for the cell (ic, rc) exactly when the dwelling belongs there. */
  lemma RentOfCount(ds: map<int, Dwelling>, incomeCategoryOf: int -> nat, x: int, ic: nat, rc: int)
    ensures RentOf(ds, incomeCategoryOf, x, ic)[rc] == if InRentCell(ds, incomeCategoryOf, x, ic, rc) then 1 else 0
  {
  }

  /** The rent multiset of an income category holds rent category `rc` once per dwelling of the cell (ic, rc). */
  lemma {:induction false} RentsMultiplicity(ds: map<int, Dwelling>, incomeCategoryOf: int -> nat, ids: set<int>, ic: nat, rc: int)
    ensures Rents(ds, incomeCategoryOf, ids, ic)[rc] == |RentCell(ds, incomeCategoryOf, ids, ic, rc)|
    decreases ids
  {
    if ids != {} {
      var x := Pick(ids);
      var rest := ids - {x};
      assert rest + {x} == ids;
      RentsMultiplicity(ds, incomeCategoryOf, rest, ic, rc);
      RentOfCount(ds, incomeCategoryOf, x, ic, rc);
      RentCellAdd(ds, incomeCategoryOf, rest, x, ic, rc);
    }
  }

  /**
   * The rent multiset of an income category has one element per occupied
   * dwelling of that category, and as many copies of each rent category as
   * that category's cell has dwellings.
   */
  lemma RentsCount(ds: map<int, Dwelling>, incomeCategoryOf: int -> nat, ids: set<int>, ic: nat)
    ensures |Rents(ds, incomeCategoryOf, ids, ic)| == |IncomeCell(ds, incomeCategoryOf, ids, ic)|
    ensures forall rc :: Rents(ds, incomeCategoryOf, ids, ic)[rc] == |RentCell(ds, incomeCategoryOf, ids, ic, rc)|
  {
    RentsSize(ds, incomeCategoryOf, ids, ic);
    forall rc ensures Rents(ds, incomeCategoryOf, ids, ic)[rc] == |RentCell(ds, incomeCategoryOf, ids, ic, rc)| {
      RentsMultiplicity(ds, incomeCategoryOf, ids, ic, rc);
    }
  }

  /** The rent multisets of the income categories 0..n-1 among `ids`. */
  ghost function RentTable(ds: map<int, Dwelling>, incomeCategoryOf: int -> nat, ids: set<int>, n: nat): seq<multiset<int>>
  {
    seq(n, ic requires 0 <= ic < n => Rents(ds, incomeCategoryOf, ids, ic))
  }

  /** One more dwelling adds its rent category to the multiset of its household's income category, if it is occupied. */
  lemma RentTableStep(ds: map<int, Dwelling>, incomeCategoryOf: int -> nat, done: set<int>, x: int, n: nat)
    requires x in ds && x !in done
    ensures forall ic :: 0 <= ic < n ==>
              RentTable(ds, incomeCategoryOf, done + {x}, n)[ic] ==
                RentTable(ds, incomeCategoryOf, done, n)[ic] + RentOf(ds, incomeCategoryOf, x, ic)
  {
    forall ic | 0 <= ic < n
      ensures Rents(ds, incomeCategoryOf, done + {x}, ic) == Rents(ds, incomeCategoryOf, done, ic) + RentOf(ds, incomeCategoryOf, x, ic)
    {
      RentsRemove(ds, incomeCategoryOf, done + {x}, x, ic);
      assert done + {x} - {x} == done;
    }
  }

  /** One more dwelling adds its rent category to the multiset of its household's income category, if it is occupied. */
  lemma RentTableAdd(ds: map<int, Dwelling>, incomeCategoryOf: int -> nat, done: set<int>, x: int, n: nat)
    requires x in ds && x !in done && incomeCategoryOf(ds[x].residentId) < n
    ensures var before := RentTable(ds, incomeCategoryOf, done, n);
            var ic := incomeCategoryOf(ds[x].residentId);
            RentTable(ds, incomeCategoryOf, done + {x}, n) ==
              if Occupied(ds[x]) then before[ic := before[ic] + multiset{RentCategory(ds[x].price)}] else before
  {
    RentTableStep(ds, incomeCategoryOf, done, x, n);
    var before, after := RentTable(ds, incomeCategoryOf, done, n), RentTable(ds, incomeCategoryOf, done + {x}, n);
    var ic := incomeCategoryOf(ds[x].residentId);
    var expected := if Occupied(ds[x]) then before[ic := before[ic] + multiset{RentCategory(ds[x].price)}] else before;
    forall k | 0 <= k < n ensures after[k] == expected[k] {
      assert after[k] == before[k] + RentOf(ds, incomeCategoryOf, x, k);
    }
  }

  /** No dwellings, no rents. */
  lemma RentTableOfNone(ds: map<int, Dwelling>, incomeCategoryOf: int -> nat, n: nat)
    ensures RentTable(ds, incomeCategoryOf, {}, n) == seq(n, _ => multiset{})
  {
  }

  /** With no price at or below -RentCategoryWidth every rent category lies in 0..RentCategories. */
  lemma RentsInRange(ds: map<int, Dwelling>, incomeCategoryOf: int -> nat, ids: set<int>, ic: nat)
    requires forall id :: id in ds ==> ds[id].price > -(RentCategoryWidth as int)
    ensures forall v :: v in Rents(ds, incomeCategoryOf, ids, ic) ==> 0 <= v <= RentCategories
  {
    RentsCount(ds, incomeCategoryOf, ids, ic);
    forall v | v in Rents(ds, incomeCategoryOf, ids, ic) ensures 0 <= v <= RentCategories {
      var cell := RentCell(ds, incomeCategoryOf, ids, ic, v);
      NonEmptyHasElement(cell);
      var id :| id in cell;
      assert RentCategory(ds[id].price) == v;
    }
  }

  /** Share of rent category `rc` in the rents `m` paid by one income category, and 0 when `m` is empty. */
  function RentShare(m: multiset<int>, rc: int): (s: real)
    ensures 0.0 <= s
    ensures m[rc] > 0 ==> s > 0.0
    ensures |m| == 0 ==> s == 0.0
  {
    if |m| != 0 then m[rc] as real / |m| as real else 0.0
  }

  /**
   * The shares of rent categories 0..RentCategories in one income category's
   * rents add up to 1 when the category has any rents in that range, and
   * are all 0 when it has none.
   */
  lemma {:induction false} RentSharesSumToOne(m: multiset<int>, row: seq<real>)
    requires forall v :: v in m ==> 0 <= v <= RentCategories
    requires |row| == RentCategories + 1
    requires forall rc :: 0 <= rc <= RentCategories ==> row[rc] == RentShare(m, rc)
    ensures |m| > 0 ==> RealSum(row) == 1.0
    ensures |m| == 0 ==> forall rc :: 0 <= rc <= RentCategories ==> row[rc] == 0.0
  {
    if |m| > 0 {
      CountsCoverMultiset(m, RentCategories);
      assert row == Fractions(CountsOf(m, RentCategories), |m|);
      SharesSumToOne(CountsOf(m, RentCategories), |m|);
    }
  }
}
