/**
 * The consistency conditions between the dwelling registry, the
 * region-bucketed vacancy index and the household registry, stated over
 * the registry maps as values, together with the bucket operations of the
 * vacancy index and the lemmas showing which registry updates keep the
 * conditions.
 */
module Registry {
  import opened Entities

  /** The vacancy bucket of a region; a region without an entry has the empty bucket (`getOrDefault`). */
  function Bucket(vac: map<nat, set<int>>, r: nat): set<int>
  {
    if r in vac then vac[r] else {}
  }

  /** Insert `id` into the bucket of region `r`, creating the bucket first if it is absent. */
  function AddToBucket(vac: map<nat, set<int>>, r: nat, id: int): (v: map<nat, set<int>>)
    ensures Bucket(v, r) == Bucket(vac, r) + {id}
    ensures forall r' :: r' != r ==> Bucket(v, r') == Bucket(vac, r')
    ensures v.Keys == vac.Keys + {r}
  {
    vac[r := Bucket(vac, r) + {id}]
  }

  /** Delete `id` from the bucket of region `r`; a region without a bucket is left as it is. */
  function RemoveFromBucket(vac: map<nat, set<int>>, r: nat, id: int): (v: map<nat, set<int>>)
    ensures Bucket(v, r) == Bucket(vac, r) - {id}
    ensures forall r' :: r' != r ==> Bucket(v, r') == Bucket(vac, r')
    ensures v.Keys == vac.Keys
  {
    if r in vac then vac[r := vac[r] - {id}] else vac
  }

  /** Adding a dwelling that is already in the bucket changes nothing, so adding twice is adding once. */
  lemma {:induction false} AddToBucketIdempotent(vac: map<nat, set<int>>, r: nat, id: int)
    ensures AddToBucket(AddToBucket(vac, r, id), r, id) == AddToBucket(vac, r, id)
    ensures id in Bucket(vac, r) ==> AddToBucket(vac, r, id) == vac
  {
    var once := AddToBucket(vac, r, id);
    assert Bucket(once, r) + {id} == Bucket(once, r);
    if id in Bucket(vac, r) {
      assert Bucket(vac, r) + {id} == Bucket(vac, r);
      assert r in vac;
    }
  }

  /** Removing a dwelling that is not in the bucket leaves the index as it is. */
  lemma {:induction false} RemoveAbsentFromBucket(vac: map<nat, set<int>>, r: nat, id: int)
    requires id !in Bucket(vac, r)
    ensures RemoveFromBucket(vac, r, id) == vac
  {
    if r in vac {
      assert vac[r] - {id} == vac[r];
    }
  }

  /** Adding a dwelling to a bucket it was not in and removing it again gives every region its old bucket. */
  lemma AddThenRemoveFromBucket(vac: map<nat, set<int>>, r: nat, id: int)
    requires id !in Bucket(vac, r)
    ensures forall r' :: Bucket(RemoveFromBucket(AddToBucket(vac, r, id), r, id), r') == Bucket(vac, r')
  {
    assert Bucket(vac, r) + {id} - {id} == Bucket(vac, r);
  }

  /** Every dwelling lies in a zone whose region is known. */
  ghost predicate ZonesKnown(ds: map<int, Dwelling>, zr: map<int, nat>)
  {
    forall id :: id in ds ==> ds[id].zoneId in zr
  }

  /** Every dwelling is stored under its own positive id and lies in a zone whose region is known. */
  ghost predicate DwellingsWellFormed(ds: map<int, Dwelling>, zr: map<int, nat>)
  {
    ZonesKnown(ds, zr) && forall id :: id in ds ==> ds[id].id == id && id > 0
  }

  /** The vacant dwellings of region `r` among `ids`: those whose resident id is NoId. */
  ghost function VacantInRegion(ds: map<int, Dwelling>, zr: map<int, nat>, ids: set<int>, r: nat): set<int>
  {
    set id | id in ids && id in ds && ds[id].zoneId in zr && zr[ds[id].zoneId] == r && ds[id].residentId == NoId
  }

  /** One more dwelling joins the vacant set of its region exactly when it has no resident. */
  lemma VacantInRegionStep(ds: map<int, Dwelling>, zr: map<int, nat>, done: set<int>, x: int, r: nat)
    requires x in ds && x !in done && ds[x].zoneId in zr
    ensures VacantInRegion(ds, zr, done + {x}, r) ==
              VacantInRegion(ds, zr, done, r) + (if zr[ds[x].zoneId] == r && ds[x].residentId == NoId then {x} else {})
  {
  }

  /** Among no dwellings no region has vacant ones. */
  lemma VacantInRegionOfNone(ds: map<int, Dwelling>, zr: map<int, nat>)
    ensures forall r :: VacantInRegion(ds, zr, {}, r) == {}
  {
  }

  /**
   * Building the index one dwelling at a time: when every bucket is its
   * starting content plus the vacant dwellings looked at so far, adding the
   * next dwelling to its region's bucket if it is vacant keeps that so.
   */
  lemma IndexBuildStep(ds: map<int, Dwelling>, zr: map<int, nat>, start: map<nat, set<int>>, vac: map<nat, set<int>>,
                       done: set<int>, x: int, vac': map<nat, set<int>>)
    requires x in ds && x !in done && ds[x].zoneId in zr
    requires forall r :: Bucket(vac, r) == Bucket(start, r) + VacantInRegion(ds, zr, done, r)
    requires vac' == if ds[x].residentId == NoId then AddToBucket(vac, zr[ds[x].zoneId], x) else vac
    ensures forall r :: Bucket(vac', r) == Bucket(start, r) + VacantInRegion(ds, zr, done + {x}, r)
  {
    forall r ensures VacantInRegion(ds, zr, done + {x}, r) ==
                       VacantInRegion(ds, zr, done, r) + (if zr[ds[x].zoneId] == r && ds[x].residentId == NoId then {x} else {})
    {
      VacantInRegionStep(ds, zr, done, x, r);
    }
  }

  /**
   * The vacancy index is consistent with the registry: a dwelling is in the
   * bucket of its region exactly when its resident id is NoId, and a bucket
   * holds only registered dwellings of its own region.
   */
  ghost predicate VacancyIndexed(ds: map<int, Dwelling>, zr: map<int, nat>, vac: map<nat, set<int>>)
  {
    && (forall id :: id in ds && ds[id].zoneId in zr ==>
          (id in Bucket(vac, zr[ds[id].zoneId]) <==> ds[id].residentId == NoId))
    && (forall r, id :: r in vac && id in vac[r] ==>
          id in ds && ds[id].zoneId in zr && zr[ds[id].zoneId] == r)
  }

  /** The vacancy index is consistent exactly when each region's bucket is the set of its vacant dwellings. */
  lemma VacancyIndexedIffBucketsAreVacant(ds: map<int, Dwelling>, zr: map<int, nat>, vac: map<nat, set<int>>)
    requires ZonesKnown(ds, zr)
    ensures VacancyIndexed(ds, zr, vac) <==> forall r :: Bucket(vac, r) == VacantInRegion(ds, zr, ds.Keys, r)
  {
    if VacancyIndexed(ds, zr, vac) {
      forall r ensures Bucket(vac, r) == VacantInRegion(ds, zr, ds.Keys, r) {
        forall id | id in Bucket(vac, r) ensures id in VacantInRegion(ds, zr, ds.Keys, r) {
          assert r in vac && id in vac[r];
        }
        forall id | id in VacantInRegion(ds, zr, ds.Keys, r) ensures id in Bucket(vac, r) {
          assert id in ds && ds[id].zoneId in zr && zr[ds[id].zoneId] == r;
        }
      }
    }
    if forall r :: Bucket(vac, r) == VacantInRegion(ds, zr, ds.Keys, r) {
      forall r, id | r in vac && id in vac[r] ensures id in ds && ds[id].zoneId in zr && zr[ds[id].zoneId] == r {
        assert id in Bucket(vac, r);
      }
      forall id | id in ds && ds[id].zoneId in zr
        ensures id in Bucket(vac, zr[ds[id].zoneId]) <==> ds[id].residentId == NoId
      {
        assert Bucket(vac, zr[ds[id].zoneId]) == VacantInRegion(ds, zr, ds.Keys, zr[ds[id].zoneId]);
      }
    }
  }

  /** Region of a registered dwelling. */
  function RegionOf(ds: map<int, Dwelling>, zr: map<int, nat>, id: int): nat
    requires id in ds && ds[id].zoneId in zr
  {
    zr[ds[id].zoneId]
  }

  /** The registry after dwelling `id` gets resident `hh`. */
  function WithResident(ds: map<int, Dwelling>, id: int, hh: int): (ds': map<int, Dwelling>)
    requires id in ds
    ensures ds'.Keys == ds.Keys && ds'[id].residentId == hh
    ensures ds'[id] == ds[id].(residentId := hh)
    ensures forall k :: k in ds && k != id ==> ds'[k] == ds[k]
  {
    ds[id := ds[id].(residentId := hh)]
  }

  /** Vacating a dwelling and adding it to its region's bucket keeps the index consistent. */
  lemma VacateKeepsIndex(ds: map<int, Dwelling>, zr: map<int, nat>, vac: map<nat, set<int>>, id: int)
    requires VacancyIndexed(ds, zr, vac) && id in ds && ds[id].zoneId in zr
    ensures VacancyIndexed(WithResident(ds, id, NoId), zr, AddToBucket(vac, RegionOf(ds, zr, id), id))
  {
    var ds' := WithResident(ds, id, NoId);
    var vac' := AddToBucket(vac, RegionOf(ds, zr, id), id);
    forall r, k | r in vac' && k in vac'[r] ensures k in ds' && ds'[k].zoneId in zr && zr[ds'[k].zoneId] == r {
      assert k in Bucket(vac', r);
      if k != id {
        assert k in Bucket(vac, r);
      }
    }
  }

  /** Taking a vacant dwelling out of its bucket and giving it a resident keeps the index consistent. */
  lemma OccupyKeepsIndex(ds: map<int, Dwelling>, zr: map<int, nat>, vac: map<nat, set<int>>, id: int, hh: int)
    requires VacancyIndexed(ds, zr, vac) && id in ds && ds[id].zoneId in zr && hh != NoId
    ensures VacancyIndexed(WithResident(ds, id, hh), zr, RemoveFromBucket(vac, RegionOf(ds, zr, id), id))
  {
    var ds' := WithResident(ds, id, hh);
    var vac' := RemoveFromBucket(vac, RegionOf(ds, zr, id), id);
    forall r, k | r in vac' && k in vac'[r] ensures k in ds' && ds'[k].zoneId in zr && zr[ds'[k].zoneId] == r {
      assert k in Bucket(vac', r);
      assert k in Bucket(vac, r);
    }
  }

  /** Removing a dwelling that is in no bucket from the registry keeps the index consistent. */
  lemma RemoveUnindexedKeepsIndex(ds: map<int, Dwelling>, zr: map<int, nat>, vac: map<nat, set<int>>, id: int)
    requires VacancyIndexed(ds, zr, vac) && id in ds && ds[id].zoneId in zr
    requires id !in Bucket(vac, RegionOf(ds, zr, id))
    ensures VacancyIndexed(ds - {id}, zr, vac)
  {
    forall r, k | r in vac && k in vac[r] ensures k in ds - {id} {
      assert k in Bucket(vac, r);
    }
  }

  /** Removing a dwelling from its region's bucket and from the registry keeps the index consistent. */
  lemma RemoveDwellingKeepsIndex(ds: map<int, Dwelling>, zr: map<int, nat>, vac: map<nat, set<int>>, id: int)
    requires VacancyIndexed(ds, zr, vac) && id in ds && ds[id].zoneId in zr
    ensures VacancyIndexed(ds - {id}, zr, RemoveFromBucket(vac, RegionOf(ds, zr, id), id))
  {
    var vac' := RemoveFromBucket(vac, RegionOf(ds, zr, id), id);
    forall r, k | r in vac' && k in vac'[r] ensures k in ds - {id} && ds[k].zoneId in zr && zr[ds[k].zoneId] == r {
      assert k in Bucket(vac', r);
      assert k in Bucket(vac, r);
    }
  }

  /**
   * Every household is stored under its own positive id and lives in a
   * registered dwelling whose resident it is, or has no dwelling; every
   * dwelling with a resident is the dwelling of that household.
   */
  ghost predicate HouseholdsLinked(ds: map<int, Dwelling>, hs: map<int, Household>)
  {
    && (forall h :: h in hs ==>
          && hs[h].id == h && h > 0
          && (hs[h].dwellingId == NoId || (hs[h].dwellingId in ds && ds[hs[h].dwellingId].residentId == h)))
    && (forall d :: d in ds ==>
          || ds[d].residentId == NoId
          || (ds[d].residentId in hs && hs[ds[d].residentId].dwellingId == d))
  }

  /** The members of every household are registered persons of that household, listed once each. */
  ghost predicate PersonsLinked(hs: map<int, Household>, ps: map<int, Person>)
  {
    forall h, i :: h in hs && 0 <= i < |hs[h].personIds| ==>
      hs[h].personIds[i] in ps && ps[hs[h].personIds[i]].householdId == h &&
      forall j :: 0 <= j < i ==> hs[h].personIds[j] != hs[h].personIds[i]
  }

  /** No registered dwelling names `h` as its resident. */
  ghost predicate NotResident(ds: map<int, Dwelling>, h: int)
  {
    forall d :: d in ds ==> ds[d].residentId != h
  }

  /** A dwelling that newly names `h` as resident, while `h` newly points to it, keeps households linked. */
  lemma MoveInKeepsLinks(ds: map<int, Dwelling>, hs: map<int, Household>, h: int, newDd: int)
    requires HouseholdsLinked(ds, hs) && NoId !in ds && h in hs && hs[h].dwellingId == NoId
    requires newDd in ds && ds[newDd].residentId == NoId
    ensures HouseholdsLinked(WithResident(ds, newDd, h), hs[h := hs[h].(dwellingId := newDd)])
  {
  }

  /** A household without a dwelling can be removed without breaking the links. */
  lemma RemoveUnhousedKeepsLinks(ds: map<int, Dwelling>, hs: map<int, Household>, h: int)
    requires HouseholdsLinked(ds, hs) && NoId !in ds && h in hs && hs[h].dwellingId == NoId
    ensures HouseholdsLinked(ds, hs - {h})
  {
    forall d | d in ds && ds[d].residentId != NoId
      ensures ds[d].residentId in hs - {h} && (hs - {h})[ds[d].residentId].dwellingId == d
    {
      assert ds[d].residentId != h;
    }
  }

  /** A household whose dwelling is first vacated can be removed without breaking the links. */
  lemma RemoveVacatedKeepsLinks(ds: map<int, Dwelling>, hs: map<int, Household>, h: int)
    requires HouseholdsLinked(ds, hs) && h in hs && hs[h].dwellingId != NoId
    ensures HouseholdsLinked(WithResident(ds, hs[h].dwellingId, NoId), hs - {h})
  {
    var dd := hs[h].dwellingId;
    var ds' := WithResident(ds, dd, NoId);
    forall d | d in ds' && ds'[d].residentId != NoId
      ensures ds'[d].residentId in hs - {h} && (hs - {h})[ds'[d].residentId].dwellingId == d
    {
      assert d != dd;
      assert ds[d].residentId != h;
    }
  }

  /** The ids of a household's members. */
  function Members(hh: Household): (m: set<int>)
    ensures forall i :: 0 <= i < |hh.personIds| ==> hh.personIds[i] in m
    ensures forall p :: p in m ==> exists i :: 0 <= i < |hh.personIds| && hh.personIds[i] == p
  {
    set i | 0 <= i < |hh.personIds| :: hh.personIds[i]
  }

  /** Removing a household together with its persons keeps the membership of every other household. */
  lemma RemoveMembersKeepsPersons(hs: map<int, Household>, ps: map<int, Person>, h: int)
    requires PersonsLinked(hs, ps) && h in hs
    ensures PersonsLinked(hs - {h}, ps - Members(hs[h]))
  {
  }

  /** A newly registered household without a dwelling keeps households linked. */
  lemma AddUnhousedKeepsLinks(ds: map<int, Dwelling>, hs: map<int, Household>, hh: Household)
    requires HouseholdsLinked(ds, hs) && hh.id !in hs && hh.id > 0 && hh.dwellingId == NoId
    ensures HouseholdsLinked(ds, hs[hh.id := hh])
  {
    forall d | d in ds && ds[d].residentId != NoId ensures ds[d].residentId != hh.id {
    }
  }

  /** Changing only the members of a household keeps households linked. */
  lemma MembersIrrelevantToLinks(ds: map<int, Dwelling>, hs: map<int, Household>, h: int, members: seq<int>)
    requires HouseholdsLinked(ds, hs) && h in hs
    ensures HouseholdsLinked(ds, hs[h := hs[h].(personIds := members)])
  {
  }

  /** A vacant dwelling that no household refers to can leave the registry without breaking the links. */
  lemma RemoveVacantKeepsLinks(ds: map<int, Dwelling>, hs: map<int, Household>, d: int)
    requires HouseholdsLinked(ds, hs) && NoId !in ds && d in ds && ds[d].residentId == NoId
    ensures HouseholdsLinked(ds - {d}, hs)
    ensures forall h :: h in hs ==> hs[h].dwellingId != d
  {
  }

  /**
   * A household that moves from dwelling `hs[h].dwellingId` into the vacant
   * dwelling `newDd`, the old dwelling then leaving the registry, keeps the
   * links and leaves no household referring to the old dwelling.
   */
  lemma RelocateKeepsLinks(ds: map<int, Dwelling>, hs: map<int, Household>, h: int, newDd: int)
    requires HouseholdsLinked(ds, hs) && NoId !in ds && h in hs && hs[h].dwellingId != NoId
    requires newDd in ds && ds[newDd].residentId == NoId
    ensures HouseholdsLinked(WithResident(ds, newDd, h) - {hs[h].dwellingId}, hs[h := hs[h].(dwellingId := newDd)])
    ensures forall g :: g in hs ==> hs[h := hs[h].(dwellingId := newDd)][g].dwellingId != hs[h].dwellingId
  {
    var was := hs[h].dwellingId;
    var ds' := WithResident(ds, newDd, h) - {was};
    var hs' := hs[h := hs[h].(dwellingId := newDd)];
    assert was != newDd;
    forall g | g in hs' ensures hs'[g].dwellingId == NoId || (hs'[g].dwellingId in ds' && ds'[hs'[g].dwellingId].residentId == g) {
      if g != h && hs[g].dwellingId != NoId {
        assert ds[hs[g].dwellingId].residentId == g;
      }
    }
    forall d | d in ds' && ds'[d].residentId != NoId
      ensures ds'[d].residentId in hs' && hs'[ds'[d].residentId].dwellingId == d
    {
      if d != newDd {
        assert ds[d].residentId != h;
      }
    }
  }

  /** Registering a person whose id is not yet taken keeps every household's membership. */
  lemma AddPersonKeepsPersons(hs: map<int, Household>, ps: map<int, Person>, p: Person)
    requires PersonsLinked(hs, ps) && p.id !in ps
    ensures PersonsLinked(hs, ps[p.id := p])
  {
    forall h, i | h in hs && 0 <= i < |hs[h].personIds| ensures hs[h].personIds[i] != p.id {
      assert hs[h].personIds[i] in ps;
    }
  }

  /** Appending a registered person of household `h`, not yet a member, keeps the membership consistent. */
  lemma AppendMemberKeepsPersons(hs: map<int, Household>, ps: map<int, Person>, h: int, pid: int)
    requires PersonsLinked(hs, ps) && h in hs && pid in ps && ps[pid].householdId == h
    requires forall i :: 0 <= i < |hs[h].personIds| ==> hs[h].personIds[i] != pid
    ensures PersonsLinked(hs[h := hs[h].(personIds := hs[h].personIds + [pid])], ps)
  {
    var hs' := hs[h := hs[h].(personIds := hs[h].personIds + [pid])];
    forall g, i | g in hs' && 0 <= i < |hs'[g].personIds|
      ensures hs'[g].personIds[i] in ps && ps[hs'[g].personIds[i]].householdId == g
      ensures forall j :: 0 <= j < i ==> hs'[g].personIds[j] != hs'[g].personIds[i]
    {
      if g == h && i < |hs[h].personIds| {
        assert hs'[g].personIds[i] == hs[h].personIds[i];
        assert forall j :: 0 <= j < i ==> hs'[g].personIds[j] == hs[h].personIds[j];
      }
    }
  }

  /** The elements of a sequence, collected from the last one. */
  ghost function ElementsOf(s: seq<int>): set<int>
  {
    if s == [] then {} else ElementsOf(s[..|s| - 1]) + {s[|s| - 1]}
  }

  /** The collected elements are exactly the sequence's elements. */
  lemma {:induction false} ElementsOfMembership(s: seq<int>)
    ensures forall x :: x in ElementsOf(s) <==> x in s
  {
    if s != [] {
      var n := |s|;
      ElementsOfMembership(s[..n - 1]);
      assert s == s[..n - 1] + [s[n - 1]];
    }
  }

  /** A sequence without repetitions has as many elements as it is long. */
  lemma {:induction false} ElementsOfDistinct(s: seq<int>)
    requires forall i, j :: 0 <= j < i < |s| ==> s[j] != s[i]
    ensures |ElementsOf(s)| == |s|
  {
    if s != [] {
      var n := |s|;
      ElementsOfDistinct(s[..n - 1]);
      ElementsOfMembership(s[..n - 1]);
      var init := s[..n - 1];
      forall j | 0 <= j < |init| ensures init[j] != s[n - 1] {
        assert init[j] == s[j];
      }
      assert s[n - 1] !in ElementsOf(init);
    }
  }

  /** A household whose members are listed once each has as many member ids as members. */
  lemma MembersCount(hh: Household)
    requires forall i, j :: 0 <= j < i < |hh.personIds| ==> hh.personIds[j] != hh.personIds[i]
    ensures |Members(hh)| == hh.Size()
  {
    var s := hh.personIds;
    ElementsOfMembership(s);
    ElementsOfDistinct(s);
    forall x ensures x in Members(hh) <==> x in ElementsOf(s) {
      if x in s {
        var i :| 0 <= i < |s| && s[i] == x;
      }
      if x in Members(hh) {
        var i :| 0 <= i < |s| && s[i] == x;
      }
    }
    assert Members(hh) == ElementsOf(s);
  }

  /** Removing the persons of a registered household takes its size off the person registry. */
  lemma RemoveMembersCount(hs: map<int, Household>, ps: map<int, Person>, h: int)
    requires PersonsLinked(hs, ps) && h in hs
    ensures |ps - Members(hs[h])| == |ps| - hs[h].Size()
  {
    var m := Members(hs[h]);
    MembersCount(hs[h]);
    assert m <= ps.Keys;
    assert (ps - m).Keys == ps.Keys - m;
    assert ps.Keys == (ps.Keys - m) + m;
  }
}
