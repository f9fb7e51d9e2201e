/**
 * The in- and out-migration event model: preparing the events of a year and
 * handling one migration event against the registry.
 */
module Migration {
  import opened Entities
  import opened Registry
  import opened RealEstate
  import opened Moves
  import opened MigrationPlan

  /**
   * The in- and out-migration model: it turns the year's migration targets
   * into OUT events for picked households and IN events for new households
   * copying picked ones, and carries those events out, counting the persons
   * who migrate.
   */
  class InOutMigration {
    const data: RealEstateDataManager
    const policy: PopulationControl
    const outmigrationByYear: map<int, int>
    const inmigrationByYear: map<int, int>
    /** The population target of each year, read from a file or grown from the base population. */
    const populationByYear: map<int, int>
    /** Whether the event rules leave out-migration to the model (then it is done only when overridden). */
    const eventRulesOutMigration: bool
    /** The templates of the members of each household due to in-migrate this year. */
    var inmigratingHH: map<int, seq<PersonTemplate>>
    var outMigrationPPCounter: int
    var inMigrationPPCounter: int
    /** Households that found no dwelling and left again. */
    var lackOfDwellingFailedInmigration: int

    /** The registry is valid and every household due to in-migrate has a usable id. */
    ghost predicate Valid()
      reads this, data
    {
      data.Valid() && forall h :: h in inmigratingHH ==> 0 < h <= data.highestHouseholdIdInUse
    }

    /** The model for the policy a property value names; an unknown name stops the program. */
    constructor (data: RealEstateDataManager, policyName: string, outmigrationByYear: map<int, int>,
                 inmigrationByYear: map<int, int>, populationByYear: map<int, int>, eventRulesOutMigration: bool)
      requires PolicyFromName(policyName).Some?
      ensures this.data == data && policy == PolicyFromName(policyName).value
      ensures this.outmigrationByYear == outmigrationByYear && this.inmigrationByYear == inmigrationByYear
      ensures this.populationByYear == populationByYear && this.eventRulesOutMigration == eventRulesOutMigration
      ensures inmigratingHH == map[] && outMigrationPPCounter == 0 && inMigrationPPCounter == 0
      ensures lackOfDwellingFailedInmigration == 0
      ensures Valid() == data.Valid()
    {
      this.data := data;
      policy := PolicyFromName(policyName).value;
      this.outmigrationByYear := outmigrationByYear;
      this.inmigrationByYear := inmigrationByYear;
      this.populationByYear := populationByYear;
      this.eventRulesOutMigration := eventRulesOutMigration;
      inmigratingHH := map[];
      outMigrationPPCounter := 0;
      inMigrationPPCounter := 0;
      lackOfDwellingFailedInmigration := 0;
    }

    /**
     * Pick households until their sizes reach `target`, with the draws from
     * the k-th on; each pick gets a new household id, an IN event, and the
     * templates of the picked household's members.
     */
    method CreateInmigrants(hhs: seq<Household>, target: int, draws: nat -> real, k: nat) returns (events: seq<MigrationEvent>)
      requires target > 0 ==> Selectable(hhs)
      requires IsDraws(draws) && MembersKnown(hhs, data.persons)
      modifies this`inmigratingHH, data`highestHouseholdIdInUse
      ensures var p := Picks(hhs, target, draws, k);
              && (forall j :: 0 <= j < |p| ==> p[j] < |hhs|)
              && events == InEvents(old(data.highestHouseholdIdInUse) + 1, |p|)
              && data.highestHouseholdIdInUse == old(data.highestHouseholdIdInUse) + |p|
              && inmigratingHH == TemplateMap(hhs, data.persons, p, old(data.highestHouseholdIdInUse) + 1)
    {
      ghost var full := Picks(hhs, target, draws, k);
      ghost var first := data.highestHouseholdIdInUse + 1;
      var ps := data.persons;
      inmigratingHH := map[];
      events := [];
      var created, left, draw := 0, target, k;
      assert full[|events|..] == full;
      while created < target
        invariant left == target - created
        invariant data.highestHouseholdIdInUse == first - 1 + |events|
        invariant InmigrantLoop(hhs, ps, full, first, draws, left, draw, events, inmigratingHH)
        decreases left
      {
        ghost var left0, draw0, events0, templates0 := left, draw, events, inmigratingHH;
        var selected := Selected(|hhs|, draws(draw));
        var templates := CopyPersons(hhs[selected], ps);
        var hhId := data.GetNextHouseholdId();
        events := events + [MigrationEvent(hhId, In)];
        inmigratingHH := inmigratingHH[hhId := templates];
        created := created + hhs[selected].Size();
        left := left - hhs[selected].Size();
        draw := draw + 1;
        InmigrantStep(hhs, ps, full, first, draws, left0, draw0, events0, templates0, left, draw, events, inmigratingHH);
      }
      InmigrantLoopDone(hhs, ps, full, first, draws, left, draw, events, inmigratingHH);
    }

    /** One step of AddMembers: register the copy of template `ts[n]` under the next person id and make it a member. */
    method AddMember(hhId: int, ts: seq<PersonTemplate>, n: nat, ghost first: int,
                     ghost hs: map<int, Household>, ghost ps: map<int, Person>)
      requires n < |ts| && data.Valid() && hhId in hs
      requires data.highestPersonIdInUse == first - 1 + n
      requires data.households == hs[hhId := hs[hhId].(personIds := IdRange(first, n))]
      requires data.persons == ps + NewPersons(first, hhId, ts[..n])
      modifies data`persons, data`households, data`highestPersonIdInUse
      ensures data.Valid()
      ensures data.highestPersonIdInUse == first + n
      ensures data.households == hs[hhId := hs[hhId].(personIds := IdRange(first, n + 1))]
      ensures data.persons == ps + NewPersons(first, hhId, ts[..n + 1])
    {
      var pid := data.GetNextPersonId();
      AddMemberStep(ps, data.persons, first, hhId, ts, n);
      data.AddPerson(NewPerson(pid, hhId, ts[n]));
      data.AddPersonToHousehold(pid, hhId);
    }

    /**
     * Add one new person per template to household `hhId`, each under the
     * next person id, as an unemployed member without workplace or income.
     */
    method AddMembers(hhId: int, ts: seq<PersonTemplate>)
      requires data.Valid() && hhId in data.households && data.households[hhId].personIds == []
      modifies data`persons, data`households, data`highestPersonIdInUse
      ensures var first := old(data.highestPersonIdInUse) + 1;
              && data.highestPersonIdInUse == old(data.highestPersonIdInUse) + |ts|
              && data.households == old(data.households)[hhId := old(data.households)[hhId].(personIds := IdRange(first, |ts|))]
              && data.persons == old(data.persons) + NewPersons(first, hhId, ts)
      ensures data.Valid()
    {
      ghost var first := data.highestPersonIdInUse + 1;
      ghost var hs, ps := data.households, data.persons;
      var n := 0;
      assert ts[..0] == [];
      while n < |ts|
        invariant 0 <= n <= |ts| && data.Valid()
        invariant data.highestPersonIdInUse == first - 1 + n
        invariant data.households == hs[hhId := hs[hhId].(personIds := IdRange(first, n))]
        invariant data.persons == ps + NewPersons(first, hhId, ts[..n])
      {
        AddMember(hhId, ts, n, first, hs, ps);
        n := n + 1;
      }
      assert ts[..n] == ts;
    }

    /**
     * A new household without a dwelling and cars, with members copied from
     * its templates.
     */
    method CreateHousehold(hhId: int)
      requires Valid() && hhId in inmigratingHH && hhId !in data.households
      modifies data`persons, data`households, data`highestPersonIdInUse
      ensures var ts, first := inmigratingHH[hhId], old(data.highestPersonIdInUse) + 1;
              && data.highestPersonIdInUse == old(data.highestPersonIdInUse) + |ts|
              && data.households == old(data.households)[hhId := Household(hhId, NoId, 0, IdRange(first, |ts|))]
              && data.persons == old(data.persons) + NewPersons(first, hhId, ts)
              && (forall id :: id in NewPersons(first, hhId, ts) ==> id !in old(data.persons))
      ensures Valid()
    {
      NewPersonsFresh(data.persons, data.highestPersonIdInUse + 1, hhId, inmigratingHH[hhId]);
      data.AddHousehold(Household(hhId, NoId, 0, []));
      AddMembers(hhId, inmigratingHH[hhId]);
    }

    /**
     * Household `hhId` out-migrates: unless the event rules leave
     * out-migration to the model and are not overridden, a registered
     * household leaves with its persons, and its dwelling, if any, becomes
     * vacant. The persons leaving are counted.
     */
    method OutMigrateHh(hhId: int, overwriteEventRules: bool) returns (done: bool)
      requires data.Valid()
      modifies this`outMigrationPPCounter, data`households, data`persons, data`dwellings, data`vacDwellingsByRegion
      ensures data.Valid() && (old(Valid()) ==> Valid())
      ensures done == (!(eventRulesOutMigration && !overwriteEventRules) && hhId in old(data.households))
      ensures !done ==> && outMigrationPPCounter == old(outMigrationPPCounter)
                        && data.households == old(data.households) && data.persons == old(data.persons)
                        && data.dwellings == old(data.dwellings) && data.vacDwellingsByRegion == old(data.vacDwellingsByRegion)
      ensures done ==> var hh := old(data.households[hhId]);
                       && outMigrationPPCounter == old(outMigrationPPCounter) + hh.Size()
                       && data.households == old(data.households) - {hhId}
                       && data.persons == old(data.persons) - Members(hh)
                       && |data.persons| == old(|data.persons|) - hh.Size()
                       && data.dwellings == (if hh.dwellingId == NoId then old(data.dwellings)
                                             else WithResident(old(data.dwellings), hh.dwellingId, NoId))
                       && data.vacDwellingsByRegion ==
                            (if hh.dwellingId == NoId then old(data.vacDwellingsByRegion)
                             else AddToBucket(old(data.vacDwellingsByRegion), RegionOf(old(data.dwellings), data.geo.zoneRegion, hh.dwellingId), hh.dwellingId))
    {
      if (eventRulesOutMigration && !overwriteEventRules) || hhId !in data.households {
        return false;
      }
      var hh := data.households[hhId];
      outMigrationPPCounter := outMigrationPPCounter + hh.Size();
      RemoveMembersCount(data.households, data.persons, hhId);
      data.RemoveHousehold(hhId);
      done := true;
    }

    /** The created household moves into the dwelling the search found; its persons count as in-migrants. */
    method SettleInmigrant(hhId: int, newDdId: int)
      requires Valid() && hhId in data.households && data.households[hhId].dwellingId == NoId
      requires newDdId > 0 && SearchResultValid(data, newDdId)
      modifies this`inMigrationPPCounter, data`dwellings, data`households, data`vacDwellingsByRegion
      ensures Valid()
      ensures data.households == old(data.households)[hhId := old(data.households[hhId]).(dwellingId := newDdId)]
      ensures data.dwellings == WithResident(old(data.dwellings), newDdId, hhId)
      ensures data.vacDwellingsByRegion == RemoveFromBucket(old(data.vacDwellingsByRegion), RegionOf(old(data.dwellings), data.geo.zoneRegion, newDdId), newDdId)
      ensures inMigrationPPCounter == old(inMigrationPPCounter) + old(data.households[hhId]).Size()
    {
      MoveHousehold(data, hhId, newDdId);
      inMigrationPPCounter := inMigrationPPCounter + data.households[hhId].Size();
    }

    /**
     * The created household found no dwelling: the failure is counted and
     * the household leaves again with the persons created for it, counted
     * as out-migrants.
     */
    method RejectInmigrant(hhId: int, ghost ps: map<int, Person>, ghost added: map<int, Person>)
      requires Valid() && hhId in data.households && data.households[hhId].dwellingId == NoId
      requires data.persons == ps + added && added.Keys == Members(data.households[hhId])
      requires forall id :: id in added ==> id !in ps
      modifies this`lackOfDwellingFailedInmigration, this`outMigrationPPCounter
      modifies data`households, data`persons, data`dwellings, data`vacDwellingsByRegion
      ensures Valid()
      ensures data.households == old(data.households) - {hhId} && data.persons == ps
      ensures data.dwellings == old(data.dwellings) && data.vacDwellingsByRegion == old(data.vacDwellingsByRegion)
      ensures outMigrationPPCounter == old(outMigrationPPCounter) + old(data.households[hhId]).Size()
      ensures lackOfDwellingFailedInmigration == old(lackOfDwellingFailedInmigration) + 1
    {
      lackOfDwellingFailedInmigration := lackOfDwellingFailedInmigration + 1;
      AddThenRemovePersons(ps, added);
      var done := OutMigrateHh(hhId, true);
      assert done;
    }

    /**
     * The events of a year from the listed households and the targets:
     * OUT events for the out-migrant picks, then IN events, each with the
     * next household id, for the in-migrant picks made with the following
     * draws.
     */
    method PlanYear(hhs: seq<Household>, t: Targets, draws: nat -> real) returns (events: seq<MigrationEvent>)
      requires IsDraws(draws) && ((t.outmigrants > 0 || t.inmigrants > 0) ==> Selectable(hhs)) && MembersKnown(hhs, data.persons)
      modifies this`inmigratingHH, data`highestHouseholdIdInUse
      ensures YearPlan(events, inmigratingHH, data.highestHouseholdIdInUse) ==
                PlannedYear(hhs, data.persons, t, draws, old(data.highestHouseholdIdInUse) + 1)
      ensures forall h :: h in inmigratingHH ==> old(data.highestHouseholdIdInUse) < h <= data.highestHouseholdIdInUse && t.inmigrants > 0
      ensures old(data.Valid()) ==> data.Valid()
    {
      ghost var ps, first := data.persons, data.highestHouseholdIdInUse + 1;
      var outs := SelectOutmigrants(hhs, t.outmigrants, draws, 0);
      ghost var inPicks := Picks(hhs, t.inmigrants, draws, |outs|);
      var ins := CreateInmigrants(hhs, t.inmigrants, draws, |outs|);
      TemplateMapAt(hhs, ps, inPicks, first);
      events := outs + ins;
    }

    /**
     * The registry's households listed once each, in the order of a
     * traversal, and the year's migration targets for the current
     * population.
     */
    method ListYear(year: int) returns (order: seq<int>, hhs: seq<Household>, t: Targets)
      requires Valid()
      requires policy == MigrationTable ==> year in outmigrationByYear && year in inmigrationByYear
      requires policy != MigrationTable ==> year in populationByYear
      requires var t := MigrationTargets(policy, year, |data.persons|, outmigrationByYear, inmigrationByYear, populationByYear);
               (t.outmigrants > 0 || t.inmigrants > 0) ==> HouseholdsSelectable(data.households)
      ensures |order| == |data.households| && (forall h :: h in data.households ==> h in order)
      ensures forall i :: 0 <= i < |order| ==> order[i] in data.households
      ensures hhs == HouseholdsInOrder(data.households, order)
      ensures t == MigrationTargets(policy, year, |data.persons|, outmigrationByYear, inmigrationByYear, populationByYear)
      ensures ((t.outmigrants > 0 || t.inmigrants > 0) ==> Selectable(hhs)) && MembersKnown(hhs, data.persons)
      ensures t.inmigrants > 0 ==> data.highestHouseholdIdInUse > 0
    {
      t := MigrationTargets(policy, year, data.TotalPopulation(), outmigrationByYear, inmigrationByYear, populationByYear);
      order := data.HouseholdArray();
      hhs := HouseholdsInOrder(data.households, order);
      if t.outmigrants > 0 || t.inmigrants > 0 {
        ListedSelectable(data.households, order);
        assert order[0] in data.households;
      }
      ListedMembersKnown(data.households, data.persons, order);
    }

    /**
     * The year's migration events. The out-migration target is met by OUT
     * events for households picked from the registry until their sizes reach
     * it; the in-migration target by IN events for new household ids, each
     * copying the members of a picked household, until their sizes reach it.
     * Both lists are built before any event is handled, from one listing
     * `order` of the registry (`hhs`) and one stream of draws; the person
     * counters restart at zero.
     */
    method PrepareYear(year: int, draws: nat -> real) returns (events: seq<MigrationEvent>, order: seq<int>,
                                                              ghost hhs: seq<Household>, ghost t: Targets)
      requires Valid() && IsDraws(draws)
      requires policy == MigrationTable ==> year in outmigrationByYear && year in inmigrationByYear
      requires policy != MigrationTable ==> year in populationByYear
      requires var t := MigrationTargets(policy, year, |data.persons|, outmigrationByYear, inmigrationByYear, populationByYear);
               (t.outmigrants > 0 || t.inmigrants > 0) ==> HouseholdsSelectable(data.households)
      modifies this`inmigratingHH, this`outMigrationPPCounter, this`inMigrationPPCounter, data`highestHouseholdIdInUse
      ensures Valid()
      ensures |order| == |old(data.households)| && (forall h :: h in old(data.households) ==> h in order)
      ensures forall i :: 0 <= i < |order| ==> order[i] in old(data.households)
      ensures hhs == HouseholdsInOrder(old(data.households), order)
      ensures t == MigrationTargets(policy, year, old(|data.persons|), outmigrationByYear, inmigrationByYear, populationByYear)
      ensures data.persons == old(data.persons)
      ensures IsDraws(draws) && ((t.outmigrants > 0 || t.inmigrants > 0) ==> Selectable(hhs)) && MembersKnown(hhs, data.persons)
      ensures YearPlan(events, inmigratingHH, data.highestHouseholdIdInUse) ==
                PlannedYear(hhs, data.persons, t, draws, old(data.highestHouseholdIdInUse) + 1)
      ensures forall h :: h in inmigratingHH ==> h !in data.households
      ensures outMigrationPPCounter == 0 && inMigrationPPCounter == 0
    {
      var listed, targets;
      order, listed, targets := ListYear(year);
      hhs, t := listed, targets;
      // the counters are not read while the events are planned, so they may restart first
      outMigrationPPCounter := 0;
      inMigrationPPCounter := 0;
      events := PlanYear(listed, targets, draws);
    }

    /**
     * Household `hhId`, due to in-migrate, is created with copies of its
     * template persons and moves into the dwelling the search found; when
     * the search found none (an id of 0 or less), the failure is counted and
     * the household out-migrates again at once, its persons counted as
     * out-migrants.
     */
    method InmigrateHh(hhId: int, newDdId: int) returns (success: bool)
      requires Valid() && hhId in inmigratingHH && hhId !in data.households && SearchResultValid(data, newDdId)
      modifies this`outMigrationPPCounter, this`inMigrationPPCounter, this`lackOfDwellingFailedInmigration
      modifies data`households, data`persons, data`dwellings, data`vacDwellingsByRegion, data`highestPersonIdInUse
      ensures Valid()
      ensures success == (newDdId > 0)
      ensures data.highestPersonIdInUse == old(data.highestPersonIdInUse) + |old(inmigratingHH[hhId])|
      ensures var ts, first := old(inmigratingHH[hhId]), old(data.highestPersonIdInUse) + 1;
              success ==>
                && data.households == old(data.households)[hhId := Household(hhId, newDdId, 0, IdRange(first, |ts|))]
                && data.persons == old(data.persons) + NewPersons(first, hhId, ts)
                && data.dwellings == WithResident(old(data.dwellings), newDdId, hhId)
                && data.vacDwellingsByRegion == RemoveFromBucket(old(data.vacDwellingsByRegion), RegionOf(old(data.dwellings), data.geo.zoneRegion, newDdId), newDdId)
                && inMigrationPPCounter == old(inMigrationPPCounter) + |ts|
                && outMigrationPPCounter == old(outMigrationPPCounter)
                && lackOfDwellingFailedInmigration == old(lackOfDwellingFailedInmigration)
      ensures !success ==>
                && data.households == old(data.households) && data.persons == old(data.persons)
                && data.dwellings == old(data.dwellings) && data.vacDwellingsByRegion == old(data.vacDwellingsByRegion)
                && outMigrationPPCounter == old(outMigrationPPCounter) + |old(inmigratingHH[hhId])|
                && inMigrationPPCounter == old(inMigrationPPCounter)
                && lackOfDwellingFailedInmigration == old(lackOfDwellingFailedInmigration) + 1
    {
      if newDdId > 0 {
        InmigrateInto(hhId, newDdId);
        success := true;
      } else {
        InmigrateAndLeave(hhId);
        success := false;
      }
    }

    /** InmigrateHh when the search found dwelling `newDdId`: the household is created and moves in. */
    method InmigrateInto(hhId: int, newDdId: int)
      requires Valid() && hhId in inmigratingHH && hhId !in data.households && SearchResultValid(data, newDdId)
      requires newDdId > 0
      modifies this`inMigrationPPCounter
      modifies data`households, data`persons, data`dwellings, data`vacDwellingsByRegion, data`highestPersonIdInUse
      ensures Valid()
      ensures var ts, first := inmigratingHH[hhId], old(data.highestPersonIdInUse) + 1;
              && data.highestPersonIdInUse == old(data.highestPersonIdInUse) + |ts|
              && data.households == old(data.households)[hhId := Household(hhId, newDdId, 0, IdRange(first, |ts|))]
              && data.persons == old(data.persons) + NewPersons(first, hhId, ts)
              && data.dwellings == WithResident(old(data.dwellings), newDdId, hhId)
              && data.vacDwellingsByRegion == RemoveFromBucket(old(data.vacDwellingsByRegion), RegionOf(old(data.dwellings), data.geo.zoneRegion, newDdId), newDdId)
              && inMigrationPPCounter == old(inMigrationPPCounter) + |ts|
    {
      ghost var hs := data.households;
      ghost var ts, first := inmigratingHH[hhId], data.highestPersonIdInUse + 1;
      CreateHousehold(hhId);
      ghost var created := Household(hhId, NoId, 0, IdRange(first, |ts|));
      assert data.households == hs[hhId := created];
      SettleInmigrant(hhId, newDdId);
      assert data.households == hs[hhId := created][hhId := created.(dwellingId := newDdId)];
    }

    /**
     * InmigrateHh when the search found no dwelling: the household is
     * created, the failure counted, and the household leaves again.
     */
    method InmigrateAndLeave(hhId: int)
      requires Valid() && hhId in inmigratingHH && hhId !in data.households
      modifies this`outMigrationPPCounter, this`lackOfDwellingFailedInmigration
      modifies data`households, data`persons, data`dwellings, data`vacDwellingsByRegion, data`highestPersonIdInUse
      ensures Valid()
      ensures && data.highestPersonIdInUse == old(data.highestPersonIdInUse) + |inmigratingHH[hhId]|
              && data.households == old(data.households) && data.persons == old(data.persons)
              && data.dwellings == old(data.dwellings) && data.vacDwellingsByRegion == old(data.vacDwellingsByRegion)
              && outMigrationPPCounter == old(outMigrationPPCounter) + |inmigratingHH[hhId]|
              && lackOfDwellingFailedInmigration == old(lackOfDwellingFailedInmigration) + 1
    {
      ghost var hs, ps := data.households, data.persons;
      ghost var ts, first := inmigratingHH[hhId], data.highestPersonIdInUse + 1;
      CreateHousehold(hhId);
      ghost var created := Household(hhId, NoId, 0, IdRange(first, |ts|));
      assert data.households == hs[hhId := created];
      NewMembersAreNewPersons(first, hhId, ts, created);
      RejectInmigrant(hhId, ps, NewPersons(first, hhId, ts));
      assert hs[hhId := created] - {hhId} == hs;
    }

    /**
     * An IN event in-migrates its household, moving it into the dwelling
     * the search found (`newDdId`); an OUT event out-migrates its household,
     * overriding the event rules.
     */
    method HandleEvent(event: MigrationEvent, newDdId: int) returns (r: bool)
      requires Valid()
      requires event.kind == In ==>
                 event.householdId in inmigratingHH && event.householdId !in data.households && SearchResultValid(data, newDdId)
      modifies this`outMigrationPPCounter, this`inMigrationPPCounter, this`lackOfDwellingFailedInmigration
      modifies data`households, data`persons, data`dwellings, data`vacDwellingsByRegion, data`highestPersonIdInUse
      ensures Valid()
      ensures event.kind == In ==>
                var hhId, ts, first := event.householdId, old(inmigratingHH[event.householdId]), old(data.highestPersonIdInUse) + 1;
                && r == (newDdId > 0)
                && data.highestPersonIdInUse == old(data.highestPersonIdInUse) + |ts|
                && (r ==>
                      && data.households == old(data.households)[hhId := Household(hhId, newDdId, 0, IdRange(first, |ts|))]
                      && data.persons == old(data.persons) + NewPersons(first, hhId, ts)
                      && data.dwellings == WithResident(old(data.dwellings), newDdId, hhId)
                      && data.vacDwellingsByRegion == RemoveFromBucket(old(data.vacDwellingsByRegion), RegionOf(old(data.dwellings), data.geo.zoneRegion, newDdId), newDdId)
                      && inMigrationPPCounter == old(inMigrationPPCounter) + |ts|
                      && outMigrationPPCounter == old(outMigrationPPCounter)
                      && lackOfDwellingFailedInmigration == old(lackOfDwellingFailedInmigration))
                && (!r ==>
                      && data.households == old(data.households) && data.persons == old(data.persons)
                      && data.dwellings == old(data.dwellings) && data.vacDwellingsByRegion == old(data.vacDwellingsByRegion)
                      && outMigrationPPCounter == old(outMigrationPPCounter) + |ts|
                      && inMigrationPPCounter == old(inMigrationPPCounter)
                      && lackOfDwellingFailedInmigration == old(lackOfDwellingFailedInmigration) + 1)
      ensures event.kind == Out ==>
                var hhId := event.householdId;
                && r == (hhId in old(data.households))
                && inMigrationPPCounter == old(inMigrationPPCounter)
                && lackOfDwellingFailedInmigration == old(lackOfDwellingFailedInmigration)
                && data.highestPersonIdInUse == old(data.highestPersonIdInUse)
                && (!r ==>
                      && outMigrationPPCounter == old(outMigrationPPCounter)
                      && data.households == old(data.households) && data.persons == old(data.persons)
                      && data.dwellings == old(data.dwellings) && data.vacDwellingsByRegion == old(data.vacDwellingsByRegion))
                && (r ==>
                      var hh := old(data.households[hhId]);
                      && outMigrationPPCounter == old(outMigrationPPCounter) + hh.Size()
                      && data.households == old(data.households) - {hhId}
                      && data.persons == old(data.persons) - Members(hh)
                      && data.dwellings == (if hh.dwellingId == NoId then old(data.dwellings)
                                            else WithResident(old(data.dwellings), hh.dwellingId, NoId))
                      && data.vacDwellingsByRegion ==
                           (if hh.dwellingId == NoId then old(data.vacDwellingsByRegion)
                            else AddToBucket(old(data.vacDwellingsByRegion), RegionOf(old(data.dwellings), data.geo.zoneRegion, hh.dwellingId), hh.dwellingId)))
    {
      match event.kind
      case In =>
        r := InmigrateHh(event.householdId, newDdId);
      case Out =>
        r := OutMigrateHh(event.householdId, true);
    }
  }
}
