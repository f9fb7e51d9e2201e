/**
 * The plan of a migration year: the population control policy, the yearly
 * migration targets, the selection of out-migrating households and of the
 * households whose members in-migrant households copy, and the events and
 * templates those selections give.
 */
module MigrationPlan {
  import opened Tally
  import opened Entities
  import opened Registry

  datatype Option<T> = None | Some(value: T)

  /** How the yearly number of migrants is set: from a migration table, or to close the gap to a population target. */
  datatype PopulationControl = MigrationTable | PopulationTarget | PopulationGrowthRate

  /**
   * Character.toUpperCase on every character whose upper case is an ASCII
   * letter: the ASCII lower-case letters, the dotless i (U+0131) and the
   * long s (U+017F). Every other character is left alone.
   */
  function JavaUpperCase(c: char): (u: char)
    ensures 'a' <= c <= 'z' ==> 'A' <= u <= 'Z' && c as int - u as int == 32
    ensures c == '\U{0131}' ==> u == 'I'
    ensures c == '\U{017F}' ==> u == 'S'
    ensures !('a' <= c <= 'z') && c != '\U{0131}' && c != '\U{017F}' ==> u == c
  {
    if 'a' <= c <= 'z' then (c as int - 32) as char
    else if c == '\U{0131}' then 'I'
    else if c == '\U{017F}' then 'S'
    else c
  }

  /**
   * Character.toLowerCase on every character whose lower case is an ASCII
   * letter: the ASCII upper-case letters, the dotted capital I (U+0130) and
   * the Kelvin sign (U+212A). Every other character is left alone.
   */
  function JavaLowerCase(c: char): (l: char)
    ensures 'A' <= c <= 'Z' ==> 'a' <= l <= 'z' && l as int - c as int == 32
    ensures c == '\U{0130}' ==> l == 'i'
    ensures c == '\U{212A}' ==> l == 'k'
    ensures !('A' <= c <= 'Z') && c != '\U{0130}' && c != '\U{212A}' ==> l == c
  {
    if 'A' <= c <= 'Z' then (c as int + 32) as char
    else if c == '\U{0130}' then 'i'
    else if c == '\U{212A}' then 'k'
    else c
  }

  /**
   * String.equalsIgnoreCase on one pair of characters: equal, or equal upper
   * cases, or equal lower cases of the upper cases.
   */
  predicate CharEqualsIgnoreCase(a: char, b: char)
  {
    a == b || JavaUpperCase(a) == JavaUpperCase(b) || JavaLowerCase(JavaUpperCase(a)) == JavaLowerCase(JavaUpperCase(b))
  }

  /** The three tests of CharEqualsIgnoreCase come down to the last one, so it is an equivalence. */
  lemma CharEqualsIgnoreCaseIsFolding(a: char, b: char)
    ensures CharEqualsIgnoreCase(a, b) <==> JavaLowerCase(JavaUpperCase(a)) == JavaLowerCase(JavaUpperCase(b))
  {
  }

  /** String.equalsIgnoreCase: equal lengths and every pair of characters equal ignoring case. */
  predicate EqualsIgnoreCase(a: string, b: string)
  {
    |a| == |b| && forall i :: 0 <= i < |a| ==> CharEqualsIgnoreCase(a[i], b[i])
  }

  /** The name of each policy in the model's properties. */
  function PolicyName(p: PopulationControl): string
  {
    match p
    case MigrationTable => "migration"
    case PopulationTarget => "population"
    case PopulationGrowthRate => "populationGrowthRate"
  }

  /** The policy a property value names, compared ignoring case; None for an unknown name, where the model exits. */
  function PolicyFromName(name: string): (p: Option<PopulationControl>)
    ensures p.Some? ==> EqualsIgnoreCase(name, PolicyName(p.value))
    ensures p.None? ==> forall q: PopulationControl :: !EqualsIgnoreCase(name, PolicyName(q))
  {
    if EqualsIgnoreCase(name, "population") then Some(PopulationTarget)
    else if EqualsIgnoreCase(name, "migration") then Some(MigrationTable)
    else if EqualsIgnoreCase(name, "populationGrowthRate") then Some(PopulationGrowthRate)
    else None
  }

  /** Every policy is recognised by its own name. */
  lemma PolicyNameRoundTrip(p: PopulationControl)
    ensures PolicyFromName(PolicyName(p)) == Some(p)
  {
    assert EqualsIgnoreCase(PolicyName(p), PolicyName(p));
  }

  /** Two names that differ only in the case of their letters select the same policy. */
  lemma {:induction false} PolicyIgnoresCase(a: string, b: string)
    requires EqualsIgnoreCase(a, b)
    ensures PolicyFromName(a) == PolicyFromName(b)
  {
    forall n: string | |n| == |a| ensures EqualsIgnoreCase(a, n) == EqualsIgnoreCase(b, n) {
      forall i | 0 <= i < |a| ensures CharEqualsIgnoreCase(a[i], n[i]) == CharEqualsIgnoreCase(b[i], n[i]) {
        CharEqualsIgnoreCaseIsFolding(a[i], b[i]);
        CharEqualsIgnoreCaseIsFolding(a[i], n[i]);
        CharEqualsIgnoreCaseIsFolding(b[i], n[i]);
      }
    }
  }

  /** "populat\U{0131}on", with a dotless i, selects the population target: its upper case is POPULATION. */
  lemma DotlessIPolicyName()
    ensures PolicyFromName("populat\U{0131}on") == Some(PopulationTarget)
  {
    var a := "populat\U{0131}on";
    assert a[7] == '\U{0131}';
    forall i | 0 <= i < |a| ensures CharEqualsIgnoreCase(a[i], "population"[i]) {
      if i == 7 {
        assert JavaUpperCase(a[i]) == 'I' == JavaUpperCase("population"[i]);
      }
    }
  }

  /** "m\U{0130}gration", with a dotted capital I, selects the migration table: its lower case is migration. */
  lemma DottedCapitalIPolicyName()
    ensures PolicyFromName("m\U{0130}gration") == Some(MigrationTable)
  {
    var a := "m\U{0130}gration";
    assert a[1] == '\U{0130}';
    forall i | 0 <= i < |a| ensures CharEqualsIgnoreCase(a[i], "migration"[i]) {
      if i == 1 {
        assert JavaLowerCase(JavaUpperCase(a[i])) == 'i' == JavaLowerCase(JavaUpperCase("migration"[i]));
      }
    }
  }

  /** A name longer than every policy name selects none. */
  lemma LongerNameSelectsNone(name: string)
    requires forall q: PopulationControl :: |name| > |PolicyName(q)|
    ensures PolicyFromName(name) == None
  {
  }

  /** The year's number of out-migrating and in-migrating persons. */
  datatype Targets = Targets(outmigrants: int, inmigrants: int)

  /**
   * The migration targets of `year`: read from the migration tables, or the
   * gap between the current population and the year's population target,
   * as out-migrants when the population is above the target and as
   * in-migrants when it is below.
   */
  function MigrationTargets(policy: PopulationControl, year: int, currentPopulation: int,
                            outmigrationByYear: map<int, int>, inmigrationByYear: map<int, int>,
                            populationByYear: map<int, int>): (t: Targets)
    requires policy == MigrationTable ==> year in outmigrationByYear && year in inmigrationByYear
    requires policy != MigrationTable ==> year in populationByYear
    ensures policy == MigrationTable ==> t == Targets(outmigrationByYear[year], inmigrationByYear[year])
    ensures policy != MigrationTable ==>
              && 0 <= t.outmigrants && 0 <= t.inmigrants
              && !(t.outmigrants > 0 && t.inmigrants > 0)
              && currentPopulation - t.outmigrants + t.inmigrants == populationByYear[year]
  {
    if policy == MigrationTable then Targets(outmigrationByYear[year], inmigrationByYear[year])
    else
      var target := populationByYear[year];
      Targets(if target < currentPopulation then currentPopulation - target else 0,
              if target > currentPopulation then target - currentPopulation else 0)
  }

  /** The kind of a migration event. */
  datatype MigrationKind = In | Out

  /** A migration event: the household concerned and whether it moves in or out. */
  datatype MigrationEvent = MigrationEvent(householdId: int, kind: MigrationKind)

  /** The attributes of a person an in-migrant copies: age, gender, race and role. */
  function TemplateOf(p: Person): PersonTemplate
  {
    PersonTemplate(p.age, p.gender, p.race, p.role)
  }

  /** An in-migrant person made from a template: unemployed, without workplace (-1) and income (0). */
  function NewPerson(id: int, householdId: int, t: PersonTemplate): (p: Person)
    ensures TemplateOf(p) == t
    ensures p.id == id && p.householdId == householdId
    ensures p.occupation == Unemployed && p.workplace == -1 && p.income == 0
  {
    Person(id, householdId, t.age, t.gender, t.race, t.role, Unemployed, -1, 0)
  }

  /** The templates of the members of a household, in member order. */
  ghost function TemplatesOf(hh: Household, ps: map<int, Person>): seq<PersonTemplate>
    requires forall i :: 0 <= i < |hh.personIds| ==> hh.personIds[i] in ps
  {
    seq(|hh.personIds|, i requires 0 <= i < |hh.personIds| => TemplateOf(ps[hh.personIds[i]]))
  }

  /** A stream of uniform draws: the k-th random number of the run, in [0, 1). */
  ghost predicate IsDraws(draws: nat -> real)
  {
    forall k :: 0.0 <= draws(k) < 1.0
  }

  /** A fraction below one of a positive number is below that number. */
  lemma FractionBelow(n: real, r: real)
    requires n > 0.0 && 0.0 <= r < 1.0
    ensures 0.0 <= n * r < n
  {
    assert n * r < n * 1.0;
  }

  /** The index a draw `r` selects in an array of `n` elements: `(int) (n * r)`. */
  function Selected(n: nat, r: real): (i: nat)
    requires n > 0 && 0.0 <= r < 1.0
    ensures i < n
  {
    var x := n as real * r;
    FractionBelow(n as real, r);
    assert x.Floor as real <= x < n as real;
    x.Floor
  }

  /** Households to select from: at least one, each with at least one member. */
  ghost predicate Selectable(hhs: seq<Household>)
  {
    |hhs| > 0 && forall i :: 0 <= i < |hhs| ==> hhs[i].Size() >= 1
  }

  /**
   * The indices of the households picked, with replacement, with the draws
   * from the k-th on, until their sizes reach `target`: none when the
   * target is not positive.
   */
  ghost function Picks(hhs: seq<Household>, target: int, draws: nat -> real, k: nat): (p: seq<nat>)
    requires target > 0 ==> Selectable(hhs)
    requires IsDraws(draws)
    ensures p == [] <==> target <= 0
    ensures forall j :: 0 <= j < |p| ==> p[j] < |hhs|
    decreases target
  {
    if target <= 0 then []
    else
      var i := Selected(|hhs|, draws(k));
      [i] + Picks(hhs, target - hhs[i].Size(), draws, k + 1)
  }

  /** The picks are the draws' selections, in order, one draw per pick. */
  lemma {:induction false} PicksAreSelections(hhs: seq<Household>, target: int, draws: nat -> real, k: nat)
    requires target > 0 ==> Selectable(hhs)
    requires IsDraws(draws)
    ensures forall j :: 0 <= j < |Picks(hhs, target, draws, k)| ==>
              Picks(hhs, target, draws, k)[j] == Selected(|hhs|, draws(k + j))
    decreases target
  {
    if target > 0 {
      var i := Selected(|hhs|, draws(k));
      var rest := Picks(hhs, target - hhs[i].Size(), draws, k + 1);
      PicksAreSelections(hhs, target - hhs[i].Size(), draws, k + 1);
      var p := [i] + rest;
      assert Picks(hhs, target, draws, k) == p;
      forall j | 0 <= j < |p| ensures p[j] == Selected(|hhs|, draws(k + j)) {
        if j > 0 {
          var q := j - 1;
          assert p[j] == rest[q];
          assert rest[q] == Selected(|hhs|, draws(k + 1 + q));
          assert k + 1 + q == k + j;
        }
      }
    }
  }

  /** Total size of the picked households, a household picked twice counting twice. */
  ghost function PickedSize(hhs: seq<Household>, picks: seq<nat>): int
    requires forall j :: 0 <= j < |picks| ==> picks[j] < |hhs|
  {
    if picks == [] then 0 else PickedSize(hhs, picks[..|picks| - 1]) + hhs[picks[|picks| - 1]].Size()
  }

  /** Picking one more household first adds its size. */
  lemma {:induction false} PickedSizeCons(hhs: seq<Household>, i: nat, picks: seq<nat>)
    requires i < |hhs| && forall j :: 0 <= j < |picks| ==> picks[j] < |hhs|
    ensures PickedSize(hhs, [i] + picks) == hhs[i].Size() + PickedSize(hhs, picks)
    decreases |picks|
  {
    if picks != [] {
      var n := |picks|;
      assert ([i] + picks)[..n] == [i] + picks[..n - 1];
      PickedSizeCons(hhs, i, picks[..n - 1]);
    }
  }

  /** The picked households together have at least `target` members. */
  lemma {:induction false} PicksReachTarget(hhs: seq<Household>, target: int, draws: nat -> real, k: nat)
    requires target > 0 && Selectable(hhs) && IsDraws(draws)
    ensures PickedSize(hhs, Picks(hhs, target, draws, k)) >= target
    decreases target
  {
    var i := Selected(|hhs|, draws(k));
    var left := target - hhs[i].Size();
    var rest := Picks(hhs, left, draws, k + 1);
    assert Picks(hhs, target, draws, k) == [i] + rest;
    PickedSizeCons(hhs, i, rest);
    if left > 0 {
      PicksReachTarget(hhs, left, draws, k + 1);
    }
  }

  /**
   * All picks but the last have fewer than `target` members, so the picks
   * stop as soon as the target is reached and overshoot it by less than the
   * last household's size.
   */
  lemma {:induction false} PicksStopAtTarget(hhs: seq<Household>, target: int, draws: nat -> real, k: nat)
    requires target > 0 && Selectable(hhs) && IsDraws(draws)
    ensures var p := Picks(hhs, target, draws, k);
            PickedSize(hhs, p[..|p| - 1]) < target
    decreases target
  {
    var i := Selected(|hhs|, draws(k));
    var left := target - hhs[i].Size();
    var rest := Picks(hhs, left, draws, k + 1);
    var p := [i] + rest;
    assert Picks(hhs, target, draws, k) == p;
    var allButLast := p[..|p| - 1];
    if left <= 0 {
      assert allButLast == [];
      assert PickedSize(hhs, allButLast) == 0;
    } else {
      PicksStopAtTarget(hhs, left, draws, k + 1);
      assert allButLast == [i] + rest[..|rest| - 1];
      PickedSizeCons(hhs, i, rest[..|rest| - 1]);
    }
  }

  /** Picking from `target` is picking once and then picking from what is left of it. */
  lemma PicksUnfold(hhs: seq<Household>, target: int, draws: nat -> real, k: nat)
    requires target > 0 && Selectable(hhs) && IsDraws(draws)
    ensures var i := Selected(|hhs|, draws(k));
            Picks(hhs, target, draws, k) == [i] + Picks(hhs, target - hhs[i].Size(), draws, k + 1)
  {
  }

  /**
   * When `full[n..]` is what picking from `left` yields, the next pick is
   * `full[n]` and the picks after it are what picking from the rest yields.
   */
  lemma PicksStep(hhs: seq<Household>, left: int, draws: nat -> real, k: nat, full: seq<nat>, n: nat)
    requires left > 0 && Selectable(hhs) && IsDraws(draws)
    requires n <= |full| && Picks(hhs, left, draws, k + n) == full[n..]
    ensures var i := Selected(|hhs|, draws(k + n));
            && n < |full| && full[n] == i
            && Picks(hhs, left - hhs[i].Size(), draws, k + n + 1) == full[n + 1..]
  {
    var i := Selected(|hhs|, draws(k + n));
    var rest := Picks(hhs, left - hhs[i].Size(), draws, k + n + 1);
    assert full[n..] == [i] + rest;
    assert full[n + 1..] == full[n..][1..];
  }

  /** The OUT events of the picked households. */
  function OutEvents(hhs: seq<Household>, picks: seq<nat>): (evs: seq<MigrationEvent>)
    requires forall j :: 0 <= j < |picks| ==> picks[j] < |hhs|
    ensures |evs| == |picks|
    ensures forall j :: 0 <= j < |picks| ==> evs[j] == MigrationEvent(hhs[picks[j]].id, Out)
  {
    seq(|picks|, j requires 0 <= j < |picks| => MigrationEvent(hhs[picks[j]].id, Out))
  }

  /** Extending the picks by one extends their events by that pick's OUT event. */
  lemma OutEventsStep(hhs: seq<Household>, picks: seq<nat>, n: nat)
    requires n < |picks| && forall j :: 0 <= j < |picks| ==> picks[j] < |hhs|
    ensures OutEvents(hhs, picks[..n + 1]) == OutEvents(hhs, picks[..n]) + [MigrationEvent(hhs[picks[n]].id, Out)]
  {
  }

  /** The IN events of `n` new households numbered from `first`. */
  function InEvents(first: int, n: nat): (evs: seq<MigrationEvent>)
    ensures |evs| == n
    ensures forall j :: 0 <= j < n ==> evs[j] == MigrationEvent(first + j, In)
  {
    seq(n, j => MigrationEvent(first + j, In))
  }

  /** The IN events' household ids are distinct and none of them is below `first`. */
  lemma InEventsFresh(first: int, n: nat)
    ensures forall i, j :: 0 <= i < j < n ==> InEvents(first, n)[i].householdId != InEvents(first, n)[j].householdId
    ensures forall j :: 0 <= j < n ==> InEvents(first, n)[j].householdId >= first
  {
  }

  /**
   * Select households until their sizes reach `target`, with the draws from
   * the k-th on, and emit an OUT event for each pick.
   */
  method SelectOutmigrants(hhs: seq<Household>, target: int, draws: nat -> real, k: nat) returns (events: seq<MigrationEvent>)
    requires target > 0 ==> Selectable(hhs)
    requires IsDraws(draws)
    ensures events == OutEvents(hhs, Picks(hhs, target, draws, k))
  {
    ghost var full := Picks(hhs, target, draws, k);
    events := [];
    var created := 0;
    while created < target
      invariant |events| <= |full|
      invariant events == OutEvents(hhs, full[..|events|])
      invariant Picks(hhs, target - created, draws, k + |events|) == full[|events|..]
      decreases target - created
    {
      var selected := Selected(|hhs|, draws(k + |events|));
      PicksUnfold(hhs, target - created, draws, k + |events|);
      OutEventsStep(hhs, full, |events|);
      events := events + [MigrationEvent(hhs[selected].id, Out)];
      created := created + hhs[selected].Size();
    }
    assert full[..|events|] == full;
  }

  /** The templates of the members of `hh`, one per member, in member order. */
  method CopyPersons(hh: Household, ps: map<int, Person>) returns (templates: seq<PersonTemplate>)
    requires forall i :: 0 <= i < |hh.personIds| ==> hh.personIds[i] in ps
    ensures templates == TemplatesOf(hh, ps)
  {
    templates := [];
    var order := 0;
    while order < |hh.personIds|
      invariant 0 <= order <= |hh.personIds| && |templates| == order
      invariant forall i :: 0 <= i < order ==> templates[i] == TemplateOf(ps[hh.personIds[i]])
    {
      var pp := ps[hh.personIds[order]];
      templates := templates + [PersonTemplate(pp.age, pp.gender, pp.race, pp.role)];
      order := order + 1;
    }
  }

  /** The ids first, first + 1, ..., first + n - 1. */
  function IdRange(first: int, n: nat): (ids: seq<int>)
    ensures |ids| == n
    ensures forall j :: 0 <= j < n ==> ids[j] == first + j
  {
    seq(n, j => first + j)
  }

  /** The persons made from `ts` for household `hhId`, numbered from `first`. */
  ghost function NewPersons(first: int, hhId: int, ts: seq<PersonTemplate>): map<int, Person>
  {
    if ts == [] then map[]
    else
      var n := |ts| - 1;
      NewPersons(first, hhId, ts[..n])[first + n := NewPerson(first + n, hhId, ts[n])]
  }

  /** The new persons are numbered first, ..., first + |ts| - 1, the j-th made from the j-th template. */
  lemma {:induction false} NewPersonsAt(first: int, hhId: int, ts: seq<PersonTemplate>)
    ensures forall id :: id in NewPersons(first, hhId, ts) <==> first <= id < first + |ts|
    ensures forall j :: 0 <= j < |ts| ==> NewPersons(first, hhId, ts)[first + j] == NewPerson(first + j, hhId, ts[j])
    decreases |ts|
  {
    if ts != [] {
      var n := |ts| - 1;
      NewPersonsAt(first, hhId, ts[..n]);
      assert forall j :: 0 <= j < n ==> ts[..n][j] == ts[j];
    }
  }

  /** There are as many new persons as templates. */
  lemma {:induction false} NewPersonsCount(first: int, hhId: int, ts: seq<PersonTemplate>)
    ensures |NewPersons(first, hhId, ts)| == |ts|
    decreases |ts|
  {
    if ts != [] {
      var n := |ts| - 1;
      NewPersonsCount(first, hhId, ts[..n]);
      NewPersonsAt(first, hhId, ts[..n]);
      assert first + n !in NewPersons(first, hhId, ts[..n]);
    }
  }

  /** The members of a household whose members are the new persons, read back, are the templates they were made from. */
  lemma NewMembersCopyTemplates(first: int, hhId: int, ts: seq<PersonTemplate>, ps: map<int, Person>, hh: Household)
    requires hh.personIds == IdRange(first, |ts|)
    ensures forall i :: 0 <= i < |hh.personIds| ==> hh.personIds[i] in ps + NewPersons(first, hhId, ts)
    ensures TemplatesOf(hh, ps + NewPersons(first, hhId, ts)) == ts
  {
    var all := ps + NewPersons(first, hhId, ts);
    NewPersonsAt(first, hhId, ts);
    forall i | 0 <= i < |ts| ensures hh.personIds[i] in all && TemplateOf(all[hh.personIds[i]]) == ts[i] {
      assert hh.personIds[i] == first + i;
    }
  }

  /** In-migrating persons with new ids add their number to the population. */
  lemma {:induction false} InmigrantsAddToPopulation(ps: map<int, Person>, first: int, hhId: int, ts: seq<PersonTemplate>)
    requires forall id :: id in NewPersons(first, hhId, ts) ==> id !in ps
    ensures |ps + NewPersons(first, hhId, ts)| == |ps| + |ts|
  {
    var added := NewPersons(first, hhId, ts);
    NewPersonsCount(first, hhId, ts);
    assert (ps + added).Keys == ps.Keys + added.Keys;
    forall id | id in added.Keys ensures id !in ps.Keys {
      assert id in NewPersons(first, hhId, ts);
    }
    assert ps.Keys !! added.Keys;
  }

  /** Adding persons under ids none of which is registered, then removing them again, leaves the registry as it was. */
  lemma AddThenRemovePersons(ps: map<int, Person>, added: map<int, Person>)
    requires forall id :: id in added ==> id !in ps
    ensures (ps + added) - added.Keys == ps
  {
    var back := (ps + added) - added.Keys;
    forall id ensures id in back <==> id in ps {
      if id in ps {
        assert id !in added;
      }
    }
    forall id | id in ps ensures back[id] == ps[id] {
      assert id !in added;
    }
  }

  /** Every picked household's members are registered in `ps`. */
  ghost predicate MembersKnown(hhs: seq<Household>, ps: map<int, Person>)
  {
    forall i, j :: 0 <= i < |hhs| && 0 <= j < |hhs[i].personIds| ==> hhs[i].personIds[j] in ps
  }

  /**
   * The households to be created for the picks, numbered from `first`,
   * each with the templates of the household it copies.
   */
  ghost function TemplateMap(hhs: seq<Household>, ps: map<int, Person>, picks: seq<nat>, first: int): map<int, seq<PersonTemplate>>
    requires MembersKnown(hhs, ps)
    requires forall j :: 0 <= j < |picks| ==> picks[j] < |hhs|
  {
    if picks == [] then map[]
    else
      var n := |picks| - 1;
      TemplateMap(hhs, ps, picks[..n], first)[first + n := TemplatesOf(hhs[picks[n]], ps)]
  }

  /** The new households are numbered first, ..., first + |picks| - 1, the j-th copying the j-th pick. */
  lemma {:induction false} TemplateMapAt(hhs: seq<Household>, ps: map<int, Person>, picks: seq<nat>, first: int)
    requires MembersKnown(hhs, ps)
    requires forall j :: 0 <= j < |picks| ==> picks[j] < |hhs|
    ensures forall h :: h in TemplateMap(hhs, ps, picks, first) <==> first <= h < first + |picks|
    ensures forall j :: 0 <= j < |picks| ==> TemplateMap(hhs, ps, picks, first)[first + j] == TemplatesOf(hhs[picks[j]], ps)
    decreases |picks|
  {
    if picks != [] {
      var n := |picks| - 1;
      TemplateMapAt(hhs, ps, picks[..n], first);
      assert forall j :: 0 <= j < n ==> picks[..n][j] == picks[j];
    }
  }

  /**
   * The state of the in-migrant loop: `events` and `templates` are what the
   * first |events| picks of `full` give, and the picks still to be made
   * from what is left of the target are the rest of `full`.
   */
  ghost predicate InmigrantLoop(hhs: seq<Household>, ps: map<int, Person>, full: seq<nat>, first: int, draws: nat -> real,
                                left: int, draw: nat, events: seq<MigrationEvent>, templates: map<int, seq<PersonTemplate>>)
  {
    && IsDraws(draws) && (left > 0 ==> Selectable(hhs)) && MembersKnown(hhs, ps)
    && (forall j :: 0 <= j < |full| ==> full[j] < |hhs|)
    && |events| <= |full|
    && events == InEvents(first, |events|)
    && templates == TemplateMap(hhs, ps, full[..|events|], first)
    && Picks(hhs, left, draws, draw) == full[|events|..]
  }

  /**
   * One more pick adds one IN event and one in-migrating household, both
   * under the next id; the primed arguments are the state after the pick.
   */
  lemma InmigrantStep(hhs: seq<Household>, ps: map<int, Person>, full: seq<nat>, first: int, draws: nat -> real,
                      left: int, draw: nat, events: seq<MigrationEvent>, templates: map<int, seq<PersonTemplate>>,
                      left': int, draw': nat, events': seq<MigrationEvent>, templates': map<int, seq<PersonTemplate>>)
    requires InmigrantLoop(hhs, ps, full, first, draws, left, draw, events, templates) && left > 0
    requires var i := Selected(|hhs|, draws(draw));
             && left' == left - hhs[i].Size() && draw' == draw + 1
             && events' == events + [MigrationEvent(first + |events|, In)]
             && templates' == templates[first + |events| := TemplatesOf(hhs[i], ps)]
    ensures InmigrantLoop(hhs, ps, full, first, draws, left', draw', events', templates')
  {
    var n := |events|;
    var i := Selected(|hhs|, draws(draw));
    var rest := Picks(hhs, left', draws, draw');
    assert full[n..] == [i] + rest;
    assert full[n] == i;
    assert full[n + 1..] == full[n..][1..];
    assert full[..n + 1][..n] == full[..n];
    assert events'[..n] == events;
  }

  /** At the end of the in-migrant loop all picks have been made. */
  lemma InmigrantLoopDone(hhs: seq<Household>, ps: map<int, Person>, full: seq<nat>, first: int, draws: nat -> real,
                          left: int, draw: nat, events: seq<MigrationEvent>, templates: map<int, seq<PersonTemplate>>)
    requires InmigrantLoop(hhs, ps, full, first, draws, left, draw, events, templates) && left <= 0
    ensures events == InEvents(first, |full|)
    ensures templates == TemplateMap(hhs, ps, full, first)
  {
    assert full[..|events|] == full;
  }

  /** The outcome of planning a year: the events, the in-migrating households' templates, and the last household id used. */
  datatype YearPlan = YearPlan(events: seq<MigrationEvent>, inmigrating: map<int, seq<PersonTemplate>>, lastId: int)

  /**
   * The plan of a year from the listed households `hhs` and the targets
   * `t`: the OUT events of the households picked for the out-migration
   * target, then the IN events of the new households `first`, `first + 1`,
   * ... picked, with the following draws, for the in-migration target, each
   * new household copying the members of its pick.
   */
  ghost function PlannedYear(hhs: seq<Household>, ps: map<int, Person>, t: Targets, draws: nat -> real, first: int): YearPlan
    requires IsDraws(draws) && ((t.outmigrants > 0 || t.inmigrants > 0) ==> Selectable(hhs)) && MembersKnown(hhs, ps)
  {
    var outs := Picks(hhs, t.outmigrants, draws, 0);
    var ins := Picks(hhs, t.inmigrants, draws, |outs|);
    YearPlan(OutEvents(hhs, outs) + InEvents(first, |ins|), TemplateMap(hhs, ps, ins, first), first - 1 + |ins|)
  }

  /** The households of a registry listed in the order `order` gives. */
  function HouseholdsInOrder(hs: map<int, Household>, order: seq<int>): (hhs: seq<Household>)
    requires forall i :: 0 <= i < |order| ==> order[i] in hs
    ensures |hhs| == |order|
    ensures forall i :: 0 <= i < |order| ==> hhs[i] == hs[order[i]]
  {
    seq(|order|, i requires 0 <= i < |order| => hs[order[i]])
  }

  /** The registry has a household to pick and no household without members. */
  ghost predicate HouseholdsSelectable(hs: map<int, Household>)
  {
    |hs| > 0 && forall h :: h in hs ==> hs[h].Size() >= 1
  }

  /** A registry whose households all have members, listed in any order, gives households to pick from. */
  lemma ListedSelectable(hs: map<int, Household>, order: seq<int>)
    requires HouseholdsSelectable(hs) && |order| == |hs| && forall i :: 0 <= i < |order| ==> order[i] in hs
    ensures Selectable(HouseholdsInOrder(hs, order))
  {
    var hhs := HouseholdsInOrder(hs, order);
    forall i | 0 <= i < |hhs| ensures hhs[i].Size() >= 1 {
      var h := order[i];
      assert hhs[i] == hs[h] && hs[h].Size() >= 1;
    }
  }

  /** The members of listed households are registered when every household's members are. */
  lemma ListedMembersKnown(hs: map<int, Household>, ps: map<int, Person>, order: seq<int>)
    requires PersonsLinked(hs, ps) && forall i :: 0 <= i < |order| ==> order[i] in hs
    ensures MembersKnown(HouseholdsInOrder(hs, order), ps)
  {
    var hhs := HouseholdsInOrder(hs, order);
    forall i, j | 0 <= i < |hhs| && 0 <= j < |hhs[i].personIds| ensures hhs[i].personIds[j] in ps {
      var h := order[i];
      assert hhs[i] == hs[h];
      assert hs[h].personIds[j] in ps;
    }
  }

  /** One more member, the next new person, extends the household's members and the person registry. */
  lemma AddMemberStep(ps: map<int, Person>, persons: map<int, Person>, first: int, hhId: int, ts: seq<PersonTemplate>, n: nat)
    requires n < |ts| && persons == ps + NewPersons(first, hhId, ts[..n])
    ensures persons[first + n := NewPerson(first + n, hhId, ts[n])] == ps + NewPersons(first, hhId, ts[..n + 1])
    ensures IdRange(first, n) + [first + n] == IdRange(first, n + 1)
  {
    assert ts[..n + 1][..n] == ts[..n];
  }

  /** Ids above every registered id are not registered. */
  lemma NewPersonsFresh(ps: map<int, Person>, first: int, hhId: int, ts: seq<PersonTemplate>)
    requires forall id :: id in ps ==> id < first
    ensures forall id :: id in NewPersons(first, hhId, ts) ==> id !in ps
  {
    NewPersonsAt(first, hhId, ts);
  }

  /** The new members are exactly the new persons' ids. */
  lemma NewMembersAreNewPersons(first: int, hhId: int, ts: seq<PersonTemplate>, hh: Household)
    requires hh.personIds == IdRange(first, |ts|)
    ensures Members(hh) == NewPersons(first, hhId, ts).Keys
  {
    NewPersonsAt(first, hhId, ts);
    forall id | id in NewPersons(first, hhId, ts) ensures id in Members(hh) {
      assert hh.personIds[id - first] == id;
    }
  }
}
