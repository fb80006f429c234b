/**
Deployment.Run: compares what a job should have on the cluster with what the cluster has, one
scaling group at a time, and destroys, creates and starts units until both agree.
*/
module Reconcile {
  import opened Wrappers
  import opened UnitFiles
  import opened Scheduler

  datatype ScalingGroupUnits = ScalingGroupUnits(scalingGroup: nat, units: seq<UnitData>) {
    function Names(): seq<string> { Scheduler.Names(units) }

    /** The first unit with the given name. */
    function Get(name: string): (r: Option<UnitData>)
      ensures r.Some? ==> r.value in units && r.value.name == name
      ensures r.None? <==> name !in Names()
    {
      GetFrom(units, name)
    }
  }

  function GetFrom(units: seq<UnitData>, name: string): (r: Option<UnitData>)
    ensures r.Some? ==> r.value in units && r.value.name == name
    ensures r.None? <==> name !in Scheduler.Names(units)
  {
    if units == [] then None
    else
      assert Scheduler.Names(units) == [units[0].name] + Scheduler.Names(units[1..]);
      if units[0].name == name then Some(units[0]) else GetFrom(units[1..], name)
  }

  /** The units of a group whose names are in one of the lists. */
  method SelectByNames(sg: ScalingGroupUnits, a: seq<string>, b: seq<string>, c: seq<string>) returns (result: seq<UnitData>)
    ensures forall u :: u in result <==> u in sg.units && u.name in a + b + c
  {
    var names := (set x | x in a) + (set x | x in b) + (set x | x in c);
    result := [];
    for i := 0 to |sg.units|
      invariant forall u :: u in result <==> u in sg.units[..i] && u.name in a + b + c
    {
      if sg.units[i].name in names {
        result := result + [sg.units[i]];
      }
    }
    assert sg.units[..|sg.units|] == sg.units;
  }

  // ----- Selecting unit names -----

  function Filter(s: seq<string>, p: string -> bool): (r: seq<string>)
    ensures forall x :: x in r <==> x in s && p(x)
    ensures Distinct(s) ==> Distinct(r)
  {
    if s == [] then []
    else
      var init := Filter(s[..|s| - 1], p);
      if p(s[|s| - 1]) then init + [s[|s| - 1]] else init
  }

  method SelectUnitNames(units: seq<string>, p: string -> bool) returns (result: seq<string>)
    ensures result == Filter(units, p)
  {
    result := [];
    for i := 0 to |units|
      invariant result == Filter(units[..i], p)
    {
      assert units[..i + 1][..i] == units[..i];
      if p(units[i]) {
        result := result + [units[i]];
      }
    }
    assert units[..|units|] == units;
  }

  // ----- What a run has to do, name by name -----

  type Registry = map<string, string>

  /**
  The scheduler's two name tests, restricted to the selection, and the units generated for each
  scaling group.
  */
  datatype Plan = Plan(selected: string -> bool, inGroup: (string, nat) -> bool,
                       groups: seq<ScalingGroupUnits>, force: bool)
  {
    predicate InGroup(i: nat, name: string)
      requires i < |groups|
    {
      selected(name) && inGroup(name, groups[i].scalingGroup)
    }

    /** A name never belongs to two scaling groups, generated names belong to their own, and fleet can read all unit files. */
    ghost predicate WellFormed() {
      && (forall i, j, name :: 0 <= i < |groups| && 0 <= j < |groups| && InGroup(i, name) && InGroup(j, name) ==> i == j)
      && (forall i :: 0 <= i < |groups| ==> Distinct(groups[i].Names()))
      && (forall i, name :: 0 <= i < |groups| && name in groups[i].Names() ==> InGroup(i, name))
      && (forall i :: 0 <= i < |groups| ==> Readable(groups[i].units))
    }

    /** The text rendered for a generated unit. */
    function Content(i: nat, name: string): string
      requires i < |groups| && name in groups[i].Names()
    {
      groups[i].Get(name).value.content
    }

    predicate IsModified(units: Registry, i: nat, name: string)
      requires i < |groups|
    {
      || force
      || groups[i].Get(name).None?
      || name !in units
      || !SameContent(units[name], groups[i].Get(name).value.content)
    }

    /** Loaded, and obsolete, modified or failed. */
    predicate MustGo(units: Registry, states: Registry, i: nat, name: string)
      requires i < |groups|
    {
      && name in units && InGroup(i, name)
      && (name !in groups[i].Names() || IsModified(units, i, name) || IsFailed(states, name))
    }

    /** Generated, and new, modified or failed. */
    predicate MustCome(units: Registry, states: Registry, i: nat, name: string)
      requires i < |groups|
    {
      && name in groups[i].Names()
      && (name !in units || IsModified(units, i, name) || IsFailed(states, name))
    }

    /**
    How the cluster has to look for one name of group i, once the group is done: what had to come is
    what fleet makes of the rendered text, and what had nothing to do is as it was.
    */
    ghost predicate Settled(before: Snapshot, after: Snapshot, i: nat, name: string)
      requires i < |groups|
    {
      && (name in after.units <==> name in groups[i].Names())
      && (MustCome(before.units, before.states, i, name) ==>
            name in after.units && Stored(Content(i, name)) == Some(after.units[name]) && name in after.launched)
      && (!MustGo(before.units, before.states, i, name) && !MustCome(before.units, before.states, i, name)
          ==> before.Same(after, name))
    }

    /** The effects of handling group i: which units they touch, and in which order. */
    ghost predicate GroupEffects(before: Snapshot, i: nat, effects: seq<Effect>)
      requires i < |groups|
    {
      && (forall e :: e in effects ==> InGroup(i, e.name))
      && (forall n :: Destroyed(n) in effects <==> MustGo(before.units, before.states, i, n))
      && (forall n :: Stopped(n) in effects ==> MustGo(before.units, before.states, i, n))
      && (forall n :: Created(n) in effects <==> MustCome(before.units, before.states, i, n))
      && (forall n :: Started(n) in effects <==> MustCome(before.units, before.states, i, n))
      && (forall k, l :: 0 <= k < l < |effects| ==> Phase(effects[k]) <= Phase(effects[l]))
    }
  }

  /** Stopping and destroying come before creating, and creating before starting. */
  function Phase(e: Effect): nat {
    match e
    case Stopped(_) => 0
    case Destroyed(_) => 0
    case Created(_) => 1
    case Started(_) => 2
  }

  datatype Snapshot = Snapshot(units: Registry, states: Registry, launched: set<string>) {
    /** Nothing happened to the unit of this name. */
    ghost predicate Same(later: Snapshot, name: string) {
      && (name in units <==> name in later.units)
      && (name in units ==> units[name] == later.units[name])
      && (name in states <==> name in later.states)
      && (name in states ==> states[name] == later.states[name])
      && (name in launched <==> name in later.launched)
    }
  }

  // ----- One scaling group -----

  /** The lists that Run computes for a scaling group. */
  datatype Changes = Changes(rest: seq<string>, obsolete: seq<string>, modified: seq<string>,
                             failed: seq<string>, added: seq<string>, any: bool)

  /** What the lists have to contain. */
  ghost predicate RightChanges(plan: Plan, s: Snapshot, i: nat, remaining: seq<string>, ch: Changes)
    requires i < |plan.groups|
  {
    && Distinct(ch.rest)
    && (forall n :: n in ch.rest <==> n in remaining && !plan.InGroup(i, n))
    && (forall n :: n in ch.modified + ch.failed + ch.obsolete <==> plan.MustGo(s.units, s.states, i, n))
    && (forall n :: n in plan.groups[i].Names() ==>
          (n in ch.modified + ch.failed + ch.added <==> plan.MustCome(s.units, s.states, i, n)))
    && (ch.any <==> exists n :: plan.MustGo(s.units, s.states, i, n) || plan.MustCome(s.units, s.states, i, n))
  }

  method SelectChanges(c: Cluster, plan: Plan, i: nat, remaining: seq<string>) returns (ch: Changes)
    requires i < |plan.groups| && plan.WellFormed() && Distinct(remaining)
    requires forall n :: n in remaining ==> plan.selected(n)
    requires forall n :: plan.InGroup(i, n) ==> (n in remaining <==> n in c.units)
    ensures RightChanges(plan, Snapshot(c.units, c.states, c.launched), i, remaining, ch)
  {
    var sg := plan.groups[i];
    var loaded := SelectUnitNames(remaining, n => plan.inGroup(n, sg.scalingGroup));
    var rest := SelectUnitNames(remaining, n => n !in loaded);
    var names := sg.Names();
    var obsolete := SelectUnitNames(loaded, n => n !in names);
    var notObsolete := SelectUnitNames(loaded, n => n in names);
    var units, states := c.units, c.states;
    var modified := SelectUnitNames(notObsolete, n => plan.IsModified(units, i, n));
    var failed := SelectUnitNames(notObsolete, n => IsFailed(states, n));
    var added := SelectUnitNames(names, n => n !in loaded);
    var any := |loaded| != |sg.units| || |obsolete + modified + failed| > 0;
    ch := Changes(rest, obsolete, modified, failed, added, any);
    ChangesAreRight(plan, Snapshot(units, states, c.launched), i, remaining, loaded, ch);
  }

  lemma ChangesAreRight(plan: Plan, s: Snapshot, i: nat, remaining: seq<string>, loaded: seq<string>, ch: Changes)
    requires i < |plan.groups| && plan.WellFormed() && Distinct(remaining) && Distinct(loaded) && Distinct(ch.rest)
    requires forall n :: n in remaining ==> plan.selected(n)
    requires forall n :: plan.InGroup(i, n) ==> (n in remaining <==> n in s.units)
    requires forall n :: n in loaded <==> n in remaining && plan.inGroup(n, plan.groups[i].scalingGroup)
    requires forall n :: n in ch.rest <==> n in remaining && n !in loaded
    requires forall n :: n in ch.obsolete <==> n in loaded && n !in plan.groups[i].Names()
    requires forall n :: n in ch.modified <==> n in loaded && n in plan.groups[i].Names() && plan.IsModified(s.units, i, n)
    requires forall n :: n in ch.failed <==> n in loaded && n in plan.groups[i].Names() && IsFailed(s.states, n)
    requires forall n :: n in ch.added <==> n in plan.groups[i].Names() && n !in loaded
    requires ch.any == (|loaded| != |plan.groups[i].units| || |ch.obsolete + ch.modified + ch.failed| > 0)
    ensures RightChanges(plan, s, i, remaining, ch)
  {
    hide SameContent, Stored;
    forall n ensures n in loaded <==> n in s.units && plan.InGroup(i, n) {}
    var toDestroy := ch.obsolete + ch.modified + ch.failed;
    forall n ensures n in toDestroy <==> plan.MustGo(s.units, s.states, i, n) {}
    AnyModifications(plan, s, i, loaded, toDestroy);
  }

  /** Comparing lengths is enough to see that a unit is missing. */
  lemma AnyModifications(plan: Plan, s: Snapshot, i: nat, loaded: seq<string>, toDestroy: seq<string>)
    requires i < |plan.groups| && plan.WellFormed() && Distinct(loaded)
    requires forall n :: n in loaded <==> n in s.units && plan.InGroup(i, n)
    requires forall n :: n in toDestroy <==> plan.MustGo(s.units, s.states, i, n)
    ensures (|loaded| != |plan.groups[i].units| || |toDestroy| > 0)
        <==> exists n :: plan.MustGo(s.units, s.states, i, n) || plan.MustCome(s.units, s.states, i, n)
  {
    var names := plan.groups[i].Names();
    DistinctLength(loaded);
    DistinctLength(names);
    if |toDestroy| > 0 {
      assert plan.MustGo(s.units, s.states, i, toDestroy[0]);
    } else {
      assert forall n :: n in loaded ==> n in names by {
        forall n | n in loaded ensures n in names {
          assert !plan.MustGo(s.units, s.states, i, n);
        }
      }
      assert ToSet(loaded) <= ToSet(names);
      if |loaded| != |names| {
        assert ToSet(loaded) != ToSet(names);
        var n :| n in ToSet(names) && n !in ToSet(loaded);
        assert plan.MustCome(s.units, s.states, i, n);
      } else {
        SameSizeSubset(ToSet(loaded), ToSet(names));
        forall n ensures !plan.MustGo(s.units, s.states, i, n) && !plan.MustCome(s.units, s.states, i, n) {
          assert n !in toDestroy;
          assert n in names ==> n in ToSet(loaded);
        }
      }
    }
  }

  lemma SameSizeSubset(a: set<string>, b: set<string>)
    requires a <= b && |a| == |b|
    ensures a == b
  {
    assert b == a + (b - a);
    assert |b| == |a| + |b - a|;
  }

  /** Destroys, and then creates and starts, what the lists say. */
  method ApplyChanges(c: Cluster, plan: Plan, i: nat, ghost remaining: seq<string>, ch: Changes) returns (ghost effects: seq<Effect>)
    requires i < |plan.groups| && plan.WellFormed()
    requires c.Valid() && RightChanges(plan, Snapshot(c.units, c.states, c.launched), i, remaining, ch)
    modifies c
    ensures c.Valid() && c.log == old(c.log) + effects
    ensures plan.GroupEffects(old(Snapshot(c.units, c.states, c.launched)), i, effects)
    ensures forall n :: plan.InGroup(i, n) ==>
              plan.Settled(old(Snapshot(c.units, c.states, c.launched)), Snapshot(c.units, c.states, c.launched), i, n)
    ensures forall n :: !plan.InGroup(i, n) ==> old(Snapshot(c.units, c.states, c.launched)).Same(Snapshot(c.units, c.states, c.launched), n)
  {
    ghost var before := Snapshot(c.units, c.states, c.launched);
    ghost var gone := ToSet(ch.modified + ch.failed + ch.obsolete);
    ghost var destroyed := DestroyListed(c, ch);
    ghost var between := Snapshot(c.units, c.states, c.launched);
    var toLaunch := SelectByNames(plan.groups[i], ch.modified, ch.failed, ch.added);
    ghost var come := ToSet(Scheduler.Names(toLaunch));
    LaunchNames(plan, before, i, remaining, ch, toLaunch);
    ReadableLaunch(plan, i, toLaunch);
    ghost var started := LaunchUnits(c, toLaunch);
    effects := destroyed + started;
    assert old(c.log) + destroyed + started == old(c.log) + effects;
    NoneLaunched(plan, before, i, gone, come);
    GroupEffectsOf(plan, before, i, destroyed, started, gone, come);
    GroupSettled(plan, before, between, Snapshot(c.units, c.states, c.launched), i, toLaunch, gone, come);
  }

  lemma ReadableLaunch(plan: Plan, i: nat, toLaunch: seq<UnitData>)
    requires i < |plan.groups| && plan.WellFormed() && forall u :: u in toLaunch ==> u in plan.groups[i].units
    ensures Readable(toLaunch)
  {
    hide Stored;
    assert Readable(plan.groups[i].units);
    forall k | 0 <= k < |toLaunch| ensures Stored(toLaunch[k].content).Some? {
      assert toLaunch[k] in plan.groups[i].units;
    }
  }

  /** What is about to be created is not launched: either it was never there, or it has been destroyed. */
  lemma NoneLaunched(plan: Plan, before: Snapshot, i: nat, gone: set<string>, come: set<string>)
    requires i < |plan.groups| && plan.WellFormed() && before.launched <= before.units.Keys
    requires forall n :: n in gone <==> plan.MustGo(before.units, before.states, i, n)
    requires forall n :: n in come <==> plan.MustCome(before.units, before.states, i, n)
    ensures come * (before.units.Keys - gone) == {} && come * (before.launched - gone) == {}
  {
    forall n | n in come && n in before.units ensures n in gone {
      assert plan.InGroup(i, n) && plan.MustGo(before.units, before.states, i, n);
    }
  }

  method DestroyListed(c: Cluster, ch: Changes) returns (ghost effects: seq<Effect>)
    requires c.Valid()
    modifies c
    ensures c.Valid() && c.launched == old(c.launched) - ToSet(ch.modified + ch.failed + ch.obsolete)
    ensures c.units == old(c.units) - ToSet(ch.modified + ch.failed + ch.obsolete)
    ensures c.states == old(c.states) - ToSet(ch.modified + ch.failed + ch.obsolete)
    ensures c.log == old(c.log) + effects
    ensures DestroyEffects(effects, ToSet(ch.modified + ch.failed + ch.obsolete),
                           ToSet(ch.modified + ch.failed + ch.obsolete), old(c.units.Keys))
  {
    effects := [];
    if |ch.obsolete + ch.modified + ch.failed| > 0 {
      ghost var who;
      effects, who := c.DestroyUnits(ch.modified, ch.failed, ch.obsolete);
    }
  }

  method LaunchUnits(c: Cluster, list: seq<UnitData>) returns (ghost effects: seq<Effect>)
    requires c.Valid() && Readable(list)
    modifies c
    ensures c.Valid() && StartedList(old(Snapshot(c.units, c.states, c.launched)), Snapshot(c.units, c.states, c.launched), list)
    ensures c.log == old(c.log) + effects
    ensures StartEffects(effects, ToSet(Scheduler.Names(list)), old(c.units.Keys), old(c.launched))
  {
    effects := [];
    if |list| > 0 {
      effects := c.Start(list);
    }
  }

  /** What starting a list of units leaves on the cluster. */
  ghost predicate StartedList(before: Snapshot, after: Snapshot, list: seq<UnitData>) {
    && CreatedFrom(before.units, after.units, list)
    && after.launched == before.launched + ToSet(Scheduler.Names(list))
    && StatesAfter(before.states, after.states, before.launched, ToSet(Scheduler.Names(list)))
  }

  lemma LaunchNames(plan: Plan, before: Snapshot, i: nat, remaining: seq<string>, ch: Changes, toLaunch: seq<UnitData>)
    requires i < |plan.groups|
    requires RightChanges(plan, before, i, remaining, ch)
    requires forall u :: u in toLaunch <==> u in plan.groups[i].units && u.name in ch.modified + ch.failed + ch.added
    ensures forall n :: n in Scheduler.Names(toLaunch) <==> plan.MustCome(before.units, before.states, i, n)
  {
    var units, names := plan.groups[i].units, plan.groups[i].Names();
    forall n ensures n in Scheduler.Names(toLaunch) <==> plan.MustCome(before.units, before.states, i, n) {
      if n in Scheduler.Names(toLaunch) {
        var k :| 0 <= k < |toLaunch| && Scheduler.Names(toLaunch)[k] == n;
        assert toLaunch[k] in units;
        var l :| 0 <= l < |units| && units[l] == toLaunch[k];
        assert names[l] == n;
      }
      if plan.MustCome(before.units, before.states, i, n) {
        var l :| 0 <= l < |names| && names[l] == n;
        assert units[l] in toLaunch;
        var k :| 0 <= k < |toLaunch| && toLaunch[k] == units[l];
        assert Scheduler.Names(toLaunch)[k] == n;
      }
    }
  }

  lemma GroupEffectsOf(plan: Plan, before: Snapshot, i: nat, destroyed: seq<Effect>, started: seq<Effect>,
                       gone: set<string>, come: set<string>)
    requires i < |plan.groups| && plan.WellFormed()
    requires forall n :: n in gone <==> plan.MustGo(before.units, before.states, i, n)
    requires forall n :: n in come <==> plan.MustCome(before.units, before.states, i, n)
    requires DestroyEffects(destroyed, gone, gone, before.units.Keys)
    requires StartEffects(started, come, before.units.Keys - gone, before.launched - gone)
    requires come * (before.units.Keys - gone) == {} && come * (before.launched - gone) == {}
    ensures plan.GroupEffects(before, i, destroyed + started)
  {
    var all := destroyed + started;
    forall n ensures Created(n) in all <==> n in come {
      assert Created(n) in all <==> Created(n) in started;
      assert n in come ==> n !in before.units.Keys - gone;
    }
    forall n ensures Started(n) in all <==> n in come {
      assert Started(n) in all <==> Started(n) in started;
      assert n in come && n in before.launched - gone ==> n in come * (before.launched - gone);
    }
    forall k | 0 <= k < |all| ensures (k < |destroyed| <==> Phase(all[k]) == 0) {
      if k < |destroyed| { assert all[k] in destroyed; } else { assert all[k] in started; }
    }
    forall k, l | 0 <= k < l < |all| ensures Phase(all[k]) <= Phase(all[l]) {
      if k >= |destroyed| {
        assert started[l - |destroyed|].Created? ==> started[k - |destroyed|].Created?;
        assert all[k] in started && all[l] in started;
      }
    }
  }

  lemma GroupSettled(plan: Plan, before: Snapshot, between: Snapshot, after: Snapshot, i: nat,
                     toLaunch: seq<UnitData>, gone: set<string>, come: set<string>)
    requires i < |plan.groups| && plan.WellFormed()
    requires forall n :: n in gone <==> plan.MustGo(before.units, before.states, i, n)
    requires forall n :: n in come <==> plan.MustCome(before.units, before.states, i, n)
    requires forall u :: u in toLaunch ==> u in plan.groups[i].units
    requires between.units == before.units - gone && between.states == before.states - gone
    requires between.launched == before.launched - gone
    requires come * (before.units.Keys - gone) == {} && come * (before.launched - gone) == {}
    requires come == ToSet(Scheduler.Names(toLaunch)) && StartedList(between, after, toLaunch)
    ensures forall n :: plan.InGroup(i, n) ==> plan.Settled(before, after, i, n)
    ensures forall n :: !plan.InGroup(i, n) ==> before.Same(after, n)
  {
    hide Stored, SameContent, StartedList, Snapshot.Same;
    forall n | plan.InGroup(i, n) ensures plan.Settled(before, after, i, n) {
      if plan.MustCome(before.units, before.states, i, n) {
        assert n in come && n !in between.units;
        ComesFromPlan(plan, between, after, i, toLaunch, n);
      } else if plan.MustGo(before.units, before.states, i, n) {
        assert n in gone && n !in come;
        StaysAway(between, after, toLaunch, n);
      } else {
        Untouched(before, between, after, gone, toLaunch, n);
      }
    }
    forall n | !plan.InGroup(i, n) ensures before.Same(after, n) {
      assert n !in gone && n !in come;
      Untouched(before, between, after, gone, toLaunch, n);
    }
  }

  lemma Untouched(before: Snapshot, between: Snapshot, after: Snapshot, gone: set<string>, toLaunch: seq<UnitData>, n: string)
    requires between.units == before.units - gone && between.states == before.states - gone
    requires between.launched == before.launched - gone && StartedList(between, after, toLaunch)
    requires n !in gone && n !in ToSet(Scheduler.Names(toLaunch))
    ensures before.Same(after, n) && (n in before.units <==> n in after.units)
  {
    hide Stored;
    assert n in after.units <==> n in after.units.Keys;
    assert n in after.states <==> n in after.states.Keys;
  }

  lemma StaysAway(between: Snapshot, after: Snapshot, toLaunch: seq<UnitData>, n: string)
    requires StartedList(between, after, toLaunch) && n !in between.units && n !in ToSet(Scheduler.Names(toLaunch))
    ensures n !in after.units
  {
    hide Stored;
    assert n in after.units <==> n in after.units.Keys;
  }

  /** A unit created for a group has the text that fleet makes of the text rendered for it. */
  lemma ComesFromPlan(plan: Plan, between: Snapshot, after: Snapshot, i: nat, toLaunch: seq<UnitData>, n: string)
    requires i < |plan.groups| && Distinct(plan.groups[i].Names()) && n in plan.groups[i].Names()
    requires forall u :: u in toLaunch ==> u in plan.groups[i].units
    requires StartedList(between, after, toLaunch) && n in ToSet(Scheduler.Names(toLaunch)) && n !in between.units
    ensures n in after.units && Stored(plan.Content(i, n)) == Some(after.units[n]) && n in after.launched
  {
    hide Stored, ScalingGroupUnits.Get;
    assert n in after.units.Keys;
    var u :| u in toLaunch && u.name == n && Stored(u.content) == Some(after.units[n]);
    UniqueByName(plan.groups[i], u);
  }

  lemma UniqueByName(sg: ScalingGroupUnits, u: UnitData)
    requires Distinct(sg.Names()) && u in sg.units
    ensures sg.Get(u.name) == Some(u)
  {
    hide ScalingGroupUnits.Get;
    var names := sg.Names();
    var k :| 0 <= k < |sg.units| && sg.units[k] == u;
    assert names[k] == u.name && u.name in names;
    var v := sg.Get(u.name).value;
    var l :| 0 <= l < |sg.units| && sg.units[l] == v;
    assert names[l] == v.name;
    assert k == l;
  }

  // ----- The whole run -----

  /** `modifications` counts the groups, and the cleanup, that changed something. */
  datatype RunResult = Done(modifications: nat) | Aborted(groupsDone: nat)

  ghost function Flatten(segments: seq<seq<Effect>>): seq<Effect> {
    if segments == [] then [] else Flatten(segments[..|segments| - 1]) + segments[|segments| - 1]
  }

  ghost function CountNonEmpty(segments: seq<seq<Effect>>): nat {
    if segments == [] then 0
    else CountNonEmpty(segments[..|segments| - 1]) + (if segments[|segments| - 1] == [] then 0 else 1)
  }

  /** The name belongs to one of the first k scaling groups. */
  ghost predicate InSome(plan: Plan, k: nat, name: string)
    requires k <= |plan.groups|
  {
    exists i :: 0 <= i < k && plan.InGroup(i, name)
  }

  /** The text is what fleet makes of the content, or what J2 takes for it. */
  predicate UpToDate(text: string, content: string) {
    Stored(content) == Some(text) || SameContent(text, content)
  }

  /** The selected units on the cluster are exactly the generated ones. */
  ghost predicate RightUnits(plan: Plan, s: Snapshot) {
    && (forall n :: plan.selected(n) && n in s.units ==> exists i :: 0 <= i < |plan.groups| && n in plan.groups[i].Names())
    && (forall i, n :: 0 <= i < |plan.groups| && n in plan.groups[i].Names() ==> n in s.units)
  }

  /** The cluster has exactly the generated units of the selection, and they are up to date. */
  ghost predicate Converged(plan: Plan, s: Snapshot) {
    && RightUnits(plan, s)
    && (forall i, n :: 0 <= i < |plan.groups| && n in plan.groups[i].Names() ==> UpToDate(s.units[n], plan.Content(i, n)))
  }

  /** J2 takes every generated unit for unmodified. */
  ghost predicate Unmodified(plan: Plan, s: Snapshot)
    requires RightUnits(plan, s)
  {
    forall i, n :: 0 <= i < |plan.groups| && n in plan.groups[i].Names() ==> SameContent(s.units[n], plan.Content(i, n))
  }

  ghost predicate NothingFailed(plan: Plan, s: Snapshot) {
    forall i, n :: 0 <= i < |plan.groups| && n in plan.groups[i].Names() ==> !IsFailed(s.states, n)
  }

  /** There is nothing to do, and no order to do it anyway. */
  ghost predicate InSync(plan: Plan, s: Snapshot) {
    !plan.force && RightUnits(plan, s) && Unmodified(plan, s) && NothingFailed(plan, s)
  }

  lemma ConvergedAt(plan: Plan, s: Snapshot, i: nat, group: ScalingGroupUnits, n: string)
    requires Converged(plan, s) && i < |plan.groups| && plan.groups[i] == group && n in group.Names()
    ensures n in s.units && UpToDate(s.units[n], group.Get(n).value.content)
  {
    hide UpToDate, ScalingGroupUnits.Get;
    assert UpToDate(s.units[n], plan.Content(i, n));
  }

  /** Selected units that no scaling group of the job claims. */
  ghost predicate IsStray(plan: Plan, units: Registry, name: string) {
    name in units && plan.selected(name) && !InSome(plan, |plan.groups|, name)
  }

  /** What the segments of a run say about the groups handled so far. */
  ghost predicate Progress(plan: Plan, before: Snapshot, now: Snapshot, segments: seq<seq<Effect>>)
    requires |segments| <= |plan.groups|
  {
    && (forall i :: 0 <= i < |segments| ==> plan.GroupEffects(before, i, segments[i]))
    && (forall i, n :: 0 <= i < |segments| && plan.InGroup(i, n) ==> plan.Settled(before, now, i, n))
    && (forall n :: !InSome(plan, |segments|, n) ==> before.Same(now, n))
  }

  /** The final cleanup destroys the strays and touches nothing else. */
  ghost predicate CleanupEffects(plan: Plan, before: Snapshot, effects: seq<Effect>) {
    && (forall e :: e in effects ==> (e.Stopped? || e.Destroyed?) && IsStray(plan, before.units, e.name))
    && (forall n :: Destroyed(n) in effects <==> IsStray(plan, before.units, n))
  }

  /**
  How a run may end. Every group that was handled is settled and has the effects it should have;
  a completed run has also removed the strays, and leaves the cluster converged. Units outside
  the selection are as they were.
  */
  ghost predicate RunOutcome(plan: Plan, before: Snapshot, after: Snapshot, r: RunResult, segments: seq<seq<Effect>>) {
    && (forall n :: !plan.selected(n) ==> before.Same(after, n))
    && match r
       case Aborted(k) =>
         |segments| == k <= |plan.groups| && Progress(plan, before, after, segments)
       case Done(modifications) =>
         && |segments| == |plan.groups| + 1
         && (forall i :: 0 <= i < |plan.groups| ==> plan.GroupEffects(before, i, segments[i]))
         && CleanupEffects(plan, before, segments[|plan.groups|])
         && modifications == CountNonEmpty(segments)
         && (forall i, n :: 0 <= i < |plan.groups| && plan.InGroup(i, n) ==> plan.Settled(before, after, i, n))
         && Converged(plan, after)
  }

  /** Something of group i has to be destroyed, created or started. */
  ghost predicate HasWork(plan: Plan, s: Snapshot, i: nat)
    requires i < |plan.groups|
  {
    exists n :: plan.MustGo(s.units, s.states, i, n) || plan.MustCome(s.units, s.states, i, n)
  }

  /**
  The run ends at place k: before a scaling group with work, unless force or automatic continuation
  spares the question, or before a cleanup with strays, for which it is always asked; and the answer
  is no.
  */
  ghost predicate StopsAt(plan: Plan, s: Snapshot, autoContinue: bool, confirm: nat -> bool, k: nat)
    requires k <= |plan.groups|
  {
    && !confirm(k)
    && if k < |plan.groups| then !plan.force && !autoContinue && HasWork(plan, s, k)
       else exists n :: IsStray(plan, s.units, n)
  }

  /** A run is aborted at the first place where it has to end, and done when there is none. */
  ghost predicate EndsRight(plan: Plan, s: Snapshot, autoContinue: bool, confirm: nat -> bool, r: RunResult) {
    match r
    case Aborted(k) =>
      && k <= |plan.groups| && StopsAt(plan, s, autoContinue, confirm, k)
      && forall j :: 0 <= j < k ==> !StopsAt(plan, s, autoContinue, confirm, j)
    case Done(_) => forall j :: 0 <= j <= |plan.groups| ==> !StopsAt(plan, s, autoContinue, confirm, j)
  }

  /** A group that has not been reached has the work it had before the run. */
  lemma SameStop(plan: Plan, before: Snapshot, middle: Snapshot, autoContinue: bool, confirm: nat -> bool, i: nat)
    requires i < |plan.groups| && plan.WellFormed()
    requires forall n :: plan.InGroup(i, n) ==> before.Same(middle, n)
    ensures StopsAt(plan, before, autoContinue, confirm, i) == StopsAt(plan, middle, autoContinue, confirm, i)
  {
    hide Plan.MustGo, Plan.MustCome;
    SameWork(plan, before, middle, i);
  }

  lemma AbortedOutcome(plan: Plan, before: Snapshot, after: Snapshot, segments: seq<seq<Effect>>)
    requires |segments| <= |plan.groups| && Progress(plan, before, after, segments)
    ensures RunOutcome(plan, before, after, Aborted(|segments|), segments)
  {
    forall n | !plan.selected(n) ensures before.Same(after, n) {
      assert !InSome(plan, |segments|, n);
    }
  }

  lemma DoneOutcome(plan: Plan, before: Snapshot, middle: Snapshot, after: Snapshot, segments: seq<seq<Effect>>, cleanup: seq<Effect>)
    requires |segments| == |plan.groups| && Progress(plan, before, middle, segments)
    requires CleanupEffects(plan, before, cleanup) && Converged(plan, after)
    requires forall n :: !plan.selected(n) ==> before.Same(after, n)
    requires forall i, n :: 0 <= i < |plan.groups| && plan.InGroup(i, n) ==> plan.Settled(before, after, i, n)
    ensures RunOutcome(plan, before, after, Done(CountNonEmpty(segments + [cleanup])), segments + [cleanup])
  {
    var all := segments + [cleanup];
    forall i | 0 <= i < |plan.groups| ensures plan.GroupEffects(before, i, all[i]) {
      assert all[i] == segments[i];
    }
  }

  /** What is left of the loaded names after k groups. */
  ghost predicate IsRest(plan: Plan, before: Snapshot, k: nat, remaining: seq<string>)
    requires k <= |plan.groups|
  {
    && Distinct(remaining)
    && forall n :: n in remaining <==> n in before.units && plan.selected(n) && !InSome(plan, k, n)
  }

  /** One round of the loop of Run; a refused confirmation leaves everything as it is. */
  method RunGroup(c: Cluster, plan: Plan, i: nat, remaining: seq<string>, autoContinue: bool, confirm: nat -> bool,
                  ghost before: Snapshot, ghost segments: seq<seq<Effect>>)
    returns (aborted: bool, rest: seq<string>, any: bool, ghost effects: seq<Effect>)
    requires plan.WellFormed() && |segments| == i < |plan.groups| && IsRest(plan, before, i, remaining)
    requires Progress(plan, before, Snapshot(c.units, c.states, c.launched), segments)
    requires c.Valid()
    modifies c
    ensures c.Valid()
    ensures aborted <==> StopsAt(plan, before, autoContinue, confirm, i)
    ensures aborted ==> c.log == old(c.log) && Snapshot(c.units, c.states, c.launched) == old(Snapshot(c.units, c.states, c.launched))
    ensures !aborted ==> c.log == old(c.log) + effects
    ensures !aborted ==> Progress(plan, before, Snapshot(c.units, c.states, c.launched), segments + [effects])
    ensures !aborted ==> IsRest(plan, before, i + 1, rest)
    ensures Flatten(segments + [effects]) == Flatten(segments) + effects
    ensures !aborted ==> CountNonEmpty(segments + [effects]) == CountNonEmpty(segments) + (if any then 1 else 0)
    ensures InSync(plan, before) && old(Snapshot(c.units, c.states, c.launched)) == before ==>
              !aborted && !any && effects == [] && Snapshot(c.units, c.states, c.launched) == before
  {
    hide Progress, IsRest, InSync, Plan.WellFormed, Plan.Settled, Snapshot.Same;
    ghost var middle := Snapshot(c.units, c.states, c.launched);
    NextGroup(plan, before, middle, segments, remaining);
    SameStop(plan, before, middle, autoContinue, confirm, i);
    var ch := SelectChanges(c, plan, i, remaining);
    if InSync(plan, before) && middle == before { NothingToDo(plan, before, i); }
    rest, any, effects := ch.rest, ch.any, [];
    aborted := ch.any && !plan.force && !autoContinue && !confirm(i);
    assert (segments + [effects])[..i] == segments;
    if !aborted {
      effects := ApplyChanges(c, plan, i, remaining, ch);
      GroupDone(plan, before, middle, Snapshot(c.units, c.states, c.launched), segments, effects);
      SegmentAdded(segments, effects, plan, middle, i, ch.any);
      RestAfter(plan, before, i, remaining, ch.rest);
      NothingDone(plan, middle, Snapshot(c.units, c.states, c.launched), i);
    }
  }

  lemma NothingDone(plan: Plan, middle: Snapshot, now: Snapshot, i: nat)
    requires i < |plan.groups|
    requires forall n :: plan.InGroup(i, n) ==> plan.Settled(middle, now, i, n)
    requires forall n :: !plan.InGroup(i, n) ==> middle.Same(now, n)
    ensures (forall n :: !plan.MustGo(middle.units, middle.states, i, n) && !plan.MustCome(middle.units, middle.states, i, n))
        ==> now == middle
  {
    if forall n :: !plan.MustGo(middle.units, middle.states, i, n) && !plan.MustCome(middle.units, middle.states, i, n) {
      forall n ensures middle.Same(now, n) {
        if plan.InGroup(i, n) { assert plan.Settled(middle, now, i, n); }
      }
      SameEverywhere(middle, now);
    }
  }

  lemma SameEverywhere(a: Snapshot, b: Snapshot)
    requires forall n :: a.Same(b, n)
    ensures a == b
  {
    assert forall n :: a.Same(b, n) ==> (n in a.units <==> n in b.units) && (n in a.states <==> n in b.states);
    assert a.units.Keys == b.units.Keys && a.states.Keys == b.states.Keys;
    assert a.units == b.units && a.states == b.states;
    assert forall n :: a.Same(b, n) ==> (n in a.launched <==> n in b.launched);
    assert a.launched == b.launched;
  }

  /**
  Run. `confirm` answers the questions put to the user; a refusal ends the run between two
  groups. The source fails on an empty list of groups.
  */
  method Run(c: Cluster, plan: Plan, autoContinue: bool, confirm: nat -> bool) returns (r: RunResult, ghost segments: seq<seq<Effect>>)
    requires plan.WellFormed() && |plan.groups| > 0
    requires c.Valid()
    modifies c
    ensures c.Valid()
    ensures c.log == old(c.log) + Flatten(segments)
    ensures RunOutcome(plan, old(Snapshot(c.units, c.states, c.launched)), Snapshot(c.units, c.states, c.launched), r, segments)
    ensures EndsRight(plan, old(Snapshot(c.units, c.states, c.launched)), autoContinue, confirm, r)
    ensures InSync(plan, old(Snapshot(c.units, c.states, c.launched))) ==>
              r == Done(0) && c.log == old(c.log) && Snapshot(c.units, c.states, c.launched) == old(Snapshot(c.units, c.states, c.launched))
  {
    hide RunOutcome, StopsAt, Progress, IsRest, InSync, Plan.WellFormed, Snapshot.Same;
    ghost var before := Snapshot(c.units, c.states, c.launched);
    var all := c.List();
    var remaining := SelectUnitNames(all, plan.selected);
    RestAtStart(plan, before, all, remaining);
    var groupsDone, modifications;
    groupsDone, remaining, modifications, segments := RunGroups(c, plan, remaining, autoContinue, confirm);
    if groupsDone < |plan.groups| {
      AbortedOutcome(plan, before, Snapshot(c.units, c.states, c.launched), segments);
      r := Aborted(groupsDone);
    } else {
      r, segments := Finish(c, plan, remaining, autoContinue, confirm, modifications, before, segments);
    }
  }

  /** The end of Run, once all groups are done. */
  method Finish(c: Cluster, plan: Plan, remaining: seq<string>, ghost autoContinue: bool, confirm: nat -> bool, modifications: nat,
                ghost before: Snapshot, ghost segments: seq<seq<Effect>>)
    returns (r: RunResult, ghost all: seq<seq<Effect>>)
    requires plan.WellFormed() && |segments| == |plan.groups| && IsRest(plan, before, |segments|, remaining)
    requires Progress(plan, before, Snapshot(c.units, c.states, c.launched), segments) && modifications == CountNonEmpty(segments)
    requires c.Valid()
    modifies c
    ensures c.Valid()
    ensures RunOutcome(plan, before, Snapshot(c.units, c.states, c.launched), r, all)
    ensures r.Aborted? ==> r.groupsDone == |plan.groups|
    ensures r.Aborted? <==> StopsAt(plan, before, autoContinue, confirm, |plan.groups|)
    ensures forall log :: old(c.log) == log + Flatten(segments) ==> c.log == log + Flatten(all)
    ensures InSync(plan, before) ==> r == Done(modifications) && c.log == old(c.log)
    ensures InSync(plan, before) ==> Snapshot(c.units, c.states, c.launched) == old(Snapshot(c.units, c.states, c.launched))
  {
    hide RunOutcome, StopsAt, Progress, IsRest, InSync, CleanupEffects, Converged, Plan.WellFormed, Plan.Settled, Plan.InGroup, Snapshot.Same;
    ghost var middle := Snapshot(c.units, c.states, c.launched);
    var refused;
    ghost var cleanup;
    refused, cleanup := CleanUp(c, plan, remaining, autoContinue, confirm, before, segments);
    if refused {
      AbortedOutcome(plan, before, middle, segments);
      r, all := Aborted(|plan.groups|), segments;
    } else {
      DoneOutcome(plan, before, middle, Snapshot(c.units, c.states, c.launched), segments, cleanup);
      forall log | old(c.log) == log + Flatten(segments) ensures c.log == log + Flatten(segments + [cleanup]) {
        assert log + Flatten(segments) + cleanup == log + (Flatten(segments) + cleanup);
      }
      r, all := Done(if |remaining| > 0 then modifications + 1 else modifications), segments + [cleanup];
    }
  }

  /** The loop of Run over the scaling groups, up to the first refused confirmation. */
  method RunGroups(c: Cluster, plan: Plan, loaded: seq<string>, autoContinue: bool, confirm: nat -> bool)
    returns (groupsDone: nat, remaining: seq<string>, modifications: nat, ghost segments: seq<seq<Effect>>)
    requires plan.WellFormed() && IsRest(plan, Snapshot(c.units, c.states, c.launched), 0, loaded)
    requires Progress(plan, Snapshot(c.units, c.states, c.launched), Snapshot(c.units, c.states, c.launched), [])
    requires c.Valid()
    modifies c
    ensures c.Valid()
    ensures |segments| == groupsDone <= |plan.groups|
    ensures forall j :: 0 <= j < groupsDone ==> !StopsAt(plan, old(Snapshot(c.units, c.states, c.launched)), autoContinue, confirm, j)
    ensures groupsDone < |plan.groups| ==> StopsAt(plan, old(Snapshot(c.units, c.states, c.launched)), autoContinue, confirm, groupsDone)
    ensures IsRest(plan, old(Snapshot(c.units, c.states, c.launched)), groupsDone, remaining)
    ensures Progress(plan, old(Snapshot(c.units, c.states, c.launched)), Snapshot(c.units, c.states, c.launched), segments)
    ensures c.log == old(c.log) + Flatten(segments) && modifications == CountNonEmpty(segments)
    ensures InSync(plan, old(Snapshot(c.units, c.states, c.launched))) ==> groupsDone == |plan.groups| && modifications == 0
    ensures InSync(plan, old(Snapshot(c.units, c.states, c.launched))) ==> c.log == old(c.log)
    ensures InSync(plan, old(Snapshot(c.units, c.states, c.launched))) ==> Snapshot(c.units, c.states, c.launched) == old(Snapshot(c.units, c.states, c.launched))
  {
    hide InSync, IsRest, Progress, Plan.WellFormed, StopsAt;
    ghost var before := Snapshot(c.units, c.states, c.launched);
    ghost var inSync := InSync(plan, before);
    remaining, modifications, segments := loaded, 0, [];
    for i := 0 to |plan.groups|
      invariant c.Valid() && |segments| == i && IsRest(plan, before, i, remaining)
      invariant forall j :: 0 <= j < i ==> !StopsAt(plan, before, autoContinue, confirm, j)
      invariant Progress(plan, before, Snapshot(c.units, c.states, c.launched), segments)
      invariant c.log == old(c.log) + Flatten(segments)
      invariant modifications == CountNonEmpty(segments)
      invariant inSync ==> c.log == old(c.log) && modifications == 0 && Snapshot(c.units, c.states, c.launched) == before
    {
      var aborted, rest, any;
      ghost var effects;
      aborted, rest, any, effects := RunGroup(c, plan, i, remaining, autoContinue, confirm, before, segments);
      groupsDone := i;
      if aborted { return; }
      assert old(c.log) + Flatten(segments) + effects == old(c.log) + (Flatten(segments) + effects);
      segments := segments + [effects];
      modifications := if any then modifications + 1 else modifications;
      remaining := rest;
    }
    groupsDone := |plan.groups|;
  }

  /** The last step of Run: whatever is left of the loaded units goes, after confirmation. */
  method CleanUp(c: Cluster, plan: Plan, remaining: seq<string>, ghost autoContinue: bool, confirm: nat -> bool,
                 ghost before: Snapshot, ghost segments: seq<seq<Effect>>)
    returns (refused: bool, ghost effects: seq<Effect>)
    requires plan.WellFormed() && |segments| == |plan.groups| && IsRest(plan, before, |segments|, remaining)
    requires Progress(plan, before, Snapshot(c.units, c.states, c.launched), segments)
    requires c.Valid()
    modifies c
    ensures c.Valid()
    ensures refused <==> StopsAt(plan, before, autoContinue, confirm, |plan.groups|)
    ensures refused ==> c.log == old(c.log) && Snapshot(c.units, c.states, c.launched) == old(Snapshot(c.units, c.states, c.launched))
    ensures Flatten(segments + [effects]) == Flatten(segments) + effects
    ensures !refused ==> c.log == old(c.log) + effects
    ensures !refused ==> CleanupEffects(plan, before, effects) && Converged(plan, Snapshot(c.units, c.states, c.launched))
    ensures !refused ==> forall n :: !plan.selected(n) ==> before.Same(Snapshot(c.units, c.states, c.launched), n)
    ensures !refused ==> forall i, n :: 0 <= i < |plan.groups| && plan.InGroup(i, n) ==>
              plan.Settled(before, Snapshot(c.units, c.states, c.launched), i, n)
    ensures !refused ==> CountNonEmpty(segments + [effects]) == CountNonEmpty(segments) + (if remaining == [] then 0 else 1)
    ensures InSync(plan, before) ==> remaining == [] && !refused && effects == []
    ensures InSync(plan, before) ==> Snapshot(c.units, c.states, c.launched) == old(Snapshot(c.units, c.states, c.launched))
  {
    hide InSync, Converged, CleanupEffects, Progress, IsRest, IsStray, Plan.WellFormed, Plan.Settled, Snapshot.Same;
    ghost var middle := Snapshot(c.units, c.states, c.launched);
    effects, refused := [], false;
    assert (segments + [effects])[..|segments|] == segments;
    if InSync(plan, before) { NoStrays(plan, before, remaining); }
    StraysRemain(plan, before, remaining);
    SomeStopAtEnd(plan, before, remaining, autoContinue, confirm);
    hide StopsAt;
    if |remaining| > 0 {
      refused := !confirm(|plan.groups|);
      if refused { return; }
      ghost var who;
      effects, who := c.DestroyUnits([], [], remaining);
      assert [] + [] + remaining == remaining;
      assert (segments + [effects])[..|segments|] == segments;
    }
    CleanedUp(plan, before, middle, Snapshot(c.units, c.states, c.launched), segments, remaining, effects);
  }

  /** What is left after all groups are the strays. */
  lemma StraysRemain(plan: Plan, before: Snapshot, remaining: seq<string>)
    requires IsRest(plan, before, |plan.groups|, remaining)
    ensures remaining != [] <==> exists n :: IsStray(plan, before.units, n)
  {
    hide InSome;
    forall n ensures n in remaining <==> IsStray(plan, before.units, n) {}
    if remaining != [] {
      HasMember(remaining);
    }
  }

  lemma SomeStopAtEnd(plan: Plan, before: Snapshot, remaining: seq<string>, autoContinue: bool, confirm: nat -> bool)
    requires remaining != [] <==> exists n :: IsStray(plan, before.units, n)
    ensures StopsAt(plan, before, autoContinue, confirm, |plan.groups|) <==> remaining != [] && !confirm(|plan.groups|)
  {
  }

  lemma NoStrays(plan: Plan, before: Snapshot, remaining: seq<string>)
    requires plan.WellFormed() && InSync(plan, before) && IsRest(plan, before, |plan.groups|, remaining)
    ensures remaining == []
  {
    forall n | plan.selected(n) && n in before.units ensures InSome(plan, |plan.groups|, n) {
      var i :| 0 <= i < |plan.groups| && n in plan.groups[i].Names();
      assert plan.InGroup(i, n);
    }
    if remaining != [] { HasMember(remaining); }
  }

  lemma HasMember(s: seq<string>)
    requires s != []
    ensures exists n :: n in s
  {
    assert s[0] in s;
  }

  lemma RestAtStart(plan: Plan, before: Snapshot, all: seq<string>, remaining: seq<string>)
    requires Distinct(all) && ToSet(all) == before.units.Keys && remaining == Filter(all, plan.selected)
    ensures IsRest(plan, before, 0, remaining)
    ensures Progress(plan, before, before, [])
  {
    forall n ensures n in all <==> n in ToSet(all) {}
  }

  lemma NextGroup(plan: Plan, before: Snapshot, middle: Snapshot, segments: seq<seq<Effect>>, remaining: seq<string>)
    requires plan.WellFormed() && |segments| < |plan.groups|
    requires Progress(plan, before, middle, segments) && IsRest(plan, before, |segments|, remaining)
    ensures Distinct(remaining) && forall n :: n in remaining ==> plan.selected(n)
    ensures forall n :: plan.InGroup(|segments|, n) ==>
              before.Same(middle, n) && (n in remaining <==> n in middle.units)
  {
    forall n | plan.InGroup(|segments|, n) ensures !InSome(plan, |segments|, n) {}
  }

  /** What has to be done for a group depends on the units of that group only. */
  lemma SameWork(plan: Plan, before: Snapshot, middle: Snapshot, i: nat)
    requires i < |plan.groups| && plan.WellFormed()
    requires forall n :: plan.InGroup(i, n) ==> before.Same(middle, n)
    ensures forall n :: plan.MustGo(before.units, before.states, i, n) == plan.MustGo(middle.units, middle.states, i, n)
    ensures forall n :: plan.MustCome(before.units, before.states, i, n) == plan.MustCome(middle.units, middle.states, i, n)
  {
  }

  lemma GroupDone(plan: Plan, before: Snapshot, middle: Snapshot, now: Snapshot, segments: seq<seq<Effect>>, effects: seq<Effect>)
    requires plan.WellFormed() && |segments| < |plan.groups|
    requires Progress(plan, before, middle, segments)
    requires forall n :: plan.InGroup(|segments|, n) ==> before.Same(middle, n)
    requires plan.GroupEffects(middle, |segments|, effects)
    requires forall n :: plan.InGroup(|segments|, n) ==> plan.Settled(middle, now, |segments|, n)
    requires forall n :: !plan.InGroup(|segments|, n) ==> middle.Same(now, n)
    ensures Progress(plan, before, now, segments + [effects])
  {
    var i := |segments|;
    SameWork(plan, before, middle, i);
    assert plan.GroupEffects(before, i, effects);
    forall k, n | 0 <= k <= i && plan.InGroup(k, n) ensures plan.Settled(before, now, k, n) {
      if k == i {
        assert plan.Settled(middle, now, i, n);
      } else {
        assert plan.Settled(before, middle, k, n) && middle.Same(now, n);
      }
    }
    forall n | !InSome(plan, i + 1, n) ensures before.Same(now, n) {
      assert !plan.InGroup(i, n) && !InSome(plan, i, n);
    }
  }

  lemma SegmentAdded(segments: seq<seq<Effect>>, effects: seq<Effect>, plan: Plan, s: Snapshot, i: nat, any: bool)
    requires i < |plan.groups| && plan.GroupEffects(s, i, effects)
    requires any <==> exists n :: plan.MustGo(s.units, s.states, i, n) || plan.MustCome(s.units, s.states, i, n)
    ensures any <==> effects != []
    ensures Flatten(segments + [effects]) == Flatten(segments) + effects
    ensures CountNonEmpty(segments + [effects]) == CountNonEmpty(segments) + (if any then 1 else 0)
  {
    assert (segments + [effects])[..|segments|] == segments;
    if effects != [] {
      var e := effects[0];
      assert e in effects;
      assert e == Stopped(e.name) || e == Destroyed(e.name) || e == Created(e.name) || e == Started(e.name);
    }
    if any {
      var n :| plan.MustGo(s.units, s.states, i, n) || plan.MustCome(s.units, s.states, i, n);
      assert Destroyed(n) in effects || Created(n) in effects;
    }
  }

  lemma RestAfter(plan: Plan, before: Snapshot, i: nat, remaining: seq<string>, rest: seq<string>)
    requires i < |plan.groups| && IsRest(plan, before, i, remaining)
    requires Distinct(rest) && forall n :: n in rest <==> n in remaining && !plan.InGroup(i, n)
    ensures IsRest(plan, before, i + 1, rest)
  {
    forall n ensures InSome(plan, i + 1, n) <==> InSome(plan, i, n) || plan.InGroup(i, n) {}
  }

  lemma NothingToDo(plan: Plan, s: Snapshot, i: nat)
    requires plan.WellFormed() && i < |plan.groups| && InSync(plan, s)
    ensures forall n :: !plan.MustGo(s.units, s.states, i, n) && !plan.MustCome(s.units, s.states, i, n)
  {
    hide SameContent, Stored;
    forall n ensures !plan.MustGo(s.units, s.states, i, n) && !plan.MustCome(s.units, s.states, i, n) {
      if n in s.units && plan.InGroup(i, n) {
        var k :| 0 <= k < |plan.groups| && n in plan.groups[k].Names();
        assert plan.InGroup(k, n);
      }
    }
  }

  /** What is settled is up to date: created from the rendered text, or found unmodified. */
  lemma SettledIsUpToDate(plan: Plan, before: Snapshot, after: Snapshot, i: nat, n: string)
    requires i < |plan.groups| && n in plan.groups[i].Names() && plan.InGroup(i, n) && plan.Settled(before, after, i, n)
    ensures n in after.units && UpToDate(after.units[n], plan.Content(i, n))
  {
    hide Stored, SameContent;
  }

  lemma SettledSame(plan: Plan, before: Snapshot, middle: Snapshot, now: Snapshot, i: nat, n: string)
    requires i < |plan.groups| && plan.Settled(before, middle, i, n) && middle.Same(now, n)
    ensures plan.Settled(before, now, i, n)
  {
    hide Stored, Plan.MustGo, Plan.MustCome;
  }

  lemma CleanedUp(plan: Plan, before: Snapshot, middle: Snapshot, now: Snapshot, segments: seq<seq<Effect>>,
                  remaining: seq<string>, cleanup: seq<Effect>)
    requires plan.WellFormed() && |segments| == |plan.groups|
    requires Progress(plan, before, middle, segments) && IsRest(plan, before, |segments|, remaining)
    requires now.units == middle.units - ToSet(remaining) && now.states == middle.states - ToSet(remaining)
    requires now.launched == middle.launched - ToSet(remaining)
    requires DestroyEffects(cleanup, ToSet(remaining), ToSet(remaining), middle.units.Keys)
    ensures CleanupEffects(plan, before, cleanup)
    ensures Converged(plan, now)
    ensures forall n :: !plan.selected(n) ==> before.Same(now, n)
    ensures forall i, n :: 0 <= i < |plan.groups| && plan.InGroup(i, n) ==> plan.Settled(before, now, i, n)
    ensures remaining == [] <==> cleanup == []
  {
    hide Plan.Settled, Plan.GroupEffects;
    var k := |plan.groups|;
    StraysDestroyed(plan, before, middle, segments, remaining, cleanup);
    forall n | !InSome(plan, k, n) ensures n in middle.units <==> n in before.units {
      assert before.Same(middle, n);
    }
    forall i, n | 0 <= i < k && plan.InGroup(i, n) ensures plan.Settled(before, now, i, n) {
      assert InSome(plan, k, n) && middle.Same(now, n);
      SettledSame(plan, before, middle, now, i, n);
    }
    CleanedConverged(plan, before, now, remaining);
    forall n | !plan.selected(n) ensures before.Same(now, n) {
      assert !InSome(plan, k, n);
    }
  }

  lemma StraysDestroyed(plan: Plan, before: Snapshot, middle: Snapshot, segments: seq<seq<Effect>>,
                        remaining: seq<string>, cleanup: seq<Effect>)
    requires |segments| == |plan.groups|
    requires Progress(plan, before, middle, segments) && IsRest(plan, before, |segments|, remaining)
    requires DestroyEffects(cleanup, ToSet(remaining), ToSet(remaining), middle.units.Keys)
    ensures CleanupEffects(plan, before, cleanup)
    ensures remaining == [] <==> cleanup == []
  {
    hide Plan.Settled, Plan.GroupEffects, InSome;
    var k := |plan.groups|;
    forall n ensures n in remaining <==> IsStray(plan, before.units, n) {}
    forall n | n in remaining ensures n in middle.units {
      assert before.Same(middle, n);
    }
    if remaining != [] {
      assert remaining[0] in remaining && Destroyed(remaining[0]) in cleanup;
    }
    if cleanup != [] {
      assert cleanup[0] in cleanup && cleanup[0].name in ToSet(remaining);
    }
  }

  lemma CleanedConverged(plan: Plan, before: Snapshot, now: Snapshot, remaining: seq<string>)
    requires plan.WellFormed()
    requires forall i, n :: 0 <= i < |plan.groups| && plan.InGroup(i, n) ==> plan.Settled(before, now, i, n)
    requires forall n :: plan.selected(n) && n in now.units ==> InSome(plan, |plan.groups|, n)
    ensures Converged(plan, now)
  {
    hide UpToDate;
    forall n | plan.selected(n) && n in now.units ensures exists i :: 0 <= i < |plan.groups| && n in plan.groups[i].Names() {
      var i :| 0 <= i < |plan.groups| && plan.InGroup(i, n);
      assert plan.Settled(before, now, i, n);
    }
    forall i, n | 0 <= i < |plan.groups| && n in plan.groups[i].Names()
      ensures n in now.units && UpToDate(now.units[n], plan.Content(i, n))
    {
      SettledIsUpToDate(plan, before, now, i, n);
    }
  }

  /** After a completed run without failures, the next one has nothing to do if J2 takes all units for unmodified. */
  lemma DoneIsInSync(plan: Plan, before: Snapshot, after: Snapshot, r: RunResult, segments: seq<seq<Effect>>)
    requires RunOutcome(plan, before, after, r, segments) && r.Done? && NothingFailed(plan, after)
    ensures RightUnits(plan, after)
    ensures InSync(plan.(force := false), after) <==> Unmodified(plan, after)
  {
    hide SameContent, Stored, Plan.Settled, Plan.GroupEffects;
    var again := plan.(force := false);
    assert again.groups == plan.groups && again.selected == plan.selected;
    assert RightUnits(again, after) && NothingFailed(again, after);
    assert forall i, n :: 0 <= i < |plan.groups| && n in plan.groups[i].Names() ==> plan.Content(i, n) == again.Content(i, n);
  }

  /** What a completed run leaves of a generated unit: what fleet makes of its text, unless it was there unmodified. */
  lemma WhereTextsComeFrom(plan: Plan, before: Snapshot, after: Snapshot, r: RunResult, segments: seq<seq<Effect>>, i: nat, n: string)
    requires plan.WellFormed() && RunOutcome(plan, before, after, r, segments) && r.Done?
    requires i < |plan.groups| && n in plan.groups[i].Names()
    ensures n in after.units
    ensures (!plan.force && n in before.units && SameContent(before.units[n], plan.Content(i, n)) && after.units[n] == before.units[n])
         || Stored(plan.Content(i, n)) == Some(after.units[n])
  {
    hide Stored, SameContent;
    assert plan.InGroup(i, n) && plan.Settled(before, after, i, n);
  }

  // ----- Runs without effects -----

  lemma {:induction false} NothingToFlatten(segments: seq<seq<Effect>>)
    requires Flatten(segments) == []
    ensures forall k :: 0 <= k < |segments| ==> segments[k] == []
  {
    if segments != [] { NothingToFlatten(segments[..|segments| - 1]); }
  }

  /** A completed run leaves everything alone only on a cluster that is in sync. */
  lemma IdleMeansInSync(plan: Plan, before: Snapshot, after: Snapshot, r: RunResult, segments: seq<seq<Effect>>)
    requires plan.WellFormed() && !plan.force && RunOutcome(plan, before, after, r, segments) && r.Done? && Flatten(segments) == []
    ensures InSync(plan, before)
  {
    hide SameContent, Stored, Plan.Settled;
    NothingToFlatten(segments);
    forall i, n | 0 <= i < |plan.groups|
      ensures !plan.MustGo(before.units, before.states, i, n) && !plan.MustCome(before.units, before.states, i, n)
    {
      assert plan.GroupEffects(before, i, segments[i]) && segments[i] == [];
    }
    forall n | plan.selected(n) && n in before.units
      ensures exists i :: 0 <= i < |plan.groups| && n in plan.groups[i].Names()
    {
      assert segments[|plan.groups|] == [] && !IsStray(plan, before.units, n);
      var i :| 0 <= i < |plan.groups| && plan.InGroup(i, n);
      assert !plan.MustGo(before.units, before.states, i, n);
    }
    forall i, n | 0 <= i < |plan.groups| && n in plan.groups[i].Names()
      ensures n in before.units && SameContent(before.units[n], plan.Content(i, n)) && !IsFailed(before.states, n)
    {
      assert !plan.MustCome(before.units, before.states, i, n);
    }
  }

  lemma {:induction false} InFlatten(segments: seq<seq<Effect>>, e: Effect)
    ensures e in Flatten(segments) <==> exists k :: 0 <= k < |segments| && e in segments[k]
  {
    if segments != [] {
      var init, last := segments[..|segments| - 1], segments[|segments| - 1];
      InFlatten(init, e);
      assert segments == init + [last];
      if k :| 0 <= k < |init| && e in init[k] { assert e in segments[k]; }
      if k :| 0 <= k < |segments| && e in segments[k] { assert k < |init| ==> e in init[k]; }
    }
  }

  /** All effects on a name are in the segment of its place. */
  lemma EffectsAtPlace(plan: Plan, before: Snapshot, after: Snapshot, r: RunResult, segments: seq<seq<Effect>>, e: Effect, i: nat)
    requires plan.WellFormed() && RunOutcome(plan, before, after, r, segments) && i < |segments| && HasPlace(plan, e.name, i)
    ensures e in Flatten(segments) <==> e in segments[i]
  {
    hide RunOutcome, HasPlace, Plan.WellFormed;
    OutcomeInPlace(plan, before, after, r, segments);
    InFlatten(segments, e);
    if k :| 0 <= k < |segments| && e in segments[k] { PlacesAreUnique(plan, e.name, k, i); }
  }

  /**
  What a completed run does to a generated unit: it creates and starts it exactly when it was forced,
  missing or modified, or when its state was unknown or "failed", and destroys it before if it was there.
  */
  lemma WhatIsRelaunched(plan: Plan, before: Snapshot, after: Snapshot, r: RunResult, segments: seq<seq<Effect>>, i: nat, n: string)
    requires plan.WellFormed() && RunOutcome(plan, before, after, r, segments) && r.Done?
    requires i < |plan.groups| && n in plan.groups[i].Names()
    ensures Created(n) in Flatten(segments) <==>
              || plan.force || n !in before.units || !SameContent(before.units[n], plan.Content(i, n))
              || n !in before.states || before.states[n] == "failed"
    ensures Started(n) in Flatten(segments) <==> Created(n) in Flatten(segments)
    ensures Destroyed(n) in Flatten(segments) <==> n in before.units && Created(n) in Flatten(segments)
  {
    hide SameContent, ScalingGroupUnits.Get;
    assert plan.InGroup(i, n) && HasPlace(plan, n, i);
    assert plan.groups[i].Get(n).Some?;
    EffectsAtPlace(plan, before, after, r, segments, Created(n), i);
    EffectsAtPlace(plan, before, after, r, segments, Started(n), i);
    EffectsAtPlace(plan, before, after, r, segments, Destroyed(n), i);
    assert plan.GroupEffects(before, i, segments[i]);
  }

  /** A selected unit that is not generated is destroyed by every completed run, and not created again. */
  lemma WhatIsObsolete(plan: Plan, before: Snapshot, after: Snapshot, r: RunResult, segments: seq<seq<Effect>>, n: string)
    requires plan.WellFormed() && RunOutcome(plan, before, after, r, segments) && r.Done?
    requires plan.selected(n) && n in before.units && forall i :: 0 <= i < |plan.groups| ==> n !in plan.groups[i].Names()
    ensures Destroyed(n) in Flatten(segments) && Created(n) !in Flatten(segments) && n !in after.units
  {
    hide SameContent;
    if i :| 0 <= i < |plan.groups| && plan.InGroup(i, n) {
      EffectsAtPlace(plan, before, after, r, segments, Created(n), i);
      EffectsAtPlace(plan, before, after, r, segments, Destroyed(n), i);
      assert plan.GroupEffects(before, i, segments[i]) && plan.Settled(before, after, i, n);
    } else {
      var k := |plan.groups|;
      assert HasPlace(plan, n, k) && CleanupEffects(plan, before, segments[k]);
      EffectsAtPlace(plan, before, after, r, segments, Created(n), k);
      EffectsAtPlace(plan, before, after, r, segments, Destroyed(n), k);
    }
  }

  /** A unit whose stored text differs from the rendered one is destroyed and created again by every completed run. */
  lemma ModifiedIsRelaunched(plan: Plan, before: Snapshot, after: Snapshot, r: RunResult, segments: seq<seq<Effect>>, i: nat, n: string)
    requires plan.WellFormed() && RunOutcome(plan, before, after, r, segments) && r.Done?
    requires i < |plan.groups| && n in plan.groups[i].Names() && n in before.units
    requires !SameContent(before.units[n], plan.Content(i, n))
    ensures Destroyed(n) in Flatten(segments) && Created(n) in Flatten(segments)
    ensures n in after.units && Stored(plan.Content(i, n)) == Some(after.units[n])
  {
    hide Stored, SameContent;
    assert plan.InGroup(i, n) && plan.Settled(before, after, i, n);
    assert plan.MustGo(before.units, before.states, i, n) && plan.MustCome(before.units, before.states, i, n);
    assert plan.GroupEffects(before, i, segments[i]);
    assert Destroyed(n) in segments[i] && Created(n) in segments[i];
    var x :| 0 <= x < |segments[i]| && segments[i][x] == Destroyed(n);
    FlattenAt(segments, i, x);
    var y :| 0 <= y < |segments[i]| && segments[i][y] == Created(n);
    FlattenAt(segments, i, y);
  }

  /**
  The same over sections. A generated unit that fleet stored from sections a, and that is rendered from
  sections b now, is launched again for its text exactly when b is not a without its empty sections.
  */
  lemma OtherSectionsAreRelaunched(plan: Plan, before: Snapshot, after: Snapshot, r: RunResult, segments: seq<seq<Effect>>,
                                   i: nat, n: string, a: seq<Section>, b: seq<Section>)
    requires plan.WellFormed() && RunOutcome(plan, before, after, r, segments) && r.Done?
    requires i < |plan.groups| && n in plan.groups[i].Names() && n in before.units
    requires PlainSections(a) && PlainSections(b) && Stored(Text(a)) == Some(before.units[n]) && plan.Content(i, n) == Text(b)
    ensures Created(n) in Flatten(segments) <==>
              plan.force || NonEmpty(a) != b || n !in before.states || before.states[n] == "failed"
    ensures NonEmpty(a) != b ==> Destroyed(n) in Flatten(segments) && n in after.units && after.units[n] == Text(NonEmpty(b))
  {
    hide RunOutcome, PlainSections, Stored, SameContent, Text, Plan.WellFormed;
    StoredLooksLike(a, b);
    WhatIsRelaunched(plan, before, after, r, segments, i, n);
    if NonEmpty(a) != b {
      ModifiedIsRelaunched(plan, before, after, r, segments, i, n);
      StoredDropsEmptySections(b);
    }
  }

  // ----- Orders over the whole log of a run -----

  /** The place of a name in the order of the run: its scaling group, or the cleanup. */
  ghost predicate HasPlace(plan: Plan, name: string, k: nat) {
    if k < |plan.groups| then plan.InGroup(k, name) else k == |plan.groups| && !InSome(plan, k, name)
  }

  ghost predicate SegmentsInPlace(plan: Plan, segments: seq<seq<Effect>>) {
    forall k, e :: 0 <= k < |segments| && e in segments[k] ==> HasPlace(plan, e.name, k)
  }

  lemma OutcomeInPlace(plan: Plan, before: Snapshot, after: Snapshot, r: RunResult, segments: seq<seq<Effect>>)
    requires RunOutcome(plan, before, after, r, segments)
    ensures SegmentsInPlace(plan, segments)
  {
    forall k, e | 0 <= k < |segments| && e in segments[k] ensures HasPlace(plan, e.name, k) {
      if k < |plan.groups| {
        assert plan.GroupEffects(before, k, segments[k]);
      }
    }
  }

  /** Where an effect of the log comes from. */
  lemma {:induction false} PlaceInLog(plan: Plan, segments: seq<seq<Effect>>, a: nat) returns (k: nat, x: nat)
    requires a < |Flatten(segments)|
    ensures k < |segments| && x < |segments[k]| && Flatten(segments)[a] == segments[k][x]
    ensures a == |Flatten(segments[..k])| + x
  {
    var init := segments[..|segments| - 1];
    if a < |Flatten(init)| {
      k, x := PlaceInLog(plan, init, a);
      assert init[..k] == segments[..k];
    } else {
      k, x := |segments| - 1, a - |Flatten(init)|;
    }
  }

  lemma {:induction false} FlattenLengths(segments: seq<seq<Effect>>, k: nat, l: nat)
    requires k < l <= |segments|
    ensures |Flatten(segments[..k])| + |segments[k]| <= |Flatten(segments[..l])|
  {
    assert segments[..l][..l - 1] == segments[..l - 1];
    if k < l - 1 {
      FlattenLengths(segments, k, l - 1);
    }
  }

  /**
  Rolling update: the log goes through the scaling groups in their order, each group once, and
  through the cleanup last. Nothing of another group is touched while a group is handled.
  */
  lemma RollingOrder(plan: Plan, before: Snapshot, after: Snapshot, r: RunResult, segments: seq<seq<Effect>>, a: nat, b: nat)
    requires plan.WellFormed() && RunOutcome(plan, before, after, r, segments)
    requires a <= b < |Flatten(segments)|
    ensures exists k: nat, l: nat :: k <= l
              && HasPlace(plan, Flatten(segments)[a].name, k) && HasPlace(plan, Flatten(segments)[b].name, l)
  {
    OutcomeInPlace(plan, before, after, r, segments);
    var k, x := PlaceInLog(plan, segments, a);
    var l, y := PlaceInLog(plan, segments, b);
    if l < k {
      FlattenLengths(segments, l, k);
    }
    assert segments[k][x] in segments[k] && segments[l][y] in segments[l];
    assert HasPlace(plan, Flatten(segments)[a].name, k) && HasPlace(plan, Flatten(segments)[b].name, l);
  }

  lemma PlacesAreUnique(plan: Plan, name: string, k: nat, l: nat)
    requires plan.WellFormed() && HasPlace(plan, name, k) && HasPlace(plan, name, l)
    ensures k == l
  {
  }

  /** Before an existing unit is created anew, it has been destroyed: it cannot keep its old content. */
  lemma DestroyedBeforeCreated(plan: Plan, before: Snapshot, after: Snapshot, r: RunResult, segments: seq<seq<Effect>>,
                               b: nat, n: string)
    requires plan.WellFormed() && RunOutcome(plan, before, after, r, segments)
    requires b < |Flatten(segments)| && Flatten(segments)[b] == Created(n) && n in before.units
    ensures exists a :: 0 <= a < b && Flatten(segments)[a] == Destroyed(n)
  {
    OutcomeInPlace(plan, before, after, r, segments);
    var k, y := PlaceInLog(plan, segments, b);
    CreatedInGroup(plan, before, after, r, segments, k, y);
    var x := DestroyedInSegment(plan, before, k, segments[k], y);
    FlattenAt(segments, k, x);
  }

  /**
  In the log, what a group destroys comes before all it creates, and what it creates before all it
  starts: no unit of a group is started while another one of it is still missing.
  */
  lemma GroupPhases(plan: Plan, before: Snapshot, after: Snapshot, r: RunResult, segments: seq<seq<Effect>>,
                    i: nat, a: nat, b: nat)
    requires plan.WellFormed() && RunOutcome(plan, before, after, r, segments) && i < |plan.groups|
    requires a < b < |Flatten(segments)|
    requires plan.InGroup(i, Flatten(segments)[a].name) && plan.InGroup(i, Flatten(segments)[b].name)
    ensures Flatten(segments)[a].Created? ==> Flatten(segments)[b].Created? || Flatten(segments)[b].Started?
    ensures Flatten(segments)[a].Started? ==> Flatten(segments)[b].Started?
  {
    hide RunOutcome, Plan.WellFormed, Plan.InGroup, Flatten;
    OutcomeInPlace(plan, before, after, r, segments);
    var k, x := PlaceInLog(plan, segments, a);
    var l, y := PlaceInLog(plan, segments, b);
    assert segments[k][x] in segments[k] && segments[l][y] in segments[l];
    PlacesAreUnique(plan, Flatten(segments)[a].name, k, i);
    PlacesAreUnique(plan, Flatten(segments)[b].name, l, i);
    PhasesInGroup(plan, before, after, r, segments, i, x, y);
  }

  lemma PhasesInGroup(plan: Plan, before: Snapshot, after: Snapshot, r: RunResult, segments: seq<seq<Effect>>, i: nat, x: nat, y: nat)
    requires RunOutcome(plan, before, after, r, segments) && i < |plan.groups| && i < |segments| && x < y < |segments[i]|
    ensures Phase(segments[i][x]) <= Phase(segments[i][y])
  {
    assert plan.GroupEffects(before, i, segments[i]);
  }

  lemma CreatedInGroup(plan: Plan, before: Snapshot, after: Snapshot, r: RunResult, segments: seq<seq<Effect>>, k: nat, y: nat)
    requires RunOutcome(plan, before, after, r, segments)
    requires k < |segments| && y < |segments[k]| && segments[k][y].Created?
    ensures k < |plan.groups| && plan.GroupEffects(before, k, segments[k])
  {
    assert segments[k][y] in segments[k];
  }

  lemma DestroyedInSegment(plan: Plan, before: Snapshot, k: nat, effects: seq<Effect>, y: nat) returns (x: nat)
    requires plan.WellFormed() && k < |plan.groups| && plan.GroupEffects(before, k, effects)
    requires y < |effects| && effects[y].Created? && effects[y].name in before.units
    ensures x < y && effects[x] == Destroyed(effects[y].name)
  {
    var n := effects[y].name;
    assert Created(n) in effects;
    assert plan.MustCome(before.units, before.states, k, n) && plan.InGroup(k, n);
    assert Destroyed(n) in effects;
    x :| 0 <= x < |effects| && effects[x] == Destroyed(n);
    assert Phase(effects[x]) < Phase(effects[y]);
  }

  lemma {:induction false} FlattenAt(segments: seq<seq<Effect>>, k: nat, x: nat)
    requires k < |segments| && x < |segments[k]|
    ensures |Flatten(segments[..k])| + x < |Flatten(segments)|
    ensures Flatten(segments)[|Flatten(segments[..k])| + x] == segments[k][x]
  {
    var init := segments[..|segments| - 1];
    if k < |segments| - 1 {
      FlattenAt(init, k, x);
      assert init[..k] == segments[..k];
    }
  }
}
