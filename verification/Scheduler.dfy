/**
The cluster as the scheduler sees it: a registry of unit files, the state systemd reports for
each unit, and a log of the effects J2 has on it.
*/
module Scheduler {
  import opened Wrappers
  import opened UnitFiles

  datatype UnitData = UnitData(name: string, content: string)

  datatype Effect = Stopped(name: string) | Destroyed(name: string) | Created(name: string) | Started(name: string)

  // ----- Lists of unit names -----

  ghost predicate Distinct(s: seq<string>) {
    forall i, j :: 0 <= i < j < |s| ==> s[i] != s[j]
  }

  ghost function ToSet(s: seq<string>): set<string> {
    set x | x in s
  }

  function Names(units: seq<UnitData>): (names: seq<string>)
    ensures |names| == |units|
    ensures forall i :: 0 <= i < |units| ==> names[i] == units[i].name
  {
    seq(|units|, i requires 0 <= i < |units| => units[i].name)
  }

  lemma {:induction false} DistinctLength(s: seq<string>)
    requires Distinct(s)
    ensures |ToSet(s)| == |s|
  {
    if s != [] {
      var init := s[..|s| - 1];
      DistinctLength(init);
      assert ToSet(s) == ToSet(init) + {s[|s| - 1]};
    } else {
      assert ToSet(s) == {};
    }
  }

  // ----- The cluster -----

  /** Fleet can read all these unit files. */
  predicate Readable(list: seq<UnitData>) {
    forall i :: 0 <= i < |list| ==> Stored(list[i].content).Some?
  }

  /** The registry with the units of the list added that it did not have. */
  ghost predicate CreatedFrom(before: map<string, string>, after: map<string, string>, list: seq<UnitData>) {
    && after.Keys == before.Keys + ToSet(Names(list))
    && (forall n :: n in before ==> after[n] == before[n])
    && (forall n :: n in after && n !in before ==>
          exists u :: u in list && u.name == n && Stored(u.content) == Some(after[n]))
  }

  lemma CreateNext(before: map<string, string>, now: map<string, string>, list: seq<UnitData>, i: nat)
    requires i < |list| && CreatedFrom(before, now, list[..i]) && Stored(list[i].content).Some?
    ensures CreatedFrom(before, if list[i].name in now then now else now[list[i].name := Stored(list[i].content).value], list[..i + 1])
  {
    hide Stored;
    var u := list[i];
    assert list[..i + 1] == list[..i] + [u];
    assert Names(list[..i + 1]) == Names(list[..i]) + [u.name];
    assert ToSet(Names(list[..i + 1])) == ToSet(Names(list[..i])) + {u.name};
    assert u in list[..i + 1];
  }

  /** A unit counts as failed when its state is "failed" or cannot be found. */
  predicate IsFailed(states: map<string, string>, name: string) {
    name !in states || states[name] == "failed"
  }

  /** Of the units that were to be started, those not launched have some state now; all others keep theirs. */
  ghost predicate StatesAfter(before: map<string, string>, after: map<string, string>, launched: set<string>, started: set<string>) {
    && after.Keys == before.Keys + (started - launched)
    && (forall n :: n in before && (n !in started || n in launched) ==> after[n] == before[n])
  }

  lemma NothingStarted(states: map<string, string>, launched: set<string>)
    ensures StatesAfter(states, states, launched, {})
  {
  }

  lemma StartNext(before: map<string, string>, now: map<string, string>, next: map<string, string>,
                  launched: set<string>, started: set<string>, name: string)
    requires StatesAfter(before, now, launched, started)
    requires if name in launched + started then next == now
             else next.Keys == now.Keys + {name} && forall n :: n in now && n != name ==> next[n] == now[n]
    ensures StatesAfter(before, next, launched, started + {name})
  {
  }

  /** `units` has the text that the registry gives back, `launched` the units whose desired state is launched. */
  class Cluster {
    var units: map<string, string>
    var states: map<string, string>
    var launched: set<string>
    ghost var log: seq<Effect>

    predicate Valid()
      reads this
    {
      launched <= units.Keys
    }

    /** The names of all units, in whatever order the registry gives them. */
    method List() returns (names: seq<string>)
      ensures Distinct(names) && ToSet(names) == units.Keys
    {
      names := [];
      var rest := units.Keys;
      while rest != {}
        invariant Distinct(names) && ToSet(names) !! rest && ToSet(names) + rest == units.Keys
        decreases rest
      {
        var name :| name in rest;
        assert ToSet(names + [name]) == ToSet(names) + {name};
        names := names + [name];
        rest := rest - {name};
      }
    }

    method StopUnit(name: string)
      modifies this`log
      ensures log == old(log) + [Stopped(name)]
    {
      log := log + [Stopped(name)];
    }

    /** Destroying a unit the registry does not have is not an error and has no effect. */
    method DestroyUnit(name: string)
      modifies this
      ensures units == old(units) - {name} && states == old(states) - {name} && launched == old(launched) - {name}
      ensures log == if name in old(units) then old(log) + [Destroyed(name)] else old(log)
    {
      if name in units {
        log := log + [Destroyed(name)];
      }
      units := units - {name};
      states := states - {name};
      launched := launched - {name};
    }

    /** The registry keeps the options of the unit file, and gives back the text printed from them. */
    method CreateUnit(name: string, content: string)
      requires name !in units && Stored(content).Some?
      modifies this`units, this`log
      ensures units == old(units)[name := Stored(content).value]
      ensures log == old(log) + [Created(name)]
    {
      units := units[name := Stored(content).value];
      log := log + [Created(name)];
    }

    /** The state a started unit ends up in is up to systemd. */
    method StartUnit(name: string)
      modifies this`states, this`launched, this`log
      ensures states.Keys == old(states.Keys) + {name} && launched == old(launched) + {name}
      ensures forall n :: n in old(states) && n != name ==> states[n] == old(states[n])
      ensures log == old(log) + [Started(name)]
    {
      var state: string := *;
      states := states[name := state];
      launched := launched + {name};
      log := log + [Started(name)];
    }

    /** Creates the units the registry does not have yet; a unit that exists keeps its content. */
    method LazyCreateUnits(list: seq<UnitData>) returns (ghost effects: seq<Effect>)
      requires Readable(list)
      modifies this`units, this`log
      ensures CreatedFrom(old(units), units, list)
      ensures log == old(log) + effects
      ensures forall e :: e in effects <==> e.Created? && e.name in Names(list) && e.name !in old(units)
    {
      effects := [];
      var names := Names(list);
      for i := 0 to |list|
        invariant CreatedFrom(old(units), units, list[..i])
        invariant log == old(log) + effects
        invariant forall e :: e in effects <==> e.Created? && e.name in names[..i] && e.name !in old(units)
      {
        var u := list[i];
        assert names[..i + 1] == names[..i] + [u.name] && Names(list[..i]) == names[..i] && u in list;
        CreateNext(old(units), units, list, i);
        if u.name !in units {
          CreateUnit(u.name, u.content);
          effects := effects + [Created(u.name)];
        }
      }
      assert names[..|list|] == names && list[..|list|] == list;
    }

    /** Sets the desired state of all units of the list; a unit that is launched already is skipped. */
    method LazyStartUnits(list: seq<UnitData>) returns (ghost effects: seq<Effect>)
      requires ToSet(Names(list)) <= units.Keys
      modifies this`states, this`launched, this`log
      ensures launched == old(launched) + ToSet(Names(list))
      ensures StatesAfter(old(states), states, old(launched), ToSet(Names(list)))
      ensures log == old(log) + effects
      ensures forall e :: e in effects <==> e.Started? && e.name in Names(list) && e.name !in old(launched)
    {
      hide StatesAfter;
      effects := [];
      var names := Names(list);
      NothingStarted(states, launched);
      assert ToSet(names[..0]) == {};
      for i := 0 to |list|
        invariant launched == old(launched) + ToSet(names[..i])
        invariant StatesAfter(old(states), states, old(launched), ToSet(names[..i]))
        invariant log == old(log) + effects
        invariant forall e :: e in effects <==> e.Started? && e.name in names[..i] && e.name !in old(launched)
      {
        assert names[..i + 1] == names[..i] + [names[i]];
        assert ToSet(names[..i + 1]) == ToSet(names[..i]) + {names[i]};
        ghost var now := states;
        if names[i] !in launched {
          StartUnit(names[i]);
          effects := effects + [Started(names[i])];
        }
        StartNext(old(states), now, states, old(launched), ToSet(names[..i]), names[i]);
      }
      assert names[..|list|] == names;
    }

    /** Start first creates what is missing, and then launches every unit of the list. */
    method Start(list: seq<UnitData>) returns (ghost effects: seq<Effect>)
      requires Valid() && Readable(list)
      modifies this
      ensures Valid() && CreatedFrom(old(units), units, list)
      ensures launched == old(launched) + ToSet(Names(list))
      ensures StatesAfter(old(states), states, old(launched), ToSet(Names(list)))
      ensures log == old(log) + effects
      ensures StartEffects(effects, ToSet(Names(list)), old(units.Keys), old(launched))
    {
      ghost var created := LazyCreateUnits(list);
      ghost var started := LazyStartUnits(list);
      effects := created + started;
      assert old(log) + created + started == old(log) + effects;
      CreatedBeforeStarted(created, started);
    }

    /**
    One step of a worker of destroyUnits: stop the next unit, give up stopping, or, once
    stopping is over, destroy the next unit. `run` is what all workers have done so far.
    */
    method StepWorker(w: Worker, ghost k: nat, ghost run: DestroyRun) returns (next: Worker, ghost after: DestroyRun)
      requires w.Valid() && !w.Done() && ToSet(w.list) <= run.names && w.Gone() <= run.gone
      requires run.Holds(log, units, states, launched) && run.Of(k, w)
      modifies this
      ensures next.Valid() && next.list == w.list && next.Remaining() < w.Remaining()
      ensures run.Extends(after) && next.Gone() <= after.gone
      ensures after.Holds(log, units, states, launched) && after.Of(k, next)
      ensures run.GrownBy(k, after)
    {
      hide DestroyEffects, StopsFirst, WorkerDid, Grown;
      after := run;
      if w.stopped < |w.list| {
        var giveUp: bool := *;
        if giveUp {
          next := w.(stopped := |w.list|);
          WorkerGivesUp(run.effects, run.who, k, w);
        } else {
          assert w.list[w.stopped] in ToSet(w.list);
          StopNext(run.effects, run.names, run.gone, run.units.Keys, w.list[w.stopped]);
          StopUnit(w.list[w.stopped]);
          after := run.(effects := run.effects + [Stopped(w.list[w.stopped])], who := run.who + [k]);
          WorkerStops(run.effects, run.who, k, w);
          assert run.log + run.effects + [Stopped(w.list[w.stopped])] == run.log + after.effects;
          next := w.(stopped := w.stopped + 1);
        }
      } else {
        var name := w.list[w.destroyed];
        next := w.(destroyed := w.destroyed + 1);
        assert w.list[..next.destroyed] == w.list[..w.destroyed] + [name];
        assert next.Gone() == w.Gone() + {name};
        assert name in ToSet(w.list);
        DestroyNext(run.effects, run.names, run.gone, run.units.Keys, name);
        after := run.(effects := if name in units then run.effects + [Destroyed(name)] else run.effects,
                      who := if name in units then run.who + [k] else run.who, gone := run.gone + {name});
        WorkerDestroys(run.effects, run.who, k, w, name in units);
        RemoveNext(run.units, run.gone, name);
        RemoveNext(run.states, run.gone, name);
        assert run.launched - run.gone - {name} == run.launched - (run.gone + {name});
        assert run.log + run.effects + [Destroyed(name)] == run.log + (run.effects + [Destroyed(name)]);
        DestroyUnit(name);
      }
    }

    /**
    destroyUnits runs three workers side by side. Each first stops the units of its own list, a
    stop that may be given up halfway, and then destroys them one by one. The loop picks the
    worker that makes the next step freely, so what it establishes holds for every interleaving,
    also when the lists overlap.
    */
    method DestroyUnits(modified: seq<string>, failed: seq<string>, obsolete: seq<string>) returns (ghost effects: seq<Effect>, ghost who: seq<nat>)
      requires Valid()
      modifies this
      ensures StopsFirst(effects, who)
      ensures forall x :: 0 <= x < |effects| ==> who[x] < 3 && effects[x].name in [modified, failed, obsolete][who[x]]
      ensures Valid() && units == old(units) - ToSet(modified + failed + obsolete)
      ensures states == old(states) - ToSet(modified + failed + obsolete)
      ensures launched == old(launched) - ToSet(modified + failed + obsolete)
      ensures log == old(log) + effects
      ensures DestroyEffects(effects, ToSet(modified + failed + obsolete), ToSet(modified + failed + obsolete), old(units.Keys))
    {
      hide DestroyEffects, StopsFirst, WorkerDid, Grown;
      NoEffects(ToSet(modified + failed + obsolete), units.Keys);
      var a, b, c := Worker(modified, 0, 0), Worker(failed, 0, 0), Worker(obsolete, 0, 0);
      ghost var names := ToSet(modified + failed + obsolete);
      assert names == ToSet(modified) + ToSet(failed) + ToSet(obsolete);
      ghost var start := DestroyRun(log, units, states, launched, names, [], [], {});
      ghost var run := start;
      NewTeam(a, b, c);
      while !a.Done() || !b.Done() || !c.Done()
        invariant a.Valid() && b.Valid() && c.Valid()
        invariant a.list == modified && b.list == failed && c.list == obsolete
        invariant a.Gone() <= run.gone && b.Gone() <= run.gone && c.Gone() <= run.gone
        invariant start.Extends(run) && run.Holds(log, units, states, launched)
        invariant run.Team(a, b, c)
        decreases a.Remaining() + b.Remaining() + c.Remaining()
      {
        ghost var before := run;
        if {
          case !a.Done() =>
            ghost var was := a;
            a, run := StepWorker(a, 0, run);
            TeamStep(before.effects, before.who, 0, was, b, c, run.effects, run.who, a);
          case !b.Done() =>
            ghost var was := b;
            b, run := StepWorker(b, 1, run);
            TeamStep(before.effects, before.who, 1, a, was, c, run.effects, run.who, b);
          case !c.Done() =>
            ghost var was := c;
            c, run := StepWorker(c, 2, run);
            TeamStep(before.effects, before.who, 2, a, b, was, run.effects, run.who, c);
        }
      }
      TeamNames(run.effects, run.who, a, b, c);
      a.AllGone();
      b.AllGone();
      c.AllGone();
      assert run.gone == names;
      effects, who := run.effects, run.who;
    }
  }

  /** The cluster before destroyUnits, and what its workers have done so far. */
  datatype DestroyRun = DestroyRun(log: seq<Effect>, units: map<string, string>, states: map<string, string>,
                                   launched: set<string>, names: set<string>, effects: seq<Effect>, who: seq<nat>, gone: set<string>)
  {
    ghost predicate Of(k: nat, w: Worker) { WorkerDid(effects, who, k, w) }

    /** The workers with the lists of modified, failed and obsolete units are 0, 1 and 2. */
    ghost predicate Team(a: Worker, b: Worker, c: Worker) { TeamDid(effects, who, a, b, c) }

    ghost predicate GrownBy(k: nat, after: DestroyRun) { Grown(effects, who, k, after.effects, after.who) }

    ghost predicate Holds(logNow: seq<Effect>, unitsNow: map<string, string>, statesNow: map<string, string>,
                          launchedNow: set<string>) {
      && logNow == log + effects
      && unitsNow == units - gone
      && statesNow == states - gone && launchedNow == launched - gone
      && gone <= names && StopsFirst(effects, who)
      && DestroyEffects(effects, names, gone, units.Keys)
    }

    ghost predicate Extends(later: DestroyRun) {
      later == this.(effects := later.effects, who := later.who, gone := later.gone) && gone <= later.gone
    }
  }

  /** Each worker, given by number for each effect, stops units first and destroys units then. */
  ghost predicate StopsFirst(effects: seq<Effect>, who: seq<nat>) {
    && |who| == |effects|
    && forall x, y :: 0 <= x < y < |effects| && who[x] == who[y] && effects[y].Stopped? ==> effects[x].Stopped?
  }

  /** What worker k has done so far: on units of its list, and destroying none before it was through with stopping. */
  ghost predicate WorkerDid(effects: seq<Effect>, who: seq<nat>, k: nat, w: Worker) {
    && |who| == |effects|
    && forall x :: 0 <= x < |effects| && who[x] == k ==>
         effects[x].name in w.list && (effects[x].Stopped? || (effects[x].Destroyed? && w.stopped >= |w.list|))
  }

  ghost predicate TeamDid(effects: seq<Effect>, who: seq<nat>, a: Worker, b: Worker, c: Worker) {
    && WorkerDid(effects, who, 0, a) && WorkerDid(effects, who, 1, b) && WorkerDid(effects, who, 2, c)
    && forall x :: 0 <= x < |who| ==> who[x] < 3
  }

  /** Nothing has been added but one effect of worker k at most. */
  ghost predicate Grown(effects: seq<Effect>, who: seq<nat>, k: nat, more: seq<Effect>, whoMore: seq<nat>) {
    || (more == effects && whoMore == who)
    || (whoMore == who + [k] && |more| == |effects| + 1 && more[..|effects|] == effects)
  }

  lemma RemoveNext(m: map<string, string>, gone: set<string>, name: string)
    ensures m - gone - {name} == m - (gone + {name})
  {
  }

  lemma WorkerStops(effects: seq<Effect>, who: seq<nat>, k: nat, w: Worker)
    requires StopsFirst(effects, who) && WorkerDid(effects, who, k, w) && w.stopped < |w.list|
    ensures var more, whoMore := effects + [Stopped(w.list[w.stopped])], who + [k];
            && StopsFirst(more, whoMore) && WorkerDid(more, whoMore, k, w.(stopped := w.stopped + 1))
            && Grown(effects, who, k, more, whoMore)
  {
    assert (effects + [Stopped(w.list[w.stopped])])[..|effects|] == effects;
  }

  lemma WorkerGivesUp(effects: seq<Effect>, who: seq<nat>, k: nat, w: Worker)
    requires WorkerDid(effects, who, k, w)
    ensures WorkerDid(effects, who, k, w.(stopped := |w.list|)) && Grown(effects, who, k, effects, who)
  {
  }

  lemma WorkerDestroys(effects: seq<Effect>, who: seq<nat>, k: nat, w: Worker, there: bool)
    requires StopsFirst(effects, who) && WorkerDid(effects, who, k, w) && w.stopped >= |w.list| && w.destroyed < |w.list|
    ensures var more := if there then effects + [Destroyed(w.list[w.destroyed])] else effects;
            var whoMore := if there then who + [k] else who;
            && StopsFirst(more, whoMore) && WorkerDid(more, whoMore, k, w.(destroyed := w.destroyed + 1))
            && Grown(effects, who, k, more, whoMore)
  {
    assert (effects + [Destroyed(w.list[w.destroyed])])[..|effects|] == effects;
  }

  lemma OtherWorker(effects: seq<Effect>, who: seq<nat>, k: nat, more: seq<Effect>, whoMore: seq<nat>, j: nat, v: Worker)
    requires Grown(effects, who, k, more, whoMore) && j != k && WorkerDid(effects, who, j, v)
    ensures WorkerDid(more, whoMore, j, v)
  {
    forall x | 0 <= x < |more| && whoMore[x] == j
      ensures more[x].name in v.list && (more[x].Stopped? || (more[x].Destroyed? && v.stopped >= |v.list|))
    {
      assert x < |effects| && more[x] == more[..|effects|][x];
    }
  }

  /** A step of worker k, after which it is `next`. */
  lemma TeamStep(effects: seq<Effect>, who: seq<nat>, k: nat, a: Worker, b: Worker, c: Worker,
                 more: seq<Effect>, whoMore: seq<nat>, next: Worker)
    requires TeamDid(effects, who, a, b, c) && k < 3 && Grown(effects, who, k, more, whoMore) && WorkerDid(more, whoMore, k, next)
    ensures TeamDid(more, whoMore, if k == 0 then next else a, if k == 1 then next else b, if k == 2 then next else c)
  {
    hide WorkerDid;
    if k != 0 { OtherWorker(effects, who, k, more, whoMore, 0, a); }
    if k != 1 { OtherWorker(effects, who, k, more, whoMore, 1, b); }
    if k != 2 { OtherWorker(effects, who, k, more, whoMore, 2, c); }
  }

  lemma TeamNames(effects: seq<Effect>, who: seq<nat>, a: Worker, b: Worker, c: Worker)
    requires TeamDid(effects, who, a, b, c)
    ensures |who| == |effects| && forall x :: 0 <= x < |effects| ==> who[x] < 3 && effects[x].name in [a.list, b.list, c.list][who[x]]
  {
  }

  lemma NewTeam(a: Worker, b: Worker, c: Worker)
    ensures TeamDid([], [], a, b, c)
  {
  }

  lemma NoEffects(names: set<string>, before: set<string>)
    ensures StopsFirst([], []) && DestroyEffects([], names, {}, before)
  {
  }

  /** The effects stop or destroy units of `names` only, and destroy those of `gone` that existed. */
  ghost predicate DestroyEffects(effects: seq<Effect>, names: set<string>, gone: set<string>, before: set<string>) {
    && (forall e :: e in effects ==> (e.Stopped? || e.Destroyed?) && e.name in names)
    && (forall n :: Destroyed(n) in effects <==> n in gone && n in before)
  }

  lemma StopNext(effects: seq<Effect>, names: set<string>, gone: set<string>, before: set<string>, name: string)
    requires DestroyEffects(effects, names, gone, before) && name in names
    ensures DestroyEffects(effects + [Stopped(name)], names, gone, before)
  {
  }

  lemma DestroyNext(effects: seq<Effect>, names: set<string>, gone: set<string>, before: set<string>, name: string)
    requires DestroyEffects(effects, names, gone, before) && name in names
    ensures DestroyEffects(if name in before - gone then effects + [Destroyed(name)] else effects, names, gone + {name}, before)
  {
  }

  /** What is missing is created, what is not launched is started, and creating comes first. */
  ghost predicate StartEffects(effects: seq<Effect>, names: set<string>, before: set<string>, launched: set<string>) {
    && (forall e :: e in effects <==>
          e.name in names && ((e.Created? && e.name !in before) || (e.Started? && e.name !in launched)))
    && (forall i, j :: 0 <= i < j < |effects| && effects[j].Created? ==> effects[i].Created?)
  }

  lemma CreatedBeforeStarted(created: seq<Effect>, started: seq<Effect>)
    requires forall e :: e in created ==> e.Created?
    requires forall e :: e in started ==> e.Started?
    ensures forall i, j :: 0 <= i < j < |created + started| && (created + started)[j].Created? ==>
              (created + started)[i].Created?
  {
    var all := created + started;
    forall j | |created| <= j < |all| ensures all[j].Started? {
      assert all[j] in started;
    }
    forall i | 0 <= i < |created| ensures all[i].Created? {
      assert all[i] in created;
    }
  }

  /** How far a worker of destroyUnits has come with its list. */
  datatype Worker = Worker(list: seq<string>, stopped: nat, destroyed: nat) {
    predicate Valid() { destroyed <= |list| && stopped <= |list| }
    predicate Done() { destroyed >= |list| }
    function Remaining(): int { 2 * |list| - stopped - destroyed }

    ghost function Gone(): set<string>
      requires Valid()
    {
      ToSet(list[..destroyed])
    }

    lemma AllGone()
      requires Valid() && Done()
      ensures Gone() == ToSet(list)
    {
      assert list[..destroyed] == list;
    }
  }
}
