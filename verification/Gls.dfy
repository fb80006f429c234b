/**
Goroutine-local storage, upper half: context managers keep values by tag, and goroutines that
interleave in any way each see the values of the SetValues calls they are inside of.
*/
module Gls {
  import opened Wrappers
  import opened GlsTags

  type Values = map<string, string>

  /** What one manager keeps: values by tag. A store lists this for all managers. */
  type Store = seq<map<nat, Values>>

  datatype Context = Context(manager: nat, tag: nat)

  /** A function call in progress: the stack to return to, and the tag if it is a SetValues that made one. */
  datatype Call = Call(below: Stack, context: Option<Context>)

  /** Innermost call first. `pending` are the SetValues that Go wrapped around the start of the goroutine,
      `leaving` is a tag removed from its manager but not yet back in the pool. */
  datatype Goroutine = Goroutine(stack: Stack, calls: seq<Call>, pending: seq<(nat, Values)>, leaving: Option<nat>)

  // ----- What a goroutine should see: dynamic scoping -----

  /** The innermost binding of the key among the calls of this manager; given[i] is what call i sets. */
  function Lookup(calls: seq<Call>, given: seq<Values>, m: nat, key: string): Option<string>
    requires |given| == |calls|
  {
    if calls == [] then None
    else if IsOf(calls[0], m) && key in given[0] then Some(given[0][key])
    else Lookup(calls[1..], given[1..], m, key)
  }

  predicate IsOf(call: Call, m: nat) {
    call.context.Some? && call.context.value.manager == m
  }

  /** All bindings of the calls of this manager, inner ones over outer ones. */
  function Env(calls: seq<Call>, given: seq<Values>, m: nat): Values
    requires |given| == |calls|
  {
    if calls == [] then map[]
    else if IsOf(calls[0], m) then Env(calls[1..], given[1..], m) + given[0]
    else Env(calls[1..], given[1..], m)
  }

  function Find(values: Values, key: string): Option<string> {
    if key in values then Some(values[key]) else None
  }

  lemma {:induction false} EnvIsLookup(calls: seq<Call>, given: seq<Values>, m: nat, key: string)
    requires |given| == |calls|
    ensures Find(Env(calls, given, m), key) == Lookup(calls, given, m, key)
  {
    if calls != [] { EnvIsLookup(calls[1..], given[1..], m, key); }
  }

  lemma LookupInside(call: Call, calls: seq<Call>, values: Values, given: seq<Values>)
    requires |given| == |calls|
    ensures forall m, key ::
              (Lookup([call] + calls, [values] + given, m, key)
               == if IsOf(call, m) && key in values then Some(values[key]) else Lookup(calls, given, m, key))
  {
    assert ([call] + calls)[1..] == calls && ([values] + given)[1..] == given;
  }

  // ----- What it does see: the first tag its manager knows -----

  function TagsOf(calls: seq<Call>): seq<nat> {
    if calls == [] then []
    else (if calls[0].context.Some? then [calls[0].context.value.tag] else []) + TagsOf(calls[1..])
  }

  function FirstIn(tags: seq<nat>, values: map<nat, Values>): Option<Values> {
    if tags == [] then None
    else if tags[0] in values then Some(values[tags[0]])
    else FirstIn(tags[1..], values)
  }

  /** The stored values of every call are its own over the ones it was called with. */
  ghost predicate Matches(calls: seq<Call>, given: seq<Values>, store: Store) {
    && |given| == |calls|
    && (calls != [] ==>
          && Tags(calls[0].below, 0) == TagsOf(calls[1..])
          && (calls[0].context.Some? ==> MatchesFirst(calls, given, store))
          && Matches(calls[1..], given[1..], store))
  }

  ghost predicate MatchesFirst(calls: seq<Call>, given: seq<Values>, store: Store)
    requires |given| == |calls| && |calls| > 0 && calls[0].context.Some?
  {
    var c := calls[0].context.value;
    && c.manager < |store| && c.tag !in TagsOf(calls[1..])
    && (forall m :: 0 <= m < |store| ==> (c.tag in store[m] <==> m == c.manager))
    && store[c.manager][c.tag] == Env(calls, given, c.manager)
  }

  lemma {:induction false} FirstIsEnv(calls: seq<Call>, given: seq<Values>, store: Store, m: nat)
    requires Matches(calls, given, store) && m < |store|
    ensures var first := FirstIn(TagsOf(calls), store[m]);
            Env(calls, given, m) == if first.Some? then first.value else map[]
  {
    if calls != [] {
      FirstIsEnv(calls[1..], given[1..], store, m);
      if calls[0].context.Some? {
        assert TagsOf(calls)[1..] == TagsOf(calls[1..]);
      } else {
        assert TagsOf(calls) == TagsOf(calls[1..]);
      }
    }
  }

  /** The two stores agree on the tags of the calls. */
  ghost predicate Agree(store: Store, other: Store, tags: seq<nat>) {
    && |store| == |other|
    && forall m, t :: 0 <= m < |store| && t in tags ==>
         (t in store[m] <==> t in other[m]) && (t in store[m] ==> store[m][t] == other[m][t])
  }

  lemma {:induction false} MatchesFrame(calls: seq<Call>, given: seq<Values>, store: Store, other: Store)
    requires Matches(calls, given, store) && Agree(store, other, TagsOf(calls))
    ensures Matches(calls, given, other)
  {
    if calls != [] {
      assert forall t :: t in TagsOf(calls[1..]) ==> t in TagsOf(calls);
      MatchesFrame(calls[1..], given[1..], store, other);
      if calls[0].context.Some? {
        var c := calls[0].context.value;
        assert TagsOf(calls)[0] == c.tag && c.tag in TagsOf(calls);
        assert MatchesFirst(calls, given, store);
        assert MatchesFirst(calls, given, other);
      }
    }
  }

  // ----- All goroutines -----

  ghost predicate GoroutineOk(g: Goroutine, given: seq<Values>, store: Store) {
    && Matches(g.calls, given, store)
    && Tags(g.stack, 0) == TagsOf(g.calls)
    && (g.leaving.Some? ==> g.leaving.value !in TagsOf(g.calls) && forall m :: 0 <= m < |store| ==> g.leaving.value !in store[m])
    && forall i :: 0 <= i < |g.pending| ==> g.pending[i].0 < |store| && g.pending[i].1 != map[]
  }

  ghost predicate Holds(g: Goroutine, tag: nat) {
    tag in TagsOf(g.calls) || g.leaving == Some(tag)
  }

  /** Each tag taken from the pool is held by exactly one goroutine, and the store has values for no other tags. */
  ghost predicate Owned(gs: map<nat, Goroutine>, store: Store, owner: map<nat, nat>) {
    && (forall g, t :: g in gs && Holds(gs[g], t) ==> t in owner && owner[t] == g)
    && (forall t :: t in owner ==> owner[t] in gs && Holds(gs[owner[t]], t))
    && (forall m, t :: 0 <= m < |store| && t in store[m] ==> t in owner)
  }

  /** The state of all goroutines, the store and the pool fit together. */
  ghost predicate Consistent(gs: map<nat, Goroutine>, given: map<nat, seq<Values>>, store: Store, owner: map<nat, nat>) {
    && given.Keys == gs.Keys
    && (forall g :: g in gs ==> GoroutineOk(gs[g], given[g], store))
    && Owned(gs, store, owner)
  }

  lemma AreAligned(gs: map<nat, Goroutine>, given: map<nat, seq<Values>>, store: Store, owner: map<nat, nat>, g: nat)
    requires Consistent(gs, given, store, owner) && g in gs
    ensures gs.Keys == given.Keys && |given[g]| == |gs[g].calls|
  {
  }

  lemma OwnedAfter(gs: map<nat, Goroutine>, store: Store, owner: map<nat, nat>, g: nat, h: Goroutine, other: Store, after: map<nat, nat>)
    requires Owned(gs, store, owner) && g in gs
    requires forall t :: Holds(h, t) <==> t in after && after[t] == g
    requires forall t :: t in after && after[t] != g ==> t in owner && owner[t] == after[t]
    requires forall t :: t in owner && owner[t] != g ==> t in after && owner[t] == after[t]
    requires forall m, t :: 0 <= m < |other| && t in other[m] ==> t in after
    ensures Owned(gs[g := h], other, after)
  {
    hide Holds;
  }

  /** The stores differ in the values of one tag at most. */
  ghost predicate SameBut(store: Store, other: Store, tag: nat) {
    && |other| == |store|
    && forall m, t :: 0 <= m < |store| && t != tag ==>
         (t in store[m] <==> t in other[m]) && (t in store[m] ==> store[m][t] == other[m][t])
  }

  lemma OthersAgree(g: Goroutine, given: seq<Values>, store: Store, other: Store, tag: nat)
    requires GoroutineOk(g, given, store) && !Holds(g, tag) && SameBut(store, other, tag)
    ensures GoroutineOk(g, given, other)
  {
    MatchesFrame(g.calls, given, store, other);
  }

  /** A step of goroutine g on a tag that no other goroutine holds leaves the others as they should be. */
  lemma StepOf(gs: map<nat, Goroutine>, given: map<nat, seq<Values>>, store: Store, owner: map<nat, nat>,
               g: nat, other: Store, tag: nat)
    requires Consistent(gs, given, store, owner) && SameBut(store, other, tag)
    requires tag in owner ==> owner[tag] == g
    ensures forall o :: o in gs && o != g ==> GoroutineOk(gs[o], given[o], other)
  {
    forall o | o in gs && o != g ensures GoroutineOk(gs[o], given[o], other) {
      OthersAgree(gs[o], given[o], store, other, tag);
    }
  }

  function Put(store: Store, m: nat, tag: nat, values: Values): Store
    requires m < |store|
  {
    var changed: map<nat, Values> := store[m][tag := values];
    store[m := changed]
  }

  /** The state after goroutine g entered SetValues of manager m with a new tag. */
  ghost predicate Entered(g: Goroutine, h: Goroutine, m: nat, tag: nat) {
    && h.calls == [Call(g.stack, Some(Context(m, tag)))] + g.calls
    && h.stack == AddStackTag(tag, g.stack) && g.leaving == h.leaving == None
  }

  lemma EnterGoroutine(g: Goroutine, h: Goroutine, given: seq<Values>, store: Store, other: Store,
                       m: nat, tag: nat, values: Values)
    requires GoroutineOk(g, given, store) && Entered(g, h, m, tag) && m < |store| && tag < UINT_LIMIT
    requires forall n :: 0 <= n < |store| ==> tag !in store[n]
    requires tag !in TagsOf(g.calls)
    requires other == Put(store, m, tag, Env(g.calls, given, m) + values)
    requires forall i :: 0 <= i < |h.pending| ==> h.pending[i] in g.pending
    ensures GoroutineOk(h, [values] + given, other)
  {
    MatchesFrame(g.calls, given, store, other);
    TagReadsBack(tag, g.stack);
    assert h.calls[1..] == g.calls && ([values] + given)[1..] == given;
    assert MatchesFirst(h.calls, [values] + given, other);
  }

  lemma TagsAfterEnter(g: Goroutine, h: Goroutine, m: nat, tag: nat)
    requires Entered(g, h, m, tag)
    ensures forall t :: Holds(h, t) <==> t == tag || Holds(g, t)
  {
    assert h.calls[1..] == g.calls;
  }

  lemma EnterOwned(gs: map<nat, Goroutine>, store: Store, owner: map<nat, nat>, g: nat, h: Goroutine, m: nat, tag: nat, values: Values)
    requires Owned(gs, store, owner) && g in gs && Entered(gs[g], h, m, tag) && m < |store| && tag !in owner
    ensures Owned(gs[g := h], Put(store, m, tag, values), owner[tag := g])
  {
    TagsAfterEnter(gs[g], h, m, tag);
    OwnedAfter(gs, store, owner, g, h, Put(store, m, tag, values), owner[tag := g]);
  }

  /** Entering SetValues keeps the state consistent. */
  lemma EnterKeepsConsistent(gs: map<nat, Goroutine>, given: map<nat, seq<Values>>, store: Store, owner: map<nat, nat>,
                             g: nat, h: Goroutine, m: nat, tag: nat, values: Values)
    requires Consistent(gs, given, store, owner) && g in gs && Entered(gs[g], h, m, tag)
    requires m < |store| && tag < UINT_LIMIT && tag !in owner
    requires forall i :: 0 <= i < |h.pending| ==> h.pending[i] in gs[g].pending
    ensures Consistent(gs[g := h], given[g := [values] + given[g]],
                       Put(store, m, tag, Env(gs[g].calls, given[g], m) + values), owner[tag := g])
  {
    var other := Put(store, m, tag, Env(gs[g].calls, given[g], m) + values);
    EnterGoroutine(gs[g], h, given[g], store, other, m, tag, values);
    StepOf(gs, given, store, owner, g, other, tag);
    EnterOwned(gs, store, owner, g, h, m, tag, Env(gs[g].calls, given[g], m) + values);
  }

  /** The state after goroutine g returned from its innermost call. */
  ghost predicate Returned(g: Goroutine, h: Goroutine) {
    && g.calls != [] && h.calls == g.calls[1..] && h.stack == g.calls[0].below && g.leaving == None
    && h.leaving == (if g.calls[0].context.Some? then Some(g.calls[0].context.value.tag) else None)
    && h.pending == g.pending
  }

  function Without(store: Store, context: Option<Context>): Store
    requires context.Some? ==> context.value.manager < |store|
  {
    if context.None? then store
    else store[context.value.manager := store[context.value.manager] - {context.value.tag}]
  }

  lemma ReturnGoroutine(g: Goroutine, h: Goroutine, given: seq<Values>, store: Store)
    requires GoroutineOk(g, given, store) && Returned(g, h)
    ensures GoroutineOk(h, given[1..], Without(store, g.calls[0].context))
  {
    var other := Without(store, g.calls[0].context);
    MatchesFrame(g.calls[1..], given[1..], store, other);
  }

  lemma ReturnOwned(gs: map<nat, Goroutine>, store: Store, owner: map<nat, nat>, g: nat, h: Goroutine)
    requires Owned(gs, store, owner) && g in gs && Returned(gs[g], h)
    requires gs[g].calls[0].context.Some? ==> gs[g].calls[0].context.value.manager < |store|
    ensures Owned(gs[g := h], Without(store, gs[g].calls[0].context), owner)
  {
    assert forall t :: Holds(h, t) <==> Holds(gs[g], t);
    OwnedAfter(gs, store, owner, g, h, Without(store, gs[g].calls[0].context), owner);
  }

  /** Returning, with the removal of the tag from its manager, keeps the state consistent. */
  lemma ReturnKeepsConsistent(gs: map<nat, Goroutine>, given: map<nat, seq<Values>>, store: Store, owner: map<nat, nat>,
                              g: nat, h: Goroutine)
    requires Consistent(gs, given, store, owner) && g in gs && Returned(gs[g], h)
    ensures gs[g].calls[0].context.Some? ==> gs[g].calls[0].context.value.manager < |store|
    ensures |given[g]| > 0
    ensures Consistent(gs[g := h], given[g := given[g][1..]], Without(store, gs[g].calls[0].context), owner)
  {
    assert GoroutineOk(gs[g], given[g], store);
    ReturnGoroutine(gs[g], h, given[g], store);
    var context := gs[g].calls[0].context;
    if context.Some? {
      assert Holds(gs[g], context.value.tag);
      StepOf(gs, given, store, owner, g, Without(store, context), context.value.tag);
    }
    ReturnOwned(gs, store, owner, g, h);
  }

  lemma ReleaseGoroutine(g: Goroutine, given: seq<Values>, store: Store)
    requires GoroutineOk(g, given, store) && g.leaving.Some?
    ensures GoroutineOk(g.(leaving := None), given, store)
    ensures Holds(g, g.leaving.value) && forall m :: 0 <= m < |store| ==> g.leaving.value !in store[m]
    ensures forall t :: Holds(g.(leaving := None), t) <==> Holds(g, t) && t != g.leaving.value
  {
  }

  lemma ReleaseOwned(gs: map<nat, Goroutine>, store: Store, owner: map<nat, nat>, g: nat, h: Goroutine, tag: nat)
    requires Owned(gs, store, owner) && g in gs && Holds(gs[g], tag) && forall t :: Holds(h, t) <==> Holds(gs[g], t) && t != tag
    requires forall m :: 0 <= m < |store| ==> tag !in store[m]
    ensures Owned(gs[g := h], store, owner - {tag})
  {
    OwnedAfter(gs, store, owner, g, h, store, owner - {tag});
  }

  lemma ReleaseKeepsConsistent(gs: map<nat, Goroutine>, given: map<nat, seq<Values>>, store: Store, owner: map<nat, nat>, g: nat)
    requires Consistent(gs, given, store, owner) && g in gs && gs[g].leaving.Some?
    ensures Consistent(gs[g := gs[g].(leaving := None)], given, store, owner - {gs[g].leaving.value})
  {
    var tag, h := gs[g].leaving.value, gs[g].(leaving := None);
    ReleaseGoroutine(gs[g], given[g], store);
    ReleaseOwned(gs, store, owner, g, h, tag);
  }

  /** When no goroutine is inside a call or leaving one, nothing is left behind anywhere. */
  lemma NothingLeftBehind(gs: map<nat, Goroutine>, given: map<nat, seq<Values>>, store: Store, owner: map<nat, nat>)
    requires Consistent(gs, given, store, owner)
    requires forall g :: g in gs ==> gs[g].calls == [] && gs[g].leaving == None
    ensures owner == map[] && forall m :: 0 <= m < |store| ==> store[m] == map[]
  {
    assert forall g, t :: g in gs ==> !Holds(gs[g], t);
    assert owner.Keys == {};
    assert forall m :: 0 <= m < |store| ==> store[m].Keys == {};
  }

  // ----- Starting goroutines -----

  /** The values of manager m once the pending SetValues have been entered on top of `base`. */
  function PendingEnv(base: Values, pending: seq<(nat, Values)>, m: nat): Values
    decreases |pending|
  {
    if pending == [] then base
    else PendingEnv(if pending[0].0 == m then base + pending[0].1 else base, pending[1..], m)
  }

  lemma {:induction false} NotPending(base: Values, pending: seq<(nat, Values)>, m: nat)
    requires forall i :: 0 <= i < |pending| ==> pending[i].0 != m
    ensures PendingEnv(base, pending, m) == base
    decreases |pending|
  {
    if pending != [] { NotPending(base, pending[1..], m); }
  }

  /** What manager m gives goroutine g, once it has entered all that Go wrapped around it. */
  function Seen(g: Goroutine, given: seq<Values>, m: nat): Values
    requires |given| == |g.calls|
  {
    PendingEnv(Env(g.calls, given, m), g.pending, m)
  }

  lemma StartKeepsConsistent(gs: map<nat, Goroutine>, given: map<nat, seq<Values>>, store: Store, owner: map<nat, nat>, g: nat, h: Goroutine)
    requires Consistent(gs, given, store, owner) && g !in gs && h.stack == [] && h.calls == [] && h.leaving == None
    requires forall i :: 0 <= i < |h.pending| ==> h.pending[i].0 < |store| && h.pending[i].1 != map[]
    ensures Consistent(gs[g := h], given[g := []], store, owner)
  {
    assert forall t :: !Holds(h, t);
    StartOwned(gs, store, owner, g, h);
  }

  lemma StartsConsistent(store: Store)
    requires forall m :: 0 <= m < |store| ==> store[m] == map[]
    ensures Consistent(map[0 := Goroutine([], [], [], None)], map[0 := []], store, map[])
  {
  }

  lemma StartOwned(gs: map<nat, Goroutine>, store: Store, owner: map<nat, nat>, g: nat, h: Goroutine)
    requires Owned(gs, store, owner) && g !in gs && forall t :: !Holds(h, t)
    ensures Owned(gs[g := h], store, owner)
  {
    hide Holds;
  }

  lemma CallGoroutine(g: Goroutine, h: Goroutine, given: seq<Values>, store: Store)
    requires GoroutineOk(g, given, store)
    requires h == Goroutine([Other] + g.stack, [Call(g.stack, None)] + g.calls, g.pending, g.leaving)
    ensures GoroutineOk(h, [map[]] + given, store) && forall t :: Holds(h, t) <==> Holds(g, t)
  {
    assert h.calls[1..] == g.calls && ([map[]] + given)[1..] == given;
    OtherFramesAreSkipped(g.stack);
  }

  lemma CallKeepsConsistent(gs: map<nat, Goroutine>, given: map<nat, seq<Values>>, store: Store, owner: map<nat, nat>, g: nat, h: Goroutine)
    requires Consistent(gs, given, store, owner) && g in gs
    requires h == Goroutine([Other] + gs[g].stack, [Call(gs[g].stack, None)] + gs[g].calls, gs[g].pending, gs[g].leaving)
    ensures Consistent(gs[g := h], given[g := [map[]] + given[g]], store, owner)
  {
    CallGoroutine(gs[g], h, given[g], store);
    OwnedAfter(gs, store, owner, g, h, store, owner);
  }

  lemma ExitKeepsConsistent(gs: map<nat, Goroutine>, given: map<nat, seq<Values>>, store: Store, owner: map<nat, nat>, g: nat)
    requires Consistent(gs, given, store, owner) && g in gs && gs[g].calls == [] && gs[g].leaving == None
    ensures Consistent(gs - {g}, given - {g}, store, owner)
  {
    assert forall t :: !Holds(gs[g], t);
    ExitOwned(gs, store, owner, g);
  }

  lemma ExitOwned(gs: map<nat, Goroutine>, store: Store, owner: map<nat, nat>, g: nat)
    requires Owned(gs, store, owner) && g in gs && forall t :: !Holds(gs[g], t)
    ensures Owned(gs - {g}, store, owner)
  {
    hide Holds;
  }

  lemma LeavingIsOwned(gs: map<nat, Goroutine>, given: map<nat, seq<Values>>, store: Store, owner: map<nat, nat>, g: nat)
    requires Consistent(gs, given, store, owner) && g in gs && gs[g].leaving.Some?
    ensures gs[g].leaving.value in owner
  {
    assert Holds(gs[g], gs[g].leaving.value);
  }

  lemma PendingIsKnown(gs: map<nat, Goroutine>, given: map<nat, seq<Values>>, store: Store, owner: map<nat, nat>, g: nat)
    requires Consistent(gs, given, store, owner) && g in gs
    ensures forall i :: 0 <= i < |gs[g].pending| ==> gs[g].pending[i].0 < |store|
  {
    assert GoroutineOk(gs[g], given[g], store);
  }

  lemma EmptyEnv()
    ensures forall m :: Env([], [], m) == map[]
  {
  }

  // ----- The managers and the goroutines as they run -----

  class ContextManager {
    var values: map<nat, Values>

    constructor ()
      ensures values == map[]
    {
      values := map[];
    }

    /** The values under the first tag this manager knows. */
    method FirstOf(tags: seq<nat>) returns (r: Option<Values>)
      ensures r == FirstIn(tags, values)
    {
      for i := 0 to |tags|
        invariant FirstIn(tags, values) == FirstIn(tags[i..], values)
      {
        if tags[i] in values { return Some(values[tags[i]]); }
      }
      r := None;
    }
  }

  /** What a goroutine can do next. */
  datatype Step =
    | DoCall(g: nat) | DoSetValues(g: nat, m: nat, values: Values) | DoReturn(g: nat) | DoRelease(g: nat)
    | DoGo(g: nat, child: nat) | DoPlainGo(g: nat, child: nat) | DoEnterPending(g: nat) | DoExit(g: nat)
    | DoUnregister(m: nat)

  class World {
    const pool: IdPool
    const managers: seq<ContextManager>
    var registered: set<nat>
    var goroutines: map<nat, Goroutine>
    ghost var given: map<nat, seq<Values>>
    ghost var owner: map<nat, nat>

    /** A process with one goroutine and with these managers, all of them registered. */
    constructor (managers: seq<ContextManager>)
      requires forall i, j :: 0 <= i < j < |managers| ==> managers[i] != managers[j]
      requires forall i :: 0 <= i < |managers| ==> managers[i].values == map[]
      ensures Valid() && this.managers == managers && goroutines == map[0 := Goroutine([], [], [], None)]
      ensures registered == Below(|managers|)
    {
      pool := new IdPool();
      this.managers := managers;
      registered := Below(|managers|);
      goroutines, given, owner := map[0 := Goroutine([], [], [], None)], map[0 := []], map[];
      new;
      StartsConsistent(StoreNow());
    }

    ghost function StoreNow(): (store: Store)
      reads managers
      ensures |store| == |managers| && forall m :: 0 <= m < |managers| ==> store[m] == managers[m].values
    {
      seq(|managers|, m requires 0 <= m < |managers| reads managers => managers[m].values)
    }

    ghost predicate Valid()
      reads this, pool, managers
    {
      && pool.Valid() && pool.Taken() == owner.Keys
      && (forall t :: t in owner ==> t < UINT_LIMIT)
      && (forall i, j :: 0 <= i < j < |managers| ==> managers[i] != managers[j])
      && (forall m :: m in registered ==> m < |managers|)
      && Consistent(goroutines, given, StoreNow(), owner)
    }

    /** The goroutine exists and runs user code. */
    predicate Running(g: nat)
      reads this
    {
      g in goroutines && goroutines[g].pending == [] && goroutines[g].leaving == None
    }

    /** The current values of manager m for a goroutine. */
    method ValuesOf(g: nat, m: nat) returns (r: Option<Values>)
      requires Valid() && g in goroutines && m < |managers|
      ensures Env(goroutines[g].calls, given[g], m) == if r.Some? then r.value else map[]
    {
      var tags := ReadStackTags(goroutines[g].stack);
      r := managers[m].FirstOf(tags);
      assert GoroutineOk(goroutines[g], given[g], StoreNow());
      FirstIsEnv(goroutines[g].calls, given[g], StoreNow(), m);
    }

    /** GetValue finds the innermost enclosing binding of the key for this manager, if there is one. */
    method GetValue(g: nat, m: nat, key: string) returns (r: Option<string>)
      requires Valid() && g in goroutines && m < |managers|
      ensures r == Lookup(goroutines[g].calls, given[g], m, key)
    {
      EnvIsLookup(goroutines[g].calls, given[g], m, key);
      var values := ValuesOf(g, m);
      r := if values.Some? && key in values.value then Some(values.value[key]) else None;
    }

    method Keep(m: nat, tag: nat, values: Values)
      requires m < |managers| && forall i, j :: 0 <= i < j < |managers| ==> managers[i] != managers[j]
      modifies managers[m]
      ensures StoreNow() == Put(old(StoreNow()), m, tag, values)
    {
      managers[m].values := managers[m].values[tag := values];
    }

    /** The locked part of SetValues and the tagging of the stack, up to the start of the callback. */
    method Enter(g: nat, m: nat, values: Values, pending: seq<(nat, Values)>)
      requires Valid() && g in goroutines && m < |managers| && goroutines[g].leaving == None && pool.CanAcquire()
      requires forall i :: 0 <= i < |pending| ==> pending[i] in goroutines[g].pending
      modifies this`goroutines, this`given, this`owner, pool, managers[m]
      ensures Valid() && goroutines.Keys == old(goroutines.Keys) && goroutines[g].pending == pending
      ensures forall o :: o in goroutines && o != g ==> goroutines[o] == old(goroutines[o]) && given[o] == old(given[o])
      ensures exists tag :: Entered(old(goroutines[g]), goroutines[g], m, tag)
      ensures given[g] == [values] + old(given[g])
    {
      hide Consistent, Put, AddStackTag, Env, IdPool.Valid, IdPool.Taken, IdPool.CanAcquire;
      AreAligned(goroutines, given, StoreNow(), owner, g);
      ghost var store := StoreNow();
      var tag := Record(g, m, values);
      var h := Goroutine(AddStackTag(tag, goroutines[g].stack),
                         [Call(goroutines[g].stack, Some(Context(m, tag)))] + goroutines[g].calls, pending, None);
      EnterKeepsConsistent(goroutines, given, store, owner, g, h, m, tag, values);
      assert Entered(goroutines[g], h, m, tag);
      goroutines, given, owner := goroutines[g := h], given[g := [values] + given[g]], owner[tag := g];
    }

    /** Keeps the values, over those the goroutine sees, under a new tag. */
    method Record(g: nat, m: nat, values: Values) returns (tag: nat)
      requires Valid() && g in goroutines && m < |managers| && pool.CanAcquire()
      requires g in given && |given[g]| == |goroutines[g].calls|
      modifies pool, managers[m]
      ensures pool.Valid() && tag < UINT_LIMIT && tag !in old(pool.Taken()) && pool.Taken() == old(pool.Taken()) + {tag}
      ensures StoreNow() == Put(old(StoreNow()), m, tag, Env(goroutines[g].calls, given[g], m) + values)
    {
      hide Consistent, Put, Env, IdPool.Valid, IdPool.Taken, IdPool.CanAcquire;
      var existing := ValuesOf(g, m);
      var all: Values := if existing.Some? then existing.value + values else values;
      assert all == Env(goroutines[g].calls, given[g], m) + values;
      tag := pool.Acquire();
      Keep(m, tag, all);
    }

    /** Calling an ordinary function only adds a frame. */
    method CallFunction(g: nat)
      requires Valid() && Running(g)
      modifies this`goroutines, this`given
      ensures Valid() && Running(g) && goroutines.Keys == old(goroutines.Keys) && OthersSame(g)
      ensures goroutines[g].calls == [Call(old(goroutines[g].stack), None)] + old(goroutines[g].calls)
      ensures given[g] == [map[]] + old(given[g])
    {
      hide Consistent;
      AreAligned(goroutines, given, StoreNow(), owner, g);
      var called := goroutines[g];
      var h := Goroutine([Other] + called.stack, [Call(called.stack, None)] + called.calls, [], None);
      CallKeepsConsistent(goroutines, given, StoreNow(), owner, g, h);
      goroutines, given := goroutines[g := h], given[g := [map[]] + given[g]];
    }

    twostate predicate OthersSame(g: nat)
      reads this
    {
      forall o :: o in goroutines && o != g && o in given && o in old(goroutines) && o in old(given) ==>
        goroutines[o] == old(goroutines[o]) && given[o] == old(given[o])
    }

    /**
    SetValues up to the start of its callback. From here on the goroutine sees the new values over
    those it saw before; other managers and other goroutines see no change.
    */
    method SetValues(g: nat, m: nat, values: Values)
      requires Valid() && Running(g) && m < |managers| && (values != map[] ==> pool.CanAcquire())
      modifies this`goroutines, this`given, this`owner, pool, managers[m]
      ensures Valid() && Running(g) && goroutines.Keys == old(goroutines.Keys) && OthersSame(g)
      ensures |goroutines[g].calls| == |given[g]| > 0
      ensures goroutines[g].calls[0].below == old(goroutines[g].stack)
      ensures goroutines[g].calls[1..] == old(goroutines[g].calls) && given[g][1..] == old(given[g])
      ensures forall n, key ::
                (Lookup(goroutines[g].calls, given[g], n, key)
                 == if n == m && key in values then Some(values[key]) else old(Lookup(goroutines[g].calls, given[g], n, key)))
    {
      hide Consistent, Lookup;
      AreAligned(goroutines, given, StoreNow(), owner, g);
      ghost var calls, bindings := goroutines[g].calls, given[g];
      if |values| == 0 {
        CallFunction(g);
      } else {
        Enter(g, m, values, []);
      }
      LookupInside(goroutines[g].calls[0], calls, values, bindings);
    }

    /**
    Return from the innermost call. After SetValues the tag leaves the manager, and the goroutine is
    back to the calls, the stack and the bindings it had before.
    */
    method Return(g: nat)
      requires Valid() && Running(g) && goroutines[g].calls != []
      modifies this`goroutines, this`given, managers
      ensures Valid() && g in goroutines && goroutines.Keys == old(goroutines.Keys) && OthersSame(g)
      ensures goroutines[g].stack == old(goroutines[g].calls[0].below) && goroutines[g].pending == []
      ensures goroutines[g].calls == old(goroutines[g].calls)[1..]
      ensures old(|given[g]|) > 0 && given[g] == old(given[g])[1..]
      ensures goroutines[g].leaving == None <==> old(goroutines[g].calls[0].context) == None
    {
      hide Consistent, Without, IdPool.Valid, IdPool.Taken, Lookup, Env;
      AreAligned(goroutines, given, StoreNow(), owner, g);
      var call := goroutines[g].calls[0];
      var leaving := if call.context.Some? then Some(call.context.value.tag) else None;
      var h := Goroutine(call.below, goroutines[g].calls[1..], [], leaving);
      ReturnKeepsConsistent(goroutines, given, StoreNow(), owner, g, h);
      Drop(call.context);
      goroutines, given := goroutines[g := h], given[g := given[g][1..]];
    }

    method Drop(context: Option<Context>)
      requires forall i, j :: 0 <= i < j < |managers| ==> managers[i] != managers[j]
      requires context.Some? ==> context.value.manager < |managers|
      modifies managers
      ensures StoreNow() == Without(old(StoreNow()), context)
    {
      if context.Some? {
        var manager := managers[context.value.manager];
        manager.values := manager.values - {context.value.tag};
      }
    }

    /** The last step of SetValues: the tag goes back to the pool. */
    method Release(g: nat)
      requires Valid() && g in goroutines && goroutines[g].leaving.Some?
      modifies this`goroutines, this`owner, pool
      ensures Valid() && g in goroutines && goroutines[g] == old(goroutines[g]).(leaving := None) && OthersSame(g)
      ensures goroutines.Keys == old(goroutines.Keys)
    {
      hide Consistent;
      var tag := goroutines[g].leaving.value;
      LeavingIsOwned(goroutines, given, StoreNow(), owner, g);
      ReleaseKeepsConsistent(goroutines, given, StoreNow(), owner, g);
      pool.Release(tag);
      goroutines, owner := goroutines[g := goroutines[g].(leaving := None)], owner - {tag};
    }

    /** A plain go statement: the new goroutine sees no values. */
    method PlainGo(g: nat, child: nat)
      requires Valid() && Running(g) && child !in goroutines
      modifies this`goroutines, this`given
      ensures Valid() && goroutines.Keys == old(goroutines.Keys) + {child} && OthersSame(child)
      ensures child in given && goroutines[child].calls == [] && goroutines[child].pending == [] && given[child] == []
    {
      hide Consistent;
      var h := Goroutine([], [], [], None);
      StartKeepsConsistent(goroutines, given, StoreNow(), owner, child, h);
      goroutines, given := goroutines[child := h], given[child := []];
    }

    /** Go: the new goroutine is going to see, in each registered manager, what the old one sees now. */
    method Go(g: nat, child: nat)
      requires Valid() && Running(g) && child !in goroutines
      modifies this`goroutines, this`given
      ensures Valid() && goroutines.Keys == old(goroutines.Keys) + {child} && OthersSame(child)
      ensures child in given && goroutines[child].calls == [] && given[child] == []
      ensures forall m :: 0 <= m < |managers| ==>
                (Seen(goroutines[child], given[child], m)
                 == if m in registered then old(Env(goroutines[g].calls, given[g], m)) else map[])
    {
      hide Consistent, Env;
      AreAligned(goroutines, given, StoreNow(), owner, g);
      var pending := WrapAll(g);
      var h := Goroutine([], [], pending, None);
      StartKeepsConsistent(goroutines, given, StoreNow(), owner, child, h);
      goroutines, given := goroutines[child := h], given[child := []];
      EmptyEnv();
    }

    method WrapAll(g: nat) returns (pending: seq<(nat, Values)>)
      requires Valid() && Running(g)
      ensures forall i :: 0 <= i < |pending| ==> pending[i].0 < |managers| && pending[i].1 != map[]
      ensures forall m :: 0 <= m < |managers| ==>
                (PendingEnv(map[], pending, m) == if m in registered then Env(goroutines[g].calls, given[g], m) else map[])
    {
      hide Consistent, Env;
      AreAligned(goroutines, given, StoreNow(), owner, g);
      var todo := registered;
      pending := [];
      while todo != {}
        invariant todo <= registered
        invariant Wraps(pending, registered - todo, g)
        decreases todo
        modifies {}
      {
        var m :| m in todo;
        var values := ValuesOf(g, m);
        if values.Some? && |values.value| > 0 {
          AddWrap(pending, registered - todo, g, m, values.value);
          pending := [(m, values.value)] + pending;
        } else {
          SkipWrap(pending, registered - todo, g, m);
        }
        assert registered - (todo - {m}) == registered - todo + {m};
        todo := todo - {m};
      }
      assert registered - todo == registered;
      forall m | 0 <= m < |managers| && m !in registered ensures PendingEnv(map[], pending, m) == map[] {
        NotPending(map[], pending, m);
      }
    }

    /** The pending SetValues hand on what goroutine g sees in the managers `done`, and nothing else. */
    ghost predicate Wraps(pending: seq<(nat, Values)>, done: set<nat>, g: nat)
      requires g in goroutines && g in given && |given[g]| == |goroutines[g].calls|
      reads this
    {
      && (forall i :: 0 <= i < |pending| ==> pending[i].0 in done && pending[i].0 < |managers| && pending[i].1 != map[])
      && (forall m :: m in done ==> PendingEnv(map[], pending, m) == Env(goroutines[g].calls, given[g], m))
    }

    lemma AddWrap(pending: seq<(nat, Values)>, done: set<nat>, g: nat, m: nat, values: Values)
      requires g in goroutines && g in given && |given[g]| == |goroutines[g].calls|
      requires Wraps(pending, done, g) && m !in done && m < |managers|
      requires values != map[] && values == Env(goroutines[g].calls, given[g], m)
      ensures Wraps([(m, values)] + pending, done + {m}, g)
    {
      hide Env;
      var more := [(m, values)] + pending;
      assert more[1..] == pending;
      NotPending(values, pending, m);
      assert map[] + values == values;
    }

    lemma SkipWrap(pending: seq<(nat, Values)>, done: set<nat>, g: nat, m: nat)
      requires g in goroutines && g in given && |given[g]| == |goroutines[g].calls|
      requires Wraps(pending, done, g) && m !in done && Env(goroutines[g].calls, given[g], m) == map[]
      ensures Wraps(pending, done + {m}, g)
    {
      hide Env;
      NotPending(map[], pending, m);
    }

    /** A started goroutine enters the next SetValues that Go wrapped around it; what it is going to see stays the same. */
    method EnterPending(g: nat)
      requires Valid() && g in goroutines && goroutines[g].pending != [] && goroutines[g].leaving == None && pool.CanAcquire()
      modifies this`goroutines, this`given, this`owner, pool, managers
      ensures Valid() && goroutines.Keys == old(goroutines.Keys) && g in goroutines && OthersSame(g)
      ensures goroutines[g].pending == old(goroutines[g].pending)[1..] && |given[g]| == |goroutines[g].calls|
      ensures forall m :: 0 <= m < |managers| ==> Seen(goroutines[g], given[g], m) == old(Seen(goroutines[g], given[g], m))
    {
      hide Consistent;
      AreAligned(goroutines, given, StoreNow(), owner, g);
      PendingIsKnown(goroutines, given, StoreNow(), owner, g);
      var next := goroutines[g].pending[0];
      ghost var calls, bindings := goroutines[g].calls, given[g];
      Enter(g, next.0, next.1, goroutines[g].pending[1..]);
      AreAligned(goroutines, given, StoreNow(), owner, g);
      assert goroutines[g].calls[1..] == calls && given[g][1..] == bindings;
    }

    /** A goroutine ends when it has returned from all its calls. */
    method Exit(g: nat)
      requires Valid() && Running(g) && goroutines[g].calls == []
      modifies this`goroutines, this`given
      ensures Valid() && goroutines.Keys == old(goroutines.Keys) - {g} && OthersSame(g)
    {
      hide Consistent;
      ExitKeepsConsistent(goroutines, given, StoreNow(), owner, g);
      goroutines, given := goroutines - {g}, given - {g};
    }

    method Unregister(m: nat)
      requires Valid()
      modifies this`registered
      ensures Valid() && registered == old(registered) - {m}
    {
      hide Consistent;
      registered := registered - {m};
    }

    /** Any interleaving of the goroutines keeps the state valid; steps that cannot be taken wait. */
    method Run(schedule: seq<Step>)
      requires Valid()
      modifies this, pool, managers
      ensures Valid()
    {
      hide Consistent;
      for i := 0 to |schedule|
        invariant Valid()
      {
        Take(schedule[i]);
      }
    }

    method Take(step: Step)
      requires Valid()
      modifies this, pool, managers
      ensures Valid()
    {
      hide Consistent;
      match step
      case DoCall(g) => if Running(g) { CallFunction(g); }
      case DoSetValues(g, m, values) =>
        if Running(g) && m < |managers| {
          if values == map[] || pool.CanAcquire() { SetValues(g, m, values); }
        }
      case DoReturn(g) => if Running(g) { if goroutines[g].calls != [] { Return(g); } }
      case DoRelease(g) => if g in goroutines { if goroutines[g].leaving.Some? { Release(g); } }
      case DoGo(g, child) => if Running(g) && child !in goroutines { Go(g, child); }
      case DoPlainGo(g, child) => if Running(g) && child !in goroutines { PlainGo(g, child); }
      case DoEnterPending(g) =>
        if g in goroutines {
          if goroutines[g].pending != [] && goroutines[g].leaving == None && pool.CanAcquire() { EnterPending(g); }
        }
      case DoExit(g) => if Running(g) { if goroutines[g].calls == [] { Exit(g); } }
      case DoUnregister(m) => Unregister(m);
    }

    /** When every goroutine has returned from all its calls, no manager keeps a value and every tag is back in the pool. */
    lemma NothingIsKept()
      requires Valid() && forall g :: g in goroutines ==> goroutines[g].calls == [] && goroutines[g].leaving == None
      ensures pool.Taken() == {} && forall i :: 0 <= i < |managers| ==> managers[i].values == map[]
    {
      NothingLeftBehind(goroutines, given, StoreNow(), owner);
      assert forall i :: 0 <= i < |managers| ==> StoreNow()[i] == managers[i].values;
    }
  }
}
