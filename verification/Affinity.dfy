/**
Constraints for Kubernetes: createAffinity compiles a list to a node selector and to pods to be near
to or away from.
*/
module Affinity {
  import opened Wrappers
  import opened Strings
  import opened UnitNames
  import opened Jobs
  import opened Constraints
  import Pods

  datatype Requirement = Requirement(key: string, isIn: bool, values: seq<string>)

  /** The parts of an affinity that J2 fills in: one node selector term, and pods to be near to or away from. */
  datatype Affinity = Affinity(node: seq<Requirement>, near: Option<string>, away: Option<string>)

  /** How Kubernetes matches a node; NotIn also matches a node without the label. */
  predicate Matches(labels: map<string, string>, r: Requirement) {
    (r.key in labels && labels[r.key] in r.values) <==> r.isIn
  }

  ghost predicate Selects(a: Affinity, m: Machine) {
    forall i :: 0 <= i < |a.node| ==> Matches(Labels(m), a.node[i])
  }

  /** A machine as a node: its metadata are labels, its id is the label "id". */
  function Labels(m: Machine): map<string, string> { m.meta["id" := m.id] }

  /** The error of a constraint, if it cannot be compiled. */
  function ErrorOf(c: Constraint, groups: seq<TaskGroup>): Option<ConstraintError> {
    var badOperator := !c.OperatorEquals("==") && !c.OperatorEquals("!=");
    if IsMeta(c) || IsNodeId(c) then (if badOperator then Some(UnsupportedOperator) else None)
    else if c.attribute != "taskgroup" then Some(UnknownAttribute)
    else if !ValidGroupName(c.value) then Some(InvalidGroup)
    else if !HasGroup(groups, c.value) then Some(GroupNotFound)
    else if badOperator then Some(UnsupportedOperator)
    else None
  }

  /** The requirements for the constraints on metadata and on the node, in order. */
  function Requirements(list: seq<Constraint>): seq<Requirement> {
    if list == [] then []
    else
      var c := list[|list| - 1];
      Requirements(list[..|list| - 1])
      + if IsMeta(c) then [Requirement(MetaKey(c), c.OperatorEquals("=="), [c.value])]
        else if IsNodeId(c) then [Requirement("id", c.OperatorEquals("=="), [c.value])]
        else []
  }

  /** The label that the pods of a task group carry. */
  function GroupLabel(job: string, group: string): string { Pods.ResourceName(job + "/" + group) }

  /** The label of the group of the last taskgroup constraint with this operator. */
  function LastGroup(job: string, list: seq<Constraint>, op: string): Option<string> {
    if list == [] then None
    else
      var c := list[|list| - 1];
      if c.attribute == "taskgroup" && c.OperatorEquals(op) then Some(GroupLabel(job, c.value))
      else LastGroup(job, list[..|list| - 1], op)
  }

  function AffinityOf(job: string, list: seq<Constraint>): Affinity {
    Affinity(Requirements(list), LastGroup(job, list, "=="), LastGroup(job, list, "!="))
  }

  /** The affinity with one more constraint. */
  function Extended(job: string, a: Affinity, c: Constraint): Affinity {
    if IsMeta(c) then a.(node := a.node + [Requirement(MetaKey(c), c.OperatorEquals("=="), [c.value])])
    else if IsNodeId(c) then a.(node := a.node + [Requirement("id", c.OperatorEquals("=="), [c.value])])
    else if c.attribute != "taskgroup" then a
    else if c.OperatorEquals("==") then a.(near := Some(GroupLabel(job, c.value)))
    else if c.OperatorEquals("!=") then a.(away := Some(GroupLabel(job, c.value)))
    else a
  }

  lemma OneOperator(c: Constraint)
    ensures !(c.OperatorEquals("==") && c.OperatorEquals("!="))
  {
    assert "=="[0] == '=' && "!="[0] == '!';
  }

  lemma AffinityStep(job: string, list: seq<Constraint>, n: nat)
    requires n < |list|
    ensures AffinityOf(job, list[..n + 1]) == Extended(job, AffinityOf(job, list[..n]), list[n])
  {
    var c := list[n];
    assert list[..n + 1][..n] == list[..n];
    OneKind(c);
    OneOperator(c);
    hide HasPrefix, Constraint.OperatorEquals, GroupLabel;
  }

  /** One round of the loop: adds what a constraint asks for. */
  method AddConstraint(job: string, groups: seq<TaskGroup>, a: Affinity, c: Constraint) returns (r: Result<Affinity, ConstraintError>)
    ensures r == if ErrorOf(c, groups).Some? then Err(ErrorOf(c, groups).value) else Ok(Extended(job, a, c))
  {
    OneKind(c);
    OneOperator(c);
    hide HasPrefix, Constraint.OperatorEquals, ValidGroupName, HasGroup, GroupLabel;
    if IsMeta(c) {
      var key := MetaKey(c);
      if c.OperatorEquals("==") {
        r := Ok(a.(node := a.node + [Requirement(key, true, [c.value])]));
      } else if c.OperatorEquals("!=") {
        r := Ok(a.(node := a.node + [Requirement(key, false, [c.value])]));
      } else {
        r := Err(UnsupportedOperator);
      }
    } else if c.attribute == "node.id" {
      if c.OperatorEquals("==") {
        r := Ok(a.(node := a.node + [Requirement("id", true, [c.value])]));
      } else if c.OperatorEquals("!=") {
        r := Ok(a.(node := a.node + [Requirement("id", false, [c.value])]));
      } else {
        r := Err(UnsupportedOperator);
      }
    } else if c.attribute == "taskgroup" {
      if !ValidGroupName(c.value) { return Err(InvalidGroup); }
      if !HasGroup(groups, c.value) { return Err(GroupNotFound); }
      if c.OperatorEquals("==") {
        r := Ok(a.(near := Some(GroupLabel(job, c.value))));
      } else if c.OperatorEquals("!=") {
        r := Ok(a.(away := Some(GroupLabel(job, c.value))));
      } else {
        r := Err(UnsupportedOperator);
      }
    } else {
      r := Err(UnknownAttribute);
    }
  }

  /** The affinity for a list of constraints of a job with these task groups; there is none for an empty list. */
  method CreateAffinity(job: string, groups: seq<TaskGroup>, constraints: seq<Constraint>)
    returns (r: Result<Option<Affinity>, ConstraintError>)
    ensures r.Ok? <==> forall i :: 0 <= i < |constraints| ==> ErrorOf(constraints[i], groups) == None
    ensures r.Err? ==> exists i :: 0 <= i < |constraints| && ErrorOf(constraints[i], groups) == Some(r.error)
                                   && forall k :: 0 <= k < i ==> ErrorOf(constraints[k], groups) == None
    ensures r.Ok? ==> r.value == if constraints == [] then None else Some(AffinityOf(job, constraints))
  {
    hide ErrorOf, Extended;
    if |constraints| == 0 { return Ok(None); }
    var a := Affinity([], None, None);
    for n := 0 to |constraints|
      invariant forall i :: 0 <= i < n ==> ErrorOf(constraints[i], groups) == None
      invariant a == AffinityOf(job, constraints[..n])
    {
      AffinityStep(job, constraints, n);
      var more := AddConstraint(job, groups, a, constraints[n]);
      if more.Err? { return Err(more.error); }
      a := more.value;
    }
    assert constraints[..|constraints|] == constraints;
    r := Ok(Some(a));
  }

  /** What Kubernetes can express: values of a metadata key or of the machine, and groups of the job, equal or not. */
  lemma WhatKubernetesExpresses(c: Constraint, groups: seq<TaskGroup>)
    requires forall i :: 0 <= i < |groups| ==> groups[i].Valid()
    ensures ErrorOf(c, groups) == None <==>
              && c.operator in {"", "==", "!="}
              && (IsMeta(c) || IsNodeId(c) || (c.attribute == "taskgroup" && HasGroup(groups, c.value)))
  {
    OperatorTexts(c);
    hide Constraint.OperatorEquals, ValidGroupName;
    if HasGroup(groups, c.value) {
      var i :| 0 <= i < |groups| && groups[i].name == c.value;
      assert groups[i].Valid();
    }
  }

  /** What the requirement of a constraint makes of a node. */
  predicate NodeMatches(m: Machine, c: Constraint) {
    && (IsMeta(c) ==> Matches(Labels(m), Requirement(MetaKey(c), c.OperatorEquals("=="), [c.value])))
    && (IsNodeId(c) ==> Matches(Labels(m), Requirement("id", c.OperatorEquals("=="), [c.value])))
  }

  lemma {:induction false} RequirementsMatch(list: seq<Constraint>, m: Machine)
    ensures (forall i :: 0 <= i < |Requirements(list)| ==> Matches(Labels(m), Requirements(list)[i]))
       <==> (forall i :: 0 <= i < |list| ==> NodeMatches(m, list[i]))
  {
    if list != [] {
      var init, c := list[..|list| - 1], list[|list| - 1];
      RequirementsMatch(init, m);
      assert list == init + [c];
      var before, all := Requirements(init), Requirements(list);
      assert forall i :: 0 <= i < |before| ==> all[i] == before[i];
      OneKind(c);
      assert IsMeta(c) ==> all[|before|] == Requirement(MetaKey(c), c.OperatorEquals("=="), [c.value]);
      assert IsNodeId(c) ==> all[|before|] == Requirement("id", c.OperatorEquals("=="), [c.value]);
    }
  }

  lemma NodeMatchesIsSatisfies(m: Machine, c: Constraint)
    requires c.attribute != "meta.id"
    ensures NodeMatches(m, c) <==> Satisfies(m, c)
  {
    if IsMeta(c) {
      assert c.attribute == c.attribute[..5] + MetaKey(c) && "meta." + "id" == "meta.id";
    }
  }

  // ----- The selector is right -----

  lemma SelectsIsNodeMatches(job: string, list: seq<Constraint>, m: Machine)
    ensures Selects(AffinityOf(job, list), m) <==> forall i :: 0 <= i < |list| ==> NodeMatches(m, list[i])
  {
    RequirementsMatch(list, m);
  }

  /** The witness with the metadata entry "id" set to y. */
  lemma MetaIdMachine(job: string, list: seq<Constraint>, i: nat, y: string)
    requires Unique(list) && i < |list| && list[i].attribute == "meta.id"
    ensures var w, c := Witness(list), list[i];
            var m := Machine(w.id, w.meta["id" := y]);
            && (Selects(AffinityOf(job, list), m) <==> ((w.id == c.value) <==> c.OperatorEquals("==")))
            && (SatisfiesAll(m, list) <==> ((y == c.value) <==> c.OperatorEquals("==")))
  {
    var w, c := Witness(list), list[i];
    var m := Machine(w.id, w.meta["id" := y]);
    assert MetaKey(c) == "id";
    WitnessSatisfies(list);
    SelectsIsNodeMatches(job, list, m);
    forall j | 0 <= j < |list| && j != i ensures Satisfies(m, list[j]) && NodeMatches(m, list[j]) {
      assert list[j].attribute != "meta.id";
      if IsMeta(list[j]) && MetaKey(list[j]) == "id" { SameKeySameAttribute(list[j], c); }
      assert Satisfies(w, list[j]);
      NodeMatchesIsSatisfies(m, list[j]);
    }
    OneKind(c);
  }

  /**
  The node selector accepts the machines that satisfy the constraints, all of them and no others,
  exactly when no constraint is on "meta.id", whose label is that of the machine id.
  */
  lemma SelectorIsRightWithoutMetaId(job: string, list: seq<Constraint>)
    requires Unique(list)
    ensures (forall m :: Selects(AffinityOf(job, list), m) <==> SatisfiesAll(m, list)) <==> Get(list, "meta.id").None?
  {
    hide AffinityOf, Selects, SatisfiesAll, Satisfies, Witness;
    if Get(list, "meta.id").None? {
      forall m ensures Selects(AffinityOf(job, list), m) <==> SatisfiesAll(m, list) {
        SelectorAccepts(job, list, m);
      }
    } else {
      var c := Get(list, "meta.id").value;
      var i :| 0 <= i < |list| && list[i] == c;
      var w := Witness(list);
      var y := if w.id == c.value then c.value + "!" else c.value;
      MetaIdMachine(job, list, i, y);
      var m := Machine(w.id, w.meta["id" := y]);
      assert Selects(AffinityOf(job, list), m) != SatisfiesAll(m, list);
    }
  }

  lemma SelectorAccepts(job: string, list: seq<Constraint>, m: Machine)
    requires Get(list, "meta.id").None?
    ensures Selects(AffinityOf(job, list), m) <==> SatisfiesAll(m, list)
  {
    SelectsIsNodeMatches(job, list, m);
    forall i | 0 <= i < |list| ensures NodeMatches(m, list[i]) <==> Satisfies(m, list[i]) {
      GetFinds(list, i);
      NodeMatchesIsSatisfies(m, list[i]);
    }
  }

  // ----- The pods to be near to or away from are right -----

  /** Whether a pod may run on a node where pods with these labels run, in its own namespace. */
  predicate Places(a: Affinity, here: set<string>) {
    (a.near.Some? ==> a.near.value in here) && (a.away.Some? ==> a.away.value !in here)
  }

  /** Different task groups of a job have different labels, although "_" and "-" look the same in them. */
  lemma GroupLabelInjective(job: string, g: string, h: string)
    requires ValidGroupName(g) && ValidGroupName(h) && GroupLabel(job, g) == GroupLabel(job, h)
    ensures g == h
  {
    var s, t := job + "/" + g, job + "/" + h;
    assert |GroupLabel(job, g)| == |s| && |GroupLabel(job, h)| == |t|;
    forall i | 0 <= i < |g| ensures g[i] == h[i] {
      var k := |job| + 1 + i;
      assert s[k] == g[i] && t[k] == h[i];
      assert GroupLabel(job, g)[k] == GroupLabel(job, h)[k];
      assert IsNameChar(g[i]) && IsNameChar(h[i]);
    }
  }

  lemma {:induction false} LastGroupIs(job: string, list: seq<Constraint>, op: string)
    requires Unique(list)
    ensures forall i :: 0 <= i < |list| && list[i].attribute == "taskgroup" && list[i].OperatorEquals(op) ==>
              LastGroup(job, list, op) == Some(GroupLabel(job, list[i].value))
    ensures LastGroup(job, list, op).Some? ==>
              exists i :: 0 <= i < |list| && list[i].attribute == "taskgroup" && list[i].OperatorEquals(op)
                          && LastGroup(job, list, op) == Some(GroupLabel(job, list[i].value))
  {
    hide Constraint.OperatorEquals, GroupLabel;
    if list != [] {
      var init := list[..|list| - 1];
      LastGroupIs(job, init, op);
      assert forall i :: 0 <= i < |init| ==> init[i] == list[i];
    }
  }

  /**
  A pod may run exactly on the nodes where there are pods of each task group it has to be near to, and
  none of those it has to be away from. `groups` are the task groups of the job with pods on the node.
  */
  lemma PlacesRight(job: string, list: seq<Constraint>, groups: set<string>)
    requires Unique(list) && forall i :: 0 <= i < |list| && list[i].attribute == "taskgroup" ==> ValidGroupName(list[i].value)
    requires forall g :: g in groups ==> ValidGroupName(g)
    ensures Places(AffinityOf(job, list), set g | g in groups :: GroupLabel(job, g)) <==>
              forall i :: 0 <= i < |list| && list[i].attribute == "taskgroup" ==>
                && (list[i].OperatorEquals("==") ==> list[i].value in groups)
                && (list[i].OperatorEquals("!=") ==> list[i].value !in groups)
  {
    var here := set g | g in groups :: GroupLabel(job, g);
    LastGroupIs(job, list, "==");
    LastGroupIs(job, list, "!=");
    forall i | 0 <= i < |list| && list[i].attribute == "taskgroup"
      ensures GroupLabel(job, list[i].value) in here <==> list[i].value in groups
    {
      if g :| g in groups && GroupLabel(job, g) == GroupLabel(job, list[i].value) { GroupLabelInjective(job, g, list[i].value); }
    }
    hide Constraint.OperatorEquals, GroupLabel, LastGroup, ValidGroupName;
  }
}
