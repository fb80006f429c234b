/**
Scheduling constraints: validating and merging lists of them, and what they mean for a machine. The
compilations to Kubernetes and to fleet are compared with this meaning.
*/
module Constraints {
  import opened Wrappers
  import opened Strings

  datatype Constraint = Constraint(attribute: string, value: string, operator: string) {
    /** The empty operator stands for "==". */
    predicate OperatorEquals(op: string) {
      (if operator == "" then "==" else operator) == (if op == "" then "==" else op)
    }

    predicate Valid() { attribute != "" && operator in {"", "==", "!="} }

    predicate Conflicts(other: Constraint) {
      (attribute == other.attribute && value != other.value) || operator != other.operator
    }
  }

  /** The texts of an operator that ask for an equal value, and the one that asks for another. */
  lemma OperatorTexts(c: Constraint)
    ensures c.OperatorEquals("==") <==> c.operator in {"", "=="}
    ensures c.OperatorEquals("!=") <==> c.operator == "!="
    ensures c.Valid() <==> c.attribute != "" && (c.OperatorEquals("==") || c.OperatorEquals("!="))
  {
    assert "==" != "!=" by { assert "=="[0] != "!="[0]; }
  }

  /**
  Conflicts is documented as "same attribute, but a different value". The code says so exactly when
  the operators are the same or the documented condition holds anyway.
  */
  lemma ConflictsAsDocumented(c: Constraint, d: Constraint)
    ensures (c.Conflicts(d) <==> c.attribute == d.attribute && c.value != d.value)
       <==> (c.operator == d.operator || (c.attribute == d.attribute && c.value != d.value))
  {
  }

  // ----- Lists of constraints -----

  function Get(list: seq<Constraint>, attribute: string): (r: Option<Constraint>)
    ensures r.Some? ==> r.value in list && r.value.attribute == attribute
  {
    if list == [] then None
    else if list[0].attribute == attribute then Some(list[0])
    else Get(list[1..], attribute)
  }

  ghost predicate Unique(list: seq<Constraint>) {
    forall i, j :: 0 <= i < j < |list| ==> list[i].attribute != list[j].attribute
  }

  ghost predicate ValidList(list: seq<Constraint>) {
    Unique(list) && forall i :: 0 <= i < |list| ==> list[i].Valid()
  }

  method Validate(list: seq<Constraint>) returns (ok: bool)
    ensures ok <==> ValidList(list)
  {
    var attributes: set<string> := {};
    for i := 0 to |list|
      invariant ValidList(list[..i])
      invariant forall a :: a in attributes <==> exists k :: 0 <= k < i && list[k].attribute == a
    {
      if !list[i].Valid() { return false; }
      if list[i].attribute in attributes { return false; }
      attributes := attributes + {list[i].attribute};
    }
    assert list[..|list|] == list;
    ok := true;
  }

  /** The constraints of the list whose attributes are not in `additional`. */
  function Others(list: seq<Constraint>, additional: seq<Constraint>): seq<Constraint> {
    if list == [] then []
    else
      var last := list[|list| - 1];
      Others(list[..|list| - 1], additional) + if Get(additional, last.attribute).Some? then [] else [last]
  }

  method Merge(list: seq<Constraint>, additional: seq<Constraint>) returns (result: seq<Constraint>)
    ensures result == Merged(list, additional)
  {
    result := additional;
    for i := 0 to |list|
      invariant result == additional + Others(list[..i], additional)
    {
      assert list[..i + 1][..i] == list[..i];
      if Get(additional, list[i].attribute).None? {
        result := result + [list[i]];
      }
    }
    assert list[..|list|] == list;
  }

  function Merged(list: seq<Constraint>, additional: seq<Constraint>): seq<Constraint> {
    additional + Others(list, additional)
  }

  lemma {:induction false} GetAppend(a: seq<Constraint>, b: seq<Constraint>, attribute: string)
    ensures Get(a + b, attribute) == if Get(a, attribute).Some? then Get(a, attribute) else Get(b, attribute)
  {
    if a == [] {
      assert a + b == b;
    } else {
      assert (a + b)[1..] == a[1..] + b;
      GetAppend(a[1..], b, attribute);
    }
  }

  lemma {:induction false} GetOthers(list: seq<Constraint>, additional: seq<Constraint>, attribute: string)
    ensures Get(additional, attribute).None? ==> Get(Others(list, additional), attribute) == Get(list, attribute)
  {
    if list != [] {
      var init, last := list[..|list| - 1], list[|list| - 1];
      assert list == init + [last];
      GetOthers(init, additional, attribute);
      GetAppend(init, [last], attribute);
      GetAppend(Others(init, additional), if Get(additional, last.attribute).Some? then [] else [last], attribute);
    }
  }

  /** Looking up in a merged list: additional first, else the list. */
  lemma GetMerged(list: seq<Constraint>, additional: seq<Constraint>, attribute: string)
    ensures Get(Merged(list, additional), attribute)
         == if Get(additional, attribute).Some? then Get(additional, attribute) else Get(list, attribute)
  {
    GetAppend(additional, Others(list, additional), attribute);
    GetOthers(list, additional, attribute);
  }

  lemma {:induction false} GetFinds(list: seq<Constraint>, i: nat)
    requires i < |list|
    ensures Get(list, list[i].attribute).Some?
  {
    if list[0].attribute != list[i].attribute { GetFinds(list[1..], i - 1); }
  }

  lemma {:induction false} OthersUnique(list: seq<Constraint>, additional: seq<Constraint>)
    requires Unique(list)
    ensures Unique(Others(list, additional))
    ensures forall c :: c in Others(list, additional) ==> c in list && Get(additional, c.attribute).None?
  {
    if list != [] { OthersUnique(list[..|list| - 1], additional); }
  }

  lemma MergedUnique(list: seq<Constraint>, additional: seq<Constraint>)
    requires Unique(list) && Unique(additional)
    ensures Unique(Merged(list, additional))
  {
    OthersUnique(list, additional);
    var merged, n := Merged(list, additional), |additional|;
    forall i, j | 0 <= i < j < |merged| ensures merged[i].attribute != merged[j].attribute {
      if j >= n && i < n {
        assert merged[j] in Others(list, additional);
        GetFinds(additional, i);
      } else if i >= n {
        assert merged[i] == Others(list, additional)[i - n] && merged[j] == Others(list, additional)[j - n];
      }
    }
  }

  /** The constraints of a pod: those of its tasks merged one after the other. All tasks have those of their group. */
  function Folded(ofGroup: seq<Constraint>, tasks: nat): seq<Constraint> {
    if tasks == 0 then [] else Merged(Folded(ofGroup, tasks - 1), ofGroup)
  }

  lemma {:induction false} OthersOfItself(list: seq<Constraint>, all: seq<Constraint>)
    requires forall i :: 0 <= i < |list| ==> Get(all, list[i].attribute).Some?
    ensures Others(list, all) == []
  {
    if list != [] { OthersOfItself(list[..|list| - 1], all); }
  }

  /** However many tasks a pod has, its constraints are those of its group. */
  lemma {:induction false} FoldedIsOfGroup(ofGroup: seq<Constraint>, tasks: nat)
    requires tasks > 0
    ensures Folded(ofGroup, tasks) == ofGroup
  {
    if tasks > 1 {
      FoldedIsOfGroup(ofGroup, tasks - 1);
      forall i | 0 <= i < |ofGroup| ensures Get(ofGroup, ofGroup[i].attribute).Some? { GetFinds(ofGroup, i); }
      OthersOfItself(ofGroup, ofGroup);
    }
  }

  // ----- What constraints mean -----

  datatype ConstraintError = UnknownAttribute | UnsupportedOperator | InvalidGroup | GroupNotFound

  datatype Machine = Machine(id: string, meta: map<string, string>)

  predicate IsMeta(c: Constraint) { HasPrefix(c.attribute, "meta.") }

  predicate IsNodeId(c: Constraint) { c.attribute == "node.id" }

  lemma OneKind(c: Constraint)
    ensures IsMeta(c) ==> !IsNodeId(c) && c.attribute != "taskgroup"
  {
    if IsMeta(c) {
      assert c.attribute[0] == c.attribute[..5][0] == 'm';
      assert "node.id"[0] == 'n' && "taskgroup"[0] == 't';
    }
  }

  function MetaKey(c: Constraint): string
    requires IsMeta(c)
  {
    c.attribute[5..]
  }

  /** What the constraint compares its value with. */
  function Compared(m: Machine, c: Constraint): Option<string> {
    if IsMeta(c) then (if MetaKey(c) in m.meta then Some(m.meta[MetaKey(c)]) else None) else Some(m.id)
  }

  /** The meaning of a constraint on metadata or on the node; others do not concern single machines. */
  predicate Satisfies(m: Machine, c: Constraint) {
    IsMeta(c) || IsNodeId(c) ==> ((Compared(m, c) == Some(c.value)) <==> c.OperatorEquals("=="))
  }

  ghost predicate SatisfiesAll(m: Machine, list: seq<Constraint>) {
    forall i :: 0 <= i < |list| ==> Satisfies(m, list[i])
  }

  // ----- A machine that satisfies everything -----

  function WitnessMeta(list: seq<Constraint>): map<string, string> {
    if list == [] then map[]
    else
      var c, rest := list[|list| - 1], WitnessMeta(list[..|list| - 1]);
      if IsMeta(c) && c.OperatorEquals("==") then rest[MetaKey(c) := c.value] else rest
  }

  function WitnessId(list: seq<Constraint>): string {
    var c := Get(list, "node.id");
    if c.None? then "" else if c.value.OperatorEquals("==") then c.value.value else c.value.value + "!"
  }

  function Witness(list: seq<Constraint>): Machine { Machine(WitnessId(list), WitnessMeta(list)) }

  lemma SameKeySameAttribute(c: Constraint, d: Constraint)
    requires IsMeta(c) && IsMeta(d) && MetaKey(c) == MetaKey(d)
    ensures c.attribute == d.attribute
  {
    assert c.attribute == c.attribute[..5] + MetaKey(c) && d.attribute == d.attribute[..5] + MetaKey(d);
  }

  lemma {:induction false} WitnessKeys(list: seq<Constraint>, k: string)
    ensures k in WitnessMeta(list) ==>
              exists i :: 0 <= i < |list| && IsMeta(list[i]) && list[i].OperatorEquals("==") && MetaKey(list[i]) == k
  {
    if list != [] {
      WitnessKeys(list[..|list| - 1], k);
    }
  }

  lemma {:induction false} WitnessMetaSatisfies(list: seq<Constraint>, i: nat)
    requires Unique(list) && i < |list| && IsMeta(list[i])
    ensures Satisfies(Machine("", WitnessMeta(list)), list[i])
  {
    var n, c := |list| - 1, list[i];
    var init, key := list[..n], MetaKey(list[i]);
    if i < n {
      WitnessMetaSatisfies(init, i);
      if IsMeta(list[n]) && MetaKey(list[n]) == key { SameKeySameAttribute(list[n], c); }
    } else {
      WitnessKeys(init, key);
      if key in WitnessMeta(init) {
        var j :| 0 <= j < n && IsMeta(init[j]) && MetaKey(init[j]) == key;
        SameKeySameAttribute(init[j], c);
      }
    }
  }

  lemma {:induction false} GetUnique(list: seq<Constraint>, i: nat)
    requires Unique(list) && i < |list|
    ensures Get(list, list[i].attribute) == Some(list[i])
  {
    if i > 0 { GetUnique(list[1..], i - 1); }
  }

  /** Constraints with different attributes never contradict each other. */
  lemma WitnessSatisfies(list: seq<Constraint>)
    requires Unique(list)
    ensures SatisfiesAll(Witness(list), list)
  {
    forall i | 0 <= i < |list| ensures Satisfies(Witness(list), list[i]) {
      OneKind(list[i]);
      if IsMeta(list[i]) {
        WitnessMetaSatisfies(list, i);
      } else if IsNodeId(list[i]) {
        GetUnique(list, i);
      }
    }
  }
}
