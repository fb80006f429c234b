/**
Constraints for fleet: setupConstraints turns a list into options of a unit, and fleet reads the
options again to decide on which machines the unit may run.
*/
module FleetConstraints {
  import opened Wrappers
  import opened Strings
  import opened UnitNames
  import opened Jobs
  import opened Constraints
  import opened Affinity

  // ----- What J2 writes -----

  /** A rule of several values, each in double quotes. */
  function Rule(values: seq<string>): string
    requires values != []
  {
    if |values| == 1 then "\"" + values[0] + "\"" else "\"" + values[0] + "\"" + " " + Rule(values[1..])
  }

  /** The options of a fleet unit that constraints end up in. */
  class FleetOptions {
    var machineId: string
    var metadata: seq<string>
    var conflicts: seq<string>

    constructor ()
      ensures machineId == "" && metadata == conflicts == []
    {
      machineId, metadata, conflicts := "", [], [];
    }

    /** One rule for all values. */
    method MachineMetadata(values: seq<string>)
      modifies this`metadata
      ensures metadata == old(metadata) + if values == [] then [] else [Rule(values)]
    {
      if |values| > 0 {
        metadata := metadata + [Rule(values)];
      }
    }
  }

  function FindGroup(groups: seq<TaskGroup>, name: string): (r: Option<TaskGroup>)
    ensures r.Some? <==> HasGroup(groups, name)
    ensures r.Some? ==> r.value in groups && r.value.name == name
  {
    if groups == [] then None
    else if groups[0].name == name then Some(groups[0])
    else
      assert forall i :: 0 <= i < |groups[1..]| ==> groups[1..][i] == groups[i + 1];
      FindGroup(groups[1..], name)
  }

  /** The pattern for the main units of a task in all scaling groups. */
  function MainPattern(job: string, tg: TaskGroup, t: Task): string {
    UnitId(job, tg.name, t.name, UnitKind.Main, 1, tg.global, tg.count).UnitNameExt("-mn", "*") + ".service"
  }

  function MainPatterns(job: string, tg: TaskGroup, tasks: seq<Task>): seq<string> {
    if tasks == [] then [] else MainPatterns(job, tg, tasks[..|tasks| - 1]) + [MainPattern(job, tg, tasks[|tasks| - 1])]
  }

  /** What a constraint adds to the metadata. */
  function AddedMetadata(c: Constraint): seq<string> {
    if IsMeta(c) then [MetaKey(c) + "=" + c.value] else []
  }

  /** The units that a constraint adds to those to stay away from. */
  function AddedConflicts(job: string, groups: seq<TaskGroup>, c: Constraint): seq<string> {
    var tg := FindGroup(groups, c.value);
    if c.attribute == "taskgroup" && tg.Some? then MainPatterns(job, tg.value, tg.value.tasks) else []
  }

  function Metadata(list: seq<Constraint>): seq<string> {
    if list == [] then []
    else Metadata(list[..|list| - 1]) + AddedMetadata(list[|list| - 1])
  }

  function LastNodeId(list: seq<Constraint>): string {
    if list == [] then ""
    else
      var c := list[|list| - 1];
      if IsNodeId(c) then c.value else LastNodeId(list[..|list| - 1])
  }

  /** The units to stay away from. */
  function Conflicts(job: string, groups: seq<TaskGroup>, list: seq<Constraint>): seq<string> {
    if list == [] then []
    else Conflicts(job, groups, list[..|list| - 1]) + AddedConflicts(job, groups, list[|list| - 1])
  }

  /** A group without tasks is never looked at closely. */
  function FleetErrorOf(c: Constraint, groups: seq<TaskGroup>): Option<ConstraintError> {
    if IsMeta(c) || IsNodeId(c) then (if c.OperatorEquals("==") then None else Some(UnsupportedOperator))
    else if c.attribute != "taskgroup" then Some(UnknownAttribute)
    else if !ValidGroupName(c.value) then Some(InvalidGroup)
    else if FindGroup(groups, c.value).None? then Some(GroupNotFound)
    else if FindGroup(groups, c.value).value.tasks != [] && !c.OperatorEquals("!=") then Some(UnsupportedOperator)
    else None
  }

  lemma AppendAfter(a: seq<string>, b: seq<string>, c: seq<string>)
    ensures (a + b) + c == a + (b + c)
  {
  }

  lemma FleetStep(job: string, groups: seq<TaskGroup>, list: seq<Constraint>, n: nat)
    requires n < |list|
    ensures var c := list[n];
            && Metadata(list[..n + 1]) == Metadata(list[..n]) + AddedMetadata(c)
            && LastNodeId(list[..n + 1]) == (if IsNodeId(c) then c.value else LastNodeId(list[..n]))
            && Conflicts(job, groups, list[..n + 1]) == Conflicts(job, groups, list[..n]) + AddedConflicts(job, groups, c)
  {
    assert list[..n + 1][..n] == list[..n];
  }

  /** One constraint: what it adds to the metadata and to the unit. */
  method SetupConstraint(job: string, groups: seq<TaskGroup>, c: Constraint, unit: FleetOptions)
    returns (error: Option<ConstraintError>, metadata: seq<string>)
    modifies unit`machineId, unit`conflicts
    ensures error == FleetErrorOf(c, groups)
    ensures error == None ==> metadata == AddedMetadata(c)
    ensures error == None ==> unit.machineId == if IsNodeId(c) then c.value else old(unit.machineId)
    ensures error == None ==> unit.conflicts == old(unit.conflicts) + AddedConflicts(job, groups, c)
  {
    OneKind(c);
    hide HasPrefix, Constraint.OperatorEquals, ValidGroupName, FindGroup, MainPattern;
    error, metadata := None, [];
    if IsMeta(c) {
      if !c.OperatorEquals("==") { return Some(UnsupportedOperator), []; }
      metadata := [MetaKey(c) + "=" + c.value];
    } else if c.attribute == "node.id" {
      if !c.OperatorEquals("==") { return Some(UnsupportedOperator), []; }
      unit.machineId := c.value;
    } else if c.attribute == "taskgroup" {
      if !ValidGroupName(c.value) { return Some(InvalidGroup), []; }
      var group := FindGroup(groups, c.value);
      if group.None? { return Some(GroupNotFound), []; }
      var ok := AvoidGroup(job, group.value, c, unit);
      if !ok { return Some(UnsupportedOperator), []; }
    } else {
      return Some(UnknownAttribute), [];
    }
  }

  method AvoidGroup(job: string, tg: TaskGroup, c: Constraint, unit: FleetOptions) returns (ok: bool)
    modifies unit`conflicts
    ensures ok <==> tg.tasks == [] || c.OperatorEquals("!=")
    ensures ok ==> unit.conflicts == old(unit.conflicts) + MainPatterns(job, tg, tg.tasks)
  {
    hide MainPattern;
    for i := 0 to |tg.tasks|
      invariant i > 0 ==> c.OperatorEquals("!=")
      invariant unit.conflicts == old(unit.conflicts) + MainPatterns(job, tg, tg.tasks[..i])
    {
      assert tg.tasks[..i + 1][..i] == tg.tasks[..i];
      if !c.OperatorEquals("!=") { return false; }
      AppendAfter(old(unit.conflicts), MainPatterns(job, tg, tg.tasks[..i]), [MainPattern(job, tg, tg.tasks[i])]);
      unit.conflicts := unit.conflicts + [MainPattern(job, tg, tg.tasks[i])];
    }
    assert tg.tasks[..|tg.tasks|] == tg.tasks;
    ok := true;
  }

  /** Adds the constraints of a list to the options of a unit. */
  method SetupConstraints(job: string, groups: seq<TaskGroup>, constraints: seq<Constraint>, unit: FleetOptions)
    returns (error: Option<ConstraintError>)
    requires unit.machineId == ""
    modifies unit
    ensures error == None <==> forall i :: 0 <= i < |constraints| ==> FleetErrorOf(constraints[i], groups) == None
    ensures error == None ==>
              && unit.machineId == LastNodeId(constraints)
              && unit.metadata == old(unit.metadata) + (if Metadata(constraints) == [] then [] else [Rule(Metadata(constraints))])
              && unit.conflicts == old(unit.conflicts) + Conflicts(job, groups, constraints)
  {
    hide FleetErrorOf, AddedMetadata, AddedConflicts, Metadata, LastNodeId, Conflicts, Rule, IsNodeId;
    var metadata: seq<string> := [];
    NothingToSetUp(job, groups);
    for n := 0 to |constraints|
      invariant forall i :: 0 <= i < n ==> FleetErrorOf(constraints[i], groups) == None
      invariant metadata == Metadata(constraints[..n]) && unit.metadata == old(unit.metadata)
      invariant unit.machineId == LastNodeId(constraints[..n])
      invariant unit.conflicts == old(unit.conflicts) + Conflicts(job, groups, constraints[..n])
    {
      FleetStep(job, groups, constraints, n);
      AppendAfter(old(unit.conflicts), Conflicts(job, groups, constraints[..n]), AddedConflicts(job, groups, constraints[n]));
      var more;
      error, more := SetupConstraint(job, groups, constraints[n], unit);
      if error.Some? { return; }
      metadata := metadata + more;
    }
    assert constraints[..|constraints|] == constraints;
    unit.MachineMetadata(metadata);
    error := None;
  }

  lemma NothingToSetUp(job: string, groups: seq<TaskGroup>)
    ensures Metadata([]) == [] && LastNodeId([]) == "" && Conflicts(job, groups, []) == []
  {
  }

  // ----- What fleet reads -----

  /** The values of a rule. Quotes are left out, and a blank outside of quotes ends a value. */
  function ReadValues(line: string, quoted: bool, current: string): (values: seq<string>)
    ensures |values| > 0
  {
    if line == "" then [current]
    else if line[0] == '"' then ReadValues(line[1..], !quoted, current)
    else if line[0] == ' ' && !quoted then [current] + ReadValues(line[1..], quoted, "")
    else ReadValues(line[1..], quoted, current + [line[0]])
  }

  predicate InQuotes(line: string) { line != "" && line[0] == '"' && line[|line| - 1] == '"' }

  function ParseRule(line: string): (values: seq<string>)
    ensures |values| > 0
  {
    if InQuotes(line) then ReadValues(line, false, "") else [line]
  }

  /** An entry counts only if it has one "=" and neither side is empty. */
  function EntryPair(entry: string): Option<(string, string)> {
    var parts := Split(entry, '=');
    if |parts| != 2 || parts[0] == "" || parts[1] == "" then None else Some((parts[0], parts[1]))
  }

  function EntryPairs(entries: seq<string>): seq<(string, string)> {
    if entries == [] then []
    else
      var last := EntryPair(entries[|entries| - 1]);
      EntryPairs(entries[..|entries| - 1]) + if last.Some? then [last.value] else []
  }

  function RequiredMetadata(rules: seq<string>): seq<(string, string)> {
    if rules == [] then [] else RequiredMetadata(rules[..|rules| - 1]) + EntryPairs(ParseRule(rules[|rules| - 1]))
  }

  /** For every key that is required, the machine has one of the values required for it. */
  ghost predicate HasMetadata(m: Machine, required: seq<(string, string)>) {
    forall i :: 0 <= i < |required| ==> required[i].0 in m.meta && (required[i].0, m.meta[required[i].0]) in required
  }

  const SHORT_ID_LEN := 8

  function ShortId(id: string): string { if |id| <= SHORT_ID_LEN then id else id[..SHORT_ID_LEN] }

  predicate MatchId(id: string, wanted: string) { id == wanted || ShortId(id) == wanted }

  /** Whether fleet may run a unit with these options on a machine. Without a machine id none is asked for. */
  ghost predicate FleetSelects(machineId: string, metadata: seq<string>, m: Machine) {
    SelectsNode(machineId, m) && HasMetadata(m, RequiredMetadata(metadata))
  }

  predicate SelectsNode(machineId: string, m: Machine) {
    machineId == "" || MatchId(m.id, ParseRule(machineId)[0])
  }

  /** The metadata option of a unit with these constraints. */
  function Rules(list: seq<Constraint>): seq<string> {
    if Metadata(list) == [] then [] else [Rule(Metadata(list))]
  }

  // ----- Reading what was written -----

  lemma {:induction false} ReadQuoted(value: string, rest: string, current: string)
    requires '"' !in value
    ensures ReadValues(value + "\"" + rest, true, current) == ReadValues(rest, false, current + value)
  {
    var line := value + "\"" + rest;
    if value == "" {
      assert line[1..] == rest && current + value == current;
    } else {
      assert line[1..] == value[1..] + "\"" + rest;
      ReadQuoted(value[1..], rest, current + [value[0]]);
      assert current + [value[0]] + value[1..] == current + value;
    }
  }

  lemma {:induction false} ReadRule(values: seq<string>)
    requires values != [] && forall i :: 0 <= i < |values| ==> '"' !in values[i]
    ensures ReadValues(Rule(values), false, "") == values
    ensures Rule(values)[0] == '"' && Rule(values)[|Rule(values)| - 1] == '"'
  {
    var v := values[0];
    if |values| == 1 {
      assert Rule(values)[1..] == v + "\"" + "";
      ReadQuoted(v, "", "");
      assert "" + v == v;
    } else {
      ReadRule(values[1..]);
      var rest := " " + Rule(values[1..]);
      assert Rule(values) == "\"" + (v + "\"" + rest);
      assert Rule(values)[1..] == v + "\"" + rest && rest[1..] == Rule(values[1..]);
      ReadQuoted(v, rest, "");
      assert "" + v == v;
    }
  }

  /** Fleet reads the values of a rule as they were written. */
  lemma RuleReadsBack(values: seq<string>)
    requires values != [] && forall i :: 0 <= i < |values| ==> '"' !in values[i]
    ensures ParseRule(Rule(values)) == values
  {
    ReadRule(values);
  }

  lemma {:induction false} SplitConcat(a: string, rest: string, sep: char)
    ensures |Split(a + [sep] + rest, sep)| == |Split(a, sep)| + |Split(rest, sep)|
    ensures |Split(a, sep)| == 1 <==> sep !in a
  {
    var s := a + [sep] + rest;
    if a == "" {
      assert s[1..] == rest;
    } else {
      SplitConcat(a[1..], rest, sep);
      assert s[1..] == a[1..] + [sep] + rest;
    }
  }

  /** The parts of an entry that fleet neither ignores nor reads differently. */
  predicate PlainPair(p: (string, string)) {
    && p.0 != "" && p.1 != "" && '=' !in p.0 && '=' !in p.1 && '"' !in p.0 && '"' !in p.1
  }

  predicate Expressible(c: Constraint)
    requires IsMeta(c)
  {
    PlainPair((MetaKey(c), c.value))
  }

  lemma EntryOf(key: string, value: string)
    ensures EntryPair(key + "=" + value)
         == if key != "" && value != "" && '=' !in key && '=' !in value then Some((key, value)) else None
  {
    SplitConcat(key, value, '=');
    SplitConcat(value, "", '=');
    if '=' !in key && '=' !in value {
      SplitTwoParts(key, value, '=');
    }
  }

  ghost predicate AllExpressible(list: seq<Constraint>) {
    forall i :: 0 <= i < |list| && IsMeta(list[i]) ==> Expressible(list[i])
  }

  function Pairs(list: seq<Constraint>): seq<(string, string)> {
    if list == [] then []
    else
      var c := list[|list| - 1];
      Pairs(list[..|list| - 1]) + if IsMeta(c) then [(MetaKey(c), c.value)] else []
  }

  lemma {:induction false} EntriesOf(list: seq<Constraint>)
    requires AllExpressible(list)
    ensures EntryPairs(Metadata(list)) == Pairs(list)
    ensures forall i :: 0 <= i < |Metadata(list)| ==> '"' !in Metadata(list)[i]
    ensures Metadata(list) == [] <==> Pairs(list) == []
  {
    if list != [] {
      var init, c := list[..|list| - 1], list[|list| - 1];
      EntriesOf(init);
      if IsMeta(c) {
        EntryOf(MetaKey(c), c.value);
        var all, entry := Metadata(list), MetaKey(c) + "=" + c.value;
        assert all == Metadata(init) + [entry];
        assert all[..|all| - 1] == Metadata(init) && all[|all| - 1] == entry;
      } else {
        assert Metadata(list) == Metadata(init) && Pairs(list) == Pairs(init);
      }
    }
  }

  lemma RulesReadBack(list: seq<Constraint>)
    requires AllExpressible(list)
    ensures RequiredMetadata(Rules(list)) == Pairs(list)
  {
    EntriesOf(list);
    if Metadata(list) != [] {
      RuleReadsBack(Metadata(list));
      assert [Rule(Metadata(list))][..0] == [];
    }
  }

  // ----- What fleet can require -----

  lemma {:induction false} ReadValuesHaveNoQuotes(line: string, quoted: bool, current: string)
    requires '"' !in current
    ensures forall v :: v in ReadValues(line, quoted, current) ==> '"' !in v
  {
    if line != "" {
      if line[0] == '"' {
        ReadValuesHaveNoQuotes(line[1..], !quoted, current);
      } else if line[0] == ' ' && !quoted {
        ReadValuesHaveNoQuotes(line[1..], quoted, "");
      } else {
        ReadValuesHaveNoQuotes(line[1..], quoted, current + [line[0]]);
      }
    }
  }

  lemma {:induction false} RuleInQuotes(values: seq<string>)
    requires values != []
    ensures InQuotes(Rule(values))
  {
    if |values| > 1 { RuleInQuotes(values[1..]); }
  }

  lemma PairIsPlain(entry: string)
    requires '"' !in entry && EntryPair(entry).Some?
    ensures PlainPair(EntryPair(entry).value)
  {
    JoinSplit(entry, '=');
    PartsHaveOnlyCharsOf(entry, '=', '"');
  }

  lemma {:induction false} PairsArePlain(entries: seq<string>)
    requires forall e :: e in entries ==> '"' !in e
    ensures forall p :: p in EntryPairs(entries) ==> PlainPair(p)
  {
    if entries != [] {
      PairsArePlain(entries[..|entries| - 1]);
      if EntryPair(entries[|entries| - 1]).Some? { PairIsPlain(entries[|entries| - 1]); }
    }
  }

  /** Whatever the texts of the constraints, fleet requires plain pairs only. */
  lemma RequiredIsPlain(list: seq<Constraint>)
    ensures forall p :: p in RequiredMetadata(Rules(list)) ==> PlainPair(p)
  {
    if Metadata(list) != [] {
      var rule := Rule(Metadata(list));
      RuleInQuotes(Metadata(list));
      ReadValuesHaveNoQuotes(rule, false, "");
      PairsArePlain(ParseRule(rule));
      assert [rule][..0] == [];
    }
  }

  // ----- Which machines fleet accepts -----

  /** Constraints that setupConstraints accepts for machines, with distinct attributes. */
  ghost predicate ForFleet(list: seq<Constraint>) {
    && Unique(list)
    && forall i :: 0 <= i < |list| && (IsMeta(list[i]) || IsNodeId(list[i])) ==> list[i].OperatorEquals("==")
  }

  /** Fleet takes the constraint as it is meant. */
  predicate TakenAsMeant(c: Constraint) {
    && (IsMeta(c) ==> Expressible(c))
    && (IsNodeId(c) ==> c.value != "" && |c.value| != SHORT_ID_LEN && !InQuotes(c.value))
  }

  ghost predicate AllTakenAsMeant(list: seq<Constraint>) {
    forall i :: 0 <= i < |list| ==> TakenAsMeant(list[i])
  }

  lemma {:induction false} InPairs(list: seq<Constraint>, p: (string, string))
    ensures p in Pairs(list) <==> exists i :: 0 <= i < |list| && IsMeta(list[i]) && p == (MetaKey(list[i]), list[i].value)
  {
    if list != [] {
      var init, c := list[..|list| - 1], list[|list| - 1];
      InPairs(init, p);
      assert list == init + [c];
      if i :| 0 <= i < |init| && IsMeta(init[i]) && p == (MetaKey(init[i]), init[i].value) {
        assert list[i] == init[i];
      }
    }
  }

  lemma FleetMeta(list: seq<Constraint>, m: Machine)
    requires ForFleet(list)
    ensures HasMetadata(m, Pairs(list)) <==> forall i :: 0 <= i < |list| && IsMeta(list[i]) ==> Satisfies(m, list[i])
  {
    var pairs := Pairs(list);
    if HasMetadata(m, pairs) {
      forall i | 0 <= i < |list| && IsMeta(list[i]) ensures Satisfies(m, list[i]) { MetaIsSatisfied(list, m, i); }
    }
    if forall i :: 0 <= i < |list| && IsMeta(list[i]) ==> Satisfies(m, list[i]) {
      forall k | 0 <= k < |pairs| ensures pairs[k].0 in m.meta && (pairs[k].0, m.meta[pairs[k].0]) in pairs {
        InPairs(list, pairs[k]);
        var i :| 0 <= i < |list| && IsMeta(list[i]) && pairs[k] == (MetaKey(list[i]), list[i].value);
        assert Satisfies(m, list[i]) && pairs[k] in pairs;
      }
    }
  }

  lemma MetaIsSatisfied(list: seq<Constraint>, m: Machine, i: nat)
    requires ForFleet(list) && HasMetadata(m, Pairs(list)) && i < |list| && IsMeta(list[i])
    ensures Satisfies(m, list[i])
  {
    var c, pairs := list[i], Pairs(list);
    InPairs(list, (MetaKey(c), c.value));
    var k :| 0 <= k < |pairs| && pairs[k] == (MetaKey(c), c.value);
    var value := m.meta[MetaKey(c)];
    InPairs(list, (MetaKey(c), value));
    var j :| 0 <= j < |list| && IsMeta(list[j]) && (MetaKey(c), value) == (MetaKey(list[j]), list[j].value);
    SameKeySameAttribute(c, list[j]);
    assert i == j;
  }

  lemma {:induction false} LastNodeIdIs(list: seq<Constraint>, i: nat)
    requires Unique(list) && i < |list| && IsNodeId(list[i])
    ensures LastNodeId(list) == list[i].value
  {
    if i < |list| - 1 { LastNodeIdIs(list[..|list| - 1], i); }
  }

  lemma {:induction false} NoNodeId(list: seq<Constraint>)
    requires forall i :: 0 <= i < |list| ==> !IsNodeId(list[i])
    ensures LastNodeId(list) == ""
  {
    if list != [] { NoNodeId(list[..|list| - 1]); }
  }

  lemma FleetNode(list: seq<Constraint>, m: Machine)
    requires ForFleet(list) && AllTakenAsMeant(list)
    ensures SelectsNode(LastNodeId(list), m) <==> forall i :: 0 <= i < |list| && IsNodeId(list[i]) ==> Satisfies(m, list[i])
  {
    hide Expressible;
    if i :| 0 <= i < |list| && IsNodeId(list[i]) {
      assert TakenAsMeant(list[i]);
      LastNodeIdIs(list, i);
      OneKind(list[i]);
      forall k | 0 <= k < |list| && IsNodeId(list[k]) ensures k == i { }
    } else {
      NoNodeId(list);
    }
  }

  lemma FleetAccepts(list: seq<Constraint>, m: Machine)
    requires ForFleet(list) && AllTakenAsMeant(list)
    ensures FleetSelects(LastNodeId(list), Rules(list), m) <==> SatisfiesAll(m, list)
  {
    assert AllExpressible(list) by {
      forall i | 0 <= i < |list| && IsMeta(list[i]) ensures Expressible(list[i]) { assert TakenAsMeant(list[i]); }
    }
    RulesReadBack(list);
    FleetMeta(list, m);
    FleetNode(list, m);
    hide HasMetadata, RequiredMetadata, Rules, Expressible, SelectsNode, TakenAsMeant;
  }

  /** Taking away the key of an entry that fleet does not read as meant makes no difference to fleet. */
  lemma KeyIsNotRequired(list: seq<Constraint>, i: nat)
    requires Unique(list) && i < |list| && IsMeta(list[i]) && !Expressible(list[i]) && list[i].OperatorEquals("==")
    ensures var w, required := Witness(list), RequiredMetadata(Rules(list));
            HasMetadata(w, required) ==> HasMetadata(Machine(w.id, w.meta - {MetaKey(list[i])}), required)
  {
    hide PlainPair, Rules, RequiredMetadata;
    var w, required, key := Witness(list), RequiredMetadata(Rules(list)), MetaKey(list[i]);
    WitnessSatisfies(list);
    assert Satisfies(w, list[i]);
    RequiredIsPlain(list);
    if HasMetadata(w, required) {
      forall k | 0 <= k < |required| ensures required[k].0 != key {
        assert required[k] in required;
      }
    }
  }

  /** A machine that fleet judges differently from what the list means. */
  lemma MisjudgedMachine(list: seq<Constraint>, i: nat) returns (m: Machine)
    requires ForFleet(list) && i < |list| && !TakenAsMeant(list[i])
    ensures FleetSelects(LastNodeId(list), Rules(list), m) != SatisfiesAll(m, list)
  {
    hide Rules, RequiredMetadata, Expressible;
    var w, c := Witness(list), list[i];
    WitnessSatisfies(list);
    OneKind(c);
    assert Satisfies(w, c);
    if !FleetSelects(LastNodeId(list), Rules(list), w) {
      m := w;
    } else if IsMeta(c) {
      KeyIsNotRequired(list, i);
      m := Machine(w.id, w.meta - {MetaKey(c)});
      assert !Satisfies(m, c);
    } else {
      LastNodeIdIs(list, i);
      assert w.id == c.value;
      if c.value != "" { AcceptedIsNotQuoted(c.value); }
      m := Machine(c.value + "x", w.meta);
      assert c.value != "" ==> m.id[..|c.value|] == c.value;
      assert !Satisfies(m, c);
    }
  }

  /** A machine whose id is in quotes is never found by its id. */
  lemma AcceptedIsNotQuoted(id: string)
    requires id != "" && MatchId(id, ParseRule(id)[0])
    ensures !InQuotes(id)
  {
    ReadValuesHaveNoQuotes(id, false, "");
    assert ParseRule(id)[0] in ParseRule(id);
    MatchedStart(id, ParseRule(id)[0]);
  }

  lemma MatchedStart(id: string, wanted: string)
    requires id != "" && MatchId(id, wanted)
    ensures id[0] in wanted
  {
    assert ShortId(id)[0] == id[0];
  }

  /**
  Fleet runs units on the machines that satisfy the constraints, all of them and no others, exactly
  when every metadata constraint has a key and a value, neither with "=" or a double quote, and no
  node id is empty, as long as a short machine id, or in double quotes.
  */
  lemma FleetIsRightWhenTakenAsMeant(list: seq<Constraint>)
    requires ForFleet(list)
    ensures (forall m :: FleetSelects(LastNodeId(list), Rules(list), m) <==> SatisfiesAll(m, list)) <==> AllTakenAsMeant(list)
  {
    hide FleetSelects, SatisfiesAll, ForFleet, Rules, TakenAsMeant;
    if AllTakenAsMeant(list) {
      forall m ensures FleetSelects(LastNodeId(list), Rules(list), m) <==> SatisfiesAll(m, list) { FleetAccepts(list, m); }
    } else {
      var i :| 0 <= i < |list| && !TakenAsMeant(list[i]);
      var m := MisjudgedMachine(list, i);
    }
  }

  /** Where fleet takes the constraints as meant and none is on "meta.id", Kubernetes accepts the same machines. */
  lemma SameMachines(job: string, list: seq<Constraint>, m: Machine)
    requires ForFleet(list) && AllTakenAsMeant(list) && Get(list, "meta.id").None?
    ensures FleetSelects(LastNodeId(list), Rules(list), m) <==> Selects(AffinityOf(job, list), m)
  {
    hide FleetSelects, SatisfiesAll, Selects;
    SelectorAccepts(job, list, m);
    FleetAccepts(list, m);
  }

  /** A constraint with "=" in its key or value, or without one of them, keeps a unit from no machine at all. */
  lemma IgnoredConstraint(c: Constraint, m: Machine)
    requires IsMeta(c) && '"' !in MetaKey(c) && '"' !in c.value
    requires MetaKey(c) == "" || c.value == "" || '=' in MetaKey(c) || '=' in c.value
    ensures FleetSelects(LastNodeId([c]), Rules([c]), m)
  {
    OneKind(c);
    NoNodeId([c]);
    var entry := MetaKey(c) + "=" + c.value;
    OneEntry(c);
    EntryOf(MetaKey(c), c.value);
    hide Rules, Rule, RequiredMetadata, IsMeta, EntryPair;
    DroppedEntry(entry);
  }

  lemma OneEntry(c: Constraint)
    requires IsMeta(c)
    ensures Rules([c]) == [Rule([MetaKey(c) + "=" + c.value])] && LastNodeId([c]) == (if IsNodeId(c) then c.value else "")
  {
    assert [c][..0] == [] && [c][|[c]| - 1] == c;
    assert Metadata([c]) == Metadata([]) + AddedMetadata(c) == [MetaKey(c) + "=" + c.value];
    assert LastNodeId([]) == "";
  }

  lemma DroppedEntry(entry: string)
    requires '"' !in entry && EntryPair(entry).None?
    ensures RequiredMetadata([Rule([entry])]) == []
  {
    hide EntryPair, ParseRule, Rule;
    RuleReadsBack([entry]);
    assert [entry][..0] == [] && [Rule([entry])][..0] == [];
    assert EntryPairs([entry]) == EntryPairs([]) + [];
    assert RequiredMetadata([Rule([entry])]) == RequiredMetadata([]) + EntryPairs([entry]);
  }

  // ----- The units to stay away from are right -----

  /** How fleet matches a pattern without "?", "[" and "\\": a star stands for any text without a slash. */
  predicate Glob(pattern: string, name: string)
    decreases |pattern| + |name|
  {
    if pattern == "" then name == ""
    else if pattern[0] == '*' then
      Glob(pattern[1..], name) || (name != "" && name[0] != '/' && Glob(pattern, name[1..]))
    else name != "" && name[0] == pattern[0] && Glob(pattern[1..], name[1..])
  }

  lemma {:induction false} GlobLiteral(pattern: string, name: string)
    requires '*' !in pattern
    ensures Glob(pattern, name) <==> name == pattern
  {
    if pattern != "" {
      if name != "" {
        GlobLiteral(pattern[1..], name[1..]);
        assert name == [name[0]] + name[1..] && pattern == [pattern[0]] + pattern[1..];
      }
    }
  }

  lemma {:induction false} GlobPrefix(a: string, rest: string, name: string)
    requires '*' !in a
    ensures Glob(a + rest, name) <==> HasPrefix(name, a) && Glob(rest, name[|a|..])
    decreases |a|
  {
    if a == "" {
      assert a + rest == rest && name[0..] == name && name[..0] == "";
    } else {
      assert (a + rest)[1..] == a[1..] + rest;
      if name != "" {
        GlobPrefix(a[1..], rest, name[1..]);
        assert name == [name[0]] + name[1..] && a == [a[0]] + a[1..];
        if |a| <= |name| {
          assert name[1..][..|a| - 1] == name[..|a|][1..];
          assert name[1..][|a| - 1..] == name[|a|..];
          assert name[..|a|] == [name[0]] + name[1..][..|a| - 1];
        }
      }
    }
  }

  lemma {:induction false} GlobStar(b: string, name: string)
    requires '*' !in b && '/' !in name
    ensures Glob("*" + b, name) <==> HasSuffix(name, b)
    decreases |name|
  {
    assert ("*" + b)[1..] == b;
    GlobLiteral(b, name);
    if name == "" {
      assert HasSuffix(name, b) <==> b == "";
    } else {
      GlobStar(b, name[1..]);
      if |b| < |name| {
        assert name[1..][|name| - 1 - |b|..] == name[|name| - |b|..];
      } else if |b| == |name| {
        assert name[|name| - |b|..] == name;
      }
    }
  }

  /** With one star, a name matches when it starts and ends like the pattern. */
  lemma GlobAround(a: string, b: string, name: string)
    requires '*' !in a && '*' !in b && '/' !in name
    ensures Glob(a + ("*" + b), name) <==> HasPrefix(name, a) && HasSuffix(name[|a|..], b)
  {
    GlobPrefix(a, "*" + b, name);
    if HasPrefix(name, a) {
      assert '/' !in name[|a|..];
      GlobStar(b, name[|a|..]);
    }
  }

  lemma NoSlashInName(u: UnitId)
    requires u.Valid()
    ensures '/' !in u.FullName() && '*' !in u.FullName()
  {
    FullNameParts(u);
    assert '/' !in u.job && '/' !in u.group && '/' !in u.task && '*' !in u.job && '*' !in u.group && '*' !in u.task;
    TailChars(u);
    hide UnitId.FullName, UnitId.Valid, Tail;
  }

  lemma TailChars(u: UnitId)
    ensures '/' !in Tail(u) && '*' !in Tail(u)
  {
    assert '/' !in Decimal(u.scalingGroup) && '*' !in Decimal(u.scalingGroup);
    assert '/' !in u.kind.Index() && '*' !in u.kind.Index();
    assert '/' !in u.kind.Code() && '*' !in u.kind.Code();
    assert '/' !in u.kind.UnitType() && '*' !in u.kind.UnitType();
  }

  /** The units that go by these names have these settings of their task group. */
  predicate OfGroup(u: UnitId, tg: TaskGroup) {
    u.group == tg.name ==> u.global == tg.global && u.count == tg.count
  }

  lemma PatternText(job: string, tg: TaskGroup, t: Task)
    requires ValidJobName(job) && ValidGroupName(tg.name) && ValidTaskName(t.name) && tg.count >= 1
    ensures var stem := job + "-" + tg.name + "-" + t.name + "-mn";
            MainPattern(job, tg, t) == if tg.global && tg.count == 1 then stem + ".service" else stem + "@" + ("*" + ".service")
  {
    assert '/' !in job && '/' !in tg.name && '/' !in t.name;
    SlashesToDashes(job, tg.name, t.name);
    var stem := job + "-" + tg.name + "-" + t.name + "-mn";
    assert stem + "@" + "*" + ".service" == stem + "@" + ("*" + ".service");
    hide ReplaceChar, ValidName;
  }

  /** The pattern for a task matches exactly the main units of that task, in every scaling group. */
  lemma PatternMatches(job: string, tg: TaskGroup, t: Task, u: UnitId)
    requires ValidJobName(job) && ValidGroupName(tg.name) && ValidTaskName(t.name) && tg.count >= 1
    requires u.Valid() && (u.job == job ==> OfGroup(u, tg))
    ensures Glob(MainPattern(job, tg, t), u.FullName()) <==> u.job == job && u.group == tg.name && u.task == t.name && u.kind.Main?
  {
    PatternText(job, tg, t);
    hide MainPattern;
    if tg.global && tg.count == 1 {
      SingleMatches(job, tg, t, u);
    } else {
      NumberedMatches(job, tg, t, u);
    }
  }

  lemma SingleMatches(job: string, tg: TaskGroup, t: Task, u: UnitId)
    requires ValidJobName(job) && ValidGroupName(tg.name) && ValidTaskName(t.name) && tg.global && tg.count == 1
    requires u.Valid() && (u.job == job ==> OfGroup(u, tg))
    ensures Glob(job + "-" + tg.name + "-" + t.name + "-mn" + ".service", u.FullName()) <==>
              u.job == job && u.group == tg.name && u.task == t.name && u.kind.Main?
  {
    var v := UnitId(job, tg.name, t.name, UnitKind.Main, 1, true, 1);
    FullNameText(v);
    assert job + "-" + tg.name + "-" + t.name + "-mn" + "" + ".service" == job + "-" + tg.name + "-" + t.name + "-mn" + ".service";
    NoSlashInName(v);
    GlobLiteral(v.FullName(), u.FullName());
    hide UnitId.FullName, UnitId.Valid;
    if u.FullName() == v.FullName() { FullNameInjective(u, v); }
  }

  lemma NumberedMatches(job: string, tg: TaskGroup, t: Task, u: UnitId)
    requires ValidJobName(job) && ValidGroupName(tg.name) && ValidTaskName(t.name) && !(tg.global && tg.count == 1)
    requires u.Valid() && (u.job == job ==> OfGroup(u, tg))
    ensures Glob(job + "-" + tg.name + "-" + t.name + "-mn" + "@" + ("*" + ".service"), u.FullName()) <==>
              u.job == job && u.group == tg.name && u.task == t.name && u.kind.Main?
  {
    var head := job + "-" + tg.name + "-" + t.name + "-mn" + "@";
    NoSlashInName(u);
    assert '*' !in job && '*' !in tg.name && '*' !in t.name;
    GlobAround(head, ".service", u.FullName());
    StartsWithMain(job, tg.name, t.name, u);
    hide Glob, UnitId.FullName;
    if u.job == job && u.group == tg.name && u.task == t.name && u.kind.Main? { EndsWithService(u, head); }
  }

  lemma EndsWithService(u: UnitId, head: string)
    requires u.Valid() && u.kind.Main? && u.Numbered() && head == u.job + "-" + u.group + "-" + u.task + "-mn" + "@"
    ensures HasPrefix(u.FullName(), head) && HasSuffix(u.FullName()[|head|..], ".service")
  {
    FullNameText(u);
    hide UnitId.FullName;
    var n := Decimal(u.scalingGroup);
    assert u.FullName() == head + (n + ".service");
    assert u.FullName()[|head|..] == n + ".service" && (n + ".service")[|n|..] == ".service";
  }

  /** Only numbered main units of the task have names that start like this. */
  lemma StartsWithMain(job: string, group: string, task: string, u: UnitId)
    requires ValidJobName(job) && ValidGroupName(group) && ValidTaskName(task) && u.Valid()
    ensures HasPrefix(u.FullName(), job + "-" + group + "-" + task + "-mn" + "@") ==>
              u.job == job && u.group == group && u.task == task && u.kind.Main? && u.Numbered()
  {
    var head, name := job + "-" + group + "-" + task + "-mn" + "@", u.FullName();
    if HasPrefix(name, head) {
      SplitFullName(u);
      assert '-' !in job && '-' !in group && '-' !in task;
      hide UnitId.FullName, ValidName;
      var rest := name[|head|..];
      assert name == head + rest;
      Reassociate(job, group, task, rest);
      SplitThreeThen(job, group, task, "mn@" + rest);
      var last := Split("mn@" + rest, '-');
      OneLeft(job, group, task, last, u.job, u.group, u.task, Tail(u));
      JoinSplit("mn@" + rest, '-');
      TailOfMain(u, rest);
    }
  }

  lemma Reassociate(a: string, b: string, c: string, rest: string)
    ensures a + "-" + b + "-" + c + "-mn" + "@" + rest == a + "-" + (b + "-" + (c + "-" + ("mn@" + rest)))
  {
    assert "-mn" + "@" == "-" + "mn@";
  }

  lemma SplitThreeThen(a: string, b: string, c: string, rest: string)
    requires '-' !in a && '-' !in b && '-' !in c
    ensures Split(a + "-" + (b + "-" + (c + "-" + rest)), '-') == [a] + ([b] + ([c] + Split(rest, '-')))
  {
    hide Split;
    SplitFirstPart(c, rest, '-');
    SplitFirstPart(b, c + "-" + rest, '-');
    SplitFirstPart(a, b + "-" + (c + "-" + rest), '-');
  }

  lemma OneLeft(a: string, b: string, c: string, last: seq<string>, p: string, q: string, r: string, t: string)
    requires [a] + ([b] + ([c] + last)) == [p, q, r, t]
    ensures a == p && b == q && c == r && last == [t]
  {
    var x := [a] + ([b] + ([c] + last));
    assert x[0] == a && x[1] == b && x[2] == c && |x| == 3 + |last|;
    assert last == x[3..];
  }

  lemma TailOfMain(u: UnitId, rest: string)
    requires u.Valid() && Tail(u) == "mn@" + rest
    ensures u.kind.Main? && u.Numbered()
  {
    assert Tail(u)[0] == 'm' && Tail(u)[2] == '@';
    assert Tail(u)[0] == u.kind.Code()[0];
    ThirdInTail(u);
  }

  lemma ThirdInTail(u: UnitId)
    ensures u.kind.Main? ==> Tail(u)[2] == if u.Numbered() then '@' else '.'
  {
    if u.kind.Main? {
      var at := AtInstance(u);
      assert Tail(u) == "mn" + (at + ".service");
    }
  }

  /** The list asks to stay away from the task group. */
  predicate Avoids(list: seq<Constraint>, group: string) {
    exists i :: 0 <= i < |list| && list[i].attribute == "taskgroup" && list[i].value == group
  }

  /**
  The units that a unit conflicts with are exactly the main units of the task groups to stay away
  from.
  */
  lemma ConflictsAreRight(job: string, groups: seq<TaskGroup>, list: seq<Constraint>, u: UnitId)
    requires ValidJobName(job) && (forall i :: 0 <= i < |groups| ==> groups[i].Valid())
    requires forall i, j :: 0 <= i < j < |groups| ==> groups[i].name != groups[j].name
    requires u.Valid() && (u.job == job ==> forall i :: 0 <= i < |groups| ==> OfGroup(u, groups[i]))
    ensures (exists p :: p in Conflicts(job, groups, list) && Glob(p, u.FullName())) <==>
              && u.job == job && u.kind.Main? && Avoids(list, u.group)
              && exists tg, t :: tg in groups && t in tg.tasks && tg.name == u.group && t.name == u.task
  {
    hide UnitId.FullName, UnitId.Valid, MainPattern, Glob, TaskGroup.Valid;
    if list == [] {
    } else {
      var init, c := list[..|list| - 1], list[|list| - 1];
      ConflictsAreRight(job, groups, init, u);
      AvoidsLast(list, u.group);
      var tg := FindGroup(groups, c.value);
      if c.attribute == "taskgroup" && tg.Some? {
        GroupPatterns(job, groups, tg.value, u);
      }
      OnlyGroup(groups, c.value);
    }
  }

  /**
  What fleet can express, for the task groups of a valid job: an equal value of a metadata key or of
  the machine, and a task group to stay away from.
  */
  lemma WhatFleetExpresses(c: Constraint, groups: seq<TaskGroup>)
    requires forall i :: 0 <= i < |groups| ==> groups[i].Valid()
    ensures FleetErrorOf(c, groups) == None <==>
              if IsMeta(c) || IsNodeId(c) then c.operator in {"", "=="}
              else c.attribute == "taskgroup" && c.operator == "!=" && HasGroup(groups, c.value)
  {
    OperatorTexts(c);
    hide Constraint.OperatorEquals, ValidGroupName;
    if HasGroup(groups, c.value) {
      var i :| 0 <= i < |groups| && groups[i].name == c.value;
      assert FindGroup(groups, c.value).value in groups;
    }
  }

  /** In an accepted list every constraint on a task group asks to stay away from it. */
  lemma AcceptedAvoids(list: seq<Constraint>, groups: seq<TaskGroup>, group: string)
    requires forall i :: 0 <= i < |groups| ==> groups[i].Valid()
    requires forall i :: 0 <= i < |list| ==> FleetErrorOf(list[i], groups) == None
    ensures Avoids(list, group) <==> Constraint("taskgroup", group, "!=") in list
  {
    hide FleetErrorOf, IsMeta, TaskGroup.Valid;
    forall i | 0 <= i < |list| && list[i].attribute == "taskgroup" ensures list[i] == Constraint("taskgroup", list[i].value, "!=") {
      WhatFleetExpresses(list[i], groups);
      TaskGroupIsNoMeta(list[i]);
    }
  }

  lemma TaskGroupIsNoMeta(c: Constraint)
    requires c.attribute == "taskgroup"
    ensures !IsMeta(c) && !IsNodeId(c)
  {
    assert "taskgroup"[0] != "meta."[0] && "taskgroup"[0] != "node.id"[0];
  }

  lemma AvoidsLast(list: seq<Constraint>, group: string)
    requires list != []
    ensures Avoids(list, group) <==>
              Avoids(list[..|list| - 1], group) || (list[|list| - 1].attribute == "taskgroup" && list[|list| - 1].value == group)
  {
    var init := list[..|list| - 1];
    assert forall i :: 0 <= i < |init| ==> init[i] == list[i];
  }

  lemma OnlyGroup(groups: seq<TaskGroup>, name: string)
    requires forall i, j :: 0 <= i < j < |groups| ==> groups[i].name != groups[j].name
    ensures forall tg :: tg in groups && tg.name == name ==> FindGroup(groups, name) == Some(tg)
  {
    forall tg | tg in groups && tg.name == name ensures FindGroup(groups, name) == Some(tg) {
      var i :| 0 <= i < |groups| && groups[i] == tg;
      assert HasGroup(groups, name);
      var j :| 0 <= j < |groups| && groups[j] == FindGroup(groups, name).value;
    }
  }

  lemma GroupPatterns(job: string, groups: seq<TaskGroup>, tg: TaskGroup, u: UnitId)
    requires ValidJobName(job) && tg in groups && (forall i :: 0 <= i < |groups| ==> groups[i].Valid())
    requires u.Valid() && (u.job == job ==> forall i :: 0 <= i < |groups| ==> OfGroup(u, groups[i]))
    ensures (exists p :: p in MainPatterns(job, tg, tg.tasks) && Glob(p, u.FullName())) <==>
              u.job == job && u.group == tg.name && u.kind.Main? && exists t :: t in tg.tasks && t.name == u.task
  {
    hide UnitId.FullName, UnitId.Valid, MainPattern, MainPatterns, Glob, TaskGroup.Valid;
    PatternsAre(job, tg, tg.tasks);
    if p :| p in MainPatterns(job, tg, tg.tasks) && Glob(p, u.FullName()) {
      var t :| t in tg.tasks && p == MainPattern(job, tg, t);
      TaskPattern(job, groups, tg, t, u);
    }
    if t :| t in tg.tasks && t.name == u.task {
      TaskPattern(job, groups, tg, t, u);
      assert MainPattern(job, tg, t) in MainPatterns(job, tg, tg.tasks);
    }
  }

  lemma TaskPattern(job: string, groups: seq<TaskGroup>, tg: TaskGroup, t: Task, u: UnitId)
    requires ValidJobName(job) && tg in groups && t in tg.tasks && (forall i :: 0 <= i < |groups| ==> groups[i].Valid())
    requires u.Valid() && (u.job == job ==> forall i :: 0 <= i < |groups| ==> OfGroup(u, groups[i]))
    ensures Glob(MainPattern(job, tg, t), u.FullName()) <==> u.job == job && u.group == tg.name && u.task == t.name && u.kind.Main?
  {
    hide UnitId.FullName, UnitId.Valid, MainPattern, Glob, ValidName, LinksExist;
    var k :| 0 <= k < |groups| && groups[k] == tg;
    var i :| 0 <= i < |tg.tasks| && tg.tasks[i] == t;
    PatternMatches(job, tg, t, u);
  }

  lemma {:induction false} PatternsAre(job: string, tg: TaskGroup, tasks: seq<Task>)
    ensures forall p :: p in MainPatterns(job, tg, tasks) <==> exists t :: t in tasks && p == MainPattern(job, tg, t)
  {
    hide MainPattern;
    if tasks != [] {
      var init, last := tasks[..|tasks| - 1], tasks[|tasks| - 1];
      PatternsAre(job, tg, init);
      assert tasks == init + [last];
    }
  }
}
