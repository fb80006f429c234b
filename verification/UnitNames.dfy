/**
Names of the fleet units J2 generates, and the string tests by which the fleet scheduler
recognises, from a name alone, the job, task group and scaling group a unit belongs to.
*/
module UnitNames {
  import opened Strings

  // ----- Valid names -----

  predicate IsNameChar(c: char) { 'a' <= c <= 'z' || IsDigit(c) || c == '_' }

  /** The patterns of job, task group and task names: [a-z0-9_], `min` to 30 characters. */
  predicate ValidName(s: string, min: nat) {
    min <= |s| <= 30 && forall i :: 0 <= i < |s| ==> IsNameChar(s[i])
  }

  predicate ValidJobName(s: string) { ValidName(s, 3) }
  predicate ValidGroupName(s: string) { ValidName(s, 2) }
  predicate ValidTaskName(s: string) { ValidName(s, 2) }

  // ----- Generated names -----

  datatype UnitKind = Main | Volume(index: nat) | Proxy(index: nat) | Timer
  {
    function Code(): string {
      match this
      case Main => "mn"
      case Volume(_) => "vl"
      case Proxy(_) => "pr"
      case Timer => "ti"
    }

    function Index(): string {
      match this
      case Main => ""
      case Volume(i) => Decimal(i)
      case Proxy(i) => Decimal(i)
      case Timer => ""
    }

    /** The kind as it stands in a unit name: "-mn", "-vl0", "-pr0", "-ti". */
    function Postfix(): string { "-" + Code() + Index() }

    function UnitType(): string { if Timer? then "timer" else "service" }
  }

  /** What a unit is generated from; `global` and `count` are those of its task group. */
  datatype UnitId = UnitId(job: string, group: string, task: string, kind: UnitKind,
                           scalingGroup: nat, global: bool, count: nat)
  {
    predicate Valid() {
      && ValidJobName(job) && ValidGroupName(group) && ValidTaskName(task)
      && 1 <= scalingGroup <= count
    }

    /** Units of a global group with a single instance carry no scaling group in their name. */
    predicate Numbered() { !(global && count == 1) }

    function TaskFullName(): string { job + "/" + group + "/" + task }

    function UnitNameExt(postfix: string, instance: string): string {
      var base := ReplaceChar(TaskFullName(), '/', '-') + postfix;
      if Numbered() then base + "@" + instance else base
    }

    function UnitName(): string { UnitNameExt(kind.Postfix(), Decimal(scalingGroup)) }

    function FullName(): string { UnitName() + "." + kind.UnitType() }
  }

  // ----- Recognisers -----

  /** The unit suffix the scheduler knows, or "" when there is none. */
  function UnitSuffix(name: string): string {
    if HasSuffix(name, ".service") then ".service"
    else if HasSuffix(name, ".timer") then ".timer"
    else ""
  }

  predicate IsUnitForJob(name: string, job: string) {
    HasPrefix(name, job + "-") && UnitSuffix(name) != ""
  }

  predicate IsUnitForTaskGroup(name: string, job: string, group: string) {
    HasPrefix(name, job + "-" + group + "-") && UnitSuffix(name) != ""
  }

  predicate IsUnitForScalingGroup(name: string, job: string, scalingGroup: nat) {
    var suffix := UnitSuffix(name);
    && HasPrefix(name, job + "-")
    && suffix != ""
    && var stem := name[..|name| - |suffix|];
       HasSuffix(stem, "@" + Decimal(scalingGroup)) || (scalingGroup == 1 && '@' !in stem)
  }

  // ----- The parts of a generated name -----

  function AtInstance(u: UnitId): string {
    if u.Numbered() then "@" + Decimal(u.scalingGroup) else ""
  }

  /** The last dash-separated part of a full name, for example "vl0@3.service". */
  function Tail(u: UnitId): string {
    u.kind.Code() + u.kind.Index() + AtInstance(u) + "." + u.kind.UnitType()
  }

  lemma SlashesToDashes(a: string, b: string, c: string)
    requires '/' !in a && '/' !in b && '/' !in c
    ensures ReplaceChar(a + "/" + b + "/" + c, '/', '-') == a + "-" + b + "-" + c
  {
    var s, r := a + "/" + b + "/" + c, a + "-" + b + "-" + c;
    forall i | 0 <= i < |s| ensures ReplaceChar(s, '/', '-')[i] == r[i] {
      if i < |a| {
        assert a[i] in a;
      } else if |a| < i < |a| + 1 + |b| {
        assert b[i - |a| - 1] in b;
      } else if i > |a| + 1 + |b| {
        assert c[i - |a| - |b| - 2] in c;
      }
    }
  }

  lemma Regroup(stem: string, code: string, index: string, instance: string, ext: string)
    ensures stem + ("-" + code + index) + "@" + instance + "." + ext == stem + "-" + (code + index + ("@" + instance) + "." + ext)
    ensures stem + ("-" + code + index) + "." + ext == stem + "-" + (code + index + "" + "." + ext)
  {
  }

  /** The text of a full name. A global group with one instance has no number in the names of its units. */
  lemma FullNameText(u: UnitId)
    requires u.Valid()
    ensures u.FullName() ==
              u.job + "-" + u.group + "-" + u.task
              + (match u.kind
                 case Main => "-mn"
                 case Volume(i) => "-vl" + Decimal(i)
                 case Proxy(i) => "-pr" + Decimal(i)
                 case Timer => "-ti")
              + (if u.global && u.count == 1 then "" else "@" + Decimal(u.scalingGroup))
              + (if u.kind.Timer? then ".timer" else ".service")
  {
    FullNameStem(u);
    var stem, at := u.job + "-" + u.group + "-" + u.task, AtInstance(u);
    var code, index := u.kind.Code(), u.kind.Index();
    assert stem + "-" + (code + index + at + "." + u.kind.UnitType()) == stem + ("-" + code + index) + at + ("." + u.kind.UnitType());
    assert "-" + "mn" + "" == "-mn" && "-" + "ti" + "" == "-ti" && "-" + "vl" == "-vl" && "-" + "pr" == "-pr";
    assert "." + "timer" == ".timer" && "." + "service" == ".service";
  }

  lemma TailHasNoDash(u: UnitId)
    ensures '-' !in Tail(u)
  {
    assert '-' !in u.kind.Index();
    assert '-' !in Decimal(u.scalingGroup);
    assert '-' !in u.kind.Code();
    assert '-' !in u.kind.UnitType();
  }

  lemma FullNameStem(u: UnitId)
    requires u.Valid()
    ensures u.FullName() == u.job + "-" + u.group + "-" + u.task + "-" + Tail(u)
  {
    assert '/' !in u.job && '/' !in u.group && '/' !in u.task;
    hide ReplaceChar, Decimal, ValidName, UnitKind.Code, UnitKind.Index, UnitKind.UnitType;
    SlashesToDashes(u.job, u.group, u.task);
    var stem := u.job + "-" + u.group + "-" + u.task;
    assert u.UnitNameExt(u.kind.Postfix(), Decimal(u.scalingGroup)) ==
           if u.Numbered() then stem + u.kind.Postfix() + "@" + Decimal(u.scalingGroup) else stem + u.kind.Postfix();
    Regroup(stem, u.kind.Code(), u.kind.Index(), Decimal(u.scalingGroup), u.kind.UnitType());
  }

  lemma FullNameParts(u: UnitId)
    requires u.Valid()
    ensures u.FullName() == u.job + "-" + (u.group + "-" + (u.task + "-" + Tail(u)))
    ensures '-' !in u.job && '-' !in u.group && '-' !in u.task && '-' !in Tail(u)
  {
    FullNameStem(u);
    TailHasNoDash(u);
    NestDashes(u.job, u.group, u.task, Tail(u));
  }

  lemma NestDashes(a: string, b: string, c: string, d: string)
    ensures a + "-" + b + "-" + c + "-" + d == a + "-" + (b + "-" + (c + "-" + d))
  {
  }

  lemma SplitFour(a: string, b: string, c: string, d: string)
    requires '-' !in a && '-' !in b && '-' !in c && '-' !in d
    ensures Split(a + "-" + (b + "-" + (c + "-" + d)), '-') == [a, b, c, d]
  {
    SplitOnePart(d, '-');
    SplitFirstPart(c, d, '-');
    SplitFirstPart(b, c + "-" + d, '-');
    SplitFirstPart(a, b + "-" + (c + "-" + d), '-');
  }

  lemma SplitFullName(u: UnitId)
    requires u.Valid()
    ensures Split(u.FullName(), '-') == [u.job, u.group, u.task, Tail(u)]
  {
    FullNameParts(u);
    SplitFour(u.job, u.group, u.task, Tail(u));
  }

  lemma SplitTail(u: UnitId)
    ensures Split(Tail(u), '.') == [u.kind.Code() + u.kind.Index() + AtInstance(u), u.kind.UnitType()]
  {
    assert '.' !in u.kind.Code() + u.kind.Index() + AtInstance(u);
    assert '.' !in u.kind.UnitType();
    SplitTwoParts(u.kind.Code() + u.kind.Index() + AtInstance(u), u.kind.UnitType(), '.');
    assert Tail(u) == u.kind.Code() + u.kind.Index() + AtInstance(u) + "." + u.kind.UnitType();
  }

  lemma KindInjective(k: UnitKind, l: UnitKind)
    requires k.Code() + k.Index() == l.Code() + l.Index()
    ensures k == l
  {
    var a, b := k.Code() + k.Index(), l.Code() + l.Index();
    assert a[0] == k.Code()[0] && b[0] == l.Code()[0];
    assert a[2..] == k.Index() && b[2..] == l.Index();
    if k.Volume? || k.Proxy? {
      DecimalInjective(k.index, l.index);
    }
  }

  lemma TailInjective(u: UnitId, v: UnitId)
    requires u.Valid() && v.Valid() && Tail(u) == Tail(v)
    ensures u.kind == v.kind && u.scalingGroup == v.scalingGroup
  {
    SplitTail(u);
    SplitTail(v);
    var a, b := Split(Tail(u), '.')[0], Split(Tail(v), '.')[0];
    assert a == b;
    SplitAt(u);
    SplitAt(v);
    var p, q := Split(a, '@'), Split(b, '@');
    assert p[0] == q[0] && |p| == |q|;
    KindInjective(u.kind, v.kind);
    if u.Numbered() {
      assert p[1] == q[1];
      DecimalInjective(u.scalingGroup, v.scalingGroup);
    }
  }

  lemma SplitAt(u: UnitId)
    ensures Split(u.kind.Code() + u.kind.Index() + AtInstance(u), '@')
         == if u.Numbered() then [u.kind.Code() + u.kind.Index(), Decimal(u.scalingGroup)]
            else [u.kind.Code() + u.kind.Index()]
  {
    var a := u.kind.Code() + u.kind.Index();
    if u.Numbered() {
      SplitTwoParts(a, Decimal(u.scalingGroup), '@');
      assert a + AtInstance(u) == a + "@" + Decimal(u.scalingGroup);
    } else {
      assert a + AtInstance(u) == a;
      SplitOnePart(a, '@');
    }
  }

  /** Two generated units with the same name were generated from the same thing. */
  lemma FullNameInjective(u: UnitId, v: UnitId)
    requires u.Valid() && v.Valid() && u.FullName() == v.FullName()
    ensures u.job == v.job && u.group == v.group && u.task == v.task
    ensures u.kind == v.kind && u.scalingGroup == v.scalingGroup
  {
    SplitFullName(u);
    SplitFullName(v);
    var parts := Split(u.FullName(), '-');
    assert parts[0] == v.job && parts[1] == v.group && parts[2] == v.task && parts[3] == Tail(v);
    TailInjective(u, v);
  }

  // ----- Recognising generated names -----

  lemma DashedPrefix(p: string, q: string, rest: string)
    requires '-' !in p && '-' !in q
    ensures HasPrefix(p + "-" + rest, q + "-") <==> p == q
  {
    var s := p + "-" + rest;
    if HasPrefix(s, q + "-") {
      assert s == q + "-" + s[|q| + 1..];
      SplitFirstPart(p, rest, '-');
      SplitFirstPart(q, s[|q| + 1..], '-');
      assert Split(s, '-')[0] == p && Split(s, '-')[0] == q;
    }
    if p == q {
      assert s[..|q| + 1] == q + "-";
    }
  }

  lemma LastCharOfSuffix(s: string, suffix: string)
    requires suffix != "" && HasSuffix(s, suffix)
    ensures s[|s| - 1] == suffix[|suffix| - 1]
  {
    assert s[|s| - 1] == s[|s| - |suffix|..][|suffix| - 1];
  }

  lemma SuffixOfName(stem: string, timer: bool)
    ensures var suffix := if timer then ".timer" else ".service";
            && UnitSuffix(stem + suffix) == suffix
            && (stem + suffix)[..|stem + suffix| - |suffix|] == stem
  {
    var suffix := if timer then ".timer" else ".service";
    var n := stem + suffix;
    assert n[|n| - |suffix|..] == suffix;
    LastCharOfSuffix(n, suffix);
    if HasSuffix(n, ".service") { LastCharOfSuffix(n, ".service"); }
  }

  lemma SuffixOf(u: UnitId)
    ensures UnitSuffix(u.FullName()) == (if u.kind.Timer? then ".timer" else ".service")
    ensures u.FullName()[..|u.FullName()| - |UnitSuffix(u.FullName())|] == u.UnitName()
  {
    var stem, suffix := u.UnitName(), if u.kind.Timer? then ".timer" else ".service";
    hide UnitSuffix, UnitId.UnitName;
    SuffixOfName(stem, u.kind.Timer?);
    assert "." + u.kind.UnitType() == suffix;
    assert u.FullName() == stem + suffix;
  }

  /** A generated unit is recognised by its own job, and by no other. */
  lemma RecognisedByItsJob(u: UnitId, job: string)
    requires u.Valid() && ValidJobName(job)
    ensures IsUnitForJob(u.FullName(), job) <==> job == u.job
  {
    FullNameParts(u);
    SuffixOf(u);
    DashedPrefix(u.job, job, u.group + "-" + (u.task + "-" + Tail(u)));
  }

  lemma TwoDashedPrefixes(a: string, b: string, rest: string, p: string, q: string)
    requires '-' !in a && '-' !in b && '-' !in p && '-' !in q
    ensures HasPrefix(a + "-" + (b + "-" + rest), p + "-" + q + "-") <==> a == p && b == q
  {
    var name, prefix := a + "-" + (b + "-" + rest), p + "-" + q + "-";
    DashedPrefix(a, p, b + "-" + rest);
    DashedPrefix(b, q, rest);
    if HasPrefix(name, prefix) {
      assert name[..|p| + 1] == prefix[..|p| + 1] == p + "-";
      assert HasPrefix(name, p + "-");
      var tail := name[|p| + 1..];
      assert tail == b + "-" + rest;
      assert tail[..|q| + 1] == prefix[|p| + 1..] == q + "-";
      assert HasPrefix(tail, q + "-");
    }
    if a == p && b == q {
      assert name[..|prefix|] == prefix;
    }
  }

  /** A generated unit is recognised by its own task group of its own job, and by no other. */
  lemma RecognisedByItsTaskGroup(u: UnitId, job: string, group: string)
    requires u.Valid() && ValidJobName(job) && ValidGroupName(group)
    ensures IsUnitForTaskGroup(u.FullName(), job, group) <==> job == u.job && group == u.group
  {
    FullNameParts(u);
    SuffixOf(u);
    TwoDashedPrefixes(u.job, u.group, u.task + "-" + Tail(u), job, group);
  }

  lemma LastAt(s: string, i: nat, p: string)
    requires '@' !in p && i < |s| && s[i..] == "@" + p
    ensures s[i] == '@' && s[i + 1..] == p && forall j :: i < j < |s| ==> s[j] != '@'
  {
    assert s[i] == s[i..][0];
    assert s[i + 1..] == s[i..][1..];
    forall j | i < j < |s| ensures s[j] != '@' {
      assert s[j] == p[j - i - 1] && p[j - i - 1] in p;
    }
  }

  lemma AtSuffixes(s: string, p: string, q: string)
    requires '@' !in p && '@' !in q && HasSuffix(s, "@" + p) && HasSuffix(s, "@" + q)
    ensures p == q
  {
    var i, j := |s| - |p| - 1, |s| - |q| - 1;
    assert s[i..] == "@" + p && s[j..] == "@" + q;
    LastAt(s, i, p);
    LastAt(s, j, q);
    assert p == s[i + 1..] && q == s[j + 1..];
  }

  /** No name at all, generated or not, is claimed by two scaling groups. */
  lemma ScalingGroupsAreExclusive(name: string, job: string, g: nat, h: nat)
    requires IsUnitForScalingGroup(name, job, g) && IsUnitForScalingGroup(name, job, h)
    ensures g == h
  {
    var stem := name[..|name| - |UnitSuffix(name)|];
    if HasSuffix(stem, "@" + Decimal(g)) {
      AtInStem(stem, g);
      AtSuffixes(stem, Decimal(g), Decimal(h));
      DecimalInjective(g, h);
    } else if HasSuffix(stem, "@" + Decimal(h)) {
      AtInStem(stem, h);
    }
  }

  lemma AtInStem(stem: string, g: nat)
    requires HasSuffix(stem, "@" + Decimal(g))
    ensures '@' in stem
  {
    var i := |stem| - |Decimal(g)| - 1;
    assert stem[i] == stem[i..][0];
  }

  /** A unit generated for scaling group g is recognised for g, and for no other group. */
  lemma RecognisedByItsScalingGroup(u: UnitId, job: string, g: nat)
    requires u.Valid() && ValidJobName(job)
    ensures IsUnitForScalingGroup(u.FullName(), job, g) <==> job == u.job && g == u.scalingGroup
  {
    if job == u.job {
      OwnScalingGroup(u);
      if IsUnitForScalingGroup(u.FullName(), job, g) {
        ScalingGroupsAreExclusive(u.FullName(), job, g, u.scalingGroup);
      }
    } else {
      RecognisedByItsJob(u, job);
    }
  }

  lemma OwnScalingGroup(u: UnitId)
    requires u.Valid()
    ensures IsUnitForScalingGroup(u.FullName(), u.job, u.scalingGroup)
  {
    RecognisedByItsJob(u, u.job);
    SuffixOf(u);
    var stem := u.UnitName();
    if u.Numbered() {
      assert HasSuffix(stem, "@" + Decimal(u.scalingGroup));
    } else {
      NoAt(u);
    }
  }

  lemma NoAt(u: UnitId)
    requires u.Valid() && !u.Numbered()
    ensures '@' !in u.UnitName()
  {
    assert '@' !in u.job && '@' !in u.group && '@' !in u.task;
    assert '@' !in u.TaskFullName();
    assert '@' !in ReplaceChar(u.TaskFullName(), '/', '-');
    assert '@' !in u.kind.Postfix() by { assert '@' !in u.kind.Index(); }
  }

  /** What a scaling group recognises, the job recognises. */
  lemma ScalingGroupWithinJob(name: string, job: string, g: nat)
    requires IsUnitForScalingGroup(name, job, g)
    ensures IsUnitForJob(name, job)
  {
  }
}
