/**
Command lines of systemd units. Long arguments are factored out into environment variables that all
command lines of a unit share; systemd puts them back by expanding $-references.
*/
module Cmdline {
  import opened Strings

  const SHORT_ARG_LEN := 4

  /** A map from variable names to values that is passed around by reference. */
  class Env {
    var vars: map<string, string>

    constructor ()
      ensures vars == map[]
    {
      vars := map[];
    }
  }

  /** The variables are called A00, A01 and so on without gaps, and no two have the same value. */
  ghost predicate ValidVars(vars: map<string, string>) {
    vars.Keys == KeysUpTo(|vars|) && ValidValues(vars)
  }

  ghost predicate ValidValues(vars: map<string, string>) {
    DistinctValues(vars) && forall k :: k in vars ==> |vars[k]| > SHORT_ARG_LEN && '$' !in vars[k]
  }

  ghost function KeysUpTo(n: nat): set<string> {
    if n == 0 then {} else KeysUpTo(n - 1) + {Key(n - 1)}
  }

  lemma {:induction false} KeyBelow(m: nat, n: nat)
    ensures Key(m) in KeysUpTo(n) <==> m < n
  {
    if n > 0 {
      KeyBelow(m, n - 1);
      if Key(m) == Key(n - 1) { KeyInjective(m, n - 1); }
    }
  }

  /** fmt.Sprintf("A%02d", n). */
  function Key(n: nat): string {
    "A" + if n < 10 then "0" + Decimal(n) else Decimal(n)
  }

  lemma KeyInjective(m: nat, n: nat)
    requires Key(m) == Key(n)
    ensures m == n
  {
    KeyValue(m);
    KeyValue(n);
  }

  lemma KeyValue(n: nat)
    ensures AllDigits(Key(n)[1..]) && DecimalValue(Key(n)[1..]) == n
  {
    DecimalRoundTrip(n);
    var digits := Key(n)[1..];
    if n < 10 {
      assert digits == ['0', DigitChar(n)];
      assert digits[..1] == ['0'] && ['0'][..0] == "";
    } else {
      assert digits == Decimal(n);
    }
  }

  /** What systemd makes of a word on a command line. */
  function Expand(word: string, vars: map<string, string>): string {
    if word != "" && word[0] == '$' && word[1..] in vars then vars[word[1..]] else word
  }

  predicate IsDirect(arg: string) { |arg| <= SHORT_ARG_LEN || '$' in arg }

  /** The word stands for the argument: it is the argument, or a reference to a variable with its value. */
  ghost predicate StandsFor(word: string, arg: string, vars: map<string, string>) {
    || (word == arg && IsDirect(arg))
    || (word != "" && word[0] == '$' && word[1..] in vars && vars[word[1..]] == arg)
  }

  /** The argument is itself written as a reference to one of the first n variables. */
  ghost predicate LooksLikeReference(arg: string, n: nat) {
    exists i: nat :: i < n && arg == "$" + Key(i)
  }

  /** The arguments that are factored out, each once. */
  ghost function LongArgs(args: seq<string>): set<string> {
    set a | a in args && !IsDirect(a)
  }

  ghost function ValuesOf(vars: map<string, string>): set<string> {
    set k | k in vars :: vars[k]
  }

  ghost predicate DistinctValues(vars: map<string, string>) {
    forall k, l :: k in vars && l in vars && vars[k] == vars[l] ==> k == l
  }

  lemma ValuesWithout(vars: map<string, string>, k: string)
    requires DistinctValues(vars) && k in vars
    ensures DistinctValues(vars - {k}) && |vars - {k}| == |vars| - 1
    ensures ValuesOf(vars) == ValuesOf(vars - {k}) + {vars[k]} && vars[k] !in ValuesOf(vars - {k})
  {
    var rest := vars - {k};
    assert vars.Keys == rest.Keys + {k};
    forall v | v in ValuesOf(vars) ensures v in ValuesOf(rest) + {vars[k]} {
      var l :| l in vars && vars[l] == v;
      if l != k { assert l in rest && rest[l] == v; }
    }
    forall v | v in ValuesOf(rest) ensures v in ValuesOf(vars) && v != vars[k] {
      var l :| l in rest && rest[l] == v;
      assert l in vars && vars[l] == v;
    }
  }

  lemma {:induction false} AsManyValues(vars: map<string, string>)
    requires DistinctValues(vars)
    ensures |ValuesOf(vars)| == |vars|
    decreases |vars|
  {
    hide DistinctValues;
    if vars == map[] {
      assert ValuesOf(vars) == {};
    } else {
      var k :| k in vars;
      ValuesWithout(vars, k);
      AsManyValues(vars - {k});
    }
  }

  lemma {:induction false} InKeysUpTo(k: string, n: nat)
    ensures k in KeysUpTo(n) <==> exists i: nat :: i < n && k == Key(i)
  {
    if n > 0 { InKeysUpTo(k, n - 1); }
  }

  lemma ReferenceIsKey(arg: string, vars: map<string, string>)
    requires ValidVars(vars)
    ensures LooksLikeReference(arg, |vars|) <==> arg != "" && arg[0] == '$' && arg[1..] in vars
  {
    hide Key, ValidValues;
    if arg != "" && arg[0] == '$' {
      InKeysUpTo(arg[1..], |vars|);
      assert arg == "$" + arg[1..];
      forall i: nat ensures arg == "$" + Key(i) <==> arg[1..] == Key(i) {
        assert ("$" + Key(i))[1..] == Key(i);
      }
    } else {
      forall i: nat ensures arg != "$" + Key(i) {
        assert ("$" + Key(i))[0] == '$';
      }
    }
  }

  class Cmdline {
    var cmd: seq<string>
    /** The arguments as they were given. */
    ghost var args: seq<string>

    ghost predicate Valid(vars: map<string, string>)
      reads this
    {
      |cmd| == |args| && forall i :: 0 <= i < |cmd| ==> StandsFor(cmd[i], args[i], vars)
    }

    constructor ()
      ensures cmd == [] && args == []
    {
      cmd, args := [], [];
    }

    /** Adds arguments; long ones become references to a variable with that value, a new one if need be. */
    method Add(env: Env?, more: seq<string>)
      requires env != null ==> ValidVars(env.vars) && Valid(env.vars)
      modifies this, env
      ensures args == old(args) + more
      ensures env == null ==> cmd == old(cmd) + more
      ensures env != null ==> ValidVars(env.vars) && Valid(env.vars) && Extends(old(env.vars), env.vars)
      ensures env != null ==> ValuesOf(env.vars) == ValuesOf(old(env.vars)) + LongArgs(more)
    {
      hide ValidVars, StandsFor, IsDirect;
      for i := 0 to |more|
        invariant args == old(args) + more[..i]
        invariant env == null ==> cmd == old(cmd) + more[..i]
        invariant env != null ==> ValidVars(env.vars) && Valid(env.vars) && Extends(old(env.vars), env.vars)
        invariant env != null ==> ValuesOf(env.vars) == ValuesOf(old(env.vars)) + LongArgs(more[..i])
      {
        AddArg(env, more[i]);
        assert more[..i + 1] == more[..i] + [more[i]];
        assert LongArgs(more[..i + 1]) == LongArgs(more[..i]) + LongArgs([more[i]]);
      }
      assert more[..|more|] == more;
    }

    method AddArg(env: Env?, arg: string)
      requires env != null ==> ValidVars(env.vars) && Valid(env.vars)
      modifies this, env
      ensures args == old(args) + [arg] && (env == null ==> cmd == old(cmd) + [arg])
      ensures env != null ==> ValidVars(env.vars) && Valid(env.vars) && Extends(old(env.vars), env.vars)
      ensures env != null ==> ValuesOf(env.vars) == ValuesOf(old(env.vars)) + LongArgs([arg])
    {
      hide ValidVars;
      if |arg| <= SHORT_ARG_LEN || '$' in arg || env == null {
        cmd := cmd + [arg];
      } else {
        var key := KeyFor(env, arg);
        cmd := cmd + ["$" + key];
        assert ("$" + key)[1..] == key;
      }
      args := args + [arg];
    }
  }

  /** The variable with this value, made if there is none yet. */
  method KeyFor(env: Env, arg: string) returns (key: string)
    requires ValidVars(env.vars) && |arg| > SHORT_ARG_LEN && '$' !in arg
    modifies env
    ensures ValidVars(env.vars) && Extends(old(env.vars), env.vars)
    ensures key in env.vars && env.vars[key] == arg && ValuesOf(env.vars) == ValuesOf(old(env.vars)) + {arg}
    ensures forall k :: k in env.vars && k !in old(env.vars) ==> k == key == Key(|old(env.vars)|)
  {
    hide ValidVars;
    key := "";
    if k :| k in env.vars && env.vars[k] == arg {
      key := k;
    }
    KeysAreNotEmpty(env.vars);
    if key == "" {
      NewVariable(env.vars, arg);
      key := Key(|env.vars|);
      env.vars := env.vars[key := arg];
    }
  }

  lemma {:induction false} NotEmptyUpTo(n: nat)
    ensures "" !in KeysUpTo(n)
  {
    if n > 0 { NotEmptyUpTo(n - 1); }
  }

  lemma KeysAreNotEmpty(vars: map<string, string>)
    requires ValidVars(vars)
    ensures "" !in vars
  {
    NotEmptyUpTo(|vars|);
  }

  lemma NewVariable(vars: map<string, string>, arg: string)
    requires ValidVars(vars) && |arg| > SHORT_ARG_LEN && '$' !in arg && forall k :: k in vars ==> vars[k] != arg
    ensures Key(|vars|) !in vars && ValidVars(vars[Key(|vars|) := arg])
  {
    hide Key, ValidValues;
    var n := |vars|;
    KeyBelow(n, n);
    var more := vars[Key(n) := arg];
    assert more.Keys == vars.Keys + {Key(n)} && |more| == n + 1;
    assert KeysUpTo(n + 1) == KeysUpTo(n) + {Key(n)};
    NewValue(vars, Key(n), arg);
  }

  lemma NewValue(vars: map<string, string>, key: string, arg: string)
    requires ValidValues(vars) && key !in vars
    requires |arg| > SHORT_ARG_LEN && '$' !in arg && forall k :: k in vars ==> vars[k] != arg
    ensures ValidValues(vars[key := arg])
  {
  }

  ghost predicate Extends(vars: map<string, string>, more: map<string, string>) {
    forall k :: k in vars ==> k in more && more[k] == vars[k]
  }

  /** Expanding gives the argument back, unless the argument was written like a reference itself, and only then. */
  lemma ExpandGivesBack(word: string, arg: string, vars: map<string, string>)
    requires StandsFor(word, arg, vars) && ValidVars(vars)
    ensures Expand(word, vars) == arg <==> !LooksLikeReference(arg, |vars|)
  {
    hide Key;
    ReferenceIsKey(arg, vars);
  }

  lemma FirstKey()
    ensures Key(0) == "A00"
  {
    assert DigitChar(0) == '0' && Decimal(0) == ['0'];
    assert Key(0) == "A" + ("0" + ['0']);
  }

  /** A long argument and the argument "$A00" on one line: the second comes back as the first. */
  lemma ReferenceIsTakenForVariable()
    ensures var vars := map["A00" := "--verbose"];
            && ValidVars(vars) && StandsFor("$A00", "--verbose", vars) && StandsFor("$A00", "$A00", vars)
            && Expand("$A00", vars) == "--verbose"
  {
    var vars := map["A00" := "--verbose"];
    FirstKey();
    hide Key;
    assert KeysUpTo(1) == KeysUpTo(0) + {Key(0)} && |vars| == 1;
    assert "$A00"[1..] == "A00" && "$A00"[0] == '$';
  }

  /** More variables leave what a word stands for as it was. */
  lemma StandsForMore(word: string, arg: string, vars: map<string, string>, more: map<string, string>)
    requires StandsFor(word, arg, vars) && Extends(vars, more)
    ensures StandsFor(word, arg, more)
  {
  }

  /**
  Any sequence of additions to any command lines that share one environment: step (l, more) adds to
  line l. There is one variable for each different long argument. At the end every word of every line
  expands to the argument it was made from, except for an argument that was itself written as a
  reference to one of these variables.
  */
  method BuildLines(env: Env, lines: seq<Cmdline>, steps: seq<(nat, seq<string>)>)
    requires env.vars == map[] && forall l :: 0 <= l < |lines| ==> lines[l].cmd == [] && lines[l].args == []
    requires forall i, j :: 0 <= i < j < |lines| ==> lines[i] != lines[j]
    requires forall s :: 0 <= s < |steps| ==> steps[s].0 < |lines|
    modifies env, lines
    ensures env.vars.Keys == KeysUpTo(|AllLongArgs(steps)|)
    ensures DistinctValues(env.vars)
    ensures forall l :: 0 <= l < |lines| ==> lines[l].args == Given(steps, l) && |lines[l].cmd| == |lines[l].args|
    ensures forall l, i :: 0 <= l < |lines| && 0 <= i < |lines[l].cmd| ==>
              (Expand(lines[l].cmd[i], env.vars) == lines[l].args[i] <==> !LooksLikeReference(lines[l].args[i], |AllLongArgs(steps)|))
  {
    hide LooksLikeReference, IsDirect, Expand;
    for s := 0 to |steps|
      invariant ValidVars(env.vars) && ValuesOf(env.vars) == AllLongArgs(steps[..s])
      invariant forall l :: 0 <= l < |lines| ==> lines[l].Valid(env.vars) && lines[l].args == Given(steps[..s], l)
    {
      AddTo(env, lines, steps[s].0, steps[s].1);
      assert steps[..s + 1][..s] == steps[..s];
    }
    assert steps[..|steps|] == steps;
    AsManyValues(env.vars);
    forall l, i | 0 <= l < |lines| && 0 <= i < |lines[l].cmd|
      ensures Expand(lines[l].cmd[i], env.vars) == lines[l].args[i] <==> !LooksLikeReference(lines[l].args[i], |env.vars|)
    {
      assert lines[l].Valid(env.vars);
      ExpandGivesBack(lines[l].cmd[i], lines[l].args[i], env.vars);
    }
  }

  /** All arguments given to line l. */
  function Given(steps: seq<(nat, seq<string>)>, l: nat): seq<string> {
    if steps == [] then []
    else
      var last := steps[|steps| - 1];
      Given(steps[..|steps| - 1], l) + if last.0 == l then last.1 else []
  }

  /** All long arguments given to any line, each once. */
  ghost function AllLongArgs(steps: seq<(nat, seq<string>)>): set<string> {
    if steps == [] then {} else AllLongArgs(steps[..|steps| - 1]) + LongArgs(steps[|steps| - 1].1)
  }

  method AddTo(env: Env, lines: seq<Cmdline>, l: nat, more: seq<string>)
    requires ValidVars(env.vars) && l < |lines| && forall k :: 0 <= k < |lines| ==> lines[k].Valid(env.vars)
    requires forall i, j :: 0 <= i < j < |lines| ==> lines[i] != lines[j]
    modifies env, lines
    ensures ValidVars(env.vars) && forall k :: 0 <= k < |lines| ==> lines[k].Valid(env.vars)
    ensures forall k :: 0 <= k < |lines| ==> lines[k].args == old(lines[k].args) + if k == l then more else []
    ensures ValuesOf(env.vars) == ValuesOf(old(env.vars)) + LongArgs(more)
  {
    hide ValidVars, StandsFor;
    ghost var vars := env.vars;
    lines[l].Add(env, more);
    forall k | 0 <= k < |lines| && k != l ensures lines[k].Valid(env.vars) {
      forall i | 0 <= i < |lines[k].cmd| ensures StandsFor(lines[k].cmd[i], lines[k].args[i], env.vars) {
        StandsForMore(lines[k].cmd[i], lines[k].args[i], vars, env.vars);
      }
    }
  }
}
