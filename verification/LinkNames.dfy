/** Names by which one task links to another, and the names of the linked service elsewhere. */
module LinkNames {
  import opened Wrappers
  import opened Strings
  import opened UnitNames

  datatype Link = Link(job: string, group: string, task: string, instance: string) {
    predicate Valid() {
      ValidJobName(job) && ValidGroupName(group) && ValidTaskName(task) && (instance == "" || Atoi(instance).Some?)
    }
  }

  function NewLinkName(link: Link): string {
    var name := link.job + "." + link.group + "." + link.task;
    if link.instance == "" then name else name + "@" + link.instance
  }

  function Parse(name: string): Option<Link> {
    var parts := Split(name, '@');
    if |parts| > 2 then None
    else
      var instance := if |parts| == 2 then parts[1] else "";
      var names := Split(parts[0], '.');
      if |names| != 2 && |names| != 3 then None
      else
        var link := Link(names[0], names[1], names[|names| - 1], instance);
        if link.Valid() then Some(link) else None
  }

  /** The full form of a link name, or "" for text that is no link name. */
  function FullForm(name: string): string {
    var link := Parse(name);
    if link.Some? then NewLinkName(link.value) else ""
  }

  function Normalize(name: string): string {
    var link := Parse(name);
    if link.Some? then NewLinkName(link.value) else name
  }

  function PrivateDomainName(name: string): string {
    ReplaceChar(ReplaceChar(FullForm(name), '@', '.'), '_', '-') + ".private"
  }

  function EtcdServiceName(name: string): string {
    ReplaceChar(ReplaceChar(FullForm(name), '.', '-'), '@', '-')
  }

  function WeaveDomainName(name: string): string {
    ReplaceChar(EtcdServiceName(name), '_', '-') + ".weave.local"
  }

  // ----- Round trip -----

  lemma NameChars(link: Link, c: char)
    requires link.Valid() && !IsNameChar(c)
    ensures c !in link.job && c !in link.group && c !in link.task
    ensures c != '-' && c != '+' ==> c !in link.instance
  {
    if link.instance != "" && c != '-' && c != '+' { AtoiChars(link.instance, c); }
  }

  /** Parsing gives back the parts that a link name was assembled from. */
  lemma ParseNewLinkName(link: Link)
    requires link.Valid()
    ensures Parse(NewLinkName(link)) == Some(link)
  {
    NameChars(link, '@');
    NameChars(link, '.');
    var name := link.job + "." + link.group + "." + link.task;
    assert name == link.job + "." + (link.group + "." + link.task);
    SplitFirstPart(link.job, link.group + "." + link.task, '.');
    SplitTwoParts(link.group, link.task, '.');
    if link.instance == "" {
      SplitOnePart(name, '@');
    } else {
      SplitTwoParts(name, link.instance, '@');
    }
  }

  /** Printing a parsed link name and parsing again gives the same four parts, for the short form too. */
  lemma PrintedNameParsesTheSame(name: string)
    requires Parse(name).Some?
    ensures Parse(FullForm(name)) == Parse(name)
  {
    ParseNewLinkName(Parse(name).value);
  }

  lemma NormalizeIsIdempotent(name: string)
    ensures Normalize(Normalize(name)) == Normalize(name) && Parse(Normalize(name)) == Parse(name)
  {
    if Parse(name).Some? { ParseNewLinkName(Parse(name).value); }
  }

  /** Link names have the same normal form exactly when they have the same parts. */
  lemma NormalFormsDecide(a: string, b: string)
    requires Parse(a).Some? && Parse(b).Some?
    ensures Normalize(a) == Normalize(b) <==> Parse(a) == Parse(b)
  {
    NormalizeIsIdempotent(a);
    NormalizeIsIdempotent(b);
  }

  /** The short form has one name for task group and task; an instance that is empty may be marked off all the same. */
  ghost predicate IsTextOf(name: string, link: Link) {
    exists base, end :: name == base + end
      && (base == link.job + "." + link.group + "." + link.task || (link.group == link.task && base == link.job + "." + link.task))
      && (end == "@" + link.instance || (link.instance == "" && end == ""))
  }

  /** The texts that are link names, and what they mean. */
  lemma LinkTexts(name: string, link: Link)
    ensures Parse(name) == Some(link) <==> link.Valid() && IsTextOf(name, link)
  {
    if Parse(name) == Some(link) { ParsedIsText(name); }
    if link.Valid() && IsTextOf(name, link) {
      var base, end :| name == base + end
        && (base == link.job + "." + link.group + "." + link.task || (link.group == link.task && base == link.job + "." + link.task))
        && (end == "@" + link.instance || (link.instance == "" && end == ""));
      NameChars(link, '@');
      NameChars(link, '.');
      TextParses(link, base, end);
    }
  }

  lemma TextParses(link: Link, base: string, end: string)
    requires link.Valid() && '@' !in link.job && '@' !in link.group && '@' !in link.task && '@' !in link.instance
    requires '.' !in link.job && '.' !in link.group && '.' !in link.task
    requires base == link.job + "." + link.group + "." + link.task || (link.group == link.task && base == link.job + "." + link.task)
    requires end == "@" + link.instance || (link.instance == "" && end == "")
    ensures Parse(base + end) == Some(link)
  {
    SplitThreeParts(link.job, link.group, link.task, '.');
    SplitTwoParts(link.job, link.task, '.');
    if end == "" {
      assert base + end == base;
      SplitOnePart(base, '@');
    } else {
      assert base + end == base + "@" + link.instance;
      SplitTwoParts(base, link.instance, '@');
    }
    hide Split, Link.Valid;
  }

  lemma ParsedIsText(name: string)
    requires Parse(name).Some?
    ensures Parse(name).value.Valid() && IsTextOf(name, Parse(name).value)
  {
    var link, parts := Parse(name).value, Split(name, '@');
    var names := Split(parts[0], '.');
    JoinSplit(name, '@');
    JoinSplit(parts[0], '.');
    JoinOfFew(parts, '@');
    JoinOfFew(names, '.');
    hide Split, Join, Link.Valid, IsTextOf;
    var end := if |parts| == 2 then "@" + parts[1] else "";
    assert |parts| == 2 ==> parts[0] + "@" + parts[1] == parts[0] + ("@" + parts[1]);
    assert |parts| == 1 ==> parts[0] == parts[0] + "";
    TextFrom(name, link, parts[0], end);
  }

  lemma TextFrom(name: string, link: Link, base: string, end: string)
    requires name == base + end
    requires base == link.job + "." + link.group + "." + link.task || (link.group == link.task && base == link.job + "." + link.task)
    requires end == "@" + link.instance || (link.instance == "" && end == "")
    ensures IsTextOf(name, link)
  {
  }

  // ----- Names elsewhere -----

  lemma Peel(a: string, x: string, b: string, y: string, sep: char)
    requires sep !in a && sep !in b && a + [sep] + x == b + [sep] + y
    ensures a == b && x == y
  {
    SplitFirstPart(a, x, sep);
    SplitFirstPart(b, y, sep);
    assert a == Split(a + [sep] + x, sep)[0] && b == Split(b + [sep] + y, sep)[0];
    assert (a + [sep] + x)[|a| + 1..] == x && (b + [sep] + y)[|b| + 1..] == y;
  }

  /** With or without a last part, marked off by the separator. */
  function WithInstance(task: string, instance: string, sep: char): string {
    if instance == "" then task else task + [sep] + instance
  }

  lemma PeelInstance(s: string, i: string, t: string, j: string, sep: char)
    requires sep !in s && sep !in t && WithInstance(s, i, sep) == WithInstance(t, j, sep)
    ensures s == t && i == j
  {
    assert i != "" ==> (s + [sep] + i)[|s|] == sep;
    assert j != "" ==> (t + [sep] + j)[|t|] == sep;
    if i != "" && j != "" { Peel(s, i, t, j, sep); }
  }

  /** The parts of a link joined by `sep`, whatever characters of the full form were replaced by it. */
  function Joined(link: Link, sep: char): string {
    link.job + [sep] + (link.group + [sep] + WithInstance(link.task, link.instance, sep))
  }

  lemma JoinedInjective(k: Link, l: Link, sep: char)
    requires k.Valid() && l.Valid() && !IsNameChar(sep) && Joined(k, sep) == Joined(l, sep)
    ensures k == l
  {
    NameChars(k, sep);
    NameChars(l, sep);
    Peel(k.job, k.group + [sep] + WithInstance(k.task, k.instance, sep),
         l.job, l.group + [sep] + WithInstance(l.task, l.instance, sep), sep);
    Peel(k.group, WithInstance(k.task, k.instance, sep), l.group, WithInstance(l.task, l.instance, sep), sep);
    PeelInstance(k.task, k.instance, l.task, l.instance, sep);
  }

  lemma FullFormDotted(link: Link)
    requires link.Valid()
    ensures ReplaceChar(NewLinkName(link), '@', '.') == Joined(link, '.')
  {
    NameChars(link, '@');
  }

  lemma FullFormDashed(link: Link)
    requires link.Valid()
    ensures ReplaceChar(ReplaceChar(NewLinkName(link), '.', '-'), '@', '-') == Joined(link, '-')
  {
    NameChars(link, '@');
    NameChars(link, '.');
  }

  /** Different links have different services in etcd. */
  lemma EtcdServiceNameInjective(a: string, b: string)
    requires Parse(a).Some? && Parse(b).Some? && EtcdServiceName(a) == EtcdServiceName(b)
    ensures Parse(a) == Parse(b)
  {
    FullFormDashed(Parse(a).value);
    FullFormDashed(Parse(b).value);
    JoinedInjective(Parse(a).value, Parse(b).value, '-');
  }

  /** The names of a link elsewhere. Text that is no link name gives a name without a link in it. */
  lemma NamesElsewhere(name: string)
    ensures Parse(name).Some? ==>
              var k := Parse(name).value;
              var end := if k.instance == "" then "" else "-" + k.instance;
              EtcdServiceName(name) == k.job + "-" + k.group + "-" + k.task + end
    ensures Parse(name).Some? ==>
              var k := Parse(name).value;
              var end := if k.instance == "" then "" else "." + k.instance;
              PrivateDomainName(name) == ReplaceChar(k.job + "." + k.group + "." + k.task + end, '_', '-') + ".private"
    ensures WeaveDomainName(name) == ReplaceChar(EtcdServiceName(name), '_', '-') + ".weave.local"
    ensures Parse(name).None? ==> EtcdServiceName(name) == "" && PrivateDomainName(name) == ".private"
  {
    if Parse(name).Some? {
      var k := Parse(name).value;
      FullFormDashed(k);
      FullFormDotted(k);
      JoinedIs(k, '-');
      JoinedIs(k, '.');
    }
  }

  lemma JoinedIs(k: Link, sep: char)
    ensures Joined(k, sep) == k.job + [sep] + k.group + [sep] + k.task + if k.instance == "" then "" else [sep] + k.instance
  {
  }

  lemma JoinedReplaced(link: Link)
    requires link.Valid()
    ensures ReplaceChar(Joined(link, '.'), '_', '-')
         == ReplaceChar(link.job, '_', '-') + "." + (ReplaceChar(link.group, '_', '-') + "."
            + WithInstance(ReplaceChar(link.task, '_', '-'), link.instance, '.'))
    ensures '.' !in ReplaceChar(link.job, '_', '-') && '.' !in ReplaceChar(link.group, '_', '-')
         && '.' !in ReplaceChar(link.task, '_', '-')
  {
    NameChars(link, '.');
    if link.instance != "" { AtoiChars(link.instance, '_'); }
  }

  /** Different links have different private domain names, although "_" and "-" look the same in them. */
  lemma PrivateDomainNameInjective(a: string, b: string)
    requires Parse(a).Some? && Parse(b).Some? && PrivateDomainName(a) == PrivateDomainName(b)
    ensures Parse(a) == Parse(b)
  {
    var k, l := Parse(a).value, Parse(b).value;
    FullFormDotted(k);
    FullFormDotted(l);
    var x, y := ReplaceChar(Joined(k, '.'), '_', '-'), ReplaceChar(Joined(l, '.'), '_', '-');
    assert x == PrivateDomainName(a)[..|x|] && y == PrivateDomainName(b)[..|y|];
    JoinedReplaced(k);
    JoinedReplaced(l);
    PeelReplaced(k, l);
    NameChars(k, '-');
    NameChars(l, '-');
    ReplaceCharInjective(k.job, l.job, '_', '-');
    ReplaceCharInjective(k.group, l.group, '_', '-');
    ReplaceCharInjective(k.task, l.task, '_', '-');
  }

  lemma PeelReplaced(k: Link, l: Link)
    requires k.Valid() && l.Valid() && ReplaceChar(Joined(k, '.'), '_', '-') == ReplaceChar(Joined(l, '.'), '_', '-')
    ensures ReplaceChar(k.job, '_', '-') == ReplaceChar(l.job, '_', '-')
    ensures ReplaceChar(k.group, '_', '-') == ReplaceChar(l.group, '_', '-')
    ensures ReplaceChar(k.task, '_', '-') == ReplaceChar(l.task, '_', '-') && k.instance == l.instance
  {
    JoinedReplaced(k);
    JoinedReplaced(l);
    var i, j := WithInstance(ReplaceChar(k.task, '_', '-'), k.instance, '.'), WithInstance(ReplaceChar(l.task, '_', '-'), l.instance, '.');
    var g, h := ReplaceChar(k.group, '_', '-'), ReplaceChar(l.group, '_', '-');
    Peel(ReplaceChar(k.job, '_', '-'), g + "." + i, ReplaceChar(l.job, '_', '-'), h + "." + j, '.');
    Peel(g, i, h, j, '.');
    PeelInstance(ReplaceChar(k.task, '_', '-'), k.instance, ReplaceChar(l.task, '_', '-'), l.instance, '.');
  }

  // ----- Weave names -----

  /** The pieces of a link between which a weave name has a dash. */
  function WeavePieces(link: Link): (pieces: seq<string>)
    ensures |pieces| > 0
  {
    Split(link.job, '_') + Split(link.group, '_') + Split(link.task, '_')
    + if link.instance == "" then [] else Split(link.instance, '-')
  }

  lemma {:induction false} JoinConcat(a: seq<string>, b: seq<string>, sep: char)
    requires a != [] && b != []
    ensures Join(a + b, sep) == Join(a, sep) + [sep] + Join(b, sep)
  {
    if |a| == 1 {
      assert (a + b)[1..] == b;
    } else {
      JoinConcat(a[1..], b, sep);
      assert (a + b)[1..] == a[1..] + b;
    }
  }

  lemma {:induction false} ReplaceInJoin(parts: seq<string>, from: char, to: char)
    requires forall i :: 0 <= i < |parts| ==> from !in parts[i]
    ensures ReplaceChar(Join(parts, from), from, to) == Join(parts, to)
  {
    if |parts| > 1 {
      ReplaceInJoin(parts[1..], from, to);
    }
  }

  lemma ReplacedIsJoined(s: string)
    ensures ReplaceChar(s, '_', '-') == Join(Split(s, '_'), '-')
  {
    JoinSplit(s, '_');
    ReplaceInJoin(Split(s, '_'), '_', '-');
  }

  lemma NoUnderscoreInInstance(link: Link)
    requires link.Valid()
    ensures '_' !in link.instance
  {
    if link.instance != "" { AtoiChars(link.instance, '_'); }
  }

  lemma DashedParts(link: Link)
    requires '_' !in link.instance
    ensures ReplaceChar(Joined(link, '-'), '_', '-')
         == ReplaceChar(link.job, '_', '-') + "-" + (ReplaceChar(link.group, '_', '-') + "-"
            + WithInstance(ReplaceChar(link.task, '_', '-'), link.instance, '-'))
  {
  }

  lemma JoinedPieces(j: seq<string>, g: seq<string>, t: seq<string>, i: seq<string>)
    requires j != [] && g != [] && t != []
    ensures Join(j + g + t + i, '-')
         == Join(j, '-') + "-" + (Join(g, '-') + "-" + (if i == [] then Join(t, '-') else Join(t, '-') + "-" + Join(i, '-')))
  {
    assert j + g + t + i == j + (g + (t + i));
    JoinConcat(j, g + (t + i), '-');
    JoinConcat(g, t + i, '-');
    if i == [] { assert t + i == t; } else { JoinConcat(t, i, '-'); }
  }

  lemma PiecesHaveNoDash(link: Link)
    requires link.Valid()
    ensures forall i :: 0 <= i < |WeavePieces(link)| ==> '-' !in WeavePieces(link)[i]
  {
    NameChars(link, '-');
    PartsHaveOnlyCharsOf(link.job, '_', '-');
    PartsHaveOnlyCharsOf(link.group, '_', '-');
    PartsHaveOnlyCharsOf(link.task, '_', '-');
    JoinSplit(link.instance, '-');
    forall p | p in WeavePieces(link) ensures '-' !in p { }
  }

  /** A weave name is its pieces joined by dashes. */
  lemma WeaveIsJoined(link: Link)
    requires link.Valid()
    ensures ReplaceChar(Joined(link, '-'), '_', '-') == Join(WeavePieces(link), '-')
  {
    NoUnderscoreInInstance(link);
    DashedParts(link);
    ReplacedIsJoined(link.job);
    ReplacedIsJoined(link.group);
    ReplacedIsJoined(link.task);
    JoinSplit(link.instance, '-');
    hide ReplaceChar, Split, Join, Link.Valid, Joined;
    JoinedPieces(Split(link.job, '_'), Split(link.group, '_'), Split(link.task, '_'),
                 if link.instance == "" then [] else Split(link.instance, '-'));
  }

  /** Two links have the same weave name if and only if they have the same pieces. */
  lemma WeaveNamesDecidePieces(a: string, b: string)
    requires Parse(a).Some? && Parse(b).Some?
    ensures WeaveDomainName(a) == WeaveDomainName(b) <==> WeavePieces(Parse(a).value) == WeavePieces(Parse(b).value)
  {
    var k, l := Parse(a).value, Parse(b).value;
    FullFormDashed(k);
    FullFormDashed(l);
    WeaveIsJoined(k);
    WeaveIsJoined(l);
    PiecesHaveNoDash(k);
    PiecesHaveNoDash(l);
    hide WeavePieces, Joined;
    var x, y := Join(WeavePieces(k), '-'), Join(WeavePieces(l), '-');
    assert WeaveDomainName(a) == x + ".weave.local" && WeaveDomainName(b) == y + ".weave.local";
    assert x == WeaveDomainName(a)[..|x|] && y == WeaveDomainName(b)[..|y|];
    SplitJoin(WeavePieces(k), '-');
    SplitJoin(WeavePieces(l), '-');
  }

  /** Between links without underscores weave names are unique. */
  lemma WeaveNameInjectiveWithoutUnderscores(a: string, b: string)
    requires Parse(a).Some? && Parse(b).Some? && '_' !in a && '_' !in b && WeaveDomainName(a) == WeaveDomainName(b)
    ensures Parse(a) == Parse(b)
  {
    NoUnderscores(a);
    NoUnderscores(b);
    WeaveNamesDecidePieces(a, b);
    var k, l := Parse(a).value, Parse(b).value;
    SamePieces(k, l);
  }

  lemma NoUnderscores(a: string)
    requires Parse(a).Some? && '_' !in a
    ensures var k := Parse(a).value; '_' !in k.job && '_' !in k.group && '_' !in k.task
  {
    PartsHaveOnlyCharsOf(a, '@', '_');
    PartsHaveOnlyCharsOf(Split(a, '@')[0], '.', '_');
  }

  lemma SamePieces(k: Link, l: Link)
    requires '_' !in k.job && '_' !in k.group && '_' !in k.task && '_' !in l.job && '_' !in l.group && '_' !in l.task
    requires WeavePieces(k) == WeavePieces(l)
    ensures k == l
  {
    SplitOnePart(k.job, '_');
    SplitOnePart(k.group, '_');
    SplitOnePart(k.task, '_');
    SplitOnePart(l.job, '_');
    SplitOnePart(l.group, '_');
    SplitOnePart(l.task, '_');
    var p, q := WeavePieces(k), WeavePieces(l);
    assert p[0] == k.job && p[1] == k.group && p[2] == k.task && q[0] == l.job && q[1] == l.group && q[2] == l.task;
    assert p[3..] == (if k.instance == "" then [] else Split(k.instance, '-'));
    assert q[3..] == (if l.instance == "" then [] else Split(l.instance, '-'));
    JoinSplit(k.instance, '-');
    JoinSplit(l.instance, '-');
  }

  lemma CollidingPieces()
    ensures WeavePieces(Link("aaa", "bb_cc", "dd", "")) == ["aaa", "bb", "cc", "dd"]
  {
    SplitTwoParts("bb", "cc", '_');
    SplitOnePart("aaa", '_');
    SplitOnePart("dd", '_');
    assert "bb" + "_" + "cc" == "bb_cc";
  }

  lemma MoreCollidingPieces()
    ensures WeavePieces(Link("aaa_bb", "cc", "dd", "")) == ["aaa", "bb", "cc", "dd"]
  {
    SplitTwoParts("aaa", "bb", '_');
    SplitOnePart("cc", '_');
    SplitOnePart("dd", '_');
    assert "aaa" + "_" + "bb" == "aaa_bb";
  }

  lemma CollidingLinksAreValid()
    ensures Link("aaa", "bb_cc", "dd", "").Valid() && Link("aaa_bb", "cc", "dd", "").Valid()
    ensures Link("aaa", "bb_cc", "dd", "") != Link("aaa_bb", "cc", "dd", "")
  {
    assert |"aaa"| == 3 && |"aaa_bb"| == 6;
  }

  /** Two different links with the same weave name. */
  lemma WeaveNamesCollide()
    ensures var k, l := Link("aaa", "bb_cc", "dd", ""), Link("aaa_bb", "cc", "dd", "");
            && k != l && Parse(NewLinkName(k)) == Some(k) && Parse(NewLinkName(l)) == Some(l)
            && WeaveDomainName(NewLinkName(k)) == WeaveDomainName(NewLinkName(l))
  {
    CollidingPieces();
    MoreCollidingPieces();
    CollidingLinksAreValid();
    hide *;
    var k, l := Link("aaa", "bb_cc", "dd", ""), Link("aaa_bb", "cc", "dd", "");
    ParseNewLinkName(k);
    ParseNewLinkName(l);
    WeaveNamesDecidePieces(NewLinkName(k), NewLinkName(l));
  }
}
