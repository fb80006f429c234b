/**
Unit files as text: how fleet reads one into options, how it prints the options again when asked
for the unit, and how J2 compares the printed text with the text it rendered.
*/
module UnitFiles {
  import opened Wrappers
  import opened Strings

  // ----- Comparing unit files -----

  /** White space as Unicode defines it. */
  predicate IsSpace(c: char) {
    || c == ' ' || '\t' <= c <= '\r' || c == '\U{85}' || c == '\U{a0}'
    || c == '\U{1680}' || '\U{2000}' <= c <= '\U{200a}' || c == '\U{2028}' || c == '\U{2029}'
    || c == '\U{202f}' || c == '\U{205f}' || c == '\U{3000}'
  }

  function TrimLeft(s: string): string {
    if s != "" && IsSpace(s[0]) then TrimLeft(s[1..]) else s
  }

  function TrimRight(s: string): string {
    if s != "" && IsSpace(s[|s| - 1]) then TrimRight(s[..|s| - 1]) else s
  }

  function TrimSpace(s: string): string { TrimRight(TrimLeft(s)) }

  function Trimmed(line: string): seq<string> {
    if TrimSpace(line) == "" then [] else [TrimSpace(line)]
  }

  function NonBlank(lines: seq<string>): seq<string> {
    if lines == [] then [] else Trimmed(lines[0]) + NonBlank(lines[1..])
  }

  /** The trimmed non-blank lines of a unit file. */
  function NormalizeUnitContent(content: string): seq<string> {
    NonBlank(Split(content, '\n'))
  }

  /** Equal up to blank lines and trimming: what HasChanged compares. */
  predicate SameContent(a: string, b: string) {
    NormalizeUnitContent(a) == NormalizeUnitContent(b)
  }

  // ----- Reading a unit file -----

  datatype UnitOption = UnitOption(section: string, name: string, value: string)

  /** Where the first line ends, with its newline. */
  function LineEnd(s: string): (n: nat)
    ensures n <= |s| && (s != "" ==> n > 0)
  {
    if s == "" then 0 else if s[0] == '\n' then 1 else 1 + LineEnd(s[1..])
  }

  function TrimSuffix(s: string, c: char): string {
    if s != "" && s[|s| - 1] == c then s[..|s| - 1] else s
  }

  function FirstLine(s: string): string {
    TrimSuffix(TrimSuffix(s[..LineEnd(s)], '\r'), '\n')
  }

  function AfterLine(s: string): string { s[LineEnd(s)..] }

  predicate EndsWith(s: string, c: char) { s != "" && s[|s| - 1] == c }

  predicate IsComment(c: char) { c == '#' || c == ';' }

  /** What follows a comment; a backslash at the end of a line continues it. */
  function AfterComment(s: string): (rest: string)
    ensures |rest| <= |s|
    decreases |s|
  {
    if s != "" && EndsWith(TrimSuffix(FirstLine(s), ' '), '\\') then AfterComment(AfterLine(s)) else AfterLine(s)
  }

  function FinishValue(s: string): string {
    if EndsWith(s, '\n') then TrimSpace(s) + "\n" else TrimSpace(s)
  }

  /** The value of an option, over continued lines, and what follows it. */
  function ReadValue(s: string, partial: string): (r: (string, string))
    ensures |r.1| <= |s|
    decreases |s|
  {
    var line := FirstLine(s);
    if s == "" || TrimSpace(line) == "" then (FinishValue(partial), AfterLine(s))
    else if !EndsWith(line, '\\') then (FinishValue(partial + line), AfterLine(s))
    else ReadValue(AfterLine(s), if EndsWith(s[..LineEnd(s)], '\n') then partial + line + "\n" else partial + line)
  }

  /** The place of c, or |s|. */
  function IndexOf(s: string, c: char): (i: nat)
    ensures i <= |s| && (i < |s| ==> s[i] == c) && c !in s[..i]
  {
    if s == "" || s[0] == c then 0
    else
      var i := IndexOf(s[1..], c);
      assert s[..i + 1] == [s[0]] + s[1..][..i];
      i + 1
  }

  /** Before the first section; text there is skipped. */
  function NextSection(s: string): Option<seq<UnitOption>>
    decreases |s|
  {
    if s == "" then Some([])
    else if s[0] == '[' then SectionName(s[1..])
    else if IsComment(s[0]) then NextSection(AfterComment(s[1..]))
    else NextSection(s[1..])
  }

  /** From the name of a section on; a name that does not end, or is followed by text, is an error. */
  function SectionName(s: string): Option<seq<UnitOption>>
    decreases |s|
  {
    var i := IndexOf(s, ']');
    if i == |s| || TrimSpace(FirstLine(s[i + 1..])) != "" then None
    else SectionBody(s[..i], AfterLine(s[i + 1..]))
  }

  /** Inside a section; an option without "=" on its line is an error. */
  function SectionBody(section: string, s: string): Option<seq<UnitOption>>
    decreases |s|
  {
    if s == "" then Some([])
    else if IsSpace(s[0]) then SectionBody(section, s[1..])
    else if s[0] == '[' then SectionName(s[1..])
    else if IsComment(s[0]) then SectionBody(section, AfterComment(s[1..]))
    else
      var i := IndexOf(s, '=');
      if i == |s| || '\n' in s[..i] || '\r' in s[..i] then None
      else
        var value := ReadValue(s[i + 1..], "");
        var rest := SectionBody(section, value.1);
        if rest.None? then None else Some([UnitOption(section, TrimSpace(s[..i]), value.0)] + rest.value)
  }

  // ----- Printing a unit file -----

  /** A section with its options as pairs of name and value. */
  datatype Section = Section(name: string, options: seq<(string, string)>)

  function OptionLine(option: (string, string)): string { option.0 + "=" + option.1 }

  function OptionLines(options: seq<(string, string)>): seq<string> {
    if options == [] then [] else [OptionLine(options[0])] + OptionLines(options[1..])
  }

  function Header(name: string): string { "[" + name + "]" }

  /** The lines of a unit file: each section is a header, its options and an empty line. */
  function Lines(sections: seq<Section>): seq<string> {
    if sections == [] then []
    else [Header(sections[0].name)] + OptionLines(sections[0].options) + [""] + Lines(sections[1..])
  }

  function Text(sections: seq<Section>): string { Join(Lines(sections), '\n') }

  /** Adds an option to its section, which comes last if it is new. */
  function AddOption(sections: seq<Section>, o: UnitOption): seq<Section> {
    if sections == [] then [Section(o.section, [(o.name, o.value)])]
    else if sections[0].name == o.section then
      [Section(o.section, sections[0].options + [(o.name, o.value)])] + sections[1..]
    else [sections[0]] + AddOption(sections[1..], o)
  }

  /** The options by section, the sections in the order in which they are first seen. */
  function Grouped(options: seq<UnitOption>): seq<Section> {
    if options == [] then [] else AddOption(Grouped(options[..|options| - 1]), options[|options| - 1])
  }

  /** What fleet gives back for a unit created from this text, or None if it cannot be read. */
  function Stored(text: string): Option<string> {
    var options := NextSection(text);
    if options.None? then None else Some(Text(Grouped(options.value)))
  }

  // ----- Trimming -----

  lemma {:induction false} TrimLeftKeeps(s: string)
    ensures TrimLeft(s) == s <==> s == "" || !IsSpace(s[0])
    ensures |TrimLeft(s)| <= |s| && (|TrimLeft(s)| == |s| ==> TrimLeft(s) == s)
  {
    if s != "" && IsSpace(s[0]) { TrimLeftKeeps(s[1..]); }
  }

  lemma {:induction false} TrimRightKeeps(s: string)
    ensures TrimRight(s) == s <==> s == "" || !IsSpace(s[|s| - 1])
    ensures |TrimRight(s)| <= |s| && (|TrimRight(s)| == |s| ==> TrimRight(s) == s)
  {
    if s != "" && IsSpace(s[|s| - 1]) { TrimRightKeeps(s[..|s| - 1]); }
  }

  lemma TrimSpaceKeeps(s: string)
    ensures TrimSpace(s) == s <==> s == "" || (!IsSpace(s[0]) && !IsSpace(s[|s| - 1]))
  {
    TrimLeftKeeps(s);
    TrimRightKeeps(s);
    TrimRightKeeps(TrimLeft(s));
  }

  // ----- Unit files as J2 writes them -----

  /** An option on one line that reads back as it is written. */
  predicate PlainOption(o: (string, string)) {
    && o.0 != "" && TrimSpace(o.0) == o.0 && o.0[0] != '[' && !IsComment(o.0[0])
    && '=' !in o.0 && '\n' !in o.0 && '\r' !in o.0
    && '\n' !in o.1 && TrimSpace(o.1) == o.1 && !EndsWith(o.1, '\\')
  }

  predicate PlainSection(s: Section) {
    ']' !in s.name && '\n' !in s.name && forall i :: 0 <= i < |s.options| ==> PlainOption(s.options[i])
  }

  predicate PlainSections(sections: seq<Section>) {
    && (forall i :: 0 <= i < |sections| ==> PlainSection(sections[i]))
    && DistinctSections(sections)
  }

  function NonEmpty(sections: seq<Section>): seq<Section> {
    if sections == [] then []
    else (if sections[0].options == [] then [] else [sections[0]]) + NonEmpty(sections[1..])
  }

  predicate HasEmptySection(sections: seq<Section>) {
    exists i :: 0 <= i < |sections| && sections[i].options == []
  }

  function OptionsOf(section: string, options: seq<(string, string)>): seq<UnitOption> {
    if options == [] then [] else [UnitOption(section, options[0].0, options[0].1)] + OptionsOf(section, options[1..])
  }

  function AllOptions(sections: seq<Section>): seq<UnitOption> {
    if sections == [] then [] else OptionsOf(sections[0].name, sections[0].options) + AllOptions(sections[1..])
  }

  // ----- Reading them -----

  lemma {:induction false} FirstLineIs(line: string, rest: string)
    requires '\n' !in line
    ensures LineEnd(line + "\n" + rest) == |line| + 1
    ensures FirstLine(line + "\n" + rest) == line && AfterLine(line + "\n" + rest) == rest
  {
    var s := line + "\n" + rest;
    if line != "" {
      FirstLineIs(line[1..], rest);
      assert s[1..] == line[1..] + "\n" + rest;
    }
    assert s[..|line| + 1] == line + "\n" && s[|line| + 1..] == rest;
  }

  lemma {:induction false} IndexOfIs(a: string, c: char, rest: string)
    requires c !in a
    ensures IndexOf(a + [c] + rest, c) == |a|
  {
    var s := a + [c] + rest;
    if a != "" {
      IndexOfIs(a[1..], c, rest);
      assert s[1..] == a[1..] + [c] + rest;
    }
  }

  lemma ReadPlainValue(value: string, rest: string)
    requires '\n' !in value && TrimSpace(value) == value && !EndsWith(value, '\\')
    ensures ReadValue(value + "\n" + rest, "") == (value, rest)
  {
    FirstLineIs(value, rest);
    TrimSpaceKeeps(value);
    assert "" + value == value;
  }

  /** A comment is skipped, before any section and inside one, unless its line is continued. */
  lemma CommentIsSkipped(section: string, mark: char, text: string, rest: string)
    requires mark in "#;" && '\n' !in text && !EndsWith(TrimSuffix(text, ' '), '\\')
    ensures NextSection([mark] + text + "\n" + rest) == NextSection(rest)
    ensures SectionBody(section, [mark] + text + "\n" + rest) == SectionBody(section, rest)
  {
    var s := [mark] + text + "\n" + rest;
    assert s[0] == mark && s[1..] == text + "\n" + rest;
    FirstLineIs(text, rest);
    hide FirstLine, AfterLine, LineEnd;
  }

  /** A value goes on in the next line, newline included, after a backslash at the end of its line. */
  lemma ValueIsContinued(partial: string, line: string, rest: string)
    requires '\n' !in line
    ensures ReadValue(line + "\\" + "\n" + rest, partial) == ReadValue(rest, partial + line + "\\" + "\n")
  {
    var first := line + "\\";
    FirstLineIs(first, rest);
    assert EndsWith(first, '\\');
    var s := first + "\n" + rest;
    assert s[..LineEnd(s)] == first + "\n";
    NotBlank(first, |line|);
    assert partial + first + "\n" == partial + line + "\\" + "\n";
  }

  lemma {:induction false} NotBlank(s: string, k: nat)
    requires k < |s| && !IsSpace(s[k])
    ensures TrimSpace(s) != ""
  {
    var left := TrimLeft(s);
    SpaceBefore(s, k);
    SpaceAfter(left, |left| - (|s| - k));
  }

  lemma {:induction false} SpaceBefore(s: string, k: nat)
    requires k < |s| && !IsSpace(s[k])
    ensures |TrimLeft(s)| >= |s| - k && TrimLeft(s)[|TrimLeft(s)| - (|s| - k)] == s[k]
  {
    if IsSpace(s[0]) { SpaceBefore(s[1..], k - 1); }
  }

  lemma {:induction false} SpaceAfter(s: string, k: nat)
    requires k < |s| && !IsSpace(s[k])
    ensures |TrimRight(s)| > k
  {
    if IsSpace(s[|s| - 1]) { SpaceAfter(s[..|s| - 1], k); }
  }

  lemma ReadPlainOption(section: string, o: (string, string), rest: string)
    requires PlainOption(o)
    ensures SectionBody(section, OptionLine(o) + "\n" + rest)
         == var more := SectionBody(section, rest);
            if more.None? then None else Some([UnitOption(section, o.0, o.1)] + more.value)
  {
    hide IsSpace, ReadValue, TrimSpace;
    var s := OptionLine(o) + "\n" + rest;
    assert s == o.0 + "=" + (o.1 + "\n" + rest);
    IndexOfIs(o.0, '=', o.1 + "\n" + rest);
    assert s[..|o.0|] == o.0 && s[|o.0| + 1..] == o.1 + "\n" + rest;
    TrimSpaceKeeps(o.0);
    ReadPlainValue(o.1, rest);
    assert s[0] == o.0[0];
  }

  /** The lines, each with its newline. */
  function Terminated(lines: seq<string>): string {
    if lines == [] then "" else lines[0] + "\n" + Terminated(lines[1..])
  }

  lemma {:induction false} ReadPlainOptions(section: string, options: seq<(string, string)>, rest: string)
    requires forall i :: 0 <= i < |options| ==> PlainOption(options[i])
    ensures SectionBody(section, Terminated(OptionLines(options)) + rest)
         == var more := SectionBody(section, rest);
            if more.None? then None else Some(OptionsOf(section, options) + more.value)
  {
    hide SectionBody, PlainOption, OptionLine, OptionLines, Terminated, OptionsOf;
    var more := SectionBody(section, rest);
    if options == [] {
      NoOptions(section);
      assert "" + rest == rest && (more.Some? ==> [] + more.value == more.value);
    } else {
      var tail := Terminated(OptionLines(options[1..])) + rest;
      ReadPlainOptions(section, options[1..], rest);
      ReadPlainOption(section, options[0], tail);
      FirstOption(section, options);
      assert Terminated(OptionLines(options)) + rest == OptionLine(options[0]) + "\n" + tail;
      if more.Some? {
        assert [UnitOption(section, options[0].0, options[0].1)] + (OptionsOf(section, options[1..]) + more.value)
            == OptionsOf(section, options) + more.value;
      }
    }
  }

  lemma NoOptions(section: string)
    ensures Terminated(OptionLines([])) == "" && OptionsOf(section, []) == []
  {
  }

  lemma FirstOption(section: string, options: seq<(string, string)>)
    requires options != []
    ensures Terminated(OptionLines(options)) == OptionLine(options[0]) + "\n" + Terminated(OptionLines(options[1..]))
    ensures OptionsOf(section, options) == [UnitOption(section, options[0].0, options[0].1)] + OptionsOf(section, options[1..])
  {
    assert OptionLines(options)[1..] == OptionLines(options[1..]);
  }

  lemma {:induction false} JoinTerminated(lines: seq<string>, more: seq<string>)
    requires more != []
    ensures Join(lines + more, '\n') == Terminated(lines) + Join(more, '\n')
  {
    if lines == [] {
      assert lines + more == more && Terminated(lines) + Join(more, '\n') == Join(more, '\n');
    } else {
      JoinTerminated(lines[1..], more);
      assert (lines + more)[1..] == lines[1..] + more;
      assert lines[0] + "\n" + (Terminated(lines[1..]) + Join(more, '\n')) == Terminated(lines) + Join(more, '\n');
    }
  }

  lemma TextOfNothing()
    ensures Text([]) == ""
  {
  }

  /** The text of a file, section by section. */
  lemma TextOfFirst(sections: seq<Section>)
    requires sections != []
    ensures var s, rest := sections[0], sections[1..];
            Text(sections) == "[" + s.name + "]" + "\n" + (Terminated(OptionLines(s.options)) + if rest == [] then "" else "\n" + Text(rest))
  {
    hide Join;
    var s, rest := sections[0], sections[1..];
    var body, tail := OptionLines(s.options), [""] + Lines(rest);
    assert Lines(sections) == [Header(s.name)] + (body + tail);
    JoinTerminated([Header(s.name)], body + tail);
    JoinTerminated(body, tail);
    assert Terminated([Header(s.name)]) == Header(s.name) + "\n";
    JoinTail(rest);
  }

  lemma JoinTail(rest: seq<Section>)
    ensures Join([""] + Lines(rest), '\n') == if rest == [] then "" else "\n" + Text(rest)
  {
    var tail := [""] + Lines(rest);
    assert tail[1..] == Lines(rest);
  }

  lemma ReadHeader(name: string, rest: string)
    requires ']' !in name
    ensures SectionName(name + "]" + "\n" + rest) == SectionBody(name, rest)
  {
    var s := name + "]" + "\n" + rest;
    assert s == name + "]" + ("\n" + rest);
    IndexOfIs(name, ']', "\n" + rest);
    assert s[..|name|] == name && s[|name| + 1..] == "" + "\n" + rest;
    FirstLineIs("", rest);
  }

  lemma ReadBracket(s: string, section: string)
    requires s != "" && s[0] == '['
    ensures NextSection(s) == SectionName(s[1..]) && SectionBody(section, "\n" + s) == SectionName(s[1..])
  {
    assert ("\n" + s)[1..] == s;
  }

  lemma ReadNothing(section: string)
    ensures NextSection("") == Some([]) && SectionBody(section, "") == Some([])
  {
  }

  /** Reading what J2 writes gives all options in order. */
  lemma {:induction false} ReadSections(sections: seq<Section>)
    requires forall i :: 0 <= i < |sections| ==> PlainSection(sections[i])
    ensures NextSection(Text(sections)) == Some(AllOptions(sections))
    ensures sections != [] ==> Text(sections) != "" && Text(sections)[0] == '['
    ensures sections != [] ==> SectionName(Text(sections)[1..]) == Some(AllOptions(sections))
    decreases |sections|
  {
    hide NextSection, SectionBody, SectionName, Text, PlainOption, Terminated, OptionLines;
    if sections == [] {
      TextOfNothing();
      ReadNothing("");
    } else {
      var s, rest := sections[0], sections[1..];
      var tail := if rest == [] then "" else "\n" + Text(rest);
      TextOfFirst(sections);
      ReadSections(rest);
      ReadPlainOptions(s.name, s.options, tail);
      ReadHeader(s.name, Terminated(OptionLines(s.options)) + tail);
      assert Text(sections)[1..] == s.name + "]" + "\n" + (Terminated(OptionLines(s.options)) + tail);
      ReadBracket(Text(sections), s.name);
      if rest == [] {
        ReadNothing(s.name);
      } else {
        ReadBracket(Text(rest), s.name);
      }
    }
  }

  // ----- Grouping them -----

  lemma {:induction false} AddToLast(sections: seq<Section>, s: Section, o: (string, string))
    requires forall i :: 0 <= i < |sections| ==> sections[i].name != s.name
    ensures AddOption(sections, UnitOption(s.name, o.0, o.1)) == sections + [Section(s.name, [o])]
    ensures AddOption(sections + [s], UnitOption(s.name, o.0, o.1)) == sections + [Section(s.name, s.options + [o])]
  {
    if sections == [] {
      assert sections + [s] == [s] && [s][1..] == [];
    } else {
      AddToLast(sections[1..], s, o);
      assert (sections + [s])[1..] == sections[1..] + [s];
    }
  }

  lemma {:induction false} GroupedAppend(before: seq<UnitOption>, sections: seq<Section>, name: string, options: seq<(string, string)>)
    requires Grouped(before) == sections && forall i :: 0 <= i < |sections| ==> sections[i].name != name
    ensures Grouped(before + OptionsOf(name, options)) == sections + if options == [] then [] else [Section(name, options)]
  {
    hide Grouped, AddOption;
    if options == [] {
      assert before + OptionsOf(name, options) == before;
    } else {
      var init, last := options[..|options| - 1], options[|options| - 1];
      GroupedAppend(before, sections, name, init);
      OptionsOfAppend(name, init, last);
      assert options == init + [last];
      var o := UnitOption(name, last.0, last.1);
      assert before + OptionsOf(name, options) == before + OptionsOf(name, init) + [o];
      GroupedNext(before + OptionsOf(name, init), o);
      AddToLast(sections, Section(name, init), last);
      assert init == [] ==> options == [last] && sections + [] == sections;
    }
  }

  lemma GroupedNext(options: seq<UnitOption>, o: UnitOption)
    ensures Grouped(options + [o]) == AddOption(Grouped(options), o)
  {
    assert (options + [o])[..|options|] == options;
  }

  lemma {:induction false} OptionsOfAppend(name: string, options: seq<(string, string)>, o: (string, string))
    ensures OptionsOf(name, options + [o]) == OptionsOf(name, options) + [UnitOption(name, o.0, o.1)]
  {
    if options == [] {
      assert (options + [o])[1..] == [];
    } else {
      OptionsOfAppend(name, options[1..], o);
      assert (options + [o])[1..] == options[1..] + [o];
    }
  }

  lemma {:induction false} GroupedAll(before: seq<UnitOption>, done: seq<Section>, sections: seq<Section>)
    requires Grouped(before) == NonEmpty(done)
    requires DistinctSections(done + sections)
    ensures Grouped(before + AllOptions(sections)) == NonEmpty(done + sections)
    decreases |sections|
  {
    hide Grouped, OptionsOf, NonEmpty, DistinctSections;
    if sections == [] {
      assert before + AllOptions(sections) == before && done + sections == done;
    } else {
      var s, rest := sections[0], sections[1..];
      assert sections == [s] + rest;
      OtherNames(done, s, rest);
      GroupedAppend(before, NonEmpty(done), s.name, s.options);
      NonEmptyAppend(done, s);
      assert done + [s] + rest == done + sections;
      GroupedAll(before + OptionsOf(s.name, s.options), done + [s], rest);
      assert before + OptionsOf(s.name, s.options) + AllOptions(rest) == before + AllOptions(sections);
    }
  }

  predicate DistinctSections(sections: seq<Section>) {
    forall i, j :: 0 <= i < j < |sections| ==> sections[i].name != sections[j].name
  }

  lemma OtherNames(done: seq<Section>, s: Section, rest: seq<Section>)
    requires DistinctSections(done + ([s] + rest))
    ensures forall i :: 0 <= i < |NonEmpty(done)| ==> NonEmpty(done)[i].name != s.name
  {
    NonEmptyNames(done);
    var all := done + ([s] + rest);
    forall i | 0 <= i < |done| ensures done[i].name != s.name {
      assert all[i] == done[i] && all[|done|] == s;
    }
    forall i | 0 <= i < |NonEmpty(done)| ensures NonEmpty(done)[i].name != s.name {
      assert NonEmpty(done)[i] in done;
    }
  }

  lemma {:induction false} NonEmptyAppend(sections: seq<Section>, s: Section)
    ensures NonEmpty(sections + [s]) == NonEmpty(sections) + if s.options == [] then [] else [s]
  {
    if sections == [] {
      assert (sections + [s])[1..] == [];
    } else {
      var head := if sections[0].options == [] then [] else [sections[0]];
      NonEmptyAppend(sections[1..], s);
      assert NonEmpty(sections + [s]) == head + NonEmpty(sections[1..] + [s]) by {
        assert (sections + [s])[1..] == sections[1..] + [s];
      }
      Associate(head, NonEmpty(sections[1..]), if s.options == [] then [] else [s]);
    }
  }

  lemma {:induction false} NonEmptyNames(sections: seq<Section>)
    ensures forall s :: s in NonEmpty(sections) ==> s in sections
  {
    if sections != [] { NonEmptyNames(sections[1..]); }
  }

  /** What fleet gives back for a unit file as J2 writes it: the same text without the empty sections. */
  lemma StoredDropsEmptySections(sections: seq<Section>)
    requires PlainSections(sections)
    ensures Stored(Text(sections)) == Some(Text(NonEmpty(sections)))
  {
    ReadSections(sections);
    GroupedAll([], [], sections);
    assert [] + AllOptions(sections) == AllOptions(sections) && [] + sections == sections;
  }

  // ----- Comparing them -----

  function ContentLines(sections: seq<Section>): seq<string> {
    if sections == [] then []
    else [Header(sections[0].name)] + OptionLines(sections[0].options) + ContentLines(sections[1..])
  }

  lemma {:induction false} NonBlankAppend(a: seq<string>, b: seq<string>)
    ensures NonBlank(a + b) == NonBlank(a) + NonBlank(b)
  {
    hide Trimmed;
    if a == [] {
      assert a + b == b;
    } else {
      NonBlankAppend(a[1..], b);
      assert NonBlank(a + b) == Trimmed(a[0]) + NonBlank(a[1..] + b) by {
        assert (a + b)[1..] == a[1..] + b;
      }
      Associate(Trimmed(a[0]), NonBlank(a[1..]), NonBlank(b));
    }
  }

  lemma Associate<T>(a: seq<T>, b: seq<T>, c: seq<T>)
    ensures a + (b + c) == a + b + c
  {
  }

  lemma {:induction false} PlainLines(options: seq<(string, string)>)
    requires forall i :: 0 <= i < |options| ==> PlainOption(options[i])
    ensures NonBlank(OptionLines(options)) == OptionLines(options) && |OptionLines(options)| == |options|
    ensures forall l :: l in OptionLines(options) ==> '\n' !in l
  {
    if options != [] {
      var o := options[0];
      PlainLines(options[1..]);
      TrimSpaceKeeps(o.0);
      TrimSpaceKeeps(o.1);
      TrimSpaceKeeps(OptionLine(o));
      assert OptionLines(options)[1..] == OptionLines(options[1..]);
    }
  }

  lemma HeaderAndBlank(name: string)
    ensures NonBlank([Header(name)]) == [Header(name)] && NonBlank([""]) == []
  {
    TrimSpaceKeeps(Header(name));
    TrimSpaceKeeps("");
  }

  lemma {:induction false} LinesContent(sections: seq<Section>)
    requires forall i :: 0 <= i < |sections| ==> PlainSection(sections[i])
    ensures NonBlank(Lines(sections)) == ContentLines(sections)
    ensures forall l :: l in Lines(sections) ==> '\n' !in l
  {
    hide PlainOption, OptionLines, TrimSpace;
    if sections != [] {
      var s := sections[0];
      LinesContent(sections[1..]);
      PlainLines(s.options);
      HeaderAndBlank(s.name);
      var body := OptionLines(s.options);
      NonBlankAppend([Header(s.name)] + body + [""], Lines(sections[1..]));
      NonBlankAppend([Header(s.name)] + body, [""]);
      NonBlankAppend([Header(s.name)], body);
    }
  }

  lemma NoLines()
    ensures NormalizeUnitContent(Text([])) == []
  {
    TrimSpaceKeeps("");
    assert Split("", '\n') == [""];
  }

  lemma NormalizedText(sections: seq<Section>)
    requires forall i :: 0 <= i < |sections| ==> PlainSection(sections[i])
    ensures NormalizeUnitContent(Text(sections)) == ContentLines(sections)
  {
    hide PlainSection, NonBlank, TrimSpace;
    LinesContent(sections);
    if sections == [] {
      NoLines();
    } else {
      SplitJoin(Lines(sections), '\n');
    }
  }

  lemma {:induction false} NonEmptyContent(sections: seq<Section>)
    requires forall i :: 0 <= i < |sections| ==> PlainSection(sections[i])
    ensures !HasEmptySection(sections) ==> NonEmpty(sections) == sections
    ensures HasEmptySection(sections) ==> |ContentLines(NonEmpty(sections))| < |ContentLines(sections)|
    ensures |ContentLines(NonEmpty(sections))| <= |ContentLines(sections)|
    ensures forall i :: 0 <= i < |NonEmpty(sections)| ==> PlainSection(NonEmpty(sections)[i])
  {
    hide PlainSection, OptionLines, HasEmptySection, Header;
    if sections == [] {
      EmptyInFirst(sections);
    } else {
      var s, rest := sections[0], sections[1..];
      NonEmptyContent(rest);
      EmptyInFirst(sections);
      if s.options == [] {
        assert NonEmpty(sections) == NonEmpty(rest);
      } else {
        assert NonEmpty(sections) == [s] + NonEmpty(rest) && NonEmpty(sections)[1..] == NonEmpty(rest);
        assert sections == [s] + rest;
      }
    }
  }

  lemma EmptyInFirst(sections: seq<Section>)
    ensures HasEmptySection(sections) <==> sections != [] && (sections[0].options == [] || HasEmptySection(sections[1..]))
  {
    if sections != [] {
      var rest := sections[1..];
      if i :| 0 <= i < |rest| && rest[i].options == [] { assert sections[i + 1] == rest[i]; }
      if i :| 0 <= i < |sections| && sections[i].options == [] { assert i > 0 ==> rest[i - 1] == sections[i]; }
    }
  }

  // ----- Different unit files look different -----

  lemma OptionLineInjective(a: (string, string), b: (string, string))
    requires '=' !in a.0 && '=' !in b.0 && OptionLine(a) == OptionLine(b)
    ensures a == b
  {
    assert a.0 + "=" + a.1 == a.0 + ['='] + a.1 && b.0 + "=" + b.1 == b.0 + ['='] + b.1;
    IndexOfIs(a.0, '=', a.1);
    IndexOfIs(b.0, '=', b.1);
    assert OptionLine(a)[..|a.0|] == a.0 && OptionLine(b)[..|b.0|] == b.0;
    assert OptionLine(a)[|a.0| + 1..] == a.1 && OptionLine(b)[|b.0| + 1..] == b.1;
  }

  lemma HeaderInjective(a: string, b: string)
    requires Header(a) == Header(b)
    ensures a == b
  {
    assert Header(a)[1..|Header(a)| - 1] == a && Header(b)[1..|Header(b)| - 1] == b;
  }

  /** These lines start with a header, or there are none. */
  predicate StartsWithHeader(lines: seq<string>) {
    lines == [] || (lines[0] != "" && lines[0][0] == '[')
  }

  lemma ContentStartsWithHeader(sections: seq<Section>)
    ensures StartsWithHeader(ContentLines(sections)) && (ContentLines(sections) == [] <==> sections == [])
  {
  }

  /** Where the options end is where the next header is. */
  lemma {:induction false} OptionsAreSeen(a: seq<(string, string)>, x: seq<string>, b: seq<(string, string)>, y: seq<string>)
    requires forall i :: 0 <= i < |a| ==> PlainOption(a[i])
    requires forall i :: 0 <= i < |b| ==> PlainOption(b[i])
    requires StartsWithHeader(x) && StartsWithHeader(y) && OptionLines(a) + x == OptionLines(b) + y
    ensures a == b && x == y
  {
    hide OptionLines, OptionLine, PlainOption;
    if a != [] { FirstOptionLine(a, x); }
    if b != [] { FirstOptionLine(b, y); }
    if a != [] && b != [] {
      OptionLineInjective(a[0], b[0]);
      OptionsAreSeen(a[1..], x, b[1..], y);
      assert a == [a[0]] + a[1..] && b == [b[0]] + b[1..];
    } else {
      NoOptionLines(x);
      NoOptionLines(y);
    }
  }

  lemma FirstOptionLine(options: seq<(string, string)>, rest: seq<string>)
    requires options != [] && PlainOption(options[0])
    ensures var lines := OptionLines(options) + rest;
            && lines != [] && lines[0] == OptionLine(options[0]) && lines[1..] == OptionLines(options[1..]) + rest
            && lines[0] != "" && lines[0][0] != '[' && '=' !in options[0].0
  {
    OptionLineStart(options[0]);
    hide OptionLine, PlainOption;
    HeadAndTail(OptionLine(options[0]), OptionLines(options[1..]), rest);
  }

  lemma OptionLineStart(o: (string, string))
    requires PlainOption(o)
    ensures OptionLine(o) != "" && OptionLine(o)[0] != '[' && '=' !in o.0
  {
    hide IsComment, EndsWith, TrimSpace;
    assert OptionLine(o)[0] == o.0[0];
  }

  lemma HeadAndTail(head: string, tail: seq<string>, rest: seq<string>)
    ensures var all := [head] + tail + rest; all[0] == head && all[1..] == tail + rest
  {
  }

  lemma NoOptionLines(rest: seq<string>)
    ensures OptionLines([]) + rest == rest
  {
  }

  lemma {:induction false} ContentInjective(a: seq<Section>, b: seq<Section>)
    requires forall i :: 0 <= i < |a| ==> PlainSection(a[i])
    requires forall i :: 0 <= i < |b| ==> PlainSection(b[i])
    requires ContentLines(a) == ContentLines(b)
    ensures a == b
  {
    hide PlainOption, StartsWithHeader, OptionLines, Header;
    ContentStartsWithHeader(a);
    ContentStartsWithHeader(b);
    if a != [] {
      var x, y := ContentLines(a), ContentLines(b);
      assert x[0] == Header(a[0].name) && y[0] == Header(b[0].name);
      HeaderInjective(a[0].name, b[0].name);
      assert x[1..] == OptionLines(a[0].options) + ContentLines(a[1..]);
      assert y[1..] == OptionLines(b[0].options) + ContentLines(b[1..]);
      ContentStartsWithHeader(a[1..]);
      ContentStartsWithHeader(b[1..]);
      OptionsAreSeen(a[0].options, ContentLines(a[1..]), b[0].options, ContentLines(b[1..]));
      ContentInjective(a[1..], b[1..]);
      assert a == [a[0]] + a[1..] && b == [b[0]] + b[1..];
    }
  }

  /** J2 takes two unit files as it writes them for the same only if they are: every section, option and value counts. */
  lemma SameContentMeansSame(a: seq<Section>, b: seq<Section>)
    requires forall i :: 0 <= i < |a| ==> PlainSection(a[i])
    requires forall i :: 0 <= i < |b| ==> PlainSection(b[i])
    ensures SameContent(Text(a), Text(b)) <==> a == b
  {
    hide PlainSection;
    NormalizedText(a);
    NormalizedText(b);
    if ContentLines(a) == ContentLines(b) { ContentInjective(a, b); }
  }

  /** What fleet stores of one unit file looks like another one if and only if it is that one without its empty sections. */
  lemma StoredLooksLike(a: seq<Section>, b: seq<Section>)
    requires PlainSections(a) && PlainSections(b)
    ensures Stored(Text(a)).Some?
    ensures SameContent(Stored(Text(a)).value, Text(b)) <==> NonEmpty(a) == b
  {
    hide PlainSection, Stored, SameContent, Text;
    StoredDropsEmptySections(a);
    NonEmptyContent(a);
    SameContentMeansSame(NonEmpty(a), b);
  }

  // ----- Comparing any two texts -----

  predicate AllSpace(s: string) { forall i :: 0 <= i < |s| ==> IsSpace(s[i]) }

  /** Lines of a text. */
  predicate AreLines(lines: seq<string>) { forall l :: l in lines ==> '\n' !in l }

  lemma {:induction false} TrimLeftAppend(s: string, t: string)
    ensures TrimLeft(s + t) == if AllSpace(s) then TrimLeft(t) else TrimLeft(s) + t
    ensures AllSpace(s) ==> TrimLeft(s) == ""
  {
    if s == "" {
      assert s + t == t;
    } else {
      assert (s + t)[1..] == s[1..] + t;
      if IsSpace(s[0]) {
        TrimLeftAppend(s[1..], t);
        assert AllSpace(s) <==> AllSpace(s[1..]) by { assert s == [s[0]] + s[1..]; }
      }
    }
  }

  lemma {:induction false} TrimRightDrops(s: string, right: string)
    requires AllSpace(right)
    ensures TrimRight(s + right) == TrimRight(s)
  {
    if right == "" {
      assert s + right == s;
    } else {
      TrimRightDrops(s, right[..|right| - 1]);
      assert (s + right)[..|s + right| - 1] == s + right[..|right| - 1];
    }
  }

  lemma TrimSpaceDrops(left: string, line: string, right: string)
    requires AllSpace(left) && AllSpace(right)
    ensures TrimSpace(left + line + right) == TrimSpace(line)
  {
    assert left + line + right == left + (line + right);
    TrimLeftAppend(left, line + right);
    TrimLeftAppend(line, right);
    TrimLeftAppend(right, "");
    assert right + "" == right;
    TrimRightDrops(TrimLeft(line), right);
  }

  lemma LinesOf(lines: seq<string>)
    requires AreLines(lines)
    ensures NormalizeUnitContent(Join(lines, '\n')) == NonBlank(lines)
  {
    hide Trimmed;
    if lines == [] {
      NoLines();
    } else {
      SplitJoin(lines, '\n');
    }
  }

  lemma OneLineOf(before: seq<string>, line: string, after: seq<string>)
    ensures NonBlank(before + [line] + after) == NonBlank(before) + Trimmed(line) + NonBlank(after)
  {
    hide Trimmed;
    NonBlankAppend(before + [line], after);
    NonBlankAppend(before, [line]);
    assert NonBlank([line]) == Trimmed(line) + NonBlank([]);
  }

  lemma LineInside(before: seq<string>, left: string, line: string, right: string, after: seq<string>)
    requires AreLines(before + [left + line + right] + after)
    ensures AreLines(before + [line] + after) && AreLines(before + after)
  {
    var full := left + line + right;
    assert full in before + [full] + after && forall i :: 0 <= i < |line| ==> full[|left| + i] == line[i];
  }

  /** White space around a line makes no difference, and a line of nothing else makes none at all. */
  lemma SpaceIsIgnored(before: seq<string>, left: string, line: string, right: string, after: seq<string>)
    requires AreLines(before + [left + line + right] + after) && AllSpace(left) && AllSpace(right)
    ensures SameContent(Join(before + [left + line + right] + after, '\n'), Join(before + [line] + after, '\n'))
    ensures line == "" ==> SameContent(Join(before + [left + line + right] + after, '\n'), Join(before + after, '\n'))
  {
    var full := left + line + right;
    hide NonBlank, AreLines, TrimSpace, AllSpace, NormalizeUnitContent, Join;
    LineInside(before, left, line, right, after);
    TrimSpaceDrops(left, line, right);
    TrimSpaceKeeps("");
    LinesOf(before + [full] + after);
    LinesOf(before + [line] + after);
    LinesOf(before + after);
    OneLineOf(before, full, after);
    OneLineOf(before, line, after);
    NonBlankAppend(before, after);
  }

  lemma {:induction false} NothingToTrim(lines: seq<string>)
    requires forall l :: l in lines ==> l != "" && !IsSpace(l[0]) && !IsSpace(l[|l| - 1])
    ensures NonBlank(lines) == lines
  {
    hide TrimSpace;
    if lines != [] {
      NothingToTrim(lines[1..]);
      TrimSpaceKeeps(lines[0]);
      assert lines == [lines[0]] + lines[1..];
    }
  }

  /** Everything else makes a difference: texts of trimmed lines that are not blank look the same only if they are. */
  lemma TrimmedLinesCount(a: seq<string>, b: seq<string>)
    requires AreLines(a) && AreLines(b)
    requires forall l :: l in a || l in b ==> l != "" && !IsSpace(l[0]) && !IsSpace(l[|l| - 1])
    ensures SameContent(Join(a, '\n'), Join(b, '\n')) <==> a == b
  {
    LinesOf(a);
    LinesOf(b);
    NothingToTrim(a);
    NothingToTrim(b);
  }

  /** A unit file as J2 writes it comes back unmodified if and only if it has no empty section. */
  lemma StableWithoutEmptySections(sections: seq<Section>)
    requires PlainSections(sections)
    ensures Stored(Text(sections)).Some?
    ensures SameContent(Stored(Text(sections)).value, Text(sections)) <==> !HasEmptySection(sections)
  {
    hide PlainSections, Stored, SameContent, Text;
    StoredLooksLike(sections, sections);
    NothingIsEmpty(sections);
  }

  lemma NothingIsEmpty(sections: seq<Section>)
    requires PlainSections(sections)
    ensures NonEmpty(sections) == sections <==> !HasEmptySection(sections)
  {
    hide PlainSection;
    NonEmptyContent(sections);
  }

  // ----- The unit files of J2 -----

  /**
  What Render puts in a unit file: the options of [Unit] after the description, the section for the
  type of the unit, the fleet options, and the project settings.
  */
  datatype UnitText = UnitText(description: string, unit: seq<(string, string)>, typed: Section,
                               fleet: seq<(string, string)>, project: string, generatedBy: string,
                               settings: seq<(string, string)>)
  {
    function Sections(): seq<Section> {
      [Section("Unit", [("Description", description)] + unit), typed, Section("X-Fleet", fleet),
       Section("X-" + project, [("GeneratedBy", generatedBy)] + settings)]
    }
  }

  /** A rendered unit is seen as unmodified if and only if it has at least one fleet option. */
  lemma RenderedIsStable(u: UnitText)
    requires PlainSections(u.Sections()) && u.typed.options != []
    ensures Stored(Text(u.Sections())).Some?
    ensures SameContent(Stored(Text(u.Sections())).value, Text(u.Sections())) <==> u.fleet != []
  {
    hide PlainSections, Stored, SameContent, Text;
    StableWithoutEmptySections(u.Sections());
    var s := u.Sections();
    assert s[0].options != [] && s[1].options != [] && s[3].options != [];
    assert s[2].options == u.fleet;
  }

  /** A unit without fleet options, as generated for a single task on a cluster of one machine. */
  function ProxyUnit(): UnitText {
    UnitText("db", [], Section("Service", [("Restart", "always")]), [], "j2", "j2", [])
  }

  lemma PlainOptionOf(name: string, value: string)
    requires name != "" && value != "" && '=' !in name
    requires forall i :: 0 <= i < |name| ==> !IsSpace(name[i])
    requires forall i :: 0 <= i < |value| ==> value[i] == ' ' || !IsSpace(value[i])
    requires value[0] != ' ' && value[|value| - 1] != ' ' && value[|value| - 1] != '\\'
    requires name[0] != '[' && !IsComment(name[0])
    ensures PlainOption((name, value))
  {
    TrimSpaceKeeps(name);
    TrimSpaceKeeps(value);
  }

  lemma DescriptionIsPlain()
    ensures PlainSection(Section("Unit", [("Description", "db")]))
  {
    PlainOptionOf("Description", "db");
    hide PlainOption;
  }

  lemma RestartIsPlain()
    ensures PlainSection(Section("Service", [("Restart", "always")]))
  {
    PlainOptionOf("Restart", "always");
    hide PlainOption;
  }

  lemma GeneratedByIsPlain()
    ensures PlainSection(Section("X-j2", [("GeneratedBy", "j2")]))
  {
    PlainOptionOf("GeneratedBy", "j2");
    hide PlainOption;
  }

  lemma FourPlainSections(a: Section, b: Section, c: Section, d: Section)
    requires PlainSection(a) && PlainSection(b) && PlainSection(c) && PlainSection(d)
    requires a.name != b.name && a.name != c.name && a.name != d.name && b.name != c.name && b.name != d.name && c.name != d.name
    ensures PlainSections([a, b, c, d])
  {
    hide PlainSection;
  }

  lemma ProxyUnitIsPlain()
    ensures PlainSections(ProxyUnit().Sections())
  {
    DescriptionIsPlain();
    RestartIsPlain();
    GeneratedByIsPlain();
    hide PlainSection, PlainSections;
    assert PlainSection(Section("X-Fleet", [])) by { EmptySectionIsPlain(); }
    assert "X-" + "j2" == "X-j2" && [("GeneratedBy", "j2")] + [] == [("GeneratedBy", "j2")];
    assert [("Description", "db")] + [] == [("Description", "db")];
    assert |"Unit"| == 4 && |"Service"| == 7 && "X-Fleet"[0] == 'X' && "Service"[0] == 'S' && |"X-Fleet"| == 7;
    FourPlainSections(Section("Unit", [("Description", "db")]), Section("Service", [("Restart", "always")]), Section("X-Fleet", []),
                      Section("X-j2", [("GeneratedBy", "j2")]));
  }

  lemma EmptySectionIsPlain()
    ensures PlainSection(Section("X-Fleet", []))
  {
  }

  /** Fleet never gives back the text of this unit: it looks modified on every run. */
  lemma ProxyUnitIsNeverStable()
    ensures var text := Text(ProxyUnit().Sections());
            Stored(text).Some? && !SameContent(Stored(text).value, text)
  {
    ProxyUnitIsPlain();
    hide PlainSections, Stored, SameContent, Text, UnitText.Sections;
    RenderedIsStable(ProxyUnit());
  }
}
