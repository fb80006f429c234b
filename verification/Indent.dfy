/**
Indenting text on its way to a writer that may fail or write less than asked at any time, so that a
caller who resends what was not accepted gets every line indented exactly once.
*/
module Indent {
  import opened Strings

  // ----- The indented text -----

  predicate AtLineStart(s: string) { s == "" || s[|s| - 1] == '\n' }

  function Newlines(s: string): nat {
    if s == "" then 0 else Newlines(s[..|s| - 1]) + if s[|s| - 1] == '\n' then 1 else 0
  }

  /** The prefixes in order, the last one repeated. */
  function Selected(pre: seq<string>, line: nat): (n: nat)
    requires |pre| > 0
    ensures n < |pre|
  {
    if line < |pre| then line else |pre| - 1
  }

  /** What the writer makes of the text s, byte by byte. */
  function Indented(pre: seq<string>, s: string): string
    requires |pre| > 0
  {
    if s == "" then ""
    else
      var init := s[..|s| - 1];
      Indented(pre, init) + (if AtLineStart(init) then pre[Selected(pre, Newlines(init))] else "") + [s[|s| - 1]]
  }

  /** Line by line: line k starts with its prefix, except that an empty rest of text is no line. */
  function IndentLines(pre: seq<string>, lines: seq<string>, k: nat): string
    requires |pre| > 0 && |lines| > 0
  {
    if |lines| == 1 then (if lines[0] == "" then "" else pre[Selected(pre, k)] + lines[0])
    else pre[Selected(pre, k)] + lines[0] + "\n" + IndentLines(pre, lines[1..], k + 1)
  }

  /** The parts of a text with one more byte. */
  function Appended(parts: seq<string>, c: char, sep: char): (more: seq<string>)
    requires |parts| > 0
    ensures |more| > 0
  {
    if c == sep then parts + [""] else parts[..|parts| - 1] + [parts[|parts| - 1] + [c]]
  }

  lemma AppendedTail(first: string, parts: seq<string>, c: char, sep: char)
    requires |parts| > 0
    ensures Appended([first] + parts, c, sep) == [first] + Appended(parts, c, sep)
  {
    assert ([first] + parts)[..|parts|] == [first] + parts[..|parts| - 1];
  }

  lemma AppendedFirst(x: char, parts: seq<string>, c: char, sep: char)
    requires |parts| > 0
    ensures var more := Appended(parts, c, sep);
            Appended([[x] + parts[0]] + parts[1..], c, sep) == [[x] + more[0]] + more[1..]
  {
    if |parts| == 1 {
      assert ([x] + parts[0]) + [c] == [x] + (parts[0] + [c]);
    } else {
      assert parts == [parts[0]] + parts[1..];
      AppendedTail(parts[0], parts[1..], c, sep);
      AppendedTail([x] + parts[0], parts[1..], c, sep);
    }
  }

  lemma {:induction false} SplitAppend(s: string, c: char, sep: char)
    ensures Split(s + [c], sep) == Appended(Split(s, sep), c, sep)
  {
    if s == "" {
      assert s + [c] == [c] && [c][1..] == "" && [c] + "" == [c];
    } else {
      hide Appended;
      SplitAppend(s[1..], c, sep);
      assert (s + [c])[1..] == s[1..] + [c];
      if s[0] == sep {
        AppendedTail("", Split(s[1..], sep), c, sep);
      } else {
        AppendedFirst(s[0], Split(s[1..], sep), c, sep);
      }
    }
  }

  function Added(pre: seq<string>, lines: seq<string>, k: nat, c: char): string
    requires |pre| > 0 && |lines| > 0
  {
    (if lines[|lines| - 1] == "" then pre[Selected(pre, k + |lines| - 1)] else "") + [c]
  }

  lemma AppendToOne(pre: seq<string>, line: string, k: nat, c: char)
    requires |pre| > 0
    ensures IndentLines(pre, Appended([line], c, '\n'), k) == IndentLines(pre, [line], k) + Added(pre, [line], k, c)
  {
    if c == '\n' {
      assert [line, ""][1..] == [""];
      assert Appended([line], c, '\n') == [line, ""];
    } else {
      assert Appended([line], c, '\n') == [line + [c]];
    }
  }

  lemma {:induction false} AppendToLines(pre: seq<string>, lines: seq<string>, k: nat, c: char)
    requires |pre| > 0 && |lines| > 0
    ensures IndentLines(pre, Appended(lines, c, '\n'), k) == IndentLines(pre, lines, k) + Added(pre, lines, k, c)
  {
    hide Appended, Selected;
    var longer := Appended(lines, c, '\n');
    if |lines| == 1 {
      assert lines == [lines[0]];
      AppendToOne(pre, lines[0], k, c);
    } else {
      AppendToLines(pre, lines[1..], k + 1, c);
      assert lines[1..][|lines[1..]| - 1] == lines[|lines| - 1];
      assert lines == [lines[0]] + lines[1..];
      AppendedTail(lines[0], lines[1..], c, '\n');
      assert longer == [lines[0]] + Appended(lines[1..], c, '\n');
      assert longer[1..] == Appended(lines[1..], c, '\n');
      var head := pre[Selected(pre, k)] + lines[0] + "\n";
      assert head + (IndentLines(pre, lines[1..], k + 1) + Added(pre, lines, k, c))
          == head + IndentLines(pre, lines[1..], k + 1) + Added(pre, lines, k, c);
    }
  }

  /** Byte by byte and line by line come to the same: line k of the text gets prefix min(k, last). */
  lemma {:induction false} IndentedByLines(pre: seq<string>, s: string)
    requires |pre| > 0
    ensures Indented(pre, s) == IndentLines(pre, Split(s, '\n'), 0)
    ensures |Split(s, '\n')| == Newlines(s) + 1
    ensures Split(s, '\n')[|Split(s, '\n')| - 1] == "" <==> AtLineStart(s)
  {
    if s == "" {
      assert Split(s, '\n') == [""];
    } else {
      hide Split, IndentLines;
      var init, c := s[..|s| - 1], s[|s| - 1];
      assert s == init + [c];
      IndentedByLines(pre, init);
      SplitAppend(init, c, '\n');
      AppendToLines(pre, Split(init, '\n'), 0, c);
      assert Split(s, '\n') == Appended(Split(init, '\n'), c, '\n');
    }
  }

  // ----- A writer that may fail -----

  /** How a write ends: `fail` with `delivered` bytes written at most, or completely. */
  datatype Outcome = Outcome(fail: bool, delivered: nat)

  class Sink {
    var content: string
    var script: seq<Outcome>
    /** A failed write of a single byte does not write it. */
    const atomicBytes: bool

    constructor (script: seq<Outcome>, atomicBytes: bool)
      ensures content == "" && this.script == script && this.atomicBytes == atomicBytes
    {
      content, this.script, this.atomicBytes := "", script, atomicBytes;
    }

    /** How many bytes of a failing write reach the sink. */
    function Delivered(outcome: Outcome, size: nat): (n: nat)
      ensures n <= size
    {
      if atomicBytes && size == 1 then 0 else if outcome.delivered < size then outcome.delivered else size
    }

    /** The contract of io.Writer: n bytes are written, and less than all only with an error. */
    method Write(p: string) returns (n: nat, failed: bool)
      modifies this
      ensures n <= |p| && content == old(content) + p[..n] && (!failed ==> n == |p|)
      ensures failed && atomicBytes && |p| == 1 ==> n == 0
      ensures |script| <= |old(script)| && (failed ==> |script| < |old(script)|)
      ensures script == if old(script) == [] then [] else old(script)[1..]
      ensures failed <==> old(script) != [] && old(script)[0].fail
      ensures failed ==> n == Delivered(old(script)[0], |p|)
    {
      var outcome := Outcome(false, 0);
      if |script| > 0 {
        outcome, script := script[0], script[1..];
      }
      failed := outcome.fail;
      n := if failed then Delivered(outcome, |p|) else |p|;
      content := content + p[..n];
    }
  }

  lemma JoinSlices(before: string, prefix: string, off: nat, i: nat)
    requires off + i <= |prefix|
    ensures before + prefix[..off] + prefix[off..][..i] == before + prefix[..off + i]
  {
    assert prefix[..off] + prefix[off..][..i] == prefix[..off + i];
  }

  lemma SelectedNext(pre: seq<string>, line: nat)
    requires |pre| > 0
    ensures Selected(pre, line + 1) == if Selected(pre, line) < |pre| - 1 then Selected(pre, line) + 1 else Selected(pre, line)
  {
  }

  lemma IndentedStep(pre: seq<string>, s: string, c: char)
    requires |pre| > 0
    ensures Indented(pre, s + [c]) == Indented(pre, s) + (if AtLineStart(s) then pre[Selected(pre, Newlines(s))] else "") + [c]
    ensures Newlines(s + [c]) == Newlines(s) + if c == '\n' then 1 else 0
    ensures AtLineStart(s + [c]) <==> c == '\n'
  {
    assert (s + [c])[..|s|] == s;
  }

  lemma AddByte(start: string, text: string, prefix: string, c: char)
    ensures start + text + prefix + [c] == start + (text + prefix + [c])
    ensures start + (text + prefix + [c]) + "" == start + (text + prefix + [c])
  {
  }

  class IndentWriter {
    const sink: Sink
    const pre: seq<string>
    var bol: bool
    var sel: nat
    var off: nat
    ghost const start: string
    /** All bytes accepted so far. */
    ghost var accepted: string
    /** How often the sink reported failure for a single byte that it nevertheless wrote. */
    ghost var repeats: nat

    ghost predicate Valid()
      reads this
    {
      && |pre| > 0 && sel == Selected(pre, Newlines(accepted)) && bol == AtLineStart(accepted)
      && (bol ==> off <= |pre[sel]|)
    }

    /** What should be in the sink: the indented accepted bytes and a part of the next prefix. */
    ghost function Wanted(): string
      requires Valid()
      reads this
    {
      start + Indented(pre, accepted) + if bol then pre[sel][..off] else ""
    }

    ghost predicate Sound()
      requires Valid()
      reads this, sink
    {
      && |sink.content| == |Wanted()| + repeats
      && (repeats == 0 ==> sink.content == Wanted())
    }

    constructor (sink: Sink, pre: seq<string>)
      requires |pre| > 0
      ensures Valid() && Sound() && this.sink == sink && this.pre == pre && start == sink.content
      ensures accepted == "" && repeats == 0
    {
      this.sink, this.pre := sink, pre;
      bol, sel, off := true, 0, 0;
      start, accepted, repeats := sink.content, "", 0;
    }

    method WritePrefix() returns (failed: bool)
      requires Valid() && Sound() && bol
      modifies this`off, sink
      ensures Valid() && Sound() && (!failed ==> off == |pre[sel]|)
      ensures |sink.script| <= |old(sink.script)| && (failed ==> |sink.script| < |old(sink.script)|)
      ensures sink.script == if old(sink.script) == [] then [] else old(sink.script)[1..]
      ensures failed <==> old(sink.script) != [] && old(sink.script)[0].fail
    {
      hide Indented;
      var i;
      i, failed := sink.Write(pre[sel][off..]);
      JoinSlices(start + Indented(pre, accepted), pre[sel], off, i);
      off := off + i;
    }

    method WriteByte(c: char) returns (failed: bool)
      requires Valid() && Sound() && (bol ==> off == |pre[sel]|)
      modifies this, sink
      ensures Valid() && Sound() && accepted == if failed then old(accepted) else old(accepted) + [c]
      ensures |sink.script| <= |old(sink.script)| && (failed ==> |sink.script| < |old(sink.script)|)
      ensures sink.atomicBytes ==> repeats == old(repeats)
      ensures sink.script == if old(sink.script) == [] then [] else old(sink.script)[1..]
      ensures failed <==> old(sink.script) != [] && old(sink.script)[0].fail
      ensures repeats == old(repeats) + if failed then sink.Delivered(old(sink.script)[0], 1) else 0
      ensures failed ==> off == old(off) && sel == old(sel) && bol == old(bol)
    {
      hide Indented, Newlines, AtLineStart, Selected, Sink.Delivered;
      var i;
      i, failed := sink.Write([c]);
      if failed {
        repeats := repeats + i;
        return;
      }
      IndentedStep(pre, accepted, c);
      SelectedNext(pre, Newlines(accepted));
      assert pre[sel][..|pre[sel]|] == pre[sel];
      AddByte(start, Indented(pre, accepted), if bol then pre[sel] else "", c);
      accepted := accepted + [c];
      bol := c == '\n';
      if bol {
        off := 0;
        if sel < |pre| - 1 { sel := sel + 1; }
      }
    }

    /** Writes a chunk. n bytes are accepted, all of them unless the sink failed. */
    method Write(p: string) returns (n: nat, failed: bool)
      requires Valid() && Sound()
      modifies this, sink
      ensures Valid() && Sound() && n <= |p| && accepted == old(accepted) + p[..n]
      ensures !failed ==> n == |p|
      ensures |sink.script| <= |old(sink.script)| && (failed ==> |sink.script| < |old(sink.script)|)
      ensures sink.atomicBytes ==> repeats == old(repeats)
    {
      hide Indented, Wanted;
      n := 0;
      while n < |p|
        invariant Valid() && Sound() && n <= |p| && accepted == old(accepted) + p[..n]
        invariant |sink.script| <= |old(sink.script)| && (sink.atomicBytes ==> repeats == old(repeats))
      {
        if bol {
          failed := WritePrefix();
          if failed { return; }
        }
        failed := WriteByte(p[n]);
        if failed { return; }
        assert p[..n + 1] == p[..n] + [p[n]];
        n := n + 1;
      }
      failed := false;
    }

    /** A caller that resends what was not accepted until everything is. */
    method WriteAll(p: string)
      requires Valid() && Sound()
      modifies this, sink
      ensures Valid() && Sound() && accepted == old(accepted) + p && (sink.atomicBytes ==> repeats == old(repeats))
    {
      var rest := p;
      while rest != ""
        invariant Valid() && Sound() && old(accepted) + p == accepted + rest && (sink.atomicBytes ==> repeats == old(repeats))
        decreases |sink.script|, |rest|
      {
        var n, failed := Write(rest);
        assert rest == rest[..n] + rest[n..];
        rest := rest[n..];
      }
    }

    /** The sink holds what it should exactly when it never wrote a byte it reported as failed. */
    lemma ExactlyWhenNoRepeats()
      requires Valid() && Sound()
      ensures sink.content == Wanted() <==> repeats == 0
    {
    }
  }

  /**
  Any text, sent in any chunks through any pattern of failures and resent where needed, arrives
  indented line by line if no failed write of a single byte delivered it, and only then.
  */
  method SendChunks(sink: Sink, pre: seq<string>, chunks: seq<string>) returns (writer: IndentWriter)
    requires |pre| > 0
    modifies sink
    ensures fresh(writer) && writer.sink == sink && writer.Valid() && writer.accepted == Concat(chunks) && writer.pre == pre
    ensures sink.atomicBytes ==> writer.repeats == 0
    ensures var lines := Split(Concat(chunks), '\n');
            sink.content == old(sink.content) + IndentLines(pre, lines, 0)
                            + (if writer.bol then pre[writer.sel][..writer.off] else "")
            <==> writer.repeats == 0
  {
    writer := new IndentWriter(sink, pre);
    for i := 0 to |chunks|
      invariant writer.Valid() && writer.Sound() && writer.accepted == Concat(chunks[..i])
      invariant sink.atomicBytes ==> writer.repeats == 0
    {
      writer.WriteAll(chunks[i]);
      assert chunks[..i + 1][..i] == chunks[..i];
    }
    assert chunks[..|chunks|] == chunks;
    IndentedByLines(pre, Concat(chunks));
    writer.ExactlyWhenNoRepeats();
  }

  /**
  A sink that takes the prefix, then writes a byte but reports an error for it, and then takes
  everything: when the byte is sent again, as it was not accepted, it is in the sink twice.
  */
  method ByteIsRepeated() returns (writer: IndentWriter)
    ensures fresh(writer) && writer.Valid() && writer.accepted == "a" && writer.repeats == 1
    ensures writer.Wanted() == writer.start + "pa" && |writer.sink.content| == |writer.Wanted()| + 1
  {
    var sink := new Sink([Outcome(false, 0), Outcome(true, 1)], false);
    writer := new IndentWriter(sink, ["p"]);
    var failed := writer.WritePrefix();
    failed := writer.WriteByte('a');
    assert failed;
    failed := writer.WriteByte('a');
    assert [] + ['a'] == "a" && "a"[..0] == "";
    assert Indented(["p"], "a") == "" + "p" + "a";
  }

  function Concat(chunks: seq<string>): string {
    if chunks == [] then "" else Concat(chunks[..|chunks| - 1]) + chunks[|chunks| - 1]
  }

  // ----- Indenting a text in memory -----

  /** Like Indented with a single prefix, but blank lines get none. */
  function IndentedText(s: string, prefix: string): string {
    if s == "" then ""
    else
      var init, c := s[..|s| - 1], s[|s| - 1];
      IndentedText(init, prefix) + (if AtLineStart(init) && c != '\n' then prefix else "") + [c]
  }

  method IndentBytes(b: string, prefix: string) returns (res: string)
    ensures res == IndentedText(b, prefix)
  {
    res := "";
    var bol := true;
    for i := 0 to |b|
      invariant res == IndentedText(b[..i], prefix) && bol == AtLineStart(b[..i])
    {
      assert b[..i + 1][..i] == b[..i];
      var c := b[i];
      if bol && c != '\n' {
        res := res + prefix;
      }
      res := res + [c];
      bol := c == '\n';
    }
    assert b[..|b|] == b;
  }

  predicate BlankAt(s: string, i: nat)
    requires i < |s|
  {
    AtLineStart(s[..i]) && s[i] == '\n'
  }

  lemma SameEnd(a: string, b: string, end: string)
    ensures a + end == b + end <==> a == b
  {
    if a + end == b + end {
      assert (a + end)[..|a|] == a && (b + end)[..|b|] == b;
    }
  }

  /** Indenting in memory and through the writer agree exactly on texts without blank lines. */
  lemma {:induction false} TextAgreesWithoutBlankLines(s: string, prefix: string)
    ensures |IndentedText(s, prefix)| <= |Indented([prefix], s)|
    ensures IndentedText(s, prefix) == Indented([prefix], s) <==>
              prefix == "" || forall i :: 0 <= i < |s| ==> !BlankAt(s, i)
    ensures prefix != "" && (exists i :: 0 <= i < |s| && BlankAt(s, i)) ==> |IndentedText(s, prefix)| < |Indented([prefix], s)|
  {
    if s != "" {
      var n := |s| - 1;
      var init, c := s[..n], s[n];
      TextAgreesWithoutBlankLines(init, prefix);
      assert forall i :: 0 <= i < n ==> s[..i] == init[..i];
      assert forall i :: 0 <= i < n ==> (BlankAt(s, i) <==> BlankAt(init, i));
      var added := (if AtLineStart(init) && c != '\n' then prefix else "") + [c];
      var text, indented := IndentedText(init, prefix), Indented([prefix], init);
      assert IndentedText(s, prefix) == text + added;
      if prefix == "" || !BlankAt(s, n) {
        assert Indented([prefix], s) == indented + added;
        SameEnd(text, indented, added);
      }
    }
  }
}
