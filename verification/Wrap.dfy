/**
WrapWords: breaks a list of words into lines with minimal raggedness, by a dynamic program over the
suffixes of the list.
*/
module Wrap {

  type Word = seq<char>

  const MAX_INT32 := 0x7fff_ffff

  /** Space between words, line limit and penalty for lines over the limit. */
  datatype Layout = Layout(spc: int, lim: int, pen: int)

  // ----- Lines and their cost -----

  function LineLength(lay: Layout, line: seq<Word>): int {
    if |line| == 0 then 0
    else if |line| == 1 then |line[0]|
    else LineLength(lay, line[..|line| - 1]) + lay.spc + |line[|line| - 1]|
  }

  /** The cost of a line that is not the last. */
  function LineCost(lay: Layout, line: seq<Word>): int {
    var d := lay.lim - LineLength(lay, line);
    d * d + if LineLength(lay, line) > lay.lim then lay.pen else 0
  }

  function LinesCost(lay: Layout, lines: seq<seq<Word>>): int {
    if |lines| <= 1 then 0 else LineCost(lay, lines[0]) + LinesCost(lay, lines[1..])
  }

  function Concat(lines: seq<seq<Word>>): seq<Word> {
    if lines == [] then [] else lines[0] + Concat(lines[1..])
  }

  /** A last line has to fit, unless it is a single word. */
  predicate CanBeLast(lay: Layout, line: seq<Word>) {
    |line| == 1 || LineLength(lay, line) <= lay.lim
  }

  /** The lines hold these words, none is empty, and the last one is acceptable. */
  ghost predicate IsLayout(lay: Layout, words: seq<Word>, lines: seq<seq<Word>>) {
    && Concat(lines) == words
    && (forall k :: 0 <= k < |lines| ==> lines[k] != [])
    && (lines != [] ==> CanBeLast(lay, lines[|lines| - 1]))
  }

  lemma CostNotNegative(lay: Layout, line: seq<Word>)
    requires lay.pen >= 0
    ensures LineCost(lay, line) >= 0
  {
    var d := lay.lim - LineLength(lay, line);
    assert d * d >= 0;
  }

  // ----- Minimal costs -----

  /** The least cost of laying out the words from i on. */
  function Best(lay: Layout, words: seq<Word>, i: nat): int
    requires i < |words|
    decreases |words| - i, 0
  {
    if CanBeLast(lay, words[i..]) then 0 else BestFrom(lay, words, i, i + 1)
  }

  /** The least cost when the first line ends at j or later, before the last word. */
  function BestFrom(lay: Layout, words: seq<Word>, i: nat, j: nat): int
    requires i < j < |words|
    decreases |words| - i - 1, |words| - j
  {
    var here := LineCost(lay, words[i..j]) + Best(lay, words, j);
    if j + 1 == |words| then here
    else
      var later := BestFrom(lay, words, i, j + 1);
      if later < here then later else here
  }

  lemma {:induction false} BestFromBound(lay: Layout, words: seq<Word>, i: nat, j: nat, k: nat)
    requires i < j <= k < |words|
    ensures BestFrom(lay, words, i, j) <= LineCost(lay, words[i..k]) + Best(lay, words, k)
    decreases k - j
  {
    if j < k { BestFromBound(lay, words, i, j + 1, k); }
  }

  lemma {:induction false} BestNotNegative(lay: Layout, words: seq<Word>, i: nat)
    requires lay.pen >= 0 && i < |words|
    ensures Best(lay, words, i) >= 0
    decreases |words| - i, 0
  {
    if !CanBeLast(lay, words[i..]) {
      BestFromNotNegative(lay, words, i, i + 1);
    }
  }

  lemma {:induction false} BestFromNotNegative(lay: Layout, words: seq<Word>, i: nat, j: nat)
    requires lay.pen >= 0 && i < j < |words|
    ensures BestFrom(lay, words, i, j) >= 0
    decreases |words| - i - 1, |words| - j
  {
    CostNotNegative(lay, words[i..j]);
    BestNotNegative(lay, words, j);
    if j + 1 < |words| { BestFromNotNegative(lay, words, i, j + 1); }
  }

  /** No layout of a suffix costs less than Best. */
  lemma {:induction false} BestIsLowerBound(lay: Layout, words: seq<Word>, i: nat, lines: seq<seq<Word>>)
    requires lay.pen >= 0 && i < |words| && IsLayout(lay, words[i..], lines)
    ensures LinesCost(lay, lines) >= Best(lay, words, i)
    decreases |lines|
  {
    assert |lines| > 0;
    if |lines| == 1 {
      assert Concat(lines[1..]) == [];
      assert lines[0] == words[i..];
    } else {
      var rest := lines[1..];
      var j := i + |lines[0]|;
      assert rest[0] != [] && |Concat(rest)| > 0 by { assert Concat(rest) == rest[0] + Concat(rest[1..]); }
      assert words[i..] == lines[0] + Concat(rest);
      assert lines[0] == words[i..][..|lines[0]|] == words[i..j];
      assert Concat(rest) == words[i..][|lines[0]|..] == words[j..];
      BestIsLowerBound(lay, words, j, rest);
      CostNotNegative(lay, words[i..j]);
      BestNotNegative(lay, words, j);
      if !CanBeLast(lay, words[i..]) {
        BestFromBound(lay, words, i, i + 1, j);
      }
    }
  }

  lemma {:induction false} BestFromAt(lay: Layout, words: seq<Word>, i: nat, j: nat) returns (k: nat)
    requires i < j < |words|
    ensures j <= k < |words| && BestFrom(lay, words, i, j) == LineCost(lay, words[i..k]) + Best(lay, words, k)
    decreases |words| - j
  {
    if j + 1 < |words| && BestFrom(lay, words, i, j + 1) < LineCost(lay, words[i..j]) + Best(lay, words, j) {
      k := BestFromAt(lay, words, i, j + 1);
    } else {
      k := j;
    }
  }

  /** Some layout of a suffix costs what Best says. */
  lemma {:induction false} BestIsAttained(lay: Layout, words: seq<Word>, i: nat) returns (lines: seq<seq<Word>>)
    requires i < |words|
    ensures IsLayout(lay, words[i..], lines) && LinesCost(lay, lines) == Best(lay, words, i)
    decreases |words| - i
  {
    if CanBeLast(lay, words[i..]) {
      lines := [words[i..]];
      assert Concat(lines) == words[i..] + Concat([]);
    } else {
      var k := BestFromAt(lay, words, i, i + 1);
      var rest := BestIsAttained(lay, words, k);
      lines := [words[i..k]] + rest;
      assert lines[1..] == rest && words[i..] == words[i..k] + words[k..];
      assert rest != [];
    }
  }

  /** Some layout of the words costs less than the cap of the cost table. */
  ghost predicate Affordable(lay: Layout, words: seq<Word>) {
    exists lines :: IsLayout(lay, words, lines) && LinesCost(lay, lines) < MAX_INT32
  }

  lemma AffordableIsBest(lay: Layout, words: seq<Word>)
    requires lay.pen >= 0 && |words| > 0
    ensures Affordable(lay, words) <==> Best(lay, words, 0) < MAX_INT32
  {
    assert words[0..] == words;
    if Affordable(lay, words) {
      var lines :| IsLayout(lay, words, lines) && LinesCost(lay, lines) < MAX_INT32;
      BestIsLowerBound(lay, words, 0, lines);
    }
    var best := BestIsAttained(lay, words, 0);
  }

  // ----- The tables -----

  /** length[i][j] is the length of the line from word i up to and including word j. */
  method ComputeLengths(lay: Layout, words: seq<Word>) returns (length: array2<int>)
    ensures fresh(length) && length.Length0 == length.Length1 == |words|
    ensures forall i, j :: 0 <= i <= j < |words| ==> length[i, j] == LineLength(lay, words[i..j + 1])
  {
    var n := |words|;
    length := new int[n, n]((_, _) => 0);
    for i := 0 to n
      invariant forall a, b :: 0 <= a < i && a <= b < n ==> length[a, b] == LineLength(lay, words[a..b + 1])
    {
      length[i, i] := |words[i]|;
      for j := i + 1 to n
        invariant forall a, b :: 0 <= a < i && a <= b < n ==> length[a, b] == LineLength(lay, words[a..b + 1])
        invariant forall b :: i <= b < j ==> length[i, b] == LineLength(lay, words[i..b + 1])
      {
        assert words[i..j + 1][..j - i] == words[i..j];
        length[i, j] := length[i, j - 1] + lay.spc + |words[j]|;
      }
    }
  }

  function Capped(cost: int): int {
    if cost < MAX_INT32 then cost else MAX_INT32
  }

  /**
  What the tables say about suffix i. A suffix whose least cost reaches MaxInt32 keeps the
  initial values: it has no break.
  */
  ghost predicate RightEntry(lay: Layout, words: seq<Word>, i: nat, cost: int, nbrk: int)
    requires i < |words|
  {
    && cost == Capped(Best(lay, words, i))
    && (Best(lay, words, i) < MAX_INT32 ==>
          && i < nbrk <= |words|
          && (nbrk == |words| <==> CanBeLast(lay, words[i..]))
          && (nbrk < |words| ==> Best(lay, words, i) == LineCost(lay, words[i..nbrk]) + Best(lay, words, nbrk)))
    && (Best(lay, words, i) >= MAX_INT32 ==> nbrk == 0)
  }

  /** The best first line that ends before j, while the inner loop runs. */
  ghost predicate RightSoFar(lay: Layout, words: seq<Word>, i: nat, j: nat, cost: int, nbrk: int)
    requires i < j <= |words|
  {
    && cost <= MAX_INT32
    && (forall k :: i < k < j ==> cost <= LineCost(lay, words[i..k]) + Best(lay, words, k))
    && (cost == MAX_INT32 ==> nbrk == 0)
    && (cost < MAX_INT32 ==> i < nbrk < j && cost == LineCost(lay, words[i..nbrk]) + Best(lay, words, nbrk))
  }

  lemma InnerLoopDone(lay: Layout, words: seq<Word>, i: nat, cost: int, nbrk: int)
    requires i + 1 < |words| && !CanBeLast(lay, words[i..]) && RightSoFar(lay, words, i, |words|, cost, nbrk)
    ensures RightEntry(lay, words, i, cost, nbrk)
  {
    BestFromAttained(lay, words, i, i + 1, cost);
    if cost < MAX_INT32 {
      BestFromBound(lay, words, i, i + 1, nbrk);
    }
  }

  lemma {:induction false} BestFromAttained(lay: Layout, words: seq<Word>, i: nat, j: nat, cost: int)
    requires i < j < |words|
    requires forall k :: j <= k < |words| ==> cost <= LineCost(lay, words[i..k]) + Best(lay, words, k)
    ensures cost <= BestFrom(lay, words, i, j)
    decreases |words| - j
  {
    if j + 1 < |words| { BestFromAttained(lay, words, i, j + 1, cost); }
  }

  lemma InnerLoopStep(lay: Layout, words: seq<Word>, i: nat, j: nat, cost: int, nbrk: int, costJ: int, breakJ: int, c: int)
    requires lay.pen >= 0 && i < j < |words| && RightSoFar(lay, words, i, j, cost, nbrk)
    requires RightEntry(lay, words, j, costJ, breakJ) && c == LineCost(lay, words[i..j]) + costJ
    ensures RightSoFar(lay, words, i, j + 1, if c < cost then c else cost, if c < cost then j else nbrk)
  {
    CostNotNegative(lay, words[i..j]);
  }

  lemma LastLineDone(lay: Layout, words: seq<Word>, i: nat)
    requires i < |words| && CanBeLast(lay, words[i..])
    ensures RightEntry(lay, words, i, 0, |words|)
  {
  }

  lemma InnerLoopStart(lay: Layout, words: seq<Word>, i: nat)
    requires i + 1 <= |words|
    ensures RightSoFar(lay, words, i, i + 1, MAX_INT32, 0)
  {
  }

  method ComputeBreaks(lay: Layout, words: seq<Word>) returns (cost: array<int>, nbrk: array<int>)
    requires lay.pen >= 0
    ensures cost.Length == nbrk.Length == |words|
    ensures forall i :: 0 <= i < |words| ==> RightEntry(lay, words, i, cost[i], nbrk[i])
  {
    hide RightEntry, RightSoFar, LineLength;
    var n := |words|;
    var length := ComputeLengths(lay, words);
    nbrk := new int[n](_ => 0);
    cost := new int[n](_ => MAX_INT32);
    for i := n downto 0
      invariant forall k :: i <= k < n ==> RightEntry(lay, words, k, cost[k], nbrk[k])
      invariant forall k :: 0 <= k < i ==> cost[k] == MAX_INT32 && nbrk[k] == 0
      modifies cost, nbrk
    {
      assert words[i..n] == words[i..];
      if length[i, n - 1] <= lay.lim || i == n - 1 {
        cost[i] := 0;
        nbrk[i] := n;
        LastLineDone(lay, words, i);
      } else {
        InnerLoopStart(lay, words, i);
        for j := i + 1 to n
          invariant RightSoFar(lay, words, i, j, cost[i], nbrk[i])
          invariant forall k :: i < k < n ==> RightEntry(lay, words, k, cost[k], nbrk[k])
          invariant forall k :: 0 <= k < i ==> cost[k] == MAX_INT32 && nbrk[k] == 0
          modifies cost, nbrk
        {
          var d := lay.lim - length[i, j - 1];
          var c := d * d + cost[j];
          if length[i, j - 1] > lay.lim {
            c := c + lay.pen;
          }
          InnerLoopStep(lay, words, i, j, cost[i], nbrk[i], cost[j], nbrk[j], c);
          if c < cost[i] {
            cost[i] := c;
            nbrk[i] := j;
          }
        }
        InnerLoopDone(lay, words, i, cost[i], nbrk[i]);
      }
    }
  }

  // ----- Reconstruction -----

  /** The position after following `steps` breaks from i. */
  function Follow(nbrk: seq<int>, i: nat, steps: nat): int
    decreases steps
  {
    if steps == 0 || i >= |nbrk| then i
    else if nbrk[i] < 0 then nbrk[i]
    else Follow(nbrk, nbrk[i], steps - 1)
  }

  /**
  Following the breaks from the first word reaches the end if and only if some layout costs less than
  MaxInt32. Otherwise the first break is at the first word itself, and the loop never moves on.
  */
  lemma BreaksReachTheEnd(lay: Layout, words: seq<Word>, cost: seq<int>, nbrk: seq<int>)
    requires lay.pen >= 0 && |cost| == |nbrk| == |words| > 0
    requires forall i :: 0 <= i < |words| ==> RightEntry(lay, words, i, cost[i], nbrk[i])
    ensures (exists steps: nat :: Follow(nbrk, 0, steps) >= |words|) <==> Affordable(lay, words)
  {
    AffordableIsBest(lay, words);
    hide Affordable;
    if Best(lay, words, 0) < MAX_INT32 {
      FollowToEnd(lay, words, cost, nbrk, 0);
      assert exists steps: nat :: Follow(nbrk, 0, steps) >= |words|;
    } else {
      forall steps: nat ensures Follow(nbrk, 0, steps) == 0 {
        Stuck(nbrk, steps);
      }
    }
  }

  /** A word far over the limit, with another word after it, cannot be laid out below the cap. */
  lemma LongWordIsNotAffordable(lay: Layout, a: Word, b: Word)
    requires lay.pen >= 0 && lay.spc >= 0 && lay.lim >= 0 && |a| >= lay.lim + 46341
    ensures !Affordable(lay, [a, b])
  {
    var words := [a, b];
    AffordableIsBest(lay, words);
    assert words[0..] == words && words[..1] == [a] && words[0..1] == [a];
    assert LineLength(lay, words) == LineLength(lay, [a]) + lay.spc + |b|;
    var d := lay.lim - |a|;
    assert d * d >= 46341 * 46341;
    assert LineCost(lay, [a]) >= 46341 * 46341;
    BestNotNegative(lay, words, 1);
  }

  /** Breaking such a text at 80 units, with the default penalty, never ends. */
  lemma LongWordNeverEnds(cost: seq<int>, nbrk: seq<int>)
    requires var words := [seq(46421, _ => 'x'), "y"];
             |cost| == |nbrk| == 2 && forall i :: 0 <= i < 2 ==> RightEntry(Layout(1, 80, 100000), words, i, cost[i], nbrk[i])
    ensures forall steps: nat :: Follow(nbrk, 0, steps) < 2
  {
    var a: Word := seq(46421, _ => 'x');
    LongWordIsNotAffordable(Layout(1, 80, 100000), a, "y");
    BreaksReachTheEnd(Layout(1, 80, 100000), [a, "y"], cost, nbrk);
    hide Affordable;
  }

  lemma {:induction false} Stuck(nbrk: seq<int>, steps: nat)
    requires |nbrk| > 0 && nbrk[0] == 0
    ensures Follow(nbrk, 0, steps) == 0
  {
    if steps > 0 { Stuck(nbrk, steps - 1); }
  }

  lemma {:induction false} FollowToEnd(lay: Layout, words: seq<Word>, cost: seq<int>, nbrk: seq<int>, i: nat)
    requires lay.pen >= 0 && |cost| == |nbrk| == |words| && i <= |words|
    requires forall k :: 0 <= k < |words| ==> RightEntry(lay, words, k, cost[k], nbrk[k])
    requires i < |words| ==> Best(lay, words, i) < MAX_INT32
    ensures exists steps: nat :: Follow(nbrk, i, steps) >= |words|
    decreases |words| - i
  {
    if i == |words| {
      assert Follow(nbrk, i, 0) >= |words|;
    } else {
      if nbrk[i] < |words| { NextBreakFits(lay, words, i, nbrk[i]); }
      FollowToEnd(lay, words, cost, nbrk, nbrk[i]);
      var steps: nat :| Follow(nbrk, nbrk[i], steps) >= |words|;
      assert Follow(nbrk, i, steps + 1) >= |words|;
    }
  }

  lemma NextBreakFits(lay: Layout, words: seq<Word>, i: nat, j: nat)
    requires lay.pen >= 0 && i < j < |words| && Best(lay, words, i) < MAX_INT32
    requires Best(lay, words, i) == LineCost(lay, words[i..j]) + Best(lay, words, j)
    ensures Best(lay, words, j) < MAX_INT32
  {
    CostNotNegative(lay, words[i..j]);
  }

  /** Lines for the first i words, that any layout of the rest completes to one of all words. */
  ghost predicate GoodStart(lay: Layout, words: seq<Word>, i: nat, lines: seq<seq<Word>>)
    requires i <= |words|
  {
    && Concat(lines) == words[..i] && (forall k :: 0 <= k < |lines| ==> lines[k] != [])
    && if i == |words| then IsLayout(lay, words, lines) && (|words| > 0 ==> LinesCost(lay, lines) == Best(lay, words, 0))
       else Best(lay, words, i) < MAX_INT32 && SumCost(lay, lines) + Best(lay, words, i) == Best(lay, words, 0)
  }

  function SumCost(lay: Layout, lines: seq<seq<Word>>): int {
    if lines == [] then 0 else SumCost(lay, lines[..|lines| - 1]) + LineCost(lay, lines[|lines| - 1])
  }

  lemma {:induction false} ConcatAppend(lines: seq<seq<Word>>, line: seq<Word>)
    ensures Concat(lines + [line]) == Concat(lines) + line
  {
    if lines == [] {
      assert Concat([line]) == line + Concat([]);
    } else {
      assert (lines + [line])[1..] == lines[1..] + [line];
      ConcatAppend(lines[1..], line);
    }
  }

  /** All lines but the last count. */
  lemma {:induction false} LinesCostIsSum(lay: Layout, lines: seq<seq<Word>>, last: seq<Word>)
    ensures LinesCost(lay, lines + [last]) == SumCost(lay, lines)
    decreases |lines|
  {
    if lines != [] {
      assert (lines + [last])[1..] == lines[1..] + [last];
      LinesCostIsSum(lay, lines[1..], last);
      SumCostFront(lay, lines);
    }
  }

  lemma {:induction false} SumCostFront(lay: Layout, lines: seq<seq<Word>>)
    requires lines != []
    ensures SumCost(lay, lines) == LineCost(lay, lines[0]) + SumCost(lay, lines[1..])
  {
    if |lines| > 1 {
      var init := lines[..|lines| - 1];
      SumCostFront(lay, init);
      assert init[1..] == lines[1..][..|lines| - 2];
    } else {
      assert lines[..0] == [] && lines[1..] == [];
    }
  }

  lemma NextLine(lay: Layout, words: seq<Word>, i: nat, lines: seq<seq<Word>>, cost: int, j: nat)
    requires lay.pen >= 0 && i < |words| && GoodStart(lay, words, i, lines) && RightEntry(lay, words, i, cost, j)
    ensures i < j <= |words| && GoodStart(lay, words, j, lines + [words[i..j]])
  {
    var more := lines + [words[i..j]];
    ConcatAppend(lines, words[i..j]);
    assert words[..i] + words[i..j] == words[..j];
    assert more[..|lines|] == lines;
    if j == |words| {
      assert words[..j] == words && words[i..j] == words[i..];
      LinesCostIsSum(lay, lines, words[i..]);
    } else {
      NextBreakFits(lay, words, i, j);
    }
  }

  /**
  WrapWords. The lines hold the words in order, no line is empty, and no other layout costs less.
  Some layout has to cost less than MaxInt32: BreaksReachTheEnd shows that otherwise the
  reconstruction does not end.
  */
  method WrapWords(lay: Layout, words: seq<Word>) returns (lines: seq<seq<Word>>)
    requires lay.pen >= 0
    requires |words| > 0 ==> Affordable(lay, words)
    ensures IsLayout(lay, words, lines)
    ensures forall other :: IsLayout(lay, words, other) ==> LinesCost(lay, lines) <= LinesCost(lay, other)
  {
    if |words| > 0 { AffordableIsBest(lay, words); }
    hide Affordable;
    var cost, nbrk := ComputeBreaks(lay, words);
    lines := [];
    var i := 0;
    while i < |words|
      invariant 0 <= i <= |words| && GoodStart(lay, words, i, lines)
      modifies {}
      decreases |words| - i
    {
      NextLine(lay, words, i, lines, cost[i], nbrk[i]);
      lines := lines + [words[i..nbrk[i]]];
      i := nbrk[i];
    }
    forall other | IsLayout(lay, words, other) ensures LinesCost(lay, lines) <= LinesCost(lay, other) {
      NoneIsCheaper(lay, words, lines, other);
    }
  }

  lemma NoneIsCheaper(lay: Layout, words: seq<Word>, lines: seq<seq<Word>>, other: seq<seq<Word>>)
    requires lay.pen >= 0 && IsLayout(lay, words, lines) && IsLayout(lay, words, other)
    requires |words| > 0 ==> LinesCost(lay, lines) == Best(lay, words, 0)
    ensures LinesCost(lay, lines) <= LinesCost(lay, other)
  {
    if |words| > 0 {
      assert words[0..] == words;
      BestIsLowerBound(lay, words, 0, other);
    } else {
      NoWordsNoLines(lines);
      NoWordsNoLines(other);
    }
  }

  lemma NoWordsNoLines(lines: seq<seq<Word>>)
    requires Concat(lines) == [] && forall k :: 0 <= k < |lines| ==> lines[k] != []
    ensures lines == []
  {
  }
}
