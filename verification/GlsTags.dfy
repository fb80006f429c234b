/**
Goroutine-local storage, lower half: a tag is written on the call stack as a run of frames, one
per hexadecimal digit, and read back from the frames; tags come from a pool of released ids.
*/
module GlsTags {

  const UINT_LIMIT: nat := 0x1_0000_0000_0000_0000

  /** A frame on the stack, as far as reading tags can tell frames apart. */
  datatype Frame = MarkS | Mark(digit: nat) | Other

  /** Innermost frame first. */
  type Stack = seq<Frame>

  // ----- Writing a tag on the stack -----

  /** The stack at which the callback of `_m` starts. */
  function MarkDigits(remainder: nat, stack: Stack): Stack {
    if remainder == 0 then [Other] + stack
    else MarkDigits(remainder / 16, [Mark(remainder % 16)] + ([Other] + stack))
  }

  /** The stack at which the callback of addStackTag starts. */
  function AddStackTag(tag: nat, stack: Stack): Stack {
    MarkDigits(tag, [MarkS] + ([Other] + stack))
  }

  // ----- Reading the tags back -----

  /** The tags read from a stack, when `current` is what the digits so far come to. */
  function Tags(stack: Stack, current: nat): (tags: seq<nat>) {
    if stack == [] then []
    else match stack[0]
      case Other => Tags(stack[1..], current)
      case MarkS => [current] + Tags(stack[1..], 0)
      case Mark(digit) => Tags(stack[1..], (current * 16 % UINT_LIMIT + digit) % UINT_LIMIT)
  }

  method ReadStackTags(stack: Stack) returns (tags: seq<nat>)
    ensures tags == Tags(stack, 0)
  {
    tags := [];
    var current: nat := 0;
    for i := 0 to |stack|
      invariant Tags(stack, 0) == tags + Tags(stack[i..], current)
    {
      assert stack[i..][0] == stack[i] && stack[i..][1..] == stack[i + 1..];
      match stack[i]
      case Other =>
      case MarkS =>
        assert tags + ([current] + Tags(stack[i + 1..], 0)) == (tags + [current]) + Tags(stack[i + 1..], 0);
        tags := tags + [current];
        current := 0;
      case Mark(digit) =>
        current := current * 16 % UINT_LIMIT;
        current := (current + digit) % UINT_LIMIT;
    }
    assert stack[|stack|..] == [];
  }

  lemma {:induction false} DigitsReadBack(remainder: nat, stack: Stack)
    requires remainder < UINT_LIMIT
    ensures Tags(MarkDigits(remainder, stack), 0) == Tags(stack, remainder)
  {
    if remainder == 0 {
      assert ([Other] + stack)[1..] == stack;
    } else {
      var rest := [Other] + stack;
      DigitsReadBack(remainder / 16, [Mark(remainder % 16)] + rest);
      assert ([Mark(remainder % 16)] + rest)[1..] == rest && rest[1..] == stack;
      assert remainder / 16 * 16 % UINT_LIMIT == remainder / 16 * 16;
    }
  }

  /** Round trip: reading a stack on which a tag was put finds this tag first, then what was there before. */
  lemma TagReadsBack(tag: nat, stack: Stack)
    requires tag < UINT_LIMIT
    ensures Tags(AddStackTag(tag, stack), 0) == [tag] + Tags(stack, 0)
  {
    var rest := [Other] + stack;
    DigitsReadBack(tag, [MarkS] + rest);
    assert ([MarkS] + rest)[1..] == rest && rest[1..] == stack;
  }

  lemma OtherFramesAreSkipped(stack: Stack)
    ensures Tags([Other] + stack, 0) == Tags(stack, 0)
  {
    assert ([Other] + stack)[1..] == stack;
  }

  // ----- The pool -----

  function Below(n: nat): (s: set<nat>)
    ensures forall i :: i in s <==> 0 <= i < n
  {
    if n == 0 then {} else Below(n - 1) + {n - 1}
  }

  class IdPool {
    var released: seq<nat>
    var maxId: nat

    /** A released id was given out before and is listed once. */
    ghost predicate Valid()
      reads this
    {
      && maxId < UINT_LIMIT
      && (forall i :: 0 <= i < |released| ==> released[i] < maxId)
      && (forall i, j :: 0 <= i < j < |released| ==> released[i] != released[j])
    }

    /** The ids given out and not released. */
    ghost function Taken(): set<nat>
      reads this
    {
      set i | i in Below(maxId) && i !in released
    }

    /** An id can be reused, or the counter does not wrap. */
    predicate CanAcquire()
      reads this
    {
      released != [] || maxId + 1 < UINT_LIMIT
    }

    constructor ()
      ensures Valid() && Taken() == {}
    {
      released, maxId := [], 0;
    }

    method Acquire() returns (id: nat)
      requires Valid() && CanAcquire()
      modifies this
      ensures Valid() && id < UINT_LIMIT
      ensures id !in old(Taken()) && Taken() == old(Taken()) + {id}
    {
      if |released| > 0 {
        id := released[|released| - 1];
        released := released[..|released| - 1];
        assert old(released) == released + [id];
        return id;
      }
      id := maxId;
      maxId := (maxId + 1) % UINT_LIMIT;
    }

    method Release(id: nat)
      requires Valid() && id in Taken()
      modifies this
      ensures Valid() && Taken() == old(Taken()) - {id}
    {
      released := released + [id];
    }
  }
}
