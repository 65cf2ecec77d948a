/** The gap buffer: the document text held as two character lists, `left` before
    the gap and `right` after it. */
module GapBuffers {
  import opened Errors

  /** The text after inserting `s` at offset `k` of `t`. */
  function InsertedAt(t: string, k: nat, s: string): string
    requires k <= |t|
  {
    t[..k] + s + t[k..]
  }

  /** The text after deleting the inclusive range `[start, end]` of `t`. */
  function DeletedRange(t: string, start: nat, end: nat): string
    requires start <= end < |t|
  {
    t[..start] + t[end + 1..]
  }

  /** Inserting each character of `s` in turn at offset 0 of `t`. */
  function InsertEachAtFront(t: string, s: string): string
    decreases s
  {
    if s == [] then t else InsertEachAtFront(InsertedAt(t, 0, [s[0]]), s[1..])
  }

  /** Inserting each character of `s` in turn at the end of `t`. */
  function InsertEachAtEnd(t: string, s: string): string
    decreases s
  {
    if s == [] then t else InsertEachAtEnd(InsertedAt(t, |t|, [s[0]]), s[1..])
  }

  function Reversed(s: string): (r: string)
    ensures |r| == |s|
    ensures forall i :: 0 <= i < |s| ==> r[i] == s[|s| - 1 - i]
  {
    if s == [] then [] else Reversed(s[1..]) + [s[0]]
  }

  /** Repeated inserts at offset 0 reverse the inserted characters. */
  lemma {:induction false} InsertEachAtFrontReverses(t: string, s: string)
    ensures InsertEachAtFront(t, s) == Reversed(s) + t
    decreases s
  {
    if s != [] {
      InsertEachAtFrontReverses([s[0]] + t, s[1..]);
      assert InsertedAt(t, 0, [s[0]]) == [s[0]] + t;
      assert Reversed(s[1..]) + [s[0]] + t == Reversed(s[1..]) + ([s[0]] + t);
    }
  }

  /** Repeated inserts at the end append the inserted characters in order. */
  lemma {:induction false} InsertEachAtEndAppends(t: string, s: string)
    ensures InsertEachAtEnd(t, s) == t + s
    decreases s
  {
    if s != [] {
      InsertEachAtEndAppends(t + [s[0]], s[1..]);
      assert InsertedAt(t, |t|, [s[0]]) == t + [s[0]];
      assert t + [s[0]] + s[1..] == t + s;
    }
  }

  /** Deleting exactly the range an insert filled gives back the original text. */
  lemma InsertThenDeleteRestores(t: string, k: nat, s: string)
    requires k <= |t| && s != []
    ensures k + |s| - 1 < |InsertedAt(t, k, s)|
    ensures DeletedRange(InsertedAt(t, k, s), k, k + |s| - 1) == t
  {
    var u := InsertedAt(t, k, s);
    assert u[..k] == t[..k];
    assert u[k + |s|..] == t[k..];
  }

  /** Deleting a range and inserting the removed text back at its start restores
      the text. */
  lemma DeleteThenInsertRestores(t: string, start: nat, end: nat)
    requires start <= end < |t|
    ensures InsertedAt(DeletedRange(t, start, end), start, t[start..end + 1]) == t
  {
    var d := DeletedRange(t, start, end);
    assert d[..start] == t[..start];
    assert d[start..] == t[end + 1..];
  }

  class GapBuffer {
    var left: seq<char>
    var right: seq<char>

    /** The document text: what lies before the gap, then what lies after it. */
    function Text(): string
      reads this
    {
      left + right
    }

    constructor ()
      ensures left == [] && right == []
    {
      left, right := [], [];
    }

    /** Moves the gap to `offset`. An offset outside `[0, length]` throws before anything
        changes; otherwise the text is unchanged and exactly `offset` characters lie
        before the gap. */
    method MoveGap(offset: int) returns (r: Outcome)
      modifies this
      ensures r == if 0 <= offset <= |old(Text())| then Pass else Fail(ArgumentOutOfRange)
      ensures Text() == old(Text())
      ensures r.Pass? ==> |left| == offset
      ensures r.Fail? ==> left == old(left) && right == old(right)
    {
      if offset == |left| {
        return Pass;
      }
      if offset < 0 || offset > |left| + |right| {
        return Fail(ArgumentOutOfRange);
      }
      var continuous := left + right;
      // Splitting by "index < offset" yields one group only at the two ends.
      if offset == 0 {
        right := continuous;
        left := [];
      } else if offset == |continuous| {
        left := continuous;
        right := [];
      } else {
        left := continuous[..offset];
        right := continuous[offset..];
      }
      assert left + right == continuous;
      return Pass;
    }

    /** Inserts one character at `offset`. */
    method Insert(content: char, offset: int) returns (r: Outcome)
      modifies this
      ensures r == if 0 <= offset <= |old(Text())| then Pass else Fail(ArgumentOutOfRange)
      ensures r.Pass? ==> Text() == InsertedAt(old(Text()), offset, [content])
      ensures r.Pass? ==> |Text()| == |old(Text())| + 1
      ensures r.Fail? ==> left == old(left) && right == old(right)
    {
      r := MoveGap(offset);
      if r.Pass? {
        ghost var t := left + right;
        assert t[..offset] == left && t[offset..] == right;
        left := left + [content];
      }
    }

    /** Inserts a string at `offset`. */
    method InsertText(content: string, offset: int) returns (r: Outcome)
      modifies this
      ensures r == if 0 <= offset <= |old(Text())| then Pass else Fail(ArgumentOutOfRange)
      ensures r.Pass? ==> Text() == InsertedAt(old(Text()), offset, content)
      ensures r.Pass? ==> |Text()| == |old(Text())| + |content|
      ensures r.Fail? ==> left == old(left) && right == old(right)
    {
      r := MoveGap(offset);
      if r.Pass? {
        ghost var t := left + right;
        assert t[..offset] == left && t[offset..] == right;
        left := left + content;
      }
    }

    /** Deletes the inclusive range `[startingOffset, endingOffset]`. A range with a
        negative start, a start after the end or an end past the last character throws
        before anything changes. */
    method Delete(startingOffset: int, endingOffset: int) returns (r: Outcome)
      modifies this
      ensures r == if 0 <= startingOffset <= endingOffset < |old(Text())| then Pass else Fail(ArgumentOutOfRange)
      ensures r.Pass? ==> Text() == DeletedRange(old(Text()), startingOffset, endingOffset)
      ensures r.Pass? ==> |Text()| == |old(Text())| - (endingOffset - startingOffset + 1)
      ensures r.Fail? ==> left == old(left) && right == old(right)
    {
      if startingOffset < 0 || startingOffset > endingOffset {
        return Fail(ArgumentOutOfRange);
      }
      if endingOffset > |left| + |right| - 1 {
        return Fail(ArgumentOutOfRange);
      }
      ghost var t := left + right;
      var count := endingOffset - startingOffset + 1;
      if endingOffset < |left| {
        // The range lies before the gap.
        assert t[..startingOffset] == left[..startingOffset];
        assert t[endingOffset + 1..] == left[startingOffset + count..] + right;
        left := left[..startingOffset] + left[startingOffset + count..];
      } else if startingOffset >= |left| {
        // The range lies after the gap.
        var start := startingOffset - |left|;
        assert t[..startingOffset] == left + right[..start];
        assert t[endingOffset + 1..] == right[start + count..];
        right := right[..start] + right[start + count..];
      } else {
        // The range spans the gap: move the gap to the end first.
        var moved := MoveGap(|left| + |right|);
        assert left == t;
        left := left[..startingOffset] + left[startingOffset + count..];
      }
      return Pass;
    }

    /** The inclusive range `[startingOffset, endingOffset]` of the text. An empty
        buffer gives null whatever the range. Otherwise `List.GetRange` throws
        ArgumentOutOfRange for a negative start or a negative count, and Argument for
        a range that runs past the end. */
    method GetText(startingOffset: int, endingOffset: int) returns (r: Result<Option<string>>)
      ensures |Text()| == 0 ==> r == Ok(None)
      ensures |Text()| > 0 && (startingOffset < 0 || endingOffset < startingOffset - 1) ==> r == Err(ArgumentOutOfRange)
      ensures |Text()| > 0 && 0 <= startingOffset && startingOffset - 1 <= endingOffset && endingOffset >= |Text()| ==> r == Err(Argument)
      ensures |Text()| > 0 && 0 <= startingOffset && startingOffset - 1 <= endingOffset < |Text()| ==>
                r == Ok(Some(Text()[startingOffset..endingOffset + 1]))
    {
      if |left| + |right| == 0 {
        return Ok(None);
      }
      var continuous := left + right;
      var count := endingOffset - startingOffset + 1;
      if startingOffset < 0 || count < 0 {
        return Err(ArgumentOutOfRange);
      }
      if startingOffset + count > |continuous| {
        return Err(Argument);
      }
      return Ok(Some(continuous[startingOffset..startingOffset + count]));
    }

    /** The number of characters held. */
    method GetLength() returns (n: int)
      ensures n == |Text()|
    {
      return |left| + |right|;
    }
  }
}
