/** The document buffer: the gap buffer that holds the text, a cursor over it, the
    live text counter, and the file the text is loaded from and dumped to. */
module Buffers {
  import opened Errors
  import opened Enums
  import opened Streams
  import opened Encodings
  import opened Chars
  import opened TextCounters
  import opened GapBuffers
  import opened Files

  const TwoTo31: int := 0x8000_0000
  const TwoTo32: int := 0x1_0000_0000

  /** The `(int)` cast of a 64-bit size: the low 32 bits read as two's complement. */
  function Int32(n: int): (r: int)
    ensures -TwoTo31 <= r < TwoTo31
    ensures (r - n) % TwoTo32 == 0
    ensures -TwoTo31 <= n < TwoTo31 ==> r == n
  {
    var m := n % TwoTo32;
    if m >= TwoTo31 then m - TwoTo32 else m
  }

  /** A file of 2 GiB or more has a negative or wrapped `(int)` size. */
  lemma Int32Wraps()
    ensures Int32(TwoTo31) == -TwoTo31
    ensures Int32(TwoTo32 + 5) == 5
  {
  }

  // ----- cursor position -----

  /** Line and column after scanning `p`: one more than the number of breaks, and
      one more than the number of characters after the last break. */
  function LineColumn(p: string): (int, int)
  {
    (1 + LineBreaks(p), 1 + |p| - LastBreakEnd(p))
  }

  /** What `ParseCursorPosition` answers for cursor `pos` over `text`: (1, 1) at
      position 0 and on an empty buffer; otherwise the line and column reached by
      scanning the characters up to and INCLUDING index `min(pos, |text| - 1)`,
      and ArgumentOutOfRange when that index is below -1. */
  function ParsedCursor(text: string, pos: int): Result<(int, int)>
  {
    if pos == 0 || |text| == 0 then Ok((1, 1))
    else
      var last := Min(pos, |text| - 1);
      if last < -1 then Err(ArgumentOutOfRange) else Ok(LineColumn(text[..last + 1]))
  }

  /** One more scanned character moves line and column as the loop does. */
  lemma LineColumnStep(s: string, i: nat)
    requires i < |s|
    ensures LineBreaks(s[..i + 1]) == LineBreaks(s[..i]) + if IsBreakAt(s, i) then 1 else 0
    ensures LastBreakEnd(s[..i + 1]) == if IsBreakAt(s, i) then i + 1 else LastBreakEnd(s[..i])
  {
    assert s[..i + 1][..i] == s[..i];
    PrefixBreaks(s, i + 1, i);
  }

  /** The loop step of the cursor parser: a break starts a new line at column 1,
      any other character moves one column on. */
  lemma ScanOneMore(s: string, i: nat, line: int, column: int)
    requires i < |s| && (line, column) == LineColumn(s[..i])
    ensures LineColumn(s[..i + 1]) == if IsBreak(PreviousAt(s, i), s[i]) then (line + 1, 1) else (line, column + 1)
  {
    LineColumnStep(s, i);
  }

  /** Lines and columns are positive, and the column never exceeds one more than
      the number of characters scanned. */
  lemma ParsedCursorBounds(text: string, pos: int)
    requires ParsedCursor(text, pos).Ok?
    ensures ParsedCursor(text, pos).value.0 >= 1
    ensures 1 <= ParsedCursor(text, pos).value.1 <= 1 + Max(0, Min(pos + 1, |text|))
  {
  }

  /** On a line without breaks the reported column is the cursor offset plus two,
      one more than the column of the cursor itself, because the scan includes the
      character at the cursor. */
  lemma ColumnIncludesCharacterAtCursor(text: string, pos: int)
    requires 0 < pos < |text|
    requires forall i :: 0 <= i < |text| ==> text[i] != '\r' && text[i] != '\n'
    ensures ParsedCursor(text, pos) == Ok((1, pos + 2))
  {
    var p := text[..pos + 1];
    NoBreaks(p);
  }

  lemma {:induction false} NoBreaks(p: string)
    requires forall i :: 0 <= i < |p| ==> p[i] != '\r' && p[i] != '\n'
    ensures LineBreaks(p) == 0 && LastBreakEnd(p) == 0
  {
    if p != [] {
      NoBreaks(p[..|p| - 1]);
    }
  }

  // ----- word frequencies -----

  /** A dictionary entry: a word and its count, in insertion order. */
  type Entry = (string, int)

  function Keys(f: seq<Entry>): (k: seq<string>)
    ensures |k| == |f| && forall i :: 0 <= i < |f| ==> k[i] == f[i].0
  {
    if f == [] then [] else [f[0].0] + Keys(f[1..])
  }

  /** The index of the first `w` in `ks`, or `|ks|` when there is none. */
  function Position(ks: seq<string>, w: string): (k: nat)
    ensures k <= |ks|
    ensures k < |ks| <==> w in ks
    ensures k < |ks| ==> ks[k] == w
  {
    if ks == [] then 0 else if ks[0] == w then 0 else 1 + Position(ks[1..], w)
  }

  /** No earlier index holds `w`. */
  lemma {:induction false} PositionFirst(ks: seq<string>, w: string)
    ensures forall i :: 0 <= i < Position(ks, w) ==> ks[i] != w
  {
    if ks != [] && ks[0] != w {
      PositionFirst(ks[1..], w);
      assert forall i :: 1 <= i < Position(ks, w) ==> ks[i] == ks[1..][i - 1];
    }
  }

  /** The count stored for `w`, 0 when it has no entry. */
  function Lookup(f: seq<Entry>, w: string): int
  {
    if f == [] then 0 else if f[0].0 == w then f[0].1 else Lookup(f[1..], w)
  }

  predicate DistinctKeys(f: seq<Entry>)
  {
    forall i, j :: 0 <= i < j < |f| ==> f[i].0 != f[j].0
  }

  /** `if (ContainsKey(w)) d[w]++; else d.Add(w, 1);` on a dictionary that is never
      removed from, so that it enumerates in insertion order. */
  function Bump(f: seq<Entry>, w: string): seq<Entry>
  {
    if f == [] then [(w, 1)]
    else if f[0].0 == w then [(w, f[0].1 + 1)] + f[1..]
    else [f[0]] + Bump(f[1..], w)
  }

  /** The dictionary built by bumping each word of `ws` in turn. */
  function Tally(ws: seq<string>): seq<Entry>
  {
    if ws == [] then [] else Bump(Tally(ws[..|ws| - 1]), ws[|ws| - 1])
  }

  /** The scan state: the words ended so far, the word being built, the last
      character seen. */
  datatype Scan = Scan(ended: seq<string>, word: string, previous: char)

  /** A non-white character extends the word; a white character after a non-white
      one ends it (the empty word included); other white characters do nothing. */
  function ScanStep(s: Scan, c: char): Scan
  {
    if !IsWhiteSpace(c) then Scan(s.ended, s.word + [c], c)
    else if !IsWhiteSpace(s.previous) then Scan(s.ended + [s.word], [], c)
    else Scan(s.ended, s.word, c)
  }

  function ScanText(t: string): Scan
  {
    if t == [] then Scan([], [], '\0') else ScanStep(ScanText(t[..|t| - 1]), t[|t| - 1])
  }

  /** The words of `t` that some white character ends, in order. */
  function TerminatedWords(t: string): seq<string>
  {
    ScanText(t).ended
  }

  function WordFrequencies(t: string): seq<Entry>
  {
    Tally(TerminatedWords(t))
  }

  /** How often `w` is counted in `t`. */
  function Occurrences(t: string, w: string): nat
  {
    multiset(TerminatedWords(t))[w]
  }

  predicate Descending(s: seq<Entry>)
  {
    forall i, j :: 0 <= i < j < |s| ==> s[i].1 >= s[j].1
  }

  /** Places `x` after every entry whose count is at least its own. */
  function InsertDesc(s: seq<Entry>, x: Entry): seq<Entry>
  {
    if s == [] then [x]
    else if s[|s| - 1].1 >= x.1 then s + [x]
    else InsertDesc(s[..|s| - 1], x) + [s[|s| - 1]]
  }

  /** `OrderByDescending(x => x.Value)`: a stable sort by count, highest first. */
  function SortDesc(f: seq<Entry>): seq<Entry>
  {
    if f == [] then [] else InsertDesc(SortDesc(f[..|f| - 1]), f[|f| - 1])
  }

  /** `.Take(4).Select(x => x.Key)` over the sorted entries. */
  function MostFrequentWords(t: string): seq<string>
  {
    var s := SortDesc(WordFrequencies(t));
    Keys(s[..Min(4, |s|)])
  }

  lemma DistinctKeysTail(f: seq<Entry>)
    requires DistinctKeys(f) && f != []
    ensures DistinctKeys(f[1..])
    ensures forall e :: e in f[1..] ==> e.0 != f[0].0
  {
    forall i, j | 0 <= i < j < |f[1..]| ensures f[1..][i].0 != f[1..][j].0 {
      assert f[1..][i] == f[i + 1] && f[1..][j] == f[j + 1];
    }
    forall e | e in f[1..] ensures e.0 != f[0].0 {
      var k :| 0 <= k < |f[1..]| && f[1..][k] == e;
      assert f[k + 1] == e;
    }
  }

  /** Bumping changes the count of `w` only, raising it by one. */
  lemma {:induction false} BumpLookup(f: seq<Entry>, w: string)
    ensures Lookup(Bump(f, w), w) == Lookup(f, w) + 1
    ensures forall v :: v != w ==> Lookup(Bump(f, w), v) == Lookup(f, v)
    decreases f
  {
    if f != [] {
      var r := Bump(f, w);
      if f[0].0 != w {
        BumpLookup(f[1..], w);
        assert r[1..] == Bump(f[1..], w);
      } else {
        assert r[1..] == f[1..];
      }
    }
  }

  /** Bumping adds no entry for a word other than `w`. */
  lemma {:induction false} BumpMembers(f: seq<Entry>, w: string)
    ensures forall e :: e in Bump(f, w) ==> e in f || e.0 == w
    decreases f
  {
    if f != [] {
      var r := Bump(f, w);
      if f[0].0 != w {
        BumpMembers(f[1..], w);
        assert r == [f[0]] + Bump(f[1..], w);
        forall e | e in r ensures e in f || e.0 == w {
          if e != f[0] {
            assert e in Bump(f[1..], w);
          }
        }
      } else {
        assert r == [r[0]] + f[1..];
        forall e | e in r ensures e in f || e.0 == w {
          if e != r[0] {
            assert e in f[1..];
          }
        }
      }
    }
  }

  /** Bumping keeps the keys distinct. */
  lemma {:induction false} BumpDistinct(f: seq<Entry>, w: string)
    requires DistinctKeys(f)
    ensures DistinctKeys(Bump(f, w))
    decreases f
  {
    if f != [] {
      DistinctKeysTail(f);
      var r := Bump(f, w);
      if f[0].0 != w {
        BumpDistinct(f[1..], w);
        BumpMembers(f[1..], w);
        var b := Bump(f[1..], w);
        assert r == [f[0]] + b;
        forall j | 0 <= j < |b| ensures b[j].0 != f[0].0 {
          assert b[j] in b;
        }
        forall i, j | 0 <= i < j < |r| ensures r[i].0 != r[j].0 {
          if i == 0 {
            assert r[j] == b[j - 1];
          } else {
            assert r[i] == b[i - 1] && r[j] == b[j - 1];
          }
        }
      } else {
        assert r[1..] == f[1..];
        forall i, j | 0 <= i < j < |r| ensures r[i].0 != r[j].0 {
          assert r[j] == f[j];
          if i > 0 {
            assert r[i] == f[i];
          }
        }
      }
    }
  }

  /** One dictionary update: `w`'s count rises by one, every other count stays, the
      keys stay distinct and no other word gets an entry. */
  lemma BumpSpec(f: seq<Entry>, w: string)
    requires DistinctKeys(f)
    ensures DistinctKeys(Bump(f, w))
    ensures Lookup(Bump(f, w), w) == Lookup(f, w) + 1
    ensures forall v :: v != w ==> Lookup(Bump(f, w), v) == Lookup(f, v)
    ensures forall e :: e in Bump(f, w) ==> e in f || e.0 == w
  {
    BumpLookup(f, w);
    BumpMembers(f, w);
    BumpDistinct(f, w);
  }

  /** The tally has one entry per distinct word, holding that word's number of
      occurrences, and only words of the list have entries. */
  lemma {:induction false} TallyCounts(ws: seq<string>)
    ensures DistinctKeys(Tally(ws))
    ensures forall w :: Lookup(Tally(ws), w) == multiset(ws)[w]
    ensures forall e :: e in Tally(ws) ==> e.0 in ws
  {
    if ws != [] {
      var init := ws[..|ws| - 1];
      var w := ws[|ws| - 1];
      assert ws == init + [w];
      TallyCounts(init);
      BumpSpec(Tally(init), w);
      forall e | e in Tally(ws) ensures e.0 in ws {
        if e.0 != w {
          assert e in Tally(init);
          assert e.0 in init;
        }
      }
    }
  }

  /** Bumping keeps every entry's word in its place, and appends `w` when it has no
      entry yet. */
  lemma {:induction false} BumpKeys(f: seq<Entry>, w: string)
    ensures Keys(Bump(f, w)) == if w in Keys(f) then Keys(f) else Keys(f) + [w]
    decreases f
  {
    if f != [] {
      var r := Bump(f, w);
      assert Keys(f) == [f[0].0] + Keys(f[1..]);
      assert Keys(r) == [r[0].0] + Keys(r[1..]);
      if f[0].0 != w {
        BumpKeys(f[1..], w);
        assert r[1..] == Bump(f[1..], w);
      } else {
        assert r[1..] == f[1..];
      }
    }
  }

  /** A word of `a` is first found at the same index in any extension of `a`. */
  lemma PositionPrefix(a: seq<string>, b: seq<string>, v: string)
    requires v in a
    ensures Position(a + b, v) == Position(a, v)
  {
    PositionFirst(a, v);
    PositionFirst(a + b, v);
    var k, k' := Position(a, v), Position(a + b, v);
    assert (a + b)[k] == a[k];
    if k' < k {
      assert (a + b)[k'] == a[k'];
    }
  }

  /** A word new to `a` is first found at the end of `a + [w]`. */
  lemma PositionAppendNew(a: seq<string>, w: string)
    requires w !in a
    ensures Position(a + [w], w) == |a|
  {
    assert (a + [w])[|a|] == w;
  }

  /** Every word of the tally of `init` keeps its first index once `w` is counted
      too. */
  lemma TallyPositionsKept(init: seq<string>, w: string)
    ensures forall p :: 0 <= p < |Tally(init)| ==>
              Position(init + [w], Tally(init)[p].0) == Position(init, Tally(init)[p].0) < |init|
  {
    var f := Tally(init);
    TallyCounts(init);
    forall p | 0 <= p < |f| ensures Position(init + [w], f[p].0) == Position(init, f[p].0) < |init| {
      assert f[p] in f;
      PositionPrefix(init, [w], f[p].0);
    }
  }

  /** Every counted word has an entry. */
  lemma TallyHasKeys(ws: seq<string>, w: string)
    requires w in ws
    ensures w in Keys(Tally(ws))
  {
    var f := Tally(ws);
    TallyCounts(ws);
    assert w in multiset(ws);
    LookupWitness(f, w);
    var e :| e in f && e.0 == w;
    var j :| 0 <= j < |f| && f[j] == e;
    assert Keys(f)[j] == w;
  }

  /** Counting `w` after `init` keeps the entries in order of first occurrence. */
  lemma BumpRanked(f: seq<Entry>, init: seq<string>, w: string)
    requires RankIncreasing(f, init)
    requires forall p :: 0 <= p < |f| ==> Position(init + [w], f[p].0) == Position(init, f[p].0) < |init|
    requires w in init ==> w in Keys(f)
    requires w !in init ==> Position(init + [w], w) == |init|
    ensures RankIncreasing(Bump(f, w), init + [w])
  {
    var t := Bump(f, w);
    BumpKeys(f, w);
    assert forall p :: 0 <= p < |t| ==> t[p].0 == Keys(t)[p];
    assert forall p :: 0 <= p < |f| ==> f[p].0 == Keys(f)[p];
    assert forall p :: 0 <= p < |f| ==> t[p].0 == f[p].0;
  }

  /** The dictionary enumerates words in the order each was first counted. */
  lemma {:induction false} TallyOrder(ws: seq<string>)
    ensures RankIncreasing(Tally(ws), ws)
  {
    if ws != [] {
      var init, w := ws[..|ws| - 1], ws[|ws| - 1];
      assert ws == init + [w];
      TallyOrder(init);
      TallyPositionsKept(init, w);
      if w in init {
        TallyHasKeys(init, w);
      } else {
        PositionAppendNew(init, w);
      }
      BumpRanked(Tally(init), init, w);
    }
  }

  /** With distinct keys, the count found for an entry's key is that entry's count. */
  lemma {:induction false} LookupMember(f: seq<Entry>, e: Entry)
    requires DistinctKeys(f) && e in f
    ensures Lookup(f, e.0) == e.1
    decreases f
  {
    if f[0] != e {
      assert e in f[1..];
      DistinctKeysTail(f);
      LookupMember(f[1..], e);
    }
  }

  /** A word with a nonzero count has an entry. */
  lemma {:induction false} LookupWitness(f: seq<Entry>, w: string)
    requires Lookup(f, w) != 0
    ensures exists e :: e in f && e.0 == w
    decreases f
  {
    if f[0].0 != w {
      LookupWitness(f[1..], w);
      var e :| e in f[1..] && e.0 == w;
      assert e in f;
    }
  }

  lemma {:induction false} InsertDescPermutes(s: seq<Entry>, x: Entry)
    ensures multiset(InsertDesc(s, x)) == multiset(s) + multiset{x}
    decreases s
  {
    if s != [] && s[|s| - 1].1 < x.1 {
      var init := s[..|s| - 1];
      assert s == init + [s[|s| - 1]];
      InsertDescPermutes(init, x);
    }
  }

  lemma {:induction false} InsertDescSorted(s: seq<Entry>, x: Entry)
    requires Descending(s)
    ensures Descending(InsertDesc(s, x))
    decreases s
  {
    if s == [] {
    } else if s[|s| - 1].1 >= x.1 {
      var r := s + [x];
      forall i, j | 0 <= i < j < |r| ensures r[i].1 >= r[j].1 {
        if j == |s| {
          assert r[i] == s[i];
          assert s[i].1 >= s[|s| - 1].1;
        }
      }
    } else {
      var init := s[..|s| - 1];
      var last := s[|s| - 1];
      assert Descending(init);
      InsertDescSorted(init, x);
      InsertDescPermutes(init, x);
      var r' := InsertDesc(init, x);
      forall i | 0 <= i < |r'| ensures r'[i].1 >= last.1 {
        assert r'[i] in multiset(r');
        if r'[i] != x {
          assert r'[i] in multiset(init);
          var k :| 0 <= k < |init| && init[k] == r'[i];
          assert s[k] == init[k];
        }
      }
      var r := r' + [last];
      forall i, j | 0 <= i < j < |r| ensures r[i].1 >= r[j].1 {
        assert r[i] == r'[i];
        if j < |r'| {
          assert r[j] == r'[j];
        }
      }
    }
  }

  /** The sort yields the same entries, highest count first. */
  lemma {:induction false} SortDescSorts(f: seq<Entry>)
    ensures Descending(SortDesc(f))
    ensures multiset(SortDesc(f)) == multiset(f)
  {
    if f != [] {
      var init := f[..|f| - 1];
      assert f == init + [f[|f| - 1]];
      SortDescSorts(init);
      InsertDescSorted(SortDesc(init), f[|f| - 1]);
      InsertDescPermutes(SortDesc(init), f[|f| - 1]);
    }
  }

  /** The entries' words come in increasing order of their first index in `ks`. */
  predicate RankIncreasing(f: seq<Entry>, ks: seq<string>)
  {
    forall p, q :: 0 <= p < q < |f| ==> Position(ks, f[p].0) < Position(ks, f[q].0)
  }

  /** Entries with equal counts come in increasing order of their word's first index
      in `ks`. */
  predicate TiesRanked(s: seq<Entry>, ks: seq<string>)
  {
    forall p, q :: 0 <= p < q < |s| && s[p].1 == s[q].1 ==> Position(ks, s[p].0) < Position(ks, s[q].0)
  }

  /** An entry of the insertion's result is the inserted one or was there before. */
  lemma InsertDescMembers(s: seq<Entry>, x: Entry, e: Entry)
    requires e in InsertDesc(s, x)
    ensures e == x || e in s
  {
    InsertDescPermutes(s, x);
    assert e in multiset(InsertDesc(s, x));
  }

  /** Appending an entry ranked after every entry it ties with keeps ties in rank
      order. */
  lemma TiesRankedAppend(s: seq<Entry>, x: Entry, ks: seq<string>)
    requires TiesRanked(s, ks)
    requires forall e :: e in s && e.1 == x.1 ==> Position(ks, e.0) < Position(ks, x.0)
    ensures TiesRanked(s + [x], ks)
  {
    var r := s + [x];
    forall p, q | 0 <= p < q < |r| && r[p].1 == r[q].1 ensures Position(ks, r[p].0) < Position(ks, r[q].0) {
      assert r[p] == s[p] && s[p] in s;
      if q < |s| {
        assert r[q] == s[q];
      }
    }
  }

  /** Inserting an entry ranked after all others keeps ties in rank order. */
  lemma {:induction false} InsertDescStable(s: seq<Entry>, x: Entry, ks: seq<string>)
    requires TiesRanked(s, ks)
    requires forall e :: e in s ==> Position(ks, e.0) < Position(ks, x.0)
    ensures TiesRanked(InsertDesc(s, x), ks)
    decreases s
  {
    if s == [] {
    } else if s[|s| - 1].1 >= x.1 {
      TiesRankedAppend(s, x, ks);
    } else {
      var init := s[..|s| - 1];
      TiesRankedInit(s, ks);
      InsertDescStable(init, x, ks);
      TiedBeforeLast(s, x, ks);
      TiesRankedAppend(InsertDesc(init, x), s[|s| - 1], ks);
    }
  }

  lemma TiesRankedInit(s: seq<Entry>, ks: seq<string>)
    requires TiesRanked(s, ks) && s != []
    ensures TiesRanked(s[..|s| - 1], ks)
    ensures forall e :: e in s[..|s| - 1] ==> e in s
  {
    var init := s[..|s| - 1];
    forall p, q | 0 <= p < q < |init| ensures init[p] == s[p] && init[q] == s[q] {}
  }

  /** When an entry of higher count is inserted before the last one, every entry
      tied with the last one is ranked before it. */
  lemma TiedBeforeLast(s: seq<Entry>, x: Entry, ks: seq<string>)
    requires TiesRanked(s, ks) && s != [] && s[|s| - 1].1 < x.1
    ensures forall e :: e in InsertDesc(s[..|s| - 1], x) && e.1 == s[|s| - 1].1 ==>
              Position(ks, e.0) < Position(ks, s[|s| - 1].0)
  {
    var init := s[..|s| - 1];
    forall e | e in InsertDesc(init, x) && e.1 == s[|s| - 1].1 ensures Position(ks, e.0) < Position(ks, s[|s| - 1].0) {
      InsertDescMembers(init, x, e);
      var k :| 0 <= k < |init| && init[k] == e;
      assert s[k] == e;
    }
  }

  /** The sort is stable: entries ranked in increasing order stay so among ties. */
  lemma {:induction false} SortDescStable(f: seq<Entry>, ks: seq<string>)
    requires RankIncreasing(f, ks)
    ensures TiesRanked(SortDesc(f), ks)
  {
    if f != [] {
      var init := f[..|f| - 1];
      var last := f[|f| - 1];
      assert RankIncreasing(init, ks);
      SortDescStable(init, ks);
      SortDescSorts(init);
      forall e | e in SortDesc(init) ensures Position(ks, e.0) < Position(ks, last.0) {
        assert e in multiset(SortDesc(init));
        var k :| 0 <= k < |init| && init[k] == e;
      }
      InsertDescStable(SortDesc(init), last, ks);
    }
  }

  /** With distinct words, an entry's word is first found at that entry's index. */
  lemma PositionOfDistinct(f: seq<Entry>)
    requires DistinctKeys(f)
    ensures RankIncreasing(f, Keys(f))
  {
    forall p | 0 <= p < |f| ensures Position(Keys(f), f[p].0) == p {
      PositionFirst(Keys(f), f[p].0);
      assert Keys(f)[p] == f[p].0;
    }
  }

  /** `OrderByDescending`: the same entries, highest count first, and entries with
      equal counts in the order they had in `f`. */
  lemma SortDescSpec(f: seq<Entry>)
    ensures Descending(SortDesc(f))
    ensures multiset(SortDesc(f)) == multiset(f)
    ensures DistinctKeys(f) ==> TiesRanked(SortDesc(f), Keys(f))
  {
    SortDescSorts(f);
    if DistinctKeys(f) {
      PositionOfDistinct(f);
      SortDescStable(f, Keys(f));
    }
  }

  /** An element that occurs at two indices occurs at least twice. */
  lemma TwiceInMultiset(s: seq<Entry>, i: nat, j: nat)
    requires i < j < |s| && s[i] == s[j]
    ensures multiset(s)[s[i]] >= 2
  {
    assert s == s[..j] + [s[j]] + s[j + 1..];
    assert s[..j][i] == s[i];
    assert s[i] in multiset(s[..j]);
  }

  /** Distinct keys mean every entry occurs once. */
  lemma {:induction false} DistinctKeysOnce(f: seq<Entry>, e: Entry)
    requires DistinctKeys(f)
    ensures multiset(f)[e] <= 1
    decreases f
  {
    if f != [] {
      assert f == [f[0]] + f[1..];
      DistinctKeysTail(f);
      DistinctKeysOnce(f[1..], e);
      if f[0] == e {
        assert e !in multiset(f[1..]);
      }
    }
  }

  /** The entries in ranked order: a permutation of the tally, sorted, whose j-th
      entry holds the occurrences of its word. */
  lemma RankedEntries(t: string)
    ensures var s := SortDesc(WordFrequencies(t));
            |s| == |WordFrequencies(t)| && Descending(s) && DistinctKeys(s) &&
            (forall i :: 0 <= i < |s| ==> s[i].1 == Occurrences(t, s[i].0) && s[i].0 in TerminatedWords(t)) &&
            (forall w :: w in TerminatedWords(t) ==> exists j :: 0 <= j < |s| && s[j].0 == w)
  {
    var ws := TerminatedWords(t);
    var f := WordFrequencies(t);
    var s := SortDesc(f);
    TallyCounts(ws);
    SortDescSorts(f);
    assert |s| == |f| by {
      assert |multiset(s)| == |multiset(f)|;
    }
    forall i | 0 <= i < |s| ensures s[i].1 == Occurrences(t, s[i].0) && s[i].0 in ws {
      assert s[i] in multiset(s);
      assert s[i] in f;
      LookupMember(f, s[i]);
    }
    forall i, j | 0 <= i < j < |s| ensures s[i].0 != s[j].0 {
      if s[i].0 == s[j].0 {
        assert s[i] in multiset(s) && s[j] in multiset(s);
        LookupMember(f, s[i]);
        LookupMember(f, s[j]);
        TwiceInMultiset(s, i, j);
        DistinctKeysOnce(f, s[i]);
      }
    }
    forall w | w in ws ensures exists j :: 0 <= j < |s| && s[j].0 == w {
      assert w in multiset(ws);
      LookupWitness(f, w);
      var e :| e in f && e.0 == w;
      assert e in multiset(s);
      var j :| 0 <= j < |s| && s[j] == e;
    }
  }

  /** The returned words: their number, that each was counted, that none repeats,
      and their order by occurrences. */
  lemma RankedWords(t: string)
    ensures |MostFrequentWords(t)| == Min(4, |WordFrequencies(t)|)
    ensures forall i :: 0 <= i < |MostFrequentWords(t)| ==> MostFrequentWords(t)[i] in TerminatedWords(t)
    ensures forall i, j :: 0 <= i < j < |MostFrequentWords(t)| ==> MostFrequentWords(t)[i] != MostFrequentWords(t)[j]
    ensures forall i, j :: 0 <= i < j < |MostFrequentWords(t)| ==>
              Occurrences(t, MostFrequentWords(t)[i]) >= Occurrences(t, MostFrequentWords(t)[j])
  {
    var s := SortDesc(WordFrequencies(t));
    RankedEntries(t);
    var n := Min(4, |s|);
    var r := MostFrequentWords(t);
    assert r == Keys(s[..n]);
    assert forall i :: 0 <= i < n ==> r[i] == s[i].0;
  }

  /** No counted word that is left out occurs more often than a returned one. */
  lemma RankedWordsMaximal(t: string)
    ensures forall w, i :: w in TerminatedWords(t) && w !in MostFrequentWords(t) && 0 <= i < |MostFrequentWords(t)| ==>
              Occurrences(t, w) <= Occurrences(t, MostFrequentWords(t)[i])
  {
    var s := SortDesc(WordFrequencies(t));
    RankedEntries(t);
    var n := Min(4, |s|);
    var r := MostFrequentWords(t);
    assert r == Keys(s[..n]);
    assert forall i :: 0 <= i < n ==> r[i] == s[i].0;
    forall w, i | w in TerminatedWords(t) && w !in r && 0 <= i < n
      ensures Occurrences(t, w) <= Occurrences(t, r[i])
    {
      var j :| 0 <= j < |s| && s[j].0 == w;
    }
  }

  /** The sorted tally keeps tied entries in the order their words were first
      terminated. */
  lemma RankedTies(t: string)
    ensures TiesRanked(SortDesc(WordFrequencies(t)), TerminatedWords(t))
  {
    TallyOrder(TerminatedWords(t));
    SortDescStable(WordFrequencies(t), TerminatedWords(t));
  }

  /** Of two returned words with equal occurrences the earlier one was terminated
      first. */
  lemma RankedWordsTiesIn(t: string)
    ensures forall i, j ::
              (0 <= i < j < |MostFrequentWords(t)| &&
               Occurrences(t, MostFrequentWords(t)[i]) == Occurrences(t, MostFrequentWords(t)[j])) ==>
              Position(TerminatedWords(t), MostFrequentWords(t)[i]) < Position(TerminatedWords(t), MostFrequentWords(t)[j])
  {
    var s := SortDesc(WordFrequencies(t));
    RankedTies(t);
    RankedEntries(t);
    var n := Min(4, |s|);
    var r := MostFrequentWords(t);
    assert r == Keys(s[..n]);
    assert forall i :: 0 <= i < n ==> r[i] == s[i].0;
  }

  /** A word left out that ties with a returned one was first terminated after it. */
  lemma RankedWordsTiesOut(t: string)
    ensures forall w, i ::
              (w in TerminatedWords(t) && w !in MostFrequentWords(t) && 0 <= i < |MostFrequentWords(t)| &&
               Occurrences(t, w) == Occurrences(t, MostFrequentWords(t)[i])) ==>
              Position(TerminatedWords(t), MostFrequentWords(t)[i]) < Position(TerminatedWords(t), w)
  {
    var ws := TerminatedWords(t);
    var s := SortDesc(WordFrequencies(t));
    RankedTies(t);
    RankedEntries(t);
    var n := Min(4, |s|);
    var r := MostFrequentWords(t);
    assert r == Keys(s[..n]);
    assert forall i :: 0 <= i < n ==> r[i] == s[i].0;
    forall w, i | w in ws && w !in r && 0 <= i < n && Occurrences(t, w) == Occurrences(t, r[i])
      ensures Position(ws, r[i]) < Position(ws, w)
    {
      var j :| 0 <= j < |s| && s[j].0 == w;
      assert i < j;
    }
  }

  /** The ranked answer: at most four words, each one counted in the text, no word
      twice, in non-increasing order of occurrences, no counted word left out
      occurs more often than one that is in, and ties go to the word terminated
      first. */
  lemma MostFrequentWordsRanked(t: string)
    ensures |MostFrequentWords(t)| == Min(4, |WordFrequencies(t)|)
    ensures forall i :: 0 <= i < |MostFrequentWords(t)| ==> MostFrequentWords(t)[i] in TerminatedWords(t)
    ensures forall i, j :: 0 <= i < j < |MostFrequentWords(t)| ==> MostFrequentWords(t)[i] != MostFrequentWords(t)[j]
    ensures forall i, j :: 0 <= i < j < |MostFrequentWords(t)| ==>
              Occurrences(t, MostFrequentWords(t)[i]) >= Occurrences(t, MostFrequentWords(t)[j])
    ensures forall w, i :: w in TerminatedWords(t) && w !in MostFrequentWords(t) && 0 <= i < |MostFrequentWords(t)| ==>
              Occurrences(t, w) <= Occurrences(t, MostFrequentWords(t)[i])
    ensures forall i, j ::
              (0 <= i < j < |MostFrequentWords(t)| &&
               Occurrences(t, MostFrequentWords(t)[i]) == Occurrences(t, MostFrequentWords(t)[j])) ==>
              Position(TerminatedWords(t), MostFrequentWords(t)[i]) < Position(TerminatedWords(t), MostFrequentWords(t)[j])
    ensures forall w, i ::
              (w in TerminatedWords(t) && w !in MostFrequentWords(t) && 0 <= i < |MostFrequentWords(t)| &&
               Occurrences(t, w) == Occurrences(t, MostFrequentWords(t)[i])) ==>
              Position(TerminatedWords(t), MostFrequentWords(t)[i]) < Position(TerminatedWords(t), w)
  {
    RankedWords(t);
    RankedWordsMaximal(t);
    RankedWordsTiesIn(t);
    RankedWordsTiesOut(t);
  }

  /** A final word that no white character follows is never counted. */
  lemma {:induction false} TrailingWordNotCounted(t: string, w: string)
    requires forall i :: 0 <= i < |w| ==> !IsWhiteSpace(w[i])
    ensures TerminatedWords(t + w) == TerminatedWords(t)
  {
    if w == [] {
      assert t + w == t;
    } else {
      var w' := w[..|w| - 1];
      var tw := t + w;
      assert tw[..|tw| - 1] == t + w';
      assert tw[|tw| - 1] == w[|w| - 1];
      assert forall i :: 0 <= i < |w'| ==> w'[i] == w[i];
      TrailingWordNotCounted(t, w');
      assert !IsWhiteSpace(w[|w| - 1]);
      assert ScanText(tw) == ScanStep(ScanText(t + w'), w[|w| - 1]);
    }
  }

  /** Scanning more text only appends to the list of ended words. */
  lemma {:induction false} TerminatedPrefix(a: string, b: string)
    ensures |TerminatedWords(a)| <= |TerminatedWords(a + b)|
    ensures TerminatedWords(a + b)[..|TerminatedWords(a)|] == TerminatedWords(a)
  {
    if b == [] {
      assert a + b == a;
    } else {
      var b' := b[..|b| - 1];
      assert (a + b)[..|a + b| - 1] == a + b';
      TerminatedPrefix(a, b');
      var before := TerminatedWords(a + b');
      var after := TerminatedWords(a + b);
      assert after == before || after == before + [ScanText(a + b').word];
      assert after[..|before|] == before;
    }
  }

  /** A text that starts with a white character counts the empty word first. */
  lemma LeadingWhiteSpaceCountsEmptyWord(c: char, rest: string)
    requires IsWhiteSpace(c)
    ensures |TerminatedWords([c] + rest)| >= 1 && TerminatedWords([c] + rest)[0] == ""
  {
    assert ScanText([c]) == ScanStep(ScanText([]), c);
    assert TerminatedWords([c]) == [""];
    TerminatedPrefix([c], rest);
  }

  lemma ScanAppend(u: string, c: char, v: string)
    requires v == u + [c]
    ensures ScanText(v) == ScanStep(ScanText(u), c)
  {
    assert v[..|u|] == u;
  }

  /** The scan of `"a a b "`, one character at a time. */
  lemma ScanScenarioPrefix()
    ensures ScanText("a a b ") == Scan(["a", "a", "b"], "", ' ')
  {
    assert IsWhiteSpace(' ') && !IsWhiteSpace('a') && !IsWhiteSpace('b');
    ScanAppend("", 'a', "a");
    assert ScanText("a") == Scan([], "a", 'a');
    ScanAppend("a", ' ', "a ");
    assert ScanText("a ") == Scan(["a"], "", ' ');
    ScanAppend("a ", 'a', "a a");
    assert ScanText("a a") == Scan(["a"], "a", 'a');
    ScanAppend("a a", ' ', "a a ");
    assert ScanText("a a ") == Scan(["a", "a"], "", ' ');
    ScanAppend("a a ", 'b', "a a b");
    assert ScanText("a a b") == Scan(["a", "a"], "b", 'b');
    ScanAppend("a a b", ' ', "a a b ");
  }

  lemma ScanScenario()
    ensures TerminatedWords("a a b b b c") == ["a", "a", "b", "b", "b"]
  {
    assert IsWhiteSpace(' ') && !IsWhiteSpace('b');
    ScanScenarioPrefix();
    ScanAppend("a a b ", 'b', "a a b b");
    assert ScanText("a a b b") == Scan(["a", "a", "b"], "b", 'b');
    ScanAppend("a a b b", ' ', "a a b b ");
    assert ScanText("a a b b ") == Scan(["a", "a", "b", "b"], "", ' ');
    ScanAppend("a a b b ", 'b', "a a b b b");
    assert ScanText("a a b b b") == Scan(["a", "a", "b", "b"], "b", 'b');
    ScanAppend("a a b b b", ' ', "a a b b b ");
    assert ScanText("a a b b b ") == Scan(["a", "a", "b", "b", "b"], "", ' ');
    assert !IsWhiteSpace('c');
    TrailingWordNotCounted("a a b b b ", "c");
    assert "a a b b b " + "c" == "a a b b b c";
  }

  lemma TallyAppend(ws: seq<string>, w: string, vs: seq<string>)
    requires vs == ws + [w]
    ensures Tally(vs) == Bump(Tally(ws), w)
  {
    assert vs[..|ws|] == ws;
  }

  lemma TallyScenario()
    ensures Tally(["a", "a", "b", "b", "b"]) == [("a", 2), ("b", 3)]
  {
    TallyAppend([], "a", ["a"]);
    assert Tally(["a"]) == [("a", 1)];
    TallyAppend(["a"], "a", ["a", "a"]);
    assert Tally(["a", "a"]) == [("a", 2)];
    TallyAppend(["a", "a"], "b", ["a", "a", "b"]);
    assert Bump([("a", 2)], "b") == [("a", 2)] + Bump([], "b");
    assert Tally(["a", "a", "b"]) == [("a", 2), ("b", 1)];
    TallyAppend(["a", "a", "b"], "b", ["a", "a", "b", "b"]);
    assert Bump([("a", 2), ("b", 1)], "b") == [("a", 2)] + Bump([("b", 1)], "b");
    assert Tally(["a", "a", "b", "b"]) == [("a", 2), ("b", 2)];
    TallyAppend(["a", "a", "b", "b"], "b", ["a", "a", "b", "b", "b"]);
    assert Bump([("a", 2), ("b", 2)], "b") == [("a", 2)] + Bump([("b", 2)], "b");
  }

  /** The counted words of a short text and its ranking: the final word, never
      ended by a white character, does not appear. */
  lemma MostFrequentScenario()
    ensures TerminatedWords("a a b b b c") == ["a", "a", "b", "b", "b"]
    ensures MostFrequentWords("a a b b b c") == ["b", "a"]
  {
    ScanScenario();
    TallyScenario();
    var f: seq<Entry> := [("a", 2), ("b", 3)];
    assert WordFrequencies("a a b b b c") == f;
    assert f[..1] == [("a", 2)] && f[..1][..0] == [];
    assert SortDesc(f[..1]) == [("a", 2)];
    var s: seq<Entry> := [("a", 2)];
    assert s[..0] == [];
    assert InsertDesc(s, ("b", 3)) == InsertDesc([], ("b", 3)) + [("a", 2)];
    assert SortDesc(f) == [("b", 3), ("a", 2)];
  }

  // ----- the buffer object -----

  /** Whether reading `(int)FileSize` bytes from offset 0 of `f` succeeds: the stream
      must be open and the truncated size must not be negative. */
  function FillOutcome(f: File): Outcome
    reads f
  {
    if !f.isOpen then Fail(NotSupported) else if Int32(f.fileSize) < 0 then Fail(Overflow) else Pass
  }

  /** The text that read decodes: `(int)FileSize` bytes from offset 0 (from 4 for
      UTF-7), zero-padded, decoded with the input encoding. */
  function LoadedText(codec: Codec, f: File): string
    reads f
  {
    codec.getString(f.inputEncoding, ReadWindow(f.content, ReadStart(f.inputEncoding, 0), Max(0, Int32(f.fileSize))))
  }

  /** Backspacing once right after typing a character removes that character and
      the one after it, because the deleted range is inclusive. */
  lemma BackspaceAfterTypingRemovesTwo(t: string, k: nat, c: char)
    requires k < |t|
    ensures var typed := InsertedAt(t, k, [c]);
            k + 1 < |typed| && DeletedRange(typed, (k + 1) - 1, k + 1) == t[..k] + t[k + 1..]
  {
    var typed := InsertedAt(t, k, [c]);
    assert typed[..k] == t[..k];
    assert typed[k + 2..] == t[k + 1..];
  }

  /** `Buffer` with the members `ImmediateBuffer` adds. A buffer of kind Lazy has only
      the base state (its counter is never set). */
  class Buffer {
    const kind: BufferType
    const fileInstance: File
    const storage: GapBuffer
    const counter: TextCounter?
    var wordFrequencies: seq<Entry>
    var linePosition: int
    var byteOffset: int
    var bufferPosition: int

    /** An immediate buffer, whose counter the subclass constructor has set. */
    predicate Valid()
    {
      kind == Immediate && counter != null
    }

    constructor (kind: BufferType, file: File)
      ensures this.kind == kind && fileInstance == file
      ensures fresh(storage) && storage.Text() == [] && wordFrequencies == []
      ensures linePosition == 0 && byteOffset == 0 && bufferPosition == 0
      ensures kind == Immediate ==> fresh(counter) && counter != null && counter.State() == Counts(0, 0, 0, '\0')
      ensures kind == Lazy ==> counter == null
      ensures kind == Immediate ==> Valid()
    {
      this.kind := kind;
      fileInstance := file;
      storage := new GapBuffer();
      wordFrequencies := [];
      linePosition := 0;
      byteOffset := 0;
      bufferPosition := 0;
      if kind == Immediate {
        counter := new TextCounter();
      } else {
        counter := null;
      }
    }

    /** Disposing the buffer disposes its file. */
    method Dispose()
      modifies fileInstance`isOpen
      ensures !fileInstance.isOpen
    {
      fileInstance.Dispose();
    }

    /** Stores the cursor unchecked. */
    method UpdateCursorPosition(numberOfCharactersFromStart: int)
      requires Valid()
      modifies this`bufferPosition
      ensures bufferPosition == numberOfCharactersFromStart
    {
      bufferPosition := numberOfCharactersFromStart;
    }

    /** Scans the text up to the cursor and counts lines and columns. */
    method ParseCursorPosition() returns (r: Result<(int, int)>)
      requires Valid()
      ensures r == ParsedCursor(storage.Text(), bufferPosition)
    {
      var eolCount := 1;
      var columns := 1;
      if bufferPosition == 0 {
        return Ok((eolCount, columns));
      }
      var length := storage.GetLength();
      ghost var text := storage.Text();
      ghost var last := Min(bufferPosition, length - 1);
      var got := storage.GetText(0, Min(bufferPosition, length - 1));
      if got.Err? {
        assert length > 0 && last < -1;
        return Err(got.error);
      }
      var content := if got.value.Some? then got.value.value else "";
      assert ParsedCursor(text, bufferPosition) == Ok(LineColumn(content)) by {
        if length > 0 {
          assert content == text[..last + 1];
        }
      }
      var previousChar := '\0';
      var i := 0;
      while i < |content|
        invariant 0 <= i <= |content|
        invariant previousChar == PreviousAt(content, i)
        invariant (eolCount, columns) == LineColumn(content[..i])
      {
        var character := content[i];
        ScanOneMore(content, i, eolCount, columns);
        columns := columns + 1;
        if character == '\n' && previousChar != '\r' {
          columns := 1;
          eolCount := eolCount + 1;
        }
        if character == '\r' {
          columns := 1;
          eolCount := eolCount + 1;
        }
        previousChar := character;
        i := i + 1;
      }
      assert content[..i] == content;
      return Ok((eolCount, columns));
    }

    /** Inserts one character at the cursor, feeds it to the counter's add-path and
        advances the cursor. */
    method InsertAtCursor(content: char) returns (r: Outcome)
      requires Valid()
      modifies storage, counter, this`bufferPosition
      ensures r == if 0 <= old(bufferPosition) <= |old(storage.Text())| then Pass else Fail(ArgumentOutOfRange)
      ensures r.Pass? ==> storage.Text() == InsertedAt(old(storage.Text()), old(bufferPosition), [content]) &&
                          counter.State() == Add(old(counter.State()), content) &&
                          bufferPosition == old(bufferPosition) + 1
      ensures r.Fail? ==> storage.Text() == old(storage.Text()) && counter.State() == old(counter.State()) &&
                          bufferPosition == old(bufferPosition)
    {
      r := storage.Insert(content, bufferPosition);
      if r.Fail? {
        return;
      }
      counter.UpdateCountsAdd(content);
      bufferPosition := bufferPosition + 1;
    }

    /** Inserts a string at the cursor, recounts the whole content and advances the
        cursor by the string's length. */
    method InsertTextAtCursor(content: string) returns (r: Outcome)
      requires Valid()
      modifies storage, counter, this`bufferPosition
      ensures r == if 0 <= old(bufferPosition) <= |old(storage.Text())| then Pass else Fail(ArgumentOutOfRange)
      ensures r.Pass? ==> storage.Text() == InsertedAt(old(storage.Text()), old(bufferPosition), content) &&
                          counter.State() == CountOf(storage.Text()) &&
                          bufferPosition == old(bufferPosition) + |content|
      ensures r.Fail? ==> storage.Text() == old(storage.Text()) && counter.State() == old(counter.State()) &&
                          bufferPosition == old(bufferPosition)
    {
      r := storage.InsertText(content, bufferPosition);
      if r.Fail? {
        return;
      }
      var text := GetBufferContent();
      counter.CountFileContent(text);
      bufferPosition := bufferPosition + |content|;
    }

    /** Removes the inclusive range `[pos - n, pos]`, that is `n + 1` characters, feeds
        them to the counter's remove-path and moves the cursor back by `n`. Reading the
        range throws ArgumentOutOfRange or Argument and deleting it throws
        ArgumentOutOfRange, both before any change. */
    method DeleteAtCursorLeft(numberOfCharacters: int) returns (r: Outcome)
      requires Valid()
      modifies storage, counter, this`bufferPosition
      ensures var pos, n, t := old(bufferPosition), numberOfCharacters, old(storage.Text());
              r.Pass? <==> 0 <= pos - n && 0 <= n && pos < |t|
      ensures var pos, n, t := old(bufferPosition), numberOfCharacters, old(storage.Text());
              r.Fail? ==> r.error == if |t| > 0 && 0 <= pos - n && -1 <= n && |t| <= pos then Argument else ArgumentOutOfRange
      ensures var pos, n, t := old(bufferPosition), numberOfCharacters, old(storage.Text());
              r.Pass? ==> 0 <= pos - n <= pos < |t| &&
                          storage.Text() == DeletedRange(t, pos - n, pos) &&
                          counter.State() == RemoveAll(old(counter.State()), t[pos - n..pos + 1]) &&
                          bufferPosition == pos - n
      ensures r.Fail? ==> storage.Text() == old(storage.Text()) && counter.State() == old(counter.State()) &&
                          bufferPosition == old(bufferPosition)
    {
      var pos := bufferPosition;
      var got := storage.GetText(pos - numberOfCharacters, pos);
      if got.Err? {
        return Fail(got.error);
      }
      r := storage.Delete(pos - numberOfCharacters, pos);
      if r.Fail? {
        return;
      }
      var removed := if got.value.Some? then got.value.value else "";
      counter.UpdateCountsRemoveText(removed);
      bufferPosition := pos - numberOfCharacters;
    }

    /** Removes the inclusive range `[pos, pos + n]`, that is `n + 1` characters, and
        feeds them to the counter's remove-path; the cursor stays. */
    method DeleteAtCursorRight(numberOfCharacters: int) returns (r: Outcome)
      requires Valid()
      modifies storage, counter
      ensures var pos, n, t := bufferPosition, numberOfCharacters, old(storage.Text());
              r.Pass? <==> 0 <= pos && 0 <= n && pos + n < |t|
      ensures var pos, n, t := bufferPosition, numberOfCharacters, old(storage.Text());
              r.Fail? ==> r.error == if |t| > 0 && 0 <= pos && -1 <= n && |t| <= pos + n then Argument else ArgumentOutOfRange
      ensures var pos, n, t := bufferPosition, numberOfCharacters, old(storage.Text());
              r.Pass? ==> 0 <= pos <= pos + n < |t| &&
                          storage.Text() == DeletedRange(t, pos, pos + n) &&
                          counter.State() == RemoveAll(old(counter.State()), t[pos..pos + n + 1])
      ensures r.Fail? ==> storage.Text() == old(storage.Text()) && counter.State() == old(counter.State())
    {
      var pos := bufferPosition;
      var got := storage.GetText(pos, pos + numberOfCharacters);
      if got.Err? {
        return Fail(got.error);
      }
      r := storage.Delete(pos, pos + numberOfCharacters);
      if r.Fail? {
        return;
      }
      var removed := if got.value.Some? then got.value.value else "";
      counter.UpdateCountsRemoveText(removed);
    }

    /** Empties the storage, then reads `(int)FileSize` bytes from offset 0 of the file
        and inserts them, then recounts; the cursor stays. A failing read leaves the
        storage already emptied. */
    method FillBufferFromFile(codec: Codec) returns (r: Outcome)
      requires Valid()
      modifies storage, counter
      ensures r == FillOutcome(fileInstance)
      ensures r.Pass? ==> storage.Text() == LoadedText(codec, fileInstance) && counter.State() == CountOf(storage.Text())
      ensures r.Fail? ==> storage.Text() == [] && counter.State() == old(counter.State())
    {
      var length := storage.GetLength();
      if length > 0 {
        var deleted := storage.Delete(0, length - 1);
      }
      var read := fileInstance.ReadFromFile(codec, 0, Int32(fileInstance.fileSize));
      if read.Err? {
        return Fail(read.error);
      }
      var inserted := storage.InsertText(read.value, 0);
      var text := GetBufferContent();
      counter.CountFileContent(text);
      return Pass;
    }

    /** Dumps the text to the buffer's own file. */
    method DumpBufferToCurrentFile(codec: Codec) returns (r: Outcome)
      requires Valid()
      modifies fileInstance
      ensures r == if old(fileInstance.isOpen) then Pass else Fail(ObjectDisposed)
      ensures r.Pass? ==> fileInstance.content == WrittenBytes(codec, fileInstance.inputEncoding, 0, storage.Text())
      ensures r.Fail? ==> fileInstance.content == old(fileInstance.content)
      ensures fileInstance.inputEncoding == old(fileInstance.inputEncoding) &&
              fileInstance.outputEncoding == old(fileInstance.outputEncoding) &&
              fileInstance.fileSize == old(fileInstance.fileSize) && fileInstance.isOpen == old(fileInstance.isOpen) &&
              fileInstance.endOfLineCharacter == old(fileInstance.endOfLineCharacter)
    {
      r := DumpBufferToFile(codec, fileInstance);
    }

    /** Clears `file`, then writes the whole text (`""` when empty) at offset 0, so
        that the file holds exactly the text encoded with its INPUT encoding, after
        the UTF-7 signature when that encoding is UTF-7. The size is not updated. */
    method DumpBufferToFile(codec: Codec, file: File) returns (r: Outcome)
      requires Valid()
      modifies file
      ensures r == if old(file.isOpen) then Pass else Fail(ObjectDisposed)
      ensures r.Pass? ==> file.content == WrittenBytes(codec, file.inputEncoding, 0, storage.Text())
      ensures r.Fail? ==> file.content == old(file.content)
      ensures file.inputEncoding == old(file.inputEncoding) && file.outputEncoding == old(file.outputEncoding) &&
              file.fileSize == old(file.fileSize) && file.isOpen == old(file.isOpen) &&
              file.endOfLineCharacter == old(file.endOfLineCharacter)
    {
      var length := storage.GetLength();
      var bufferContent := storage.GetText(0, length - 1);
      r := file.Clear();
      if r.Fail? {
        return;
      }
      var cleared := file.content;
      var text := bufferContent.value;
      assert (if text.Some? then text.value else "") == storage.Text();
      r := file.WriteToFile(codec, 0, text);
      var bytes := WrittenBytes(codec, file.inputEncoding, 0, storage.Text());
      if file.inputEncoding == Utf7 {
        OverwritePrefix(cleared, bytes);
      } else {
        OverwriteEmpty(bytes);
      }
    }

    /** The whole text, `""` when empty. */
    method GetBufferContent() returns (content: string)
      requires Valid()
      ensures content == storage.Text()
    {
      var length := storage.GetLength();
      var got := storage.GetText(0, length - 1);
      content := if got.value.Some? then got.value.value else "";
    }

    /** Rebuilds the word dictionary from the text and returns its four most frequent
        words. */
    method GetMostFrequentWords() returns (words: seq<string>)
      requires Valid()
      modifies this`wordFrequencies
      ensures wordFrequencies == WordFrequencies(storage.Text())
      ensures words == MostFrequentWords(storage.Text())
    {
      wordFrequencies := [];
      var previousChar := '\0';
      var builder := "";
      var content := GetBufferContent();
      var i := 0;
      while i < |content|
        invariant 0 <= i <= |content|
        invariant wordFrequencies == Tally(ScanText(content[..i]).ended)
        invariant builder == ScanText(content[..i]).word
        invariant previousChar == ScanText(content[..i]).previous
      {
        var character := content[i];
        ScanAppend(content[..i], character, content[..i + 1]);
        if !IsWhiteSpace(character) {
          builder := builder + [character];
        } else if !IsWhiteSpace(previousChar) {
          var ended := ScanText(content[..i]).ended;
          TallyAppend(ended, builder, ended + [builder]);
          wordFrequencies := Bump(wordFrequencies, builder);
          builder := "";
        }
        previousChar := character;
        i := i + 1;
      }
      assert content[..i] == content;
      var sorted := SortDesc(wordFrequencies);
      words := Keys(sorted[..Min(4, |sorted|)]);
    }

    /** Empties the storage and puts the cursor at 0; the counter is left as it was. */
    method Clear()
      requires Valid()
      modifies storage, this`bufferPosition
      ensures storage.Text() == [] && bufferPosition == 0
    {
      var length := storage.GetLength();
      if length > 0 {
        var deleted := storage.Delete(0, length - 1);
      }
      bufferPosition := 0;
    }
  }

  /** After a dump, reading back as many bytes as the encoding produced, from offset
      0, returns exactly the encoded text: the UTF-7 signature is written on dump and
      skipped on read. */
  lemma DumpThenRead(codec: Codec, encoding: Encoding, text: string)
    ensures var bytes := codec.getBytes(encoding, text);
            ReadWindow(WrittenBytes(codec, encoding, 0, text), ReadStart(encoding, 0), |bytes|) == bytes
  {
    var bytes := codec.getBytes(encoding, text);
    var w := WrittenBytes(codec, encoding, 0, text);
    var k := ReadStart(encoding, 0);
    assert w[k..] == bytes;
    var r := ReadWindow(w, k, |bytes|);
    forall i | 0 <= i < |bytes| ensures r[i] == bytes[i] {
      assert w[k..][i] == w[k + i];
    }
  }
}
