/**
 Reading the last lines of a file backwards in blocks
 (foundation/security_audit.py, `_tail_lines`), against splitting the whole file.
 */
module TailLines {
  import opened Wrappers

  type Byte = b: int | 0 <= b < 256

  const LF: Byte := 10
  const CR: Byte := 13
  const BLOCK_SIZE: nat := 64 * 1024

  // ---- Lines of a whole file ----

  /** Where the first line ends: the first line break, or the end. */
  function LineEnd(s: seq<Byte>): (n: nat)
    ensures n <= |s| && (n < |s| ==> s[n] == LF || s[n] == CR)
    ensures forall k :: 0 <= k < n ==> s[k] != LF && s[k] != CR
  {
    if s == [] || s[0] == LF || s[0] == CR then 0 else 1 + LineEnd(s[1..])
  }

  /** Where the next line begins: CR LF counts as one break. */
  function NextLine(s: seq<Byte>): (n: nat)
    requires s != []
    ensures 0 < n <= |s|
  {
    var end := LineEnd(s);
    if end == |s| then end
    else if s[end] == CR && end + 1 < |s| && s[end + 1] == LF then end + 2
    else end + 1
  }

  /** `bytes.splitlines()`: lines without their breaks; a final break adds no empty line. */
  function SplitLines(s: seq<Byte>): seq<seq<Byte>> {
    if s == [] then [] else [s[..LineEnd(s)]] + SplitLines(s[NextLine(s)..])
  }

  function Interleaved(lines: seq<seq<Byte>>, breaks: seq<seq<Byte>>): seq<Byte>
    requires |lines| == |breaks|
  {
    if lines == [] then [] else lines[0] + breaks[0] + Interleaved(lines[1..], breaks[1..])
  }

  predicate StartsWithLF(s: seq<Byte>) {
    s != [] && s[0] == 10
  }

  /** Break `i` is LF, CR LF or a CR that no LF follows, or is missing behind a last line that is not empty. */
  predicate IsBreak(lines: seq<seq<Byte>>, breaks: seq<seq<Byte>>, i: nat)
    requires i < |lines| == |breaks|
  {
    || breaks[i] == [10] || breaks[i] == [13, 10]
    || (breaks[i] == [13] && (i + 1 < |lines| ==> !StartsWithLF(lines[i + 1] + breaks[i + 1])))
    || (breaks[i] == [] && i == |lines| - 1 && lines[i] != [])
  }

  /** The lines hold no break and are all there is between the breaks. */
  ghost predicate AreLines(s: seq<Byte>, lines: seq<seq<Byte>>, breaks: seq<seq<Byte>>) {
    && |lines| == |breaks| && s == Interleaved(lines, breaks)
    && (forall i, k :: 0 <= i < |lines| && 0 <= k < |lines[i]| ==> lines[i][k] != 10 && lines[i][k] != 13)
    && (forall i :: 0 <= i < |lines| ==> IsBreak(lines, breaks, i))
  }

  /** Splitting cuts a text at its LF, CR LF and single CR breaks, and nowhere else. */
  lemma {:induction false} SplitCutsAtBreaks(s: seq<Byte>) returns (breaks: seq<seq<Byte>>)
    ensures AreLines(s, SplitLines(s), breaks)
    decreases |s|
  {
    if s == [] {
      breaks := [];
    } else {
      hide LineEnd, NextLine, SplitLines, AreLines, StartsWithLF;
      var line, mark, after := CutFirst(s);
      var rest := SplitCutsAtBreaks(after);
      breaks := [mark] + rest;
      ConsLines(s, line, mark, after, SplitLines(after), rest);
    }
  }

  /** The first line, its break and what follows. */
  lemma CutFirst(s: seq<Byte>) returns (line: seq<Byte>, mark: seq<Byte>, after: seq<Byte>)
    requires s != []
    ensures s == line + mark + after && |after| < |s| && SplitLines(s) == [line] + SplitLines(after)
    ensures forall k :: 0 <= k < |line| ==> line[k] != 10 && line[k] != 13
    ensures || mark == [10] || mark == [13, 10]
            || (mark == [13] && !StartsWithLF(after))
            || (mark == [] && after == [] && line != [])
  {
    hide LineEnd, NextLine, SplitLines, StartsWithLF;
    BreakKinds(s);
    var end, next := LineEnd(s), NextLine(s);
    line, mark, after := s[..end], s[end..next], s[next..];
    SplitStep(s, line, after);
  }

  lemma BreakKinds(s: seq<Byte>)
    requires s != []
    ensures var end, next := LineEnd(s), NextLine(s);
      && end <= next && (forall k :: 0 <= k < end ==> s[k] != 10 && s[k] != 13)
      && (|| s[end..next] == [10] || s[end..next] == [13, 10]
          || (s[end..next] == [13] && !StartsWithLF(s[next..]))
          || (s[end..next] == [] && next == |s| && end > 0))
  {}

  lemma ConsLines(s: seq<Byte>, line: seq<Byte>, mark: seq<Byte>, after: seq<Byte>,
                  lines: seq<seq<Byte>>, breaks: seq<seq<Byte>>)
    requires s == line + mark + after && AreLines(after, lines, breaks)
    requires forall k :: 0 <= k < |line| ==> line[k] != 10 && line[k] != 13
    requires || mark == [10] || mark == [13, 10]
             || (mark == [13] && !StartsWithLF(after))
             || (mark == [] && after == [] && line != [])
    ensures AreLines(s, [line] + lines, [mark] + breaks)
  {
    var all, marks := [line] + lines, [mark] + breaks;
    assert all[1..] == lines && marks[1..] == breaks;
    if lines != [] {
      assert IsBreak(lines, breaks, 0);
      SomethingBetween(lines, breaks);
    }
    if lines != [] && StartsWithLF(lines[0] + breaks[0]) {
      assert Interleaved(lines, breaks)[0] == 10;
    }
    forall i | 0 <= i < |all|
      ensures IsBreak(all, marks, i)
    {
      if i > 0 {
        assert IsBreak(lines, breaks, i - 1);
        assert marks[i] == breaks[i - 1] && all[i] == lines[i - 1];
        assert i < |lines| ==> marks[i + 1] == breaks[i] && all[i + 1] == lines[i];
      }
    }
  }

  lemma SomethingBetween(lines: seq<seq<Byte>>, breaks: seq<seq<Byte>>)
    requires |lines| == |breaks| && lines != [] && IsBreak(lines, breaks, 0)
    ensures Interleaved(lines, breaks) != []
  {
    assert |Interleaved(lines, breaks)| >= |lines[0]| + |breaks[0]|;
  }

  /** `bytes.count(b"\n")`. */
  function CountLF(s: seq<Byte>): nat {
    if s == [] then 0 else (if s[0] == LF then 1 else 0) + CountLF(s[1..])
  }

  function LastOf<T>(s: seq<T>, limit: nat): seq<T> {
    if limit < |s| then s[|s| - limit..] else s
  }

  lemma LineEndIsFirst(s: seq<Byte>, n: nat)
    requires n < |s| && (s[n] == LF || s[n] == CR) && forall k :: 0 <= k < n ==> s[k] != LF && s[k] != CR
    ensures LineEnd(s) == n
  {}

  lemma BreaksInside(a: seq<Byte>, b: seq<Byte>)
    requires a != [] && a[|a| - 1] == LF
    ensures LineEnd(a) < |a| && LineEnd(a + b) == LineEnd(a) && NextLine(a + b) == NextLine(a)
  {
    LineEndIsFirst(a + b, LineEnd(a));
  }

  lemma SplitStep(s: seq<Byte>, first: seq<Byte>, rest: seq<Byte>)
    requires s != [] && first == s[..LineEnd(s)] && rest == s[NextLine(s)..]
    ensures SplitLines(s) == [first] + SplitLines(rest)
  {}

  lemma FirstLineOfConcat(a: seq<Byte>, b: seq<Byte>)
    requires a != [] && a[|a| - 1] == LF
    ensures SplitLines(a + b) == [a[..LineEnd(a)]] + SplitLines(a[NextLine(a)..] + b)
  {
    hide SplitLines, LineEnd, NextLine;
    BreaksInside(a, b);
    var end, next := LineEnd(a), NextLine(a);
    assert (a + b)[..end] == a[..end];
    assert (a + b)[next..] == a[next..] + b;
    SplitStep(a + b, a[..end], a[next..] + b);
  }

  /** A text that ends with LF splits independently of what follows. */
  lemma {:induction false} SplitConcat(a: seq<Byte>, b: seq<Byte>)
    requires a != [] ==> a[|a| - 1] == LF
    ensures SplitLines(a + b) == SplitLines(a) + SplitLines(b)
    decreases |a|
  {
    hide SplitLines, LineEnd, NextLine;
    if a == [] {
      assert a + b == b;
      NothingSplits();
    } else {
      LastStays(a, NextLine(a));
      var first, rest := a[..LineEnd(a)], a[NextLine(a)..];
      FirstLineOfConcat(a, b);
      SplitStep(a, first, rest);
      SplitConcat(rest, b);
      Associates([first], SplitLines(rest), SplitLines(b));
    }
  }

  lemma NothingSplits()
    ensures SplitLines([]) == []
  {}

  lemma LastStays<T>(s: seq<T>, n: nat)
    requires n <= |s|
    ensures s[n..] != [] ==> s[n..][|s[n..]| - 1] == s[|s| - 1]
  {}

  lemma Associates<T>(a: seq<T>, b: seq<T>, c: seq<T>)
    ensures (a + b) + c == a + (b + c)
  {}

  lemma {:induction false} CountConcat(a: seq<Byte>, b: seq<Byte>)
    ensures CountLF(a + b) == CountLF(a) + CountLF(b)
    decreases |a|
  {
    if a == [] {
      assert a + b == b;
    } else {
      assert (a + b)[1..] == a[1..] + b;
      CountConcat(a[1..], b);
    }
  }

  lemma {:induction false} NoneCounted(s: seq<Byte>)
    requires LF !in s
    ensures CountLF(s) == 0
    decreases |s|
  {
    if s != [] {
      NoneCounted(s[1..]);
    }
  }

  lemma {:induction false} FirstLF(s: seq<Byte>) returns (k: nat)
    requires CountLF(s) > 0
    ensures k < |s| && s[k] == LF && CountLF(s[k + 1..]) == CountLF(s) - 1
    decreases |s|
  {
    if s[0] == LF {
      k := 0;
    } else {
      var j := FirstLF(s[1..]);
      k := j + 1;
      assert s[k + 1..] == s[1..][j + 1..];
    }
  }

  lemma CountSplit(s: seq<Byte>, n: nat)
    requires n <= |s|
    ensures CountLF(s) == CountLF(s[..n]) + CountLF(s[n..])
  {
    CountConcat(s[..n], s[n..]);
    assert s[..n] + s[n..] == s;
  }

  lemma FirstLineBreaks(s: seq<Byte>)
    requires s != []
    ensures CountLF(s) <= 1 + CountLF(s[NextLine(s)..])
  {
    hide LineEnd, NextLine, CountLF;
    var end, next := LineEnd(s), NextLine(s);
    EndBeforeNext(s);
    CountSplit(s, next);
    CountSplit(s[..next], end);
    assert s[..next][..end] == s[..end] && s[..next][end..] == s[end..next];
    NoneCounted(s[..end]);
    BreakCountsOnce(s, end, next);
  }

  /** Every LF ends a line, so there are at least as many lines. */
  lemma {:induction false} LinesCoverBreaks(s: seq<Byte>)
    ensures |SplitLines(s)| >= CountLF(s)
    decreases |s|
  {
    if s != [] {
      hide SplitLines, LineEnd, NextLine, CountLF;
      LinesCoverBreaks(s[NextLine(s)..]);
      FirstLineBreaks(s);
      SplitStep(s, s[..LineEnd(s)], s[NextLine(s)..]);
    }
  }

  lemma EndBeforeNext(s: seq<Byte>)
    requires s != []
    ensures LineEnd(s) <= NextLine(s)
  {}

  lemma BreakCountsOnce(s: seq<Byte>, end: nat, next: nat)
    requires s != [] && end == LineEnd(s) && next == NextLine(s)
    ensures CountLF(s[end..next]) <= 1
  {
    var gap := s[end..next];
    if |gap| == 2 {
      assert gap == [CR] + [LF];
      CountConcat([CR], [LF]);
    } else if |gap| == 1 {
      assert gap[1..] == [];
    }
  }

  /**
   A tail that begins anywhere gives the last lines of the file, as soon as it
   contains more breaks than lines are wanted: the cut first line is not used.
   */
  lemma TailSuffices(file: seq<Byte>, position: nat, limit: nat)
    requires position <= |file|
    requires position == 0 || CountLF(file[position..]) > limit
    ensures LastOf(SplitLines(file[position..]), limit) == LastOf(SplitLines(file), limit)
  {
    hide SplitLines, CountLF, LastOf;
    if position == 0 {
      assert file[0..] == file;
    } else {
      var tail := file[position..];
      var k := FirstLF(tail);
      var rest := tail[k + 1..];
      LinesCoverBreaks(rest);
      SplitConcat(tail[..k + 1], rest);
      assert tail[..k + 1] + rest == tail;
      SplitConcat(file[..position + k + 1], rest);
      assert file[..position + k + 1] + rest == file;
      assert tail[k] == tail[..k + 1][k] == file[..position + k + 1][position + k];
      LastOfSuffix(SplitLines(tail[..k + 1]), SplitLines(rest), limit);
      LastOfSuffix(SplitLines(file[..position + k + 1]), SplitLines(rest), limit);
    }
  }

  lemma LastOfSuffix<T>(a: seq<T>, b: seq<T>, limit: nat)
    requires |b| >= limit
    ensures LastOf(a + b, limit) == b[|b| - limit..]
  {}

  // ---- The backward scan ----

  /** `b"".join(reversed(chunks))`. */
  function JoinReversed(chunks: seq<seq<Byte>>): seq<Byte> {
    if chunks == [] then [] else chunks[|chunks| - 1] + JoinReversed(chunks[..|chunks| - 1])
  }

  /** `_tail_lines(limit)`: the last lines of the whole file, though only its end is read. */
  method TailLines(file: Option<seq<Byte>>, limit: int) returns (lines: seq<seq<Byte>>)
    ensures lines == if limit <= 0 || file.None? then [] else LastOf(SplitLines(file.value), limit)
  {
    if limit <= 0 || file.None? {
      return [];
    }
    var bytes := file.value;
    var position := |bytes|;
    var chunks: seq<seq<Byte>> := [];
    var newlineCount := 0;
    while position > 0 && newlineCount <= limit
      invariant 0 <= position <= |bytes|
      invariant JoinReversed(chunks) == bytes[position..]
      invariant newlineCount == CountLF(bytes[position..])
    {
      var readSize := if BLOCK_SIZE < position then BLOCK_SIZE else position;
      var block := bytes[position - readSize..position];
      assert bytes[position - readSize..] == block + bytes[position..];
      CountConcat(block, bytes[position..]);
      position := position - readSize;
      assert (chunks + [block])[..|chunks|] == chunks;
      chunks := chunks + [block];
      newlineCount := newlineCount + CountLF(block);
    }
    TailSuffices(bytes, position, limit);
    lines := LastOf(SplitLines(JoinReversed(chunks)), limit);
  }

  // ---- Written records ----

  /** A file of records, each written with one LF. */
  function Written(records: seq<seq<Byte>>): seq<Byte> {
    if records == [] then [] else records[0] + [LF] + Written(records[1..])
  }

  lemma WrittenStep(record: seq<Byte>, rest: seq<Byte>)
    requires LF !in record && CR !in record
    ensures SplitLines(record + [LF] + rest) == [record] + SplitLines(rest)
  {
    hide SplitLines;
    var s := record + [LF] + rest;
    assert s[|record|] == LF;
    LineEndIsFirst(s, |record|);
    assert s[..|record|] == record && s[|record| + 1..] == rest;
    SplitStep(s, record, rest);
  }

  /** Records without line breaks are read back as they were written. */
  lemma {:induction false} WrittenSplits(records: seq<seq<Byte>>)
    requires forall r :: r in records ==> LF !in r && CR !in r
    ensures SplitLines(Written(records)) == records
    decreases |records|
  {
    if records != [] {
      WrittenSplits(records[1..]);
      WrittenStep(records[0], Written(records[1..]));
    }
  }

  /** The head that an append reads from such a file is the record written last. */
  lemma HeadIsLastRecord(records: seq<seq<Byte>>)
    requires records != [] && forall r :: r in records ==> LF !in r && CR !in r
    ensures LastOf(SplitLines(Written(records)), 1) == [records[|records| - 1]]
  {
    hide SplitLines, Written;
    WrittenSplits(records);
  }
}
