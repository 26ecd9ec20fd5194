/** Cutting failures out of a log (pkg/common/slack/reporter.go, pkg/common/util/util.go). */
module FailureBlocks {
  import opened Text

  const MAX_FAILURE_BLOCKS := 3
  const FAILURE_CONTEXT_LINES := 5
  const FAILURE_BLOCK_LINES := 30

  predicate ContainsErrorMarker(line: string) {
    Contains(line, "error") || Contains(line, "Error") || Contains(line, "ERROR")
  }

  predicate ContainsFailureMarker(line: string) {
    Contains(line, "[FAILED]") || Contains(line, "\U{2022} [FAILED]")
  }

  predicate Marked(line: string) { ContainsFailureMarker(line) || ContainsErrorMarker(line) }

  /** The bullet makes no difference. */
  lemma BulletIsRedundant(line: string)
    ensures ContainsFailureMarker(line) <==> Contains(line, "[FAILED]")
  {
    var bullet := "\U{2022} [FAILED]";
    if Contains(line, bullet) {
      var i :| 0 <= i <= |line| && HasPrefix(line[i..], bullet);
      assert bullet[2..] == "[FAILED]";
      assert line[i + 2..][..8] == line[i..][..10][2..];
    }
  }

  /** A line is marked exactly if one of these words occurs in it. */
  lemma MarkedMeans(line: string)
    ensures Marked(line) <==>
      exists a, w, b | w in {"[FAILED]", "error", "Error", "ERROR"} :: line == a + w + b
  {
    BulletIsRedundant(line);
    forall w: string
      ensures Contains(line, w) <==> exists a, b :: line == a + w + b
    {
      ContainsMeans(line, w);
    }
    if a, w, b :| w in {"[FAILED]", "error", "Error", "ERROR"} && line == a + w + b {
      assert Contains(line, w);
    }
  }

  // ---------- windows ----------

  /** The window of a marker in the first `end` lines. */
  function Start(marker: nat): nat { if marker < FAILURE_CONTEXT_LINES then 0 else marker - FAILURE_CONTEXT_LINES }

  function End(marker: nat, end: nat): nat { if marker + FAILURE_BLOCK_LINES < end then marker + FAILURE_BLOCK_LINES else end }

  /** Where the search goes on: behind the last window. */
  function Behind(markers: seq<nat>, end: nat): nat {
    if markers == [] then 0 else End(markers[|markers| - 1], end)
  }

  /** Which lines are marked. */
  function Marks(lines: seq<string>): (marks: seq<bool>)
    ensures |marks| == |lines|
  {
    seq(|lines|, i requires 0 <= i < |lines| => Marked(lines[i]))
  }

  lemma MarkAt(lines: seq<string>, i: nat)
    requires i < |lines|
    ensures Marks(lines)[i] == (ContainsFailureMarker(lines[i]) || ContainsErrorMarker(lines[i]))
  {
  }

  predicate IsFirst(marks: seq<bool>, from: nat, end: nat, m: nat) {
    from <= m < end <= |marks| && marks[m] && true !in marks[from..m]
  }

  /** Each marker is the first at or after the end of the window before. */
  predicate FirstMarkers(marks: seq<bool>, end: nat, markers: seq<nat>) {
    markers == [] ||
    var front := markers[..|markers| - 1];
    FirstMarkers(marks, end, front) && IsFirst(marks, Behind(front, end), end, markers[|markers| - 1])
  }

  predicate NoneFrom(marks: seq<bool>, from: nat, end: nat)
    requires end <= |marks|
  {
    from <= end && true !in marks[from..end]
  }

  /** There are three, or no more to be found. */
  predicate Extracted(marks: seq<bool>, end: nat, markers: seq<nat>)
    requires end <= |marks|
  {
    && FirstMarkers(marks, end, markers) && |markers| <= MAX_FAILURE_BLOCKS
    && (|markers| < MAX_FAILURE_BLOCKS ==> NoneFrom(marks, Behind(markers, end), end))
  }

  /** The text of a window. */
  function Block(lines: seq<string>, end: nat, marker: nat): string
    requires marker < end <= |lines|
  {
    Join(lines[Start(marker)..End(marker, end)], "\n")
  }

  /** The texts of the windows of the markers. */
  ghost predicate AreBlocks(lines: seq<string>, end: nat, markers: seq<nat>, blocks: seq<string>)
    requires end <= |lines|
  {
    |blocks| == |markers| && forall k | 0 <= k < |blocks| :: markers[k] < end && blocks[k] == Block(lines, end, markers[k])
  }

  lemma AddBlock(lines: seq<string>, end: nat, markers: seq<nat>, blocks: seq<string>, i: nat)
    requires i < end <= |lines| && AreBlocks(lines, end, markers, blocks)
    ensures AreBlocks(lines, end, markers + [i], blocks + [Block(lines, end, i)])
  {
  }

  method WriteBlock(lines: seq<string>, start: nat, end: nat) returns (block: string)
    requires start < end <= |lines|
    ensures block == Join(lines[start..end], "\n")
  {
    block := "";
    for j := start to end
      invariant block == if j < end && j > start then Join(lines[start..j], "\n") + "\n" else Join(lines[start..j], "\n")
    {
      assert lines[start..j + 1][..j - start] == lines[start..j];
      block := block + lines[j];
      if j < end - 1 {
        block := block + "\n";
      }
    }
  }

  /** The state of the search at line i. */
  ghost predicate Searching(lines: seq<string>, end: nat, markers: seq<nat>, blocks: seq<string>, i: nat)
    requires end <= |lines|
  {
    && FirstMarkers(Marks(lines), end, markers) && AreBlocks(lines, end, markers, blocks)
    && Behind(markers, end) <= i <= end && true !in Marks(lines)[Behind(markers, end)..i]
  }

  lemma Skip(lines: seq<string>, end: nat, markers: seq<nat>, blocks: seq<string>, i: nat)
    requires i < end <= |lines| && Searching(lines, end, markers, blocks, i) && !Marks(lines)[i]
    ensures Searching(lines, end, markers, blocks, i + 1)
  {
    var marks, from := Marks(lines), Behind(markers, end);
    assert marks[from..i + 1] == marks[from..i] + [marks[i]];
  }

  lemma AddMarker(marks: seq<bool>, end: nat, markers: seq<nat>, i: nat)
    requires FirstMarkers(marks, end, markers) && IsFirst(marks, Behind(markers, end), end, i)
    ensures FirstMarkers(marks, end, markers + [i]) && Behind(markers + [i], end) == End(i, end)
  {
    assert (markers + [i])[..|markers|] == markers;
  }

  lemma Find(lines: seq<string>, end: nat, markers: seq<nat>, blocks: seq<string>, i: nat)
    requires i < end <= |lines| && Searching(lines, end, markers, blocks, i) && Marks(lines)[i]
    ensures Searching(lines, end, markers + [i], blocks + [Block(lines, end, i)], End(i, end))
  {
    AddMarker(Marks(lines), end, markers, i);
    AddBlock(lines, end, markers, blocks, i);
  }

  /** The texts of the windows of the extracted markers. */
  ghost predicate AreFailureBlocks(lines: seq<string>, end: nat, blocks: seq<string>)
    requires end <= |lines|
  {
    exists markers :: Extracted(Marks(lines), end, markers) && AreBlocks(lines, end, markers, blocks)
  }

  lemma NoLines(lines: seq<string>)
    ensures AreFailureBlocks(lines, 0, [])
  {
    assert Extracted(Marks(lines), 0, []) && AreBlocks(lines, 0, [], []);
  }

  /** The window around line i, in the steps of the loop body. */
  method CutBlock(lines: seq<string>, endIdx: nat, i: nat) returns (block: string)
    requires i < endIdx <= |lines|
    ensures block == Block(lines, endIdx, i)
  {
    var start := i - FAILURE_CONTEXT_LINES;
    if start < 0 {
      start := 0;
    }
    var end := i + FAILURE_BLOCK_LINES;
    if end > endIdx {
      end := endIdx;
    }
    block := WriteBlock(lines, start, end);
  }

  /** A negative endIdx is as good as 0. */
  method ExtractFailureBlocks(lines: seq<string>, endIdx: int) returns (blocks: seq<string>)
    requires endIdx <= |lines|
    ensures |blocks| <= 3 && AreFailureBlocks(lines, if endIdx < 0 then 0 else endIdx, blocks)
  {
    blocks := [];
    if endIdx < 0 {
      NoLines(lines);
      return;
    }
    ghost var markers: seq<nat> := [];
    var i := 0;
    while i < endIdx && |blocks| < MAX_FAILURE_BLOCKS
      invariant 0 <= i <= endIdx && |blocks| <= MAX_FAILURE_BLOCKS
      invariant Searching(lines, endIdx, markers, blocks, i)
      decreases endIdx - i
    {
      MarkAt(lines, i);
      if ContainsFailureMarker(lines[i]) || ContainsErrorMarker(lines[i]) {
        Find(lines, endIdx, markers, blocks, i);
        var block := CutBlock(lines, endIdx, i);
        blocks, markers := blocks + [block], markers + [i];
        i := End(i, endIdx) - 1;
      } else {
        Skip(lines, endIdx, markers, blocks, i);
      }
      i := i + 1;
    }
  }

  lemma FirstIsUnique(marks: seq<bool>, from: nat, end: nat, m: nat, n: nat)
    requires IsFirst(marks, from, end, m) && IsFirst(marks, from, end, n)
    ensures m == n
  {
    assert forall i | from <= i < n :: marks[from..n][i - from] == marks[i];
    assert forall i | from <= i < m :: marks[from..m][i - from] == marks[i];
  }

  lemma {:induction false} SamePrefix(marks: seq<bool>, end: nat, a: seq<nat>, b: seq<nat>)
    requires FirstMarkers(marks, end, a) && FirstMarkers(marks, end, b) && |a| == |b|
    ensures a == b
  {
    if a == [] {
    } else {
      var front := a[..|a| - 1];
      SamePrefix(marks, end, front, b[..|b| - 1]);
      FirstIsUnique(marks, Behind(front, end), end, a[|a| - 1], b[|b| - 1]);
      assert a == front + [a[|a| - 1]] && b == front + [b[|b| - 1]];
    }
  }

  lemma {:induction false} PrefixOfMarkers(marks: seq<bool>, end: nat, markers: seq<nat>, k: nat)
    requires FirstMarkers(marks, end, markers) && k <= |markers|
    ensures FirstMarkers(marks, end, markers[..k])
    ensures k < |markers| ==> IsFirst(marks, Behind(markers[..k], end), end, markers[k])
  {
    var front := markers[..|markers|];
    assert front == markers;
    if k < |markers| {
      PrefixOfMarkers(marks, end, markers[..|markers| - 1], k);
      assert markers[..|markers| - 1][..k] == markers[..k];
    }
  }

  lemma NoFirst(marks: seq<bool>, from: nat, end: nat, m: nat)
    requires end <= |marks| && NoneFrom(marks, from, end)
    ensures !IsFirst(marks, from, end, m)
  {
    assert from <= m < end ==> marks[from..end][m - from] == marks[m];
  }

  /** No list of markers that finds nothing more has a longer one beside it. */
  lemma NoLonger(marks: seq<bool>, end: nat, a: seq<nat>, b: seq<nat>)
    requires end <= |marks| && FirstMarkers(marks, end, a) && NoneFrom(marks, Behind(a, end), end) && FirstMarkers(marks, end, b)
    ensures |b| <= |a|
  {
    if |a| < |b| {
      PrefixOfMarkers(marks, end, b, |a|);
      SamePrefix(marks, end, a, b[..|a|]);
      NoFirst(marks, Behind(a, end), end, b[|a|]);
    }
  }

  /** The lines and the limit determine the markers. */
  lemma MarkersAreUnique(marks: seq<bool>, end: nat, a: seq<nat>, b: seq<nat>)
    requires end <= |marks| && Extracted(marks, end, a) && Extracted(marks, end, b)
    ensures a == b
  {
    if |a| < MAX_FAILURE_BLOCKS {
      NoLonger(marks, end, a, b);
    }
    if |b| < MAX_FAILURE_BLOCKS {
      NoLonger(marks, end, b, a);
    }
    SamePrefix(marks, end, a, b);
  }

  /** So the lines and the limit determine the blocks. */
  lemma BlocksAreUnique(lines: seq<string>, end: nat, a: seq<string>, b: seq<string>)
    requires end <= |lines| && AreFailureBlocks(lines, end, a) && AreFailureBlocks(lines, end, b)
    ensures a == b
  {
    var m :| Extracted(Marks(lines), end, m) && AreBlocks(lines, end, m, a);
    var n :| Extracted(Marks(lines), end, n) && AreBlocks(lines, end, n, b);
    MarkersAreUnique(Marks(lines), end, m, n);
  }

  // ---------- what extraction means ----------

  /** Windows come in order, are not empty, and share at most the context of the later one. */
  lemma WindowsInOrder(marks: seq<bool>, end: nat, markers: seq<nat>, k: nat)
    requires FirstMarkers(marks, end, markers) && k < |markers|
    ensures Start(markers[k]) <= markers[k] < End(markers[k], end) <= end
    ensures End(markers[k], end) - Start(markers[k]) <= FAILURE_CONTEXT_LINES + FAILURE_BLOCK_LINES
    ensures k > 0 ==> End(markers[k - 1], end) <= markers[k] && End(markers[k - 1], end) <= Start(markers[k]) + FAILURE_CONTEXT_LINES
  {
    PrefixOfMarkers(marks, end, markers, k);
  }

  /** The five lines in front of the marked one, that line and the 29 behind it, as far as there are so many. */
  lemma WindowMeans(marker: nat, end: nat, i: nat)
    requires marker < end
    ensures Start(marker) <= i < End(marker, end) <==> marker - 5 <= i < marker + 30 && i < end
  {
  }

  predicate InWindow(m: nat, end: nat, i: nat) { Start(m) <= i < End(m, end) }

  lemma {:induction false} CoveredUpTo(marks: seq<bool>, end: nat, markers: seq<nat>, i: nat)
    requires FirstMarkers(marks, end, markers) && i < Behind(markers, end) && i < |marks| && marks[i]
    ensures exists m | m in markers :: InWindow(m, end, i)
  {
    var front, m := markers[..|markers| - 1], markers[|markers| - 1];
    var from := Behind(front, end);
    if i < from {
      CoveredUpTo(marks, end, front, i);
    } else {
      assert forall j | from <= j < m :: marks[from..m][j - from] == marks[j];
      assert InWindow(m, end, i);
    }
  }

  /** Every marked line is in a block, unless there are three blocks and the line is behind the last of them. */
  lemma MarkedLinesAreShown(lines: seq<string>, end: nat, markers: seq<nat>, i: nat)
    requires i < end <= |lines| && Marked(lines[i]) && Extracted(Marks(lines), end, markers)
    ensures (exists m | m in markers :: m - 5 <= i < m + 30) || (|markers| == 3 && Behind(markers, end) <= i)
  {
    var marks := Marks(lines);
    MarkAt(lines, i);
    var from := Behind(markers, end);
    if i < from {
      CoveredUpTo(marks, end, markers, i);
      var m :| m in markers && InWindow(m, end, i);
      assert m - 5 <= i < m + 30;
    } else {
      assert marks[from..end][i - from] == marks[i];
    }
  }

  // ---------- the text of a block ----------

  /** strings.Split on one character. */
  function Split(s: string, c: char): (parts: seq<string>)
    ensures parts != []
  {
    if s == "" then [""]
    else
      var front := Split(s[..|s| - 1], c);
      if s[|s| - 1] == c then front + [""] else front[..|front| - 1] + [front[|front| - 1] + [s[|s| - 1]]]
  }

  predicate Free(line: string, c: char) { c !in line }

  lemma {:induction false} PartsHaveNo(s: string, c: char)
    ensures forall i | 0 <= i < |Split(s, c)| :: Free(Split(s, c)[i], c)
  {
    if s == "" {
    } else {
      PartsHaveNo(s[..|s| - 1], c);
    }
  }

  lemma {:induction false} SplitAppend(s: string, c: char, line: string)
    requires Free(line, c)
    ensures Split(s + [c] + line, c) == Split(s, c) + [line]
  {
    if line == "" {
      assert s + [c] + line == s + [c] && (s + [c])[..|s|] == s;
    } else {
      var front := line[..|line| - 1];
      assert (s + [c] + line)[..|s + [c] + line| - 1] == s + [c] + front;
      SplitAppend(s, c, front);
      assert front + [line[|line| - 1]] == line;
    }
  }

  lemma {:induction false} SplitLine(line: string, c: char)
    requires Free(line, c)
    ensures Split(line, c) == [line]
  {
    if line == "" {
    } else {
      SplitLine(line[..|line| - 1], c);
      assert line[..|line| - 1] + [line[|line| - 1]] == line;
    }
  }

  lemma {:induction false} SplitOfJoin(lines: seq<string>, c: char)
    requires lines != [] && forall i | 0 <= i < |lines| :: Free(lines[i], c)
    ensures Split(Join(lines, [c]), c) == lines
  {
    if |lines| == 1 {
      SplitLine(lines[0], c);
    } else {
      var front, last := lines[..|lines| - 1], lines[|lines| - 1];
      SplitOfJoin(front, c);
      assert Free(last, c);
      SplitAppend(Join(front, [c]), c, last);
      assert lines == front + [last];
    }
  }

  /** Splitting a block gives the lines of its window back, if the lines come from splitting a text. */
  lemma BlockIsItsWindow(text: string, end: nat, marker: nat)
    requires marker < end <= |Split(text, '\n')|
    ensures
      var lines := Split(text, '\n');
      Split(Block(lines, end, marker), '\n') == lines[Start(marker)..End(marker, end)]
  {
    PartsHaveNo(text, '\n');
    SplitOfJoin(Split(text, '\n')[Start(marker)..End(marker, end)], '\n');
  }
}
