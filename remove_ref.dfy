/** The reference-section detector of remove_ref.py. A text is split into lines; the first
    reference header is located; reference-like entries are counted in a window after it,
    with an early stop once the text turns back into prose; maximal runs ("clusters") of
    reference-like lines are collected over the whole text; and a fixed rule combines the
    three into the verdict "likely has references". A batch driver tallies the verdicts.

    The regular expressions are not modelled; each family of patterns is a test on one line,
    applied to exactly the text the script applies it to. */
module RemoveRef {
  import opened Outcomes
  import opened Text
  import opened Paths

  /** The three pattern families of the script. */
  datatype Patterns = Patterns(
    isHeader: string -> bool,       // some header pattern `re.match`es (lines 16-23)
    isEntry: string -> bool,        // some pattern of the after-header list `re.search`es (lines 60-69)
    isClusterEntry: string -> bool) // some pattern of the cluster list `re.search`es (lines 109-116)

  function Min(a: int, b: int): int {
    if a < b then a else b
  }

  function Max(a: int, b: int): int {
    if a < b then b else a
  }

  function Sum(xs: seq<nat>): nat {
    if xs == [] then 0 else Sum(xs[..|xs| - 1]) + xs[|xs| - 1]
  }

  /** `text.split('\n')`. */
  function SplitLines(text: string): (lines: seq<string>)
    ensures |lines| >= 1 && Join(lines, "\n") == text
    ensures forall i :: 0 <= i < |lines| ==> '\n' !in lines[i]
  {
    JoinSplit(text, "\n");
    var lines := Split(text, "\n");
    forall i, k | 0 <= i < |lines| && 0 <= k < |lines[i]| ensures lines[i][k] != '\n' {
      assert !OccursAt(lines[i], "\n", k);
      assert lines[i][k..k + 1] == [lines[i][k]];
    }
    lines
  }

  // ---------------------------------------------------------------------------------------
  // 1. The header

  /** A header line: stripped, then lower-cased, it matches a header pattern. */
  predicate IsHeaderLine(p: Patterns, line: string) {
    p.isHeader(Lower(Strip(line)))
  }

  /** The index of the first header line, or -1 when there is none. */
  function HeaderIndex(p: Patterns, lines: seq<string>): (idx: int)
    ensures -1 <= idx < |lines|
    ensures idx >= 0 ==> IsHeaderLine(p, lines[idx]) && forall k :: 0 <= k < idx ==> !IsHeaderLine(p, lines[k])
    ensures idx == -1 <==> forall k :: 0 <= k < |lines| ==> !IsHeaderLine(p, lines[k])
  {
    if lines == [] then -1
    else if IsHeaderLine(p, lines[0]) then 0
    else
      var rest := HeaderIndex(p, lines[1..]);
      assert forall k :: 1 <= k < |lines| ==> lines[k] == lines[1..][k - 1];
      if rest == -1 then -1 else rest + 1
  }

  /** The header search loop: `header_found` and `header_line_idx`. */
  method FindHeader(p: Patterns, lines: seq<string>) returns (headerFound: bool, headerLineIdx: int)
    ensures headerLineIdx == HeaderIndex(p, lines)
    ensures headerFound <==> headerLineIdx != -1
  {
    headerFound := false;
    headerLineIdx := -1;
    var i := 0;
    while i < |lines|
      invariant 0 <= i <= |lines|
      invariant !headerFound && headerLineIdx == -1
      invariant forall k :: 0 <= k < i ==> !IsHeaderLine(p, lines[k])
    {
      var lineClean := Lower(Strip(lines[i]));
      if p.isHeader(lineClean) {
        headerFound := true;
        headerLineIdx := i;
        break;
      }
      i := i + 1;
    }
  }

  // ---------------------------------------------------------------------------------------
  // Runs of marked lines

  /** The number of marked lines among lines `lo` to `hi - 1`. */
  function CountMarked(marks: seq<bool>, lo: nat, hi: nat): (n: nat)
    requires lo <= hi <= |marks|
    ensures n <= hi - lo
    decreases hi - lo
  {
    if lo == hi then 0 else CountMarked(marks, lo, hi - 1) + if marks[hi - 1] then 1 else 0
  }

  predicate AllMarked(marks: seq<bool>, a: nat, b: nat)
    requires a <= b <= |marks|
  {
    forall j :: a <= j < b ==> marks[j]
  }

  /** Lines `a` to `a + k - 1` are all marked. */
  predicate RunAt(marks: seq<bool>, a: nat, k: nat) {
    a + k <= |marks| && forall j :: a <= j < a + k ==> marks[j]
  }

  /** The length of the run of marked lines that ends at line `hi - 1` and starts at `lo` or
      later. */
  function RunBefore(marks: seq<bool>, lo: nat, hi: nat): (n: nat)
    requires lo <= hi <= |marks|
    ensures n <= CountMarked(marks, lo, hi) && lo + n <= hi
    ensures AllMarked(marks, hi - n, hi)
    decreases hi - lo
  {
    if lo == hi || !marks[hi - 1] then 0 else RunBefore(marks, lo, hi - 1) + 1
  }

  /** The longest run of consecutive marked lines among lines `lo` to `hi - 1`. */
  function LongestRun(marks: seq<bool>, lo: nat, hi: nat): (n: nat)
    requires lo <= hi <= |marks|
    ensures RunBefore(marks, lo, hi) <= n <= CountMarked(marks, lo, hi)
    decreases hi - lo
  {
    if lo == hi then 0 else Max(LongestRun(marks, lo, hi - 1), RunBefore(marks, lo, hi))
  }

  /** One more line: how the three measures move. */
  lemma CountStep(marks: seq<bool>, lo: nat, i: nat)
    requires lo <= i < |marks|
    ensures CountMarked(marks, lo, i + 1) == CountMarked(marks, lo, i) + if marks[i] then 1 else 0
    ensures RunBefore(marks, lo, i + 1) == if marks[i] then RunBefore(marks, lo, i) + 1 else 0
    ensures LongestRun(marks, lo, i + 1) == Max(LongestRun(marks, lo, i), RunBefore(marks, lo, i + 1))
  {
  }

  lemma {:induction false} RunCoversRun(marks: seq<bool>, lo: nat, hi: nat, a: nat)
    requires lo <= a <= hi <= |marks| && AllMarked(marks, a, hi)
    ensures RunBefore(marks, lo, hi) >= hi - a
    decreases hi - a
  {
    if a < hi {
      RunCoversRun(marks, lo, hi - 1, a);
    }
  }

  /** Every run of marked lines between `lo` and `hi` is at most as long as `LongestRun`. */
  lemma {:induction false} LongestRunIsLongest(marks: seq<bool>, lo: nat, hi: nat, a: nat, k: nat)
    requires lo <= a && a + k <= hi <= |marks| && AllMarked(marks, a, a + k)
    ensures k <= LongestRun(marks, lo, hi)
    decreases hi - lo
  {
    if a + k < hi {
      LongestRunIsLongest(marks, lo, hi - 1, a, k);
    } else if k > 0 {
      RunCoversRun(marks, lo, hi, a);
    }
  }

  /** Where a longest run starts: `LongestRun` is the length of an actual run. */
  function LongestRunStart(marks: seq<bool>, lo: nat, hi: nat): (a: nat)
    requires lo <= hi <= |marks|
    ensures lo <= a && a + LongestRun(marks, lo, hi) <= hi
    ensures RunAt(marks, a, LongestRun(marks, lo, hi))
    decreases hi - lo
  {
    if lo == hi then lo
    else if LongestRun(marks, lo, hi - 1) < RunBefore(marks, lo, hi) then hi - RunBefore(marks, lo, hi)
    else LongestRunStart(marks, lo, hi - 1)
  }

  // ---------------------------------------------------------------------------------------
  // 2. Entries after the header

  predicate Blank(line: string) {
    Strip(line) == []
  }

  /** An entry line of the after-header scan: its stripped text is non-empty and matches. */
  predicate IsEntryLine(p: Patterns, line: string) {
    Strip(line) != [] && p.isEntry(Strip(line))
  }

  /** A prose line of the after-header scan: its stripped text is non-empty and does not
      match. */
  predicate IsProseLine(p: Patterns, line: string) {
    Strip(line) != [] && !p.isEntry(Strip(line))
  }

  /** A line counting towards the stop streak: non-blank, and no entry pattern matches the
      line as it stands, surrounding white space included. */
  predicate IsPlainLine(p: Patterns, line: string) {
    !Blank(line) && !p.isEntry(line)
  }

  /** What the after-header scan needs to know of each line. */
  datatype ScanMarks = ScanMarks(entry: seq<bool>, prose: seq<bool>, plain: seq<bool>)

  predicate WellFormed(m: ScanMarks) {
    |m.entry| == |m.prose| == |m.plain|
  }

  function MarksOf(p: Patterns, lines: seq<string>): (m: ScanMarks)
    ensures WellFormed(m) && |m.entry| == |lines|
  {
    ScanMarks(seq(|lines|, i requires 0 <= i < |lines| => IsEntryLine(p, lines[i])),
              seq(|lines|, i requires 0 <= i < |lines| => IsProseLine(p, lines[i])),
              seq(|lines|, i requires 0 <= i < |lines| => IsPlainLine(p, lines[i])))
  }

  /** The window of three lines from `i` on, cut at the end of the text, holds three plain
      lines. */
  predicate StreakAt(plain: seq<bool>, i: nat)
    requires i <= |plain|
  {
    CountMarked(plain, i, Min(i + 3, |plain|)) >= 3
  }

  /** So lines `i`, `i + 1` and `i + 2` must all exist and be plain: near the end of the text
      the window is shorter and never stops the scan. */
  lemma StreakIsThreePlainLines(plain: seq<bool>, i: nat)
    requires i <= |plain|
    ensures StreakAt(plain, i) <==> i + 3 <= |plain| && plain[i] && plain[i + 1] && plain[i + 2]
  {
    if i + 3 <= |plain| {
      assert CountMarked(plain, i, i + 3) == CountMarked(plain, i, i + 2) + if plain[i + 2] then 1 else 0;
      assert CountMarked(plain, i, i + 2) == CountMarked(plain, i, i + 1) + if plain[i + 1] then 1 else 0;
    }
  }

  /** The scan stops at line `i`, which lies in the scanned lines from `lo` on: a prose line,
      after at least one entry, opening a window of three plain lines. */
  predicate StopsAt(m: ScanMarks, lo: nat, i: nat)
    requires WellFormed(m)
  {
    lo <= i < |m.entry| && m.prose[i] && CountMarked(m.entry, lo, i) > 0 && StreakAt(m.plain, i)
  }

  /** The line where the scan of lines `i` to `end - 1` stops, or `end` when it never does. */
  function ScanEnd(m: ScanMarks, lo: nat, end: nat, i: nat): (stop: nat)
    requires WellFormed(m) && lo <= i <= end <= |m.entry|
    ensures i <= stop <= end
    decreases end - i
  {
    if i == end then i
    else if StopsAt(m, lo, i) then i
    else ScanEnd(m, lo, end, i + 1)
  }

  /** The scan ends at the first line where the stop rule holds, or at the end. */
  lemma {:induction false} ScanEndIsFirstStop(m: ScanMarks, lo: nat, end: nat, i: nat)
    requires WellFormed(m) && lo <= i <= end <= |m.entry|
    ensures var stop := ScanEnd(m, lo, end, i);
            && (stop < end ==> StopsAt(m, lo, stop))
            && forall k :: i <= k < stop ==> !StopsAt(m, lo, k)
    decreases end - i
  {
    if i < end && !StopsAt(m, lo, i) {
      ScanEndIsFirstStop(m, lo, end, i + 1);
    }
  }

  /** The line after the header, and one past the last line the scan may look at: at most
      the 49 lines after the header. */
  function WindowEnd(lines: seq<string>, startIdx: nat): int {
    Min(startIdx + 50, |lines|)
  }

  /** The scan goes on past a line that is not prose, that comes before any entry, or
      that does not open a streak of plain lines. */
  lemma GoesOn(m: ScanMarks, lo: nat, end: nat, i: nat)
    requires WellFormed(m) && lo <= i < end <= |m.entry|
    requires !m.prose[i] || CountMarked(m.entry, lo, i) == 0 || !StreakAt(m.plain, i)
    ensures ScanEnd(m, lo, end, i) == ScanEnd(m, lo, end, i + 1)
  {
  }

  /** The scan stops at a prose line after an entry that opens a streak of plain lines. */
  lemma StopsHere(m: ScanMarks, lo: nat, end: nat, i: nat)
    requires WellFormed(m) && lo <= i < end <= |m.entry|
    requires m.prose[i] && CountMarked(m.entry, lo, i) > 0 && StreakAt(m.plain, i)
    ensures ScanEnd(m, lo, end, i) == i
  {
  }

  /** The marks of line `i`. */
  lemma MarksAt(p: Patterns, lines: seq<string>, i: nat)
    requires i < |lines|
    ensures var m := MarksOf(p, lines);
            var line := Strip(lines[i]);
            && m.entry[i] == (line != [] && p.isEntry(line))
            && m.prose[i] == (line != [] && !p.isEntry(line))
            && m.plain[i] == IsPlainLine(p, lines[i])
  {
  }

  /** The inner loop at lines 84-88: the plain lines in the window of three lines from `i`. */
  method NonRefStreak(p: Patterns, lines: seq<string>, i: nat) returns (nonRefStreak: nat)
    requires i <= |lines|
    ensures nonRefStreak == CountMarked(MarksOf(p, lines).plain, i, Min(i + 3, |lines|))
  {
    ghost var plain := MarksOf(p, lines).plain;
    nonRefStreak := 0;
    var j := i;
    while j < Min(i + 3, |lines|)
      invariant i <= j <= Min(i + 3, |lines|)
      invariant nonRefStreak == CountMarked(plain, i, j)
    {
      CountStep(plain, i, j);
      if !Blank(lines[j]) {
        if !p.isEntry(lines[j]) {
          nonRefStreak := nonRefStreak + 1;
        }
      }
      j := j + 1;
    }
  }

  /** The entry lines and their longest run after a header at `idx`, or none without one. */
  function AfterHeader(p: Patterns, lines: seq<string>, idx: int): (nat, nat)
    requires -1 <= idx < |lines|
  {
    if idx == -1 then (0, 0)
    else
      var m := MarksOf(p, lines);
      var stop := ScanEnd(m, idx + 1, WindowEnd(lines, idx), idx + 1);
      (CountMarked(m.entry, idx + 1, stop), LongestRun(m.entry, idx + 1, stop))
  }

  /** `count_reference_entries_after_header(start_idx)`: the entry lines, and the longest run
      of them, from the line after the header up to where the scan stops. */
  method CountReferenceEntriesAfterHeader(p: Patterns, lines: seq<string>, startIdx: int)
    returns (refCount: nat, maxConsecutive: nat)
    requires -1 <= startIdx < |lines|
    ensures startIdx == -1 ==> refCount == 0 && maxConsecutive == 0
    ensures startIdx >= 0 ==>
              var m := MarksOf(p, lines);
              var stop := ScanEnd(m, startIdx + 1, WindowEnd(lines, startIdx), startIdx + 1);
              refCount == CountMarked(m.entry, startIdx + 1, stop)
              && maxConsecutive == LongestRun(m.entry, startIdx + 1, stop)
    ensures maxConsecutive <= refCount <= 49
    ensures (refCount, maxConsecutive) == AfterHeader(p, lines, startIdx)
  {
    if startIdx == -1 {
      return 0, 0;
    }
    ghost var m := MarksOf(p, lines);
    var lo := startIdx + 1;
    var end := Min(startIdx + 50, |lines|);
    refCount, maxConsecutive := 0, 0;
    var consecutive := 0;
    var i := lo;
    while i < end
      invariant lo <= i <= end
      invariant ScanEnd(m, lo, end, lo) == ScanEnd(m, lo, end, i)
      invariant refCount == CountMarked(m.entry, lo, i)
      invariant consecutive == RunBefore(m.entry, lo, i)
      invariant maxConsecutive == LongestRun(m.entry, lo, i)
    {
      CountStep(m.entry, lo, i);
      var line := Strip(lines[i]);
      MarksAt(p, lines, i);
      if line == [] {
        if consecutive > 0 {
          consecutive := 0;
        }
        GoesOn(m, lo, end, i);
        i := i + 1;
        continue;
      }
      if p.isEntry(line) {
        refCount := refCount + 1;
        consecutive := consecutive + 1;
        maxConsecutive := Max(maxConsecutive, consecutive);
        GoesOn(m, lo, end, i);
      } else {
        consecutive := 0;
        if refCount > 0 {
          var nonRefStreak := NonRefStreak(p, lines, i);
          if nonRefStreak >= 3 {
            StopsHere(m, lo, end, i);
            break;
          }
        }
        GoesOn(m, lo, end, i);
      }
      i := i + 1;
    }
    assert ScanEnd(m, lo, end, lo) == i;
  }

  // ---------------------------------------------------------------------------------------
  // 3. Clusters

  /** A line of a cluster: its stripped text is non-empty and matches a cluster pattern. */
  predicate IsClusterLine(p: Patterns, line: string) {
    Strip(line) != [] && p.isClusterEntry(Strip(line))
  }

  function ClusterMarks(p: Patterns, lines: seq<string>): (m: seq<bool>)
    ensures |m| == |lines| && forall i :: 0 <= i < |lines| ==> m[i] == IsClusterLine(p, lines[i])
  {
    seq(|lines|, i requires 0 <= i < |lines| => IsClusterLine(p, lines[i]))
  }

  /** The clusters recorded so far and the length of the open run. */
  datatype ClusterScan = ClusterScan(closed: seq<nat>, current: nat)

  /** A blank line, a line that is not a cluster line and the end of the text all end the
      open run; it is recorded only when it has at least three lines. */
  function CloseRun(s: ClusterScan): ClusterScan {
    ClusterScan(if s.current >= 3 then s.closed + [s.current] else s.closed, 0)
  }

  /** The state of the cluster loop after the first `n` lines. */
  function ScanClusters(marks: seq<bool>, n: nat): (s: ClusterScan)
    requires n <= |marks|
  {
    if n == 0 then ClusterScan([], 0)
    else
      var s := ScanClusters(marks, n - 1);
      if marks[n - 1] then ClusterScan(s.closed, s.current + 1) else CloseRun(s)
  }

  /** The clusters of marked lines: the sizes of the maximal runs of three or more marked
      lines, in order. */
  function ClustersOf(marks: seq<bool>): seq<nat> {
    CloseRun(ScanClusters(marks, |marks|)).closed
  }

  /** `find_reference_clusters()` as a value. */
  function Clusters(p: Patterns, lines: seq<string>): seq<nat> {
    ClustersOf(ClusterMarks(p, lines))
  }

  lemma SumAppend(xs: seq<nat>, x: nat)
    ensures Sum(xs + [x]) == Sum(xs) + x
  {
    assert (xs + [x])[..|xs|] == xs;
  }

  /** The open run is the run of marked lines ending the prefix. */
  lemma {:induction false} OpenRun(marks: seq<bool>, n: nat)
    requires n <= |marks|
    ensures var s := ScanClusters(marks, n);
            && s.current <= n && AllMarked(marks, n - s.current, n)
            && (s.current < n ==> !marks[n - s.current - 1])
    decreases n
  {
    if n > 0 {
      OpenRun(marks, n - 1);
      var s := ScanClusters(marks, n - 1);
      if marks[n - 1] {
        forall j | n - 1 - s.current <= j < n ensures marks[j] {
          if j < n - 1 {
            assert AllMarked(marks, n - 1 - s.current, n - 1);
          }
        }
      }
    }
  }

  /** Every recorded cluster has at least three lines, and the recorded clusters and the open
      run together hold no more lines than the prefix. */
  lemma {:induction false} ClosedBounds(marks: seq<bool>, n: nat)
    requires n <= |marks|
    ensures var s := ScanClusters(marks, n);
            && (forall i :: 0 <= i < |s.closed| ==> s.closed[i] >= 3)
            && Sum(s.closed) + s.current <= n
    decreases n
  {
    if n > 0 {
      ClosedBounds(marks, n - 1);
      var s := ScanClusters(marks, n - 1);
      if !marks[n - 1] {
        SumAppend(s.closed, s.current);
      }
    }
  }

  /** Both of the above. */
  lemma ScanClustersBounds(marks: seq<bool>, n: nat)
    requires n <= |marks|
    ensures var s := ScanClusters(marks, n);
            && (forall i :: 0 <= i < |s.closed| ==> s.closed[i] >= 3)
            && Sum(s.closed) + s.current <= n
            && s.current <= n && AllMarked(marks, n - s.current, n)
            && (s.current < n ==> !marks[n - s.current - 1])
  {
    OpenRun(marks, n);
    ClosedBounds(marks, n);
  }

  /** Every cluster has at least three lines, and the clusters hold no more lines than the
      text. */
  lemma ClustersBounds(marks: seq<bool>)
    ensures var clusters := ClustersOf(marks);
            (forall i :: 0 <= i < |clusters| ==> clusters[i] >= 3) && Sum(clusters) <= |marks|
  {
    var s := ScanClusters(marks, |marks|);
    ScanClustersBounds(marks, |marks|);
    SumAppend(s.closed, s.current);
  }

  /** Lines `a` to `a + k - 1` are marked, and the lines around them are not. */
  predicate MaximalRun(marks: seq<bool>, a: nat, k: nat) {
    && a + k <= |marks|
    && AllMarked(marks, a, a + k)
    && (a == 0 || !marks[a - 1])
    && (a + k == |marks| || !marks[a + k])
  }

  /** Recorded clusters are never taken back. */
  lemma {:induction false} ClosedGrows(marks: seq<bool>, m: nat, n: nat)
    requires m <= n <= |marks|
    ensures ScanClusters(marks, m).closed <= ScanClusters(marks, n).closed
    decreases n - m
  {
    if m < n {
      ClosedGrows(marks, m, n - 1);
    }
  }

  /** Inside a run that starts at `a`, the open run counts the lines read so far. */
  lemma {:induction false} RunIsOpen(marks: seq<bool>, a: nat, j: nat)
    requires a + j <= |marks| && AllMarked(marks, a, a + j)
    requires a == 0 || !marks[a - 1]
    ensures ScanClusters(marks, a + j).current == j
    ensures ScanClusters(marks, a + j).closed == ScanClusters(marks, a).closed
    decreases j
  {
    if j > 0 {
      RunIsOpen(marks, a, j - 1);
    }
  }

  /** Every maximal run of at least three cluster lines is recorded. */
  lemma MaximalRunIsCluster(marks: seq<bool>, a: nat, k: nat)
    requires k >= 3 && MaximalRun(marks, a, k)
    ensures k in ClustersOf(marks)
  {
    RunIsOpen(marks, a, k);
    var s := ScanClusters(marks, a + k);
    var u := ScanClusters(marks, |marks|);
    if a + k == |marks| {
      assert CloseRun(s).closed == s.closed + [k];
    } else {
      var t := ScanClusters(marks, a + k + 1);
      assert t.closed == s.closed + [k];
      ClosedGrows(marks, a + k + 1, |marks|);
      assert k in t.closed;
      assert k in u.closed;
    }
    assert u.closed <= CloseRun(u).closed;
  }

  /** Where each recorded cluster starts, in the order the clusters were recorded. */
  function ClusterStarts(marks: seq<bool>, n: nat): seq<nat>
    requires n <= |marks|
  {
    if n == 0 then []
    else
      var s := ScanClusters(marks, n - 1);
      var starts := ClusterStarts(marks, n - 1);
      if !marks[n - 1] && s.current >= 3 && s.current <= n - 1 then starts + [n - 1 - s.current] else starts
  }

  /** Every recorded cluster is a maximal run of that many marked lines, at its start. */
  lemma {:induction false} ClosedAreMaximalRuns(marks: seq<bool>, n: nat)
    requires n <= |marks|
    ensures var closed := ScanClusters(marks, n).closed;
            var starts := ClusterStarts(marks, n);
            |starts| == |closed| && forall i :: 0 <= i < |closed| ==> MaximalRun(marks, starts[i], closed[i])
    decreases n
  {
    if n > 0 {
      ClosedAreMaximalRuns(marks, n - 1);
      var s := ScanClusters(marks, n - 1);
      if !marks[n - 1] && s.current >= 3 {
        OpenRun(marks, n - 1);
        assert MaximalRun(marks, n - 1 - s.current, s.current);
        AppendRun(marks, s.closed, ClusterStarts(marks, n - 1), n - 1 - s.current, s.current);
      }
    }
  }

  lemma AppendRun(marks: seq<bool>, closed: seq<nat>, starts: seq<nat>, a: nat, k: nat)
    requires |starts| == |closed| && forall i :: 0 <= i < |closed| ==> MaximalRun(marks, starts[i], closed[i])
    requires MaximalRun(marks, a, k)
    ensures forall i :: 0 <= i < |closed| + 1 ==> MaximalRun(marks, (starts + [a])[i], (closed + [k])[i])
  {
  }

  /** Where each cluster of `ClustersOf(marks)` starts. */
  function StartsOf(marks: seq<bool>): seq<nat> {
    var s := ScanClusters(marks, |marks|);
    ClusterStarts(marks, |marks|)
      + if s.current >= 3 && s.current <= |marks| then [|marks| - s.current] else []
  }

  /** Every cluster is a maximal run of that many marked lines. */
  lemma ClustersAreMaximalRuns(marks: seq<bool>)
    ensures var clusters := ClustersOf(marks);
            |StartsOf(marks)| == |clusters|
            && forall i :: 0 <= i < |clusters| ==> MaximalRun(marks, StartsOf(marks)[i], clusters[i])
  {
    var s := ScanClusters(marks, |marks|);
    ClosedAreMaximalRuns(marks, |marks|);
    ScanClustersBounds(marks, |marks|);
    if s.current >= 3 {
      assert MaximalRun(marks, |marks| - s.current, s.current);
    }
  }

  /** The cluster loop of `find_reference_clusters`. */
  method FindReferenceClusters(p: Patterns, lines: seq<string>) returns (clusters: seq<nat>)
    ensures clusters == Clusters(p, lines)
  {
    ghost var marks := ClusterMarks(p, lines);
    clusters := [];
    var currentCluster := 0;
    var i := 0;
    while i < |lines|
      invariant 0 <= i <= |lines|
      invariant ScanClusters(marks, i) == ClusterScan(clusters, currentCluster)
    {
      var line := Strip(lines[i]);
      ghost var next := ScanClusters(marks, i + 1);
      assert marks[i] == (line != [] && p.isClusterEntry(line));
      if line == [] {
        assert next == CloseRun(ClusterScan(clusters, currentCluster));
        if currentCluster > 0 {
          if currentCluster >= 3 {
            clusters := clusters + [currentCluster];
          }
          currentCluster := 0;
        }
        i := i + 1;
        continue;
      }
      var isReference := p.isClusterEntry(line);
      if isReference {
        assert next == ClusterScan(clusters, currentCluster + 1);
        currentCluster := currentCluster + 1;
      } else {
        assert next == CloseRun(ClusterScan(clusters, currentCluster));
        if currentCluster >= 3 {
          clusters := clusters + [currentCluster];
        }
        currentCluster := 0;
      }
      i := i + 1;
    }
    if currentCluster >= 3 {
      clusters := clusters + [currentCluster];
    }
  }

  // ---------------------------------------------------------------------------------------
  // 4. The verdict

  /** `max(clusters) if clusters else 0`. */
  function Largest(clusters: seq<nat>): (m: nat)
    ensures forall i :: 0 <= i < |clusters| ==> clusters[i] <= m
    ensures clusters == [] ==> m == 0
    ensures clusters != [] ==> m in clusters
  {
    if clusters == [] then 0
    else
      var rest := Largest(clusters[..|clusters| - 1]);
      assert forall i :: 0 <= i < |clusters| - 1 ==> clusters[..|clusters| - 1][i] == clusters[i];
      Max(rest, clusters[|clusters| - 1])
  }

  predicate LikelyHasReferences(headerFound: bool, refsAfterHeader: nat, clusters: seq<nat>) {
    || (headerFound && refsAfterHeader >= 3)
    || Largest(clusters) >= 5
    || (|clusters| > 0 && Sum(clusters) >= 8)
  }

  lemma {:induction false} SumAtLeast(xs: seq<nat>, m: nat)
    requires forall i :: 0 <= i < |xs| ==> xs[i] >= m
    ensures Sum(xs) >= m * |xs|
  {
    if xs != [] {
      SumAtLeast(xs[..|xs| - 1], m);
    }
  }

  /** Since every cluster has at least three lines, three clusters always flag a text,
      with or without a header. */
  lemma ThreeClustersSuffice(p: Patterns, lines: seq<string>, headerFound: bool, refsAfterHeader: nat)
    requires |Clusters(p, lines)| >= 3
    ensures LikelyHasReferences(headerFound, refsAfterHeader, Clusters(p, lines))
  {
    ClustersBounds(ClusterMarks(p, lines));
    SumAtLeast(Clusters(p, lines), 3);
  }

  /** What `check_for_references` returns: the analysis, or the error that stopped it. */
  datatype Report =
    | Analysis(file: string, hasReferenceHeader: bool, refsAfterHeader: nat, maxConsecutiveRefs: nat,
               referenceClusters: seq<nat>, largestCluster: nat, totalClusteredRefs: nat,
               likelyHasReferences: bool)
    | ReadError(file: string, error: string)

  /** The report for a text file whose contents are `text`. */
  function Analyse(p: Patterns, name: string, text: string): (r: Report)
    ensures r.Analysis? && r.file == name
  {
    var lines := SplitLines(text);
    var idx := HeaderIndex(p, lines);
    var clusters := Clusters(p, lines);
    var (refs, maxRun) := AfterHeader(p, lines, idx);
    Analysis(name, idx != -1, refs, maxRun, clusters, Largest(clusters), Sum(clusters),
             LikelyHasReferences(idx != -1, refs, clusters))
  }

  /** The fields of a report: the header flag says whether some line is a header; at most 49
      entries are counted after it, none without one, and the longest run never exceeds
      the count; the clusters are those of the whole text, with their largest size and
      their total; and the verdict is the combined rule. */
  lemma ReportFields(p: Patterns, name: string, text: string)
    ensures var r := Analyse(p, name, text);
            var lines := SplitLines(text);
            && (r.hasReferenceHeader <==> exists k :: 0 <= k < |lines| && IsHeaderLine(p, lines[k]))
            && r.maxConsecutiveRefs <= r.refsAfterHeader <= 49
            && (!r.hasReferenceHeader ==> r.refsAfterHeader == 0 && r.maxConsecutiveRefs == 0)
            && r.referenceClusters == Clusters(p, lines)
            && r.largestCluster == Largest(r.referenceClusters)
            && r.totalClusteredRefs == Sum(r.referenceClusters) <= |lines|
            && (r.likelyHasReferences <==>
                  LikelyHasReferences(r.hasReferenceHeader, r.refsAfterHeader, r.referenceClusters))
  {
    var lines := SplitLines(text);
    ClustersBounds(ClusterMarks(p, lines));
    var idx := HeaderIndex(p, lines);
    if idx != -1 {
      var m := MarksOf(p, lines);
      var stop := ScanEnd(m, idx + 1, WindowEnd(lines, idx), idx + 1);
      assert CountMarked(m.entry, idx + 1, stop) <= stop - (idx + 1) <= 49;
    }
  }

  /** `check_for_references(txt_path)` as a value. */
  function Checked(p: Patterns, f: TextFile): (r: Report)
    ensures r.file == f.name
    ensures r.ReadError? <==> f.content.Fails?
  {
    match f.content
    case Fails(e) => ReadError(f.name, e)
    case Ok(text) => Analyse(p, f.name, text)
  }

  /** The body of the `try` block of `check_for_references`, once the file has been read. */
  method AnalyseText(p: Patterns, name: string, text: string) returns (r: Report)
    ensures r == Analyse(p, name, text)
  {
    var lines := SplitLines(text);
    var headerFound, headerLineIdx := FindHeader(p, lines);
    var refCountAfterHeader, maxConsecutiveAfterHeader :=
      CountReferenceEntriesAfterHeader(p, lines, headerLineIdx);
    var referenceClusters := FindReferenceClusters(p, lines);
    var largestCluster := Largest(referenceClusters);
    var likely := LikelyHasReferences(headerFound, refCountAfterHeader, referenceClusters);
    r := Analysis(name, headerFound, refCountAfterHeader, maxConsecutiveAfterHeader,
                  referenceClusters, largestCluster, Sum(referenceClusters), likely);
  }

  /** `check_for_references(txt_path)`: a file that cannot be read gives its error. */
  method CheckForReferences(p: Patterns, f: TextFile) returns (r: Report)
    ensures r == Checked(p, f)
  {
    if f.content.Fails? {
      return ReadError(f.name, f.content.cause);
    }
    r := AnalyseText(p, f.name, f.content.value);
  }

  // ---------------------------------------------------------------------------------------
  // 5. The batch

  predicate IsFlagged(r: Report) {
    r.Analysis? && r.likelyHasReferences
  }

  /** The reports flagged as having references, in order. */
  function Flagged(results: seq<Report>): (rs: seq<Report>)
    ensures |rs| <= |results|
    ensures forall r :: r in rs <==> r in results && IsFlagged(r)
  {
    if results == [] then []
    else Flagged(results[..|results| - 1]) + if IsFlagged(results[|results| - 1]) then [results[|results| - 1]] else []
  }

  /** `sum(1 for r in results if 'error' in r)`. */
  function Errors(results: seq<Report>): (n: nat)
    ensures n <= |results|
  {
    if results == [] then 0
    else Errors(results[..|results| - 1]) + if results[|results| - 1].ReadError? then 1 else 0
  }

  /** The reports that were analysed and not flagged. */
  function Unflagged(results: seq<Report>): (n: nat) {
    if results == [] then 0
    else Unflagged(results[..|results| - 1])
         + if results[|results| - 1].Analysis? && !results[|results| - 1].likelyHasReferences then 1 else 0
  }

  /** The printed "without reference sections" figure is never negative: it counts exactly the
      analysed files that were not flagged, an error report never being flagged. */
  lemma {:induction false} TallyAddsUp(results: seq<Report>)
    ensures |results| - |Flagged(results)| - Errors(results) == Unflagged(results)
  {
    if results != [] {
      TallyAddsUp(results[..|results| - 1]);
    }
  }

  datatype Tally = Tally(total: nat, withReferences: nat, withoutReferences: int, withErrors: nat)

  /** What `analyze_reference_sections` produces: nothing when the walk finds no text file. */
  datatype Outcome = NoTextFiles | Analysed(results: seq<Report>, flagged: seq<Report>, tally: Tally)

  lemma FlaggedStep(results: seq<Report>, r: Report)
    ensures Flagged(results + [r]) == Flagged(results) + if IsFlagged(r) then [r] else []
  {
    assert (results + [r])[..|results|] == results;
  }

  lemma AppendChecked(p: Patterns, results: seq<Report>, files: seq<TextFile>, r: Report)
    requires |results| < |files| && forall k :: 0 <= k < |results| ==> results[k] == Checked(p, files[k])
    requires r == Checked(p, files[|results|])
    ensures forall k :: 0 <= k <= |results| ==> (results + [r])[k] == Checked(p, files[k])
  {
  }

  /** The loop of `analyze_reference_sections`: every file is checked, and the flagged
      reports are collected on the way. */
  method CheckAll(p: Patterns, files: seq<TextFile>) returns (results: seq<Report>, filesWithReferences: seq<Report>)
    ensures |results| == |files| && forall k :: 0 <= k < |files| ==> results[k] == Checked(p, files[k])
    ensures filesWithReferences == Flagged(results)
  {
    results := [];
    filesWithReferences := [];
    for i := 0 to |files|
      invariant |results| == i
      invariant forall k :: 0 <= k < i ==> results[k] == Checked(p, files[k])
      invariant filesWithReferences == Flagged(results)
    {
      var result := CheckForReferences(p, files[i]);
      FlaggedStep(results, result);
      AppendChecked(p, results, files, result);
      results := results + [result];
      if result.Analysis? && result.likelyHasReferences {
        filesWithReferences := filesWithReferences + [result];
      }
    }
  }

  /** `analyze_reference_sections(folder_path)`, given the text files of the walk. */
  method AnalyzeReferenceSections(p: Patterns, files: seq<TextFile>) returns (o: Outcome)
    ensures o.NoTextFiles? <==> files == []
    ensures o.Analysed? ==>
              && |o.results| == |files|
              && (forall i :: 0 <= i < |files| ==> o.results[i] == Checked(p, files[i]))
              && o.flagged == Flagged(o.results)
              && o.tally == Tally(|files|, |o.flagged|, Unflagged(o.results), Errors(o.results))
              && o.tally.withoutReferences == o.tally.total - o.tally.withReferences - o.tally.withErrors
  {
    if files == [] {
      return NoTextFiles;
    }
    var results, filesWithReferences := CheckAll(p, files);
    var totalFiles := |results|;
    var filesWithRefsCount := |filesWithReferences|;
    var filesWithErrors := Errors(results);
    TallyAddsUp(results);
    o := Analysed(results, filesWithReferences,
                  Tally(totalFiles, filesWithRefsCount, totalFiles - filesWithRefsCount - filesWithErrors, filesWithErrors));
  }
}
