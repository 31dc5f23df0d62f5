/** Planning the chunks of a parallel read. */
module SplitPoints {
  import opened Wrappers

  const MAX_SPLIT_CHUNKS: nat := 1024
  const USIZE_MAX: nat := 0xFFFF_FFFF_FFFF_FFFF

  datatype SplitMode = Parallel | Streaming

  function Min(a: nat, b: nat): nat { if a <= b then a else b }

  function Max(a: nat, b: nat): nat { if a <= b then b else a }

  /** At least one chunk a thread unless that passes the cap, and never more than the cap. */
  function PlanChunkCount(bytes: nat, threads: nat, mode: SplitMode, minChunkBytes: nat): (n: nat)
    ensures Min(threads, MAX_SPLIT_CHUNKS) <= n <= MAX_SPLIT_CHUNKS
    ensures n > threads ==> n * Max(minChunkBytes, 1) <= bytes
  {
    var bySize := bytes / Max(minChunkBytes, 1);
    var factor := if mode.Parallel? then 16 else 8;
    var n := Min(Max(Min(bySize, Min(factor * threads, USIZE_MAX)), threads), MAX_SPLIT_CHUNKS);
    FloorHolds(bytes, Max(minChunkBytes, 1), n);
    n
  }

  /** The count is the largest up to the cap that is no more than the threads or else keeps the
      size floor and gives each thread at most 16 chunks, or 8 for a stream. */
  lemma CountExact(bytes: nat, threads: nat, mode: SplitMode, minChunkBytes: nat, k: nat)
    ensures var floor := if minChunkBytes == 0 then 1 else minChunkBytes;
            k <= PlanChunkCount(bytes, threads, mode, minChunkBytes) <==>
            k <= 1024 && (k <= threads || (k * floor <= bytes && k <= threads * if mode.Parallel? then 16 else 8))
  {
    QuotientBound(bytes, Max(minChunkBytes, 1), k);
  }

  lemma QuotientBound(bytes: nat, floor: nat, k: nat)
    requires floor > 0
    ensures k <= bytes / floor <==> k * floor <= bytes
  {
    FloorHolds(bytes, floor, k);
    if k > bytes / floor {
      assert k * floor >= (bytes / floor + 1) * floor == bytes / floor * floor + floor > bytes;
    }
  }

  lemma FloorHolds(bytes: nat, floor: nat, n: nat)
    requires floor > 0
    ensures n <= bytes / floor ==> n * floor <= bytes
  {
    if n <= bytes / floor {
      assert n * floor <= bytes / floor * floor;
    }
  }

  // ---------------------------------------------------------------- skip regions

  datatype SkipRegionFinder = SkipRegionFinder(openers: seq<string>, closerFor: string -> string, window: nat)

  predicate OccursAt(s: string, needle: string, i: nat) {
    i + |needle| <= |s| && s[i..i + |needle|] == needle
  }

  /** The text from `i` on begins with the needle. */
  lemma OccursMeans(s: string, needle: string, i: nat)
    ensures OccursAt(s, needle, i) <==> i <= |s| && needle <= s[i..]
  {
    if i + |needle| <= |s| { assert s[i..][..|needle|] == s[i..i + |needle|]; }
  }

  /** `memmem::find` in `s[from..]`, as a position of `s`. */
  function Find(s: string, needle: string, from: nat): (r: Option<nat>)
    requires from <= |s|
    ensures match r
            case None => forall i :: from <= i ==> !OccursAt(s, needle, i)
            case Some(p) => from <= p && OccursAt(s, needle, p)
                            && forall i :: from <= i < p ==> !OccursAt(s, needle, i)
    decreases |s| - from
  {
    if OccursAt(s, needle, from) then Some(from)
    else if from == |s| then None
    else Find(s, needle, from + 1)
  }

  /** The opener at `i` ends by the end of `s`, and no closer follows it there. An opener that
      reaches the very end counts as open. */
  ghost predicate Unclosed(s: string, opener: string, closer: string, i: nat) {
    && OccursAt(s, opener, i)
    && (i + |opener| == |s| || forall j :: i + |opener| <= j ==> !OccursAt(s, closer, j))
  }

  function WindowStart(at: nat, window: nat): nat { if at <= window then 0 else at - window }

  /** Some opener within the window before `at` is still open there. */
  ghost predicate InRegion(s: string, at: nat, finder: SkipRegionFinder) {
    && at <= |s|
    && exists k, i: nat :: 0 <= k < |finder.openers| && at <= i + finder.window
                      && Unclosed(s[..at], finder.openers[k], finder.closerFor(finder.openers[k]), i)
  }

  lemma ShiftOccurs(s: string, needle: string, start: nat, j: nat)
    requires start <= j && start <= |s|
    ensures OccursAt(s[start..], needle, j - start) <==> OccursAt(s, needle, j)
  {
    if j + |needle| <= |s| {
      assert s[start..][j - start..j - start + |needle|] == s[j..j + |needle|];
    }
  }

  /** The test made at one opener: is there a closer in the text after it? */
  lemma ClosedAfter(s: string, opener: string, closer: string, i: nat)
    requires OccursAt(s, opener, i)
    ensures Unclosed(s, opener, closer, i) <==>
            i + |opener| >= |s| || Find(s[i + |opener|..], closer, 0).None?
  {
    var start := i + |opener|;
    var found := Find(s[start..], closer, 0);
    if found.Some? {
      ShiftOccurs(s, closer, start, start + found.value);
    } else {
      forall j | start <= j ensures !OccursAt(s, closer, j) {
        ShiftOccurs(s, closer, start, j);
        assert !OccursAt(s[start..], closer, j - start);
      }
    }
  }

  method OpenSince(scan: string, opener: string, closer: string, start: nat) returns (open: bool)
    requires start <= |scan|
    ensures open == exists i :: start <= i && Unclosed(scan, opener, closer, i)
  {
    var search := start;
    while true
      invariant start <= search <= |scan|
      invariant forall i :: start <= i < search ==> !Unclosed(scan, opener, closer, i)
      decreases |scan| - search
    {
      var found := Find(scan, opener, search);
      if found.None? { return false; }
      ClosedAfter(scan, opener, closer, found.value);
      var closerStart := found.value + |opener|;
      if closerStart >= |scan| || Find(scan[closerStart..], closer, 0).None? { return true; }
      search := found.value + 1;
    }
  }

  /** `in_skip_region`. */
  method InSkipRegion(s: string, at: nat, finder: SkipRegionFinder) returns (inside: bool)
    ensures inside == InRegion(s, at, finder)
  {
    if at > |s| || finder.openers == [] { return false; }
    var start := WindowStart(at, finder.window);
    for k := 0 to |finder.openers|
      invariant forall j, i: nat :: 0 <= j < k && at <= i + finder.window ==>
                  !Unclosed(s[..at], finder.openers[j], finder.closerFor(finder.openers[j]), i)
    {
      var open := OpenSince(s[..at], finder.openers[k], finder.closerFor(finder.openers[k]), start);
      if open { return true; }
    }
    return false;
  }

  // ---------------------------------------------------------------- split points

  predicate Ascending(points: seq<nat>) {
    forall i, j :: 0 <= i < j < |points| ==> points[i] < points[j]
  }

  predicate Sorted(points: seq<nat>) {
    forall i, j :: 0 <= i < j < |points| ==> points[i] <= points[j]
  }

  function Insert(x: nat, points: seq<nat>): seq<nat> {
    if points == [] || x <= points[0] then [x] + points else [points[0]] + Insert(x, points[1..])
  }

  function Sort(points: seq<nat>): seq<nat> {
    if points == [] then [] else Insert(points[0], Sort(points[1..]))
  }

  lemma PrependSorted(x: nat, points: seq<nat>)
    requires Sorted(points) && forall y :: y in points ==> x <= y
    ensures Sorted([x] + points)
  {
    assert forall k :: 0 <= k < |points| ==> points[k] in points;
  }

  lemma PrependAscending(x: nat, points: seq<nat>)
    requires Ascending(points) && forall y :: y in points ==> x < y
    ensures Ascending([x] + points)
  {
    assert forall k :: 0 <= k < |points| ==> points[k] in points;
  }

  lemma {:induction false} InsertKeeps(x: nat, points: seq<nat>)
    requires Sorted(points)
    ensures Sorted(Insert(x, points)) && forall y :: y in Insert(x, points) <==> y == x || y in points
  {
    if points != [] && x > points[0] {
      var tail := points[1..];
      InsertKeeps(x, tail);
      assert forall y :: y in tail ==> points[0] <= y;
      PrependSorted(points[0], Insert(x, tail));
    }
  }

  lemma {:induction false} SortSorts(points: seq<nat>)
    ensures Sorted(Sort(points)) && forall y :: y in Sort(points) <==> y in points
  {
    if points != [] {
      SortSorts(points[1..]);
      InsertKeeps(points[0], Sort(points[1..]));
    }
  }

  /** `Vec::dedup`, then the points past 0. */
  method DedupPositive(points: seq<nat>) returns (kept: seq<nat>)
    requires Sorted(points)
    ensures Ascending(kept) && forall y: nat :: y in kept <==> y in points && y > 0
  {
    kept := [];
    for i := 0 to |points|
      invariant Ascending(kept)
      invariant forall y :: y in kept <==> y in points[..i] && y > 0
      invariant kept != [] ==> i > 0 && kept[|kept| - 1] <= points[i - 1]
    {
      if points[i] > 0 && (i == 0 || points[i] != points[i - 1]) {
        kept := kept + [points[i]];
      }
      assert points[..i + 1] == points[..i] + [points[i]];
      assert i > 0 ==> points[i - 1] in points[..i];
    }
    assert points[..|points|] == points;
  }

  type Splitter = (string, nat) -> Option<nat>

  /** What the splitter gives for the nominal offset of chunk `i`, if that is no skip region. */
  ghost function Candidate(s: string, i: nat, n: nat, next: Splitter, skip: Option<SkipRegionFinder>): Option<nat>
    requires n > 0
  {
    var pos := next(s, |s| / n * i);
    if pos.Some? && skip.Some? && InRegion(s, pos.value, skip.value) then None else pos
  }

  ghost predicate IsCandidate(s: string, p: nat, n: nat, next: Splitter, skip: Option<SkipRegionFinder>)
    requires n > 0
  {
    exists i :: 1 <= i < n && Candidate(s, i, n, next, skip) == Some(p)
  }

  /** The points that the plan must consist of: both ends and the accepted candidates. */
  ghost predicate Planned(s: string, points: seq<nat>, n: nat, next: Splitter, skip: Option<SkipRegionFinder>)
    requires n > 0
  {
    && Ascending(points)
    && forall p :: p in points <==> p == 0 || p == |s| || IsCandidate(s, p, n, next, skip)
  }

  /** The splitter stays within its input. */
  ghost predicate Bounded(s: string, next: Splitter) {
    forall from :: next(s, from).Some? ==> next(s, from).value <= |s|
  }

  lemma CandidatesFit(s: string, inner: seq<nat>, n: nat, next: Splitter, skip: Option<SkipRegionFinder>)
    requires n > 0 && Bounded(s, next)
    requires forall p :: p in inner ==> IsCandidate(s, p, n, next, skip)
    ensures forall p :: p in inner ==> p <= |s|
  {
    forall p | p in inner ensures p <= |s| { var i := CandidateSource(s, p, n, next, skip); }
  }

  /** The chunk for whose nominal offset the splitter gave the candidate. */
  lemma CandidateSource(s: string, p: nat, n: nat, next: Splitter, skip: Option<SkipRegionFinder>) returns (i: nat)
    requires n > 0 && IsCandidate(s, p, n, next, skip)
    ensures 0 < i < n && next(s, |s| / n * i) == Some(p) && (skip.Some? ==> !InRegion(s, p, skip.value))
  {
    i :| 1 <= i < n && Candidate(s, i, n, next, skip) == Some(p);
  }

  method Candidates(s: string, n: nat, next: Splitter, skip: Option<SkipRegionFinder>) returns (points: seq<nat>)
    requires n > 0
    ensures forall p :: p in points <==> IsCandidate(s, p, n, next, skip)
  {
    points := [];
    for i := 1 to n
      invariant forall p :: p in points <==> exists j :: 1 <= j < i && Candidate(s, j, n, next, skip) == Some(p)
    {
      var pos := next(s, |s| / n * i);
      if pos.Some? {
        var rejected := false;
        if skip.Some? { rejected := InSkipRegion(s, pos.value, skip.value); }
        if !rejected { points := points + [pos.value]; }
      }
      assert Candidate(s, i, n, next, skip) == Candidate(s, i, n, next, skip);
    }
  }

  /** Put both ends around ascending points past 0. */
  method AddEnds(inner: seq<nat>, len: nat) returns (points: seq<nat>)
    requires Ascending(inner) && len > 0 && forall p :: p in inner ==> 0 < p <= len
    ensures Ascending(points) && forall p: nat :: p in points <==> p == 0 || p == len || p in inner
  {
    points := [0] + inner;
    PrependAscending(0, inner);
    var last := points[|points| - 1];
    assert last in points;
    if last != len {
      points := points + [len];
    }
  }

  /** What `default_find_split_points` must answer. */
  ghost predicate PlanFor(s: string, points: seq<nat>, next: Splitter, skip: Option<SkipRegionFinder>, maxChunks: nat,
                          minChunkBytes: nat)
  {
    if maxChunks <= 1 || s == "" then points == [0, |s|]
    else Planned(s, points, PlanChunkCount(|s|, maxChunks, Parallel, minChunkBytes), next, skip)
  }

  /** A plan: from 0 to the length, strictly ascending; or the one plan of an empty input. */
  predicate Plan(points: seq<nat>, len: nat) {
    && |points| >= 2 && points[0] == 0 && points[|points| - 1] == len
    && (Ascending(points) || (len == 0 && points == [0, 0]))
  }

  lemma EndsOf(points: seq<nat>, len: nat)
    requires Ascending(points) && 0 in points && len in points && len > 0
    requires forall k :: 0 <= k < |points| ==> points[k] <= len
    ensures Plan(points, len)
  {
  }

  /** What the planner finds is a plan. */
  lemma PlannedIsPlan(s: string, points: seq<nat>, n: nat, next: Splitter, skip: Option<SkipRegionFinder>)
    requires n > 0 && s != "" && Bounded(s, next) && Planned(s, points, n, next, skip)
    ensures Plan(points, |s|)
  {
    forall k | 0 <= k < |points| ensures points[k] <= |s| {
      assert points[k] in points;
      if IsCandidate(s, points[k], n, next, skip) {
        var i := CandidateSource(s, points[k], n, next, skip);
      }
    }
    EndsOf(points, |s|);
  }

  /** A point strictly inside a plan for `n` chunks is the splitter's answer for one of the `n - 1`
      offsets that lie a whole `n`th apart, and in no region to skip. */
  lemma PointsAre(s: string, points: seq<nat>, n: nat, next: Splitter, skip: Option<SkipRegionFinder>, k: nat)
    returns (i: nat)
    requires n > 0 && Planned(s, points, n, next, skip) && Plan(points, |s|)
    requires 0 < k < |points| - 1
    ensures 0 < i < n && next(s, |s| / n * i) == Some(points[k])
    ensures skip.Some? ==> !InRegion(s, points[k], skip.value)
  {
    assert points[k] in points && points[k] > points[0] && points[k] < points[|points| - 1];
    i := CandidateSource(s, points[k], n, next, skip);
  }

  /** A point strictly inside a plan came from the splitter. */
  lemma InteriorFromSplitter(s: string, points: seq<nat>, next: Splitter, skip: Option<SkipRegionFinder>,
                             maxChunks: nat, minChunkBytes: nat, k: nat) returns (from: nat)
    requires PlanFor(s, points, next, skip, maxChunks, minChunkBytes) && Plan(points, |s|)
    requires 0 < k < |points| - 1
    ensures next(s, from) == Some(points[k])
  {
    from := Inside(s, points, PlanChunkCount(|s|, maxChunks, Parallel, minChunkBytes), next, skip, k);
  }

  lemma Inside(s: string, points: seq<nat>, n: nat, next: Splitter, skip: Option<SkipRegionFinder>, k: nat)
    returns (from: nat)
    requires n > 0 && Planned(s, points, n, next, skip) && Plan(points, |s|)
    requires 0 < k < |points| - 1
    ensures next(s, from) == Some(points[k])
  {
    var i := PointsAre(s, points, n, next, skip, k);
    from := |s| / n * i;
  }

  /** Each of those answers that is in no region to skip is a point of the plan. */
  lemma AnswersTaken(s: string, points: seq<nat>, n: nat, next: Splitter, skip: Option<SkipRegionFinder>, i: nat,
                     p: nat)
    requires 0 < i < n && Planned(s, points, n, next, skip) && next(s, |s| / n * i) == Some(p)
    requires skip.Some? ==> !InRegion(s, p, skip.value)
    ensures p in points
  {
    assert Candidate(s, i, n, next, skip) == Some(p);
  }

  /** The planner's answer is a plan. */
  lemma PlanForIsPlan(s: string, points: seq<nat>, next: Splitter, skip: Option<SkipRegionFinder>, maxChunks: nat,
                      minChunkBytes: nat)
    requires Bounded(s, next) && PlanFor(s, points, next, skip, maxChunks, minChunkBytes)
    ensures Plan(points, |s|)
  {
    if maxChunks > 1 && s != "" {
      PlannedIsPlan(s, points, PlanChunkCount(|s|, maxChunks, Parallel, minChunkBytes), next, skip);
    }
  }

  /** `default_find_split_points`. */
  method FindSplitPoints(s: string, next: Splitter, skip: Option<SkipRegionFinder>, maxChunks: nat, minChunkBytes: nat)
    returns (points: seq<nat>)
    requires Bounded(s, next)
    ensures PlanFor(s, points, next, skip, maxChunks, minChunkBytes) && Plan(points, |s|)
  {
    if maxChunks <= 1 || s == "" { return [0, |s|]; }
    var n := PlanChunkCount(|s|, maxChunks, Parallel, minChunkBytes);
    var candidates := Candidates(s, n, next, skip);
    SortSorts(candidates);
    var inner := DedupPositive(Sort(candidates));
    CandidatesFit(s, inner, n, next, skip);
    points := AddEnds(inner, |s|);
    PlannedIsPlan(s, points, n, next, skip);
  }

  // ---------------------------------------------------------------- ranges

  datatype Range = Range(start: nat, end: nat)

  function Windows(points: seq<nat>): seq<Range> {
    if |points| < 2 then []
    else (if points[0] < points[1] then [Range(points[0], points[1])] else []) + Windows(points[1..])
  }

  /** `split_points_to_ranges`. */
  function Ranges(points: seq<nat>, len: nat): seq<Range> {
    if |points| < 2 then [Range(0, len)] else Windows(points)
  }

  /** The slices one after another. */
  function Pieces(s: string, ranges: seq<Range>): string
    requires forall r :: r in ranges ==> r.start <= r.end <= |s|
  {
    if ranges == [] then "" else s[ranges[0].start..ranges[0].end] + Pieces(s, ranges[1..])
  }

  /** Each range starts where the one before it ends. */
  ghost predicate Contiguous(ranges: seq<Range>) {
    forall k, m :: 0 <= k && m == k + 1 && m < |ranges| ==> ranges[k].end == ranges[m].start
  }

  lemma {:induction false} AscendingWindows(points: seq<nat>)
    requires |points| >= 1 && Ascending(points)
    ensures |Windows(points)| == |points| - 1
    ensures forall k :: 0 <= k < |points| - 1 ==> Windows(points)[k] == Range(points[k], points[k + 1])
    ensures Contiguous(Windows(points))
  {
    if |points| >= 2 { AscendingWindows(points[1..]); }
  }

  lemma {:induction false} PiecesTile(s: string, points: seq<nat>)
    requires |points| >= 1 && Ascending(points) && points[|points| - 1] == |s|
    ensures forall r :: r in Windows(points) ==> r.start < r.end <= |s|
    ensures Windows(points) == [] <==> |points| == 1
    ensures Pieces(s, Windows(points)) == s[points[0]..]
  {
    if |points| >= 2 {
      PiecesTile(s, points[1..]);
      assert points[1] <= |s|;
      assert Windows(points)[1..] == Windows(points[1..]);
      assert s[points[0]..] == s[points[0]..points[1]] + s[points[1]..];
    }
  }

  /** The ranges of a plan are non-empty, follow one another, and cover the input exactly. */
  lemma RangesCover(s: string, points: seq<nat>)
    requires Plan(points, |s|)
    ensures var ranges := Ranges(points, |s|);
            && (forall r :: r in ranges ==> r.start < r.end <= |s|)
            && Contiguous(ranges)
            && Pieces(s, ranges) == s
            && (ranges == [] <==> s == "")
  {
    if Ascending(points) {
      AscendingWindows(points);
      PiecesTile(s, points);
      assert s[0..] == s;
    } else {
      assert Windows(points[1..]) == [];
    }
  }
}
