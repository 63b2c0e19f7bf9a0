/** The iteration grid of the roadmap view: a sweep over the sorted start/end
    events that gives every iteration a column span and a row
    (AppExtensions/Palladium.AzureDevOps/RoadmapGridAlgorithms.cs,
    AppExtensions/Palladium.AzureDevOps/IterationViewModel.cs). */
module RoadmapGridAlgorithms {
  import opened Wrappers
  import opened RoadmapEntries
  import opened RoadmapOrder

  const IterationRowOffset: int := 0
  const IterationColumnOffset: int := 0

  datatype GridLength = Auto | Star(Weight: int)

  /** The cell of one iteration. The source's view model keeps the iteration's
      display name; the model keeps the iteration itself, and the name is derived. */
  datatype IterationViewModel = IterationViewModel(Source: Iteration, StartColumnIndex: int, RowIndex: int, EndColumnIndexExclusive: int)
  {
    function IterationName(): string { Source.DisplayName }
    function ColumnSpan(): int { EndColumnIndexExclusive - StartColumnIndex }
  }

  datatype IterationsGrid = IterationsGrid(IterationViewModels: seq<IterationViewModel>, Columns: seq<GridLength>, Rows: seq<GridLength>)

  /** The dictionary lookup that throws when an iteration ends before it starts. */
  datatype GridError = KeyNotFound

  // ---------------------------------------------------------------------------
  // Specification of the columns: the distinct change dates in sweep order

  function Last(d: seq<int>): int
    requires d != []
  {
    d[|d| - 1]
  }

  /** The change dates of a date-sorted event list with repeats collapsed. */
  function DistinctDates(s: seq<ColumnChange>): (d: seq<int>)
    ensures |d| <= |s|
    ensures s != [] ==> d != [] && Last(d) == s[|s| - 1].ChangeDate
  {
    if s == [] then []
    else
      var p := DistinctDates(s[..|s| - 1]);
      if p != [] && Last(p) == s[|s| - 1].ChangeDate then p else p + [s[|s| - 1].ChangeDate]
  }

  /** One star column per gap between consecutive distinct dates, as wide as the gap in days. */
  function Gaps(d: seq<int>): (g: seq<GridLength>)
    ensures |g| == if d == [] then 0 else |d| - 1
  {
    if |d| <= 1 then [] else seq(|d| - 1, i requires 0 <= i < |d| - 1 => Star(d[i + 1] - d[i]))
  }

  predicate StrictlyIncreasing(d: seq<int>) {
    forall i, j :: 0 <= i < j < |d| ==> d[i] < d[j]
  }

  /** On a rank-sorted event list the distinct dates increase strictly and are exactly its dates. */
  lemma {:induction false} DistinctDatesSorted(s: seq<ColumnChange>)
    requires RankSorted(s)
    ensures StrictlyIncreasing(DistinctDates(s))
    ensures forall x :: x in DistinctDates(s) <==> exists i :: 0 <= i < |s| && s[i].ChangeDate == x
  {
    DistinctDatesIncrease(s);
    DistinctDatesMembers(s);
  }

  lemma {:induction false} DistinctDatesIncrease(s: seq<ColumnChange>)
    requires RankSorted(s)
    ensures StrictlyIncreasing(DistinctDates(s))
  {
    if s != [] {
      var n := |s| - 1;
      var pre := s[..n];
      assert RankSorted(pre) by {
        forall i, j | 0 <= i <= j < |pre| ensures Rank(pre[i]) <= Rank(pre[j]) {
          assert pre[i] == s[i] && pre[j] == s[j];
        }
      }
      DistinctDatesIncrease(pre);
      var p := DistinctDates(pre);
      if p != [] {
        assert Rank(s[n - 1]) <= Rank(s[n]);
        assert Last(p) == pre[n - 1].ChangeDate == s[n - 1].ChangeDate;
      }
    }
  }

  /** The distinct dates are exactly the dates of the events. */
  lemma {:induction false} DistinctDatesMembers(s: seq<ColumnChange>)
    ensures forall x :: x in DistinctDates(s) <==> exists i :: 0 <= i < |s| && s[i].ChangeDate == x
  {
    if s != [] {
      var n := |s| - 1;
      var pre := s[..n];
      DistinctDatesMembers(pre);
      var p := DistinctDates(pre);
      forall x ensures x in DistinctDates(s) <==> exists i :: 0 <= i < |s| && s[i].ChangeDate == x {
        if x in DistinctDates(s) && x != s[n].ChangeDate {
          assert x in p;
          var i :| 0 <= i < |pre| && pre[i].ChangeDate == x;
          assert s[i] == pre[i];
        }
        if exists i :: 0 <= i < |s| && s[i].ChangeDate == x {
          var i :| 0 <= i < |s| && s[i].ChangeDate == x;
          if i < n {
            assert pre[i] == s[i];
          }
        }
      }
    }
  }


  /** Columns have positive widths, so the grid never has an empty column. */
  lemma ColumnWidthsPositive(d: seq<int>)
    requires StrictlyIncreasing(d)
    ensures forall i :: 0 <= i < |Gaps(d)| ==> Gaps(d)[i].Star? && Gaps(d)[i].Weight > 0
  {
  }

  // ---------------------------------------------------------------------------
  // Specification of the rows: one band of rows per level

  /** The levels that have a start event among the first k events. */
  function StartLevels(s: seq<ColumnChange>, k: nat): set<nat>
    requires k <= |s|
  {
    set i | 0 <= i < k && s[i].IsStart :: s[i].Level
  }

  /** The largest number of open iterations of a level at any start among the first k events. */
  function MaxOverlap(s: seq<ColumnChange>, k: nat, level: nat): int
    requires k <= |s|
  {
    if k == 0 then 0
    else
      var m := MaxOverlap(s, k - 1, level);
      if s[k - 1].IsStart && s[k - 1].Level == level && Overlap(s, k, level) > m then Overlap(s, k, level) else m
  }

  function MaxOverlaps(s: seq<ColumnChange>): map<nat, int> {
    map l | l in StartLevels(s, |s|) :: MaxOverlap(s, |s|, l)
  }

  /** The first row of a level's band: the sum of the band heights of all shallower levels. */
  function SumBelow(m: map<nat, int>, level: nat): int {
    if level == 0 then 0 else SumBelow(m, level - 1) + (if level - 1 in m then m[level - 1] else 0)
  }

  /** MaxOverlap bounds the overlap at every start of its level ... */
  lemma {:induction false} MaxOverlapBounds(s: seq<ColumnChange>, n: nat, k: nat)
    requires k < n <= |s| && s[k].IsStart
    ensures Overlap(s, k + 1, s[k].Level) <= MaxOverlap(s, n, s[k].Level)
  {
    if n > k + 1 {
      MaxOverlapBounds(s, n - 1, k);
    }
  }

  lemma {:induction false} MaxOverlapZero(s: seq<ColumnChange>, k: nat, level: nat)
    requires k <= |s| && level !in StartLevels(s, k)
    ensures MaxOverlap(s, k, level) == 0
  {
    if k > 0 {
      assert level !in StartLevels(s, k - 1);
      MaxOverlapZero(s, k - 1, level);
    }
  }

  /** Every level that has a start has a band of at least one row, when no iteration ends before it starts. */
  lemma MaxOverlapsPositive(iterations: seq<Iteration>)
    requires StartsNoLaterThanEnds(iterations)
    ensures var m := MaxOverlaps(SortedChanges(iterations)); forall l :: l in m ==> m[l] >= 1
  {
    var s := SortedChanges(iterations);
    forall l | l in MaxOverlaps(s) ensures MaxOverlap(s, |s|, l) >= 1 {
      var i :| 0 <= i < |s| && s[i].IsStart && s[i].Level == l;
      OverlapAtStartPositive(iterations, i);
      MaxOverlapBounds(s, |s|, i);
    }
  }

  /** The levels that get a band are exactly the levels of the input iterations. */
  lemma BandLevels(iterations: seq<Iteration>)
    ensures forall l :: l in MaxOverlaps(SortedChanges(iterations)) <==> exists it :: it in iterations && CalculateIterationLevel(it.IterationPath) == l
  {
    var s := SortedChanges(iterations);
    SortedChangesFacts(iterations);
    forall l | l in MaxOverlaps(s) ensures exists it :: it in iterations && CalculateIterationLevel(it.IterationPath) == l {
      var i :| 0 <= i < |s| && s[i].IsStart && s[i].Level == l;
      assert s[i] in s;
      assert s[i] == StartChange(s[i].Iteration);
    }
    forall it | it in iterations ensures CalculateIterationLevel(it.IterationPath) in MaxOverlaps(s) {
      var i :| 0 <= i < |s| && s[i] == StartChange(it);
      assert s[i].Level in StartLevels(s, |s|);
    }
  }

  lemma {:induction false} SumBelowGap(m: map<nat, int>, a: nat, b: nat)
    requires a <= b && forall l :: l in m ==> l < a || b <= l
    ensures SumBelow(m, b) == SumBelow(m, a)
  {
    if a < b {
      SumBelowGap(m, a, b - 1);
    }
  }

  lemma {:induction false} SumBelowMonotone(m: map<nat, int>, a: nat, b: nat)
    requires a <= b && forall l :: l in m ==> m[l] >= 0
    ensures SumBelow(m, a) <= SumBelow(m, b)
  {
    if a < b {
      SumBelowMonotone(m, a, b - 1);
    }
  }

  /** Bands of shallower levels lie wholly above the bands of deeper ones. */
  lemma BandsOrdered(m: map<nat, int>, a: nat, b: nat)
    requires a < b && a in m && forall l :: l in m ==> m[l] >= 0
    ensures SumBelow(m, a) + m[a] <= SumBelow(m, b)
  {
    SumBelowMonotone(m, a + 1, b);
  }

  /** The band of a level starts right where the band of the next shallower level ends. */
  lemma BandsConsecutive(m: map<nat, int>, a: nat, b: nat)
    requires a < b && a in m && forall l :: l in m ==> l <= a || b <= l
    ensures SumBelow(m, b) == SumBelow(m, a) + m[a]
  {
    SumBelowGap(m, a + 1, b);
  }

  /** Where the sweep places a view model: its columns are the positions of its dates among the
      distinct dates, and its row lies inside the band of its level. */
  predicate PlacedInGrid(vm: IterationViewModel, dates: seq<int>, maxes: map<nat, int>) {
    var level := CalculateIterationLevel(vm.Source.IterationPath);
    && 0 <= vm.StartColumnIndex < |dates| && dates[vm.StartColumnIndex] == vm.Source.StartDate
    && 0 <= vm.EndColumnIndexExclusive < |dates| && dates[vm.EndColumnIndexExclusive] == vm.Source.EndDate
    && level in maxes
    && SumBelow(maxes, level) <= vm.RowIndex < SumBelow(maxes, level) + maxes[level]
  }

  /** An iteration that ends after it starts spans at least one column. */
  lemma SpanPositive(vm: IterationViewModel, dates: seq<int>, maxes: map<nat, int>)
    requires PlacedInGrid(vm, dates, maxes) && StrictlyIncreasing(dates)
    requires vm.Source.StartDate < vm.Source.EndDate
    ensures vm.StartColumnIndex < vm.EndColumnIndexExclusive
  {
  }

  /** Every row of a shallower iteration is above every row of a deeper one. */
  lemma ShallowerRowsFirst(a: IterationViewModel, b: IterationViewModel, dates: seq<int>, maxes: map<nat, int>)
    requires PlacedInGrid(a, dates, maxes) && PlacedInGrid(b, dates, maxes)
    requires forall l :: l in maxes ==> maxes[l] >= 0
    requires CalculateIterationLevel(a.Source.IterationPath) < CalculateIterationLevel(b.Source.IterationPath)
    ensures a.RowIndex < b.RowIndex
  {
    BandsOrdered(maxes, CalculateIterationLevel(a.Source.IterationPath), CalculateIterationLevel(b.Source.IterationPath));
  }

  // ---------------------------------------------------------------------------
  // The algorithm

  /** The events of the input, in input order (start then end of each iteration). */
  method SplitIterations(iterations: seq<Iteration>) returns (columnChanges: seq<ColumnChange>)
    ensures columnChanges == Changes(iterations)
  {
    columnChanges := [];
    var i := 0;
    while i < |iterations|
      invariant 0 <= i <= |iterations|
      invariant columnChanges == Changes(iterations[..i])
    {
      var iteration := iterations[i];
      var level := CalculateIterationLevel(iteration.IterationPath);
      ChangesAppend(iterations[..i], iteration);
      columnChanges := columnChanges + [ColumnChange(iteration, true, iteration.StartDate, level)];
      columnChanges := columnChanges + [ColumnChange(iteration, false, iteration.EndDate, level)];
      assert iterations[..i + 1] == iterations[..i] + [iteration];
      i := i + 1;
    }
    assert iterations[..i] == iterations;
  }

  lemma {:induction false} ChangesAppend(iterations: seq<Iteration>, it: Iteration)
    ensures Changes(iterations + [it]) == Changes(iterations) + [StartChange(it), EndChange(it)]
  {
    if iterations == [] {
      assert [it][1..] == [];
    } else {
      assert (iterations + [it])[1..] == iterations[1..] + [it];
      ChangesAppend(iterations[1..], it);
    }
  }

  /** An end event whose level has not had a start yet: the first sweep's decrement throws. */
  predicate EndBeforeAnyStartOfLevel(s: seq<ColumnChange>) {
    exists k :: 0 <= k < |s| && !s[k].IsStart && s[k].Level !in StartLevels(s, k)
  }

  /** First sweep: the largest overlap per level. */
  method ComputeMaxOverlaps(s: seq<ColumnChange>) returns (r: Result<map<nat, int>, GridError>)
    ensures r.Failure? <==> EndBeforeAnyStartOfLevel(s)
    ensures r.Success? ==> r.value == MaxOverlaps(s)
  {
    var maxOverlaps: map<nat, int> := map[];
    var overlaps: map<nat, int> := map[];
    var k := 0;
    while k < |s|
      invariant 0 <= k <= |s|
      invariant OverlapsAt(s, k, overlaps) && MaxesAt(s, k, maxOverlaps) && EndsOpened(s, k)
    {
      var ok;
      ok, overlaps, maxOverlaps := CountChange(s, k, overlaps, maxOverlaps);
      if !ok {
        return Failure(KeyNotFound);
      }
      k := k + 1;
    }
    assert maxOverlaps.Keys == MaxOverlaps(s).Keys;
    return Success(maxOverlaps);
  }

  /** The largest overlap so far of every level started among the first k events. */
  ghost predicate MaxesAt(s: seq<ColumnChange>, k: nat, maxes: map<nat, int>)
    requires k <= |s|
  {
    maxes.Keys == StartLevels(s, k) && forall l :: l in maxes ==> maxes[l] == MaxOverlap(s, k, l)
  }

  /** Every end among the first k events has a start of its level before it. */
  predicate EndsOpened(s: seq<ColumnChange>, k: nat)
    requires k <= |s|
  {
    forall j :: 0 <= j < k ==> s[j].IsStart || s[j].Level in StartLevels(s, j)
  }

  /** One event of the first sweep; false is the failed lookup of an end whose level has
      not started. */
  method CountChange(s: seq<ColumnChange>, k: nat, overlaps: map<nat, int>, maxOverlaps: map<nat, int>)
    returns (ok: bool, overlaps': map<nat, int>, maxOverlaps': map<nat, int>)
    requires k < |s| && OverlapsAt(s, k, overlaps) && MaxesAt(s, k, maxOverlaps) && EndsOpened(s, k)
    ensures ok <==> s[k].IsStart || s[k].Level in StartLevels(s, k)
    ensures ok ==> OverlapsAt(s, k + 1, overlaps') && MaxesAt(s, k + 1, maxOverlaps') && EndsOpened(s, k + 1)
  {
    var change := s[k];
    overlaps', maxOverlaps' := overlaps, maxOverlaps;
    OverlapStep(s, k);
    assert StartLevels(s, k + 1) == StartLevels(s, k) + (if change.IsStart then {change.Level} else {});
    if change.IsStart {
      if change.Level !in overlaps' {
        FreshLevel(s, k);
        overlaps' := overlaps'[change.Level := 0];
      }
      if change.Level !in maxOverlaps' {
        MaxOverlapZero(s, k, change.Level);
        maxOverlaps' := maxOverlaps'[change.Level := 0];
      }
      var overlapCount := overlaps'[change.Level] + 1;
      overlaps' := overlaps'[change.Level := overlapCount];
      if overlapCount > maxOverlaps'[change.Level] {
        maxOverlaps' := maxOverlaps'[change.Level := overlapCount];
      }
    } else {
      if change.Level !in overlaps' {
        return false, overlaps', maxOverlaps';
      }
      overlaps' := overlaps'[change.Level := overlaps'[change.Level] - 1];
    }
    ok := true;
  }


  /** How one event moves the open count of every level. */
  lemma OverlapStep(s: seq<ColumnChange>, k: nat)
    requires k < |s|
    ensures forall l :: Overlap(s, k + 1, l) == Overlap(s, k, l) + (if s[k].Level == l then (if s[k].IsStart then 1 else -1) else 0)
  {
    forall l ensures Overlap(s, k + 1, l) == Overlap(s, k, l) + (if s[k].Level == l then (if s[k].IsStart then 1 else -1) else 0) {
      CountPrefixStep(s, k, StartsAt(l));
      CountPrefixStep(s, k, EndsAt(l));
    }
  }

  /** A level with no start so far, and no unmatched end, has nothing open. */
  lemma FreshLevel(s: seq<ColumnChange>, k: nat)
    requires k < |s| && s[k].Level !in StartLevels(s, k)
    requires forall j :: 0 <= j < k ==> s[j].IsStart || s[j].Level in StartLevels(s, j)
    ensures Overlap(s, k, s[k].Level) == 0
  {
    var L := s[k].Level;
    forall i | 0 <= i < |s[..k]| ensures !Matches(StartsAt(L), s[..k][i]) && !Matches(EndsAt(L), s[..k][i]) {
      assert s[..k][i] == s[i];
      if !s[i].IsStart {
        assert StartLevels(s, i) <= StartLevels(s, k);
      }
    }
    CountNone(s[..k], StartsAt(L));
    CountNone(s[..k], EndsAt(L));
  }

  lemma {:induction false} MinimumOf(levels: set<nat>) returns (m: nat)
    requires levels != {}
    ensures m in levels && forall x :: x in levels ==> m <= x
  {
    var y :| y in levels;
    if levels == {y} {
      m := y;
    } else {
      var l := MinimumOf(levels - {y});
      m := if y < l then y else l;
      forall x | x in levels ensures m <= x {
        if x != y {
          assert x in levels - {y};
        }
      }
    }
  }

  /** The keys of the overlap dictionary in ascending order, as the row-offset loop visits them. */
  method AscendingLevels(levels: set<nat>) returns (r: seq<nat>)
    ensures StrictlyIncreasing(r)
    ensures forall x :: x in r <==> x in levels
  {
    r := [];
    var remaining := levels;
    while remaining != {}
      invariant remaining <= levels
      invariant forall x :: x in levels <==> x in r || x in remaining
      invariant StrictlyIncreasing(r)
      invariant forall i, x :: 0 <= i < |r| && x in remaining ==> r[i] < x
      decreases remaining
    {
      ghost var least := MinimumOf(remaining);
      var level :| level in remaining && forall x :: x in remaining ==> level <= x;
      r := r + [level];
      remaining := remaining - {level};
    }
  }

  /** A strictly increasing enumeration of a set has as many elements as the set. */
  lemma {:induction false} EnumerationSize(r: seq<nat>, levels: set<nat>)
    requires StrictlyIncreasing(r) && forall x :: x in r <==> x in levels
    ensures |r| == |levels|
  {
    if r != [] {
      var n := |r| - 1;
      var rest := levels - {r[n]};
      forall x ensures x in r[..n] <==> x in rest {
        if x in r[..n] {
          var i :| 0 <= i < n && r[..n][i] == x;
          assert r[i] < r[n];
        }
        if x in rest {
          var i :| 0 <= i < |r| && r[i] == x;
          assert i != n;
          assert r[..n][i] == x;
        }
      }
      assert StrictlyIncreasing(r[..n]);
      EnumerationSize(r[..n], rest);
    }
  }

  /** The row-offset loop: the levels, in ascending order, get consecutive bands, each as high as
      the level's maximum overlap; `total` is the height of all bands together. */
  method AssignLevelOffsets(maxOverlaps: map<nat, int>) returns (levels: seq<nat>, levelsOffset: map<nat, int>, total: int)
    ensures StrictlyIncreasing(levels) && forall x :: x in levels <==> x in maxOverlaps
    ensures levelsOffset.Keys == maxOverlaps.Keys
    ensures forall l :: l in levelsOffset ==> levelsOffset[l] == SumBelow(maxOverlaps, l)
    ensures total == SumBelow(maxOverlaps, Top(levels))
  {
    levels := AscendingLevels(maxOverlaps.Keys);
    levelsOffset := map[];
    total := 0;
    for i := 0 to |levels|
      invariant forall l :: l in levelsOffset <==> l in levels[..i]
      invariant total == SumBelow(maxOverlaps, Top(levels[..i]))
      invariant forall l :: l in levelsOffset ==> levelsOffset[l] == SumBelow(maxOverlaps, l)
    {
      var level := levels[i];
      LevelStep(maxOverlaps, levels, i);
      levelsOffset := levelsOffset[level := total];
      total := total + maxOverlaps[level];
    }
    assert levels[..|levels|] == levels;
  }

  /** The level past the deepest one of an ascending enumeration. */
  function Top(levels: seq<nat>): nat {
    if |levels| == 0 then 0 else levels[|levels| - 1] + 1
  }

  /** The levels before position `i` of the ascending enumeration are below its level, the others
      not: so the band sums before and after that level follow from the running offset. */
  lemma LevelStep(m: map<nat, int>, levels: seq<nat>, i: nat)
    requires StrictlyIncreasing(levels) && (forall x :: x in levels <==> x in m) && i < |levels|
    ensures levels[..i + 1] == levels[..i] + [levels[i]]
    ensures SumBelow(m, levels[i]) == SumBelow(m, Top(levels[..i]))
    ensures SumBelow(m, Top(levels[..i + 1])) == SumBelow(m, Top(levels[..i])) + m[levels[i]]
  {
    assert levels[..i + 1] == levels[..i] + [levels[i]];
    var next: nat := if i == 0 then 0 else levels[i - 1] + 1;
    assert Top(levels[..i]) == next;
    forall l | l in m ensures l < next || levels[i] <= l {
      var j :| 0 <= j < |levels| && levels[j] == l;
      if j < i {
        assert levels[j] <= levels[i - 1];
      }
    }
    OffsetStep(m, next, levels[i]);
  }

  lemma OffsetStep(m: map<nat, int>, next: nat, level: nat)
    requires next <= level && level in m && forall l :: l in m ==> l < next || level <= l
    ensures SumBelow(m, level) == SumBelow(m, next)
    ensures SumBelow(m, level + 1) == SumBelow(m, next) + m[level]
  {
    SumBelowGap(m, next, level);
  }

  /** Second step as written: the level offsets, and one grid row per level. */
  method ComputeLevelOffsets(maxOverlaps: map<nat, int>) returns (levelsOffset: map<nat, int>, rows: seq<GridLength>)
    ensures levelsOffset.Keys == maxOverlaps.Keys
    ensures forall l :: l in levelsOffset ==> levelsOffset[l] == SumBelow(maxOverlaps, l)
    ensures |rows| == |maxOverlaps| && forall i :: 0 <= i < |rows| ==> rows[i] == Auto
  {
    var levels, total;
    levels, levelsOffset, total := AssignLevelOffsets(maxOverlaps);
    EnumerationSize(levels, maxOverlaps.Keys);
    rows := AutoRows(|levels|);
  }

  /** The level-offset step with the row count the rest of the roadmap relies on: a level's band
      contributes as many rows as the band is high, so every cell's row is a row of the grid. */
  method ComputeLevelOffsetsWithBandRows(maxOverlaps: map<nat, int>) returns (levelsOffset: map<nat, int>, rows: seq<GridLength>)
    requires forall l :: l in maxOverlaps ==> maxOverlaps[l] >= 0
    ensures levelsOffset.Keys == maxOverlaps.Keys
    ensures forall l :: l in levelsOffset ==> levelsOffset[l] == SumBelow(maxOverlaps, l)
    ensures forall b: nat :: (forall l :: l in maxOverlaps ==> l < b) ==> |rows| == SumBelow(maxOverlaps, b)
    ensures forall i :: 0 <= i < |rows| ==> rows[i] == Auto
  {
    var levels, total;
    levels, levelsOffset, total := AssignLevelOffsets(maxOverlaps);
    BandsTotal(maxOverlaps, levels);
    var b := LevelBound(maxOverlaps.Keys);
    SumBelowMonotone(maxOverlaps, 0, b);
    rows := AutoRows(total);
  }

  /** The running offset after the deepest level is the height of all bands together. */
  lemma BandsTotal(m: map<nat, int>, levels: seq<nat>)
    requires StrictlyIncreasing(levels) && forall x :: x in levels <==> x in m
    ensures forall b: nat :: (forall l :: l in m ==> l < b) ==> SumBelow(m, b) == SumBelow(m, Top(levels))
  {
    forall b: nat | forall l :: l in m ==> l < b ensures SumBelow(m, b) == SumBelow(m, Top(levels)) {
      SumBelowAboveAll(m, levels, b);
    }
  }

  /** `n` rows of automatic height. */
  function AutoRows(n: int): (r: seq<GridLength>)
    requires n >= 0
    ensures |r| == n && forall j :: 0 <= j < n ==> r[j] == Auto
  {
    seq(n, _ => Auto)
  }

  /** Past the deepest level the band sum no longer grows. */
  lemma SumBelowAboveAll(m: map<nat, int>, levels: seq<nat>, b: nat)
    requires StrictlyIncreasing(levels) && forall x :: x in levels <==> x in m
    requires forall l :: l in m ==> l < b
    ensures SumBelow(m, b) == SumBelow(m, if |levels| == 0 then 0 else levels[|levels| - 1] + 1)
  {
    var top: nat := if |levels| == 0 then 0 else levels[|levels| - 1] + 1;
    if |levels| > 0 {
      assert levels[|levels| - 1] in m;
    }
    forall l | l in m ensures l < top || b <= l {
      var j :| 0 <= j < |levels| && levels[j] == l;
      assert levels[j] <= levels[|levels| - 1];
    }
    SumBelowGap(m, top, b);
  }

  /** As written, the grid has one row per level: when a band is two rows high the grid has fewer
      rows than its cells use. */
  lemma AsWrittenRowsTooFew(m: map<nat, int>, b: nat, level: nat)
    requires forall l :: l in m ==> l < b && m[l] >= 1
    requires level in m && m[level] >= 2
    ensures |m| < SumBelow(m, b)
  {
    RowsAtLeastLevels(m, b, level);
    assert (set l | l in m && l < b) == m.Keys;
  }

  lemma {:induction false} RowsAtLeastLevels(m: map<nat, int>, b: nat, level: nat)
    requires forall l :: l in m ==> m[l] >= 1
    requires level in m && m[level] >= 2 && level < b
    ensures |set l | l in m && l < b| < SumBelow(m, b)
  {
    var below := set l | l in m && l < b - 1;
    assert (set l | l in m && l < b) == below + (if b - 1 in m then {b - 1} else {});
    if b - 1 == level {
      CountedLevels(m, b - 1);
    } else {
      RowsAtLeastLevels(m, b - 1, level);
    }
  }

  lemma {:induction false} CountedLevels(m: map<nat, int>, b: nat)
    requires forall l :: l in m ==> m[l] >= 1
    ensures |set l | l in m && l < b| <= SumBelow(m, b)
  {
    if b > 0 {
      var below := set l | l in m && l < b - 1;
      assert (set l | l in m && l < b) == below + (if b - 1 in m then {b - 1} else {});
      CountedLevels(m, b - 1);
    }
  }

  /** Some level is above all the levels of a finite set. */
  lemma {:induction false} LevelBound(levels: set<nat>) returns (b: nat)
    ensures forall l :: l in levels ==> l < b
  {
    if levels == {} {
      b := 0;
    } else {
      var y :| y in levels;
      var rest := LevelBound(levels - {y});
      b := if rest > y then rest else y + 1;
      forall l | l in levels ensures l < b {
        if l != y {
          assert l in levels - {y};
        }
      }
    }
  }

  /** The iterations whose start is among the first k events. */
  function StartedIn(s: seq<ColumnChange>, k: nat): set<Iteration>
    requires k <= |s|
  {
    set i | 0 <= i < k && s[i].IsStart :: s[i].Iteration
  }

  /** The state of the second sweep: the open count per level, the view models by iteration
      (with the order in which they were first added), the columns so far, and the current column. */
  datatype SweepState = SweepState(
    overlaps: map<nat, int>,
    items: map<Iteration, IterationViewModel>,
    order: seq<Iteration>,
    columns: seq<GridLength>,
    currentColumnIndex: int,
    currentColumnTime: int)

  /** The columns after k events: one per distinct date so far, the current one the last. */
  ghost predicate ColumnsAt(s: seq<ColumnChange>, k: nat, st: SweepState)
    requires k <= |s|
  {
    && st.currentColumnIndex == |DistinctDates(s[..k])| - 1
    && st.currentColumnTime == (if k == 0 then 0 else s[k - 1].ChangeDate)
    && st.columns == Gaps(DistinctDates(s[..k]))
  }

  /** The open count per level after k events. */
  ghost predicate OverlapsAt(s: seq<ColumnChange>, k: nat, overlaps: map<nat, int>)
    requires k <= |s|
  {
    overlaps.Keys == StartLevels(s, k) && forall l :: l in overlaps ==> overlaps[l] == Overlap(s, k, l)
  }

  /** The view models in the order of first insertion, each listed once. */
  ghost predicate Listed(items: map<Iteration, IterationViewModel>, order: seq<Iteration>) {
    && (forall i, j :: 0 <= i < j < |order| ==> order[i] != order[j])
    && (forall it :: it in items <==> it in order)
  }

  /** Every end event among the first k has its iteration's start before it. */
  ghost predicate EndsMatched(s: seq<ColumnChange>, k: nat)
    requires k <= |s|
  {
    forall i :: 0 <= i < k && !s[i].IsStart ==> StartChange(s[i].Iteration) in s[..i]
  }

  /** The columns of every view model so far, once its events are passed. */
  ghost predicate CellsPlaced(items: map<Iteration, IterationViewModel>, s: seq<ColumnChange>, k: nat, dates: seq<int>)
    requires k <= |s|
  {
    forall it :: it in items ==>
      && items[it].Source == it
      && CellStarted(items[it], dates)
      && (EndChange(it) in s[..k] ==> CellEnded(items[it], dates))
  }

  ghost predicate RowsInBands(items: map<Iteration, IterationViewModel>, maxes: map<nat, int>) {
    forall it :: it in items ==> CellRowInBand(items[it], maxes)
  }

  lemma CellsExtend(items: map<Iteration, IterationViewModel>, s: seq<ColumnChange>, k: nat, d1: seq<int>, d2: seq<int>)
    requires k <= |s| && CellsPlaced(items, s, k, d1) && d1 <= d2
    ensures CellsPlaced(items, s, k, d2)
  {
  }

  lemma GapsAppend(d: seq<int>, x: int)
    requires d != []
    ensures Gaps(d + [x]) == Gaps(d) + [Star(x - Last(d))]
  {
  }

  /** The date test at the head of the second sweep's loop: a new date opens a new column, and
      the gap to the previous date becomes a star column as wide as the gap. */
  method AdvanceColumn(s: seq<ColumnChange>, k: nat, st: SweepState) returns (next: SweepState)
    requires k < |s| && ColumnsAt(s, k, st)
    ensures ColumnsAt(s, k + 1, next)
    ensures DistinctDates(s[..k]) <= DistinctDates(s[..k + 1])
    ensures next.overlaps == st.overlaps && next.items == st.items && next.order == st.order
  {
    var change := s[k];
    assert s[..k + 1][..k] == s[..k];
    next := st;
    if st.currentColumnTime != change.ChangeDate {
      if st.currentColumnIndex >= 0 {
        var elapsedDays := change.ChangeDate - st.currentColumnTime;
        GapsAppend(DistinctDates(s[..k]), change.ChangeDate);
        next := next.(columns := st.columns + [Star(elapsedDays)]);
      }
      next := next.(currentColumnIndex := st.currentColumnIndex + 1, currentColumnTime := change.ChangeDate);
    }
  }

  /** What holds of the second sweep's state after k events once the column of event k is set. */
  ghost predicate StepReady(iterations: seq<Iteration>, s: seq<ColumnChange>, k: nat, levelsOffset: map<nat, int>, st: SweepState) {
    && s == SortedChanges(iterations) && k < |s|
    && levelsOffset.Keys == MaxOverlaps(s).Keys
    && (forall l :: l in levelsOffset ==> levelsOffset[l] == SumBelow(MaxOverlaps(s), l))
    && OverlapsAt(s, k, st.overlaps) && st.items.Keys == StartedIn(s, k) && Listed(st.items, st.order)
    && EndsMatched(s, k)
    && st.currentColumnIndex == |DistinctDates(s[..k + 1])| - 1
    && CellsPlaced(st.items, s, k, DistinctDates(s[..k + 1]))
    && (StartsNoLaterThanEnds(iterations) ==> RowsInBands(st.items, MaxOverlaps(s)))
  }

  /** What holds after event k is applied: the same facts for k + 1, the columns untouched. */
  ghost predicate StepDone(iterations: seq<Iteration>, s: seq<ColumnChange>, k: nat, st: SweepState, next: SweepState)
    requires s == SortedChanges(iterations) && k < |s|
  {
    && next.columns == st.columns && next.currentColumnIndex == st.currentColumnIndex && next.currentColumnTime == st.currentColumnTime
    && OverlapsAt(s, k + 1, next.overlaps) && next.items.Keys == StartedIn(s, k + 1) && Listed(next.items, next.order)
    && EndsMatched(s, k + 1)
    && CellsPlaced(next.items, s, k + 1, DistinctDates(s[..k + 1]))
    && (StartsNoLaterThanEnds(iterations) ==> RowsInBands(next.items, MaxOverlaps(s)))
  }

  /** A start event opens a view model in the current column, on the next free row of its
      level's band. */
  method OpenCell(ghost iterations: seq<Iteration>, s: seq<ColumnChange>, k: nat, levelsOffset: map<nat, int>, st: SweepState)
    returns (next: SweepState)
    requires k < |s| && s[k].IsStart && s[k].Level in levelsOffset
    ensures next.columns == st.columns && next.currentColumnIndex == st.currentColumnIndex && next.currentColumnTime == st.currentColumnTime
    ensures next.overlaps == st.overlaps[s[k].Level := (if s[k].Level in st.overlaps then st.overlaps[s[k].Level] else 0) + 1]
    ensures next.order == (if s[k].Iteration in st.items then st.order else st.order + [s[k].Iteration])
    ensures next.items == st.items[s[k].Iteration := IterationViewModel(s[k].Iteration, st.currentColumnIndex,
                                   IterationRowOffset + next.overlaps[s[k].Level] - 1 + levelsOffset[s[k].Level], 0)]
  {
    var change := s[k];
    var overlaps, items, order := st.overlaps, st.items, st.order;
    if change.Level !in overlaps {
      overlaps := overlaps[change.Level := 0];
    }
    var overlapCount := overlaps[change.Level] + 1;
    overlaps := overlaps[change.Level := overlapCount];
    var rowIndex := IterationRowOffset + overlapCount - 1 + levelsOffset[change.Level];
    var columnIndex := st.currentColumnIndex;
    if change.Iteration !in items {
      order := order + [change.Iteration];
    }
    var vm := IterationViewModel(change.Iteration, columnIndex, rowIndex, 0);
    items := items[change.Iteration := vm];
    next := st.(overlaps := overlaps, items := items, order := order);
  }

  /** The state OpenCell builds is the one the sweep needs after a start event. */
  lemma OpenedCell(iterations: seq<Iteration>, s: seq<ColumnChange>, k: nat, levelsOffset: map<nat, int>, st: SweepState, next: SweepState)
    requires StepReady(iterations, s, k, levelsOffset, st) && s[k].IsStart
    requires next.columns == st.columns && next.currentColumnIndex == st.currentColumnIndex && next.currentColumnTime == st.currentColumnTime
    requires s[k].Level in levelsOffset
    requires next.overlaps == st.overlaps[s[k].Level := (if s[k].Level in st.overlaps then st.overlaps[s[k].Level] else 0) + 1]
    requires next.order == (if s[k].Iteration in st.items then st.order else st.order + [s[k].Iteration])
    requires next.items == st.items[s[k].Iteration := IterationViewModel(s[k].Iteration, st.currentColumnIndex,
                                     IterationRowOffset + next.overlaps[s[k].Level] - 1 + levelsOffset[s[k].Level], 0)]
    ensures StepDone(iterations, s, k, st, next)
  {
    var vm := next.items[s[k].Iteration];
    OpenedCounts(iterations, s, k, st, next);
    OpenedPlacement(iterations, s, k, levelsOffset, st.items, vm);
  }

  lemma OpenedCounts(iterations: seq<Iteration>, s: seq<ColumnChange>, k: nat, st: SweepState, next: SweepState)
    requires s == SortedChanges(iterations) && k < |s| && s[k].IsStart
    requires OverlapsAt(s, k, st.overlaps) && st.items.Keys == StartedIn(s, k) && Listed(st.items, st.order) && EndsMatched(s, k)
    requires next.overlaps == st.overlaps[s[k].Level := (if s[k].Level in st.overlaps then st.overlaps[s[k].Level] else 0) + 1]
    requires next.order == (if s[k].Iteration in st.items then st.order else st.order + [s[k].Iteration])
    requires next.items.Keys == st.items.Keys + {s[k].Iteration}
    ensures OverlapsAt(s, k + 1, next.overlaps) && next.items.Keys == StartedIn(s, k + 1) && Listed(next.items, next.order)
    ensures EndsMatched(s, k + 1) && next.overlaps[s[k].Level] == Overlap(s, k + 1, s[k].Level)
  {
    OverlapsStep(iterations, s, k, st.overlaps, next.overlaps);
    KeysStep(s, k, st.items, st.order, next.items, next.order);
    EndsMatchedStep(iterations, s, k);
  }

  lemma OpenedPlacement(iterations: seq<Iteration>, s: seq<ColumnChange>, k: nat, levelsOffset: map<nat, int>,
                        items: map<Iteration, IterationViewModel>, vm: IterationViewModel)
    requires s == SortedChanges(iterations) && k < |s| && s[k].IsStart && EndsMatched(s, k)
    requires s[k].Level in levelsOffset && levelsOffset[s[k].Level] == SumBelow(MaxOverlaps(s), s[k].Level)
    requires CellsPlaced(items, s, k, DistinctDates(s[..k + 1]))
    requires StartsNoLaterThanEnds(iterations) ==> RowsInBands(items, MaxOverlaps(s))
    requires vm.Source == s[k].Iteration && vm.StartColumnIndex == |DistinctDates(s[..k + 1])| - 1
    requires vm.RowIndex == IterationRowOffset + Overlap(s, k + 1, s[k].Level) - 1 + levelsOffset[s[k].Level]
    ensures CellsPlaced(items[vm.Source := vm], s, k + 1, DistinctDates(s[..k + 1]))
    ensures StartsNoLaterThanEnds(iterations) ==> RowsInBands(items[vm.Source := vm], MaxOverlaps(s))
  {
    CellsAfterStart(iterations, s, k, items, vm);
    if StartsNoLaterThanEnds(iterations) {
      StartLevelHasOffset(iterations, s, k);
      RowsAfterStart(iterations, s, k, items, vm);
    }
  }

  /** An end event closes its iteration's view model in the current column. A level or a view
      model that is not there is the source's failed dictionary lookup. */
  method CloseCell(ghost iterations: seq<Iteration>, s: seq<ColumnChange>, k: nat, levelsOffset: map<nat, int>, st: SweepState)
    returns (r: Result<SweepState, GridError>)
    requires StepReady(iterations, s, k, levelsOffset, st) && !s[k].IsStart
    ensures r.Failure? ==> !StartsNoLaterThanEnds(iterations)
    ensures s[k].Iteration.EndDate < s[k].Iteration.StartDate ==> r.Failure?
    ensures r.Success? ==> StepDone(iterations, s, k, st, r.value)
  {
    var change := s[k];
    var overlaps, items, order := st.overlaps, st.items, st.order;
    if change.Level !in overlaps {
      GoodEndIsOpen(iterations, s, k);
      return Failure(KeyNotFound);
    }
    overlaps := overlaps[change.Level := overlaps[change.Level] - 1];
    OverlapsStep(iterations, s, k, st.overlaps, overlaps);
    if change.Iteration !in items {
      GoodEndIsOpen(iterations, s, k);
      return Failure(KeyNotFound);
    }
    BadEndIsNotOpen(iterations, s, k);
    var vm := items[change.Iteration];
    items := items[change.Iteration := vm.(EndColumnIndexExclusive := st.currentColumnIndex)];
    KeysStep(s, k, st.items, st.order, items, order);
    CellsAfterEnd(iterations, s, k, st.items, st.currentColumnIndex);
    RowsAfterEnd(st.items, change.Iteration, st.currentColumnIndex, MaxOverlaps(s));
    EndsMatchedStep(iterations, s, k);
    r := Success(st.(overlaps := overlaps, items := items, order := order));
  }

  lemma OverlapsStep(iterations: seq<Iteration>, s: seq<ColumnChange>, k: nat, before: map<nat, int>, after: map<nat, int>)
    requires s == SortedChanges(iterations) && k < |s|
    requires OverlapsAt(s, k, before) && EndsMatched(s, k)
    requires s[k].IsStart ==> after == before[s[k].Level := (if s[k].Level in before then before[s[k].Level] else 0) + 1]
    requires !s[k].IsStart ==> s[k].Level in before && after == before[s[k].Level := before[s[k].Level] - 1]
    ensures OverlapsAt(s, k + 1, after)
    ensures s[k].IsStart ==> after[s[k].Level] == Overlap(s, k + 1, s[k].Level)
  {
    OverlapStep(s, k);
    assert StartLevels(s, k + 1) == StartLevels(s, k) + (if s[k].IsStart then {s[k].Level} else {});
    if s[k].IsStart && s[k].Level !in before {
      FreshLevelInSweep(iterations, s, k);
    }
  }

  lemma StartLevelHasOffset(iterations: seq<Iteration>, s: seq<ColumnChange>, k: nat)
    requires s == SortedChanges(iterations) && k < |s| && s[k].IsStart
    ensures s[k].Level in MaxOverlaps(s)
  {
    assert s[k].Level in StartLevels(s, |s|);
  }

  lemma KeysStep(s: seq<ColumnChange>, k: nat, items: map<Iteration, IterationViewModel>, order: seq<Iteration>,
                 items': map<Iteration, IterationViewModel>, order': seq<Iteration>)
    requires k < |s| && items.Keys == StartedIn(s, k) && Listed(items, order)
    requires s[k].IsStart ==> items'.Keys == items.Keys + {s[k].Iteration} && order' == (if s[k].Iteration in items then order else order + [s[k].Iteration])
    requires !s[k].IsStart ==> items'.Keys == items.Keys && order' == order
    ensures items'.Keys == StartedIn(s, k + 1) && Listed(items', order')
  {
    assert StartedIn(s, k + 1) == StartedIn(s, k) + (if s[k].IsStart then {s[k].Iteration} else {});
  }

  lemma CellsAfterStart(iterations: seq<Iteration>, s: seq<ColumnChange>, k: nat, items: map<Iteration, IterationViewModel>, vm: IterationViewModel)
    requires s == SortedChanges(iterations) && k < |s| && s[k].IsStart && EndsMatched(s, k)
    requires CellsPlaced(items, s, k, DistinctDates(s[..k + 1]))
    requires vm.Source == s[k].Iteration && vm.StartColumnIndex == |DistinctDates(s[..k + 1])| - 1
    ensures CellsPlaced(items[vm.Source := vm], s, k + 1, DistinctDates(s[..k + 1]))
  {
    EventAt(iterations, k);
    assert s[..k + 1] == s[..k] + [s[k]];
    EndNotBeforeStart(iterations, s, k);
  }

  lemma CellsAfterEnd(iterations: seq<Iteration>, s: seq<ColumnChange>, k: nat, items: map<Iteration, IterationViewModel>, column: int)
    requires s == SortedChanges(iterations) && k < |s| && !s[k].IsStart && s[k].Iteration in items
    requires CellsPlaced(items, s, k, DistinctDates(s[..k + 1]))
    requires column == |DistinctDates(s[..k + 1])| - 1
    ensures CellsPlaced(items[s[k].Iteration := items[s[k].Iteration].(EndColumnIndexExclusive := column)], s, k + 1, DistinctDates(s[..k + 1]))
  {
    EventAt(iterations, k);
    assert s[..k + 1] == s[..k] + [s[k]];
  }

  lemma RowsAfterStart(iterations: seq<Iteration>, s: seq<ColumnChange>, k: nat, items: map<Iteration, IterationViewModel>, vm: IterationViewModel)
    requires s == SortedChanges(iterations) && k < |s| && s[k].IsStart && StartsNoLaterThanEnds(iterations)
    requires RowsInBands(items, MaxOverlaps(s))
    requires vm.Source == s[k].Iteration
    requires s[k].Level in MaxOverlaps(s)
    requires vm.RowIndex == Overlap(s, k + 1, s[k].Level) - 1 + SumBelow(MaxOverlaps(s), s[k].Level)
    ensures RowsInBands(items[vm.Source := vm], MaxOverlaps(s))
  {
    EventAt(iterations, k);
    OverlapAtStartPositive(iterations, k);
    MaxOverlapBounds(s, |s|, k);
  }

  lemma RowsAfterEnd(items: map<Iteration, IterationViewModel>, it: Iteration, column: int, maxes: map<nat, int>)
    requires it in items
    ensures RowsInBands(items, maxes) ==> RowsInBands(items[it := items[it].(EndColumnIndexExclusive := column)], maxes)
  {
  }

  lemma EndsMatchedStep(iterations: seq<Iteration>, s: seq<ColumnChange>, k: nat)
    requires s == SortedChanges(iterations) && k < |s| && EndsMatched(s, k)
    requires !s[k].IsStart ==> s[k].Iteration in StartedIn(s, k)
    ensures EndsMatched(s, k + 1)
  {
    if !s[k].IsStart {
      var j :| 0 <= j < k && s[j].IsStart && s[j].Iteration == s[k].Iteration;
      EventAt(iterations, j);
      assert s[..k][j] == s[j];
    }
    forall i | 0 <= i < k + 1 && !s[i].IsStart ensures StartChange(s[i].Iteration) in s[..i] {
    }
  }

  /** Everything the second sweep knows after k events. */
  ghost predicate SweepAt(iterations: seq<Iteration>, s: seq<ColumnChange>, k: nat, st: SweepState) {
    && s == SortedChanges(iterations) && k <= |s|
    && ColumnsAt(s, k, st)
    && OverlapsAt(s, k, st.overlaps) && st.items.Keys == StartedIn(s, k) && Listed(st.items, st.order)
    && EndsMatched(s, k)
    && CellsPlaced(st.items, s, k, DistinctDates(s[..k]))
    && (StartsNoLaterThanEnds(iterations) ==> RowsInBands(st.items, MaxOverlaps(s)))
  }

  /** Every end event among the first k belongs to an iteration that does not end before it starts. */
  ghost predicate EndsInOrder(s: seq<ColumnChange>, k: nat)
    requires k <= |s|
  {
    forall i :: 0 <= i < k && !s[i].IsStart ==> s[i].Iteration.StartDate <= s[i].Iteration.EndDate
  }

  lemma EndsInOrderStep(s: seq<ColumnChange>, k: nat)
    requires k < |s| && EndsInOrder(s, k)
    requires !s[k].IsStart ==> s[k].Iteration.StartDate <= s[k].Iteration.EndDate
    ensures EndsInOrder(s, k + 1)
  {
  }

  /** One pass of the second sweep's loop body. */
  method SweepStep(ghost iterations: seq<Iteration>, s: seq<ColumnChange>, k: nat, levelsOffset: map<nat, int>, st: SweepState)
    returns (r: Result<SweepState, GridError>)
    requires k < |s| && SweepAt(iterations, s, k, st)
    requires levelsOffset.Keys == MaxOverlaps(s).Keys
    requires forall l :: l in levelsOffset ==> levelsOffset[l] == SumBelow(MaxOverlaps(s), l)
    ensures r.Failure? ==> !StartsNoLaterThanEnds(iterations)
    ensures r.Success? ==> SweepAt(iterations, s, k + 1, r.value)
    ensures r.Success? && !s[k].IsStart ==> s[k].Iteration.StartDate <= s[k].Iteration.EndDate
  {
    var advanced := AdvanceColumn(s, k, st);
    CellsExtend(st.items, s, k, DistinctDates(s[..k]), DistinctDates(s[..k + 1]));
    if s[k].IsStart {
      StartLevelHasOffset(iterations, s, k);
      var next := OpenCell(iterations, s, k, levelsOffset, advanced);
      OpenedCell(iterations, s, k, levelsOffset, advanced, next);
      r := Success(next);
    } else {
      r := CloseCell(iterations, s, k, levelsOffset, advanced);
    }
  }

  /** The second sweep's loop: it runs through all events, or stops at the first failed lookup. */
  method Sweep(ghost iterations: seq<Iteration>, s: seq<ColumnChange>, levelsOffset: map<nat, int>)
    returns (r: Result<SweepState, GridError>)
    requires s == SortedChanges(iterations)
    requires levelsOffset.Keys == MaxOverlaps(s).Keys
    requires forall l :: l in levelsOffset ==> levelsOffset[l] == SumBelow(MaxOverlaps(s), l)
    ensures r.Failure? ==> !StartsNoLaterThanEnds(iterations)
    ensures r.Success? ==> SweepAt(iterations, s, |s|, r.value) && StartsNoLaterThanEnds(iterations)
  {
    var st := SweepState(map[], map[], [], [], IterationColumnOffset - 1, 0);
    SweepStart(iterations, s, st);
    var k := 0;
    while k < |s|
      invariant 0 <= k <= |s|
      invariant SweepAt(iterations, s, k, st)
      invariant EndsInOrder(s, k)
    {
      var step := SweepStep(iterations, s, k, levelsOffset, st);
      if step.Failure? {
        return Failure(step.error);
      }
      EndsInOrderStep(s, k);
      st := step.value;
      k := k + 1;
    }
    AllEndsInOrder(iterations, s);
    return Success(st);
  }

  /** Third step: the second sweep assigns columns from the distinct dates and rows from the bands. */
  method AssignCells(ghost iterations: seq<Iteration>, s: seq<ColumnChange>, levelsOffset: map<nat, int>)
    returns (r: Result<(seq<IterationViewModel>, seq<GridLength>), GridError>)
    requires s == SortedChanges(iterations)
    requires levelsOffset.Keys == MaxOverlaps(s).Keys
    requires forall l :: l in levelsOffset ==> levelsOffset[l] == SumBelow(MaxOverlaps(s), l)
    ensures r.Failure? <==> !StartsNoLaterThanEnds(iterations)
    ensures r.Success? ==>
      var (vms, columns) := r.value;
      && columns == Gaps(DistinctDates(s))
      && (forall i, j :: 0 <= i < j < |vms| ==> vms[i].Source != vms[j].Source)
      && (forall it :: it in iterations <==> exists i :: 0 <= i < |vms| && vms[i].Source == it)
      && (forall i :: 0 <= i < |vms| ==> PlacedInGrid(vms[i], DistinctDates(s), MaxOverlaps(s)))
  {
    var swept := Sweep(iterations, s, levelsOffset);
    if swept.Failure? {
      return Failure(swept.error);
    }
    var st := swept.value;
    var vms := CollectViewModels(iterations, s, st);
    return Success((vms, st.columns));
  }

  /** The view models in the order they were first added, as the dictionary's values are listed. */
  method CollectViewModels(ghost iterations: seq<Iteration>, s: seq<ColumnChange>, st: SweepState) returns (vms: seq<IterationViewModel>)
    requires SweepAt(iterations, s, |s|, st) && StartsNoLaterThanEnds(iterations)
    ensures st.columns == Gaps(DistinctDates(s))
    ensures forall i, j :: 0 <= i < j < |vms| ==> vms[i].Source != vms[j].Source
    ensures forall it :: it in iterations <==> exists i :: 0 <= i < |vms| && vms[i].Source == it
    ensures forall i :: 0 <= i < |vms| ==> PlacedInGrid(vms[i], DistinctDates(s), MaxOverlaps(s))
  {
    FinishedCells(iterations, s, st);
    vms := seq(|st.order|, i requires 0 <= i < |st.order| => st.items[st.order[i]]);
    ListedValues(st.items, st.order, vms);
  }

  lemma SweepStart(iterations: seq<Iteration>, s: seq<ColumnChange>, st: SweepState)
    requires s == SortedChanges(iterations) && st == SweepState(map[], map[], [], [], IterationColumnOffset - 1, 0)
    ensures SweepAt(iterations, s, 0, st)
  {
    assert StartLevels(s, 0) == {} && StartedIn(s, 0) == {};
  }

  /** Every iteration has its end event in the sweep, so no failure means no iteration ends before it starts. */
  lemma AllEndsInOrder(iterations: seq<Iteration>, s: seq<ColumnChange>)
    requires s == SortedChanges(iterations) && EndsInOrder(s, |s|)
    ensures StartsNoLaterThanEnds(iterations)
  {
    forall it | it in iterations ensures it.StartDate <= it.EndDate {
      var k := EndEventOf(iterations, it);
    }
  }

  predicate CellStarted(vm: IterationViewModel, dates: seq<int>) {
    0 <= vm.StartColumnIndex < |dates| && dates[vm.StartColumnIndex] == vm.Source.StartDate
  }

  predicate CellEnded(vm: IterationViewModel, dates: seq<int>) {
    0 <= vm.EndColumnIndexExclusive < |dates| && dates[vm.EndColumnIndexExclusive] == vm.Source.EndDate
  }

  predicate CellRowInBand(vm: IterationViewModel, maxes: map<nat, int>) {
    var level := CalculateIterationLevel(vm.Source.IterationPath);
    level in maxes && SumBelow(maxes, level) <= vm.RowIndex < SumBelow(maxes, level) + maxes[level]
  }

  lemma EndEventOf(iterations: seq<Iteration>, it: Iteration) returns (k: nat)
    requires it in iterations
    ensures k < |SortedChanges(iterations)| && SortedChanges(iterations)[k] == EndChange(it)
  {
    SortedChangesFacts(iterations);
    var s := SortedChanges(iterations);
    k :| 0 <= k < |s| && s[k] == EndChange(it);
  }

  /** After the whole sweep every input iteration has its view model, with both columns and its row. */
  lemma FinishedCells(iterations: seq<Iteration>, s: seq<ColumnChange>, st: SweepState)
    requires SweepAt(iterations, s, |s|, st) && StartsNoLaterThanEnds(iterations)
    ensures st.columns == Gaps(DistinctDates(s))
    ensures forall it :: it in st.items <==> it in iterations
    ensures forall it :: it in st.items ==> st.items[it].Source == it && PlacedInGrid(st.items[it], DistinctDates(s), MaxOverlaps(s))
  {
    assert s[..|s|] == s;
    FinishedMembers(iterations, s, st.items);
  }

  lemma FinishedMembers(iterations: seq<Iteration>, s: seq<ColumnChange>, items: map<Iteration, IterationViewModel>)
    requires s == SortedChanges(iterations) && items.Keys == StartedIn(s, |s|)
    ensures forall it :: it in items <==> it in iterations
    ensures forall it :: it in items ==> EndChange(it) in s[..|s|]
  {
    forall it | it in iterations ensures it in items {
      var i, j := EventsOf(iterations, it);
    }
    forall it | it in items ensures it in iterations && EndChange(it) in s[..|s|] {
      var i :| 0 <= i < |s| && s[i].IsStart && s[i].Iteration == it;
      EventAt(iterations, i);
      var a, b := EventsOf(iterations, it);
      assert s[..|s|] == s;
    }
  }

  lemma EventsOf(iterations: seq<Iteration>, it: Iteration) returns (i: nat, j: nat)
    requires it in iterations
    ensures i < |SortedChanges(iterations)| && SortedChanges(iterations)[i] == StartChange(it)
    ensures j < |SortedChanges(iterations)| && SortedChanges(iterations)[j] == EndChange(it)
  {
    SortedChangesFacts(iterations);
    var s := SortedChanges(iterations);
    i :| 0 <= i < |s| && s[i] == StartChange(it);
    j :| 0 <= j < |s| && s[j] == EndChange(it);
  }

  lemma ListedValues(items: map<Iteration, IterationViewModel>, order: seq<Iteration>, vms: seq<IterationViewModel>)
    requires Listed(items, order) && |vms| == |order|
    requires forall i :: 0 <= i < |order| ==> order[i] in items && vms[i] == items[order[i]]
    requires forall it :: it in items ==> items[it].Source == it
    ensures forall i, j :: 0 <= i < j < |vms| ==> vms[i].Source != vms[j].Source
    ensures forall it :: it in items <==> exists i :: 0 <= i < |vms| && vms[i].Source == it
  {
    forall it | it in items ensures exists i :: 0 <= i < |vms| && vms[i].Source == it {
      var i :| 0 <= i < |order| && order[i] == it;
    }
  }

  /** Each sorted event is the start or the end event of an input iteration. */
  lemma EventAt(iterations: seq<Iteration>, k: nat)
    requires k < |SortedChanges(iterations)|
    ensures var c := SortedChanges(iterations)[k]; c.Iteration in iterations && c == (if c.IsStart then StartChange(c.Iteration) else EndChange(c.Iteration))
  {
    SortedChangesFacts(iterations);
    assert SortedChanges(iterations)[k] in SortedChanges(iterations);
  }

  lemma FreshLevelInSweep(iterations: seq<Iteration>, s: seq<ColumnChange>, k: nat)
    requires s == SortedChanges(iterations)
    requires k < |s| && s[k].IsStart && s[k].Level !in StartLevels(s, k)
    requires EndsMatched(s, k)
    ensures Overlap(s, k, s[k].Level) == 0
  {
    forall j | 0 <= j < k ensures s[j].IsStart || s[j].Level in StartLevels(s, j) {
      if !s[j].IsStart {
        var i :| 0 <= i < j && s[..j][i] == StartChange(s[j].Iteration);
        assert s[i] == s[..j][i];
        EventAt(iterations, j);
      }
    }
    FreshLevel(s, k);
  }

  /** At a start event, the iteration's own end has not been passed yet: either it ends later, or it
      ends before it starts, and then the sweep would already have stopped at that end. */
  lemma EndNotBeforeStart(iterations: seq<Iteration>, s: seq<ColumnChange>, k: nat)
    requires s == SortedChanges(iterations) && k < |s| && s[k].IsStart && EndsMatched(s, k)
    ensures EndChange(s[k].Iteration) !in s[..k + 1]
  {
    SortedRank(iterations);
    EventAt(iterations, k);
  }

  lemma SortedRank(iterations: seq<Iteration>)
    ensures RankSorted(SortedChanges(iterations))
  {
    SortedChangesFacts(iterations);
  }

  /** An iteration that ends before it starts has not been opened when its end is reached. */
  lemma BadEndIsNotOpen(iterations: seq<Iteration>, s: seq<ColumnChange>, k: nat)
    requires s == SortedChanges(iterations) && k < |s| && !s[k].IsStart
    ensures s[k].Iteration.EndDate < s[k].Iteration.StartDate ==> s[k].Iteration !in StartedIn(s, k)
  {
    SortedRank(iterations);
    EventAt(iterations, k);
    forall j | 0 <= j < k && s[j].IsStart && s[k].Iteration.EndDate < s[k].Iteration.StartDate
      ensures s[j].Iteration != s[k].Iteration
    {
      EventAt(iterations, j);
      assert Rank(s[j]) <= Rank(s[k]);
    }
  }

  /** When no iteration ends before it starts, an end event finds its level and its iteration open. */
  lemma GoodEndIsOpen(iterations: seq<Iteration>, s: seq<ColumnChange>, k: nat)
    requires s == SortedChanges(iterations) && k < |s| && !s[k].IsStart
    ensures StartsNoLaterThanEnds(iterations) ==> s[k].Level in StartLevels(s, k) && s[k].Iteration in StartedIn(s, k)
  {
    EventAt(iterations, k);
    var it := s[k].Iteration;
    if StartsNoLaterThanEnds(iterations) {
      SortedChangesFacts(iterations);
      var j :| 0 <= j < |s| && s[j] == StartChange(it);
      assert Rank(s[j]) < Rank(s[k]);
    }
  }

  lemma {:induction false} MaxOverlapNonNegative(s: seq<ColumnChange>, k: nat, level: nat)
    requires k <= |s|
    ensures MaxOverlap(s, k, level) >= 0
  {
    if k > 0 {
      MaxOverlapNonNegative(s, k - 1, level);
    }
  }

  /** When no iteration ends before it starts, the first sweep never meets an end of a level
      that has not started. */
  lemma GoodSweepHasNoEarlyEnd(iterations: seq<Iteration>)
    requires StartsNoLaterThanEnds(iterations)
    ensures !EndBeforeAnyStartOfLevel(SortedChanges(iterations))
  {
    var s := SortedChanges(iterations);
    forall k | 0 <= k < |s| && !s[k].IsStart ensures s[k].Level in StartLevels(s, k) {
      GoodEndIsOpen(iterations, s, k);
    }
  }

  // ---------------------------------------------------------------------------
  // The grid as a whole

  /** The columns and cells of the grid of a list of iterations: star columns between consecutive
      distinct dates, rows of automatic height, and one view model per distinct iteration, placed
      by its dates and its level's band. */
  ghost predicate DescribesCells(iterations: seq<Iteration>, g: IterationsGrid) {
    var s := SortedChanges(iterations);
    var dates := DistinctDates(s);
    var maxes := MaxOverlaps(s);
    var vms := g.IterationViewModels;
    && g.Columns == Gaps(dates)
    && (forall i :: 0 <= i < |g.Rows| ==> g.Rows[i] == Auto)
    && (forall i, j :: 0 <= i < j < |vms| ==> vms[i].Source != vms[j].Source)
    && (forall it :: it in iterations <==> exists i :: 0 <= i < |vms| && vms[i].Source == it)
    && (forall i :: 0 <= i < |vms| ==> PlacedInGrid(vms[i], dates, maxes))
  }

  /** The grid as `CreateIterationsGrid` builds it: the cells above and one row per level. */
  ghost predicate DescribesGrid(iterations: seq<Iteration>, g: IterationsGrid) {
    DescribesCells(iterations, g) && |g.Rows| == |MaxOverlaps(SortedChanges(iterations))|
  }

  /** The grid with as many rows as the level bands are high together. */
  ghost predicate DescribesGridWithBandRows(iterations: seq<Iteration>, g: IterationsGrid) {
    var maxes := MaxOverlaps(SortedChanges(iterations));
    && DescribesCells(iterations, g)
    && (forall b: nat :: (forall l :: l in maxes ==> l < b) ==> |g.Rows| == SumBelow(maxes, b))
  }

  /** Lays out the iterations of the roadmap: each iteration gets the columns between its start and
      end dates and a row in the band of its level, and the grid gets one row per level. It fails,
      as the source's dictionary lookup throws, exactly when some iteration ends before it starts. */
  method CreateIterationsGrid(iterations: seq<Iteration>) returns (r: Result<IterationsGrid, GridError>)
    ensures r.Failure? <==> exists it :: it in iterations && it.EndDate < it.StartDate
    ensures r.Success? ==> DescribesGrid(iterations, r.value)
  {
    var columnChanges := SplitIterations(iterations);
    var orderedColumnChanges := OrderChanges(columnChanges);
    var maxOverlapsResult := ComputeMaxOverlaps(orderedColumnChanges);
    if maxOverlapsResult.Failure? {
      if StartsNoLaterThanEnds(iterations) {
        GoodSweepHasNoEarlyEnd(iterations);
      }
      return Failure(maxOverlapsResult.error);
    }
    var maxOverlaps := maxOverlapsResult.value;
    var levelsOffset, rows := ComputeLevelOffsets(maxOverlaps);
    var cells := AssignCells(iterations, orderedColumnChanges, levelsOffset);
    if cells.Failure? {
      return Failure(cells.error);
    }
    var (vms, columns) := cells.value;
    r := Success(IterationsGrid(vms, columns, rows));
  }

  /** `CreateIterationsGrid` with the corrected row step: the same cells, and as many rows as the
      level bands are high together. */
  method CreateIterationsGridWithBandRows(iterations: seq<Iteration>) returns (r: Result<IterationsGrid, GridError>)
    ensures r.Failure? <==> exists it :: it in iterations && it.EndDate < it.StartDate
    ensures r.Success? ==> DescribesGridWithBandRows(iterations, r.value)
  {
    var columnChanges := SplitIterations(iterations);
    var orderedColumnChanges := OrderChanges(columnChanges);
    var maxOverlapsResult := ComputeMaxOverlaps(orderedColumnChanges);
    if maxOverlapsResult.Failure? {
      if StartsNoLaterThanEnds(iterations) {
        GoodSweepHasNoEarlyEnd(iterations);
      }
      return Failure(maxOverlapsResult.error);
    }
    var maxOverlaps := maxOverlapsResult.value;
    forall l | l in maxOverlaps ensures maxOverlaps[l] >= 0 {
      MaxOverlapNonNegative(orderedColumnChanges, |orderedColumnChanges|, l);
    }
    var levelsOffset, rows := ComputeLevelOffsetsWithBandRows(maxOverlaps);
    var cells := AssignCells(iterations, orderedColumnChanges, levelsOffset);
    if cells.Failure? {
      return Failure(cells.error);
    }
    var (vms, columns) := cells.value;
    r := Success(IterationsGrid(vms, columns, rows));
  }

  /** Every cell of the grid with band rows lies inside it: its columns are grid column lines (so
      its span is within the columns) and its row is a grid row. */
  lemma CellsInsideGrid(iterations: seq<Iteration>, g: IterationsGrid)
    requires DescribesGridWithBandRows(iterations, g)
    ensures forall vm :: vm in g.IterationViewModels ==>
      && 0 <= vm.StartColumnIndex <= |g.Columns|
      && 0 <= vm.EndColumnIndexExclusive <= |g.Columns|
      && 0 <= vm.RowIndex < |g.Rows|
  {
    var s := SortedChanges(iterations);
    var maxes := MaxOverlaps(s);
    forall l | l in maxes ensures maxes[l] >= 0 {
      MaxOverlapNonNegative(s, |s|, l);
    }
    var b := LevelBound(maxes.Keys);
    forall vm | vm in g.IterationViewModels ensures 0 <= vm.RowIndex < SumBelow(maxes, b) {
      var i :| 0 <= i < |g.IterationViewModels| && g.IterationViewModels[i] == vm;
      RowInsideBands(vm, DistinctDates(s), maxes, b);
    }
  }

  /** As written, a level on which two iterations overlap leaves the grid with fewer rows than its
      bands are high together, so the deepest rows of the bands are not rows of the grid. */
  lemma AsWrittenGridRowsTooFew(iterations: seq<Iteration>, g: IterationsGrid, level: nat, b: nat)
    requires DescribesGrid(iterations, g) && StartsNoLaterThanEnds(iterations)
    requires var m := MaxOverlaps(SortedChanges(iterations));
             level in m && m[level] >= 2 && forall l :: l in m ==> l < b
    ensures |g.Rows| < SumBelow(MaxOverlaps(SortedChanges(iterations)), b)
  {
    MaxOverlapsPositive(iterations);
    AsWrittenRowsTooFew(MaxOverlaps(SortedChanges(iterations)), b, level);
  }

  lemma RowInsideBands(vm: IterationViewModel, dates: seq<int>, maxes: map<nat, int>, b: nat)
    requires PlacedInGrid(vm, dates, maxes)
    requires forall l :: l in maxes ==> l < b && maxes[l] >= 0
    ensures 0 <= vm.RowIndex < SumBelow(maxes, b)
  {
    var level := CalculateIterationLevel(vm.Source.IterationPath);
    SumBelowMonotone(maxes, level + 1, b);
    SumBelowMonotone(maxes, 0, level);
  }

  /** Columns are positive widths and an iteration that ends after it starts spans at least one. */
  lemma ColumnsAndSpans(iterations: seq<Iteration>, g: IterationsGrid)
    requires DescribesCells(iterations, g)
    ensures forall i :: 0 <= i < |g.Columns| ==> g.Columns[i].Star? && g.Columns[i].Weight > 0
    ensures forall vm :: vm in g.IterationViewModels && vm.Source.StartDate < vm.Source.EndDate ==> vm.StartColumnIndex < vm.EndColumnIndexExclusive
  {
    var s := SortedChanges(iterations);
    SortedRank(iterations);
    DistinctDatesSorted(s);
    ColumnWidthsPositive(DistinctDates(s));
  }

  /** Inside one grid, iterations of a shallower level sit on rows above those of deeper ones. */
  lemma LevelsStackTopDown(iterations: seq<Iteration>, g: IterationsGrid, a: IterationViewModel, b: IterationViewModel)
    requires DescribesCells(iterations, g) && a in g.IterationViewModels && b in g.IterationViewModels
    requires CalculateIterationLevel(a.Source.IterationPath) < CalculateIterationLevel(b.Source.IterationPath)
    ensures a.RowIndex < b.RowIndex
  {
    var s := SortedChanges(iterations);
    var maxes := MaxOverlaps(s);
    forall l | l in maxes ensures maxes[l] >= 0 {
      MaxOverlapNonNegative(s, |s|, l);
    }
    ShallowerRowsFirst(a, b, DistinctDates(s), maxes);
  }

  /** The grid has exactly one view model per distinct iteration. */
  lemma OneCellPerIteration(iterations: seq<Iteration>, g: IterationsGrid)
    requires DescribesCells(iterations, g)
    ensures |g.IterationViewModels| == |set it | it in iterations|
  {
    var vms := g.IterationViewModels;
    var sources := seq(|vms|, i requires 0 <= i < |vms| => vms[i].Source);
    forall x ensures x in sources <==> x in set it | it in iterations {
      if x in sources {
        var i :| 0 <= i < |sources| && sources[i] == x;
        assert vms[i].Source == x;
      }
      if x in iterations {
        var i :| 0 <= i < |vms| && vms[i].Source == x;
        assert sources[i] == x;
      }
    }
    DistinctSize(sources, set it | it in iterations);
  }

  lemma {:induction false} DistinctSize(xs: seq<Iteration>, all: set<Iteration>)
    requires forall i, j :: 0 <= i < j < |xs| ==> xs[i] != xs[j]
    requires forall x :: x in xs <==> x in all
    ensures |xs| == |all|
  {
    if xs != [] {
      var n := |xs| - 1;
      var rest := all - {xs[n]};
      forall x ensures x in xs[..n] <==> x in rest {
        if x in rest {
          var i :| 0 <= i < |xs| && xs[i] == x;
          assert xs[..n][i] == x;
        }
      }
      DistinctSize(xs[..n], rest);
    }
  }

  /** No iterations, no cells, no columns and no rows. */
  lemma EmptyGrid(g: IterationsGrid)
    requires DescribesGrid([], g)
    ensures g == IterationsGrid([], [], [])
  {
    assert SortedChanges([]) == [];
    assert MaxOverlaps([]) == map[];
    OneCellPerIteration([], g);
    assert (set it: Iteration | it in []) == {};
  }

  /** One iteration from one day to a later one gives a single column as wide as the number of
      days between them (November 1 to November 30: one column of 29), and its cell spans it. */
  lemma SingleIterationOneColumn(it: Iteration, g: IterationsGrid)
    requires it.StartDate < it.EndDate && DescribesCells([it], g)
    ensures g.Columns == [Star(it.EndDate - it.StartDate)]
    ensures |g.IterationViewModels| == 1
    ensures g.IterationViewModels[0].StartColumnIndex == 0 && g.IterationViewModels[0].EndColumnIndexExclusive == 1
  {
    SingleIterationDates(it);
    OneCellPerIteration([it], g);
    assert (set x | x in [it]) == {it};
  }

  lemma SingleIterationDates(it: Iteration)
    requires it.StartDate < it.EndDate
    ensures DistinctDates(SortedChanges([it])) == [it.StartDate, it.EndDate]
  {
    var c := Changes([it]);
    assert c == [StartChange(it), EndChange(it)];
    assert c[1..] == [EndChange(it)];
    assert OrderChanges(c[1..]) == [EndChange(it)];
    assert ChangeLe(StartChange(it), EndChange(it));
    var s := SortedChanges([it]);
    assert s == [StartChange(it), EndChange(it)];
    assert s[..1] == [StartChange(it)];
    assert DistinctDates(s[..1]) == [it.StartDate];
  }
}
