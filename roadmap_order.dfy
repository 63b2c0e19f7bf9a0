/** The start/end events ("column changes") of the roadmap grid sweep, the
    four-key order they are sorted by, and counting facts about sorted event lists
    (AppExtensions/Palladium.AzureDevOps/RoadmapGridAlgorithms.cs). */
module RoadmapOrder {
  import opened RoadmapEntries

  /** Hierarchy level of an iteration: the number of '\' separators in its path. */
  function CalculateIterationLevel(path: string): (r: nat)
    ensures r <= |path|
    ensures r == 0 <==> '\\' !in path
  {
    if path == [] then 0
    else CalculateIterationLevel(path[1..]) + (if path[0] == '\\' then 1 else 0)
  }

  lemma {:induction false} LevelOfConcat(a: string, b: string)
    ensures CalculateIterationLevel(a + b) == CalculateIterationLevel(a) + CalculateIterationLevel(b)
  {
    if a != [] {
      assert (a + b)[1..] == a[1..] + b;
      LevelOfConcat(a[1..], b);
    } else {
      assert a + b == b;
    }
  }

  /** A child iteration `parent\name` sits exactly one level below its parent. */
  lemma LevelOfChild(parent: string, name: string)
    requires '\\' !in name
    ensures CalculateIterationLevel(parent + "\\" + name) == CalculateIterationLevel(parent) + 1
  {
    LevelOfConcat(parent + "\\", name);
    LevelOfConcat(parent, "\\");
    assert CalculateIterationLevel("\\") == 1 by {
      assert "\\"[1..] == [];
    }
  }

  datatype ColumnChange = ColumnChange(Iteration: Iteration, IsStart: bool, ChangeDate: Day, Level: nat)

  function StartChange(it: Iteration): ColumnChange {
    ColumnChange(it, true, it.StartDate, CalculateIterationLevel(it.IterationPath))
  }

  function EndChange(it: Iteration): ColumnChange {
    ColumnChange(it, false, it.EndDate, CalculateIterationLevel(it.IterationPath))
  }

  /** An event as the split of an iteration produces it. */
  predicate WellFormed(c: ColumnChange) {
    c == StartChange(c.Iteration) || c == EndChange(c.Iteration)
  }

  /** The unsorted event list: a start and an end event per iteration, in input order. */
  function Changes(iterations: seq<Iteration>): (r: seq<ColumnChange>)
    ensures |r| == 2 * |iterations|
    ensures forall i :: 0 <= i < |iterations| ==> r[2 * i] == StartChange(iterations[i]) && r[2 * i + 1] == EndChange(iterations[i])
  {
    if iterations == [] then []
    else [StartChange(iterations[0]), EndChange(iterations[0])] + Changes(iterations[1..])
  }

  lemma ChangesMembers(iterations: seq<Iteration>)
    ensures forall c :: c in Changes(iterations) ==> WellFormed(c) && c.Iteration in iterations
    ensures forall it :: it in iterations ==> StartChange(it) in Changes(iterations) && EndChange(it) in Changes(iterations)
  {
    var r := Changes(iterations);
    forall c | c in r ensures WellFormed(c) && c.Iteration in iterations {
      var k :| 0 <= k < |r| && r[k] == c;
      assert r[2 * (k / 2)] == StartChange(iterations[k / 2]);
    }
    forall it | it in iterations ensures StartChange(it) in r && EndChange(it) in r {
      var i :| 0 <= i < |iterations| && iterations[i] == it;
      assert r[2 * i] == StartChange(it);
    }
  }

  /** Ordinal (code-unit) string order, used for the display-name key. */
  predicate NameLe(a: string, b: string) {
    a == [] || (b != [] && (a[0] < b[0] || (a[0] == b[0] && NameLe(a[1..], b[1..]))))
  }

  lemma {:induction false} NameLeTotal(a: string, b: string)
    ensures NameLe(a, b) || NameLe(b, a)
  {
    if a != [] && b != [] && a[0] == b[0] {
      NameLeTotal(a[1..], b[1..]);
    }
  }

  /** The sort key of the sweep: date ascending, then starts before ends,
      then level ascending (shallow first), then display name. */
  predicate ChangeLe(a: ColumnChange, b: ColumnChange) {
    || a.ChangeDate < b.ChangeDate
    || (a.ChangeDate == b.ChangeDate &&
        (|| (a.IsStart && !b.IsStart)
         || (a.IsStart == b.IsStart &&
             (|| a.Level < b.Level
              || (a.Level == b.Level && NameLe(a.Iteration.DisplayName, b.Iteration.DisplayName))))))
  }

  lemma ChangeLeTotal(a: ColumnChange, b: ColumnChange)
    ensures ChangeLe(a, b) || ChangeLe(b, a)
  {
    NameLeTotal(a.Iteration.DisplayName, b.Iteration.DisplayName);
  }

  predicate Ordered(s: seq<ColumnChange>) {
    forall i :: 0 <= i < |s| - 1 ==> ChangeLe(s[i], s[i + 1])
  }

  /** Inserts `c` before the first element whose key is not smaller, so that among
      equal keys the earlier input stays first (the sort is stable). */
  function Insert(c: ColumnChange, s: seq<ColumnChange>): (r: seq<ColumnChange>)
    ensures |r| == |s| + 1
    ensures multiset(r) == multiset(s) + multiset{c}
  {
    if s == [] || ChangeLe(c, s[0]) then [c] + s
    else assert s == [s[0]] + s[1..]; [s[0]] + Insert(c, s[1..])
  }

  /** The sort the grid applies to the event list: a stable sort on ChangeLe
      (`OrderChangesStable`). */
  function OrderChanges(s: seq<ColumnChange>): (r: seq<ColumnChange>)
    ensures |r| == |s|
    ensures multiset(r) == multiset(s)
  {
    if s == [] then [] else assert s == [s[0]] + s[1..]; Insert(s[0], OrderChanges(s[1..]))
  }

  lemma {:induction false} InsertOrdered(c: ColumnChange, s: seq<ColumnChange>)
    requires Ordered(s)
    ensures Ordered(Insert(c, s))
    ensures s != [] ==> Insert(c, s)[0] == c || Insert(c, s)[0] == s[0]
  {
    if s == [] || ChangeLe(c, s[0]) {
    } else {
      ChangeLeTotal(c, s[0]);
      InsertOrdered(c, s[1..]);
      var t := Insert(c, s[1..]);
      var r := [s[0]] + t;
      forall i | 0 <= i < |r| - 1 ensures ChangeLe(r[i], r[i + 1]) {
        if i == 0 {
          assert r[1] == t[0];
        } else {
          assert r[i] == t[i - 1] && r[i + 1] == t[i];
        }
      }
    }
  }

  /** The sort yields an ordered permutation of its input. */
  lemma {:induction false} OrderChangesOrdered(s: seq<ColumnChange>)
    ensures Ordered(OrderChanges(s))
  {
    if s != [] {
      OrderChangesOrdered(s[1..]);
      InsertOrdered(s[0], OrderChanges(s[1..]));
    }
  }

  /** The four sort keys of an event. */
  function SortKey(c: ColumnChange): (int, bool, nat, string) {
    (c.ChangeDate, c.IsStart, c.Level, c.Iteration.DisplayName)
  }

  /** The events of `s` whose four sort keys are `k`, in their order in `s`. */
  function WithKey(s: seq<ColumnChange>, k: (int, bool, nat, string)): (r: seq<ColumnChange>)
    ensures |r| <= |s|
    ensures forall c :: c in r ==> c in s && SortKey(c) == k
  {
    if s == [] then [] else (if SortKey(s[0]) == k then [s[0]] else []) + WithKey(s[1..], k)
  }

  lemma {:induction false} NameLeReflexive(a: string)
    ensures NameLe(a, a)
  {
    if a != [] {
      NameLeReflexive(a[1..]);
    }
  }

  lemma WithKeyCons(x: ColumnChange, s: seq<ColumnChange>, k: (int, bool, nat, string))
    ensures WithKey([x] + s, k) == (if SortKey(x) == k then [x] else []) + WithKey(s, k)
  {
    assert ([x] + s)[1..] == s;
  }

  /** Events with the same four keys are ordered both ways. */
  lemma DifferentKeysIfNotLe(a: ColumnChange, b: ColumnChange)
    requires !ChangeLe(a, b)
    ensures SortKey(a) != SortKey(b)
  {
    NameLeReflexive(a.Iteration.DisplayName);
  }

  /** An event with other keys than `c` in front of both lists keeps the relation between
      what the two lists hold of key `k`. */
  lemma WithKeyStep(c: ColumnChange, x: ColumnChange, t: seq<ColumnChange>, rest: seq<ColumnChange>,
                    k: (int, bool, nat, string))
    requires SortKey(c) != SortKey(x)
    requires WithKey(t, k) == (if SortKey(c) == k then [c] else []) + WithKey(rest, k)
    ensures WithKey([x] + t, k) == (if SortKey(c) == k then [c] else []) + WithKey([x] + rest, k)
  {
    WithKeyCons(x, t, k);
    WithKeyCons(x, rest, k);
  }

  /** Insertion goes in front of every event with the same keys, so those keep their order
      with the inserted event first. */
  lemma {:induction false} InsertWithKey(c: ColumnChange, s: seq<ColumnChange>, k: (int, bool, nat, string))
    ensures WithKey(Insert(c, s), k) == (if SortKey(c) == k then [c] else []) + WithKey(s, k)
  {
    if s == [] || ChangeLe(c, s[0]) {
      assert Insert(c, s) == [c] + s;
      WithKeyCons(c, s, k);
    } else {
      assert Insert(c, s) == [s[0]] + Insert(c, s[1..]);
      DifferentKeysIfNotLe(c, s[0]);
      InsertWithKey(c, s[1..], k);
      WithKeyStep(c, s[0], Insert(c, s[1..]), s[1..], k);
      assert [s[0]] + s[1..] == s;
    }
  }

  /** The sort is stable, as LINQ's `OrderBy(...).ThenBy(...)` is: events whose four sort
      keys are all equal come out in their input order. */
  lemma {:induction false} OrderChangesStable(s: seq<ColumnChange>, k: (int, bool, nat, string))
    ensures WithKey(OrderChanges(s), k) == WithKey(s, k)
  {
    if s != [] {
      OrderChangesStable(s[1..], k);
      InsertWithKey(s[0], OrderChanges(s[1..]), k);
    }
  }

  /** A coarse numeric key that the full order refines: it compares the date,
      then start (even) before end (odd). */
  function Rank(c: ColumnChange): int {
    2 * c.ChangeDate + (if c.IsStart then 0 else 1)
  }

  predicate RankSorted(s: seq<ColumnChange>) {
    forall i, j :: 0 <= i <= j < |s| ==> Rank(s[i]) <= Rank(s[j])
  }

  lemma {:induction false} OrderedIsRankSorted(s: seq<ColumnChange>)
    requires Ordered(s)
    ensures RankSorted(s)
  {
    if |s| > 1 {
      assert Ordered(s[1..]) by {
        forall i | 0 <= i < |s[1..]| - 1 ensures ChangeLe(s[1..][i], s[1..][i + 1]) {
          assert s[1..][i] == s[i + 1] && s[1..][i + 1] == s[i + 2];
        }
      }
      OrderedIsRankSorted(s[1..]);
      assert Rank(s[0]) <= Rank(s[1]) by { assert ChangeLe(s[0], s[1]); }
      forall i, j | 0 <= i <= j < |s| ensures Rank(s[i]) <= Rank(s[j]) {
        if 0 < i {
          assert s[i] == s[1..][i - 1] && s[j] == s[1..][j - 1];
        } else if 0 < j {
          assert s[1] == s[1..][0] && s[j] == s[1..][j - 1];
        }
      }
    }
  }

  /** The sorted event list of a list of iterations. */
  function SortedChanges(iterations: seq<Iteration>): (r: seq<ColumnChange>)
    ensures |r| == 2 * |iterations|
  {
    OrderChanges(Changes(iterations))
  }

  /** Everything later proofs need about the sorted events: they are ordered, rank-sorted,
      and exactly the events of the input, each well formed. */
  lemma SortedChangesFacts(iterations: seq<Iteration>)
    ensures Ordered(SortedChanges(iterations)) && RankSorted(SortedChanges(iterations))
    ensures forall c :: c in SortedChanges(iterations) <==> c in Changes(iterations)
    ensures forall c :: c in SortedChanges(iterations) ==> WellFormed(c) && c.Iteration in iterations
    ensures forall it :: it in iterations ==> StartChange(it) in SortedChanges(iterations) && EndChange(it) in SortedChanges(iterations)
  {
    var s := SortedChanges(iterations);
    OrderChangesOrdered(Changes(iterations));
    OrderedIsRankSorted(s);
    ChangesMembers(iterations);
    assert forall c :: c in s <==> c in multiset(s);
    assert forall c :: c in Changes(iterations) <==> c in multiset(Changes(iterations));
  }

  /** Sorting puts the start of an iteration before the end of any iteration that ends on or
      after that day, so an iteration starting on another's end date overlaps it. */
  lemma StartBeforeEndOnSameDay(s: seq<ColumnChange>, i: nat, j: nat)
    requires RankSorted(s) && i < |s| && j < |s|
    requires s[i].IsStart && !s[j].IsStart && s[i].ChangeDate <= s[j].ChangeDate
    ensures i < j
  {
  }

  // ---------------------------------------------------------------------------
  // Counting events of a given kind

  datatype Filter =
    | StartsAt(level: nat)
    | EndsAt(level: nat)
    | StartsBefore(level: nat, date: int)
    | EndsBefore(level: nat, date: int)

  predicate Matches(f: Filter, c: ColumnChange) {
    match f
    case StartsAt(l) => c.IsStart && c.Level == l
    case EndsAt(l) => !c.IsStart && c.Level == l
    case StartsBefore(l, d) => c.IsStart && c.Level == l && c.ChangeDate < d
    case EndsBefore(l, d) => !c.IsStart && c.Level == l && c.ChangeDate < d
  }

  function Count(s: seq<ColumnChange>, f: Filter): nat {
    if s == [] then 0 else Count(s[1..], f) + (if Matches(f, s[0]) then 1 else 0)
  }

  lemma {:induction false} CountAppend(a: seq<ColumnChange>, b: seq<ColumnChange>, f: Filter)
    ensures Count(a + b, f) == Count(a, f) + Count(b, f)
  {
    if a == [] {
      assert a + b == b;
    } else {
      assert (a + b)[1..] == a[1..] + b;
      CountAppend(a[1..], b, f);
    }
  }

  lemma CountSplit(s: seq<ColumnChange>, k: nat, f: Filter)
    requires k <= |s|
    ensures Count(s, f) == Count(s[..k], f) + Count(s[k..], f)
  {
    assert s == s[..k] + s[k..];
    CountAppend(s[..k], s[k..], f);
  }

  /** Counting one more element of a prefix. */
  lemma CountPrefixStep(s: seq<ColumnChange>, k: nat, f: Filter)
    requires k < |s|
    ensures Count(s[..k + 1], f) == Count(s[..k], f) + (if Matches(f, s[k]) then 1 else 0)
  {
    assert s[..k + 1] == s[..k] + [s[k]];
    CountAppend(s[..k], [s[k]], f);
    assert [s[k]][1..] == [];
  }

  lemma {:induction false} CountMono(s: seq<ColumnChange>, f: Filter, g: Filter)
    requires forall i :: 0 <= i < |s| ==> Matches(f, s[i]) ==> Matches(g, s[i])
    ensures Count(s, f) <= Count(s, g)
  {
    if s != [] {
      CountMono(s[1..], f, g);
    }
  }

  lemma {:induction false} CountNone(s: seq<ColumnChange>, f: Filter)
    requires forall i :: 0 <= i < |s| ==> !Matches(f, s[i])
    ensures Count(s, f) == 0
  {
    if s != [] {
      CountNone(s[1..], f);
    }
  }

  lemma {:induction false} CountInsert(c: ColumnChange, s: seq<ColumnChange>, f: Filter)
    ensures Count(Insert(c, s), f) == Count(s, f) + (if Matches(f, c) then 1 else 0)
  {
    if s == [] || ChangeLe(c, s[0]) {
      assert ([c] + s)[1..] == s;
    } else {
      CountInsert(c, s[1..], f);
      assert ([s[0]] + Insert(c, s[1..]))[1..] == Insert(c, s[1..]);
    }
  }

  /** Sorting does not change how many events of any kind there are. */
  lemma {:induction false} CountOrderChanges(s: seq<ColumnChange>, f: Filter)
    ensures Count(OrderChanges(s), f) == Count(s, f)
  {
    if s != [] {
      CountOrderChanges(s[1..], f);
      CountInsert(s[0], OrderChanges(s[1..]), f);
    }
  }

  predicate StartsNoLaterThanEnds(iterations: seq<Iteration>) {
    forall it :: it in iterations ==> it.StartDate <= it.EndDate
  }

  /** Among the input's events, iterations ending before a day are fewer than those starting
      before it, level by level, when no iteration ends before it starts. */
  lemma {:induction false} EndsBeforeAtMostStartsBefore(iterations: seq<Iteration>, level: nat, d: int)
    requires StartsNoLaterThanEnds(iterations)
    ensures Count(Changes(iterations), EndsBefore(level, d)) <= Count(Changes(iterations), StartsBefore(level, d))
  {
    if iterations != [] {
      var it := iterations[0];
      var rest := Changes(iterations[1..]);
      assert StartsNoLaterThanEnds(iterations[1..]) by {
        forall x | x in iterations[1..] ensures x.StartDate <= x.EndDate {
          assert x in iterations;
        }
      }
      EndsBeforeAtMostStartsBefore(iterations[1..], level, d);
      var head := [StartChange(it), EndChange(it)];
      assert Changes(iterations) == head + rest;
      CountAppend(head, rest, EndsBefore(level, d));
      CountAppend(head, rest, StartsBefore(level, d));
      HeadCounts(it, level, d);
    }
  }

  lemma HeadCounts(it: Iteration, level: nat, d: int)
    requires it.StartDate <= it.EndDate
    ensures Count([StartChange(it), EndChange(it)], EndsBefore(level, d)) <= Count([StartChange(it), EndChange(it)], StartsBefore(level, d))
  {
    var head := [StartChange(it), EndChange(it)];
    assert head[1..] == [EndChange(it)] && head[1..][1..] == [];
    var e, b := EndsBefore(level, d), StartsBefore(level, d);
    assert Count(head, e) == Count([EndChange(it)], e) + 0;
    assert Count(head, b) == Count([EndChange(it)], b) + (if it.StartDate < d && CalculateIterationLevel(it.IterationPath) == level then 1 else 0);
    assert Count([EndChange(it)], e) == (if it.EndDate < d && CalculateIterationLevel(it.IterationPath) == level then 1 else 0);
    assert Count([EndChange(it)], b) == 0;
  }

  /** The number of iterations of a level open at a point of the sorted sweep. */
  function Overlap(s: seq<ColumnChange>, k: nat, level: nat): int
    requires k <= |s|
  {
    Count(s[..k], StartsAt(level)) - Count(s[..k], EndsAt(level))
  }

  /** When a start event is reached, every earlier end at its level belongs to an iteration
      that started earlier, so the count of open iterations, this one included, is at least one. */
  lemma OverlapAtStartPositive(iterations: seq<Iteration>, k: nat)
    requires StartsNoLaterThanEnds(iterations)
    requires k < |SortedChanges(iterations)| && SortedChanges(iterations)[k].IsStart
    ensures Overlap(SortedChanges(iterations), k + 1, SortedChanges(iterations)[k].Level) >= 1
  {
    var s := SortedChanges(iterations);
    OrderChangesOrdered(Changes(iterations));
    OrderedIsRankSorted(s);
    var L, d := s[k].Level, s[k].ChangeDate;
    EndsBeforeReachedStart(s, k);
    SortedEndsAtMostStarts(iterations, L, d);
    StartsBeforeReachedStart(s, k);
    CountPrefixStep(s, k, StartsAt(L));
    CountPrefixStep(s, k, EndsAt(L));
  }

  /** On a rank-sorted list, the ends of a start's level that come before it all lie on an earlier day. */
  lemma EndsBeforeReachedStart(s: seq<ColumnChange>, k: nat)
    requires RankSorted(s) && k < |s| && s[k].IsStart
    ensures Count(s[..k], EndsAt(s[k].Level)) <= Count(s, EndsBefore(s[k].Level, s[k].ChangeDate))
  {
    var L, d := s[k].Level, s[k].ChangeDate;
    var pre := s[..k];
    forall i | 0 <= i < |pre| ensures Matches(EndsAt(L), pre[i]) ==> Matches(EndsBefore(L, d), pre[i]) {
      assert pre[i] == s[i] && Rank(s[i]) <= Rank(s[k]);
    }
    CountMono(pre, EndsAt(L), EndsBefore(L, d));
    CountSplit(s, k, EndsBefore(L, d));
  }

  /** On a rank-sorted list, the starts of a level on a day before a start's day all come before it. */
  lemma StartsBeforeReachedStart(s: seq<ColumnChange>, k: nat)
    requires RankSorted(s) && k < |s| && s[k].IsStart
    ensures Count(s, StartsBefore(s[k].Level, s[k].ChangeDate)) <= Count(s[..k], StartsAt(s[k].Level))
  {
    var L, d := s[k].Level, s[k].ChangeDate;
    CountSplit(s, k, StartsBefore(L, d));
    forall i | 0 <= i < |s[k..]| ensures !Matches(StartsBefore(L, d), s[k..][i]) {
      assert s[k..][i] == s[k + i] && Rank(s[k]) <= Rank(s[k + i]);
    }
    CountNone(s[k..], StartsBefore(L, d));
    CountMono(s[..k], StartsBefore(L, d), StartsAt(L));
  }

  /** Sorting keeps the count of ends before a day at most the count of starts before it. */
  lemma SortedEndsAtMostStarts(iterations: seq<Iteration>, level: nat, d: int)
    requires StartsNoLaterThanEnds(iterations)
    ensures Count(SortedChanges(iterations), EndsBefore(level, d)) <= Count(SortedChanges(iterations), StartsBefore(level, d))
  {
    CountOrderChanges(Changes(iterations), EndsBefore(level, d));
    CountOrderChanges(Changes(iterations), StartsBefore(level, d));
    EndsBeforeAtMostStartsBefore(iterations, level, d);
  }
}
