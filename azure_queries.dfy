/** The pure parts of the Azure DevOps queries (AppExtensions/AzureDevOpsTools/AzureQueries.cs):
    choosing the roadmap's work item types, building the WIQL query, cutting the returned
    IDs into request batches, turning team iterations into roadmap columns and matching a
    work item to the column of its iteration path. The service calls themselves are not
    modelled; their results are parameters. */
module AzureQueries {
  import opened Wrappers
  import opened RoadmapEntries

  // ---------------------------------------------------------------------------------
  // Automatic type selection
  // ---------------------------------------------------------------------------------

  const UserStory: string := "User Story"
  const Bug: string := "Bug"
  const ProductBacklogItem: string := "Product Backlog Item"

  /** How many of the process's work item types carry this name. */
  function Occurrences(names: seq<string>, name: string): (n: nat)
    ensures n <= |names|
    ensures n > 0 <==> name in names
  {
    if |names| == 0 then 0
    else (if names[0] == name then 1 else 0) + Occurrences(names[1..], name)
  }

  /** The work item types shown on an automatic roadmap, given the names of the
      project's work item types: a single "User Story" type, or failing that a single
      "Product Backlog Item" type, followed by a single "Bug" type. */
  method GetAutomaticRoadmapTypes(workItemTypes: seq<string>) returns (result: seq<string>)
    ensures |result| <= 2
    ensures UserStory in result <==> Occurrences(workItemTypes, UserStory) == 1
    ensures ProductBacklogItem in result <==>
              Occurrences(workItemTypes, UserStory) != 1 && Occurrences(workItemTypes, ProductBacklogItem) == 1
    ensures Bug in result <==> Occurrences(workItemTypes, Bug) == 1
    ensures Bug in result ==> result[|result| - 1] == Bug
    ensures forall i, j :: 0 <= i < j < |result| ==> result[i] != result[j]
    ensures forall t :: t in result ==> t in workItemTypes
    ensures forall t :: t in result ==> t == UserStory || t == ProductBacklogItem || t == Bug
  {
    result := [];
    if Occurrences(workItemTypes, UserStory) == 1 {
      result := result + [UserStory];
    } else if Occurrences(workItemTypes, ProductBacklogItem) == 1 {
      result := result + [ProductBacklogItem];
    }
    if Occurrences(workItemTypes, Bug) == 1 {
      result := result + [Bug];
    }
  }

  // ---------------------------------------------------------------------------------
  // The WIQL query
  // ---------------------------------------------------------------------------------

  function Quote(s: string): string {
    "'" + s + "'"
  }

  function QuoteAll(items: seq<string>): (r: seq<string>)
    ensures |r| == |items|
    ensures forall i :: 0 <= i < |items| ==> r[i] == Quote(items[i])
  {
    if |items| == 0 then [] else [Quote(items[0])] + QuoteAll(items[1..])
  }

  /** `string.Join(separator, items)`. */
  function Join(separator: string, items: seq<string>): string {
    if |items| == 0 then ""
    else if |items| == 1 then items[0]
    else items[0] + separator + Join(separator, items[1..])
  }

  /** `SelectMany` over a sequence of lists, keeping their order. */
  function Flatten<T(!new)>(lists: seq<seq<T>>): (r: seq<T>)
    ensures forall x :: x in r <==> exists l :: l in lists && x in l
  {
    if |lists| == 0 then []
    else
      var init := Flatten(lists[..|lists| - 1]);
      assert forall l :: l in lists <==> l in lists[..|lists| - 1] || l == lists[|lists| - 1];
      init + lists[|lists| - 1]
  }

  lemma FlattenAppend<T(!new)>(lists: seq<seq<T>>, last: seq<T>)
    ensures Flatten(lists + [last]) == Flatten(lists) + last
  {
    assert (lists + [last])[..|lists|] == lists;
  }

  /** LINQ `Distinct`: the first occurrence of every value, in order. */
  function Distinct(xs: seq<string>): (d: seq<string>)
    ensures |d| <= |xs|
    ensures forall x :: x in d <==> x in xs
    ensures forall i, j :: 0 <= i < j < |d| ==> d[i] != d[j]
  {
    if |xs| == 0 then []
    else
      var d := Distinct(xs[..|xs| - 1]);
      assert forall x :: x in xs <==> x in xs[..|xs| - 1] || x == xs[|xs| - 1];
      if xs[|xs| - 1] in d then d else d + [xs[|xs| - 1]]
  }

  /** A list without repetitions is its own `Distinct`. */
  lemma {:induction false} DistinctOfDistinct(xs: seq<string>)
    requires forall i, j :: 0 <= i < j < |xs| ==> xs[i] != xs[j]
    ensures Distinct(xs) == xs
  {
    if |xs| > 0 {
      var init := xs[..|xs| - 1];
      DistinctOfDistinct(init);
      assert xs[|xs| - 1] !in init;
      assert init + [xs[|xs| - 1]] == xs;
    }
  }

  /** Removing repetitions twice is removing them once. */
  lemma DistinctIdempotent(xs: seq<string>)
    ensures Distinct(Distinct(xs)) == Distinct(xs)
  {
    DistinctOfDistinct(Distinct(xs));
  }

  /** Quoting before or after removing repetitions gives the same list, since quoting is injective. */
  lemma {:induction false} DistinctQuoted(xs: seq<string>)
    ensures Distinct(QuoteAll(xs)) == QuoteAll(Distinct(xs))
  {
    if |xs| > 0 {
      var init, last := xs[..|xs| - 1], xs[|xs| - 1];
      assert xs == init + [last];
      DistinctQuoted(init);
      QuoteAllAppend(init, last);
      DistinctSnoc(QuoteAll(init), Quote(last));
      DistinctSnoc(init, last);
      QuotedMember(Distinct(init), last);
      QuoteAllAppend(Distinct(init), last);
    }
  }

  lemma DistinctSnoc(xs: seq<string>, x: string)
    ensures Distinct(xs + [x]) == if x in Distinct(xs) then Distinct(xs) else Distinct(xs) + [x]
  {
    assert (xs + [x])[..|xs|] == xs;
  }

  /** A quoted string is among the quoted list exactly when the string is in the list. */
  lemma QuotedMember(xs: seq<string>, x: string)
    ensures Quote(x) in QuoteAll(xs) <==> x in xs
  {
    if Quote(x) in QuoteAll(xs) {
      var i :| 0 <= i < |xs| && QuoteAll(xs)[i] == Quote(x);
      assert Quote(xs[i])[1..|Quote(x)| - 1] == xs[i];
    }
  }

  lemma QuoteAllAppend(xs: seq<string>, x: string)
    ensures QuoteAll(xs + [x]) == QuoteAll(xs) + [Quote(x)]
  {
  }

  const QueryHead: string := "SELECT [System.Id] FROM WorkItems WHERE [System.WorkItemType] IN ("
  const QueryMiddle: string := ") AND [System.AreaPath] IN ("
  const QueryTail: string := ")"

  /** The query selecting every work item of one of `types` in one of the teams' areas. */
  function WiqlQuery(types: seq<string>, areasByTeam: seq<seq<string>>): (q: string)
    ensures |q| >= |QueryHead| + |QueryTail|
    ensures q[..|QueryHead|] == QueryHead && q[|q| - |QueryTail|..] == QueryTail
  {
    QueryHead + Join(", ", QuoteAll(types)) + QueryMiddle
      + Join(", ", Distinct(QuoteAll(Flatten(areasByTeam)))) + QueryTail
  }

  /** The text up to the first quote and the text after it, if there is a quote. */
  function SplitAtQuote(s: string): (r: Option<(string, string)>)
    ensures r.Some? ==> |r.value.1| < |s|
  {
    if |s| == 0 then None
    else if s[0] == '\'' then Some(("", s[1..]))
    else
      match SplitAtQuote(s[1..])
      case None => None
      case Some((item, rest)) => Some(([s[0]] + item, rest))
  }

  /** Reads back a non-empty list of quoted values separated by ", ". */
  function ParseQuotedItems(s: string): Option<seq<string>>
    decreases |s|
  {
    if |s| == 0 || s[0] != '\'' then None
    else
      match SplitAtQuote(s[1..])
      case None => None
      case Some((item, rest)) =>
        if rest == "" then Some([item])
        else if |rest| >= 2 && rest[..2] == ", " then
          match ParseQuotedItems(rest[2..])
          case None => None
          case Some(items) => Some([item] + items)
        else None
  }

  /** Reads back a list written by `Join(", ", QuoteAll(items))`. */
  function ParseQuotedList(s: string): Option<seq<string>> {
    if s == "" then Some([]) else ParseQuotedItems(s)
  }

  lemma {:induction false} SplitAtQuoteOf(item: string, rest: string)
    requires '\'' !in item
    ensures SplitAtQuote(item + "'" + rest) == Some((item, rest))
  {
    if |item| > 0 {
      SplitAtQuoteOf(item[1..], rest);
      assert (item + "'" + rest)[1..] == item[1..] + "'" + rest;
      assert [item[0]] + item[1..] == item;
    } else {
      assert item + "'" + rest == "'" + rest;
    }
  }

  lemma {:induction false} QuotedItemsRoundTrip(items: seq<string>)
    requires |items| > 0
    requires forall x :: x in items ==> '\'' !in x
    ensures ParseQuotedItems(Join(", ", QuoteAll(items))) == Some(items)
  {
    var q := QuoteAll(items);
    var rest := if |items| == 1 then "" else ", " + Join(", ", q[1..]);
    var s := Join(", ", q);
    assert s == "'" + (items[0] + "'" + rest);
    SplitAtQuoteOf(items[0], rest);
    assert s[0] == '\'' && s[1..] == items[0] + "'" + rest;
    assert SplitAtQuote(s[1..]) == Some((items[0], rest));
    if |items| == 1 {
      assert items == [items[0]];
    } else {
      assert q[1..] == QuoteAll(items[1..]);
      QuotedItemsRoundTrip(items[1..]);
      assert rest != "" && |rest| >= 2 && rest[..2] == ", ";
      assert rest[2..] == Join(", ", QuoteAll(items[1..]));
      assert [items[0]] + items[1..] == items;
    }
  }

  /** Every value without a quote character is read back from the joined list, in order. */
  lemma QuotedListRoundTrip(items: seq<string>)
    requires forall x :: x in items ==> '\'' !in x
    ensures ParseQuotedList(Join(", ", QuoteAll(items))) == Some(items)
  {
    if |items| > 0 {
      QuotedItemsRoundTrip(items);
      assert Join(", ", QuoteAll(items)) != "" by {
        assert Join(", ", QuoteAll(items))[0] == '\'';
      }
    }
  }

  /** The query names each requested type and each distinct area once, quoted and separated by ", ". */
  lemma QueryListsTypesAndAreas(types: seq<string>, areasByTeam: seq<seq<string>>)
    requires forall t :: t in types ==> '\'' !in t
    requires forall l, a :: l in areasByTeam && a in l ==> '\'' !in a
    ensures exists typeList, areaList ::
              WiqlQuery(types, areasByTeam) == QueryHead + typeList + QueryMiddle + areaList + QueryTail
              && ParseQuotedList(typeList) == Some(types)
              && ParseQuotedList(areaList) == Some(Distinct(Flatten(areasByTeam)))
  {
    var areas := Flatten(areasByTeam);
    QuotedListRoundTrip(types);
    DistinctQuoted(areas);
    QuotedListRoundTrip(Distinct(areas));
    var typeList := Join(", ", QuoteAll(types));
    var areaList := Join(", ", Distinct(QuoteAll(areas)));
    assert WiqlQuery(types, areasByTeam) == QueryHead + typeList + QueryMiddle + areaList + QueryTail;
  }

  // ---------------------------------------------------------------------------------
  // Request batches
  // ---------------------------------------------------------------------------------

  const BatchSize: nat := 200

  /** Cuts the IDs returned by the query into consecutive batches of at most 200, one
      work item request each. */
  method BatchIds(workItemIds: seq<int>) returns (batches: seq<seq<int>>)
    ensures Flatten(batches) == workItemIds
    ensures forall b :: b in batches ==> 0 < |b| <= BatchSize
    ensures forall k :: 0 <= k < |batches| - 1 ==> |batches[k]| == BatchSize
    ensures |batches| == (|workItemIds| + BatchSize - 1) / BatchSize
  {
    batches := [];
    var i := 0;
    while i < |workItemIds|
      invariant i == BatchSize * |batches|
      invariant |batches| > 0 ==> i - BatchSize < |workItemIds|
      invariant Flatten(batches) == workItemIds[..if i < |workItemIds| then i else |workItemIds|]
      invariant forall b :: b in batches ==> 0 < |b| <= BatchSize
      invariant forall k :: 0 <= k < |batches| ==> |batches[k]| == BatchSize || i >= |workItemIds|
      invariant forall k :: 0 <= k < |batches| - 1 ==> |batches[k]| == BatchSize
      decreases |workItemIds| - i
    {
      var end := if i + BatchSize < |workItemIds| then i + BatchSize else |workItemIds|;
      var idsBatch := workItemIds[i..end];
      FlattenAppend(batches, idsBatch);
      assert workItemIds[..end] == workItemIds[..i] + idsBatch;
      batches := batches + [idsBatch];
      i := i + BatchSize;
    }
    assert workItemIds[..|workItemIds|] == workItemIds;
  }

  // ---------------------------------------------------------------------------------
  // Columns
  // ---------------------------------------------------------------------------------

  /** A team iteration as the service returns it; either date may be unset. */
  datatype TeamSettingsIteration =
    TeamSettingsIteration(Path: string, Name: string, StartDate: Option<Day>, FinishDate: Option<Day>)

  predicate HasDates(t: TeamSettingsIteration) {
    t.StartDate.Some? && t.FinishDate.Some?
  }

  function ToColumn(t: TeamSettingsIteration): Iteration
    requires HasDates(t)
  {
    Iteration(t.Path, t.Name, t.StartDate.value, t.FinishDate.value)
  }

  /** The roadmap columns: the team iterations that have both dates, in their order. */
  function CalculateColumns(iterations: seq<TeamSettingsIteration>): (columns: seq<Iteration>)
    ensures |columns| <= |iterations|
    ensures forall c :: c in columns ==> exists t :: t in iterations && HasDates(t) && ToColumn(t) == c
    ensures forall t :: t in iterations && HasDates(t) ==> ToColumn(t) in columns
  {
    if |iterations| == 0 then []
    else
      var rest := CalculateColumns(iterations[1..]);
      assert forall t :: t in iterations[1..] ==> t in iterations;
      if HasDates(iterations[0]) then [ToColumn(iterations[0])] + rest else rest
  }

  /** Columns keep the order of the iterations: filtering distributes over concatenation. */
  lemma {:induction false} CalculateColumnsAppend(a: seq<TeamSettingsIteration>, b: seq<TeamSettingsIteration>)
    ensures CalculateColumns(a + b) == CalculateColumns(a) + CalculateColumns(b)
  {
    if |a| > 0 {
      assert (a + b)[1..] == a[1..] + b;
      CalculateColumnsAppend(a[1..], b);
    } else {
      assert a + b == b;
    }
  }

  /** When every iteration is dated, each one becomes the column at its own position. */
  lemma {:induction false} CalculateColumnsAllDated(iterations: seq<TeamSettingsIteration>)
    requires forall t :: t in iterations ==> HasDates(t)
    ensures |CalculateColumns(iterations)| == |iterations|
    ensures forall i :: 0 <= i < |iterations| ==> CalculateColumns(iterations)[i] == ToColumn(iterations[i])
  {
    if |iterations| > 0 {
      CalculateColumnsAllDated(iterations[1..]);
    }
  }

  // ---------------------------------------------------------------------------------
  // Column of a work item
  // ---------------------------------------------------------------------------------

  /** `columns.First()` on an empty list. */
  datatype QueryError = NoColumns

  /** Ordinal prefix test. */
  predicate StartsWith(s: string, prefix: string) {
    |prefix| <= |s| && s[..|prefix|] == prefix
  }

  ghost predicate IsCandidate(path: string, columns: seq<Iteration>, i: int) {
    0 <= i < |columns| && StartsWith(path, columns[i].IterationPath)
  }

  /** Among the first n columns, column i's path is a prefix of `path`, no such column has
      a longer path, and every earlier such column has a strictly shorter one. */
  ghost predicate IsBestAmong(path: string, columns: seq<Iteration>, n: int, i: int) {
    0 <= i < n <= |columns| && IsCandidate(path, columns, i)
    && (forall j :: j < n && IsCandidate(path, columns, j) ==> |columns[j].IterationPath| <= |columns[i].IterationPath|)
    && (forall j :: 0 <= j < i && IsCandidate(path, columns, j) ==> |columns[j].IterationPath| < |columns[i].IterationPath|)
  }

  ghost predicate IsBestCandidate(path: string, columns: seq<Iteration>, i: int) {
    IsBestAmong(path, columns, |columns|, i)
  }

  /** At most one column is the best candidate. */
  lemma BestCandidateUnique(path: string, columns: seq<Iteration>, i: int, j: int)
    requires IsBestCandidate(path, columns, i) && IsBestCandidate(path, columns, j)
    ensures i == j
  {
  }

  /** The column a work item is drawn in: the column whose path is the longest prefix of the
      item's iteration path (the earliest of equally long ones), else the first column. */
  method FindColumnForWorkItem(iterationPath: Option<string>, columns: seq<Iteration>)
    returns (r: Result<Iteration, QueryError>)
    ensures r.Failure? <==> |columns| == 0
    ensures iterationPath.None? && |columns| > 0 ==> r == Success(columns[0])
    ensures (iterationPath.Some? && |columns| > 0 && (forall j :: !IsCandidate(iterationPath.value, columns, j)))
            ==> r == Success(columns[0])
    ensures (iterationPath.Some? && (exists j :: IsCandidate(iterationPath.value, columns, j)))
            ==> exists i :: IsBestCandidate(iterationPath.value, columns, i) && r == Success(columns[i])
  {
    if iterationPath.None? {
      if |columns| == 0 {
        return Failure(NoColumns);
      }
      return Success(columns[0]);
    }
    var path := iterationPath.value;
    var bestCandidate: Option<Iteration> := None;
    ghost var best := 0;
    for k := 0 to |columns|
      invariant bestCandidate.None? ==> forall j :: 0 <= j < k ==> !IsCandidate(path, columns, j)
      invariant bestCandidate.Some? ==> best < k && bestCandidate.value == columns[best]
                                        && IsBestAmong(path, columns, k, best)
    {
      var column := columns[k];
      if StartsWith(path, column.IterationPath)
         && (bestCandidate.None? || |bestCandidate.value.IterationPath| < |column.IterationPath|) {
        bestCandidate := Some(column);
        best := k;
      }
    }
    if bestCandidate.Some? {
      return Success(bestCandidate.value);
    }
    if |columns| == 0 {
      return Failure(NoColumns);
    }
    return Success(columns[0]);
  }
}
