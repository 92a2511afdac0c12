/**
 * The poll list ordering of the `POST /polls` route (app.js:207-225): the
 * submitted `sort` label picks a comparator and the polls are put in a
 * stable sort by it. The default comparator `a - b` subtracts two documents,
 * which is `NaN`; the sort reads `NaN` as "equal", so the list keeps its order.
 */
module PollListing {
  import opened PollTypes

  datatype SortOrder = TotalAscending | TotalDescending | DateEarliestFirst | DateLatestFirst | Unordered

  /** The text of the list page's choice that selects `order`; the default comparator has none. */
  function LabelOf(order: SortOrder): Field<string>
  {
    match order
    case TotalAscending => Defined("Total Responses (Ascending)")
    case TotalDescending => Defined("Total Responses (Descending)")
    case DateEarliestFirst => Defined("Date Created (Earliest First)")
    case DateLatestFirst => Defined("Date Created (Latest First)")
    case Unordered => Undefined
  }

  /** The if-chain over the submitted label; an absent or unknown label keeps the default comparator. */
  function SortOrderFor(sortName: Field<string>): (r: SortOrder)
    ensures r != Unordered ==> sortName == LabelOf(r)
    ensures sortName.Undefined? ==> r == Unordered
  {
    if sortName == Defined("Total Responses (Ascending)") then TotalAscending
    else if sortName == Defined("Total Responses (Descending)") then TotalDescending
    else if sortName == Defined("Date Created (Earliest First)") then DateEarliestFirst
    else if sortName == Defined("Date Created (Latest First)") then DateLatestFirst
    else Unordered
  }

  /** Each choice's label selects its own comparator, and no label selects the default one. */
  lemma SortOrderForLabel(order: SortOrder)
    ensures SortOrderFor(LabelOf(order)) == order
  {
    match order
    case TotalAscending =>
    case TotalDescending =>
      assert "Total Responses (Descending)"[17] != "Total Responses (Ascending)"[17];
    case DateEarliestFirst =>
      assert "Date Created (Earliest First)"[0] != "Total Responses (Ascending)"[0];
      assert "Date Created (Earliest First)"[0] != "Total Responses (Descending)"[0];
    case DateLatestFirst =>
      assert "Date Created (Latest First)"[0] != "Total Responses (Ascending)"[0];
      assert "Date Created (Latest First)"[0] != "Total Responses (Descending)"[0];
      assert "Date Created (Latest First)"[14] != "Date Created (Earliest First)"[14];
    case Unordered =>
  }

  /**
   * The chosen comparator: negative puts `a` first, positive puts `b` first,
   * zero keeps their order. Each is the difference of one key of the polls.
   */
  function Compare(order: SortOrder, a: PollState, b: PollState): (r: int)
    ensures r == Rank(order, a) - Rank(order, b)
  {
    match order
    case TotalAscending => a.totalResponses - b.totalResponses
    case TotalDescending => b.totalResponses - a.totalResponses
    case DateEarliestFirst => a.dateCreated - b.dateCreated
    case DateLatestFirst => b.dateCreated - a.dateCreated
    case Unordered => 0
  }

  /** The key each comparator compares: `Compare(order, a, b)` is the difference of the ranks. */
  function Rank(order: SortOrder, p: PollState): int
  {
    match order
    case TotalAscending => p.totalResponses
    case TotalDescending => -(p.totalResponses as int)
    case DateEarliestFirst => p.dateCreated
    case DateLatestFirst => -p.dateCreated
    case Unordered => 0
  }

  ghost predicate Sorted(order: SortOrder, polls: seq<PollState>)
  {
    forall i, j :: 0 <= i < j < |polls| ==> Rank(order, polls[i]) <= Rank(order, polls[j])
  }

  /** Place `x` after every element of `sorted` that the comparator does not rank above it. */
  function Insert(order: SortOrder, sorted: seq<PollState>, x: PollState): seq<PollState>
    decreases |sorted|
  {
    if sorted == [] then [x]
    else if Compare(order, sorted[|sorted| - 1], x) <= 0 then sorted + [x]
    else Insert(order, sorted[..|sorted| - 1], x) + [sorted[|sorted| - 1]]
  }

  /** Inserting adds `x` and loses nothing. */
  lemma {:induction false} InsertPermutes(order: SortOrder, sorted: seq<PollState>, x: PollState)
    ensures multiset(Insert(order, sorted, x)) == multiset(sorted) + multiset{x}
    decreases |sorted|
  {
    if sorted != [] {
      var n := |sorted|;
      assert sorted == sorted[..n - 1] + [sorted[n - 1]];
      InsertPermutes(order, sorted[..n - 1], x);
    }
  }

  /** A bound on the ranks of a list and of `x` bounds the ranks after inserting `x`. */
  lemma {:induction false} InsertKeepsBound(order: SortOrder, sorted: seq<PollState>, x: PollState, bound: int)
    requires forall i :: 0 <= i < |sorted| ==> Rank(order, sorted[i]) <= bound
    requires Rank(order, x) <= bound
    ensures forall i :: 0 <= i < |Insert(order, sorted, x)| ==> Rank(order, Insert(order, sorted, x)[i]) <= bound
    decreases |sorted|
  {
    if sorted != [] {
      var n := |sorted|;
      if Compare(order, sorted[n - 1], x) > 0 {
        InsertKeepsBound(order, sorted[..n - 1], x, bound);
      }
    }
  }

  /** Inserting into a sorted list gives a sorted list. */
  lemma {:induction false} InsertKeepsSorted(order: SortOrder, sorted: seq<PollState>, x: PollState)
    requires Sorted(order, sorted)
    ensures Sorted(order, Insert(order, sorted, x))
    decreases |sorted|
  {
    if sorted != [] {
      var n := |sorted|;
      var last := sorted[n - 1];
      if Compare(order, last, x) > 0 {
        var front := Insert(order, sorted[..n - 1], x);
        InsertKeepsSorted(order, sorted[..n - 1], x);
        InsertKeepsBound(order, sorted[..n - 1], x, Rank(order, last));
        SortedSnoc(order, front, last);
      } else {
        SortedSnoc(order, sorted, x);
      }
    }
  }

  lemma SortedSnoc(order: SortOrder, front: seq<PollState>, last: PollState)
    requires Sorted(order, front)
    requires forall i :: 0 <= i < |front| ==> Rank(order, front[i]) <= Rank(order, last)
    ensures Sorted(order, front + [last])
  {
  }

  /** The list sorted by the comparator: a permutation of the input, in non-decreasing rank. */
  function SortPolls(order: SortOrder, polls: seq<PollState>): (r: seq<PollState>)
    ensures multiset(r) == multiset(polls)
    ensures Sorted(order, r)
  {
    if polls == [] then []
    else
      var n := |polls|;
      assert polls == polls[..n - 1] + [polls[n - 1]];
      var front := SortPolls(order, polls[..n - 1]);
      InsertKeepsSorted(order, front, polls[n - 1]);
      InsertPermutes(order, front, polls[n - 1]);
      Insert(order, front, polls[n - 1])
  }

  /** The route's ordering of the polls for the submitted `sort` label. */
  function ListPolls(sortName: Field<string>, polls: seq<PollState>): (r: seq<PollState>)
    ensures multiset(r) == multiset(polls)
    ensures Sorted(SortOrderFor(sortName), r)
  {
    SortPolls(SortOrderFor(sortName), polls)
  }

  /** The polls of rank `k`, in list order. */
  function WithRank(order: SortOrder, polls: seq<PollState>, k: int): seq<PollState>
  {
    if polls == [] then []
    else WithRank(order, polls[..|polls| - 1], k) + (if Rank(order, polls[|polls| - 1]) == k then [polls[|polls| - 1]] else [])
  }

  lemma {:induction false} WithRankConcat(order: SortOrder, a: seq<PollState>, b: seq<PollState>, k: int)
    ensures WithRank(order, a + b, k) == WithRank(order, a, k) + WithRank(order, b, k)
    decreases |b|
  {
    if b == [] {
      assert a + b == a;
    } else {
      var n := |b|;
      assert (a + b)[..|a + b| - 1] == a + b[..n - 1];
      assert (a + b)[|a + b| - 1] == b[n - 1];
      WithRankConcat(order, a, b[..n - 1], k);
    }
  }

  lemma WithRankSingleton(order: SortOrder, x: PollState, k: int)
    ensures WithRank(order, [x], k) == if Rank(order, x) == k then [x] else []
  {
    assert [x][..0] == [];
  }

  /** Putting `last` behind the inserted element keeps the rank-`k` subsequence when `last` ranks above it. */
  lemma StableStep(order: SortOrder, front: seq<PollState>, init: seq<PollState>, last: PollState, x: PollState, k: int)
    requires WithRank(order, front, k) == WithRank(order, init, k) + (if Rank(order, x) == k then [x] else [])
    requires Rank(order, x) < Rank(order, last)
    ensures WithRank(order, front + [last], k) ==
            WithRank(order, init + [last], k) + (if Rank(order, x) == k then [x] else [])
  {
    WithRankConcat(order, front, [last], k);
    WithRankConcat(order, init, [last], k);
    WithRankSingleton(order, last, k);
  }

  /** Inserting keeps the relative order of the elements of every rank, the new one coming last among its rank. */
  lemma {:induction false} InsertIsStable(order: SortOrder, sorted: seq<PollState>, x: PollState, k: int)
    ensures WithRank(order, Insert(order, sorted, x), k) ==
            WithRank(order, sorted, k) + (if Rank(order, x) == k then [x] else [])
    decreases |sorted|
  {
    if sorted == [] {
      WithRankSingleton(order, x, k);
    } else {
      var n := |sorted|;
      var last := sorted[n - 1];
      var init := sorted[..n - 1];
      if Compare(order, last, x) <= 0 {
        WithRankConcat(order, sorted, [x], k);
        WithRankSingleton(order, x, k);
      } else {
        InsertIsStable(order, init, x, k);
        StableStep(order, Insert(order, init, x), init, last, x, k);
        assert init + [last] == sorted;
      }
    }
  }

  /** Polls that compare equal come out in the order they went in. */
  lemma {:induction false} SortPollsIsStable(order: SortOrder, polls: seq<PollState>, k: int)
    ensures WithRank(order, SortPolls(order, polls), k) == WithRank(order, polls, k)
  {
    if polls != [] {
      var n := |polls|;
      SortPollsIsStable(order, polls[..n - 1], k);
      InsertIsStable(order, SortPolls(order, polls[..n - 1]), polls[n - 1], k);
    }
  }

  /** With the default comparator every pair is equal, so the list is returned as it was. */
  lemma {:induction false} UnorderedKeepsOrder(polls: seq<PollState>)
    ensures SortPolls(Unordered, polls) == polls
  {
    if polls != [] {
      var n := |polls|;
      UnorderedKeepsOrder(polls[..n - 1]);
      assert Insert(Unordered, polls[..n - 1], polls[n - 1]) == polls[..n - 1] + [polls[n - 1]];
      assert polls[..n - 1] + [polls[n - 1]] == polls;
    }
  }

  /** What each of the four labels, and any other label, does to the list. */
  lemma ListPollsOrder(sortName: Field<string>, polls: seq<PollState>)
    ensures var r := ListPolls(sortName, polls);
      multiset(r) == multiset(polls) &&
      (sortName == Defined("Total Responses (Ascending)") ==>
        forall i :: 0 <= i < |r| - 1 ==> r[i].totalResponses <= r[i + 1].totalResponses) &&
      (sortName == Defined("Total Responses (Descending)") ==>
        forall i :: 0 <= i < |r| - 1 ==> r[i].totalResponses >= r[i + 1].totalResponses) &&
      (sortName == Defined("Date Created (Earliest First)") ==>
        forall i :: 0 <= i < |r| - 1 ==> r[i].dateCreated <= r[i + 1].dateCreated) &&
      (sortName == Defined("Date Created (Latest First)") ==>
        forall i :: 0 <= i < |r| - 1 ==> r[i].dateCreated >= r[i + 1].dateCreated) &&
      (SortOrderFor(sortName) == Unordered ==> r == polls)
  {
    var order := SortOrderFor(sortName);
    var r := ListPolls(sortName, polls);
    assert forall i :: 0 <= i < |r| - 1 ==> Rank(order, r[i]) <= Rank(order, r[i + 1]);
    if order == Unordered {
      UnorderedKeepsOrder(polls);
    }
  }
}
