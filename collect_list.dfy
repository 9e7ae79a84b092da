/**
 * The task list as the collect page presents it: the case-insensitive
 * location search, the pages of five, the page navigation and the
 * shortened waste-type label.
 */
module CollectList {
  import opened JsText
  import opened CollectModel

  const ItemsPerPage: nat := 5

  /** The search keeps a task when its lower-cased location contains the lower-cased term. */
  predicate MatchesSearch(t: Task, term: string) {
    Includes(Lower(t.location), Lower(term))
  }

  /** `tasks.filter(...)` by location. */
  function FilterByLocation(ts: seq<Task>, term: string): (r: seq<Task>)
    ensures |r| <= |ts|
    ensures forall k :: 0 <= k < |r| ==> MatchesSearch(r[k], term)
    ensures forall t :: multiset(r)[t] == if MatchesSearch(t, term) then multiset(ts)[t] else 0
  {
    if ts == [] then []
    else
      var rest := FilterByLocation(ts[1..], term);
      assert ts == [ts[0]] + ts[1..];
      if MatchesSearch(ts[0], term) then [ts[0]] + rest else rest
  }

  /** The search keeps the order of the tasks it keeps. */
  lemma {:induction false} FilterKeepsOrder(ts: seq<Task>, term: string)
    ensures IsSubsequence(FilterByLocation(ts, term), ts)
  {
    if ts != [] {
      FilterKeepsOrder(ts[1..], term);
      var rest := FilterByLocation(ts[1..], term);
      if !MatchesSearch(ts[0], term) {
        SubsequenceSkip(rest, ts);
      }
    }
  }

  /** An empty search box shows every task. */
  lemma {:induction false} EmptySearchKeepsAll(ts: seq<Task>)
    ensures FilterByLocation(ts, "") == ts
  {
    if ts != [] {
      assert OccursAt(Lower(ts[0].location), Lower(""), 0);
      EmptySearchKeepsAll(ts[1..]);
      assert ts == [ts[0]] + ts[1..];
    }
  }

  /** The search ignores the case of the term. */
  lemma SearchIgnoresTermCase(t: Task, term: string)
    ensures MatchesSearch(t, Lower(term)) == MatchesSearch(t, term)
  {
    LowerIdempotent(term);
  }

  /** `Math.ceil(n / 5)`. */
  function PageCount(n: nat): (r: nat)
    ensures n <= r * ItemsPerPage
    ensures n > 0 ==> (r - 1) * ItemsPerPage < n
    ensures n == 0 <==> r == 0
  {
    (n + ItemsPerPage - 1) / ItemsPerPage
  }

  function Min(a: int, b: int): int { if a < b then a else b }

  /** `filteredTasks.slice((page - 1) * 5, page * 5)`. */
  function Paginate<T>(ts: seq<T>, page: int): (r: seq<T>)
    ensures |r| <= ItemsPerPage
    ensures forall k :: 0 <= k < |r| ==> r[k] in ts
    ensures page == 0 ==> r == []
    ensures page >= 1 && (page - 1) * ItemsPerPage >= |ts| ==> r == []
    ensures page >= 1 && (page - 1) * ItemsPerPage < |ts| ==>
      r == ts[(page - 1) * ItemsPerPage..Min(page * ItemsPerPage, |ts|)]
  {
    JsSlice(ts, (page - 1) * ItemsPerPage, page * ItemsPerPage)
  }

  /** Every page from 1 to the page count holds at least one task. */
  lemma PagesInRangeAreFull<T>(ts: seq<T>, page: int)
    requires 1 <= page <= PageCount(|ts|)
    ensures 1 <= |Paginate(ts, page)| <= ItemsPerPage
  {
  }

  /** Pages 1 to `k`, one after the other. */
  function Pages<T>(ts: seq<T>, k: nat): seq<T> {
    if k == 0 then [] else Pages(ts, k - 1) + Paginate(ts, k)
  }

  /** The first `k` pages are the first `5k` tasks. */
  lemma {:induction false} PagesArePrefix<T>(ts: seq<T>, k: nat)
    ensures Pages(ts, k) == ts[..Min(k * ItemsPerPage, |ts|)]
  {
    if k > 0 {
      PagesArePrefix(ts, k - 1);
      var lo := Min((k - 1) * ItemsPerPage, |ts|);
      if (k - 1) * ItemsPerPage < |ts| {
        assert ts[..lo] + ts[lo..Min(k * ItemsPerPage, |ts|)] == ts[..Min(k * ItemsPerPage, |ts|)];
      }
    }
  }

  /** Read one after the other, the pages show every filtered task exactly once, in order. */
  lemma PagesCoverList<T>(ts: seq<T>)
    ensures Pages(ts, PageCount(|ts|)) == ts
  {
    PagesArePrefix(ts, PageCount(|ts|));
    assert ts[..|ts|] == ts;
  }

  /** The "Previous" button: `Math.max(page - 1, 1)`. */
  function PreviousPage(page: int): (r: int)
    ensures r >= 1
    ensures page > 1 ==> r == page - 1
    ensures page <= 1 ==> r == 1
  {
    if page - 1 > 1 then page - 1 else 1
  }

  /** The "Next" button: `Math.min(page + 1, pageCount)`. */
  function NextPage(page: int, pageCount: nat): (r: int)
    ensures r <= pageCount
    ensures page < pageCount ==> r == page + 1
    ensures page >= pageCount ==> r == pageCount
  {
    if page + 1 < pageCount then page + 1 else pageCount
  }

  /** From a page in range, both buttons lead to a page in range. */
  lemma NavigationStaysInRange(page: int, pageCount: nat)
    requires 1 <= page <= pageCount
    ensures 1 <= PreviousPage(page) <= pageCount
    ensures 1 <= NextPage(page, pageCount) <= pageCount
  {
  }

  /**
   * With no matching task the page count is 0 while the page is 1, so
   * "Next" is enabled and moves to page 0.
   */
  lemma NextWithNoPagesGoesToZero(ts: seq<Task>, term: string)
    requires FilterByLocation(ts, term) == []
    ensures PageCount(|FilterByLocation(ts, term)|) != 1
    ensures NextPage(1, PageCount(|FilterByLocation(ts, term)|)) == 0
  {
  }

  /** The waste-type label: at most 8 characters, then `...` when longer. */
  function ShortLabel(s: string): (r: string)
    ensures |r| <= 11
    ensures |s| <= 8 ==> r == s
    ensures |s| > 8 ==> |r| == 11 && r[..8] == s[..8] && r[8..] == "..."
  {
    if |s| > 8 then s[..8] + "..." else s
  }

  /** Shortening a shortened label changes nothing. */
  lemma ShortLabelIdempotent(s: string)
    ensures ShortLabel(ShortLabel(s)) == ShortLabel(s)
  {
  }

  /** Two long labels that agree on their first 8 characters look the same. */
  lemma ShortLabelCollides(s: string, t: string)
    requires |s| > 8 && |t| > 8 && s[..8] == t[..8]
    ensures ShortLabel(s) == ShortLabel(t)
  {
  }
}
