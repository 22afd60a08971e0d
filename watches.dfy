/** The `user_repository_watches` table and the paging arithmetic the
    repository lists share: ten repositories per page, `Math.ceil` for the
    page count, and PostgREST's inclusive `range(from, to)`. */
module Watches {
  import opened Base
  import opened Lists

  /** A row of `user_repository_watches`: who watches which repository
      row, and when the watch was created. */
  datatype Watch = Watch(userId: string, repositoryId: nat, createdAt: int)

  predicate WatchedBy(w: Watch, u: string) {
    w.userId == u
  }

  predicate IsWatch(w: Watch, u: string, repositoryId: nat) {
    w.userId == u && w.repositoryId == repositoryId
  }

  /** `.eq('user_id', u)`: the user's watches, in table order. */
  function WatchesOf(watches: seq<Watch>, u: string): (r: seq<Watch>)
    ensures forall w :: w in r <==> w in watches && w.userId == u
  {
    var r := Filter(watches, w => WatchedBy(w, u));
    forall w ensures w in r <==> w in watches && w.userId == u {
      FilterMembership(watches, w => WatchedBy(w, u), w);
    }
    r
  }

  /** `.delete().eq('user_id', u).eq('repository_id', id)`. */
  function Unwatched(watches: seq<Watch>, u: string, repositoryId: nat): (r: seq<Watch>)
    ensures forall w :: w in r <==> w in watches && !IsWatch(w, u, repositoryId)
  {
    var r := Filter(watches, w => !IsWatch(w, u, repositoryId));
    forall w ensures w in r <==> w in watches && !IsWatch(w, u, repositoryId) {
      FilterMembership(watches, w => !IsWatch(w, u, repositoryId), w);
    }
    r
  }

  class WatchTable {
    var watches: seq<Watch>

    constructor (watches: seq<Watch>)
      ensures this.watches == watches
    {
      this.watches := watches;
    }

    /** `.insert({user_id, repository_id})`; a failed insert changes nothing. */
    method Insert(u: string, repositoryId: nat, createdAt: int, fault: Option<DbError>) returns (err: Option<DbError>)
      modifies this
      ensures err == fault
      ensures watches == if fault.None? then old(watches) + [Watch(u, repositoryId, createdAt)] else old(watches)
    {
      err := fault;
      if fault.None? {
        watches := watches + [Watch(u, repositoryId, createdAt)];
      }
    }

    /** The delete by user and repository; a failed delete changes nothing. */
    method Delete(u: string, repositoryId: nat, fault: Option<DbError>) returns (err: Option<DbError>)
      modifies this
      ensures err == fault
      ensures watches == if fault.None? then Unwatched(old(watches), u, repositoryId) else old(watches)
    {
      err := fault;
      if fault.None? {
        watches := Unwatched(watches, u, repositoryId);
      }
    }
  }

  // ------------------------------------------------------------ paging

  const PER_PAGE: nat := 10

  /** `Math.ceil(n / d)` on integers: the least r with n <= d * r. */
  function CeilDiv(n: int, d: nat): (r: int)
    requires d > 0
    ensures d * (r - 1) < n <= d * r
  {
    if n >= 0 then
      var r := (n + d - 1) / d;
      assert (n + d - 1) == d * r + (n + d - 1) % d;
      r
    else
      var q := (-n) / d;
      assert -n == d * q + (-n) % d;
      -q
  }

  /** The page count is exactly `Math.ceil`: no other integer satisfies
      its bounds. */
  lemma CeilDivUnique(n: int, d: nat, r: int)
    requires d > 0
    requires d * (r - 1) < n <= d * r
    ensures r == CeilDiv(n, d)
  {
    var c := CeilDiv(n, d);
    MulLess(d, r - 1, c);
    MulLess(d, c - 1, r);
  }

  lemma MulLess(d: nat, x: int, y: int)
    requires d > 0
    ensures d * x < d * y <==> x < y
  {
    assert d * y - d * x == d * (y - x);
  }

  /** `.range((p - 1) * 10, p * 10 - 1)`: the first and last row index of
      page p, both inclusive. */
  function PageRange(p: int): (int, int) {
    ((p - 1) * PER_PAGE, p * PER_PAGE - 1)
  }

  /** Every page has ten slots, and page p + 1 starts right after page p
      ends: pages never overlap and leave no gap. */
  lemma PagesAdjoin(p: int)
    ensures PageRange(p).1 - PageRange(p).0 + 1 == PER_PAGE
    ensures PageRange(p + 1).0 == PageRange(p).1 + 1
  {
  }

  /** Each row index k >= 0 lies on exactly one page from 1 on: k / 10 + 1. */
  lemma PageOfIndex(k: nat, p: int)
    ensures PageRange(k / PER_PAGE + 1).0 <= k <= PageRange(k / PER_PAGE + 1).1
    ensures PageRange(p).0 <= k <= PageRange(p).1 ==> p == k / PER_PAGE + 1
  {
    var q := k / PER_PAGE;
    assert k == PER_PAGE * q + k % PER_PAGE;
    if PageRange(p).0 <= k <= PageRange(p).1 {
      assert p - 1 < q + 1;
      assert q < p;
    }
  }

  /** The rows `range(from, to)` returns: those with index from..to that
      exist. */
  function RangeSlice<T>(s: seq<T>, from: nat, to: int): (r: seq<T>)
    ensures |r| <= if to - from + 1 <= 0 then 0 else to - from + 1
    ensures forall i :: 0 <= i < |r| ==> from + i < |s| && r[i] == s[from + i]
  {
    if from >= |s| || to < from then []
    else s[from..if to + 1 <= |s| then to + 1 else |s|]
  }

  /** The rows of page p (p >= 1). */
  function PageSlice<T>(s: seq<T>, p: nat): seq<T>
    requires p >= 1
  {
    RangeSlice(s, (p - 1) * PER_PAGE, p * PER_PAGE - 1)
  }

  /** Pages 1..n one after another. */
  function PagesUpTo<T>(s: seq<T>, n: nat): seq<T> {
    if n == 0 then [] else PagesUpTo(s, n - 1) + PageSlice(s, n)
  }

  /** Reading pages 1..n in order gives the first 10·n rows. */
  lemma {:induction false} PagesUpToPrefix<T>(s: seq<T>, n: nat)
    ensures PagesUpTo(s, n) == s[..if PER_PAGE * n <= |s| then PER_PAGE * n else |s|]
  {
    if n > 0 {
      PagesUpToPrefix(s, n - 1);
      PageExtendsPrefix(s, n);
    }
  }

  /** Page n continues the rows of the pages before it. */
  lemma PageExtendsPrefix<T>(s: seq<T>, n: nat)
    requires n > 0
    ensures s[..if PER_PAGE * (n - 1) <= |s| then PER_PAGE * (n - 1) else |s|] + PageSlice(s, n)
         == s[..if PER_PAGE * n <= |s| then PER_PAGE * n else |s|]
  {
    var lo: nat := PER_PAGE * (n - 1);
    var hi := PER_PAGE * n;
    assert hi == lo + PER_PAGE;
    if lo >= |s| {
      assert PageSlice(s, n) == [];
    } else {
      var b := if hi <= |s| then hi else |s|;
      assert PageSlice(s, n) == s[lo..b];
      assert s[..lo] + s[lo..b] == s[..b];
    }
  }

  /** Reading every page, 1 to `Math.ceil(|s| / 10)`, gives back the whole
      list, each row exactly once and in order. */
  lemma AllPagesCoverList<T>(s: seq<T>)
    ensures CeilDiv(|s|, PER_PAGE) >= 0
    ensures PagesUpTo(s, CeilDiv(|s|, PER_PAGE)) == s
  {
    PagesUpToPrefix(s, CeilDiv(|s|, PER_PAGE));
  }

  /** The Previous and Next buttons are disabled on page 1 and on the last
      page; the bar is shown only when there is more than one page. */
  function PrevEnabled(currentPage: int): bool {
    currentPage != 1
  }

  function NextEnabled(currentPage: int, totalPages: int): bool {
    currentPage != totalPages
  }

  predicate PaginationShown(totalPages: int) {
    totalPages > 1
  }

  /** While the page is within 1..totalPages, the enabled buttons keep it
      there. */
  lemma ButtonsStayInRange(currentPage: int, totalPages: int)
    requires 1 <= currentPage <= totalPages
    ensures PrevEnabled(currentPage) ==> 1 <= currentPage - 1 <= totalPages
    ensures NextEnabled(currentPage, totalPages) ==> 1 <= currentPage + 1 <= totalPages
  {
  }
}
