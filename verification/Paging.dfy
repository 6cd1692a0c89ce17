/**
 * Pages cut from a limit+1 fetch (src/lib/remote/directory.remote.ts,
 * src/lib/remote/calendar.remote.ts) and a client that follows `hasMore`.
 */
module Paging {
  /** `LIMIT limit + 1 OFFSET offset` over the ordered list. */
  function Fetch<T>(list: seq<T>, limit: nat, offset: nat): seq<T> {
    if offset >= |list| then []
    else if offset + limit + 1 <= |list| then list[offset..offset + limit + 1]
    else list[offset..]
  }

  datatype Page<T> = Page(events: seq<T>, hasMore: bool)

  function Entries<T, U>(rows: seq<T>, toEntry: T -> U): seq<U> {
    seq(|rows|, i requires 0 <= i < |rows| => toEntry(rows[i]))
  }

  function ToPage<T, U>(rows: seq<T>, size: nat, toEntry: T -> U): Page<U> {
    Page(Entries(if |rows| > size then rows[..size] else rows, toEntry), |rows| > size)
  }

  /** Where the page that starts at `offset` ends. */
  function PageEnd<T>(list: seq<T>, size: nat, offset: nat): nat {
    if offset + size <= |list| then offset + size else |list|
  }

  /** A page holds the next `size` items or all that are left, and says there is more exactly when there is. */
  lemma PageIsNextSlice<T, U>(list: seq<T>, size: nat, offset: nat, toEntry: T -> U)
    requires offset <= |list|
    ensures var page := ToPage(Fetch(list, size, offset), size, toEntry);
      && page.events == Entries(list[offset..PageEnd(list, size, offset)], toEntry)
      && (page.hasMore <==> PageEnd(list, size, offset) < |list|)
  {
  }

  function PageCount(length: nat, size: nat): nat
    requires size > 0
  {
    if length <= size then 1 else 1 + PageCount(length - size, size)
  }

  /** The count is the least one whose full pages hold the list; an empty list still takes one request. */
  lemma {:induction false} PageCountIsCeiling(length: nat, size: nat)
    requires size > 0
    ensures PageCount(length, size) * size >= length
    ensures length > 0 ==> (PageCount(length, size) - 1) * size < length
    ensures length == 0 ==> PageCount(length, size) == 1
  {
    if length <= size {
    } else {
      PageCountIsCeiling(length - size, size);
      assert PageCount(length, size) * size == PageCount(length - size, size) * size + size;
    }
  }

  /** Asking for the next page until there is no more shows the whole list once, in the least number of pages. */
  method ShowAll<T, U>(list: seq<T>, size: nat, toEntry: T -> U) returns (shown: seq<U>, requests: nat)
    requires size > 0
    ensures shown == Entries(list, toEntry)
    ensures requests * size >= |list|
    ensures if |list| == 0 then requests == 1 else (requests - 1) * size < |list|
  {
    PageIsNextSlice(list, size, 0, toEntry);
    var page := ToPage(Fetch(list, size, 0), size, toEntry);
    shown, requests := page.events, 1;
    while page.hasMore
      invariant |shown| <= |list| && shown == Entries(list[..|shown|], toEntry)
      invariant page.hasMore <==> |shown| < |list|
      invariant PageCount(|list|, size) == requests + if page.hasMore then PageCount(|list| - |shown|, size) else 0
      decreases |list| - |shown|
    {
      PageIsNextSlice(list, size, |shown|, toEntry);
      page := ToPage(Fetch(list, size, |shown|), size, toEntry);
      shown := shown + page.events;
      requests := requests + 1;
    }
    PageCountIsCeiling(|list|, size);
  }
}
