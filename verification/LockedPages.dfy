/**
 * The manager of memory pages that must not be swapped out: a counter for each page says how many of the live ranges
 * lie on it, and the page is locked while that is more than zero.
 */
module LockedPages {
  import opened Radix
  import opened Wrappers

  datatype Range = Range(base: nat, size: nat)

  const ADDRESSES: nat := 0x1_0000_0000_0000_0000

  function PageOf(address: nat, pageSize: nat): (p: nat)
    requires pageSize > 0
  {
    address / pageSize * pageSize
  }

  predicate IsPage(address: nat, pageSize: nat)
    requires pageSize > 0
  {
    address % pageSize == 0
  }

  function LastPage(r: Range, pageSize: nat): nat
    requires pageSize > 0 && r.size > 0
  {
    PageOf(r.base + r.size - 1, pageSize)
  }

  /** Some byte of the range lies on page `p`. */
  predicate Touches(r: Range, p: nat, pageSize: nat)
    requires pageSize > 0
  {
    IsPage(p, pageSize) && r.base < p + pageSize && p < r.base + r.size && r.size > 0
  }

  /** The page after the range's last one is still an address. */
  predicate NoWrap(r: Range, pageSize: nat)
    requires pageSize > 0
  {
    r.size > 0 ==> LastPage(r, pageSize) + pageSize < ADDRESSES
  }

  /** How many of the ranges lie on page `p`. */
  function Count(live: seq<Range>, p: nat, pageSize: nat): nat
    requires pageSize > 0
  {
    if live == [] then 0
    else Count(live[..|live| - 1], p, pageSize) + (if Touches(live[|live| - 1], p, pageSize) then 1 else 0)
  }

  lemma {:induction false} CountWithout(live: seq<Range>, i: nat, p: nat, pageSize: nat)
    requires pageSize > 0 && i < |live|
    ensures Count(live, p, pageSize)
      == Count(live[..i] + live[i + 1..], p, pageSize) + (if Touches(live[i], p, pageSize) then 1 else 0)
  {
    hide Touches;
    var n := |live| - 1;
    if i < n {
      CountWithout(live[..n], i, p, pageSize);
      WithoutAndLast(live, i);
    } else {
      WithoutLast(live);
    }
  }

  lemma WithoutAndLast(live: seq<Range>, i: nat)
    requires i + 1 < |live|
    ensures var n, rest := |live| - 1, live[..i] + live[i + 1..];
      |rest| == n && rest[n - 1] == live[n] && rest[..n - 1] == live[..n][..i] + live[..n][i + 1..] && live[..n][i] == live[i]
  {
  }

  lemma WithoutLast(live: seq<Range>)
    requires live != []
    ensures var n := |live| - 1; live[..n] + live[n + 1..] == live[..n]
  {
  }

  /** The pages of a range are those from its first to its last, page by page. */
  lemma PagesOfRange(r: Range, p: nat, pageSize: nat)
    requires pageSize > 0 && r.size > 0
    ensures Touches(r, p, pageSize) <==> IsPage(p, pageSize) && PageOf(r.base, pageSize) <= p <= LastPage(r, pageSize)
  {
    if p % pageSize == 0 {
      var q := p / pageSize;
      assert p == q * pageSize;
      PageAtMost(r.base, q, pageSize);
      PageAtLeast(r.base + r.size - 1, q, pageSize);
    }
  }

  lemma QuotientIs(a: nat, d: nat)
    requires d > 0
    ensures a / d * d <= a < a / d * d + d
  {
  }

  lemma Times(a: nat, b: nat, d: nat)
    requires d > 0
    ensures a <= b <==> a * d <= b * d
    ensures a < b <==> a * d + d <= b * d
  {
    if a < b { assert (a + 1) * d <= b * d; }
    if b < a { assert (b + 1) * d <= a * d; }
  }

  lemma PageAtMost(a: nat, q: nat, d: nat)
    requires d > 0
    ensures a / d * d <= q * d <==> a < q * d + d
  {
    QuotientIs(a, d);
    Times(a / d, q, d);
    Times(q, a / d, d);
  }

  lemma PageAtLeast(a: nat, q: nat, d: nat)
    requires d > 0
    ensures q * d <= a / d * d <==> q * d <= a
  {
    QuotientIs(a, d);
    Times(a / d, q, d);
    Times(q, a / d, d);
  }

  /** There is no page between a page and the next. */
  lemma NextPage(p: nat, page: nat, pageSize: nat)
    requires pageSize > 0 && IsPage(p, pageSize) && IsPage(page, pageSize)
    ensures p < page + pageSize <==> p <= page
    ensures IsPage(page + pageSize, pageSize)
  {
    PageAtMost(p, page / pageSize, pageSize);
    assert (page / pageSize + 1) * pageSize == page + pageSize;
    MultipleIs(page / pageSize + 1, pageSize);
  }

  lemma MultipleIs(k: nat, d: nat)
    requires d > 0
    ensures k * d % d == 0
  {
    DivModOf(k, 0, d);
  }

  lemma PageIsBelow(a: nat, d: nat)
    requires d > 0
    ensures PageOf(a, d) <= a < PageOf(a, d) + d
  {
  }

  // ----- what the operating system is told

  datatype Call = Lock(page: nat) | Unlock(page: nat)

  /** The pages that are locked after some calls; none of them may lock a locked page or unlock an unlocked one. */
  function Replay(calls: seq<Call>): Option<set<nat>>
  {
    if calls == [] then Some({})
    else
      match Replay(calls[..|calls| - 1])
      case None => None
      case Some(locked) =>
        match calls[|calls| - 1]
        case Lock(p) => if p in locked then None else Some(locked + {p})
        case Unlock(p) => if p in locked then Some(locked - {p}) else None
  }

  lemma ReplayOne(calls: seq<Call>, call: Call)
    ensures Replay(calls + [call]) ==
      match Replay(calls)
      case None => None
      case Some(locked) =>
        if call.Lock? then (if call.page in locked then None else Some(locked + {call.page}))
        else if call.page in locked then Some(locked - {call.page}) else None
  {
    assert (calls + [call])[..|calls|] == calls;
  }

  // ----- the code

  function Get(histogram: map<nat, nat>, p: nat): nat
  {
    if p in histogram then histogram[p] else 0
  }

  ghost predicate NoZero(histogram: map<nat, nat>)
  {
    forall p: nat :: p in histogram ==> histogram[p] > 0
  }

  /** Every page's counter is the number of live ranges that lie on it. */
  ghost predicate CountsLive(histogram: map<nat, nat>, live: seq<Range>, pageSize: nat)
    requires pageSize > 0
  {
    forall p: nat :: Get(histogram, p) == Count(live, p, pageSize)
  }

  function CallFor(lock: bool, page: nat): Call
  {
    if lock then Lock(page) else Unlock(page)
  }

  ghost predicate Ascending(added: seq<Call>, lock: bool)
  {
    && (forall i :: 0 <= i < |added| ==> added[i].Lock? == lock)
    && (forall i, j :: 0 <= i < j < |added| ==> added[i].page < added[j].page)
  }

  /** The range lies on page `p`, and none of the others does. */
  predicate Alone(others: seq<Range>, r: Range, p: nat, pageSize: nat)
    requires pageSize > 0
  {
    Touches(r, p, pageSize) && Count(others, p, pageSize) == 0
  }

  /** The calls are one for each page that the range lies on alone, in order of the pages, and no others. */
  ghost predicate AreCalls(added: seq<Call>, lock: bool, others: seq<Range>, r: Range, pageSize: nat)
    requires pageSize > 0
  {
    Ascending(added, lock) && forall p: nat :: CallFor(lock, p) in added <==> Alone(others, r, p, pageSize)
  }

  class LockedPageManager {
    const pageSize: nat
    var histogram: map<nat, nat>
    // The calls made to the operating system so far.
    var calls: seq<Call>
    // The ranges that have been locked and not been unlocked again.
    ghost var live: seq<Range>

    ghost predicate Valid()
      reads this
    {
      pageSize > 0 && CountsLive(histogram, live, pageSize) && Locked()
    }

    constructor (pageSize: nat)
      requires pageSize > 0
      ensures Valid() && live == [] && this.pageSize == pageSize && calls == []
    {
      this.pageSize := pageSize;
      histogram, calls, live := map[], [], [];
      new;
      assert histogram.Keys == {};
    }

    /** The counters and the locked pages go together. */
    ghost predicate Locked()
      reads this`histogram, this`calls
    {
      NoZero(histogram) && Replay(calls) == Some(histogram.Keys)
    }

    method LockPage(page: nat)
      requires Locked()
      modifies this`histogram, this`calls
      ensures Locked() && forall p: nat :: Get(histogram, p) == Get(old(histogram), p) + (if p == page then 1 else 0)
      ensures calls == old(calls) + (if page in old(histogram) then [] else [Lock(page)])
    {
      hide Replay;
      if page !in histogram {
        ReplayOne(calls, Lock(page));
        calls := calls + [Lock(page)];
        histogram := histogram[page := 1];
        assert histogram.Keys == old(histogram).Keys + {page};
      } else {
        KeysSame(histogram, page, histogram[page] + 1);
        histogram := histogram[page := histogram[page] + 1];
      }
    }

    method UnlockPage(page: nat)
      requires Locked() && page in histogram
      modifies this`histogram, this`calls
      ensures Locked() && forall p: nat :: Get(histogram, p) == Get(old(histogram), p) - (if p == page then 1 else 0)
      ensures calls == old(calls) + (if old(histogram)[page] == 1 then [Unlock(page)] else [])
    {
      hide Replay;
      KeysSame(histogram, page, histogram[page] - 1);
      histogram := histogram[page := histogram[page] - 1];
      if histogram[page] == 0 {
        ReplayOne(calls, Unlock(page));
        calls := calls + [Unlock(page)];
        histogram := histogram - {page};
        assert histogram.Keys == old(histogram).Keys - {page};
      }
    }

    /** Locks the pages of a range that are not locked yet, each once and no others. */
    method LockRange(r: Range)
      requires Valid() && NoWrap(r, pageSize)
      modifies this
      ensures Valid() && live == old(live) + [r]
      ensures old(calls) <= calls && AreCalls(calls[|old(calls)|..], true, old(live), r, pageSize)
    {
      hide Touches, Count, IsPage, PageOf, Replay, NoZero, Get, CountsLive, LockedTo, AreCalls, CallsTo;
      live := live + [r];
      ghost var was := old(live);
      if r.size == 0 {
        LockedNothing(histogram, was, r, pageSize);
        NoCalls(true, was, r, pageSize);
        assert calls[|old(calls)|..] == [];
        return;
      }
      var page := PageOf(r.base, pageSize);
      PageIsBelow(r.base + r.size - 1, pageSize);
      var end := PageOf((r.base + r.size - 1) % ADDRESSES, pageSize);
      LockStart(histogram, was, r, pageSize);
      CallsStart(true, was, r, pageSize);
      ghost var added: seq<Call> := [];
      while page <= end
        invariant IsPage(page, pageSize) && page >= PageOf(r.base, pageSize) && Locked()
        invariant live == was + [r] && LockedTo(histogram, was, r, page, pageSize)
        invariant calls == old(calls) + added && CallsTo(added, true, was, r, page, pageSize)
        decreases end + pageSize - page
      {
        ghost var before := histogram;
        LockIsFirst(before, was, r, page, pageSize);
        LockPage(page);
        LockStep(before, histogram, was, r, page, pageSize);
        CallsStep(added, true, was, r, page, pageSize);
        added := added + (if page in before then [] else [Lock(page)]);
        NextPage(page, page, pageSize);
        page := (page + pageSize) % ADDRESSES;
      }
      LockEnd(histogram, was, r, page, pageSize);
      CallsEnd(added, true, was, r, page, pageSize);
      assert calls[|old(calls)|..] == added;
    }

    /** Unlocks the pages of a live range that no other live range lies on, each once and no others. */
    method UnlockRange(r: Range)
      requires Valid() && NoWrap(r, pageSize) && r in live
      modifies this
      ensures Valid() && exists i :: 0 <= i < |old(live)| && old(live)[i] == r && live == old(live)[..i] + old(live)[i + 1..]
      ensures old(calls) <= calls && AreCalls(calls[|old(calls)|..], false, live, r, pageSize)
    {
      hide Touches, Count, IsPage, PageOf, Replay, NoZero, Get, CountsLive, UnlockedTo, AreCalls, CallsTo;
      ghost var was := live;
      ghost var i :| 0 <= i < |live| && live[i] == r;
      live := live[..i] + live[i + 1..];
      ghost var rest := live;
      UnlockStart(histogram, was, i, rest, pageSize);
      if r.size == 0 {
        NoCalls(false, rest, r, pageSize);
        assert calls[|old(calls)|..] == [];
        return;
      }
      var page := PageOf(r.base, pageSize);
      PageIsBelow(r.base + r.size - 1, pageSize);
      var end := PageOf((r.base + r.size - 1) % ADDRESSES, pageSize);
      MultipleIsPage(r.base, pageSize);
      CallsStart(false, rest, r, pageSize);
      ghost var added: seq<Call> := [];
      while page <= end
        invariant IsPage(page, pageSize) && page >= PageOf(r.base, pageSize) && Locked()
        invariant live == rest && UnlockedTo(histogram, rest, r, page, pageSize)
        invariant calls == old(calls) + added && CallsTo(added, false, rest, r, page, pageSize)
        decreases end + pageSize - page
      {
        ghost var before := histogram;
        UnlockHas(histogram, rest, r, page, pageSize);
        UnlockPage(page);
        UnlockStep(before, histogram, rest, r, page, pageSize);
        CallsStep(added, false, rest, r, page, pageSize);
        added := added + (if before[page] == 1 then [Unlock(page)] else []);
        NextPage(page, page, pageSize);
        page := (page + pageSize) % ADDRESSES;
      }
      UnlockEnd(histogram, rest, r, page, pageSize);
      CallsEnd(added, false, rest, r, page, pageSize);
      assert calls[|old(calls)|..] == added;
    }

    /** The number of pages that are locked. */
    method GetLockedPageCount() returns (n: nat)
      requires Valid()
      ensures n == |histogram| && Replay(calls).Some? && n == |Replay(calls).value|
      ensures forall p: nat :: p in Replay(calls).value <==> exists i :: 0 <= i < |live| && Touches(live[i], p, pageSize)
    {
      n := |histogram|;
      forall p: nat ensures p in histogram <==> exists i :: 0 <= i < |live| && Touches(live[i], p, pageSize) {
        assert Get(histogram, p) == Count(live, p, pageSize);
        CountPositive(live, p, pageSize);
      }
    }
  }

  lemma {:induction false} CountPositive(live: seq<Range>, p: nat, pageSize: nat)
    requires pageSize > 0
    ensures Count(live, p, pageSize) > 0 <==> exists i :: 0 <= i < |live| && Touches(live[i], p, pageSize)
  {
    hide Touches;
    if live != [] {
      var rest := live[..|live| - 1];
      CountPositive(rest, p, pageSize);
      assert forall i :: 0 <= i < |rest| ==> rest[i] == live[i];
    }
  }

  lemma KeysSame(histogram: map<nat, nat>, page: nat, n: nat)
    requires page in histogram
    ensures histogram[page := n].Keys == histogram.Keys
  {
  }

  // ----- the loops

  /** The counters when the range's pages below `page` have been counted. */
  ghost predicate LockedTo(histogram: map<nat, nat>, live: seq<Range>, r: Range, page: nat, pageSize: nat)
    requires pageSize > 0
  {
    forall p: nat :: Get(histogram, p) == Count(live, p, pageSize) + (if Touches(r, p, pageSize) && p < page then 1 else 0)
  }

  /** The counters when the range's pages below `page` are no longer counted. */
  ghost predicate UnlockedTo(histogram: map<nat, nat>, live: seq<Range>, r: Range, page: nat, pageSize: nat)
    requires pageSize > 0
  {
    forall p: nat :: Get(histogram, p) == Count(live, p, pageSize) + (if Touches(r, p, pageSize) && p >= page then 1 else 0)
  }

  lemma CountAppend(live: seq<Range>, r: Range, p: nat, pageSize: nat)
    requires pageSize > 0
    ensures Count(live + [r], p, pageSize) == Count(live, p, pageSize) + (if Touches(r, p, pageSize) then 1 else 0)
  {
    hide Touches;
    assert (live + [r])[..|live|] == live;
  }

  lemma MultipleIsPage(a: nat, pageSize: nat)
    requires pageSize > 0
    ensures IsPage(PageOf(a, pageSize), pageSize)
  {
    MultipleIs(a / pageSize, pageSize);
  }

  lemma LockedNothing(histogram: map<nat, nat>, live: seq<Range>, r: Range, pageSize: nat)
    requires pageSize > 0 && r.size == 0 && CountsLive(histogram, live, pageSize)
    ensures CountsLive(histogram, live + [r], pageSize)
  {
    hide Count;
    forall p: nat ensures Count(live + [r], p, pageSize) == Count(live, p, pageSize) { CountAppend(live, r, p, pageSize); }
  }

  lemma LockStart(histogram: map<nat, nat>, live: seq<Range>, r: Range, pageSize: nat)
    requires pageSize > 0 && r.size > 0 && CountsLive(histogram, live, pageSize)
    ensures IsPage(PageOf(r.base, pageSize), pageSize) && LockedTo(histogram, live, r, PageOf(r.base, pageSize), pageSize)
  {
    hide Count, Touches;
    MultipleIsPage(r.base, pageSize);
    forall p: nat ensures Touches(r, p, pageSize) ==> p >= PageOf(r.base, pageSize) { PagesOfRange(r, p, pageSize); }
  }

  lemma LockStep(before: map<nat, nat>, after: map<nat, nat>, live: seq<Range>, r: Range, page: nat, pageSize: nat)
    requires pageSize > 0 && r.size > 0 && IsPage(page, pageSize) && PageOf(r.base, pageSize) <= page <= LastPage(r, pageSize)
    requires LockedTo(before, live, r, page, pageSize)
    requires forall p: nat :: Get(after, p) == Get(before, p) + (if p == page then 1 else 0)
    ensures LockedTo(after, live, r, page + pageSize, pageSize)
  {
    hide Count, Touches, PageOf, Get;
    PagesOfRange(r, page, pageSize);
    forall p: nat ensures Touches(r, p, pageSize) ==> (p < page + pageSize <==> p <= page) { TouchedBefore(r, p, page, pageSize); }
  }

  lemma LockEnd(histogram: map<nat, nat>, live: seq<Range>, r: Range, page: nat, pageSize: nat)
    requires pageSize > 0 && r.size > 0 && page > LastPage(r, pageSize) && LockedTo(histogram, live, r, page, pageSize)
    ensures CountsLive(histogram, live + [r], pageSize)
  {
    hide Count, Touches, PageOf, Get;
    forall p: nat ensures Get(histogram, p) == Count(live + [r], p, pageSize) {
      CountAppend(live, r, p, pageSize);
      PagesOfRange(r, p, pageSize);
    }
  }

  lemma UnlockStart(histogram: map<nat, nat>, live: seq<Range>, i: nat, rest: seq<Range>, pageSize: nat)
    requires pageSize > 0 && i < |live| && rest == live[..i] + live[i + 1..] && CountsLive(histogram, live, pageSize)
    ensures live[i].size > 0 ==> UnlockedTo(histogram, rest, live[i], PageOf(live[i].base, pageSize), pageSize)
    ensures live[i].size == 0 ==> CountsLive(histogram, rest, pageSize)
  {
    hide Count, PageOf, Get;
    var r := live[i];
    forall p: nat ensures Count(live, p, pageSize) == Count(rest, p, pageSize) + (if Touches(r, p, pageSize) then 1 else 0) {
      CountWithout(live, i, p, pageSize);
    }
    if r.size > 0 {
      forall p: nat ensures Touches(r, p, pageSize) ==> p >= PageOf(r.base, pageSize) { PagesOfRange(r, p, pageSize); }
    }
  }

  lemma UnlockHas(histogram: map<nat, nat>, live: seq<Range>, r: Range, page: nat, pageSize: nat)
    requires pageSize > 0 && r.size > 0 && IsPage(page, pageSize) && PageOf(r.base, pageSize) <= page <= LastPage(r, pageSize)
    requires UnlockedTo(histogram, live, r, page, pageSize)
    ensures page in histogram && (histogram[page] == 1 <==> Count(live, page, pageSize) == 0)
  {
    hide Count, Touches, PageOf;
    PagesOfRange(r, page, pageSize);
    assert Get(histogram, page) > 0;
  }

  lemma UnlockStep(before: map<nat, nat>, after: map<nat, nat>, live: seq<Range>, r: Range, page: nat, pageSize: nat)
    requires pageSize > 0 && r.size > 0 && IsPage(page, pageSize) && PageOf(r.base, pageSize) <= page <= LastPage(r, pageSize)
    requires UnlockedTo(before, live, r, page, pageSize)
    requires forall p: nat :: Get(after, p) == Get(before, p) - (if p == page then 1 else 0)
    ensures UnlockedTo(after, live, r, page + pageSize, pageSize)
  {
    hide Count, Touches, PageOf, Get;
    PagesOfRange(r, page, pageSize);
    forall p: nat ensures Touches(r, p, pageSize) ==> (p < page + pageSize <==> p <= page) { TouchedBefore(r, p, page, pageSize); }
  }

  lemma UnlockEnd(histogram: map<nat, nat>, live: seq<Range>, r: Range, page: nat, pageSize: nat)
    requires pageSize > 0 && r.size > 0 && page > LastPage(r, pageSize) && UnlockedTo(histogram, live, r, page, pageSize)
    ensures CountsLive(histogram, live, pageSize)
  {
    hide Count, Touches, PageOf, Get;
    forall p: nat ensures Get(histogram, p) == Count(live, p, pageSize) { PagesOfRange(r, p, pageSize); }
  }

  /** The calls for the range's pages below `page` have been made. */
  ghost predicate CallsTo(added: seq<Call>, lock: bool, others: seq<Range>, r: Range, page: nat, pageSize: nat)
    requires pageSize > 0
  {
    Ascending(added, lock) && forall p: nat :: CallFor(lock, p) in added <==> Alone(others, r, p, pageSize) && p < page
  }

  lemma NoCalls(lock: bool, others: seq<Range>, r: Range, pageSize: nat)
    requires pageSize > 0 && r.size == 0
    ensures AreCalls([], lock, others, r, pageSize)
  {
    hide Count;
  }

  lemma CallsStart(lock: bool, others: seq<Range>, r: Range, pageSize: nat)
    requires pageSize > 0 && r.size > 0
    ensures CallsTo([], lock, others, r, PageOf(r.base, pageSize), pageSize)
  {
    hide Count, Touches, PageOf;
    forall p: nat ensures Touches(r, p, pageSize) ==> p >= PageOf(r.base, pageSize) { PagesOfRange(r, p, pageSize); }
  }

  lemma LockIsFirst(histogram: map<nat, nat>, live: seq<Range>, r: Range, page: nat, pageSize: nat)
    requires pageSize > 0 && LockedTo(histogram, live, r, page, pageSize) && NoZero(histogram)
    ensures page in histogram <==> Count(live, page, pageSize) > 0
  {
    hide Count, Touches;
    assert Get(histogram, page) == Count(live, page, pageSize);
  }

  lemma CallsStep(added: seq<Call>, lock: bool, others: seq<Range>, r: Range, page: nat, pageSize: nat)
    requires pageSize > 0 && r.size > 0 && IsPage(page, pageSize) && PageOf(r.base, pageSize) <= page <= LastPage(r, pageSize)
    requires CallsTo(added, lock, others, r, page, pageSize)
    ensures var next := added + (if Count(others, page, pageSize) == 0 then [CallFor(lock, page)] else []);
      CallsTo(next, lock, others, r, page + pageSize, pageSize)
  {
    hide Count, Touches, PageOf;
    PagesOfRange(r, page, pageSize);
    forall p: nat ensures Alone(others, r, p, pageSize) ==> (p < page + pageSize <==> p <= page) { TouchedBefore(r, p, page, pageSize); }
    CallsBelow(added, lock, others, r, page, pageSize);
  }

  lemma CallsBelow(added: seq<Call>, lock: bool, others: seq<Range>, r: Range, page: nat, pageSize: nat)
    requires pageSize > 0 && CallsTo(added, lock, others, r, page, pageSize)
    ensures forall i :: 0 <= i < |added| ==> added[i].page < page
  {
    hide Alone;
    forall i | 0 <= i < |added| ensures added[i].page < page {
      assert CallFor(lock, added[i].page) == added[i];
    }
  }

  lemma CallsEnd(added: seq<Call>, lock: bool, others: seq<Range>, r: Range, page: nat, pageSize: nat)
    requires pageSize > 0 && r.size > 0 && page > LastPage(r, pageSize) && CallsTo(added, lock, others, r, page, pageSize)
    ensures AreCalls(added, lock, others, r, pageSize)
  {
    hide Count, Touches, PageOf;
    forall p: nat ensures Alone(others, r, p, pageSize) ==> p < page { PagesOfRange(r, p, pageSize); }
  }

  lemma TouchedBefore(r: Range, p: nat, page: nat, pageSize: nat)
    requires pageSize > 0 && IsPage(page, pageSize)
    ensures Touches(r, p, pageSize) ==> (p < page + pageSize <==> p <= page)
  {
    if Touches(r, p, pageSize) { NextPage(p, page, pageSize); }
  }
}
