/**
 * The walk over the listing: it starts at offset 0, and the page at offset
 * `i` is fetched once (requests for an offset all have the same URL, and the
 * crawler drops repeated URLs). `sizes[i]` is the number of announcements on
 * the page at offset `i`; pages past the end of `sizes` are empty.
 */
module PageWalk {
  import opened ParanaSpider

  /** The offset of the first empty page at or after `i`. */
  function FirstEmpty(sizes: seq<nat>, i: nat): (k: nat)
    requires i <= |sizes|
    ensures i <= k <= |sizes|
    ensures k < |sizes| ==> sizes[k] == 0
    ensures forall j :: i <= j < k ==> sizes[j] > 0
    decreases |sizes| - i
  {
    if i == |sizes| || sizes[i] == 0 then i else FirstEmpty(sizes, i + 1)
  }

  /**
   * The requests scheduled from the page at offset `i` on: the page's own
   * requests, one per announcement, then those of the next page, until a
   * page with no announcement ends the walk.
   */
  function ScheduleFrom(sizes: seq<nat>, i: nat): seq<Request>
    requires i <= |sizes|
    decreases |sizes| - i
  {
    if i == |sizes| || sizes[i] == 0 then []
    else PageRequests(sizes[i], i) + ScheduleFrom(sizes, i + 1)
  }

  /** Every request the walk schedules after `start_requests`. */
  function Crawl(sizes: seq<nat>): seq<Request>
  {
    ScheduleFrom(sizes, 0)
  }

  /** The offsets of the requests, in order (to state the example below readably). */
  function Offsets(rs: seq<Request>): seq<int>
  {
    seq(|rs|, i requires 0 <= i < |rs| => rs[i].offset)
  }

  /** Pages of 3, 2 and 0 announcements: offset 1 three times, offset 2 twice, then nothing. */
  lemma CrawlExample()
    ensures Offsets(Crawl([3, 2, 0])) == [1, 1, 1, 2, 2]
  {
    var sizes: seq<nat> := [3, 2, 0];
    assert ScheduleFrom(sizes, 2) == [];
    assert ScheduleFrom(sizes, 1) == PageRequests(2, 1);
    assert Crawl(sizes) == PageRequests(3, 0) + PageRequests(2, 1);
  }

  /** Every scheduled request is a listing request for an offset up to the first empty page. */
  lemma {:induction false} ScheduleBounds(sizes: seq<nat>, i: nat)
    requires i <= |sizes|
    ensures forall r :: r in ScheduleFrom(sizes, i) ==>
              r == RequestOffset(r.offset) && i + 1 <= r.offset <= FirstEmpty(sizes, i)
    decreases |sizes| - i
  {
    if i < |sizes| && sizes[i] > 0 {
      ScheduleBounds(sizes, i + 1);
    }
  }

  /** A page of `k` announcements at offset `o` contributes `k` requests for `o + 1` and no other. */
  lemma {:induction false} PageRequestsCount(k: nat, o: int, r: Request)
    ensures multiset(PageRequests(k, o))[r] == if r == RequestOffset(o + 1) then k else 0
  {
    if k > 0 {
      PageRequestsCount(k - 1, o, r);
      assert PageRequests(k, o) == PageRequests(k - 1, o) + [RequestOffset(o + 1)];
    }
  }

  /**
   * For each non-empty page before the first empty one, the offset after it
   * is requested exactly as many times as the page has announcements.
   */
  lemma {:induction false} ScheduleCounts(sizes: seq<nat>, i: nat, j: nat)
    requires i <= |sizes| && i <= j < FirstEmpty(sizes, i)
    ensures multiset(ScheduleFrom(sizes, i))[RequestOffset(j + 1)] == sizes[j]
    decreases |sizes| - i
  {
    var page := PageRequests(sizes[i], i);
    var rest := ScheduleFrom(sizes, i + 1);
    var target := RequestOffset(j + 1);
    assert ScheduleFrom(sizes, i) == page + rest;
    assert multiset(page + rest)[target] == multiset(page)[target] + multiset(rest)[target];
    PageRequestsCount(sizes[i], i, target);
    if j == i {
      ScheduleBounds(sizes, i + 1);
      assert target !in rest;
    } else {
      ScheduleCounts(sizes, i + 1, j);
      assert target != RequestOffset(i + 1);
    }
  }

  /**
   * The walk requests every offset from 1 up to the first empty page and no
   * other: with the start request for 0, the pages fetched are exactly
   * offsets 0 to the first empty page, which ends the walk.
   */
  lemma CrawlFetches(sizes: seq<nat>)
    ensures forall j :: 1 <= j <= FirstEmpty(sizes, 0) ==> RequestOffset(j) in Crawl(sizes)
    ensures forall r :: r in Crawl(sizes) ==> 1 <= r.offset <= FirstEmpty(sizes, 0)
  {
    ScheduleBounds(sizes, 0);
    forall j | 1 <= j <= FirstEmpty(sizes, 0) ensures RequestOffset(j) in Crawl(sizes) {
      ScheduleCounts(sizes, 0, j - 1);
    }
  }
}
