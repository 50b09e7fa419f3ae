/**
 * Reading a point's archive in pages: the page that starts again at the last instant read, the
 * page that grows while it is filled by one instant, and the cursor that drops the overlap.
 */
module PiPaging {
  import opened Common
  import opened PiCursor

  /** No page is larger than this. */
  const PI_MAX_COUNT: nat := 150_000

  // ---- the server's archive ----

  /** The first index at or after `from`. */
  function FirstAt(archive: seq<Event>, from: int): (i: nat)
    ensures i <= |archive|
    ensures forall j | 0 <= j < i :: archive[j].at < from
    ensures i < |archive| ==> archive[i].at >= from
  {
    if archive == [] || archive[0].at >= from then 0 else 1 + FirstAt(archive[1..], from)
  }

  /** The archived events at or after `from`. */
  function Since(archive: seq<Event>, from: int): (s: seq<Event>)
    ensures Sorted(archive) ==> Sorted(s) && forall e :: e in s <==> e in archive && e.at >= from
  {
    var i := FirstAt(archive, from);
    assert Sorted(archive) ==> forall e | e in archive && e.at >= from :: e in archive[i..];
    archive[i..]
  }

  function Take<T>(s: seq<T>, n: nat): seq<T> {
    if |s| <= n then s else s[..n]
  }

  /** What `streamsets/recorded` answers: at most `maxCount` events from `from`, oldest first. */
  function Recorded(archive: seq<Event>, from: int, maxCount: nat): seq<Event> {
    Take(Since(archive, from), maxCount)
  }

  // ---- how far paging gets ----

  /** An instant that starts at `i` and fills the largest page. */
  predicate Blocked(s: seq<Event>, i: nat, cap: nat) {
    0 < cap && i + cap <= |s| && s[i].at == s[i + cap - 1].at && (i == 0 || s[i - 1].at < s[i].at)
  }

  /** Paging ends after the first `cap` events of the first blocked instant, else with the archive. */
  function Limit(s: seq<Event>, cap: nat, i: nat): (n: nat)
    requires 0 < cap
    ensures n <= |s|
    ensures n < |s| ==> i + cap <= n && Blocked(s, n - cap, cap)
    ensures forall j | i <= j && Blocked(s, j, cap) :: n <= j + cap
    decreases |s| - i
  {
    if i + cap > |s| then |s|
    else if Blocked(s, i, cap) then i + cap
    else Limit(s, cap, i + 1)
  }

  /** The events a catch-up hands on: the first `maxEvents` (0: all) of those the cursor lets through. */
  function Paged(c: Cursor, s: seq<Event>, cap: nat, maxEvents: nat): seq<Event>
    requires 0 < cap
  {
    var full := DeliverAll(c, s[..Limit(s, cap, 0)]).out;
    if maxEvents == 0 then full else Take(full, maxEvents)
  }

  /** The instant a catch-up starts from; the floor is sent to the server cut to milliseconds. */
  function ReplayFrom(c: Cursor, floor: int): int
    requires c.At?
  {
    if c.at < floor then floor - floor % 1_000_000 else c.at
  }

  /** Whether and how events are replayed: from how far back at most, and how many (0: all). */
  datatype Backfill = NoBackfill | Backfill(floor: int, maxEvents: nat)

  /** What catching up queues for a target: nothing without backfill or while the target has no cursor. */
  function Replayed(c: Cursor, archive: seq<Event>, b: Backfill): seq<Event> {
    if c.Unset? || b.NoBackfill? then []
    else Paged(c, Since(archive, ReplayFrom(c, b.floor)), PI_MAX_COUNT, b.maxEvents)
  }

  /** How many archived events share an instant. */
  function CountAt(events: seq<Event>, at: int): (n: nat)
    ensures n <= |events|
  {
    if events == [] then 0 else (if events[0].at == at then 1 else 0) + CountAt(events[1..], at)
  }

  // ---- the worker ----

  datatype Outcome = StepOk | StepStop

  /** One target's worker: what it has queued, and the ring it queues on. */
  class Worker {
    var sent: Cursor
    var queue: seq<Event>
    /** How many more pushes find room before the stop flag is seen; none: it is never set. */
    var pushesLeft: Option<nat>

    constructor (cursor: Cursor, pushes: Option<nat>)
      ensures sent == cursor && queue == [] && pushesLeft == pushes
    {
      sent, queue, pushesLeft := cursor, [], pushes;
    }

    /**
     * Queue the event if the cursor lets it through. Positive: it was; zero: refused; negative: stopped while waiting
     * for room.
     */
    method Offer(e: Event) returns (r: int)
      modifies this
      ensures r == 1 <==> Admits(old(sent), e) && old(pushesLeft) != Some(0)
      ensures r == 0 <==> !Admits(old(sent), e)
      ensures r == 1 || r == 0 || r == -1
      ensures if r == 1 then Delivery(sent, queue) == Deliver(Delivery(old(sent), old(queue)), e)
              else sent == old(sent) && queue == old(queue) && pushesLeft == old(pushesLeft)
      ensures old(pushesLeft).None? ==> pushesLeft.None?
    {
      if !Admits(sent, e) { return 0; }
      if pushesLeft == Some(0) { return -1; }
      if pushesLeft.Some? {
        pushesLeft := Some(pushesLeft.value - 1);
      }
      queue := queue + [e];
      sent := Advance(sent, e);
      return 1;
    }

    /**
     * All pages from `from` on, `maxEvents` events at most unless it is 0. On a normal return what was
     * queued is exactly `Paged`; a stop leaves a prefix of it.
     */
    method Page(archive: seq<Event>, from: int, pageSize: nat, maxEvents: nat) returns (rc: Outcome)
      requires Sorted(archive) && 1 <= pageSize <= PI_MAX_COUNT
      modifies this
      ensures old(queue) <= queue
      ensures queue[|old(queue)|..] <= Paged(old(sent), Since(archive, from), PI_MAX_COUNT, maxEvents)
      ensures rc == StepOk ==> queue[|old(queue)|..] == Paged(old(sent), Since(archive, from), PI_MAX_COUNT, maxEvents)
      ensures sent == AdvanceAll(old(sent), queue[|old(queue)|..])
      ensures old(pushesLeft).None? ==> rc == StepOk
    {
      hide *;
      ghost var c, q := sent, queue;
      ghost var s, m;
      s := Since(archive, from);
      rc, m := ReadPages(archive, from, pageSize, maxEvents);
      GoalIs(archive, from);
      PrefixDelivered(c, s, m, Limit(s, PI_MAX_COUNT, 0), maxEvents);
      assert queue[|q|..] == DeliverAll(c, s[..m]).out;
    }

    /** The loop over pages: it returns when the first `m` events of what it can read were offered. */
    method ReadPages(archive: seq<Event>, from: int, pageSize: nat, maxEvents: nat) returns (rc: Outcome, ghost m: nat)
      requires Sorted(archive) && 1 <= pageSize <= PI_MAX_COUNT
      modifies this
      ensures var s := ToRead(archive, from);
              var d := DeliverAll(old(sent), s[..if m <= |s| then m else 0]);
              && m <= Goal(archive, from) <= |s| && sent == d.cursor && queue == old(queue) + d.out
              && (maxEvents > 0 ==> |d.out| <= maxEvents)
              && (rc == StepOk ==> m == Goal(archive, from) || (maxEvents > 0 && |d.out| == maxEvents))
      ensures old(pushesLeft).None? ==> rc == StepOk
    {
      hide *;
      ghost var c, q := sent, queue;
      ghost var s := ToRead(archive, from);
      ghost var limit := Goal(archive, from);
      m := 0;
      var start, maxCount, delivered := from, pageSize, 0;
      PagingStarts(c, archive, from);
      while true
        invariant from <= start && Reached(archive, from, start) <= m <= limit
        invariant limit < |s| ==> Reached(archive, from, start) + PI_MAX_COUNT <= limit
        invariant pageSize <= maxCount <= PI_MAX_COUNT
        invariant sent == DeliverAll(c, s[..m]).cursor && queue == q + DeliverAll(c, s[..m]).out
        invariant maxEvents > 0 ==> delivered == |DeliverAll(c, s[..m]).out| < maxEvents
        invariant old(pushesLeft).None? ==> pushesLeft.None?
        decreases |s| - Reached(archive, from, start), PI_MAX_COUNT - maxCount
      {
        if pushesLeft == Some(0) {
          rc := StepStop;
          return;
        }
        var page := Recorded(archive, start, maxCount);
        PageIs(archive, from, start, maxCount);
        var out;
        out, delivered, m := DeliverPage(c, q, s, Reached(archive, from, start), page, m, delivered, maxEvents);
        if out.Some? {
          rc := out.value;
          return;
        }
        if |page| < maxCount {
          rc := StepOk;
          return;
        }
        if page[0].at == page[|page| - 1].at {
          if maxCount >= PI_MAX_COUNT {
            WholePageBlocked(archive, from, start);
            rc := StepOk;
            return;
          }
          maxCount := if 2 * maxCount > PI_MAX_COUNT then PI_MAX_COUNT else 2 * maxCount;
        } else {
          NextStart(archive, from, start, maxCount);
          start, maxCount := page[|page| - 1].at, pageSize;
        }
      }
    }

    /** From where the target left off, or from the floor if that is later. */
    method CatchUp(archive: seq<Event>, b: Backfill, pageSize: nat) returns (rc: Outcome)
      requires Sorted(archive) && 1 <= pageSize <= PI_MAX_COUNT
      modifies this
      ensures old(queue) <= queue && sent == AdvanceAll(old(sent), queue[|old(queue)|..])
      ensures rc == StepOk ==> queue[|old(queue)|..] == Replayed(old(sent), archive, b)
      ensures queue[|old(queue)|..] <= Replayed(old(sent), archive, b)
      ensures forall e | e in queue[|old(queue)|..] ::
                e in archive && Admits(old(sent), e) && InTime(old(sent), b, e)
      ensures rc == StepOk ==> forall e | e in archive && Admits(old(sent), e) ::
                e in queue[|old(queue)|..] <==> ReplayReaches(old(sent), archive, b, e)
      ensures old(pushesLeft).None? ==> rc == StepOk
    {
      hide Paged, Since, Admits, InTime, ReplayReaches, Sorted;
      if b.NoBackfill? || sent.Unset? {
        ReplayedAre(sent, archive, b, []);
        return StepOk;
      }
      rc := Page(archive, ReplayFrom(sent, b.floor), pageSize, b.maxEvents);
      ReplayedAre(old(sent), archive, b, queue[|old(queue)|..]);
    }

    /**
     * One recorded poll of the target: a page from `start`, the oldest cursor of its chunk,
     * and when that page is full the pages after the cursor it left.
     */
    method Poll(archive: seq<Event>, start: int, pageSize: nat) returns (rc: Outcome)
      requires Sorted(archive) && 1 <= pageSize <= PI_MAX_COUNT
      modifies this
      ensures old(queue) <= queue && OnceInOrder(queue[|old(queue)|..])
      ensures forall e | e in queue[|old(queue)|..] :: e in archive && e.at >= start && Admits(old(sent), e)
      ensures rc == StepOk && !Overfull(archive, start) ==>
                forall e | e in archive && e.at >= start && Admits(old(sent), e) :: e in queue[|old(queue)|..]
      ensures old(pushesLeft).None? ==> rc == StepOk
    {
      hide *;
      ghost var c, q := sent, queue;
      var page := Recorded(archive, start, pageSize);
      NothingOffered(c, page);
      var out, count;
      ghost var offered, rest;
      out, count, offered := DeliverPage(c, q, page, 0, page, 0, 0, 0);
      ghost var first := DeliverAll(c, page[..offered]);
      rest := [];
      if out.Some? {
        rc := out.value;
      } else if |page| < pageSize {
        rc := StepOk;
        WholePage(page);
        PolledAll(c, archive, start, pageSize, rest);
      } else {
        WholePage(page);
        FullPageMoves(c, page);
        AfterIs(c, archive, page);
        rc := Page(archive, sent.at, pageSize, 0);
        rest := queue[|q + first.out|..];
        if rc == StepOk {
          PolledAll(c, archive, start, pageSize, rest);
        }
      }
      assert queue[|q|..] == first.out + rest;
      PolledSound(c, archive, start, pageSize, offered, rest);
    }

    /** The page as the server answered it, which is `s[f..]` cut to the page's length. */
    method DeliverPage(ghost c: Cursor, ghost q: seq<Event>, ghost s: seq<Event>, ghost f: nat, page: seq<Event>,
        ghost m: nat,
                       delivered: nat, maxEvents: nat)
      returns (out: Option<Outcome>, count: nat, ghost offered: nat)
      requires f + |page| <= |s| && page == s[f..f + |page|] && f <= m <= |s|
      requires sent == DeliverAll(c, s[..m]).cursor && queue == q + DeliverAll(c, s[..m]).out
      requires maxEvents > 0 ==> delivered == |DeliverAll(c, s[..m]).out| < maxEvents
      modifies this
      ensures m <= offered <= |s| && (offered <= m || offered <= f + |page|)
      ensures sent == DeliverAll(c, s[..offered]).cursor && queue == q + DeliverAll(c, s[..offered]).out
      ensures out.None? ==> offered == (if f + |page| < m then m else f + |page|)
      ensures out.None? && maxEvents > 0 ==> count == |DeliverAll(c, s[..offered]).out| < maxEvents
      ensures out == Some(StepOk) ==> maxEvents > 0 && |DeliverAll(c, s[..offered]).out| == maxEvents
      ensures maxEvents > 0 ==> |DeliverAll(c, s[..offered]).out| <= maxEvents
      ensures old(pushesLeft).None? ==> pushesLeft.None? && out != Some(StepStop)
    {
      hide DeliverAll, Admits, Advance;
      count, offered := delivered, m;
      for i := 0 to |page|
        invariant offered == if f + i < m then m else f + i
        invariant sent == DeliverAll(c, s[..offered]).cursor && queue == q + DeliverAll(c, s[..offered]).out
        invariant maxEvents > 0 ==> count == |DeliverAll(c, s[..offered]).out| < maxEvents
        invariant old(pushesLeft).None? ==> pushesLeft.None?
      {
        ghost var k := f + i;
        assert page[i] == s[k];
        if k < m {
          OfferedIsRefused(c, s[..m], s[..m][k]);
        } else {
          DeliverNext(c, s, k);
        }
        var r := Offer(page[i]);
        if r < 0 { return Some(StepStop), count, offered; }
        offered := if k < m then m else k + 1;
        if r > 0 && maxEvents > 0 {
          count := count + 1;
          if count >= maxEvents { return Some(StepOk), count, offered; }
        }
      }
      return None, count, offered;
    }
  }

  // ---- the proof of paging ----

  lemma {:induction false} DeliveredGrows(c: Cursor, s: seq<Event>, k: nat, n: nat)
    requires k <= n <= |s|
    ensures DeliverAll(c, s[..k]).out <= DeliverAll(c, s[..n]).out
    decreases n
  {
    if k < n {
      DeliveredGrows(c, s, k, n - 1);
      DeliverNext(c, s, n - 1);
    }
  }

  lemma PrefixDelivered(c: Cursor, s: seq<Event>, m: nat, limit: nat, maxEvents: nat)
    requires m <= limit <= |s| && limit == Limit(s, PI_MAX_COUNT, 0)
    requires maxEvents > 0 ==> |DeliverAll(c, s[..m]).out| <= maxEvents
    ensures DeliverAll(c, s[..m]).out <= Paged(c, s, PI_MAX_COUNT, maxEvents)
    ensures DeliverAll(c, s[..m]).cursor == AdvanceAll(c, DeliverAll(c, s[..m]).out)
    ensures m == limit || (maxEvents > 0 && |DeliverAll(c, s[..m]).out| == maxEvents)
            ==> DeliverAll(c, s[..m]).out == Paged(c, s, PI_MAX_COUNT, maxEvents)
  {
    DeliveredGrows(c, s, m, limit);
    CursorIsFold(c, s[..m]);
  }

  lemma {:induction false} SinceSince(archive: seq<Event>, from: int, start: int)
    requires from <= start
    ensures Since(Since(archive, from), start) == Since(archive, start)
    decreases |archive|
  {
    if archive != [] && archive[0].at < start {
      assert Since(archive, start) == Since(archive[1..], start);
      if archive[0].at < from {
        assert Since(archive, from) == Since(archive[1..], from);
        SinceSince(archive[1..], from, start);
      } else {
        assert Since(archive, from) == archive;
      }
    }
  }

  /** What paging has to read from `from` on, how much of it is before `start`, and how far it gets. */
  ghost function ToRead(archive: seq<Event>, from: int): seq<Event> { Since(archive, from) }

  ghost function Reached(archive: seq<Event>, from: int, start: int): nat { FirstAt(Since(archive, from), start) }

  ghost function Goal(archive: seq<Event>, from: int): nat { Limit(Since(archive, from), PI_MAX_COUNT, 0) }

  lemma GoalIs(archive: seq<Event>, from: int)
    ensures ToRead(archive, from) == Since(archive, from)
            && Goal(archive, from) == Limit(Since(archive, from), PI_MAX_COUNT, 0)
  {
  }

  lemma PagingStarts(c: Cursor, archive: seq<Event>, from: int)
    ensures var s, goal := ToRead(archive, from), Goal(archive, from);
            && Reached(archive, from, from) == 0 && DeliverAll(c, s[..0]) == Delivery(c, []) && goal <= |s|
            && (goal < |s| ==> PI_MAX_COUNT <= goal)
  {
  }

  /** A page is the next part of what paging has to read, and does not reach past its limit. */
  ghost predicate NextPart(archive: seq<Event>, from: int, start: int, maxCount: nat) {
    var s, page, f := ToRead(archive, from), Recorded(archive, start, maxCount), Reached(archive, from, start);
    && |page| <= maxCount && f + |page| <= Goal(archive, from) <= |s| && page == s[f..f + |page|]
    && (|page| < maxCount ==> f + |page| == |s|)
  }

  lemma PageIs(archive: seq<Event>, from: int, start: int, maxCount: nat)
    requires from <= start && maxCount <= PI_MAX_COUNT
    requires Goal(archive, from) < |ToRead(archive, from)| ==>
               Reached(archive, from, start) + PI_MAX_COUNT <= Goal(archive, from)
    ensures NextPart(archive, from, start, maxCount)
    ensures var s, page, f := ToRead(archive, from), Recorded(archive, start, maxCount), Reached(archive, from, start);
            && |page| <= maxCount && f + |page| <= Goal(archive, from) <= |s| && page == s[f..f + |page|]
            && (|page| < maxCount ==> f + |page| == |s|)
  {
    hide FirstAt, Limit, Since;
    SinceSince(archive, from, start);
    var s := Since(archive, from);
    assert Since(archive, start) == s[FirstAt(s, start)..] by { SinceIs(s, start); }
    assert Goal(archive, from) <= |s|;
  }

  lemma SinceIs(s: seq<Event>, start: int)
    ensures Since(s, start) == s[FirstAt(s, start)..]
  {
  }

  /** A largest page filled by one instant: the instant is blocked, and paging has reached its limit. */
  lemma WholePageBlocked(archive: seq<Event>, from: int, start: int)
    requires from <= start && NextPart(archive, from, start, PI_MAX_COUNT)
    requires var page := Recorded(archive, start, PI_MAX_COUNT);
             |page| == PI_MAX_COUNT && page[0].at == page[|page| - 1].at
    ensures Goal(archive, from) <= Reached(archive, from, start) + PI_MAX_COUNT
  {
    hide Limit, Recorded, Since;
    var s, page := Since(archive, from), Recorded(archive, start, PI_MAX_COUNT);
    var f := FirstAt(s, start);
    assert s[f] == page[0] && s[f + PI_MAX_COUNT - 1] == page[PI_MAX_COUNT - 1];
    assert Blocked(s, f, PI_MAX_COUNT);
  }

  /** The next page starts with the instant of the last event read: later, and not past a blocked one. */
  lemma NextStart(archive: seq<Event>, from: int, start: int, maxCount: nat)
    requires Sorted(archive) && from <= start && 0 < maxCount <= PI_MAX_COUNT
             && NextPart(archive, from, start, maxCount)
    requires var page := Recorded(archive, start, maxCount); |page| == maxCount && page[0].at != page[|page| - 1].at
    ensures var page, f, goal := Recorded(archive, start, maxCount), Reached(archive, from, start), Goal(archive, from);
            var next := page[|page| - 1].at;
            && start < next && f < Reached(archive, from, next) < f + |page|
            && (goal < |ToRead(archive, from)| ==> Reached(archive, from, next) + PI_MAX_COUNT <= goal)
  {
    hide Since, Recorded, FirstAt, Limit, Sorted;
    var s, page := Since(archive, from), Recorded(archive, start, maxCount);
    SinceSorted(archive, from);
    var f := FirstAt(s, start);
    var e := f + |page|;
    assert page[0] == s[f] && page[|page| - 1] == s[e - 1];
    RestartAt(s, start, f, e);
  }

  lemma SinceSorted(archive: seq<Event>, from: int)
    requires Sorted(archive)
    ensures Sorted(Since(archive, from))
  {
  }

  lemma RestartAt(s: seq<Event>, start: int, f: nat, e: nat)
    requires Sorted(s) && f == FirstAt(s, start) && f < e - 1 < |s| && s[f].at != s[e - 1].at
             && e <= Limit(s, PI_MAX_COUNT, 0)
    ensures var next := s[e - 1].at;
            && start < next && f < FirstAt(s, next) < e
            && (Limit(s, PI_MAX_COUNT, 0) < |s| ==> FirstAt(s, next) + PI_MAX_COUNT <= Limit(s, PI_MAX_COUNT, 0))
  {
    hide FirstAt, Limit;
    var next, limit := s[e - 1].at, Limit(s, PI_MAX_COUNT, 0);
    assert s[f].at < next;
    if limit < |s| {
      assert Blocked(s, limit - PI_MAX_COUNT, PI_MAX_COUNT);
      assert s[limit - 1].at >= next;
    }
  }

  // ---- what paging delivers ----

  /** Exactly the admitted events before the limit, in time order and once each. */
  lemma PagedIs(c: Cursor, s: seq<Event>, e: Event)
    requires Sorted(s)
    ensures e in Paged(c, s, PI_MAX_COUNT, 0) <==> e in s[..Limit(s, PI_MAX_COUNT, 0)] && Admits(c, e)
    ensures OnceInOrder(Paged(c, s, PI_MAX_COUNT, 0))
  {
    var part := s[..Limit(s, PI_MAX_COUNT, 0)];
    DeliveredAreAdmitted(c, part, e);
    DeliveredOnceInOrder(c, part);
  }

  lemma {:induction false} CountOfRun(s: seq<Event>, i: nat, n: nat)
    requires i + n <= |s| && forall k | i <= k < i + n :: s[k].at == s[i].at
    ensures n == 0 || CountAt(s, s[i].at) >= n
    decreases |s|
  {
    if n > 0 {
      if i == 0 {
        if n > 1 {
          assert s[1..][0].at == s[0].at;
          CountOfRun(s[1..], 0, n - 1);
        }
      } else {
        assert s[1..][i - 1] == s[i];
        assert forall k | i - 1 <= k < i - 1 + n :: s[1..][k] == s[k + 1];
        CountOfRun(s[1..], i - 1, n);
      }
    }
  }

  lemma {:induction false} CountSince(archive: seq<Event>, from: int, at: int)
    requires at >= from
    ensures CountAt(Since(archive, from), at) == CountAt(archive, at)
    decreases |archive|
  {
    if archive != [] && archive[0].at < from {
      assert Since(archive, from) == Since(archive[1..], from);
      CountSince(archive[1..], from, at);
    }
  }

  /** Some instant from `from` on has more than 150000 events, or just as many with a later event after them. */
  ghost predicate Overfull(archive: seq<Event>, from: int) {
    exists at | at >= from :: TooMany(archive, at)
  }

  ghost predicate TooMany(archive: seq<Event>, at: int) {
    CountAt(archive, at) > PI_MAX_COUNT
        || (CountAt(archive, at) == PI_MAX_COUNT && exists e | e in archive :: e.at > at)
  }

  /** Paging reaches the end of the archive if and only if no instant it comes to is overfull. */
  lemma ReachesTheEndExactly(archive: seq<Event>, from: int)
    requires Sorted(archive)
    ensures var s := Since(archive, from); Limit(s, PI_MAX_COUNT, 0) == |s| <==> !Overfull(archive, from)
  {
    hide Since, Limit, CountAt, Sorted, Blocked, FirstAt, TooMany;
    var s := Since(archive, from);
    var limit := Limit(s, PI_MAX_COUNT, 0);
    SinceSorted(archive, from);
    if limit < |s| {
      var at := s[limit - PI_MAX_COUNT].at;
      BlockedIsTooMany(s, limit - PI_MAX_COUNT);
      assert s[limit - PI_MAX_COUNT] in s;
      TooManySince(archive, from, at);
    } else if Overfull(archive, from) {
      var at :| at >= from && TooMany(archive, at);
      TooManySince(archive, from, at);
      TooManyBlocks(s, at);
    }
  }

  lemma TooManySince(archive: seq<Event>, from: int, at: int)
    requires Sorted(archive) && at >= from
    ensures TooMany(Since(archive, from), at) <==> TooMany(archive, at)
  {
    hide Since, CountAt, FirstAt;
    CountSince(archive, from, at);
  }

  lemma BlockedIsTooMany(s: seq<Event>, i: nat)
    requires Sorted(s) && Blocked(s, i, PI_MAX_COUNT) && i + PI_MAX_COUNT < |s|
    ensures TooMany(s, s[i].at)
  {
    hide CountAt;
    BlockedCount(s, i);
    var next := s[i + PI_MAX_COUNT];
    if next.at == s[i].at {
      CountOfRun(s, i, PI_MAX_COUNT + 1);
    } else {
      assert next in s && next.at > s[i].at;
    }
  }

  /** An instant with 150000 events fills the largest page: paging ends with the page. */
  lemma FullBlocks(s: seq<Event>, at: int)
    requires Sorted(s) && CountAt(s, at) >= PI_MAX_COUNT
    ensures var f := FirstAt(s, at); f + PI_MAX_COUNT <= |s| && Limit(s, PI_MAX_COUNT, 0) <= f + PI_MAX_COUNT
    ensures s[FirstAt(s, at) + PI_MAX_COUNT - 1].at == at
  {
    hide FirstAt, CountAt, Limit;
    CountedRun(s, at);
    var f := FirstAt(s, at);
    assert s[f].at == at && s[f + PI_MAX_COUNT - 1].at == at;
    assert Blocked(s, f, PI_MAX_COUNT);
  }

  lemma TooManyBlocks(s: seq<Event>, at: int)
    requires Sorted(s) && TooMany(s, at)
    ensures Limit(s, PI_MAX_COUNT, 0) < |s|
  {
    hide FirstAt, CountAt, Limit;
    FullBlocks(s, at);
    CountedRun(s, at);
    var f := FirstAt(s, at);
    if CountAt(s, at) == PI_MAX_COUNT {
      var e :| e in s && e.at > at;
      var k :| 0 <= k < |s| && s[k] == e;
      assert s[f + PI_MAX_COUNT - 1].at == at;
    }
  }

  /** In a sorted archive the events of an instant are consecutive. */
  lemma {:induction false} CountedRun(s: seq<Event>, at: int)
    requires Sorted(s)
    ensures FirstAt(s, at) + CountAt(s, at) <= |s|
    ensures forall k | FirstAt(s, at) <= k < FirstAt(s, at) + CountAt(s, at) :: s[k].at == at
    decreases |s|
  {
    if s != [] {
      var rest := s[1..];
      assert Sorted(rest);
      CountedRun(rest, at);
      if s[0].at >= at {
        LaterCount(rest, at);
        assert forall k | 0 < k < |s| :: s[k] == rest[k - 1];
      } else {
        assert forall k | 0 < k < |s| :: s[k] == rest[k - 1];
      }
    }
  }

  lemma LaterCount(s: seq<Event>, at: int)
    requires Sorted(s) && (s != [] ==> s[0].at >= at)
    ensures FirstAt(s, at) == 0
    ensures s != [] && s[0].at > at ==> CountAt(s, at) == 0
  {
    if s != [] && s[0].at > at {
      NoneAt(s, at);
    }
  }

  lemma {:induction false} NoneAt(s: seq<Event>, at: int)
    requires forall k | 0 <= k < |s| :: s[k].at != at
    ensures CountAt(s, at) == 0
    decreases |s|
  {
    if s != [] {
      assert forall k | 0 <= k < |s[1..]| :: s[1..][k] == s[k + 1];
      NoneAt(s[1..], at);
    }
  }

  lemma BlockedCount(s: seq<Event>, i: nat)
    requires Sorted(s) && Blocked(s, i, PI_MAX_COUNT)
    ensures i + PI_MAX_COUNT <= |s| && CountAt(s, s[i].at) >= PI_MAX_COUNT
  {
    hide CountAt;
    assert forall k | i <= k < i + PI_MAX_COUNT :: s[k].at == s[i].at;
    CountOfRun(s, i, PI_MAX_COUNT);
  }

  /** Every archived event at or after `from` that the cursor admits, in time order, once each. */
  lemma PagingIsComplete(c: Cursor, archive: seq<Event>, from: int, e: Event)
    requires Sorted(archive) && !Overfull(archive, from)
    ensures e in Paged(c, Since(archive, from), PI_MAX_COUNT, 0) <==> e in archive && e.at >= from && Admits(c, e)
    ensures OnceInOrder(Paged(c, Since(archive, from), PI_MAX_COUNT, 0))
  {
    hide Paged, Limit, Overfull;
    var s := Since(archive, from);
    assert Sorted(s) && (e in s <==> e in archive && e.at >= from);
    ReachesTheEndExactly(archive, from);
    assert s[..|s|] == s;
    PagedIs(c, s, e);
  }

  /** An instant of 150000 events or more hides every later event, not only the rest of the instant. */
  lemma FullInstantHidesTheRest(c: Cursor, archive: seq<Event>, from: int, at: int, e: Event)
    requires Sorted(archive) && at >= from && CountAt(archive, at) >= PI_MAX_COUNT && e.at > at
    ensures e !in Paged(c, Since(archive, from), PI_MAX_COUNT, 0)
  {
    hide Limit, Paged, CountAt, FirstAt, Since, Sorted, Admits;
    var s := Since(archive, from);
    SinceSorted(archive, from);
    CountSince(archive, from, at);
    FullBlocks(s, at);
    PagedIs(c, s, e);
    NotBefore(s, Limit(s, PI_MAX_COUNT, 0), FirstAt(s, at) + PI_MAX_COUNT - 1, e);
  }

  lemma NotBefore(s: seq<Event>, n: nat, k: nat, e: Event)
    requires Sorted(s) && n <= k + 1 <= |s| && e.at > s[k].at
    ensures e !in s[..n]
  {
  }

  // ---- exactly which events paging delivers ----

  /** Where an event first is. */
  function FirstOf(s: seq<Event>, e: Event): (k: nat)
    requires e in s
    ensures k < |s| && s[k] == e && e !in s[..k]
  {
    if s[0] == e then 0
    else
      var k := FirstOf(s[1..], e);
      assert s[..k + 1] == [s[0]] + s[1..][..k];
      k + 1
  }

  /**
   * Paging gets to event `k` if and only if no earlier instant has 150000 events and the event is among
   * the first 150000 of its own.
   */
  lemma BeforeLimit(s: seq<Event>, k: nat)
    requires Sorted(s) && k < |s|
    ensures k < Limit(s, PI_MAX_COUNT, 0) <==>
            (forall at | at < s[k].at :: CountAt(s, at) < PI_MAX_COUNT) && k < FirstAt(s, s[k].at) + PI_MAX_COUNT
  {
    hide CountAt, FirstAt, Limit;
    var limit, f := Limit(s, PI_MAX_COUNT, 0), FirstAt(s, s[k].at);
    assert f + PI_MAX_COUNT <= k ==> Blocked(s, f, PI_MAX_COUNT);
    if k < limit {
      forall at | at < s[k].at
        ensures CountAt(s, at) < PI_MAX_COUNT
      {
        if CountAt(s, at) >= PI_MAX_COUNT {
          FullBlocks(s, at);
        }
      }
    } else {
      BlockedCount(s, limit - PI_MAX_COUNT);
      assert s[limit - PI_MAX_COUNT].at == s[limit - 1].at <= s[k].at;
    }
  }

  /** Delivering up to the first occurrence of an admitted event delivers it last. */
  lemma DeliveredUpTo(c: Cursor, s: seq<Event>, e: Event)
    requires Sorted(s) && e in s && Admits(c, e)
    ensures DeliverAll(c, s[..FirstOf(s, e) + 1]).out == DeliverAll(c, s[..FirstOf(s, e)]).out + [e]
  {
    var k := FirstOf(s, e);
    DeliverNext(c, s, k);
    hide FirstOf, DeliverAll;
    assert forall i | 0 <= i < |s[..k]| :: s[..k][i].at <= e.at;
    SortedAdmits(c, s[..k], e);
  }

  lemma TakenIs(out: seq<Event>, front: seq<Event>, n: nat, e: Event)
    requires OnceInOrder(out) && front + [e] <= out && 0 < n
    ensures e in Take(out, n) <==> |front| + 1 <= n
  {
    assert out[|front|] == e;
    if |front| < n {
      assert Take(out, n)[|front|] == e;
    }
  }

  /**
   * An event of the archive part is delivered if and only if the cursor admits it, paging gets to it, and
   * with it no more than `maxEvents` have been delivered (0: no limit).
   */
  lemma PagedExactly(c: Cursor, s: seq<Event>, maxEvents: nat, e: Event)
    requires Sorted(s) && e in s
    ensures e in Paged(c, s, PI_MAX_COUNT, maxEvents) <==>
            && Admits(c, e) && FirstOf(s, e) < Limit(s, PI_MAX_COUNT, 0)
            && (maxEvents == 0 || |DeliverAll(c, s[..FirstOf(s, e) + 1]).out| <= maxEvents)
  {
    hide FirstOf, Limit, DeliverAll, Admits, Sorted, OnceInOrder, Take, Paged, Blocked;
    var k, limit := FirstOf(s, e), Limit(s, PI_MAX_COUNT, 0);
    var full := DeliverAll(c, s[..limit]).out;
    InPrefix(s, limit, k, e);
    PagedIs(c, s, e);
    PagedParts(c, s, maxEvents);
    if e in full {
      DeliveredUpTo(c, s, e);
      DeliveredGrows(c, s, k + 1, limit);
      if maxEvents > 0 {
        TakenIs(full, DeliverAll(c, s[..k]).out, maxEvents, e);
      }
    } else if maxEvents > 0 {
      TakeOnly(full, maxEvents, e);
    }
  }

  lemma InPrefix(s: seq<Event>, n: nat, k: nat, e: Event)
    requires n <= |s| && k < |s| && s[k] == e && e !in s[..k]
    ensures e in s[..n] <==> k < n
  {
    if k < n {
      assert s[..n][k] == e;
    } else {
      assert forall i | 0 <= i < n :: s[..n][i] == s[..k][i];
    }
  }

  lemma PagedParts(c: Cursor, s: seq<Event>, maxEvents: nat)
    ensures var full := DeliverAll(c, s[..Limit(s, PI_MAX_COUNT, 0)]).out;
            && Paged(c, s, PI_MAX_COUNT, 0) == full
            && Paged(c, s, PI_MAX_COUNT, maxEvents) == if maxEvents == 0 then full else Take(full, maxEvents)
  {
  }

  lemma TakeOnly(out: seq<Event>, n: nat, e: Event)
    ensures e in Take(out, n) ==> e in out
  {
  }

  /**
   * Paging with a limit on events gets to an event: no earlier instant is full, the event is among the
   * first 150000 of its own, and with it no more than `maxEvents` are delivered (0: no limit).
   */
  ghost predicate InReach(c: Cursor, s: seq<Event>, maxEvents: nat, e: Event) {
    && e in s
    && (forall at | at < e.at :: CountAt(s, at) < PI_MAX_COUNT)
    && FirstOf(s, e) < FirstAt(s, e.at) + PI_MAX_COUNT
    && (maxEvents == 0 || |DeliverAll(c, s[..FirstOf(s, e) + 1]).out| <= maxEvents)
  }

  lemma PagedIsInReach(c: Cursor, s: seq<Event>, maxEvents: nat, e: Event)
    requires Sorted(s) && Admits(c, e)
    ensures e in Paged(c, s, PI_MAX_COUNT, maxEvents) <==> InReach(c, s, maxEvents, e)
  {
    hide Paged, Limit, CountAt, FirstAt, FirstOf, DeliverAll, Sorted, Admits;
    if e in s {
      var k := FirstOf(s, e);
      PagedExactly(c, s, maxEvents, e);
      BeforeLimit(s, k);
      assert s[k].at == e.at;
      assert k < Limit(s, PI_MAX_COUNT, 0) <==>
             (forall at | at < e.at :: CountAt(s, at) < PI_MAX_COUNT) && k < FirstAt(s, e.at) + PI_MAX_COUNT;
    } else {
      PagedIs(c, s, e);
      PagedParts(c, s, maxEvents);
      NotInPrefix(s, Limit(s, PI_MAX_COUNT, 0), e);
      TakeOnly(Paged(c, s, PI_MAX_COUNT, 0), maxEvents, e);
    }
  }

  /** A replay starts at the cursor, or at the millisecond of the floor when the cursor is older than the floor. */
  predicate StartsAt(c: Cursor, floor: int, start: int)
    requires c.At?
  {
    if c.at < floor then start % 1_000_000 == 0 && start <= floor < start + 1_000_000 else start == c.at
  }

  lemma StartIs(c: Cursor, floor: int, start: int)
    requires c.At?
    ensures StartsAt(c, floor, start) <==> start == ReplayFrom(c, floor)
  {
  }

  /** There is backfill and a cursor, and the event is in reach from the start of the replay on. */
  ghost predicate ReplayReaches(c: Cursor, archive: seq<Event>, b: Backfill, e: Event) {
    c.At? && b.Backfill? && exists start | StartsAt(c, b.floor, start) ::
      e.at >= start && InReach(c, Since(archive, start), b.maxEvents, e)
  }

  /** Not older than the cursor, nor than the millisecond of the floor. */
  predicate InTime(c: Cursor, b: Backfill, e: Event) {
    c.At? && b.Backfill? && e.at >= c.at && (c.at < b.floor ==> e.at / 1_000_000 >= b.floor / 1_000_000)
  }

  /** Catching up replays an archived event the cursor admits if and only if it reaches it. */
  lemma ReplayedExactly(c: Cursor, archive: seq<Event>, b: Backfill, e: Event)
    requires Sorted(archive) && e in archive && Admits(c, e)
    ensures e in Replayed(c, archive, b) <==> ReplayReaches(c, archive, b, e)
  {
    if c.At? && b.Backfill? {
      hide Since, Paged, ReplayFrom, InReach, Sorted, Admits, StartsAt;
      var start := ReplayFrom(c, b.floor);
      forall other
        ensures StartsAt(c, b.floor, other) <==> other == start
      {
        StartIs(c, b.floor, other);
      }
      var s := Since(archive, start);
      assert InReach(c, s, b.maxEvents, e) ==> e in s by { InReachIsIn(c, s, b.maxEvents, e); }
      PagedIsInReach(c, s, b.maxEvents, e);
    }
  }

  /** Only archived events the cursor admits are replayed, none of them from before the cursor or the floor. */
  lemma ReplayedInTime(c: Cursor, archive: seq<Event>, b: Backfill, e: Event)
    requires Sorted(archive) && e in Replayed(c, archive, b)
    ensures e in archive && Admits(c, e) && InTime(c, b, e)
  {
    var start := ReplayFrom(c, b.floor);
    hide Since, Paged, Sorted;
    var s := Since(archive, start);
    SinceSorted(archive, start);
    PagedParts(c, s, b.maxEvents);
    TakeOnly(Paged(c, s, PI_MAX_COUNT, 0), b.maxEvents, e);
    PagedIs(c, s, e);
    assert e in s;
  }

  /** What a catch-up queues, event by event. */
  lemma ReplayedAre(c: Cursor, archive: seq<Event>, b: Backfill, part: seq<Event>)
    requires Sorted(archive) && part <= Replayed(c, archive, b)
    ensures forall e | e in part :: e in archive && Admits(c, e) && InTime(c, b, e)
    ensures part == Replayed(c, archive, b) ==>
              forall e | e in archive && Admits(c, e) :: e in part <==> ReplayReaches(c, archive, b, e)
  {
    hide Replayed, Admits, InTime, ReplayReaches, Sorted;
    forall e | e in part
      ensures e in archive && Admits(c, e) && InTime(c, b, e)
    {
      ReplayedInTime(c, archive, b, e);
    }
    forall e | e in archive && Admits(c, e)
      ensures e in Replayed(c, archive, b) <==> ReplayReaches(c, archive, b, e)
    {
      ReplayedExactly(c, archive, b, e);
    }
  }

  lemma InReachIsIn(c: Cursor, s: seq<Event>, maxEvents: nat, e: Event)
    ensures InReach(c, s, maxEvents, e) ==> e in s
  {
  }

  lemma NotInPrefix(s: seq<Event>, n: nat, e: Event)
    requires n <= |s| && e !in s
    ensures e !in s[..n]
  {
  }

  // ---- a poll ----

  lemma {:induction false} DeliverSplit(c: Cursor, a: seq<Event>, b: seq<Event>)
    ensures var first := DeliverAll(c, a); var second := DeliverAll(first.cursor, b);
            DeliverAll(c, a + b) == Delivery(second.cursor, first.out + second.out)
    decreases |b|
  {
    if b == [] {
      assert a + b == a;
    } else {
      var front := b[..|b| - 1];
      assert (a + b)[..|a + b| - 1] == a + front;
      DeliverSplit(c, a, front);
    }
  }

  lemma NothingOffered(c: Cursor, s: seq<Event>)
    ensures DeliverAll(c, s[..0]) == Delivery(c, [])
  {
  }

  /** Whatever was offered, the cursor is set once anything was, and never before where it was. */
  lemma {:induction false} FullPageMoves(c: Cursor, events: seq<Event>)
    requires events != []
    ensures DeliverAll(c, events).cursor.At? && events[..|events|] == events
    ensures forall e | e in events :: e.at <= DeliverAll(c, events).cursor.at
    ensures c.At? ==> c.at <= DeliverAll(c, events).cursor.at
    decreases |events|
  {
    var front, last := events[..|events| - 1], events[|events| - 1];
    assert events == front + [last];
    var before := DeliverAll(c, front);
    assert DeliverAll(c, events) == Deliver(before, last);
    assert front == [] ==> before.cursor == c;
    hide Deliver, DeliverAll;
    DeliverMoves(before, last);
    if front != [] {
      FullPageMoves(c, front);
    }
  }

  lemma DeliverMoves(d: Delivery, e: Event)
    ensures var after := Deliver(d, e).cursor;
            after.At? && e.at <= after.at && (d.cursor.At? ==> d.cursor.at <= after.at)
  {
  }

  lemma WholePage(page: seq<Event>)
    ensures page[..|page|] == page
  {
  }

  /** What the pages after a full first page can deliver. */
  ghost function After(c: Cursor, archive: seq<Event>, page: seq<Event>): seq<Event>
    requires page != []
  {
    FullPageMoves(c, page);
    Paged(DeliverAll(c, page).cursor, Since(archive, DeliverAll(c, page).cursor.at), PI_MAX_COUNT, 0)
  }

  lemma RecordedIs(archive: seq<Event>, start: int, pageSize: nat, e: Event)
    requires Sorted(archive) && e in Recorded(archive, start, pageSize)
    ensures e in archive && e.at >= start
  {
  }

  /** A poll delivers nothing that is not archived since `start`, and in time order, once each. */
  lemma PolledSound(c: Cursor, archive: seq<Event>, start: int, pageSize: nat, offered: nat, rest: seq<Event>)
    requires Sorted(archive) && 1 <= pageSize
    requires offered <= |Recorded(archive, start, pageSize)|
    requires rest != [] ==> (var page := Recorded(archive, start, pageSize);
                             offered == |page| && page != [] && rest <= After(c, archive, page))
    ensures var got := DeliverAll(c, Recorded(archive, start, pageSize)[..offered]).out + rest;
            OnceInOrder(got) && forall e | e in got :: e in archive && e.at >= start && Admits(c, e)
  {
    hide Since, Paged, Recorded, Limit, Sorted;
    var page := Recorded(archive, start, pageSize);
    var part := page[..offered];
    var d := DeliverAll(c, part);
    DeliveredOnceInOrder(c, part);
    forall e | e in d.out
      ensures e in archive && e.at >= start && Admits(c, e)
    {
      DeliveredAreAdmitted(c, part, e);
      RecordedIs(archive, start, pageSize, e);
    }
    if rest != [] {
      assert part == page;
      AfterSound(c, archive, start, pageSize);
      assert d.out + rest <= d.out + After(c, archive, page);
    } else {
      assert d.out + rest == d.out;
    }
  }

  lemma AfterSound(c: Cursor, archive: seq<Event>, start: int, pageSize: nat)
    requires Sorted(archive) && Recorded(archive, start, pageSize) != []
    ensures var page := Recorded(archive, start, pageSize);
            && OnceInOrder(DeliverAll(c, page).out + After(c, archive, page))
            && forall e | e in After(c, archive, page) :: e in archive && e.at >= start && Admits(c, e)
  {
    hide Since, Recorded, Limit, Sorted;
    var page := Recorded(archive, start, pageSize);
    var d := DeliverAll(c, page);
    FullPageMoves(c, page);
    SinceSorted(archive, d.cursor.at);
    var s := Since(archive, d.cursor.at);
    var part := s[..Limit(s, PI_MAX_COUNT, 0)];
    DeliverSplit(c, page, part);
    DeliveredOnceInOrder(c, page + part);
    RecordedIs(archive, start, pageSize, page[0]);
    hide Paged, OnceInOrder;
    forall e | e in After(c, archive, page)
      ensures e in archive && e.at >= start && Admits(c, e)
    {
      PagedIs(d.cursor, s, e);
      if !Admits(c, e) {
        RefusedForEver(c, page, e);
      }
      assert e in s && page[0] in page;
    }
  }

  /**
   * A poll that ends normally delivers everything archived since `start` that the cursor admits, unless an instant is
   * overfull.
   */
  lemma PolledAll(c: Cursor, archive: seq<Event>, start: int, pageSize: nat, rest: seq<Event>)
    requires Sorted(archive) && 1 <= pageSize
    requires var page := Recorded(archive, start, pageSize);
             |page| < pageSize || (page != [] && rest == After(c, archive, page))
    ensures !Overfull(archive, start) ==>
              forall e | e in archive && e.at >= start && Admits(c, e) ::
                e in DeliverAll(c, Recorded(archive, start, pageSize)).out + rest
  {
    hide *;
    if !Overfull(archive, start) {
      forall e | e in archive && e.at >= start && Admits(c, e)
        ensures e in DeliverAll(c, Recorded(archive, start, pageSize)).out + rest
      {
        PolledOne(c, archive, start, pageSize, rest, e);
      }
    }
  }

  lemma PolledOne(c: Cursor, archive: seq<Event>, start: int, pageSize: nat, rest: seq<Event>, e: Event)
    requires Sorted(archive) && 1 <= pageSize && !Overfull(archive, start)
    requires var page := Recorded(archive, start, pageSize);
             |page| < pageSize || (page != [] && rest == After(c, archive, page))
    requires e in archive && e.at >= start && Admits(c, e)
    ensures e in DeliverAll(c, Recorded(archive, start, pageSize)).out + rest
  {
    hide Since, Recorded, Paged, Limit, Sorted, Overfull;
    var page := Recorded(archive, start, pageSize);
    RecordedSorted(archive, start, pageSize, e);
    if e in page {
      DeliveredAreAdmitted(c, page, e);
    } else {
      SortedAdmits(c, page, e);
      FullPageMoves(c, page);
      assert page[0] in page;
      RecordedIs(archive, start, pageSize, page[0]);
      LaterIsNotOverfull(archive, start, DeliverAll(c, page).cursor.at);
      PagingIsComplete(DeliverAll(c, page).cursor, archive, DeliverAll(c, page).cursor.at, e);
    }
  }

  lemma LaterIsNotOverfull(archive: seq<Event>, from: int, later: int)
    requires from <= later && !Overfull(archive, from)
    ensures !Overfull(archive, later)
  {
    hide TooMany;
  }

  /** A page is sorted, and an archived event it does not hold comes after a full one. */
  lemma RecordedSorted(archive: seq<Event>, start: int, pageSize: nat, e: Event)
    requires Sorted(archive) && e in archive && e.at >= start && 1 <= pageSize
    ensures var page := Recorded(archive, start, pageSize);
            Sorted(page) && (e !in page ==> |page| == pageSize && forall k | 0 <= k < |page| :: page[k].at <= e.at)
  {
    hide Since, Take, Sorted;
    TakeSorted(Since(archive, start), pageSize, e);
  }

  lemma TakeSorted(s: seq<Event>, n: nat, e: Event)
    requires Sorted(s) && e in s
    ensures var page := Take(s, n);
            Sorted(page) && (e !in page ==> |page| == n && forall k | 0 <= k < |page| :: page[k].at <= e.at)
  {
    var page := Take(s, n);
    var i :| 0 <= i < |s| && s[i] == e;
    assert forall k | 0 <= k < |page| :: page[k] == s[k];
    assert i < |page| ==> page[i] == e;
  }

  lemma AfterIs(c: Cursor, archive: seq<Event>, page: seq<Event>)
    requires page != []
    ensures DeliverAll(c, page).cursor.At?
    ensures After(c, archive, page)
         == Paged(DeliverAll(c, page).cursor, Since(archive, DeliverAll(c, page).cursor.at), PI_MAX_COUNT, 0)
  {
    FullPageMoves(c, page);
  }
}
