/**
 * Splitting a request's WebIds into chunks the server accepts, and the reading loop that halves a
 * chunk the server still finds too long.
 */
module PiChunks {
  const PARAMETER := "&webId="

  // ---- what a chunk may hold ----

  /** The URL's length with the ids `lo..hi` on it. */
  function Load(ids: seq<string>, fixed: nat, lo: nat, hi: nat): nat
    requires lo <= hi <= |ids|
    decreases hi
  {
    if lo == hi then fixed else Load(ids, fixed, lo, hi - 1) + |PARAMETER| + |ids[hi - 1]|
  }

  datatype Limits = Limits(count: nat, urlBytes: nat, fixed: nat)

  /** A chunk within the count, and within the URL unless it is a single id. */
  predicate Fits(ids: seq<string>, limits: Limits, lo: nat, hi: nat) {
    lo < hi <= |ids|
    && (hi - lo == 1 || (hi - lo <= limits.count && Load(ids, limits.fixed, lo, hi) <= limits.urlBytes))
  }

  function EndOf(starts: seq<nat>, c: nat, n: nat): nat {
    if c + 1 < |starts| then starts[c + 1] else n
  }

  /** Consecutive chunks that cover the first `n` ids once each, every chunk acceptable. */
  ghost predicate Splits(ids: seq<string>, limits: Limits, starts: seq<nat>, n: nat) {
    && (n == 0 <==> starts == [])
    && (starts != [] ==> starts[0] == 0)
    && (forall c {:trigger EndOf(starts, c, n)} | 0 <= c < |starts| ::
          Fits(ids, limits, starts[c], EndOf(starts, c, n)))
  }

  /** No chunk but the last could take one more id. */
  ghost predicate Greedy(ids: seq<string>, limits: Limits, starts: seq<nat>, n: nat) {
    forall c {:trigger EndOf(starts, c, n)} | 0 <= c < |starts| - 1 ::
      EndOf(starts, c, n) < n && !Fits(ids, limits, starts[c], EndOf(starts, c, n) + 1)
  }

  lemma {:induction false} LoadWithin(ids: seq<string>, fixed: nat, lo: nat, lo': nat, hi': nat, hi: nat)
    requires lo <= lo' <= hi' <= hi <= |ids|
    ensures fixed <= Load(ids, fixed, lo', hi') <= Load(ids, fixed, lo, hi)
    decreases hi
  {
    if hi' < hi {
      LoadWithin(ids, fixed, lo, lo', hi', hi - 1);
    } else if lo' < hi' {
      LoadWithin(ids, fixed, lo, lo', hi' - 1, hi - 1);
    } else if lo < hi {
      LoadWithin(ids, fixed, lo, lo, lo, hi - 1);
    }
  }

  lemma FitsWithin(ids: seq<string>, limits: Limits, lo: nat, lo': nat, hi': nat, hi: nat)
    requires Fits(ids, limits, lo, hi) && lo <= lo' < hi' <= hi
    ensures Fits(ids, limits, lo', hi')
  {
    LoadWithin(ids, limits.fixed, lo, lo', hi', hi);
  }

  /** Each chunk of a greedy split starts no earlier than the same chunk of any other split. */
  lemma {:induction false} StaysAhead(ids: seq<string>, limits: Limits, starts: seq<nat>, other: seq<nat>, n: nat,
      c: nat)
    requires Splits(ids, limits, starts, n) && Greedy(ids, limits, starts, n) && Splits(ids, limits, other, n)
    requires c < |starts| && c < |other|
    ensures other[c] <= starts[c]
    decreases c
  {
    if c > 0 {
      hide Fits;
      StaysAhead(ids, limits, starts, other, n, c - 1);
      assert EndOf(other, c - 1, n) == other[c] && EndOf(starts, c - 1, n) == starts[c];
      NotShorter(ids, limits, starts[c - 1], starts[c], other[c - 1], other[c]);
    }
  }

  lemma NotShorter(ids: seq<string>, limits: Limits, lo: nat, hi: nat, lo': nat, hi': nat)
    requires Fits(ids, limits, lo, hi) && !Fits(ids, limits, lo, hi + 1) && Fits(ids, limits, lo', hi') && lo' <= lo
    ensures hi' <= hi
  {
    if hi < hi' {
      FitsWithin(ids, limits, lo', lo, hi + 1, hi');
    }
  }

  /** A greedy split has the fewest chunks any acceptable split can have. */
  lemma GreedyIsFewest(ids: seq<string>, limits: Limits, starts: seq<nat>, other: seq<nat>, n: nat)
    requires Splits(ids, limits, starts, n) && Greedy(ids, limits, starts, n) && Splits(ids, limits, other, n)
    ensures |starts| <= |other|
  {
    if 0 < |other| < |starts| {
      var c := |other| - 1;
      hide Fits;
      StaysAhead(ids, limits, starts, other, n, c);
      assert EndOf(other, c, n) == n && EndOf(starts, c, n) == starts[c + 1];
      NotShorter(ids, limits, starts[c], starts[c + 1], other[c], n);
      assert false;
    }
  }

  lemma OneFits(ids: seq<string>, limits: Limits, i: nat)
    requires i < |ids|
    ensures Fits(ids, limits, i, i + 1)
  {
  }

  lemma NewChunk(ids: seq<string>, limits: Limits, starts: seq<nat>, i: nat)
    requires i < |ids| && Splits(ids, limits, starts, i) && Greedy(ids, limits, starts, i)
    requires starts != [] ==> !Fits(ids, limits, starts[|starts| - 1], i + 1)
    ensures Splits(ids, limits, starts + [i], i + 1) && Greedy(ids, limits, starts + [i], i + 1)
  {
    hide Fits;
    var after := starts + [i];
    OneFits(ids, limits, i);
    forall c | 0 <= c < |starts|
      ensures EndOf(after, c, i + 1) == EndOf(starts, c, i) && after[c] == starts[c]
    {
    }
    assert EndOf(after, |starts|, i + 1) == i + 1;
    if starts != [] {
      assert EndOf(starts, |starts| - 1, i) == i;
    }
  }

  lemma LongerChunk(ids: seq<string>, limits: Limits, starts: seq<nat>, i: nat)
    requires starts != [] && Splits(ids, limits, starts, i) && Greedy(ids, limits, starts, i)
    requires Fits(ids, limits, starts[|starts| - 1], i + 1)
    ensures Splits(ids, limits, starts, i + 1) && Greedy(ids, limits, starts, i + 1)
  {
    hide Fits;
    assert EndOf(starts, |starts| - 1, i) == i;
    forall c | 0 <= c < |starts|
      ensures Fits(ids, limits, starts[c], EndOf(starts, c, i + 1))
      ensures c < |starts| - 1 ==>
                EndOf(starts, c, i + 1) < i + 1 && !Fits(ids, limits, starts[c], EndOf(starts, c, i + 1) + 1)
    {
      assert c < |starts| - 1 ==> EndOf(starts, c, i + 1) == EndOf(starts, c, i);
    }
  }

  /** Fills `starts` with the index each chunk begins at; a chunk size of 0 is taken as 1. */
  method Chunks(ids: seq<string>, chunk: nat, urlBytes: nat, fixed: nat, starts: array<nat>) returns (count: nat)
    requires |ids| <= starts.Length
    modifies starts
    ensures count <= |ids| && forall k | count <= k < starts.Length :: starts[k] == old(starts[k])
    ensures var limits := Limits(if chunk < 1 then 1 else chunk, urlBytes, fixed);
            Splits(ids, limits, starts[..count], |ids|) && Greedy(ids, limits, starts[..count], |ids|)
  {
    hide Splits, Greedy;
    var most := if chunk < 1 then 1 else chunk;
    ghost var limits := Limits(most, urlBytes, fixed);
    var inChunk, len := 0, fixed;
    count := 0;
    NoChunks(ids, limits);
    for i := 0 to |ids|
      invariant count <= i && (i == 0 <==> inChunk == 0) && (i > 0 ==> count > 0)
      invariant forall k | count <= k < starts.Length :: starts[k] == old(starts[k])
      invariant inChunk > 0 ==> starts[count - 1] == i - inChunk && len == Load(ids, fixed, i - inChunk, i)
      invariant inChunk > 1 ==> inChunk <= most && len <= urlBytes
      invariant inChunk == 0 ==> count == 0 && len == fixed
      invariant Splits(ids, limits, starts[..count], i) && Greedy(ids, limits, starts[..count], i)
    {
      var add := |PARAMETER| + |ids[i]|;
      if inChunk > 0 && (inChunk >= most || len + add > urlBytes) {
        inChunk, len := 0, fixed;
      }
      if inChunk == 0 {
        NewChunk(ids, limits, starts[..count], i);
        ghost var before := starts[..count];
        starts[count] := i;
        count := count + 1;
        assert starts[..count] == before + [i];
      } else {
        LongerChunk(ids, limits, starts[..count], i);
      }
      len := len + add;
      inChunk := inChunk + 1;
    }
  }

  lemma NoChunks(ids: seq<string>, limits: Limits)
    ensures Splits(ids, limits, [], 0) && Greedy(ids, limits, [], 0)
  {
  }

  // ---- reading, with halving ----

  datatype Reply = Fine | TooLong | Failed(code: nat)
  datatype Answer = Item(id: int) | Refused | Error(code: nat)

  /** A pending request: `len` ids from `start`. */
  datatype Request = Request(start: nat, len: nat)

  /** What each id of a chunk is answered when a too long chunk is halved until it is accepted. */
  function Settle(server: (nat, nat, nat) -> Reply, round: nat, start: nat, len: nat): (r: seq<Answer>)
    ensures |r| == len
    decreases len
  {
    match server(round, start, len)
    case Fine => seq(len, i => Item(start + i))
    case Failed(code) => seq(len, i => Error(code))
    case TooLong =>
      if len <= 1 then seq(len, i => Refused)
      else
        var half := (len + 1) / 2;
        Settle(server, round + 1, start, half) + Settle(server, round + 1, start + half, len - half)
  }

  /** One request for each of the ids at worst, and one for each halving. */
  function Budget(pending: seq<Request>): nat {
    if pending == [] then 0 else Cost(pending[0]) + Budget(pending[1..])
  }

  function Cost(r: Request): nat {
    if r.len == 0 then 1 else 2 * r.len - 1
  }

  lemma {:induction false} BudgetConcat(a: seq<Request>, b: seq<Request>)
    ensures Budget(a + b) == Budget(a) + Budget(b)
    decreases |a|
  {
    if a == [] {
      assert a + b == b;
    } else {
      assert (a + b)[1..] == a[1..] + b;
      BudgetConcat(a[1..], b);
    }
  }

  predicate Covers(r: Request, i: nat) {
    r.start <= i < r.start + r.len
  }

  predicate Pending(work: seq<Request>, i: nat) {
    exists r | r in work :: Covers(r, i)
  }

  /** Requests in order, within `n` ids, none empty and none overlapping. */
  ghost predicate InOrder(work: seq<Request>, n: nat) {
    && (forall k | 0 <= k < |work| :: work[k].len > 0 && work[k].start + work[k].len <= n)
    && (forall j, k | 0 <= j < k < |work| :: work[j].start + work[j].len <= work[k].start)
  }

  /** The answers each pending request is to give are those of the whole. */
  ghost predicate Promised(server: (nat, nat, nat) -> Reply, round: nat, work: seq<Request>, whole: seq<Answer>) {
    forall r | r in work ::
      r.start + r.len <= |whole| && Settle(server, round, r.start, r.len) == whole[r.start..r.start + r.len]
  }

  /** Every id is waiting in the work list, or was settled once with its answer. */
  ghost predicate Accounted(work: seq<Request>, whole: seq<Answer>, answers: seq<Answer>, hits: seq<nat>) {
    && |answers| == |hits| == |whole|
    && forall i | 0 <= i < |whole| ::
         if Pending(work, i) then hits[i] == 0 else hits[i] == 1 && answers[i] == whole[i]
  }

  lemma PendingHead(r: Request, rest: seq<Request>, before: seq<Request>, i: nat)
    ensures Pending(before + [r] + rest, i) <==> Covers(r, i) || Pending(before + rest, i)
  {
    assert r in before + [r] + rest;
    assert forall x :: x in before + [r] + rest <==> x == r || x in before + rest;
  }

  /** A request that gave its answers: its ids are settled, the rest of the work list is as before. */
  lemma SettledOne(server: (nat, nat, nat) -> Reply, round: nat, r: Request, before: seq<Request>, rest: seq<Request>,
                   whole: seq<Answer>, answers: seq<Answer>, hits: seq<nat>, answers': seq<Answer>, hits': seq<nat>)
    requires InOrder(before + [r] + rest, |whole|) && Accounted(before + [r] + rest, whole, answers, hits)
    requires |answers'| == |hits'| == |whole| && r.start + r.len <= |whole|
    requires forall i | 0 <= i < |whole| :: if Covers(r, i) then answers'[i] == whole[i] && hits'[i] == hits[i] + 1
                                            else answers'[i] == answers[i] && hits'[i] == hits[i]
    ensures InOrder(before + rest, |whole|) && Accounted(before + rest, whole, answers', hits')
  {
    forall i | 0 <= i < |whole|
      ensures if Pending(before + rest, i) then hits'[i] == 0 else hits'[i] == 1 && answers'[i] == whole[i]
    {
      PendingHead(r, rest, before, i);
      if Covers(r, i) {
        NotTwice(r, rest, before, |whole|, i);
      }
    }
    InOrderWithout(r, rest, before, |whole|);
  }

  lemma InOrderWithout(r: Request, rest: seq<Request>, before: seq<Request>, n: nat)
    requires InOrder(before + [r] + rest, n)
    ensures InOrder(before + rest, n)
  {
    var all, fewer := before + [r] + rest, before + rest;
    assert forall k | 0 <= k < |fewer| :: fewer[k] == all[if k < |before| then k else k + 1];
  }

  lemma NotTwice(r: Request, rest: seq<Request>, before: seq<Request>, n: nat, i: nat)
    requires InOrder(before + [r] + rest, n) && Covers(r, i)
    ensures !Pending(before + rest, i)
  {
    var all, fewer := before + [r] + rest, before + rest;
    assert all[|before|] == r;
    forall x | x in fewer
      ensures !Covers(x, i)
    {
      var k :| 0 <= k < |fewer| && fewer[k] == x;
      var j := if k < |before| then k else k + 1;
      assert all[j] == x;
    }
  }

  lemma HalvedInOrder(r: Request, before: seq<Request>, rest: seq<Request>, half: nat, n: nat)
    requires InOrder(before + [r] + rest, n) && 0 < half < r.len
    ensures InOrder(before + [Request(r.start, half), Request(r.start + half, r.len - half)] + rest, n)
  {
    var a, b := Request(r.start, half), Request(r.start + half, r.len - half);
    var all, cut := before + [r] + rest, before + [a, b] + rest;
    assert all[|before|] == r;
    assert forall k | 0 <= k < |before| :: cut[k] == all[k];
    assert cut[|before|] == a && cut[|before| + 1] == b;
    assert forall k | |before| + 1 < k < |cut| :: cut[k] == all[k - 1];
  }

  /** A request cut in two: the same ids are pending. */
  lemma Halved(r: Request, before: seq<Request>, rest: seq<Request>, half: nat, whole: seq<Answer>,
      answers: seq<Answer>, hits: seq<nat>)
    requires InOrder(before + [r] + rest, |whole|) && Accounted(before + [r] + rest, whole, answers, hits)
             && 0 < half < r.len
    ensures var cut := before + [Request(r.start, half), Request(r.start + half, r.len - half)] + rest;
            InOrder(cut, |whole|) && Accounted(cut, whole, answers, hits)
  {
    hide InOrder, Pending;
    var a, b := Request(r.start, half), Request(r.start + half, r.len - half);
    var all, cut := before + [r] + rest, before + [a, b] + rest;
    HalvedInOrder(r, before, rest, half, |whole|);
    forall i | 0 <= i < |whole|
      ensures Pending(cut, i) <==> Pending(all, i)
    {
      PendingHead(r, rest, before, i);
      assert cut == before + [a] + ([b] + rest) && before + ([b] + rest) == before + [b] + rest;
      PendingHead(a, [b] + rest, before, i);
      PendingHead(b, rest, before, i);
    }
  }

  /** Consecutive requests from `start` to `end`, none empty. */
  ghost predicate Contiguous(chunks: seq<Request>, start: nat, end: nat)
    decreases |chunks|
  {
    if chunks == [] then start == end
    else chunks[0].start == start && chunks[0].len > 0 && Contiguous(chunks[1..], start + chunks[0].len, end)
  }

  /** The answers of all ids: those of every chunk, one after the other. */
  ghost function Whole(server: (nat, nat, nat) -> Reply, chunks: seq<Request>): seq<Answer>
    decreases |chunks|
  {
    if chunks == [] then [] else Settle(server, 0, chunks[0].start, chunks[0].len) + Whole(server, chunks[1..])
  }

  lemma {:induction false} ContiguousInOrder(chunks: seq<Request>, start: nat, end: nat)
    requires Contiguous(chunks, start, end)
    ensures start <= end && InOrder(chunks, end)
    ensures forall k | 0 <= k < |chunks| :: start <= chunks[k].start
    decreases |chunks|
  {
    if chunks != [] {
      var r, rest := chunks[0], chunks[1..];
      ContiguousInOrder(rest, start + r.len, end);
      assert forall k | 1 <= k < |chunks| :: chunks[k] == rest[k - 1];
    }
  }

  lemma {:induction false} ContiguousPending(chunks: seq<Request>, start: nat, end: nat, i: nat)
    requires Contiguous(chunks, start, end) && start <= i < end
    ensures Pending(chunks, i)
    decreases |chunks|
  {
    var r, rest := chunks[0], chunks[1..];
    PendingHead(r, rest, [], i);
    assert [] + [r] + rest == chunks && [] + rest == rest;
    if !Covers(r, i) {
      ContiguousPending(rest, start + r.len, end, i);
    }
  }

  lemma {:induction false} WholePromises(server: (nat, nat, nat) -> Reply, chunks: seq<Request>, start: nat,
      end: nat, r: Request)
    requires Contiguous(chunks, start, end) && r in chunks
    ensures |Whole(server, chunks)| == end - start && start <= r.start && r.start + r.len <= end
    ensures Settle(server, 0, r.start, r.len) == Whole(server, chunks)[r.start - start..r.start - start + r.len]
    decreases |chunks|
  {
    hide Settle, Whole, Contiguous;
    var head, rest := chunks[0], chunks[1..];
    WholeHead(server, chunks, start, end);
    var first, tail := Settle(server, 0, head.start, head.len), Whole(server, rest);
    WholeLength(server, rest, start + head.len, end);
    if r in rest {
      WholePromises(server, rest, start + head.len, end, r);
      SliceOfTail(first, tail, r.start - start - head.len, r.len);
    } else {
      SliceOfHead(first, tail);
    }
  }

  lemma WholeHead(server: (nat, nat, nat) -> Reply, chunks: seq<Request>, start: nat, end: nat)
    requires Contiguous(chunks, start, end) && chunks != []
    ensures chunks[0].start == start && Contiguous(chunks[1..], start + chunks[0].len, end)
    ensures Whole(server, chunks) == Settle(server, 0, chunks[0].start, chunks[0].len) + Whole(server, chunks[1..])
  {
    hide Settle;
  }

  lemma SliceOfHead<T>(first: seq<T>, tail: seq<T>)
    ensures (first + tail)[0..|first|] == first
  {
  }

  lemma SliceOfTail<T>(first: seq<T>, tail: seq<T>, i: nat, n: nat)
    requires i + n <= |tail|
    ensures (first + tail)[|first| + i..|first| + i + n] == tail[i..i + n]
  {
  }

  lemma {:induction false} WholeLength(server: (nat, nat, nat) -> Reply, chunks: seq<Request>, start: nat, end: nat)
    requires Contiguous(chunks, start, end)
    ensures start <= end && |Whole(server, chunks)| == end - start
    decreases |chunks|
  {
    if chunks != [] {
      WholeLength(server, chunks[1..], start + chunks[0].len, end);
    }
  }

  /** The answers a request gives when it is not cut. */
  function Given(reply: Reply, r: Request): (a: seq<Answer>)
    ensures |a| == r.len
  {
    match reply
    case Fine => seq(r.len, i => Item(r.start + i))
    case Failed(code) => seq(r.len, i => Error(code))
    case TooLong => seq(r.len, i => Refused)
  }

  method Fill(r: Request, reply: Reply, answers: array<Answer>)
    requires r.start + r.len <= answers.Length
    modifies answers
    ensures forall i | 0 <= i < answers.Length ::
              answers[i] == if Covers(r, i) then Given(reply, r)[i - r.start] else old(answers[i])
  {
    for k := 0 to r.len
      invariant forall i | 0 <= i < answers.Length ::
                  answers[i] == if r.start <= i < r.start + k then Given(reply, r)[i - r.start] else old(answers[i])
    {
      var i := r.start + k;
      answers[i] := match reply
        case Fine => Item(i)
        case Failed(code) => Error(code)
        case TooLong => Refused;
    }
  }

  /** `hits` with one more for each id of the request. */
  ghost function Hit(hits: seq<nat>, r: Request): seq<nat> {
    seq(|hits|, i requires 0 <= i < |hits| => if Covers(r, i) then hits[i] + 1 else hits[i])
  }

  /**
   * One request of a round: it is settled, or comes back as its two halves for the next round.
   * `before` is the next round so far and `rest` what this round has left.
   */
  method Handle(server: (nat, nat, nat) -> Reply, round: nat, r: Request, before: seq<Request>,
      ghost rest: seq<Request>,
                ghost whole: seq<Answer>, ghost hits: seq<nat>, answers: array<Answer>)
    returns (next: seq<Request>, ghost hits': seq<nat>)
    requires InOrder(before + [r] + rest, |whole|) && Accounted(before + [r] + rest, whole, answers[..], hits)
    requires Promised(server, round + 1, before, whole) && Promised(server, round, [r], whole)
    modifies answers
    ensures InOrder(next + rest, |whole|) && Accounted(next + rest, whole, answers[..], hits')
    ensures Promised(server, round + 1, next, whole) && Budget(next) + 1 <= Budget(before) + Cost(r)
  {
    assert (before + [r] + rest)[|before|] == r && r in [r];
    hide InOrder, Accounted, Budget;
    var reply := server(round, r.start, r.len);
    if reply.TooLong? && r.len > 1 {
      var half := (r.len + 1) / 2;
      var a, b := Request(r.start, half), Request(r.start + half, r.len - half);
      next := before + [a, b];
      hits' := hits;
      Halved(r, before, rest, half, whole, answers[..], hits);
      HalvesPromised(server, round, r, half, whole);
      BothPromised(server, round + 1, before, [a, b], whole);
      HalvesBudget(before, r, half);
    } else {
      ghost var was := answers[..];
      Fill(r, reply, answers);
      next := before;
      hits' := Hit(hits, r);
      AccountedLengths(before + [r] + rest, whole, was, hits);
      assert Given(reply, r) == whole[r.start..r.start + r.len];
      SettledOne(server, round, r, before, rest, whole, was, hits, answers[..], hits');
    }
  }

  lemma BothPromised(server: (nat, nat, nat) -> Reply, round: nat, a: seq<Request>, b: seq<Request>, whole: seq<Answer>)
    requires Promised(server, round, a, whole) && Promised(server, round, b, whole)
    ensures Promised(server, round, a + b, whole)
  {
    hide Settle;
  }

  /** Two halves cost less than the request did. */
  lemma HalvesBudget(before: seq<Request>, r: Request, half: nat)
    requires 0 < half < r.len
    ensures Budget(before + [Request(r.start, half), Request(r.start + half, r.len - half)]) + 1
         <= Budget(before) + Cost(r)
  {
    var a, b := Request(r.start, half), Request(r.start + half, r.len - half);
    BudgetConcat(before, [a, b]);
    assert [a, b][1..] == [b] && [b][1..] == [];
    assert Budget([a, b]) == Cost(a) + (Cost(b) + Budget([]));
  }

  lemma AccountedLengths(work: seq<Request>, whole: seq<Answer>, answers: seq<Answer>, hits: seq<nat>)
    requires Accounted(work, whole, answers, hits)
    ensures |answers| == |hits| == |whole|
  {
  }

  lemma HalvesPromised(server: (nat, nat, nat) -> Reply, round: nat, r: Request, half: nat, whole: seq<Answer>)
    requires server(round, r.start, r.len) == TooLong && r.len > 1 && half == (r.len + 1) / 2
             && Promised(server, round, [r], whole)
    ensures Promised(server, round + 1, [Request(r.start, half), Request(r.start + half, r.len - half)], whole)
  {
    assert r in [r];
    var x, y := Settle(server, round + 1, r.start, half), Settle(server, round + 1, r.start + half, r.len - half);
    assert whole[r.start..r.start + r.len] == x + y;
    hide Settle;
    CutSlice(whole, r.start, r.len, x, y);
  }

  lemma CutSlice<T>(whole: seq<T>, start: nat, len: nat, x: seq<T>, y: seq<T>)
    requires start + len <= |whole| && whole[start..start + len] == x + y
    ensures x == whole[start..start + |x|] && y == whole[start + |x|..start + len]
  {
    var part := whole[start..start + len];
    assert x == part[..|x|] && y == part[|x|..];
  }

  /**
   * The reading loop: all pending requests of a round go out together, and a chunk the server
   * refuses for its length is two requests, its halves, in the next one. It ends for every pattern of
   * answers, with each id settled by exactly one request and within the budget of requests.
   */
  method ReadAll(server: (nat, nat, nat) -> Reply, chunks: seq<Request>, answers: array<Answer>)
    returns (requests: nat, ghost hits: seq<nat>)
    requires Contiguous(chunks, 0, answers.Length)
    modifies answers
    ensures answers[..] == Whole(server, chunks) && |hits| == answers.Length
    ensures forall i | 0 <= i < |hits| :: hits[i] == 1
    ensures requests <= Budget(chunks)
  {
    hide *;
    ghost var whole := Whole(server, chunks);
    hits := ReadingStarts(server, chunks, answers[..]);
    var pending, round := chunks, 0;
    requests := 0;
    while pending != []
      invariant InOrder(pending, |whole|) && Accounted(pending, whole, answers[..], hits)
      invariant Promised(server, round, pending, whole)
      invariant requests + Budget(pending) <= Budget(chunks)
      decreases Budget(pending)
    {
      ghost var total := Budget(pending);
      var next: seq<Request> := [];
      RoundStarts(server, round, pending, whole);
      for c := 0 to |pending|
        invariant InOrder(next + pending[c..], |whole|) && Accounted(next + pending[c..], whole, answers[..], hits)
        invariant Promised(server, round + 1, next, whole)
        invariant requests + Budget(next) + Budget(pending[c..]) <= Budget(chunks)
        invariant Budget(next) + Budget(pending[c..]) + c <= total
      {
        ghost var rest := pending[c + 1..];
        NextRequest(server, round, pending, c, next, whole);
        next, hits := Handle(server, round, pending[c], next, rest, whole, hits, answers);
        requests := requests + 1;
      }
      assert next + pending[|pending|..] == next;
      BudgetEmpty(pending);
      pending, round := next, round + 1;
    }
    ReadingEnds(whole, answers[..], hits);
  }

  lemma ReadingStarts(server: (nat, nat, nat) -> Reply, chunks: seq<Request>,
      answers: seq<Answer>) returns (hits: seq<nat>)
    requires Contiguous(chunks, 0, |answers|)
    ensures var whole := Whole(server, chunks);
            InOrder(chunks, |whole|) && Accounted(chunks, whole, answers, hits) && Promised(server, 0, chunks, whole)
  {
    hits := seq(|answers|, _ => 0);
    ContiguousInOrder(chunks, 0, |answers|);
    forall i: nat | i < |answers|
      ensures Pending(chunks, i)
    {
      ContiguousPending(chunks, 0, |answers|, i);
    }
    WholeLength(server, chunks, 0, |answers|);
    forall r | r in chunks
      ensures r.start + r.len <= |answers|
              && Settle(server, 0, r.start, r.len) == Whole(server, chunks)[r.start..r.start + r.len]
    {
      WholePromises(server, chunks, 0, |answers|, r);
    }
  }

  lemma RoundStarts(server: (nat, nat, nat) -> Reply, round: nat, pending: seq<Request>, whole: seq<Answer>)
    ensures [] + pending[0..] == pending && Budget([]) == 0 && Promised(server, round + 1, [], whole)
  {
  }

  lemma NextRequest(server: (nat, nat, nat) -> Reply, round: nat, pending: seq<Request>, c: nat, next: seq<Request>,
      whole: seq<Answer>)
    requires c < |pending| && Promised(server, round, pending, whole)
    ensures next + pending[c..] == next + [pending[c]] + pending[c + 1..]
    ensures Budget(pending[c..]) == Cost(pending[c]) + Budget(pending[c + 1..])
            && Promised(server, round, [pending[c]], whole)
  {
    assert pending[c..][1..] == pending[c + 1..];
    assert pending[c] in pending;
  }

  lemma BudgetEmpty(pending: seq<Request>)
    ensures Budget(pending[|pending|..]) == 0
  {
  }

  lemma ReadingEnds(whole: seq<Answer>, answers: seq<Answer>, hits: seq<nat>)
    requires Accounted([], whole, answers, hits)
    ensures answers == whole && |hits| == |answers| && forall i | 0 <= i < |hits| :: hits[i] == 1
  {
    assert forall i: nat :: !Pending([], i);
  }

  /** At most two requests for every id, less one for every chunk. */
  lemma {:induction false} BudgetIs(chunks: seq<Request>, start: nat, end: nat)
    requires Contiguous(chunks, start, end)
    ensures Budget(chunks) == 2 * (end - start) - |chunks|
    decreases |chunks|
  {
    if chunks != [] {
      BudgetIs(chunks[1..], start + chunks[0].len, end);
    }
  }

  // ---- both together ----

  /** The requests a split stands for. */
  function RequestsOf(starts: seq<nat>, n: nat): (r: seq<Request>)
    requires forall c {:trigger EndOf(starts, c, n)} | 0 <= c < |starts| :: starts[c] <= EndOf(starts, c, n)
  {
    seq(|starts|, c requires 0 <= c < |starts| => Request(starts[c], EndOf(starts, c, n) - starts[c]))
  }

  lemma {:induction false} RequestsContiguous(ids: seq<string>, limits: Limits, starts: seq<nat>, n: nat, c: nat)
    requires Splits(ids, limits, starts, n) && c <= |starts| && starts != []
    ensures Contiguous(RequestsOf(starts, n)[c..], if c < |starts| then starts[c] else n, n)
    decreases |starts| - c
  {
    var all := RequestsOf(starts, n);
    if c < |starts| {
      RequestsContiguous(ids, limits, starts, n, c + 1);
      assert all[c..][1..] == all[c + 1..];
      assert Fits(ids, limits, starts[c], EndOf(starts, c, n));
    }
  }

  /**
   * Read every id: the requests go out in the fewest acceptable chunks, each id is settled by exactly
   * one of them, and halving adds at most one request for every id beyond the first of a chunk.
   */
  method ReadPoints(ids: seq<string>, chunk: nat, urlBytes: nat, fixed: nat, server: (nat, nat, nat) -> Reply)
    returns (answers: array<Answer>, requests: nat, ghost starts: seq<nat>, ghost hits: seq<nat>)
    ensures fresh(answers) && answers.Length == |ids|
    ensures var limits := Limits(if chunk < 1 then 1 else chunk, urlBytes, fixed);
            Splits(ids, limits, starts, |ids|) && Greedy(ids, limits, starts, |ids|)
    ensures (forall c {:trigger EndOf(starts, c, |ids|)} | 0 <= c < |starts| :: starts[c] <= EndOf(starts, c, |ids|))
            && answers[..] == Whole(server, RequestsOf(starts, |ids|))
    ensures |hits| == |ids| && forall i | 0 <= i < |hits| :: hits[i] == 1
    ensures requests <= 2 * |ids| - |starts|
  {
    var filled := new nat[|ids|];
    answers := new Answer[|ids|](_ => Refused);
    var count := Chunks(ids, chunk, urlBytes, fixed, filled);
    var found := filled[..count];
    starts := found;
    ghost var limits := Limits(if chunk < 1 then 1 else chunk, urlBytes, fixed);
    ChunksAdvance(ids, limits, found, |ids|);
    hide *;
    var pending := RequestsOf(found, |ids|);
    SplitRequests(ids, limits, found, |ids|);
    BudgetIs(pending, 0, |ids|);
    requests, hits := ReadAll(server, pending, answers);
  }

  lemma ChunksAdvance(ids: seq<string>, limits: Limits, starts: seq<nat>, n: nat)
    requires Splits(ids, limits, starts, n)
    ensures forall c {:trigger EndOf(starts, c, n)} | 0 <= c < |starts| :: starts[c] <= EndOf(starts, c, n)
  {
  }

  lemma SplitRequests(ids: seq<string>, limits: Limits, starts: seq<nat>, n: nat)
    requires Splits(ids, limits, starts, n)
    requires forall c {:trigger EndOf(starts, c, n)} | 0 <= c < |starts| :: starts[c] <= EndOf(starts, c, n)
    ensures Contiguous(RequestsOf(starts, n), 0, n) && |RequestsOf(starts, n)| == |starts|
  {
    if starts != [] {
      RequestsContiguous(ids, limits, starts, n, 0);
      assert RequestsOf(starts, n)[0..] == RequestsOf(starts, n);
    }
  }
}
