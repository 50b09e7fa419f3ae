/**
 * Push delivery end to end: a worker queues what its cursors admit, the runtime drains the queue
 * into the sink and notes what the sink got, and a restart begins from what was noted and saved.
 */
module PiPush {
  import opened Common
  import opened PiCursor
  import opened PiPaging

  type Target = nat
  type Cursors = map<Target, Cursor>

  function CursorOf(cursors: Cursors, t: Target): Cursor {
    if t in cursors then cursors[t] else Unset
  }

  // ---- a channel message, whose events can be in any order ----

  /** `e` put after every event that is not later. */
  function Insert(events: seq<Event>, e: Event): seq<Event>
    decreases |events|
  {
    if events == [] then [e]
    else
      var last := events[|events| - 1];
      if last.at <= e.at then events + [e] else Insert(events[..|events| - 1], e) + [last]
  }

  /** The events in time order; events of one instant keep their order. */
  function Stamped(items: seq<Event>): seq<Event>
    decreases |items|
  {
    if items == [] then [] else Insert(Stamped(items[..|items| - 1]), items[|items| - 1])
  }

  lemma {:induction false} InsertIs(events: seq<Event>, e: Event)
    requires Sorted(events)
    ensures Sorted(Insert(events, e)) && multiset(Insert(events, e)) == multiset(events) + multiset{e}
    decreases |events|
  {
    if events != [] && events[|events| - 1].at > e.at {
      var front, last := events[..|events| - 1], events[|events| - 1];
      assert events == front + [last];
      InsertIs(front, e);
      hide Insert;
      LastIsLatest(front, Insert(front, e), e, last);
      assert Insert(events, e) == Insert(front, e) + [last] by { InsertBefore(events, e); }
    }
  }

  lemma InsertBefore(events: seq<Event>, e: Event)
    requires events != [] && events[|events| - 1].at > e.at
    ensures Insert(events, e) == Insert(events[..|events| - 1], e) + [events[|events| - 1]]
  {
  }

  lemma LastIsLatest(front: seq<Event>, inserted: seq<Event>, e: Event, last: Event)
    requires Sorted(front + [last]) && Sorted(inserted) && e.at < last.at
    requires multiset(inserted) == multiset(front) + multiset{e}
    ensures Sorted(inserted + [last])
  {
    assert forall x | x in front :: x.at <= last.at by {
      var whole := front + [last];
      assert forall i | 0 <= i < |front| :: whole[i] == front[i] && whole[|front|] == last;
    }
    forall i | 0 <= i < |inserted|
      ensures inserted[i].at <= last.at
    {
      assert inserted[i] in multiset(inserted);
    }
  }

  lemma {:induction false} StampedIs(items: seq<Event>)
    ensures Sorted(Stamped(items)) && multiset(Stamped(items)) == multiset(items)
    decreases |items|
  {
    if items != [] {
      var front, last := items[..|items| - 1], items[|items| - 1];
      assert items == front + [last];
      StampedIs(front);
      InsertIs(Stamped(front), last);
    }
  }

  function AtInstant(events: seq<Event>, at: int): seq<Event>
    decreases |events|
  {
    if events == [] then []
    else AtInstant(events[..|events| - 1], at) + (if events[|events| - 1].at == at then [events[|events| - 1]] else [])
  }

  lemma {:induction false} InsertStable(events: seq<Event>, e: Event, at: int)
    ensures AtInstant(Insert(events, e), at) == AtInstant(events, at) + (if e.at == at then [e] else [])
    decreases |events|
  {
    if events == [] {
      AtSnoc([], e, at);
    } else {
      var front, last := events[..|events| - 1], events[|events| - 1];
      if last.at <= e.at {
        AtSnoc(events, e, at);
      } else {
        InsertStable(front, e, at);
        AtSnoc(Insert(front, e), last, at);
      }
    }
  }

  lemma AtSnoc(events: seq<Event>, e: Event, at: int)
    ensures AtInstant(events + [e], at) == AtInstant(events, at) + (if e.at == at then [e] else [])
  {
    assert (events + [e])[..|events|] == events;
  }

  lemma {:induction false} StampedIsStable(items: seq<Event>, at: int)
    ensures AtInstant(Stamped(items), at) == AtInstant(items, at)
    decreases |items|
  {
    if items != [] {
      var front := items[..|items| - 1];
      StampedIsStable(front, at);
      InsertStable(Stamped(front), items[|items| - 1], at);
    }
  }

  /**
   * In whatever order a message carries its events, every one the cursor admits is delivered, and
   * they are delivered in time order and once each.
   */
  lemma MessageDelivered(c: Cursor, items: seq<Event>, e: Event)
    ensures e in DeliverAll(c, Stamped(items)).out <==> e in items && Admits(c, e)
    ensures OnceInOrder(DeliverAll(c, Stamped(items)).out)
  {
    var s := Stamped(items);
    StampedIs(items);
    hide Stamped;
    assert e in items <==> e in multiset(items);
    assert e in s <==> e in multiset(s);
    DeliveredAreAdmitted(c, s, e);
    DeliveredOnceInOrder(c, s);
  }

  // ---- the protocol ----

  datatype Push = Push(
    running: bool,
    sent: Cursors,                 // what the worker has queued
    ring: seq<(Target, Event)>,    // queued, not taken
    taken: seq<(Target, Event)>,   // taken off the ring by a drain, not given to the sink
    sink: seq<(Target, Event)>,    // everything the runtime has received
    store: Cursors,                // advanced after the sink has received
    noted: nat,                    // how much of the sink the store accounts for
    file: Cursors,                 // the persisted copy
    flushed: nat)                  // how much of the sink the file accounts for

  /**
   * A drain takes the ring, then gives one event after the other to the sink and notes it in the
   * store. The worker queues and flushes, and a crash can fall, between any two of these.
   */
  datatype Action = Start | Queue(target: Target, event: Event) | Take | Sink | Note | Flush | Stop | Crash

  /** No drain is under way. */
  predicate Idle(s: Push) {
    s.taken == [] && s.noted == |s.sink|
  }

  predicate Enabled(s: Push, a: Action) {
    match a
    case Start => !s.running
    case Take => s.running && Idle(s)
    case Sink => s.running && s.taken != [] && s.noted == |s.sink|
    case Note => s.running && s.noted < |s.sink|
    case Stop => s.running && Idle(s)
    case _ => s.running
  }

  function Step(s: Push, a: Action): Push
    requires Enabled(s, a)
  {
    match a
    case Start => s.(running := true, sent := s.file, store := s.file, ring := [], taken := [], noted := |s.sink|)
    case Queue(t, e) =>
      var c := CursorOf(s.sent, t);
      if Admits(c, e) then s.(sent := s.sent[t := Advance(c, e)], ring := s.ring + [(t, e)]) else s
    case Take => s.(taken := s.ring, ring := [])
    case Sink => s.(sink := s.sink + [s.taken[0]], taken := s.taken[1..])
    case Note =>
      var (t, e) := s.sink[s.noted];
      s.(store := s.store[t := Advance(CursorOf(s.store, t), e)], noted := s.noted + 1)
    case Flush => s.(file := s.store, flushed := s.noted)
    case Stop => s.(running := false, ring := [], file := s.store, flushed := s.noted)
    case Crash => s.(running := false, ring := [], taken := [])
  }

  /** Everything that reached the sink or is on its way there, in order. */
  function All(s: Push): seq<(Target, Event)> {
    s.sink + s.taken + s.ring
  }

  /** The events of one target. */
  function Of(events: seq<(Target, Event)>, t: Target): seq<Event>
    decreases |events|
  {
    if events == [] then []
    else Of(events[..|events| - 1], t) + (if events[|events| - 1].0 == t then [events[|events| - 1].1] else [])
  }

  /** Each event passes the cursor the ones before it left. */
  predicate Chain(c: Cursor, events: seq<Event>)
    decreases |events|
  {
    events == [] ||
    (Chain(c, events[..|events| - 1]) && Admits(AdvanceAll(c, events[..|events| - 1]), events[|events| - 1]))
  }

  /**
   * For the cursors `first` persisted before the run: what the sink received and what is on its way
   * form one chain per target, and each cursor is the fold of the part it accounts for.
   */
  ghost predicate Consistent(first: Cursors, s: Push, t: Target) {
    var c := CursorOf(first, t);
    && s.flushed <= s.noted <= |s.sink|
    && Chain(c, Of(All(s), t))
    && CursorOf(s.file, t) == AdvanceAll(c, Of(s.sink[..s.flushed], t))
    && (s.running ==>
          && CursorOf(s.store, t) == AdvanceAll(c, Of(s.sink[..s.noted], t))
          && CursorOf(s.sent, t) == AdvanceAll(c, Of(All(s), t)))
    && (!s.running ==> s.ring == [] && s.taken == [])
  }

  /** A clean run: the file accounts for the whole sink whenever the worker is down. */
  ghost predicate Clean(s: Push) {
    !s.running ==> s.flushed == s.noted == |s.sink|
  }

  // ---- chains ----

  lemma ChainSnoc(c: Cursor, events: seq<Event>, e: Event)
    requires Chain(c, events) && Admits(AdvanceAll(c, events), e)
    ensures Chain(c, events + [e])
  {
    assert (events + [e])[..|events|] == events;
  }

  lemma {:induction false} ChainPrefix(c: Cursor, a: seq<Event>, b: seq<Event>)
    requires Chain(c, a + b)
    ensures Chain(c, a)
    decreases |b|
  {
    if b == [] {
      assert a + b == a;
    } else {
      assert (a + b)[..|a + b| - 1] == a + b[..|b| - 1];
      ChainPrefix(c, a, b[..|b| - 1]);
    }
  }

  /** A chain is what its cursor delivers of it: all of it. */
  lemma {:induction false} ChainDelivers(c: Cursor, events: seq<Event>)
    requires Chain(c, events)
    ensures DeliverAll(c, events) == Delivery(AdvanceAll(c, events), events)
    decreases |events|
  {
    if events != [] {
      var front, last := events[..|events| - 1], events[|events| - 1];
      ChainDelivers(c, front);
      AdvanceAllSnoc(c, front, last);
      assert events == front + [last];
      assert DeliverAll(c, events) == Deliver(DeliverAll(c, front), last);
      assert Admits(AdvanceAll(c, front), last);
      hide AdvanceAll, DeliverAll, Chain, Advance, Admits;
    }
  }

  /** The rest of a chain is admitted by the cursor its beginning left. */
  lemma ChainAdmits(c: Cursor, a: seq<Event>, b: seq<Event>, e: Event)
    requires Chain(c, a + b) && e in b
    ensures Admits(AdvanceAll(c, a), e)
  {
    ChainPrefix(c, a, b);
    ChainDelivers(c, a);
    ChainDelivers(c, a + b);
    DeliverSplit(c, a, b);
    var middle := AdvanceAll(c, a);
    assert a + DeliverAll(middle, b).out == a + b;
    assert DeliverAll(middle, b).out == (a + DeliverAll(middle, b).out)[|a|..] == (a + b)[|a|..] == b;
    DeliveredAreAdmitted(middle, b, e);
  }

  lemma {:induction false} OfConcat(a: seq<(Target, Event)>, b: seq<(Target, Event)>, t: Target)
    ensures Of(a + b, t) == Of(a, t) + Of(b, t)
    decreases |b|
  {
    if b == [] {
      assert a + b == a;
    } else {
      assert (a + b)[..|a + b| - 1] == a + b[..|b| - 1];
      OfConcat(a, b[..|b| - 1], t);
    }
  }

  // ---- every step ----

  lemma OfSnoc(events: seq<(Target, Event)>, x: (Target, Event), t: Target)
    ensures Of(events + [x], t) == Of(events, t) + (if x.0 == t then [x.1] else [])
  {
    assert (events + [x])[..|events|] == events;
  }

  lemma QueueConsistent(first: Cursors, s: Push, u: Target, e: Event, t: Target)
    requires Consistent(first, s, t) && s.running
    ensures Consistent(first, Step(s, Queue(u, e)), t)
  {
    if Admits(CursorOf(s.sent, u), e) {
      hide Of, Chain, AdvanceAll, Admits, Advance;
      var after, c, all := Step(s, Queue(u, e)), CursorOf(first, t), Of(All(s), t);
      assert All(after) == All(s) + [(u, e)];
      OfSnoc(All(s), (u, e), t);
      assert all + [] == all;
      if u == t {
        ChainSnoc(c, all, e);
        AdvanceAllSnoc(c, all, e);
      }
    }
  }

  lemma NoteConsistent(first: Cursors, s: Push, t: Target)
    requires Consistent(first, s, t) && Enabled(s, Note)
    ensures Consistent(first, Step(s, Note), t)
  {
    hide Of, Chain, AdvanceAll, Advance;
    var x := s.sink[s.noted];
    var noted := s.sink[..s.noted];
    assert s.sink[..s.noted + 1] == noted + [x];
    OfSnoc(noted, x, t);
    AdvanceAllSnoc(CursorOf(first, t), Of(noted, t), x.1);
    assert Of(noted, t) + [] == Of(noted, t);
  }

  /** Taking the ring and giving an event to the sink only moves events along. */
  lemma MoveConsistent(first: Cursors, s: Push, a: Action, t: Target)
    requires Consistent(first, s, t) && Enabled(s, a) && (a == Take || a == Sink)
    ensures Consistent(first, Step(s, a), t)
  {
    hide Of, Chain, AdvanceAll;
    var after := Step(s, a);
    assert All(after) == All(s);
    assert after.sink[..s.noted] == s.sink[..s.noted] && after.sink[..s.flushed] == s.sink[..s.flushed];
  }

  lemma StopConsistent(first: Cursors, s: Push, t: Target)
    requires Consistent(first, s, t) && Enabled(s, Stop)
    ensures Consistent(first, Step(s, Stop), t) && Clean(Step(s, Stop))
  {
    hide Of, Chain, AdvanceAll;
    SinkChain(first, s, t);
    assert All(Step(s, Stop)) == s.sink;
  }

  lemma SinkChain(first: Cursors, s: Push, t: Target)
    requires Consistent(first, s, t)
    ensures Chain(CursorOf(first, t), Of(s.sink, t))
  {
    hide Of, Chain, AdvanceAll;
    assert All(s) == s.sink + (s.taken + s.ring);
    OfConcat(s.sink, s.taken + s.ring, t);
    ChainPrefix(CursorOf(first, t), Of(s.sink, t), Of(s.taken + s.ring, t));
  }

  lemma StartConsistent(first: Cursors, s: Push, t: Target)
    requires Consistent(first, s, t) && Clean(s) && !s.running
    ensures Consistent(first, Step(s, Start), t)
  {
    hide Of, Chain, AdvanceAll;
    assert s.sink[..|s.sink|] == s.sink && All(s) == s.sink && All(Step(s, Start)) == s.sink;
  }

  lemma StepConsistent(first: Cursors, s: Push, a: Action, t: Target)
    requires Consistent(first, s, t) && Clean(s) && Enabled(s, a) && a != Crash
    ensures Consistent(first, Step(s, a), t) && Clean(Step(s, a))
  {
    hide Of, Chain, AdvanceAll;
    match a
    case Start => StartConsistent(first, s, t);
    case Queue(u, e) => QueueConsistent(first, s, u, e, t);
    case Note => NoteConsistent(first, s, t);
    case Stop => StopConsistent(first, s, t);
    case Flush => assert All(Step(s, Flush)) == All(s);
    case _ => MoveConsistent(first, s, a, t);
  }

  function RunPush(s: Push, actions: seq<Action>): Option<Push>
    decreases |actions|
  {
    if actions == [] then Some(s)
    else if !Enabled(s, actions[0]) then None
    else RunPush(Step(s, actions[0]), actions[1..])
  }

  lemma {:induction false} RunConsistent(first: Cursors, s: Push, actions: seq<Action>, t: Target)
    requires Consistent(first, s, t) && Clean(s) && Crash !in actions && RunPush(s, actions).Some?
    ensures Consistent(first, RunPush(s, actions).value, t) && Clean(RunPush(s, actions).value)
    decreases |actions|
  {
    if actions != [] {
      hide Consistent, Clean, Step;
      StepConsistent(first, s, actions[0], t);
      RunConsistent(first, Step(s, actions[0]), actions[1..], t);
    }
  }

  function Initial(file: Cursors): Push {
    Push(false, map[], [], [], [], map[], 0, file, 0)
  }

  /**
   * Over any sequence of starts, queueing, drains, flushes and clean stops, the sink sees for every
   * point a time-ordered sequence without a repeated event, and nothing older than the file's cursor.
   */
  lemma SinkSeesEachOnce(file: Cursors, actions: seq<Action>, t: Target)
    requires Crash !in actions && RunPush(Initial(file), actions).Some?
    ensures var seen := Of(RunPush(Initial(file), actions).value.sink, t);
            OnceInOrder(seen) && forall e | e in seen :: Admits(CursorOf(file, t), e)
  {
    hide RunPush, Of, Chain, AdvanceAll;
    InitialConsistent(file, t);
    RunConsistent(file, Initial(file), actions, t);
    var s := RunPush(Initial(file), actions).value;
    var c, seen := CursorOf(file, t), Of(s.sink, t);
    SinkChain(file, s, t);
    ChainDelivers(c, seen);
    DeliveredOnceInOrder(c, seen);
    forall e | e in seen
      ensures Admits(c, e)
    {
      DeliveredAreAdmitted(c, seen, e);
    }
  }

  lemma InitialConsistent(file: Cursors, t: Target)
    ensures Consistent(file, Initial(file), t) && Clean(Initial(file))
  {
    assert Initial(file).sink[..0] == [] && All(Initial(file)) == [];
  }

  /** The persisted cursor is the fold of what the sink received, whenever the worker is down. */
  lemma FileIsTheFold(file: Cursors, actions: seq<Action>, t: Target)
    requires Crash !in actions && RunPush(Initial(file), actions).Some?
             && !RunPush(Initial(file), actions).value.running
    ensures var s := RunPush(Initial(file), actions).value;
            CursorOf(s.file, t) == AdvanceAll(CursorOf(file, t), Of(s.sink, t))
  {
    hide RunPush, Of, Chain, AdvanceAll;
    InitialConsistent(file, t);
    RunConsistent(file, Initial(file), actions, t);
    var s := RunPush(Initial(file), actions).value;
    assert s.sink[..|s.sink|] == s.sink;
  }

  /** What a worker that goes down has not accounted for in the file. */
  function Unaccounted(s: Push, down: Action): seq<(Target, Event)> {
    var kept := if down == Stop then s.noted else s.flushed;
    All(s)[if kept <= |All(s)| then kept else 0..]
  }

  /** The cursor a restart begins with. */
  function Resumed(s: Push, down: Action, t: Target): Cursor
    requires Enabled(s, down) && (down == Stop || down == Crash)
  {
    CursorOf(Step(Step(s, down), Start).sent, t)
  }

  /**
   * Whatever was queued and not drained when the worker goes down, cleanly or in the middle of a
   * drain, and whatever the sink received after the last flush, is admitted again by the cursors a
   * restart begins with.
   */
  lemma NothingIsLost(file: Cursors, actions: seq<Action>, t: Target, down: Action, e: Event)
    requires Crash !in actions && RunPush(Initial(file), actions).Some? && (down == Stop || down == Crash)
    requires Enabled(RunPush(Initial(file), actions).value, down)
    requires e in Of(Unaccounted(RunPush(Initial(file), actions).value, down), t)
    ensures Admits(Resumed(RunPush(Initial(file), actions).value, down, t), e)
  {
    hide RunPush, Of, Chain, AdvanceAll;
    InitialConsistent(file, t);
    RunConsistent(file, Initial(file), actions, t);
    var s := RunPush(Initial(file), actions).value;
    var kept := if down == Stop then s.noted else s.flushed;
    var rest := Unaccounted(s, down);
    assert All(s) == s.sink[..kept] + rest;
    OfConcat(s.sink[..kept], rest, t);
    ChainAdmits(CursorOf(file, t), Of(s.sink[..kept], t), Of(rest, t), e);
  }

  // ---- catching up after a restart ----

  /**
   * A restart end to end. An archived event that was on its way when the worker went down, cleanly or not,
   * is replayed if and only if catching up reaches it: there is backfill, its target has a cursor by then,
   * it is not before the start of the replay, no full instant is in between, and the limit on events is
   * not used up before it.
   */
  lemma RestartReplays(file: Cursors, actions: seq<Action>, t: Target, down: Action, archive: seq<Event>,
      b: Backfill, e: Event)
    requires Crash !in actions && RunPush(Initial(file), actions).Some? && (down == Stop || down == Crash)
    requires Enabled(RunPush(Initial(file), actions).value, down)
    requires e in Of(Unaccounted(RunPush(Initial(file), actions).value, down), t) && Sorted(archive) && e in archive
    ensures var c := Resumed(RunPush(Initial(file), actions).value, down, t);
            e in Replayed(c, archive, b) <==> ReplayReaches(c, archive, b, e)
  {
    hide RunPush, Of, Step, Replayed, ReplayReaches, Sorted, Admits;
    NothingIsLost(file, actions, t, down, e);
    ReplayedExactly(Resumed(RunPush(Initial(file), actions).value, down, t), archive, b, e);
  }

  /** After a clean stop the sink, with the replay added, still has every event once and in order. */
  lemma ReplayContinues(file: Cursors, actions: seq<Action>, t: Target, archive: seq<Event>, b: Backfill)
    requires Crash !in actions && RunPush(Initial(file), actions).Some?
             && Enabled(RunPush(Initial(file), actions).value, Stop)
    ensures var s := RunPush(Initial(file), actions).value;
            && OnceInOrder(Of(s.sink, t) + Replayed(Resumed(s, Stop, t), archive, b))
            && (Resumed(s, Stop, t).Unset? <==> CursorOf(file, t).Unset? && Of(s.sink, t) == [])
  {
    hide RunPush, Of, Chain, AdvanceAll, OnceInOrder, DeliverAll, Replayed;
    InitialConsistent(file, t);
    RunConsistent(file, Initial(file), actions, t);
    var s := RunPush(Initial(file), actions).value;
    var first, c, seen := CursorOf(file, t), Resumed(s, Stop, t), Of(s.sink, t);
    assert s.sink[..|s.sink|] == s.sink;
    assert c == AdvanceAll(first, seen);
    UnsetIs(first, seen);
    SinkChain(file, s, t);
    ChainDelivers(first, seen);
    var part := ReplayedPart(c, archive, b);
    DeliverSplit(first, seen, part);
    DeliveredOnceInOrder(first, seen + part);
    OncePrefix(seen, DeliverAll(c, part).out, Replayed(c, archive, b));
  }

  /** A replay delivers a part of the archive, or the beginning of it. */
  lemma ReplayedPart(c: Cursor, archive: seq<Event>, b: Backfill) returns (part: seq<Event>)
    ensures Replayed(c, archive, b) <= DeliverAll(c, part).out
  {
    part := [];
    DeliveredNothing(c);
    if c.At? && b.Backfill? {
      var s := Since(archive, ReplayFrom(c, b.floor));
      hide Since, ReplayFrom, Limit, DeliverAll, Paged;
      part := s[..Limit(s, PI_MAX_COUNT, 0)];
      PagedParts(c, s, b.maxEvents);
    }
  }

  lemma OncePrefix(seen: seq<Event>, out: seq<Event>, part: seq<Event>)
    requires OnceInOrder(seen + out) && part <= out
    ensures OnceInOrder(seen + part)
  {
    assert seen + part <= seen + out;
  }

  lemma DeliveredNothing(c: Cursor)
    ensures DeliverAll(c, []).out == []
  {
  }

  lemma {:induction false} UnsetIs(c: Cursor, events: seq<Event>)
    ensures AdvanceAll(c, events).Unset? <==> c.Unset? && events == []
    decreases |events|
  {
    if events != [] {
      UnsetIs(Advance(c, events[0]), events[1..]);
    }
  }

  /** The case that is lost: queued for a target without a cursor and never drained, an event is not replayed. */
  lemma FirstEventIsNotReplayed(t: Target, e: Event, archive: seq<Event>, b: Backfill)
    ensures var run := RunPush(Initial(map[]), [Start, Queue(t, e)]);
            && run.Some? && Enabled(run.value, Stop) && e in Of(Unaccounted(run.value, Stop), t)
            && e !in Replayed(Resumed(run.value, Stop, t), archive, b)
  {
    hide *;
    OneQueued(t, e);
    OneOnItsWay(t, e);
    OneIsThere(t, e);
    NoCursorNoReplay(archive, b);
  }

  /** A worker that has queued one event and drained none. */
  function OneInTheRing(t: Target, e: Event): Push {
    Initial(map[]).(running := true, sent := map[t := Advance(Unset, e)], ring := [(t, e)])
  }

  lemma OneOnItsWay(t: Target, e: Event)
    ensures var s := OneInTheRing(t, e);
            Enabled(s, Stop) && Unaccounted(s, Stop) == [(t, e)] && Resumed(s, Stop, t) == Unset
  {
    hide Advance;
    assert All(OneInTheRing(t, e)) == [(t, e)];
  }

  lemma OneIsThere(t: Target, e: Event)
    ensures e in Of([(t, e)], t)
  {
    OfSnoc([], (t, e), t);
    assert [] + [(t, e)] == [(t, e)];
  }

  lemma NoCursorNoReplay(archive: seq<Event>, b: Backfill)
    ensures Replayed(Unset, archive, b) == []
  {
    hide Paged, Since, ReplayFrom;
  }

  lemma OneQueued(t: Target, e: Event)
    ensures RunPush(Initial(map[]), [Start, Queue(t, e)]) == Some(OneInTheRing(t, e))
  {
    hide Advance;
    var s0 := Initial(map[]);
    var s1 := Step(s0, Start);
    RunOne(s0, Start);
    RunMore(s0, [Start], Queue(t, e));
    assert [Start] + [Queue(t, e)] == [Start, Queue(t, e)] && s1.ring + [(t, e)] == [(t, e)];
  }

  // ---- as it runs ----

  /** One device's push delivery: the worker's side queues, the runtime's side drains. */
  class Service {
    const webIds: seq<string>      // target -> the stream it reads
    ghost const first: Cursors
    var running: bool
    var sent: Cursors
    var ring: seq<(Target, Event)>
    var taken: seq<(Target, Event)>
    var sink: seq<(Target, Event)>
    var store: Cursors
    var file: Cursors
    ghost var noted: nat
    ghost var flushed: nat

    ghost function State(): Push
      reads this
    {
      Push(running, sent, ring, taken, sink, store, noted, file, flushed)
    }

    ghost predicate Valid()
      reads this
    {
      Clean(State()) && forall t: Target :: Consistent(first, State(), t)
    }

    constructor (streams: seq<string>, saved: Cursors)
      ensures Valid() && State() == Initial(saved) && first == saved && webIds == streams
    {
      webIds, first := streams, saved;
      running, sent, ring, taken, sink, store, noted, file, flushed := false, map[], [], [], [], map[], 0, saved, 0;
      new;
      forall t: Target
        ensures Consistent(first, State(), t)
      {
        InitialConsistent(saved, t);
      }
    }

    ghost predicate Stepped(s: Push, a: Action)
      reads this
    {
      Enabled(s, a) && State() == Step(s, a)
    }

    lemma KeepsValid(s: Push, a: Action)
      requires a != Crash && Stepped(s, a) && Clean(s) && forall t: Target :: Consistent(first, s, t)
      ensures Valid()
    {
      forall t: Target
        ensures Consistent(first, State(), t) && Clean(State())
      {
        StepConsistent(first, s, a, t);
      }
    }

    method StartWorker()
      requires Valid() && !running
      modifies this
      ensures Valid() && State() == Step(old(State()), Start)
    {
      ghost var before := State();
      store, sent, ring, taken, running := file, file, [], [], true;
      noted := |sink|;
      KeepsValid(before, Start);
    }

    method DeliverEvent(t: Target, e: Event) returns (queued: bool)
      requires Valid() && running
      modifies this
      ensures Valid() && running && State() == Step(old(State()), Queue(t, e))
              && queued == Admits(CursorOf(old(sent), t), e)
    {
      ghost var before := State();
      var c := if t in sent then sent[t] else Unset;
      queued := Admits(c, e);
      if queued {
        ring := ring + [(t, e)];
        sent := sent[t := Advance(c, e)];
      }
      KeepsValid(before, Queue(t, e));
    }

    /** The events of one target, in time order. */
    method DeliverTo(t: Target, events: seq<Event>)
      requires Valid() && running
      modifies this
      ensures Valid() && running
      ensures Queued(old(State()), State(), t, DeliverAll(CursorOf(old(sent), t), events))
      ensures RunPush(old(State()), Queueing(t, events)) == Some(State())
    {
      hide Consistent, Clean, AdvanceAll, RunPush, Queueing, Step;
      ghost var c, before := CursorOf(sent, t), State();
      NothingOffered(c, events);
      NothingQueued(before, t);
      for i := 0 to |events|
        invariant Valid() && running
        invariant Queued(before, State(), t, DeliverAll(c, events[..i]))
        invariant RunPush(before, Queueing(t, events[..i])) == Some(State())
      {
        DeliverNext(c, events, i);
        ghost var mid := State();
        RunMore(before, Queueing(t, events[..i]), Queue(t, events[i]));
        QueueingNext(t, events, i);
        var _ := DeliverEvent(t, events[i]);
        QueuedNext(before, mid, t, DeliverAll(c, events[..i]), events[i]);
      }
      assert events[..|events|] == events;
    }

    /**
     * A stream item of a channel message: every target of the stream gets its events, in time order. This
     * is a run of queue actions, one for each of these targets and events.
     */
    method DeliverItem(webId: string, items: seq<Event>)
      requires Valid() && running
      modifies this
      ensures Valid() && running
      ensures forall t: Target :: Of(ring, t) ==
                Of(old(ring), t) + (if t < |webIds| && webIds[t] == webId
                    then DeliverAll(CursorOf(old(sent), t), Stamped(items)).out else [])
      ensures RunPush(old(State()), ItemActions(webIds, webId, Stamped(items), |webIds|)) == Some(State())
    {
      hide Consistent, Clean, Of, DeliverAll, Stamped, RunPush, Queueing;
      var events := Stamped(items);
      ghost var before := State();
      NothingQueued(before, 0);
      for k := 0 to |webIds|
        invariant Valid() && running
        invariant forall t: Target | t >= k || webIds[t] != webId ::
                    Of(ring, t) == Of(before.ring, t) && CursorOf(sent, t) == CursorOf(before.sent, t)
        invariant forall t: Target | t < k && webIds[t] == webId ::
                    Of(ring, t) == Of(before.ring, t) + DeliverAll(CursorOf(before.sent, t), events).out
        invariant RunPush(before, ItemActions(webIds, webId, events, k)) == Some(State())
      {
        ghost var actions, mid := ItemActions(webIds, webId, events, k), State();
        if webIds[k] == webId {
          DeliverTo(k, events);
          RunBoth(before, mid, actions, Queueing(k, events));
        } else {
          assert actions + [] == actions;
        }
      }
    }

    /** A drain: a run of one take and, for each event, giving it to the sink and noting it. */
    method DrainRing()
      requires Valid() && running && Idle(State())
      modifies this
      ensures Valid() && running && Idle(State()) && ring == [] && sink == old(sink) + old(ring) && sent == old(sent)
      ensures RunPush(old(State()), Draining(|old(ring)|)) == Some(State())
    {
      hide Consistent, Clean, RunPush, Draining;
      ghost var before := State();
      var events := ring;
      ring, taken := [], events;
      KeepsValid(before, Take);
      DrainBegins(before);
      for i := 0 to |events|
        invariant Valid() && running && taken == events[i..] && noted == |sink| && sink == before.sink + events[..i]
        invariant ring == [] && sent == before.sent && RunPush(before, Draining(i)) == Some(State())
      {
        DrainOne(before, i);
      }
    }

    /** Give one event to the sink, then note it. */
    method DrainOne(ghost before: Push, ghost i: nat)
      requires Valid() && running && taken != [] && noted == |sink| && RunPush(before, Draining(i)) == Some(State())
      modifies this`sink, this`taken, this`store, this`noted
      ensures Valid() && taken == old(taken)[1..] && sink == old(sink) + [old(taken)[0]] && noted == |sink|
      ensures RunPush(before, Draining(i + 1)) == Some(State())
    {
      hide Consistent, Clean, RunPush, Draining;
      ghost var s := State();
      var (t, e) := taken[0];
      sink, taken := sink + [(t, e)], taken[1..];
      KeepsValid(s, Sink);
      RunMore(before, Draining(i), Sink);
      s := State();
      store, noted := store[t := Advance(if t in store then store[t] else Unset, e)], noted + 1;
      KeepsValid(s, Note);
      RunMore(before, Draining(i) + [Sink], Note);
      DrainGoesOn(i);
    }

    method FlushFile()
      requires Valid() && running
      modifies this
      ensures Valid() && State() == Step(old(State()), Flush)
    {
      ghost var before := State();
      file, flushed := store, noted;
      KeepsValid(before, Flush);
    }

    method StopWorker()
      requires Valid() && running && Idle(State())
      modifies this
      ensures Valid() && State() == Step(old(State()), Stop)
    {
      ghost var before := State();
      ring, file, running := [], store, false;
      flushed := noted;
      KeepsValid(before, Stop);
    }
  }

  /** The actions of a drain of `n` events. */
  function Draining(n: nat): seq<Action> {
    if n == 0 then [Take] else Draining(n - 1) + [Sink] + [Note]
  }

  /** The actions that queue events for one target, and for every target of a stream. */
  function Queueing(t: Target, events: seq<Event>): seq<Action> {
    seq(|events|, i requires 0 <= i < |events| => Queue(t, events[i]))
  }

  function ItemActions(webIds: seq<string>, webId: string, events: seq<Event>, n: nat): seq<Action>
    requires n <= |webIds|
  {
    if n == 0 then []
    else ItemActions(webIds, webId, events, n - 1) + (if webIds[n - 1] == webId then Queueing(n - 1, events) else [])
  }

  lemma NothingQueued(s: Push, t: Target)
    ensures RunPush(s, Queueing(t, [])) == Some(s) && RunPush(s, []) == Some(s)
  {
    assert Queueing(t, []) == [];
  }

  lemma QueueingNext(t: Target, events: seq<Event>, i: nat)
    requires i < |events|
    ensures Queueing(t, events[..i + 1]) == Queueing(t, events[..i]) + [Queue(t, events[i])]
  {
  }

  lemma {:induction false} RunBoth(s: Push, mid: Push, a: seq<Action>, b: seq<Action>)
    requires RunPush(s, a) == Some(mid)
    ensures RunPush(s, a + b) == RunPush(mid, b)
    decreases |a|
  {
    hide Step, Enabled;
    if a == [] {
      assert a + b == b;
    } else {
      assert (a + b)[1..] == a[1..] + b;
      RunBoth(Step(s, a[0]), mid, a[1..], b);
    }
  }

  lemma DrainBegins(s: Push)
    requires Enabled(s, Take)
    ensures RunPush(s, Draining(0)) == Some(Step(s, Take))
  {
    RunOne(s, Take);
  }

  lemma DrainGoesOn(n: nat)
    ensures Draining(n + 1) == Draining(n) + [Sink] + [Note]
  {
  }

  lemma RunOne(s: Push, a: Action)
    requires Enabled(s, a)
    ensures RunPush(s, [a]) == Some(Step(s, a))
  {
    hide Step;
    assert [a][1..] == [];
  }

  lemma {:induction false} RunMore(s: Push, actions: seq<Action>, a: Action)
    requires RunPush(s, actions).Some? && Enabled(RunPush(s, actions).value, a)
    ensures RunPush(s, actions + [a]) == Some(Step(RunPush(s, actions).value, a))
    decreases |actions|
  {
    hide Step, Enabled;
    if actions == [] {
      assert actions + [a] == [a];
      RunOne(s, a);
    } else {
      assert (actions + [a])[1..] == actions[1..] + [a];
      RunMore(Step(s, actions[0]), actions[1..], a);
    }
  }

  /** From `a` to `b` the worker queued `d.out` for target `t` and nothing else. */
  ghost predicate Queued(a: Push, b: Push, t: Target, d: Delivery) {
    && CursorOf(b.sent, t) == d.cursor && Of(b.ring, t) == Of(a.ring, t) + d.out
    && (forall u: Target | u != t :: CursorOf(b.sent, u) == CursorOf(a.sent, u) && Of(b.ring, u) == Of(a.ring, u))
  }

  lemma QueuedNext(a: Push, b: Push, t: Target, d: Delivery, e: Event)
    requires b.running && Queued(a, b, t, d)
    ensures Queued(a, Step(b, Queue(t, e)), t, Deliver(d, e))
  {
    hide Of, Admits, Advance;
    forall u: Target
      ensures Of(b.ring + [(t, e)], u) == Of(b.ring, u) + (if u == t then [e] else [])
    {
      OfSnoc(b.ring, (t, e), u);
    }
    assert Of(a.ring, t) + d.out + [e] == Of(a.ring, t) + (d.out + [e]);
  }
}
