/**
 * AVEVA PI delivery cursors. A cursor is an instant and the values delivered of that instant so far.
 * Delivering through a cursor drops what is older or already delivered.
 */
module PiCursor {

  const NANOS_PER_SECOND := 1_000_000_000

  /** Seconds and nanoseconds. */
  datatype PiTime = PiTime(sec: int, nsec: int)

  function TimeCmp(a: PiTime, b: PiTime): int {
    if a.sec != b.sec then (if a.sec < b.sec then -1 else 1)
    else if a.nsec != b.nsec then (if a.nsec < b.nsec then -1 else 1)
    else 0
  }

  function Nanos(t: PiTime): int {
    t.sec * NANOS_PER_SECOND + t.nsec
  }

  /** Comparing seconds, then nanoseconds, is comparing instants; instants are integers below. */
  lemma TimeCmpIsOrder(a: PiTime, b: PiTime)
    requires 0 <= a.nsec < NANOS_PER_SECOND && 0 <= b.nsec < NANOS_PER_SECOND
    ensures TimeCmp(a, b) < 0 <==> Nanos(a) < Nanos(b)
    ensures TimeCmp(a, b) == 0 <==> a == b
    ensures TimeCmp(a, b) == 0 <==> Nanos(a) == Nanos(b)
  {
  }

  /** A PI event: its instant and the canonical text of its value. */
  datatype Event = Event(at: int, value: string)

  /** A point's position; `Unset` is a point that starts live. */
  datatype Cursor = Unset | At(at: int, values: seq<string>)

  /** Later than the cursor, or at its instant with a value not delivered at it. */
  predicate Admits(c: Cursor, e: Event) {
    c.Unset? || e.at > c.at || (e.at == c.at && e.value !in c.values)
  }

  /** What handing on `e` does to a cursor: forward, wider at its instant, or nothing. */
  function Advance(c: Cursor, e: Event): Cursor {
    if c.At? && e.at < c.at then c
    else if c.At? && e.at == c.at then (if e.value in c.values then c else At(c.at, c.values + [e.value]))
    else At(e.at, [e.value])
  }

  function AdvanceAll(c: Cursor, events: seq<Event>): Cursor
    decreases |events|
  {
    if events == [] then c else AdvanceAll(Advance(c, events[0]), events[1..])
  }

  datatype Delivery = Delivery(cursor: Cursor, out: seq<Event>)

  /** One event more, if the cursor lets it through. */
  function Deliver(d: Delivery, e: Event): Delivery {
    if Admits(d.cursor, e) then Delivery(Advance(d.cursor, e), d.out + [e]) else d
  }

  /** Hand on `events` in order, starting from cursor `c`. */
  function DeliverAll(c: Cursor, events: seq<Event>): Delivery
    decreases |events|
  {
    if events == [] then Delivery(c, [])
    else Deliver(DeliverAll(c, events[..|events| - 1]), events[|events| - 1])
  }

  predicate Sorted(events: seq<Event>) {
    forall i, j | 0 <= i < j < |events| :: events[i].at <= events[j].at
  }

  // ---- the cursor as a filter ----

  ghost predicate EachOnce(values: seq<string>) {
    forall i, j | 0 <= i < j < |values| :: values[i] != values[j]
  }

  /**
   * Noting any event, also an old one or one noted before, makes a cursor refuse what is older than it and
   * the event itself, and nothing else it admitted. It holds no value twice.
   */
  lemma AdvanceExactly(c: Cursor, e: Event, x: Event)
    ensures Admits(Advance(c, e), x) <==> Admits(c, x) && x.at >= e.at && x != e
    ensures (c.At? ==> EachOnce(c.values)) ==> Advance(c, e).At? && EachOnce(Advance(c, e).values)
  {
    assert c.At? ==> forall v :: v in c.values + [e.value] <==> v in c.values || v == e.value;
  }

  lemma DeliverNext(c: Cursor, events: seq<Event>, k: nat)
    requires k < |events|
    ensures DeliverAll(c, events[..k + 1]) == Deliver(DeliverAll(c, events[..k]), events[k])
  {
    assert events[..k + 1][..k] == events[..k];
  }

  /** What a cursor refuses it refuses for ever. */
  lemma {:induction false} RefusedForEver(c: Cursor, events: seq<Event>, e: Event)
    requires !Admits(c, e)
    ensures !Admits(DeliverAll(c, events).cursor, e)
    decreases |events|
  {
    if events != [] {
      RefusedForEver(c, events[..|events| - 1], e);
    }
  }

  /** An event offered once is refused when it is offered again. */
  lemma {:induction false} OfferedIsRefused(c: Cursor, events: seq<Event>, e: Event)
    requires e in events
    ensures !Admits(DeliverAll(c, events).cursor, e)
    decreases |events|
  {
    var front, last := events[..|events| - 1], events[|events| - 1];
    assert events == front + [last];
    if e != last {
      OfferedIsRefused(c, front, e);
    }
  }

  /** Delivered events come from the offer, pass the cursor, and include all it admits when sorted. */
  lemma {:induction false} DeliveredAreAdmitted(c: Cursor, events: seq<Event>, e: Event)
    ensures e in DeliverAll(c, events).out ==> e in events && Admits(c, e)
    ensures Sorted(events) && e in events && Admits(c, e) ==> e in DeliverAll(c, events).out
    decreases |events|
  {
    if events != [] {
      var front, last := events[..|events| - 1], events[|events| - 1];
      assert events == front + [last];
      DeliveredAreAdmitted(c, front, e);
      if Admits(DeliverAll(c, front).cursor, last) && !Admits(c, last) {
        RefusedForEver(c, front, last);
      }
      if Sorted(events) && Admits(c, last) && last !in front {
        SortedAdmits(c, front, last);
      }
    }
  }

  /** A new event no older than those offered is admitted. */
  lemma {:induction false} SortedAdmits(c: Cursor, events: seq<Event>, e: Event)
    requires Admits(c, e) && e !in events && forall i | 0 <= i < |events| :: events[i].at <= e.at
    ensures Admits(DeliverAll(c, events).cursor, e)
    decreases |events|
  {
    if events != [] {
      SortedAdmits(c, events[..|events| - 1], e);
    }
  }

  /** In time order, and no event twice. */
  ghost predicate OnceInOrder(events: seq<Event>) {
    forall i, j | 0 <= i < j < |events| :: events[i].at <= events[j].at && events[i] != events[j]
  }

  /** Whatever order events are offered in, they are delivered in time order and once each. */
  lemma {:induction false} DeliveredOnceInOrder(c: Cursor, events: seq<Event>)
    ensures OnceInOrder(DeliverAll(c, events).out)
    ensures forall e | e in DeliverAll(c, events).out :: !Admits(DeliverAll(c, events).cursor, e)
    ensures var d := DeliverAll(c, events); d.out != [] ==> d.cursor.At? && forall e | e in d.out :: e.at <= d.cursor.at
    decreases |events|
  {
    if events != [] {
      DeliveredOnceInOrder(c, events[..|events| - 1]);
    }
  }

  // ---- the persisted cursor ----

  lemma {:induction false} AdvanceAllSnoc(c: Cursor, events: seq<Event>, e: Event)
    ensures AdvanceAll(c, events + [e]) == Advance(AdvanceAll(c, events), e)
    decreases |events|
  {
    if events == [] {
      assert [e][1..] == [];
      assert events + [e] == [e];
    } else {
      assert (events + [e])[1..] == events[1..] + [e];
      AdvanceAllSnoc(Advance(c, events[0]), events[1..], e);
    }
  }

  /** The cursor is the fold of what was handed on. */
  lemma {:induction false} CursorIsFold(c: Cursor, events: seq<Event>)
    ensures DeliverAll(c, events).cursor == AdvanceAll(c, DeliverAll(c, events).out)
    decreases |events|
  {
    if events != [] {
      var front, last := events[..|events| - 1], events[|events| - 1];
      CursorIsFold(c, front);
      var d := DeliverAll(c, front);
      if Admits(d.cursor, last) {
        AdvanceAllSnoc(c, d.out, last);
      }
    }
  }

  /** The values at an instant, in order. */
  function ValuesAt(events: seq<Event>, at: int): seq<string> {
    if events == [] then []
    else
      var e := events[|events| - 1];
      ValuesAt(events[..|events| - 1], at) + (if e.at == at then [e.value] else [])
  }

  lemma {:induction false} NoValuesAt(events: seq<Event>, at: int)
    requires forall e | e in events :: e.at != at
    ensures ValuesAt(events, at) == []
    decreases |events|
  {
    if events != [] {
      var front, last := events[..|events| - 1], events[|events| - 1];
      assert events == front + [last];
      NoValuesAt(front, at);
    }
  }

  /** A cursor is the last instant delivered, with the values delivered of it in order. */
  lemma {:induction false} CursorIsLastInstant(c: Cursor, events: seq<Event>)
    ensures c.At? ==> DeliverAll(c, events).cursor.At? && c.at <= DeliverAll(c, events).cursor.at
    ensures var d := DeliverAll(c, events);
            if d.out == [] then d.cursor == c
            else
              var at := d.out[|d.out| - 1].at;
              d.cursor == At(at, (if c.At? && c.at == at then c.values else []) + ValuesAt(d.out, at))
    decreases |events|
  {
    if events != [] {
      var front, last := events[..|events| - 1], events[|events| - 1];
      CursorIsLastInstant(c, front);
      DeliveredOnceInOrder(c, front);
      var d := DeliverAll(c, front);
      if Admits(d.cursor, last) {
        assert (d.out + [last])[..|d.out|] == d.out;
        if d.cursor.Unset? || d.cursor.at < last.at {
          NoValuesAt(d.out, last.at);
        }
      }
    }
  }

  // ---- in place ----

  class Cell {
    var isSet: bool
    var at: int
    var values: seq<string>

    ghost function Value(): Cursor
      reads this
    {
      if isSet then At(at, values) else Unset
    }

    constructor ()
      ensures Value() == Unset
    {
      isSet, at, values := false, 0, [];
    }

    method AdmitsEvent(e: Event) returns (yes: bool)
      ensures yes == Admits(Value(), e)
    {
      if !isSet { return true; }
      if e.at != at { return e.at > at; }
      for i := 0 to |values|
        invariant e.value !in values[..i]
      {
        if values[i] == e.value { return false; }
      }
      return true;
    }

    method Clear()
      modifies this
      ensures Value() == Unset && values == []
    {
      isSet, at, values := false, 0, [];
    }

    method AdvanceTo(e: Event)
      modifies this
      ensures Value() == Advance(old(Value()), e)
    {
      if isSet && e.at < at { return; }
      if isSet && e.at == at {
        for i := 0 to |values|
          invariant e.value !in values[..i] && values == old(values) && isSet && at == old(at)
        {
          if values[i] == e.value { return; }
        }
      } else {
        Clear();
        isSet, at := true, e.at;
      }
      values := values + [e.value];
    }

    method CopyFrom(src: Cell)
      requires src != this
      modifies this
      ensures Value() == old(src.Value())
    {
      Clear();
      if !src.isSet { return; }
      isSet, at := true, src.at;
      for i := 0 to |src.values|
        invariant isSet && at == src.at && values == src.values[..i]
      {
        values := values + [src.values[i]];
      }
    }
  }
}
