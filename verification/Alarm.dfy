/**
 * The alarm flow: alarms declared by a device's points, raised and cleared on the broker as
 * retained messages, through a record of them that lags behind and across restarts.
 */
module Alarm {
  import opened Common

  type Type = string

  datatype Value = Number(n: real) | Text(s: string) | Flag(b: bool) | Null | Compound(text: string)

  /** A condition has up to four parts; one that holds is enough. */
  datatype Condition = Condition(
    equals: Option<seq<Value>>, notEquals: Option<seq<Value>>,
    above: Option<real>, below: Option<real>, hysteresis: real)

  datatype Reason = ByEquals | ByNotEquals | ByAbove | ByBelow

  /** What is known of a condition: nothing, that it does not hold, or that it holds and perhaps why. */
  datatype Active = Unknown | Off | On(reason: Option<Reason>)

  // ---- evaluating a condition ----

  /** `===` against a list: an array or object is the same as nothing. */
  predicate ListedIn(list: seq<Value>, v: Value) {
    v in list && !v.Compound?
  }

  /** What one limit makes of a value; its band keeps up an alarm of its own, or one nobody knows the reason of. */
  function Limit(side: Reason, beyond: bool, inBand: bool, was: Active): Active {
    if beyond || (inBand && (was == On(Some(side)) || was == On(None))) then On(Some(side))
    else if inBand && was.Unknown? then Unknown
    else Off
  }

  function Evaluate(c: Condition, v: Value, was: Active): Active {
    if c.equals.Some? && ListedIn(c.equals.value, v) then On(Some(ByEquals))
    else if c.notEquals.Some? && !ListedIn(c.notEquals.value, v) then On(Some(ByNotEquals))
    else if !v.Number? then Off
    else
      var high := if c.above.None? then Off
                  else Limit(ByAbove, v.n > c.above.value, v.n > c.above.value - c.hysteresis, was);
      if high.On? then high
      else
        var low := if c.below.None? then Off
                   else Limit(ByBelow, v.n < c.below.value, v.n < c.below.value + c.hysteresis, was);
        if low.On? then low else if high.Unknown? || low.Unknown? then Unknown else Off
  }

  /** Whether the condition holds outright, without any hysteresis. */
  predicate Beyond(c: Condition, v: Value) {
    || (c.equals.Some? && ListedIn(c.equals.value, v))
    || (c.notEquals.Some? && !ListedIn(c.notEquals.value, v))
    || (v.Number? && c.above.Some? && v.n > c.above.value)
    || (v.Number? && c.below.Some? && v.n < c.below.value)
  }

  /** Whether the value is in the band of a limit that can keep the alarm up. */
  predicate Banded(c: Condition, v: Value, was: Active) {
    v.Number? &&
    (|| (c.above.Some? && v.n > c.above.value - c.hysteresis
        && (was.Unknown? || was == On(None) || was == On(Some(ByAbove))))
     || (c.below.Some? && v.n < c.below.value + c.hysteresis
         && (was.Unknown? || was == On(None) || was == On(Some(ByBelow)))))
  }

  /**
   * A condition starts only where it holds outright, ends only outside the band of the limit that
   * raised it, and is left open only in a band nothing is known about.
   */
  lemma EvaluateIs(c: Condition, v: Value, was: Active)
    ensures Evaluate(c, v, was).On? <==> Beyond(c, v) || (was.On? && Banded(c, v, was))
    ensures Evaluate(c, v, was).Unknown? <==> !Beyond(c, v) && was.Unknown? && Banded(c, v, was)
  {
  }

  // ---- the flow's state ----

  /** Which point of which protocol declares an alarm. */
  datatype Owner = Owner(point: string, protocol: string)

  /** A declared alarm; without an owner it is a pruned one, kept as cleared. */
  datatype Known = Known(owner: Option<Owner>, active: Active)

  datatype Declaration = Declaration(kind: Type, condition: Condition)

  /** A sample: `describes` when it carries access or meta, `value` only when it is good. */
  datatype Sample = Sample(owner: Owner, describes: bool, declared: seq<Declaration>, value: Option<Value>)

  datatype Message = Message(kind: Type, raise: bool)

  /** The alarms known, in the order they were first seen, and what the current turn has published. */
  datatype Turn = Turn(order: seq<Type>, known: map<Type, Known>, out: seq<Message>)

  type Record = map<Type, bool>

  predicate Names(alarms: seq<Declaration>, kind: Type) {
    exists a | a in alarms :: a.kind == kind
  }

  /** Of declarations of the same type only the first counts. */
  function AlarmsOf(declared: seq<Declaration>, out: seq<Declaration>): seq<Declaration>
    decreases |declared|
  {
    if declared == [] then out
    else AlarmsOf(declared[1..], if Names(out, declared[0].kind) then out else out + [declared[0]])
  }

  function ActiveOf(t: Turn, kind: Type): Active {
    if kind in t.known then t.known[kind].active else Unknown
  }

  function Put(t: Turn, kind: Type, known: Known): Turn {
    t.(order := if kind in t.known then t.order else t.order + [kind], known := t.known[kind := known])
  }

  predicate Owns(t: Turn, owner: Owner, kind: Type) {
    kind in t.known && t.known[kind].owner == Some(owner)
  }

  /** A pruned alarm: nobody's any more and down, which is published unless the flow knew it to be down. */
  function Prune(t: Turn, kind: Type): Turn {
    var cleared := if ActiveOf(t, kind) != Off then t.(out := t.out + [Message(kind, false)]) else t;
    Put(cleared, kind, Known(None, Off))
  }

  function PruneUndeclared(t: Turn, kinds: seq<Type>, owner: Owner, alarms: seq<Declaration>): Turn
    decreases |kinds|
  {
    if kinds == [] then t
    else PruneUndeclared(
      if Owns(t, owner, kinds[0]) && !Names(alarms, kinds[0]) then Prune(t, kinds[0]) else t, kinds[1..], owner, alarms)
  }

  /** What the flow takes the alarm's state to be: its own, else the retained record's. */
  function Was(t: Turn, record: Record, kind: Type): Active {
    if !ActiveOf(t, kind).Unknown? then ActiveOf(t, kind)
    else if kind !in record then Unknown
    else if record[kind] then On(None) else Off
  }

  function Settle(t: Turn, record: Record, owner: Owner, alarm: Declaration, value: Option<Value>): Turn {
    var kind := alarm.kind;
    if kind in t.known && t.known[kind].owner.Some? && t.known[kind].owner != Some(owner) then t
    else
      var was := Was(t, record, kind);
      var holds := if value.Some? then Evaluate(alarm.condition, value.value, was) else Unknown;
      var published := if !holds.Unknown? && (was.Unknown? || holds.On? != was.On?)
                       then t.(out := t.out + [Message(kind, holds.On?)]) else t;
      Put(published, kind, Known(Some(owner), if holds.Unknown? then was else holds))
  }

  function SettleAll(t: Turn, record: Record, owner: Owner, alarms: seq<Declaration>, value: Option<Value>): Turn
    decreases |alarms|
  {
    if alarms == [] then t else SettleAll(Settle(t, record, owner, alarms[0], value), record, owner, alarms[1..], value)
  }

  function OnSample(t: Turn, record: Record, s: Sample): Turn {
    var alarms := AlarmsOf(s.declared, []);
    if alarms == [] && !(exists kind | kind in t.order :: Owns(t, s.owner, kind)) then t
    else SettleAll(if s.describes then PruneUndeclared(t, t.order, s.owner, alarms)
        else t, record, s.owner, alarms, s.value)
  }

  function PruneUnlisted(t: Turn, kinds: seq<Type>, protocol: string, listed: seq<string>): Turn
    decreases |kinds|
  {
    if kinds == [] then t
    else
      var kind := kinds[0];
      PruneUnlisted(
        if kind in t.known && t.known[kind].owner.Some? && t.known[kind].owner.value.protocol == protocol
           && t.known[kind].owner.value.point !in listed then Prune(t, kind) else t,
        kinds[1..], protocol, listed)
  }

  function OnLinkStatus(t: Turn, protocol: string, points: Option<seq<string>>): Turn {
    if points.None? then t else PruneUnlisted(t, t.order, protocol, points.value)
  }

  // ---- the broker and the record ----

  /**
   * `standing` are the alarms the broker retains, `record` what alarm-state has seen of them,
   * `echoes` what the broker has still to deliver to it, `log` what the flow published since it started.
   */
  datatype World = World(
    order: seq<Type>, known: map<Type, Known>,
    standing: set<Type>, record: Record, echoes: seq<Message>, log: seq<Message>)

  datatype Event = Sampled(sample: Sample) | Linked(protocol: string, points: Option<seq<string>>) | Echoed | Restarted

  function Retain(standing: set<Type>, out: seq<Message>): set<Type>
    decreases |out|
  {
    if out == [] then standing
    else
      var m, before := out[|out| - 1], Retain(standing, out[..|out| - 1]);
      if m.raise then before + {m.kind} else before - {m.kind}
  }

  /** The world once the messages of a turn are on the broker. */
  function Publish(w: World, t: Turn): World {
    World(t.order, t.known, Retain(w.standing, t.out), w.record, w.echoes + t.out, w.log + t.out)
  }

  /** The record once it has seen a message. */
  function Noted(record: Record, m: Message): Record {
    record[m.kind := m.raise]
  }

  function Begin(w: World): Turn {
    Turn(w.order, w.known, [])
  }

  function Step(w: World, e: Event): World {
    match e
    case Sampled(sample) => Publish(w, OnSample(Begin(w), w.record, sample))
    case Linked(protocol, points) => Publish(w, OnLinkStatus(Begin(w), protocol, points))
    case Echoed =>
      if w.echoes == [] then w
      else w.(record := Noted(w.record, w.echoes[0]), echoes := w.echoes[1..])
    case Restarted => World([], map[], w.standing, map kind | kind in w.standing :: true, [], [])
  }

  /** The messages about one alarm. */
  function About(log: seq<Message>, kind: Type): seq<bool>
    decreases |log|
  {
    if log == [] then []
    else About(log[..|log| - 1], kind) + (if log[|log| - 1].kind == kind then [log[|log| - 1].raise] else [])
  }

  ghost predicate Alternates(raises: seq<bool>) {
    forall i, j | 0 <= i && j == i + 1 < |raises| :: raises[i] != raises[j]
  }

  /**
   * For one alarm. Its known state is the retained one; while it is unknown the flow has published
   * nothing about it, and the record says exactly whether it stands. Its messages alternate, and the
   * last of them is what the broker retains.
   */
  ghost predicate InStep(w: World, kind: Type) {
    var active := if kind in w.known then w.known[kind].active else Unknown;
    && (kind in w.known <==> kind in w.order)
    && (!active.Unknown? ==> (active.On? <==> kind in w.standing))
    && (active.Unknown? ==>
          && About(w.log, kind) == [] && About(w.echoes, kind) == []
          && (kind in w.record <==> kind in w.standing) && (kind in w.record ==> w.record[kind]))
    && Alternates(About(w.log, kind))
    && (About(w.log, kind) != [] ==> About(w.log, kind)[|About(w.log, kind)| - 1] == (kind in w.standing))
  }

  // ---- one message ----

  lemma AboutSnoc(log: seq<Message>, m: Message, kind: Type)
    ensures About(log + [m], kind) == About(log, kind) + (if m.kind == kind then [m.raise] else [])
  {
    assert (log + [m])[..|log|] == log;
  }

  lemma {:induction false} AboutTail(log: seq<Message>, kind: Type)
    requires log != []
    ensures About(log, kind) == (if log[0].kind == kind then [log[0].raise] else []) + About(log[1..], kind)
    decreases |log|
  {
    hide About;
    AboutNone(kind);
    if |log| == 1 {
      AboutSnoc([], log[0], kind);
      assert [] + [log[0]] == log && log[1..] == [];
    } else {
      var front, last := log[..|log| - 1], log[|log| - 1];
      AboutTail(front, kind);
      AboutSnoc(front, last, kind);
      AboutSnoc(front[1..], last, kind);
      assert front + [last] == log && front[1..] + [last] == log[1..];
    }
  }

  lemma AboutNone(kind: Type)
    ensures About([], kind) == []
  {
  }

  /** The turn's effect on the world is that of its last message after the others. */
  lemma PublishOne(w: World, t: Turn, m: Message)
    ensures Publish(w, t.(out := t.out + [m])) ==
            var before := Publish(w, t);
            before.(standing := if m.raise then before.standing + {m.kind} else before.standing - {m.kind},
                    echoes := before.echoes + [m], log := before.log + [m])
  {
    assert (t.out + [m])[..|t.out|] == t.out;
    assert w.echoes + (t.out + [m]) == (w.echoes + t.out) + [m];
    assert w.log + (t.out + [m]) == (w.log + t.out) + [m];
  }

  /** A message that changes what stands, or the first one, keeps the alarm in step. */
  lemma ChangeInStep(w: World, kind: Type, known: Known, raise: bool, order: seq<Type>, other: Type)
    requires InStep(w, other) && InStep(w, kind) && !known.active.Unknown? && known.active.On? == raise
    requires About(w.log, kind) == [] || raise != (kind in w.standing)
    requires forall x :: x in order <==> x in w.order || x == kind
    ensures InStep(w.(order := order, known := w.known[kind := known],
                      standing := if raise then w.standing + {kind} else w.standing - {kind},
                      echoes := w.echoes + [Message(kind, raise)], log := w.log + [Message(kind, raise)]), other)
  {
    var m := Message(kind, raise);
    AboutSnoc(w.log, m, other);
    AboutSnoc(w.echoes, m, other);
    hide About;
    if other != kind {
      assert About(w.log, other) + [] == About(w.log, other) && About(w.echoes, other) + [] == About(w.echoes, other);
    }
  }

  /** Recording a state that agrees with the broker keeps the alarm in step. */
  lemma RecordInStep(w: World, kind: Type, known: Known, order: seq<Type>, other: Type)
    requires InStep(w, other) && InStep(w, kind)
    requires !known.active.Unknown? ==> (known.active.On? <==> kind in w.standing)
    requires known.active.Unknown? ==> kind !in w.known || w.known[kind].active.Unknown?
    requires forall x :: x in order <==> x in w.order || x == kind
    ensures InStep(w.(order := order, known := w.known[kind := known]), other)
  {
    hide About, Alternates;
  }

  /** No message of the turn raises an alarm that stands when it is published. */
  ghost predicate NoRepeat(standing: set<Type>, out: seq<Message>) {
    forall i | 0 <= i < |out| :: out[i].raise ==> out[i].kind !in Retain(standing, out[..i])
  }

  ghost predicate Good(w: World, t: Turn) {
    (forall kind :: InStep(Publish(w, t), kind)) && NoRepeat(w.standing, t.out)
  }

  /** Publish a message that changes what stands (or is the first of its alarm) and record its state. */
  lemma SayGood(w: World, t: Turn, kind: Type, known: Known, raise: bool)
    requires Good(w, t) && !known.active.Unknown? && known.active.On? == raise
    requires var now := Publish(w, t);
             && (raise ==> kind !in now.standing)
             && (About(now.log, kind) == [] || raise != (kind in now.standing))
    ensures Good(w, Put(t.(out := t.out + [Message(kind, raise)]), kind, known))
  {
    var m, now, after := Message(kind, raise), Publish(w, t),
        Put(t.(out := t.out + [Message(kind, raise)]), kind, known);
    PublishOne(w, t, m);
    hide Retain, About;
    forall other
      ensures InStep(Publish(w, after), other)
    {
      assert InStep(now, other) && InStep(now, kind);
      ChangeInStep(now, kind, known, raise, after.order, other);
    }
    forall i | 0 <= i < |after.out|
      ensures after.out[i].raise ==> after.out[i].kind !in Retain(w.standing, after.out[..i])
    {
      assert after.out[..i] == t.out[..i];
      assert i == |t.out| ==> t.out[..i] == t.out;
    }
  }

  lemma NoteGood(w: World, t: Turn, kind: Type, known: Known)
    requires Good(w, t)
    requires !known.active.Unknown? ==> (known.active.On? <==> kind in Publish(w, t).standing)
    requires known.active.Unknown? ==> ActiveOf(t, kind).Unknown?
    ensures Good(w, Put(t, kind, known))
  {
    var now, after := Publish(w, t), Put(t, kind, known);
    hide Retain, About, Alternates;
    forall other
      ensures InStep(Publish(w, after), other)
    {
      assert InStep(now, other) && InStep(now, kind);
      RecordInStep(now, kind, known, after.order, other);
    }
  }

  lemma PruneGood(w: World, t: Turn, kind: Type)
    requires Good(w, t)
    ensures Good(w, Prune(t, kind))
  {
    hide Retain, About, Alternates, NoRepeat;
    assert InStep(Publish(w, t), kind);
    if ActiveOf(t, kind) != Off {
      SayGood(w, t, kind, Known(None, Off), false);
    } else {
      NoteGood(w, t, kind, Known(None, Off));
    }
  }

  /** What the flow takes an alarm's state to be agrees with the broker, and is unknown only when it does not stand. */
  lemma WasIs(w: World, t: Turn, kind: Type)
    requires Good(w, t)
    ensures var was, now := Was(t, w.record, kind), Publish(w, t);
            && (!was.Unknown? ==> (was.On? <==> kind in now.standing))
            && (was.Unknown? ==> kind !in now.standing && About(now.log, kind) == [] && ActiveOf(t, kind).Unknown?)
  {
    hide Retain, About, Alternates, NoRepeat;
    assert InStep(Publish(w, t), kind);
  }

  lemma SettleGood(w: World, t: Turn, owner: Owner, alarm: Declaration, value: Option<Value>)
    requires Good(w, t)
    ensures Good(w, Settle(t, w.record, owner, alarm, value))
  {
    var kind := alarm.kind;
    hide Retain, About, Alternates, Evaluate, Good;
    WasIs(w, t, kind);
    if !(kind in t.known && t.known[kind].owner.Some? && t.known[kind].owner != Some(owner)) {
      var was := Was(t, w.record, kind);
      var holds := if value.Some? then Evaluate(alarm.condition, value.value, was) else Unknown;
      var known := Known(Some(owner), if holds.Unknown? then was else holds);
      if !holds.Unknown? && (was.Unknown? || holds.On? != was.On?) {
        SayGood(w, t, kind, known, holds.On?);
      } else {
        NoteGood(w, t, kind, known);
      }
    }
  }

  // ---- whole turns ----

  lemma {:induction false} PruneUndeclaredGood(w: World, t: Turn, kinds: seq<Type>, owner: Owner,
      alarms: seq<Declaration>)
    requires Good(w, t)
    ensures Good(w, PruneUndeclared(t, kinds, owner, alarms))
    decreases |kinds|
  {
    if kinds != [] {
      hide Good, Prune;
      PruneGood(w, t, kinds[0]);
      PruneUndeclaredGood(w,
        if Owns(t, owner, kinds[0]) && !Names(alarms, kinds[0]) then Prune(t, kinds[0])
            else t, kinds[1..], owner, alarms);
    }
  }

  lemma {:induction false} PruneUnlistedGood(w: World, t: Turn, kinds: seq<Type>, protocol: string, listed: seq<string>)
    requires Good(w, t)
    ensures Good(w, PruneUnlisted(t, kinds, protocol, listed))
    decreases |kinds|
  {
    if kinds != [] {
      hide Good, Prune;
      var kind := kinds[0];
      PruneGood(w, t, kind);
      PruneUnlistedGood(w,
        if kind in t.known && t.known[kind].owner.Some? && t.known[kind].owner.value.protocol == protocol
           && t.known[kind].owner.value.point !in listed then Prune(t, kind) else t,
        kinds[1..], protocol, listed);
    }
  }

  lemma {:induction false} SettleAllGood(w: World, t: Turn, owner: Owner, alarms: seq<Declaration>,
      value: Option<Value>)
    requires Good(w, t)
    ensures Good(w, SettleAll(t, w.record, owner, alarms, value))
    decreases |alarms|
  {
    if alarms != [] {
      hide Good, Settle;
      SettleGood(w, t, owner, alarms[0], value);
      SettleAllGood(w, Settle(t, w.record, owner, alarms[0], value), owner, alarms[1..], value);
    }
  }

  lemma BeginGood(w: World)
    requires forall kind :: InStep(w, kind)
    ensures Good(w, Begin(w))
  {
    hide About, Alternates;
    assert w.echoes + [] == w.echoes && w.log + [] == w.log;
    assert Publish(w, Begin(w)) == w;
  }

  /** Every sample and link status keeps all alarms in step and raises none that stands. */
  lemma TurnGood(w: World, e: Event)
    requires forall kind :: InStep(w, kind)
    requires e.Sampled? || e.Linked?
    ensures var t := if e.Sampled? then OnSample(Begin(w), w.record, e.sample)
        else OnLinkStatus(Begin(w), e.protocol, e.points);
            Good(w, t) && Step(w, e) == Publish(w, t)
  {
    BeginGood(w);
    hide Good, InStep, Publish, SettleAll, PruneUndeclared, PruneUnlisted, AlarmsOf;
    var t := Begin(w);
    match e
    case Sampled(sample) =>
      var alarms := AlarmsOf(sample.declared, []);
      PruneUndeclaredGood(w, t, t.order, sample.owner, alarms);
      SettleAllGood(w, if sample.describes then PruneUndeclared(t, t.order, sample.owner, alarms)
          else t, sample.owner, alarms, sample.value);
    case Linked(protocol, points) =>
      if points.Some? {
        PruneUnlistedGood(w, t, t.order, protocol, points.value);
      }
  }

  lemma EchoInStep(w: World, kind: Type)
    requires InStep(w, kind)
    ensures InStep(Step(w, Echoed), kind)
  {
    if w.echoes != [] {
      AboutTail(w.echoes, kind);
      hide About, Alternates;
    }
  }

  lemma StepInStep(w: World, e: Event)
    requires forall kind :: InStep(w, kind)
    ensures forall kind :: InStep(Step(w, e), kind)
  {
    if e.Sampled? || e.Linked? {
      TurnGood(w, e);
      hide Step, InStep;
    } else if e.Echoed? {
      forall kind
        ensures InStep(Step(w, e), kind)
      {
        EchoInStep(w, kind);
      }
    }
  }

  // ---- runs ----

  function Run(w: World, events: seq<Event>): World
    decreases |events|
  {
    if events == [] then w else Run(Step(w, events[0]), events[1..])
  }

  lemma {:induction false} RunInStep(w: World, events: seq<Event>)
    requires forall kind :: InStep(w, kind)
    ensures forall kind :: InStep(Run(w, events), kind)
    decreases |events|
  {
    if events != [] {
      hide Step, InStep;
      StepInStep(w, events[0]);
      RunInStep(Step(w, events[0]), events[1..]);
    }
  }

  /** The flow as it starts, whatever alarms the broker retains. */
  function Started(standing: set<Type>): World {
    World([], map[], standing, map kind | kind in standing :: true, [], [])
  }

  /**
   * Through every interleaving of samples, link statuses, hand-overs of an alarm between points,
   * late echoes and restarts: a known state is the retained one, and the messages about an alarm
   * alternate within a lifetime.
   */
  lemma AlwaysInStep(standing: set<Type>, events: seq<Event>, kind: Type)
    ensures var w := Run(Started(standing), events);
            && (kind in w.known && !w.known[kind].active.Unknown? ==>
                (w.known[kind].active.On? <==> kind in w.standing))
            && Alternates(About(w.log, kind))
  {
    assert forall k :: InStep(Started(standing), k);
    hide Run, About, Alternates;
    RunInStep(Started(standing), events);
    assert InStep(Run(Started(standing), events), kind);
  }

  /** No sample or link status ever raises an alarm that is already standing on the broker. */
  lemma NeverRaisedTwice(standing: set<Type>, events: seq<Event>, e: Event, i: nat)
    requires e.Sampled? || e.Linked?
    ensures var w := Run(Started(standing), events);
            var t := if e.Sampled? then OnSample(Begin(w), w.record, e.sample)
                else OnLinkStatus(Begin(w), e.protocol, e.points);
            i < |t.out| && t.out[i].raise ==> t.out[i].kind !in Retain(w.standing, t.out[..i])
  {
    assert forall k :: InStep(Started(standing), k);
    hide Run, InStep;
    RunInStep(Started(standing), events);
    TurnGood(Run(Started(standing), events), e);
  }

  // ---- the record follows the broker ----

  function NotedAll(record: Record, messages: seq<Message>): Record
    decreases |messages|
  {
    if messages == [] then record else Noted(NotedAll(record, messages[..|messages| - 1]), messages[|messages| - 1])
  }

  /** The record will say of each alarm whether it stands once the echoes on their way have arrived. */
  ghost predicate Follows(record: Record, echoes: seq<Message>, standing: set<Type>) {
    forall kind :: kind in standing <==> kind in NotedAll(record, echoes) && NotedAll(record, echoes)[kind]
  }

  lemma {:induction false} NotedFirst(record: Record, messages: seq<Message>)
    requires messages != []
    ensures NotedAll(record, messages) == NotedAll(Noted(record, messages[0]), messages[1..])
    decreases |messages|
  {
    var front, n := messages[..|messages| - 1], |messages| - 1;
    if n > 0 {
      NotedFirst(record, front);
      assert messages[1..][..n - 1] == front[1..] && messages[1..][n - 1] == messages[n];
    } else {
      assert front == [] && messages[1..] == [];
    }
  }

  /** Publishing a message changes what stands as its echo will change the record. */
  lemma {:induction false} PublishedFollows(record: Record, echoes: seq<Message>, standing: set<Type>,
      out: seq<Message>)
    requires Follows(record, echoes, standing)
    ensures Follows(record, echoes + out, Retain(standing, out))
    decreases |out|
  {
    if out == [] {
      assert echoes + out == echoes;
    } else {
      var front, m := out[..|out| - 1], out[|out| - 1];
      PublishedFollows(record, echoes, standing, front);
      assert (echoes + out)[..|echoes + out| - 1] == echoes + front;
    }
  }

  lemma StepFollows(w: World, e: Event)
    requires Follows(w.record, w.echoes, w.standing)
    ensures var after := Step(w, e); Follows(after.record, after.echoes, after.standing)
  {
    hide OnSample, OnLinkStatus, Retain;
    match e
    case Sampled(sample) => PublishedFollows(w.record, w.echoes, w.standing, OnSample(Begin(w), w.record, sample).out);
    case Linked(protocol, points) => PublishedFollows(w.record, w.echoes, w.standing,
        OnLinkStatus(Begin(w), protocol, points).out);
    case Echoed =>
      if w.echoes != [] {
        NotedFirst(w.record, w.echoes);
      }
    case Restarted =>
  }

  lemma {:induction false} RunFollows(w: World, events: seq<Event>)
    requires Follows(w.record, w.echoes, w.standing)
    ensures var after := Run(w, events); Follows(after.record, after.echoes, after.standing)
    decreases |events|
  {
    if events != [] {
      hide Step, Follows;
      StepFollows(w, events[0]);
      RunFollows(Step(w, events[0]), events[1..]);
    }
  }

  /** In every run the record lags behind the broker by exactly the echoes on their way. */
  lemma RecordCatchesUp(standing: set<Type>, events: seq<Event>, kind: Type)
    ensures var w := Run(Started(standing), events);
            && (kind in w.standing <==> kind in NotedAll(w.record, w.echoes) && NotedAll(w.record, w.echoes)[kind])
            && (w.echoes == [] ==> (kind in w.standing <==> kind in w.record && w.record[kind]))
  {
    hide Run;
    RunFollows(Started(standing), events);
  }

  // ---- a reading settles its alarm ----

  /** A reading settles an alarm its point owns: what the broker retains afterwards is the condition. */
  lemma SettleIsTheCondition(w: World, t: Turn, owner: Owner, alarm: Declaration, value: Value)
    requires Good(w, t) && !(alarm.kind in t.known && t.known[alarm.kind].owner.Some?
        && t.known[alarm.kind].owner != Some(owner))
    requires !Evaluate(alarm.condition, value, Was(t, w.record, alarm.kind)).Unknown?
    ensures var was := Was(t, w.record, alarm.kind);
            var after := Publish(w, Settle(t, w.record, owner, alarm, Some(value)));
            alarm.kind in after.standing <==>
                Beyond(alarm.condition, value) || (was.On? && Banded(alarm.condition, value, was))
  {
    var was, t' := Was(t, w.record, alarm.kind), Settle(t, w.record, owner, alarm, Some(value));
    EvaluateIs(alarm.condition, value, was);
    SettleGood(w, t, owner, alarm, Some(value));
    hide Retain, About, Alternates, Evaluate, Beyond, Banded;
    assert InStep(Publish(w, t'), alarm.kind);
  }

  /**
   * Why the retained alarms must be replayed first: an alarm the flow knows nothing of is raised by a
   * reading that meets its condition exactly when the record has not seen it standing -- standing or not.
   */
  lemma RaisedUnlessSeen(t: Turn, record: Record, owner: Owner, alarm: Declaration, value: Value)
    requires ActiveOf(t, alarm.kind).Unknown? && Beyond(alarm.condition, value)
    requires !(alarm.kind in t.known && t.known[alarm.kind].owner.Some? && t.known[alarm.kind].owner != Some(owner))
    ensures Settle(t, record, owner, alarm, Some(value)).out == t.out + [Message(alarm.kind, true)]
            <==> !(alarm.kind in record && record[alarm.kind])
  {
    EvaluateIs(alarm.condition, value, Was(t, record, alarm.kind));
    hide Evaluate, Beyond;
    assert |t.out + [Message(alarm.kind, true)]| != |t.out|;
  }

  /** What a run of readings leaves of a condition. */
  function Followed(c: Condition, values: seq<real>, was: Active): Active
    decreases |values|
  {
    if values == [] then was else Evaluate(c, Number(values[|values| - 1]), Followed(c, values[..|values| - 1], was))
  }

  /** Raised by a limit and nothing else since. */
  ghost predicate StandsBy(c: Condition, values: seq<real>, was: Active, side: Reason) {
    forall i | 0 <= i <= |values| :: Followed(c, values[..i], was) == On(Some(side))
  }

  /**
   * For every condition, and through any readings in between that leave the alarm to the limit that
   * raised it: between the reading that raised it and the one that clears it the value moved back by
   * more than the hysteresis.
   */
  lemma HysteresisGap(c: Condition, raised: real, between: seq<real>, cleared: real, side: Reason)
    requires side == ByAbove || side == ByBelow
    requires Evaluate(c, Number(raised), Off) == On(Some(side)) && StandsBy(c, between, On(Some(side)), side)
    requires Evaluate(c, Number(cleared), Followed(c, between, On(Some(side)))) == Off
    ensures if side == ByAbove then raised - cleared > c.hysteresis else cleared - raised > c.hysteresis
  {
    assert between[..|between|] == between;
    hide Followed;
    EvaluateIs(c, Number(cleared), On(Some(side)));
  }

  // ---- as it runs ----

  /** alarm-state: the mapper-wide record of the retained alarms, which follows the echoes of a world. */
  class AlarmRecord {
    var record: Record

    constructor ()
      ensures record == map[]
    {
      record := map[];
    }

    /** An alarm message seen on the broker, empty when it clears: an echo has arrived. */
    method Seen(kind: Type, payload: string)
      modifies this
      ensures record == Noted(old(record), Message(kind, payload != ""))
      ensures forall w: World | w.record == old(record) && w.echoes != []
              && w.echoes[0] == Message(kind, payload != "") ::
                record == Step(w, Echoed).record
    {
      record := record[kind := |payload| > 0];
    }
  }

  class AlarmFlow {
    var order: seq<Type>
    var known: map<Type, Known>

    ghost function State(out: seq<Message>): Turn
      reads this
    {
      Turn(order, known, out)
    }

    constructor ()
      ensures State([]) == Turn([], map[], [])
    {
      order, known := [], map[];
    }

    method Keep(kind: Type, k: Known, ghost out: seq<Message>)
      modifies this
      ensures State(out) == Put(old(State(out)), kind, k)
    {
      if kind !in known {
        order := order + [kind];
      }
      known := known[kind := k];
    }

    method PruneAlarm(kind: Type, out: seq<Message>) returns (out': seq<Message>)
      modifies this
      ensures State(out') == Prune(old(State(out)), kind)
    {
      out' := out;
      if !(kind in known && known[kind].active == Off) {
        out' := out' + [Message(kind, false)];
      }
      Keep(kind, Known(None, Off), out');
    }

    method PruneDropped(owner: Owner, alarms: seq<Declaration>, out: seq<Message>) returns (out': seq<Message>)
      modifies this
      ensures State(out') == PruneUndeclared(old(State(out)), old(order), owner, alarms)
    {
      hide Prune;
      out' := out;
      var kinds := order;
      for i := 0 to |kinds|
        invariant PruneUndeclared(State(out'), kinds[i..], owner, alarms)
            == PruneUndeclared(old(State(out)), kinds, owner, alarms)
      {
        var kind := kinds[i];
        if kind in known && known[kind].owner == Some(owner) && !Names(alarms, kind) {
          out' := PruneAlarm(kind, out');
        }
      }
    }

    method SettleAlarm(record: Record, owner: Owner, alarm: Declaration, value: Option<Value>, out: seq<Message>)
      returns (out': seq<Message>)
      modifies this
      ensures State(out') == Settle(old(State(out)), record, owner, alarm, value)
    {
      hide Evaluate;
      out' := out;
      var kind := alarm.kind;
      if kind in known && known[kind].owner.Some? && known[kind].owner != Some(owner) { return; }
      var was := if kind in known then known[kind].active else Unknown;
      if was.Unknown? && kind in record {
        was := if record[kind] then On(None) else Off;
      }
      var active := was;
      if value.Some? {
        var holds := Evaluate(alarm.condition, value.value, was);
        if !holds.Unknown? {
          if was.Unknown? || holds.On? != was.On? {
            out' := out' + [Message(kind, holds.On?)];
          }
          active := holds;
        }
      }
      Keep(kind, Known(Some(owner), active), out');
    }

    method HandleSample(s: Sample, record: Record) returns (out: seq<Message>)
      modifies this
      ensures State(out) == OnSample(old(State([])), record, s)
    {
      hide Settle, PruneUndeclared;
      out := [];
      var alarms := AlarmsOf(s.declared, []);
      if alarms == [] && !(exists kind | kind in order :: kind in known && known[kind].owner == Some(s.owner)) {
        assert !(exists kind | kind in order :: Owns(State([]), s.owner, kind));
        return;
      }
      assert alarms != [] || exists kind | kind in order :: Owns(State([]), s.owner, kind) by {
        if alarms == [] {
          var kind :| kind in order && kind in known && known[kind].owner == Some(s.owner);
          assert Owns(State([]), s.owner, kind);
        }
      }
      if s.describes {
        out := PruneDropped(s.owner, alarms, out);
      }
      ghost var pruned := State(out);
      for i := 0 to |alarms|
        invariant SettleAll(State(out), record, s.owner, alarms[i..], s.value)
            == SettleAll(pruned, record, s.owner, alarms, s.value)
      {
        out := SettleAlarm(record, s.owner, alarms[i], s.value, out);
      }
    }

    method HandleLinkStatus(protocol: string, points: Option<seq<string>>) returns (out: seq<Message>)
      modifies this
      ensures State(out) == OnLinkStatus(old(State([])), protocol, points)
    {
      hide Prune;
      out := [];
      if points.None? { return; }
      var kinds := order;
      for i := 0 to |kinds|
        invariant PruneUnlisted(State(out), kinds[i..], protocol, points.value)
            == PruneUnlisted(old(State([])), kinds, protocol, points.value)
      {
        var kind := kinds[i];
        if kind in known && known[kind].owner.Some? && known[kind].owner.value.protocol == protocol
           && known[kind].owner.value.point !in points.value {
          out := PruneAlarm(kind, out);
        }
      }
    }
  }
}
