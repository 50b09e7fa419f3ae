/**
 * What one sample or link status does to each alarm: who owns it afterwards, what is known of it,
 * what the broker retains of it, and what was published about it.
 */
module AlarmTurns {
  import opened Common
  import opened Alarm

  /** Why a condition holds: by the first of its parts that does. */
  lemma EvaluateReason(c: Condition, v: Value, was: Active)
    ensures var equal := c.equals.Some? && v in c.equals.value && !v.Compound?;
            var differs := c.notEquals.Some? && (v !in c.notEquals.value || v.Compound?);
            var high := v.Number? && c.above.Some? &&
              (v.n > c.above.value || (v.n > c.above.value - c.hysteresis && was in {On(None), On(Some(ByAbove))}));
            var low := v.Number? && c.below.Some? &&
              (v.n < c.below.value || (v.n < c.below.value + c.hysteresis && was in {On(None), On(Some(ByBelow))}));
            var after := Evaluate(c, v, was);
            && (after == On(Some(ByEquals)) <==> equal)
            && (after == On(Some(ByNotEquals)) <==> differs && !equal)
            && (after == On(Some(ByAbove)) <==> high && !equal && !differs)
            && (after == On(Some(ByBelow)) <==> low && !equal && !differs && !high)
            && after != On(None)
  {
  }

  // ---- messages about one alarm ----

  lemma {:induction false} RetainedOf(standing: set<Type>, out: seq<Message>, kind: Type)
    ensures About(out, kind) == [] ==> (kind in Retain(standing, out) <==> kind in standing)
    decreases |out|
  {
    if out != [] {
      RetainedOf(standing, out[..|out| - 1], kind);
    }
  }

  /** What a turn leaves of an alarm, and what it has published about it so far. */
  ghost predicate SameAlarm(a: Turn, b: Turn, kind: Type) {
    && (kind in a.known <==> kind in b.known) && (kind in a.known ==> a.known[kind] == b.known[kind])
    && About(b.out, kind) == About(a.out, kind)
  }

  /** The alarm was taken down: nobody's, known to be clear, and cleared on the broker unless it was known to be. */
  ghost predicate TakenDown(a: Turn, b: Turn, kind: Type) {
    && kind in b.known && b.known[kind] == Known(None, Off)
    && About(b.out, kind) == About(a.out, kind) + if ActiveOf(a, kind) == Off then [] else [false]
  }

  lemma PruneIs(t: Turn, kind: Type, other: Type)
    ensures TakenDown(t, Prune(t, kind), kind)
    ensures other != kind ==> SameAlarm(t, Prune(t, kind), other)
  {
    AboutSnoc(t.out, Message(kind, false), kind);
    AboutSnoc(t.out, Message(kind, false), other);
    assert About(t.out, other) + [] == About(t.out, other) && About(t.out, kind) + [] == About(t.out, kind);
    hide About;
  }

  lemma SameAlarmTransitive(a: Turn, b: Turn, c: Turn, kind: Type)
    requires SameAlarm(a, b, kind) && SameAlarm(b, c, kind)
    ensures SameAlarm(a, c, kind)
  {
    hide About;
  }

  lemma TakenDownThenSame(a: Turn, b: Turn, c: Turn, kind: Type)
    requires SameAlarm(a, b, kind)
    ensures SameAlarm(b, c, kind) ==> SameAlarm(a, c, kind)
    ensures TakenDown(b, c, kind) ==> TakenDown(a, c, kind)
  {
    hide About;
  }

  lemma SameThenSame(a: Turn, b: Turn, c: Turn, kind: Type)
    requires TakenDown(a, b, kind) && SameAlarm(b, c, kind)
    ensures TakenDown(a, c, kind)
  {
    hide About;
  }

  // ---- link statuses ----

  /** The alarm belongs to a point of the protocol that is not among those listed. */
  predicate OfUnlisted(known: map<Type, Known>, kind: Type, protocol: string, listed: seq<string>) {
    kind in known && known[kind].owner.Some?
    && known[kind].owner.value.protocol == protocol && known[kind].owner.value.point !in listed
  }

  lemma {:induction false} PruneUnlistedIs(t: Turn, kinds: seq<Type>, protocol: string, listed: seq<string>, kind: Type)
    ensures var after := PruneUnlisted(t, kinds, protocol, listed);
            if kind in kinds && OfUnlisted(t.known, kind, protocol, listed) then TakenDown(t, after, kind)
            else SameAlarm(t, after, kind)
    decreases |kinds|
  {
    if kinds != [] {
      var first, rest := kinds[0], kinds[1..];
      var next := if OfUnlisted(t.known, first, protocol, listed) then Prune(t, first) else t;
      assert kind in kinds <==> kind == first || kind in rest;
      PruneIs(t, first, kind);
      PruneUnlistedIs(next, rest, protocol, listed, kind);
      hide About, Prune;
      var after := PruneUnlisted(t, kinds, protocol, listed);
      assert after == PruneUnlisted(next, rest, protocol, listed);
      if SameAlarm(t, next, kind) {
        TakenDownThenSame(t, next, after, kind);
      } else {
        SameThenSame(t, next, after, kind);
      }
    }
  }

  /**
   * A link status with a list takes down exactly the alarms owned by points of its protocol outside the list:
   * they are nobody's, known to be clear and not standing. Every other alarm is as it was, and without a list
   * all of them are.
   */
  lemma LinkStatusExactly(w: World, protocol: string, points: Option<seq<string>>, kind: Type)
    requires forall k :: InStep(w, k)
    ensures var after := Step(w, Linked(protocol, points));
            var gone := points.Some? && OfUnlisted(w.known, kind, protocol, points.value);
            if gone then
              && kind in after.known && after.known[kind] == Known(None, Off) && kind !in after.standing
              && About(after.log, kind) == About(w.log, kind) + if w.known[kind].active == Off then [] else [false]
            else
              && (kind in after.known <==> kind in w.known)
              && (kind in w.known ==> after.known[kind] == w.known[kind])
              && (kind in after.standing <==> kind in w.standing)
              && About(after.log, kind) == About(w.log, kind)
  {
    var t := OnLinkStatus(Begin(w), protocol, points);
    assert InStep(w, kind);
    if points.Some? {
      PruneUnlistedIs(Begin(w), w.order, protocol, points.value, kind);
    }
    StepInStep(w, Linked(protocol, points));
    TurnPublished(w, t, kind);
    hide OnLinkStatus, PruneUnlisted, About, Retain, Alternates;
    assert InStep(Step(w, Linked(protocol, points)), kind);
  }

  /** A turn on the broker, for one alarm. */
  lemma TurnPublished(w: World, t: Turn, kind: Type)
    ensures var after := Publish(w, t);
            && after.known == t.known && About(after.log, kind) == About(w.log, kind) + About(t.out, kind)
            && (About(t.out, kind) == [] ==> (kind in after.standing <==> kind in w.standing))
    ensures About(Begin(w).out, kind) == []
  {
    RetainedOf(w.standing, t.out, kind);
    AboutConcat(w.log, t.out, kind);
  }

  lemma {:induction false} AboutConcat(a: seq<Message>, b: seq<Message>, kind: Type)
    ensures About(a + b, kind) == About(a, kind) + About(b, kind)
    decreases |b|
  {
    if b == [] {
      assert a + b == a;
    } else {
      assert (a + b)[..|a + b| - 1] == a + b[..|b| - 1];
      AboutConcat(a, b[..|b| - 1], kind);
    }
  }

  // ---- samples ----

  /** The first declaration of the type has this condition. */
  ghost predicate FirstDeclared(declared: seq<Declaration>, kind: Type, c: Condition) {
    exists i | 0 <= i < |declared| ::
      declared[i] == Declaration(kind, c) && forall j | 0 <= j < i :: declared[j].kind != kind
  }

  ghost predicate NoRepeats(alarms: seq<Declaration>) {
    forall i, j | 0 <= i < j < |alarms| :: alarms[i].kind != alarms[j].kind
  }

  lemma FirstDeclaredHead(declared: seq<Declaration>, kind: Type, c: Condition)
    requires declared != []
    ensures FirstDeclared(declared, kind, c) <==>
            if declared[0].kind == kind then declared[0].condition == c else FirstDeclared(declared[1..], kind, c)
  {
    var rest := declared[1..];
    if declared[0].kind != kind && FirstDeclared(rest, kind, c) {
      var i :| 0 <= i < |rest| && rest[i] == Declaration(kind, c) && forall j | 0 <= j < i :: rest[j].kind != kind;
      assert declared[i + 1] == rest[i] && forall j | 0 < j < i + 1 :: declared[j] == rest[j - 1];
    }
    if FirstDeclared(declared, kind, c) {
      var i :| 0 <= i < |declared| && declared[i] == Declaration(kind, c)
          && forall j | 0 <= j < i :: declared[j].kind != kind;
      if i > 0 {
        assert rest[i - 1] == declared[i] && forall j | 0 <= j < i - 1 :: rest[j] == declared[j + 1];
      }
    }
    assert declared[0] == Declaration(kind, c) ==> FirstDeclared(declared, kind, c);
  }

  lemma {:induction false} AlarmsOfIs(declared: seq<Declaration>, out: seq<Declaration>, kind: Type, c: Condition)
    requires NoRepeats(out)
    ensures NoRepeats(AlarmsOf(declared, out))
    ensures Declaration(kind, c) in AlarmsOf(declared, out) <==>
            Declaration(kind, c) in out || (!Names(out, kind) && FirstDeclared(declared, kind, c))
    decreases |declared|
  {
    if declared != [] {
      hide FirstDeclared;
      var d := declared[0];
      var next := if Names(out, d.kind) then out else out + [d];
      FirstDeclaredHead(declared, kind, c);
      assert forall a :: a in next <==> a in out || (a == d && !Names(out, d.kind));
      AlarmsOfIs(declared[1..], next, kind, c);
      assert Names(next, kind) <==> Names(out, kind) || d.kind == kind by { assert d in next || Names(out, d.kind); }
    } else {
      assert !FirstDeclared([], kind, c);
    }
  }

  /** Another point owns the alarm. */
  predicate Foreign(known: map<Type, Known>, owner: Owner, kind: Type) {
    kind in known && known[kind].owner.Some? && known[kind].owner != Some(owner)
  }

  /** What the flow knows of an alarm, or else what the record has seen retained. */
  function Believed(known: map<Type, Known>, record: Record, kind: Type): Active {
    if kind in known && !known[kind].active.Unknown? then known[kind].active
    else if kind !in record then Unknown
    else if record[kind] then On(None) else Off
  }

  /**
   * The point owns the alarm. Without a reading it is what it was believed to be; a reading leaves it open
   * only in a band nothing is known about, and else settles it, which is published when it is a change.
   */
  ghost predicate SettledAs(a: Turn, b: Turn, record: Record, owner: Owner, c: Condition, value: Option<Value>,
      kind: Type) {
    && kind in b.known && b.known[kind].owner == Some(owner)
    && var was, active := Believed(a.known, record, kind), b.known[kind].active;
       if value.None? || (!Beyond(c, value.value) && was.Unknown? && Banded(c, value.value, was)) then
         active == was && About(b.out, kind) == About(a.out, kind)
       else
         var holds := Beyond(c, value.value) || (was.On? && Banded(c, value.value, was));
         && active == Evaluate(c, value.value, was) && !active.Unknown? && (active.On? <==> holds)
         && About(b.out, kind) == About(a.out, kind) + if was.Unknown? || was.On? != holds then [holds] else []
  }

  lemma SettleIs(t: Turn, record: Record, owner: Owner, alarm: Declaration, value: Option<Value>, kind: Type)
    ensures var after := Settle(t, record, owner, alarm, value);
            if kind == alarm.kind && !Foreign(t.known, owner, kind)
            then SettledAs(t, after, record, owner, alarm.condition, value, kind)
            else SameAlarm(t, after, kind)
  {
    hide Evaluate, Beyond, Banded, Was, Believed, Put, About;
    var was, after := Was(t, record, alarm.kind), Settle(t, record, owner, alarm, value);
    WasBelieved(t, record, alarm.kind);
    assert About(t.out, kind) + [] == About(t.out, kind);
    if Foreign(t.known, owner, alarm.kind) {
      assert after == t;
    } else {
      var holds := if value.Some? then Evaluate(alarm.condition, value.value, was) else Unknown;
      var says := !holds.Unknown? && (was.Unknown? || holds.On? != was.On?);
      var known := Known(Some(owner), if holds.Unknown? then was else holds);
      var published := if says then t.(out := t.out + [Message(alarm.kind, holds.On?)]) else t;
      assert after == Put(published, alarm.kind, known);
      PutIs(published, alarm.kind, known, kind);
      AboutSnoc(t.out, Message(alarm.kind, holds.On?), kind);
      if value.Some? {
        EvaluateIs(alarm.condition, value.value, was);
      }
    }
  }

  lemma WasBelieved(t: Turn, record: Record, kind: Type)
    ensures Was(t, record, kind) == Believed(t.known, record, kind)
  {
  }

  lemma PutIs(t: Turn, kind: Type, known: Known, other: Type)
    ensures var after := Put(t, kind, known);
            && after.out == t.out && kind in after.known && after.known[kind] == known
            && (other != kind ==>
                  && (other in after.known <==> other in t.known)
                  && (other in t.known ==> after.known[other] == t.known[other]))
  {
  }

  lemma SettledThenSame(a: Turn, b: Turn, d: Turn, record: Record, owner: Owner, c: Condition, value: Option<Value>,
      kind: Type)
    ensures SettledAs(a, b, record, owner, c, value, kind) && SameAlarm(b, d, kind)
        ==> SettledAs(a, d, record, owner, c, value, kind)
    ensures SameAlarm(a, b, kind) && SettledAs(b, d, record, owner, c, value, kind)
        ==> SettledAs(a, d, record, owner, c, value, kind)
  {
    hide About, Evaluate, Beyond, Banded;
  }

  lemma {:induction false} SettleAllIs(t: Turn, record: Record, owner: Owner, alarms: seq<Declaration>,
      value: Option<Value>, kind: Type, c: Condition)
    requires NoRepeats(alarms)
    ensures var after := SettleAll(t, record, owner, alarms, value);
            && (!Names(alarms, kind) || Foreign(t.known, owner, kind) ==> SameAlarm(t, after, kind))
            && (Declaration(kind, c) in alarms && !Foreign(t.known, owner, kind) ==>
                  SettledAs(t, after, record, owner, c, value, kind))
    decreases |alarms|
  {
    if alarms != [] {
      var first, rest := alarms[0], alarms[1..];
      var next, after := Settle(t, record, owner, first, value), SettleAll(t, record, owner, alarms, value);
      assert forall a :: a in alarms <==> a == first || a in rest;
      SettleIs(t, record, owner, first, value, kind);
      hide About, Settle, SettledAs;
      SettleAllIs(next, record, owner, rest, value, kind, c);
      assert after == SettleAll(next, record, owner, rest, value);
      SettledThenSame(t, next, after, record, owner, c, value, kind);
      if first.kind == kind {
        OnlyOnce(alarms, kind);
      }
      if SameAlarm(t, next, kind) && SameAlarm(next, after, kind) {
        SameAlarmTransitive(t, next, after, kind);
      }
    }
  }

  lemma OnlyOnce(alarms: seq<Declaration>, kind: Type)
    requires NoRepeats(alarms) && alarms != [] && alarms[0].kind == kind
    ensures !Names(alarms[1..], kind)
  {
    forall a | a in alarms[1..]
      ensures a.kind != kind
    {
      var i :| 0 <= i < |alarms| - 1 && alarms[1..][i] == a;
      assert alarms[i + 1] == a;
    }
  }

  lemma {:induction false} PruneUndeclaredIs(t: Turn, kinds: seq<Type>, owner: Owner, alarms: seq<Declaration>,
      kind: Type)
    ensures var after := PruneUndeclared(t, kinds, owner, alarms);
            if kind in kinds && Owns(t, owner, kind) && !Names(alarms, kind) then TakenDown(t, after, kind)
            else SameAlarm(t, after, kind)
    decreases |kinds|
  {
    if kinds != [] {
      var first, rest := kinds[0], kinds[1..];
      var next := if Owns(t, owner, first) && !Names(alarms, first) then Prune(t, first) else t;
      assert kind in kinds <==> kind == first || kind in rest;
      PruneIs(t, first, kind);
      PruneUndeclaredIs(next, rest, owner, alarms, kind);
      hide About, Prune;
      var after := PruneUndeclared(t, kinds, owner, alarms);
      assert after == PruneUndeclared(next, rest, owner, alarms);
      if SameAlarm(t, next, kind) {
        TakenDownThenSame(t, next, after, kind);
      } else {
        SameThenSame(t, next, after, kind);
      }
    }
  }

  /** The alarms a sample's point takes down: those it owns and, describing itself, declares no more. */
  ghost predicate GivenUp(w: World, s: Sample, kind: Type) {
    && s.describes && kind in w.known && w.known[kind].owner == Some(s.owner)
    && forall c :: !FirstDeclared(s.declared, kind, c)
  }

  /** The turn a sample makes, for one alarm. */
  lemma SampleTurnIs(w: World, s: Sample, kind: Type, c: Condition)
    requires kind in w.known <==> kind in w.order
    ensures var t, after := Begin(w), OnSample(Begin(w), w.record, s);
            if FirstDeclared(s.declared, kind, c) && !Foreign(w.known, s.owner, kind) then
              SettledAs(t, after, w.record, s.owner, c, s.value, kind)
            else if GivenUp(w, s, kind) then TakenDown(t, after, kind)
            else Foreign(w.known, s.owner, kind) || (forall d :: !FirstDeclared(s.declared, kind, d)) ==>
              SameAlarm(t, after, kind)
  {
    var t, after, alarms := Begin(w), OnSample(Begin(w), w.record, s), AlarmsOf(s.declared, []);
    forall d
      ensures NoRepeats(alarms) && (Declaration(kind, d) in alarms <==> FirstDeclared(s.declared, kind, d))
    {
      AlarmsOfIs(s.declared, [], kind, d);
    }
    AlarmsOfIs(s.declared, [], kind, c);
    assert Names(alarms, kind) <==> exists d :: FirstDeclared(s.declared, kind, d) by {
      if Names(alarms, kind) {
        var a :| a in alarms && a.kind == kind;
        assert a == Declaration(kind, a.condition);
      }
    }
    hide About, FirstDeclared, AlarmsOf, SettledAs, SettleAll, PruneUndeclared, NoRepeats, Names;
    if alarms == [] && !(exists k | k in t.order :: Owns(t, s.owner, k)) {
      assert after == t && Declaration(kind, c) !in alarms;
    } else {
      var pruned := if s.describes then PruneUndeclared(t, t.order, s.owner, alarms) else t;
      assert after == SettleAll(pruned, w.record, s.owner, alarms, s.value);
      PruneUndeclaredIs(t, t.order, s.owner, alarms, kind);
      SettleAllIs(pruned, w.record, s.owner, alarms, s.value, kind, c);
      SettledThenSame(t, pruned, after, w.record, s.owner, c, s.value, kind);
      if SameAlarm(t, pruned, kind) {
        TakenDownThenSame(t, pruned, after, kind);
      } else if SameAlarm(pruned, after, kind) {
        SameThenSame(t, pruned, after, kind);
      }
    }
  }

  /** What the flow knows and has published since it started. */
  function SoFar(w: World): Turn {
    Turn(w.order, w.known, w.log)
  }

  lemma SettledSoFar(w: World, t: Turn, s: Sample, c: Condition, kind: Type)
    requires SettledAs(Begin(w), t, w.record, s.owner, c, s.value, kind)
    ensures SettledAs(SoFar(w), SoFar(Publish(w, t)), w.record, s.owner, c, s.value, kind)
  {
    TurnPublished(w, t, kind);
    hide Evaluate, Beyond, Banded, About, Retain;
    assert About(w.log, kind) + [] == About(w.log, kind);
    assert forall x: seq<bool> :: [] + x == x;
  }

  /** The alarm is what it was before the turn, on the broker and to the flow, and nothing was published about it. */
  ghost predicate Unchanged(w: World, after: World, kind: Type) {
    && (kind in after.known <==> kind in w.known) && (kind in w.known ==> after.known[kind] == w.known[kind])
    && (kind in after.standing <==> kind in w.standing) && About(after.log, kind) == About(w.log, kind)
  }

  /**
   * After a sample, for every alarm. One that another point owns is as it was. One that the sample declares
   * otherwise is its point's: by its first declaration's condition a reading settles it, except in a band
   * nothing is known about, and it stands exactly if it is known to hold. One that a describing sample's
   * point owned and declares no more is nobody's, clear and not standing. Any other is as it was.
   */
  lemma SampleExactly(w: World, s: Sample, kind: Type, c: Condition)
    requires forall k :: InStep(w, k)
    ensures var after := Step(w, Sampled(s));
            if Foreign(w.known, s.owner, kind) then Unchanged(w, after, kind)
            else if FirstDeclared(s.declared, kind, c) then
              && SettledAs(SoFar(w), SoFar(after), w.record, s.owner, c, s.value, kind)
              && (kind in after.standing <==> after.known[kind].active.On?)
            else if GivenUp(w, s, kind) then
              kind in after.known && after.known[kind] == Known(None, Off) && kind !in after.standing
            else (forall d :: !FirstDeclared(s.declared, kind, d)) ==> Unchanged(w, after, kind)
  {
    var t := OnSample(Begin(w), w.record, s);
    assert InStep(w, kind);
    SampleTurnIs(w, s, kind, c);
    StepInStep(w, Sampled(s));
    TurnPublished(w, t, kind);
    assert About(w.log, kind) + [] == About(w.log, kind);
    if FirstDeclared(s.declared, kind, c) && !Foreign(w.known, s.owner, kind) {
      SettledSoFar(w, t, s, c, kind);
    }
    hide OnSample, About, Retain, Alternates, FirstDeclared, Evaluate, Beyond, Banded;
    assert InStep(Step(w, Sampled(s)), kind);
  }

  // ---- the record catches up ----

  /** As many deliveries. */
  function Deliveries(n: nat): seq<Event> {
    seq(n, _ => Echoed)
  }

  lemma {:induction false} DeliveriesArrive(w: World)
    ensures var after := Run(w, Deliveries(|w.echoes|));
            && after.echoes == [] && after.record == NotedAll(w.record, w.echoes)
            && after.standing == w.standing && after.known == w.known && after.log == w.log
    decreases |w.echoes|
  {
    if w.echoes != [] {
      var events := Deliveries(|w.echoes|);
      assert events[1..] == Deliveries(|w.echoes| - 1);
      DeliveriesArrive(Step(w, Echoed));
      NotedFirst(w.record, w.echoes);
    }
  }

  /**
   * After any run, once the broker has delivered what is on its way, the record says exactly which alarms stand,
   * and nothing else has changed.
   */
  lemma RecordCatchesUpInTime(standing: set<Type>, events: seq<Event>, kind: Type)
    ensures var w := Run(Started(standing), events);
            var after := Run(w, Deliveries(|w.echoes|));
            && after.echoes == [] && after.standing == w.standing && after.known == w.known && after.log == w.log
            && (kind in w.standing <==> kind in after.record && after.record[kind])
  {
    hide Run;
    RecordCatchesUp(standing, events, kind);
    DeliveriesArrive(Run(Started(standing), events));
  }
}
