/**
 * When the reporting policy publishes: what an offered reading becomes, what time alone releases, and
 * how the clock of a replay relates to the live one. Everything is stated of whole events.
 */
module ReportRules {
  import opened Common
  import opened Report

  // ---- changes ----

  /**
   * Two numbers differ by the deadband: more than rounding without one, at least its size for an absolute
   * one, at least so many hundredths of the base for a percentage, and by anything from zero. Any other two
   * observations differ unless they are the same.
   */
  lemma ChangedIs(p: Policy, obs: Obs, base: Obs)
    ensures Changed(p, obs, base) <==>
            if !(obs.Number? && base.Number?) then obs != base
            else
              var a, b := obs.value, base.value;
              match p.deadband
              case None => a - b > EPSILON || b - a > EPSILON
              case Some(Absolute(d)) => a >= b + d || a <= b - d
              case Some(Percent(d)) =>
                if b == 0.0 then a != 0.0
                else
                  var size := if b > 0.0 then b else -b;
                  100.0 * (a - b) >= d * size || 100.0 * (b - a) >= d * size
  {
    if obs.Number? && base.Number? && p.deadband.Some? && p.deadband.value.Percent? {
      var size := if base.value > 0.0 then base.value else -base.value;
      assert p.deadband.value.value / 100.0 * size == p.deadband.value.value * size / 100.0;
    }
  }

  // ---- the conditions, off source time ----

  /** The time since the last publication, or since the start. */
  function Elapsed(s: State, now: real): real {
    now - if s.lastPublished.Some? then s.lastPublished.value else s.origin
  }

  /** The rate limit is running. */
  predicate Limited(p: Policy, s: State, now: real) {
    p.minInterval.Some? && Elapsed(s, now) < p.minInterval.value
  }

  /** The reading is worth publishing after the last one. */
  predicate News(p: Policy, s: State, item: Reading) {
    s.last.Some? && ((!p.onChange && p.deadband.None? && p.debounce.None?) || Changed(p, item.obs, s.last.value.obs))
  }

  /** The debouncing reading has been stable for long enough. */
  predicate Settled(p: Policy, s: State, now: real) {
    p.debounce.Some? && s.candidate.Some? && now - s.candidate.value.since >= p.debounce.value
  }

  /** Published whatever the filters say: the first reading, another quality, or the heartbeat. */
  predicate Forced(p: Policy, s: State, item: Reading, now: real) {
    || s.last.None? || s.last.value.quality != item.quality
    || (p.maxInterval.Some? && Elapsed(s, now) >= p.maxInterval.value)
  }

  /** The reading agrees with the debouncing one, which has settled by now. */
  predicate Confirms(p: Policy, s: State, item: Reading, now: real) {
    Settled(p, s, now) && !Changed(p, item.obs, s.candidate.value.first)
  }

  // ---- an offered reading ----

  /**
   * An offered reading is published if and only if it is forced, or is news that is not debounced (any more)
   * while no rate limit runs. It is held exactly if the rate limit is all that stops it, and debounces exactly
   * if it is news that has not settled. In any other case it is no news.
   */
  lemma OfferExactly(p: Policy, s: State, item: Reading, now: real)
    requires Proper(p) && s.replayLastOffer.None?
    requires (s.pending.Some? ==> s.pending.value != item)
             && (s.candidate.Some? ==> s.candidate.value.latest != item)
    ensures var e := Step(p, s, Offer(item, now));
            var forced, passed := Forced(p, s, item, now), p.debounce.None? || Confirms(p, s, item, now);
            var news := News(p, s, item);
            var debouncing := e.state.candidate.Some? && e.state.candidate.value.latest == item;
            && (e.out == [item] <==> forced || (news && passed && !Limited(p, s, now)))
            && (e.out == [] || e.out == [item])
            && (e.state.pending == Some(item) <==>
                  !forced && Limited(p, s, now) && passed && (p.debounce.Some? ==> news))
            && (debouncing <==> !forced && news && !passed)
            && (e.out == [item] ==> e.state == Published(s, item, now))
  {
    hide Changed;
  }

  /** The state of a point right after a publication: nothing waits. */
  function Published(s: State, item: Reading, now: real): State {
    s.(last := Some(Last(item.obs, item.quality)), lastPublished := Some(now), pending := None, candidate := None)
  }

  /**
   * A debouncing reading counts its time from the first reading it agrees with: one that agrees takes its
   * place without restarting it, one that does not starts again, and one that is back at the last published
   * value ends it, with whatever was held.
   */
  lemma DebounceExactly(p: Policy, s: State, item: Reading, now: real)
    requires Proper(p) && s.replayLastOffer.None? && p.debounce.Some? && !Forced(p, s, item, now)
    ensures var e := Step(p, s, Offer(item, now));
            var agrees := s.candidate.Some? && !Changed(p, item.obs, s.candidate.value.first);
            if !News(p, s, item) then e == Effect(s.(candidate := None, pending := None), [])
            else if Confirms(p, s, item, now) then e.state.candidate.None?
            else e == Effect(s.(candidate := Some(
                if agrees then Candidate(s.candidate.value.first, s.candidate.value.since, item)
                else Candidate(item.obs, now, item))), [])
  {
    hide Changed;
  }

  // ---- time ----

  /** A reading waits for the rate limit, which has ended. */
  predicate Overdue(p: Policy, s: State, now: real) {
    p.minInterval.Some? && s.pending.Some? && !Limited(p, s, now)
  }

  /**
   * What time alone does off source time. A reading whose rate limit has ended is published if it is still
   * news, and held no longer. A debouncing one that has settled debounces no longer: unless the other was
   * published it is published if it is news, or held when the rate limit runs. Nothing else happens.
   */
  lemma PassExactly(p: Policy, s: State, now: real, pushed: bool)
    requires Proper(p) && s.replayLastOffer.None? && SameQuality(s)
    ensures var e := Step(p, s, Due(now, pushed));
            var heldNews := Overdue(p, s, now) && News(p, s, s.pending.value);
            && e.state.(lastRead := s.lastRead) ==
                 (if heldNews then Published(s, s.pending.value, now)
                  else if Settled(p, s, now) then
                    var latest := s.candidate.value.latest;
                    if Limited(p, s, now) then s.(candidate := None, pending := Some(latest))
                    else if News(p, s, latest) then Published(s, latest, now)
                    else s.(candidate := None, pending := if p.minInterval.Some? then None else s.pending)
                  else s.(pending := if Overdue(p, s, now) then None else s.pending))
            && e.out == (if heldNews then [s.pending.value]
                         else if Settled(p, s, now) && !Limited(p, s, now) && News(p, s, s.candidate.value.latest)
                         then [s.candidate.value.latest] else [])
  {
    hide Changed;
  }

  /**
   * A settled change is out: a pass at or after the end of its debounce leaves it published, or held while the
   * rate limit runs, or no change from the last publication; it never debounces on.
   */
  lemma SettledIsReleased(p: Policy, s: State, now: real, pushed: bool)
    requires Proper(p) && s.replayLastOffer.None? && SameQuality(s) && Settled(p, s, now) && s.pending.None?
    ensures var e, latest := Step(p, s, Due(now, pushed)), s.candidate.value.latest;
            && e.state.candidate.None?
            && (Limited(p, s, now) ==> e.out == [] && e.state.pending == Some(latest))
            && (!Limited(p, s, now) ==>
                  e.out == (if Changed(p, latest.obs, s.last.value.obs) then [latest] else []) && e.state.pending.None?)
  {
    hide Changed, Release;
    PassExactly(p, s, now, pushed);
  }

  /** A pass asks for a heartbeat read exactly if neither a publication nor a read is recent enough, off source time. */
  lemma ReadAskedExactly(p: Policy, s: State, now: real, pushed: bool)
    requires Proper(p)
    ensures var after := Step(p, s, Due(now, pushed)).state;
            && (ReadAsked(p, s, now, pushed) <==>
                  && p.maxInterval.Some? && pushed && !s.unreadable && after.replayLastOffer.None?
                  && Elapsed(after, now) >= p.maxInterval.value
                  && now - (if s.lastRead.Some? then s.lastRead.value else s.origin) >= p.maxInterval.value)
            && after.lastRead == (if ReadAsked(p, s, now, pushed) then Some(now) else s.lastRead)
  {
    hide Release;
    ReleaseLeaves(p, if s.replayLastOffer.Some? then HandOver(s, now) else s, now);
  }

  lemma ReleaseLeaves(p: Policy, s: State, now: real)
    ensures var after := Release(p, s, now).state;
            && after.lastRead == s.lastRead && after.origin == s.origin && after.unreadable == s.unreadable
            && after.replayLastOffer == s.replayLastOffer && after.lastPublishedSrc == s.lastPublishedSrc
  {
    hide Changed, FiltersChanges, SincePublished;
  }

  // ---- source time ----

  /** The same point on the runtime clock. */
  function OffSource(s: State): State {
    s.(replayLastOffer := None)
  }

  /**
   * On source time a replayed reading does what a pass and then an offer at its source time would do: what is
   * due by then is released first.
   */
  lemma ReplayIsLive(p: Policy, s: State, item: Reading, src: real, now: real)
    requires s.replayLastOffer.Some?
    ensures var due := Step(p, OffSource(s), Due(src, false));
            var offer := Step(p, due.state, Offer(item, src));
            var e := Step(p, s, Replay(item, src, now));
            && e.out == due.out + offer.out
            && e.state == offer.state.(replayLastOffer := Some(now), lastPublishedSrc :=
                 if offer.state.lastPublished.Some? then offer.state.lastPublished else s.lastPublishedSrc)
  {
    hide Release, OfferAt;
    var entered := s.(replayLastOffer := Some(now));
    ReleaseAside(p, entered, OffSource(s), src);
    ReleaseLeaves(p, OffSource(s), src);
    ReleaseLeaves(p, entered, src);
    OfferAside(p, Release(p, entered, src).state, Release(p, OffSource(s), src).state, item, src);
    OfferLeaves(p, Release(p, entered, src).state, item, src);
  }

  lemma OfferLeaves(p: Policy, s: State, item: Reading, now: real)
    ensures var after := OfferAt(p, s, item, now).state;
            after.replayLastOffer == s.replayLastOffer && after.lastPublishedSrc == s.lastPublishedSrc
  {
    hide Changed, FiltersChanges, SincePublished;
  }

  lemma ReleaseAside(p: Policy, a: State, b: State, now: real)
    requires b == a.(replayLastOffer := b.replayLastOffer)
    ensures Release(p, b, now).out == Release(p, a, now).out
    ensures Release(p, b, now).state == Release(p, a, now).state.(replayLastOffer := b.replayLastOffer)
  {
    hide Changed;
  }

  lemma OfferAside(p: Policy, a: State, b: State, item: Reading, now: real)
    requires b == a.(replayLastOffer := b.replayLastOffer)
    ensures OfferAt(p, b, item, now).out == OfferAt(p, a, item, now).out
    ensures OfferAt(p, b, item, now).state == OfferAt(p, a, item, now).state.(replayLastOffer := b.replayLastOffer)
  {
    hide Changed;
  }

  /** On source time the clock of the last publication is the one a replay resumes from. */
  ghost predicate SourceClock(s: State) {
    s.replayLastOffer.Some? ==> s.lastPublished == s.lastPublishedSrc
  }

  lemma StepKeepsSourceClock(p: Policy, s: State, e: Event)
    requires SourceClock(s)
    ensures SourceClock(Step(p, s, e).state)
  {
    hide Release, OfferAt;
    match e
    case Offer(item, now) => OfferLeaves(p, if s.replayLastOffer.Some? then HandOver(s, now) else s, item, now);
    case Replay(item, src, now) =>
      var released := Release(p, OnSourceTime(s, src, now), src).state;
      ReleaseLeaves(p, OnSourceTime(s, src, now), src);
      OfferLeaves(p, released, item, src);
      SourceStays(p, s, item, src, now);
    case Due(now, _) => ReleaseLeaves(p, if s.replayLastOffer.Some? then HandOver(s, now) else s, now);
    case _ =>
  }

  /** A point without a publication on the clock in use has none on either before its first replayed one. */
  lemma SourceStays(p: Policy, s: State, item: Reading, src: real, now: real)
    requires SourceClock(s)
    ensures var entered := OnSourceTime(s, src, now);
            var offered := OfferAt(p, Release(p, entered, src).state, item, src).state;
            entered.lastPublished == s.lastPublishedSrc
            && (offered.lastPublished.None? ==> offered.lastPublishedSrc.None?)
  {
    hide Changed, FiltersChanges, SincePublished;
  }

  /** When a pass finds the point on source time: idle for long enough, or not. */
  predicate Idle(s: State, now: real) {
    s.replayLastOffer.Some? && now - s.replayLastOffer.value >= 2000.0
  }

  /**
   * A pass leaves a point on source time alone until the replay has been idle for two seconds. The pass that
   * ends it publishes nothing: whatever was held or debouncing waits again, its full time from now on.
   */
  lemma EndedReplayWaits(p: Policy, s: State, now: real, pushed: bool)
    requires Proper(p) && s.replayLastOffer.Some?
    ensures var e := Step(p, s, Due(now, pushed));
            && (!Idle(s, now) ==> e == Effect(s, []))
            && (Idle(s, now) && s.lastPublished.Some? ==>
                  && e.out == [] && e.state.replayLastOffer.None?
                  && e.state.lastPublished == Some(now) && e.state.lastPublishedSrc == s.lastPublished
                  && e.state.last == s.last && e.state.pending == s.pending
                  && e.state.candidate == if s.candidate.None? then None
                       else Some(s.candidate.value.(since := now)))
  {
    hide Changed;
  }

  /** A live reading ends a replay the same way, and is offered like any other. */
  lemma LiveOfferEndsReplay(p: Policy, s: State, item: Reading, now: real)
    requires s.replayLastOffer.Some? && s.lastPublished.Some?
    ensures var resumed := OffSource(s).(lastPublished := Some(now), lastPublishedSrc := s.lastPublished,
              candidate := if s.candidate.None? then None else Some(s.candidate.value.(since := now)));
            Step(p, s, Offer(item, now)) == Step(p, resumed, Offer(item, now))
  {
    hide OfferAt;
  }

  /** A replay that goes on after an idle pass goes on where it was, unless something was debouncing. */
  lemma InterludeIsForgotten(p: Policy, s: State, item: Reading, src: real, now: real, later: real)
    requires Proper(p) && s.replayLastOffer.Some? && SourceClock(s) && s.lastPublished.Some? && s.candidate.None?
             && Idle(s, now)
    ensures Step(p, Step(p, s, Due(now, false)).state, Replay(item, src, later)) == Step(p, s, Replay(item, src, later))
  {
    EndedReplayWaits(p, s, now, false);
    hide OfferAt, Release, Changed;
    IdlePassIs(p, s, now);
    var passed := Step(p, s, Due(now, false)).state;
    assert OnSourceTime(passed, src, later) == OnSourceTime(s, src, later);
  }

  lemma IdlePassIs(p: Policy, s: State, now: real)
    requires Proper(p) && s.replayLastOffer.Some? && s.lastPublished.Some? && s.candidate.None? && Idle(s, now)
    ensures Step(p, s, Due(now, false)).state
         == OffSource(s).(lastPublished := Some(now), lastPublishedSrc := s.lastPublished)
  {
    hide Changed;
  }

  // ---- a whole replay ----

  datatype Replayed = Replayed(item: Reading, src: real, now: real)

  function Replaying(readings: seq<Replayed>): (events: seq<Event>)
    ensures |events| == |readings|
    ensures forall i | 0 <= i < |events| :: events[i] == Replay(readings[i].item, readings[i].src, readings[i].now)
  {
    seq(|readings|, i requires 0 <= i < |readings| => Replay(readings[i].item, readings[i].src, readings[i].now))
  }

  /** Everything a run publishes, in order. */
  function Outs(p: Policy, s: State, events: seq<Event>): seq<Reading>
    decreases |events|
  {
    if events == [] then [] else Step(p, s, events[0]).out + Outs(p, Step(p, s, events[0]).state, events[1..])
  }

  /** The readings offered live at their source times, each after a pass. */
  function AsLive(readings: seq<Replayed>): seq<Event> {
    if readings == [] then []
    else [Due(readings[0].src, false), Offer(readings[0].item, readings[0].src)] + AsLive(readings[1..])
  }

  /**
   * A replay publishes exactly what the same readings would have published live at their source times: the
   * intervals are measured on source time, whatever the runtime clock shows.
   */
  lemma {:induction false} ReplayPublishesAsLive(p: Policy, s: State, live: State, readings: seq<Replayed>)
    requires SourceClock(s) && s.replayLastOffer.Some?
    requires live == OffSource(s).(lastPublishedSrc := live.lastPublishedSrc)
    ensures Outs(p, s, Replaying(readings)) == Outs(p, live, AsLive(readings))
    decreases |readings|
  {
    if readings != [] {
      hide Step, Outs, Replaying, AsLive, OffSource, SourceClock;
      var r, rest := readings[0], readings[1..];
      var due := Step(p, live, Due(r.src, false));
      var offer := Step(p, due.state, Offer(r.item, r.src));
      var e := Step(p, s, Replay(r.item, r.src, r.now));
      LiveSteps(p, s, live, r);
      StepKeepsSourceClock(p, s, Replay(r.item, r.src, r.now));
      ReplayPublishesAsLive(p, e.state, offer.state, rest);
      FirstReplayed(p, s, readings);
      FirstLive(p, live, readings);
    }
  }

  lemma FirstReplayed(p: Policy, s: State, readings: seq<Replayed>)
    requires readings != []
    ensures var e := Step(p, s, Replay(readings[0].item, readings[0].src, readings[0].now));
            Outs(p, s, Replaying(readings)) == e.out + Outs(p, e.state, Replaying(readings[1..]))
  {
    hide Step;
    assert Replaying(readings)[1..] == Replaying(readings[1..]);
  }

  lemma FirstLive(p: Policy, s: State, readings: seq<Replayed>)
    requires readings != []
    ensures var due := Step(p, s, Due(readings[0].src, false));
            var offer := Step(p, due.state, Offer(readings[0].item, readings[0].src));
            Outs(p, s, AsLive(readings)) == due.out + (offer.out + Outs(p, offer.state, AsLive(readings[1..])))
  {
    hide Step;
    var due := Step(p, s, Due(readings[0].src, false));
    assert AsLive(readings)[1..] == [Offer(readings[0].item, readings[0].src)] + AsLive(readings[1..]);
    assert AsLive(readings)[1..][1..] == AsLive(readings[1..]);
  }

  lemma LiveSteps(p: Policy, s: State, live: State, r: Replayed)
    requires s.replayLastOffer.Some? && live == OffSource(s).(lastPublishedSrc := live.lastPublishedSrc)
    ensures var due := Step(p, live, Due(r.src, false));
            var offer := Step(p, due.state, Offer(r.item, r.src));
            var e := Step(p, s, Replay(r.item, r.src, r.now));
            && e.out == due.out + offer.out && e.state.replayLastOffer.Some?
            && offer.state == OffSource(e.state).(lastPublishedSrc := offer.state.lastPublishedSrc)
  {
    hide Step;
    ReplayIsLive(p, s, r.item, r.src, r.now);
    SrcAsideDue(p, OffSource(s), live, r.src);
    SrcAsideOffer(p, Step(p, OffSource(s), Due(r.src, false)).state, Step(p, live, Due(r.src, false)).state, r.item,
      r.src);
  }

  /** Off source time nothing looks at where a replay would resume. */
  lemma SrcAsideDue(p: Policy, a: State, b: State, now: real)
    requires a.replayLastOffer.None? && b == a.(lastPublishedSrc := b.lastPublishedSrc)
    ensures var x, y := Step(p, a, Due(now, false)), Step(p, b, Due(now, false));
            x.out == y.out && y.state == x.state.(lastPublishedSrc := b.lastPublishedSrc)
            && x.state.replayLastOffer.None?
  {
    hide Changed;
  }

  lemma SrcAsideOffer(p: Policy, a: State, b: State, item: Reading, now: real)
    requires a.replayLastOffer.None? && b == a.(lastPublishedSrc := b.lastPublishedSrc)
    ensures var x, y := Step(p, a, Offer(item, now)), Step(p, b, Offer(item, now));
            x.out == y.out && y.state == x.state.(lastPublishedSrc := b.lastPublishedSrc)
            && x.state.replayLastOffer.None?
  {
    hide Changed;
  }

  /** The first reading of a replay resumes from where the last one left off, with a debounce that starts again. */
  lemma ReplayResumes(p: Policy, s: State, item: Reading, src: real, now: real)
    requires s.replayLastOffer.None?
    ensures var resumed := s.(replayLastOffer := Some(now), lastPublished := s.lastPublishedSrc,
              candidate := if s.candidate.None? then None else Some(s.candidate.value.(since := src)));
            SourceClock(resumed) && Step(p, s, Replay(item, src, now)) == Step(p, resumed, Replay(item, src, now))
  {
    hide OfferAt, Release;
  }

  /** A point's history replayed from its start publishes what it would have published live. */
  lemma HistoryPublishesAsLive(p: Policy, start: real, readings: seq<Replayed>)
    ensures Outs(p, Fresh(start), Replaying(readings)) == Outs(p, Fresh(start), AsLive(readings))
  {
    if readings != [] {
      var r := readings[0];
      var entered := Fresh(start).(replayLastOffer := Some(r.now));
      ReplayResumes(p, Fresh(start), r.item, r.src, r.now);
      hide Step;
      assert Replaying(readings)[0] == Replay(r.item, r.src, r.now);
      ReplayPublishesAsLive(p, entered, Fresh(start), readings);
    }
  }
}
