/**
 * The reporting policy of one point: report by exception with a deadband, a rate limit, a debounce
 * and a heartbeat, for live readings and for readings replayed from a source's history.
 */
module Report {
  import opened Common

  datatype Quality = Good | Bad | Stale

  /** The part of a reading that change detection looks at. `NotANumber` only equals itself. */
  datatype Obs = Number(value: real) | NotANumber | Other(text: string)

  datatype Deadband = Absolute(value: real) | Percent(value: real)

  datatype Policy = Policy(
    onChange: bool,
    deadband: Option<Deadband>,
    minInterval: Option<real>,
    maxInterval: Option<real>,
    debounce: Option<real>)

  /** A reading offered to the policy; `id` tells apart readings that look the same. */
  datatype Reading = Reading(id: nat, obs: Obs, quality: Quality)

  const EPSILON: real := 0.000000001
  const REPLAY_IDLE: real := 2000.0

  function Abs(x: real): real {
    if x < 0.0 then -x else x
  }

  /** `Math.max(0, x)`. */
  function AtLeastZero(x: real): real {
    if x < 0.0 then 0.0 else x
  }

  predicate FiltersChanges(p: Policy) {
    p.onChange || p.deadband.Some? || p.debounce.Some?
  }

  /**
   * `obs` is worth reporting when `base` is what was reported: a number by the deadband, other values by difference.
   */
  predicate Changed(p: Policy, obs: Obs, base: Obs) {
    match (obs, base)
    case (Number(a), Number(b)) =>
      var delta := Abs(a - b);
      if p.deadband.Some? && p.deadband.value.Absolute? then delta >= p.deadband.value.value
      else if p.deadband.Some? then (if b == 0.0 then delta > 0.0 else delta >= p.deadband.value.value / 100.0 * Abs(b))
      else delta > EPSILON
    case (Other(a), Other(b)) => a != b
    case (NotANumber, NotANumber) => false
    case _ => true
  }

  datatype Candidate = Candidate(first: Obs, since: real, latest: Reading)
  datatype Last = Last(obs: Obs, quality: Quality)

  datatype State = State(
    origin: real,
    last: Option<Last>,
    lastPublished: Option<real>,
    lastRead: Option<real>,
    unreadable: bool,
    pending: Option<Reading>,
    candidate: Option<Candidate>,
    replayLastOffer: Option<real>,
    lastPublishedSrc: Option<real>)

  function Fresh(now: real): State {
    State(now, None, None, None, false, None, None, None, None)
  }

  /** A state and what it published on the way, oldest first. */
  datatype Effect = Effect(state: State, out: seq<Reading>)

  function Or(t: Option<real>, default: real): real {
    if t.Some? then t.value else default
  }

  function SincePublished(s: State, now: real): real {
    AtLeastZero(now - Or(s.lastPublished, s.origin))
  }

  function DoPublish(s: State, item: Reading, quality: Quality, now: real): Effect {
    Effect(s.(last := Some(Last(item.obs, quality)), lastPublished := Some(now), pending := None, candidate := None),
        [item])
  }

  function PublishIfChanged(p: Policy, s: State, item: Reading, now: real): Effect {
    if s.last.None? || (FiltersChanges(p) && !Changed(p, item.obs, s.last.value.obs)) then Effect(s, [])
    else DoPublish(s, item, s.last.value.quality, now)
  }

  /** A reading that passed the debounce: rate-limited, filtered, else published. */
  function Admit(p: Policy, s: State, item: Reading, now: real): Effect
    requires s.last.Some?
  {
    if p.minInterval.Some? && SincePublished(s, now) < p.minInterval.value then Effect(s.(pending := Some(item)), [])
    else
      var clear := s.(pending := None);
      if FiltersChanges(p) && !Changed(p, item.obs, s.last.value.obs) then Effect(clear, [])
      else DoPublish(clear, item, item.quality, now)
  }

  function OfferAt(p: Policy, s: State, item: Reading, now: real): Effect {
    if s.last.None? || s.last.value.quality != item.quality then DoPublish(s, item, item.quality, now)
    else if p.maxInterval.Some? && SincePublished(s, now) >= p.maxInterval.value
        then DoPublish(s, item, item.quality, now)
    else if p.debounce.None? then Admit(p, s, item, now)
    else if !Changed(p, item.obs, s.last.value.obs) then Effect(s.(candidate := None, pending := None), [])
    else if s.candidate.Some? && !Changed(p, item.obs, s.candidate.value.first) then
      var c := s.candidate.value.(latest := item);
      if AtLeastZero(now - c.since) < p.debounce.value then Effect(s.(candidate := Some(c)), [])
      else Admit(p, s.(candidate := None), item, now)
    else Effect(s.(candidate := Some(Candidate(item.obs, now, item))), [])
  }

  /** What time alone publishes: the reading waiting for the rate limit first, else the debouncing one. */
  function Release(p: Policy, s: State, now: real): Effect {
    var held :=
      if p.minInterval.Some? && s.pending.Some? && SincePublished(s, now) >= p.minInterval.value
      then PublishIfChanged(p, s.(pending := None), s.pending.value, now) else Effect(s, []);
    var s1 := held.state;
    if held.out == [] && p.debounce.Some? && s1.candidate.Some?
       && AtLeastZero(now - s1.candidate.value.since) >= p.debounce.value then
      var latest, bare := s1.candidate.value.latest, s1.(candidate := None);
      if p.minInterval.Some? && SincePublished(bare, now) < p.minInterval.value
      then Effect(bare.(pending := Some(latest)), [])
      else PublishIfChanged(p, bare, latest, now)
    else held
  }

  /** From source times back to live ones: what is held or debouncing counts its time from `now` on. */
  function HandOver(s: State, now: real): State {
    var ended := s.(replayLastOffer := None,
                    candidate := if s.candidate.Some? then Some(s.candidate.value.(since := now)) else None);
    if s.lastPublished.Some? then ended.(lastPublishedSrc := s.lastPublished, lastPublished := Some(now)) else ended
  }

  function OnSourceTime(s: State, src: real, now: real): State {
    var entered :=
      if s.replayLastOffer.None?
      then s.(lastPublished := s.lastPublishedSrc,
              candidate := if s.candidate.Some? then Some(s.candidate.value.(since := src)) else None)
      else s;
    entered.(replayLastOffer := Some(now))
  }

  datatype Event =
    | Offer(item: Reading, now: real)
    | Replay(item: Reading, src: real, now: real)
    | Due(now: real, pushed: bool)
    | NoData
    | Reset(now: real)

  /** The heartbeat read a pass asks for. */
  predicate ReadDue(p: Policy, s: State, now: real, pushed: bool) {
    p.maxInterval.Some? && pushed && !s.unreadable
    && AtLeastZero(now - Later(Or(s.lastPublished, s.origin), Or(s.lastRead, s.origin))) >= p.maxInterval.value
  }

  /** Whether a pass asks for a heartbeat read: never on source time, else when nothing is recent enough. */
  predicate ReadAsked(p: Policy, s: State, now: real, pushed: bool) {
    !(s.replayLastOffer.Some? && AtLeastZero(now - s.replayLastOffer.value) < REPLAY_IDLE)
    && ReadDue(p, Release(p, if s.replayLastOffer.Some? then HandOver(s, now) else s, now).state, now, pushed)
  }

  function Later(a: real, b: real): real {
    if a < b then b else a
  }

  function Step(p: Policy, s: State, e: Event): Effect {
    match e
    case Offer(item, now) => OfferAt(p, if s.replayLastOffer.Some? then HandOver(s, now) else s, item, now)
    case Replay(item, src, now) =>
      var released := Release(p, OnSourceTime(s, src, now), src);
      var offered := OfferAt(p, released.state, item, src);
      var s1 := offered.state;
      Effect(if s1.lastPublished.Some? then s1.(lastPublishedSrc := s1.lastPublished)
          else s1, released.out + offered.out)
    case Due(now, pushed) =>
      if s.replayLastOffer.Some? && AtLeastZero(now - s.replayLastOffer.value) < REPLAY_IDLE then Effect(s, [])
      else
        var released := Release(p, if s.replayLastOffer.Some? then HandOver(s, now) else s, now);
        var s1 := released.state;
        Effect(if ReadDue(p, s1, now, pushed) then s1.(lastRead := Some(now)) else s1, released.out)
    case NoData => Effect(s.(unreadable := true), [])
    case Reset(now) => Effect(Fresh(now), [])
  }

  // ---- nothing held has another quality than what was published ----

  /** Whatever waits to be published does not differ in quality from what was. */
  ghost predicate SameQuality(s: State) {
    && (s.pending.Some? ==> s.last.Some? && s.pending.value.quality == s.last.value.quality)
    && (s.candidate.Some? ==> s.last.Some? && s.candidate.value.latest.quality == s.last.value.quality)
  }

  /** Everything published keeps its own quality and value: the last of it is what `last` records. */
  ghost predicate Recorded(before: State, e: Effect) {
    if e.out == [] then e.state.last == before.last
    else var item := e.out[|e.out| - 1]; e.state.last == Some(Last(item.obs, item.quality))
  }

  lemma OfferKeepsQuality(p: Policy, s: State, item: Reading, now: real)
    requires SameQuality(s)
    ensures SameQuality(OfferAt(p, s, item, now).state) && Recorded(s, OfferAt(p, s, item, now))
  {
    hide Changed, FiltersChanges, SincePublished, AtLeastZero;
  }

  lemma ReleaseKeepsQuality(p: Policy, s: State, now: real)
    requires SameQuality(s)
    ensures SameQuality(Release(p, s, now).state) && Recorded(s, Release(p, s, now))
    ensures |Release(p, s, now).out| <= 1
  {
    hide Changed, FiltersChanges, SincePublished, AtLeastZero;
  }

  /** Publishing a held reading with the last quality publishes it with its own. */
  lemma StepKeepsQuality(p: Policy, s: State, e: Event)
    requires SameQuality(s)
    ensures SameQuality(Step(p, s, e).state)
    ensures !e.Reset? ==> Recorded(s, Step(p, s, e))
  {
    hide Release, OfferAt, Changed, SincePublished, AtLeastZero, ReadDue;
    match e
    case Offer(item, now) =>
      OfferKeepsQuality(p, if s.replayLastOffer.Some? then HandOver(s, now) else s, item, now);
    case Replay(item, src, now) =>
      var entered := OnSourceTime(s, src, now);
      ReleaseKeepsQuality(p, entered, src);
      var released := Release(p, entered, src);
      OfferKeepsQuality(p, released.state, item, src);
      var offered := OfferAt(p, released.state, item, src);
      if offered.out == [] {
        assert released.out + offered.out == released.out;
      }
    case Due(now, _) =>
      ReleaseKeepsQuality(p, if s.replayLastOffer.Some? then HandOver(s, now) else s, now);
    case _ =>
  }

  // ---- no update is lost ----

  /** A run: the state, the latest reading offered and the latest one published. */
  datatype World = World(state: State, latest: Option<Reading>, published: Option<Reading>)

  function Happen(p: Policy, w: World, e: Event): World {
    var effect := Step(p, w.state, e);
    World(effect.state,
          match e
            case Offer(item, _) => Some(item)
            case Replay(item, _, _) => Some(item)
            case Reset(_) => None
            case _ => w.latest,
          if e.Reset? then None else if effect.out == [] then w.published else Some(effect.out[|effect.out| - 1]))
  }

  function Happened(p: Policy, w: World, events: seq<Event>): World
    decreases |events|
  {
    if events == [] then w else Happened(p, Happen(p, w, events[0]), events[1..])
  }

  function Begin(now: real): World {
    World(Fresh(now), None, None)
  }

  /** The latest reading is published, held, debouncing, or no change from what is published. */
  ghost predicate Kept(p: Policy, w: World) {
    w.latest.None?
    || w.published == w.latest
    || w.state.pending == w.latest
    || (w.state.candidate.Some? && Some(w.state.candidate.value.latest) == w.latest)
    || (w.state.last.Some? && w.state.last.value.quality == w.latest.value.quality
        && !Changed(p, w.latest.value.obs, w.state.last.value.obs))
  }

  /** A policy that does not combine a debounce with a rate limit. */
  predicate Uncombined(p: Policy) {
    p.debounce.None? || p.minInterval.None?
  }

  /** Nothing is held without a rate limit, nothing debounces without a debounce. */
  ghost predicate Fitting(p: Policy, s: State) {
    (p.minInterval.None? ==> s.pending.None?) && (p.debounce.None? ==> s.candidate.None?)
  }

  /** The reading `item` is accounted for, and no other is held or debouncing. */
  ghost predicate Holds(p: Policy, s: State, item: Reading, published: bool) {
    && s.last.Some?
    && (s.pending.Some? ==> s.pending.value == item)
    && (s.candidate.Some? ==> s.candidate.value.latest == item)
    && (published || s.pending.Some? || s.candidate.Some?
        || (s.last.value.quality == item.quality && !Changed(p, item.obs, s.last.value.obs)))
  }

  ghost predicate Sound(p: Policy, w: World) {
    && SameQuality(w.state) && Fitting(p, w.state)
    && (w.latest.None? ==> w.state.pending.None? && w.state.candidate.None?)
    && (w.latest.Some? ==> Holds(p, w.state, w.latest.value, w.published == w.latest))
  }

  lemma OfferHolds(p: Policy, s: State, item: Reading, now: real)
    requires SameQuality(s) && Uncombined(p) && Fitting(p, s)
    ensures var e := OfferAt(p, s, item, now);
            Holds(p, e.state, item, e.out != []) && (e.out == [] || e.out == [item]) && Fitting(p, e.state)
  {
    hide Changed, SincePublished, AtLeastZero;
  }

  lemma ReleaseHolds(p: Policy, s: State, item: Reading, now: real, published: bool)
    requires SameQuality(s) && Uncombined(p) && Holds(p, s, item, published) && Fitting(p, s)
    ensures var e := Release(p, s, now);
            Holds(p, e.state, item, published || e.out != []) && (e.out == [] || e.out == [item]) && Fitting(p, e.state)
  {
    hide Changed, SincePublished, AtLeastZero;
  }

  lemma HappenSound(p: Policy, w: World, e: Event)
    requires Uncombined(p) && Sound(p, w)
    ensures Sound(p, Happen(p, w, e))
  {
    hide Changed, Release, OfferAt, SincePublished, AtLeastZero, ReadDue;
    StepKeepsQuality(p, w.state, e);
    match e
    case Offer(item, now) =>
      OfferHolds(p, if w.state.replayLastOffer.Some? then HandOver(w.state, now) else w.state, item, now);
    case Replay(item, src, now) =>
      var entered := OnSourceTime(w.state, src, now);
      var released := Release(p, entered, src);
      ReleaseKeepsQuality(p, entered, src);
      ReleaseFits(p, entered, src);
      OfferHolds(p, released.state, item, src);
    case Due(now, _) =>
      var s := if w.state.replayLastOffer.Some? then HandOver(w.state, now) else w.state;
      if w.latest.Some? {
        ReleaseHolds(p, s, w.latest.value, now, w.published == w.latest);
      } else {
        ReleaseNothing(p, s, now);
      }
    case _ =>
  }

  lemma ReleaseFits(p: Policy, s: State, now: real)
    requires Uncombined(p) && Fitting(p, s)
    ensures Fitting(p, Release(p, s, now).state)
  {
    hide Changed, SincePublished, AtLeastZero;
  }

  lemma ReleaseNothing(p: Policy, s: State, now: real)
    requires s.pending.None? && s.candidate.None?
    ensures Release(p, s, now) == Effect(s, [])
  {
  }

  lemma {:induction false} HappenedSound(p: Policy, w: World, events: seq<Event>)
    requires Uncombined(p) && Sound(p, w)
    ensures Sound(p, Happened(p, w, events))
    decreases |events|
  {
    if events != [] {
      hide Sound, Happen;
      HappenSound(p, w, events[0]);
      HappenedSound(p, Happen(p, w, events[0]), events[1..]);
    }
  }

  /** After any live or replayed run under such a policy, the latest reading offered is not lost. */
  lemma NoUpdateIsLost(p: Policy, start: real, events: seq<Event>)
    requires Uncombined(p)
    ensures Kept(p, Happened(p, Begin(start), events))
  {
    hide Changed, Step;
    HappenedSound(p, Begin(start), events);
  }

  // ---- combining a debounce with a rate limit ----

  /** Intervals are positive: a zero switches one off when the policy is read. */
  predicate Proper(p: Policy) {
    (p.minInterval.Some? ==> p.minInterval.value > 0.0) && (p.maxInterval.Some? ==> p.maxInterval.value > 0.0)
    && (p.debounce.Some? ==> p.debounce.value > 0.0)
  }

  const A := Reading(0, Other("a"), Good)
  const B := Reading(1, Other("b"), Good)
  const C := Reading(2, Other("c"), Good)

  /** Replay until a change is held while another debounces; the idle pass publishes the older one. */
  function LosingRun(p: Policy): seq<Event>
    requires p.debounce.Some? && p.minInterval.Some?
  {
    [Offer(A, 0.0), Replay(B, -p.debounce.value, 0.0), Replay(C, 0.0, 0.0),
        Due(Later(p.minInterval.value, REPLAY_IDLE), false)]
  }

  /** Under every combined policy a run exists that loses the latest reading for good. */
  lemma CombinedPolicyLoses(p: Policy)
    requires Proper(p) && !Uncombined(p)
    ensures !Kept(p, Happened(p, Begin(0.0), LosingRun(p)))
  {
    hide Happen, Happened;
    var run, w0 := LosingRun(p), Begin(0.0);
    DebouncingInReplay(p);
    HeldInReplay(p);
    OlderIsPublished(p);
    HappenedFour(p, w0, run);
  }

  /** `A` published, and in a replay `B` debouncing since its debounce time before the start. */
  function Debouncing(p: Policy): World
    requires p.debounce.Some?
  {
    World(Fresh(0.0).(last := Some(Last(A.obs, Good)), candidate := Some(Candidate(B.obs, -p.debounce.value, B)),
                      replayLastOffer := Some(0.0)),
          Some(B), Some(A))
  }

  /** `B` held back by the rate limit while `C` debounces. */
  const HELD := World(Fresh(0.0).(last := Some(Last(A.obs, Good)), pending := Some(B),
                                  candidate := Some(Candidate(C.obs, 0.0, C)), replayLastOffer := Some(0.0)),
                      Some(C), Some(A))

  lemma DebouncingInReplay(p: Policy)
    requires Proper(p) && !Uncombined(p)
    ensures var run := LosingRun(p); Happen(p, Happen(p, Begin(0.0), run[0]), run[1]) == Debouncing(p)
  {
    var w1 := Happen(p, Begin(0.0), LosingRun(p)[0]);
    assert w1.state == Fresh(0.0).(last := Some(Last(A.obs, Good)), lastPublished := Some(0.0));
  }

  lemma HeldInReplay(p: Policy)
    requires Proper(p) && !Uncombined(p)
    ensures Happen(p, Debouncing(p), LosingRun(p)[2]) == HELD
  {
  }

  lemma OlderIsPublished(p: Policy)
    requires Proper(p) && !Uncombined(p)
    ensures !Kept(p, Happen(p, HELD, LosingRun(p)[3]))
  {
    var w := Happen(p, HELD, LosingRun(p)[3]);
    assert w.published == Some(B) && w.latest == Some(C) && w.state.pending.None? && w.state.candidate.None?;
  }

  lemma HappenedFour(p: Policy, w: World, run: seq<Event>)
    requires |run| == 4
    ensures Happened(p, w, run) == Happen(p, Happen(p, Happen(p, Happen(p, w, run[0]), run[1]), run[2]), run[3])
  {
    hide Happen;
    var w1 := Happen(p, w, run[0]);
    var w2 := Happen(p, w1, run[1]);
    var w3 := Happen(p, w2, run[2]);
    var w4 := Happen(p, w3, run[3]);
    assert Happened(p, w3, run[3..]) == Happened(p, w4, run[3..][1..]) && run[3..][1..] == [];
    assert Happened(p, w2, run[2..]) == Happened(p, w3, run[2..][1..]) && run[2..][1..] == run[3..];
    assert Happened(p, w1, run[1..]) == Happened(p, w2, run[1..][1..]) && run[1..][1..] == run[2..];
    assert Happened(p, w, run) == Happened(p, w1, run[1..]);
  }

  /** No update is ever lost exactly under the policies that do not combine the two. */
  lemma NoUpdateIsLostExactly(p: Policy)
    requires Proper(p)
    ensures Uncombined(p) <==> forall start, events :: Kept(p, Happened(p, Begin(start), events))
  {
    if Uncombined(p) {
      forall start, events
        ensures Kept(p, Happened(p, Begin(start), events))
      {
        NoUpdateIsLost(p, start, events);
      }
    } else {
      CombinedPolicyLoses(p);
    }
  }

  // ---- live runs ----

  /** Live readings, passes and failed heartbeat reads, at non-decreasing times from `t`. */
  ghost predicate Live(t: real, events: seq<Event>)
    decreases |events|
  {
    events == [] ||
    ((events[0].Offer? || events[0].Due? || events[0].NoData?)
     && (events[0].NoData? || t <= events[0].now)
     && Live(if events[0].NoData? then t else events[0].now, events[1..]))
  }

  /** The clocks of a point that never replayed: publication, then candidate, then now. */
  ghost predicate Clock(s: State, t: real) {
    && s.replayLastOffer.None? && (s.last.Some? <==> s.lastPublished.Some?)
    && (s.lastPublished.Some? ==> s.lastPublished.value <= t)
    && (s.candidate.Some? ==> s.lastPublished.Some? && s.lastPublished.value <= s.candidate.value.since <= t)
  }

  lemma OfferKeepsClock(p: Policy, s: State, item: Reading, now: real)
    requires Clock(s, now)
    ensures Clock(OfferAt(p, s, item, now).state, now)
  {
    hide Changed, FiltersChanges;
  }

  lemma ReleaseKeepsClock(p: Policy, s: State, now: real)
    requires Clock(s, now)
    ensures Clock(Release(p, s, now).state, now)
  {
    hide Changed, FiltersChanges;
  }

  /** Combined, but a change has always outlasted the rate limit once it has settled. */
  predicate Outlasting(p: Policy) {
    p.debounce.Some? && p.minInterval.Some? && p.minInterval.value <= p.debounce.value
  }

  lemma OutlastingOffer(p: Policy, s: State, item: Reading, now: real)
    requires Proper(p) && Outlasting(p) && SameQuality(s) && Clock(s, now) && s.pending.None?
    ensures var e := OfferAt(p, s, item, now);
            e.state.pending.None? && Holds(p, e.state, item, e.out != []) && (e.out == [] || e.out == [item])
  {
    hide Changed;
  }

  lemma OutlastingRelease(p: Policy, s: State, item: Reading, now: real, published: bool)
    requires Proper(p) && Outlasting(p) && Clock(s, now) && s.pending.None? && SameQuality(s)
             && Holds(p, s, item, published)
    ensures var e := Release(p, s, now);
            e.state.pending.None? && Holds(p, e.state, item, published || e.out != [])
                && (e.out == [] || e.out == [item])
  {
    hide Changed;
  }

  ghost predicate LiveSound(p: Policy, w: World, t: real) {
    && Clock(w.state, t) && SameQuality(w.state) && w.state.pending.None?
    && (w.latest.None? ==> w.state.candidate.None?)
    && (w.latest.Some? ==> Holds(p, w.state, w.latest.value, w.published == w.latest))
  }

  lemma HappenLive(p: Policy, w: World, t: real, e: Event)
    requires Proper(p) && Outlasting(p) && LiveSound(p, w, t) && Live(t, [e])
    ensures LiveSound(p, Happen(p, w, e), if e.NoData? then t else e.now)
  {
    hide Changed, Release, OfferAt, AtLeastZero, ReadDue;
    StepKeepsQuality(p, w.state, e);
    match e
    case Offer(item, now) =>
      OutlastingOffer(p, w.state, item, now);
      OfferKeepsClock(p, w.state, item, now);
    case Due(now, _) =>
      ReleaseKeepsClock(p, w.state, now);
      if w.latest.Some? {
        OutlastingRelease(p, w.state, w.latest.value, now, w.published == w.latest);
      } else {
        ReleaseNothing(p, w.state, now);
      }
    case _ =>
  }

  lemma {:induction false} HappenedLive(p: Policy, w: World, t: real, events: seq<Event>) returns (t': real)
    requires Proper(p) && Outlasting(p) && LiveSound(p, w, t) && Live(t, events)
    ensures LiveSound(p, Happened(p, w, events), t')
    decreases |events|
  {
    t' := t;
    if events != [] {
      var e := events[0];
      assert Live(t, [e]) by { assert [e][1..] == []; }
      hide LiveSound, Happen, Outlasting, Proper;
      HappenLive(p, w, t, e);
      t' := HappenedLive(p, Happen(p, w, e), if e.NoData? then t else e.now, events[1..]);
    }
  }

  /** Hold one change at the end of its debounce, start another, and let the rate limit end. */
  function LiveLosingRun(p: Policy): seq<Event>
    requires p.debounce.Some? && p.minInterval.Some?
  {
    [Offer(A, 0.0), Offer(B, 0.0), Due(p.debounce.value, false), Offer(C, p.debounce.value),
        Due(p.minInterval.value, false)]
  }

  lemma ShortDebounceLoses(p: Policy)
    requires Proper(p) && !Uncombined(p) && !Outlasting(p)
    requires p.maxInterval.Some? ==> p.maxInterval.value > p.minInterval.value
    ensures Live(0.0, LiveLosingRun(p)) && !Kept(p, Happened(p, Begin(0.0), LiveLosingRun(p)))
  {
    var d, m := p.debounce.value, p.minInterval.value;
    var run, w0 := LiveLosingRun(p), Begin(0.0);
    var w1 := Happen(p, w0, run[0]);
    var w2 := Happen(p, w1, run[1]);
    assert w2.state.candidate == Some(Candidate(B.obs, 0.0, B)) && w2.state.pending.None?
        && w2.state.lastPublished == Some(0.0);
    var w3 := Happen(p, w2, run[2]);
    assert w3.state.pending == Some(B) && w3.state.candidate.None?;
    var w4 := Happen(p, w3, run[3]);
    assert w4.state.pending == Some(B) && w4.state.candidate == Some(Candidate(C.obs, d, C));
    var w5 := Happen(p, w4, run[4]);
    assert w5.published == Some(B) && w5.latest == Some(C) && w5.state.pending.None? && w5.state.candidate.None?;
    HappenedFour(p, w1, run[1..]);
    assert Happened(p, w0, run) == Happened(p, w1, run[1..]);
    LiveFive(p);
  }

  lemma LiveFive(p: Policy)
    requires Proper(p) && p.debounce.Some? && p.minInterval.Some? && p.debounce.value <= p.minInterval.value
    ensures Live(0.0, LiveLosingRun(p))
  {
    var run := LiveLosingRun(p);
    assert run[1..][1..] == run[2..] && run[2..][1..] == run[3..] && run[3..][1..] == run[4..] && run[4..][1..] == [];
    assert Live(p.minInterval.value, []);
    assert Live(p.debounce.value, run[4..]);
    assert Live(p.debounce.value, run[3..]);
    assert Live(0.0, run[2..]);
    assert Live(0.0, run[1..]);
  }

  /**
   * For live readings, with a heartbeat longer than the rate limit: no update is ever lost exactly
   * when the debounce and the rate limit are not combined, or the debounce is no shorter.
   */
  lemma LiveUpdatesAreKeptExactly(p: Policy)
    requires Proper(p) && (p.maxInterval.Some? && p.minInterval.Some? ==> p.maxInterval.value > p.minInterval.value)
    ensures Uncombined(p) || Outlasting(p) <==>
            forall events | Live(0.0, events) :: Kept(p, Happened(p, Begin(0.0), events))
  {
    if Uncombined(p) {
      forall events | Live(0.0, events)
        ensures Kept(p, Happened(p, Begin(0.0), events))
      {
        NoUpdateIsLost(p, 0.0, events);
      }
    } else if Outlasting(p) {
      forall events | Live(0.0, events)
        ensures Kept(p, Happened(p, Begin(0.0), events))
      {
        var _ := HappenedLive(p, Begin(0.0), 0.0, events);
      }
    } else {
      ShortDebounceLoses(p);
    }
  }

  // ---- the rate limit ----

  datatype Publication = Publication(at: real, item: Reading)

  /** Everything a live run publishes, with the time it is published at. */
  function Trace(p: Policy, s: State, events: seq<Event>): seq<Publication>
    decreases |events|
  {
    if events == [] then []
    else
      var e := events[0];
      var effect := Step(p, s, e);
      (if effect.out == [] || e.NoData? then [] else [Publication(e.now, effect.out[|effect.out| - 1])])
      + Trace(p, effect.state, events[1..])
  }

  /** The state remembers the previous publication. */
  ghost predicate Remembers(s: State, previous: Option<Publication>) {
    if previous.None? then s.last.None?
    else
      && s.last == Some(Last(previous.value.item.obs, previous.value.item.quality))
      && s.lastPublished == Some(previous.value.at)
  }

  /** Two publications that are apart by the interval, or differ in quality. */
  predicate Apart(interval: real, a: Publication, b: Publication) {
    b.at - a.at >= interval || a.item.quality != b.item.quality
  }

  ghost predicate Spaced(interval: real, trace: seq<Publication>) {
    forall i, j | 0 <= i && j == i + 1 < |trace| :: Apart(interval, trace[i], trace[j])
  }

  ghost predicate SpacedAfter(interval: real, previous: Option<Publication>, trace: seq<Publication>) {
    Spaced(interval, trace) && (previous.Some? && trace != [] ==> Apart(interval, previous.value, trace[0]))
  }

  lemma StepSpaced(p: Policy, s: State, t: real, previous: Option<Publication>, e: Event)
    requires Proper(p) && p.minInterval.Some? && (p.maxInterval.Some? ==> p.maxInterval.value > p.minInterval.value)
    requires SameQuality(s) && Clock(s, t) && Remembers(s, previous) && Live(t, [e])
    ensures var effect := Step(p, s, e); var now := if e.NoData? then t else e.now;
            && |effect.out| <= 1 && Clock(effect.state, now) && SameQuality(effect.state)
            && (effect.out == [] ==> Remembers(effect.state, previous))
            && (effect.out != [] ==>
                  && !e.NoData? && Remembers(effect.state, Some(Publication(now, effect.out[0])))
                  && (previous.Some? ==> Apart(p.minInterval.value, previous.value, Publication(now, effect.out[0]))))
  {
    StepKeepsQuality(p, s, e);
    match e
    case Offer(item, now) => OfferKeepsClock(p, s, item, now); OfferSpaced(p, s, previous, item, now);
    case Due(now, pushed) => ReleaseKeepsClock(p, s, now); ReleaseSpaced(p, s, previous, now);
    case _ =>
  }

  lemma OfferSpaced(p: Policy, s: State, previous: Option<Publication>, item: Reading, now: real)
    requires Proper(p) && p.minInterval.Some? && (p.maxInterval.Some? ==> p.maxInterval.value > p.minInterval.value)
    requires Clock(s, now) && Remembers(s, previous)
    ensures var e := OfferAt(p, s, item, now);
            && (e.out == [] ==> Remembers(e.state, previous))
            && (e.out != [] ==>
                  && e.out == [item] && Remembers(e.state, Some(Publication(now, item)))
                  && (previous.Some? ==> Apart(p.minInterval.value, previous.value, Publication(now, item))))
  {
    hide Changed;
  }

  lemma ReleaseSpaced(p: Policy, s: State, previous: Option<Publication>, now: real)
    requires Proper(p) && p.minInterval.Some? && SameQuality(s) && Clock(s, now) && Remembers(s, previous)
    ensures var e := Release(p, s, now);
            && |e.out| <= 1 && (e.out == [] ==> Remembers(e.state, previous))
            && (e.out != [] ==>
                  && Remembers(e.state, Some(Publication(now, e.out[0])))
                  && (previous.Some? ==> Apart(p.minInterval.value, previous.value, Publication(now, e.out[0]))))
  {
    hide Changed;
  }

  lemma {:induction false} TraceSpaced(p: Policy, s: State, t: real, previous: Option<Publication>, events: seq<Event>)
    requires Proper(p) && p.minInterval.Some? && (p.maxInterval.Some? ==> p.maxInterval.value > p.minInterval.value)
    requires SameQuality(s) && Clock(s, t) && Remembers(s, previous) && Live(t, events)
    ensures SpacedAfter(p.minInterval.value, previous, Trace(p, s, events))
    decreases |events|
  {
    if events == [] {
      assert Trace(p, s, events) == [];
    } else {
      hide Step, Trace, Live, Apart, Remembers, Clock, SameQuality, SpacedAfter, Proper;
      var e, rest := events[0], events[1..];
      LiveHead(t, events);
      StepSpaced(p, s, t, previous, e);
      TraceHead(p, s, events);
      var effect := Step(p, s, e);
      var now := if e.NoData? then t else e.now;
      var next := if effect.out == [] then previous else Some(Publication(now, effect.out[0]));
      TraceSpaced(p, effect.state, now, next, rest);
      if effect.out != [] {
        SpacedPrepend(p.minInterval.value, previous, next.value, Trace(p, effect.state, rest));
      }
    }
  }

  lemma LiveHead(t: real, events: seq<Event>)
    requires events != [] && Live(t, events)
    ensures Live(t, [events[0]]) && Live(if events[0].NoData? then t else events[0].now, events[1..])
  {
    assert [events[0]][1..] == [];
  }

  lemma TraceHead(p: Policy, s: State, events: seq<Event>)
    requires events != []
    ensures var e := events[0]; var effect := Step(p, s, e); var tail := Trace(p, effect.state, events[1..]);
            Trace(p, s, events) == if effect.out == [] || e.NoData? then tail
                                   else [Publication(e.now, effect.out[|effect.out| - 1])] + tail
  {
    hide Step;
  }

  lemma SpacedPrepend(interval: real, previous: Option<Publication>, first: Publication, tail: seq<Publication>)
    requires SpacedAfter(interval, Some(first), tail) && (previous.Some? ==> Apart(interval, previous.value, first))
    ensures SpacedAfter(interval, previous, [first] + tail)
  {
    hide Apart;
    var trace := [first] + tail;
    forall i, j | 0 <= i && j == i + 1 < |trace|
      ensures Apart(interval, trace[i], trace[j])
    {
      if i > 0 {
        assert trace[i] == tail[i - 1] && trace[j] == tail[j - 1];
      }
    }
  }

  /**
   * In a live run with a heartbeat longer than the rate limit, two successive publications closer
   * than the rate limit always differ in quality.
   */
  lemma PublicationsAreSpaced(p: Policy, start: real, events: seq<Event>, i: nat)
    requires Proper(p) && p.minInterval.Some? && (p.maxInterval.Some? ==> p.maxInterval.value > p.minInterval.value)
    requires Live(start, events) && i + 1 < |Trace(p, Fresh(start), events)|
    ensures var trace := Trace(p, Fresh(start), events);
            trace[i + 1].at - trace[i].at < p.minInterval.value ==> trace[i].item.quality != trace[i + 1].item.quality
  {
    TraceSpaced(p, Fresh(start), start, None, events);
    var trace := Trace(p, Fresh(start), events);
    assert Apart(p.minInterval.value, trace[i], trace[i + 1]);
  }

  // ---- as it runs ----

  class ReportState {
    const policy: Policy
    var origin: real
    var last: Option<Last>
    var lastPublished: Option<real>
    var lastRead: Option<real>
    var unreadable: bool
    var pending: Option<Reading>
    var candidate: Option<Candidate>
    var replayLastOffer: Option<real>
    var lastPublishedSrc: Option<real>

    ghost function Value(): State
      reads this
    {
      State(origin, last, lastPublished, lastRead, unreadable, pending, candidate, replayLastOffer, lastPublishedSrc)
    }

    constructor (p: Policy, now: real)
      ensures policy == p && Value() == Fresh(now)
    {
      policy := p;
      origin, last, lastPublished, lastRead, unreadable := now, None, None, None, false;
      pending, candidate, replayLastOffer, lastPublishedSrc := None, None, None, None;
    }

    method ResetAll(now: real)
      modifies this
      ensures Value() == Fresh(now)
    {
      origin, last, lastPublished, lastRead, unreadable := now, None, None, None, false;
      pending, candidate, replayLastOffer, lastPublishedSrc := None, None, None, None;
    }

    method MarkUnreadable()
      modifies this
      ensures Value() == Step(policy, old(Value()), NoData).state
    {
      unreadable := true;
    }

    function Elapsed(now: real): (r: real)
      reads this
      ensures r == SincePublished(Value(), now)
    {
      AtLeastZero(now - Or(lastPublished, origin))
    }

    method PublishNow(item: Reading, quality: Quality, now: real) returns (out: Option<Reading>)
      modifies this
      ensures out == Some(item) && Value() == DoPublish(old(Value()), item, quality, now).state
    {
      last, lastPublished, pending, candidate := Some(Last(item.obs, quality)), Some(now), None, None;
      return Some(item);
    }

    method OfferTimed(item: Reading, now: real) returns (out: Option<Reading>)
      modifies this
      ensures Gives(old(Value()), out, OfferAt(policy, old(Value()), item, now))
    {
      hide Changed;
      if last.None? || last.value.quality != item.quality {
        out := PublishNow(item, item.quality, now);
        return;
      }
      if policy.maxInterval.Some? && Elapsed(now) >= policy.maxInterval.value {
        out := PublishNow(item, item.quality, now);
        return;
      }
      if policy.debounce.Some? {
        if !Changed(policy, item.obs, last.value.obs) {
          candidate, pending := None, None;
          return None;
        }
        var c := candidate;
        candidate := None;
        if c.Some? && !Changed(policy, item.obs, c.value.first) {
          if AtLeastZero(now - c.value.since) < policy.debounce.value {
            candidate := Some(c.value.(latest := item));
            return None;
          }
        } else {
          candidate := Some(Candidate(item.obs, now, item));
          return None;
        }
      }
      if policy.minInterval.Some? && Elapsed(now) < policy.minInterval.value {
        pending := Some(item);
        return None;
      }
      pending := None;
      if FiltersChanges(policy) && !Changed(policy, item.obs, last.value.obs) { return None; }
      out := PublishNow(item, item.quality, now);
    }

    /** The method's result and new state are those of the effect. */
    ghost predicate Gives(before: State, out: Option<Reading>, e: Effect)
      reads this
    {
      Value() == e.state && e.out == if out.Some? then [out.value] else []
    }

    method PublishChange(item: Reading, now: real) returns (out: Option<Reading>)
      modifies this
      ensures Gives(old(Value()), out, PublishIfChanged(policy, old(Value()), item, now))
    {
      hide Changed;
      if last.None? { return None; }
      if FiltersChanges(policy) && !Changed(policy, item.obs, last.value.obs) { return None; }
      out := PublishNow(item, last.value.quality, now);
    }

    method ReleaseDue(now: real) returns (out: Option<Reading>)
      modifies this
      ensures Gives(old(Value()), out, Release(policy, old(Value()), now))
    {
      hide PublishIfChanged;
      out := None;
      if policy.minInterval.Some? && pending.Some? && Elapsed(now) >= policy.minInterval.value {
        var item := pending.value;
        pending := None;
        out := PublishChange(item, now);
      }
      if out.None? && policy.debounce.Some? && candidate.Some? {
        var c := candidate.value;
        if AtLeastZero(now - c.since) >= policy.debounce.value {
          candidate := None;
          if policy.minInterval.Some? && Elapsed(now) < policy.minInterval.value {
            pending := Some(c.latest);
          } else {
            out := PublishChange(c.latest, now);
          }
        }
      }
    }

    method EndReplay(now: real)
      modifies this
      ensures Value() == HandOver(old(Value()), now)
    {
      replayLastOffer := None;
      if lastPublished.Some? {
        lastPublishedSrc := lastPublished;
        lastPublished := Some(now);
      }
      if candidate.Some? {
        candidate := Some(candidate.value.(since := now));
      }
    }

    method OfferLive(item: Reading, now: real) returns (out: Option<Reading>)
      modifies this
      ensures Gives(old(Value()), out, Step(policy, old(Value()), Offer(item, now)))
    {
      hide OfferAt;
      if replayLastOffer.Some? {
        EndReplay(now);
      }
      out := OfferTimed(item, now);
    }

    method OfferReplayed(item: Reading, src: real, now: real) returns (out: seq<Reading>)
      modifies this
      ensures Effect(Value(), out) == Step(policy, old(Value()), Replay(item, src, now))
    {
      hide OfferAt, Release;
      if replayLastOffer.None? {
        lastPublished := lastPublishedSrc;
        if candidate.Some? {
          candidate := Some(candidate.value.(since := src));
        }
      }
      replayLastOffer := Some(now);
      out := [];
      var released := ReleaseDue(src);
      if released.Some? {
        out := out + [released.value];
      }
      var offered := OfferTimed(item, src);
      if offered.Some? {
        out := out + [offered.value];
      }
      if lastPublished.Some? {
        lastPublishedSrc := lastPublished;
      }
    }

    method Pass(now: real, pushed: bool) returns (publish: Option<Reading>, read: bool)
      modifies this
      ensures Gives(old(Value()), publish, Step(policy, old(Value()), Due(now, pushed)))
      ensures read == ReadAsked(policy, old(Value()), now, pushed)
    {
      hide Release;
      read := false;
      if replayLastOffer.Some? {
        if AtLeastZero(now - replayLastOffer.value) < REPLAY_IDLE { return None, false; }
        EndReplay(now);
      }
      publish := ReleaseDue(now);
      if policy.maxInterval.Some? {
        var reference := Later(Or(lastPublished, origin), Or(lastRead, origin));
        if pushed && !unreadable && AtLeastZero(now - reference) >= policy.maxInterval.value {
          lastRead := Some(now);
          read := true;
        }
      }
    }
  }
}
