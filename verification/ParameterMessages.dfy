/**
 * What each kind of message comes to, place by place: who holds what afterwards, which value it
 * carries, and that exactly the fragments with a value that differs are announced.
 */
module ParameterMessages {
  import opened Common
  import opened Naming
  import opened ParameterStore
  import opened ParameterInvariants
  import opened ParameterTwin
  import opened ParameterDeclarations
  import opened ParameterAgreement
  import opened ParameterSplits

  // ---- one write ----

  /** Exactly what a write leaves at a place: the value where the point could have it, and nothing else changes. */
  lemma WrittenExactly(l: Ledger, point: Point, sets: seq<SetName>, value: Value, place: Place, other: Point)
    requires Inv(l) && point != "" && other != ""
    ensures var key, after := KeyOf(l, point), PutAll(l, point, KeyOf(l, point), sets, value);
            var hit := place.key == key && place.fragment in sets && Claimable(l, place, point);
            && (place in after.values <==> hit || place in l.values)
            && (place in after.values ==> after.values[place] == if hit then value else l.values[place])
            && (Owns(after, other, place) <==> Owns(l, other, place) || (other == point && hit))
  {
    var key, after := KeyOf(l, point), PutAll(l, point, KeyOf(l, point), sets, value);
    WrittenAt(l, point, sets, value, place);
    PutAllKeeps(l, point, key, sets, value);
    PutAllCarries(l, point, key, sets, value, place);
    if place.key == key && place.fragment in sets {
      PutAllTakes(l, point, key, sets, value, place);
    }
    OwnedIsClaimable(l, point, place);
    if place in l.owner && l.owner[place] != point {
      OtherPutKeeps(l, point, key, sets, value, l.owner[place]);
      OwnersAreNamed(l, place);
    }
    if place in after.owner && after.owner[place] != point {
      OwnersAreNamed(after, place);
      OtherPutKeeps(l, point, key, sets, value, after.owner[place]);
    }
    if other != point {
      OtherPutKeeps(l, point, key, sets, value, other);
    }
    ValuedAndOwned(l, place);
    ValuedAndOwned(after, place);
    hide Inv, PutAll, Claimable, KeyOf;
  }

  lemma OwnedIsClaimable(l: Ledger, point: Point, place: Place)
    requires point != ""
    ensures Owns(l, point, place) ==> Claimable(l, place, point)
  {
  }

  lemma OwnersAreNamed(l: Ledger, place: Place)
    requires Inv(l) && place in l.owner
    ensures l.owner[place] != ""
  {
  }

  lemma ValuedAndOwned(l: Ledger, place: Place)
    requires Inv(l)
    ensures place in l.values ==> place in l.owner
  {
  }

  // ---- samples ----

  /** The name a device's sets are derived from after a message that reports a type, or none. */
  function Qualifier(reported: string, recorded: string, protocol: Protocol): string {
    if reported != "" then reported else if recorded != "" then recorded else protocol
  }

  function MetaOf(m: Message): Meta
    requires m.Sample?
  {
    if m.meta.Some? then m.meta.value else Absent
  }

  /** Only a sample with access or meta says where its point belongs. */
  predicate Describes(m: Message)
    requires m.Sample?
  {
    m.access.Some? || m.meta.Some?
  }

  /** The verdict of a describing sample on its point. */
  function SampleSets(st: Store, m: Message, forced: string): Placement
    requires m.Sample?
  {
    SetsFromSample(MetaOf(m), m.access == Some(true), Names(forced, Qualifier(m.deviceType, st.deviceType, m.protocol)))
  }

  /** One of the sample's sets, under the sample's key. */
  predicate SampledAt(st: Store, m: Message, forced: string, place: Place)
    requires m.Sample?
  {
    var verdict := SampleSets(st, m, forced);
    verdict.InSets? && place.fragment in verdict.sets && place.key == KeyFromSample(MetaOf(m), m.point)
  }

  lemma SettledExactly(l: Ledger, point: Point, sets: seq<SetName>, key: Key, place: Place, other: Point)
    requires Inv(l) && point != "" && other != ""
    ensures var after, wanted := Settle(l, point, sets, key), place.key == key && place.fragment in sets;
            && Inv(after) && KeyOf(after, point) == key
            && (place in after.values <==> place in l.values && !(Owns(l, point, place) && !wanted))
            && (place in after.values ==> after.values[place] == l.values[place])
            && (Owns(after, other, place) <==>
                  if other == point then wanted && !Rivalled(l.owner, place, point) else Owns(l, other, place))
  {
    SettleKeeps(l, point, sets, key);
    SettleIs(l, point, sets, key, place, other);
    SettleValues(l, point, sets, key, place);
    SettleShrinks(l, point, sets, key);
    MoveKeeps(l, point, sets, key);
    ClaimAllKeys(Move(l, point, sets, key), sets, key, point);
    hide Inv, Move, ClaimAll, Rivalled, Tracked;
  }

  lemma {:induction false} ClaimAllKeys(l: Ledger, sets: seq<SetName>, key: Key, point: Point)
    ensures ClaimAll(l, sets, key, point).keys == l.keys
    decreases |sets|
  {
    if sets != [] {
      ClaimAllKeys(Claim(l, Place(sets[0], key), point), sets[1..], key, point);
    }
  }

  /** A point settled in its sets can have exactly the places it got. */
  lemma SettledClaimable(l: Ledger, point: Point, sets: seq<SetName>, key: Key, place: Place)
    requires Inv(l) && point != "" && place.key == key && place.fragment in sets
    ensures Claimable(Settle(l, point, sets, key), place, point) <==> !Rivalled(l.owner, place, point)
  {
    var after := Settle(l, point, sets, key);
    SettleKeeps(l, point, sets, key);
    ClaimableIs(after, place, point);
    hide Inv, Settle, Claimable;
    forall x
      ensures x in after.owner && after.owner[x] != point <==> x in l.owner && l.owner[x] != point
      ensures x in l.owner && l.owner[x] != point ==> x in after.owner && after.owner[x] == l.owner[x]
    {
      SettleFrame(l, point, sets, key, x);
    }
  }

  /** Placing a point and then valuing it, place by place. */
  lemma PlacedAndValued(l: Ledger, point: Point, sets: seq<SetName>, key: Key, value: Option<Value>, place: Place,
      other: Point)
    requires Inv(l) && point != "" && other != ""
    ensures var placed := Settle(l, point, sets, key);
            var after := if value.None? then placed else PutAll(placed, point, KeyOf(placed, point), sets, value.value);
            var wanted := place.key == key && place.fragment in sets;
            var got := wanted && !Rivalled(l.owner, place, point);
            && KeyOf(after, point) == key
            && (Owns(after, other, place) <==> if other == point then got else Owns(l, other, place))
            && (place in after.values <==>
                  (got && value.Some?) || (place in l.values && !(Owns(l, point, place) && !wanted)))
            && (place in after.values ==>
                  after.values[place] == if got && value.Some? then value.value else l.values[place])
  {
    SettledExactly(l, point, sets, key, place, other);
    var placed := Settle(l, point, sets, key);
    if place.key == key && place.fragment in sets {
      SettledClaimable(l, point, sets, key, place);
    }
    hide Inv, Settle, Rivalled, Claimable;
    if value.Some? {
      WrittenExactly(placed, point, sets, value.value, place, other);
      PutAllKeeps(placed, point, key, sets, value.value);
    }
  }

  /** What a sample does, as one operation on its point. */
  lemma SampleIs(st: Store, m: Message, forced: string)
    requires m.Sample?
    ensures var after, verdict := OnMessage(st, m, forced), SampleSets(st, m, forced);
            var l, sets, key := Fresh(st).ledger, SetsIn(verdict), KeyFromSample(MetaOf(m), m.point);
            var placed := Settle(l, m.point, sets, key);
            && after.ledger == (if !Describes(m) then l else if m.value.None? then placed
                  else PutAll(placed, m.point, KeyOf(placed, m.point), sets, m.value.value))
            && after.placement == (if Describes(m) then st.placement[m.point := verdict] else st.placement)
            && after.deviceType == (if m.deviceType != "" then m.deviceType else st.deviceType)
            && after.declared == st.declared && after.listed == st.listed
            && forall p :: p in after.protocols <==> p in st.protocols || p == m.protocol
  {
    hide Settle, SetsFromSample, KeyFromSample, PutAll, OnLinkStatus, OnCommand, OnCapabilities, KeyOf;
    var seen := SeenProtocol(Fresh(st), m.protocol);
    ProtocolSeen(Fresh(st), m.protocol);
    var typed := if m.deviceType != "" then seen.(deviceType := m.deviceType) else seen;
    assert NamesFor(typed, m.protocol, forced) == Names(forced, Qualifier(m.deviceType, st.deviceType, m.protocol));
    hide SeenProtocol, Fresh, NamesFor;
    if !Describes(m) {
      UndescribedSample(typed, m.protocol, forced);
      if m.value.Some? {
        PutNothing(typed.ledger, m.point, KeyOf(typed.ledger, m.point), m.value.value);
      }
    }
  }

  lemma ProtocolSeen(st: Store, protocol: Protocol)
    ensures var seen := SeenProtocol(st, protocol);
            && seen == st.(protocols := seen.protocols)
            && forall p :: p in seen.protocols <==> p in st.protocols || p == protocol
  {
  }

  /**
   * After a sample that describes its point, the point holds exactly those of its places that nobody
   * rivals it for. These carry the sample's value if it has one, what the point held elsewhere is gone,
   * and no other place has changed. A sample that describes nothing changes nothing.
   */
  lemma SampleExactly(st: Store, m: Message, forced: string, place: Place, other: Point)
    requires Inv(st.ledger) && m.Sample? && m.point != "" && other != ""
    ensures var l, after := st.ledger, OnMessage(st, m, forced).ledger;
            var wanted := SampledAt(st, m, forced, place);
            var got := wanted && !Rivalled(l.owner, place, m.point);
            if Describes(m) then
              && KeyOf(after, m.point) == KeyFromSample(MetaOf(m), m.point)
              && (Owns(after, other, place) <==> if other == m.point then got else Owns(l, other, place))
              && (place in after.values <==>
                    (got && m.value.Some?) || (place in l.values && !(Owns(l, m.point, place) && !wanted)))
              && (place in after.values ==>
                    after.values[place] == if got && m.value.Some? then m.value.value else l.values[place])
            else after == l.(changed := {})
  {
    SampleIs(st, m, forced);
    FreshKeeps(st);
    hide Inv, OnMessage, Settle, PutAll, Rivalled, SetsFromSample, KeyFromSample;
    var sets := SetsIn(SampleSets(st, m, forced));
    PlacedAndValued(Fresh(st).ledger, m.point, sets, KeyFromSample(MetaOf(m), m.point), m.value, place, other);
  }

  // ---- what a command reports ----

  predicate ReportedAt(results: seq<Result>, i: nat, point: Point)
    requires i < |results|
  {
    results[i].successful && results[i].point == Some(point) && results[i].value.Some?
  }

  /** The last successful result of the point carries the value. */
  ghost predicate LastReport(results: seq<Result>, point: Point, value: Value) {
    exists i: nat | i < |results| ::
      && ReportedAt(results, i, point) && results[i].value == Some(value)
      && forall j: nat | i < j < |results| :: !ReportedAt(results, j, point)
  }

  ghost predicate Reports(body: Body, point: Point, value: Value) {
    match body
    case Write(p, v) => p == Some(point) && v == Some(value)
    case Batch(_, results) => results.Some? && LastReport(results.value, point, value)
    case OtherVerb => false
  }

  lemma {:induction false} UpsertExactly(updates: seq<(Point, Value)>, point: Point, value: Value, p: Point, v: Value)
    requires OncePerPoint(updates)
    ensures (p, v) in Upsert(updates, point, value) <==>
            if p == point then v == value else (p, v) in updates
    decreases |updates|
  {
    if updates != [] {
      var head, rest := updates[0], updates[1..];
      HeadUpdate(updates, p);
      assert forall u :: u in updates <==> u == head || u in rest;
      if head.0 == point {
        assert forall u | u in rest :: u.0 != point by { HeadUpdate(updates, point); }
      } else {
        UpsertExactly(rest, point, value, p, v);
      }
    }
  }

  lemma LastReportHead(results: seq<Result>, point: Point, value: Value)
    requires results != []
    ensures LastReport(results, point, value) <==>
            || LastReport(results[1..], point, value)
            || (ReportedAt(results, 0, point) && results[0].value == Some(value)
                && forall v :: !LastReport(results[1..], point, v))
  {
    var rest := results[1..];
    assert forall j: nat | j < |rest| :: ReportedAt(rest, j, point) <==> ReportedAt(results, j + 1, point);
    assert forall j: nat | 0 < j < |results| :: ReportedAt(results, j, point) <==> ReportedAt(rest, j - 1, point);
    if LastReport(results, point, value) {
      var i: nat :| i < |results| && ReportedAt(results, i, point) && results[i].value == Some(value)
          && forall j: nat | i < j < |results| :: !ReportedAt(results, j, point);
      if i > 0 {
        assert ReportedAt(rest, i - 1, point);
      }
    } else if ReportedAt(results, 0, point) && results[0].value == Some(value)
        && forall v :: !LastReport(rest, point, v) {
      NoReport(rest, point);
    }
  }

  /** Without a last report there is none at all. */
  lemma {:induction false} NoReport(results: seq<Result>, point: Point)
    requires forall v :: !LastReport(results, point, v)
    ensures forall j: nat | j < |results| :: !ReportedAt(results, j, point)
  {
    var n := |results|;
    while n > 0
      invariant n <= |results| && forall j: nat | n <= j < |results| :: !ReportedAt(results, j, point)
    {
      if ReportedAt(results, n - 1, point) {
        assert LastReport(results, point, results[n - 1].value.value);
      }
      n := n - 1;
    }
  }

  lemma {:induction false} ResultUpdatesExactly(results: seq<Result>, updates: seq<(Point, Value)>, point: Point,
      value: Value)
    requires OncePerPoint(updates) && forall r | r in results :: r.point != Some("")
    ensures (point, value) in ResultUpdates(results, updates) <==>
            LastReport(results, point, value)
            || ((point, value) in updates && forall v :: !LastReport(results, point, v))
    decreases |results|
  {
    if results != [] {
      hide LastReport, OncePerPoint;
      var r, rest := results[0], results[1..];
      assert r in results;
      forall v
        ensures LastReport(results, point, v) <==>
                || LastReport(rest, point, v)
                || (ReportedAt(results, 0, point) && r.value == Some(v) && forall w :: !LastReport(rest, point, w))
      {
        LastReportHead(results, point, v);
      }
      if r.successful && r.point.Some? && r.value.Some? {
        UpsertOnce(updates, r.point.value, r.value.value);
        UpsertExactly(updates, r.point.value, r.value.value, point, value);
        ResultUpdatesExactly(rest, Upsert(updates, r.point.value, r.value.value), point, value);
      } else {
        ResultUpdatesExactly(rest, updates, point, value);
      }
    } else {
      assert forall v :: !LastReport([], point, v);
    }
  }

  /** A command updates each point to its last successful result, and no other. */
  lemma UpdatesExactly(body: Body, point: Point, value: Value)
    requires body.Batch? && body.results.Some? ==> forall r | r in body.results.value :: r.point != Some("")
    ensures (point, value) in UpdatesOf(body) <==> Reports(body, point, value)
  {
    hide LastReport;
    if body.Batch? && body.results.Some? {
      ResultUpdatesExactly(body.results.value, [], point, value);
    }
  }

  // ---- commands ----

  /** The points a command is about: of its writes, or of its results when it lists no writes. */
  ghost predicate NamedBy(body: Body, point: Point) {
    match body
    case Write(p, _) => p == Some(point)
    case Batch(writes, results) =>
      point != "" && if writes.Some? then Some(point) in writes.value
                     else results.Some? && exists r | r in results.value :: r.point == Some(point)
    case OtherVerb => false
  }

  lemma WrittenPointsExactly(body: Body, point: Point)
    ensures point in WrittenPoints(body) <==> NamedBy(body, point)
  {
    if body.Batch? && body.writes.None? && body.results.Some? {
      var results := body.results.value;
      var points := ResultPoints(results);
      assert Some(point) in points <==> exists r | r in results :: r.point == Some(point) by {
        if r :| r in results && r.point == Some(point) {
          var i :| 0 <= i < |results| && results[i] == r;
          assert points[i] == Some(point);
        }
      }
    }
  }

  /** The set a command says its points belong to, when it is a usable one. */
  predicate Originates(m: Message)
    requires m.Command?
  {
    m.origin.Some? && IsValidSet(m.origin.value)
  }

  /**
   * The sets a written point's value goes to: none if its connector has listed its points without it,
   * else those recorded for it, else the command's own, else the default one.
   */
  ghost function WrittenSets(st: Store, m: Message, forced: string, point: Point): seq<SetName>
    requires m.Command?
  {
    if m.protocol in st.listed && point !in st.listed[m.protocol] then []
    else if point in st.placement then SetsIn(st.placement[point])
    else if Originates(m) && NamedBy(m.body, point) then [m.origin.value]
    else [SetFor(Names(forced, Qualifier("", st.deviceType, m.protocol)), "")]
  }

  /** The store a command's results are applied to. */
  function Requested(st: Store, m: Message): Store
    requires m.Command?
  {
    Origin(Fresh(st), m)
  }

  function ListingOf(st: Store, m: Message): Option<seq<Point>>
    requires m.Command?
  {
    if m.protocol in st.listed then Some(st.listed[m.protocol]) else None
  }

  function DefaultFor(st: Store, m: Message, forced: string): SetName
    requires m.Command?
  {
    SetFor(NamesFor(st, m.protocol, forced), "")
  }

  /** A command records its set for the points it is about that have none recorded, and nothing else. */
  lemma OriginRecorded(st: Store, m: Message, point: Point)
    requires m.Command?
    ensures var after := Requested(st, m);
            && after == Fresh(st).(placement := after.placement)
            && (point in after.placement <==> point in st.placement || (Originates(m) && NamedBy(m.body, point)))
            && (point in after.placement ==>
                  after.placement[point] == if point in st.placement then st.placement[point]
                                            else InSets([m.origin.value]))
  {
    hide RecordOrigin, NamedBy, WrittenPoints, IsValidSet;
    WrittenPointsExactly(m.body, point);
    if Originates(m) {
      RecordOriginKeeps(Fresh(st), WrittenPoints(m.body), m.origin.value);
    }
  }

  lemma ResolvedSets(st: Store, m: Message, forced: string, point: Point)
    requires m.Command?
    ensures SetsIn(Resolve(Requested(st, m), point, ListingOf(st, m), DefaultFor(st, m, forced)))
         == WrittenSets(st, m, forced, point)
  {
    hide Originates, NamedBy, Requested;
    OriginRecorded(st, m, point);
  }

  /** The update puts its value at the place, if it can have it. */
  ghost predicate Hits(st: Store, configured: Option<seq<Point>>, fallback: SetName, u: (Point, Value), place: Place) {
    place.key == KeyOf(st.ledger, u.0) && place.fragment in SetsIn(Resolve(st, u.0, configured, fallback))
  }

  function Updated(st: Store, u: (Point, Value), configured: Option<seq<Point>>, fallback: SetName): Store {
    var sets := SetsIn(Resolve(st, u.0, configured, fallback));
    st.(ledger := PutAll(st.ledger, u.0, KeyOf(st.ledger, u.0), sets, u.1))
  }

  /** The first update, place by place. */
  lemma UpdateStep(st: Store, updates: seq<(Point, Value)>, configured: Option<seq<Point>>, fallback: SetName,
      place: Place)
    requires Inv(st.ledger) && updates != [] && updates[0].0 != ""
    ensures var (p, v) := updates[0];
            var l, next := st.ledger, Updated(st, updates[0], configured, fallback);
            var hit := Hits(st, configured, fallback, updates[0], place) && Claimable(l, place, p);
            && ApplyResults(st, updates, configured, fallback)
                == ApplyResults(next, updates[1..], configured, fallback)
            && Inv(next.ledger) && next.ledger.keys == l.keys
            && (place in next.ledger.owner <==> place in l.owner || hit)
            && (place in next.ledger.owner ==>
                  next.ledger.owner[place] == if place in l.owner then l.owner[place] else p)
            && (place in next.ledger.values <==> hit || place in l.values)
            && (place in next.ledger.values ==> next.ledger.values[place] == if hit then v else l.values[place])
  {
    var (p, v) := updates[0];
    var l, sets := st.ledger, SetsIn(Resolve(st, p, configured, fallback));
    PutAllKeeps(l, p, KeyOf(l, p), sets, v);
    var next := PutAll(l, p, KeyOf(l, p), sets, v);
    WrittenExactly(l, p, sets, v, place, p);
    OwnedIsClaimable(l, p, place);
    if place in l.owner {
      OwnersAreNamed(l, place);
      WrittenExactly(l, p, sets, v, place, l.owner[place]);
    }
    if place in next.owner {
      OwnersAreNamed(next, place);
      WrittenExactly(l, p, sets, v, place, next.owner[place]);
    }
    hide Inv, PutAll, Claimable, Resolve, Tracked;
  }

  lemma {:induction false} OwnersStay(st: Store, updates: seq<(Point, Value)>, configured: Option<seq<Point>>,
      fallback: SetName, place: Place)
    requires Inv(st.ledger) && place in st.ledger.owner && forall u | u in updates :: u.0 != ""
    ensures var after := ApplyResults(st, updates, configured, fallback).ledger;
            place in after.owner && after.owner[place] == st.ledger.owner[place]
    decreases |updates|
  {
    if updates != [] {
      assert updates[0] in updates;
      UpdateStep(st, updates, configured, fallback, place);
      hide Inv, PutAll, ApplyResults, Claimable, Hits, Resolve;
      OwnersStay(Updated(st, updates[0], configured, fallback), updates[1..], configured, fallback, place);
    }
  }

  lemma RivalsStay(st: Store, updates: seq<(Point, Value)>, configured: Option<seq<Point>>, fallback: SetName,
      place: Place, point: Point)
    requires Inv(st.ledger) && Rivalled(st.ledger.owner, place, point) && forall u | u in updates :: u.0 != ""
    ensures Rivalled(ApplyResults(st, updates, configured, fallback).ledger.owner, place, point)
  {
    hide Inv, ApplyResults;
    var owner := st.ledger.owner;
    var x :| x in owner && owner[x] != point && x.fragment == place.fragment && Rival(x.key, place.key);
    OwnersStay(st, updates, configured, fallback, x);
  }

  /** No update puts a value at the place and gets it. */
  ghost predicate Spared(st: Store, updates: seq<(Point, Value)>, configured: Option<seq<Point>>, fallback: SetName,
      after: Ledger, place: Place) {
    forall u | u in updates :: Hits(st, configured, fallback, u, place) ==> !Owns(after, u.0, place)
  }

  /** What becomes of the first update in the end. */
  lemma HeadExactly(st: Store, updates: seq<(Point, Value)>, configured: Option<seq<Point>>, fallback: SetName,
      place: Place)
    requires Inv(st.ledger) && OncePerPoint(updates) && updates != []
    requires Hits(st, configured, fallback, updates[0], place)
    ensures var after, p := ApplyResults(st, updates, configured, fallback).ledger, updates[0].0;
            && (Owns(after, p, place) <==> Claimable(st.ledger, place, p))
            && (Owns(after, p, place) <==> !Rivalled(after.owner, place, p))
  {
    var l, p, rest := st.ledger, updates[0].0, updates[1..];
    var next, after := Updated(st, updates[0], configured, fallback), ApplyResults(st, updates, configured, fallback);
    assert updates[0] in updates && forall x | x in rest :: x in updates;
    UpdateStep(st, updates, configured, fallback, place);
    ApplyResultsKeeps(st, updates, configured, fallback);
    ClaimableIs(l, place, p);
    ClaimableIs(after.ledger, place, p);
    OwnedIsClaimable(after.ledger, p, place);
    assert Claimable(l, place, p) && place in l.owner ==> l.owner[place] == p by { ClaimableOwner(l, place, p); }
    hide Inv, ApplyResults, Claimable, Hits, Rivalled, Updated, Tracked;
    if Claimable(l, place, p) {
      OwnersStay(next, rest, configured, fallback, place);
    } else {
      RivalsStay(st, updates, configured, fallback, place, p);
    }
  }

  lemma ClaimableOwner(l: Ledger, place: Place, point: Point)
    requires Inv(l)
    ensures Claimable(l, place, point) && place in l.owner ==> l.owner[place] == point
  {
  }

  /** A place that no update gets is as it was. */
  lemma {:induction false} SparedStays(st: Store, updates: seq<(Point, Value)>, configured: Option<seq<Point>>,
      fallback: SetName, place: Place)
    requires Inv(st.ledger) && OncePerPoint(updates)
    requires Spared(st, updates, configured, fallback, ApplyResults(st, updates, configured, fallback).ledger, place)
    ensures var l, after := st.ledger, ApplyResults(st, updates, configured, fallback).ledger;
            && (place in after.owner <==> place in l.owner)
            && (place in after.owner ==> after.owner[place] == l.owner[place])
            && (place in after.values <==> place in l.values)
            && (place in after.values ==> after.values[place] == l.values[place])
    decreases |updates|
  {
    if updates != [] {
      var u, rest := updates[0], updates[1..];
      assert u in updates && forall x | x in rest :: x in updates;
      HeadUpdate(updates, u.0);
      UpdateStep(st, updates, configured, fallback, place);
      hide Inv, ApplyResults, Claimable, Hits, Updated, OncePerPoint, Rivalled;
      if Hits(st, configured, fallback, u, place) {
        HeadExactly(st, updates, configured, fallback, place);
      }
      var next := Updated(st, u, configured, fallback);
      NextHits(st, u, configured, fallback, place);
      SparedStays(next, rest, configured, fallback, place);
    }
  }

  /** An update that puts a value at a place has it in the end, unless the place is rivalled by then. */
  lemma {:induction false} UpdateLands(st: Store, updates: seq<(Point, Value)>, configured: Option<seq<Point>>,
      fallback: SetName, u: (Point, Value), place: Place)
    requires Inv(st.ledger) && OncePerPoint(updates) && u in updates && Hits(st, configured, fallback, u, place)
    ensures var after := ApplyResults(st, updates, configured, fallback).ledger;
            && (Owns(after, u.0, place) <==> !Rivalled(after.owner, place, u.0))
            && (Owns(after, u.0, place) ==> place in after.values && after.values[place] == u.1)
    decreases |updates|
  {
    hide Inv, ApplyResults, Claimable, Hits, Updated, OncePerPoint, Rivalled, Owns;
    var head, rest := updates[0], updates[1..];
    var next := Updated(st, head, configured, fallback);
    HeadUpdate(updates, u.0);
    UpdateStep(st, updates, configured, fallback, place);
    NextHits(st, head, configured, fallback, place);
    if u == head {
      HeadExactly(st, updates, configured, fallback, place);
      if Owns(ApplyResults(next, rest, configured, fallback).ledger, u.0, place) {
        OnlyOneOwns(ApplyResults(next, rest, configured, fallback).ledger, rest, u.0, place);
        SparedStays(next, rest, configured, fallback, place);
        GotFirst(st, updates, configured, fallback, place);
      }
    } else {
      assert u in rest by { assert updates == [head] + rest; }
      UpdateLands(next, rest, configured, fallback, u, place);
    }
  }

  lemma NextHits(st: Store, head: (Point, Value), configured: Option<seq<Point>>, fallback: SetName, place: Place)
    requires Updated(st, head, configured, fallback).ledger.keys == st.ledger.keys
    ensures var next := Updated(st, head, configured, fallback);
            forall x :: Hits(next, configured, fallback, x, place) <==> Hits(st, configured, fallback, x, place)
  {
    hide PutAll;
  }

  lemma OnlyOneOwns(after: Ledger, updates: seq<(Point, Value)>, point: Point, place: Place)
    requires Owns(after, point, place) && !Updates(updates, point)
    ensures forall x | x in updates :: !Owns(after, x.0, place)
  {
  }

  /** The first update has put its value by the time the others come. */
  lemma GotFirst(st: Store, updates: seq<(Point, Value)>, configured: Option<seq<Point>>, fallback: SetName,
      place: Place)
    requires Inv(st.ledger) && updates != [] && updates[0].0 != "" && Hits(st, configured, fallback, updates[0], place)
    requires Claimable(st.ledger, place, updates[0].0)
    ensures var next := Updated(st, updates[0], configured, fallback).ledger;
            place in next.values && next.values[place] == updates[0].1
  {
    UpdateStep(st, updates, configured, fallback, place);
  }

  // ---- the message ----

  /** One of the sets a written point's value goes to, under its key. */
  ghost predicate WrittenTo(st: Store, m: Message, forced: string, point: Point, place: Place)
    requires m.Command?
  {
    place.key == KeyOf(st.ledger, point) && place.fragment in WrittenSets(st, m, forced, point)
  }

  lemma CommandIs(st: Store, m: Message, forced: string)
    requires m.Command?
    ensures OnMessage(st, m, forced) ==
            if m.status != Successful then Requested(st, m)
            else ApplyResults(Requested(st, m), UpdatesOf(m.body), ListingOf(st, m), DefaultFor(st, m, forced))
  {
    hide Origin, ApplyResults, UpdatesOf, SetFor;
  }

  lemma HitsIs(st: Store, m: Message, forced: string, u: (Point, Value), place: Place)
    requires m.Command?
    ensures Hits(Requested(st, m), ListingOf(st, m), DefaultFor(st, m, forced), u, place)
        <==> WrittenTo(st, m, forced, u.0, place)
  {
    hide WrittenSets, Resolve, Requested;
    ResolvedSets(st, m, forced, u.0);
    OriginRecorded(st, m, u.0);
  }

  lemma CommandUpdates(m: Message)
    requires m.Command? && WellFormed(m)
    ensures OncePerPoint(UpdatesOf(m.body))
  {
    if m.body.Batch? && m.body.results.Some? {
      ResultUpdatesOnce(m.body.results.value, []);
    }
  }

  /**
   * After a successful write or batch every point carries the value of its last successful result at each
   * place of the sets it resolves to, unless somebody else holds the place or gives its set the other
   * shape by then. It is exactly these places that change.
   */
  lemma CommandExactly(st: Store, m: Message, forced: string, place: Place, point: Point, value: Value)
    requires Inv(st.ledger) && m.Command? && WellFormed(m)
    ensures var l, after := st.ledger, OnMessage(st, m, forced).ledger;
            && (m.status != Successful ==> after == l.(changed := {}))
            && (place in l.owner ==> place in after.owner && after.owner[place] == l.owner[place])
            && (m.status == Successful && Reports(m.body, point, value) && WrittenTo(st, m, forced, point, place) ==>
                  && (Owns(after, point, place) <==> !Rivalled(after.owner, place, point))
                  && (Owns(after, point, place) ==> place in after.values && after.values[place] == value))
            && (m.status == Successful && Ungot(st, m, forced, after, place) ==>
                  && (place in after.owner <==> place in l.owner)
                  && (place in after.owner ==> after.owner[place] == l.owner[place])
                  && (place in after.values <==> place in l.values)
                  && (place in after.values ==> after.values[place] == l.values[place]))
  {
    CommandIs(st, m, forced);
    OriginRecorded(st, m, point);
    FreshKeeps(st);
    CommandUpdates(m);
    var updates, after := UpdatesOf(m.body), OnMessage(st, m, forced).ledger;
    hide Inv, OnMessage, Requested, ApplyResults, Rivalled, UpdatesOf, Reports, Hits, WrittenTo, ListingOf, DefaultFor,
      OncePerPoint;
    if m.status == Successful {
      if place in st.ledger.owner {
        OwnersStay(Requested(st, m), updates, ListingOf(st, m), DefaultFor(st, m, forced), place);
      }
      if Reports(m.body, point, value) && WrittenTo(st, m, forced, point, place) {
        UpdatesExactly(m.body, point, value);
        HitsIs(st, m, forced, (point, value), place);
        UpdateLands(Requested(st, m), updates, ListingOf(st, m), DefaultFor(st, m, forced), (point, value), place);
      }
      if Ungot(st, m, forced, after, place) {
        forall u | u in updates && Hits(Requested(st, m), ListingOf(st, m), DefaultFor(st, m, forced), u, place)
          ensures !Owns(after, u.0, place)
        {
          UpdatesExactly(m.body, u.0, u.1);
          HitsIs(st, m, forced, u, place);
        }
        SparedStays(Requested(st, m), updates, ListingOf(st, m), DefaultFor(st, m, forced), place);
      }
    }
  }

  /** No point that reports a value for the place holds it. */
  ghost predicate Ungot(st: Store, m: Message, forced: string, after: Ledger, place: Place)
    requires m.Command?
  {
    forall p, v | Reports(m.body, p, v) && WrittenTo(st, m, forced, p, place) :: !Owns(after, p, place)
  }

  /** The sets a command records for points that had none, and that it changes nothing else about them. */
  lemma CommandRecords(st: Store, m: Message, forced: string, point: Point)
    requires m.Command?
    ensures var after := OnMessage(st, m, forced);
            && after == st.(ledger := after.ledger, placement := after.placement)
            && (point in after.placement <==> point in st.placement || (Originates(m) && NamedBy(m.body, point)))
            && (point in after.placement ==>
                  after.placement[point] == if point in st.placement then st.placement[point]
                                            else InSets([m.origin.value]))
  {
    hide Requested, ApplyResults, UpdatesOf, OnMessage, NamedBy;
    CommandIs(st, m, forced);
    OriginRecorded(st, m, point);
    ResultsContext(Requested(st, m), UpdatesOf(m.body), ListingOf(st, m), DefaultFor(st, m, forced));
  }

  lemma {:induction false} ResultsContext(st: Store, updates: seq<(Point, Value)>, configured: Option<seq<Point>>,
      fallback: SetName)
    ensures var after := ApplyResults(st, updates, configured, fallback); after == st.(ledger := after.ledger)
    decreases |updates|
  {
    hide PutAll;
    if updates != [] {
      ResultsContext(Updated(st, updates[0], configured, fallback), updates[1..], configured, fallback);
    }
  }

  // ---- exactly the fragments that differ are announced ----

  function ValueAt(l: Ledger, place: Place): Option<Value> {
    if place in l.values then Some(l.values[place]) else None
  }

  /** Some value of the fragment is another one, or there on one side only. */
  ghost predicate Differs(a: Ledger, b: Ledger, fragment: SetName) {
    exists pl: Place | pl.fragment == fragment :: ValueAt(a, pl) != ValueAt(b, pl)
  }

  /** From `a` to `b` values were only removed, and every fragment announced since lost one. */
  ghost predicate Removed(a: Ledger, b: Ledger) {
    && (forall pl | pl in b.values :: pl in a.values && a.values[pl] == b.values[pl])
    && forall s | s in b.changed && s !in a.changed :: LostOne(a, b, s)
  }

  ghost predicate LostOne(a: Ledger, b: Ledger, fragment: SetName) {
    exists pl: Place | pl.fragment == fragment :: pl in a.values && pl !in b.values
  }

  lemma RemovedTransitive(a: Ledger, b: Ledger, c: Ledger)
    requires Removed(a, b) && Removed(b, c)
    ensures Removed(a, c)
  {
    forall s | s in c.changed && s !in a.changed
      ensures LostOne(a, c, s)
    {
      if s in b.changed {
        var pl: Place :| pl.fragment == s && pl in a.values && pl !in b.values;
      } else {
        var pl: Place :| pl.fragment == s && pl in b.values && pl !in c.values;
      }
    }
  }

  lemma DropRemoves(l: Ledger, point: Point, places: seq<Place>)
    requires Inv(l) && forall pl | pl in places :: pl in ClaimsOf(l, point)
    ensures Removed(l, DropAll(l, point, places))
  {
    hide Inv, DropAll, Tracked;
    DropAllKeeps(l, point, places);
    var after := DropAll(l, point, places);
    forall s | s in after.changed && s !in l.changed
      ensures LostOne(l, after, s)
    {
      var pl :| pl in places && pl in l.values && pl.fragment == s;
    }
  }

  lemma SettleRemoves(l: Ledger, point: Point, sets: seq<SetName>, key: Key)
    requires Inv(l) && point != ""
    ensures Removed(l, Settle(l, point, sets, key))
  {
    hide Inv, DropAll, ClaimAll, LostOne, Tracked;
    DropRemoves(l, point, Leaving(ClaimsOf(l, point), sets, key));
    MoveKeeps(l, point, sets, key);
    var left, m := DropAll(l, point, Leaving(ClaimsOf(l, point), sets, key)), Move(l, point, sets, key);
    ClaimAllKeeps(m, sets, key, point);
    SameValuesRemoved(l, left, Settle(l, point, sets, key));
  }

  lemma SameValuesRemoved(a: Ledger, b: Ledger, c: Ledger)
    requires Removed(a, b) && c.values == b.values && c.changed == b.changed
    ensures Removed(a, c)
  {
    forall s | s in c.changed && s !in a.changed
      ensures LostOne(a, c, s)
    {
      assert LostOne(a, b, s);
    }
  }

  lemma {:induction false} GiveUpRemoves(l: Ledger, entries: seq<Entry>, wanted: map<Place, Point>)
    requires Inv(l)
    ensures Removed(l, GiveUp(l, entries, wanted))
    decreases |entries|
  {
    if entries != [] {
      hide Inv, DropAll, Dropped, Tracked, Removed;
      var p := entries[0].point;
      var gone := Yielded(ClaimsOf(l, p), p, wanted);
      DropAllKeeps(l, p, gone);
      DropRemoves(l, p, gone);
      GiveUpRemoves(DropAll(l, p, gone), entries[1..], wanted);
      RemovedTransitive(l, DropAll(l, p, gone), GiveUp(l, entries, wanted));
    } else {
      assert Removed(l, l);
    }
  }

  lemma {:induction false} PlaceAllRemoves(st: Store, entries: seq<Entry>)
    requires Inv(st.ledger) && Named(entries)
    ensures Removed(st.ledger, PlaceAll(st, entries).ledger)
    decreases |entries|
  {
    if entries != [] {
      hide Inv, Settle, Tracked, Removed;
      var e := entries[0];
      assert e in entries;
      SettleRemoves(st.ledger, e.point, e.sets, e.key);
      SettleKeeps(st.ledger, e.point, e.sets, e.key);
      var next := PlacePoint(st, e.point, InSets(e.sets), e.key);
      PlaceAllRemoves(next, entries[1..]);
      RemovedTransitive(st.ledger, next.ledger, PlaceAll(st, entries).ledger);
    } else {
      assert Removed(st.ledger, st.ledger);
    }
  }

  lemma ApplyDeclarationsRemoves(st: Store, protocol: Protocol, forced: string)
    requires Inv(st.ledger)
    ensures Removed(st.ledger, ApplyDeclarations(st, protocol, forced).ledger)
  {
    hide Inv, GiveUp, PlaceAll, Plan, Wanted, Removed, Tracked;
    var entries := Plan(DeclaredBy(st, protocol), NamesFor(st, protocol, forced));
    PlanNamed(DeclaredBy(st, protocol), NamesFor(st, protocol, forced));
    var freed := GiveUp(st.ledger, entries, Wanted(entries, map[]));
    GiveUpKeeps(st.ledger, entries, Wanted(entries, map[]));
    GiveUpRemoves(st.ledger, entries, Wanted(entries, map[]));
    PlaceAllRemoves(st.(ledger := freed), entries);
    RemovedTransitive(st.ledger, freed, ApplyDeclarations(st, protocol, forced).ledger);
  }

  lemma ReleaseRemoves(st: Store, entry: Declaration)
    requires Inv(st.ledger)
    ensures Removed(st.ledger, Release(st, entry).ledger)
  {
    hide Inv, DropAll, LostOne;
    var l, p := st.ledger, entry.point;
    DropRemoves(l, p, ClaimsOf(l, p));
    SameValuesRemoved(l, DropAll(l, p, ClaimsOf(l, p)), Forget(st.(ledger := DropAll(l, p, ClaimsOf(l, p))), p).ledger);
  }

  lemma {:induction false} ReleaseAllRemoves(st: Store, before: seq<Declaration>, declared: seq<Declaration>)
    requires Inv(st.ledger)
    ensures Removed(st.ledger, ReleaseAll(st, before, declared).ledger)
    decreases |before|
  {
    if before != [] {
      hide Inv, Release, Removed, Tracked;
      ReleaseRemoves(st, before[0]);
      ReleaseKeeps(st, before[0]);
      assert Removed(st.ledger, st.ledger) by { NothingRemoved(st.ledger); }
      var next := if before[0].point == "" || Declares(declared, before[0].point) then st else Release(st, before[0]);
      ReleaseAllRemoves(next, before[1..], declared);
      RemovedTransitive(st.ledger, next.ledger, ReleaseAll(st, before, declared).ledger);
    } else {
      NothingRemoved(st.ledger);
    }
  }

  lemma NothingRemoved(l: Ledger)
    ensures Removed(l, l)
  {
  }

  lemma PruneRemoves(st: Store, configured: seq<Point>)
    ensures Removed(st.ledger, Prune(st, configured).ledger)
  {
    var l, after := st.ledger, Prune(st, configured).ledger;
    forall s | s in after.changed && s !in l.changed
      ensures LostOne(l, after, s)
    {
      var pl :| pl in l.values && pl in l.owner && l.owner[pl] in l.claimants && l.owner[pl] !in configured
          && pl.fragment == s;
    }
  }

  /** A fragment announced by a write got a value it did not carry. */
  lemma {:induction false} PutAllAnnounces(l: Ledger, point: Point, key: Key, sets: seq<SetName>, value: Value,
      s: SetName)
    requires Inv(l) && point != "" && key == KeyOf(l, point)
    requires s in PutAll(l, point, key, sets, value).changed && s !in l.changed
    ensures s in sets && Claimable(l, Place(s, key), point) && ValueAt(l, Place(s, key)) != Some(value)
    decreases |sets|
  {
    var first, rest := Place(sets[0], key), sets[1..];
    var one := PutValue(l, point, first, value);
    PutValueKeeps(l, point, first, value);
    PutAnnouncesOne(l, point, first, value);
    if s !in one.changed {
      PutAllAnnounces(one, point, key, rest, value, s);
      PutValueClaimable(l, point, first, value, Place(s, key));
      PutValueAt(l, point, first, value, Place(s, key));
      hide Inv, PutValue, Claimable, Tracked;
    }
  }

  lemma PutAnnouncesOne(l: Ledger, point: Point, place: Place, value: Value)
    ensures var one := PutValue(l, point, place, value);
            one.changed == (if Claimable(l, place, point) && ValueAt(l, place) != Some(value)
                            then l.changed + {place.fragment} else l.changed)
  {
    hide ShapeTaken;
  }

  lemma SampleAnnounces(st: Store, m: Message, forced: string, s: SetName)
    requires Inv(st.ledger) && m.Sample? && m.point != "" && s in OnMessage(st, m, forced).ledger.changed
    ensures Differs(st.ledger, OnMessage(st, m, forced).ledger, s)
  {
    var l, key, sets := Fresh(st).ledger, KeyFromSample(MetaOf(m), m.point), SetsIn(SampleSets(st, m, forced));
    var placed, after := Settle(l, m.point, sets, key), OnMessage(st, m, forced).ledger;
    SampleIs(st, m, forced);
    FreshKeeps(st);
    hide Inv, OnMessage, Settle, PutAll, SetsFromSample, KeyFromSample, Claimable, Rivalled, Fresh;
    assert l == st.ledger.(changed := {}) by { FreshIs(st); }
    assert Describes(m);
    SettleRemoves(l, m.point, sets, key);
    if s in placed.changed {
      var pl: Place :| pl.fragment == s && pl in l.values && pl !in placed.values;
      SettledExactly(l, m.point, sets, key, pl, m.point);
      PlacedAndValued(l, m.point, sets, key, m.value, pl, m.point);
      assert ValueAt(st.ledger, pl) != ValueAt(after, pl);
    } else {
      var pl := Place(s, key);
      SettledExactly(l, m.point, sets, key, pl, m.point);
      PutAllAnnounces(placed, m.point, key, sets, m.value.value, s);
      SettledClaimable(l, m.point, sets, key, pl);
      PlacedAndValued(l, m.point, sets, key, m.value, pl, m.point);
      assert ValueAt(st.ledger, pl) != ValueAt(after, pl);
    }
  }

  lemma FreshIs(st: Store)
    ensures Fresh(st).ledger == st.ledger.(changed := {})
  {
  }

  /** The update put a value at the point's place of the fragment that was not there before. */
  ghost predicate News(st: Store, configured: Option<seq<Point>>, fallback: SetName, u: (Point, Value), after: Ledger,
      s: SetName) {
    var pl := Place(s, KeyOf(st.ledger, u.0));
    Hits(st, configured, fallback, u, pl) && Owns(after, u.0, pl) && ValueAt(st.ledger, pl) != Some(u.1)
  }

  lemma {:induction false} ResultsAnnounce(st: Store, updates: seq<(Point, Value)>, configured: Option<seq<Point>>,
      fallback: SetName, s: SetName) returns (u: (Point, Value))
    requires Inv(st.ledger) && OncePerPoint(updates)
    requires s in ApplyResults(st, updates, configured, fallback).ledger.changed && s !in st.ledger.changed
    ensures u in updates
    ensures News(st, configured, fallback, u, ApplyResults(st, updates, configured, fallback).ledger, s)
    decreases |updates|
  {
    hide Inv, Claimable, Updated, OncePerPoint, Resolve, News;
    var head, rest := updates[0], updates[1..];
    var next := Updated(st, head, configured, fallback);
    HeadUpdate(updates, head.0);
    UpdateStep(st, updates, configured, fallback, Place(s, ""));
    if s in next.ledger.changed {
      HeadNews(st, updates, configured, fallback, s);
      u := head;
    } else {
      u := ResultsAnnounce(next, rest, configured, fallback, s);
      assert u in updates by { assert updates == [head] + rest; }
      TailNews(st, updates, configured, fallback, u, s);
    }
  }

  lemma HeadNews(st: Store, updates: seq<(Point, Value)>, configured: Option<seq<Point>>, fallback: SetName, s: SetName)
    requires Inv(st.ledger) && OncePerPoint(updates) && updates != []
    requires s in Updated(st, updates[0], configured, fallback).ledger.changed && s !in st.ledger.changed
    ensures News(st, configured, fallback, updates[0], ApplyResults(st, updates, configured, fallback).ledger, s)
  {
    var l, head := st.ledger, updates[0];
    HeadUpdate(updates, head.0);
    PutAllAnnounces(l, head.0, KeyOf(l, head.0), SetsIn(Resolve(st, head.0, configured, fallback)), head.1, s);
    hide Inv, Claimable, OncePerPoint, Resolve, PutAll, ApplyResults, KeyOf;
    HeadExactly(st, updates, configured, fallback, Place(s, KeyOf(l, head.0)));
  }

  lemma TailNews(st: Store, updates: seq<(Point, Value)>, configured: Option<seq<Point>>, fallback: SetName,
      u: (Point, Value), s: SetName)
    requires Inv(st.ledger) && OncePerPoint(updates) && updates != [] && u in updates[1..]
    requires var next, after := Updated(st, updates[0], configured, fallback),
                 ApplyResults(st, updates, configured, fallback).ledger;
             News(next, configured, fallback, u, after, s)
    ensures News(st, configured, fallback, u, ApplyResults(st, updates, configured, fallback).ledger, s)
  {
    var l, head, rest := st.ledger, updates[0], updates[1..];
    var next := Updated(st, head, configured, fallback);
    HeadUpdate(updates, head.0);
    var pl := Place(s, KeyOf(next.ledger, u.0));
    UpdateStep(st, updates, configured, fallback, pl);
    assert pl == Place(s, KeyOf(l, u.0));
    NextHits(st, head, configured, fallback, pl);
    ClaimableOwner(l, pl, head.0);
    hide Inv, Claimable, OncePerPoint, Resolve, PutAll, ApplyResults, KeyOf, Updated, Hits;
    if pl in next.ledger.owner && next.ledger.owner[pl] == head.0 {
      NamesIn(rest);
      OwnersStay(next, rest, configured, fallback, pl);
    }
  }

  lemma NamesIn(updates: seq<(Point, Value)>)
    requires OncePerPoint(updates)
    ensures forall u | u in updates :: u.0 != ""
  {
  }

  lemma CommandAnnounces(st: Store, m: Message, forced: string, s: SetName)
    requires Inv(st.ledger) && m.Command? && WellFormed(m) && s in OnMessage(st, m, forced).ledger.changed
    ensures Differs(st.ledger, OnMessage(st, m, forced).ledger, s)
  {
    CommandIs(st, m, forced);
    OriginRecorded(st, m, "");
    FreshKeeps(st);
    FreshIs(st);
    CommandUpdates(m);
    hide Inv, OnMessage, Requested, ApplyResults, UpdatesOf, Hits, ListingOf, DefaultFor, OncePerPoint, Fresh;
    var st', updates, after := Requested(st, m), UpdatesOf(m.body), OnMessage(st, m, forced).ledger;
    var u := ResultsAnnounce(st', updates, ListingOf(st, m), DefaultFor(st, m, forced), s);
    var pl := Place(s, KeyOf(st'.ledger, u.0));
    UpdateLands(st', updates, ListingOf(st, m), DefaultFor(st, m, forced), u, pl);
    assert ValueAt(st.ledger, pl) != ValueAt(after, pl);
  }

  /** Link statuses and descriptors store no value: they only remove some. */
  lemma OnlyRemoves(st: Store, m: Message, forced: string)
    requires Inv(st.ledger) && (m.LinkStatus? || m.Capabilities?)
    ensures Removed(Fresh(st).ledger, OnMessage(st, m, forced).ledger)
  {
    hide Inv, Prune, ApplyDeclarations, ReleaseAll, Tracked, LostOne;
    var start := Fresh(st);
    FreshKeeps(st);
    match m
    case LinkStatus(protocol, _, _) =>
      var informed := Informed(start, m);
      var configured := ConfiguredPoints(informed);
      var pruned := if configured.Some? then Prune(informed, configured.value) else informed;
      if configured.Some? {
        PruneRemoves(informed, configured.value);
        PruneKeeps(informed, configured.value);
      } else {
        NothingRemoved(informed.ledger);
      }
      ApplyDeclarationsRemoves(pruned, protocol, forced);
      RemovedTransitive(start.ledger, pruned.ledger, OnMessage(st, m, forced).ledger);
    case Capabilities(protocol, declared) =>
      var released := ReleaseAll(start, DeclaredBy(start, protocol), declared);
      ReleaseAllRemoves(start, DeclaredBy(start, protocol), declared);
      ReleaseAllKeeps(start, DeclaredBy(start, protocol), declared);
      ApplyDeclarationsRemoves(released.(declared := released.declared[protocol := declared]), protocol, forced);
      RemovedTransitive(start.ledger, released.ledger, OnMessage(st, m, forced).ledger);
  }

  /**
   * A message announces a fragment, and so publishes its twin, if and only if one of its values differs
   * from before.
   */
  lemma AnnouncesExactly(st: Store, m: Message, forced: string, fragment: SetName)
    requires Inv(st.ledger) && WellFormed(m)
    ensures var after := OnMessage(st, m, forced).ledger;
            fragment in after.changed <==> Differs(st.ledger, after, fragment)
  {
    hide Inv, OnMessage, Removed;
    OnMessageKeeps(st, m, forced);
    FreshIs(st);
    if fragment in OnMessage(st, m, forced).ledger.changed {
      match m
      case Sample(_, _, _, _, _, _) => SampleAnnounces(st, m, forced, fragment);
      case Command(_, _, _, _) => CommandAnnounces(st, m, forced, fragment);
      case _ =>
        OnlyRemoves(st, m, forced);
        RemovedDiffers(Fresh(st).ledger, OnMessage(st, m, forced).ledger, fragment);
    }
  }

  lemma RemovedDiffers(a: Ledger, b: Ledger, s: SetName)
    requires Removed(a, b) && s in b.changed && s !in a.changed
    ensures Differs(a, b, s)
  {
    assert LostOne(a, b, s);
    var pl: Place :| pl.fragment == s && pl in a.values && pl !in b.values;
    assert ValueAt(a, pl) != ValueAt(b, pl);
  }

  /** A live device's store is that of the run of its messages; publishing leaves it alone. */
  lemma {:induction false} LiveRunsTheStore(w: World, messages: seq<Message>, forced: string)
    ensures Live(w, messages, forced).store == Run(w.store, messages, forced)
    decreases |messages|
  {
    if messages != [] {
      hide OnMessage, Publish;
      LiveRunsTheStore(Handle(w, messages[0], forced), messages[1..], forced);
    }
  }

  /** A message more. */
  lemma {:induction false} RunMore(st: Store, messages: seq<Message>, m: Message, forced: string)
    ensures Run(st, messages + [m], forced) == OnMessage(Run(st, messages, forced), m, forced)
    decreases |messages|
  {
    hide OnMessage;
    if messages == [] {
      assert [] + [m] == [m] && [m][1..] == [];
    } else {
      assert (messages + [m])[1..] == messages[1..] + [m];
      RunMore(OnMessage(st, messages[0], forced), messages[1..], m, forced);
    }
  }
}
