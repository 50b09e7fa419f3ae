/**
 * Exactly which runs keep all fragments that carry a point in agreement: those in which no write
 * result gives the point a new value in some of its sets while it carries another one elsewhere.
 */
module ParameterSplits {
  import opened Common
  import opened Naming
  import opened ParameterStore
  import opened ParameterInvariants
  import opened ParameterTwin
  import opened ParameterDeclarations
  import opened ParameterAgreement

  // ---- the condition ----

  /** Applying the updates comes to one of the point that splits it. */
  ghost predicate ResultsSplit(st: Store, updates: seq<(Point, Value)>, configured: Option<seq<Point>>,
      fallback: SetName, point: Point)
    decreases |updates|
  {
    updates != [] &&
    var (p, value) := updates[0];
    var sets := SetsIn(Resolve(st, p, configured, fallback));
    || (p == point && Splits(st.ledger, point, sets, value))
    || ResultsSplit(st.(ledger := PutAll(st.ledger, p, KeyOf(st.ledger, p), sets, value)), updates[1..], configured,
        fallback, point)
  }

  /** The message is a successful write that splits the point. */
  ghost predicate SplitBy(st: Store, m: Message, forced: string, point: Point) {
    && m.Command? && m.status == Successful
    && ResultsSplit(Origin(Fresh(st), m), UpdatesOf(m.body), if m.protocol in st.listed
        then Some(st.listed[m.protocol]) else None,
                    SetFor(NamesFor(st, m.protocol, forced), ""), point)
  }

  ghost predicate NeverSplit(st: Store, messages: seq<Message>, forced: string, point: Point)
    decreases |messages|
  {
    messages == [] ||
    (!SplitBy(st, messages[0], forced, point)
        && NeverSplit(OnMessage(st, messages[0], forced), messages[1..], forced, point))
  }

  /** After each message of the run, all fragments that carry the point agree on its value. */
  ghost predicate AgreesThroughout(st: Store, messages: seq<Message>, forced: string, point: Point)
    decreases |messages|
  {
    messages == [] ||
    var next := OnMessage(st, messages[0], forced);
    AgreeOn(next.ledger, point) && AgreesThroughout(next, messages[1..], forced, point)
  }

  // ---- messages that write nothing ----

  lemma ShrunkAgrees(a: Ledger, b: Ledger, point: Point)
    requires Inv(a) && Shrunk(a, b) && AgreeOn(a, point)
    ensures AgreeOn(b, point)
  {
    forall pl | Owns(b, point, pl) && pl in b.values
      ensures Owns(a, point, pl) && pl in a.values && a.values[pl] == b.values[pl]
    {
      ValuedIsOwned(a, pl);
    }
  }

  lemma ReleaseShrinks(st: Store, entry: Declaration)
    requires Inv(st.ledger)
    ensures Shrunk(st.ledger, Release(st, entry).ledger)
  {
    hide Inv, DropAll;
    DropShrinks(st.ledger, entry.point, ClaimsOf(st.ledger, entry.point));
  }

  lemma {:induction false} ReleaseAllAgrees(st: Store, before: seq<Declaration>, declared: seq<Declaration>,
      point: Point)
    requires Inv(st.ledger) && AgreeOn(st.ledger, point)
    ensures AgreeOn(ReleaseAll(st, before, declared).ledger, point)
    decreases |before|
  {
    if before != [] {
      hide Inv, AgreeOn, Release, Tracked, Shrunk;
      ReleaseShrinks(st, before[0]);
      ReleaseKeeps(st, before[0]);
      ShrunkAgrees(st.ledger, Release(st, before[0]).ledger, point);
      ReleaseAllAgrees(if before[0].point == "" || Declares(declared, before[0].point) then st
          else Release(st, before[0]),
        before[1..], declared, point);
    }
  }

  lemma DeclarationsAgree(st: Store, protocol: Protocol, forced: string, point: Point)
    requires Inv(st.ledger) && AgreeOn(st.ledger, point)
    ensures AgreeOn(ApplyDeclarations(st, protocol, forced).ledger, point)
  {
    hide Inv, AgreeOn, ApplyEntries, Plan, Shrunk;
    var entries := Plan(DeclaredBy(st, protocol), NamesFor(st, protocol, forced));
    PlanNamed(DeclaredBy(st, protocol), NamesFor(st, protocol, forced));
    ApplyEntriesShrinks(st, entries);
    ShrunkAgrees(st.ledger, ApplyEntries(st, entries).ledger, point);
  }

  lemma PruneAgrees(st: Store, configured: seq<Point>, point: Point)
    requires Inv(st.ledger) && AgreeOn(st.ledger, point)
    ensures AgreeOn(Prune(st, configured).ledger, point)
  {
    hide Inv;
    ShrunkAgrees(st.ledger, Prune(st, configured).ledger, point);
  }

  // ---- writes ----

  /** From `a` to `b` the point holds the same places with the same values. */
  ghost predicate SameHoldings(a: Ledger, b: Ledger, point: Point) {
    forall pl :: (Owns(a, point, pl) <==> Owns(b, point, pl))
      && (Owns(a, point, pl) ==>
            && (pl in a.values <==> pl in b.values)
            && (pl in a.values ==> a.values[pl] == b.values[pl]))
  }

  lemma SameHoldingsAgree(a: Ledger, b: Ledger, point: Point)
    requires SameHoldings(a, b, point)
    ensures AgreeOn(a, point) <==> AgreeOn(b, point)
  {
  }

  lemma OtherPutOne(l: Ledger, other: Point, place: Place, value: Value, point: Point)
    requires Inv(l) && other != "" && other != point && point != ""
    ensures SameHoldings(l, PutValue(l, other, place, value), point)
  {
    var one := PutValue(l, other, place, value);
    PutValueOwner(l, other, place, value);
    ClaimOwner(l, place, other, place);
  }

  /** A value put for another point leaves the point with what it held. */
  lemma {:induction false} OtherPutKeeps(l: Ledger, other: Point, key: Key, sets: seq<SetName>, value: Value,
      point: Point)
    requires Inv(l) && other != "" && other != point && point != "" && key == KeyOf(l, other)
    ensures SameHoldings(l, PutAll(l, other, key, sets, value), point)
    decreases |sets|
  {
    if sets != [] {
      hide Inv, PutValue, Tracked, SameHoldings;
      var one := PutValue(l, other, Place(sets[0], key), value);
      PutValueKeeps(l, other, Place(sets[0], key), value);
      OtherPutOne(l, other, Place(sets[0], key), value, point);
      OtherPutKeeps(one, other, key, sets[1..], value, point);
      SameHoldingsTransitive(l, one, PutAll(one, other, key, sets[1..], value), point);
    }
  }

  lemma SameHoldingsTransitive(a: Ledger, b: Ledger, c: Ledger, point: Point)
    requires SameHoldings(a, b, point) && SameHoldings(b, c, point)
    ensures SameHoldings(a, c, point)
  {
  }

  /** No point is updated twice, none is unnamed. */
  ghost predicate OncePerPoint(updates: seq<(Point, Value)>) {
    && (forall u | u in updates :: u.0 != "")
    && forall i, j | 0 <= i < j < |updates| :: updates[i].0 != updates[j].0
  }

  ghost predicate Updates(updates: seq<(Point, Value)>, point: Point) {
    exists u | u in updates :: u.0 == point
  }

  lemma HeadUpdate(updates: seq<(Point, Value)>, point: Point)
    requires OncePerPoint(updates) && updates != []
    ensures OncePerPoint(updates[1..]) && updates[0].0 != "" && !Updates(updates[1..], updates[0].0)
    ensures Updates(updates, point) <==> updates[0].0 == point || Updates(updates[1..], point)
  {
    var head, rest := updates[0], updates[1..];
    assert forall u :: u in updates <==> u == head || u in rest;
    forall u | u in rest
      ensures u.0 != head.0
    {
      var i :| 0 <= i < |rest| && rest[i] == u;
      assert updates[i + 1] == u;
    }
  }

  lemma {:induction false} UpsertOnce(updates: seq<(Point, Value)>, point: Point, value: Value)
    requires OncePerPoint(updates) && point != ""
    ensures OncePerPoint(Upsert(updates, point, value))
    decreases |updates|
  {
    if updates != [] {
      var head, rest, tail := updates[0], updates[1..], Upsert(updates[1..], point, value);
      HeadUpdate(updates, point);
      if head.0 != point {
        UpsertOnce(rest, point, value);
        forall j | 0 <= j < |tail|
          ensures head.0 != tail[j].0
        {
          assert tail[j] in tail;
        }
      }
    }
  }

  lemma {:induction false} ResultUpdatesOnce(results: seq<Result>, updates: seq<(Point, Value)>)
    requires OncePerPoint(updates) && forall r | r in results :: r.point != Some("")
    ensures OncePerPoint(ResultUpdates(results, updates))
    decreases |results|
  {
    if results != [] {
      var r := results[0];
      assert r in results;
      if r.successful && r.point.Some? && r.value.Some? {
        UpsertOnce(updates, r.point.value, r.value.value);
        ResultUpdatesOnce(results[1..], Upsert(updates, r.point.value, r.value.value));
      } else {
        ResultUpdatesOnce(results[1..], updates);
      }
    }
  }

  /** Results of other points neither split the point nor change what it carries. */
  lemma {:induction false} OtherResults(st: Store, updates: seq<(Point, Value)>, configured: Option<seq<Point>>,
      fallback: SetName, point: Point)
    requires Inv(st.ledger) && point != "" && OncePerPoint(updates) && !Updates(updates, point)
    ensures AgreeOn(ApplyResults(st, updates, configured, fallback).ledger, point) <==> AgreeOn(st.ledger, point)
    ensures !ResultsSplit(st, updates, configured, fallback, point)
    decreases |updates|
  {
    if updates != [] {
      hide Inv, PutAll, AgreeOn, Splits, Tracked, SameHoldings, OncePerPoint, Updates, Resolve;
      HeadUpdate(updates, point);
      var (p, value) := updates[0];
      var l, sets := st.ledger, SetsIn(Resolve(st, p, configured, fallback));
      var next := PutAll(l, p, KeyOf(l, p), sets, value);
      PutAllKeeps(l, p, KeyOf(l, p), sets, value);
      OtherPutKeeps(l, p, KeyOf(l, p), sets, value, point);
      SameHoldingsAgree(l, next, point);
      OtherResults(st.(ledger := next), updates[1..], configured, fallback, point);
    }
  }

  /** Applying results keeps an agreeing point in agreement if and only if none of them splits it. */
  lemma {:induction false} ResultsAgreeExactly(st: Store, updates: seq<(Point, Value)>,
      configured: Option<seq<Point>>, fallback: SetName, point: Point)
    requires Inv(st.ledger) && point != "" && OncePerPoint(updates) && AgreeOn(st.ledger, point)
    ensures AgreeOn(ApplyResults(st, updates, configured, fallback).ledger, point)
            <==> !ResultsSplit(st, updates, configured, fallback, point)
    decreases |updates|
  {
    if updates != [] {
      hide Inv, PutAll, AgreeOn, Splits, Tracked, SameHoldings, OncePerPoint, Updates, Resolve;
      HeadUpdate(updates, point);
      var (p, value) := updates[0];
      var l, sets := st.ledger, SetsIn(Resolve(st, p, configured, fallback));
      var next := PutAll(l, p, KeyOf(l, p), sets, value);
      PutAllKeeps(l, p, KeyOf(l, p), sets, value);
      if p == point {
        WriteAgreesExactly(l, point, sets, value);
        OtherResults(st.(ledger := next), updates[1..], configured, fallback, point);
      } else {
        OtherPutKeeps(l, p, KeyOf(l, p), sets, value, point);
        SameHoldingsAgree(l, next, point);
        ResultsAgreeExactly(st.(ledger := next), updates[1..], configured, fallback, point);
      }
    }
  }

  lemma CommandAgreesExactly(st: Store, m: Message, forced: string, point: Point)
    requires Inv(st.ledger) && point != "" && AgreeOn(st.ledger, point) && m.Command? && WellFormed(m)
    ensures AgreeOn(OnMessage(st, m, forced).ledger, point) <==> !SplitBy(st, m, forced, point)
  {
    var start, updates := Fresh(st), UpdatesOf(m.body);
    FreshKeeps(st);
    RecordOriginKeeps(start, WrittenPoints(m.body), if m.origin.Some? then m.origin.value else "");
    if m.body.Batch? && m.body.results.Some? {
      ResultUpdatesOnce(m.body.results.value, []);
    }
    assert OncePerPoint(updates);
    hide Inv, AgreeOn, RecordOrigin, ApplyResults, ResultsSplit;
    SameLedgerAgrees(st, start, point);
    assert AgreeOn(Origin(start, m).ledger, point);
    if m.status == Successful {
      ResultsAgreeExactly(Origin(start, m), updates, if m.protocol in st.listed then Some(st.listed[m.protocol])
          else None,
        SetFor(NamesFor(st, m.protocol, forced), ""), point);
    }
  }

  lemma SameLedgerAgrees(a: Store, b: Store, point: Point)
    requires b == Fresh(a)
    ensures AgreeOn(a.ledger, point) <==> AgreeOn(b.ledger, point)
  {
  }

  // ---- samples ----

  /** A sample that describes its point leaves it in the sample's sets only, so its value splits nothing. */
  lemma PlacedSampleAgrees(st: Store, other: Point, placement: Placement, key: Key, value: Option<Value>, point: Point)
    requires Inv(st.ledger) && point != "" && AgreeOn(st.ledger, point) && other != ""
    ensures var placed := PlacePoint(st, other, placement, key).ledger;
            AgreeOn(if value.None? then placed
                else PutAll(placed, other, KeyOf(placed, other), SetsIn(placement), value.value), point)
  {
    hide Inv, AgreeOn, Settle, PutAll, Tracked, Shrunk, SameHoldings;
    var sets := SetsIn(placement);
    var placed := Settle(st.ledger, other, sets, key);
    SettleShrinks(st.ledger, other, sets, key);
    ShrunkAgrees(st.ledger, placed, point);
    SettleKeeps(st.ledger, other, sets, key);
    if value.Some? {
      if other == point {
        forall pl | Owns(placed, point, pl)
          ensures pl.fragment in sets
        {
          SettleFrame(st.ledger, point, sets, key, pl);
        }
        WriteAgreesExactly(placed, point, sets, value.value);
      } else {
        var after := PutAll(placed, other, KeyOf(placed, other), sets, value.value);
        OtherPutKeeps(placed, other, KeyOf(placed, other), sets, value.value, point);
        SameHoldingsAgree(placed, after, point);
      }
    }
  }

  lemma SampleAgrees(st: Store, m: Message, forced: string, point: Point)
    requires Inv(st.ledger) && point != "" && AgreeOn(st.ledger, point) && m.Sample? && m.point != ""
    ensures AgreeOn(OnSample(st, m, forced).ledger, point)
  {
    hide Inv, AgreeOn, Settle, PutAll, SetsFromSample, KeyFromSample;
    var seen := SeenProtocol(st, m.protocol);
    var typed := if m.deviceType != "" then seen.(deviceType := m.deviceType) else seen;
    var meta := if m.meta.Some? then m.meta.value else Absent;
    var sets := SetsFromSample(meta, m.access == Some(true), NamesFor(typed, m.protocol, forced));
    if m.access.Some? || m.meta.Some? {
      PlacedSampleAgrees(typed, m.point, sets, KeyFromSample(meta, m.point), m.value, point);
    } else if m.value.Some? {
      UndescribedSample(typed, m.protocol, forced);
      PutNothing(typed.ledger, m.point, KeyOf(typed.ledger, m.point), m.value.value);
    }
  }

  // ---- messages and runs ----

  /** From an agreeing point a message leaves agreement if and only if it does not split the point. */
  lemma MessageAgreesExactly(st: Store, m: Message, forced: string, point: Point)
    requires Inv(st.ledger) && point != "" && AgreeOn(st.ledger, point) && WellFormed(m)
    ensures AgreeOn(OnMessage(st, m, forced).ledger, point) <==> !SplitBy(st, m, forced, point)
  {
    hide Inv, AgreeOn, Prune, ApplyDeclarations, ReleaseAll, OnSample, OnCommand, Tracked, ResultsSplit;
    var start := Fresh(st);
    FreshKeeps(st);
    SameLedgerAgrees(st, start, point);
    match m
    case Sample(_, _, _, _, _, _) => SampleAgrees(start, m, forced, point);
    case LinkStatus(protocol, _, _) =>
      var informed := Informed(start, m);
      var configured := ConfiguredPoints(informed);
      if configured.Some? {
        PruneAgrees(informed, configured.value, point);
        PruneKeeps(informed, configured.value);
      }
      DeclarationsAgree(if configured.Some? then Prune(informed, configured.value)
          else informed, protocol, forced, point);
    case Command(_, _, _, _) => CommandAgreesExactly(st, m, forced, point);
    case Capabilities(protocol, declared) =>
      var released := ReleaseAll(start, DeclaredBy(start, protocol), declared);
      ReleaseAllAgrees(start, DeclaredBy(start, protocol), declared, point);
      ReleaseAllKeeps(start, DeclaredBy(start, protocol), declared);
      DeclarationsAgree(released.(declared := released.declared[protocol := declared]), protocol, forced, point);
  }

  /**
   * In every run, all fragments that carry the point agree on its value after each message if and
   * only if no message splits it: through samples of any quality, re-placements, descriptors, link
   * statuses and write results.
   */
  lemma {:induction false} AgreementExactly(st: Store, messages: seq<Message>, forced: string, point: Point)
    requires Inv(st.ledger) && point != "" && AgreeOn(st.ledger, point) && forall m | m in messages :: WellFormed(m)
    ensures AgreesThroughout(st, messages, forced, point) <==> NeverSplit(st, messages, forced, point)
    decreases |messages|
  {
    if messages != [] {
      hide Inv, AgreeOn, OnMessage, SplitBy, Tracked;
      var m, rest := messages[0], messages[1..];
      assert m in messages && forall x | x in rest :: x in messages;
      var next := OnMessage(st, m, forced);
      MessageAgreesExactly(st, m, forced, point);
      OnMessageKeeps(st, m, forced);
      if AgreeOn(next.ledger, point) {
        AgreementExactly(next, rest, forced, point);
      }
    }
  }

  // ---- runs that never write blindly ----

  lemma {:induction false} QuietRunAgrees(st: Store, messages: seq<Message>, forced: string, point: Point)
    requires Inv(st.ledger) && point != "" && Quiet(st, point)
    requires (forall m | m in messages :: WellFormed(m)) && NeverBlind(st, messages, forced, point)
    ensures AgreesThroughout(st, messages, forced, point)
    decreases |messages|
  {
    if messages != [] {
      hide Inv, Quiet, OnMessage, BlindWrite, Tracked, AgreeOn;
      assert messages[0] in messages;
      var next := OnMessage(st, messages[0], forced);
      MessageIsQuiet(st, messages[0], forced, point);
      QuietAgrees(next, point);
      OnMessageKeeps(st, messages[0], forced);
      QuietRunAgrees(next, messages[1..], forced, point);
    }
  }

  lemma QuietAgrees(st: Store, point: Point)
    requires Quiet(st, point)
    ensures AgreeOn(st.ledger, point)
  {
  }

  lemma {:induction false} AgreesAtTheEnd(st: Store, messages: seq<Message>, forced: string, point: Point)
    requires AgreeOn(st.ledger, point) && AgreesThroughout(st, messages, forced, point)
    ensures AgreeOn(Run(st, messages, forced).ledger, point)
    decreases |messages|
  {
    hide AgreeOn, OnMessage;
    if messages != [] {
      AgreesAtTheEnd(OnMessage(st, messages[0], forced), messages[1..], forced, point);
    }
  }

  /**
   * A condition on the messages alone: a run that never writes the point while nothing says which
   * sets it is in splits it nowhere, so all fragments that carry the point agree on its value.
   */
  lemma FragmentsAgree(messages: seq<Message>, forced: string, point: Point, a: Place, b: Place)
    requires point != "" && (forall m | m in messages :: WellFormed(m)) && NeverBlind(EMPTY, messages, forced, point)
    ensures NeverSplit(EMPTY, messages, forced, point)
    ensures var l := Run(EMPTY, messages, forced).ledger;
            a in l.values && b in l.values && OwnerOf(l, a) == Some(point) && OwnerOf(l, b) == Some(point) ==>
                l.values[a] == l.values[b]
  {
    assert Inv(EMPTY.ledger) && Quiet(EMPTY, point);
    hide Inv, NeverBlind, Run, AgreesThroughout, NeverSplit;
    QuietRunAgrees(EMPTY, messages, forced, point);
    AgreementExactly(EMPTY, messages, forced, point);
    AgreesAtTheEnd(EMPTY, messages, forced, point);
    var l := Run(EMPTY, messages, forced).ledger;
    assert OwnerOf(l, a) == Some(point) && OwnerOf(l, b) == Some(point) ==> Owns(l, point, a) && Owns(l, point, b);
  }

  // ---- a run that splits ----

  const X: Point := "x"
  const ONE := Number(1.0)
  const TWO := Number(2.0)

  /** The default set of a device of this type that a connector of protocol "p" serves. */
  function DefaultSet(deviceType: string): SetName {
    SetFor(Names("", deviceType), "")
  }

  function Wrote(value: Value): Message {
    Command("p", None, Successful, Write(Some(X), Some(value)))
  }

  /**
   * A point without any sample yet is written while the device is of type "a" and again while it is
   * of type "b"; its first sample then names both default sets.
   */
  function SplittingRun(): seq<Message> {
    [LinkStatus("p", "a", None), Wrote(ONE), LinkStatus("p", "b", None), Wrote(TWO),
     NamingBoth(DefaultSet("a"), DefaultSet("b"))]
  }

  lemma DefaultSetsDiffer()
    ensures DefaultSet("a") != DefaultSet("b") && IsValidSet(DefaultSet("a")) && IsValidSet(DefaultSet("b"))
  {
    FirstLetter("a" + "_" + DEFAULT_GROUP + "_parameters");
    FirstLetter("b" + "_" + DEFAULT_GROUP + "_parameters");
  }

  lemma FirstLetter(s: string)
    requires s != "" && IsAlnum(s[0])
    ensures Sanitize(s) != "" && Sanitize(s)[0] == s[0] && AllIdentifier(Sanitize(s))
  {
  }

  /** A link status without a list of points, with nothing declared, only reports the type. */
  lemma StatusStep(st: Store, deviceType: string)
    requires st.declared == map[] && st.listed == map[]
    ensures var m := LinkStatus("p", deviceType, None);
            OnMessage(st, m, "") == SeenProtocol(Fresh(st), "p").(deviceType := deviceType)
  {
    var m := LinkStatus("p", deviceType, None);
    var informed := Informed(Fresh(st), m);
    assert informed.listed == map[] && "p" in informed.protocols;
    assert Plan(DeclaredBy(informed, "p"), NamesFor(informed, "p", "")) == [];
    assert GiveUp(informed.ledger, [], map[]) == informed.ledger;
  }

  /** A successful write of a point nothing has described puts its value in the default set of the moment. */
  lemma WriteStep(st: Store, value: Value)
    requires X !in st.placement && st.listed == map[] && st.deviceType != ""
    ensures var l := Fresh(st).ledger;
            OnMessage(st, Wrote(value), "")
            == Fresh(st).(ledger := PutValue(l, X, Place(DefaultSet(st.deviceType), KeyOf(l, X)), value))
  {
    hide PutValue;
    var start, fallback := Fresh(st), DefaultSet(st.deviceType);
    var l, key := start.ledger, KeyOf(start.ledger, X);
    var put := PutValue(l, X, Place(fallback, key), value);
    assert [fallback][1..] == [];
    assert PutAll(l, X, key, [fallback], value) == PutAll(put, X, key, [], value);
    assert [(X, value)][1..] == [];
    assert ApplyResults(start.(ledger := put), [], None, fallback) == start.(ledger := put);
  }

  /** `x` holds its key in one set, with the first value. */
  function OnceWritten(a: SetName): Ledger {
    var pa := Place(a, X);
    Ledger(map[pa := X], map[X := [pa]], [X], map[], map[pa := ONE], [a], {a})
  }

  /** And in another one, with the second. */
  function TwiceWritten(a: SetName, b: SetName): Ledger {
    var pa, pb := Place(a, X), Place(b, X);
    Ledger(map[pa := X, pb := X], map[X := [pa, pb]], [X], map[], map[pa := ONE, pb := TWO], [a, b], {b})
  }

  lemma FirstPut(a: SetName)
    ensures PutValue(EMPTY.ledger, X, Place(a, X), ONE) == OnceWritten(a)
  {
    var l, pa := EMPTY.ledger, Place(a, X);
    assert ClaimsOf(l, X) + [pa] == [pa] && l.claimants + [X] == [X] && l.knownSets + [a] == [a];
    assert {} + {a} == {a};
  }

  lemma SecondPut(a: SetName, b: SetName)
    requires a != b
    ensures PutValue(OnceWritten(a).(changed := {}), X, Place(b, X), TWO) == TwiceWritten(a, b)
  {
    var l, pa, pb := OnceWritten(a).(changed := {}), Place(a, X), Place(b, X);
    assert !ShapeTaken(l, pb, X);
    assert ClaimsOf(l, X) + [pb] == [pa, pb] && l.knownSets + [b] == [a, b] && {} + {b} == {b};
    assert l.claims[X := [pa, pb]] == map[X := [pa, pb]];
    assert l.owner[pb := X] == map[pa := X, pb := X] && l.values[pb := TWO] == map[pa := ONE, pb := TWO];
  }

  lemma TwiceWrittenIs(a: SetName, b: SetName)
    requires a != b
    ensures var l, pa, pb := TwiceWritten(a, b).(changed := {}), Place(a, X), Place(b, X);
            && Inv(l) && KeyOf(l, X) == X && Owns(l, X, pa) && Owns(l, X, pb)
            && pa in l.values && pb in l.values && l.values[pa] == ONE && l.values[pb] == TWO
  {
  }

  /** The point carries two values. */
  ghost predicate SplitIn(st: Store, a: SetName, b: SetName) {
    var l, pa, pb := st.ledger, Place(a, X), Place(b, X);
    && OwnerOf(l, pa) == OwnerOf(l, pb) == Some(X) && pa in l.values && pb in l.values && l.values[pa] != l.values[pb]
    && Described(st, X)
  }

  lemma SplitIsDisagreement(st: Store, a: SetName, b: SetName)
    requires SplitIn(st, a, b)
    ensures !AgreeOn(st.ledger, X)
  {
    var pa, pb := Place(a, X), Place(b, X);
    assert Owns(st.ledger, X, pa) && Owns(st.ledger, X, pb);
  }

  lemma BothSets(a: SetName, b: SetName)
    requires IsValidSet(a) && IsValidSet(b) && a != b
    ensures NamesOf([a, b], true, []) == [a, b]
  {
    assert [a, b][1..] == [b] && [b][1..] == [] && [] + [a] == [a] && [a] + [b] == [a, b];
    hide AllIdentifier;
    assert NamesOf([a, b], true, []) == NamesOf([b], true, [a]);
    assert NamesOf([b], true, [a]) == NamesOf([], true, [a, b]);
  }

  function NamingBoth(a: SetName, b: SetName): Message {
    Sample("p", "", X, Some(true), Some(Table(Options(None, None, [a, b], []))), None)
  }

  lemma SampleStep(st: Store, a: SetName, b: SetName)
    requires IsValidSet(a) && IsValidSet(b) && a != b
    ensures OnMessage(st, NamingBoth(a, b), "") == PlacePoint(SeenProtocol(Fresh(st), "p"), X, InSets([a, b]), X)
  {
    BothSets(a, b);
    hide NamesOf, PlacePoint, IsValidSet;
  }

  /** The sample places the point in both sets, where it keeps both values. */
  lemma SampledInBoth(st: Store, a: SetName, b: SetName)
    requires st.ledger == TwiceWritten(a, b) && IsValidSet(a) && IsValidSet(b) && a != b
    ensures SplitIn(OnMessage(st, NamingBoth(a, b), ""), a, b)
  {
    hide TwiceWritten, Inv, Settle, OnMessage, IsValidSet, SeenProtocol;
    TwiceWrittenIs(a, b);
    SampleStep(st, a, b);
    SeenKeepsLedger(Fresh(st));
    SettledKeepsBoth(SeenProtocol(Fresh(st), "p"), X, a, b, X);
  }

  lemma SeenKeepsLedger(st: Store)
    ensures SeenProtocol(st, "p").ledger == st.ledger
  {
  }

  lemma RunStep(st: Store, run: seq<Message>, i: nat)
    requires i < |run|
    ensures Run(st, run[i..], "") == Run(OnMessage(st, run[i], ""), run[i + 1..], "")
  {
    hide OnMessage;
    assert run[i..][1..] == run[i + 1..];
  }

  /** Before the sample the two writes have left two values. */
  lemma BlindlyWritten(a: SetName, b: SetName)
    requires a == DefaultSet("a") && b == DefaultSet("b") && a != b
    ensures var last := EMPTY.(deviceType := "b", protocols := ["p"], ledger := TwiceWritten(a, b));
            Run(EMPTY, SplittingRun(), "") == Run(last, SplittingRun()[4..], "")
  {
    hide DefaultSet, OnMessage, OnceWritten, TwiceWritten, Run;
    var run := SplittingRun();
    var s1 := EMPTY.(deviceType := "a", protocols := ["p"]);
    var s2 := s1.(ledger := OnceWritten(a));
    var s3 := Fresh(s2).(deviceType := "b");
    StatusStep(EMPTY, "a");
    assert [] + ["p"] == ["p"] && EMPTY.protocols == [];
    RunStep(EMPTY, run, 0);
    FirstPut(a);
    WriteStep(s1, ONE);
    RunStep(s1, run, 1);
    StatusStep(s2, "b");
    RunStep(s2, run, 2);
    SecondPut(a, b);
    WriteStep(s3, TWO);
    RunStep(s3, run, 3);
    assert run[0..] == run;
  }

  /** Blind writes can split a point: one run from the empty store after which two fragments carry two values of it. */
  lemma BlindWritesDisagree()
    ensures SplitIn(Run(EMPTY, SplittingRun(), ""), DefaultSet("a"), DefaultSet("b"))
    ensures !NeverSplit(EMPTY, SplittingRun(), "", X)
  {
    hide *;
    var run, a, b := SplittingRun(), DefaultSet("a"), DefaultSet("b");
    DefaultSetsDiffer();
    BlindlyWritten(a, b);
    SampledLast(a, b);
    SplitIsDisagreement(Run(EMPTY, run, ""), a, b);
    SplittingRunNamed();
    DisagreementSplits(run);
  }

  lemma SampledLast(a: SetName, b: SetName)
    requires a == DefaultSet("a") && b == DefaultSet("b") && IsValidSet(a) && IsValidSet(b) && a != b
    ensures var last := EMPTY.(deviceType := "b", protocols := ["p"], ledger := TwiceWritten(a, b));
            SplitIn(Run(last, SplittingRun()[4..], ""), a, b)
  {
    hide DefaultSet, OnMessage, TwiceWritten, SplitIn, IsValidSet;
    var run, last := SplittingRun(), EMPTY.(deviceType := "b", protocols := ["p"], ledger := TwiceWritten(a, b));
    SampledInBoth(last, a, b);
    RunStep(last, run, 4);
    assert run[5..] == [];
  }

  lemma SplittingRunNamed()
    ensures forall m | m in SplittingRun() :: WellFormed(m)
  {
    hide DefaultSet;
  }

  /** A run that ends in disagreement splits the point somewhere. */
  lemma DisagreementSplits(run: seq<Message>)
    requires (forall m | m in run :: WellFormed(m)) && !AgreeOn(Run(EMPTY, run, "").ledger, X)
    ensures !NeverSplit(EMPTY, run, "", X)
  {
    assert Inv(EMPTY.ledger) && AgreeOn(EMPTY.ledger, X);
    hide Inv, AgreeOn, Run, NeverSplit, AgreesThroughout, WellFormed;
    AgreementExactly(EMPTY, run, "", X);
    if AgreesThroughout(EMPTY, run, "", X) {
      AgreesAtTheEnd(EMPTY, run, "", X);
    }
  }

  /** Placing a point in two sets it holds keeps both values. */
  lemma SettledKeepsBoth(st: Store, point: Point, a: SetName, b: SetName, key: Key)
    requires Inv(st.ledger) && point != "" && key == KeyOf(st.ledger, point)
    requires var l, pa, pb := st.ledger, Place(a, key), Place(b, key);
             Owns(l, point, pa) && Owns(l, point, pb) && pa in l.values && pb in l.values
    ensures var after := PlacePoint(st, point, InSets([a, b]), key);
            && Described(after, point)
            && forall pl | pl == Place(a, key) || pl == Place(b, key) ::
                 Owns(after.ledger, point, pl) && pl in after.ledger.values
                     && after.ledger.values[pl] == st.ledger.values[pl]
  {
    var l, sets := st.ledger, [a, b];
    var after := Settle(l, point, sets, key);
    forall pl | Owns(after, point, pl)
      ensures pl.fragment in sets
    {
      SettleFrame(l, point, sets, key, pl);
    }
    forall pl | pl == Place(a, key) || pl == Place(b, key)
      ensures Owns(after, point, pl) && pl in after.values && after.values[pl] == l.values[pl]
    {
      SettleFrame(l, point, sets, key, pl);
      MoveKeeps(l, point, sets, key);
      MoveOwner(l, point, sets, key, pl);
      ClaimAllKeeps(Move(l, point, sets, key), sets, key, point);
    }
    assert Owns(after, point, Place(a, key)) && Owns(after, point, Place(b, key));
  }
}
