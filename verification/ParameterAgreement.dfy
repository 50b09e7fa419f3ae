/**
 * One point, several fragments: unless a point is written while nothing says which sets it is in,
 * all fragments that carry it agree on its value.
 */
module ParameterAgreement {
  import opened Common
  import opened Naming
  import opened ParameterStore
  import opened ParameterInvariants
  import opened ParameterTwin
  import opened ParameterDeclarations

  /** All fragments that carry the point carry the same value. */
  ghost predicate AgreeOn(l: Ledger, point: Point) {
    forall a, b | Owns(l, point, a) && Owns(l, point, b) && a in l.values && b in l.values :: l.values[a] == l.values[b]
  }

  /** The point's sets are recorded, and everything it holds is in one of them. */
  ghost predicate Described(st: Store, point: Point) {
    point in st.placement && forall pl | Owns(st.ledger, point, pl) :: pl.fragment in SetsIn(st.placement[point])
  }

  ghost predicate Untouched(st: Store, point: Point) {
    point !in st.placement && forall pl :: !Owns(st.ledger, point, pl)
  }

  ghost predicate Quiet(st: Store, point: Point) {
    Untouched(st, point) || (Described(st, point) && AgreeOn(st.ledger, point))
  }

  /** From `a` to `b` the point gained nothing, and no value it carries changed. */
  ghost predicate Less(a: Ledger, b: Ledger, point: Point) {
    forall pl | Owns(b, point, pl) ::
      Owns(a, point, pl) && (pl in b.values ==> pl in a.values && b.values[pl] == a.values[pl])
  }

  ghost predicate SamePlacement(a: Store, b: Store, point: Point) {
    (point in a.placement <==> point in b.placement)
        && (point in a.placement ==> a.placement[point] == b.placement[point])
  }

  lemma LessIsQuiet(a: Store, b: Store, point: Point)
    requires Quiet(a, point) && Less(a.ledger, b.ledger, point) && SamePlacement(a, b, point)
    ensures Quiet(b, point)
  {
  }

  lemma LessTransitive(a: Ledger, b: Ledger, c: Ledger, point: Point)
    requires Less(a, b, point) && Less(b, c, point)
    ensures Less(a, c, point)
  {
  }

  // ---- what the operations do to a point ----

  lemma DropIsLess(l: Ledger, other: Point, places: seq<Place>, point: Point)
    requires Inv(l) && forall pl | pl in places :: pl in ClaimsOf(l, other)
    ensures Less(l, DropAll(l, other, places), point)
  {
    DropAllKeeps(l, other, places);
    hide Inv, DropAll, Tracked;
  }

  lemma OtherSettleIsLess(l: Ledger, other: Point, sets: seq<SetName>, key: Key, point: Point)
    requires Inv(l) && other != "" && other != point
    ensures Less(l, Settle(l, other, sets, key), point)
  {
    hide Inv, Settle, Shrunk;
    var after := Settle(l, other, sets, key);
    SettleShrinks(l, other, sets, key);
    forall pl | Owns(after, point, pl)
      ensures Owns(l, point, pl) && (pl in after.values ==> pl in l.values && after.values[pl] == l.values[pl])
    {
      SettleFrame(l, other, sets, key, pl);
      ShrunkAt(l, after, pl);
    }
  }

  lemma ShrunkAt(a: Ledger, b: Ledger, place: Place)
    requires Shrunk(a, b)
    ensures place in b.values ==> place in a.values && a.values[place] == b.values[place]
  {
  }

  /** Placing the point itself leaves it only in its sets, with values it had. */
  lemma OwnSettleIsQuiet(st: Store, point: Point, placement: Placement, key: Key)
    requires Inv(st.ledger) && point != "" && Quiet(st, point)
    ensures Quiet(PlacePoint(st, point, placement, key), point)
  {
    hide Inv, Settle, Shrunk;
    var l, sets := st.ledger, SetsIn(placement);
    var after := Settle(l, point, sets, key);
    SettleShrinks(l, point, sets, key);
    forall pl | Owns(after, point, pl)
      ensures pl.fragment in sets
      ensures pl in after.values ==> Owns(l, point, pl) && pl in l.values && after.values[pl] == l.values[pl]
    {
      SettleFrame(l, point, sets, key, pl);
      ShrunkAt(l, after, pl);
      if pl in after.values {
        ValuedIsOwned(l, pl);
      }
    }
  }

  lemma ValuedIsOwned(l: Ledger, place: Place)
    requires Inv(l) && place in l.values
    ensures place in l.owner
  {
  }

  lemma {:induction false} OtherPutIsLess(l: Ledger, other: Point, key: Key, sets: seq<SetName>, value: Value,
      point: Point)
    requires Inv(l) && other != "" && other != point && key == KeyOf(l, other)
    ensures Less(l, PutAll(l, other, key, sets, value), point)
    decreases |sets|
  {
    if sets != [] {
      var place := Place(sets[0], key);
      var one := PutValue(l, other, place, value);
      PutValueKeeps(l, other, place, value);
      PutValueOwner(l, other, place, value);
      hide Inv, PutValue, Tracked;
      OtherPutIsLess(one, other, key, sets[1..], value, point);
      LessTransitive(l, one, PutAll(one, other, key, sets[1..], value), point);
    }
  }

  /** One value put: the place is the point's and carries it, or belongs to another and is untouched. */
  lemma PutValueOwner(l: Ledger, point: Point, place: Place, value: Value)
    requires Inv(l) && point != ""
    ensures var one := PutValue(l, point, place, value);
            && (forall pl | pl != place ::
                  && (pl in one.owner <==> pl in l.owner) && (pl in l.owner ==> one.owner[pl] == l.owner[pl])
                  && (pl in one.values <==> pl in l.values) && (pl in l.values ==> one.values[pl] == l.values[pl]))
            && (Owns(one, point, place) ==> place in one.values && one.values[place] == value)
            && (place in one.owner && one.owner[place] != point ==>
                  && Owns(l, one.owner[place], place)
                  && (place in one.values <==> place in l.values)
                  && (place in l.values ==> one.values[place] == l.values[place]))
  {
    hide OneKey, OneShape, Listed, ShapeTaken;
  }

  /** What one value put does to a place. */
  lemma PutValueAt(l: Ledger, point: Point, first: Place, value: Value, place: Place)
    requires Inv(l) && point != "" && first.key == KeyOf(l, point)
    ensures var one := PutValue(l, point, first, value);
            && Inv(one) && KeyOf(one, point) == KeyOf(l, point)
            && (place != first ==>
                  && (Owns(one, point, place) <==> Owns(l, point, place))
                  && (place in one.values <==> place in l.values)
                  && (place in l.values ==> one.values[place] == l.values[place]))
            && (place == first && Owns(one, point, place) ==> place in one.values && one.values[place] == value)
            && (place in l.values && l.values[place] == value ==> place in one.values && one.values[place] == value)
  {
    hide Inv, PutValue, Tracked;
    PutValueKeeps(l, point, first, value);
    PutValueOwner(l, point, first, value);
    ValueOnlyByItself(l, point, first, value);
  }

  /** A value put on every set of a point is what every fragment of those sets carries for it. */
  lemma {:induction false} PutAllCarries(l: Ledger, point: Point, key: Key, sets: seq<SetName>, value: Value,
      place: Place)
    requires Inv(l) && point != "" && key == KeyOf(l, point)
    ensures var after := PutAll(l, point, key, sets, value);
            && (Owns(after, point, place) && place.key == key && place.fragment in sets ==>
                  place in after.values && after.values[place] == value)
            && (!(place.key == key && place.fragment in sets) ==>
                  (Owns(after, point, place) <==> Owns(l, point, place))
                  && (place in after.values <==> place in l.values)
                  && (place in l.values ==> after.values[place] == l.values[place]))
            && (place in l.values && l.values[place] == value ==> place in after.values && after.values[place] == value)
    decreases |sets|
  {
    hide Inv, PutValue, Owns, KeyOf;
    if sets != [] {
      var first := Place(sets[0], key);
      var one := PutValue(l, point, first, value);
      PutValueAt(l, point, first, value, place);
      PutAllCarries(one, point, key, sets[1..], value, place);
    }
  }

  /** A place that carries the value already still does. */
  lemma ValueOnlyByItself(l: Ledger, point: Point, place: Place, value: Value)
    ensures var one := PutValue(l, point, place, value);
            forall pl | pl in l.values && l.values[pl] == value :: pl in one.values && one.values[pl] == value
  {
  }

  lemma OwnPutIsQuiet(st: Store, point: Point, value: Value)
    requires Inv(st.ledger) && point != "" && point in st.placement && Quiet(st, point)
    ensures var l := st.ledger;
            Quiet(st.(ledger := PutAll(l, point, KeyOf(l, point), SetsIn(st.placement[point]), value)), point)
  {
    var l, key, sets := st.ledger, KeyOf(st.ledger, point), SetsIn(st.placement[point]);
    var after := PutAll(l, point, key, sets, value);
    assert Described(st, point);
    forall pl | Owns(after, point, pl)
      ensures pl.fragment in sets && pl in after.values && after.values[pl] == value
    {
      PutAllKeeps(l, point, key, sets, value);
      PutAllCarries(l, point, key, sets, value, pl);
      assert pl.key == key by { assert KeyOf(after, point) == key; }
      hide PutAll, Inverse, Listed, OneShape, ValuesOwned;
    }
  }

  // ---- declarations, releases and removals ----

  lemma {:induction false} GiveUpIsLess(l: Ledger, entries: seq<Entry>, wanted: map<Place, Point>, point: Point)
    requires Inv(l)
    ensures Less(l, GiveUp(l, entries, wanted), point)
  {
    forall pl | Owns(GiveUp(l, entries, wanted), point, pl)
      ensures Owns(l, point, pl)
      ensures var after := GiveUp(l, entries, wanted); pl in after.values ==>
                pl in l.values && after.values[pl] == l.values[pl]
    {
      hide Inv, GiveUp;
      GiveUpIs(l, entries, wanted, pl);
    }
  }

  lemma PlaceIsQuiet(st: Store, other: Point, placement: Placement, key: Key, point: Point)
    requires Inv(st.ledger) && other != "" && point != "" && Quiet(st, point)
    ensures Quiet(PlacePoint(st, other, placement, key), point)
  {
    hide Inv, Settle, Less;
    if other == point {
      OwnSettleIsQuiet(st, point, placement, key);
    } else {
      OtherSettleIsLess(st.ledger, other, SetsIn(placement), key, point);
      LessIsQuiet(st, PlacePoint(st, other, placement, key), point);
    }
  }

  lemma {:induction false} PlaceAllIsQuiet(st: Store, entries: seq<Entry>, point: Point)
    requires Inv(st.ledger) && point != "" && Quiet(st, point) && forall e | e in entries :: e.point != ""
    ensures Quiet(PlaceAll(st, entries), point)
    decreases |entries|
  {
    if entries != [] {
      hide Inv, Quiet, Settle, Tracked;
      var e := entries[0];
      assert e in entries;
      PlaceIsQuiet(st, e.point, InSets(e.sets), e.key, point);
      SettleKeeps(st.ledger, e.point, e.sets, e.key);
      PlaceAllIsQuiet(PlacePoint(st, e.point, InSets(e.sets), e.key), entries[1..], point);
    }
  }

  lemma DeclarationsAreQuiet(st: Store, protocol: Protocol, forced: string, point: Point)
    requires Inv(st.ledger) && point != "" && Quiet(st, point)
    ensures Quiet(ApplyDeclarations(st, protocol, forced), point)
  {
    hide Inv, Quiet, GiveUp, PlaceAll, Plan, Wanted, Less, Tracked;
    var entries := Plan(DeclaredBy(st, protocol), NamesFor(st, protocol, forced));
    PlanNamed(DeclaredBy(st, protocol), NamesFor(st, protocol, forced));
    var freed := st.(ledger := GiveUp(st.ledger, entries, Wanted(entries, map[])));
    GiveUpIsLess(st.ledger, entries, Wanted(entries, map[]), point);
    GiveUpKeeps(st.ledger, entries, Wanted(entries, map[]));
    LessIsQuiet(st, freed, point);
    PlaceAllIsQuiet(freed, entries, point);
  }

  lemma PlanNamed(declared: seq<Declaration>, names: Names)
    ensures forall e | e in Plan(declared, names) :: e.point != ""
  {
  }

  lemma ReleaseIsQuiet(st: Store, entry: Declaration, point: Point)
    requires Inv(st.ledger) && Quiet(st, point)
    ensures Quiet(Release(st, entry), point)
  {
    var l, p := st.ledger, entry.point;
    var after := Release(st, entry);
    if after != st {
      var bare := DropAll(l, p, ClaimsOf(l, p));
      DropIsLess(l, p, ClaimsOf(l, p), point);
      assert Less(l, after.ledger, point) by {
        assert forall pl :: Owns(after.ledger, point, pl) <==> Owns(bare, point, pl);
      }
      if point == p {
        forall pl
          ensures !Owns(after.ledger, p, pl)
        {
          NothingHeld(l, p, pl);
        }
      } else {
        hide Inv, DropAll, Less;
        LessIsQuiet(st, after, point);
      }
    }
  }

  lemma NothingHeld(l: Ledger, point: Point, place: Place)
    requires Inv(l)
    ensures !Owns(DropAll(l, point, ClaimsOf(l, point)), point, place)
  {
    DropAllKeeps(l, point, ClaimsOf(l, point));
    HeldIs(l, point, place);
    hide Inv, DropAll, Tracked;
  }

  lemma {:induction false} ReleaseAllIsQuiet(st: Store, before: seq<Declaration>, declared: seq<Declaration>,
      point: Point)
    requires Inv(st.ledger) && Quiet(st, point)
    ensures Quiet(ReleaseAll(st, before, declared), point)
    decreases |before|
  {
    if before != [] {
      hide Inv, Quiet, Release, Tracked;
      ReleaseIsQuiet(st, before[0], point);
      ReleaseKeeps(st, before[0]);
      ReleaseAllIsQuiet(if before[0].point == "" || Declares(declared, before[0].point) then st
          else Release(st, before[0]),
        before[1..], declared, point);
    }
  }

  lemma PruneIsQuiet(st: Store, configured: seq<Point>, point: Point)
    requires Inv(st.ledger) && Quiet(st, point)
    ensures Quiet(Prune(st, configured), point)
  {
    var after := Prune(st, configured);
    hide Inv;
    assert Less(st.ledger, after.ledger, point);
    if point in st.ledger.claimants && point !in configured {
      assert Untouched(after, point);
    } else {
      LessIsQuiet(st, after, point);
    }
  }

  // ---- write results ----

  /** A successful write of a point whose sets nothing has said: it lands in the default set of the moment. */
  ghost predicate BlindWrite(st: Store, m: Message, point: Point) {
    && m.Command? && m.status == Successful
    && (exists u | u in UpdatesOf(m.body) :: u.0 == point)
    && point !in Origin(st, m).placement
    && (m.protocol in st.listed ==> point in st.listed[m.protocol])
  }

  lemma {:induction false} ResultsAreQuiet(st: Store, updates: seq<(Point, Value)>, configured: Option<seq<Point>>,
      fallback: SetName, point: Point)
    requires Inv(st.ledger) && point != "" && Quiet(st, point) && forall u | u in updates :: u.0 != ""
    requires (exists u | u in updates :: u.0 == point) ==>
               point in st.placement || (configured.Some? && point !in configured.value)
    ensures Quiet(ApplyResults(st, updates, configured, fallback), point)
    decreases |updates|
  {
    if updates != [] {
      var (p, value) := updates[0];
      assert updates[0] in updates;
      var l, sets := st.ledger, SetsIn(Resolve(st, p, configured, fallback));
      var next := st.(ledger := PutAll(l, p, KeyOf(l, p), sets, value));
      hide Inv, Less, PutAll, Tracked;
      PutAllKeeps(l, p, KeyOf(l, p), sets, value);
      assert Quiet(next, point) by {
        if p != point {
          OtherPutIsLess(l, p, KeyOf(l, p), sets, value, point);
          LessIsQuiet(st, next, point);
        } else if sets == [] {
          PutNothing(l, p, KeyOf(l, p), value);
        } else {
          OwnPutIsQuiet(st, point, value);
        }
      }
      hide Quiet;
      ResultsAreQuiet(next, updates[1..], configured, fallback, point);
    }
  }

  lemma PutNothing(l: Ledger, point: Point, key: Key, value: Value)
    ensures PutAll(l, point, key, [], value) == l
  {
  }

  lemma CommandIsQuiet(st: Store, m: Message, forced: string, point: Point)
    requires Inv(st.ledger) && point != "" && Quiet(st, point) && m.Command? && WellFormed(m)
             && !BlindWrite(st, m, point)
    ensures Quiet(OnCommand(st, m, forced), point)
  {
    var recorded, updates := Origin(st, m), UpdatesOf(m.body);
    RecordOriginKeeps(st, WrittenPoints(m.body), if m.origin.Some? then m.origin.value else "");
    assert Quiet(recorded, point);
    if m.body.Batch? && m.body.results.Some? {
      ResultUpdatesNamed(m.body.results.value, []);
    }
    hide Inv, Quiet, RecordOrigin, ApplyResults;
    if m.status == Successful {
      ResultsAreQuiet(recorded, updates, if m.protocol in st.listed then Some(st.listed[m.protocol]) else None,
        SetFor(NamesFor(st, m.protocol, forced), ""), point);
    }
  }

  lemma SampleIsQuiet(st: Store, m: Message, forced: string, point: Point)
    requires Inv(st.ledger) && point != "" && Quiet(st, point) && m.Sample? && m.point != ""
    ensures Quiet(OnSample(st, m, forced), point)
  {
    hide Inv, Quiet, Settle, PutAll, SetsFromSample, KeyFromSample;
    var seen := SeenProtocol(st, m.protocol);
    var typed := if m.deviceType != "" then seen.(deviceType := m.deviceType) else seen;
    var meta := if m.meta.Some? then m.meta.value else Absent;
    var sets := SetsFromSample(meta, m.access == Some(true), NamesFor(typed, m.protocol, forced));
    LessReflexive(st.ledger, point);
    LessIsQuiet(st, typed, point);
    if m.access.Some? || m.meta.Some? {
      PlacedSampleIsQuiet(typed, m.point, sets, KeyFromSample(meta, m.point), m.value, point);
    } else if m.value.Some? {
      UndescribedSample(typed, m.protocol, forced);
      PutNothing(typed.ledger, m.point, KeyOf(typed.ledger, m.point), m.value.value);
    }
  }

  /** A sample without access or meta describes no parameter. */
  lemma UndescribedSample(st: Store, protocol: Protocol, forced: string)
    ensures SetsIn(SetsFromSample(Absent, false, NamesFor(st, protocol, forced))) == []
  {
  }

  lemma LessReflexive(l: Ledger, point: Point)
    ensures Less(l, l, point)
  {
  }

  lemma PlacedSampleIsQuiet(st: Store, other: Point, placement: Placement, key: Key, value: Option<Value>, point: Point)
    requires Inv(st.ledger) && point != "" && Quiet(st, point) && other != ""
    ensures var placed := PlacePoint(st, other, placement, key);
            Quiet(if value.None? then placed
                  else placed.(ledger := PutAll(placed.ledger, other, KeyOf(placed.ledger, other), SetsIn(placement),
                      value.value)), point)
  {
    hide Inv, Quiet, Less, Settle, PutAll, Tracked;
    var placed := PlacePoint(st, other, placement, key);
    PlaceIsQuiet(st, other, placement, key, point);
    SettleKeeps(st.ledger, other, SetsIn(placement), key);
    if value.Some? {
      if other == point {
        OwnPutIsQuiet(placed, point, value.value);
      } else {
        var after := placed.(ledger :=
            PutAll(placed.ledger, other, KeyOf(placed.ledger, other), SetsIn(placement), value.value));
        OtherPutIsLess(placed.ledger, other, KeyOf(placed.ledger, other), SetsIn(placement), value.value, point);
        LessIsQuiet(placed, after, point);
      }
    }
  }

  // ---- messages and runs ----

  lemma MessageIsQuiet(st: Store, m: Message, forced: string, point: Point)
    requires Inv(st.ledger) && point != "" && Quiet(st, point) && WellFormed(m) && !BlindWrite(st, m, point)
    ensures Quiet(OnMessage(st, m, forced), point)
  {
    var start := Fresh(st);
    FreshKeeps(st);
    assert Quiet(start, point) by { LessIsQuiet(st, start, point); }
    match m
    case Sample(_, _, _, _, _, _) => SampleIsQuiet(start, m, forced, point);
    case LinkStatus(protocol, _, _) =>
      var informed := Informed(start, m);
      var configured := ConfiguredPoints(informed);
      assert Quiet(informed, point) by { LessIsQuiet(start, informed, point); }
      hide Inv, Quiet, Prune, Tracked;
      if configured.Some? {
        PruneIsQuiet(informed, configured.value, point);
        PruneKeeps(informed, configured.value);
      }
      DeclarationsAreQuiet(if configured.Some? then Prune(informed, configured.value)
          else informed, protocol, forced, point);
    case Command(_, _, _, _) =>
      assert !BlindWrite(start, m, point) by { RecordOriginKeepsPlacement(st, m); }
      CommandIsQuiet(start, m, forced, point);
    case Capabilities(protocol, declared) =>
      var released := ReleaseAll(start, DeclaredBy(start, protocol), declared);
      ReleaseAllIsQuiet(start, DeclaredBy(start, protocol), declared, point);
      ReleaseAllKeeps(start, DeclaredBy(start, protocol), declared);
      var informed := released.(declared := released.declared[protocol := declared]);
      assert Quiet(informed, point) by { LessIsQuiet(released, informed, point); }
      hide Inv, Quiet, ApplyDeclarations;
      DeclarationsAreQuiet(informed, protocol, forced, point);
  }

  lemma RecordOriginKeepsPlacement(st: Store, m: Message)
    requires m.Command?
    ensures Origin(Fresh(st), m).placement == Origin(st, m).placement
  {
    if m.origin.Some? && IsValidSet(m.origin.value) {
      RecordOriginSame(st, Fresh(st), WrittenPoints(m.body), m.origin.value);
    }
  }

  lemma {:induction false} RecordOriginSame(a: Store, b: Store, points: seq<Point>, origin: SetName)
    requires a.placement == b.placement
    ensures RecordOrigin(a, points, origin).placement == RecordOrigin(b, points, origin).placement
    decreases |points|
  {
    if points != [] {
      RecordOriginSame(
        if points[0] in a.placement then a else a.(placement := a.placement[points[0] := InSets([origin])]),
        if points[0] in b.placement then b else b.(placement := b.placement[points[0] := InSets([origin])]),
        points[1..], origin);
    }
  }

  /** No message of the run writes the point blindly. */
  ghost predicate NeverBlind(st: Store, messages: seq<Message>, forced: string, point: Point)
    decreases |messages|
  {
    messages == [] ||
    (!BlindWrite(st, messages[0], point)
        && NeverBlind(OnMessage(st, messages[0], forced), messages[1..], forced, point))
  }

  // ---- exactly when a write keeps the fragments in agreement ----

  /** A value put on a place does not change which places its point can have under its key. */
  lemma PutValueClaimable(l: Ledger, point: Point, first: Place, value: Value, place: Place)
    requires point != "" && place.key == first.key
    ensures var one := PutValue(l, point, first, value);
            && (Claimable(one, place, point) <==> Claimable(l, place, point))
            && (Owns(one, point, first) <==> Claimable(l, first, point))
  {
    hide ShapeTaken, Claim;
    var claimed, one := Claim(l, first, point), PutValue(l, point, first, value);
    ClaimKeepsClaimable(l, first, point, place);
    SameShapeTaken(claimed, one, place, point);
    ClaimMakesOwnerExactly(l, first, point);
  }

  lemma ClaimMakesOwnerExactly(l: Ledger, place: Place, point: Point)
    requires point != ""
    ensures Owns(Claim(l, place, point), point, place) <==> Claimable(l, place, point)
  {
    hide ShapeTaken;
  }

  /** Of the sets written, the point ends up in exactly those it could have. */
  lemma {:induction false} PutAllTakes(l: Ledger, point: Point, key: Key, sets: seq<SetName>, value: Value,
      place: Place)
    requires Inv(l) && point != "" && key == KeyOf(l, point) && place.key == key && place.fragment in sets
    ensures Owns(PutAll(l, point, key, sets, value), point, place) <==> Claimable(l, place, point)
    decreases |sets|
  {
    hide Inv, PutValue, Owns, KeyOf, Claimable;
    var first, rest := Place(sets[0], key), sets[1..];
    var one := PutValue(l, point, first, value);
    PutValueAt(l, point, first, value, place);
    PutValueClaimable(l, point, first, value, place);
    if place.fragment in rest {
      PutAllTakes(one, point, key, rest, value, place);
    } else {
      PutAllCarries(one, point, key, rest, value, place);
    }
  }

  /** The point can have one of the sets, and carries another value outside them. */
  ghost predicate Splits(l: Ledger, point: Point, sets: seq<SetName>, value: Value) {
    && (exists s | s in sets :: Claimable(l, Place(s, KeyOf(l, point)), point))
    && (exists pl :: Owns(l, point, pl) && pl in l.values && pl.fragment !in sets && l.values[pl] != value)
  }

  /** What a write leaves on a place of its point: the new value in the sets written, the old one elsewhere. */
  lemma WrittenAt(l: Ledger, point: Point, sets: seq<SetName>, value: Value, place: Place)
    requires Inv(l) && point != ""
    ensures var key := KeyOf(l, point); var after := PutAll(l, point, key, sets, value);
            && (Owns(after, point, place) && place.fragment in sets ==>
                  place.key == key && Claimable(l, place, point) && place in after.values
                      && after.values[place] == value)
            && (place.fragment !in sets ==>
                  && (Owns(after, point, place) <==> Owns(l, point, place))
                  && (place in after.values <==> place in l.values)
                  && (place in l.values ==> after.values[place] == l.values[place]))
            && (place.key == key && place.fragment in sets && Claimable(l, place, point) ==> Owns(after, point, place))
  {
    var key := KeyOf(l, point);
    var after := PutAll(l, point, key, sets, value);
    PutAllKeeps(l, point, key, sets, value);
    PutAllCarries(l, point, key, sets, value, place);
    assert Owns(after, point, place) ==> place.key == key by { assert KeyOf(after, point) == key; }
    hide Inv, PutAll, Claimable;
    if place.key == key && place.fragment in sets {
      PutAllTakes(l, point, key, sets, value, place);
    }
  }

  /**
   * A value written to some sets of a point keeps its fragments in agreement if and only if the point
   * carries no other value outside these sets, or can have none of them.
   */
  lemma WriteAgreesExactly(l: Ledger, point: Point, sets: seq<SetName>, value: Value)
    requires Inv(l) && point != "" && AgreeOn(l, point)
    ensures AgreeOn(PutAll(l, point, KeyOf(l, point), sets, value), point) <==> !Splits(l, point, sets, value)
  {
    hide Inv, PutAll, Claimable, KeyOf;
    var key := KeyOf(l, point);
    var after := PutAll(l, point, key, sets, value);
    if Splits(l, point, sets, value) {
      var s :| s in sets && Claimable(l, Place(s, key), point);
      var pl :| Owns(l, point, pl) && pl in l.values && pl.fragment !in sets && l.values[pl] != value;
      WrittenAt(l, point, sets, value, Place(s, key));
      WrittenAt(l, point, sets, value, pl);
      assert Owns(after, point, pl) && Owns(after, point, Place(s, key));
    } else {
      forall a, b | Owns(after, point, a) && Owns(after, point, b) && a in after.values && b in after.values
        ensures after.values[a] == after.values[b]
      {
        WrittenAt(l, point, sets, value, a);
        WrittenAt(l, point, sets, value, b);
        assert a.fragment in sets ==> a == Place(a.fragment, key);
        assert b.fragment in sets ==> b == Place(b.fragment, key);
      }
    }
  }
}
