/**
 * What every message keeps: owners and claims are inverses, a point holds one key at a time, a set
 * has one shape, every value sits on an owned key, and what changed is announced.
 */
module ParameterInvariants {
  import opened Common
  import opened Naming
  import opened ParameterStore

  // ---- the invariants ----

  /** The owner map and the claim lists are exact inverses. */
  ghost predicate Inverse(l: Ledger) {
    && (forall pl | pl in l.owner :: l.owner[pl] != "" && pl in ClaimsOf(l, l.owner[pl]))
    && (forall p, pl {:trigger pl in ClaimsOf(l, p)} | pl in ClaimsOf(l, p) :: pl in l.owner && l.owner[pl] == p)
  }

  /** Every owner is listed among the claimants. */
  ghost predicate Listed(l: Ledger) {
    forall pl | pl in l.owner :: l.owner[pl] in l.claimants
  }

  /** Every place a point owns is under the point's current key. */
  ghost predicate OneKey(l: Ledger) {
    forall pl {:trigger l.owner[pl]} {:trigger pl in l.owner} | pl in l.owner :: pl.key == KeyOf(l, l.owner[pl])
  }

  /** No set is owned both as a literal and by keys. */
  ghost predicate OneShape(l: Ledger) {
    forall pl {:trigger pl in l.owner} | pl in l.owner && pl.key != LITERAL_KEY ::
      Place(pl.fragment, LITERAL_KEY) !in l.owner
  }

  /** Every value sits on an owned place of a known set. */
  ghost predicate ValuesOwned(l: Ledger) {
    forall pl {:trigger pl in l.values} | pl in l.values :: pl in l.owner && pl.fragment in l.knownSets
  }

  ghost predicate Inv(l: Ledger) {
    Inverse(l) && Listed(l) && OneKey(l) && OneShape(l) && ValuesOwned(l)
  }

  /** From `a` to `b` the set of changed names only grew, and covers every value that differs. */
  ghost predicate Tracked(a: Ledger, b: Ledger) {
    && a.changed <= b.changed
    && forall pl: Place {:trigger pl in a.values} {:trigger pl in b.values} | pl.fragment !in b.changed ::
         (pl in a.values <==> pl in b.values) && (pl in a.values ==> a.values[pl] == b.values[pl])
  }

  lemma TrackedReflexive(l: Ledger)
    ensures Tracked(l, l)
  {
  }

  /** Tracking only looks at the values and the names announced. */
  lemma TrackedValues(a: Ledger, b: Ledger, c: Ledger)
    requires Tracked(a, b) && b.values == c.values && b.changed == c.changed
    ensures Tracked(a, c)
  {
  }

  lemma TrackedTransitive(a: Ledger, b: Ledger, c: Ledger)
    requires Tracked(a, b) && Tracked(b, c)
    ensures Tracked(a, c)
  {
  }

  // ---- claiming ----

  lemma ClaimInverse(l: Ledger, place: Place, point: Point)
    requires Inverse(l) && point != ""
    ensures Inverse(Claim(l, place, point))
  {
    var after := Claim(l, place, point);
    if after != l {
      assert after.claims[point] == ClaimsOf(l, point) + [place];
      forall pl | pl in after.owner
        ensures after.owner[pl] != "" && pl in ClaimsOf(after, after.owner[pl])
      {
        assert pl != place ==> pl in ClaimsOf(l, l.owner[pl]);
      }
      forall p, pl | pl in ClaimsOf(after, p)
        ensures pl in after.owner && after.owner[pl] == p
      {
        assert (p == point && pl == place) || pl in ClaimsOf(l, p);
      }
    }
  }

  /**
   * ShapeTaken exempts the claiming point, yet the set keeps one shape: the point's own claims
   * are all under the key it is claiming.
   */
  lemma ClaimShape(l: Ledger, place: Place, point: Point, held: Place)
    requires Inv(l) && place.key == KeyOf(l, point) && OwnerOf(l, place).None? && !ShapeTaken(l, place, point)
    requires held in l.owner && held.fragment == place.fragment
    ensures held.key == LITERAL_KEY <==> place.key == LITERAL_KEY
  {
    var q := l.owner[held];
    assert held in ClaimsOf(l, q) && held.key == KeyOf(l, q);
    if q != point && held.key == LITERAL_KEY {
      assert held == Place(place.fragment, LITERAL_KEY);
    }
  }

  lemma ClaimOneShape(l: Ledger, place: Place, point: Point)
    requires Inv(l) && place.key == KeyOf(l, point)
    ensures OneShape(Claim(l, place, point))
  {
    var after := Claim(l, place, point);
    if after != l {
      forall pl | pl in after.owner && pl.key != LITERAL_KEY
        ensures Place(pl.fragment, LITERAL_KEY) !in after.owner
      {
        hide Inverse, Listed, OneKey, ValuesOwned, ShapeTaken;
        var literal := Place(pl.fragment, LITERAL_KEY);
        if pl == place {
          if literal in l.owner {
            ClaimShape(l, place, point, literal);
          }
        } else if literal == place {
          ClaimShape(l, place, point, pl);
        }
      }
    }
  }

  lemma ClaimKeeps(l: Ledger, place: Place, point: Point)
    requires Inv(l) && point != "" && place.key == KeyOf(l, point)
    ensures Inv(Claim(l, place, point))
    ensures Claimable(l, place, point) <==> OwnerOf(Claim(l, place, point), place) == Some(point)
  {
    hide Inverse, OneShape, ShapeTaken;
    ClaimInverse(l, place, point);
    ClaimOneShape(l, place, point);
  }

  /**
   * Why the ids must not be empty: an empty id claims a place, and the place reads back unowned. For
   * any other id a claim of a free place of the right shape makes its point the owner.
   */
  lemma ClaimMakesOwner(l: Ledger, place: Place, point: Point)
    requires OwnerOf(l, place).None? && !ShapeTaken(l, place, point)
    ensures place in ClaimsOf(Claim(l, place, point), point)
    ensures OwnerOf(Claim(l, place, point), place) == Some(point) <==> point != ""
  {
    var held := ClaimsOf(l, point);
    assert (held + [place])[|held|] == place;
  }

  lemma {:induction false} ClaimAllKeeps(l: Ledger, sets: seq<SetName>, key: Key, point: Point)
    requires Inv(l) && point != "" && key == KeyOf(l, point)
    ensures Inv(ClaimAll(l, sets, key, point))
    ensures ClaimAll(l, sets, key, point).values == l.values && ClaimAll(l, sets, key, point).changed == l.changed
    decreases |sets|
  {
    if sets != [] {
      ClaimKeeps(l, Place(sets[0], key), point);
      ClaimAllKeeps(Claim(l, Place(sets[0], key), point), sets[1..], key, point);
    }
  }

  // ---- dropping ----

  /** `b` is `a` without the places `gone` of `point`. */
  ghost predicate Dropped(a: Ledger, b: Ledger, point: Point, gone: seq<Place>) {
    && b.owner == a.owner - (set pl | pl in gone)
    && b.values == a.values - (set pl | pl in gone)
    && (forall p :: ClaimsOf(b, p) == if p == point then Without(ClaimsOf(a, p), gone) else ClaimsOf(a, p))
    && b.changed == a.changed + (set pl | pl in gone && pl in a.values :: pl.fragment)
    && b.claimants == a.claimants && b.keys == a.keys && b.knownSets == a.knownSets
  }

  lemma {:induction false} WithoutNothing<T(!new)>(list: seq<T>, gone: seq<T>)
    requires forall x | x in gone :: x !in list
    ensures Without(list, gone) == list
  {
    if list != [] {
      WithoutNothing(list[1..], gone);
    }
  }

  /** Places that `point` holds or nobody does: dropping them is removing them. */
  ghost predicate Droppable(l: Ledger, point: Point, places: seq<Place>) {
    forall pl | pl in places :: pl in l.owner ==> l.owner[pl] == point
  }

  lemma DropOne(l: Ledger, point: Point, place: Place)
    requires Inverse(l) && ValuesOwned(l) && Droppable(l, point, [place])
    ensures Dropped(l, DropValue(l, point, place), point, [place])
  {
    assert place in [place];
    assert (set pl | pl in [place]) == {place};
    assert (set pl | pl in [place] && pl in l.values :: pl.fragment) == if place in l.values then {place.fragment}
        else {};
    if place !in l.owner {
      assert place !in ClaimsOf(l, point);
      WithoutNothing(ClaimsOf(l, point), [place]);
    }
  }

  lemma DroppedInverse(a: Ledger, b: Ledger, point: Point, gone: seq<Place>)
    requires Inverse(a) && ValuesOwned(a) && Dropped(a, b, point, gone) && Droppable(a, point, gone)
    ensures Inverse(b) && ValuesOwned(b)
  {
    forall pl | pl in b.owner
      ensures b.owner[pl] == a.owner[pl] && b.owner[pl] != "" && pl in ClaimsOf(b, b.owner[pl])
    {
      assert pl in ClaimsOf(a, a.owner[pl]);
      assert pl !in gone;
    }
    forall p, pl | pl in ClaimsOf(b, p)
      ensures pl in b.owner && b.owner[pl] == p
    {
      assert pl in ClaimsOf(a, p);
    }
  }

  lemma DroppedTracked(a: Ledger, b: Ledger, point: Point, gone: seq<Place>)
    requires Dropped(a, b, point, gone)
    ensures Tracked(a, b)
  {
    forall pl: Place | pl.fragment !in b.changed
      ensures pl in a.values ==> pl !in gone
    {
    }
  }

  lemma DroppedCompose(a: Ledger, b: Ledger, c: Ledger, point: Point, place: Place, rest: seq<Place>)
    requires Dropped(a, b, point, [place]) && Dropped(b, c, point, rest)
    ensures Dropped(a, c, point, [place] + rest)
  {
    var all := [place] + rest;
    WithoutCompose(ClaimsOf(a, point), [place], rest);
    assert (set pl | pl in all) == (set pl | pl in [place]) + (set pl | pl in rest);
    assert (set pl | pl in all && pl in a.values :: pl.fragment)
        == (set pl | pl in [place] && pl in a.values :: pl.fragment)
         + (set pl | pl in rest && pl in b.values :: pl.fragment);
  }

  lemma {:induction false} DropAllIs(l: Ledger, point: Point, places: seq<Place>)
    requires Inverse(l) && ValuesOwned(l) && Droppable(l, point, places)
    ensures Dropped(l, DropAll(l, point, places), point, places)
    decreases |places|
  {
    if places == [] {
      WithoutNothing(ClaimsOf(l, point), places);
      assert (set pl | pl in places) == {};
    } else {
      var one, rest := DropValue(l, point, places[0]), places[1..];
      assert places == [places[0]] + rest;
      assert places[0] in places && forall pl | pl in rest :: pl in places;
      DropOne(l, point, places[0]);
      DroppedInverse(l, one, point, [places[0]]);
      DropAllIs(one, point, rest);
      DroppedCompose(l, one, DropAll(one, point, rest), point, places[0], rest);
    }
  }

  /** Dropping claims of a point keeps every invariant. */
  lemma DropAllKeeps(l: Ledger, point: Point, places: seq<Place>)
    requires Inv(l) && forall pl | pl in places :: pl in ClaimsOf(l, point)
    ensures Inv(DropAll(l, point, places)) && Tracked(l, DropAll(l, point, places))
    ensures Dropped(l, DropAll(l, point, places), point, places)
    ensures forall pl | pl in ClaimsOf(DropAll(l, point, places), point) :: pl in ClaimsOf(l, point) && pl !in places
    ensures DropAll(l, point, places).keys == l.keys
  {
    var after := DropAll(l, point, places);
    DropAllIs(l, point, places);
    DroppedInverse(l, after, point, places);
    DroppedTracked(l, after, point, places);
    assert forall pl | pl in after.owner :: pl in l.owner && after.owner[pl] == l.owner[pl];
    assert OneShape(after) && Listed(after) && OneKey(after);
  }

  /** The point may take another key once everything it holds is under that key. */
  lemma SetKeyKeeps(l: Ledger, point: Point, keys: map<Point, Key>)
    requires Inv(l) && forall pl | pl in ClaimsOf(l, point) :: pl.key == KeyOf(l.(keys := keys), point)
    requires forall p | p != point :: KeyOf(l.(keys := keys), p) == KeyOf(l, p)
    ensures Inv(l.(keys := keys))
  {
    var after := l.(keys := keys);
    forall p
      ensures ClaimsOf(after, p) == ClaimsOf(l, p)
    {
    }
    forall pl | pl in after.owner
      ensures pl.key == KeyOf(after, after.owner[pl])
    {
      assert pl in ClaimsOf(l, l.owner[pl]);
    }
  }

  // ---- placing and valuing ----

  lemma MoveKeeps(l: Ledger, point: Point, sets: seq<SetName>, key: Key)
    requires Inv(l)
    ensures var m := Move(l, point, sets, key); Inv(m) && Tracked(l, m) && KeyOf(m, point) == key
  {
    var gone := Leaving(ClaimsOf(l, point), sets, key);
    hide Inv, DropAll, Dropped, Tracked;
    DropAllKeeps(l, point, gone);
    var left := DropAll(l, point, gone);
    SetKeyKeeps(left, point, left.keys[point := key]);
    TrackedValues(l, left, Move(l, point, sets, key));
  }

  lemma DroppedRekeyed(a: Ledger, b: Ledger, point: Point, gone: seq<Place>, keys: map<Point, Key>)
    requires Dropped(a, b, point, gone)
    ensures Dropped(a.(keys := keys), b.(keys := keys), point, gone)
  {
    hide Without;
    assert forall p :: ClaimsOf(a.(keys := keys), p) == ClaimsOf(a, p);
    assert forall p :: ClaimsOf(b.(keys := keys), p) == ClaimsOf(b, p);
  }

  lemma MoveIs(l: Ledger, point: Point, sets: seq<SetName>, key: Key)
    requires Inv(l)
    ensures var m := Move(l, point, sets, key);
            && m.keys == l.keys[point := key]
            && Dropped(l.(keys := m.keys), m, point, Leaving(ClaimsOf(l, point), sets, key))
  {
    var gone := Leaving(ClaimsOf(l, point), sets, key);
    hide Inv, DropAll, Dropped, Tracked;
    DropAllKeeps(l, point, gone);
    DroppedRekeyed(l, DropAll(l, point, gone), point, gone, l.keys[point := key]);
  }

  lemma SettleKeeps(l: Ledger, point: Point, sets: seq<SetName>, key: Key)
    requires Inv(l) && point != ""
    ensures Inv(Settle(l, point, sets, key)) && Tracked(l, Settle(l, point, sets, key))
  {
    MoveKeeps(l, point, sets, key);
    ClaimAllKeeps(Move(l, point, sets, key), sets, key, point);
  }

  lemma PutValueKeeps(l: Ledger, point: Point, place: Place, value: Value)
    requires Inv(l) && point != "" && place.key == KeyOf(l, point)
    ensures Inv(PutValue(l, point, place, value)) && Tracked(l, PutValue(l, point, place, value))
    ensures PutValue(l, point, place, value).keys == l.keys
  {
    hide Inv;
    ClaimKeeps(l, place, point);
    var claimed, after := Claim(l, place, point), PutValue(l, point, place, value);
    if after != claimed {
      PutKeeps(claimed, after, place);
    }
  }

  /** A value put on an owned place of a known set. */
  lemma PutKeeps(a: Ledger, b: Ledger, place: Place)
    requires Inv(a) && place in a.owner && place in b.values
    requires b == a.(values := a.values[place := b.values[place]], changed := b.changed, knownSets := b.knownSets)
    requires place.fragment in b.knownSets && forall s | s in a.knownSets :: s in b.knownSets
    ensures Inv(b)
  {
    assert forall p :: ClaimsOf(b, p) == ClaimsOf(a, p);
  }

  lemma {:induction false} PutAllKeeps(l: Ledger, point: Point, key: Key, sets: seq<SetName>, value: Value)
    requires Inv(l) && point != "" && key == KeyOf(l, point)
    ensures Inv(PutAll(l, point, key, sets, value)) && Tracked(l, PutAll(l, point, key, sets, value))
    ensures PutAll(l, point, key, sets, value).keys == l.keys
    decreases |sets|
  {
    if sets != [] {
      hide Inv, Tracked, PutValue;
      var one := PutValue(l, point, Place(sets[0], key), value);
      PutValueKeeps(l, point, Place(sets[0], key), value);
      PutAllKeeps(one, point, key, sets[1..], value);
      TrackedTransitive(l, one, PutAll(one, point, key, sets[1..], value));
    }
  }

  lemma {:induction false} ApplyResultsKeeps(st: Store, updates: seq<(Point, Value)>, configured: Option<seq<Point>>,
      fallback: SetName)
    requires Inv(st.ledger) && forall u | u in updates :: u.0 != ""
    ensures var after := ApplyResults(st, updates, configured, fallback);
            Inv(after.ledger) && Tracked(st.ledger, after.ledger)
    decreases |updates|
  {
    if updates != [] {
      var (point, value) := updates[0];
      assert updates[0] in updates;
      var sets := SetsIn(Resolve(st, point, configured, fallback));
      var put := PutAll(st.ledger, point, KeyOf(st.ledger, point), sets, value);
      PutAllKeeps(st.ledger, point, KeyOf(st.ledger, point), sets, value);
      ApplyResultsKeeps(st.(ledger := put), updates[1..], configured, fallback);
    }
  }

  // ---- declarations ----

  lemma {:induction false} GiveUpKeeps(l: Ledger, entries: seq<Entry>, wanted: map<Place, Point>)
    requires Inv(l)
    ensures Inv(GiveUp(l, entries, wanted)) && Tracked(l, GiveUp(l, entries, wanted))
    decreases |entries|
  {
    if entries != [] {
      var p := entries[0].point;
      var gone := Yielded(ClaimsOf(l, p), p, wanted);
      DropAllKeeps(l, p, gone);
      GiveUpKeeps(DropAll(l, p, gone), entries[1..], wanted);
    }
  }

  lemma {:induction false} PlaceAllKeeps(st: Store, entries: seq<Entry>)
    requires Inv(st.ledger) && forall e | e in entries :: e.point != ""
    ensures Inv(PlaceAll(st, entries).ledger) && Tracked(st.ledger, PlaceAll(st, entries).ledger)
    decreases |entries|
  {
    if entries != [] {
      var e := entries[0];
      assert e in entries;
      SettleKeeps(st.ledger, e.point, e.sets, e.key);
      PlaceAllKeeps(PlacePoint(st, e.point, InSets(e.sets), e.key), entries[1..]);
    }
  }

  lemma ApplyDeclarationsKeeps(st: Store, protocol: Protocol, forced: string)
    requires Inv(st.ledger)
    ensures Inv(ApplyDeclarations(st, protocol, forced).ledger)
    ensures Tracked(st.ledger, ApplyDeclarations(st, protocol, forced).ledger)
  {
    var entries := Plan(DeclaredBy(st, protocol), NamesFor(st, protocol, forced));
    var freed := GiveUp(st.ledger, entries, Wanted(entries, map[]));
    GiveUpKeeps(st.ledger, entries, Wanted(entries, map[]));
    PlaceAllKeeps(st.(ledger := freed), entries);
  }

  /** A point that gave up every claim can be forgotten. */
  lemma ReleaseKeeps(st: Store, entry: Declaration)
    requires Inv(st.ledger)
    ensures Inv(Release(st, entry).ledger) && Tracked(st.ledger, Release(st, entry).ledger)
  {
    var l, p := st.ledger, entry.point;
    if Release(st, entry) != st {
      DropAllKeeps(l, p, ClaimsOf(l, p));
      var bare := DropAll(l, p, ClaimsOf(l, p));
      SetKeyKeeps(bare, p, bare.keys - {p});
    }
  }

  lemma {:induction false} ReleaseAllKeeps(st: Store, before: seq<Declaration>, declared: seq<Declaration>)
    requires Inv(st.ledger)
    ensures Inv(ReleaseAll(st, before, declared).ledger)
    ensures Tracked(st.ledger, ReleaseAll(st, before, declared).ledger)
    decreases |before|
  {
    if before != [] {
      ReleaseKeeps(st, before[0]);
      ReleaseAllKeeps(if before[0].point == "" || Declares(declared, before[0].point) then st
          else Release(st, before[0]),
        before[1..], declared);
    }
  }

  // ---- removed points ----

  lemma StrikeKeeps(l: Ledger, gone: set<Point>, claimants: seq<Point>)
    requires Inv(l) && forall p | p in l.claimants && p !in gone :: p in claimants
    ensures Inv(Strike(l, gone, claimants)) && Tracked(l, Strike(l, gone, claimants))
  {
    var after := Strike(l, gone, claimants);
    forall pl | pl in after.owner
      ensures pl in ClaimsOf(after, after.owner[pl]) && pl.key == KeyOf(after, after.owner[pl])
    {
      assert pl in ClaimsOf(l, l.owner[pl]);
    }
    forall p, pl | pl in ClaimsOf(after, p)
      ensures pl in after.owner && after.owner[pl] == p
    {
      assert pl in ClaimsOf(l, p);
    }
  }

  lemma PruneKeeps(st: Store, configured: seq<Point>)
    requires Inv(st.ledger)
    ensures Inv(Prune(st, configured).ledger) && Tracked(st.ledger, Prune(st, configured).ledger)
    ensures forall pl | pl in Prune(st, configured).ledger.owner :: st.ledger.owner[pl] in configured
  {
    var gone := set p | p in st.ledger.claimants && p !in configured;
    StrikeKeeps(st.ledger, gone, Kept(st.ledger.claimants, configured));
  }

  // ---- messages and runs ----

  /** The point ids of a message that can reach the store are not empty. */
  ghost predicate WellFormed(m: Message) {
    match m
    case Sample(_, _, point, _, _, _) => point != ""
    case Command(_, _, _, Write(point, _)) => point != Some("")
    case Command(_, _, _, Batch(_, results)) => results.Some? ==> forall r | r in results.value :: r.point != Some("")
    case _ => true
  }

  lemma {:induction false} ResultUpdatesNamed(results: seq<Result>, updates: seq<(Point, Value)>)
    requires (forall r | r in results :: r.point != Some("")) && forall u | u in updates :: u.0 != ""
    ensures forall u | u in ResultUpdates(results, updates) :: u.0 != ""
    decreases |results|
  {
    if results != [] {
      var r := results[0];
      ResultUpdatesNamed(results[1..],
        if r.successful && r.point.Some? && r.value.Some? then Upsert(updates, r.point.value, r.value.value)
            else updates);
    }
  }

  lemma {:induction false} RecordOriginKeeps(st: Store, points: seq<Point>, origin: SetName)
    ensures var after := RecordOrigin(st, points, origin); after == st.(placement := after.placement)
    ensures var after := RecordOrigin(st, points, origin);
            && (forall p | p in st.placement :: p in after.placement && after.placement[p] == st.placement[p])
            && (forall p | p in points :: p in after.placement)
            && (forall p | p in after.placement && p !in st.placement ::
                  p in points && after.placement[p] == InSets([origin]))
    decreases |points|
  {
    if points != [] {
      RecordOriginKeeps(
        if points[0] in st.placement then st else st.(placement := st.placement[points[0] := InSets([origin])]),
        points[1..], origin);
    }
  }

  lemma FreshKeeps(st: Store)
    requires Inv(st.ledger)
    ensures Inv(Fresh(st).ledger)
  {
    assert forall p :: ClaimsOf(Fresh(st).ledger, p) == ClaimsOf(st.ledger, p);
  }

  /** Every message keeps the invariants and announces every value it changed. */
  lemma OnMessageKeeps(st: Store, m: Message, forced: string)
    requires Inv(st.ledger) && WellFormed(m)
    ensures Inv(OnMessage(st, m, forced).ledger)
    ensures Tracked(Fresh(st).ledger, OnMessage(st, m, forced).ledger)
  {
    var start := Fresh(st);
    FreshKeeps(st);
    match m
    case Sample(_, _, _, _, _, _) => OnSampleKeeps(start, m, forced);
    case LinkStatus(_, _, _) => OnLinkStatusKeeps(start, m, forced);
    case Command(_, _, _, _) => OnCommandKeeps(start, m, forced);
    case Capabilities(protocol, declared) =>
      var released := ReleaseAll(start, DeclaredBy(start, protocol), declared);
      ReleaseAllKeeps(start, DeclaredBy(start, protocol), declared);
      var informed := released.(declared := released.declared[protocol := declared]);
      ApplyDeclarationsKeeps(informed, protocol, forced);
  }

  lemma OnSampleKeeps(st: Store, m: Message, forced: string)
    requires Inv(st.ledger) && m.Sample? && m.point != ""
    ensures Inv(OnSample(st, m, forced).ledger) && Tracked(st.ledger, OnSample(st, m, forced).ledger)
  {
    var seen := SeenProtocol(st, m.protocol);
    var typed := if m.deviceType != "" then seen.(deviceType := m.deviceType) else seen;
    var meta := if m.meta.Some? then m.meta.value else Absent;
    var sets := SetsFromSample(meta, m.access == Some(true), NamesFor(typed, m.protocol, forced));
    hide Inv, Tracked, Settle, SetsFromSample, KeyFromSample, PutAll;
    SettleKeeps(st.ledger, m.point, SetsIn(sets), KeyFromSample(meta, m.point));
    var placed := if m.access.Some? || m.meta.Some?
                  then PlacePoint(typed, m.point, sets, KeyFromSample(meta, m.point)) else typed;
    if m.value.Some? {
      PutAllKeeps(placed.ledger, m.point, KeyOf(placed.ledger, m.point), SetsIn(sets), m.value.value);
    }
    TrackedReflexive(st.ledger);
    TrackedReflexive(placed.ledger);
    TrackedTransitive(st.ledger, placed.ledger, OnSample(st, m, forced).ledger);
  }

  lemma OnLinkStatusKeeps(st: Store, m: Message, forced: string)
    requires Inv(st.ledger) && m.LinkStatus?
    ensures Inv(OnLinkStatus(st, m, forced).ledger) && Tracked(st.ledger, OnLinkStatus(st, m, forced).ledger)
  {
    var informed := Informed(st, m);
    var configured := ConfiguredPoints(informed);
    if configured.Some? {
      PruneKeeps(informed, configured.value);
    }
    ApplyDeclarationsKeeps(if configured.Some? then Prune(informed, configured.value)
        else informed, m.protocol, forced);
  }

  lemma OnCommandKeeps(st: Store, m: Message, forced: string)
    requires Inv(st.ledger) && m.Command? && WellFormed(m)
    ensures Inv(OnCommand(st, m, forced).ledger) && Tracked(st.ledger, OnCommand(st, m, forced).ledger)
  {
    RecordOriginKeeps(st, WrittenPoints(m.body), if m.origin.Some? then m.origin.value else "");
    var updates := UpdatesOf(m.body);
    if m.body.Batch? && m.body.results.Some? {
      ResultUpdatesNamed(m.body.results.value, []);
    }
    ApplyResultsKeeps(Origin(st, m), updates, if m.protocol in st.listed then Some(st.listed[m.protocol]) else None,
      SetFor(NamesFor(st, m.protocol, forced), ""));
  }

  /** The store after a run of messages. */
  function Run(st: Store, messages: seq<Message>, forced: string): Store
    decreases |messages|
  {
    if messages == [] then st else Run(OnMessage(st, messages[0], forced), messages[1..], forced)
  }

  lemma {:induction false} RunKeeps(st: Store, messages: seq<Message>, forced: string)
    requires Inv(st.ledger) && forall m | m in messages :: WellFormed(m)
    ensures Inv(Run(st, messages, forced).ledger)
    decreases |messages|
  {
    if messages != [] {
      assert messages[0] in messages;
      OnMessageKeeps(st, messages[0], forced);
      RunKeeps(OnMessage(st, messages[0], forced), messages[1..], forced);
    }
  }

  /**
   * In every run from the empty store: owners and claims are exact inverses, every claim is under
   * its point's key, every owner is a claimant, no set has two shapes, every value is owned.
   */
  lemma EveryRunIsConsistent(messages: seq<Message>, forced: string)
    requires forall m | m in messages :: WellFormed(m)
    ensures Inv(Run(EMPTY, messages, forced).ledger)
  {
    RunKeeps(EMPTY, messages, forced);
  }
}
