/**
 * Applying a descriptor's declarations: exactly which declared places land on their points,
 * whatever the points held before, and exactly which values an application loses.
 */
module ParameterDeclarations {
  import opened Common
  import opened Naming
  import opened ParameterStore
  import opened ParameterInvariants
  import opened ParameterTwin

  ghost predicate Owns(l: Ledger, point: Point, place: Place) {
    place in l.owner && l.owner[place] == point
  }

  /** The places an entry declares for its point. */
  predicate Wants(e: Entry, place: Place) {
    place.key == e.key && place.fragment in e.sets
  }

  predicate Among(entries: seq<Entry>, point: Point) {
    exists e | e in entries :: e.point == point
  }

  predicate WantedByAny(entries: seq<Entry>, place: Place) {
    exists e | e in entries :: Wants(e, place)
  }

  /** Every entry names a point, as planned entries do. */
  ghost predicate Named(entries: seq<Entry>) {
    forall e | e in entries :: e.point != ""
  }

  // ---- the map of wanted places ----

  lemma {:induction false} WantedIs(entries: seq<Entry>, before: map<Place, Point>, place: Place)
    ensures place in Wanted(entries, before) <==> place in before || WantedByAny(entries, place)
    ensures !WantedByAny(entries, place) && place in before ==> Wanted(entries, before)[place] == before[place]
    ensures WantedByAny(entries, place) ==> exists i | 0 <= i < |entries| ::
              && Wants(entries[i], place) && Wanted(entries, before)[place] == entries[i].point
              && forall j | i < j < |entries| :: !Wants(entries[j], place)
    decreases |entries|
  {
    if entries != [] {
      var e, rest := entries[0], entries[1..];
      var next := WantAll(before, e.sets, e.key, e.point);
      hide Wanted;
      WantedIs(rest, next, place);
      assert Wanted(entries, before) == Wanted(rest, next) by { WantedStep(entries, before); }
      assert WantedByAny(entries, place) <==> Wants(e, place) || WantedByAny(rest, place) by {
        assert forall x :: x in entries <==> x == e || x in rest;
      }
      if WantedByAny(rest, place) {
        var i :| 0 <= i < |rest| && Wants(rest[i], place) && Wanted(rest, next)[place] == rest[i].point
                 && forall j | i < j < |rest| :: !Wants(rest[j], place);
        assert entries[i + 1] == rest[i];
        assert forall j | i + 1 < j < |entries| :: entries[j] == rest[j - 1];
      } else if Wants(e, place) {
        assert entries[0] == e;
        forall j | 0 < j < |entries|
          ensures !Wants(entries[j], place)
        {
          assert entries[j] == rest[j - 1] && entries[j] in rest;
        }
      }
    }
  }

  lemma WantedStep(entries: seq<Entry>, before: map<Place, Point>)
    requires entries != []
    ensures Wanted(entries, before) == Wanted(entries[1..],
        WantAll(before, entries[0].sets, entries[0].key, entries[0].point))
  {
  }

  // ---- the first pass ----

  /** Giving up is removing the places of declared points that are wanted by another point. */
  ghost predicate Yields(l: Ledger, entries: seq<Entry>, wanted: map<Place, Point>, place: Place) {
    place in l.owner && Among(entries, l.owner[place]) && place in wanted && wanted[place] != l.owner[place]
  }

  lemma {:induction false} GiveUpIs(l: Ledger, entries: seq<Entry>, wanted: map<Place, Point>, place: Place)
    requires Inv(l)
    ensures var after := GiveUp(l, entries, wanted);
            && (place in after.owner <==> place in l.owner && !Yields(l, entries, wanted, place))
            && (place in after.owner ==> after.owner[place] == l.owner[place])
            && (place in after.values <==> place in l.values && !Yields(l, entries, wanted, place))
            && (place in after.values ==> after.values[place] == l.values[place])
    decreases |entries|
  {
    if entries != [] {
      var p, rest := entries[0].point, entries[1..];
      var gone := Yielded(ClaimsOf(l, p), p, wanted);
      DropAllKeeps(l, p, gone);
      assert place in ClaimsOf(l, p) <==> place in l.owner && l.owner[place] == p by { HeldIs(l, p, place); }
      hide Inv, Tracked, DropAll;
      var one := DropAll(l, p, gone);
      assert place in one.owner <==> place in l.owner && place !in gone;
      assert place in one.values <==> place in l.values && place !in gone;
      GiveUpIs(one, rest, wanted, place);
      assert forall x :: x in entries <==> x == entries[0] || x in rest;
    }
  }

  /** A point's claims are what it owns. */
  lemma HeldIs(l: Ledger, point: Point, place: Place)
    requires Inv(l)
    ensures place in ClaimsOf(l, point) <==> place in l.owner && l.owner[place] == point
  {
  }

  // ---- placing one point ----

  /** Two keys a set cannot give to two points: the same one, or a literal beside any other. */
  predicate Rival(a: Key, b: Key) {
    a == b || (a == LITERAL_KEY) != (b == LITERAL_KEY)
  }

  /** Another point holds the place, or gives its set the other shape. */
  ghost predicate Rivalled(owner: map<Place, Point>, place: Place, point: Point) {
    exists x | x in owner :: owner[x] != point && x.fragment == place.fragment && Rival(x.key, place.key)
  }

  lemma ShapeTakenIs(l: Ledger, place: Place, point: Point)
    requires Inv(l)
    ensures ShapeTaken(l, place, point) <==> exists x | x in l.owner ::
              l.owner[x] != point && x.fragment == place.fragment
                  && (x.key == LITERAL_KEY) != (place.key == LITERAL_KEY)
  {
    hide OneKey, OneShape, ValuesOwned;
    if place.key == LITERAL_KEY {
      if ShapeTaken(l, place, point) {
        var other :| other in l.claimants && other != point && exists held | held in ClaimsOf(l, other) ::
                       held.fragment == place.fragment && held.key != LITERAL_KEY;
        var held :| held in ClaimsOf(l, other) && held.fragment == place.fragment && held.key != LITERAL_KEY;
        assert held in l.owner;
      }
    } else {
      assert forall x: Place | x.fragment == place.fragment && x.key == LITERAL_KEY ::
          x == Place(place.fragment, LITERAL_KEY);
    }
  }

  lemma ClaimableIs(l: Ledger, place: Place, point: Point)
    requires Inv(l) && point != ""
    ensures Claimable(l, place, point) <==> !Rivalled(l.owner, place, point)
  {
    ShapeTakenIs(l, place, point);
    assert place in l.owner ==> OwnerOf(l, place) == Some(l.owner[place]);
    hide ShapeTaken, Inverse, Listed, OneKey, ValuesOwned;
    assert forall x: Place | x.fragment == place.fragment && x.key == place.key :: x == place;
    if place in l.owner && l.owner[place] == point {
      forall x | x in l.owner && x.fragment == place.fragment && Rival(x.key, place.key)
        ensures x == place
      {
        assert (if place.key == LITERAL_KEY then place else x) == Place(place.fragment, LITERAL_KEY) || x == place;
      }
    }
  }

  /** Whether a set's shape is taken depends on the other points only. */
  lemma SameShapeTaken(a: Ledger, b: Ledger, place: Place, point: Point)
    requires forall other | other != point :: ClaimsOf(b, other) == ClaimsOf(a, other)
    requires forall other | other != point :: other in b.claimants <==> other in a.claimants
    requires var literal := Place(place.fragment, LITERAL_KEY); place != literal ==>
               OwnerOf(b, literal) == OwnerOf(a, literal)
    ensures ShapeTaken(b, place, point) <==> ShapeTaken(a, place, point)
  {
    hide OwnerOf, ClaimsOf;
  }

  /** A claim does not change which places its point can have under its key. */
  lemma ClaimKeepsClaimable(l: Ledger, first: Place, point: Point, place: Place)
    requires point != "" && place.key == first.key
    ensures Claimable(Claim(l, first, point), place, point) <==> Claimable(l, place, point)
  {
    hide ShapeTaken;
    var one := Claim(l, first, point);
    assert forall other | other != point :: ClaimsOf(one, other) == ClaimsOf(l, other);
    assert forall other | other != point :: other in one.claimants <==> other in l.claimants;
    SameShapeTaken(l, one, place, point);
  }

  lemma ClaimOwner(l: Ledger, first: Place, point: Point, place: Place)
    requires Inv(l)
    ensures var one := Claim(l, first, point);
            && one.keys == l.keys
            && (place in l.owner ==> place in one.owner && one.owner[place] == l.owner[place])
            && (place !in l.owner ==> (place in one.owner <==> place == first && !ShapeTaken(l, first, point))
                                      && (place in one.owner ==> one.owner[place] == point))
  {
    hide OneKey, OneShape, ValuesOwned, Listed, ShapeTaken;
  }

  lemma MoveOwner(l: Ledger, point: Point, sets: seq<SetName>, key: Key, place: Place)
    requires Inv(l)
    ensures var m, left := Move(l, point, sets, key),
                place in l.owner && l.owner[place] == point && !(place.key == key && place.fragment in sets);
            && (place in m.owner <==> place in l.owner && !left)
            && (place in m.owner ==> m.owner[place] == l.owner[place])
            && (place in m.values <==> place in l.values && !left)
            && (place in m.values ==> m.values[place] == l.values[place])
  {
    MoveIs(l, point, sets, key);
    HeldIs(l, point, place);
    hide Inv, Move;
  }

  lemma {:induction false} ClaimAllFrame(l: Ledger, sets: seq<SetName>, key: Key, point: Point, place: Place)
    requires Inv(l) && point != "" && key == KeyOf(l, point)
    ensures var after := ClaimAll(l, sets, key, point);
            && (place in l.owner ==> place in after.owner && after.owner[place] == l.owner[place])
            && (place !in l.owner && place in after.owner ==>
                  after.owner[place] == point && place.key == key && place.fragment in sets)
    decreases |sets|
  {
    if sets != [] {
      var first := Place(sets[0], key);
      hide Inv, ShapeTaken;
      ClaimKeeps(l, first, point);
      ClaimOwner(l, first, point, place);
      hide Claim, Claimable;
      ClaimAllFrame(Claim(l, first, point), sets[1..], key, point, place);
    }
  }

  /** Placing a point leaves other points alone, and leaves it only what it declares. */
  lemma SettleFrame(l: Ledger, point: Point, sets: seq<SetName>, key: Key, place: Place)
    requires Inv(l) && point != ""
    ensures var after, wants := Settle(l, point, sets, key), place.key == key && place.fragment in sets;
            && (place in l.owner && l.owner[place] != point ==>
                place in after.owner && after.owner[place] == l.owner[place])
            && (place in after.owner && after.owner[place] != point ==>
                place in l.owner && after.owner[place] == l.owner[place])
            && (place in after.owner && after.owner[place] == point ==> wants)
            && (place in l.owner && l.owner[place] == point && wants ==>
                place in after.owner && after.owner[place] == point)
  {
    MoveKeeps(l, point, sets, key);
    MoveOwner(l, point, sets, key, place);
    ClaimAllFrame(Move(l, point, sets, key), sets, key, point, place);
    hide Move, ClaimAll;
  }

  /** Of the sets claimed, the point ends up in exactly those it could have. */
  lemma {:induction false} ClaimAllTakes(l: Ledger, sets: seq<SetName>, key: Key, point: Point, place: Place)
    requires Inv(l) && point != "" && key == KeyOf(l, point) && place.key == key && place.fragment in sets
    ensures Owns(ClaimAll(l, sets, key, point), point, place) <==> Claimable(l, place, point)
    decreases |sets|
  {
    var first, rest := Place(sets[0], key), sets[1..];
    var one := Claim(l, first, point);
    ClaimKeeps(l, first, point);
    ClaimKeepsClaimable(l, first, point, place);
    assert one.keys == l.keys;
    hide Inv, Claim, Claimable;
    if place.fragment in rest {
      ClaimAllTakes(one, rest, key, point, place);
    } else {
      ClaimAllFrame(one, rest, key, point, place);
    }
  }

  /** Placing a point leaves the others alone, and gives it exactly its places that nobody rivals it for. */
  lemma SettleIs(l: Ledger, point: Point, sets: seq<SetName>, key: Key, place: Place, other: Point)
    requires Inv(l) && point != ""
    ensures var after := Settle(l, point, sets, key);
            && (other != point ==> (Owns(after, other, place) <==> Owns(l, other, place)))
            && (Owns(after, point, place) <==>
                  place.key == key && place.fragment in sets && !Rivalled(l.owner, place, point))
  {
    hide Inv, ClaimAll, Move, Rivalled, Claimable, Tracked;
    SettleFrame(l, point, sets, key, place);
    if place.key == key && place.fragment in sets {
      var m := Move(l, point, sets, key);
      MoveKeeps(l, point, sets, key);
      ClaimAllTakes(m, sets, key, point, place);
      ClaimableIs(m, place, point);
      MoveRivals(l, point, sets, key, place);
    }
  }

  lemma MoveRivals(l: Ledger, point: Point, sets: seq<SetName>, key: Key, place: Place)
    requires Inv(l)
    ensures Rivalled(Move(l, point, sets, key).owner, place, point) <==> Rivalled(l.owner, place, point)
  {
    hide Inv, Move;
    var m := Move(l, point, sets, key);
    forall x
      ensures x in m.owner && m.owner[x] != point <==> x in l.owner && l.owner[x] != point
      ensures x in m.owner ==> x in l.owner && m.owner[x] == l.owner[x]
    {
      MoveOwner(l, point, sets, key, x);
    }
  }

  // ---- the second pass ----

  lemma {:induction false} PlaceAllSplit(st: Store, a: seq<Entry>, b: seq<Entry>)
    ensures PlaceAll(st, a + b) == PlaceAll(PlaceAll(st, a), b)
    decreases |a|
  {
    if a == [] {
      assert a + b == b;
    } else {
      assert (a + b)[1..] == a[1..] + b;
      PlaceAllSplit(PlacePoint(st, a[0].point, InSets(a[0].sets), a[0].key), a[1..], b);
    }
  }

  /** The last of its point among the first `n` entries. */
  predicate LastOf(entries: seq<Entry>, n: nat, j: nat)
    requires n <= |entries|
  {
    j < n && forall k | j < k < n :: entries[k].point != entries[j].point
  }

  /**
   * In the order of the entries, from what is held at first: entry `i` gets its key of `fragment` unless
   * a rival key of the set is held by a point that no entry up to then has placed, or was got by
   * another point's entry.
   */
  ghost predicate LandsIn(held: map<Place, Point>, entries: seq<Entry>, i: nat, fragment: SetName)
    requires i < |entries|
    decreases i
  {
    var e := entries[i];
    && fragment in e.sets
    && (forall x | x in held && x.fragment == fragment && Rival(x.key, e.key) && held[x] != e.point ::
          Among(entries[..i], held[x]))
    && (forall j | 0 <= j < i && LastOf(entries, i, j) && entries[j].point != e.point && Rival(entries[j].key, e.key) ::
          !LandsIn(held, entries, j, fragment))
  }

  lemma {:induction false} HasLast(entries: seq<Entry>, n: nat, point: Point) returns (j: nat)
    requires n <= |entries| && Among(entries[..n], point)
    ensures LastOf(entries, n, j) && entries[j].point == point
    decreases n
  {
    if entries[n - 1].point == point {
      j := n - 1;
    } else {
      assert forall e | e in entries[..n] :: e == entries[n - 1] || e in entries[..n - 1] by {
        assert entries[..n] == entries[..n - 1] + [entries[n - 1]];
      }
      j := HasLast(entries, n - 1, point);
    }
  }

  /** Once `n` entries are placed, an unplaced point holds what it held, a placed one what its last entry got. */
  ghost predicate HoldsAfter(b: Ledger, after: Ledger, entries: seq<Entry>, n: nat, point: Point, place: Place)
    requires n <= |entries|
  {
    && (!Among(entries[..n], point) ==> (Owns(after, point, place) <==> Owns(b, point, place)))
    && (forall j: nat | LastOf(entries, n, j) && entries[j].point == point ::
          Owns(after, point, place) <==> Wants(entries[j], place) && LandsIn(b.owner, entries, j, place.fragment))
  }

  lemma {:induction false} PlacedIs(st: Store, entries: seq<Entry>, n: nat, point: Point, place: Place)
    requires Inv(st.ledger) && Named(entries) && n <= |entries|
    ensures HoldsAfter(st.ledger, PlaceAll(st, entries[..n]).ledger, entries, n, point, place)
    decreases n, 0
  {
    if n > 0 {
      hide Inv, PlaceAll, Settle, LandsIn, Named, HoldsAfter, Rivalled, Owns, Among, LastOf;
      var i := n - 1;
      var e, before := entries[i], PlaceAll(st, entries[..i]);
      PlaceLast(st, entries, i);
      SettleIs(before.ledger, e.point, e.sets, e.key, place, point);
      PlacedIs(st, entries, i, point, place);
      LandsIs(st, entries, i, place.fragment);
      assert Wants(e, place) ==> place == Place(place.fragment, e.key);
      HoldsNext(st.ledger, before.ledger, PlaceAll(st, entries[..n]).ledger, entries, i, point, place);
    } else {
      assert entries[..0] == [];
    }
  }

  lemma HoldsNext(b: Ledger, before: Ledger, after: Ledger, entries: seq<Entry>, i: nat, point: Point, place: Place)
    requires i < |entries| && HoldsAfter(b, before, entries, i, point, place)
    requires if point != entries[i].point then Owns(after, point, place) <==> Owns(before, point, place)
             else Owns(after, point, place) <==>
                 Wants(entries[i], place) && LandsIn(b.owner, entries, i, place.fragment)
    ensures HoldsAfter(b, after, entries, i + 1, point, place)
  {
    hide LandsIn, Owns, Wants, Among;
    AmongStep(entries, i, point);
  }

  lemma AmongStep(entries: seq<Entry>, i: nat, point: Point)
    requires i < |entries|
    ensures Among(entries[..i + 1], point) <==> Among(entries[..i], point) || entries[i].point == point
    ensures forall j: nat | j < i && entries[i].point != entries[j].point ::
              LastOf(entries, i + 1, j) <==> LastOf(entries, i, j)
    ensures forall j: nat | LastOf(entries, i + 1, j) && entries[j].point == entries[i].point :: j == i
    ensures LastOf(entries, i + 1, i)
  {
    assert entries[..i + 1] == entries[..i] + [entries[i]];
    assert entries[i] in entries[..i + 1];
  }

  lemma PlaceLast(st: Store, entries: seq<Entry>, i: nat)
    requires Inv(st.ledger) && Named(entries) && i < |entries|
    ensures var e, before := entries[i], PlaceAll(st, entries[..i]);
            && e.point != "" && Inv(before.ledger)
            && PlaceAll(st, entries[..i + 1]) == PlacePoint(before, e.point, InSets(e.sets), e.key)
  {
    hide Inv, PlacePoint, Tracked;
    var e := entries[i];
    assert e in entries && forall x | x in entries[..i] :: x in entries;
    PlaceAllKeeps(st, entries[..i]);
    PlaceAllSplit(st, entries[..i], [e]);
    assert entries[..i + 1] == entries[..i] + [e] && [e][1..] == [];
    var before := PlaceAll(st, entries[..i]);
    assert PlaceAll(before, [e]) == PlaceAll(PlacePoint(before, e.point, InSets(e.sets), e.key), []);
  }

  /** Landing is being without a rival when the entry is placed. */
  lemma {:induction false} LandsIs(st: Store, entries: seq<Entry>, i: nat, fragment: SetName)
    requires Inv(st.ledger) && Named(entries) && i < |entries|
    ensures var e, before := entries[i], PlaceAll(st, entries[..i]).ledger;
            LandsIn(st.ledger.owner, entries, i, fragment)
            <==> fragment in e.sets && !Rivalled(before.owner, Place(fragment, e.key), e.point)
    decreases i, 1
  {
    hide Inv, PlaceAll, Named;
    var e, before, held := entries[i], PlaceAll(st, entries[..i]).ledger, st.ledger.owner;
    var place := Place(fragment, e.key);
    if fragment in e.sets {
      if Rivalled(before.owner, place, e.point) {
        var x :| x in before.owner && before.owner[x] != e.point && x.fragment == fragment && Rival(x.key, e.key);
        var q := before.owner[x];
        PlacedIs(st, entries, i, q, x);
        if Among(entries[..i], q) {
          var j := HasLast(entries, i, q);
          assert LandsIn(held, entries, j, fragment) && Rival(entries[j].key, e.key);
        } else {
          assert Owns(st.ledger, q, x);
        }
      } else {
        forall x | x in held && x.fragment == fragment && Rival(x.key, e.key) && held[x] != e.point
          ensures Among(entries[..i], held[x])
        {
          PlacedIs(st, entries, i, held[x], x);
        }
        forall j | 0 <= j < i && LastOf(entries, i, j) && entries[j].point != e.point && Rival(entries[j].key, e.key)
          ensures !LandsIn(held, entries, j, fragment)
        {
          var x := Place(fragment, entries[j].key);
          PlacedIs(st, entries, i, entries[j].point, x);
          LandsWanted(held, entries, j, fragment);
        }
      }
    }
  }

  lemma LandsWanted(held: map<Place, Point>, entries: seq<Entry>, i: nat, fragment: SetName)
    requires i < |entries|
    ensures LandsIn(held, entries, i, fragment) ==> Wants(entries[i], Place(fragment, entries[i].key))
  {
  }

  // ---- where declarations land ----

  /** What is held once declared points have given up what others are to take. */
  ghost function Remaining(l: Ledger, entries: seq<Entry>): map<Place, Point> {
    map pl | pl in l.owner && !Yields(l, entries, Wanted(entries, map[]), pl) :: l.owner[pl]
  }

  ghost predicate Lands(l: Ledger, entries: seq<Entry>, i: nat, fragment: SetName)
    requires i < |entries|
  {
    LandsIn(Remaining(l, entries), entries, i, fragment)
  }

  lemma FreedIs(st: Store, entries: seq<Entry>)
    requires Inv(st.ledger)
    ensures var freed := GiveUp(st.ledger, entries, Wanted(entries, map[]));
            Inv(freed) && freed.owner == Remaining(st.ledger, entries)
  {
    hide Inv, GiveUp, Wanted, Tracked, Yields;
    var wanted := Wanted(entries, map[]);
    var freed := GiveUp(st.ledger, entries, wanted);
    GiveUpKeeps(st.ledger, entries, wanted);
    forall pl
      ensures pl in freed.owner <==> pl in st.ledger.owner && !Yields(st.ledger, entries, wanted, pl)
      ensures pl in freed.owner ==> freed.owner[pl] == st.ledger.owner[pl]
    {
      GiveUpIs(st.ledger, entries, wanted, pl);
    }
  }

  /**
   * Whatever the declarations and whatever the points held before -- keys exchanged, literals beside
   * keys, places declared twice, points declared twice -- a declared point ends up holding exactly
   * those places of its last entry that land, and an undeclared one what it held.
   */
  lemma DeclarationLands(st: Store, entries: seq<Entry>, point: Point, place: Place)
    requires Inv(st.ledger) && Named(entries)
    ensures !Among(entries, point) ==>
              (Owns(ApplyEntries(st, entries).ledger, point, place) <==> Owns(st.ledger, point, place))
    ensures forall i: nat | LastOf(entries, |entries|, i) && entries[i].point == point ::
              Owns(ApplyEntries(st, entries).ledger, point, place) <==>
              Wants(entries[i], place) && Lands(st.ledger, entries, i, place.fragment)
  {
    FreedIs(st, entries);
    var freed := st.(ledger := GiveUp(st.ledger, entries, Wanted(entries, map[])));
    GiveUpIs(st.ledger, entries, Wanted(entries, map[]), place);
    assert entries[..|entries|] == entries;
    hide Inv, GiveUp, Wanted, PlaceAll, LandsIn, Remaining, Named;
    PlacedIs(freed, entries, |entries|, point, place);
  }

  // ---- plain declarations ----

  ghost predicate DistinctPoints(entries: seq<Entry>) {
    Named(entries) && forall i, j | 0 <= i < j < |entries| :: entries[i].point != entries[j].point
  }

  ghost predicate Disjoint(entries: seq<Entry>) {
    forall i, j, pl | 0 <= i < j < |entries| && Wants(entries[i], pl) :: !Wants(entries[j], pl)
  }

  /** Distinct points declaring disjoint places, none of them a literal. */
  ghost predicate Orderly(entries: seq<Entry>) {
    DistinctPoints(entries) && Disjoint(entries) && forall e | e in entries :: e.key != LITERAL_KEY
  }

  /**
   * Entry `i` can have its key of `fragment`: it is free or held by a declared point, and the set is
   * not a literal -- except one held by a point declared no later, which has moved by then.
   */
  predicate Free(l: Ledger, entries: seq<Entry>, i: nat, fragment: SetName)
    requires i < |entries|
  {
    var place, literal := Place(fragment, entries[i].key), Place(fragment, LITERAL_KEY);
    && (place in l.owner ==> Among(entries, l.owner[place]))
    && (literal in l.owner ==> Among(entries[..i + 1], l.owner[literal]))
  }

  /** The place a plain entry declares is its own in the map of wanted places. */
  lemma WantedByItsPoint(entries: seq<Entry>, i: nat, place: Place)
    requires Orderly(entries) && i < |entries| && Wants(entries[i], place)
    ensures place in Wanted(entries, map[]) && Wanted(entries, map[])[place] == entries[i].point
  {
    WantedIs(entries, map[], place);
    assert entries[i] in entries;
    var k :| 0 <= k < |entries| && Wants(entries[k], place) && Wanted(entries, map[])[place] == entries[k].point
             && forall j | k < j < |entries| :: !Wants(entries[j], place);
    if k < i { assert false; } else if i < k { assert false; }
  }

  lemma RemainingPlain(l: Ledger, entries: seq<Entry>, i: nat, place: Place)
    requires Orderly(entries) && i < |entries| && Wants(entries[i], place)
    ensures var r, literal := Remaining(l, entries), Place(place.fragment, LITERAL_KEY);
            && (place in r <==>
                  place in l.owner && (l.owner[place] == entries[i].point || !Among(entries, l.owner[place])))
            && (literal in r <==> literal in l.owner)
  {
    hide Wanted;
    WantedByItsPoint(entries, i, place);
    WantedIs(entries, map[], Place(place.fragment, LITERAL_KEY));
  }

  /** For plain declarations landing is being free. */
  lemma PlainLands(l: Ledger, entries: seq<Entry>, i: nat, fragment: SetName)
    requires Orderly(entries) && i < |entries| && fragment in entries[i].sets
    ensures Lands(l, entries, i, fragment) <==> Free(l, entries, i, fragment)
  {
    var e, place, literal := entries[i], Place(fragment, entries[i].key), Place(fragment, LITERAL_KEY);
    var r := Remaining(l, entries);
    RemainingPlain(l, entries, i, place);
    AmongStep(entries, i, if place in l.owner then l.owner[place] else "");
    AmongStep(entries, i, if literal in l.owner then l.owner[literal] else "");
    forall j | 0 <= j < i && Rival(entries[j].key, e.key)
      ensures !LandsIn(r, entries, j, fragment)
    {
      assert entries[j] in entries && entries[i] in entries && entries[j].key == e.key;
      assert !Wants(entries[j], place);
    }
    assert entries[i] in entries && Among(entries, e.point);
    forall q | Among(entries[..i], q)
      ensures Among(entries, q)
    {
      var x :| x in entries[..i] && x.point == q;
    }
    assert forall x: Place | x.fragment == fragment && Rival(x.key, e.key) :: x == place || x == literal;
    hide Remaining;
    assert Lands(l, entries, i, fragment) <==>
           forall x | (x == place || x == literal) && x in r && r[x] != e.point :: Among(entries[..i], r[x]);
  }

  /**
   * Swapped, rotated or otherwise exchanged: when every declared place is free, each declared
   * point ends up holding exactly its declared places.
   */
  lemma DeclarationsTakeEffect(st: Store, entries: seq<Entry>, i: nat, place: Place)
    requires Inv(st.ledger) && Orderly(entries) && i < |entries|
    requires forall s | s in entries[i].sets :: Free(st.ledger, entries, i, s)
    ensures Owns(ApplyEntries(st, entries).ledger, entries[i].point, place) <==> Wants(entries[i], place)
  {
    assert LastOf(entries, |entries|, i);
    hide Inv, ApplyEntries, Free, Lands;
    DeclarationLands(st, entries, entries[i].point, place);
    if place.fragment in entries[i].sets {
      PlainLands(st.ledger, entries, i, place.fragment);
    }
  }

  // ---- which values an application loses ----

  /** Some entry of the owner does not declare the place, or one of another point after all of the owner's does. */
  ghost predicate Loses(l: Ledger, entries: seq<Entry>, place: Place) {
    && place in l.owner && Among(entries, l.owner[place])
    && (OwnerLeaves(entries, l.owner[place], place) || TakenAfter(entries, l.owner[place], place))
  }

  ghost predicate OwnerLeaves(entries: seq<Entry>, point: Point, place: Place) {
    exists e | e in entries :: e.point == point && !Wants(e, place)
  }

  ghost predicate TakenAfter(entries: seq<Entry>, point: Point, place: Place) {
    exists j | 0 <= j < |entries| ::
      Wants(entries[j], place) && forall i | j <= i < |entries| :: entries[i].point != point
  }

  lemma SettleValues(l: Ledger, point: Point, sets: seq<SetName>, key: Key, place: Place)
    requires Inv(l) && point != ""
    ensures var after := Settle(l, point, sets, key);
            && (place in after.values <==>
                place in l.values && !(Owns(l, point, place) && !(place.key == key && place.fragment in sets)))
            && (place in after.values ==>
                place in l.owner && place in after.owner && after.owner[place] == l.owner[place])
  {
    MoveKeeps(l, point, sets, key);
    MoveOwner(l, point, sets, key, place);
    var m := Move(l, point, sets, key);
    ClaimAllKeeps(m, sets, key, point);
    SettleFrame(l, point, sets, key, place);
    assert place in l.values ==> place in l.owner;
    hide Inv, Move, ClaimAll;
  }

  lemma {:induction false} PlaceAllValues(st: Store, entries: seq<Entry>, place: Place)
    requires Inv(st.ledger) && Named(entries)
    ensures place in PlaceAll(st, entries).ledger.values <==>
            place in st.ledger.values
                && !(place in st.ledger.owner && OwnerLeaves(entries, st.ledger.owner[place], place))
    decreases |entries|
  {
    if entries != [] {
      hide Inv, Settle, Tracked;
      var e, rest := entries[0], entries[1..];
      assert e in entries && forall x :: x in entries <==> x == e || x in rest;
      SettleValues(st.ledger, e.point, e.sets, e.key, place);
      SettleKeeps(st.ledger, e.point, e.sets, e.key);
      PlaceAllValues(PlacePoint(st, e.point, InSets(e.sets), e.key), rest, place);
    }
  }

  /** The owner of a place all its entries declare yields it when another point's entry comes after them. */
  lemma YieldsIs(l: Ledger, entries: seq<Entry>, place: Place)
    requires place in l.owner && Among(entries, l.owner[place]) && !OwnerLeaves(entries, l.owner[place], place)
    ensures Yields(l, entries, Wanted(entries, map[]), place) <==> TakenAfter(entries, l.owner[place], place)
  {
    hide Wanted, Wants;
    var point := l.owner[place];
    assert WantedByAny(entries, place) && forall e | e in entries && e.point == point :: Wants(e, place);
    hide OwnerLeaves, WantedByAny, Among;
    var k := LastWanting(entries, place);
    TakenAfterIs(entries, point, place, k);
  }

  lemma LastWanting(entries: seq<Entry>, place: Place) returns (k: nat)
    requires WantedByAny(entries, place)
    ensures k < |entries| && place in Wanted(entries, map[]) && Wanted(entries, map[])[place] == entries[k].point
    ensures Wants(entries[k], place) && forall j | k < j < |entries| :: !Wants(entries[j], place)
  {
    hide Wanted, Wants, WantedByAny;
    WantedIs(entries, map[], place);
    k :| 0 <= k < |entries| && Wants(entries[k], place) && Wanted(entries, map[])[place] == entries[k].point
         && forall j | k < j < |entries| :: !Wants(entries[j], place);
  }

  lemma TakenAfterIs(entries: seq<Entry>, point: Point, place: Place, k: nat)
    requires k < |entries| && Wants(entries[k], place) && forall j | k < j < |entries| :: !Wants(entries[j], place)
    requires forall e | e in entries && e.point == point :: Wants(e, place)
    ensures TakenAfter(entries, point, place) <==> entries[k].point != point
  {
    hide Wants;
    assert forall i | k < i < |entries| :: entries[i] in entries && entries[i].point != point;
  }

  /** Applying declarations, whatever they are, loses exactly these values. */
  lemma ApplyLosesExactly(st: Store, entries: seq<Entry>, place: Place)
    requires Inv(st.ledger) && Named(entries)
    ensures place in ApplyEntries(st, entries).ledger.values <==>
            place in st.ledger.values && !Loses(st.ledger, entries, place)
  {
    var l, wanted := st.ledger, Wanted(entries, map[]);
    var freed := st.(ledger := GiveUp(l, entries, wanted));
    GiveUpKeeps(l, entries, wanted);
    GiveUpIs(l, entries, wanted, place);
    assert place in l.values ==> place in l.owner;
    hide Inv, Tracked, GiveUp, Wanted, PlaceAll, TakenAfter;
    PlaceAllValues(freed, entries, place);
    if place in l.owner {
      LeavesIsAmong(entries, l.owner[place], place);
      if Among(entries, l.owner[place]) && !OwnerLeaves(entries, l.owner[place], place) {
        YieldsIs(l, entries, place);
      }
    }
  }

  lemma LeavesIsAmong(entries: seq<Entry>, point: Point, place: Place)
    ensures OwnerLeaves(entries, point, place) ==> Among(entries, point)
  {
  }

  lemma AppliedInv(st: Store, entries: seq<Entry>)
    requires Inv(st.ledger) && Named(entries)
    ensures Inv(ApplyEntries(st, entries).ledger)
  {
    hide Inv, Wanted;
    GiveUpKeeps(st.ledger, entries, Wanted(entries, map[]));
    PlaceAllKeeps(st.(ledger := GiveUp(st.ledger, entries, Wanted(entries, map[]))), entries);
  }

  /** A value that got through an application gets through the next, whatever is declared. */
  lemma SurvivorsStay(st: Store, entries: seq<Entry>, place: Place)
    requires Inv(st.ledger) && Named(entries) && place in ApplyEntries(st, entries).ledger.values
    ensures place in ApplyEntries(ApplyEntries(st, entries), entries).ledger.values
  {
    hide Inv, ApplyEntries, OwnerLeaves, TakenAfter, Shrunk, Among;
    var once := ApplyEntries(st, entries);
    AppliedInv(st, entries);
    ApplyEntriesShrinks(st, entries);
    ValuedPlace(st.ledger, once.ledger, place);
    ApplyLosesExactly(st, entries, place);
    ApplyLosesExactly(once, entries, place);
  }

  lemma ValuedPlace(a: Ledger, b: Ledger, place: Place)
    requires Inv(a) && Shrunk(a, b) && place in b.values
    ensures place in a.owner && place in b.owner && b.owner[place] == a.owner[place]
  {
  }

  // ---- applying unchanged declarations again ----

  /** A store between two applications: who holds what is as the first one left it, the values may have changed. */
  ghost predicate Between(st: Store, now: Store, entries: seq<Entry>) {
    Inv(now.ledger) && now.ledger.owner == ApplyEntries(st, entries).ledger.owner
  }

  /** Another entry of its point does not declare the place, or an entry after entry `i` does. */
  ghost predicate Contested(entries: seq<Entry>, i: nat, place: Place)
    requires i < |entries|
  {
    OwnerLeaves(entries, entries[i].point, place) || exists j | i < j < |entries| :: Wants(entries[j], place)
  }

  /**
   * Of the values present between two applications of the same declarations, the second loses those
   * of a declared owner whose place is contested, and no other.
   */
  lemma ReapplyLosesExactly(st: Store, now: Store, entries: seq<Entry>, place: Place)
    requires Inv(st.ledger) && Named(entries) && Between(st, now, entries) && place in now.ledger.values
    ensures place in now.ledger.owner
    ensures !Among(entries, now.ledger.owner[place]) ==> place in ApplyEntries(now, entries).ledger.values
    ensures forall i: nat | LastOf(entries, |entries|, i) && entries[i].point == now.ledger.owner[place] ::
              && Wants(entries[i], place)
              && (place !in ApplyEntries(now, entries).ledger.values <==> Contested(entries, i, place))
  {
    assert place in now.ledger.owner;
    hide Inv, ApplyEntries, Lands, OwnerLeaves;
    var point := now.ledger.owner[place];
    ApplyLosesExactly(now, entries, place);
    DeclarationLands(st, entries, point, place);
    forall i: nat | LastOf(entries, |entries|, i) && entries[i].point == point
      ensures Loses(now.ledger, entries, place) <==> Contested(entries, i, place)
    {
      assert entries[i] in entries;
      TakenAfterLast(entries, i, place);
    }
  }

  lemma TakenAfterLast(entries: seq<Entry>, i: nat, place: Place)
    requires LastOf(entries, |entries|, i)
    ensures TakenAfter(entries, entries[i].point, place) <==> exists j | i < j < |entries| :: Wants(entries[j], place)
  {
    hide Wants;
    if TakenAfter(entries, entries[i].point, place) {
      var j :| 0 <= j < |entries| && Wants(entries[j], place)
          && forall k | j <= k < |entries| :: entries[k].point != entries[i].point;
      assert i < j;
    }
  }

  /** With distinct points and disjoint declarations nothing is contested, so applying them again drops no value. */
  lemma ReapplyDropsNothing(st: Store, now: Store, entries: seq<Entry>, place: Place)
    requires Inv(st.ledger) && DistinctPoints(entries) && Disjoint(entries)
    requires Between(st, now, entries) && place in now.ledger.values
    ensures place in ApplyEntries(now, entries).ledger.values
  {
    hide Inv, ApplyEntries, Between;
    ReapplyLosesExactly(st, now, entries, place);
    var point := now.ledger.owner[place];
    if Among(entries, point) {
      assert entries[..|entries|] == entries;
      var i := HasLast(entries, |entries|, point);
      assert !Contested(entries, i, place);
    }
  }

  /** Two points that share a place: its owner gets it back without its value. */
  lemma SharedPlaceDrops(st: Store, a: Entry, b: Entry, place: Place)
    requires Inv(st.ledger) && Named([a, b]) && a.point != b.point && Wants(a, place) && Wants(b, place)
    requires place in st.ledger.values && Owns(st.ledger, a.point, place)
    ensures Owns(ApplyEntries(st, [a, b]).ledger, a.point, place)
    ensures place !in ApplyEntries(st, [a, b]).ledger.values
  {
    var entries, l := [a, b], st.ledger;
    assert entries[0] == a && entries[1] == b && a in entries;
    assert LastOf(entries, 2, 0);
    assert Loses(l, entries, place) by {
      assert Among(entries, a.point);
      assert Wants(entries[1], place) && forall i | 1 <= i < |entries| :: entries[i].point != a.point;
    }
    ClaimableIs(l, place, a.point);
    assert OwnerOf(l, place) == Some(a.point);
    assert !Rivalled(l.owner, place, a.point);
    hide Inv, ApplyEntries, Loses, Yields, Wanted;
    ApplyLosesExactly(st, entries, place);
    DeclarationLands(st, entries, a.point, place);
  }

  /**
   * Two points that share a key: applying the declarations again takes the value that arrived since
   * from the owner, which keeps the key. Unchanged declarations are documented to be safe to apply again.
   */
  lemma SharedKeyLosesItsValue(st: Store, now: Store, a: Entry, b: Entry, place: Place)
    requires Inv(st.ledger) && Named([a, b]) && a.point != b.point && Wants(a, place) && Wants(b, place)
    requires Between(st, now, [a, b]) && place in now.ledger.values && Owns(now.ledger, a.point, place)
    ensures Owns(ApplyEntries(now, [a, b]).ledger, a.point, place)
    ensures place !in ApplyEntries(now, [a, b]).ledger.values
  {
    hide Inv, ApplyEntries;
    SharedPlaceDrops(now, a, b, place);
  }

  /**
   * A point declared under two keys: applying again takes it through the first, and a value that arrived since is
   * gone.
   */
  lemma RepeatedPointLosesItsValue(st: Store, now: Store, a: Entry, b: Entry, place: Place)
    requires Inv(st.ledger) && Named([a, b]) && a.point == b.point && a.key != b.key
    requires Between(st, now, [a, b]) && place in now.ledger.values && Owns(now.ledger, a.point, place)
    ensures place !in ApplyEntries(now, [a, b]).ledger.values
  {
    var entries := [a, b];
    assert entries[0] == a && entries[1] == b && a in entries;
    assert LastOf(entries, 2, 1);
    hide Inv, ApplyEntries, Between;
    ReapplyLosesExactly(st, now, entries, place);
    assert Wants(b, place) && !Wants(a, place);
    assert OwnerLeaves(entries, a.point, place);
  }
}
