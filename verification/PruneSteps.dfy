/** The steps of pruning removed points: what holds between the two loops of PruneRemoved. */
module PruneSteps {
  import opened Common
  import opened Naming
  import opened ParameterStore
  import opened ParameterInvariants

  /** `b` is `a` without the places `dropped`. */
  ghost predicate Cut(a: Ledger, b: Ledger, dropped: set<Place>) {
    && b.owner == a.owner - dropped
    && b.values == a.values - dropped
    && b.changed == a.changed + (set pl | pl in dropped && pl in a.values :: pl.fragment)
    && (forall p, pl {:trigger pl in ClaimsOf(b, p)} {:trigger pl in ClaimsOf(a, p)} ::
          pl in ClaimsOf(b, p) <==> pl in ClaimsOf(a, p) && pl !in dropped)
    && b.claimants == a.claimants && b.knownSets == a.knownSets
  }

  /** Between the loops owners and claims are still inverses, and every value is owned. */
  lemma CutInverse(a: Ledger, b: Ledger, dropped: set<Place>)
    requires Inv(a) && Cut(a, b, dropped)
    ensures Inverse(b) && ValuesOwned(b)
  {
    hide OneKey, OneShape, Listed;
    forall pl | pl in b.owner
      ensures b.owner[pl] != "" && pl in ClaimsOf(b, b.owner[pl])
    {
      assert pl in ClaimsOf(a, a.owner[pl]);
    }
  }

  lemma CutMore(a: Ledger, b: Ledger, c: Ledger, dropped: set<Place>, point: Point, places: seq<Place>, all: set<Place>)
    requires Inv(a) && Cut(a, b, dropped) && Dropped(b, c, point, places)
    requires (forall pl | pl in places :: pl in ClaimsOf(b, point)) && all == dropped + set pl | pl in places
    ensures Cut(a, c, all)
  {
    hide Inv;
    var more := set pl | pl in places;
    CutClaims(a, b, c, dropped, point, places);
    assert (set pl | pl in dropped + more && pl in a.values :: pl.fragment)
        == (set pl | pl in dropped && pl in a.values :: pl.fragment)
            + (set pl | pl in places && pl in b.values :: pl.fragment);
  }

  lemma CutClaims(a: Ledger, b: Ledger, c: Ledger, dropped: set<Place>, point: Point, places: seq<Place>)
    requires Inv(a) && Cut(a, b, dropped) && Dropped(b, c, point, places)
    requires forall pl | pl in places :: pl in ClaimsOf(b, point)
    ensures forall p, pl {:trigger pl in ClaimsOf(c, p)} {:trigger pl in ClaimsOf(a, p)} ::
              pl in ClaimsOf(c, p) <==> pl in ClaimsOf(a, p) && pl !in dropped && pl !in places
  {
    hide Inv, Without;
    forall p, pl
      ensures pl in ClaimsOf(c, p) <==> pl in ClaimsOf(a, p) && pl !in dropped && pl !in places
    {
      assert pl in ClaimsOf(b, p) <==> pl in ClaimsOf(a, p) && pl !in dropped;
      if p != point && pl in places {
        assert pl in ClaimsOf(a, point);
        HeldByOne(a, point, p, pl);
      }
    }
  }

  lemma HeldByOne(l: Ledger, p: Point, q: Point, place: Place)
    requires Inv(l) && p != q && place in ClaimsOf(l, p)
    ensures place !in ClaimsOf(l, q)
  {
  }

  /**
   * From `o` the places `dropped` and the points `forgotten` are gone, all of unlisted points, and
   * the unlisted claimants `gone` have lost their claim lists and everything they held.
   */
  ghost predicate Pruning(o: Store, s: Store, configured: seq<Point>, dropped: set<Place>, forgotten: set<Point>,
      gone: set<Point>) {
    && Cut(o.ledger, s.ledger, dropped)
    && (forall pl | pl in dropped :: pl in o.ledger.owner && o.ledger.owner[pl] !in configured)
    && (forall p | p in forgotten :: p in o.ledger.claimants && p !in configured)
    && gone <= forgotten
    && (forall pl | pl in o.ledger.owner && o.ledger.owner[pl] in gone :: pl in dropped)
    && (forall p :: p in s.ledger.claims <==> p in o.ledger.claims && p !in gone)
    && (forall p | p in configured :: ClaimsOf(s.ledger, p) == ClaimsOf(o.ledger, p))
    && s == o.(ledger := s.ledger, placement := o.placement - forgotten)
    && s.ledger.keys == o.ledger.keys - forgotten
  }

  lemma PruningStart(o: Store, configured: seq<Point>)
    ensures Pruning(o, o, configured, {}, {}, {})
  {
    assert o.ledger.keys - {} == o.ledger.keys && o.placement - {} == o.placement;
  }

  lemma PruningOwner(o: Store, s: Store, configured: seq<Point>, dropped: set<Place>, forgotten: set<Point>,
      gone: set<Point>, place: Place)
    requires Inv(o.ledger) && Pruning(o, s, configured, dropped, forgotten, gone) && place in o.ledger.values
             && place !in dropped
    ensures OwnerOf(s.ledger, place) == Some(o.ledger.owner[place])
    ensures o.ledger.owner[place] in o.ledger.claimants
  {
    hide OneKey, OneShape;
  }

  /** Dropping places of an unlisted claimant, and forgetting it. */
  lemma PruneStep(o: Store, s: Store, l: Ledger, configured: seq<Point>, dropped: set<Place>, forgotten: set<Point>,
      gone: set<Point>, point: Point, places: seq<Place>)
    requires Inv(o.ledger) && Pruning(o, s, configured, dropped, forgotten, gone)
    requires point in o.ledger.claimants && point !in configured
    requires (forall pl | pl in places :: pl in ClaimsOf(s.ledger, point)) && Dropped(s.ledger, l, point, places)
    requires l.claims.Keys == s.ledger.claims.Keys
    ensures Pruning(o, Forget(s.(ledger := l), point), configured, dropped + (set pl | pl in places), forgotten
        + {point}, gone)
  {
    hide Inv, Cut, Dropped, ClaimsOf;
    var after, droppedNow := Forget(s.(ledger := l), point), dropped + set pl | pl in places;
    CutMore(o.ledger, s.ledger, l, dropped, point, places, droppedNow);
    CutRekeyed(o.ledger, l, after.ledger, droppedNow);
    DroppedContext(s.ledger, l, point, places);
    forall pl | pl in places
      ensures pl in o.ledger.owner && o.ledger.owner[pl] == point
    {
      CutHeld(o.ledger, s.ledger, dropped, point, pl);
    }
    assert after.ledger.claims == l.claims && after.ledger.keys == o.ledger.keys - (forgotten + {point});
    SameClaims(l, after.ledger);
  }

  lemma SameClaims(a: Ledger, b: Ledger)
    requires a.claims == b.claims
    ensures forall p :: ClaimsOf(a, p) == ClaimsOf(b, p)
  {
  }

  lemma CutRekeyed(a: Ledger, b: Ledger, c: Ledger, dropped: set<Place>)
    requires Cut(a, b, dropped) && c == b.(keys := c.keys)
    ensures Cut(a, c, dropped)
  {
    SameClaims(b, c);
    hide ClaimsOf;
  }

  lemma DroppedContext(a: Ledger, b: Ledger, point: Point, places: seq<Place>)
    requires Dropped(a, b, point, places)
    ensures b.keys == a.keys && forall p | p != point :: ClaimsOf(b, p) == ClaimsOf(a, p)
  {
  }

  lemma CutHeld(a: Ledger, b: Ledger, dropped: set<Place>, point: Point, place: Place)
    requires Inv(a) && Cut(a, b, dropped) && place in ClaimsOf(b, point)
    ensures place in a.owner && a.owner[place] == point
  {
    assert place in ClaimsOf(a, point);
    HeldIsOwned(a, point, place);
  }

  lemma HeldIsOwned(l: Ledger, point: Point, place: Place)
    requires Inv(l) && place in ClaimsOf(l, point)
    ensures place in l.owner && l.owner[place] == point
  {
  }

  lemma CutSameClaims(a: Ledger, b: Ledger, c: Ledger, dropped: set<Place>)
    requires Cut(a, b, dropped) && c == b.(keys := c.keys, claims := c.claims)
    requires forall p, pl {:trigger pl in ClaimsOf(c, p)} {:trigger pl in ClaimsOf(b, p)} ::
               pl in ClaimsOf(c, p) <==> pl in ClaimsOf(b, p)
    ensures Cut(a, c, dropped)
  {
  }

  lemma PruneValueStep(o: Store, s: Store, configured: seq<Point>, dropped: set<Place>, forgotten: set<Point>,
      point: Point, place: Place)
    requires Inv(o.ledger) && Pruning(o, s, configured, dropped, forgotten, {})
    requires place in o.ledger.values && place !in dropped && point == o.ledger.owner[place] && point !in configured
    ensures Pruning(o, Forget(s.(ledger := DropValue(s.ledger, point, place)), point), configured,
                    dropped + {place}, forgotten + {point}, {})
  {
    hide Inv;
    PruningOwner(o, s, configured, dropped, forgotten, {}, place);
    CutInverse(o.ledger, s.ledger, dropped);
    DropOne(s.ledger, point, place);
    hide Cut, Dropped, Pruning;
    assert (set pl | pl in [place]) == {place};
    PruneStep(o, s, DropValue(s.ledger, point, place), configured, dropped, forgotten, {}, point, [place]);
  }

  lemma PruneClaimantStep(o: Store, s: Store, configured: seq<Point>, dropped: set<Place>, forgotten: set<Point>,
      gone: set<Point>, point: Point)
    returns (droppedNow: set<Place>, forgottenNow: set<Point>)
    requires Inv(o.ledger) && Pruning(o, s, configured, dropped, forgotten, gone)
    requires point in o.ledger.claimants && point !in configured
    ensures var l := DropAll(s.ledger, point, ClaimsOf(s.ledger, point));
            Pruning(o, Forget(s.(ledger := l.(claims := l.claims - {point})), point), configured, droppedNow,
                forgottenNow, gone + {point})
  {
    hide Inv, DropAll, Dropped;
    var held := ClaimsOf(s.ledger, point);
    var l := DropAll(s.ledger, point, held);
    CutInverse(o.ledger, s.ledger, dropped);
    DropAllIs(s.ledger, point, held);
    DropAllKeys(s.ledger, point, held);
    droppedNow, forgottenNow := dropped + (set pl | pl in held), forgotten + {point};
    PruneStep(o, s, l, configured, dropped, forgotten, gone, point, held);
    StrikeList(o, Forget(s.(ledger := l), point), configured, droppedNow, forgottenNow, gone, point);
  }

  /** A forgotten point that holds nothing any more loses its empty claim list. */
  lemma StrikeList(o: Store, s: Store, configured: seq<Point>, dropped: set<Place>, forgotten: set<Point>,
      gone: set<Point>, point: Point)
    requires Inv(o.ledger) && Pruning(o, s, configured, dropped, forgotten, gone) && point in forgotten
    requires forall pl | pl in ClaimsOf(o.ledger, point) :: pl in dropped
    ensures Pruning(o, s.(ledger := s.ledger.(claims := s.ledger.claims - {point})), configured, dropped, forgotten,
        gone + {point})
  {
    var after := s.(ledger := s.ledger.(claims := s.ledger.claims - {point}));
    forall pl | pl in o.ledger.owner && o.ledger.owner[pl] == point
      ensures pl in dropped
    {
      assert pl in ClaimsOf(o.ledger, point);
    }
    hide Inv;
    CutSameClaims(o.ledger, s.ledger, after.ledger, dropped);
  }

  lemma {:induction false} DropAllKeys(l: Ledger, point: Point, places: seq<Place>)
    ensures DropAll(l, point, places).claims.Keys == l.claims.Keys
    decreases |places|
  {
    if places != [] {
      DropAllKeys(DropValue(l, point, places[0]), point, places[1..]);
    }
  }

  /** Once every unlisted claimant is gone, what is left is the pruned store. */
  lemma PruneDone(o: Store, s: Store, configured: seq<Point>, dropped: set<Place>, forgotten: set<Point>,
      gone: set<Point>)
    requires Inv(o.ledger) && Pruning(o, s, configured, dropped, forgotten, gone)
    requires gone == GoneOf(o.ledger.claimants, configured)
    ensures s.(ledger := s.ledger.(claimants := Kept(o.ledger.claimants, configured))) == Prune(o, configured)
  {
    hide Inv, GoneOf;
    var a, b := o.ledger, s.ledger;
    DroppedAreGone(o, s, configured, dropped, forgotten, gone);
    PrunedClaims(o, s, configured, dropped, forgotten, gone);
    PrunedLedger(a, b, dropped, gone);
    assert b.claimants == a.claimants && b.knownSets == a.knownSets && b.keys == a.keys - gone;
    hide Pruning, Cut;
    assert gone == (set p | p in a.claimants && p !in configured) by { GoneIs(a.claimants, configured); }
  }

  lemma GoneIs(claimants: seq<Point>, configured: seq<Point>)
    ensures GoneOf(claimants, configured) == set p | p in claimants && p !in configured
  {
  }

  lemma DroppedAreGone(o: Store, s: Store, configured: seq<Point>, dropped: set<Place>, forgotten: set<Point>,
      gone: set<Point>)
    requires Inv(o.ledger) && Pruning(o, s, configured, dropped, forgotten, gone)
             && gone == GoneOf(o.ledger.claimants, configured)
    ensures forgotten == gone && forall pl | pl in o.ledger.owner :: pl in dropped <==> o.ledger.owner[pl] in gone
  {
    hide Cut, Inverse, OneKey, OneShape, ValuesOwned, ClaimsOf;
    forall pl | pl in o.ledger.owner
      ensures pl in dropped <==> o.ledger.owner[pl] in gone
    {
      assert o.ledger.owner[pl] in o.ledger.claimants;
    }
  }

  lemma PrunedClaims(o: Store, s: Store, configured: seq<Point>, dropped: set<Place>, forgotten: set<Point>,
      gone: set<Point>)
    requires Inv(o.ledger) && Pruning(o, s, configured, dropped, forgotten, gone)
             && gone == GoneOf(o.ledger.claimants, configured)
    ensures s.ledger.claims == o.ledger.claims - gone
  {
    hide Inv;
    var a, b := o.ledger, s.ledger;
    forall p | p in b.claims
      ensures b.claims[p] == a.claims[p]
    {
      if p in configured {
        assert ClaimsOf(b, p) == ClaimsOf(a, p);
      } else {
        if ClaimsOf(a, p) != [] { HolderIsClaimant(a, p); }
        NoClaims(b, p, a);
      }
    }
  }

  lemma PrunedLedger(a: Ledger, b: Ledger, dropped: set<Place>, gone: set<Point>)
    requires Inv(a) && Cut(a, b, dropped) && forall pl | pl in a.owner :: pl in dropped <==> a.owner[pl] in gone
    requires forall pl | pl in dropped :: pl in a.owner
    ensures var after := Strike(a, gone, a.claimants);
            b.owner == after.owner && b.values == after.values && b.changed == after.changed
  {
    hide Inv;
    var after := Strike(a, gone, a.claimants);
    assert (set pl | pl in dropped && pl in a.values :: pl.fragment)
        == (set pl | pl in a.values && pl in a.owner && a.owner[pl] in gone :: pl.fragment);
  }

  lemma NoClaims(b: Ledger, point: Point, a: Ledger)
    requires ClaimsOf(a, point) == [] && forall pl :: pl in ClaimsOf(b, point) ==> pl in ClaimsOf(a, point)
    ensures ClaimsOf(b, point) == []
  {
    var held := ClaimsOf(b, point);
    assert |held| > 0 ==> var place := held[0]; place in held;
  }

  lemma HolderIsClaimant(l: Ledger, point: Point)
    requires Inv(l) && ClaimsOf(l, point) != []
    ensures point in l.claimants
  {
    var place := ClaimsOf(l, point)[0];
    assert place in ClaimsOf(l, point);
  }

  lemma PruningClaimants(o: Store, s: Store, configured: seq<Point>, dropped: set<Place>, forgotten: set<Point>,
      gone: set<Point>)
    requires Pruning(o, s, configured, dropped, forgotten, gone)
    ensures s.ledger.claimants == o.ledger.claimants
  {
  }

  lemma ValuesAreKnown(l: Ledger)
    requires Inv(l)
    ensures forall pl | pl in l.values :: pl.fragment in l.knownSets
  {
  }

  lemma LeaveStep(l: Ledger, point: Point, held: seq<Place>, i: nat, sets: seq<SetName>, key: Key)
    requires i < |held|
    ensures DropAll(l, point, Leaving(held[i..], sets, key))
         == DropAll(if held[i].key == key && held[i].fragment in sets then l else DropValue(l, point, held[i]),
                    point, Leaving(held[i + 1..], sets, key))
  {
    hide DropValue;
    assert held[i..][1..] == held[i + 1..];
    var rest := Leaving(held[i + 1..], sets, key);
    assert ([held[i]] + rest)[1..] == rest && [] + rest == rest;
  }

  lemma YieldStep(l: Ledger, point: Point, held: seq<Place>, i: nat, wanted: map<Place, Point>)
    requires i < |held|
    ensures DropAll(l, point, Yielded(held[i..], point, wanted))
         == DropAll(if held[i] in wanted && wanted[held[i]] != point then DropValue(l, point, held[i]) else l,
                    point, Yielded(held[i + 1..], point, wanted))
  {
    hide DropValue;
    assert held[i..][1..] == held[i + 1..];
    var rest := Yielded(held[i + 1..], point, wanted);
    assert ([held[i]] + rest)[1..] == rest && [] + rest == rest;
  }

  /** Nothing held, nothing dropped. */
  lemma DropNone(l: Ledger, point: Point, sets: seq<SetName>, key: Key, wanted: map<Place, Point>)
    ensures DropAll(l, point, Leaving([], sets, key)) == l && DropAll(l, point, Yielded([], point, wanted)) == l
  {
  }

  lemma KeptStep(claimants: seq<Point>, i: nat, configured: seq<Point>, kept: seq<Point>)
    requires i < |claimants| && kept + Kept(claimants[i..], configured) == Kept(claimants, configured)
    ensures (if claimants[i] in configured then kept + [claimants[i]] else kept) + Kept(claimants[i + 1..], configured)
         == Kept(claimants, configured)
  {
    hide Kept;
    KeptHead(claimants, i, configured);
    var rest := Kept(claimants[i + 1..], configured);
    if claimants[i] in configured {
      assert (kept + [claimants[i]]) + rest == kept + ([claimants[i]] + rest);
    }
  }

  lemma KeptHead(claimants: seq<Point>, i: nat, configured: seq<Point>)
    requires i < |claimants|
    ensures var rest := Kept(claimants[i + 1..], configured);
            Kept(claimants[i..], configured) == if claimants[i] in configured then [claimants[i]] + rest else rest
  {
    assert claimants[i..][1..] == claimants[i + 1..];
  }

  /** The claimants among these that are gone. */
  ghost function GoneOf(claimants: seq<Point>, configured: seq<Point>): set<Point> {
    set p | p in claimants && p !in configured
  }

  lemma ClaimantsBegin(claimants: seq<Point>, configured: seq<Point>)
    ensures [] + Kept(claimants[0..], configured) == Kept(claimants, configured)
            && GoneOf(claimants[..0], configured) == {}
  {
    assert claimants[0..] == claimants;
  }

  lemma ClaimantsEnd(claimants: seq<Point>, configured: seq<Point>, kept: seq<Point>)
    requires kept + Kept(claimants[|claimants|..], configured) == Kept(claimants, configured)
    ensures kept == Kept(claimants, configured) && claimants[..|claimants|] == claimants
  {
    assert claimants[|claimants|..] == [];
    KeptNone(configured);
  }

  lemma GoneStep(claimants: seq<Point>, i: nat, configured: seq<Point>)
    requires i < |claimants|
    ensures GoneOf(claimants[..i + 1], configured)
         == if claimants[i] in configured then GoneOf(claimants[..i], configured)
             else GoneOf(claimants[..i], configured) + {claimants[i]}
  {
    assert claimants[..i + 1] == claimants[..i] + [claimants[i]];
  }

  lemma KeptNone(configured: seq<Point>)
    ensures Kept([], configured) == []
  {
  }

  lemma ListedNone(st: Store)
    ensures ListedBy(st, []) == Some([])
  {
  }

  lemma ListedStep(st: Store, protocols: seq<Protocol>, i: nat, all: seq<Point>)
    requires i < |protocols|
    ensures var rest, next := ListedBy(st, protocols[i..]), ListedBy(st, protocols[i + 1..]);
            if protocols[i] !in st.listed then rest.None?
            else if next.None? then rest.None?
            else rest.Some? && all + rest.value == (all + st.listed[protocols[i]]) + next.value
  {
    assert protocols[i..][1..] == protocols[i + 1..];
  }
}
