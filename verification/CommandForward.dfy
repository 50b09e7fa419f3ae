/**
 * ot-command-forward's parameter_update: an edit of a twin fragment turned back into point
 * writes, read from the store ot-parameter-state keeps.
 */
module CommandForward {
  import opened Common
  import opened Naming
  import opened ParameterStore
  import opened ParameterInvariants
  import opened ParameterTwin
  import opened ParameterDeclarations
  import opened ParameterAgreement

  /** What a request carries for a fragment: an object by its fields in order, or any other JSON value. */
  datatype Content = Fields(entries: seq<(Key, Value)>) | Of(value: Value)

  /** The two request shapes: a Cumulocity operation by its fields in order, or the direct one. */
  datatype Payload =
    | Operation(fields: seq<(string, Content)>)
    | Direct(fragment: Option<SetName>, parameters: Option<seq<(Key, Value)>>, value: Option<Value>)

  datatype Request =
    | ForValue(fragment: SetName, value: Value)
    | ForKeys(fragment: SetName, entries: seq<(Key, Value)>)
    | BadRequest

  datatype Planned = Writes(writes: seq<(Point, Value)>) | Refused

  const MARKER := "c8y_ParameterUpdate_"

  /** Values that are not objects or lists can be written as a literal. */
  predicate IsScalar(v: Value) {
    v.Number? || v.Text? || v.Flag?
  }

  /** The set the first marker field names. */
  function MarkedSet(fields: seq<(string, Content)>): (r: Option<SetName>)
    ensures r.None? <==> forall f | f in fields :: !(MARKER <= f.0)
    ensures r.Some? ==> exists i | 0 <= i < |fields| ::
              fields[i].0 == MARKER + r.value && forall j | 0 <= j < i :: !(MARKER <= fields[j].0)
  {
    if fields == [] then None
    else if MARKER <= fields[0].0 then Some(fields[0].0[|MARKER|..])
    else MarkedSet(fields[1..])
  }

  function FieldOf(fields: seq<(string, Content)>, name: string): (r: Option<Content>)
    ensures r.None? <==> forall f | f in fields :: f.0 != name
    ensures r.Some? ==> (name, r.value) in fields
  {
    if fields == [] then None
    else if fields[0].0 == name then Some(fields[0].1)
    else FieldOf(fields[1..], name)
  }

  function ParameterRequest(p: Payload): Request {
    match p
    case Operation(fields) =>
      var fragment := MarkedSet(fields);
      if fragment.None? then BadRequest
      else
        var content := FieldOf(fields, fragment.value);
        if content.None? then BadRequest
        else if content.value.Fields? then ForKeys(fragment.value, content.value.entries)
        else if IsScalar(content.value.value) then ForValue(fragment.value, content.value.value)
        else BadRequest
    case Direct(fragment, parameters, value) =>
      if fragment.Some? && parameters.Some? then ForKeys(fragment.value, parameters.value)
      else if fragment.Some? && value.Some? && IsScalar(value.value) then ForValue(fragment.value, value.value)
      else BadRequest
  }

  /** Where a write of the place goes: to its owner, or to the point of the same name while it has none. */
  function PointOf(l: Ledger, place: Place): Point {
    var owner := OwnerOf(l, place);
    if owner.Some? then owner.value else place.key
  }

  function KeyWrites(l: Ledger, fragment: SetName, entries: seq<(Key, Value)>): (r: seq<(Point, Value)>)
    ensures |r| == |entries|
    ensures forall i | 0 <= i < |r| :: r[i] == (PointOf(l, Place(fragment, entries[i].0)), entries[i].1)
  {
    if entries == [] then []
    else [(PointOf(l, Place(fragment, entries[0].0)), entries[0].1)] + KeyWrites(l, fragment, entries[1..])
  }

  function ParameterWrites(l: Ledger, r: Request): Planned {
    match r
    case BadRequest => Refused
    case ForValue(fragment, value) =>
      var literal := OwnerOf(l, Place(fragment, LITERAL_KEY));
      if literal.None? then Refused else Writes([(literal.value, value)])
    case ForKeys(fragment, entries) =>
      if OwnerOf(l, Place(fragment, LITERAL_KEY)).Some? then Refused else Writes(KeyWrites(l, fragment, entries))
  }

  /** The writes of the connector's batch; a request that cannot be read still goes out, with none. */
  function ParameterBatch(l: Ledger, p: Payload): seq<(Point, Value)> {
    var planned := ParameterWrites(l, ParameterRequest(p));
    if planned.Writes? then planned.writes else []
  }

  // ---- echoing a published fragment ----

  /** `content` is `f` as a client reads it: an object's fields may come in any order. */
  ghost predicate Echoes(content: Content, f: Fragment) {
    match f
    case Cleared => false
    case Literal(value) => content == Of(value) || (value.Compound? && content.Fields?)
    case Keyed(values) =>
      && content.Fields?
      && (forall i | 0 <= i < |content.entries| ::
            content.entries[i].0 in values && values[content.entries[i].0] == content.entries[i].1)
      && (forall i, j | 0 <= i < j < |content.entries| :: content.entries[i].0 != content.entries[j].0)
      && (forall k | k in values :: exists i | 0 <= i < |content.entries| :: content.entries[i].0 == k)
  }

  /** A request that carries `content` for `fragment`, in either shape. */
  ghost predicate Requests(p: Payload, fragment: SetName, content: Content) {
    match p
    case Operation(fields) => MarkedSet(fields) == Some(fragment) && FieldOf(fields, fragment) == Some(content)
    case Direct(name, parameters, value) =>
      && name == Some(fragment)
      && (if content.Fields? then parameters == Some(content.entries)
          else parameters == None && value == Some(content.value))
  }

  /** The write goes to the point that published the value, under some key of the fragment. */
  ghost predicate Publisher(l: Ledger, fragment: SetName, write: (Point, Value)) {
    exists k ::
      && Owns(l, write.0, Place(fragment, k)) && Place(fragment, k) in l.values
      && l.values[Place(fragment, k)] == write.1
  }

  /**
   * A whole fragment sent back becomes one write per value, each to the point that published it
   * and no point twice -- except a literal that is not a scalar, which is refused.
   */
  lemma EchoWritesBack(l: Ledger, fragment: SetName, p: Payload, content: Content)
    requires Inv(l) && Echoes(content, Render(l, fragment)) && Requests(p, fragment, content)
    ensures var writes, carried := ParameterBatch(l, p), Render(l, fragment);
            && (carried.Literal? ==> |writes| == if IsScalar(carried.value) then 1 else 0)
            && (carried.Keyed? ==> |writes| == |content.entries|)
            && (forall w | w in writes :: Publisher(l, fragment, w))
            && (forall i, j | 0 <= i < j < |writes| :: writes[i].0 != writes[j].0)
  {
    if Render(l, fragment).Literal? {
      EchoLiteral(l, fragment, p, content);
    } else {
      EchoKeyed(l, fragment, p, content);
    }
  }

  lemma EchoLiteral(l: Ledger, fragment: SetName, p: Payload, content: Content)
    requires Inv(l) && Render(l, fragment).Literal? && Echoes(content, Render(l, fragment))
             && Requests(p, fragment, content)
    ensures var value, place := Render(l, fragment).value, Place(fragment, LITERAL_KEY);
            if IsScalar(value) then place in l.owner && ParameterBatch(l, p) == [(l.owner[place], value)]
                && Publisher(l, fragment, (l.owner[place], value))
            else ParameterBatch(l, p) == []
  {
    LiteralIsOwned(l, fragment);
    hide Inv, Render;
    assert Owns(l, l.owner[Place(fragment, LITERAL_KEY)], Place(fragment, LITERAL_KEY));
  }

  lemma EchoKeyed(l: Ledger, fragment: SetName, p: Payload, content: Content)
    requires Inv(l) && Render(l, fragment).Keyed? && Echoes(content, Render(l, fragment))
             && Requests(p, fragment, content)
    ensures var writes := ParameterBatch(l, p);
            && |writes| == |content.entries|
            && (forall i | 0 <= i < |writes| :: Publisher(l, fragment, writes[i]))
            && (forall i, j | 0 <= i < j < |writes| :: writes[i].0 != writes[j].0)
  {
    hide Inv, Render;
    var writes := KeyWrites(l, fragment, content.entries);
    NotALiteral(l, fragment);
    KeyedBatch(l, fragment, p, content);
    forall i | 0 <= i < |writes|
      ensures Owns(l, writes[i].0, Place(fragment, content.entries[i].0)) && Publisher(l, fragment, writes[i])
    {
      KeyIsOwned(l, fragment, content.entries[i].0);
    }
    forall i, j | 0 <= i < j < |writes|
      ensures writes[i].0 != writes[j].0
    {
      OneKeyPerPoint(l, writes[i].0, fragment, content.entries[i].0, writes[j].0, content.entries[j].0);
    }
  }

  lemma KeyedBatch(l: Ledger, fragment: SetName, p: Payload, content: Content)
    requires content.Fields? && Requests(p, fragment, content) && OwnerOf(l, Place(fragment, LITERAL_KEY)).None?
    ensures ParameterBatch(l, p) == KeyWrites(l, fragment, content.entries)
  {
    hide KeyWrites;
  }

  lemma KeyIsOwned(l: Ledger, fragment: SetName, k: Key)
    requires Inv(l) && Render(l, fragment).Keyed? && k in Render(l, fragment).values
    ensures var place := Place(fragment, k);
            && place in l.values && l.values[place] == Render(l, fragment).values[k]
            && Owns(l, PointOf(l, place), place)
  {
    hide OneKey, OneShape, Listed;
  }

  lemma LiteralIsOwned(l: Ledger, fragment: SetName)
    requires Inv(l) && Render(l, fragment).Literal?
    ensures var literal := Place(fragment, LITERAL_KEY);
            literal in l.values && literal in l.owner && l.owner[literal] != ""
            && l.values[literal] == Render(l, fragment).value
  {
  }

  lemma NotALiteral(l: Ledger, fragment: SetName)
    requires Inv(l) && Render(l, fragment).Keyed?
    ensures OwnerOf(l, Place(fragment, LITERAL_KEY)).None?
  {
    var values := ValuesOf(l, fragment);
    var k :| k in values;
    assert Place(fragment, k) in l.owner;
  }

  lemma OneKeyPerPoint(l: Ledger, p: Point, fragment: SetName, a: Key, q: Point, b: Key)
    requires Inv(l) && a != b && Owns(l, p, Place(fragment, a)) && Owns(l, q, Place(fragment, b))
    ensures p != q
  {
  }

  // ---- any edit ----

  /** The owner of a place, or the point of the same name while it has none. */
  function Target(l: Ledger, place: Place): Point {
    if place in l.owner then l.owner[place] else place.key
  }

  /**
   * Whatever a request carries for a fragment: a scalar goes to the point that is the fragment, as its one
   * write; the fields of an object go to the owners of their keys, in order. An object for a literal, a
   * value for a set of keys and a value that is not a scalar are refused.
   */
  lemma EditWrites(l: Ledger, fragment: SetName, p: Payload, content: Content)
    requires Inv(l) && Requests(p, fragment, content)
    ensures var writes, literal := ParameterBatch(l, p), Place(fragment, LITERAL_KEY);
            match content
            case Of(value) =>
              writes == if (value.Number? || value.Text? || value.Flag?) && literal in l.owner
                        then [(l.owner[literal], value)] else []
            case Fields(entries) =>
              if literal in l.owner then writes == []
              else |writes| == |entries| && forall i | 0 <= i < |writes| ::
                     writes[i] == (Target(l, Place(fragment, entries[i].0)), entries[i].1)
  {
    assert forall pl | pl in l.owner :: l.owner[pl] != "";
    RequestOf(p, fragment, content);
    hide Inv, KeyWrites, Requests, ParameterRequest;
  }

  lemma RequestOf(p: Payload, fragment: SetName, content: Content)
    requires Requests(p, fragment, content)
    ensures ParameterRequest(p) ==
            match content
            case Fields(entries) => ForKeys(fragment, entries)
            case Of(value) => if IsScalar(value) then ForValue(fragment, value) else BadRequest
  {
    hide MarkedSet, FieldOf;
  }

  /** A request that carries nothing for any fragment goes out without writes. */
  lemma NothingCarried(l: Ledger, p: Payload)
    requires forall fragment, content :: !Requests(p, fragment, content)
    ensures ParameterBatch(l, p) == []
  {
    match p
    case Operation(fields) =>
      var fragment := MarkedSet(fields);
      if fragment.Some? && FieldOf(fields, fragment.value).Some? {
        assert Requests(p, fragment.value, FieldOf(fields, fragment.value).value);
      }
    case Direct(fragment, parameters, value) =>
      if fragment.Some? && parameters.Some? {
        assert Requests(p, fragment.value, Fields(parameters.value));
      } else if fragment.Some? && value.Some? {
        assert Requests(p, fragment.value, Of(value.value));
      }
  }

  // ---- the results of an echo ----

  /** From `a` to `b`: the fragment's values and the claims stand, and the fragment was not announced. */
  ghost predicate SameFragment(a: Ledger, b: Ledger, fragment: SetName) {
    && (forall pl: Place | pl.fragment == fragment ::
          (pl in a.values <==> pl in b.values) && (pl in a.values ==> a.values[pl] == b.values[pl]))
    && (forall pl | pl in a.owner :: pl in b.owner && b.owner[pl] == a.owner[pl])
    && a.keys == b.keys
    && (fragment in b.changed ==> fragment in a.changed)
  }

  lemma SameFragmentTransitive(a: Ledger, b: Ledger, c: Ledger, fragment: SetName)
    requires SameFragment(a, b, fragment) && SameFragment(b, c, fragment)
    ensures SameFragment(a, c, fragment)
  {
  }

  lemma PublisherStands(a: Ledger, b: Ledger, fragment: SetName, write: (Point, Value))
    requires SameFragment(a, b, fragment) && Publisher(a, fragment, write)
    ensures Publisher(b, fragment, write)
  {
    var k :| Owns(a, write.0, Place(fragment, k)) && Place(fragment, k) in a.values
        && a.values[Place(fragment, k)] == write.1;
    assert Owns(b, write.0, Place(fragment, k));
  }

  lemma PutAnnounces(l: Ledger, point: Point, place: Place, value: Value)
    ensures var one := PutValue(l, point, place, value);
            && one.keys == l.keys
            && (one.changed == l.changed
                || (one.changed == l.changed + {place.fragment} && !(place in l.values && l.values[place] == value)))
  {
  }

  /** The point publishes its value under its current key. */
  lemma PublisherKey(l: Ledger, fragment: SetName, write: (Point, Value))
    requires Inv(l) && Publisher(l, fragment, write)
    ensures var place := Place(fragment, KeyOf(l, write.0));
            Owns(l, write.0, place) && place in l.values && l.values[place] == write.1
  {
    hide Inverse, OneShape, Listed, ValuesOwned;
    var k :| Owns(l, write.0, Place(fragment, k)) && Place(fragment, k) in l.values
        && l.values[Place(fragment, k)] == write.1;
    assert k == KeyOf(l, write.0);
  }

  lemma PutEcho(l: Ledger, fragment: SetName, write: (Point, Value), name: SetName)
    requires Inv(l) && write.0 != "" && Publisher(l, fragment, write)
    ensures SameFragment(l, PutValue(l, write.0, Place(name, KeyOf(l, write.0)), write.1), fragment)
  {
    hide Inv, PutValue, Publisher;
    var place := Place(name, KeyOf(l, write.0));
    PublisherKey(l, fragment, write);
    PutValueOwner(l, write.0, place, write.1);
    PutAnnounces(l, write.0, place, write.1);
    PutKeepsOwner(l, write.0, place, write.1);
  }

  lemma PutKeepsOwner(l: Ledger, point: Point, place: Place, value: Value)
    requires Inv(l)
    ensures var one := PutValue(l, point, place, value);
            forall pl | pl in l.owner :: pl in one.owner && one.owner[pl] == l.owner[pl]
  {
    hide OneKey, OneShape, Listed, ValuesOwned, ShapeTaken;
  }

  lemma {:induction false} PutAllEcho(l: Ledger, fragment: SetName, write: (Point, Value), sets: seq<SetName>)
    requires Inv(l) && write.0 != "" && Publisher(l, fragment, write)
    ensures SameFragment(l, PutAll(l, write.0, KeyOf(l, write.0), sets, write.1), fragment)
    decreases |sets|
  {
    if sets != [] {
      var key := KeyOf(l, write.0);
      var place := Place(sets[0], key);
      var one := PutValue(l, write.0, place, write.1);
      hide Inv, PutValue, SameFragment, Publisher, Tracked;
      PutEcho(l, fragment, write, sets[0]);
      PutValueKeeps(l, write.0, place, write.1);
      PublisherStands(l, one, fragment, write);
      PutAllEcho(one, fragment, write, sets[1..]);
      SameFragmentTransitive(l, one, PutAll(one, write.0, key, sets[1..], write.1), fragment);
    }
  }

  lemma {:induction false} ResultsEcho(st: Store, fragment: SetName, updates: seq<(Point, Value)>,
      configured: Option<seq<Point>>, fallback: SetName)
    requires Inv(st.ledger) && forall u | u in updates :: u.0 != "" && Publisher(st.ledger, fragment, u)
    ensures SameFragment(st.ledger, ApplyResults(st, updates, configured, fallback).ledger, fragment)
    decreases |updates|
  {
    if updates != [] {
      var l, u := st.ledger, updates[0];
      assert u in updates;
      var sets := SetsIn(Resolve(st, u.0, configured, fallback));
      var put := PutAll(l, u.0, KeyOf(l, u.0), sets, u.1);
      hide Inv, PutAll, SameFragment, Publisher, Tracked;
      PutAllEcho(l, fragment, u, sets);
      PutAllKeeps(l, u.0, KeyOf(l, u.0), sets, u.1);
      forall v | v in updates[1..]
        ensures v.0 != "" && Publisher(put, fragment, v)
      {
        PublisherStands(l, put, fragment, v);
      }
      ResultsEcho(st.(ledger := put), fragment, updates[1..], configured, fallback);
      SameFragmentTransitive(l, put, ApplyResults(st.(ledger := put), updates[1..], configured, fallback).ledger,
          fragment);
    }
  }

  /** The results of a batch, as the connector reports them when every write succeeded. */
  function ResultsOf(writes: seq<(Point, Value)>): (r: seq<Result>)
    ensures |r| == |writes| && forall i | 0 <= i < |r| :: r[i] == Result(Some(writes[i].0), true, Some(writes[i].1))
  {
    if writes == [] then [] else [Result(Some(writes[0].0), true, Some(writes[0].1))] + ResultsOf(writes[1..])
  }

  lemma {:induction false} UpdatesAreWrites(results: seq<Result>, updates: seq<(Point, Value)>,
      writes: seq<(Point, Value)>)
    requires forall r | r in results :: r.point.Some? && r.value.Some? && (r.point.value, r.value.value) in writes
    requires forall u | u in updates :: u in writes
    ensures forall u | u in ResultUpdates(results, updates) :: u in writes
    decreases |results|
  {
    if results != [] {
      var r := results[0];
      assert r in results;
      UpdatesAreWrites(results[1..],
        if r.successful && r.point.Some? && r.value.Some? then Upsert(updates, r.point.value, r.value.value)
            else updates, writes);
    }
  }

  /**
   * A fragment sent back whole, written and acknowledged, is unchanged and is not published
   * again -- in either shape, for every connector protocol and list of configured points.
   */
  lemma EchoIsIdentity(st: Store, fragment: SetName, p: Payload, content: Content, protocol: Protocol, forced: string)
    requires Inv(st.ledger) && Echoes(content, Render(st.ledger, fragment)) && Requests(p, fragment, content)
    ensures var writes := ParameterBatch(st.ledger, p);
            var done := Command(protocol, Some(fragment), Successful, Batch(None, Some(ResultsOf(writes))));
            var after := OnMessage(st, done, forced);
            Render(after.ledger, fragment) == Render(st.ledger, fragment) && fragment !in after.ledger.changed
  {
    var writes := ParameterBatch(st.ledger, p);
    var body := Batch(None, Some(ResultsOf(writes)));
    var done := Command(protocol, Some(fragment), Successful, body);
    hide Inv, ParameterBatch, Render, OnCommand;
    EchoUpdates(st, fragment, p, content);
    FreshKeeps(st);
    CommandEcho(Fresh(st), fragment, done, forced);
    RenderSame(st.ledger, OnMessage(st, done, forced).ledger, fragment);
  }

  /** The updates an acknowledged echo reports are the values their own points published. */
  lemma EchoUpdates(st: Store, fragment: SetName, p: Payload, content: Content)
    requires Inv(st.ledger) && Echoes(content, Render(st.ledger, fragment)) && Requests(p, fragment, content)
    ensures forall u | u in UpdatesOf(Batch(None, Some(ResultsOf(ParameterBatch(st.ledger, p))))) ::
              u.0 != "" && Publisher(Fresh(st).ledger, fragment, u)
  {
    hide Inv, ParameterBatch, Render, ResultUpdates, Publisher, Echoes, SameFragment;
    var writes := ParameterBatch(st.ledger, p);
    EchoWritesBack(st.ledger, fragment, p, content);
    UpdatesAreWrites(ResultsOf(writes), [], writes);
    SameFragmentFresh(st, fragment);
    forall w | w in writes
      ensures w.0 != "" && Publisher(Fresh(st).ledger, fragment, w)
    {
      PublisherNamed(st.ledger, fragment, w);
      PublisherStands(st.ledger, Fresh(st).ledger, fragment, w);
    }
  }

  lemma CommandEcho(st: Store, fragment: SetName, m: Message, forced: string)
    requires Inv(st.ledger) && m.Command? && m.status == Successful
    requires forall u | u in UpdatesOf(m.body) :: u.0 != "" && Publisher(st.ledger, fragment, u)
    ensures SameFragment(st.ledger, OnCommand(st, m, forced).ledger, fragment)
  {
    hide Inv, RecordOrigin, ApplyResults, SameFragment, Publisher, UpdatesOf, WrittenPoints;
    if m.origin.Some? {
      RecordOriginKeeps(st, WrittenPoints(m.body), m.origin.value);
    }
    ResultsEcho(Origin(st, m), fragment, UpdatesOf(m.body), if m.protocol in st.listed
        then Some(st.listed[m.protocol]) else None,
      SetFor(NamesFor(st, m.protocol, forced), ""));
  }

  lemma PublisherNamed(l: Ledger, fragment: SetName, write: (Point, Value))
    requires Inv(l) && Publisher(l, fragment, write)
    ensures write.0 != ""
  {
    var k :| Owns(l, write.0, Place(fragment, k));
  }

  lemma SameFragmentFresh(st: Store, fragment: SetName)
    ensures SameFragment(st.ledger, Fresh(st).ledger, fragment)
  {
  }

  lemma RenderSame(a: Ledger, b: Ledger, fragment: SetName)
    requires forall pl: Place | pl.fragment == fragment ::
               (pl in a.values <==> pl in b.values) && (pl in a.values ==> a.values[pl] == b.values[pl])
    ensures Render(a, fragment) == Render(b, fragment)
  {
    assert ValuesOf(a, fragment) == ValuesOf(b, fragment) by {
      forall k
        ensures k in ValuesOf(a, fragment) <==> k in ValuesOf(b, fragment)
        ensures k in ValuesOf(a, fragment) ==> ValuesOf(a, fragment)[k] == ValuesOf(b, fragment)[k]
      {
        assert k in ValuesOf(a, fragment) <==> Place(fragment, k) in a.values;
        assert k in ValuesOf(b, fragment) <==> Place(fragment, k) in b.values;
      }
    }
  }
}
