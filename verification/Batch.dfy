/**
 * The measurement batcher of one device: readings collected into open messages per topic and
 * grouping, frames of stacked layers, and messages split at a byte budget.
 */
module Batch {
  import opened Common

  const SIZE_BUDGET: nat := 15_000
  const SERIES_OVERHEAD: nat := 12
  const FRAME_BYTES: nat := 39
  const MAX_LAYERS: nat := 64

  datatype GroupBy = ByTime | ByFrame(window: int) | BySample(every: int)

  /** What an open message is kept under: its topic and how its points are grouped. */
  datatype GroupKey = GroupKey(topic: nat, grouping: GroupBy)

  /** A series in a message: the point, the reading's value and timestamp, and the bytes of its text. */
  datatype Piece = Piece(point: nat, value: real, ts: int, size: nat)

  /** `keys[k]` is the message point `k` belongs to; `groupBytes[t]` the size of topic `t`'s group name. */
  datatype Config = Config(keys: seq<GroupKey>, groupBytes: seq<nat>)

  datatype Layer = Layer(time: int, since: int, pieces: seq<Piece>, points: seq<nat>)

  datatype Message = Message(key: GroupKey, time: int, pieces: seq<Piece>)

  /** A reading taken in, with the time of the message it was put in. */
  datatype Accepted = Accepted(key: GroupKey, piece: Piece, time: int)

  /** `order` lists the open messages in the order they were opened in; `log` is the history of readings. */
  datatype State = State(
    depth: seq<nat>,
    open: map<GroupKey, seq<Layer>>,
    order: seq<GroupKey>,
    lastLayer: map<GroupKey, int>,
    out: seq<Message>,
    log: seq<Accepted>)

  function Fresh(c: Config): State {
    State(seq(|c.keys|, _ => 0), map[], [], map[], [], [])
  }

  // ---- sizes ----

  /** The bytes of a body: its pieces, with commas between them. */
  function BodyBytes(pieces: seq<Piece>): nat {
    if pieces == [] then 0
    else BodyBytes(pieces[..|pieces| - 1]) + (if |pieces| > 1 then 1 else 0) + pieces[|pieces| - 1].size
  }

  function Estimate(c: Config, topic: nat, bytes: nat, n: nat): nat {
    FRAME_BYTES + (if topic < |c.groupBytes| then c.groupBytes[topic] else 0) + bytes + SERIES_OVERHEAD * n
  }

  /** A single series, or within the budget. */
  predicate Fits(c: Config, topic: nat, pieces: seq<Piece>) {
    |pieces| <= 1 || Estimate(c, topic, BodyBytes(pieces), |pieces|) <= SIZE_BUDGET
  }

  /** Whether one more piece would take a body over the budget. */
  predicate Overflows(c: Config, topic: nat, pieces: seq<Piece>, piece: Piece) {
    pieces != [] && Estimate(c, topic, BodyBytes(pieces) + 1 + piece.size, |pieces| + 1) > SIZE_BUDGET
  }

  lemma NotOverflowingFits(c: Config, topic: nat, pieces: seq<Piece>, piece: Piece)
    requires !Overflows(c, topic, pieces, piece)
    ensures Fits(c, topic, pieces + [piece])
  {
    var more := pieces + [piece];
    assert more[..|more| - 1] == pieces;
  }

  // ---- operations ----

  function LayersOf(s: State, key: GroupKey): seq<Layer> {
    if key in s.open then s.open[key] else []
  }

  function Sent(key: GroupKey, layers: seq<Layer>): seq<Message> {
    if layers == [] then []
    else
      var l := layers[|layers| - 1];
      Sent(key, layers[..|layers| - 1]) + (if l.pieces == [] then [] else [Message(key, l.time, l.pieces)])
  }

  predicate InLayers(layers: seq<Layer>, k: nat) {
    exists l | l in layers :: k in l.points
  }

  function ClearedDepth(depth: seq<nat>, layers: seq<Layer>): (r: seq<nat>)
    ensures |r| == |depth|
  {
    seq(|depth|, k requires 0 <= k < |depth| => if InLayers(layers, k) then 0 else depth[k])
  }

  /** Publish an open message: every layer in order, and its points start again. */
  function Close(s: State, key: GroupKey): State {
    if key !in s.open then s
    else
      s.(open := s.open - {key},
         order := Without(s.order, [key]),
         depth := ClearedDepth(s.depth, s.open[key]),
         out := s.out + Sent(key, s.open[key]))
  }

  /** Whether a reading has to go in another message, and when that message's window began. */
  function MustClose(s: State, key: GroupKey, depth: nat, ts: int, now: int): (bool, int) {
    var layers := LayersOf(s, key);
    if layers == [] then (false, now)
    else if key.grouping.ByFrame? then
      if layers[0].since + key.grouping.window <= now then (true, now)
      else if depth >= MAX_LAYERS then (true, layers[0].since)
      else (false, now)
    else (depth > 0 || layers[0].time != ts, now)
  }

  /** A layer of a frame takes the reading's time, or the moment after the key's latest layer if that is later. */
  function LayerTime(s: State, key: GroupKey, ts: int): int {
    if key.grouping.ByFrame? && key in s.lastLayer && ts <= s.lastLayer[key] then s.lastLayer[key] + 1 else ts
  }

  /** One more layer on the open message, or the first of a new one. */
  function OpenLayer(s: State, key: GroupKey, ts: int, since: int): State {
    var layers, time := LayersOf(s, key), LayerTime(s, key, ts);
    s.(open := s.open[key := layers + [Layer(time, if layers == [] then since else layers[0].since, [], [])]],
       order := if key in s.open then s.order else s.order + [key],
       lastLayer := if key.grouping.ByFrame? then s.lastLayer[key := time] else s.lastLayer)
  }

  /** Put a piece on a layer; a full body is published first, the layer keeps its time and window. */
  function Put(c: Config, s: State, key: GroupKey, i: nat, piece: Piece): State
    requires i < |LayersOf(s, key)| && piece.point < |s.depth|
  {
    var layers := LayersOf(s, key);
    var layer := layers[i];
    var full := Overflows(c, key.topic, layer.pieces, piece);
    var body := (if full then [] else layer.pieces) + [piece];
    s.(open := s.open[key := layers[i := layer.(pieces := body, points := layer.points + [piece.point])]],
       depth := s.depth[piece.point := s.depth[piece.point] + 1],
       out := if full then s.out + [Message(key, layer.time, layer.pieces)] else s.out,
       log := s.log + [Accepted(key, piece, layer.time)])
  }

  function Closing(c: Config, s: State, piece: Piece, now: int): State
    requires piece.point < |c.keys| && |s.depth| == |c.keys|
  {
    var key := c.keys[piece.point];
    if MustClose(s, key, s.depth[piece.point], piece.ts, now).0 then Close(s, key) else s
  }

  /** The state in which the piece is put: a message that must close is closed, a missing layer opened. */
  function Ready(c: Config, s: State, piece: Piece, now: int): State
    requires piece.point < |c.keys| && |s.depth| == |c.keys|
  {
    var key := c.keys[piece.point];
    var since := MustClose(s, key, s.depth[piece.point], piece.ts, now).1;
    var closed := Closing(c, s, piece, now);
    if closed.depth[piece.point] == |LayersOf(closed, key)| then OpenLayer(closed, key, piece.ts, since) else closed
  }

  /** A point whose readings go in messages as they come, not in samples. */
  predicate Batched(c: Config, k: nat) {
    k < |c.keys| && !c.keys[k].grouping.BySample?
  }

  function Add(c: Config, s: State, piece: Piece, now: int): State
    requires Shaped(c, s) && Batched(c, piece.point)
  {
    ReadyShaped(c, s, piece, now);
    var ready := Ready(c, s, piece, now);
    Put(c, ready, c.keys[piece.point], ready.depth[piece.point], piece)
  }

  // ---- closing several messages ----

  /** The passes that publish open messages: `time` ones, all of them, and frames that ended. */
  datatype Pass = EndOfPass | FlushAll | Due(now: int)

  /** When the window of an open message began. */
  function OpenedAt(s: State, key: GroupKey): int {
    var layers := LayersOf(s, key);
    if layers == [] then 0 else layers[0].since
  }

  predicate Selected(s: State, pass: Pass, key: GroupKey) {
    match pass
    case EndOfPass => key.grouping.ByTime?
    case FlushAll => true
    case Due(now) => key.grouping.ByFrame? && OpenedAt(s, key) + key.grouping.window <= now
  }

  /** Passes go by topic; frames that ended by the start of their window first. */
  predicate NotAfter(s: State, pass: Pass, a: GroupKey, b: GroupKey) {
    if pass.Due? && OpenedAt(s, a) != OpenedAt(s, b) then OpenedAt(s, a) < OpenedAt(s, b) else a.topic <= b.topic
  }

  /** A key put in a sorted list, after the ones that are level with it. */
  function Insert(s: State, pass: Pass, keys: seq<GroupKey>, key: GroupKey): (r: seq<GroupKey>)
    ensures forall x :: x in r <==> x in keys || x == key
  {
    if keys == [] then [key]
    else
      var last := keys[|keys| - 1];
      assert keys == keys[..|keys| - 1] + [last];
      if NotAfter(s, pass, last, key) then keys + [key]
      else Insert(s, pass, keys[..|keys| - 1], key) + [last]
  }

  /** The messages a pass is for, sorted. */
  function Chosen(s: State, pass: Pass, order: seq<GroupKey>): (r: seq<GroupKey>)
    ensures forall x :: x in r <==> x in order && Selected(s, pass, x)
  {
    if order == [] then []
    else
      var last := order[|order| - 1];
      assert order == order[..|order| - 1] + [last];
      var earlier := Chosen(s, pass, order[..|order| - 1]);
      if Selected(s, pass, last) then Insert(s, pass, earlier, last) else earlier
  }

  function CloseKeys(s: State, keys: seq<GroupKey>): State {
    if keys == [] then s else Close(CloseKeys(s, keys[..|keys| - 1]), keys[|keys| - 1])
  }

  function ClosePass(s: State, pass: Pass): State {
    CloseKeys(s, Chosen(s, pass, s.order))
  }

  // ---- runs ----

  datatype Event = Offer(piece: Piece, now: int) | Publish(pass: Pass)

  predicate Feasible(c: Config, events: seq<Event>) {
    forall e | e in events :: e.Offer? ==> Batched(c, e.piece.point)
  }

  ghost function Step(c: Config, s: State, e: Event): (after: State)
    requires Shaped(c, s) && (e.Offer? ==> Batched(c, e.piece.point))
    ensures Shaped(c, after)
  {
    match e
    case Offer(piece, now) => AddShaped(c, s, piece, now); Add(c, s, piece, now)
    case Publish(pass) => CloseKeysShaped(c, s, Chosen(s, pass, s.order)); ClosePass(s, pass)
  }

  ghost function Run(c: Config, events: seq<Event>): (s: State)
    requires Feasible(c, events)
    ensures Shaped(c, s)
  {
    if events == [] then FreshShaped(c); Fresh(c)
    else Step(c, Run(c, events[..|events| - 1]), events[|events| - 1])
  }

  // ---- the shape of the open messages ----

  ghost predicate HoldsOwn(c: Config, key: GroupKey, l: Layer) {
    forall k | k in l.points :: k < |c.keys| && c.keys[k] == key
  }

  /** Layers hold the points of their key, and point `k` is in the first `depth[k]` of them. */
  ghost predicate Indexed(c: Config, s: State, key: GroupKey)
    requires |s.depth| == |c.keys|
  {
    var layers := LayersOf(s, key);
    && (key in s.open <==> layers != [])
    && (key in s.open <==> key in s.order)
    && |layers| <= MAX_LAYERS
    && (key.grouping.ByTime? ==> |layers| <= 1)
    && (forall l | l in layers :: HoldsOwn(c, key, l))
    && (forall k: nat | k < |c.keys| && c.keys[k] == key ::
          s.depth[k] <= |layers| && forall i | 0 <= i < |layers| :: k in layers[i].points <==> i < s.depth[k])
  }

  /** Every body is a single series or within the budget. */
  ghost predicate Sized(c: Config, s: State, key: GroupKey) {
    forall l | l in LayersOf(s, key) :: Fits(c, key.topic, l.pieces)
  }

  ghost predicate SentFit(c: Config, s: State) {
    forall m | m in s.out :: m.pieces != [] && Fits(c, m.key.topic, m.pieces)
  }

  ghost predicate Shaped(c: Config, s: State) {
    |s.depth| == |c.keys| && SentFit(c, s) && forall key :: Indexed(c, s, key) && Sized(c, s, key)
  }

  lemma FreshShaped(c: Config)
    ensures Shaped(c, Fresh(c))
  {
  }

  lemma {:induction false} SentAre(key: GroupKey, layers: seq<Layer>, m: Message)
    ensures m in Sent(key, layers) <==> exists l | l in layers :: l.pieces != [] && m == Message(key, l.time, l.pieces)
    decreases |layers|
  {
    if layers != [] {
      var front, last := layers[..|layers| - 1], layers[|layers| - 1];
      SentAre(key, front, m);
      assert forall l :: l in layers <==> l in front || l == last by { assert layers == front + [last]; }
    }
  }

  lemma CloseShaped(c: Config, s: State, key: GroupKey)
    requires Shaped(c, s)
    ensures Shaped(c, Close(s, key)) && LayersOf(Close(s, key), key) == []
    ensures forall k: nat | k < |c.keys| && c.keys[k] == key :: Close(s, key).depth[k] == 0
  {
    var after, layers := Close(s, key), LayersOf(s, key);
    forall k: nat | k < |c.keys|
      ensures after.depth[k] == if c.keys[k] == key then 0 else s.depth[k]
    {
      CloseDepth(c, s, key, k);
    }
    forall m | m in after.out
      ensures m.pieces != [] && Fits(c, m.key.topic, m.pieces)
    {
      SentAre(key, layers, m);
      assert Sized(c, s, key);
    }
    forall other
      ensures Indexed(c, after, other) && Sized(c, after, other)
    {
      assert Indexed(c, s, other) && Sized(c, s, other) && Indexed(c, s, key);
      assert other != key ==> LayersOf(after, other) == LayersOf(s, other);
    }
  }

  lemma CloseDepth(c: Config, s: State, key: GroupKey, k: nat)
    requires Shaped(c, s) && k < |c.keys|
    ensures Close(s, key).depth[k] == if c.keys[k] == key then 0 else s.depth[k]
  {
    hide Fits, SentFit, Sized;
    var layers := LayersOf(s, key);
    assert Indexed(c, s, key);
    if c.keys[k] == key {
      if s.depth[k] > 0 {
        assert k in layers[0].points && layers[0] in layers;
      }
    }
  }

  lemma OpenLayerShaped(c: Config, s: State, key: GroupKey, ts: int, since: int)
    requires Shaped(c, s) && |LayersOf(s, key)| < MAX_LAYERS && (key.grouping.ByTime? ==> LayersOf(s, key) == [])
    ensures Shaped(c, OpenLayer(s, key, ts, since))
  {
    hide Fits;
    var after := OpenLayer(s, key, ts, since);
    assert Fits(c, key.topic, []) by { EmptyFits(c, key.topic); }
    forall other
      ensures Indexed(c, after, other) && Sized(c, after, other)
    {
      assert Indexed(c, s, other) && Sized(c, s, other);
      if other != key {
        assert LayersOf(after, other) == LayersOf(s, other);
      }
    }
  }

  lemma EmptyFits(c: Config, topic: nat)
    ensures Fits(c, topic, [])
  {
  }

  lemma PutShaped(c: Config, s: State, key: GroupKey, piece: Piece)
    requires Shaped(c, s) && piece.point < |c.keys| && c.keys[piece.point] == key
    requires s.depth[piece.point] < |LayersOf(s, key)|
    ensures Shaped(c, Put(c, s, key, s.depth[piece.point], piece))
  {
    var i := s.depth[piece.point];
    var after, layers := Put(c, s, key, i, piece), LayersOf(s, key);
    var layer := layers[i];
    assert layer in layers;
    assert Indexed(c, s, key) && Sized(c, s, key);
    assert Fits(c, key.topic, layer.pieces);
    PutIndexed(c, s, key, piece);
    assert Sized(c, after, key) by {
      if !Overflows(c, key.topic, layer.pieces, piece) {
        NotOverflowingFits(c, key.topic, layer.pieces, piece);
      }
    }
    hide Fits, Estimate, Indexed;
    forall other
      ensures Indexed(c, after, other) && Sized(c, after, other)
    {
      assert Sized(c, s, other);
    }
  }

  lemma PutIndexed(c: Config, s: State, key: GroupKey, piece: Piece)
    requires Shaped(c, s) && piece.point < |c.keys| && c.keys[piece.point] == key
    requires s.depth[piece.point] < |LayersOf(s, key)|
    ensures forall other :: Indexed(c, Put(c, s, key, s.depth[piece.point], piece), other)
  {
    hide Overflows, Sized, SentFit;
    var after := Put(c, s, key, s.depth[piece.point], piece);
    assert Indexed(c, s, key);
    assert Indexed(c, after, key) by {
      var was, layers := LayersOf(s, key), LayersOf(after, key);
      forall l | l in layers
        ensures HoldsOwn(c, key, l)
      {
        var j :| 0 <= j < |layers| && layers[j] == l;
        var before := was[j];
        assert before in was && HoldsOwn(c, key, before);
        assert forall k | k in l.points :: k in before.points || k == piece.point;
      }
    }
    forall other
      ensures Indexed(c, after, other)
    {
      assert Indexed(c, s, other);
      assert other != key ==> LayersOf(after, other) == LayersOf(s, other);
    }
  }

  /** A point's layer exists when its reading is put there. */
  lemma ReadyShaped(c: Config, s: State, piece: Piece, now: int)
    requires Shaped(c, s) && Batched(c, piece.point)
    ensures Shaped(c, Ready(c, s, piece, now))
    ensures var ready := Ready(c, s, piece, now);
            ready.depth[piece.point] < |LayersOf(ready, c.keys[piece.point])|
  {
    var key := c.keys[piece.point];
    var since := MustClose(s, key, s.depth[piece.point], piece.ts, now).1;
    var closed := Closing(c, s, piece, now);
    assert Indexed(c, s, key);
    CloseShaped(c, s, key);
    hide Close, Sized, SentFit;
    assert Indexed(c, closed, key);
    if closed.depth[piece.point] == |LayersOf(closed, key)| {
      OpenLayerShaped(c, closed, key, piece.ts, since);
    }
  }

  lemma AddShaped(c: Config, s: State, piece: Piece, now: int)
    requires Shaped(c, s) && Batched(c, piece.point)
    ensures Shaped(c, Add(c, s, piece, now))
  {
    hide Indexed, Sized, SentFit, Put, Ready;
    ReadyShaped(c, s, piece, now);
    PutShaped(c, Ready(c, s, piece, now), c.keys[piece.point], piece);
  }

  lemma {:induction false} CloseKeysShaped(c: Config, s: State, keys: seq<GroupKey>)
    requires Shaped(c, s)
    ensures Shaped(c, CloseKeys(s, keys))
  {
    hide Shaped, Close;
    if keys != [] {
      CloseKeysShaped(c, s, keys[..|keys| - 1]);
      CloseShaped(c, CloseKeys(s, keys[..|keys| - 1]), keys[|keys| - 1]);
    }
  }
}
