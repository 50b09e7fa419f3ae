/** The messages of one sample: the series of the sampled points, packed per topic. */
module BatchSample {
  import opened Batch

  datatype Series = Series(topic: nat, piece: Piece)

  /** The series of a topic, in order. */
  function Of(series: seq<Series>, topic: nat): seq<Piece> {
    if series == [] then []
    else
      var x := series[|series| - 1];
      Of(series[..|series| - 1], topic) + (if x.topic == topic then [x.piece] else [])
  }

  /** What the messages of a topic hold, in order. */
  function Carried(out: seq<Message>, topic: nat): seq<Piece> {
    if out == [] then []
    else
      var m := out[|out| - 1];
      Carried(out[..|out| - 1], topic) + (if m.key.topic == topic then m.pieces else [])
  }

  lemma CarriedAppend(out: seq<Message>, m: Message, topic: nat)
    ensures Carried(out + [m], topic) == Carried(out, topic) + (if m.key.topic == topic then m.pieces else [])
  {
    assert (out + [m])[..|out + [m]| - 1] == out;
  }

  /** A message of a sample, not empty and within the budget. */
  ghost predicate Proper(c: Config, every: int, wall: int, m: Message) {
    m.key.grouping == BySample(every) && m.time == wall && m.pieces != [] && Fits(c, m.key.topic, m.pieces)
  }

  /** The messages and the open bodies together hold the series. */
  ghost predicate Packed(c: Config, series: seq<Series>, out: seq<Message>, bodies: seq<seq<Piece>>) {
    |bodies| == |c.groupBytes| && forall t: nat | t < |bodies| ::
      Carried(out, t) + bodies[t] == Of(series, t) && Fits(c, t, bodies[t])
  }

  /** Publishing a body moves it from the open bodies to the messages. */
  lemma PublishKeeps(c: Config, series: seq<Series>, out: seq<Message>, bodies: seq<seq<Piece>>, m: Message)
    requires Packed(c, series, out, bodies) && m.key.topic < |bodies| && m.pieces == bodies[m.key.topic]
    ensures Packed(c, series, out + [m], bodies[m.key.topic := []])
  {
    hide Carried, Of;
    forall t: nat | t < |bodies|
      ensures var b := bodies[m.key.topic := []][t]; Carried(out + [m], t) + b == Of(series, t) && Fits(c, t, b)
    {
      CarriedAppend(out, m, t);
    }
  }

  lemma AddKeeps(c: Config, series: seq<Series>, out: seq<Message>, bodies: seq<seq<Piece>>, x: Series)
    requires Packed(c, series, out, bodies) && x.topic < |bodies| && !Overflows(c, x.topic, bodies[x.topic], x.piece)
    ensures Packed(c, series + [x], out, bodies[x.topic := bodies[x.topic] + [x.piece]])
  {
    hide Carried, Fits;
    var more := series + [x];
    assert more[..|more| - 1] == series;
    NotOverflowingFits(c, x.topic, bodies[x.topic], x.piece);
    forall t: nat | t < |bodies|
      ensures var b := bodies[x.topic := bodies[x.topic] + [x.piece]][t];
              Carried(out, t) + b == Of(more, t) && Fits(c, t, b)
    {
    }
  }

  // ---- no message ends early ----

  /** The bodies of a topic's messages, in order. */
  function BodiesOf(out: seq<Message>, topic: nat): seq<seq<Piece>> {
    if out == [] then []
    else
      var m := out[|out| - 1];
      BodiesOf(out[..|out| - 1], topic) + (if m.key.topic == topic then [m.pieces] else [])
  }

  /** The body before this one could not have taken its first series. */
  ghost predicate Needed(c: Config, topic: nat, bodies: seq<seq<Piece>>, i: nat)
    requires 0 < i < |bodies|
  {
    bodies[i] != [] && !Fits(c, topic, bodies[i - 1] + [bodies[i][0]])
  }

  ghost predicate Tight(c: Config, topic: nat, bodies: seq<seq<Piece>>) {
    forall i | 0 < i < |bodies| :: Needed(c, topic, bodies, i)
  }

  function WithOpen(sent: seq<seq<Piece>>, open: seq<Piece>): seq<seq<Piece>> {
    if open == [] then sent else sent + [open]
  }

  ghost predicate AllTight(c: Config, out: seq<Message>, bodies: seq<seq<Piece>>) {
    forall t: nat | t < |bodies| :: Tight(c, t, WithOpen(BodiesOf(out, t), bodies[t]))
  }

  /** Nothing was published of a topic whose body is empty. */
  ghost predicate Begun(out: seq<Message>, bodies: seq<seq<Piece>>) {
    forall t: nat | t < |bodies| && bodies[t] == [] :: BodiesOf(out, t) == []
  }

  lemma BodiesAppend(out: seq<Message>, m: Message, topic: nat)
    ensures BodiesOf(out + [m], topic) == BodiesOf(out, topic) + (if m.key.topic == topic then [m.pieces] else [])
  {
    assert (out + [m])[..|out + [m]| - 1] == out;
  }

  lemma PublishTight(c: Config, out: seq<Message>, bodies: seq<seq<Piece>>, m: Message)
    requires AllTight(c, out, bodies) && m.key.topic < |bodies| && m.pieces == bodies[m.key.topic] != []
    ensures AllTight(c, out + [m], bodies[m.key.topic := []])
    ensures BodiesOf(out + [m], m.key.topic) == BodiesOf(out, m.key.topic) + [m.pieces]
    ensures forall t: nat | t != m.key.topic :: BodiesOf(out + [m], t) == BodiesOf(out, t)
  {
    hide Tight, BodiesOf;
    forall t: nat
      ensures BodiesOf(out + [m], t) == BodiesOf(out, t) + (if m.key.topic == t then [m.pieces] else [])
    {
      BodiesAppend(out, m, t);
    }
    forall t: nat | t < |bodies|
      ensures WithOpen(BodiesOf(out + [m], t), bodies[m.key.topic := []][t]) == WithOpen(BodiesOf(out, t), bodies[t])
    {
    }
    forall t: nat | t < |bodies|
      ensures Tight(c, t, WithOpen(BodiesOf(out + [m], t), bodies[m.key.topic := []][t]))
    {
      assert Tight(c, t, WithOpen(BodiesOf(out, t), bodies[t]));
    }
  }

  lemma TightNew(c: Config, topic: nat, bodies: seq<seq<Piece>>, piece: Piece)
    requires Tight(c, topic, bodies) && (bodies != [] ==> !Fits(c, topic, bodies[|bodies| - 1] + [piece]))
    ensures Tight(c, topic, bodies + [[piece]])
  {
    hide Fits;
    var more := bodies + [[piece]];
    forall i | 0 < i < |more|
      ensures Needed(c, topic, more, i)
    {
      assert i < |bodies| ==> Needed(c, topic, bodies, i);
    }
  }

  lemma TightGrow(c: Config, topic: nat, sent: seq<seq<Piece>>, body: seq<Piece>, piece: Piece)
    requires Tight(c, topic, sent + [body]) && body != []
    ensures Tight(c, topic, sent + [body + [piece]])
  {
    hide Fits;
    var was, more := sent + [body], sent + [body + [piece]];
    forall i | 0 < i < |more|
      ensures Needed(c, topic, more, i)
    {
      assert Needed(c, topic, was, i) && more[i - 1] == was[i - 1] && more[i][0] == was[i][0];
    }
  }

  /** One series more, on its body or, when that is full, on one of its own. */
  lemma AddTight(c: Config, was: seq<Message>, before: seq<seq<Piece>>, out: seq<Message>, bodies: seq<seq<Piece>>,
      x: Series, m: Message)
    requires AllTight(c, was, before) && Begun(was, before) && x.topic < |before|
    requires if Overflows(c, x.topic, before[x.topic], x.piece) then
               && m.key.topic == x.topic && m.pieces == before[x.topic] && out == was + [m]
               && bodies == before[x.topic := [x.piece]]
             else out == was && bodies == before[x.topic := before[x.topic] + [x.piece]]
    ensures AllTight(c, out, bodies) && Begun(out, bodies)
  {
    hide BodiesOf;
    var topic := x.topic;
    var body := before[topic];
    assert Overflows(c, topic, body, x.piece) <==> !Fits(c, topic, body + [x.piece]) by {
      assert (body + [x.piece])[..|body + [x.piece]| - 1] == body;
    }
    FullIsNotEmpty(c, topic, body, x.piece);
    hide Fits, Overflows;
    assert Tight(c, topic, WithOpen(BodiesOf(was, topic), body));
    var sent := BodiesOf(was, topic);
    if Overflows(c, topic, body, x.piece) {
      PublishTight(c, was, before, m);
      TightNew(c, topic, sent + [body], x.piece);
    } else if body == [] {
      assert sent == [] && body + [x.piece] == [x.piece];
    } else {
      TightGrow(c, topic, sent, body, x.piece);
    }
    forall t: nat | t < |bodies|
      ensures Tight(c, t, WithOpen(BodiesOf(out, t), bodies[t]))
    {
      assert Tight(c, t, WithOpen(BodiesOf(was, t), before[t]));
      if t != topic {
        assert WithOpen(BodiesOf(out, t), bodies[t]) == WithOpen(BodiesOf(was, t), before[t]);
      }
    }
  }

  /**
   * Every series is in one message of its topic, in order, each message within the budget and none ended before the
   * budget ended it.
   */
  method Pack(c: Config, every: int, wall: int, series: seq<Series>) returns (out: seq<Message>)
    requires forall x | x in series :: x.topic < |c.groupBytes|
    ensures forall m | m in out :: Proper(c, every, wall, m)
    ensures forall t: nat | t < |c.groupBytes| :: Carried(out, t) == Of(series, t)
    ensures forall t: nat | t < |c.groupBytes| :: Tight(c, t, BodiesOf(out, t))
  {
    hide Carried, Of, Fits, Overflows, BodiesOf, Tight;
    var bodies := seq(|c.groupBytes|, _ => []);
    out := [];
    NothingPacked(c);
    for i := 0 to |series|
      invariant forall m | m in out :: Proper(c, every, wall, m)
      invariant Packed(c, series[..i], out, bodies) && AllTight(c, out, bodies) && Begun(out, bodies)
    {
      var x := series[i];
      assert x in series && series[..i + 1] == series[..i] + [x];
      ghost var was, before := out, bodies;
      var body := bodies[x.topic];
      var m := Message(GroupKey(x.topic, BySample(every)), wall, body);
      if Overflows(c, x.topic, body, x.piece) {
        FullIsNotEmpty(c, x.topic, body, x.piece);
        PublishKeeps(c, series[..i], out, bodies, m);
        out := out + [m];
        bodies := bodies[x.topic := []];
      }
      AddKeeps(c, series[..i], out, bodies, x);
      bodies := bodies[x.topic := bodies[x.topic] + [x.piece]];
      assert [] + [x.piece] == [x.piece];
      AddTight(c, was, before, out, bodies, x, m);
    }
    assert series[..|series|] == series;
    for t := 0 to |bodies|
      invariant forall m | m in out :: Proper(c, every, wall, m)
      invariant Packed(c, series, out, bodies) && forall u | 0 <= u < t :: bodies[u] == []
      invariant AllTight(c, out, bodies)
    {
      if bodies[t] != [] {
        var m := Message(GroupKey(t, BySample(every)), wall, bodies[t]);
        PublishKeeps(c, series, out, bodies, m);
        PublishTight(c, out, bodies, m);
        out := out + [m];
        bodies := bodies[t := []];
      }
    }
    assert forall t: nat | t < |bodies| :: WithOpen(BodiesOf(out, t), bodies[t]) == BodiesOf(out, t);
  }

  lemma NothingPacked(c: Config)
    ensures var bodies := seq(|c.groupBytes|, _ => []);
            Packed(c, [], [], bodies) && AllTight(c, [], bodies) && Begun([], bodies)
  {
  }

  lemma FullIsNotEmpty(c: Config, topic: nat, body: seq<Piece>, piece: Piece)
    ensures Overflows(c, topic, body, piece) ==> body != []
    ensures !Overflows(c, topic, [], piece)
  {
  }
}
