/**
 * What the BER decoder accepts and what it makes of it, minimal or not: which octets are an element,
 * and which number, object identifier or octets a value stands for, tag by tag.
 */
module BerValues {
  import opened Ber

  // ---- elements ----

  /** These octets spell the length `n`: in one octet, or in up to four after the one that counts them. */
  predicate SpellsLength(octets: seq<byte>, n: nat) {
    || (|octets| == 1 && octets[0] < 0x80 && n == octets[0])
    || (2 <= |octets| <= 5 && octets[0] == 0x80 + (|octets| - 1) && n == FromBytes(octets[1..]))
  }

  /**
   * An element is accepted exactly if it has a single-octet tag, length octets that spell the length of its
   * content, minimal or not, and all of its content.
   */
  lemma ElementExactly(buf: seq<byte>, pos: nat, end: nat, e: Element)
    requires end <= |buf|
    ensures DecElement(buf, pos, end) == Ok(e) <==>
            && pos + 1 < e.start <= e.end <= end && e.tag == buf[pos] && e.tag % 32 != 31
            && SpellsLength(buf[pos + 1..e.start], e.end - e.start)
  {
    hide FromBytes;
    if pos + 1 < end {
      var first := buf[pos + 1];
      if first >= 0x80 && pos + 2 + (first - 0x80) <= end {
        assert buf[pos + 1..pos + 2 + (first - 0x80)][1..] == buf[pos + 2..pos + 2 + (first - 0x80)];
      }
      if pos + 1 < e.start <= e.end <= end {
        assert buf[pos + 1..e.start][0] == first && buf[pos + 1..e.start][1..] == buf[pos + 2..e.start];
      }
    }
  }

  // ---- numbers ----

  /** The first octet counts most. */
  lemma {:induction false} HighestFirst(c: seq<byte>)
    requires c != []
    ensures FromBytes(c) == c[0] * Pow256(|c| - 1) + FromBytes(c[1..])
    decreases |c|
  {
    if |c| == 1 {
      assert c[..0] == [] && c[1..] == [];
      assert FromBytes(c) == 256 * FromBytes(c[..0]) + c[0];
    } else {
      var front := c[..|c| - 1];
      HighestFirst(front);
      assert c[1..][..|c| - 2] == front[1..];
      assert FromBytes(c) == 256 * (c[0] * Pow256(|c| - 2) + FromBytes(front[1..])) + c[|c| - 1];
      assert 256 * (c[0] * Pow256(|c| - 2)) == c[0] * Pow256(|c| - 1);
    }
  }

  // ---- object identifiers ----

  /** The number the low seven bits of these octets continue `v` to. */
  function Septets(v: nat, octets: seq<byte>): nat
    decreases |octets|
  {
    if octets == [] then v else Septets(v * 128 + octets[0] % 128, octets[1..])
  }

  /** The first `k` octets are one subidentifier: all but the last have their top bit set. */
  predicate Group(c: seq<byte>, k: nat) {
    0 < k <= |c| && c[k - 1] < 128 && forall i | 0 <= i < k - 1 :: c[i] >= 128
  }

  /** The octets are the subidentifiers one after the other, each in as many octets as it may take. */
  ghost predicate Spells(c: seq<byte>, subs: seq<nat>)
    decreases |c|
  {
    if c == [] then subs == []
    else subs != [] && exists k: nat | Group(c, k) :: Septets(0, c[..k]) == subs[0] && Spells(c[k..], subs[1..])
  }

  lemma {:induction false} SeptetsGrow(v: nat, octets: seq<byte>)
    ensures Septets(v, octets) >= v
    decreases |octets|
  {
    if octets != [] {
      SeptetsGrow(v * 128 + octets[0] % 128, octets[1..]);
    }
  }

  lemma {:induction false} GroupDecodes(c: seq<byte>, k: nat, r: Reading)
    requires Group(c, k)
    ensures var v := Septets(r.v, c[..k]);
            DecSubs(c, r) == if v > U32 then Err(ArcOverflow) else DecSubs(c[k..], Reading(r.subs + [v], 0, false))
    decreases k
  {
    var v := r.v * 128 + c[0] % 128;
    assert c[..k][0] == c[0] && c[..k][1..] == c[1..][..k - 1];
    SeptetsGrow(v, c[1..][..k - 1]);
    if k > 1 {
      assert c[1..][k - 2] == c[k - 1] && c[1..][k - 1..] == c[k..];
      GroupDecodes(c[1..], k - 1, Reading(r.subs, v, true));
    } else {
      assert c[1..][..0] == [];
    }
  }

  /** A subidentifier without its last octet is not decoded. */
  lemma {:induction false} UnfinishedGroup(c: seq<byte>, r: Reading)
    requires c != [] && forall i | 0 <= i < |c| :: c[i] >= 128
    ensures DecSubs(c, r).Ok? ==> DecSubs(c, r).value.more
    decreases |c|
  {
    var v := r.v * 128 + c[0] % 128;
    if |c| > 1 {
      assert forall i | 0 <= i < |c| - 1 :: c[1..][i] == c[i + 1];
      UnfinishedGroup(c[1..], Reading(r.subs, v, true));
    }
  }

  lemma {:induction false} SpelledDecodes(c: seq<byte>, done: seq<nat>, subs: seq<nat>)
    requires Spells(c, subs) && forall s | s in subs :: s <= U32
    ensures DecSubs(c, Reading(done, 0, false)) == Ok(Reading(done + subs, 0, false))
    decreases |c|
  {
    if c == [] {
      assert done + subs == done;
    } else {
      var k: nat :| Group(c, k) && Septets(0, c[..k]) == subs[0] && Spells(c[k..], subs[1..]);
      GroupDecodes(c, k, Reading(done, 0, false));
      assert subs[0] in subs && forall s | s in subs[1..] :: s in subs;
      SpelledDecodes(c[k..], done + [subs[0]], subs[1..]);
      assert done + [subs[0]] + subs[1..] == done + subs;
    }
  }

  lemma FirstGroup(c: seq<byte>) returns (k: nat)
    requires c != []
    ensures Group(c, k) || (k == 0 && forall i | 0 <= i < |c| :: c[i] >= 128)
  {
    k := 0;
    while k < |c| && c[k] >= 128
      invariant k <= |c| && forall i | 0 <= i < k :: c[i] >= 128
    {
      k := k + 1;
    }
    k := if k < |c| then k + 1 else 0;
  }

  lemma {:induction false} DecodedSpells(c: seq<byte>, done: seq<nat>) returns (subs: seq<nat>)
    requires var r := DecSubs(c, Reading(done, 0, false)); r.Ok? && !r.value.more
    ensures Spells(c, subs) && DecSubs(c, Reading(done, 0, false)) == Ok(Reading(done + subs, 0, false))
    ensures forall s | s in subs :: s <= U32
    decreases |c|
  {
    if c == [] {
      subs := [];
      assert done + subs == done;
    } else {
      var k := FirstGroup(c);
      if k == 0 {
        UnfinishedGroup(c, Reading(done, 0, false));
        assert false;
      } else {
        GroupDecodes(c, k, Reading(done, 0, false));
        var v := Septets(0, c[..k]);
        var rest := DecodedSpells(c[k..], done + [v]);
        subs := [v] + rest;
        assert subs[1..] == rest && done + [v] + rest == done + subs;
      }
    }
  }

  lemma {:induction false} OnlyOverflow(c: seq<byte>, r: Reading)
    ensures DecSubs(c, r).Ok? || DecSubs(c, r) == Err(ArcOverflow)
    decreases |c|
  {
    if c != [] {
      var v := r.v * 128 + c[0] % 128;
      OnlyOverflow(c[1..], if c[0] >= 128 then Reading(r.subs, v, true) else Reading(r.subs + [v], 0, false));
    }
  }

  /**
   * An object identifier is accepted exactly if its octets spell its subidentifiers, the first of them both
   * first arcs, each in as many octets as it may take.
   */
  lemma DecOidExactly(c: seq<byte>, arcs: seq<nat>)
    ensures DecOid(c) == Ok(arcs) <==> ValidOid(arcs) && Spells(c, SubsOf(arcs))
    ensures DecOid(c) == Err(EmptyOid) <==> c == []
  {
    if DecOid(c) == Ok(arcs) {
      DecOidIsValid(c);
      var subs := DecodedSpells(c, []);
      assert [] + subs == subs;
      assert SubsOf(arcs) == subs by { assert arcs[2..] == subs[1..]; }
    }
    OnlyOverflow(c, Reading([], 0, false));
    if ValidOid(arcs) && Spells(c, SubsOf(arcs)) {
      var subs := SubsOf(arcs);
      forall s | s in subs
        ensures s <= U32
      {
        var i :| 0 <= i < |subs| && subs[i] == s;
        assert i > 0 ==> subs[i] == arcs[i + 1];
      }
      SpelledDecodes(c, [], subs);
      assert [] + subs == subs && subs[1..] == arcs[2..] && [arcs[0], arcs[1]] + arcs[2..] == arcs;
    }
  }

  // ---- values ----

  /** The number `c` holds as an unsigned one of at most `octets` octets, within the limit. */
  predicate UnsignedIs(c: seq<byte>, octets: nat, limit: int, n: int) {
    1 <= |c| <= octets && n == FromBytes(c) && n <= limit
  }

  /** The number `c` holds in two's complement. */
  predicate SignedIs(c: seq<byte>, n: int) {
    1 <= |c| <= 8 && n == FromBytes(c) - if c[0] >= 128 then Pow256(|c|) else 0
  }

  /** What the content octets mean under a tag, if anything. */
  ghost predicate Means(tag: byte, c: seq<byte>, m: Meaning) {
    if tag == 0x02 then m.Integer? && SignedIs(c, m.n)
    else if tag in {0x41, 0x42, 0x43} then m.Integer? && UnsignedIs(c, 5, 0xFFFF_FFFF, m.n)
    else if tag == 0x46 then m.Integer? && UnsignedIs(c, 9, 0xFFFF_FFFF_FFFF_FFFF, m.n)
    else if tag == 0x06 then m.Oid? && ValidOid(m.arcs) && Spells(c, SubsOf(m.arcs))
    else if tag == 0x40 then m == Octets(c) && |c| == 4
    else if tag in {0x04, 0x44} then m == Octets(c)
    else m == Nothing
  }

  /** A value is accepted exactly if its octets mean something under its tag, and that is its meaning. */
  lemma MeaningExactly(tag: byte, c: seq<byte>, m: Meaning)
    ensures var r := DecValue(tag, c); r.Ok? && r.value.meaning == m <==> Means(tag, c, m)
    ensures var r := DecValue(tag, c); r.Ok? && r.value.meaning.Nothing? ==>
              r.value.kind == if tag == 0x05 then KNull else KOther
    ensures var r := DecValue(tag, c); r.Ok? && r.value.meaning.Octets? ==>
              r.value.kind == if tag == 0x40 then KIpAddress else if tag == 0x44 then KOpaque else KOctets
  {
    hide FromBytes, Spells, EncIntContent, EncUnsignedContent, EncOidContent, DecOid, Pow256, ValidOid;
    if m.Oid? {
      DecOidExactly(c, m.arcs);
    }
    if DecOid(c).Ok? {
      DecOidExactly(c, DecOid(c).value);
    }
  }

  /** No content octets of an unsigned number whose top bit is clear are fewer than the encoder's. */
  lemma UnsignedIsMinimal(c: seq<byte>)
    requires c != [] && c[0] < 128
    ensures var raw := EncUnsignedContent(FromBytes(c)); 0 < |raw| <= |c| && raw[0] < 128
  {
    var v := FromBytes(c);
    var n := if v == 0 then 1 else ByteLength(v);
    ByteLengthIs(v);
    FromBytesBounded(c);
    ByteLengthWithin(v, |c|);
    TopByte(c);
    TopBit(v, n);
    if n == |c| {
      assert ToBytes(v, n)[0] < 128;
    }
  }

  /**
   * However many octets a value is given in, its canonical octets have the same meaning: numbers take no more
   * of them than they came in (an unsigned one with its top bit clear), and what is not a number or an object
   * identifier stays as it was received.
   */
  lemma CanonicalExactly(tag: byte, c: seq<byte>)
    requires DecValue(tag, c).Ok?
    ensures var v := DecValue(tag, c).value;
            && Means(tag, v.raw, v.meaning)
            && (v.meaning.Integer? && (tag == 0x02 || c[0] < 128) ==> |v.raw| <= |c|)
            && (v.meaning.Octets? || v.meaning.Nothing? ==> v.raw == c)
  {
    var v := DecValue(tag, c).value;
    CanonicalIsStable(tag, c);
    MeaningExactly(tag, v.raw, v.meaning);
    hide FromBytes, Means, EncIntContent, EncUnsignedContent, DecOid, EncOidContent;
    if v.meaning.Integer? {
      if tag == 0x02 {
        IntIsMinimal(c);
      } else if c[0] < 128 {
        UnsignedIsMinimal(c);
      }
    }
  }
}
