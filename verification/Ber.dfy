/**
 * The BER codec behind the SNMP trap vectors: tag-length-value elements, integers and object
 * identifiers (clauses 8.1.3, 8.3 and 8.19 of ITU-T X.690), and the canonical form of a value.
 */
module Ber {
  type byte = b: int | 0 <= b < 256

  datatype Result<+T> = Ok(value: T) | Err(error: Error)
  datatype Error =
    | Truncated | MultiOctetTag | IndefiniteLength | LengthTooLong | IntegerLength
    | UnsignedLength | UnsignedOverflow | EmptyOid | ArcOverflow | TruncatedOid | TooManyArcs | IpAddressLength

  const U32: int := 0xFFFF_FFFF
  const U64: int := 0xFFFF_FFFF_FFFF_FFFF
  const MAX_ARCS := 128

  // ---- big-endian numbers ----

  function Pow256(n: nat): (p: int)
    ensures p >= 1
  {
    if n == 0 then 1 else 256 * Pow256(n - 1)
  }

  /** The number these octets spell, the highest first. */
  function FromBytes(b: seq<byte>): (v: nat) {
    if b == [] then 0 else 256 * FromBytes(b[..|b| - 1]) + b[|b| - 1]
  }

  /** The low `n` octets of `v`, the highest first. */
  function ToBytes(v: nat, n: nat): (b: seq<byte>)
    ensures |b| == n
  {
    if n == 0 then [] else ToBytes(v / 256, n - 1) + [v % 256]
  }

  /** How many octets a number needs. */
  function ByteLength(v: nat): nat {
    if v == 0 then 0 else 1 + ByteLength(v / 256)
  }

  lemma {:induction false} FromToBytes(v: nat, n: nat)
    requires v < Pow256(n)
    ensures FromBytes(ToBytes(v, n)) == v
    decreases n
  {
    if n > 0 {
      FromToBytes(v / 256, n - 1);
      assert ToBytes(v, n)[..n - 1] == ToBytes(v / 256, n - 1);
    }
  }

  lemma {:induction false} FromBytesBounded(b: seq<byte>)
    ensures FromBytes(b) < Pow256(|b|)
    decreases |b|
  {
    if b != [] {
      FromBytesBounded(b[..|b| - 1]);
    }
  }

  lemma {:induction false} ByteLengthIs(v: nat)
    ensures v < Pow256(ByteLength(v)) && (v > 0 ==> Pow256(ByteLength(v) - 1) <= v)
    decreases v
  {
    if v > 0 {
      ByteLengthIs(v / 256);
    }
  }

  lemma {:induction false} ByteLengthWithin(v: nat, n: nat)
    requires v < Pow256(n)
    ensures ByteLength(v) <= n
    decreases n
  {
    if v > 0 {
      ByteLengthWithin(v / 256, n - 1);
    }
  }

  lemma Powers()
    ensures Pow256(4) == U32 + 1 && Pow256(8) == U64 + 1 && Pow256(1) == 256
  {
    assert Pow256(1) == 256 && Pow256(2) == 0x1_0000 && Pow256(3) == 0x100_0000;
    assert Pow256(4) == 0x1_0000_0000 && Pow256(5) == 0x100_0000_0000 && Pow256(6) == 0x1_0000_0000_0000;
    assert Pow256(7) == 0x100_0000_0000_0000 && Pow256(8) == 0x1_0000_0000_0000_0000;
  }

  /** The leading byte has its top bit set exactly from half the range up. */
  lemma {:induction false} TopBit(v: nat, n: nat)
    requires 0 < n && v < Pow256(n)
    ensures ToBytes(v, n)[0] >= 128 <==> v >= 128 * Pow256(n - 1)
    decreases n
  {
    if n == 1 {
      assert ToBytes(v, 1) == ToBytes(v / 256, 0) + [v % 256];
    } else {
      TopBit(v / 256, n - 1);
      assert ToBytes(v, n)[0] == ToBytes(v / 256, n - 1)[0];
    }
  }

  // ---- elements ----

  /** The tag, and where the content starts and ends. */
  datatype Element = Element(tag: byte, start: nat, end: nat)

  function DecElement(buf: seq<byte>, pos: nat, end: nat): (r: Result<Element>)
    requires end <= |buf|
    ensures r.Ok? ==> pos < r.value.start <= r.value.end <= end && r.value.tag == buf[pos]
  {
    if pos >= end then Err(Truncated)
    else if buf[pos] % 32 == 31 then Err(MultiOctetTag)
    else if pos + 1 >= end then Err(Truncated)
    else
      var first := buf[pos + 1];
      if first < 0x80 then
        if first > end - (pos + 2) then Err(Truncated) else Ok(Element(buf[pos], pos + 2, pos + 2 + first))
      else if first == 0x80 then Err(IndefiniteLength)
      else
        var n := first - 0x80;
        if n > 4 then Err(LengthTooLong)
        else if pos + 2 + n > end then Err(Truncated)
        else
          var length, start := FromBytes(buf[pos + 2..pos + 2 + n]), pos + 2 + n;
          if length > end - start then Err(Truncated) else Ok(Element(buf[pos], start, start + length))
  }

  /** The length octets: the length itself when short, else how many octets it takes and those. */
  function EncLen(n: nat): (b: seq<byte>)
    requires ByteLength(n) <= 127
    ensures b != []
  {
    if n < 0x80 then [n] else [0x80 + ByteLength(n)] + ToBytes(n, ByteLength(n))
  }

  function Tlv(tag: byte, content: seq<byte>): seq<byte>
    requires ByteLength(|content|) <= 127
  {
    [tag] + EncLen(|content|) + content
  }

  /**
   * An element among any other bytes decodes to its tag and content, wherever it stands; one with a
   * multi-octet tag, or with 2^32 octets or more, is refused.
   */
  lemma ElementOfTlv(before: seq<byte>, tag: byte, content: seq<byte>, after: seq<byte>, end: nat)
    requires ByteLength(|content|) <= 127
    requires |before| + |Tlv(tag, content)| <= end <= |before + Tlv(tag, content) + after|
    ensures var buf := before + Tlv(tag, content) + after;
            var r := DecElement(buf, |before|, end);
            if tag % 32 == 31 then r == Err(MultiOctetTag)
            else if |content| > U32 then r == Err(LengthTooLong)
            else r.Ok? && r.value.tag == tag && buf[r.value.start..r.value.end] == content
                 && r.value.end == |before| + |Tlv(tag, content)|
  {
    hide EncLen, DecElement;
    Parts(before, tag, EncLen(|content|), content, after);
    ReadHeader(before + Tlv(tag, content) + after, |before|, end, |content|);
  }

  lemma Parts(before: seq<byte>, tag: byte, length: seq<byte>, content: seq<byte>, after: seq<byte>)
    ensures var buf, start := before + ([tag] + length + content) + after, |before| + 1 + |length|;
            && |buf| == start + |content| + |after|
            && buf[|before|] == tag && buf[|before| + 1..start] == length && buf[start..start + |content|] == content
  {
  }

  /** The tag and length octets of an element that is all there. */
  lemma ReadHeader(buf: seq<byte>, pos: nat, end: nat, n: nat)
    requires ByteLength(n) <= 127 && pos + 1 + |EncLen(n)| + n <= end <= |buf|
    requires buf[pos + 1..pos + 1 + |EncLen(n)|] == EncLen(n)
    ensures DecElement(buf, pos, end) ==
            if buf[pos] % 32 == 31 then Err(MultiOctetTag)
            else if n > U32 then Err(LengthTooLong)
            else Ok(Element(buf[pos], pos + 1 + |EncLen(n)|, pos + 1 + |EncLen(n)| + n))
  {
    hide FromBytes, ToBytes, ByteLength;
    var length := EncLen(n);
    assert buf[pos + 1] == length[0];
    if n >= 0x80 {
      LongLength(n);
      assert buf[pos + 2..pos + 2 + ByteLength(n)] == length[1..];
    }
  }

  lemma LongLength(n: nat)
    requires n >= 0x80
    ensures FromBytes(ToBytes(n, ByteLength(n))) == n && ByteLength(n) > 0 && (n <= U32 <==> ByteLength(n) <= 4)
  {
    ByteLengthIs(n);
    FromToBytes(n, ByteLength(n));
    if n <= U32 {
      Powers();
      ByteLengthWithin(n, 4);
    } else {
      MoreThanFour(n);
    }
  }

  lemma MoreThanFour(n: nat)
    requires n > U32
    ensures ByteLength(n) > 4
  {
    ByteLengthIs(n);
    Powers();
    if ByteLength(n) <= 4 {
      PowMonotone(ByteLength(n), 4);
    }
  }

  lemma {:induction false} PowMonotone(a: nat, b: nat)
    requires a <= b
    ensures Pow256(a) <= Pow256(b)
    decreases b
  {
    if a < b {
      PowMonotone(a, b - 1);
    }
  }

  // ---- integers ----

  function DecInt(c: seq<byte>): Result<int> {
    if !(1 <= |c| <= 8) then Err(IntegerLength)
    else Ok(if c[0] >= 128 then FromBytes(c) - Pow256(|c|) else FromBytes(c))
  }

  /** Whether `n` octets hold `v` in two's complement. */
  predicate Holds(v: int, n: nat)
    requires n > 0
  {
    -128 * Pow256(n - 1) <= v < 128 * Pow256(n - 1)
  }

  /** The same in two's complement. */
  function SignedBytes(v: int, n: nat): seq<byte>
    requires n > 0 && Holds(v, n)
  {
    ToBytes(if v < 0 then v + Pow256(n) else v, n)
  }

  /** The loop that widens an encoding until the value fits in it. */
  method EncInt(v: int) returns (c: seq<byte>)
    ensures |c| > 0 && Holds(v, |c|) && c == SignedBytes(v, |c|)
    ensures forall n | 0 < n < |c| :: !Holds(v, n)
    ensures c == EncIntFrom(v, 1)
  {
    var n := 1;
    while !Holds(v, n)
      invariant n > 0 && (forall k | 0 < k < n :: !Holds(v, k)) && EncIntFrom(v, n) == EncIntFrom(v, 1)
      decreases Size(v) - n
    {
      SizeHolds(v, n);
      n := n + 1;
    }
    c := SignedBytes(v, n);
  }

  /** A bound on the octets `v` needs. */
  function Size(v: int): nat {
    1 + ByteLength(if v < 0 then -v else v)
  }

  lemma SizeHolds(v: int, n: nat)
    requires n > 0 && !Holds(v, n)
    ensures n < Size(v)
  {
    var a := if v < 0 then -v else v;
    ByteLengthIs(a);
    if n >= Size(v) {
      PowMonotone(ByteLength(a), n - 1);
    }
  }

  function EncIntFrom(v: int, n: nat): (c: seq<byte>)
    requires n > 0
    decreases Size(v) - n
  {
    if Holds(v, n) then SignedBytes(v, n) else SizeHolds(v, n); EncIntFrom(v, n + 1)
  }

  function EncIntContent(v: int): seq<byte> {
    EncIntFrom(v, 1)
  }

  lemma {:induction false} EncIntFits(v: int, n: nat, max: nat)
    requires 0 < n <= max && Holds(v, max)
    ensures 0 < |EncIntFrom(v, n)| <= max && Holds(v, |EncIntFrom(v, n)|)
            && EncIntFrom(v, n) == SignedBytes(v, |EncIntFrom(v, n)|)
    decreases max - n
  {
    if !Holds(v, n) {
      EncIntFits(v, n + 1, max);
    }
  }

  lemma SignedRoundTrip(v: int, n: nat)
    requires 0 < n <= 8 && Holds(v, n)
    ensures DecInt(SignedBytes(v, n)) == Ok(v)
  {
    var u := if v < 0 then v + Pow256(n) else v;
    assert 0 <= u < Pow256(n);
    FromToBytes(u, n);
    TopBit(u, n);
  }

  /** Every 64-bit integer survives encoding and decoding. */
  lemma IntRoundTrip(v: int)
    requires -0x8000_0000_0000_0000 <= v < 0x8000_0000_0000_0000
    ensures DecInt(EncIntContent(v)) == Ok(v) && |EncIntContent(v)| <= 8
  {
    Powers();
    assert Pow256(8) == 256 * Pow256(7);
    EncIntFits(v, 1, 8);
    SignedRoundTrip(v, |EncIntContent(v)|);
  }

  lemma DecIntInRange(c: seq<byte>)
    requires DecInt(c).Ok?
    ensures Holds(DecInt(c).value, |c|) && -0x8000_0000_0000_0000 <= DecInt(c).value < 0x8000_0000_0000_0000
  {
    FromBytesBounded(c);
    TopByte(c);
    Powers();
    assert Pow256(8) == 256 * Pow256(7) && Pow256(|c|) == 256 * Pow256(|c| - 1);
    PowMonotone(|c| - 1, 7);
  }

  lemma {:induction false} TopByte(c: seq<byte>)
    requires c != []
    ensures c[0] >= 128 <==> FromBytes(c) >= 128 * Pow256(|c| - 1)
    decreases |c|
  {
    if |c| == 1 {
      assert c[..0] == [];
      assert FromBytes(c) == 256 * FromBytes(c[..0]) + c[0];
    } else {
      TopByte(c[..|c| - 1]);
    }
  }

  /** No encoding of an integer is shorter than the canonical one. */
  lemma IntIsMinimal(c: seq<byte>)
    requires DecInt(c).Ok?
    ensures |EncIntContent(DecInt(c).value)| <= |c|
  {
    DecIntInRange(c);
    EncIntFits(DecInt(c).value, 1, |c|);
  }

  // ---- unsigned numbers ----

  function DecUnsigned(c: seq<byte>, maxLen: nat, limit: int): Result<nat> {
    if !(1 <= |c| <= maxLen) then Err(UnsignedLength)
    else if FromBytes(c) > limit then Err(UnsignedOverflow)
    else Ok(FromBytes(c))
  }

  /** Minimal content octets, with a leading zero when the top bit is set. */
  function EncUnsignedContent(v: nat): seq<byte> {
    var b := ToBytes(v, if v == 0 then 1 else ByteLength(v));
    if b[0] < 0x80 then b else [0] + b
  }

  lemma {:induction false} LeadingZero(b: seq<byte>)
    ensures FromBytes([0] + b) == FromBytes(b)
    decreases |b|
  {
    if b == [] {
      assert [0] + b == [0];
      var z: seq<byte> := [0];
      assert z[..0] == [];
      assert FromBytes(z) == 256 * FromBytes(z[..0]) + 0;
    } else {
      var front := b[..|b| - 1];
      assert ([0] + b)[..|b|] == [0] + front;
      LeadingZero(front);
    }
  }

  lemma UnsignedRoundTrip(v: nat, octets: nat, limit: int)
    requires 0 < octets && limit == Pow256(octets) - 1 && v <= limit
    ensures DecUnsigned(EncUnsignedContent(v), octets + 1, limit) == Ok(v)
  {
    var n := if v == 0 then 1 else ByteLength(v);
    ByteLengthIs(v);
    ByteLengthWithin(v, octets);
    Powers();
    FromToBytes(v, n);
    LeadingZero(ToBytes(v, n));
  }

  // ---- object identifiers ----

  /** The octets of a subidentifier before its last. */
  function EncHigh(s: nat): seq<byte> {
    (if s < 128 then [] else EncHigh(s / 128)) + [128 + s % 128]
  }

  function EncSub(s: nat): seq<byte> {
    (if s < 128 then [] else EncHigh(s / 128)) + [s % 128]
  }

  function EncSubs(subs: seq<nat>): seq<byte> {
    if subs == [] then [] else EncSub(subs[0]) + EncSubs(subs[1..])
  }

  /** The subidentifiers read so far, the one being read, and whether it goes on. */
  datatype Reading = Reading(subs: seq<nat>, v: nat, more: bool)

  function DecSubs(c: seq<byte>, r: Reading): Result<Reading>
    decreases |c|
  {
    if c == [] then Ok(r)
    else
      var v := r.v * 128 + c[0] % 128;
      if v > U32 then Err(ArcOverflow)
      else DecSubs(c[1..], if c[0] >= 128 then Reading(r.subs, v, true) else Reading(r.subs + [v], 0, false))
  }

  function DecOid(c: seq<byte>): Result<seq<nat>> {
    if c == [] then Err(EmptyOid)
    else
      var r := DecSubs(c, Reading([], 0, false));
      if r.Err? then Err(r.error)
      else if r.value.more || r.value.subs == [] then Err(TruncatedOid)
      else
        var first := r.value.subs[0];
        var arcs := (if first < 40 then [0, first] else if first < 80 then [1, first - 40] else [2, first - 80])
            + r.value.subs[1..];
        if |arcs| > MAX_ARCS then Err(TooManyArcs) else Ok(arcs)
  }

  function SubsOf(arcs: seq<nat>): seq<nat>
    requires |arcs| >= 2
  {
    [arcs[0] * 40 + arcs[1]] + arcs[2..]
  }

  function EncOidContent(arcs: seq<nat>): seq<byte>
    requires |arcs| >= 2
  {
    EncSubs(SubsOf(arcs))
  }

  /** An object identifier the decoder can return: two arcs or more, each in its range. */
  predicate ValidOid(arcs: seq<nat>) {
    && 2 <= |arcs| <= MAX_ARCS && arcs[0] <= 2 && (arcs[0] < 2 ==> arcs[1] < 40) && arcs[0] * 40 + arcs[1] <= U32
    && forall i | 2 <= i < |arcs| :: arcs[i] <= U32
  }

  lemma {:induction false} DecHigh(s: nat, rest: seq<byte>, subs: seq<nat>)
    requires s <= U32
    ensures DecSubs(EncHigh(s) + rest, Reading(subs, 0, false)) == DecSubs(rest, Reading(subs, s, true))
    ensures DecSubs(EncHigh(s) + rest, Reading(subs, 0, true)) == DecSubs(rest, Reading(subs, s, true))
    decreases s
  {
    hide DecSubs;
    var last: seq<byte> := [128 + s % 128];
    if s >= 128 {
      DecHigh(s / 128, last + rest, subs);
      assert EncHigh(s) + rest == EncHigh(s / 128) + (last + rest);
      DecMore(s, rest, Reading(subs, s / 128, true));
    } else {
      assert EncHigh(s) + rest == last + rest;
      DecMore(s, rest, Reading(subs, 0, false));
      DecMore(s, rest, Reading(subs, 0, true));
    }
  }

  /** An octet that is not the last of its number adds its seven bits. */
  lemma DecMore(s: nat, rest: seq<byte>, r: Reading)
    requires s <= U32 && r.v == s / 128
    ensures DecSubs([128 + s % 128] + rest, r) == DecSubs(rest, Reading(r.subs, s, true))
  {
    var c: seq<byte> := [128 + s % 128] + rest;
    assert c[1..] == rest && c[0] % 128 == s % 128 && r.v * 128 + s % 128 == s;
  }

  lemma DecSub(s: nat, rest: seq<byte>, subs: seq<nat>)
    requires s <= U32
    ensures DecSubs(EncSub(s) + rest, Reading(subs, 0, false)) == DecSubs(rest, Reading(subs + [s], 0, false))
  {
    var last: seq<byte> := [s % 128];
    if s >= 128 {
      DecHigh(s / 128, last + rest, subs);
      assert EncSub(s) + rest == EncHigh(s / 128) + (last + rest);
    } else {
      assert EncSub(s) + rest == last + rest;
    }
    assert (last + rest)[1..] == rest;
  }

  lemma {:induction false} DecAllSubs(todo: seq<nat>, done: seq<nat>)
    requires forall s | s in todo :: s <= U32
    ensures DecSubs(EncSubs(todo), Reading(done, 0, false)) == Ok(Reading(done + todo, 0, false))
    decreases |todo|
  {
    if todo == [] {
      assert done + todo == done;
    } else {
      assert todo[0] in todo && forall s | s in todo[1..] :: s in todo;
      DecSub(todo[0], EncSubs(todo[1..]), done);
      DecAllSubs(todo[1..], done + [todo[0]]);
      assert done + [todo[0]] + todo[1..] == done + todo;
    }
  }

  /** Every object identifier of at most 128 arcs survives encoding and decoding. */
  lemma OidRoundTrip(arcs: seq<nat>)
    requires ValidOid(arcs)
    ensures DecOid(EncOidContent(arcs)) == Ok(arcs)
  {
    var subs := SubsOf(arcs);
    forall s | s in subs
      ensures s <= U32
    {
      var i :| 0 <= i < |subs| && subs[i] == s;
      assert i > 0 ==> subs[i] == arcs[i + 1];
    }
    DecAllSubs(subs, []);
    assert [] + subs == subs;
    assert EncSubs(subs) == EncSub(subs[0]) + EncSubs(subs[1..]);
    assert EncSubs(subs) != [];
    assert subs[1..] == arcs[2..] && [arcs[0], arcs[1]] + arcs[2..] == arcs;
  }

  lemma {:induction false} DecSubsBounded(c: seq<byte>, r: Reading)
    requires (forall s | s in r.subs :: s <= U32) && DecSubs(c, r).Ok?
    ensures forall s | s in DecSubs(c, r).value.subs :: s <= U32
    decreases |c|
  {
    if c != [] {
      var v := r.v * 128 + c[0] % 128;
      DecSubsBounded(c[1..], if c[0] >= 128 then Reading(r.subs, v, true) else Reading(r.subs + [v], 0, false));
    }
  }

  /** Whatever the decoder accepts is a valid object identifier. */
  lemma DecOidIsValid(c: seq<byte>)
    requires DecOid(c).Ok?
    ensures ValidOid(DecOid(c).value)
  {
    DecSubsBounded(c, Reading([], 0, false));
    var subs := DecSubs(c, Reading([], 0, false)).value.subs;
    assert subs[0] in subs;
    var arcs := DecOid(c).value;
    forall i | 2 <= i < |arcs|
      ensures arcs[i] <= U32
    {
      assert arcs[i] == subs[i - 1] && subs[i - 1] in subs;
    }
  }

  /** A subidentifier is cut from its low end, seven bits at a time, and reversed. */
  method EncodeSub(sub: nat) returns (out: seq<byte>)
    ensures out == EncSub(sub)
  {
    var chunk: seq<byte> := [sub % 128];
    var s: nat := sub / 128;
    assert Reversed(chunk) == chunk by { assert chunk[..0] == []; }
    while s > 0
      invariant (if s == 0 then [] else EncHigh(s)) + Reversed(chunk) == EncSub(sub)
    {
      ReversedSnoc(chunk, 128 + s % 128);
      HighStep(s, Reversed(chunk));
      chunk := chunk + [128 + s % 128];
      s := s / 128;
    }
    assert [] + Reversed(chunk) == Reversed(chunk);
    out := Reversed(chunk);
  }

  lemma HighStep(s: nat, tail: seq<byte>)
    requires s > 0
    ensures EncHigh(s) + tail == (if s / 128 == 0 then [] else EncHigh(s / 128)) + ([128 + s % 128] + tail)
  {
  }

  method EncodeOid(arcs: seq<nat>) returns (out: seq<byte>)
    requires |arcs| >= 2
    ensures out == EncOidContent(arcs)
  {
    hide EncSub;
    var subs := [arcs[0] * 40 + arcs[1]] + arcs[2..];
    out := [];
    for i := 0 to |subs|
      invariant out + EncSubs(subs[i..]) == EncSubs(subs)
    {
      var sub := EncodeSub(subs[i]);
      assert subs[i..][1..] == subs[i + 1..];
      assert out + (sub + EncSubs(subs[i + 1..])) == (out + sub) + EncSubs(subs[i + 1..]);
      out := out + sub;
    }
  }

  function Reversed(s: seq<byte>): seq<byte> {
    if s == [] then [] else [s[|s| - 1]] + Reversed(s[..|s| - 1])
  }

  lemma ReversedSnoc(s: seq<byte>, b: byte)
    ensures Reversed(s + [b]) == [b] + Reversed(s)
  {
    assert (s + [b])[..|s|] == s;
  }

  // ---- values ----

  datatype Kind = KInteger | KOctets | KNull | KOid | KIpAddress | KUnsigned32 | KOpaque | KCounter64 | KOther

  function KindOf(tag: byte): Kind {
    if tag == 0x02 then KInteger
    else if tag == 0x04 then KOctets
    else if tag == 0x05 then KNull
    else if tag == 0x06 then KOid
    else if tag == 0x40 then KIpAddress
    else if tag == 0x41 || tag == 0x42 || tag == 0x43 then KUnsigned32
    else if tag == 0x44 then KOpaque
    else if tag == 0x46 then KCounter64
    else KOther
  }

  datatype Meaning = Integer(n: int) | Oid(arcs: seq<nat>) | Octets(bytes: seq<byte>) | Nothing
  datatype Decoded = Decoded(kind: Kind, meaning: Meaning, raw: seq<byte>)

  /** The value and its canonical content octets. */
  function DecValue(tag: byte, c: seq<byte>): Result<Decoded> {
    var kind := KindOf(tag);
    match kind
    case KInteger =>
      var n := DecInt(c);
      if n.Err? then Err(n.error) else Ok(Decoded(kind, Integer(n.value), EncIntContent(n.value)))
    case KUnsigned32 =>
      var n := DecUnsigned(c, 5, U32);
      if n.Err? then Err(n.error) else Ok(Decoded(kind, Integer(n.value), EncUnsignedContent(n.value)))
    case KCounter64 =>
      var n := DecUnsigned(c, 9, U64);
      if n.Err? then Err(n.error) else Ok(Decoded(kind, Integer(n.value), EncUnsignedContent(n.value)))
    case KIpAddress => if |c| != 4 then Err(IpAddressLength) else Ok(Decoded(kind, Octets(c), c))
    case KOid =>
      var arcs := DecOid(c);
      if arcs.Err? then Err(arcs.error)
      else DecOidIsValid(c); Ok(Decoded(kind, Oid(arcs.value), EncOidContent(arcs.value)))
    case KOctets => Ok(Decoded(kind, Octets(c), c))
    case KOpaque => Ok(Decoded(kind, Octets(c), c))
    case _ => Ok(Decoded(kind, Nothing, c))
  }

  /**
   * Canonical octets are a fixed point: for every accepted content, minimal or not, decoding what it
   * was re-encoded as gives the same value and the same octets again.
   */
  lemma CanonicalIsStable(tag: byte, c: seq<byte>)
    requires DecValue(tag, c).Ok?
    ensures DecValue(tag, DecValue(tag, c).value.raw) == DecValue(tag, c)
  {
    hide DecOid, EncOidContent, EncIntContent, EncUnsignedContent, DecInt, DecUnsigned;
    match KindOf(tag)
    case KInteger =>
      DecIntInRange(c);
      IntRoundTrip(DecInt(c).value);
    case KUnsigned32 =>
      UnsignedInRange(c, 5, U32);
      UnsignedRoundTrip(DecUnsigned(c, 5, U32).value, 4, U32);
    case KCounter64 =>
      UnsignedInRange(c, 9, U64);
      UnsignedRoundTrip(DecUnsigned(c, 9, U64).value, 8, U64);
    case KOid =>
      DecOidIsValid(c);
      OidRoundTrip(DecOid(c).value);
    case _ =>
  }

  lemma UnsignedInRange(c: seq<byte>, maxLen: nat, limit: int)
    requires DecUnsigned(c, maxLen, limit).Ok?
    ensures DecUnsigned(c, maxLen, limit).value <= limit && U32 == Pow256(4) - 1 && U64 == Pow256(8) - 1
  {
    Powers();
  }
}
