/** Decoding an IBC v2 packet (devnet/lib/packet.js). Strings are held as their UTF-8 bytes. */
module Packet {
  import opened Wrappers
  import opened Hashing
  import opened Protobuf

  datatype Payload = Payload(sourcePort: Bytes, destPort: Bytes, version: Bytes, encoding: Bytes, value: Bytes)

  datatype Packet = Packet(sequence: nat, sourceClient: Bytes, destClient: Bytes, timeoutTimestamp: nat,
      payloads: seq<Payload>)

  const NO_PAYLOAD := Payload([], [], [], [], [])
  const NO_PACKET := Packet(0, [], [], 0, [])

  // ----- what fields mean. None stands for the exception on an unsupported wire type.

  function SetPayload(p: Payload, field: nat, b: Bytes): Payload {
    match field
    case 1 => p.(sourcePort := b)
    case 2 => p.(destPort := b)
    case 3 => p.(version := b)
    case 4 => p.(encoding := b)
    case 5 => p.(value := b)
    case _ => p
  }

  function PayloadField(p: Payload, f: Field): Payload {
    if f.Len? then SetPayload(p, f.num, f.bytes) else p
  }

  /** Of two fields with the same number the later wins; anything unknown is ignored. */
  function ApplyPayload(p: Payload, fs: seq<Field>): Payload
    decreases |fs|
  {
    if fs == [] then p else ApplyPayload(PayloadField(p, fs[0]), fs[1..])
  }

  function PayloadOf(buf: Bytes): Option<Payload> {
    match Tokens(buf, 0)
    case None => None
    case Some(fs) => Some(ApplyPayload(NO_PAYLOAD, fs))
  }

  function PacketField(p: Packet, f: Field): Option<Packet> {
    if f.Varint? && f.num == 1 then Some(p.(sequence := f.value))
    else if f.Varint? && f.num == 4 then Some(p.(timeoutTimestamp := f.value))
    else if f.Len? && f.num == 2 then Some(p.(sourceClient := f.bytes))
    else if f.Len? && f.num == 3 then Some(p.(destClient := f.bytes))
    else if f.Len? && f.num == 5 then
      match PayloadOf(f.bytes)
      case None => None
      case Some(x) => Some(p.(payloads := p.payloads + [x]))
    else Some(p)
  }

  function ApplyPacket(p: Packet, fs: seq<Field>): Option<Packet>
    decreases |fs|
  {
    if fs == [] then Some(p)
    else
      match PacketField(p, fs[0])
      case None => None
      case Some(q) => ApplyPacket(q, fs[1..])
  }

  function PacketOf(buf: Bytes): Option<Packet> {
    match Tokens(buf, 0)
    case None => None
    case Some(fs) => ApplyPacket(NO_PACKET, fs)
  }

  lemma {:induction false} ApplyPayloadConcat(p: Payload, a: seq<Field>, b: seq<Field>)
    ensures ApplyPayload(p, a + b) == ApplyPayload(ApplyPayload(p, a), b)
    decreases |a|
  {
    if a == [] {
      assert a + b == b;
    } else {
      assert (a + b)[1..] == a[1..] + b;
      ApplyPayloadConcat(PayloadField(p, a[0]), a[1..], b);
    }
  }

  lemma {:induction false} ApplyPacketConcat(p: Packet, a: seq<Field>, b: seq<Field>)
    ensures ApplyPacket(p, a + b) == match ApplyPacket(p, a) case None => None case Some(q) => ApplyPacket(q, b)
    decreases |a|
  {
    if a == [] {
      assert a + b == b;
    } else {
      assert (a + b)[1..] == a[1..] + b;
      var r := PacketField(p, a[0]);
      if r.Some? {
        ApplyPacketConcat(r.value, a[1..], b);
      }
    }
  }

  lemma OneField(p: Packet, fs: seq<Field>, q: Packet)
    requires |fs| <= 1 && (fs == [] ==> p == q) && (fs != [] ==> PacketField(p, fs[0]) == Some(q))
    ensures ApplyPacket(p, fs) == Some(q)
  {
    if fs != [] {
      assert fs[1..] == [];
    }
  }

  // ----- the decoders

  /** The loop of either decoder has read the fields `seen`, and the rest of the buffer is to come. */
  ghost predicate Reading(buf: Bytes, i: nat, seen: seq<Field>) {
    Tokens(buf, 0) == Prepend(seen, Tokens(buf, i))
  }

  lemma ReadStart(buf: Bytes)
    ensures Reading(buf, 0, [])
  {
    if Tokens(buf, 0).Some? {
      assert [] + Tokens(buf, 0).value == Tokens(buf, 0).value;
    }
  }

  lemma ReadOn(buf: Bytes, i: nat, seen: seq<Field>, f: Field, next: nat)
    requires Reading(buf, i, seen) && i < |buf| && TokenAt(buf, i) == Some(Read(f, next))
    ensures Reading(buf, next, seen + [f])
  {
    if Tokens(buf, next).Some? {
      assert seen + ([f] + Tokens(buf, next).value) == seen + [f] + Tokens(buf, next).value;
    }
  }

  lemma PayloadReadOn(seen: seq<Field>, p: Payload, f: Field)
    requires p == ApplyPayload(NO_PAYLOAD, seen)
    ensures ApplyPayload(NO_PAYLOAD, seen + [f]) == PayloadField(p, f)
  {
    ApplyPayloadConcat(NO_PAYLOAD, seen, [f]);
    assert [f][1..] == [];
  }

  /** Ends on every byte string, truncated ones included. */
  method DecodePayload(buf: Bytes) returns (r: Option<Payload>)
    ensures r == PayloadOf(buf)
  {
    var reader := new Reader(buf);
    var p := NO_PAYLOAD;
    ghost var seen: seq<Field> := [];
    ReadStart(buf);
    while reader.i < |buf|
      invariant reader.buf == buf && Reading(buf, reader.i, seen) && p == ApplyPayload(NO_PAYLOAD, seen)
      decreases |buf| - reader.i
    {
      ghost var t := TokenAt(buf, reader.i);
      if t.Some? {
        ReadOn(buf, reader.i, seen, t.value.value, t.value.next);
        PayloadReadOn(seen, p, t.value.value);
      }
      var ok;
      p, ok := DecodePayloadField(reader, p);
      if !ok { return None; }
      seen := seen + [t.value.value];
    }
    assert seen + [] == seen;
    return Some(p);
  }

  /** One turn of the payload loop. */
  method DecodePayloadField(reader: Reader, p: Payload) returns (payload: Payload, ok: bool)
    modifies reader
    ensures var t := TokenAt(reader.buf, old(reader.i));
            && (ok <==> t.Some?)
            && (ok ==> payload == PayloadField(p, t.value.value) && reader.i == t.value.next)
  {
    payload, ok := p, true;
    var field, wire := reader.Key();
    if wire != 2 {
      ok := reader.Skip(wire);
    } else {
      var b := reader.Bytes();
      payload := SetPayload(payload, field, b);
    }
  }

  /** A packet decoded so far, extended by one field or failing on it. */
  lemma PacketReadOn(buf: Bytes, seen: seq<Field>, p: Packet, f: Field, next: nat)
    requires Reading(buf, next, seen + [f]) && ApplyPacket(NO_PACKET, seen) == Some(p)
    ensures ApplyPacket(NO_PACKET, seen + [f]) == PacketField(p, f)
    ensures PacketField(p, f).None? ==> PacketOf(buf) == None
  {
    ApplyPacketConcat(NO_PACKET, seen, [f]);
    if PacketField(p, f).Some? {
      OneField(p, [f], PacketField(p, f).value);
    } else if Tokens(buf, next).Some? {
      ApplyPacketConcat(NO_PACKET, seen + [f], Tokens(buf, next).value);
    }
  }

  method DecodePacket(buf: Bytes) returns (r: Option<Packet>)
    ensures r == PacketOf(buf)
  {
    var reader := new Reader(buf);
    var pkt := NO_PACKET;
    ghost var seen: seq<Field> := [];
    ReadStart(buf);
    while reader.i < |buf|
      invariant reader.buf == buf && Reading(buf, reader.i, seen) && ApplyPacket(NO_PACKET, seen) == Some(pkt)
      decreases |buf| - reader.i
    {
      ghost var t := TokenAt(buf, reader.i);
      if t.Some? {
        ReadOn(buf, reader.i, seen, t.value.value, t.value.next);
        PacketReadOn(buf, seen, pkt, t.value.value, t.value.next);
      }
      var ok;
      pkt, ok := DecodeField(reader, pkt);
      if !ok { return None; }
      seen := seen + [t.value.value];
    }
    assert seen + [] == seen;
    return Some(pkt);
  }

  /** One turn of the packet loop. */
  method DecodeField(reader: Reader, p: Packet) returns (pkt: Packet, ok: bool)
    modifies reader
    ensures var t := TokenAt(reader.buf, old(reader.i));
            && (ok <==> t.Some? && PacketField(p, t.value.value).Some?)
            && (ok ==> Some(pkt) == PacketField(p, t.value.value) && reader.i == t.value.next)
  {
    pkt, ok := p, true;
    var field, wire := reader.Key();
    if field == 1 && wire == 0 {
      var v := reader.Varint();
      pkt := pkt.(sequence := v);
    } else if field == 2 && wire == 2 {
      var b := reader.Bytes();
      pkt := pkt.(sourceClient := b);
    } else if field == 3 && wire == 2 {
      var b := reader.Bytes();
      pkt := pkt.(destClient := b);
    } else if field == 4 && wire == 0 {
      var v := reader.Varint();
      pkt := pkt.(timeoutTimestamp := v);
    } else if field == 5 && wire == 2 {
      var b := reader.Bytes();
      var x := DecodePayload(b);
      ok := x.Some?;
      if ok { pkt := pkt.(payloads := pkt.payloads + [x.value]); }
    } else {
      ok := reader.Skip(wire);
    }
  }

  // ----- unknown fields

  predicate KnownInPayload(f: Field) {
    f.Len? && 1 <= f.num <= 5
  }

  predicate KnownInPacket(f: Field) {
    (f.Varint? && (f.num == 1 || f.num == 4)) || (f.Len? && (f.num == 2 || f.num == 3 || f.num == 5))
  }

  function KnownPayload(fs: seq<Field>): seq<Field> {
    if fs == [] then [] else (if KnownInPayload(fs[0]) then [fs[0]] else []) + KnownPayload(fs[1..])
  }

  function KnownPacket(fs: seq<Field>): seq<Field> {
    if fs == [] then [] else (if KnownInPacket(fs[0]) then [fs[0]] else []) + KnownPacket(fs[1..])
  }

  lemma {:induction false} UnknownIgnoredInPayload(p: Payload, fs: seq<Field>)
    ensures ApplyPayload(p, fs) == ApplyPayload(p, KnownPayload(fs))
    decreases |fs|
  {
    if fs != [] {
      UnknownIgnoredInPayload(PayloadField(p, fs[0]), fs[1..]);
      if KnownInPayload(fs[0]) {
        assert KnownPayload(fs)[1..] == KnownPayload(fs[1..]);
      } else {
        assert KnownPayload(fs) == KnownPayload(fs[1..]);
      }
    }
  }

  lemma {:induction false} UnknownIgnoredInPacket(p: Packet, fs: seq<Field>)
    ensures ApplyPacket(p, fs) == ApplyPacket(p, KnownPacket(fs))
    decreases |fs|
  {
    if fs != [] {
      var r := PacketField(p, fs[0]);
      if r.Some? {
        UnknownIgnoredInPacket(r.value, fs[1..]);
      }
      if KnownInPacket(fs[0]) {
        assert KnownPacket(fs)[1..] == KnownPacket(fs[1..]);
      } else {
        assert KnownPacket(fs) == KnownPacket(fs[1..]);
      }
    }
  }

  // ----- the canonical encoding

  /** A length-delimited field, left out when empty, as proto3 does. */
  function BytesField(num: nat, b: Bytes): seq<Field> {
    if b == [] then [] else [Len(num, b)]
  }

  function NumberField(num: nat, n: nat): seq<Field> {
    if n == 0 then [] else [Varint(num, n)]
  }

  function PayloadFields(p: Payload): seq<Field> {
    BytesField(1, p.sourcePort) + BytesField(2, p.destPort) + BytesField(3, p.version)
    + BytesField(4, p.encoding) + BytesField(5, p.value)
  }

  function HeaderFields(p: Packet): seq<Field> {
    NumberField(1, p.sequence) + BytesField(2, p.sourceClient) + BytesField(3, p.destClient)
    + NumberField(4, p.timeoutTimestamp)
  }

  /** The payload fields for the given field lists. */
  function BodyFields(bodies: seq<seq<Field>>): seq<Field> {
    seq(|bodies|, i requires 0 <= i < |bodies| => Len(5, EncodeFields(bodies[i])))
  }

  lemma ApplyBytesField(p: Payload, num: nat, b: Bytes)
    requires b == [] ==> SetPayload(p, num, b) == p
    ensures ApplyPayload(p, BytesField(num, b)) == SetPayload(p, num, b)
  {
    if b != [] {
      assert ApplyPayload(p, [Len(num, b)]) == ApplyPayload(SetPayload(p, num, b), []);
    }
  }

  lemma PayloadFieldsMean(p: Payload)
    ensures ApplyPayload(NO_PAYLOAD, PayloadFields(p)) == p
  {
    var f1, f2, f3, f4, f5 := BytesField(1, p.sourcePort), BytesField(2, p.destPort), BytesField(3, p.version),
                              BytesField(4, p.encoding), BytesField(5, p.value);
    ApplyPayloadConcat(NO_PAYLOAD, f1 + f2 + f3 + f4, f5);
    ApplyPayloadConcat(NO_PAYLOAD, f1 + f2 + f3, f4);
    ApplyPayloadConcat(NO_PAYLOAD, f1 + f2, f3);
    ApplyPayloadConcat(NO_PAYLOAD, f1, f2);
    var q1 := NO_PAYLOAD.(sourcePort := p.sourcePort);
    var q2 := q1.(destPort := p.destPort);
    var q3 := q2.(version := p.version);
    var q4 := q3.(encoding := p.encoding);
    ApplyBytesField(NO_PAYLOAD, 1, p.sourcePort);
    ApplyBytesField(q1, 2, p.destPort);
    ApplyBytesField(q2, 3, p.version);
    ApplyBytesField(q3, 4, p.encoding);
    ApplyBytesField(q4, 5, p.value);
  }

  lemma HeaderFieldsMean(p: Packet)
    ensures ApplyPacket(NO_PACKET, HeaderFields(p)) == Some(p.(payloads := []))
  {
    var f1, f2, f3, f4 := NumberField(1, p.sequence), BytesField(2, p.sourceClient), BytesField(3, p.destClient),
                          NumberField(4, p.timeoutTimestamp);
    ApplyPacketConcat(NO_PACKET, f1 + f2 + f3, f4);
    ApplyPacketConcat(NO_PACKET, f1 + f2, f3);
    ApplyPacketConcat(NO_PACKET, f1, f2);
    var q1 := NO_PACKET.(sequence := p.sequence);
    var q2 := q1.(sourceClient := p.sourceClient);
    var q3 := q2.(destClient := p.destClient);
    OneField(NO_PACKET, f1, q1);
    OneField(q1, f2, q2);
    OneField(q2, f3, q3);
    OneField(q3, f4, p.(payloads := []));
  }

  /** The field list is an encoding of the payload, unknown fields among the known ones. */
  ghost predicate BodyOf(payload: Payload, body: seq<Field>) {
    WellFormed(body) && KnownPayload(body) == PayloadFields(payload)
  }

  ghost predicate Bodies(payloads: seq<Payload>, bodies: seq<seq<Field>>) {
    |bodies| == |payloads| && forall i :: 0 <= i < |bodies| ==> BodyOf(payloads[i], bodies[i])
  }

  lemma BodyDecodes(payload: Payload, body: seq<Field>)
    requires BodyOf(payload, body)
    ensures PayloadOf(EncodeFields(body)) == Some(payload)
  {
    TokensOfEncoding(body);
    UnknownIgnoredInPayload(NO_PAYLOAD, body);
    PayloadFieldsMean(payload);
  }

  lemma PayloadFieldMeans(p: Packet, payload: Payload, body: seq<Field>)
    requires BodyOf(payload, body)
    ensures ApplyPacket(p, [Len(5, EncodeFields(body))]) == Some(p.(payloads := p.payloads + [payload]))
  {
    BodyDecodes(payload, body);
    OneField(p, [Len(5, EncodeFields(body))], p.(payloads := p.payloads + [payload]));
  }

  lemma LastBody(payloads: seq<Payload>, bodies: seq<seq<Field>>, n: nat)
    requires Bodies(payloads, bodies) && |bodies| == n + 1
    ensures Bodies(payloads[..n], bodies[..n]) && BodyOf(payloads[n], bodies[n])
    ensures BodyFields(bodies) == BodyFields(bodies[..n]) + [Len(5, EncodeFields(bodies[n]))]
  {
    forall i | 0 <= i < n ensures BodyOf(payloads[..n][i], bodies[..n][i]) {
      assert BodyOf(payloads[i], bodies[i]);
    }
    BodyFieldsSnoc(bodies, n);
  }

  lemma BodyFieldsSnoc(bodies: seq<seq<Field>>, n: nat)
    requires |bodies| == n + 1
    ensures BodyFields(bodies) == BodyFields(bodies[..n]) + [Len(5, EncodeFields(bodies[n]))]
  {
    var last := Len(5, EncodeFields(bodies[n]));
    forall i | 0 <= i < n ensures BodyFields(bodies[..n])[i] == BodyFields(bodies)[i] {
      assert bodies[..n][i] == bodies[i];
    }
    assert BodyFields(bodies)[n] == last;
  }

  lemma {:induction false} PayloadsMean(p: Packet, payloads: seq<Payload>, bodies: seq<seq<Field>>)
    requires Bodies(payloads, bodies)
    ensures ApplyPacket(p, BodyFields(bodies)) == Some(p.(payloads := p.payloads + payloads))
    decreases |bodies|
  {
    if bodies == [] {
      assert p.payloads + payloads == p.payloads;
    } else {
      var n := |bodies| - 1;
      LastBody(payloads, bodies, n);
      PayloadsMean(p, payloads[..n], bodies[..n]);
      PayloadsStep(p, payloads[..n], BodyFields(bodies[..n]), payloads[n], bodies[n], payloads, BodyFields(bodies));
    }
  }

  lemma PayloadsStep(p: Packet, before: seq<Payload>, fs: seq<Field>, payload: Payload, body: seq<Field>,
      payloads: seq<Payload>, all: seq<Field>)
    requires ApplyPacket(p, fs) == Some(p.(payloads := p.payloads + before)) && BodyOf(payload, body)
    requires payloads == before + [payload] && all == fs + [Len(5, EncodeFields(body))]
    ensures ApplyPacket(p, all) == Some(p.(payloads := p.payloads + payloads))
  {
    var q := p.(payloads := p.payloads + before);
    PayloadFieldMeans(q, payload, body);
    ApplyPacketConcat(p, fs, [Len(5, EncodeFields(body))]);
    assert q.payloads + [payload] == p.payloads + payloads;
  }

  lemma CanonicalMeans(p: Packet, bodies: seq<seq<Field>>)
    requires Bodies(p.payloads, bodies)
    ensures ApplyPacket(NO_PACKET, HeaderFields(p) + BodyFields(bodies)) == Some(p)
  {
    HeaderFieldsMean(p);
    ApplyPacketConcat(NO_PACKET, HeaderFields(p), BodyFields(bodies));
    PayloadsMean(p.(payloads := []), p.payloads, bodies);
    assert [] + p.payloads == p.payloads;
  }

  /** Decoding inverts the canonical encoding of every packet, with any well-formed unknown fields
      interleaved, in the packet and in its payloads. */
  lemma DecodesEncoding(p: Packet, bodies: seq<seq<Field>>, fs: seq<Field>)
    requires Bodies(p.payloads, bodies)
    requires WellFormed(fs) && KnownPacket(fs) == HeaderFields(p) + BodyFields(bodies)
    ensures PacketOf(EncodeFields(fs)) == Some(p)
  {
    TokensOfEncoding(fs);
    UnknownIgnoredInPacket(NO_PACKET, fs);
    CanonicalMeans(p, bodies);
  }

  // ----- the fields on the wire

  lemma OneEncoded(f: Field, tag: Byte, body: Bytes)
    requires f.WellFormed() && tag < 128 && tag == f.num * 8 + f.Wire() && body == f.Body()
    ensures Tokens([tag] + body, 0) == Some([f])
  {
    TokensOfEncoding([f]);
    EncodeFieldsCons(f, []);
    assert [f] + [] == [f] && EncodeFields([]) == [];
    assert f.Encode() + [] == f.Encode() == [tag] + body;
  }

  lemma PayloadOfOne(f: Field, tag: Byte, body: Bytes)
    requires f.WellFormed() && tag < 128 && tag == f.num * 8 + f.Wire() && body == f.Body()
    ensures PayloadOf([tag] + body) == Some(PayloadField(NO_PAYLOAD, f))
  {
    OneEncoded(f, tag, body);
    var p := PayloadField(NO_PAYLOAD, f);
    assert [f][1..] == [] && ApplyPayload(p, []) == p;
    assert ApplyPayload(NO_PAYLOAD, [f]) == p;
  }

  lemma PacketOfOne(f: Field, tag: Byte, body: Bytes)
    requires f.WellFormed() && tag < 128 && tag == f.num * 8 + f.Wire() && body == f.Body()
    ensures PacketOf([tag] + body) == PacketField(NO_PACKET, f)
  {
    OneEncoded(f, tag, body);
    if PacketField(NO_PACKET, f).Some? {
      OneField(NO_PACKET, [f], PacketField(NO_PACKET, f).value);
    } else {
      assert ApplyPacket(NO_PACKET, [f]) == None;
    }
  }

  /** A string with its length before it. */
  function Sized(b: Bytes): Bytes {
    EncodeVarint(|b|) + b
  }

  /** What each tag byte of a packet introduces. */
  lemma PacketTags(n: nat, b: Bytes)
    ensures PacketOf([0x08] + EncodeVarint(n)) == Some(Packet(n, [], [], 0, []))
    ensures PacketOf([0x12] + Sized(b)) == Some(Packet(0, b, [], 0, []))
    ensures PacketOf([0x1a] + Sized(b)) == Some(Packet(0, [], b, 0, []))
    ensures PacketOf([0x20] + EncodeVarint(n)) == Some(Packet(0, [], [], n, []))
    ensures PacketOf([0x2a] + Sized(b)) ==
              if PayloadOf(b).Some? then Some(Packet(0, [], [], 0, [PayloadOf(b).value])) else None
  {
    PacketOfOne(Varint(1, n), 0x08, EncodeVarint(n));
    PacketOfOne(Len(2, b), 0x12, Sized(b));
    PacketOfOne(Len(3, b), 0x1a, Sized(b));
    PacketOfOne(Varint(4, n), 0x20, EncodeVarint(n));
    PacketOfOne(Len(5, b), 0x2a, Sized(b));
    if PayloadOf(b).Some? {
      assert [] + [PayloadOf(b).value] == [PayloadOf(b).value];
    }
  }

  /** And of a payload. */
  lemma PayloadTags(b: Bytes)
    ensures PayloadOf([0x0a] + Sized(b)) == Some(Payload(b, [], [], [], []))
    ensures PayloadOf([0x12] + Sized(b)) == Some(Payload([], b, [], [], []))
    ensures PayloadOf([0x1a] + Sized(b)) == Some(Payload([], [], b, [], []))
    ensures PayloadOf([0x22] + Sized(b)) == Some(Payload([], [], [], b, []))
    ensures PayloadOf([0x2a] + Sized(b)) == Some(Payload([], [], [], [], b))
  {
    PayloadOfOne(Len(1, b), 0x0a, Sized(b));
    PayloadOfOne(Len(2, b), 0x12, Sized(b));
    PayloadOfOne(Len(3, b), 0x1a, Sized(b));
    PayloadOfOne(Len(4, b), 0x22, Sized(b));
    PayloadOfOne(Len(5, b), 0x2a, Sized(b));
  }
}
