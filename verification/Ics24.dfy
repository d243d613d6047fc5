/** The ICS-24 commitment scheme and store keys of devnet/lib/packet.js. */
module Ics24 {
  import opened Wrappers
  import opened Radix
  import opened Hashing
  import opened Packet

  const TWO64: nat := 0x1_0000_0000_0000_0000

  /** `zeroPadValue(toBeHex(n), 8)`: eight bytes, big-endian, or an exception when n does not fit. */
  function BigEndian(n: nat): (r: Option<Bytes>)
    ensures r.Some? <==> n < TWO64
    ensures r.Some? ==> |r.value| == 8 && Value(r.value, 8) == n
  {
    if n >= TWO64 then None
    else
      ToDigitsFits(n, 8, 8);
      ByteDigits();
      ValueOfDigits(n, 8, 8);
      Some(ToDigits(n, 8, 8))
  }

  lemma ByteDigits()
    ensures Pow2(8) == 256 && Pow2(64) == TWO64
  {
    assert Pow2(8) == 256;
    Doubled(8, 16, 0x100);
    Doubled(16, 32, 0x1_0000);
    Doubled(32, 64, 0x1_0000_0000);
  }

  lemma Doubled(a: nat, b: nat, m: nat)
    requires b == a + a && Pow2(a) == m
    ensures Pow2(b) == m * m
  {
    Pow2Add(a, a);
  }

  lemma BigEndianInjective(n: nat, m: nat)
    requires n < TWO64 && m < TWO64 && BigEndian(n) == BigEndian(m)
    ensures n == m
  {
    assert Value(BigEndian(n).value, 8) == Value(BigEndian(m).value, 8);
  }

  // ----- commitments

  /** The concatenated digests of a list of strings. */
  function Digests(h: Hash, xs: seq<Bytes>): (r: Bytes)
    ensures |r| == 32 * |xs|
  {
    if xs == [] then [] else Digests(h, xs[..|xs| - 1]) + h[xs[|xs| - 1]]
  }

  /** The five strings hashed for a payload. */
  function PayloadParts(p: Payload): seq<Bytes> {
    [p.sourcePort, p.destPort, p.version, p.encoding, p.value]
  }

  /** What is hashed for each payload: `hashPayload` is the digest of this. */
  function PayloadBytes(h: Hash, ps: seq<Payload>): seq<Bytes> {
    seq(|ps|, i requires 0 <= i < |ps| => Digests(h, PayloadParts(ps[i])))
  }

  function AppBytes(h: Hash, ps: seq<Payload>): Bytes {
    Digests(h, PayloadBytes(h, ps))
  }

  /** The three strings hashed at the top of a packet commitment. */
  function PacketParts(h: Hash, p: Packet): seq<Bytes>
    requires p.timeoutTimestamp < TWO64
  {
    [p.destClient, BigEndian(p.timeoutTimestamp).value, AppBytes(h, p.payloads)]
  }

  function PacketCommitment(h: Hash, p: Packet): Option<Bytes> {
    if p.timeoutTimestamp >= TWO64 then None else Some(h[[2] + Digests(h, PacketParts(h, p))])
  }

  function AckCommitment(h: Hash, acks: seq<Bytes>): Bytes {
    h[[2] + Digests(h, acks)]
  }

  lemma Digests5(h: Hash, a: Bytes, b: Bytes, c: Bytes, d: Bytes, e: Bytes)
    ensures Digests(h, [a, b, c, d, e]) == h[a] + h[b] + h[c] + h[d] + h[e]
  {
    var xs := [a, b, c, d, e];
    assert xs[..4] == [a, b, c, d] && [a, b, c, d][..3] == [a, b, c] && [a, b, c][..2] == [a, b] && [a, b][..1] == [a];
    assert [a][..0] == [];
    assert Digests(h, [a]) == h[a];
    assert Digests(h, [a, b]) == h[a] + h[b];
    assert Digests(h, [a, b, c]) == h[a] + h[b] + h[c];
    assert Digests(h, [a, b, c, d]) == h[a] + h[b] + h[c] + h[d];
  }

  lemma Digests3(h: Hash, a: Bytes, b: Bytes, c: Bytes)
    ensures Digests(h, [a, b, c]) == h[a] + h[b] + h[c]
  {
    assert [a, b, c][..2] == [a, b] && [a, b][..1] == [a] && [a][..0] == [];
    assert Digests(h, [a]) == h[a];
    assert Digests(h, [a, b]) == h[a] + h[b];
  }

  method ComputePacketCommitment(h: Hash, p: Packet) returns (r: Option<Bytes>)
    ensures r == PacketCommitment(h, p)
  {
    var appBytes: Bytes := [];
    for i := 0 to |p.payloads|
      invariant appBytes == AppBytes(h, p.payloads[..i])
    {
      var x := p.payloads[i];
      var packed := h[x.sourcePort] + h[x.destPort] + h[x.version] + h[x.encoding] + h[x.value];
      Digests5(h, x.sourcePort, x.destPort, x.version, x.encoding, x.value);
      ghost var before, after := PayloadBytes(h, p.payloads[..i]), PayloadBytes(h, p.payloads[..i + 1]);
      assert after[..i] == before;
      appBytes := appBytes + h[packed];
    }
    assert p.payloads[..|p.payloads|] == p.payloads;
    var timeout := BigEndian(p.timeoutTimestamp);
    if timeout.None? { return None; }
    Digests3(h, p.destClient, timeout.value, appBytes);
    return Some(h[[2] + (h[p.destClient] + h[timeout.value] + h[appBytes])]);
  }

  method ComputeAckCommitment(h: Hash, acks: seq<Bytes>) returns (r: Bytes)
    ensures r == AckCommitment(h, acks)
  {
    var ackBytes: Bytes := [];
    for i := 0 to |acks|
      invariant ackBytes == Digests(h, acks[..i])
    {
      assert acks[..i + 1][..i] == acks[..i];
      ackBytes := ackBytes + h[acks[i]];
    }
    assert acks[..|acks|] == acks;
    return h[[2] + ackBytes];
  }

  // ----- the same in bytes

  lemma {:induction false} DigestAt(h: Hash, xs: seq<Bytes>, i: nat)
    requires i < |xs|
    ensures Digests(h, xs)[32 * i..32 * i + 32] == h[xs[i]]
  {
    var n := |xs| - 1;
    if i < n {
      DigestAt(h, xs[..n], i);
      assert Digests(h, xs)[32 * i..32 * i + 32] == Digests(h, xs[..n])[32 * i..32 * i + 32];
    }
  }

  /** What a payload contributes: the digests of its five strings, in this order, hashed again. */
  function PayloadDigest(h: Hash, p: Payload): Bytes {
    h[h[p.sourcePort] + h[p.destPort] + h[p.version] + h[p.encoding] + h[p.value]]
  }

  lemma AppBytesAt(h: Hash, ps: seq<Payload>, i: nat)
    requires i < |ps|
    ensures |AppBytes(h, ps)| == 32 * |ps| && AppBytes(h, ps)[32 * i..32 * i + 32] == PayloadDigest(h, ps[i])
  {
    var p := ps[i];
    DigestAt(h, PayloadBytes(h, ps), i);
    Digests5(h, p.sourcePort, p.destPort, p.version, p.encoding, p.value);
  }

  /** A packet's commitment in bytes: the hash of 2, the destination client's digest, the digest of the timeout in
      eight bytes, and the digest of the payloads' digests. */
  lemma PacketCommitmentIs(h: Hash, p: Packet) returns (timeout: Bytes, app: Bytes)
    requires p.timeoutTimestamp < TWO64
    ensures PacketCommitment(h, p) == Some(h[[2] + (h[p.destClient] + h[timeout] + h[app])])
    ensures |timeout| == 8 && Value(timeout, 8) == p.timeoutTimestamp && |app| == 32 * |p.payloads|
    ensures forall i :: 0 <= i < |p.payloads| ==> app[32 * i..32 * i + 32] == PayloadDigest(h, p.payloads[i])
  {
    timeout, app := BigEndian(p.timeoutTimestamp).value, AppBytes(h, p.payloads);
    Digests3(h, p.destClient, timeout, app);
    forall i | 0 <= i < |p.payloads| ensures app[32 * i..32 * i + 32] == PayloadDigest(h, p.payloads[i]) {
      AppBytesAt(h, p.payloads, i);
    }
  }

  /** An acknowledgement commitment in bytes: the hash of 2 and the acknowledgements' digests in order. */
  lemma AckCommitmentIs(h: Hash, acks: seq<Bytes>) returns (digests: Bytes)
    ensures AckCommitment(h, acks) == h[[2] + digests] && |digests| == 32 * |acks|
    ensures forall i :: 0 <= i < |acks| ==> digests[32 * i..32 * i + 32] == h[acks[i]]
  {
    digests := Digests(h, acks);
    forall i | 0 <= i < |acks| ensures digests[32 * i..32 * i + 32] == h[acks[i]] {
      DigestAt(h, acks, i);
    }
  }

  // ----- what a commitment determines

  /** These strings are all in s. */
  ghost predicate Within(xs: seq<Bytes>, s: set<Bytes>) {
    forall i :: 0 <= i < |xs| ==> xs[i] in s
  }

  /** Digests have a fixed length, so a concatenation of them can be read only one way. */
  lemma {:induction false} DigestsInjective(h: Hash, a: seq<Bytes>, b: seq<Bytes>, s: set<Bytes>)
    requires Digests(h, a) == Digests(h, b) && CollisionFree(h, s) && Within(a, s) && Within(b, s)
    ensures a == b
    decreases |a|
  {
    assert |a| == |b|;
    if a != [] {
      var n := |a| - 1;
      SplitRight(Digests(h, a[..n]), h[a[n]], Digests(h, b[..n]), h[b[n]]);
      DigestsInjective(h, a[..n], b[..n], s);
      assert a == a[..n] + [a[n]] && b == b[..n] + [b[n]];
    }
  }

  /** Every string hashed for the packet's commitment is in s. */
  ghost predicate PacketHashed(h: Hash, p: Packet, s: set<Bytes>)
    requires p.timeoutTimestamp < TWO64
  {
    && [2] + Digests(h, PacketParts(h, p)) in s
    && Within(PacketParts(h, p), s)
    && Within(PayloadBytes(h, p.payloads), s)
    && forall i :: 0 <= i < |p.payloads| ==> Within(PayloadParts(p.payloads[i]), s)
  }

  /** The commitment determines the destination client, the timeout and every payload. It does not
      mention the sequence number and the source client, which stand in the key. */
  lemma PacketCommitmentBinds(h: Hash, p: Packet, q: Packet, s: set<Bytes>)
    requires PacketCommitment(h, p).Some? && PacketCommitment(h, p) == PacketCommitment(h, q)
    requires CollisionFree(h, s) && PacketHashed(h, p, s) && PacketHashed(h, q, s)
    ensures p == q.(sequence := p.sequence, sourceClient := p.sourceClient)
  {
    var pp, qq := PacketParts(h, p), PacketParts(h, q);
    SplitRight([2], Digests(h, pp), [2], Digests(h, qq));
    DigestsInjective(h, pp, qq, s);
    assert pp[0] == qq[0] && pp[1] == qq[1] && pp[2] == qq[2];
    BigEndianInjective(p.timeoutTimestamp, q.timeoutTimestamp);
    PayloadsBound(h, p.payloads, q.payloads, s);
  }

  lemma PayloadsBound(h: Hash, a: seq<Payload>, b: seq<Payload>, s: set<Bytes>)
    requires AppBytes(h, a) == AppBytes(h, b) && CollisionFree(h, s)
    requires Within(PayloadBytes(h, a), s) && Within(PayloadBytes(h, b), s)
    requires forall i :: 0 <= i < |a| ==> Within(PayloadParts(a[i]), s)
    requires forall i :: 0 <= i < |b| ==> Within(PayloadParts(b[i]), s)
    ensures a == b
  {
    DigestsInjective(h, PayloadBytes(h, a), PayloadBytes(h, b), s);
    assert |PayloadBytes(h, a)| == |a| && |PayloadBytes(h, b)| == |b|;
    forall i | 0 <= i < |a| ensures a[i] == b[i] {
      assert PayloadBytes(h, a)[i] == PayloadBytes(h, b)[i];
      DigestsInjective(h, PayloadParts(a[i]), PayloadParts(b[i]), s);
      PartsDetermine(a[i], b[i]);
    }
  }

  lemma PartsDetermine(a: Payload, b: Payload)
    requires PayloadParts(a) == PayloadParts(b)
    ensures a == b
  {
    var x, y := PayloadParts(a), PayloadParts(b);
    assert x[0] == y[0] && x[1] == y[1] && x[2] == y[2] && x[3] == y[3] && x[4] == y[4];
  }

  /** An acknowledgement commitment determines the whole list of acknowledgements. */
  lemma AckCommitmentBinds(h: Hash, a: seq<Bytes>, b: seq<Bytes>, s: set<Bytes>)
    requires AckCommitment(h, a) == AckCommitment(h, b) && CollisionFree(h, s) && Within(a, s) && Within(b, s)
    requires [2] + Digests(h, a) in s && [2] + Digests(h, b) in s
    ensures a == b
  {
    SplitRight([2], Digests(h, a), [2], Digests(h, b));
    DigestsInjective(h, a, b, s);
  }

  // ----- store keys

  /** `<clientId> || tag || big-endian sequence`; the tag is 1 for commitments, 3 for acknowledgements. */
  function StoreKey(clientId: Bytes, tag: Byte, seq_: nat): Option<Bytes> {
    match BigEndian(seq_)
    case None => None
    case Some(be) => Some(clientId + ([tag] + be))
  }

  function PacketCommitmentKey(clientId: Bytes, seq_: nat): Option<Bytes> {
    StoreKey(clientId, 1, seq_)
  }

  function PacketAckKey(clientId: Bytes, seq_: nat): Option<Bytes> {
    StoreKey(clientId, 3, seq_)
  }

  /** A store key in bytes: the client id, then 1 for a commitment and 3 for an acknowledgement, then the sequence
      number in eight bytes. */
  lemma StoreKeyIs(clientId: Bytes, n: nat)
    requires n < TWO64
    ensures var key := PacketCommitmentKey(clientId, n);
            && key.Some? && |key.value| == |clientId| + 9 && key.value[..|clientId|] == clientId
            && key.value[|clientId|] == 1 && Value(key.value[|clientId| + 1..], 8) == n
    ensures var key := PacketAckKey(clientId, n);
            && key.Some? && |key.value| == |clientId| + 9 && key.value[..|clientId|] == clientId
            && key.value[|clientId|] == 3 && Value(key.value[|clientId| + 1..], 8) == n
  {
    var be := BigEndian(n).value;
    assert PacketCommitmentKey(clientId, n).value[|clientId| + 1..] == be;
    assert PacketAckKey(clientId, n).value[|clientId| + 1..] == be;
  }

  /** A key names one client, one sequence number and one kind, whatever the client id's length. */
  lemma StoreKeyInjective(c: Bytes, t: Byte, n: nat, d: Bytes, u: Byte, m: nat)
    requires StoreKey(c, t, n).Some? && StoreKey(c, t, n) == StoreKey(d, u, m)
    ensures c == d && t == u && n == m
  {
    var x, y := BigEndian(n).value, BigEndian(m).value;
    SplitRight(c, [t] + x, d, [u] + y);
    SplitRight([t], x, [u], y);
    BigEndianInjective(n, m);
  }

  lemma KeysApart(c: Bytes, n: nat, d: Bytes, m: nat)
    requires n < TWO64 && m < TWO64
    ensures PacketCommitmentKey(c, n) != PacketAckKey(d, m)
  {
    if PacketCommitmentKey(c, n) == PacketAckKey(d, m) {
      StoreKeyInjective(c, 1, n, d, 3, m);
    }
  }
}
