/** The protobuf reader of devnet/lib/packet.js, and the wire format it reads: base-128 varints and
    tagged fields, as in the "Encoding" chapter of the Protocol Buffers documentation. */
module Protobuf {
  import opened Wrappers
  import opened Radix
  import opened Hashing

  /** A value read, and the cursor after it. */
  datatype Read<T> = Read(value: T, next: nat)

  // ----- what the reader reads

  /** `buf[i]` as the reader's bit operations see it: past the end, undefined counts as zero. */
  function ByteAt(buf: Bytes, i: nat): Byte {
    if i < |buf| then buf[i] else 0
  }

  function VarintAt(buf: Bytes, i: nat): (r: Read<nat>)
    ensures i < r.next
    decreases if i < |buf| then |buf| - i else 0
  {
    var b := ByteAt(buf, i);
    if b < 128 then Read(b, i + 1)
    else
      var rest := VarintAt(buf, i + 1);
      Read(b % 128 + 128 * rest.value, rest.next)
  }

  /** `buf.subarray(from, to)`: both ends are clamped to the buffer. */
  function Slice(buf: Bytes, from: nat, to: nat): Bytes
    requires from <= to
  {
    if to <= |buf| then buf[from..to] else if from <= |buf| then buf[from..] else []
  }

  /** A slice is what there is of the buffer between the two ends. */
  lemma SliceIs(buf: Bytes, from: nat, to: nat)
    requires from <= to
    ensures |Slice(buf, from, to)| == Min(to, |buf|) - Min(from, |buf|)
    ensures forall k :: 0 <= k < |Slice(buf, from, to)| ==> Slice(buf, from, to)[k] == buf[from + k]
  {
  }

  /** Past the end of the buffer there are zeros. */
  lemma VarintPastEnd(buf: Bytes, i: nat)
    requires i >= |buf|
    ensures VarintAt(buf, i) == Read(0, i + 1)
  {
  }

  function BytesAt(buf: Bytes, i: nat): (r: Read<Bytes>)
    ensures i < r.next
  {
    var n := VarintAt(buf, i);
    Read(Slice(buf, n.next, n.next + n.value), n.next + n.value)
  }

  /** Where the cursor stands after skipping a value of the given wire type, if there is such a type. */
  function SkipAt(buf: Bytes, i: nat, wire: nat): (r: Option<nat>)
    ensures r.Some? ==> i < r.value
  {
    match wire
    case 0 => Some(VarintAt(buf, i).next)
    case 1 => Some(i + 8)
    case 2 => Some(BytesAt(buf, i).next)
    case 5 => Some(i + 4)
    case _ => None
  }

  // ----- the reader

  class Reader {
    const buf: Bytes
    var i: nat

    constructor (buf: Bytes)
      ensures this.buf == buf && i == 0
    {
      this.buf, this.i := buf, 0;
    }

    method Done() returns (r: bool)
      ensures r <==> i >= |buf|
    {
      r := i >= |buf|;
    }

    /** `x |= (b & 0x7f) << shift` adds: x is below 2^shift. */
    method Varint() returns (x: nat)
      modifies this
      ensures x == VarintAt(buf, old(i)).value && i == VarintAt(buf, old(i)).next
    {
      x := 0;
      var shift := 0;
      ghost var whole := VarintAt(buf, i);
      while true
        invariant shift >= 0 && old(i) <= i
        invariant Above(x, shift, VarintAt(buf, i).value) == whole.value && VarintAt(buf, i).next == whole.next
        decreases if i < |buf| then |buf| - i else 0
      {
        var b := ByteAt(buf, i);
        VarintStep(buf, i, x, shift);
        i := i + 1;
        x := x + b % 128 * Pow2(shift);
        if b < 128 { break; }
        shift := shift + 7;
      }
    }

    method Key() returns (field: nat, wire: nat)
      modifies this
      ensures var k := VarintAt(buf, old(i)); field == k.value / 8 && wire == k.value % 8 && i == k.next
    {
      var k := Varint();
      field, wire := k / 8, k % 8;
    }

    method Bytes() returns (b: Hashing.Bytes)
      modifies this
      ensures b == BytesAt(buf, old(i)).value && i == BytesAt(buf, old(i)).next
    {
      var n := Varint();
      b := Slice(buf, i, i + n);
      i := i + n;
    }

    method Skip(wire: nat) returns (ok: bool)
      modifies this
      ensures ok <==> SkipAt(buf, old(i), wire).Some?
      ensures i == if ok then SkipAt(buf, old(i), wire).value else old(i)
    {
      ok := true;
      if wire == 0 {
        var _ := Varint();
      } else if wire == 2 {
        var n := Varint();
        i := i + n;
      } else if wire == 5 {
        i := i + 4;
      } else if wire == 1 {
        i := i + 8;
      } else {
        ok := false;
      }
    }
  }

  /** The number with v above the `shift` low bits x. */
  function Above(x: nat, shift: nat, v: nat): int {
    x + Pow2(shift) * v
  }

  lemma VarintStep(buf: Bytes, i: nat, x: nat, shift: nat)
    ensures var b, r := ByteAt(buf, i), VarintAt(buf, i);
            var y := x + b % 128 * Pow2(shift);
            && y >= 0
            && (b < 128 ==> Above(x, shift, r.value) == y && r.next == i + 1)
            && (b >= 128 ==>
                  && Above(x, shift, r.value) == Above(y, shift + 7, VarintAt(buf, i + 1).value)
                  && r.next == VarintAt(buf, i + 1).next)
  {
    var b := ByteAt(buf, i);
    AboveStep(x, shift, b % 128, if b < 128 then 0 else VarintAt(buf, i + 1).value);
  }

  lemma AboveStep(x: nat, shift: nat, low: nat, rest: nat)
    ensures low * Pow2(shift) >= 0
    ensures Above(x, shift, low + 128 * rest) == Above(x + low * Pow2(shift), shift + 7, rest)
    ensures rest == 0 ==> Above(x, shift, low) == x + low * Pow2(shift)
  {
    var p := Pow2(shift);
    MulMono(0, low, p);
    Pow2Add(shift, 7);
    assert Pow2(7) == 128;
    Expand(low, 128 * rest, p);
    Assoc(p, 128, rest);
  }

  // ----- the wire format

  datatype Field =
    | Varint(num: nat, value: nat)
    | Fixed64(num: nat, bytes: Bytes)
    | Len(num: nat, bytes: Bytes)
    | Fixed32(num: nat, bytes: Bytes)
  {
    predicate WellFormed() {
      (Fixed64? ==> |bytes| == 8) && (Fixed32? ==> |bytes| == 4)
    }

    function Wire(): nat {
      match this
      case Varint(_, _) => 0
      case Fixed64(_, _) => 1
      case Len(_, _) => 2
      case Fixed32(_, _) => 5
    }

    function Body(): Bytes {
      match this
      case Varint(_, v) => EncodeVarint(v)
      case Len(_, b) => EncodeVarint(|b|) + b
      case Fixed64(_, b) => b
      case Fixed32(_, b) => b
    }

    function Encode(): Bytes {
      EncodeVarint(num * 8 + Wire()) + Body()
    }
  }

  function EncodeVarint(n: nat): (e: Bytes)
    ensures |e| > 0
  {
    if n < 128 then [n] else [n % 128 + 128] + EncodeVarint(n / 128)
  }

  function EncodeFields(fs: seq<Field>): Bytes {
    if fs == [] then [] else fs[0].Encode() + EncodeFields(fs[1..])
  }

  ghost predicate WellFormed(fs: seq<Field>) {
    forall i :: 0 <= i < |fs| ==> fs[i].WellFormed()
  }

  /** The bytes e stand at position i. */
  ghost predicate At(buf: Bytes, i: nat, e: Bytes) {
    i + |e| <= |buf| && buf[i..i + |e|] == e
  }

  lemma AtConcat(buf: Bytes, i: nat, a: Bytes, b: Bytes)
    requires At(buf, i, a + b)
    ensures At(buf, i, a) && At(buf, i + |a|, b)
  {
    var e := buf[i..i + |a + b|];
    assert buf[i..i + |a|] == e[..|a|] == a;
    assert buf[i + |a|..i + |a| + |b|] == e[|a|..] == b;
  }

  /** Seven bits a byte, the lowest first: 300 is 172 and 2. */
  lemma VarintBytes(low: nat, high: nat)
    requires low < 128 && 0 < high < 128
    ensures EncodeVarint(low) == [low] && EncodeVarint(low + 128 * high) == [low + 128, high]
  {
    var n := low + 128 * high;
    assert n % 128 == low && n / 128 == high;
    assert EncodeVarint(high) == [high];
  }

  /** A varint is read back, wherever it stands. */
  lemma {:induction false} VarintRead(buf: Bytes, i: nat, n: nat)
    requires At(buf, i, EncodeVarint(n))
    ensures VarintAt(buf, i) == Read(n, i + |EncodeVarint(n)|)
    decreases n
  {
    var e := EncodeVarint(n);
    assert buf[i] == buf[i..i + |e|][0] == e[0];
    if n >= 128 {
      AtConcat(buf, i, [n % 128 + 128], EncodeVarint(n / 128));
      VarintRead(buf, i + 1, n / 128);
    }
  }

  lemma BytesRead(buf: Bytes, i: nat, b: Bytes)
    requires At(buf, i, EncodeVarint(|b|) + b)
    ensures BytesAt(buf, i) == Read(b, i + |EncodeVarint(|b|) + b|)
  {
    AtConcat(buf, i, EncodeVarint(|b|), b);
    VarintRead(buf, i, |b|);
  }

  /** Where a field's body starts. */
  function BodyAt(i: nat, f: Field): nat {
    i + |EncodeVarint(f.num * 8 + f.Wire())|
  }

  /** A field's key reads as its number and wire type. */
  lemma KeyRead(buf: Bytes, i: nat, f: Field)
    requires At(buf, i, f.Encode())
    ensures At(buf, BodyAt(i, f), f.Body()) && BodyAt(i, f) + |f.Body()| == i + |f.Encode()|
    ensures var k := VarintAt(buf, i); k.next == BodyAt(i, f) && k.value / 8 == f.num && k.value % 8 == f.Wire()
  {
    var key := f.num * 8 + f.Wire();
    KeyParts(f.num, f.Wire(), key);
    KeyAndBody(buf, i, key, f.Body());
  }

  lemma KeyAndBody(buf: Bytes, i: nat, key: nat, body: Bytes)
    requires At(buf, i, EncodeVarint(key) + body)
    ensures At(buf, i + |EncodeVarint(key)|, body)
    ensures VarintAt(buf, i) == Read(key, i + |EncodeVarint(key)|)
  {
    AtConcat(buf, i, EncodeVarint(key), body);
    VarintRead(buf, i, key);
  }

  lemma KeyParts(num: nat, wire: nat, key: nat)
    requires wire < 8 && key == num * 8 + wire
    ensures key / 8 == num && key % 8 == wire
  {
  }

  /** Reading or skipping a field's body passes exactly that body. */
  lemma BodyRead(buf: Bytes, i: nat, f: Field)
    requires f.WellFormed() && At(buf, i, f.Body())
    ensures SkipAt(buf, i, f.Wire()) == Some(i + |f.Body()|)
    ensures f.Varint? ==> VarintAt(buf, i) == Read(f.value, i + |f.Body()|)
    ensures f.Len? ==> BytesAt(buf, i) == Read(f.bytes, i + |f.Body()|)
  {
    if f.Varint? {
      VarintRead(buf, i, f.value);
    } else if f.Len? {
      BytesRead(buf, i, f.bytes);
    }
  }

  // ----- a buffer as a list of fields

  /** The field at the cursor; at a truncated end, with what bytes there are. */
  function TokenAt(buf: Bytes, i: nat): (r: Option<Read<Field>>)
    ensures r.Some? ==> i < r.value.next
  {
    var k := VarintAt(buf, i);
    var num := k.value / 8;
    match k.value % 8
    case 0 => var v := VarintAt(buf, k.next); Some(Read(Varint(num, v.value), v.next))
    case 1 => Some(Read(Fixed64(num, Slice(buf, k.next, k.next + 8)), k.next + 8))
    case 2 => var b := BytesAt(buf, k.next); Some(Read(Len(num, b.value), b.next))
    case 5 => Some(Read(Fixed32(num, Slice(buf, k.next, k.next + 4)), k.next + 4))
    case _ => None
  }

  /** All fields from the cursor on; none at all if a wire type is unsupported. */
  function Tokens(buf: Bytes, i: nat): Option<seq<Field>>
    decreases if i < |buf| then |buf| - i else 0
  {
    if i >= |buf| then Some([])
    else
      match TokenAt(buf, i)
      case None => None
      case Some(r) => Prepend([r.value], Tokens(buf, r.next))
  }

  function Prepend(fs: seq<Field>, r: Option<seq<Field>>): Option<seq<Field>> {
    match r
    case None => None
    case Some(rest) => Some(fs + rest)
  }

  lemma TokenOfEncoding(buf: Bytes, i: nat, f: Field)
    requires f.WellFormed() && At(buf, i, f.Encode())
    ensures TokenAt(buf, i) == Some(Read(f, i + |f.Encode()|))
  {
    KeyRead(buf, i, f);
    BodyRead(buf, BodyAt(i, f), f);
  }

  lemma TokensCons(buf: Bytes, i: nat, f: Field, next: nat, rest: seq<Field>)
    requires i < |buf| && TokenAt(buf, i) == Some(Read(f, next)) && Tokens(buf, next) == Some(rest)
    ensures Tokens(buf, i) == Some([f] + rest)
  {}

  lemma EncodeFieldsCons(f: Field, rest: seq<Field>)
    ensures EncodeFields([f] + rest) == f.Encode() + EncodeFields(rest) && |f.Encode()| > 0
  {
    assert ([f] + rest)[1..] == rest;
  }

  lemma TokensStep(buf: Bytes, i: nat, f: Field, next: nat, rest: seq<Field>, fs: seq<Field>)
    requires f.WellFormed() && At(buf, i, f.Encode()) && next == i + |f.Encode()| && i < |buf|
    requires Tokens(buf, next) == Some(rest) && fs == [f] + rest
    ensures Tokens(buf, i) == Some(fs)
  {
    TokenOfEncoding(buf, i, f);
    TokensCons(buf, i, f, next, rest);
  }

  ghost predicate Ends(buf: Bytes, i: nat, e: Bytes) {
    At(buf, i, e) && i + |e| == |buf|
  }

  lemma EndsCons(buf: Bytes, i: nat, f: Field, rest: seq<Field>)
    requires Ends(buf, i, EncodeFields([f] + rest))
    ensures At(buf, i, f.Encode()) && Ends(buf, i + |f.Encode()|, EncodeFields(rest)) && i < |buf|
  {
    EncodeFieldsCons(f, rest);
    AtConcat(buf, i, f.Encode(), EncodeFields(rest));
  }

  /** Where the first field ends, the rest begins. */
  lemma TokensFirst(buf: Bytes, i: nat, fs: seq<Field>) returns (next: nat)
    requires fs != [] && WellFormed(fs) && Ends(buf, i, EncodeFields(fs))
    ensures Ends(buf, next, EncodeFields(fs[1..]))
    ensures Tokens(buf, next) == Some(fs[1..]) ==> Tokens(buf, i) == Some(fs)
  {
    var f, rest := fs[0], fs[1..];
    next := i + |f.Encode()|;
    assert fs == [f] + rest;
    EndsCons(buf, i, f, rest);
    if Tokens(buf, next) == Some(rest) {
      TokensStep(buf, i, f, next, rest, fs);
    }
  }

  lemma {:induction false} TokensFrom(buf: Bytes, i: nat, fs: seq<Field>)
    requires WellFormed(fs) && Ends(buf, i, EncodeFields(fs))
    ensures Tokens(buf, i) == Some(fs)
    decreases |fs|
  {
    if fs != [] {
      var next := TokensFirst(buf, i, fs);
      TokensFrom(buf, next, fs[1..]);
    }
  }

  /** Reading inverts writing, for every list of well-formed fields. */
  lemma TokensOfEncoding(fs: seq<Field>)
    requires WellFormed(fs)
    ensures Tokens(EncodeFields(fs), 0) == Some(fs)
  {
    var e := EncodeFields(fs);
    assert e[0..|e|] == e;
    TokensFrom(e, 0, fs);
  }
}
