/** Regrouping a stream of `from`-bit values into `to`-bit values: the bit accumulator of
    experiments/migration_cost/bech32.js, run on JavaScript's signed 32-bit integers, against a
    description in terms of the one number both digit strings spell. */
module ConvertBits {
  import opened Radix

  type Int32 = x: int | -0x8000_0000 <= x < 0x8000_0000

  datatype Error = InvalidValue | InvalidPadding

  datatype Result = Regrouped(digits: seq<int>) | Rejected(error: Error)

  /** JavaScript's ToInt32: the operand of every bitwise operator is taken modulo 2^32, signed. */
  function ToInt32(x: int): (r: int)
    ensures -0x8000_0000 <= r < 0x8000_0000
  {
    var m := x % 0x1_0000_0000;
    if m >= 0x8000_0000 then m - 0x1_0000_0000 else m
  }

  lemma Pow2Of32()
    ensures Pow2(32) == 0x1_0000_0000 && Pow2(16) == 0x1_0000
  {
    assert Pow2(8) == 256;
    Pow2Add(8, 8);
    Pow2Add(16, 16);
  }

  lemma ToInt32Mod(x: int, k: nat)
    requires k <= 32
    ensures ToInt32(x) % Pow2(k) == x % Pow2(k)
  {
    Pow2Of32();
    DivMod(x, 0x1_0000_0000);
    var n := -(x / 0x1_0000_0000) - (if x % 0x1_0000_0000 >= 0x8000_0000 then 1 else 0);
    assert ToInt32(x) == x + n * 0x1_0000_0000;
    WrapMod(x, n, k, 32);
  }

  /** What the regrouping means. `data` spells the number v in |data| * from bits; the result spells
      the same bits in `to`-bit digits. With padding, zero bits complete the last digit; without,
      the bits left over must be fewer than one input digit and all zero, and are dropped. */
  function Regroup(data: seq<int>, from: nat, to: nat, pad: bool): Result
    requires 1 <= from && 1 <= to
  {
    if !Fits(data, from) then Rejected(InvalidValue)
    else
      var total := |data| * from;
      if pad then Regrouped(Padded(Value(data, from), total / to, total % to, to))
      else Trimmed(Value(data, from), total / to, total % to, from, to)
  }

  /** The number v of n `to`-bit digits and `rest` bits, with zero bits to complete the last digit. */
  function Padded(v: int, n: nat, rest: nat, to: nat): seq<int>
    requires rest < to
  {
    if rest == 0 then ToDigits(v, to, n) else ToDigits(v * Pow2(to - rest), to, n + 1)
  }

  /** The same without the bits left over, which must be zero and fewer than `from`. */
  function Trimmed(v: int, n: nat, rest: nat, from: nat, to: nat): Result {
    if rest >= from || v % Pow2(rest) != 0 then Rejected(InvalidPadding)
    else Regrouped(ToDigits(v / Pow2(rest), to, n))
  }

  /** Regrouping a list whose bits are n digits and `rest` more. */
  lemma RegroupIs(data: seq<int>, from: nat, to: nat, n: nat, rest: nat, total: nat, whole: nat)
    requires 1 <= from && rest < to && Fits(data, from)
    requires total == |data| * from && whole == n * to && total == whole + rest
    ensures Regroup(data, from, to, true) == Regrouped(Padded(Value(data, from), n, rest, to))
    ensures Regroup(data, from, to, false) == Trimmed(Value(data, from), n, rest, from, to)
  {
    ModUnique(total, n, rest, to);
  }

  /** The state of the loop: the digits already emitted, over the low `bits` bits of the
      accumulator, spell what has been read. The accumulator's higher bits are garbage. */
  ghost predicate Pending(acc: int, bits: nat, ret: seq<int>, to: nat, read: seq<int>, from: nat) {
    && Fits(ret, to)
    && |ret| * to + bits == |read| * from
    && Value(ret, to) * Pow2(bits) + acc % Pow2(bits) == Value(read, from)
  }

  /** Shifting a value in. `(acc << from) | value` adds, because the shift cleared the low bits. */
  lemma Feed(acc: int, bits: nat, ret: seq<int>, to: nat, read: seq<int>, from: nat, value: int)
    requires Pending(acc, bits, ret, to, read, from)
    requires 0 <= value < Pow2(from) && bits + from <= 32
    ensures Pending(ToInt32(acc * Pow2(from)) + value, bits + from, ret, to, read + [value], from)
  {
    FeedBits(acc, bits, from, value);
    FeedNumber(Value(read, from), Value(ret, to), Pow2(bits), acc % Pow2(bits), Pow2(from), value);
    Pow2Add(bits, from);
    ValueSnoc(read, value, from);
    Expand(|read|, 1, from);
  }

  lemma FeedBits(acc: int, bits: nat, from: nat, value: int)
    requires 0 <= value < Pow2(from) && bits + from <= 32
    ensures (ToInt32(acc * Pow2(from)) + value) % Pow2(bits + from) == acc % Pow2(bits) * Pow2(from) + value
  {
    var l, f, b := acc % Pow2(bits), Pow2(from), Pow2(bits);
    var shifted := ToInt32(acc * f);
    assert shifted % Pow2(bits + from) == l * f by {
      ToInt32Mod(acc * f, bits + from);
      ShiftMod(acc, bits, from);
    }
    DivMod(acc, b);
    Pow2Add(bits, from);
    AddLow(shifted, l * f, value, b, f, l);
  }

  lemma FeedNumber(w: int, v: int, b: int, l: int, f: int, value: int)
    requires v * b + l == w
    ensures v * (b * f) + (l * f + value) == w * f + value
  {
    Expand(v * b, l, f);
    Assoc(v, b, f);
  }

  lemma AddLow(x: int, low: int, value: int, b: int, f: int, l: int)
    requires 0 < b && 0 < f && 0 < b * f && 0 <= l < b && low == l * f
    requires x % (b * f) == low && 0 <= value < f
    ensures (x + value) % (b * f) == low + value
  {
    DivMod(x, b * f);
    MulMono(l, b - 1, f);
    MulMono(0, l, f);
    Expand(b, -1, f);
    ModUnique(x + value, x / (b * f), low + value, b * f);
  }

  /** Emitting the top `to` of the pending bits. `>>` is floor division, `& maxv` the remainder. */
  lemma Emit(acc: int, bits: nat, ret: seq<int>, to: nat, read: seq<int>, from: nat)
    requires Pending(acc, bits, ret, to, read, from) && to <= bits
    ensures Pending(acc, bits - to, ret + [acc / Pow2(bits - to) % Pow2(to)], to, read, from)
  {
    var lo := bits - to;
    var d, v := acc / Pow2(lo) % Pow2(to), Value(ret, to);
    DivMod(acc / Pow2(lo), Pow2(to));
    SplitMod(acc, lo, to);
    Pow2Add(to, lo);
    ValueSnoc(ret, d, to);
    Expand(v * Pow2(to), d, Pow2(lo));
    Assoc(v, Pow2(to), Pow2(lo));
    Expand(|ret|, 1, to);
  }

  /** The loop's leftovers are those of the number: fewer than one output digit, and its low bits. */
  lemma Leftover(acc: int, bits: nat, ret: seq<int>, to: nat, data: seq<int>, from: nat)
    requires Pending(acc, bits, ret, to, data, from) && bits < to && 1 <= from
    ensures Value(data, from) % Pow2(bits) == acc % Pow2(bits)
    ensures ToDigits(Value(data, from) / Pow2(bits), to, |ret|) == ret
  {
    DivMod(acc, Pow2(bits));
    ModUnique(Value(data, from), Value(ret, to), acc % Pow2(bits), Pow2(bits));
    DigitsOfValue(ret, to);
  }

  /** The padding digit: the leftover bits at the top of a digit of zeros. */
  lemma Pad(acc: int, bits: nat, ret: seq<int>, to: nat, data: seq<int>, from: nat)
    requires Pending(acc, bits, ret, to, data, from) && bits < to <= 32
    ensures ToInt32(acc * Pow2(to - bits)) % Pow2(to) == acc % Pow2(bits) * Pow2(to - bits)
    ensures ToDigits(Value(data, from) * Pow2(to - bits), to, |ret| + 1)
         == ret + [acc % Pow2(bits) * Pow2(to - bits)]
  {
    var p, l, b := Pow2(to - bits), acc % Pow2(bits), Pow2(bits);
    assert ToInt32(acc * p) % Pow2(to) == l * p by {
      ToInt32Mod(acc * p, to);
      ShiftMod(acc, bits, to - bits);
    }
    Pow2Add(bits, to - bits);
    DivMod(acc, b);
    PadNumber(Value(data, from), Value(ret, to), b, l, p);
    PadFits(l, b, p);
    PadDigits(Value(data, from) * p, ret, l * p, to);
  }

  lemma PadNumber(w: int, v: int, b: int, l: int, p: int)
    requires w == v * b + l
    ensures w * p == v * (b * p) + l * p
  {
    Expand(v * b, l, p);
    Assoc(v, b, p);
  }

  lemma PadFits(l: int, b: int, p: int)
    requires 0 <= l < b && 0 < p
    ensures 0 <= l * p < b * p
  {
    MulMono(0, l, p);
    MulMono(l + 1, b, p);
    Expand(l, 1, p);
  }

  lemma PadDigits(x: int, ret: seq<int>, d: int, to: nat)
    requires Fits(ret, to) && 0 <= d < Pow2(to) && x == Value(ret, to) * Pow2(to) + d
    ensures ToDigits(x, to, |ret| + 1) == ret + [d]
  {
    DigitsSnoc(x, Value(ret, to), d, to, |ret|);
    DigitsOfValue(ret, to);
  }

  lemma DigitsSnoc(x: int, q: int, d: int, to: nat, n: nat)
    requires 0 <= d < Pow2(to) && x == q * Pow2(to) + d
    ensures ToDigits(x, to, n + 1) == ToDigits(q, to, n) + [d]
  {
    ModUnique(x, q, d, Pow2(to));
  }

  /** What the code after the loop returns. */
  lemma Finish(acc: int, bits: nat, ret: seq<int>, to: nat, data: seq<int>, from: nat)
    requires Pending(acc, bits, ret, to, data, from) && bits < to <= 32 && 1 <= from && Fits(data, from)
    ensures var last := ToInt32(acc * Pow2(to - bits)) % Pow2(to);
            && Regroup(data, from, to, true) == Regrouped(if bits > 0 then ret + [last] else ret)
            && Regroup(data, from, to, false)
               == (if bits >= from || last != 0 then Rejected(InvalidPadding) else Regrouped(ret))
  {
    RegroupIs(data, from, to, |ret|, bits, |data| * from, |ret| * to);
    FinishNumber(acc, bits, ret, to, data, from);
  }

  lemma FinishNumber(acc: int, bits: nat, ret: seq<int>, to: nat, data: seq<int>, from: nat)
    requires Pending(acc, bits, ret, to, data, from) && bits < to <= 32 && 1 <= from
    ensures var v, last := Value(data, from), ToInt32(acc * Pow2(to - bits)) % Pow2(to);
            && Padded(v, |ret|, bits, to) == (if bits > 0 then ret + [last] else ret)
            && Trimmed(v, |ret|, bits, from, to)
               == (if bits >= from || last != 0 then Rejected(InvalidPadding) else Regrouped(ret))
  {
    Leftover(acc, bits, ret, to, data, from);
    Pad(acc, bits, ret, to, data, from);
    if acc % Pow2(bits) != 0 {
      MulMono(1, acc % Pow2(bits), Pow2(to - bits));
    }
  }

  lemma InRange(value: int, m: int)
    requires 0 < m
    ensures (value < 0 || value / m != 0) <==> !(0 <= value < m)
  {
    DivMod(value, m);
    if 0 <= value < m {
      ModUnique(value, 0, value, m);
    }
  }

  /** The accumulator loop, on 32-bit arithmetic, computes Regroup. Up to to - 1 bits are pending when from
      more come in, and 32 are kept. */
  method Convert(data: seq<Int32>, from: nat, to: nat, pad: bool) returns (r: Result)
    requires 1 <= from <= 31 && 1 <= to <= 31 && from + to <= 33
    ensures r == Regroup(data, from, to, pad)
  {
    var acc, bits, ret := 0, 0, [];
    for i := 0 to |data|
      invariant 0 <= bits < to
      invariant Fits(data[..i], from)
      invariant Pending(acc, bits, ret, to, data[..i], from)
    {
      var value := data[i];
      InRange(value, Pow2(from));
      if value < 0 || value / Pow2(from) != 0 {
        return Rejected(InvalidValue);
      }
      assert data[..i + 1] == data[..i] + [value];
      Feed(acc, bits, ret, to, data[..i], from, value);
      acc, bits := ToInt32(acc * Pow2(from)) + value, bits + from;
      bits, ret := Drain(acc, bits, ret, to, data[..i + 1], from);
    }
    assert data[..|data|] == data;
    Finish(acc, bits, ret, to, data, from);
    var last := ToInt32(acc * Pow2(to - bits)) % Pow2(to);
    if pad {
      if bits > 0 { ret := ret + [last]; }
    } else if bits >= from || last != 0 {
      return Rejected(InvalidPadding);
    }
    return Regrouped(ret);
  }

  /** The inner loop: emit digits while a whole one is pending. */
  method Drain(acc: int, pending: nat, out: seq<int>, to: nat, ghost read: seq<int>, ghost from: nat)
    returns (bits: nat, ret: seq<int>)
    requires 1 <= to && Pending(acc, pending, out, to, read, from)
    ensures bits < to && Pending(acc, bits, ret, to, read, from)
  {
    bits, ret := pending, out;
    while bits >= to
      invariant Pending(acc, bits, ret, to, read, from)
    {
      Emit(acc, bits, ret, to, read, from);
      bits := bits - to;
      ret := ret + [acc / Pow2(bits) % Pow2(to)];
    }
  }

  /** Widening bytes to padded 5-bit groups (or any such pair of widths) is always possible, the
      narrowing check never fires on the result, and narrowing gives the original back. */
  lemma RegroupRoundTrip(data: seq<int>, from: nat, to: nat)
    requires 1 <= to < from && Fits(data, from)
    ensures var mid := Regroup(data, from, to, true);
            && mid.Regrouped? && Fits(mid.digits, to)
            && Regroup(mid.digits, to, from, false) == Regrouped(data)
  {
    var total := |data| * from;
    DivMod(total, to);
    var p := if total % to == 0 then 0 else to - total % to;
    var n := if total % to == 0 then total / to else total / to + 1;
    var v, mid := Value(data, from), ToDigits(Value(data, from) * Pow2(p), to, n);
    assert n * to == total + p by { Expand(total / to, 1, to); }
    assert Regroup(data, from, to, true) == Regrouped(mid);
    ToDigitsFits(v * Pow2(p), to, n);
    PaddedValue(data, from, to, n, p, total);
    // Going back, the leftover is exactly the padding.
    RegroupIs(mid, to, from, |data|, p, n * to, total);
    TrimsBack(v, data, p, to, from);
  }

  lemma TrimsBack(v: int, data: seq<int>, p: nat, to: nat, from: nat)
    requires p < to && Fits(data, from) && v == Value(data, from)
    ensures Trimmed(v * Pow2(p), |data|, p, to, from) == Regrouped(data)
  {
    ModUnique(v * Pow2(p), v, 0, Pow2(p));
    DigitsOfValue(data, from);
  }

  /** The padded digits spell the number followed by p zero bits: nothing overflows n digits. */
  lemma PaddedValue(data: seq<int>, from: nat, to: nat, n: nat, p: nat, total: nat)
    requires Fits(data, from) && total == |data| * from && n * to == total + p
    ensures Value(ToDigits(Value(data, from) * Pow2(p), to, n), to) == Value(data, from) * Pow2(p)
  {
    ValueBounds(data, from);
    var v := Value(data, from);
    Pow2Add(total, p);
    PadFits(v, Pow2(total), Pow2(p));
    ValueOfDigits(v * Pow2(p), to, n);
  }

  /** Narrowing accepts canonical groupings only: what it accepts widens back to itself. */
  lemma NarrowingIsCanonical(data: seq<int>, from: nat, to: nat)
    requires 1 <= from < to && Regroup(data, from, to, false).Regrouped?
    ensures var out := Regroup(data, from, to, false).digits;
            Fits(out, to) && Regroup(out, to, from, true) == Regrouped(data)
  {
    var total := |data| * from;
    var n, rest := total / to, total % to;
    DivMod(total, to);
    NarrowedIsCanonical(data, from, to, n, rest, total, n * to);
  }

  lemma NarrowedIsCanonical(data: seq<int>, from: nat, to: nat, n: nat, rest: nat, total: nat, whole: nat)
    requires 1 <= from < to && rest < from && Fits(data, from) && Value(data, from) % Pow2(rest) == 0
    requires total == |data| * from && whole == n * to && total == whole + rest
    ensures var out := ToDigits(Value(data, from) / Pow2(rest), to, n);
            Fits(out, to) && Regroup(out, to, from, true) == Regrouped(data)
  {
    ValueBounds(data, from);
    var out := ToDigits(Value(data, from) / Pow2(rest), to, n);
    DigitsAbove(Value(data, from), n, to, whole, rest);
    WidensBack(data, out, whole, total, from, to, rest);
  }

  /** The dropped bits are exactly the padding that widening puts back. */
  lemma WidensBack(data: seq<int>, out: seq<int>, whole: nat, total: nat, from: nat, to: nat, rest: nat)
    requires 1 <= from < to && rest < from && Fits(data, from) && Fits(out, to)
    requires total == |data| * from && whole == |out| * to && total == whole + rest
    requires Value(out, to) * Pow2(rest) == Value(data, from)
    ensures Regroup(out, to, from, true) == Regrouped(data)
  {
    if rest == 0 {
      assert Value(out, to) == Value(data, from) by { assert Pow2(rest) == 1; }
      WidensWhole(data, out, whole, from, to);
    } else {
      RestOf(|data|, total, whole, from, rest);
      WidensPart(data, |data| - 1, out, whole, total - from, from, to, rest);
    }
  }

  lemma RestOf(d: nat, total: nat, whole: nat, from: nat, rest: nat)
    requires 0 < rest < from && total == d * from && total == whole + rest
    ensures d > 0 && (d - 1) * from == total - from
  {
    if d > 0 {
      Expand(d, -1, from);
    }
  }

  /** The digits of a number whose low bits are clear, without those bits. */
  lemma DigitsAbove(v: nat, n: nat, to: nat, high: nat, rest: nat)
    requires high == n * to && v < Pow2(high + rest) && v % Pow2(rest) == 0
    ensures var out := ToDigits(v / Pow2(rest), to, n);
            Fits(out, to) && |out| == n && Value(out, to) * Pow2(rest) == v
  {
    var p, q := Pow2(rest), v / Pow2(rest);
    DivMod(v, p);
    ToDigitsFits(q, to, n);
    assert 0 <= q < Pow2(high) by {
      Pow2Add(high, rest);
      QuotientBound(v, p, Pow2(high));
    }
    ValueOfDigits(q, to, n);
  }

  lemma PaddedIs(v: int, n: nat, rest: nat, to: nat, p: nat, w: int)
    requires 0 < rest < to && p == to - rest && w == v * Pow2(p)
    ensures Padded(v, n, rest, to) == ToDigits(w, to, n + 1)
  {
  }

  /** Padding puts the dropped bits back. */
  lemma PadsBack(v: int, data: seq<int>, n: nat, from: nat, rest: nat)
    requires 0 < rest < from && Fits(data, from) && v * Pow2(rest) == Value(data, from) && n + 1 == |data|
    ensures Padded(v, n, from - rest, from) == data
  {
    DigitsOfValue(data, from);
    PaddedIs(v, n, from - rest, from, rest, Value(data, from));
  }

  lemma WidensPart(data: seq<int>, n: nat, out: seq<int>, total: nat, whole: nat, from: nat, to: nat, rest: nat)
    requires 0 < rest < from < to && Fits(data, from) && Fits(out, to)
    requires n + 1 == |data| && whole == n * from && total == |out| * to && total == whole + (from - rest)
    requires Value(out, to) * Pow2(rest) == Value(data, from)
    ensures Regroup(out, to, from, true) == Regrouped(data)
  {
    PadsBack(Value(out, to), data, n, from, rest);
    RegroupIs(out, to, from, n, from - rest, total, whole);
  }

  lemma WidensWhole(data: seq<int>, out: seq<int>, total: nat, from: nat, to: nat)
    requires 1 <= from < to && Fits(data, from) && Fits(out, to)
    requires total == |data| * from && total == |out| * to
    requires Value(out, to) == Value(data, from)
    ensures Regroup(out, to, from, true) == Regrouped(data)
  {
    DigitsOfValue(data, from);
    RegroupIs(out, to, from, |data|, 0, total, total);
  }
}
