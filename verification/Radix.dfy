/** Powers of two and big-endian positional notation. A sequence of w-bit digits is identified
    with the number it spells, which is what a change of digit width has to preserve. */
module Radix {

  // ----- products and remainders of integers

  lemma MulMono(a: int, b: int, c: int)
    requires a <= b && 0 <= c
    ensures a * c <= b * c
  {}

  lemma Expand(a: int, b: int, c: int)
    ensures (a + b) * c == a * c + b * c
  {}

  lemma Assoc(a: int, b: int, c: int)
    ensures a * b * c == a * (b * c)
  {}

  lemma DivMod(x: int, m: int)
    requires 0 < m
    ensures x == x / m * m + x % m && 0 <= x % m < m
  {}

  /** Quotient and remainder are unique. */
  lemma ModUnique(x: int, q: int, r: int, m: int)
    requires 0 <= r < m && x == q * m + r
    ensures x / m == q && x % m == r
  {
    DivMod(x, m);
    var e := q - x / m;
    Expand(q, -(x / m), m);
    assert e * m == x % m - r;
    if e >= 1 {
      MulMono(1, e, m);
    } else if e <= -1 {
      MulMono(e, -1, m);
    }
  }

  /** Dividing twice. */
  lemma DivTwice(x: nat, a: nat, b: nat)
    requires a > 0 && b > 0
    ensures x / a / b == x / (a * b)
  {
    var q, r := x / a, x % a;
    var p, s := q / b, q % b;
    DivMod(x, a);
    DivMod(q, b);
    MulMono(s + 1, b, a);
    assert q * a == p * (a * b) + s * a by {
      Expand(p * b, s, a);
      Assoc(p, b, a);
    }
    Expand(s, 1, a);
    ModUnique(x, p, s * a + r, a * b);
  }

  lemma SplitCore(x: int, l: int, t: int)
    requires 0 < l && 0 < t && 0 < l * t
    ensures x % (l * t) == (x / l) % t * l + x % l
  {
    var y, r := x / l, x % l;
    var q, d := y / t, y % t;
    DivMod(x, l);
    DivMod(y, t);
    Expand(q * t, d, l);
    Assoc(q, t, l);
    assert x == q * (l * t) + (d * l + r);
    MulMono(d, t - 1, l);
    MulMono(0, d, l);
    Expand(t, -1, l);
    ModUnique(x, q, d * l + r, l * t);
  }

  lemma ShiftCore(x: int, l: int, s: int)
    requires 0 < l && 0 < s && 0 < l * s
    ensures (x * s) % (l * s) == x % l * s
  {
    var q, r := x / l, x % l;
    DivMod(x, l);
    Expand(q * l, r, s);
    Assoc(q, l, s);
    assert x * s == q * (l * s) + r * s;
    MulMono(r, l - 1, s);
    MulMono(0, r, s);
    Expand(l, -1, s);
    ModUnique(x * s, q, r * s, l * s);
  }

  lemma WrapCore(x: int, n: int, m: int, c: int)
    requires 0 < m
    ensures (x + n * (m * c)) % m == x % m
  {
    DivMod(x, m);
    Assoc(n, c, m);
    Expand(x / m, n * c, m);
    ModUnique(x + n * (m * c), x / m + n * c, x % m, m);
  }

  // ----- powers of two

  function Pow2(n: nat): (r: nat)
    ensures r >= 1
  {
    if n == 0 then 1 else 2 * Pow2(n - 1)
  }

  lemma {:induction false} Pow2Add(a: nat, b: nat)
    ensures Pow2(a + b) == Pow2(a) * Pow2(b)
  {
    if b == 0 {
    } else {
      Pow2Add(a, b - 1);
      assert Pow2(a + b) == 2 * Pow2(a + (b - 1));
    }
  }

  /** The low `lo + to` bits are the low `lo` bits under the next `to`. */
  lemma SplitMod(x: int, lo: nat, to: nat)
    ensures x % Pow2(lo + to) == (x / Pow2(lo)) % Pow2(to) * Pow2(lo) + x % Pow2(lo)
  {
    Pow2Add(lo, to);
    SplitCore(x, Pow2(lo), Pow2(to));
  }

  /** Shifting left by `sh` moves the low `lo` bits up and fills with zeros. */
  lemma ShiftMod(x: int, lo: nat, sh: nat)
    ensures (x * Pow2(sh)) % Pow2(lo + sh) == x % Pow2(lo) * Pow2(sh)
  {
    Pow2Add(lo, sh);
    ShiftCore(x, Pow2(lo), Pow2(sh));
  }

  /** Adding a multiple of 2^w does not show in the low k <= w bits. */
  lemma WrapMod(x: int, n: int, k: nat, w: nat)
    requires k <= w
    ensures (x + n * Pow2(w)) % Pow2(k) == x % Pow2(k)
  {
    Pow2Add(k, w - k);
    WrapCore(x, n, Pow2(k), Pow2(w - k));
  }

  // ----- digits

  /** Every digit fits in w bits. */
  predicate Fits(ds: seq<int>, w: nat) {
    forall i :: 0 <= i < |ds| ==> 0 <= ds[i] < Pow2(w)
  }

  /** The number spelled by w-bit digits, most significant first. */
  function Value(ds: seq<int>, w: nat): int {
    if ds == [] then 0 else Value(ds[..|ds| - 1], w) * Pow2(w) + ds[|ds| - 1]
  }

  lemma ValueSnoc(ds: seq<int>, d: int, w: nat)
    ensures Value(ds + [d], w) == Value(ds, w) * Pow2(w) + d
  {
    assert (ds + [d])[..|ds|] == ds;
  }

  /** The n least significant w-bit digits of x, most significant first. */
  function ToDigits(x: int, w: nat, n: nat): seq<int>
    decreases n
  {
    if n == 0 then [] else ToDigits(x / Pow2(w), w, n - 1) + [x % Pow2(w)]
  }

  lemma {:induction false} ToDigitsFits(x: int, w: nat, n: nat)
    ensures |ToDigits(x, w, n)| == n && Fits(ToDigits(x, w, n), w)
    decreases n
  {
    if n == 0 {
    } else {
      ToDigitsFits(x / Pow2(w), w, n - 1);
      DivMod(x, Pow2(w));
    }
  }

  /** Reading the digits off a number undoes spelling it. */
  lemma {:induction false} DigitsOfValue(ds: seq<int>, w: nat)
    requires Fits(ds, w)
    ensures ToDigits(Value(ds, w), w, |ds|) == ds
  {
    if ds == [] {
    } else {
      var init, last := ds[..|ds| - 1], ds[|ds| - 1];
      DigitsOfValue(init, w);
      ModUnique(Value(ds, w), Value(init, w), last, Pow2(w));
      assert init + [last] == ds;
    }
  }

  lemma {:induction false} ValueBounds(ds: seq<int>, w: nat)
    requires Fits(ds, w)
    ensures 0 <= Value(ds, w) < Pow2(|ds| * w)
  {
    if ds == [] {
    } else {
      var init := ds[..|ds| - 1];
      ValueBounds(init, w);
      Expand(|init|, 1, w);
      Pow2Add(|init| * w, w);
      MulMono(0, Value(init, w), Pow2(w));
      MulMono(Value(init, w), Pow2(|init| * w) - 1, Pow2(w));
      Expand(Pow2(|init| * w), -1, Pow2(w));
    }
  }

  lemma {:induction false} ValueOfDigits(x: int, w: nat, n: nat)
    requires 0 <= x < Pow2(n * w)
    ensures Value(ToDigits(x, w, n), w) == x
    decreases n
  {
    if n == 0 {
    } else {
      Expand(n - 1, 1, w);
      Pow2Add((n - 1) * w, w);
      DivMod(x, Pow2(w));
      QuotientBound(x, Pow2(w), Pow2((n - 1) * w));
      ValueOfDigits(x / Pow2(w), w, n - 1);
      ValueSnoc(ToDigits(x / Pow2(w), w, n - 1), x % Pow2(w), w);
    }
  }

  lemma QuotientBound(x: int, m: int, b: int)
    requires 0 < m && 0 <= x < b * m
    ensures 0 <= x / m < b
  {
    DivMod(x, m);
    if x / m >= b {
      MulMono(b, x / m, m);
    }
  }

  lemma QuotientAtLeast(x: nat, d: nat, k: nat)
    requires d > 0 && k * d <= x
    ensures k <= x / d
  {
    var y := x - k * d;
    DivMod(y, d);
    Expand(k, y / d, d);
    ModUnique(x, k + y / d, y % d, d);
  }
}
