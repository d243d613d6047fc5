/** The checksum register as the number that experiments/migration_cost/bech32.js keeps, with shifts, masks
    and exclusive or on numbers, against the six groups of Bech32Checksum. */
module Bech32Word {
  import opened Radix
  import opened Bech32Checksum

  // ----- exclusive or of numbers

  /** `x ^ y` on numbers of k groups of five bits. */
  function BitXor(x: nat, y: nat, k: nat): nat {
    if k == 0 then 0 else 32 * BitXor(x / 32, y / 32, k - 1) + ((x % 32) as bv5 ^ (y % 32) as bv5) as nat
  }

  lemma Group(x: nat, a: bv5)
    ensures (32 * x + a as nat) / 32 == x && (32 * x + a as nat) % 32 == a as nat
  {
  }

  lemma BackToGroup(a: bv5)
    ensures (a as nat) as bv5 == a
  {
  }

  /** The exclusive or of two numbers is that of their last groups after that of the rest. */
  lemma XorGroup(m: nat, x: nat, a: bv5, n: nat, y: nat, b: bv5, k: nat)
    requires k > 0 && m == 32 * x + a as nat && n == 32 * y + b as nat
    ensures BitXor(m, n, k) == 32 * BitXor(x, y, k - 1) + (a ^ b) as nat
  {
    Group(x, a);
    Group(y, b);
    BackToGroup(a);
    BackToGroup(b);
  }

  /** The number of the first k groups. */
  function Front(w: Word, k: nat): nat
    requires k <= 6
  {
    if k == 0 then 0 else 32 * Front(w, k - 1) + w[k - 1] as nat
  }

  lemma FrontIsNumber(w: Word)
    ensures Front(w, 6) == Number(w)
  {
    assert Front(w, 1) == w[0] as nat;
    assert Front(w, 2) == 32 * Front(w, 1) + w[1] as nat;
    assert Front(w, 3) == 32 * Front(w, 2) + w[2] as nat;
    assert Front(w, 4) == 32 * Front(w, 3) + w[3] as nat;
    assert Front(w, 5) == 32 * Front(w, 4) + w[4] as nat;
  }

  lemma XorAt(a: Word, b: Word, i: nat)
    requires i < 6
    ensures Xor(a, b)[i] == a[i] ^ b[i]
  {
  }

  lemma FrontNext(w: Word, k: nat, d: bv5)
    requires k < 6 && w[k] == d
    ensures Front(w, k + 1) == 32 * Front(w, k) + d as nat
  {
  }

  lemma {:induction false} FrontXor(a: Word, b: Word, k: nat)
    requires k <= 6
    ensures Front(Xor(a, b), k) == BitXor(Front(a, k), Front(b, k), k)
  {
    if k > 0 {
      var j := k - 1;
      FrontXor(a, b, j);
      FrontNext(a, j, a[j]);
      FrontNext(b, j, b[j]);
      XorAt(a, b, j);
      FrontNext(Xor(a, b), j, a[j] ^ b[j]);
      XorGroup(Front(a, k), Front(a, j), a[j], Front(b, k), Front(b, j), b[j], k);
    }
  }

  /** Exclusive or of words is exclusive or of their numbers. */
  lemma NumberXor(a: Word, b: Word)
    ensures Number(Xor(a, b)) == BitXor(Number(a), Number(b), 6)
  {
    FrontIsNumber(a);
    FrontIsNumber(b);
    FrontIsNumber(Xor(a, b));
    FrontXor(a, b, 6);
  }

  // ----- the register

  const GENERATORS: seq<nat> := [0x3b6a57b2, 0x26508e6d, 0x1ea119fa, 0x3d4233dd, 0x2a1462b3]

  /** `(top >> i) & 1` chooses the generators. */
  function Tapped(chk: nat, top: nat, i: nat): nat
    requires i <= 5
    decreases 5 - i
  {
    if i == 5 then chk else Tapped(if top / Pow2(i) % 2 == 1 then BitXor(chk, GENERATORS[i], 6) else chk, top, i + 1)
  }

  /** One value into the register. */
  function StepNumber(chk: nat, v: nat): nat {
    Tapped(BitXor(chk % 0x2000000 * 32, v, 6), chk / 0x2000000, 0)
  }

  function FoldNumber(chk: nat, values: seq<nat>): nat
    decreases |values|
  {
    if values == [] then chk else FoldNumber(StepNumber(chk, values[0]), values[1..])
  }

  method ComputePolymod(values: seq<nat>) returns (chk: nat)
    ensures chk == FoldNumber(1, values)
  {
    chk := 1;
    for k := 0 to |values|
      invariant FoldNumber(chk, values[k..]) == FoldNumber(1, values)
    {
      var v := values[k];
      assert values[k..][0] == v && values[k..][1..] == values[k + 1..];
      ghost var before := chk;
      var top := chk / 0x2000000;
      chk := BitXor(chk % 0x2000000 * 32, v, 6);
      for i := 0 to 5
        invariant Tapped(chk, top, i) == StepNumber(before, v)
      {
        if top / Pow2(i) % 2 == 1 {
          chk := BitXor(chk, GENERATORS[i], 6);
        }
      }
    }
  }

  lemma ShiftNumber(w: Word)
    ensures Number(w) / 0x2000000 == w[0] as nat && Number(w[1..] + [0]) == Number(w) % 0x2000000 * 32
  {
    var low := Number([0] + w[1..]);
    assert Number(w) == w[0] as nat * 0x2000000 + low && low < 0x2000000;
  }

  lemma BitsAsNumbers(top: bv5)
    ensures top & 1 != 0 <==> (top as nat) % 2 == 1
    ensures top & 2 != 0 <==> (top as nat) / 2 % 2 == 1
    ensures top & 4 != 0 <==> (top as nat) / 4 % 2 == 1
    ensures top & 8 != 0 <==> (top as nat) / 8 % 2 == 1
    ensures top & 16 != 0 <==> (top as nat) / 16 % 2 == 1
  {
  }

  lemma SmallPowers()
    ensures Pow2(0) == 1 && Pow2(1) == 2 && Pow2(2) == 4 && Pow2(3) == 8 && Pow2(4) == 16
  {
  }

  lemma BitNumber(top: bv5, i: nat)
    requires i < 5
    ensures Bit(top, i) <==> (top as nat) / Pow2(i) % 2 == 1
  {
    SmallPowers();
    BitsAsNumbers(top);
  }

  lemma {:induction false} TappedNumber(c: Word, top: bv5, i: nat)
    requires i <= 5
    ensures Number(Xor(c, Feedback(top, i))) == Tapped(Number(c), top as nat, i)
    decreases 5 - i
  {
    if i == 5 {
      XorZero(c);
    } else {
      var d := if Bit(top, i) then Xor(c, GEN[i]) else c;
      assert Xor(c, Feedback(top, i)) == Xor(d, Feedback(top, i + 1)) by {
        XorAssoc(c, When(Bit(top, i), GEN[i]), Feedback(top, i + 1));
        XorZero(c);
      }
      assert Number(d) == if Bit(top, i) then BitXor(Number(c), GENERATORS[i], 6) else Number(c) by {
        NumberXor(c, GEN[i]);
        Generators();
      }
      BitNumber(top, i);
      TappedNumber(d, top, i + 1);
    }
  }

  /** A step of the grouped register is the step of its number. */
  lemma StepIsNumber(w: Word, v: Word)
    ensures Number(Step(w, v)) == StepNumber(Number(w), Number(v))
  {
    var shifted: Word := w[1..] + [0];
    ShiftNumber(w);
    NumberXor(shifted, v);
    TappedNumber(Xor(shifted, v), w[0], 0);
  }

  function Numbers(ws: seq<Word>): seq<nat> {
    seq(|ws|, i requires 0 <= i < |ws| => Number(ws[i]))
  }

  /** And so is the whole register. */
  lemma {:induction false} FoldIsNumber(w: Word, vs: seq<Word>)
    ensures Number(Fold(w, vs)) == FoldNumber(Number(w), Numbers(vs))
    decreases |vs|
  {
    if vs != [] {
      FoldIsNumber(Step(w, vs[0]), vs[1..]);
      FoldNumberCons(w, vs);
    }
  }

  lemma FoldNumberCons(w: Word, vs: seq<Word>)
    requires vs != []
    ensures FoldNumber(Number(w), Numbers(vs)) == FoldNumber(Number(Step(w, vs[0])), Numbers(vs[1..]))
  {
    StepIsNumber(w, vs[0]);
    assert Numbers(vs)[1..] == Numbers(vs[1..]);
  }

  lemma PolymodIsNumber(ws: seq<Word>)
    ensures Number(Polymod(ws)) == FoldNumber(1, Numbers(ws))
  {
    assert Number(ONE) == 1;
    FoldIsNumber(ONE, ws);
  }

  /** The register on the numbers of the values. */
  method RegisterOf(values: seq<Word>) returns (chk: nat)
    ensures chk == Number(Polymod(values))
  {
    PolymodIsNumber(values);
    chk := ComputePolymod(Numbers(values));
  }

  method XorOne(poly: nat, ghost w: Word) returns (chk: nat)
    requires poly == Number(w)
    ensures chk == Number(Xor(w, ONE))
  {
    NumberXor(w, ONE);
    assert Number(ONE) == 1;
    chk := BitXor(poly, 1, 6);
  }

  // ----- the digits

  lemma {:induction false} GroupOfFront(w: Word, k: nat, i: nat)
    requires i < k <= 6
    ensures Front(w, k) / Pow2(5 * (k - 1 - i)) % 32 == w[i] as nat
  {
    var x := Front(w, k - 1);
    Group(x, w[k - 1]);
    if i < k - 1 {
      var m := 5 * (k - 2 - i);
      assert Pow2(m + 5) == 32 * Pow2(m) by {
        Pow2Add(m, 5);
        assert Pow2(5) == 32;
      }
      DivTwice(Front(w, k), 32, Pow2(m));
      GroupOfFront(w, k - 1, i);
    }
  }

  /** `(chk >> (5 * (5 - i))) & 31`. */
  lemma GroupOfNumber(w: Word, i: nat)
    requires i < 6
    ensures Number(w) / Pow2(5 * (5 - i)) % 32 == w[i] as nat
  {
    FrontIsNumber(w);
    GroupOfFront(w, 6, i);
  }

  lemma NumberInjective(a: Word, b: Word)
    requires Number(a) == Number(b)
    ensures a == b
  {
    forall i | 0 <= i < 6 ensures a[i] == b[i] {
      GroupOfNumber(a, i);
      GroupOfNumber(b, i);
    }
  }

  /** The loop that pushes the checksum symbols: the six groups of five bits, most significant first. */
  method SixGroups(chk: nat, ghost w: Word) returns (checksum: seq<bv5>)
    requires chk == Number(w)
    ensures checksum == w
  {
    checksum := [];
    for i := 0 to 6
      invariant checksum == w[..i]
    {
      GroupOfNumber(w, i);
      BackToGroup(w[i]);
      checksum := checksum + [(chk / Pow2(5 * (5 - i)) % 32) as bv5];
    }
  }
}
