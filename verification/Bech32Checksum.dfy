/** The Bech32 checksum register of experiments/migration_cost/bech32.js: a 30-bit shift register
    with feedback, fed five bits at a time. The register is written in its six 5-bit groups, most
    significant first: `chk >> 25` is the first group, `(chk & 0x1ffffff) << 5` drops it and appends
    a zero group, and `^` acts group by group. */
module Bech32Checksum {
  type Word = w: seq<bv5> | |w| == 6 witness [0, 0, 0, 0, 0, 0]

  const ZERO: Word := [0, 0, 0, 0, 0, 0]
  const ONE: Word := [0, 0, 0, 0, 0, 1]

  /** The five generator words. */
  const GEN: seq<Word> := [
    [29, 22, 20, 21, 29, 18], [19, 5, 1, 3, 19, 13], [15, 10, 2, 6, 15, 26],
    [30, 20, 4, 12, 30, 29], [21, 1, 8, 24, 21, 19]]

  /** The number a register state stands for. */
  function Number(w: Word): nat {
    ((((w[0] as nat * 32 + w[1] as nat) * 32 + w[2] as nat) * 32 + w[3] as nat) * 32 + w[4] as nat) * 32 + w[5] as nat
  }

  lemma Generators()
    ensures Number(GEN[0]) == 0x3b6a57b2 && Number(GEN[1]) == 0x26508e6d && Number(GEN[2]) == 0x1ea119fa
    ensures Number(GEN[3]) == 0x3d4233dd && Number(GEN[4]) == 0x2a1462b3
  {}

  function Xor(a: Word, b: Word): Word {
    seq(6, i requires 0 <= i < 6 => a[i] ^ b[i])
  }

  /** Bit i of a 5-bit group. */
  predicate Bit(top: bv5, i: nat) {
    match i
    case 0 => top & 1 != 0
    case 1 => top & 2 != 0
    case 2 => top & 4 != 0
    case 3 => top & 8 != 0
    case _ => top & 16 != 0
  }

  function When(b: bool, g: Word): Word {
    if b then g else ZERO
  }

  /** The generator words selected by bits i to 4 of the group shifted out. */
  function Feedback(top: bv5, i: nat): Word
    requires i <= 5
    decreases 5 - i
  {
    if i == 5 then ZERO else Xor(When(Bit(top, i), GEN[i]), Feedback(top, i + 1))
  }

  function Step(chk: Word, v: Word): Word {
    Xor(Xor(chk[1..] + [0], v), Feedback(chk[0], 0))
  }

  function Fold(chk: Word, values: seq<Word>): Word
    decreases |values|
  {
    if values == [] then chk else Fold(Step(chk, values[0]), values[1..])
  }

  function Polymod(values: seq<Word>): Word {
    Fold(ONE, values)
  }

  // ----- exclusive or is the addition of a vector space over GF(2)

  lemma GroupLaws(a: bv5, b: bv5, c: bv5)
    ensures (a ^ b) ^ c == a ^ (b ^ c)
    ensures a ^ b == b ^ a
    ensures a ^ 0 == a
    ensures a ^ b == 0 <==> a == b
  {}

  lemma XorAssoc(a: Word, b: Word, c: Word)
    ensures Xor(Xor(a, b), c) == Xor(a, Xor(b, c))
  {
    forall i | 0 <= i < 6 ensures Xor(Xor(a, b), c)[i] == Xor(a, Xor(b, c))[i] { GroupLaws(a[i], b[i], c[i]); }
  }

  lemma XorComm(a: Word, b: Word)
    ensures Xor(a, b) == Xor(b, a)
  {
    forall i | 0 <= i < 6 ensures Xor(a, b)[i] == Xor(b, a)[i] { GroupLaws(a[i], b[i], 0); }
  }

  lemma XorZero(a: Word)
    ensures Xor(a, ZERO) == a && Xor(ZERO, a) == a
  {
    forall i | 0 <= i < 6 ensures Xor(a, ZERO)[i] == a[i] { GroupLaws(a[i], 0, 0); }
    XorComm(a, ZERO);
  }

  lemma XorCancel(a: Word, b: Word)
    ensures Xor(a, b) == ZERO <==> a == b
  {
    forall i | 0 <= i < 6 ensures Xor(a, b)[i] == 0 <==> a[i] == b[i] { GroupLaws(a[i], b[i], 0); }
    if Xor(a, b) == ZERO {
      forall i | 0 <= i < 6 ensures a[i] == b[i] { assert Xor(a, b)[i] == 0; }
    }
  }

  /** Moving a term across an equation. */
  lemma XorMove(a: Word, b: Word, c: Word)
    ensures Xor(a, b) == c <==> b == Xor(a, c)
  {
    XorCancel(a, a);
    XorAssoc(a, a, b);
    XorAssoc(a, a, c);
    XorZero(b);
    XorZero(c);
  }

  lemma Interchange(a: Word, b: Word, c: Word, d: Word)
    ensures Xor(Xor(a, b), Xor(c, d)) == Xor(Xor(a, c), Xor(b, d))
  {
    XorAssoc(Xor(a, b), c, d);
    XorAssoc(a, b, c);
    XorComm(b, c);
    XorAssoc(a, c, b);
    XorAssoc(Xor(a, c), b, d);
  }

  // ----- the register is linear over GF(2)

  lemma BitLinear(t: bv5, u: bv5, i: nat)
    ensures Bit(t ^ u, i) <==> Bit(t, i) != Bit(u, i)
  {}

  lemma {:induction false} FeedbackLinear(t: bv5, u: bv5, i: nat)
    requires i <= 5
    ensures Feedback(t ^ u, i) == Xor(Feedback(t, i), Feedback(u, i))
    decreases 5 - i
  {
    if i == 5 {
      XorZero(ZERO);
    } else {
      var g := GEN[i];
      BitLinear(t, u, i);
      XorCancel(g, g);
      XorZero(g);
      XorZero(ZERO);
      assert When(Bit(t ^ u, i), g) == Xor(When(Bit(t, i), g), When(Bit(u, i), g));
      FeedbackLinear(t, u, i + 1);
      Interchange(When(Bit(t, i), g), When(Bit(u, i), g), Feedback(t, i + 1), Feedback(u, i + 1));
    }
  }

  lemma ShiftLinear(c: Word, d: Word)
    ensures Xor(c, d)[1..] + [0] == Xor(c[1..] + [0], d[1..] + [0])
  {
    GroupLaws(0, 0, 0);
  }

  lemma StepLinear(c: Word, v: Word, d: Word, w: Word)
    ensures Step(Xor(c, d), Xor(v, w)) == Xor(Step(c, v), Step(d, w))
  {
    var sc: Word, sd: Word := c[1..] + [0], d[1..] + [0];
    var fc, fd := Feedback(c[0], 0), Feedback(d[0], 0);
    ShiftLinear(c, d);
    FeedbackLinear(c[0], d[0], 0);
    Interchange(sc, sd, v, w);
    Interchange(Xor(sc, v), Xor(sd, w), fc, fd);
  }

  /** Symbol-wise exclusive or of two inputs of the same length. */
  ghost function Sum(a: seq<Word>, b: seq<Word>): seq<Word>
    requires |a| == |b|
  {
    seq(|a|, i requires 0 <= i < |a| => Xor(a[i], b[i]))
  }

  /** Running the register commutes with exclusive or, of states and of inputs together. */
  lemma {:induction false} FoldLinear(c: Word, a: seq<Word>, d: Word, b: seq<Word>)
    requires |a| == |b|
    ensures Fold(Xor(c, d), Sum(a, b)) == Xor(Fold(c, a), Fold(d, b))
    decreases |a|
  {
    if a == [] {
    } else {
      StepLinear(c, a[0], d, b[0]);
      assert Sum(a, b)[1..] == Sum(a[1..], b[1..]);
      FoldLinear(Step(c, a[0]), a[1..], Step(d, b[0]), b[1..]);
    }
  }

  lemma {:induction false} FoldConcat(chk: Word, a: seq<Word>, b: seq<Word>)
    ensures Fold(chk, a + b) == Fold(Fold(chk, a), b)
    decreases |a|
  {
    if a == [] {
      assert a + b == b;
    } else {
      assert (a + b)[1..] == a[1..] + b;
      FoldConcat(Step(chk, a[0]), a[1..], b);
    }
  }

  // ----- the register loses nothing

  /** Group k of the feedback, by itself. */
  function Lane(top: bv5, k: nat): bv5
    requires k < 6
  {
    When(Bit(top, 0), GEN[0])[k] ^ (When(Bit(top, 1), GEN[1])[k] ^ (When(Bit(top, 2), GEN[2])[k]
    ^ (When(Bit(top, 3), GEN[3])[k] ^ (When(Bit(top, 4), GEN[4])[k] ^ 0))))
  }

  lemma LaneIs(top: bv5, k: nat)
    requires k < 6
    ensures Feedback(top, 0)[k] == Lane(top, k)
  {
    assert Feedback(top, 5)[k] == 0;
    LaneStep(top, 4, k);
    LaneStep(top, 3, k);
    LaneStep(top, 2, k);
    LaneStep(top, 1, k);
    LaneStep(top, 0, k);
  }

  lemma LaneStep(top: bv5, i: nat, k: nat)
    requires i < 5 && k < 6
    ensures Feedback(top, i)[k] == When(Bit(top, i), GEN[i])[k] ^ Feedback(top, i + 1)[k]
  {}

  /** The bit matrix of the generator words' last groups is regular. */
  lemma LastGroupRegular(top: bv5)
    requires Lane(top, 5) == 0
    ensures top == 0
  {}

  lemma {:induction false} FeedbackOfZero(i: nat)
    requires i <= 5
    ensures Feedback(0, i) == ZERO
    decreases 5 - i
  {
    if i < 5 {
      FeedbackOfZero(i + 1);
      XorZero(ZERO);
    }
  }

  /** The group shifted out always leaves a trace in the last group, which nothing else reaches. */
  lemma StepKernel(d: Word)
    requires Step(d, ZERO) == ZERO
    ensures d == ZERO
  {
    var sh: Word := d[1..] + [0];
    XorZero(sh);
    XorCancel(sh, Feedback(d[0], 0));
    LaneIs(d[0], 5);
    assert sh[5] == 0;
    LastGroupRegular(d[0]);
    FeedbackOfZero(0);
    assert forall i :: 1 <= i < 6 ==> d[i] == sh[i - 1];
  }

  /** For each value the step is injective on the 2^30 states. */
  lemma StepInjective(c: Word, d: Word, v: Word)
    ensures Step(c, v) == Step(d, v) <==> c == d
  {
    StepLinear(c, v, d, v);
    XorCancel(v, v);
    XorCancel(Step(c, v), Step(d, v));
    XorCancel(c, d);
    if Step(c, v) == Step(d, v) {
      StepKernel(Xor(c, d));
    }
  }

  /** The group whose feedback ends in x. */
  function TopFor(x: bv5): bv5 {
    (if x & 1 != 0 then 17 else 0) ^ (if x & 2 != 0 then 11 else 0) ^ (if x & 4 != 0 then 22 else 0)
    ^ (if x & 8 != 0 then 5 else 0) ^ (if x & 16 != 0 then 10 else 0)
  }

  lemma TopForInverts(x: bv5)
    ensures Lane(TopFor(x), 5) == x
  {
  }

  lemma TopWith(x: bv5) returns (top: bv5)
    ensures Feedback(top, 0)[5] == x
  {
    top := TopFor(x);
    TopForInverts(x);
    LaneIs(top, 5);
  }

  lemma StepAt(w: Word, v: Word, k: nat)
    requires k < 6
    ensures Step(w, v)[k] == ((w[1..] + [0])[k] ^ v[k]) ^ Feedback(w[0], 0)[k]
  {
  }

  lemma SameGroups(a: Word, b: Word)
    requires a[0] == b[0] && a[1] == b[1] && a[2] == b[2] && a[3] == b[3] && a[4] == b[4] && a[5] == b[5]
    ensures a == b
  {
  }

  lemma Undo(a: bv5, b: bv5, c: bv5)
    ensures ((((a ^ b) ^ c) ^ b) ^ c) == a && ((0 ^ b) ^ (a ^ b)) == a
  {
  }

  lemma StepTo(w: Word, v: Word, f: Word, k: nat, x: bv5)
    requires k < 5 && f == Feedback(w[0], 0) && w[k + 1] == (x ^ v[k]) ^ f[k]
    ensures Step(w, v)[k] == x
  {
    StepAt(w, v, k);
    Undo(x, v[k], f[k]);
  }

  lemma StepToLast(w: Word, v: Word, f: Word, x: bv5)
    requires f == Feedback(w[0], 0) && f[5] == x ^ v[5]
    ensures Step(w, v)[5] == x
  {
    StepAt(w, v, 5);
    Undo(x, v[5], 0);
  }

  lemma StepReachesFirst(w: Word, v: Word, f: Word, r: Word)
    requires f == Feedback(w[0], 0)
    requires w[1] == (r[0] ^ v[0]) ^ f[0] && w[2] == (r[1] ^ v[1]) ^ f[1] && w[3] == (r[2] ^ v[2]) ^ f[2]
    ensures Step(w, v)[0] == r[0] && Step(w, v)[1] == r[1] && Step(w, v)[2] == r[2]
  {
    StepTo(w, v, f, 0, r[0]);
    StepTo(w, v, f, 1, r[1]);
    StepTo(w, v, f, 2, r[2]);
  }

  lemma StepReachesLast(w: Word, v: Word, f: Word, r: Word)
    requires f == Feedback(w[0], 0) && f[5] == r[5] ^ v[5]
    requires w[4] == (r[3] ^ v[3]) ^ f[3] && w[5] == (r[4] ^ v[4]) ^ f[4]
    ensures Step(w, v)[3] == r[3] && Step(w, v)[4] == r[4] && Step(w, v)[5] == r[5]
  {
    StepTo(w, v, f, 3, r[3]);
    StepTo(w, v, f, 4, r[4]);
    StepToLast(w, v, f, r[5]);
  }

  /** Every state is reached, so that the step is a bijection of the states. */
  lemma StepOnto(r: Word, v: Word) returns (w: Word)
    ensures Step(w, v) == r
  {
    var top := TopWith(r[5] ^ v[5]);
    var f := Feedback(top, 0);
    w := [top, (r[0] ^ v[0]) ^ f[0], (r[1] ^ v[1]) ^ f[1], (r[2] ^ v[2]) ^ f[2],
          (r[3] ^ v[3]) ^ f[3], (r[4] ^ v[4]) ^ f[4]];
    StepReachesFirst(w, v, f, r);
    StepReachesLast(w, v, f, r);
    SameGroups(Step(w, v), r);
  }

  lemma {:induction false} FoldInjective(c: Word, d: Word, values: seq<Word>)
    ensures Fold(c, values) == Fold(d, values) <==> c == d
    decreases |values|
  {
    if values == [] {
    } else {
      StepInjective(c, d, values[0]);
      FoldInjective(Step(c, values[0]), Step(d, values[0]), values[1..]);
    }
  }

  lemma StepDistinct(s: Word, v: Word, w: Word)
    requires v != w
    ensures Step(s, v) != Step(s, w)
  {
    var sh: Word, f := s[1..] + [0], Feedback(s[0], 0);
    XorComm(Xor(sh, v), f);
    XorComm(Xor(sh, w), f);
    XorMove(f, Xor(sh, v), Step(s, w));
    XorMove(f, Xor(sh, w), Step(s, w));
    XorMove(sh, v, Xor(sh, w));
    XorMove(sh, w, Xor(sh, w));
  }

  /** Changing one symbol changes the register for good, however long the input. */
  lemma SubstitutionShows(chk: Word, before: seq<Word>, v: Word, w: Word, after: seq<Word>)
    requires v != w
    ensures Fold(chk, before + [v] + after) != Fold(chk, before + [w] + after)
  {
    var s := Fold(chk, before);
    FoldSnoc(chk, before, v, after);
    FoldSnoc(chk, before, w, after);
    StepDistinct(s, v, w);
    FoldInjective(Step(s, v), Step(s, w), after);
  }

  lemma FoldSnoc(chk: Word, before: seq<Word>, v: Word, after: seq<Word>)
    ensures Fold(chk, before + [v] + after) == Fold(Step(Fold(chk, before), v), after)
  {
    FoldConcat(chk, before + [v], after);
    FoldConcat(chk, before, [v]);
  }

  // ----- the six checksum symbols

  /** A 5-bit symbol as an input of the register. */
  function Symbol(d: bv5): Word {
    [0, 0, 0, 0, 0, d]
  }

  function Symbols(ds: seq<bv5>): seq<Word> {
    seq(|ds|, i requires 0 <= i < |ds| => Symbol(ds[i]))
  }

  /** The symbols to append in register state s: the groups of the register after six zeros, with
      its last bit flipped. */
  function Checksum(s: Word): seq<bv5> {
    Xor(Fold(s, Symbols(ZERO)), ONE)
  }

  /** With its top group clear, the register just shifts the symbol in. */
  lemma StepRoom(chk: Word, d: bv5)
    requires chk[0] == 0
    ensures Step(chk, Symbol(d)) == chk[1..] + [d]
  {
    FeedbackOfZero(0);
    XorZero(Xor(chk[1..] + [0], Symbol(d)));
    ShiftsIn(chk[1..], d);
  }

  lemma ShiftsIn(groups: seq<bv5>, d: bv5)
    requires |groups| == 5
    ensures Xor(groups + [0], Symbol(d)) == groups + [d]
  {
    forall i | 0 <= i < 5 ensures groups[i] ^ 0 == groups[i] {
      GroupLaws(groups[i], 0, 0);
    }
    GroupLaws(0, d, 0);
    GroupLaws(d, 0, 0);
  }

  /** Symbols over leading zero groups. */
  ghost function Filled(c: seq<bv5>): Word
    requires |c| <= 6
  {
    seq(6, i requires 0 <= i < 6 => if i < 6 - |c| then 0 else c[i - (6 - |c|)])
  }

  lemma FilledSnoc(init: seq<bv5>, d: bv5)
    requires |init| < 6
    ensures Filled(init)[0] == 0 && Filled(init)[1..] + [d] == Filled(init + [d])
  {
  }

  lemma SymbolsSnoc(init: seq<bv5>, d: bv5)
    ensures Symbols(init + [d]) == Symbols(init) + [Symbol(d)]
  {
  }

  /** From a clear register, symbols fill the groups from the right. */
  lemma {:induction false} FoldFills(c: seq<bv5>)
    requires |c| <= 6
    ensures Fold(ZERO, Symbols(c)) == Filled(c)
  {
    if c == [] {
      assert Filled(c) == ZERO;
    } else {
      var init, d := c[..|c| - 1], c[|c| - 1];
      assert c == init + [d];
      FoldFills(init);
      FilledSnoc(init, d);
      FoldsIn(init, d, Filled(init));
      StepRoom(Filled(init), d);
    }
  }

  lemma FoldsIn(init: seq<bv5>, d: bv5, w: Word)
    requires Fold(ZERO, Symbols(init)) == w
    ensures Fold(ZERO, Symbols(init + [d])) == Step(w, Symbol(d))
  {
    SymbolsSnoc(init, d);
    FoldSnoc(ZERO, Symbols(init), Symbol(d), []);
    assert Symbols(init) + [Symbol(d)] + [] == Symbols(init + [d]);
  }

  /** Where two lists of symbols differ. */
  ghost function Differences(a: seq<bv5>, b: seq<bv5>): seq<bv5>
    requires |a| == |b|
  {
    seq(|a|, i requires 0 <= i < |a| => a[i] ^ b[i])
  }

  lemma SymbolSum(a: bv5, b: bv5)
    ensures Xor(Symbol(a), Symbol(b)) == Symbol(a ^ b)
  {
  }

  lemma SumOfSymbols(a: seq<bv5>, b: seq<bv5>)
    requires |a| == |b|
    ensures Sum(Symbols(a), Symbols(b)) == Symbols(Differences(a, b))
  {
    forall i | 0 <= i < |a| ensures Xor(Symbol(a[i]), Symbol(b[i])) == Symbol(a[i] ^ b[i]) {
      SymbolSum(a[i], b[i]);
    }
  }

  lemma FilledShows(c: seq<bv5>, i: nat)
    requires i < |c| <= 6 && c[i] != 0
    ensures Filled(c) != ZERO
  {
    assert Filled(c)[6 - |c| + i] == c[i];
  }

  lemma DifferShows(a: bv5, b: bv5)
    requires a != b
    ensures a ^ b != 0
  {
  }

  /** Up to six symbols in a row leave different states when they differ. */
  lemma BurstDistinct(s: Word, a: seq<bv5>, b: seq<bv5>)
    requires |a| == |b| <= 6 && a != b
    ensures Fold(s, Symbols(a)) != Fold(s, Symbols(b))
  {
    FoldLinear(s, Symbols(a), s, Symbols(b));
    XorCancel(s, s);
    SumOfSymbols(a, b);
    FoldFills(Differences(a, b));
    var i :| 0 <= i < |a| && a[i] != b[i];
    DifferShows(a[i], b[i]);
    FilledShows(Differences(a, b), i);
    XorCancel(Fold(s, Symbols(a)), Fold(s, Symbols(b)));
  }

  /** Changing symbols within a stretch of six changes the register for good, however long the input. */
  lemma BurstShows(chk: Word, before: seq<Word>, a: seq<bv5>, b: seq<bv5>, after: seq<Word>)
    requires |a| == |b| <= 6 && a != b
    ensures Fold(chk, before + Symbols(a) + after) != Fold(chk, before + Symbols(b) + after)
  {
    var s := Fold(chk, before);
    FoldAround(chk, before, Symbols(a), after);
    FoldAround(chk, before, Symbols(b), after);
    BurstDistinct(s, a, b);
    FoldInjective(Fold(s, Symbols(a)), Fold(s, Symbols(b)), after);
  }

  lemma FoldAround(chk: Word, before: seq<Word>, mid: seq<Word>, after: seq<Word>)
    ensures Fold(chk, before + mid + after) == Fold(Fold(Fold(chk, before), mid), after)
  {
    FoldConcat(chk, before + mid, after);
    FoldConcat(chk, before, mid);
  }

  /** A state runs on by itself, and the symbols add to it. */
  lemma FoldSplits(s: Word, c: Word)
    ensures Fold(s, Symbols(c)) == Xor(Fold(s, Symbols(ZERO)), c)
  {
    FoldLinear(s, Symbols(ZERO), ZERO, Symbols(c));
    XorZero(s);
    NothingAdded(c);
    FoldsToItself(c);
  }

  lemma NothingAdded(c: Word)
    ensures Sum(Symbols(ZERO), Symbols(c)) == Symbols(c)
  {
    forall i | 0 <= i < 6 ensures Sum(Symbols(ZERO), Symbols(c))[i] == Symbols(c)[i] {
      XorZero(Symbols(c)[i]);
    }
  }

  lemma FoldsToItself(c: Word)
    ensures Fold(ZERO, Symbols(c)) == c
  {
    FoldFills(c);
    assert Filled(c) == c;
  }

  /** From every state, the appended symbols drive the register to 1, and no other six do. */
  lemma ChecksumIsTheOne(s: Word, c: Word)
    ensures Fold(s, Symbols(c)) == ONE <==> c == Checksum(s)
  {
    FoldSplits(s, c);
    XorMove(Fold(s, Symbols(ZERO)), c, ONE);
  }
}
