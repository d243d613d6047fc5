/** A single substitution that the Bech32 decoder of experiments/migration_cost/bech32.js accepts: the
    new character is the separator, and the two registers that Bech32.SubstitutionAccepted compares
    coincide. The registers are stepped through a few symbols at a time. */
module Bech32Collision {
  import opened Bech32Checksum
  import opened Bech32
  import ConvertBits
  import Radix

  // ----- stepping through literal symbols

  lemma FeedbackIs(top: bv5, t: Word)
    requires t[0] == Lane(top, 0) && t[1] == Lane(top, 1) && t[2] == Lane(top, 2)
    requires t[3] == Lane(top, 3) && t[4] == Lane(top, 4) && t[5] == Lane(top, 5)
    ensures Feedback(top, 0) == t
  {
    LaneIs(top, 0);
    LaneIs(top, 1);
    LaneIs(top, 2);
    LaneIs(top, 3);
    LaneIs(top, 4);
    LaneIs(top, 5);
    SameGroups(Feedback(top, 0), t);
  }

  lemma StepFirst(w: Word, v: Word, t: Word, r: Word)
    requires t == Feedback(w[0], 0)
    requires r[0] == (w[1] ^ v[0]) ^ t[0] && r[1] == (w[2] ^ v[1]) ^ t[1] && r[2] == (w[3] ^ v[2]) ^ t[2]
    ensures Step(w, v)[0] == r[0] && Step(w, v)[1] == r[1] && Step(w, v)[2] == r[2]
  {
    StepAt(w, v, 0);
    StepAt(w, v, 1);
    StepAt(w, v, 2);
  }

  lemma StepLast(w: Word, v: Word, t: Word, r: Word)
    requires t == Feedback(w[0], 0)
    requires r[3] == (w[4] ^ v[3]) ^ t[3] && r[4] == (w[5] ^ v[4]) ^ t[4] && r[5] == (0 ^ v[5]) ^ t[5]
    ensures Step(w, v)[3] == r[3] && Step(w, v)[4] == r[4] && Step(w, v)[5] == r[5]
  {
    StepAt(w, v, 3);
    StepAt(w, v, 4);
    StepAt(w, v, 5);
  }

  /** One step, group by group. */
  lemma StepIs(w: Word, v: Word, t: Word, r: Word)
    requires t == Feedback(w[0], 0)
    requires r[0] == (w[1] ^ v[0]) ^ t[0] && r[1] == (w[2] ^ v[1]) ^ t[1] && r[2] == (w[3] ^ v[2]) ^ t[2]
    requires r[3] == (w[4] ^ v[3]) ^ t[3] && r[4] == (w[5] ^ v[4]) ^ t[4] && r[5] == (0 ^ v[5]) ^ t[5]
    ensures Step(w, v) == r
  {
    StepFirst(w, v, t, r);
    StepLast(w, v, t, r);
    SameGroups(Step(w, v), r);
  }

  lemma FoldCons(w: Word, d: bv5, ds: seq<bv5>)
    ensures Fold(w, Symbols([d] + ds)) == Fold(Step(w, Symbol(d)), Symbols(ds))
  {
    assert Symbols([d] + ds)[1..] == Symbols(ds);
  }

  lemma FoldTwo(w: Word, a: bv5, b: bv5)
    ensures Fold(w, Symbols([a, b])) == Step(Step(w, Symbol(a)), Symbol(b))
  {
    FoldCons(w, a, [b]);
    FoldCons(Step(w, Symbol(a)), b, []);
    assert [a] + [b] == [a, b] && [b] + [] == [b] && Symbols([]) == [];
  }

  /** A symbol shifted in, with feedback t of the group shifted out. */
  ghost predicate Moves(w: Word, d: bv5, t: Word, r: Word) {
    && t == Feedback(w[0], 0)
    && r[0] == (w[1] ^ 0) ^ t[0] && r[1] == (w[2] ^ 0) ^ t[1] && r[2] == (w[3] ^ 0) ^ t[2]
    && r[3] == (w[4] ^ 0) ^ t[3] && r[4] == (w[5] ^ 0) ^ t[4] && r[5] == (0 ^ d) ^ t[5]
  }

  lemma MoveIs(w: Word, d: bv5, v: Word, t: Word, r: Word)
    requires Moves(w, d, t, r)
    requires v[0] == 0 && v[1] == 0 && v[2] == 0 && v[3] == 0 && v[4] == 0 && v[5] == d
    ensures Step(w, v) == r
  {
    StepIs(w, v, t, r);
  }

  lemma TwoSteps(w: Word, a: bv5, t: Word, m: Word, b: bv5, u: Word, r: Word)
    requires Moves(w, a, t, m) && Moves(m, b, u, r)
    ensures Fold(w, Symbols([a, b])) == r
  {
    MoveIs(w, a, Symbol(a), t, m);
    MoveIs(m, b, Symbol(b), u, r);
    FoldTwo(w, a, b);
  }

  lemma OneStep(w: Word, d: bv5, t: Word, r: Word)
    requires Moves(w, d, t, r)
    ensures Fold(w, Symbols([d])) == r
  {
    MoveIs(w, d, Symbol(d), t, r);
    FoldCons(w, d, []);
    assert [d] + [] == [d] && Symbols([]) == [];
  }

  lemma Both(u: Word, a: seq<bv5>, v: Word, b: seq<bv5>, w: Word)
    requires Fold(u, Symbols(a)) == v && Fold(v, Symbols(b)) == w
    ensures Fold(u, Symbols(a + b)) == w
  {
    SymbolsConcat(a, b);
    FoldConcat(u, Symbols(a), Symbols(b));
  }

  lemma Chain(u: Word, a: seq<bv5>, v: Word, b: seq<bv5>, w: Word, c: seq<bv5>, x: Word, d: seq<bv5>, y: Word)
    requires Fold(u, Symbols(a)) == v && Fold(v, Symbols(b)) == w
    requires Fold(w, Symbols(c)) == x && Fold(x, Symbols(d)) == y
    ensures Fold(u, Symbols(a + b + c + d)) == y
  {
    Both(u, a, v, b, w);
    Both(u, a + b, w, c, x);
    Both(u, a + b + c, x, d, y);
  }

  // ----- the feedback words that come up

  lemma Feedbacks1()
    ensures Feedback(0, 0) == [0, 0, 0, 0, 0, 0]
    ensures Feedback(1, 0) == [29, 22, 20, 21, 29, 18]
    ensures Feedback(2, 0) == [19, 5, 1, 3, 19, 13]
    ensures Feedback(6, 0) == [28, 15, 3, 5, 28, 23]
    ensures Feedback(7, 0) == [1, 25, 23, 16, 1, 5]
    ensures Feedback(9, 0) == [3, 2, 16, 25, 3, 15]
  {
    FeedbackIs(0, [0, 0, 0, 0, 0, 0]);
    FeedbackIs(1, [29, 22, 20, 21, 29, 18]);
    FeedbackIs(2, [19, 5, 1, 3, 19, 13]);
    FeedbackIs(6, [28, 15, 3, 5, 28, 23]);
    FeedbackIs(7, [1, 25, 23, 16, 1, 5]);
    FeedbackIs(9, [3, 2, 16, 25, 3, 15]);
  }

  lemma Feedbacks2()
    ensures Feedback(11, 0) == [16, 7, 17, 26, 16, 2]
    ensures Feedback(12, 0) == [17, 30, 6, 10, 17, 7]
    ensures Feedback(17, 0) == [8, 23, 28, 13, 8, 1]
  {
    FeedbackIs(11, [16, 7, 17, 26, 16, 2]);
    FeedbackIs(12, [17, 30, 6, 10, 17, 7]);
    FeedbackIs(17, [8, 23, 28, 13, 8, 1]);
  }

  lemma Feedbacks4()
    ensures Feedback(20, 0) == [26, 11, 10, 30, 26, 9]
    ensures Feedback(21, 0) == [7, 29, 30, 11, 7, 27]
    ensures Feedback(26, 0) == [24, 16, 13, 23, 24, 3]
  {
    FeedbackIs(20, [26, 11, 10, 30, 26, 9]);
    FeedbackIs(21, [7, 29, 30, 11, 7, 27]);
    FeedbackIs(26, [24, 16, 13, 23, 24, 3]);
  }

  lemma Feedbacks3()
    ensures Feedback(27, 0) == [5, 6, 25, 2, 5, 17]
    ensures Feedback(28, 0) == [4, 31, 14, 18, 4, 20]
    ensures Feedback(29, 0) == [25, 9, 26, 7, 25, 6]
    ensures Feedback(30, 0) == [23, 26, 15, 17, 23, 25]
  {
    FeedbackIs(27, [5, 6, 25, 2, 5, 17]);
    FeedbackIs(28, [4, 31, 14, 18, 4, 20]);
    FeedbackIs(29, [25, 9, 26, 7, 25, 6]);
    FeedbackIs(30, [23, 26, 15, 17, 23, 25]);
  }

  // ----- the address

  const FRONT: seq<bv5> := [6, 21] + [3, 22] + [15, 9] + [25, 8]
  const BACK: seq<bv5> := [23, 20] + [25, 6] + [14, 26]
  const UPPER: seq<bv5> := [1, 3] + [1, 3] + [3, 1] + [3, 3]
  const LOWER: seq<bv5> := [0, 17] + [24, 20] + [18, 11] + [16, 6]

  /** Where both the symbols before the cut and the longer prefix leave the register. */
  const MEETING: Word := [30, 27, 12, 22, 6, 10]

  lemma Front1a()
    ensures Fold([0, 0, 0, 0, 1, 0], Symbols([6, 21])) == [0, 0, 1, 0, 6, 21]
  {
    Feedbacks1();
    TwoSteps([0, 0, 0, 0, 1, 0], 6, [0, 0, 0, 0, 0, 0], [0, 0, 0, 1, 0, 6],
      21, [0, 0, 0, 0, 0, 0], [0, 0, 1, 0, 6, 21]);
  }

  lemma Front1b()
    ensures Fold([0, 0, 1, 0, 6, 21], Symbols([3, 22])) == [1, 0, 6, 21, 3, 22]
  {
    Feedbacks1();
    TwoSteps([0, 0, 1, 0, 6, 21], 3, [0, 0, 0, 0, 0, 0], [0, 1, 0, 6, 21, 3],
      22, [0, 0, 0, 0, 0, 0], [1, 0, 6, 21, 3, 22]);
  }

  lemma Front2a()
    ensures Fold([1, 0, 6, 21, 3, 22], Symbols([15, 9])) == [9, 8, 12, 12, 4, 15]
  {
    Feedbacks1();
    Feedbacks3();
    TwoSteps([1, 0, 6, 21, 3, 22], 15, [29, 22, 20, 21, 29, 18], [29, 16, 1, 22, 11, 29],
      9, [25, 9, 26, 7, 25, 6], [9, 8, 12, 12, 4, 15]);
  }

  lemma Front2b()
    ensures Fold([9, 8, 12, 12, 4, 15], Symbols([25, 8])) == [30, 27, 12, 22, 6, 10]
  {
    Feedbacks1();
    Feedbacks2();
    TwoSteps([9, 8, 12, 12, 4, 15], 25, [3, 2, 16, 25, 3, 15], [11, 14, 28, 29, 12, 22],
      8, [16, 7, 17, 26, 16, 2], [30, 27, 12, 22, 6, 10]);
  }

  lemma Back1a()
    ensures Fold([30, 27, 12, 22, 6, 10], Symbols([23, 20])) == [7, 7, 17, 23, 31, 19]
  {
    Feedbacks2();
    Feedbacks3();
    TwoSteps([30, 27, 12, 22, 6, 10], 23, [23, 26, 15, 17, 23, 25], [12, 22, 25, 23, 29, 14],
      20, [17, 30, 6, 10, 17, 7], [7, 7, 17, 23, 31, 19]);
  }

  lemma Back1b()
    ensures Fold([7, 7, 17, 23, 31, 19], Symbols([25, 6])) == [20, 15, 12, 23, 0, 17]
  {
    Feedbacks1();
    TwoSteps([7, 7, 17, 23, 31, 19], 25, [1, 25, 23, 16, 1, 5], [6, 8, 0, 15, 18, 28],
      6, [28, 15, 3, 5, 28, 23], [20, 15, 12, 23, 0, 17]);
  }

  lemma Back2()
    ensures Fold([20, 15, 12, 23, 0, 17], Symbols([14, 26])) == [0, 0, 0, 0, 0, 1]
  {
    Feedbacks4();
    TwoSteps([20, 15, 12, 23, 0, 17], 14, [26, 11, 10, 30, 26, 9], [21, 7, 29, 30, 11, 7],
      26, [7, 29, 30, 11, 7, 27], [0, 0, 0, 0, 0, 1]);
  }

  lemma Prefix1a()
    ensures Fold([0, 0, 0, 0, 0, 1], Symbols([1, 3])) == [0, 0, 0, 1, 1, 3]
  {
    Feedbacks1();
    TwoSteps([0, 0, 0, 0, 0, 1], 1, [0, 0, 0, 0, 0, 0], [0, 0, 0, 0, 1, 1], 3, [0, 0, 0, 0, 0, 0], [0, 0, 0, 1, 1, 3]);
  }

  lemma Prefix1b()
    ensures Fold([0, 0, 0, 1, 1, 3], Symbols([1, 3])) == [0, 1, 1, 3, 1, 3]
  {
    Feedbacks1();
    TwoSteps([0, 0, 0, 1, 1, 3], 1, [0, 0, 0, 0, 0, 0], [0, 0, 1, 1, 3, 1], 3, [0, 0, 0, 0, 0, 0], [0, 1, 1, 3, 1, 3]);
  }

  lemma Prefix2a()
    ensures Fold([0, 1, 1, 3, 1, 3], Symbols([3, 1])) == [28, 21, 21, 22, 30, 19]
  {
    Feedbacks1();
    TwoSteps([0, 1, 1, 3, 1, 3], 3, [0, 0, 0, 0, 0, 0], [1, 1, 3, 1, 3, 3],
      1, [29, 22, 20, 21, 29, 18], [28, 21, 21, 22, 30, 19]);
  }

  lemma Prefix2b()
    ensures Fold([28, 21, 21, 22, 30, 19], Symbols([3, 3])) == [2, 15, 16, 26, 31, 2]
  {
    Feedbacks2();
    Feedbacks3();
    TwoSteps([28, 21, 21, 22, 30, 19], 3, [4, 31, 14, 18, 4, 20], [17, 10, 24, 12, 23, 23],
      3, [8, 23, 28, 13, 8, 1], [2, 15, 16, 26, 31, 2]);
  }

  lemma Prefix3a()
    ensures Fold([2, 15, 16, 26, 31, 2], Symbols([0, 17])) == [17, 4, 18, 3, 9, 5]
  {
    Feedbacks1();
    Feedbacks3();
    TwoSteps([2, 15, 16, 26, 31, 2], 0, [19, 5, 1, 3, 19, 13], [28, 21, 27, 28, 17, 13],
      17, [4, 31, 14, 18, 4, 20], [17, 4, 18, 3, 9, 5]);
  }

  lemma Prefix3b()
    ensures Fold([17, 4, 18, 3, 9, 5], Symbols([24, 20])) == [20, 1, 2, 7, 8, 19]
  {
    Feedbacks2();
    TwoSteps([17, 4, 18, 3, 9, 5], 24, [8, 23, 28, 13, 8, 1], [12, 5, 31, 4, 13, 25],
      20, [17, 30, 6, 10, 17, 7], [20, 1, 2, 7, 8, 19]);
  }

  lemma Prefix4a()
    ensures Fold([20, 1, 2, 7, 8, 19], Symbols([18, 11])) == [12, 11, 15, 11, 30, 26]
  {
    Feedbacks4();
    Feedbacks3();
    TwoSteps([20, 1, 2, 7, 8, 19], 18, [26, 11, 10, 30, 26, 9], [27, 9, 13, 22, 9, 27],
      11, [5, 6, 25, 2, 5, 17], [12, 11, 15, 11, 30, 26]);
  }

  lemma Prefix4b()
    ensures Fold([12, 11, 15, 11, 30, 26], Symbols([16, 6])) == [9, 29, 25, 28, 15, 5]
  {
    Feedbacks2();
    Feedbacks4();
    TwoSteps([12, 11, 15, 11, 30, 26], 16, [17, 30, 6, 10, 17, 7], [26, 17, 13, 20, 11, 23],
      6, [24, 16, 13, 23, 24, 3], [9, 29, 25, 28, 15, 5]);
  }

  lemma FrontMeets()
    ensures Fold([0, 0, 0, 0, 1, 0], Symbols(FRONT)) == MEETING
  {
    Front1a();
    Front1b();
    Front2a();
    Front2b();
    Chain([0, 0, 0, 0, 1, 0], [6, 21], [0, 0, 1, 0, 6, 21], [3, 22], [1, 0, 6, 21, 3, 22],
      [15, 9], [9, 8, 12, 12, 4, 15], [25, 8], MEETING);
  }

  lemma BackChecks()
    ensures Fold(MEETING, Symbols(BACK)) == ONE
  {
    Back1a();
    Back1b();
    Back2();
    Both(MEETING, [23, 20], [7, 7, 17, 23, 31, 19], [25, 6], [20, 15, 12, 23, 0, 17]);
    Both(MEETING, [23, 20] + [25, 6], [20, 15, 12, 23, 0, 17], [14, 26], ONE);
  }

  lemma UpperMeets()
    ensures Fold(ONE, Symbols(UPPER)) == [2, 15, 16, 26, 31, 2]
  {
    Prefix1a();
    Prefix1b();
    Prefix2a();
    Prefix2b();
    Chain(ONE, [1, 3], [0, 0, 0, 1, 1, 3], [1, 3], [0, 1, 1, 3, 1, 3],
      [3, 1], [28, 21, 21, 22, 30, 19], [3, 3], [2, 15, 16, 26, 31, 2]);
  }

  lemma LowerHalf()
    ensures Fold([2, 15, 16, 26, 31, 2], Symbols([0, 17] + [24, 20])) == [20, 1, 2, 7, 8, 19]
  {
    var u: Word, v: Word, w: Word := [2, 15, 16, 26, 31, 2], [17, 4, 18, 3, 9, 5], [20, 1, 2, 7, 8, 19];
    Prefix3a();
    Prefix3b();
    Both(u, [0, 17], v, [24, 20], w);
  }

  lemma LowerMeets()
    ensures Fold([2, 15, 16, 26, 31, 2], Symbols(LOWER)) == [9, 29, 25, 28, 15, 5]
  {
    LowerHalf();
    Prefix4a();
    Prefix4b();
    Both([2, 15, 16, 26, 31, 2], [0, 17] + [24, 20], [20, 1, 2, 7, 8, 19], [18, 11], [12, 11, 15, 11, 30, 26]);
    Both([2, 15, 16, 26, 31, 2], [0, 17] + [24, 20] + [18, 11], [12, 11, 15, 11, 30, 26], [16, 6],
      [9, 29, 25, 28, 15, 5]);
  }

  lemma PrefixLast()
    ensures Fold([9, 29, 25, 28, 15, 5], Symbols([5])) == MEETING
  {
    Feedbacks1();
    OneStep([9, 29, 25, 28, 15, 5], 5, [3, 2, 16, 25, 3, 15], MEETING);
  }

  lemma PrefixMeets()
    ensures Fold(ONE, Symbols(UPPER + LOWER + [5])) == MEETING
  {
    UpperMeets();
    LowerMeets();
    PrefixLast();
    Both(ONE, UPPER, [2, 15, 16, 26, 31, 2], LOWER, [9, 29, 25, 28, 15, 5]);
    Both(ONE, UPPER + LOWER, [9, 29, 25, 28, 15, 5], [5], MEETING);
  }

  // ----- the strings

  lemma Texts()
    ensures Chars(FRONT + BACK) == "x4rk0fegh5exw6" && Chars(BACK) == "h5exw6"
  {
    FrontText();
    BackText();
    assert Chars(FRONT + BACK) == Chars(FRONT) + Chars(BACK);
    assert "x4rk0feg" + "h5exw6" == "x4rk0fegh5exw6";
  }

  lemma FrontText()
    ensures Chars(FRONT) == "x4rk0feg"
  {
  }

  lemma BackText()
    ensures Chars(BACK) == "h5exw6"
  {
  }

  lemma CharWords(c: char, h: bv5, l: bv5)
    requires c as int == h as int * 32 + l as int
    ensures High(c) == Symbol(h) && Low(c) == Symbol(l)
  {
    SmallCode(c, h as int, l as int);
    GroupBack(h);
    GroupBack(l);
  }

  lemma SmallCode(c: char, h: nat, l: nat)
    requires h < 32 && l < 32 && c as int == h * 32 + l
    ensures High(c) == Symbol(h as bv5) && Low(c) == Symbol(l as bv5)
  {
    var n := CharCode(c);
    assert n / 32 == h && n % 32 == l;
    assert h / 1024 == 0 && h / 32 % 32 == 0 && h % 32 == h;
  }

  lemma GroupBack(d: bv5)
    ensures (d as int) as bv5 == d
  {
  }

  /** Characters given by their upper and lower five bits. */
  lemma ExpandIs(hrp: string, hs: seq<bv5>, ls: seq<bv5>)
    requires |hs| == |hrp| && |ls| == |hrp|
    requires forall i :: 0 <= i < |hrp| ==> hrp[i] as int == hs[i] as int * 32 + ls[i] as int
    ensures HrpExpand(hrp) == Symbols(hs + [0] + ls)
  {
    forall i | 0 <= i < |hrp| ensures High(hrp[i]) == Symbol(hs[i]) && Low(hrp[i]) == Symbol(ls[i]) {
      CharWords(hrp[i], hs[i], ls[i]);
    }
  }

  lemma HrpWords()
    ensures HrpExpand("1x4rk0fe") == Symbols(UPPER + LOWER + [5])
  {
    var hs, ls: seq<bv5> := [1, 3, 1, 3, 3, 1, 3, 3], [17, 24, 20, 18, 11, 16, 6, 5];
    ExpandIs("1x4rk0fe", hs, ls);
    assert UPPER == hs;
    LowerIs(ls);
    assert UPPER + LOWER + [5] == hs + ([0] + ls) == hs + [0] + ls;
  }

  lemma LowerIs(ls: seq<bv5>)
    requires ls == [17, 24, 20, 18, 11, 16, 6, 5]
    ensures LOWER + [5] == [0] + ls
  {
  }

  lemma EmptyPrefix()
    ensures Prefix("") == [0, 0, 0, 0, 1, 0]
  {
    Feedbacks1();
    OneStep(ONE, 0, [0, 0, 0, 0, 0, 0], [0, 0, 0, 0, 1, 0]);
    assert HrpExpand("") == Symbols([0]);
  }

  lemma ChecksSymbols(hrp: string, ds: seq<bv5>)
    ensures Checks(hrp, Chars(ds)) <==> Fold(Prefix(hrp), Symbols(ds)) == ONE
  {
    CharsInverse(ds);
  }

  lemma OriginalChecks()
    ensures Checks("", Chars(FRONT + BACK))
  {
    EmptyPrefix();
    FrontMeets();
    BackChecks();
    SymbolsConcat(FRONT, BACK);
    FoldConcat(Prefix(""), Symbols(FRONT), Symbols(BACK));
    ChecksSymbols("", FRONT + BACK);
  }

  lemma ChangedChecks()
    ensures Checks("1x4rk0fe", Chars(BACK))
  {
    HrpWords();
    PrefixMeets();
    BackChecks();
    ChecksSymbols("1x4rk0fe", BACK);
  }

  /** Eight symbols make five bytes, with nothing left over. */
  lemma WholeBytes(data: seq<bv5>, n: nat)
    requires |data| == 8 * n
    ensures ConvertBits.Regroup(Ints(data), 5, 8, false).Regrouped?
  {
    IntsFit(data);
    ConvertBits.RegroupIs(Ints(data), 5, 8, 5 * n, 0, 40 * n, 40 * n);
    assert Radix.Pow2(0) == 1;
  }

  lemma DecodesFor(hrp: string, data: seq<bv5>, n: nat, check: seq<bv5>, addr: string)
    requires |data| == 8 * n && |check| == 6
    requires Checks(hrp, Chars(data + check)) && addr == hrp + "1" + Chars(data + check)
    ensures Decode(addr).Decoded?
  {
    Parts(hrp, data + check);
    assert Payload(data + check) == data;
    WholeBytes(data, n);
    DecodedIff(addr);
  }

  lemma OriginalText()
    ensures "1x4rk0fegh5exw6" == "" + "1" + Chars(FRONT + BACK)
  {
    Texts();
  }

  lemma OriginalDecodes()
    ensures Decode("1x4rk0fegh5exw6").Decoded?
  {
    OriginalChecks();
    OriginalText();
    DecodesFor("", FRONT, 1, BACK, "1x4rk0fegh5exw6");
  }

  lemma ChangedText()
    ensures "1x4rk0fe1h5exw6" == "1x4rk0fe" + "1" + Chars([] + BACK)
  {
    Texts();
    assert [] + BACK == BACK;
    assert "1x4rk0fe1h5exw6" == "1x4rk0fe" + "1" + "h5exw6";
  }

  lemma ChangedDecodes()
    ensures Decode("1x4rk0fe1h5exw6").Decoded?
  {
    ChangedChecks();
    ChangedText();
    assert [] + BACK == BACK;
    DecodesFor("1x4rk0fe", [], 0, BACK, "1x4rk0fe1h5exw6");
  }

  lemma OneCharacter()
    ensures "1x4rk0fegh5exw6"[8 := '1'] == "1x4rk0fe1h5exw6"
  {
    var a, b := "1x4rk0fegh5exw6", "1x4rk0fe1h5exw6";
    assert a[..8] == b[..8] && a[9..] == b[9..];
    assert a[8 := '1'] == a[..8] + ['1'] + a[9..];
    assert b == b[..8] + [b[8]] + b[9..];
  }

  /** The decoder accepts both of these, which differ in one character of the data part. */
  lemma SeparatorSlipsThrough()
    ensures var addr := "1x4rk0fegh5exw6"; Decode(addr).Decoded? && Decode(addr[8 := '1']).Decoded?
  {
    OriginalDecodes();
    ChangedDecodes();
    OneCharacter();
  }
}
