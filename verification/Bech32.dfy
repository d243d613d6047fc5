/** The Bech32 encoder and decoder of experiments/migration_cost/bech32.js. Strings are sequences of
    Unicode scalar values; bytes are integers below 256. */
module Bech32 {
  import opened Radix
  import opened Bech32Checksum
  import opened Bech32Word
  import ConvertBits
  import Hashing

  const CHARSET := "qpzry9x8gf2tvdw0s3jn54khce6mua7l"

  datatype Result =
    | Decoded(hrp: string, bytes: seq<int>)
    | BadChar
    | BadChecksum
    | BadBits(error: ConvertBits.Error)

  // ----- characters and symbols

  /** `CHARSET.indexOf(c)`, searched from position k. */
  function IndexOf(c: char, k: nat): int
    requires k <= |CHARSET|
    decreases |CHARSET| - k
  {
    if k == |CHARSET| then -1 else if CHARSET[k] == c then k else IndexOf(c, k + 1)
  }

  lemma {:induction false} IndexOfFinds(c: char, k: nat)
    requires k <= |CHARSET|
    ensures -1 <= IndexOf(c, k) < 32
    ensures IndexOf(c, k) >= 0 ==> CHARSET[IndexOf(c, k)] == c
    ensures forall d :: k <= d < 32 && CHARSET[d] == c ==> IndexOf(c, k) >= 0 && IndexOf(c, k) <= d
    decreases |CHARSET| - k
  {
    if k < |CHARSET| {
      IndexOfFinds(c, k + 1);
    }
  }

  /** No character stands for two symbols, and the separator stands for none. */
  lemma CharsetDistinct(i: nat, j: nat)
    requires i < 32 && j < 32
    ensures CHARSET[i] == CHARSET[j] ==> i == j
    ensures CHARSET[i] != '1'
  {
    Alphabet(i);
    Alphabet(j);
  }

  /** An inverse of the character table, by code. */
  function Rank(c: char): nat {
    match c
    case 'q' => 0 case 'p' => 1 case 'z' => 2 case 'r' => 3 case 'y' => 4 case '9' => 5 case 'x' => 6 case '8' => 7
    case 'g' => 8 case 'f' => 9 case '2' => 10 case 't' => 11 case 'v' => 12 case 'd' => 13 case 'w' => 14
    case '0' => 15
    case 's' => 16 case '3' => 17 case 'j' => 18 case 'n' => 19 case '5' => 20 case '4' => 21 case 'k' => 22
    case 'h' => 23
    case 'c' => 24 case 'e' => 25 case '6' => 26 case 'm' => 27 case 'u' => 28 case 'a' => 29 case '7' => 30
    case 'l' => 31
    case _ => 32
  }

  lemma AlphabetFirst(i: nat)
    requires i < 16
    ensures Rank(CHARSET[i]) == i
  {}

  lemma AlphabetLast(i: nat)
    requires 16 <= i < 32
    ensures Rank(CHARSET[i]) == i
  {}

  lemma Alphabet(i: nat)
    requires i < 32
    ensures Rank(CHARSET[i]) == i
  {
    if i < 16 {
      AlphabetFirst(i);
    } else {
      AlphabetLast(i);
    }
  }

  /** The symbol of a character of the alphabet. */
  function SymbolOf(c: char): bv5
    requires IndexOf(c, 0) >= 0
  {
    IndexOfFinds(c, 0);
    IndexOf(c, 0) as bv5
  }

  lemma GroupRoundTrip(d: int)
    requires 0 <= d < 32
    ensures (d as bv5) as int == d
  {}

  lemma SymbolInverse(d: bv5)
    ensures IndexOf(CHARSET[d as int], 0) >= 0 && SymbolOf(CHARSET[d as int]) == d
  {
    var c := CHARSET[d as int];
    IndexOfFinds(c, 0);
    CharsetDistinct(IndexOf(c, 0), d as int);
  }

  lemma CharInverse(c: char)
    requires IndexOf(c, 0) >= 0
    ensures CHARSET[SymbolOf(c) as int] == c && c != '1'
  {
    IndexOfFinds(c, 0);
    GroupRoundTrip(IndexOf(c, 0));
    CharsetDistinct(IndexOf(c, 0), 0);
  }

  function Chars(ds: seq<bv5>): string {
    seq(|ds|, i requires 0 <= i < |ds| => CHARSET[ds[i] as int])
  }

  predicate InCharset(s: string) {
    forall i :: 0 <= i < |s| ==> IndexOf(s[i], 0) >= 0
  }

  function SymbolsOf(s: string): seq<bv5>
    requires InCharset(s)
  {
    seq(|s|, i requires 0 <= i < |s| => SymbolOf(s[i]))
  }

  lemma CharsInverse(ds: seq<bv5>)
    ensures InCharset(Chars(ds)) && SymbolsOf(Chars(ds)) == ds
  {
    forall i | 0 <= i < |ds| ensures IndexOf(Chars(ds)[i], 0) >= 0 && SymbolOf(Chars(ds)[i]) == ds[i] {
      SymbolInverse(ds[i]);
    }
  }

  lemma SymbolsInverse(s: string)
    requires InCharset(s)
    ensures Chars(SymbolsOf(s)) == s && '1' !in s
  {
    forall i | 0 <= i < |s| ensures Chars(SymbolsOf(s))[i] == s[i] && s[i] != '1' {
      CharInverse(s[i]);
    }
  }

  /** 5-bit groups as the integers convertBits works on, and back. */
  function Ints(ds: seq<bv5>): seq<int> {
    seq(|ds|, i requires 0 <= i < |ds| => ds[i] as int)
  }

  function Groups(ds: seq<int>): seq<bv5>
    requires Fits(ds, 5)
  {
    FiveBits();
    seq(|ds|, i requires 0 <= i < |ds| => ds[i] as bv5)
  }

  lemma FiveBits()
    ensures Pow2(5) == 32 && Pow2(8) == 256
  {}

  lemma IntsFit(ds: seq<bv5>)
    ensures Fits(Ints(ds), 5) && Groups(Ints(ds)) == ds
  {
    FiveBits();
  }

  lemma GroupsInverse(ds: seq<int>)
    requires Fits(ds, 5)
    ensures Ints(Groups(ds)) == ds
  {
    FiveBits();
    forall i | 0 <= i < |ds| ensures Ints(Groups(ds))[i] == ds[i] {
      GroupRoundTrip(ds[i]);
    }
  }

  // ----- the human-readable part

  /** `charCodeAt(0)` of a character: its UTF-16 code, or its leading surrogate. */
  function CharCode(c: char): (n: nat)
    ensures n < 0x10000
  {
    var n := c as int;
    if n < 0x10000 then n else 0xD800 + (n - 0x10000) / 0x400
  }

  /** A character beyond the first 65536 has the code of its leading surrogate. */
  lemma CharCodeIs(c: char)
    ensures var n, code := c as int, CharCode(c);
            if n < 0x10000 then code == n
            else 0xD800 <= code < 0xDC00 && 0x400 * (code - 0xD800) <= n - 0x10000 < 0x400 * (code - 0xD800 + 1)
  {
  }

  function High(c: char): Word {
    var n := CharCode(c) / 32;
    [0, 0, 0, (n / 1024) as bv5, (n / 32 % 32) as bv5, (n % 32) as bv5]
  }

  function Low(c: char): Word {
    Symbol((CharCode(c) % 32) as bv5)
  }

  function HrpExpand(hrp: string): seq<Word> {
    seq(|hrp|, i requires 0 <= i < |hrp| => High(hrp[i])) + [ZERO] +
      seq(|hrp|, i requires 0 <= i < |hrp| => Low(hrp[i]))
  }

  /** The register after the prefix. */
  function Prefix(hrp: string): Word {
    Fold(ONE, HrpExpand(hrp))
  }

  // ----- encoding

  lemma BytesFit(bytes: Hashing.Bytes)
    ensures Fits(bytes, 8)
    ensures var r := ConvertBits.Regroup(bytes, 8, 5, true); r.Regrouped? && Fits(r.digits, 5)
  {
    FiveBits();
    ConvertBits.RegroupRoundTrip(bytes, 8, 5);
  }

  /** The 5-bit groups of a byte string, zero-padded. */
  function DataOf(bytes: Hashing.Bytes): seq<bv5> {
    BytesFit(bytes);
    Groups(ConvertBits.Regroup(bytes, 8, 5, true).digits)
  }

  function Encode(hrp: string, bytes: Hashing.Bytes): string {
    var data := DataOf(bytes);
    hrp + "1" + Chars(data + Checksum(Fold(Prefix(hrp), Symbols(data))))
  }

  lemma {:induction false} SymbolsConcat(a: seq<bv5>, b: seq<bv5>)
    ensures Symbols(a + b) == Symbols(a) + Symbols(b)
  {}

  lemma ChecksumWord(hrp: string, data: seq<bv5>)
    ensures Xor(Polymod(HrpExpand(hrp) + Symbols(data) + Symbols(ZERO)), ONE)
         == Checksum(Fold(Prefix(hrp), Symbols(data)))
  {
    FoldConcat(ONE, HrpExpand(hrp) + Symbols(data), Symbols(ZERO));
    FoldConcat(ONE, HrpExpand(hrp), Symbols(data));
  }

  method ComputeEncode(hrp: string, bytes: Hashing.Bytes) returns (addr: string)
    ensures addr == Encode(hrp, bytes)
  {
    BytesFit(bytes);
    var bits := ConvertBits.Convert(bytes, 8, 5, true);
    var data := Groups(bits.digits);
    var checksum := ComputeChecksum(hrp, data);
    addr := hrp + "1" + Chars(data + checksum);
  }

  /** The six symbols, from the register after six zeros. */
  method ComputeChecksum(hrp: string, data: seq<bv5>) returns (checksum: seq<bv5>)
    ensures checksum == Checksum(Fold(Prefix(hrp), Symbols(data)))
  {
    ghost var word := Polymod(HrpExpand(hrp) + Symbols(data) + Symbols(ZERO));
    var poly := RegisterOf(HrpExpand(hrp) + Symbols(data) + Symbols(ZERO));
    ChecksumWord(hrp, data);
    var chk := XorOne(poly, word);
    checksum := SixGroups(chk, Xor(word, ONE));
  }

  lemma ThreeDigits(n: nat)
    ensures n == (n / 1024 * 32 + n / 32 % 32) * 32 + n % 32
  {
    DivMod(n, 32);
    DivMod(n / 32, 32);
    DivTwice(n, 32, 32);
  }

  /** The values the register is fed are the character codes' upper bits and lower five, and the symbols. */
  lemma ValuesFed(c: char, d: bv5)
    ensures Number(High(c)) == CharCode(c) / 32 && Number(Low(c)) == CharCode(c) % 32 && Number(Symbol(d)) == d as nat
  {
    var n := CharCode(c) / 32;
    GroupRoundTrip(n / 1024);
    GroupRoundTrip(n / 32 % 32);
    GroupRoundTrip(n % 32);
    GroupRoundTrip(CharCode(c) % 32);
    ThreeDigits(n);
  }

  // ----- decoding

  /** `s.lastIndexOf(c)`. */
  function LastIndexOf(s: string, c: char): (r: int)
    ensures -1 <= r < |s|
    ensures r >= 0 ==> s[r] == c
    ensures forall i :: r < i < |s| ==> s[i] != c
  {
    if s == "" then -1 else if s[|s| - 1] == c then |s| - 1 else LastIndexOf(s[..|s| - 1], c)
  }

  lemma LastIndexUnique(s: string, c: char, r: nat)
    requires r < |s| && s[r] == c && forall i :: r < i < |s| ==> s[i] != c
    ensures LastIndexOf(s, c) == r
  {}

  /** `addr.slice(0, pos)` and `addr.slice(pos + 1)`. With no separator, pos is -1: the first slice
      drops the last character and the second is the whole string. */
  function HrpOf(addr: string): string {
    var pos := LastIndexOf(addr, '1');
    if pos >= 0 then addr[..pos] else if addr == "" then "" else addr[..|addr| - 1]
  }

  function TailOf(addr: string): string {
    addr[LastIndexOf(addr, '1') + 1..]
  }

  /** `data.slice(0, -6)`. */
  function Payload(data: seq<bv5>): seq<bv5> {
    if |data| < 6 then [] else data[..|data| - 6]
  }

  predicate Checks(hrp: string, tail: string) {
    InCharset(tail) && Fold(Prefix(hrp), Symbols(SymbolsOf(tail))) == ONE
  }

  predicate ChecksumHolds(addr: string) {
    Checks(HrpOf(addr), TailOf(addr))
  }

  function Decode(addr: string): Result {
    if !InCharset(TailOf(addr)) then BadChar
    else if !ChecksumHolds(addr) then BadChecksum
    else match ConvertBits.Regroup(Ints(Payload(SymbolsOf(TailOf(addr)))), 5, 8, false)
      case Rejected(e) => BadBits(e)
      case Regrouped(bytes) => Decoded(HrpOf(addr), bytes)
  }

  lemma ReadsOne(hrp: string, data: seq<bv5>)
    ensures Number(Polymod(HrpExpand(hrp) + Symbols(data))) == 1 <==> Fold(Prefix(hrp), Symbols(data)) == ONE
  {
    var w := Polymod(HrpExpand(hrp) + Symbols(data));
    FoldConcat(ONE, HrpExpand(hrp), Symbols(data));
    if Number(w) == 1 {
      NumberInjective(w, ONE);
    }
  }

  /** The symbols of the data part, unless some character is not in the alphabet. */
  method ComputeSymbols(tail: string) returns (ok: bool, data: seq<bv5>)
    ensures ok <==> InCharset(tail)
    ensures ok ==> data == SymbolsOf(tail)
  {
    data := [];
    for i := 0 to |tail|
      invariant InCharset(tail[..i]) && data == SymbolsOf(tail[..i])
    {
      if IndexOf(tail[i], 0) < 0 { return false, []; }
      assert tail[..i + 1] == tail[..i] + [tail[i]];
      data := data + [SymbolOf(tail[i])];
    }
    assert tail[..|tail|] == tail;
    return true, data;
  }

  method ComputeDecode(addr: string) returns (r: Result)
    ensures r == Decode(addr)
  {
    var ok, data := ComputeSymbols(TailOf(addr));
    if !ok { return BadChar; }
    var chk := RegisterOf(HrpExpand(HrpOf(addr)) + Symbols(data));
    ReadsOne(HrpOf(addr), data);
    if chk != 1 { return BadChecksum; }
    var bits := ConvertBits.Convert(Ints(Payload(data)), 5, 8, false);
    match bits
    case Rejected(e) => return BadBits(e);
    case Regrouped(bytes) => return Decoded(HrpOf(addr), bytes);
  }

  // ----- the two directions

  /** An address put together from a prefix and symbols comes apart again, whatever the prefix. */
  lemma Parts(hrp: string, ds: seq<bv5>)
    ensures var addr := hrp + "1" + Chars(ds);
            && HrpOf(addr) == hrp && TailOf(addr) == Chars(ds)
            && InCharset(TailOf(addr)) && SymbolsOf(TailOf(addr)) == ds
  {
    var addr := hrp + "1" + Chars(ds);
    CharsInverse(ds);
    SymbolsInverse(Chars(ds));
    forall i | |hrp| < i < |addr| ensures addr[i] != '1' {
      assert addr[i] == Chars(ds)[i - |hrp| - 1];
    }
    LastIndexUnique(addr, '1', |hrp|);
  }

  /** Decoding an encoding gives back the prefix and the bytes. */
  lemma RoundTrip(hrp: string, bytes: Hashing.Bytes)
    ensures Decode(Encode(hrp, bytes)) == Decoded(hrp, bytes)
  {
    var data := DataOf(bytes);
    var s := Fold(Prefix(hrp), Symbols(data));
    var c := Checksum(s);
    Parts(hrp, data + c);
    SymbolsConcat(data, c);
    FoldConcat(Prefix(hrp), Symbols(data), Symbols(c));
    ChecksumIsTheOne(s, c);
    assert (data + c)[..|data|] == data;
    BytesFit(bytes);
    GroupsInverse(ConvertBits.Regroup(bytes, 8, 5, true).digits);
    ConvertBits.RegroupRoundTrip(bytes, 8, 5);
  }

  /** What the decoder accepts is what the encoder produces, exactly when the string has a separator
      and room for a checksum after it. */
  lemma AcceptedIsCanonical(addr: string)
    requires Decode(addr).Decoded?
    ensures var d := Decode(addr);
            && (forall i :: 0 <= i < |d.bytes| ==> 0 <= d.bytes[i] < 256)
            && (Encode(d.hrp, d.bytes) == addr <==> '1' in addr && |TailOf(addr)| >= 6)
  {
    var d, tail := Decode(addr), TailOf(addr);
    AcceptedBytes(addr);
    if '1' in addr && |tail| >= 6 {
      AcceptedTail(d.hrp, tail, d.bytes);
      Separated(addr);
    } else if Encode(d.hrp, d.bytes) == addr {
      Parts(d.hrp, DataOf(d.bytes) + Checksum(Fold(Prefix(d.hrp), Symbols(DataOf(d.bytes)))));
    }
  }

  lemma AcceptedBytes(addr: string)
    requires Decode(addr).Decoded?
    ensures var d := Decode(addr);
            && (forall i :: 0 <= i < |d.bytes| ==> 0 <= d.bytes[i] < 256)
            && DataOf(d.bytes) == Payload(SymbolsOf(TailOf(addr)))
  {
    var data := Payload(SymbolsOf(TailOf(addr)));
    FiveBits();
    ConvertBits.NarrowingIsCanonical(Ints(data), 5, 8);
    IntsFit(data);
  }

  /** The symbols of an accepted tail are those the encoder writes. */
  lemma AcceptedTail(hrp: string, tail: string, bytes: Hashing.Bytes)
    requires InCharset(tail) && |tail| >= 6 && DataOf(bytes) == Payload(SymbolsOf(tail))
    requires Fold(Prefix(hrp), Symbols(SymbolsOf(tail))) == ONE
    ensures Encode(hrp, bytes) == hrp + "1" + tail
  {
    var all := SymbolsOf(tail);
    var data, c := Payload(all), all[|all| - 6..];
    assert all == data + c;
    SymbolsConcat(data, c);
    FoldConcat(Prefix(hrp), Symbols(data), Symbols(c));
    ChecksumIsTheOne(Fold(Prefix(hrp), Symbols(data)), c);
    SymbolsInverse(tail);
  }

  lemma Separated(addr: string)
    requires '1' in addr
    ensures addr == HrpOf(addr) + "1" + TailOf(addr)
  {
    var pos := LastIndexOf(addr, '1');
    assert addr == addr[..pos] + [addr[pos]] + addr[pos + 1..];
  }

  lemma NoSeparator(addr: string)
    requires '1' !in addr
    ensures HrpOf(addr) == (if addr == "" then "" else addr[..|addr| - 1]) && TailOf(addr) == addr
  {
    assert LastIndexOf(addr, '1') == -1;
    assert addr[0..] == addr;
  }

  lemma NoData(e: seq<int>)
    requires e == []
    ensures ConvertBits.Regroup(e, 5, 8, false) == ConvertBits.Regrouped([])
  {
    ConvertBits.RegroupIs(e, 5, 8, 0, 0, 0, 0);
    assert Pow2(0) == 1 && ToDigits(Value(e, 5) / Pow2(0), 8, 0) == [];
  }

  /** Data shorter than a checksum gives no bytes. */
  lemma ShortData(addr: string)
    requires Decode(addr).Decoded? && |TailOf(addr)| < 6
    ensures Decode(addr).bytes == []
  {
    var e := Ints(Payload(SymbolsOf(TailOf(addr))));
    assert |e| == 0;
    NoData(e);
  }

  /** Without a separator, all but the last character is the prefix, and the whole string is data. */
  lemma AcceptedWithoutSeparator(addr: string)
    requires '1' !in addr
    ensures Decode(addr).Decoded? ==> Decode(addr).hrp == (if addr == "" then "" else addr[..|addr| - 1])
    ensures Decode(addr).Decoded? <==> Accepted(if addr == "" then "" else addr[..|addr| - 1], addr)
  {
    NoSeparator(addr);
    DecodedIff(addr);
  }

  // ----- errors

  lemma HoldsFor(addr: string, hrp: string, tail: string)
    requires HrpOf(addr) == hrp && TailOf(addr) == tail
    ensures ChecksumHolds(addr) <==> Checks(hrp, tail)
  {
  }

  /** The register just before position j of a string whose data part starts before j. */
  function RegisterAt(addr: string, j: nat): Word
    requires LastIndexOf(addr, '1') < j <= |addr| && InCharset(TailOf(addr))
  {
    var k := j - LastIndexOf(addr, '1') - 1;
    Fold(Prefix(HrpOf(addr)), Symbols(SymbolsOf(TailOf(addr))[..k]))
  }

  /** One character of the data part of a valid address replaced by another: the checksum still holds
      exactly when the new character is the separator and the longer prefix this makes happens to
      leave the register where it was. In particular no symbol can replace another. */
  lemma SubstitutionDetected(addr: string, j: nat, c: char)
    requires ChecksumHolds(addr) && '1' in addr && LastIndexOf(addr, '1') < j < |addr| && c != addr[j]
    ensures ChecksumHolds(addr[j := c]) <==> c == '1' && Prefix(addr[..j]) == RegisterAt(addr, j + 1)
  {
    if c == '1' {
      SeparatorSubstituted(addr, j);
    } else {
      OneChange(addr, j, c);
      BurstDetected(addr, addr[j := c], j);
    }
  }

  /** Two lists that differ at most in the six places from k on. */
  ghost predicate Near<T>(a: seq<T>, b: seq<T>, k: nat) {
    |a| == |b| && forall i :: 0 <= i < |a| && !(k <= i < k + 6) ==> a[i] == b[i]
  }

  lemma NearAround<T>(a: seq<T>, b: seq<T>, k: nat, lo: nat, hi: nat)
    requires Near(a, b, k) && lo <= hi <= |a| && lo <= k && (hi == |a| || k + 6 <= hi)
    ensures a[..lo] == b[..lo] && a[hi..] == b[hi..]
  {
  }

  /** The register tells apart two lists of symbols that differ within six places. */
  lemma NearFolds(w: Word, a: seq<bv5>, b: seq<bv5>, k: nat)
    requires Near(a, b, k) && a != b
    ensures Fold(w, Symbols(a)) != Fold(w, Symbols(b))
  {
    var lo, hi := if k < |a| then k else |a|, if k + 6 < |a| then k + 6 else |a|;
    NearAround(a, b, k, lo, hi);
    SymbolsAround(a, lo, hi);
    SymbolsAround(b, lo, hi);
    assert a == a[..lo] + a[lo..hi] + a[hi..] && b == b[..lo] + b[lo..hi] + b[hi..];
    BurstShows(w, Symbols(a[..lo]), a[lo..hi], b[lo..hi], Symbols(a[hi..]));
  }

  lemma SymbolsAround(a: seq<bv5>, lo: nat, hi: nat)
    requires lo <= hi <= |a|
    ensures Symbols(a) == Symbols(a[..lo]) + Symbols(a[lo..hi]) + Symbols(a[hi..])
  {
  }

  lemma NearSymbols(s: string, t: string, k: nat)
    requires InCharset(s) && InCharset(t) && Near(s, t, k) && s != t
    ensures Near(SymbolsOf(s), SymbolsOf(t), k) && SymbolsOf(s) != SymbolsOf(t)
  {
    SymbolsInverse(s);
    SymbolsInverse(t);
  }

  lemma BurstSeen(hrp: string, tail: string, bad: string, k: nat)
    requires Checks(hrp, tail) && Near(tail, bad, k) && tail != bad
    ensures !Checks(hrp, bad)
  {
    if InCharset(bad) {
      NearSymbols(tail, bad, k);
      NearFolds(Prefix(hrp), SymbolsOf(tail), SymbolsOf(bad), k);
    }
  }

  /** A change in the data part only, without a separator, leaves the prefix alone. */
  lemma NearParts(addr: string, bad: string, j: nat, pos: nat)
    requires Near(addr, bad, j) && pos == LastIndexOf(addr, '1') && pos < j
    requires forall i :: pos < i < |bad| ==> bad[i] != '1'
    ensures LastIndexOf(bad, '1') == pos && bad[..pos] == addr[..pos]
    ensures Near(addr[pos + 1..], bad[pos + 1..], j - pos - 1)
    ensures addr != bad ==> addr[pos + 1..] != bad[pos + 1..]
  {
    assert bad[pos] == addr[pos];
    LastIndexUnique(bad, '1', pos);
    if addr[pos + 1..] == bad[pos + 1..] {
      Joined(addr, pos);
      Joined(bad, pos);
    }
  }

  lemma Joined(s: string, pos: nat)
    requires pos < |s|
    ensures s == s[..pos] + [s[pos]] + s[pos + 1..]
  {
  }

  lemma BurstAt(addr: string, bad: string, j: nat, pos: nat)
    requires Near(addr, bad, j) && addr != bad && pos == LastIndexOf(addr, '1') && pos < j
    requires forall i :: pos < i < |bad| ==> bad[i] != '1'
    requires Checks(addr[..pos], addr[pos + 1..])
    ensures HrpOf(bad) == addr[..pos] && TailOf(bad) == bad[pos + 1..] && !Checks(addr[..pos], bad[pos + 1..])
  {
    NearParts(addr, bad, j, pos);
    BurstSeen(addr[..pos], addr[pos + 1..], bad[pos + 1..], j - pos - 1);
  }

  /** Any change within six characters of the data part, short of a separator, breaks the checksum. */
  lemma BurstDetected(addr: string, bad: string, j: nat)
    requires ChecksumHolds(addr) && '1' in addr && LastIndexOf(addr, '1') < j && Near(addr, bad, j) && addr != bad
    requires forall i :: LastIndexOf(addr, '1') < i < |bad| ==> bad[i] != '1'
    ensures !ChecksumHolds(bad)
  {
    var pos := LastIndexOf(addr, '1');
    HoldsFor(addr, addr[..pos], addr[pos + 1..]);
    BurstAt(addr, bad, j, pos);
    HoldsFor(bad, addr[..pos], bad[pos + 1..]);
  }

  /** As the decoder's caller sees it: any change within six characters of the data part is rejected, at any
      length, unless it brings in a separator. */
  lemma BurstRejected(addr: string, bad: string, j: nat)
    requires Decode(addr).Decoded? && '1' in addr && LastIndexOf(addr, '1') < j && Near(addr, bad, j) && addr != bad
    requires forall i :: LastIndexOf(addr, '1') < i < |bad| ==> bad[i] != '1'
    ensures Decode(bad) == if InCharset(TailOf(bad)) then BadChecksum else BadChar
  {
    BurstDetected(addr, bad, j);
  }

  /** The tail with one character replaced by another that is not the separator. */
  lemma TailReplaced(addr: string, j: nat, c: char)
    requires '1' in addr && LastIndexOf(addr, '1') < j < |addr| && c != '1'
    ensures TailOf(addr[j := c]) == TailOf(addr)[j - LastIndexOf(addr, '1') - 1 := c]
  {
    LastIndexUnique(addr[j := c], '1', LastIndexOf(addr, '1'));
  }

  lemma CharsetReplaced(tail: string, k: nat, c: char)
    requires InCharset(tail) && k < |tail|
    ensures InCharset(tail[k := c]) <==> IndexOf(c, 0) >= 0
  {
    assert tail[k := c][k] == c;
  }

  /** In particular no character but the separator gets past the decoder. */
  lemma SubstitutionRejected(addr: string, j: nat, c: char)
    requires Decode(addr).Decoded? && '1' in addr && LastIndexOf(addr, '1') < j < |addr|
    requires c != addr[j] && c != '1'
    ensures Decode(addr[j := c]) == if IndexOf(c, 0) < 0 then BadChar else BadChecksum
  {
    OneChange(addr, j, c);
    BurstRejected(addr, addr[j := c], j);
    CharsetAfter(addr, j, c);
  }

  lemma OneChange(addr: string, j: nat, c: char)
    requires j < |addr| && c != addr[j]
    ensures Near(addr, addr[j := c], j) && addr != addr[j := c]
  {
    assert addr[j := c][j] == c;
  }

  lemma CharsetAfter(addr: string, j: nat, c: char)
    requires InCharset(TailOf(addr)) && '1' in addr && LastIndexOf(addr, '1') < j < |addr| && c != '1'
    ensures InCharset(TailOf(addr[j := c])) <==> IndexOf(c, 0) >= 0
  {
    TailReplaced(addr, j, c);
    CharsetReplaced(TailOf(addr), j - LastIndexOf(addr, '1') - 1, c);
  }

  /** What is left of a checked tail checks with another prefix exactly when that leaves the register where
      the cut left it. */
  lemma TailCut(hrp: string, other: string, tail: string, k: nat)
    requires Checks(hrp, tail) && k <= |tail|
    ensures Checks(other, tail[k..]) <==> Prefix(other) == Fold(Prefix(hrp), Symbols(SymbolsOf(tail)[..k]))
  {
    var ds, w := SymbolsOf(tail), Fold(Prefix(hrp), Symbols(SymbolsOf(tail)[..k]));
    assert InCharset(tail[k..]);
    assert SymbolsOf(tail[k..]) == ds[k..];
    assert Fold(w, Symbols(ds[k..])) == ONE by {
      assert ds == ds[..k] + ds[k..];
      SymbolsConcat(ds[..k], ds[k..]);
      FoldConcat(Prefix(hrp), Symbols(ds[..k]), Symbols(ds[k..]));
    }
    FoldInjective(Prefix(other), w, Symbols(ds[k..]));
  }

  /** A separator in a symbol's place moves everything before it into the prefix. */
  lemma SeparatorMoved(addr: string, j: nat)
    requires '1' in addr && LastIndexOf(addr, '1') < j < |addr|
    ensures HrpOf(addr[j := '1']) == addr[..j]
    ensures TailOf(addr[j := '1']) == TailOf(addr)[j - LastIndexOf(addr, '1')..]
  {
    var bad := addr[j := '1'];
    LastIndexUnique(bad, '1', j);
  }

  lemma SeparatorSubstituted(addr: string, j: nat)
    requires ChecksumHolds(addr) && '1' in addr && LastIndexOf(addr, '1') < j < |addr|
    ensures ChecksumHolds(addr[j := '1']) <==> Prefix(addr[..j]) == RegisterAt(addr, j + 1)
  {
    var k, hrp, tail := j - LastIndexOf(addr, '1'), HrpOf(addr), TailOf(addr);
    TailCut(hrp, addr[..j], tail, k);
    SeparatorMoved(addr, j);
    HoldsFor(addr[j := '1'], addr[..j], tail[k..]);
    assert RegisterAt(addr, j + 1) == Fold(Prefix(hrp), Symbols(SymbolsOf(tail)[..k]));
  }

  predicate PayloadNarrows(data: seq<bv5>) {
    ConvertBits.Regroup(Ints(Payload(data)), 5, 8, false).Regrouped?
  }

  /** Everything the decoder asks of a prefix and a tail. */
  predicate Accepted(hrp: string, tail: string) {
    Checks(hrp, tail) && PayloadNarrows(SymbolsOf(tail))
  }

  lemma DecodedIff(addr: string)
    ensures Decode(addr).Decoded? <==> Accepted(HrpOf(addr), TailOf(addr))
  {
    var tail := TailOf(addr);
    if InCharset(tail) && ChecksumHolds(addr) {
      assert PayloadNarrows(SymbolsOf(tail)) <==> Decode(addr).Decoded?;
    }
  }

  lemma DecodedFor(addr: string, hrp: string, tail: string)
    requires HrpOf(addr) == hrp && TailOf(addr) == tail
    ensures Decode(addr).Decoded? <==> Accepted(hrp, tail)
  {
    DecodedIff(addr);
  }

  lemma SymbolsFrom(tail: string, k: nat)
    requires InCharset(tail) && k <= |tail|
    ensures InCharset(tail[k..]) && SymbolsOf(tail[k..]) == SymbolsOf(tail)[k..]
  {
  }

  lemma AcceptedCut(hrp: string, other: string, tail: string, k: nat)
    requires Checks(hrp, tail) && k <= |tail|
    ensures Accepted(other, tail[k..]) <==>
              Prefix(other) == Fold(Prefix(hrp), Symbols(SymbolsOf(tail)[..k])) && PayloadNarrows(SymbolsOf(tail)[k..])
  {
    TailCut(hrp, other, tail, k);
    SymbolsFrom(tail, k);
  }

  lemma SeparatorAccepted(addr: string, bad: string, hrp: string, k: nat)
    requires ChecksumHolds(addr) && k <= |TailOf(addr)| && HrpOf(bad) == hrp && TailOf(bad) == TailOf(addr)[k..]
    ensures Decode(bad).Decoded? <==>
              && Prefix(hrp) == Fold(Prefix(HrpOf(addr)), Symbols(SymbolsOf(TailOf(addr))[..k]))
              && PayloadNarrows(SymbolsOf(TailOf(addr))[k..])
  {
    AcceptedCut(HrpOf(addr), hrp, TailOf(addr), k);
    DecodedFor(bad, hrp, TailOf(addr)[k..]);
  }

  /** Exactly when the decoder accepts a valid address with one character of the data part replaced: the
      new character is the separator, the longer prefix this makes leaves the register where the old symbols
      did, and what is left of the data still makes whole bytes. */
  lemma SubstitutionAccepted(addr: string, j: nat, c: char)
    requires Decode(addr).Decoded? && '1' in addr && LastIndexOf(addr, '1') < j < |addr| && c != addr[j]
    ensures Decode(addr[j := c]).Decoded? <==>
              && c == '1' && Prefix(addr[..j]) == RegisterAt(addr, j + 1)
              && PayloadNarrows(SymbolsOf(TailOf(addr))[j - LastIndexOf(addr, '1')..])
  {
    if c == '1' {
      SeparatorMoved(addr, j);
      SeparatorAccepted(addr, addr[j := '1'], addr[..j], j - LastIndexOf(addr, '1'));
    } else {
      SubstitutionRejected(addr, j, c);
    }
  }
}
