/** The load generator's transaction pool and pacing loop (tools/loadgen/main.go): transactions binned by
    sender, and one taken at each tick from the senders in turn. */
module RoundRobin {
  import opened Wrappers

  datatype Tx = Tx(senderIdx: int, sequence: nat, body: string)

  datatype LoadResult = Loaded(queues: seq<seq<Tx>>, total: nat) | DecodeError(line: nat)
      | SenderOutOfRange(sender: int)

  // ----- the pool

  /** The transactions of one sender, in the order read. */
  function Of(txs: seq<Tx>, sender: int): seq<Tx> {
    if txs == [] then []
    else
      var last := txs[|txs| - 1];
      Of(txs[..|txs| - 1], sender) + if last.senderIdx == sender then [last] else []
  }

  lemma OfSnoc(txs: seq<Tx>, t: Tx, sender: int)
    ensures Of(txs + [t], sender) == Of(txs, sender) + if t.senderIdx == sender then [t] else []
  {
    assert (txs + [t])[..|txs|] == txs;
  }

  lemma {:induction false} OfSender(txs: seq<Tx>, sender: int, j: nat)
    requires j < |Of(txs, sender)|
    ensures Of(txs, sender)[j].senderIdx == sender
  {
    var before := txs[..|txs| - 1];
    if j < |Of(before, sender)| {
      OfSender(before, sender, j);
    }
  }

  ghost predicate Sorted(q: seq<Tx>) {
    forall i, j :: 0 <= i < j < |q| ==> q[i].sequence <= q[j].sequence
  }

  function Insert(q: seq<Tx>, t: Tx): seq<Tx> {
    if q == [] || q[|q| - 1].sequence <= t.sequence then q + [t]
    else Insert(q[..|q| - 1], t) + [q[|q| - 1]]
  }

  /** Stands for the library's sort by sequence number. */
  function Sort(q: seq<Tx>): seq<Tx> {
    if q == [] then [] else Insert(Sort(q[..|q| - 1]), q[|q| - 1])
  }

  lemma {:induction false} InsertKeeps(q: seq<Tx>, t: Tx)
    ensures multiset(Insert(q, t)) == multiset(q) + multiset{t}
  {
    if q != [] && q[|q| - 1].sequence > t.sequence {
      InsertKeeps(q[..|q| - 1], t);
      assert q == q[..|q| - 1] + [q[|q| - 1]];
    }
  }

  lemma {:induction false} InsertBelow(q: seq<Tx>, t: Tx, bound: nat, i: nat)
    requires (forall k :: 0 <= k < |q| ==> q[k].sequence <= bound) && t.sequence <= bound && i < |Insert(q, t)|
    ensures Insert(q, t)[i].sequence <= bound
  {
    if q != [] && q[|q| - 1].sequence > t.sequence && i < |Insert(q[..|q| - 1], t)| {
      InsertBelow(q[..|q| - 1], t, bound, i);
    }
  }

  lemma SortedSnoc(q: seq<Tx>, t: Tx)
    requires Sorted(q) && forall i :: 0 <= i < |q| ==> q[i].sequence <= t.sequence
    ensures Sorted(q + [t])
  {
  }

  lemma {:induction false} InsertSorted(q: seq<Tx>, t: Tx)
    requires Sorted(q)
    ensures Sorted(Insert(q, t))
  {
    if q == [] || q[|q| - 1].sequence <= t.sequence {
      SortedSnoc(q, t);
    } else {
      var m := |q| - 1;
      InsertSorted(q[..m], t);
      forall i | 0 <= i < |Insert(q[..m], t)| ensures Insert(q[..m], t)[i].sequence <= q[m].sequence {
        InsertBelow(q[..m], t, q[m].sequence, i);
      }
      SortedSnoc(Insert(q[..m], t), q[m]);
    }
  }

  lemma {:induction false} SortKeeps(q: seq<Tx>)
    ensures multiset(Sort(q)) == multiset(q)
  {
    if q != [] {
      var m := |q| - 1;
      SortKeeps(q[..m]);
      InsertKeeps(Sort(q[..m]), q[m]);
      assert q == q[..m] + [q[m]];
    }
  }

  lemma {:induction false} SortSorts(q: seq<Tx>)
    ensures Sorted(Sort(q)) && multiset(Sort(q)) == multiset(q)
  {
    SortKeeps(q);
    if q != [] {
      SortSorts(q[..|q| - 1]);
      InsertSorted(Sort(q[..|q| - 1]), q[|q| - 1]);
    }
  }

  /** A queue with the same transactions as the sender's has only the sender's. */
  lemma OwnedBy(q: seq<Tx>, txs: seq<Tx>, sender: int, j: nat)
    requires multiset(q) == multiset(Of(txs, sender)) && j < |q|
    ensures q[j].senderIdx == sender
  {
    assert q[j] in multiset(q);
    var k :| 0 <= k < |Of(txs, sender)| && Of(txs, sender)[k] == q[j];
    OfSender(txs, sender, k);
  }

  /** Every queue holds its own sender's transactions. */
  ghost predicate Owned(queues: seq<seq<Tx>>) {
    forall i, j :: 0 <= i < |queues| && 0 <= j < |queues[i]| ==> queues[i][j].senderIdx == i
  }

  ghost predicate InRange(line: Option<Tx>, senders: nat) {
    line.Some? && 0 <= line.value.senderIdx < senders
  }

  function Decoded(lines: seq<Option<Tx>>): seq<Tx>
    requires forall i :: 0 <= i < |lines| ==> lines[i].Some?
  {
    seq(|lines|, i requires 0 <= i < |lines| => lines[i].value)
  }

  method SortQueues(queues: seq<seq<Tx>>) returns (r: seq<seq<Tx>>)
    ensures |r| == |queues|
    ensures forall i :: 0 <= i < |r| ==> Sorted(r[i]) && multiset(r[i]) == multiset(queues[i])
  {
    r := queues;
    for s := 0 to |queues|
      invariant |r| == |queues| && forall i :: s <= i < |r| ==> r[i] == queues[i]
      invariant forall i :: 0 <= i < s ==> Sorted(r[i]) && multiset(r[i]) == multiset(queues[i])
    {
      SortSorts(r[s]);
      r := r[s := Sort(r[s])];
    }
  }

  /** Each sender's queue holds exactly its own transactions, in sequence order. The first bad line, if any,
      decides the error. */
  method LoadPool(lines: seq<Option<Tx>>, senders: nat) returns (r: LoadResult)
    ensures r.Loaded? <==> forall i :: 0 <= i < |lines| ==> InRange(lines[i], senders)
    ensures r.Loaded? ==>
              && r.total == |lines| && |r.queues| == senders
              && forall i :: 0 <= i < senders ==>
                   Sorted(r.queues[i]) && multiset(r.queues[i]) == multiset(Of(Decoded(lines), i))
    ensures r.Loaded? ==> Owned(r.queues)
    ensures r.DecodeError? ==>
              && 1 <= r.line <= |lines| && lines[r.line - 1].None?
              && forall i :: 0 <= i < r.line - 1 ==> InRange(lines[i], senders)
    ensures r.SenderOutOfRange? ==>
              exists k :: 0 <= k < |lines| && lines[k].Some? && lines[k].value.senderIdx == r.sender
                && !InRange(lines[k], senders) && forall i :: 0 <= i < k ==> InRange(lines[i], senders)
  {
    var queues := seq(senders, _ => []);
    var total := 0;
    while total < |lines|
      invariant total <= |lines| && |queues| == senders
      invariant forall i :: 0 <= i < total ==> InRange(lines[i], senders)
      invariant forall i :: 0 <= i < senders ==> queues[i] == Of(Decoded(lines[..total]), i)
    {
      if lines[total].None? {
        return DecodeError(total + 1);
      }
      var rec := lines[total].value;
      if rec.senderIdx < 0 || rec.senderIdx >= senders {
        return SenderOutOfRange(rec.senderIdx);
      }
      ghost var before := Decoded(lines[..total]);
      assert Decoded(lines[..total + 1]) == before + [rec];
      forall i | 0 <= i < senders
        ensures Of(before + [rec], i) == Of(before, i) + if rec.senderIdx == i then [rec] else []
      {
        OfSnoc(before, rec, i);
      }
      queues := queues[rec.senderIdx := queues[rec.senderIdx] + [rec]];
      total := total + 1;
    }
    assert lines[..|lines|] == lines;
    queues := SortQueues(queues);
    forall i, j | 0 <= i < senders && 0 <= j < |queues[i]| ensures queues[i][j].senderIdx == i {
      OwnedBy(queues[i], Decoded(lines), i, j);
    }
    return Loaded(queues, total);
  }

  // ----- the pacing loop

  /** Where sender i's cursor is after the round's turn of the senders before `next`. */
  function CursorAt(length: nat, next: nat, r: nat, i: nat): int {
    Min(length, if i < next then r + 1 else r)
  }

  /** After whole rounds r, and this round's turn of the senders before `next`: a queue shorter than that
      is drained. */
  ghost predicate AfterRounds(queues: seq<seq<Tx>>, cursors: seq<nat>, next: nat, r: nat) {
    && |cursors| == |queues| && (next < |queues| || next == 0)
    && forall i :: 0 <= i < |queues| ==> cursors[i] == CursorAt(|queues[i]|, next, r, i)
  }

  predicate Drained(queues: seq<seq<Tx>>, cursors: seq<nat>, i: nat)
    requires |cursors| == |queues| && i < |queues|
  {
    cursors[i] >= |queues[i]|
  }

  ghost predicate AllDrained(queues: seq<seq<Tx>>, cursors: seq<nat>)
    requires |cursors| == |queues|
  {
    forall i: nat :: i < |queues| ==> Drained(queues, cursors, i)
  }

  /** How many tries after `next` the scan looks at sender i. */
  function Distance(n: nat, next: nat, i: nat): nat
    requires i < n && next < n
  {
    if next <= i then i - next else i + n - next
  }

  lemma DistanceOf(n: nat, next: nat, tries: nat)
    requires next < n && tries < n
    ensures var i := (next + tries) % n; i < n && Distance(n, next, i) == tries
    ensures (next + tries) % n == if next + tries < n then next + tries else next + tries - n
  {
    if next + tries >= n {
      assert (next + tries) % n == next + tries - n;
    }
  }

  /** Sender p has something left, and every sender the scan meets before it has not. */
  ghost predicate FirstFrom(queues: seq<seq<Tx>>, cursors: seq<nat>, next: nat, p: nat)
    requires |cursors| == |queues|
  {
    && next < |queues| && p < |queues| && !Drained(queues, cursors, p)
    && forall i: nat :: i < |queues| && Distance(|queues|, next, i) < Distance(|queues|, next, p) ==>
      Drained(queues, cursors, i)
  }

  lemma TickAt(queues: seq<seq<Tx>>, cursors: seq<nat>, next: nat, r: nat, p: nat, i: nat)
    requires AfterRounds(queues, cursors, next, r) && FirstFrom(queues, cursors, next, p) && i < |queues|
    ensures var r' := if p < next || p + 1 == |queues| then r + 1 else r;
            var next' := if p + 1 == |queues| then 0 else p + 1;
            cursors[p := cursors[p] + 1][i] == CursorAt(|queues[i]|, next', r', i)
  {
    assert cursors[i] == CursorAt(|queues[i]|, next, r, i) && cursors[p] == CursorAt(|queues[p]|, next, r, p);
    if Distance(|queues|, next, i) < Distance(|queues|, next, p) {
      assert Drained(queues, cursors, i);
    }
  }

  lemma NextTurn(n: nat, p: nat)
    requires p < n
    ensures (p + 1) % n == if p + 1 == n then 0 else p + 1
  {
  }

  /** One tick keeps the closed form; the round count goes up when the turn wraps round. */
  lemma TickKeepsRounds(queues: seq<seq<Tx>>, cursors: seq<nat>, next: nat, r: nat, p: nat)
    requires AfterRounds(queues, cursors, next, r) && FirstFrom(queues, cursors, next, p)
    ensures AfterRounds(queues, cursors[p := cursors[p] + 1], (p + 1) % |queues|,
      if p < next || p + 1 == |queues| then r + 1 else r)
  {
    NextTurn(|queues|, p);
    forall i: nat | i < |queues| {
      TickAt(queues, cursors, next, r, p, i);
    }
  }

  /** Any two senders that still have transactions are within one of each other. */
  lemma Fair(queues: seq<seq<Tx>>, cursors: seq<nat>, next: nat, r: nat, i: nat, j: nat)
    requires AfterRounds(queues, cursors, next, r) && i < |queues| && j < |queues|
    requires !Drained(queues, cursors, i) && !Drained(queues, cursors, j)
    ensures cursors[i] <= cursors[j] + 1 && cursors[j] <= cursors[i] + 1
  {
  }

  /** The jobs handed on for each sender are its queue up to its cursor. */
  ghost predicate Prefixes(queues: seq<seq<Tx>>, cursors: seq<nat>, jobs: seq<Tx>) {
    && |cursors| == |queues|
    && (forall i :: 0 <= i < |queues| ==> cursors[i] <= |queues[i]| && Of(jobs, i) == queues[i][..cursors[i]])
    && (forall k :: 0 <= k < |jobs| ==> 0 <= jobs[k].senderIdx < |queues|)
  }

  lemma JobsExtended(queues: seq<seq<Tx>>, cursors: seq<nat>, jobs: seq<Tx>, p: nat)
    requires Prefixes(queues, cursors, jobs) && p < |queues| && cursors[p] < |queues[p]|
    requires queues[p][cursors[p]].senderIdx == p
    ensures Prefixes(queues, cursors[p := cursors[p] + 1], jobs + [queues[p][cursors[p]]])
  {
    var tx := queues[p][cursors[p]];
    var after := cursors[p := cursors[p] + 1];
    forall i | 0 <= i < |queues| ensures Of(jobs + [tx], i) == queues[i][..after[i]] {
      OfSnoc(jobs, tx, i);
      if i == p {
        assert queues[i][..after[i]] == queues[i][..cursors[i]] + [tx];
      }
    }
  }

  /** When every queue is drained, every transaction has been handed on, each sender's in order. */
  lemma ExhaustedMeansAll(queues: seq<seq<Tx>>, cursors: seq<nat>, jobs: seq<Tx>)
    requires Prefixes(queues, cursors, jobs) && AllDrained(queues, cursors)
    ensures forall i :: 0 <= i < |queues| ==> Of(jobs, i) == queues[i]
  {
    forall i | 0 <= i < |queues| ensures Of(jobs, i) == queues[i] {
      assert Drained(queues, cursors, i);
      assert queues[i][..|queues[i]|] == queues[i];
    }
  }

  lemma SortedPrefixes(queues: seq<seq<Tx>>, cursors: seq<nat>, jobs: seq<Tx>)
    requires Prefixes(queues, cursors, jobs) && forall i :: 0 <= i < |queues| ==> Sorted(queues[i])
    ensures forall i :: 0 <= i < |queues| ==> Sorted(Of(jobs, i))
  {
    forall i | 0 <= i < |queues| ensures Sorted(Of(jobs, i)) {
      assert Of(jobs, i) == queues[i][..cursors[i]];
    }
  }

  // ----- counting

  function Sum(xs: seq<nat>): nat {
    if xs == [] then 0 else Sum(xs[..|xs| - 1]) + xs[|xs| - 1]
  }

  lemma {:induction false} SumBump(xs: seq<nat>, p: nat)
    requires p < |xs|
    ensures Sum(xs[p := xs[p] + 1]) == Sum(xs) + 1
  {
    var m, ys := |xs| - 1, xs[p := xs[p] + 1];
    if p < m {
      SumBump(xs[..m], p);
      assert ys[..m] == xs[..m][p := xs[p] + 1];
    } else {
      assert ys[..m] == xs[..m];
    }
  }

  lemma {:induction false} SumZeros(n: nat)
    ensures Sum(seq(n, _ => 0)) == 0
  {
    if n != 0 {
      SumZeros(n - 1);
      assert seq(n, _ => 0)[..n - 1] == seq(n - 1, _ => 0);
    }
  }

  /** Cursors within their queues add up to no more than the queues, and to as much only when all are drained. */
  lemma {:induction false} SumWithin(xs: seq<nat>, ys: seq<nat>)
    requires |xs| == |ys| && forall i :: 0 <= i < |xs| ==> xs[i] <= ys[i]
    ensures Sum(xs) <= Sum(ys) && (Sum(xs) == Sum(ys) <==> xs == ys)
  {
    if xs != [] {
      var m := |xs| - 1;
      SumWithin(xs[..m], ys[..m]);
      assert xs == xs[..m] + [xs[m]] && ys == ys[..m] + [ys[m]];
    }
  }

  function Lengths(queues: seq<seq<Tx>>): seq<nat> {
    seq(|queues|, i requires 0 <= i < |queues| => |queues[i]|)
  }

  /** How many each sender has. */
  function Counts(txs: seq<Tx>, senders: nat): seq<nat> {
    seq(senders, i => |Of(txs, i)|)
  }

  lemma {:induction false} CountsSum(txs: seq<Tx>, senders: nat)
    requires forall k :: 0 <= k < |txs| ==> 0 <= txs[k].senderIdx < senders
    ensures Sum(Counts(txs, senders)) == |txs|
  {
    if txs == [] {
      SumZeros(senders);
      assert Counts(txs, senders) == seq(senders, _ => 0);
    } else {
      var before, t := txs[..|txs| - 1], txs[|txs| - 1];
      var counts := Counts(before, senders);
      CountsSum(before, senders);
      assert Counts(txs, senders) == counts[t.senderIdx := counts[t.senderIdx] + 1];
      SumBump(counts, t.senderIdx);
    }
  }

  /** A transaction occurs as often in the list as in its sender's part of it. */
  lemma {:induction false} OfCounts(txs: seq<Tx>, t: Tx)
    ensures multiset(txs)[t] == multiset(Of(txs, t.senderIdx))[t]
  {
    if txs != [] {
      var before, last := txs[..|txs| - 1], txs[|txs| - 1];
      OfCounts(before, t);
      assert txs == before + [last];
    }
  }

  /** Every transaction is some sender's. */
  ghost predicate Assigned(txs: seq<Tx>, senders: nat) {
    forall k :: 0 <= k < |txs| ==> 0 <= txs[k].senderIdx < senders
  }

  ghost predicate SameFor(a: seq<Tx>, b: seq<Tx>, sender: int) {
    multiset(Of(a, sender)) == multiset(Of(b, sender))
  }

  lemma SameCount(a: seq<Tx>, b: seq<Tx>, senders: nat, t: Tx)
    requires Assigned(a, senders) && Assigned(b, senders)
    requires 0 <= t.senderIdx < senders ==> SameFor(a, b, t.senderIdx)
    ensures multiset(a)[t] == multiset(b)[t]
  {
    OfCounts(a, t);
    OfCounts(b, t);
    if !(0 <= t.senderIdx < senders) {
      assert t !in a && t !in b;
    }
  }

  /** Lists with the same transactions of each sender have the same transactions. */
  lemma SamePerSender(a: seq<Tx>, b: seq<Tx>, senders: nat)
    requires Assigned(a, senders) && Assigned(b, senders)
    requires forall i :: 0 <= i < senders ==> SameFor(a, b, i)
    ensures multiset(a) == multiset(b)
  {
    forall t: Tx ensures multiset(a)[t] == multiset(b)[t] {
      SameCount(a, b, senders, t);
    }
  }

  lemma SameLength(p: seq<Tx>, q: seq<Tx>)
    requires multiset(p) == multiset(q)
    ensures |p| == |q|
  {
    assert |multiset(p)| == |multiset(q)|;
  }

  lemma LoadedTotal(txs: seq<Tx>, queues: seq<seq<Tx>>)
    requires Assigned(txs, |queues|)
    requires forall i :: 0 <= i < |queues| ==> multiset(queues[i]) == multiset(Of(txs, i))
    ensures Sum(Lengths(queues)) == |txs|
  {
    CountsSum(txs, |queues|);
    forall i | 0 <= i < |queues| ensures |queues[i]| == |Of(txs, i)| {
      SameLength(queues[i], Of(txs, i));
    }
    assert Lengths(queues) == Counts(txs, |queues|);
  }

  lemma AtLengths(queues: seq<seq<Tx>>, cursors: seq<nat>)
    requires |cursors| == |queues| && forall i :: 0 <= i < |queues| ==> cursors[i] <= |queues[i]|
    ensures cursors == Lengths(queues) <==> AllDrained(queues, cursors)
  {
    if cursors == Lengths(queues) {
      forall i: nat | i < |queues| ensures Drained(queues, cursors, i) {
        assert cursors[i] == Lengths(queues)[i];
      }
    } else if AllDrained(queues, cursors) {
      forall i | 0 <= i < |queues| ensures cursors[i] == Lengths(queues)[i] {
        assert Drained(queues, cursors, i);
      }
    }
  }

  lemma Within(queues: seq<seq<Tx>>, cursors: seq<nat>)
    requires |cursors| == |queues| && forall i :: 0 <= i < |queues| ==> cursors[i] <= |queues[i]|
    ensures Sum(cursors) <= Sum(Lengths(queues))
    ensures Sum(cursors) == Sum(Lengths(queues)) <==> AllDrained(queues, cursors)
  {
    SumWithin(cursors, Lengths(queues));
    AtLengths(queues, cursors);
  }

  /** What the pacing loop keeps. */
  ghost predicate Paced(queues: seq<seq<Tx>>, cursors: seq<nat>, next: nat, jobs: seq<Tx>, r: nat) {
    AfterRounds(queues, cursors, next, r) && Owned(queues) && Prefixes(queues, cursors, jobs) && |jobs| == Sum(cursors)
  }

  lemma TickKeepsPace(queues: seq<seq<Tx>>, cursors: seq<nat>, next: nat, jobs: seq<Tx>, r: nat, p: nat)
    requires Paced(queues, cursors, next, jobs, r) && FirstFrom(queues, cursors, next, p)
    ensures Paced(queues, cursors[p := cursors[p] + 1], (p + 1) % |queues|, jobs + [queues[p][cursors[p]]],
      if p < next || p + 1 == |queues| then r + 1 else r)
  {
    TickKeepsRounds(queues, cursors, next, r, p);
    JobsExtended(queues, cursors, jobs, p);
    SumBump(cursors, p);
  }

  class Pump {
    const queues: seq<seq<Tx>>
    var cursors: seq<nat>
    var senderIdx: nat
    var jobs: seq<Tx>
    ghost var round: nat

    ghost predicate Valid()
      reads this
    {
      Paced(queues, cursors, senderIdx, jobs, round)
    }

    constructor (queues: seq<seq<Tx>>)
      requires Owned(queues)
      ensures Valid() && this.queues == queues && jobs == []
    {
      this.queues := queues;
      cursors := seq(|queues|, _ => 0);
      senderIdx := 0;
      jobs := [];
      round := 0;
      SumZeros(|queues|);
    }

    /** The first sender from the turn on with something left. */
    method Scan() returns (picked: int)
      requires Valid()
      ensures picked < 0 ==> AllDrained(queues, cursors)
      ensures picked >= 0 ==> FirstFrom(queues, cursors, senderIdx, picked)
    {
      var tries := 0;
      while tries < |queues|
        invariant 0 <= tries <= |queues|
        invariant forall i: nat :: i < |queues| && Distance(|queues|, senderIdx, i) < tries ==>
          Drained(queues, cursors, i)
      {
        DistanceOf(|queues|, senderIdx, tries);
        var idx := (senderIdx + tries) % |queues|;
        if cursors[idx] < |queues[idx]| {
          return idx;
        }
        tries := tries + 1;
      }
      return -1;
    }

    /** One tick hands on the next transaction of the first sender in turn with one left, and reports
        exhaustion exactly when every queue is drained. */
    method Tick() returns (picked: int)
      requires Valid()
      modifies this
      ensures Valid()
      ensures picked < 0 ==> unchanged(this) && AllDrained(queues, cursors)
      ensures picked >= 0 ==>
                && old(FirstFrom(queues, cursors, senderIdx, picked))
                && jobs == old(jobs) + [queues[picked][old(cursors)[picked]]]
                && cursors == old(cursors)[picked := old(cursors)[picked] + 1]
                && senderIdx == (picked + 1) % |queues|
    {
      picked := Scan();
      if picked < 0 {
        return;
      }
      TickKeepsPace(queues, cursors, senderIdx, jobs, round, picked);
      var tx := queues[picked][cursors[picked]];
      round := if picked < senderIdx || picked + 1 == |queues| then round + 1 else round;
      cursors := cursors[picked := cursors[picked] + 1];
      senderIdx := (picked + 1) % |queues|;
      jobs := jobs + [tx];
    }

    /** The pacing loop, for at most so many ticks. Exhaustion is reported exactly when there are more ticks than
        transactions left; until then every tick hands one on. */
    method Drive(ticks: nat) returns (exhausted: bool)
      requires Valid()
      modifies this
      ensures Valid() && old(jobs) <= jobs
      ensures exhausted <==> ticks > Sum(Lengths(queues)) - |old(jobs)|
      ensures |jobs| == Min(|old(jobs)| + ticks, Sum(Lengths(queues)))
      ensures exhausted ==> forall i :: 0 <= i < |queues| ==> Of(jobs, i) == queues[i]
    {
      var t := 0;
      while t < ticks
        invariant 0 <= t <= ticks && Valid() && old(jobs) <= jobs && |jobs| == |old(jobs)| + t
      {
        Within(queues, cursors);
        var picked := Tick();
        if picked < 0 {
          ExhaustedMeansAll(queues, cursors, jobs);
          return true;
        }
        t := t + 1;
      }
      Within(queues, cursors);
      return false;
    }
  }

  /** The whole of it: load the pool, and pump for so many ticks. Each sender's transactions go out in sequence
      order; the pool is reported exhausted exactly when there are more ticks than transactions, and then every
      transaction loaded has been handed on, once. */
  method Broadcast(lines: seq<Option<Tx>>, senders: nat, ticks: nat)
    returns (pool: LoadResult, jobs: seq<Tx>, exhausted: bool)
    ensures pool.Loaded? <==> forall i :: 0 <= i < |lines| ==> InRange(lines[i], senders)
    ensures !pool.Loaded? ==> jobs == [] && !exhausted
    ensures pool.Loaded? ==> |jobs| == Min(ticks, |lines|) && (exhausted <==> ticks > |lines|)
    ensures pool.Loaded? ==> forall i :: 0 <= i < senders ==> Sorted(Of(jobs, i))
    ensures pool.Loaded? && ticks >= |lines| ==> multiset(jobs) == multiset(Decoded(lines))
  {
    jobs, exhausted := [], false;
    pool := LoadPool(lines, senders);
    if pool.Loaded? {
      LoadedTotal(Decoded(lines), pool.queues);
      var pump := new Pump(pool.queues);
      exhausted := pump.Drive(ticks);
      jobs := pump.jobs;
      SortedPrefixes(pool.queues, pump.cursors, jobs);
      if ticks >= |lines| {
        Within(pool.queues, pump.cursors);
        ExhaustedMeansAll(pool.queues, pump.cursors, jobs);
        forall i | 0 <= i < senders ensures SameFor(jobs, Decoded(lines), i) {}
        SamePerSender(jobs, Decoded(lines), senders);
      }
    }
  }
}
