/** The pooled relay of experiments/batch_scaling/relay_pool.py: committed packets split into chunks, a
    shared queue of chunks, one worker per account, and the attribution of the results to packets. */
module RelayPool {
  import opened Wrappers
  import opened Chunking
  import Radix

  datatype Packet = Packet(txHash: string, status: Status)

  datatype Status = Committed | Failed | Credited(chainSeq: string, at: Option<nat>)

  /** What a chunk's relay wrote. */
  datatype Summary = Summary(txHashToSeq: map<string, string>, totalGas: nat, updateIncluded: bool, recvCount: nat)

  /** How the relay of a chunk ended. Every ending but the first leaves no result. */
  datatype Ending = Relayed(summary: Summary, at: nat) | NoSummary | TimedOut | ExitedWithError(message: string)

  // ----- chunks

  /** None is the exception on a zero step; a negative step gives no chunk at all. */
  function ChunkHashes(hashes: seq<string>, chunkSize: int): (r: Option<seq<seq<string>>>)
    ensures r.None? <==> chunkSize == 0
    ensures chunkSize < 0 ==> r == Some([])
    ensures chunkSize > 0 ==> Flatten(r.value) == hashes
    ensures chunkSize > 0 ==> forall i :: 0 <= i < |r.value| ==> 0 < |r.value[i]| <= chunkSize
  {
    if chunkSize == 0 then None
    else if chunkSize < 0 then Some([])
    else
      ChunksPartition(hashes, chunkSize);
      Some(Chunks(hashes, chunkSize))
  }

  function Max(a: int, b: int): int {
    if a < b then b else a
  }

  // ----- the pool of workers

  /** How many workers run: the least of the request, the accounts and the chunks, and at least one. */
  function Workers(concurrency: int, poolSize: int, chunks: nat): (w: nat)
    ensures concurrency >= 1 && poolSize >= 1 && chunks >= 1 ==>
              && w <= concurrency && w <= poolSize && w <= chunks
              && (w == concurrency || w == poolSize || w == chunks)
    ensures concurrency < 1 || poolSize < 1 || chunks < 1 ==> w == 1
  {
    Max(1, Min(Min(concurrency, poolSize), chunks))
  }

  datatype Worker = Ready | Running(chunk: nat) | Stopped

  /** `started` lists the chunks in the order they were taken; `ended` holds how each ended. */
  datatype Pool = Pool(next: nat, workers: seq<Worker>, started: seq<nat>, ended: map<nat, Ending>)

  datatype Action = Take(worker: nat) | Finish(worker: nat, ending: Ending)

  function Start(w: nat): Pool {
    Pool(0, seq(w, _ => Ready), [], map[])
  }

  predicate Enabled(s: Pool, a: Action) {
    && a.worker < |s.workers|
    && match a
       case Take(w) => s.workers[w].Ready?
       case Finish(w, _) => s.workers[w].Running?
  }

  /** Taking is under the lock. A worker that finds the queue empty stops. */
  function Step(s: Pool, n: nat, a: Action): Pool
    requires Enabled(s, a)
  {
    match a
    case Take(w) =>
      if s.next >= n then s.(workers := s.workers[w := Stopped])
      else Pool(s.next + 1, s.workers[w := Running(s.next)], s.started + [s.next], s.ended)
    case Finish(w, e) =>
      s.(workers := s.workers[w := Ready], ended := s.ended[s.workers[w].chunk := e])
  }

  /** Where an interleaving of w workers over n chunks ends; None if some step was not enabled. */
  function Run(n: nat, w: nat, run: seq<Action>): Option<Pool> {
    if run == [] then Some(Start(w))
    else
      match Run(n, w, run[..|run| - 1])
      case None => None
      case Some(s) =>
        var a := run[|run| - 1];
        if Enabled(s, a) then Some(Step(s, n, a)) else None
  }

  ghost predicate Done(s: Pool) {
    forall w :: 0 <= w < |s.workers| ==> s.workers[w].Stopped?
  }

  ghost predicate Holds(s: Pool, w: nat, i: nat) {
    w < |s.workers| && s.workers[w] == Running(i)
  }

  /** A chunk taken is either held by exactly one worker or has ended, never both. */
  ghost predicate Inv(s: Pool, n: nat, w: nat) {
    && |s.workers| == w && s.next <= n
    && |s.started| == s.next && (forall i :: 0 <= i < s.next ==> s.started[i] == i)
    && (forall v: nat, i: nat :: Holds(s, v, i) ==> i < s.next && i !in s.ended)
    && (forall v: nat, u: nat, i: nat :: Holds(s, v, i) && Holds(s, u, i) ==> v == u)
    && (forall i :: i in s.ended ==> i < s.next)
    && (forall i: nat :: i < s.next && i !in s.ended ==> exists v: nat :: Holds(s, v, i))
    && (forall v :: 0 <= v < w && s.workers[v].Stopped? ==> s.next == n)
  }

  lemma StepKeepsInv(s: Pool, n: nat, w: nat, a: Action)
    requires Inv(s, n, w) && Enabled(s, a)
    ensures Inv(Step(s, n, a), n, w)
    ensures a.Finish? ==> s.workers[a.worker].chunk !in s.ended
  {
    var r := Step(s, n, a);
    var v := a.worker;
    assert a.Finish? ==> Holds(s, v, s.workers[v].chunk);
    forall u: nat, i: nat | Holds(r, u, i) ensures i < r.next && i !in r.ended && (u == v || Holds(s, u, i)) {
      if u != v {
        assert Holds(s, u, i);
      }
    }
    forall i: nat | i < r.next && i !in r.ended ensures exists u: nat :: Holds(r, u, i) {
      if i < s.next {
        var u: nat :| Holds(s, u, i);
        assert Holds(r, u, i);
      } else {
        assert Holds(r, v, i);
      }
    }
  }

  lemma {:induction false} RunKeepsInv(n: nat, w: nat, run: seq<Action>)
    requires Run(n, w, run).Some?
    ensures Inv(Run(n, w, run).value, n, w)
  {
    if run != [] {
      RunKeepsInv(n, w, run[..|run| - 1]);
      StepKeepsInv(Run(n, w, run[..|run| - 1]).value, n, w, run[|run| - 1]);
    }
  }

  // ----- how long it runs

  function Rank(w: Worker): nat {
    match w
    case Ready => 1
    case Running(_) => 2
    case Stopped => 0
  }

  function Ranks(ws: seq<Worker>): nat {
    if ws == [] then 0 else Ranks(ws[..|ws| - 1]) + Rank(ws[|ws| - 1])
  }

  lemma {:induction false} RanksUpdate(ws: seq<Worker>, v: nat, x: Worker)
    requires v < |ws|
    ensures Ranks(ws[v := x]) == Ranks(ws) - Rank(ws[v]) + Rank(x)
  {
    var m := |ws| - 1;
    if v == m {
      assert ws[v := x][..m] == ws[..m];
    } else {
      RanksUpdate(ws[..m], v, x);
      assert ws[v := x][..m] == ws[..m][v := x];
    }
  }

  lemma {:induction false} RanksReady(w: nat)
    ensures Ranks(Start(w).workers) == w
  {
    if w != 0 {
      RanksReady(w - 1);
      assert Start(w).workers[..w - 1] == Start(w - 1).workers;
    }
  }

  lemma {:induction false} RanksStopped(ws: seq<Worker>)
    ensures Ranks(ws) == 0 <==> forall v :: 0 <= v < |ws| ==> ws[v].Stopped?
  {
    if ws != [] {
      RanksStopped(ws[..|ws| - 1]);
    }
  }

  /** What is left to do: two steps for each chunk and one for each worker. */
  function Left(s: Pool, n: nat): int {
    2 * (n - s.next) + Ranks(s.workers)
  }

  lemma {:induction false} StepsLeft(n: nat, w: nat, run: seq<Action>)
    requires Run(n, w, run).Some?
    ensures |run| + Left(Run(n, w, run).value, n) == 2 * n + w
  {
    if run == [] {
      RanksReady(w);
    } else {
      StepsLeft(n, w, run[..|run| - 1]);
      var s, a := Run(n, w, run[..|run| - 1]).value, run[|run| - 1];
      RanksUpdate(s.workers, a.worker, Step(s, n, a).workers[a.worker]);
    }
  }

  /** The system terminates: no interleaving is longer than 2n + w, one that is as long is done, and one
      that is not done can go on. When it is done, each chunk was taken once, in order, and has ended. */
  lemma Terminates(n: nat, w: nat, run: seq<Action>)
    requires w > 0 && Run(n, w, run).Some?
    ensures var s := Run(n, w, run).value;
            && |run| <= 2 * n + w
            && (Done(s) <==> |run| == 2 * n + w)
            && (!Done(s) ==> exists a :: Enabled(s, a))
            && (Done(s) ==> s.started == seq(n, i => i) && forall i: nat :: i in s.ended <==> i < n)
  {
    var s := Run(n, w, run).value;
    RunKeepsInv(n, w, run);
    StepsLeft(n, w, run);
    RanksStopped(s.workers);
    if Done(s) {
      assert s.workers[0].Stopped?;
      assert forall v: nat, i: nat :: !Holds(s, v, i);
    } else {
      var v :| 0 <= v < |s.workers| && !s.workers[v].Stopped?;
      if s.workers[v].Ready? {
        assert Enabled(s, Take(v));
      } else {
        assert Enabled(s, Finish(v, NoSummary));
      }
    }
  }

  /** Two chunks in flight at the same time are different chunks, on different accounts of the pool. */
  lemma InFlightApart<Account>(n: nat, w: nat, run: seq<Action>, pool: seq<Account>, v: nat, u: nat)
    requires w <= |pool| && (forall i, j :: 0 <= i < j < |pool| ==> pool[i] != pool[j])
    requires Run(n, w, run).Some?
    requires v != u && v < w && u < w && |Run(n, w, run).value.workers| == w
    requires Run(n, w, run).value.workers[v].Running? && Run(n, w, run).value.workers[u].Running?
    ensures var s := Run(n, w, run).value; s.workers[v].chunk != s.workers[u].chunk && pool[v] != pool[u]
  {
    var s := Run(n, w, run).value;
    RunKeepsInv(n, w, run);
    assert Holds(s, v, s.workers[v].chunk) && Holds(s, u, s.workers[u].chunk);
  }

  function Busy(ws: seq<Worker>): (b: nat)
    ensures b <= |ws|
  {
    if ws == [] then 0 else Busy(ws[..|ws| - 1]) + if ws[|ws| - 1].Running? then 1 else 0
  }

  lemma {:induction false} BusyUpdate(ws: seq<Worker>, v: nat, x: Worker)
    requires v < |ws|
    ensures Busy(ws[v := x]) == Busy(ws) - (if ws[v].Running? then 1 else 0) + if x.Running? then 1 else 0
  {
    var m := |ws| - 1;
    if v == m {
      assert ws[v := x][..m] == ws[..m];
    } else {
      BusyUpdate(ws[..m], v, x);
      assert ws[v := x][..m] == ws[..m][v := x];
    }
  }

  lemma {:induction false} BusyReady(w: nat)
    ensures Busy(Start(w).workers) == 0
  {
    if w != 0 {
      BusyReady(w - 1);
      assert Start(w).workers[..w - 1] == Start(w - 1).workers;
    }
  }

  /** At every moment the chunks taken and not ended are those the workers are running, at most one each. */
  lemma {:induction false} InFlight(n: nat, w: nat, run: seq<Action>)
    requires Run(n, w, run).Some?
    ensures var s := Run(n, w, run).value; s.next - |s.ended| == Busy(s.workers) <= w
  {
    RunKeepsInv(n, w, run);
    if run == [] {
      BusyReady(w);
    } else {
      InFlight(n, w, run[..|run| - 1]);
      var s, a := Run(n, w, run[..|run| - 1]).value, run[|run| - 1];
      RunKeepsInv(n, w, run[..|run| - 1]);
      StepKeepsInv(s, n, w, a);
      BusyUpdate(s.workers, a.worker, Step(s, n, a).workers[a.worker]);
    }
  }

  /** Nobody waits for anybody: whatever the others are doing, a ready worker takes the next chunk, or stops when none
      is left, and a running one can end its chunk in any way. */
  lemma NobodyWaits(s: Pool, n: nat, v: nat, e: Ending)
    requires v < |s.workers|
    ensures s.workers[v].Ready? ==>
              && Enabled(s, Take(v))
              && Step(s, n, Take(v)).workers == s.workers[v := if s.next < n then Running(s.next) else Stopped]
              && Step(s, n, Take(v)).next == if s.next < n then s.next + 1 else s.next
    ensures s.workers[v].Running? ==>
              && Enabled(s, Finish(v, e)) && Step(s, n, Finish(v, e)).workers == s.workers[v := Ready]
              && Step(s, n, Finish(v, e)).ended == s.ended[s.workers[v].chunk := e]
  {
  }

  lemma {:induction false} AllBusy(ws: seq<Worker>)
    ensures Busy(ws) == |ws| <==> forall v :: 0 <= v < |ws| ==> ws[v].Running?
  {
    if ws != [] {
      var m := |ws| - 1;
      AllBusy(ws[..m]);
      if forall v :: 0 <= v < m ==> ws[..m][v].Running? {
        forall v | 0 <= v < m ensures ws[v].Running? {
          assert ws[..m][v].Running?;
        }
      }
    }
  }

  /** While chunks are left no worker has stopped, and as many chunks are in flight as there are workers exactly
      when no worker is just about to take one. */
  lemma PoolStaysFull(n: nat, w: nat, run: seq<Action>)
    requires Run(n, w, run).Some? && Run(n, w, run).value.next < n
    ensures var s := Run(n, w, run).value;
            && |s.workers| == w && (forall v :: 0 <= v < w ==> !s.workers[v].Stopped?)
            && (s.next - |s.ended| == w <==> forall v :: 0 <= v < w ==> !s.workers[v].Ready?)
  {
    var s := Run(n, w, run).value;
    RunKeepsInv(n, w, run);
    InFlight(n, w, run);
    AllBusy(s.workers);
    assert forall v :: 0 <= v < w ==> (s.workers[v].Running? <==> !s.workers[v].Ready?);
  }

  // ----- attribution

  function UpperChar(c: char): char {
    if 'a' <= c <= 'z' then (c as int - 32) as char else c
  }

  function Upper(s: string): string {
    seq(|s|, i requires 0 <= i < |s| => UpperChar(s[i]))
  }

  /** Letters come out in upper case, and nothing else changes. */
  lemma UpperIs(s: string, i: nat)
    requires i < |s|
    ensures |Upper(s)| == |s| && Upper(Upper(s)) == Upper(s) && !('a' <= Upper(s)[i] <= 'z')
    ensures 'a' <= s[i] <= 'z' ==> Upper(s)[i] as int - 'A' as int == s[i] as int - 'a' as int
    ensures !('a' <= s[i] <= 'z') ==> Upper(s)[i] == s[i]
  {
    forall j | 0 <= j < |s| ensures Upper(Upper(s))[j] == Upper(s)[j] {}
  }

  /** The entries of every result, a later chunk's over an earlier one's. */
  function Merged(results: seq<Ending>): map<string, string> {
    if results == [] then map[]
    else
      var r := results[|results| - 1];
      Merged(results[..|results| - 1]) + if r.Relayed? then r.summary.txHashToSeq else map[]
  }

  function TotalGas(results: seq<Ending>): nat {
    if results == [] then 0
    else
      var r := results[|results| - 1];
      TotalGas(results[..|results| - 1]) + if r.Relayed? then r.summary.totalGas else 0
  }

  function Updates(results: seq<Ending>): nat {
    if results == [] then 0
    else
      var r := results[|results| - 1];
      Updates(results[..|results| - 1]) + if r.Relayed? && r.summary.updateIncluded then 1 else 0
  }

  function Receives(results: seq<Ending>): nat {
    if results == [] then 0
    else
      var r := results[|results| - 1];
      Receives(results[..|results| - 1]) + if r.Relayed? then r.summary.recvCount else 0
  }

  function FailedChunks(results: seq<Ending>): seq<nat> {
    if results == [] then []
    else
      var i := |results| - 1;
      FailedChunks(results[..i]) + if results[i].Relayed? then [] else [i]
  }

  /** The last chunk with the hash in it. */
  function ChunkIndex(chunks: seq<seq<string>>, h: string): Option<nat> {
    if chunks == [] then None
    else if h in chunks[|chunks| - 1] then Some(|chunks| - 1)
    else ChunkIndex(chunks[..|chunks| - 1], h)
  }

  lemma {:induction false} ChunkIndexIs(chunks: seq<seq<string>>, h: string)
    ensures var i := ChunkIndex(chunks, h);
            && (i.None? ==> forall j :: 0 <= j < |chunks| ==> h !in chunks[j])
            && (i.Some? ==> i.value < |chunks| && h in chunks[i.value])
            && (i.Some? ==> forall j :: i.value < j < |chunks| ==> h !in chunks[j])
  {
    if chunks != [] && h !in chunks[|chunks| - 1] {
      ChunkIndexIs(chunks[..|chunks| - 1], h);
    }
  }

  function Attributed(h: string, chunks: seq<seq<string>>, results: seq<Ending>, bySeq: map<string, string>): Status {
    if Upper(h) in bySeq && bySeq[Upper(h)] != "" then
      var i := ChunkIndex(chunks, h);
      Credited(bySeq[Upper(h)],
               if i.Some? && i.value < |results| && results[i.value].Relayed? then Some(results[i.value].at) else None)
    else Failed
  }

  /** Every packet with its new status. */
  function AttributeAll(committed: seq<Packet>, chunks: seq<seq<string>>, results: seq<Ending>): seq<Packet> {
    seq(|committed|, j requires 0 <= j < |committed| =>
      committed[j].(status := Attributed(committed[j].txHash, chunks, results, Merged(results))))
  }

  datatype Report = Report(totalGas: nat, updates: nat, receives: nat, failed: seq<nat>)

  method Attribute(committed: seq<Packet>, chunks: seq<seq<string>>, results: seq<Ending>)
    returns (packets: seq<Packet>, report: Report)
    requires |results| == |chunks|
    ensures packets == AttributeAll(committed, chunks, results)
    ensures report == Report(TotalGas(results), Updates(results), Receives(results), FailedChunks(results))
  {
    var bySeq: map<string, string> := map[];
    report := Report(0, 0, 0, []);
    for i := 0 to |results|
      invariant bySeq == Merged(results[..i])
      invariant report == Report(TotalGas(results[..i]), Updates(results[..i]), Receives(results[..i]),
        FailedChunks(results[..i]))
    {
      var r := results[i];
      assert results[..i + 1][..i] == results[..i];
      if !r.Relayed? {
        report := report.(failed := report.failed + [i]);
      } else {
        bySeq := bySeq + r.summary.txHashToSeq;
        report := report.(totalGas := report.totalGas + r.summary.totalGas,
                          updates := report.updates + (if r.summary.updateIncluded then 1 else 0),
                          receives := report.receives + r.summary.recvCount);
      }
    }
    assert results[..|results|] == results;
    packets := [];
    for j := 0 to |committed|
      invariant |packets| == j
      invariant forall l :: 0 <= l < j ==>
                  packets[l] == committed[l].(status := Attributed(committed[l].txHash, chunks, results, bySeq))
    {
      packets := packets + [committed[j].(status := Attributed(committed[j].txHash, chunks, results, bySeq))];
    }
  }

  predicate Names(r: Ending, key: string) {
    r.Relayed? && key in r.summary.txHashToSeq
  }

  /** The result that names the key last. */
  ghost predicate LastNaming(results: seq<Ending>, key: string, i: nat) {
    i < |results| && Names(results[i], key) && forall j :: i < j < |results| ==> !Names(results[j], key)
  }

  lemma {:induction false} MergedIsLast(results: seq<Ending>, key: string)
    ensures key in Merged(results) <==> exists i: nat :: LastNaming(results, key, i)
    ensures forall i: nat :: LastNaming(results, key, i) ==> Merged(results)[key] == results[i].summary.txHashToSeq[key]
  {
    if results != [] {
      var m := |results| - 1;
      MergedIsLast(results[..m], key);
      if Names(results[m], key) {
        assert LastNaming(results, key, m);
      } else {
        forall i: nat | LastNaming(results, key, i) ensures LastNaming(results[..m], key, i) {}
        forall i: nat | LastNaming(results[..m], key, i) ensures LastNaming(results, key, i) {}
      }
    }
  }

  /** For any results whatever, a packet is credited exactly when the last result that names its hash
      gives it a sequence number. */
  lemma CreditedIffNamed(h: string, chunks: seq<seq<string>>, results: seq<Ending>)
    ensures Attributed(h, chunks, results, Merged(results)).Credited?
       <==> exists i: nat :: LastNaming(results, Upper(h), i) && results[i].summary.txHashToSeq[Upper(h)] != ""
  {
    MergedIsLast(results, Upper(h));
  }

  /** What the relay of a chunk writes when it succeeds: a sequence number for each of its hashes. */
  ghost predicate Answers(s: Summary, chunk: seq<string>) {
    && (forall i :: 0 <= i < |chunk| ==> Upper(chunk[i]) in s.txHashToSeq && s.txHashToSeq[Upper(chunk[i])] != "")
    && (forall key :: key in s.txHashToSeq ==> exists i :: 0 <= i < |chunk| && key == Upper(chunk[i]))
  }

  ghost predicate InChunk(h: string, chunk: seq<string>) {
    exists l :: 0 <= l < |chunk| && Upper(chunk[l]) == Upper(h)
  }

  lemma {:induction false} LastExists(results: seq<Ending>, key: string, i: nat)
    requires i < |results| && Names(results[i], key)
    ensures exists j: nat :: LastNaming(results, key, j)
    decreases |results| - i
  {
    if !LastNaming(results, key, i) {
      var j :| i < j < |results| && Names(results[j], key);
      LastExists(results, key, j);
    }
  }

  lemma AnsweredIff(r: Ending, chunk: seq<string>, h: string)
    requires r.Relayed? ==> Answers(r.summary, chunk)
    ensures Names(r, Upper(h)) <==> r.Relayed? && InChunk(h, chunk)
    ensures Names(r, Upper(h)) ==> r.summary.txHashToSeq[Upper(h)] != ""
  {
    if r.Relayed? && InChunk(h, chunk) {
      var l :| 0 <= l < |chunk| && Upper(chunk[l]) == Upper(h);
      assert Upper(chunk[l]) in r.summary.txHashToSeq;
    }
    if Names(r, Upper(h)) {
      var l :| 0 <= l < |chunk| && Upper(h) == Upper(chunk[l]);
    }
  }

  /** Whatever hashes agree, a packet is credited exactly when some relayed chunk has its hash. */
  lemma CreditedIffSomeRelayed(h: string, chunks: seq<seq<string>>, results: seq<Ending>)
    requires AllAnswer(results, chunks)
    ensures Attributed(h, chunks, results, Merged(results)).Credited?
       <==> exists i :: 0 <= i < |chunks| && results[i].Relayed? && InChunk(h, chunks[i])
  {
    CreditedIffNamed(h, chunks, results);
    forall i | 0 <= i < |chunks|
      ensures Names(results[i], Upper(h)) <==> results[i].Relayed? && InChunk(h, chunks[i])
      ensures Names(results[i], Upper(h)) ==> results[i].summary.txHashToSeq[Upper(h)] != ""
    {
      AnsweredIff(results[i], chunks[i], h);
    }
    if i :| 0 <= i < |chunks| && results[i].Relayed? && InChunk(h, chunks[i]) {
      LastExists(results, Upper(h), i);
    }
  }

  /** The chunk of hash h is chunk i, and no other. */
  ghost predicate OnlyIn(chunks: seq<seq<string>>, h: string, i: nat) {
    && i < |chunks| && h in chunks[i]
    && forall j, l :: 0 <= j < |chunks| && 0 <= l < |chunks[j]| && Upper(chunks[j][l]) == Upper(h) ==> j == i
  }

  lemma {:induction false} MergedAt(chunks: seq<seq<string>>, results: seq<Ending>, h: string, i: nat, m: nat)
    requires |results| == |chunks| && m <= |chunks| && OnlyIn(chunks, h, i)
    requires forall j :: 0 <= j < |chunks| && results[j].Relayed? ==> Answers(results[j].summary, chunks[j])
    ensures var bySeq := Merged(results[..m]);
            && (Upper(h) in bySeq <==> i < m && results[i].Relayed?)
            && (Upper(h) in bySeq ==> Names(results[i], Upper(h)))
            && (Upper(h) in bySeq ==> bySeq[Upper(h)] == results[i].summary.txHashToSeq[Upper(h)] != "")
  {
    if m != 0 {
      MergedAt(chunks, results, h, i, m - 1);
      assert results[..m][..m - 1] == results[..m - 1];
      if results[m - 1].Relayed? {
        assert Answers(results[m - 1].summary, chunks[m - 1]);
        if m - 1 == i {
          var l :| 0 <= l < |chunks[i]| && chunks[i][l] == h;
        }
      }
    }
  }

  lemma {:induction false} ChunkIndexOnly(chunks: seq<seq<string>>, h: string, i: nat)
    requires OnlyIn(chunks, h, i)
    ensures ChunkIndex(chunks, h) == Some(i)
  {
    var m := |chunks| - 1;
    if m != i {
      assert forall l :: 0 <= l < |chunks[m]| ==> Upper(chunks[m][l]) != Upper(h);
      assert chunks[..m][i] == chunks[i];
      forall j, l | 0 <= j < m && 0 <= l < |chunks[..m][j]| && Upper(chunks[..m][j][l]) == Upper(h) ensures j == i {
        assert chunks[..m][j] == chunks[j];
      }
      ChunkIndexOnly(chunks[..m], h, i);
    }
  }

  function Hashes(packets: seq<Packet>): seq<string> {
    seq(|packets|, j requires 0 <= j < |packets| => packets[j].txHash)
  }

  ghost predicate DistinctHashes(hashes: seq<string>) {
    forall i, j :: 0 <= i < j < |hashes| ==> Upper(hashes[i]) != Upper(hashes[j])
  }

  /** Chunk q has a hash exactly when some hash that agrees with it is at a position l with l / k == q. */
  lemma HashInChunk(hashes: seq<string>, k: nat, h: string, q: nat)
    requires k > 0 && q < |Chunks(hashes, k)|
    ensures InChunk(h, Chunks(hashes, k)[q]) <==>
              exists l :: 0 <= l < |hashes| && Upper(hashes[l]) == Upper(h) && l / k == q
  {
    if InChunk(h, Chunks(hashes, k)[q]) {
      var i :| 0 <= i < |Chunks(hashes, k)[q]| && Upper(Chunks(hashes, k)[q][i]) == Upper(h);
      PositionOf(hashes, k, q, i, q * k + i);
    }
    if l :| 0 <= l < |hashes| && Upper(hashes[l]) == Upper(h) && l / k == q {
      ChunkOf(hashes, k, l);
    }
  }

  lemma PositionOf(hashes: seq<string>, k: nat, q: nat, i: nat, p: int)
    requires k > 0 && q < |Chunks(hashes, k)| && i < |Chunks(hashes, k)[q]| && p == q * k + i
    ensures 0 <= p < |hashes| && hashes[p] == Chunks(hashes, k)[q][i] && p / k == q
  {
    ChunkAt(hashes, k, q, i);
    Radix.ModUnique(p, q, i, k);
  }

  /** Hash j is in chunk j / k and in no other. */
  lemma OnlyInItsChunk(hashes: seq<string>, k: nat, j: nat)
    requires k > 0 && j < |hashes| && DistinctHashes(hashes)
    ensures OnlyIn(Chunks(hashes, k), hashes[j], j / k)
  {
    ChunkOf(hashes, k, j);
    DivBounds(j, k);
    OnlyInChunk(hashes, k, j / k, j - j / k * k, j);
  }

  lemma InThatChunk(hashes: seq<string>, k: nat, q: nat, r: nat, j: nat, i: nat, l: nat)
    requires k > 0 && j < |hashes| && DistinctHashes(hashes) && r < k && j == q * k + r
    requires i < |Chunks(hashes, k)| && l < |Chunks(hashes, k)[i]| && Upper(Chunks(hashes, k)[i][l]) == Upper(hashes[j])
    ensures i == q
  {
    ChunkAt(hashes, k, i, l);
    SameQuotient(i, l, q, r, k);
  }

  lemma OnlyInChunk(hashes: seq<string>, k: nat, q: nat, r: nat, j: nat)
    requires k > 0 && j < |hashes| && DistinctHashes(hashes) && r < k && j == q * k + r
    requires q < |Chunks(hashes, k)| && hashes[j] in Chunks(hashes, k)[q]
    ensures OnlyIn(Chunks(hashes, k), hashes[j], q)
  {
    var chunks, h := Chunks(hashes, k), hashes[j];
    forall i, l | 0 <= i < |chunks| && 0 <= l < |chunks[i]| && Upper(chunks[i][l]) == Upper(h) ensures i == q {
      InThatChunk(hashes, k, q, r, j, i, l);
    }
  }

  /** What a packet's status becomes, from how its own chunk ended. */
  function StatusIn(h: string, r: Ending): Status {
    if Names(r, Upper(h)) then Credited(r.summary.txHashToSeq[Upper(h)], Some(r.at)) else Failed
  }

  ghost predicate AllAnswer(results: seq<Ending>, chunks: seq<seq<string>>) {
    && |results| == |chunks|
    && forall i :: 0 <= i < |chunks| && results[i].Relayed? ==> Answers(results[i].summary, chunks[i])
  }

  lemma AttributedInChunk(h: string, chunks: seq<seq<string>>, results: seq<Ending>, i: nat)
    requires AllAnswer(results, chunks) && OnlyIn(chunks, h, i)
    ensures Names(results[i], Upper(h)) <==> results[i].Relayed?
    ensures Attributed(h, chunks, results, Merged(results)) == StatusIn(h, results[i])
  {
    MergedAt(chunks, results, h, i, |chunks|);
    assert results[..|chunks|] == results;
    ChunkIndexOnly(chunks, h, i);
    if results[i].Relayed? {
      assert Answers(results[i].summary, chunks[i]);
    }
  }

  /** How the chunks ended, in a state where all have. */
  function Results(s: Pool, n: nat): seq<Ending>
    requires forall i: nat :: i < n ==> i in s.ended
  {
    seq(n, i requires 0 <= i < n => s.ended[i])
  }

  // ----- the whole relay

  /** The sum of what a set of chunks has. */
  ghost function SumOver(chunks: set<nat>, amounts: map<nat, nat>): nat
    requires chunks <= amounts.Keys
  {
    if chunks == {} then 0
    else
      var i :| i in chunks;
      amounts[i] + SumOver(chunks - {i}, amounts)
  }

  lemma {:induction false} SumSplit(chunks: set<nat>, amounts: map<nat, nat>, i: nat)
    requires chunks <= amounts.Keys && i in chunks
    ensures SumOver(chunks, amounts) == amounts[i] + SumOver(chunks - {i}, amounts)
    decreases chunks
  {
    var j :| j in chunks && SumOver(chunks, amounts) == amounts[j] + SumOver(chunks - {j}, amounts);
    if i != j {
      SumSplit(chunks - {j}, amounts, i);
      SumSplit(chunks - {i}, amounts, j);
      assert chunks - {j} - {i} == chunks - {i} - {j};
    }
  }

  ghost function RelayedBelow(ended: map<nat, Ending>, n: nat): set<nat> {
    set i: nat | i < n && i in ended && ended[i].Relayed?
  }

  /** What each relayed chunk used and received. */
  ghost function GasUsed(ended: map<nat, Ending>): map<nat, nat> {
    map i: nat | i in ended && ended[i].Relayed? :: ended[i].summary.totalGas
  }

  ghost function Received(ended: map<nat, Ending>): map<nat, nat> {
    map i: nat | i in ended && ended[i].Relayed? :: ended[i].summary.recvCount
  }

  lemma SumNext(ended: map<nat, Ending>, amounts: map<nat, nat>, i: nat)
    requires i in ended && forall j: nat :: j in amounts <==> j in ended && ended[j].Relayed?
    ensures SumOver(RelayedBelow(ended, i + 1), amounts) ==
              SumOver(RelayedBelow(ended, i), amounts) + if ended[i].Relayed? then amounts[i] else 0
  {
    if ended[i].Relayed? {
      SumSplit(RelayedBelow(ended, i + 1), amounts, i);
      assert RelayedBelow(ended, i + 1) - {i} == RelayedBelow(ended, i);
    } else {
      assert RelayedBelow(ended, i + 1) == RelayedBelow(ended, i);
    }
  }

  /** The reported gas is the sum over the relayed chunks. */
  lemma {:induction false} GasIsSum(s: Pool, n: nat, m: nat)
    requires (forall i: nat :: i < n ==> i in s.ended) && m <= n
    ensures TotalGas(Results(s, n)[..m]) == SumOver(RelayedBelow(s.ended, m), GasUsed(s.ended))
  {
    if m != 0 {
      GasIsSum(s, n, m - 1);
      assert Results(s, n)[..m][..m - 1] == Results(s, n)[..m - 1];
      SumNext(s.ended, GasUsed(s.ended), m - 1);
    }
  }

  /** And so is the reported number of packets received. */
  lemma {:induction false} ReceivesIsSum(s: Pool, n: nat, m: nat)
    requires (forall i: nat :: i < n ==> i in s.ended) && m <= n
    ensures Receives(Results(s, n)[..m]) == SumOver(RelayedBelow(s.ended, m), Received(s.ended))
  {
    if m != 0 {
      ReceivesIsSum(s, n, m - 1);
      assert Results(s, n)[..m][..m - 1] == Results(s, n)[..m - 1];
      SumNext(s.ended, Received(s.ended), m - 1);
    }
  }

  ghost function UpdatedBelow(ended: map<nat, Ending>, n: nat): set<nat> {
    set i: nat | i < n && i in ended && ended[i].Relayed? && ended[i].summary.updateIncluded
  }

  /** The reported number of updates counts the relayed chunks with one. */
  lemma {:induction false} UpdatesIsCount(s: Pool, n: nat, m: nat)
    requires (forall i: nat :: i < n ==> i in s.ended) && m <= n
    ensures Updates(Results(s, n)[..m]) == |UpdatedBelow(s.ended, m)|
  {
    if m != 0 {
      var i := m - 1;
      UpdatesIsCount(s, n, i);
      assert Results(s, n)[..m][..i] == Results(s, n)[..i];
      assert UpdatedBelow(s.ended, m) ==
        UpdatedBelow(s.ended, i) + if s.ended[i].Relayed? && s.ended[i].summary.updateIncluded then {i} else {};
    }
  }

  /** The totals reported are those of the relayed chunks. */
  ghost predicate ReportedRightly(s: Pool, n: nat)
    requires forall i: nat :: i < n ==> i in s.ended
  {
    && TotalGas(Results(s, n)) == SumOver(RelayedBelow(s.ended, n), GasUsed(s.ended))
    && Receives(Results(s, n)) == SumOver(RelayedBelow(s.ended, n), Received(s.ended))
    && Updates(Results(s, n)) == |UpdatedBelow(s.ended, n)|
  }

  lemma Reported(s: Pool, n: nat)
    requires forall i: nat :: i < n ==> i in s.ended
    ensures ReportedRightly(s, n)
  {
    GasIsSum(s, n, n);
    ReceivesIsSum(s, n, n);
    UpdatesIsCount(s, n, n);
    assert Results(s, n)[..n] == Results(s, n);
  }

  /** A relay that has run to its end, over these chunks. */
  ghost predicate Complete(chunks: seq<seq<string>>, w: nat, run: seq<Action>) {
    && Run(|chunks|, w, run).Some? && Done(Run(|chunks|, w, run).value)
    && var ended := Run(|chunks|, w, run).value.ended;
       forall i: nat :: i < |chunks| && i in ended && ended[i].Relayed? ==> Answers(ended[i].summary, chunks[i])
  }

  lemma CompleteResults(chunks: seq<seq<string>>, w: nat, run: seq<Action>)
    requires w > 0 && Complete(chunks, w, run)
    ensures var end := Run(|chunks|, w, run).value;
            && (forall i: nat :: i < |chunks| ==> i in end.ended)
            && AllAnswer(Results(end, |chunks|), chunks)
            && ReportedRightly(end, |chunks|)
  {
    var n, end := |chunks|, Run(|chunks|, w, run).value;
    Terminates(n, w, run);
    Reported(end, n);
  }

  /** What becomes of packet j, whose hash is in chunk q: it is credited exactly when some relayed chunk has
      its hash, and with distinct hashes exactly when chunk q was relayed, with that chunk's sequence number
      and finishing time. */
  ghost predicate CreditedRightly(committed: seq<Packet>, chunks: seq<seq<string>>, results: seq<Ending>, j: nat,
      q: nat)
    requires |results| == |chunks| && j < |committed|
  {
    var packets := AttributeAll(committed, chunks, results);
    var h := committed[j].txHash;
    && |packets| == |committed| && packets[j].txHash == h
    && (packets[j].status.Credited? <==>
          exists i :: 0 <= i < |chunks| && results[i].Relayed? && InChunk(h, chunks[i]))
    && (packets[j].status.Credited? || packets[j].status == Failed)
    && (DistinctHashes(Hashes(committed)) && chunks != [] ==>
          && q < |chunks| && (packets[j].status.Credited? <==> results[q].Relayed?)
          && packets[j].status == StatusIn(h, results[q]))
  }

  lemma GroupCredited(committed: seq<Packet>, chunks: seq<seq<string>>, results: seq<Ending>, j: nat, q: nat)
    requires AllAnswer(results, chunks) && j < |committed|
    requires DistinctHashes(Hashes(committed)) && chunks != [] ==> OnlyIn(chunks, committed[j].txHash, q)
    ensures CreditedRightly(committed, chunks, results, j, q)
  {
    CreditedIffSomeRelayed(committed[j].txHash, chunks, results);
    if DistinctHashes(Hashes(committed)) && chunks != [] {
      AttributedInChunk(committed[j].txHash, chunks, results, q);
    }
  }

  /** Every chunk has ended, packet j is credited as it should be, and the totals reported are those of the
      relayed chunks. */
  ghost predicate RelayedRightly(committed: seq<Packet>, chunks: seq<seq<string>>, end: Pool, j: nat, q: nat)
    requires j < |committed|
  {
    && (forall i: nat :: i < |chunks| ==> i in end.ended)
    && CreditedRightly(committed, chunks, Results(end, |chunks|), j, q)
    && ReportedRightly(end, |chunks|)
  }

  lemma RelayChunks(committed: seq<Packet>, chunks: seq<seq<string>>, w: nat, run: seq<Action>, j: nat, q: nat)
    requires w > 0 && Complete(chunks, w, run) && j < |committed|
    requires DistinctHashes(Hashes(committed)) && chunks != [] ==> OnlyIn(chunks, committed[j].txHash, q)
    ensures RelayedRightly(committed, chunks, Run(|chunks|, w, run).value, j, q)
  {
    CompleteResults(chunks, w, run);
    GroupCredited(committed, chunks, Results(Run(|chunks|, w, run).value, |chunks|), j, q);
  }

  /** The chunk of packet j, if there are chunks. */
  function ChunkNumber(j: nat, chunkSize: int): nat {
    if chunkSize > 0 then j / chunkSize else 0
  }

  lemma InItsChunk(committed: seq<Packet>, chunkSize: int, j: nat)
    requires chunkSize != 0 && j < |committed| && DistinctHashes(Hashes(committed))
    ensures var chunks := ChunkHashes(Hashes(committed), chunkSize).value;
            chunks != [] ==> OnlyIn(chunks, committed[j].txHash, ChunkNumber(j, chunkSize))
  {
    if chunkSize > 0 {
      OnlyInItsChunk(Hashes(committed), chunkSize, j);
    }
  }

  /** The relay of a group, from its committed packets to the packets returned, over every interleaving, for
      every chunk size the source does not fail on. With a negative one there are no chunks, and every packet
      has failed. */
  lemma RelayGroup(committed: seq<Packet>, chunkSize: int, concurrency: int, poolSize: int, run: seq<Action>, j: nat)
    requires chunkSize != 0 && j < |committed|
    requires var chunks := ChunkHashes(Hashes(committed), chunkSize).value;
             Complete(chunks, Workers(concurrency, poolSize, |chunks|), run)
    ensures var chunks := ChunkHashes(Hashes(committed), chunkSize).value;
            var end := Run(|chunks|, Workers(concurrency, poolSize, |chunks|), run).value;
            RelayedRightly(committed, chunks, end, j, ChunkNumber(j, chunkSize))
  {
    var chunks := ChunkHashes(Hashes(committed), chunkSize).value;
    var q, w := ChunkNumber(j, chunkSize), Workers(concurrency, poolSize, |chunks|);
    if DistinctHashes(Hashes(committed)) {
      InItsChunk(committed, chunkSize, j);
    }
    RelayChunks(committed, chunks, w, run, j, q);
  }

  /** The report names exactly the chunks that were not relayed. */
  lemma {:induction false} FailedChunksExact(results: seq<Ending>, i: nat)
    ensures i in FailedChunks(results) <==> i < |results| && !results[i].Relayed?
  {
    if results != [] {
      FailedChunksExact(results[..|results| - 1], i);
    }
  }
}
