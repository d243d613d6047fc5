/** One group run of experiments/batch_scaling/loadgen.py with its checkpoints, under crashes and
    resumes: submission, forward relay, and the acknowledgement windows of ack_pool.py, whose workers
    acknowledge packets and write checkpoints concurrently. */
module Resume {
  import opened Wrappers
  import opened Shares
  import Radix

  datatype Config = Config(groupSize: nat, poolSize: int, relayPoolSize: int, relayConcurrency: int,
                           chunkSize: int, ackPoolSize: int)

  datatype Status = Submitted | Committed | Credited | Acked | Failed

  type Packets = seq<Status>

  datatype Checkpoint = Checkpoint(config: Config, packets: Packets, submitDone: bool, relayDone: bool)

  /** A worker of a window stands at position `at` of the outstanding list. It tries that packet, then
      counts it done, and then may have to read the packets one by one into a checkpoint and save it. */
  datatype Task = Trying | Counting | Reading(prefix: Packets)

  datatype Worker = Worker(at: nat, end: nat, task: Task)

  datatype Phase =
    | Submitting
    | Awaiting
    | Relaying
    | Between(windows: nat)
    | Window(windows: nat, outstanding: seq<nat>, workers: seq<Worker>, done: nat, tried: seq<nat>)
    | Closing(failureKind: bool)

  datatype Process = Process(config: Config, packets: Packets, submitDone: bool, relayDone: bool, phase: Phase)

  datatype Result = Result(config: Config, packets: Packets, ok: bool)

  /** `promised` is what the checkpoint loaded last had as acknowledged, and a window's `tried` lists the
      packets it tried: no step reads either. */
  datatype State = State(disk: Option<Checkpoint>, process: Option<Process>, result: Option<Result>, promised: set<nat>)

  datatype Action =
    | Launch(config: Config)
    | Submit(packets: Packets)
    | Commit(committed: set<nat>)
    | Relay(packets: Packets, failure: bool)
    | OpenWindow(keys: nat)
    | Try(worker: nat, ok: bool)
    | Count(worker: nat)
    | Read(worker: nat)
    | Save(worker: nat)
    | CloseWindow
    | NoAckCommand
    | Finish
    | Crash

  const INIT := State(None, None, None, {})
  const MAX_WINDOWS := 6

  // ----- the steps. One that is not enabled leaves the state as it is.

  function AckedIn(ps: Packets): set<nat> {
    set i: nat | i < |ps| && ps[i] == Acked
  }

  /** A checkpoint of another configuration is ignored. */
  function Launched(s: State, c: Config): State {
    match s.disk
    case Some(ck) =>
      if ck.config == c then
        var phase := if !ck.submitDone then Submitting else if !ck.relayDone then Relaying else Between(0);
        s.(process := Some(Process(c, ck.packets, ck.submitDone, ck.relayDone, phase)), promised := AckedIn(ck.packets))
      else s.(process := Some(Process(c, [], false, false, Submitting)), promised := {})
    case None => s.(process := Some(Process(c, [], false, false, Submitting)), promised := {})
  }

  function Snapshot(p: Process): Checkpoint {
    Checkpoint(p.config, p.packets, p.submitDone, p.relayDone)
  }

  function Saved(s: State, p: Process): State {
    s.(process := Some(p), disk := Some(Snapshot(p)))
  }

  predicate Submits(p: Process, ps: Packets) {
    p.phase == Submitting && |ps| == p.config.groupSize && forall i :: 0 <= i < |ps| ==> ps[i] in {Submitted, Failed}
  }

  /** What is not committed in time has failed. */
  function Commits(ps: Packets, committed: set<nat>): Packets {
    seq(|ps|, i requires 0 <= i < |ps| =>
      if ps[i] != Submitted then ps[i] else if i in committed then Committed else Failed)
  }

  /** The forward relay touches committed packets only. Without a failure it had some, and left none. */
  predicate Relays(ps: Packets, next: Packets, failure: bool) {
    && |next| == |ps|
    && (forall i :: 0 <= i < |ps| ==>
          if ps[i] != Committed then next[i] == ps[i] else next[i] in {Committed, Credited, Failed})
    && (!failure ==> Committed in ps && Committed !in next)
  }

  function Outstanding(ps: Packets): (r: seq<nat>)
    ensures forall i :: i in r <==> 0 <= i < |ps| && ps[i] == Credited
    ensures forall a, b :: 0 <= a < b < |r| ==> r[a] < r[b]
  {
    if ps == [] then []
    else
      var n := |ps| - 1;
      var before := Outstanding(ps[..n]);
      assert forall a :: 0 <= a < |before| ==> before[a] in before;
      before + if ps[n] == Credited then [n] else []
  }

  /** The pool always has a key; the shares are contiguous. */
  function OpenWorkers(total: nat, keys: nat): seq<Worker>
    requires keys > 0
  {
    seq(keys, w requires 0 <= w < keys => Worker(Start(total, keys, w), Start(total, keys, w + 1), Trying))
  }

  /** After the windows, what was not acknowledged has failed. */
  function Closed(ps: Packets): Packets {
    seq(|ps|, i requires 0 <= i < |ps| => if ps[i] == Acked then Acked else Failed)
  }

  function Opened(p: Process, keys: nat): Process
    requires p.phase.Between?
  {
    var outstanding := Outstanding(p.packets);
    if p.phase.windows == MAX_WINDOWS || outstanding == []
    then p.(packets := Closed(p.packets), phase := Closing(false))
    else if keys == 0 then p
    else p.(phase := Window(p.phase.windows + 1, outstanding, OpenWorkers(|outstanding|, keys), 0, []))
  }

  predicate CanTry(p: Process, w: nat) {
    && p.phase.Window? && w < |p.phase.workers| && p.phase.workers[w].task == Trying
    && p.phase.workers[w].at < p.phase.workers[w].end && p.phase.workers[w].at < |p.phase.outstanding|
    && p.phase.outstanding[p.phase.workers[w].at] < |p.packets|
  }

  /** A failed try defers the packet to the next window. */
  function Tried(p: Process, w: nat, ok: bool): Process
    requires CanTry(p, w)
  {
    var i := p.phase.outstanding[p.phase.workers[w].at];
    p.(packets := if ok then p.packets[i := Acked] else p.packets,
       phase := p.phase.(workers := p.phase.workers[w := p.phase.workers[w].(task := Counting)],
         tried := p.phase.tried + [i]))
  }

  function Advance(k: Worker): Worker {
    k.(at := k.at + 1, task := Trying)
  }

  function CheckpointEvery(total: nat): nat {
    if total / 20 < 1 then 1 else total / 20
  }

  function Counted(p: Process, w: nat): Process
    requires p.phase.Window? && w < |p.phase.workers|
  {
    var k := p.phase.workers[w];
    var done := p.phase.done + 1;
    var next := if done % CheckpointEvery(|p.phase.outstanding|) == 0 then k.(task := Reading([])) else Advance(k);
    p.(phase := p.phase.(workers := p.phase.workers[w := next], done := done))
  }

  predicate CanRead(p: Process, w: nat) {
    && p.phase.Window? && w < |p.phase.workers| && p.phase.workers[w].task.Reading?
    && |p.phase.workers[w].task.prefix| < |p.packets|
  }

  function ReadOne(p: Process, w: nat): Process
    requires CanRead(p, w)
  {
    var k := p.phase.workers[w];
    var prefix := k.task.prefix + [p.packets[|k.task.prefix|]];
    p.(phase := p.phase.(workers := p.phase.workers[w := k.(task := Reading(prefix))]))
  }

  predicate CanSave(p: Process, w: nat) {
    && p.phase.Window? && w < |p.phase.workers| && p.phase.workers[w].task.Reading?
    && |p.phase.workers[w].task.prefix| == |p.packets|
  }

  /** What is saved is what was read, however old by now. */
  function SavedBy(s: State, p: Process, w: nat): State
    requires CanSave(p, w)
  {
    var k := p.phase.workers[w];
    s.(process := Some(p.(phase := p.phase.(workers := p.phase.workers[w := Advance(k)]))),
       disk := Some(Checkpoint(p.config, k.task.prefix, p.submitDone, p.relayDone)))
  }

  predicate AllDone(p: Process) {
    p.phase.Window? && forall w :: 0 <= w < |p.phase.workers| ==>
      p.phase.workers[w].at == p.phase.workers[w].end && p.phase.workers[w].task == Trying
  }

  function Conclude(p: Process): Result
    requires p.phase.Closing?
  {
    Result(p.config, p.packets, !p.phase.failureKind && Failed !in p.packets)
  }

  /** A step of a running process, except for its end. */
  function Proceed(s: State, p: Process, a: Action): State {
    match a
    case Submit(ps) =>
      if Submits(p, ps) then s.(process := Some(p.(packets := ps, phase := Awaiting))) else s
    case Commit(committed) =>
      if p.phase == Awaiting then
        Saved(s, p.(packets := Commits(p.packets, committed), submitDone := true, phase := Relaying))
      else s
    case Relay(ps, failure) =>
      if p.phase == Relaying && Relays(p.packets, ps, failure) then
        Saved(s, p.(packets := ps, relayDone := !failure, phase := if failure then Closing(true) else Between(0)))
      else s
    case OpenWindow(keys) =>
      if p.phase.Between? then s.(process := Some(Opened(p, keys))) else s
    case NoAckCommand =>
      if p.phase == Between(0)
      then s.(process := Some(p.(packets := Closed(p.packets), phase := Closing(false))))
      else s
    case Try(w, ok) =>
      if CanTry(p, w) then s.(process := Some(Tried(p, w, ok))) else s
    case Count(w) =>
      if p.phase.Window? && w < |p.phase.workers| && p.phase.workers[w].task == Counting then
        s.(process := Some(Counted(p, w)))
      else s
    case Read(w) =>
      if CanRead(p, w) then s.(process := Some(ReadOne(p, w))) else s
    case Save(w) =>
      if CanSave(p, w) then SavedBy(s, p, w) else s
    case CloseWindow =>
      if AllDone(p) then Saved(s, p.(phase := Between(p.phase.windows))) else s
    case _ => s
  }

  function Step(s: State, a: Action): State {
    match s.process
    case None => if a.Launch? then Launched(s, a.config) else s
    case Some(p) =>
      if a.Crash? then s.(process := None)
      else if a.Finish? then
        if p.phase.Closing? then State(None, None, Some(Conclude(p)), {}) else s
      else Proceed(s, p, a)
  }

  function Run(run: seq<Action>): State {
    if run == [] then INIT else Step(Run(run[..|run| - 1]), run[|run| - 1])
  }

  // ----- what every run keeps

  /** A packet's status may become another. */
  predicate Forward(a: Status, b: Status) {
    match a
    case Submitted => true
    case Committed => b != Submitted
    case Credited => b in {Credited, Acked, Failed}
    case Acked => b == Acked
    case Failed => b == Failed
  }

  ghost predicate Behind(a: Packets, b: Packets) {
    |a| <= |b| && forall i :: 0 <= i < |a| ==> Forward(a[i], b[i])
  }

  ghost predicate Keeps(ps: Packets, promised: set<nat>) {
    forall i :: i in promised && i < |ps| ==> ps[i] == Acked
  }

  ghost predicate DiskOk(ck: Checkpoint, promised: set<nat>) {
    && ck.submitDone && |ck.packets| == ck.config.groupSize
    && (if ck.relayDone then ck.packets != [] else Acked !in ck.packets)
    && (forall i :: i in promised ==> i < |ck.packets|) && Keeps(ck.packets, promised)
  }

  ghost predicate WorkerOk(k: Worker, packets: Packets, promised: set<nat>) {
    k.task.Reading? ==> Behind(k.task.prefix, packets) && Keeps(k.task.prefix, promised)
  }

  /** The first position the worker has not tried. */
  function Next(k: Worker): nat {
    if k.task == Trying then k.at else k.at + 1
  }

  ghost predicate RangesOk(total: nat, workers: seq<Worker>) {
    && |workers| > 0
    && forall w :: 0 <= w < |workers| ==>
         Start(total, |workers|, w) <= workers[w].at &&
           Next(workers[w]) <= workers[w].end == Start(total, |workers|, w + 1)
  }

  /** Of each worker's share, what lies before its next position has been tried, and what follows has not
      and is still to be acknowledged. */
  ghost predicate WindowOk(outstanding: seq<nat>, workers: seq<Worker>, tried: seq<nat>, packets: Packets) {
    && RangesOk(|outstanding|, workers) && Distinct(outstanding) && Distinct(tried)
    && (forall p :: 0 <= p < |outstanding| ==> outstanding[p] < |packets|)
    && (forall w: nat, p: nat :: Owns(|outstanding|, |workers|, w, p) && p < |outstanding| ==>
          && (outstanding[p] in tried <==> p < Next(workers[w]))
          && (p < Next(workers[w]) || packets[outstanding[p]] == Credited))
    && (forall i :: i in tried ==> i in outstanding)
  }

  ghost predicate PhaseOk(p: Process, promised: set<nat>) {
    match p.phase
    case Submitting => !p.submitDone && !p.relayDone && promised == {} && p.packets == []
    case Awaiting => !p.submitDone && !p.relayDone && promised == {} && |p.packets| == p.config.groupSize &&
      Acked !in p.packets
    case Relaying => p.submitDone && !p.relayDone
    case Between(_) => p.submitDone && p.relayDone
    case Window(_, outstanding, workers, _, tried) =>
      && p.submitDone && p.relayDone && WindowOk(outstanding, workers, tried, p.packets)
      && forall w :: 0 <= w < |workers| ==> WorkerOk(workers[w], p.packets, promised)
    case Closing(failure) =>
      && p.submitDone && (p.relayDone <==> !failure)
      && (!failure ==> forall i :: 0 <= i < |p.packets| ==> p.packets[i] in {Acked, Failed})
  }

  ghost predicate ProcessOk(p: Process, disk: Option<Checkpoint>, promised: set<nat>) {
    && PhaseOk(p, promised)
    && (p.submitDone ==>
          && |p.packets| == p.config.groupSize && (if p.relayDone then p.packets != [] else Acked !in p.packets)
          && disk.Some? && disk.value.config == p.config && Behind(disk.value.packets, p.packets))
  }

  /** A group's result is "ok" exactly when it has packets and every one is acknowledged. */
  ghost predicate ResultOk(r: Result) {
    && |r.packets| == r.config.groupSize
    && (r.ok <==> r.packets != [] && forall i :: 0 <= i < |r.packets| ==> r.packets[i] == Acked)
  }

  ghost predicate Inv(s: State) {
    && (s.disk.None? ==> s.promised == {})
    && (s.disk.Some? ==> DiskOk(s.disk.value, s.promised))
    && (s.process.Some? ==> ProcessOk(s.process.value, s.disk, s.promised))
    && (s.result.Some? ==> ResultOk(s.result.value))
  }

  lemma ForwardTrans(a: Packets, b: Packets, c: Packets)
    requires Behind(a, b) && Behind(b, c)
    ensures Behind(a, c)
  {
    forall i | 0 <= i < |a| ensures Forward(a[i], c[i]) {
      assert Forward(a[i], b[i]) && Forward(b[i], c[i]);
    }
  }

  /** What is ahead of something that keeps the promise keeps it. */
  lemma PromiseAhead(a: Packets, b: Packets, promised: set<nat>)
    requires Behind(a, b) && Keeps(a, promised) && forall i :: i in promised ==> i < |a|
    ensures Keeps(b, promised)
  {
    forall i | i in promised && i < |b| ensures b[i] == Acked {
      assert Forward(a[i], b[i]);
    }
  }

  lemma LaunchKeepsInv(s: State, c: Config)
    requires Inv(s) && s.process.None?
    ensures Inv(Launched(s, c))
  {
  }

  /** A running process, with its packets moved forward and saved. */
  lemma SavedKeepsInv(s: State, p: Process, q: Process)
    requires Inv(s) && s.process == Some(p) && PhaseOk(q, s.promised) && q.config == p.config && q.submitDone
    requires |q.packets| == q.config.groupSize && (if q.relayDone then q.packets != [] else Acked !in q.packets)
    requires p.submitDone ==> Behind(p.packets, q.packets)
    requires !p.submitDone ==> s.promised == {}
    ensures Inv(Saved(s, q))
  {
    if p.submitDone {
      ForwardTrans(s.disk.value.packets, p.packets, q.packets);
      PromiseAhead(s.disk.value.packets, q.packets, s.promised);
    }
  }

  /** A running process, with its packets moved forward and not saved. */
  lemma MovedKeepsInv(s: State, p: Process, q: Process)
    requires Inv(s) && s.process == Some(p) && PhaseOk(q, s.promised) && q.config == p.config
    requires p.submitDone && q.submitDone && q.relayDone == p.relayDone == true
    requires |q.packets| == |p.packets| && Behind(p.packets, q.packets)
    ensures Inv(s.(process := Some(q)))
  {
    ForwardTrans(s.disk.value.packets, p.packets, q.packets);
  }

  lemma OpenRange(total: nat, keys: nat, w: nat)
    requires w < keys
    ensures var k := OpenWorkers(total, keys)[w];
            Start(total, keys, w) <= k.at && Next(k) <= k.end == Start(total, keys, w + 1)
  {
    assert OpenWorkers(total, keys)[w] == Worker(Start(total, keys, w), Start(total, keys, w + 1), Trying);
    StartMono(total, keys, w, w + 1);
  }

  lemma OpenKeepsRanges(total: nat, keys: nat)
    requires keys > 0
    ensures RangesOk(total, OpenWorkers(total, keys))
  {
    var ks := OpenWorkers(total, keys);
    forall w: nat | w < keys
      ensures Start(total, keys, w) <= ks[w].at && Next(ks[w]) <= ks[w].end == Start(total, keys, w + 1)
    {
      OpenRange(total, keys, w);
    }
  }

  lemma OpenKeepsWindow(packets: Packets, o: seq<nat>, keys: nat)
    requires keys > 0 && o == Outstanding(packets)
    ensures WindowOk(o, OpenWorkers(|o|, keys), [], packets)
  {
    var ks := OpenWorkers(|o|, keys);
    OpenKeepsRanges(|o|, keys);
    forall p | 0 <= p < |o| ensures o[p] < |packets| && packets[o[p]] == Credited {
      assert o[p] in o;
    }
    forall w: nat, p: nat | Owns(|o|, keys, w, p) && p < |o| ensures Next(ks[w]) <= p {
      assert ks[w].at == Start(|o|, keys, w);
    }
  }

  lemma TryKeepsWindow(p: Process, w: nat, ok: bool)
    requires CanTry(p, w) && WindowOk(p.phase.outstanding, p.phase.workers, p.phase.tried, p.packets)
    ensures var q := Tried(p, w, ok); WindowOk(q.phase.outstanding, q.phase.workers, q.phase.tried, q.packets)
    ensures var i := p.phase.outstanding[p.phase.workers[w].at]; i !in p.phase.tried && p.packets[i] == Credited
  {
    var q := Tried(p, w, ok);
    var o, ks, at := p.phase.outstanding, p.phase.workers, p.phase.workers[w].at;
    assert Owns(|o|, |ks|, w, at);
    var owner := OneOwner(|o|, |ks|, at);
    forall v: nat, r: nat | Owns(|o|, |ks|, v, r) && r < |o|
      ensures o[r] in q.phase.tried <==> r < Next(q.phase.workers[v])
      ensures r < Next(q.phase.workers[v]) || q.packets[o[r]] == Credited
    {
      assert r == at ==> v == w;
      assert o[r] == o[at] <==> r == at;
    }
  }

  /** One worker of a window moves on; the packets may have moved forward. */
  lemma WindowKeepsInv(s: State, p: Process, w: nat, q: Process)
    requires Inv(s) && s.process == Some(p) && p.phase.Window? && w < |p.phase.workers|
    requires q.phase.Window? && q == p.(packets := q.packets, phase := q.phase) &&
      |q.phase.workers| == |p.phase.workers|
    requires q.phase.workers == p.phase.workers[w := q.phase.workers[w]]
    requires |q.packets| == |p.packets| && Behind(p.packets, q.packets)
    requires WorkerOk(q.phase.workers[w], q.packets, s.promised)
    requires WindowOk(q.phase.outstanding, q.phase.workers, q.phase.tried, q.packets)
    ensures Inv(s.(process := Some(q)))
  {
    forall v | 0 <= v < |q.phase.workers| ensures WorkerOk(q.phase.workers[v], q.packets, s.promised) {
      if v != w && q.phase.workers[v].task.Reading? {
        assert WorkerOk(p.phase.workers[v], p.packets, s.promised);
        ForwardTrans(q.phase.workers[v].task.prefix, p.packets, q.packets);
      }
    }
    MovedKeepsInv(s, p, q);
  }

  /** A worker's next position stays or is the same seen from the next task. */
  lemma NextKeepsWindow(o: seq<nat>, ks: seq<Worker>, tried: seq<nat>, packets: Packets, w: nat, k: Worker)
    requires WindowOk(o, ks, tried, packets) && w < |ks| && k.end == ks[w].end && ks[w].at <= k.at &&
      Next(k) == Next(ks[w])
    ensures WindowOk(o, ks[w := k], tried, packets)
  {
    var ls := ks[w := k];
    assert RangesOk(|o|, ls);
    forall v: nat, p: nat | Owns(|o|, |ls|, v, p) && p < |o|
      ensures (o[p] in tried <==> p < Next(ls[v])) && (p < Next(ls[v]) || packets[o[p]] == Credited)
    {
      assert Owns(|o|, |ks|, v, p);
      assert Next(ls[v]) == Next(ks[v]);
    }
  }

  lemma TryKeepsInv(s: State, p: Process, w: nat, ok: bool)
    requires Inv(s) && s.process == Some(p) && CanTry(p, w)
    ensures Inv(s.(process := Some(Tried(p, w, ok))))
  {
    TryKeepsWindow(p, w, ok);
    WindowKeepsInv(s, p, w, Tried(p, w, ok));
  }

  lemma CountKeepsInv(s: State, p: Process, w: nat)
    requires Inv(s) && s.process == Some(p) && p.phase.Window? && w < |p.phase.workers| &&
      p.phase.workers[w].task == Counting
    ensures Inv(s.(process := Some(Counted(p, w))))
  {
    var q := Counted(p, w);
    NextKeepsWindow(p.phase.outstanding, p.phase.workers, p.phase.tried, p.packets, w, q.phase.workers[w]);
    WindowKeepsInv(s, p, w, q);
  }

  lemma ReadKeepsInv(s: State, p: Process, w: nat)
    requires Inv(s) && s.process == Some(p) && CanRead(p, w)
    ensures Inv(s.(process := Some(ReadOne(p, w))))
  {
    var q := ReadOne(p, w);
    assert WorkerOk(p.phase.workers[w], p.packets, s.promised);
    PromiseAhead(s.disk.value.packets, p.packets, s.promised);
    NextKeepsWindow(p.phase.outstanding, p.phase.workers, p.phase.tried, p.packets, w, q.phase.workers[w]);
    WindowKeepsInv(s, p, w, q);
  }

  lemma SaveKeepsInv(s: State, p: Process, w: nat)
    requires Inv(s) && s.process == Some(p) && CanSave(p, w)
    ensures Inv(SavedBy(s, p, w))
  {
    var q := SavedBy(s, p, w).process.value;
    assert WorkerOk(p.phase.workers[w], p.packets, s.promised);
    NextKeepsWindow(p.phase.outstanding, p.phase.workers, p.phase.tried, p.packets, w, q.phase.workers[w]);
    WindowKeepsInv(s, p, w, q);
  }

  lemma ClosedBehind(ps: Packets)
    ensures |Closed(ps)| == |ps| && Behind(ps, Closed(ps))
  {
  }

  lemma OpenKeepsInv(s: State, p: Process, keys: nat)
    requires Inv(s) && s.process == Some(p) && p.phase.Between?
    ensures Inv(s.(process := Some(Opened(p, keys))))
  {
    ClosedBehind(p.packets);
    if keys > 0 {
      OpenKeepsWindow(p.packets, Outstanding(p.packets), keys);
    }
    MovedKeepsInv(s, p, Opened(p, keys));
  }

  /** Submitting and relaying. */
  lemma EarlyKeepsInv(s: State, p: Process, a: Action)
    requires Inv(s) && s.process == Some(p) && (a.Submit? || a.Commit? || a.Relay?)
    ensures Inv(Proceed(s, p, a))
  {
    if a.Commit? && p.phase == Awaiting {
      SavedKeepsInv(s, p, p.(packets := Commits(p.packets, a.committed), submitDone := true, phase := Relaying));
    } else if a.Relay? && p.phase == Relaying && Relays(p.packets, a.packets, a.failure) {
      SavedKeepsInv(s, p,
        p.(packets := a.packets, relayDone := !a.failure, phase := if a.failure then Closing(true) else Between(0)));
    }
  }

  /** Between the windows. */
  lemma BetweenKeepsInv(s: State, p: Process, a: Action)
    requires Inv(s) && s.process == Some(p) && (a.OpenWindow? || a.NoAckCommand? || a.CloseWindow?)
    ensures Inv(Proceed(s, p, a))
  {
    if a.OpenWindow? && p.phase.Between? {
      OpenKeepsInv(s, p, a.keys);
    } else if a.NoAckCommand? && p.phase == Between(0) {
      ClosedBehind(p.packets);
      MovedKeepsInv(s, p, p.(packets := Closed(p.packets), phase := Closing(false)));
    } else if a.CloseWindow? && AllDone(p) {
      SavedKeepsInv(s, p, p.(phase := Between(p.phase.windows)));
    }
  }

  /** A worker's step in a window. */
  lemma WorkerKeepsInv(s: State, p: Process, a: Action)
    requires Inv(s) && s.process == Some(p) && (a.Try? || a.Count? || a.Read? || a.Save?)
    ensures Inv(Proceed(s, p, a))
  {
    if Proceed(s, p, a) == s {
      return;
    }
    match a
    case Try(w, ok) => TryKeepsInv(s, p, w, ok);
    case Count(w) => CountKeepsInv(s, p, w);
    case Read(w) => ReadKeepsInv(s, p, w);
    case Save(w) => SaveKeepsInv(s, p, w);
  }

  lemma ProceedKeepsInv(s: State, p: Process, a: Action)
    requires Inv(s) && s.process == Some(p)
    ensures Inv(Proceed(s, p, a))
  {
    if a.Submit? || a.Commit? || a.Relay? {
      EarlyKeepsInv(s, p, a);
    } else if a.OpenWindow? || a.NoAckCommand? || a.CloseWindow? {
      BetweenKeepsInv(s, p, a);
    } else if a.Try? || a.Count? || a.Read? || a.Save? {
      WorkerKeepsInv(s, p, a);
    }
  }

  lemma FinishKeepsInv(s: State, p: Process)
    requires Inv(s) && s.process == Some(p) && p.phase.Closing?
    ensures ResultOk(Conclude(p)) && Keeps(p.packets, s.promised)
  {
    PromiseAhead(s.disk.value.packets, p.packets, s.promised);
    if p.packets != [] {
      assert p.packets[0] in p.packets;
    }
  }

  lemma StepKeepsInv(s: State, a: Action)
    requires Inv(s)
    ensures Inv(Step(s, a))
  {
    if s.process.None? {
      if a.Launch? {
        LaunchKeepsInv(s, a.config);
      }
    } else if !a.Crash? {
      var p := s.process.value;
      if !a.Finish? {
        ProceedKeepsInv(s, p, a);
      } else if p.phase.Closing? {
        FinishKeepsInv(s, p);
      }
    }
  }

  lemma {:induction false} RunKeepsInv(run: seq<Action>)
    ensures Inv(Run(run))
  {
    if run != [] {
      RunKeepsInv(run[..|run| - 1]);
      StepKeepsInv(Run(run[..|run| - 1]), run[|run| - 1]);
    }
  }

  // ----- consequences

  lemma ProceedForward(s: State, p: Process, a: Action)
    requires s.process == Some(p) && (p.phase == Submitting ==> p.packets == [])
    requires a.Try? && CanTry(p, a.worker) ==> p.packets[p.phase.outstanding[p.phase.workers[a.worker].at]] == Credited
    ensures Proceed(s, p, a).process.Some? && Behind(p.packets, Proceed(s, p, a).process.value.packets)
  {
    if a.Try? && CanTry(p, a.worker) {
      TriedForward(p, a.worker, a.ok);
    } else if a.OpenWindow? || a.NoAckCommand? {
      ClosedBehind(p.packets);
    }
  }

  lemma TriedForward(p: Process, w: nat, ok: bool)
    requires CanTry(p, w) && p.packets[p.phase.outstanding[p.phase.workers[w].at]] == Credited
    ensures Behind(p.packets, Tried(p, w, ok).packets)
  {
  }

  /** Packets only move forward. */
  lemma ForwardOnly(run: seq<Action>, a: Action)
    requires Run(run).process.Some? && Step(Run(run), a).process.Some?
    ensures Behind(Run(run).process.value.packets, Step(Run(run), a).process.value.packets)
  {
    var p := Run(run).process.value;
    RunKeepsInv(run);
    if a.Try? && CanTry(p, a.worker) {
      TryKeepsWindow(p, a.worker, a.ok);
    }
    if !a.Finish? {
      ProceedForward(Run(run), p, a);
    }
  }

  /** What a new process starts from: the checkpoint of its own configuration, which is behind whatever the
      process that wrote it had reached, or nothing. */
  lemma ResumesOnlyItsOwn(run: seq<Action>, c: Config)
    requires Run(run).process.None?
    ensures var s := Run(run);
            var p := Step(s, Launch(c)).process.value;
            if s.disk.Some? && s.disk.value.config == c
            then
              && p.submitDone && p.packets == s.disk.value.packets && |p.packets| == c.groupSize
              && p.relayDone == s.disk.value.relayDone && p.phase == if p.relayDone then Between(0) else Relaying
            else !p.submitDone && !p.relayDone && p.packets == [] && p.phase == Submitting
  {
    RunKeepsInv(run);
  }

  lemma CheckpointBehind(run: seq<Action>)
    requires Run(run).process.Some? && Run(run).process.value.submitDone
    ensures var s := Run(run);
            && s.disk.Some? && s.disk.value.config == s.process.value.config
            && Behind(s.disk.value.packets, s.process.value.packets)
  {
    RunKeepsInv(run);
  }

  /** Crashes, and runs of the configuration c, that do not come to their end. */
  ghost predicate GoesOn(more: seq<Action>, c: Config) {
    forall j :: 0 <= j < |more| ==> !more[j].Finish? && (more[j].Launch? ==> more[j].config == c)
  }

  ghost predicate Promises(s: State, c: Config, i: nat) {
    && Inv(s) && i in s.promised && s.disk.Some? && s.disk.value.config == c
    && (s.process.Some? ==> s.process.value.config == c && s.process.value.submitDone)
  }

  lemma PromiseStep(s: State, a: Action, c: Config, i: nat)
    requires Promises(s, c, i) && !a.Finish? && (a.Launch? ==> a.config == c)
    ensures Promises(Step(s, a), c, i)
  {
    StepKeepsInv(s, a);
  }

  lemma RunStep(run: seq<Action>, a: Action)
    ensures Run(run + [a]) == Step(Run(run), a)
  {
    assert (run + [a])[..|run|] == run;
  }

  lemma {:induction false} PromiseRun(run: seq<Action>, more: seq<Action>, c: Config, i: nat)
    requires Promises(Run(run), c, i) && GoesOn(more, c)
    ensures Promises(Run(run + more), c, i)
    decreases |more|
  {
    if more == [] {
      assert run + more == run;
    } else {
      var m := |more| - 1;
      PromiseRun(run, more[..m], c, i);
      RunStep(run + more[..m], more[m]);
      assert run + more == run + more[..m] + [more[m]];
      PromiseStep(Run(run + more[..m]), more[m], c, i);
    }
  }

  /** An acknowledgement in a checkpoint that was loaded survives every later crash, resume and checkpoint
      of that configuration, and is in the final result. */
  lemma LoadedAckSurvives(run: seq<Action>, more: seq<Action>, i: nat)
    requires var s := Run(run);
             && s.process.None? && s.disk.Some? && i < |s.disk.value.packets| && s.disk.value.packets[i] == Acked
             && GoesOn(more, s.disk.value.config)
    ensures var s := Run(run + [Launch(Run(run).disk.value.config)] + more);
            && s.disk.Some? && i < |s.disk.value.packets| && s.disk.value.packets[i] == Acked
            && (s.process.Some? ==> i < |s.process.value.packets| && s.process.value.packets[i] == Acked)
            && (s.process.Some? && s.process.value.phase.Closing? ==>
                  Step(s, Finish).result.value.packets[i] == Acked)
  {
    var c := Run(run).disk.value.config;
    RunKeepsInv(run);
    RunStep(run, Launch(c));
    StepKeepsInv(Run(run), Launch(c));
    PromiseRun(run + [Launch(c)], more, c, i);
    var s := Run(run + [Launch(c)] + more);
    if s.process.Some? {
      PromiseAhead(s.disk.value.packets, s.process.value.packets, s.promised);
    }
  }

  /** A window tries every outstanding packet exactly once, and the checkpoint at its end has everything. */
  lemma WindowTriesEachOnce(run: seq<Action>)
    requires Run(run).process.Some? && AllDone(Run(run).process.value)
    ensures var p := Run(run).process.value;
            && Distinct(p.phase.tried) && (forall i :: i in p.phase.tried <==> i in p.phase.outstanding)
            && Step(Run(run), CloseWindow).disk == Some(Snapshot(p))
  {
    RunKeepsInv(run);
    var p := Run(run).process.value;
    var o, ks := p.phase.outstanding, p.phase.workers;
    forall i | i in o ensures i in p.phase.tried {
      var r :| 0 <= r < |o| && o[r] == i;
      var w := OneOwner(|o|, |ks|, r);
    }
  }

  /** Every result a run ever gives is right. */
  lemma OkIffAllAcked(run: seq<Action>)
    requires Run(run).result.Some?
    ensures var r := Run(run).result.value;
            r.ok <==> r.packets != [] && forall i :: 0 <= i < |r.packets| ==> r.packets[i] == Acked
  {
    RunKeepsInv(run);
  }

  // ----- where acknowledgements come from

  predicate HasAck(ps: Packets, i: nat) {
    i < |ps| && ps[i] == Acked
  }

  /** The step is a successful try of packet i, by a worker that stands at it. */
  predicate Acknowledges(s: State, a: Action, i: nat) {
    && s.process.Some? && s.process.value.phase.Window? && a.Try? && a.ok
    && var ph := s.process.value.phase;
       && a.worker < |ph.workers| && ph.workers[a.worker].task == Trying
       && ph.workers[a.worker].at < ph.workers[a.worker].end && ph.workers[a.worker].at < |ph.outstanding|
       && ph.outstanding[ph.workers[a.worker].at] == i
  }

  lemma TryAcknowledges(s: State, p: Process, a: Action, i: nat)
    requires Inv(s) && s.process == Some(p) && a.Try?
    ensures var q := Proceed(s, p, a).process.value.packets;
            HasAck(q, i) && !HasAck(p.packets, i) <==> Acknowledges(s, a, i)
  {
    if CanTry(p, a.worker) {
      TryKeepsWindow(p, a.worker, a.ok);
    }
  }

  lemma OthersAcknowledgeNothing(s: State, p: Process, a: Action, i: nat)
    requires Inv(s) && s.process == Some(p) && !a.Try?
    ensures Proceed(s, p, a).process.Some? && HasAck(Proceed(s, p, a).process.value.packets, i) ==> HasAck(p.packets, i)
  {
  }

  /** A packet becomes acknowledged at a step exactly when the step is a successful try of it. */
  lemma AckedByTryOnly(run: seq<Action>, a: Action, i: nat)
    requires Run(run).process.Some? && Step(Run(run), a).process.Some?
    ensures var before, after := Run(run).process.value.packets, Step(Run(run), a).process.value.packets;
            HasAck(after, i) && !HasAck(before, i) <==> Acknowledges(Run(run), a, i)
  {
    var s := Run(run);
    RunKeepsInv(run);
    if a.Try? {
      TryAcknowledges(s, s.process.value, a, i);
    } else if !a.Finish? {
      OthersAcknowledgeNothing(s, s.process.value, a, i);
    }
  }

  /** Which packets were acknowledged by a successful try, in the process and the ones whose checkpoints it goes
      back to, and the same for the process that wrote the checkpoint on disk. */
  datatype Trail = Trail(process: set<nat>, disk: set<nat>)

  ghost function TrailStep(t: Trail, s: State, a: Action): Trail {
    if s.process.None? then
      t.(process := if a.Launch? && s.disk.Some? && s.disk.value.config == a.config then t.disk else {})
    else if a.Crash? then t.(process := {})
    else if a.Finish? then if s.process.value.phase.Closing? then Trail({}, {}) else t
    else
      var tried := t.process + set i: nat | i < |s.process.value.packets| && Acknowledges(s, a, i);
      Trail(tried, if Step(s, a).disk == s.disk then t.disk else tried)
  }

  ghost function TrailOf(run: seq<Action>): Trail {
    if run == [] then Trail({}, {})
    else TrailStep(TrailOf(run[..|run| - 1]), Run(run[..|run| - 1]), run[|run| - 1])
  }

  /** Every acknowledgement there is has its try. */
  ghost predicate Earned(s: State, t: Trail) {
    && (s.process.Some? ==> forall i: nat :: HasAck(s.process.value.packets, i) ==> i in t.process)
    && (s.disk.Some? ==> forall i: nat :: HasAck(s.disk.value.packets, i) ==> i in t.disk)
  }

  /** What a checkpoint saved has as acknowledged, the process has. */
  lemma SavedFromProcess(s: State, p: Process, a: Action, i: nat)
    requires Inv(s) && s.process == Some(p) && !a.Crash? && !a.Finish?
    requires Proceed(s, p, a).disk != s.disk && HasAck(Proceed(s, p, a).disk.value.packets, i)
    ensures Proceed(s, p, a).disk.Some? && HasAck(Proceed(s, p, a).process.value.packets, i)
  {
    if a.Save? {
      assert WorkerOk(p.phase.workers[a.worker], p.packets, s.promised);
    }
  }

  lemma EarnedProceed(s: State, p: Process, a: Action, t: Trail)
    requires Inv(s) && s.process == Some(p) && Earned(s, t) && !a.Crash? && !a.Finish?
    ensures Earned(Step(s, a), TrailStep(t, s, a))
  {
    var r, u := Proceed(s, p, a), TrailStep(t, s, a);
    forall i: nat | HasAck(r.process.value.packets, i) ensures i in u.process {
      if a.Try? {
        TryAcknowledges(s, p, a, i);
      } else {
        OthersAcknowledgeNothing(s, p, a, i);
      }
    }
    if r.disk != s.disk {
      forall i: nat | HasAck(r.disk.value.packets, i) ensures i in u.disk {
        SavedFromProcess(s, p, a, i);
      }
    }
  }

  lemma {:induction false} RunEarned(run: seq<Action>)
    ensures Earned(Run(run), TrailOf(run))
  {
    if run != [] {
      var before, a := run[..|run| - 1], run[|run| - 1];
      var s := Run(before);
      RunEarned(before);
      RunKeepsInv(before);
      if s.process.Some? && !a.Crash? && !a.Finish? {
        EarnedProceed(s, s.process.value, a, TrailOf(before));
      }
    }
  }

  /** Some step of the run was a successful try of packet i. */
  ghost predicate TriedIn(run: seq<Action>, i: nat) {
    exists k :: 0 <= k < |run| && Acknowledges(Run(run[..k]), run[k], i)
  }

  lemma TriedLonger(run: seq<Action>, a: Action, i: nat)
    requires TriedIn(run, i)
    ensures TriedIn(run + [a], i)
  {
    var k :| 0 <= k < |run| && Acknowledges(Run(run[..k]), run[k], i);
    assert (run + [a])[..k] == run[..k] && (run + [a])[k] == run[k];
  }

  lemma {:induction false} TrailIsTries(run: seq<Action>, i: nat)
    requires i in TrailOf(run).process || i in TrailOf(run).disk
    ensures TriedIn(run, i)
  {
    var m := |run| - 1;
    var before, a := run[..m], run[m];
    if Acknowledges(Run(before), a, i) {
      assert run[..m] == before;
    } else {
      TrailIsTries(before, i);
      TriedLonger(before, a, i);
      assert run == before + [a];
    }
  }

  /** Every packet a result has as acknowledged was acknowledged by a successful try, in the process that gave the
      result or in one whose checkpoint it goes back to. */
  lemma ResultEarned(run: seq<Action>, i: nat)
    requires Run(run).process.Some? && Run(run).process.value.phase.Closing?
    requires HasAck(Step(Run(run), Finish).result.value.packets, i)
    ensures i in TrailOf(run).process && TriedIn(run, i)
  {
    RunEarned(run);
    TrailIsTries(run, i);
  }

  /** So "ok" means a successful try of every packet. */
  lemma OkMeansTried(run: seq<Action>, i: nat)
    requires Run(run).process.Some? && Run(run).process.value.phase.Closing?
    requires var r := Step(Run(run), Finish).result.value; r.ok && i < |r.packets|
    ensures i in TrailOf(run).process && TriedIn(run, i)
  {
    RunStep(run, Finish);
    OkIffAllAcked(run + [Finish]);
    ResultEarned(run, i);
  }

  // ----- the phases, packet by packet

  /** Of the packets submitted, exactly those committed in time are kept; the others have failed. */
  lemma CommitKeeps(s: State, p: Process, committed: set<nat>, i: nat)
    requires s.process == Some(p) && p.phase == Awaiting && i < |p.packets|
    ensures var q := Step(s, Commit(committed)).process.value;
            && |q.packets| == |p.packets| && q.submitDone
            && (p.packets[i] == Submitted ==> q.packets[i] == if i in committed then Committed else Failed)
            && (p.packets[i] != Submitted ==> q.packets[i] == p.packets[i])
  {
  }

  /** A submission is as many packets as the group has, each submitted or failed. */
  lemma SubmitGives(s: State, p: Process, ps: Packets)
    requires s.process == Some(p) && p.phase == Submitting
    ensures var q := Step(s, Submit(ps)).process.value;
            if |ps| == p.config.groupSize && forall i :: 0 <= i < |ps| ==> ps[i] == Submitted || ps[i] == Failed
            then q.packets == ps && q.phase == Awaiting
            else q == p
  {
  }

  /** A relay changes committed packets only, each to credited or failed or not at all; one that does not fail had
      some to relay, and leaves none as it was. */
  lemma RelayGives(s: State, p: Process, ps: Packets, failure: bool)
    requires s.process == Some(p) && p.phase == Relaying
    ensures var q := Step(s, Relay(ps, failure)).process.value;
            if && |ps| == |p.packets|
               && (forall i :: 0 <= i < |ps| ==>
                     ps[i] == p.packets[i] || (p.packets[i] == Committed && (ps[i] == Credited || ps[i] == Failed)))
               && (!failure ==> Committed in p.packets && Committed !in ps)
            then q.packets == ps && q.phase == if failure then Closing(true) else Between(0)
            else q == p
  {
  }

  /** A window closes exactly when every worker has come to the end of its share. */
  lemma ClosesIff(s: State, p: Process)
    requires s.process == Some(p) && p.phase.Window?
    ensures var q := Step(s, CloseWindow).process.value;
            if forall w :: 0 <= w < |p.phase.workers| ==>
                 p.phase.workers[w].at == p.phase.workers[w].end && p.phase.workers[w].task == Trying
            then q.phase == Between(p.phase.windows) && q.packets == p.packets
            else q == p
  {
  }

  /** A worker that reads takes the packets one by one as they are at that moment, and saves what it has read. */
  lemma ReadAndSave(s: State, p: Process, w: nat)
    requires s.process == Some(p) && p.phase.Window? && w < |p.phase.workers| && p.phase.workers[w].task.Reading?
    requires |p.phase.workers[w].task.prefix| <= |p.packets|
    ensures var k := p.phase.workers[w];
            var n := |k.task.prefix|;
            var read, saved := Step(s, Read(w)), Step(s, Save(w));
            && read.process.Some? && saved.process.Some?
            && (n < |p.packets| ==>
                  && read.process.value.phase.Window? && |read.process.value.phase.workers| == |p.phase.workers|
                  && read.process.value.phase.workers[w] == k.(task := Reading(k.task.prefix + [p.packets[n]]))
                  && saved == s)
            && (n == |p.packets| ==>
                  && saved.disk.Some? && saved.disk.value.packets == k.task.prefix && saved.process.value.phase.Window?
                  && |saved.process.value.phase.workers| == |p.phase.workers|
                  && saved.process.value.phase.workers[w] == Worker(k.at + 1, k.end, Trying)
                  && read == s)
  {
  }

  /** Another window opens exactly when packets are still to be acknowledged and fewer than six were opened, and then
      it is for exactly those packets. Otherwise whatever is not acknowledged has failed. */
  lemma OpensIff(s: State, p: Process, keys: nat)
    requires s.process == Some(p) && p.phase.Between? && keys > 0
    ensures var q := Step(s, OpenWindow(keys)).process.value;
            && |q.packets| == |p.packets|
            && (q.phase.Window? <==> p.phase.windows != 6 && Credited in p.packets)
            && (q.phase.Window? ==>
                  && q.packets == p.packets && q.phase.windows == p.phase.windows + 1 && |q.phase.workers| == keys
                  && forall i :: i in q.phase.outstanding <==> 0 <= i < |p.packets| && p.packets[i] == Credited)
            && (!q.phase.Window? ==>
                  && q.phase == Closing(false)
                  && forall i :: 0 <= i < |p.packets| ==>
                       q.packets[i] == if p.packets[i] == Acked then Acked else Failed)
  {
    NoneOutstanding(p.packets);
  }

  lemma NoneOutstanding(ps: Packets)
    ensures Outstanding(ps) == [] <==> Credited !in ps
  {
    if Outstanding(ps) != [] {
      assert Outstanding(ps)[0] in Outstanding(ps);
    }
    if Credited in ps {
      var i :| 0 <= i < |ps| && ps[i] == Credited;
      assert i in Outstanding(ps);
    }
  }

  ghost predicate SixWindows(s: State) {
    s.process.Some? && (s.process.value.phase.Between? || s.process.value.phase.Window?) ==>
      s.process.value.phase.windows <= 6
  }

  lemma ProceedWindows(s: State, p: Process, a: Action)
    requires s.process == Some(p) && SixWindows(s)
    ensures SixWindows(Proceed(s, p, a))
  {
  }

  /** Never more than six windows. */
  lemma {:induction false} AtMostSixWindows(run: seq<Action>)
    ensures SixWindows(Run(run))
  {
    if run != [] {
      var s, a := Run(run[..|run| - 1]), run[|run| - 1];
      AtMostSixWindows(run[..|run| - 1]);
      if s.process.Some? {
        ProceedWindows(s, s.process.value, a);
      }
    }
  }

  /** When a packet is counted, a checkpoint is due exactly at every multiple of the cadence; otherwise the worker
      goes on to its next packet. */
  lemma CountedStep(s: State, p: Process, w: nat)
    requires s.process == Some(p) && p.phase.Window? && w < |p.phase.workers|
    requires p.phase.workers[w].task == Counting
    ensures var q, total := Step(s, Count(w)).process.value, |p.phase.outstanding|;
            && q.packets == p.packets && q.phase.Window? && q.phase.done == p.phase.done + 1
            && |q.phase.workers| == |p.phase.workers|
            && q.phase.workers[w] ==
                 (if q.phase.done % (if total >= 20 then total / 20 else 1) == 0
                  then p.phase.workers[w].(task := Reading([]))
                  else Worker(p.phase.workers[w].at + 1, p.phase.workers[w].end, Trying))
  {
  }

  /** So a window of at least twenty packets writes between 20 and 39 checkpoints on the way, and a smaller one a
      checkpoint for each packet. */
  lemma CheckpointsPerWindow(total: nat)
    ensures if total >= 20 then 20 <= total / CheckpointEvery(total) < 40 else CheckpointEvery(total) == 1
  {
    if total >= 20 {
      var q := total / 20;
      assert 20 * q <= total < 20 * q + 20;
      Radix.QuotientAtLeast(total, q, 20);
      Radix.QuotientBound(total, q, 40);
    }
  }

  /** In a window nothing changes but the packet a successful try acknowledges; a failed try leaves it credited. */
  lemma WindowChangesOnly(run: seq<Action>, a: Action, i: nat)
    requires Run(run).process.Some? && i < |Run(run).process.value.packets|
    requires a.Try? || a.Count? || a.Read? || a.Save? || a.CloseWindow?
    ensures var p, q := Run(run).process.value, Step(Run(run), a).process.value;
            && |q.packets| == |p.packets|
            && q.packets[i] == if Acknowledges(Run(run), a, i) then Acked else p.packets[i]
  {
    RunKeepsInv(run);
    var p := Run(run).process.value;
    if a.Try? && CanTry(p, a.worker) {
      TryKeepsWindow(p, a.worker, a.ok);
    }
  }

  /** Without an acknowledgement command every packet not acknowledged has failed at once. */
  lemma NoAckCloses(s: State, p: Process, i: nat)
    requires s.process == Some(p) && p.phase == Between(0) && i < |p.packets|
    ensures var q := Step(s, NoAckCommand).process.value;
            && q.phase == Closing(false) && |q.packets| == |p.packets|
            && q.packets[i] == if p.packets[i] == Acked then Acked else Failed
  {
  }

  /** Submission, relay and every window end with a checkpoint of what there is then. */
  lemma SavedAtPhaseEnds(s: State, p: Process, a: Action)
    requires s.process == Some(p)
    requires || (a.Commit? && p.phase == Awaiting)
             || (a.Relay? && p.phase == Relaying && Relays(p.packets, a.packets, a.failure))
             || (a.CloseWindow? && AllDone(p))
    ensures var r := Step(s, a);
            && r.process.Some? && r.disk.Some? && r.disk.value.config == r.process.value.config
            && r.disk.value.packets == r.process.value.packets && r.disk.value.submitDone == r.process.value.submitDone
            && r.disk.value.relayDone == r.process.value.relayDone && r.process.value.phase != p.phase
            && (a.Relay? ==> r.process.value.packets == a.packets && (r.disk.value.relayDone <==> !a.failure))
  {
  }

  /** A run ends with its packets as the result, and removes its checkpoint. */
  lemma FinishGives(s: State, p: Process)
    requires s.process == Some(p) && p.phase.Closing?
    ensures var r := Step(s, Finish);
            && r.process == None && r.disk == None && r.result.Some?
            && r.result.value.config == p.config && r.result.value.packets == p.packets
  {
  }

  // ----- an acknowledgement that is only on disk, not loaded yet, can be lost

  ghost predicate Reachable(s: State) {
    exists run :: Run(run) == s
  }

  lemma ReachStep(s: State, a: Action, r: State)
    requires Reachable(s) && Step(s, a) == r
    ensures Reachable(r)
  {
    var run :| Run(run) == s;
    RunStep(run, a);
  }

  const TWO := Config(2, 1, 1, 1, 1, 2)

  function Begun(ps: Packets, submitDone: bool, relayDone: bool, phase: Phase): Process {
    Process(TWO, ps, submitDone, relayDone, phase)
  }

  /** Two packets, one worker each. */
  function InWindow(ps: Packets, first: Worker, second: Worker, done: nat, tried: seq<nat>): Process {
    Begun(ps, true, true, Window(1, [0, 1], [first, second], done, tried))
  }

  function Holding(packets: Packets, p: Process): State {
    State(Some(Checkpoint(TWO, packets, true, p.relayDone)), Some(p), None, {})
  }

  lemma ReachRelay()
    ensures Reachable(Holding([Committed, Committed], Begun([Committed, Committed], true, false, Relaying)))
  {
    assert Run([]) == INIT;
    ReachStep(INIT, Launch(TWO), INIT.(process := Some(Begun([], false, false, Submitting))));
    var two := [Submitted, Submitted];
    ReachStep(INIT.(process := Some(Begun([], false, false, Submitting))), Submit(two),
              INIT.(process := Some(Begun(two, false, false, Awaiting))));
    assert Commits(two, {0, 1}) == [Committed, Committed];
    ReachStep(INIT.(process := Some(Begun(two, false, false, Awaiting))), Commit({0, 1}),
              Holding([Committed, Committed], Begun([Committed, Committed], true, false, Relaying)));
  }

  lemma ReachBetween()
    ensures Reachable(Holding([Credited, Credited], Begun([Credited, Credited], true, true, Between(0))))
  {
    ReachRelay();
    var a, b := [Committed, Committed], [Credited, Credited];
    assert a[0] == Committed;
    assert Relays(a, b, false);
    ReachStep(Holding(a, Begun(a, true, false, Relaying)), Relay(b, false),
      Holding(b, Begun(b, true, true, Between(0))));
  }

  lemma OutstandingTwo()
    ensures Outstanding([Credited, Credited]) == [0, 1]
  {
    assert [Credited][..0] == [] && [Credited, Credited][..1] == [Credited];
    assert Outstanding([Credited]) == [0];
  }

  lemma SharesOfTwo()
    ensures OpenWorkers(2, 2) == [Worker(0, 1, Trying), Worker(1, 2, Trying)]
  {
    assert Start(2, 2, 1) == 1 && Start(2, 2, 2) == 2;
  }

  lemma ReachWindow()
    ensures Reachable(Holding([Credited, Credited],
      InWindow([Credited, Credited], Worker(0, 1, Trying), Worker(1, 2, Trying), 0, [])))
  {
    ReachBetween();
    OutstandingTwo();
    SharesOfTwo();
    var b := [Credited, Credited];
    ReachStep(Holding(b, Begun(b, true, true, Between(0))), OpenWindow(2),
              Holding(b, InWindow(b, Worker(0, 1, Trying), Worker(1, 2, Trying), 0, [])));
  }

  lemma Pair<T>(a: T, b: T, x: T)
    ensures [a, b][0 := x] == [x, b] && [a, b][1 := x] == [a, x]
    ensures [] + [x] == [x] && [a] + [x] == [a, x]
  {
  }

  /** The first worker acknowledges its packet, and has to write a checkpoint. */
  lemma ReachFirst()
    ensures Reachable(Holding([Credited, Credited],
              InWindow([Acked, Credited], Worker(0, 1, Reading([])), Worker(1, 2, Trying), 1, [0])))
  {
    var disk, ps, v := [Credited, Credited], [Acked, Credited], Worker(1, 2, Trying);
    var k0, k1, k2 := Worker(0, 1, Trying), Worker(0, 1, Counting), Worker(0, 1, Reading([]));
    ReachWindow();
    Pair(k0, v, k1);
    Pair(Credited, Credited, Acked);
    Pair(0, 0, 0);
    ReachStep(Holding(disk, InWindow(disk, k0, v, 0, [])), Try(0, true), Holding(disk, InWindow(ps, k1, v, 0, [0])));
    Pair(k1, v, k2);
    ReachStep(Holding(disk, InWindow(ps, k1, v, 0, [0])), Count(0), Holding(disk, InWindow(ps, k2, v, 1, [0])));
  }

  /** It reads both packets, the second still credited. */
  lemma ReachFirstRead()
    ensures Reachable(Holding([Credited, Credited],
              InWindow([Acked, Credited], Worker(0, 1, Reading([Acked, Credited])), Worker(1, 2, Trying), 1, [0])))
  {
    var disk, ps, v := [Credited, Credited], [Acked, Credited], Worker(1, 2, Trying);
    var k2, k3, k4 := Worker(0, 1, Reading([])), Worker(0, 1, Reading([Acked])), Worker(0, 1, Reading(ps));
    ReachFirst();
    Pair(k2, v, k3);
    Pair(Acked, Acked, Acked);
    ReachStep(Holding(disk, InWindow(ps, k2, v, 1, [0])), Read(0), Holding(disk, InWindow(ps, k3, v, 1, [0])));
    Pair(k3, v, k4);
    Pair(Acked, Acked, Credited);
    ReachStep(Holding(disk, InWindow(ps, k3, v, 1, [0])), Read(0), Holding(disk, InWindow(ps, k4, v, 1, [0])));
  }

  lemma ReachSecondTried()
    ensures Reachable(Holding([Credited, Credited],
              InWindow([Acked, Acked], Worker(0, 1, Reading([Acked, Credited])), Worker(1, 2, Counting), 1, [0, 1])))
  {
    var disk, ps, k := [Credited, Credited], [Acked, Acked], Worker(0, 1, Reading([Acked, Credited]));
    var v0, v1 := Worker(1, 2, Trying), Worker(1, 2, Counting);
    ReachFirstRead();
    Pair(k, v0, v1);
    Pair(Acked, Credited, Acked);
    Pair(0, 0, 1);
    ReachStep(Holding(disk, InWindow([Acked, Credited], k, v0, 1, [0])), Try(1, true),
      Holding(disk, InWindow(ps, k, v1, 1, [0, 1])));
  }

  /** The second acknowledges its own. */
  lemma ReachSecond()
    ensures Reachable(Holding([Credited, Credited],
              InWindow([Acked, Acked], Worker(0, 1, Reading([Acked, Credited])), Worker(1, 2, Reading([])), 2, [0, 1])))
  {
    var disk, ps, k := [Credited, Credited], [Acked, Acked], Worker(0, 1, Reading([Acked, Credited]));
    var v1, v2 := Worker(1, 2, Counting), Worker(1, 2, Reading([]));
    ReachSecondTried();
    Pair(k, v1, v2);
    ReachStep(Holding(disk, InWindow(ps, k, v1, 1, [0, 1])), Count(1), Holding(disk, InWindow(ps, k, v2, 2, [0, 1])));
  }

  lemma ReachSecondRead()
    ensures Reachable(Holding([Credited, Credited],
              InWindow([Acked, Acked], Worker(0, 1, Reading([Acked, Credited])),
                Worker(1, 2, Reading([Acked, Acked])), 2, [0, 1])))
  {
    var disk, ps, k := [Credited, Credited], [Acked, Acked], Worker(0, 1, Reading([Acked, Credited]));
    var v2, v3, v4 := Worker(1, 2, Reading([])), Worker(1, 2, Reading([Acked])), Worker(1, 2, Reading(ps));
    ReachSecond();
    Pair(k, v2, v3);
    Pair(Acked, Acked, Acked);
    ReachStep(Holding(disk, InWindow(ps, k, v2, 2, [0, 1])), Read(1), Holding(disk, InWindow(ps, k, v3, 2, [0, 1])));
    Pair(k, v3, v4);
    ReachStep(Holding(disk, InWindow(ps, k, v3, 2, [0, 1])), Read(1), Holding(disk, InWindow(ps, k, v4, 2, [0, 1])));
  }

  /** It saves both as acknowledged. */
  lemma ReachSaved()
    ensures Reachable(Holding([Acked, Acked],
              InWindow([Acked, Acked], Worker(0, 1, Reading([Acked, Credited])), Worker(2, 2, Trying), 2, [0, 1])))
  {
    var disk, ps, k := [Credited, Credited], [Acked, Acked], Worker(0, 1, Reading([Acked, Credited]));
    var v4, v5 := Worker(1, 2, Reading(ps)), Worker(2, 2, Trying);
    ReachSecondRead();
    Pair(k, v4, v5);
    ReachStep(Holding(disk, InWindow(ps, k, v4, 2, [0, 1])), Save(1), Holding(ps, InWindow(ps, k, v5, 2, [0, 1])));
  }

  /** The older snapshot is saved over the newer: the acknowledgement of packet 1 was on disk, and a
      resume does not have it. */
  lemma UnloadedAckCanBeLost() returns (s: State)
    ensures Reachable(s) && s.disk.Some? && s.disk.value.packets == [Acked, Acked]
    ensures var r := Step(Step(Step(s, Save(0)), Crash), Launch(s.disk.value.config));
            r.process.Some? && r.process.value.packets == [Acked, Credited]
  {
    s := Holding([Acked, Acked], InWindow([Acked, Acked], Worker(0, 1, Reading([Acked, Credited])),
      Worker(2, 2, Trying), 2, [0, 1]));
    ReachSaved();
  }

  // ----- exactly when an acknowledgement on disk survives

  predicate OnDisk(s: State, i: nat) {
    s.disk.Some? && i < |s.disk.value.packets| && s.disk.value.packets[i] == Acked
  }

  /** Worker w has read packet i for a checkpoint before it was acknowledged. */
  predicate Stale(p: Process, w: nat, i: nat) {
    && p.phase.Window? && w < |p.phase.workers| && p.phase.workers[w].task.Reading?
    && i < |p.phase.workers[w].task.prefix| && p.phase.workers[w].task.prefix[i] != Acked
  }

  /** The process, if there is one, is past its submission, and no worker of it has an older reading of
      packet i. */
  ghost predicate Settled(s: State, i: nat) {
    s.process.Some? ==> s.process.value.submitDone && forall w: nat :: !Stale(s.process.value, w, i)
  }

  /** Every continuation keeps the acknowledgement on disk. */
  ghost predicate Survives(run: seq<Action>, i: nat)
    requires Run(run).disk.Some?
  {
    forall more :: GoesOn(more, Run(run).disk.value.config) ==> OnDisk(Run(run + more), i)
  }

  ghost predicate Kept(s: State, c: Config, i: nat) {
    && Inv(s) && OnDisk(s, i) && Settled(s, i) && s.disk.value.config == c
    && (s.process.Some? ==> s.process.value.config == c)
  }

  /** What the disk has as acknowledged, the process has too. */
  lemma AckedAhead(s: State, i: nat)
    requires Inv(s) && OnDisk(s, i) && s.process.Some? && s.process.value.submitDone
    ensures i < |s.process.value.packets| && s.process.value.packets[i] == Acked
  {
    assert Forward(s.disk.value.packets[i], s.process.value.packets[i]);
  }

  /** A worker's step keeps the acknowledgement: no reading of its own or of another is older. */
  lemma KeptWorker(s: State, p: Process, a: Action, c: Config, i: nat)
    requires Kept(s, c, i) && s.process == Some(p) && i < |p.packets| && p.packets[i] == Acked
    requires a.Try? || a.Count? || a.Read? || a.Save?
    ensures OnDisk(Proceed(s, p, a), i) && Settled(Proceed(s, p, a), i)
    ensures Proceed(s, p, a).disk.value.config == c && Proceed(s, p, a).process.value.config == c
  {
    forall w: nat ensures !Stale(Proceed(s, p, a).process.value, w, i) {
      FreshAfter(s, p, a, w, i);
    }
    if a.Save? && CanSave(p, a.worker) {
      assert !Stale(p, a.worker, i);
    }
  }

  lemma FreshAfter(s: State, p: Process, a: Action, w: nat, i: nat)
    requires s.process == Some(p) && i < |p.packets| && p.packets[i] == Acked && !Stale(p, w, i)
    requires a.Try? || a.Count? || a.Read? || a.Save?
    ensures Proceed(s, p, a).process.Some? && !Stale(Proceed(s, p, a).process.value, w, i)
  {
  }

  lemma KeptProceed(s: State, p: Process, a: Action, c: Config, i: nat)
    requires Kept(s, c, i) && s.process == Some(p)
    requires i < |p.packets| && p.packets[i] == Acked && !a.Finish? && !a.Crash?
    ensures OnDisk(Proceed(s, p, a), i) && Settled(Proceed(s, p, a), i)
    ensures Proceed(s, p, a).disk.value.config == c && Proceed(s, p, a).process.value.config == c
  {
    if a.Try? || a.Count? || a.Read? || a.Save? {
      KeptWorker(s, p, a, c, i);
    }
  }

  lemma KeptStep(s: State, a: Action, c: Config, i: nat)
    requires Kept(s, c, i) && !a.Finish? && (a.Launch? ==> a.config == c)
    ensures Kept(Step(s, a), c, i)
  {
    StepKeepsInv(s, a);
    if s.process.Some? && !a.Crash? {
      AckedAhead(s, i);
      KeptProceed(s, s.process.value, a, c, i);
    }
  }

  lemma {:induction false} KeptRun(run: seq<Action>, more: seq<Action>, c: Config, i: nat)
    requires Kept(Run(run), c, i) && GoesOn(more, c)
    ensures Kept(Run(run + more), c, i)
    decreases |more|
  {
    if more == [] {
      assert run + more == run;
    } else {
      var m := |more| - 1;
      KeptRun(run, more[..m], c, i);
      RunStep(run + more[..m], more[m]);
      assert run + more == run + more[..m] + [more[m]];
      KeptStep(Run(run + more[..m]), more[m], c, i);
    }
  }

  /** What the worker of a stale reading does next: a read keeps the reading stale, the save loses the
      acknowledgement. */
  lemma StaleStep(run: seq<Action>, w: nat, i: nat)
    requires Run(run).process.Some? && Stale(Run(run).process.value, w, i)
    ensures var p := Run(run).process.value;
            var prefix := p.phase.workers[w].task.prefix;
            if |prefix| == |p.packets| then !OnDisk(Run(run + [Save(w)]), i)
            else
              var next := Run(run + [Read(w)]);
              && next.process.Some? && Stale(next.process.value, w, i)
              && |next.process.value.packets| == |p.packets| > |prefix|
              && |next.process.value.phase.workers[w].task.prefix| == |prefix| + 1
  {
    RunKeepsInv(run);
    var p := Run(run).process.value;
    ReadWithin(Run(run), p, w);
    if |p.phase.workers[w].task.prefix| == |p.packets| {
      StaleSave(Run(run), p, w, i);
      RunStep(run, Save(w));
    } else {
      StaleRead(Run(run), p, w, i);
      RunStep(run, Read(w));
    }
  }

  lemma ReadWithin(s: State, p: Process, w: nat)
    requires Inv(s) && s.process == Some(p) && p.phase.Window? && w < |p.phase.workers|
    requires p.phase.workers[w].task.Reading?
    ensures |p.phase.workers[w].task.prefix| <= |p.packets|
  {
    assert WorkerOk(p.phase.workers[w], p.packets, s.promised);
  }

  lemma StaleSave(s: State, p: Process, w: nat, i: nat)
    requires s.process == Some(p) && Stale(p, w, i) && |p.phase.workers[w].task.prefix| == |p.packets|
    ensures !OnDisk(Step(s, Save(w)), i)
  {
  }

  lemma StaleRead(s: State, p: Process, w: nat, i: nat)
    requires s.process == Some(p) && Stale(p, w, i) && |p.phase.workers[w].task.prefix| < |p.packets|
    ensures var r := Step(s, Read(w)).process;
            && r.Some? && Stale(r.value, w, i) && |r.value.packets| == |p.packets|
            && |r.value.phase.workers[w].task.prefix| == |p.phase.workers[w].task.prefix| + 1
  {
  }

  /** A worker with an older reading reads on to the end and saves it. */
  lemma {:induction false} StaleLoses(run: seq<Action>, w: nat, i: nat) returns (more: seq<Action>)
    requires Run(run).process.Some? && Stale(Run(run).process.value, w, i)
    ensures (forall j :: 0 <= j < |more| ==> more[j].Read? || more[j].Save?) && !OnDisk(Run(run + more), i)
    decreases |Run(run).process.value.packets| - |Run(run).process.value.phase.workers[w].task.prefix|
  {
    StaleStep(run, w, i);
    var p := Run(run).process.value;
    if |p.phase.workers[w].task.prefix| == |p.packets| {
      more := [Save(w)];
    } else {
      var rest := StaleLoses(run + [Read(w)], w, i);
      more := [Read(w)] + rest;
      assert run + [Read(w)] + rest == run + more;
    }
  }

  lemma CommitLoses(run: seq<Action>, i: nat)
    requires Run(run).process.Some? && Run(run).process.value.phase == Awaiting
    ensures !OnDisk(Run(run + [Commit({})]), i)
  {
    RunKeepsInv(run);
    RunStep(run, Commit({}));
  }

  /** A process before its submission overwrites the disk with packets that have no acknowledgement. */
  lemma SubmissionLoses(run: seq<Action>, i: nat) returns (more: seq<Action>)
    requires Run(run).process.Some? && !Run(run).process.value.submitDone
    ensures (forall j :: 0 <= j < |more| ==> more[j].Submit? || more[j].Commit?) && !OnDisk(Run(run + more), i)
  {
    RunKeepsInv(run);
    var p := Run(run).process.value;
    if p.phase == Submitting {
      var submit := Submit(seq(p.config.groupSize, _ => Failed));
      RunStep(run, submit);
      CommitLoses(run + [submit], i);
      more := [submit, Commit({})];
      assert run + [submit] + [Commit({})] == run + more;
    } else {
      CommitLoses(run, i);
      more := [Commit({})];
    }
  }

  /** In every reachable state, an acknowledgement on disk survives every continuation exactly when the
      process is past its submission and no worker has an older reading of that packet. */
  lemma SavedAckSurvivesIff(run: seq<Action>, i: nat)
    requires OnDisk(Run(run), i)
    ensures Survives(run, i) <==> Settled(Run(run), i)
  {
    var s := Run(run);
    var c := s.disk.value.config;
    RunKeepsInv(run);
    if Settled(s, i) {
      forall more | GoesOn(more, c) ensures OnDisk(Run(run + more), i) {
        KeptRun(run, more, c, i);
      }
    } else if !s.process.value.submitDone {
      var more := SubmissionLoses(run, i);
      assert GoesOn(more, c);
    } else {
      var w: nat :| Stale(s.process.value, w, i);
      var more := StaleLoses(run, w, i);
      assert GoesOn(more, c);
    }
  }

  // ----- one acknowledgement key

  /** Every window is opened with one key at most. */
  ghost predicate OneKey(run: seq<Action>) {
    forall j :: 0 <= j < |run| && run[j].OpenWindow? ==> run[j].keys <= 1
  }

  /** Nobody changes the packets while the only worker reads them. */
  ghost predicate Alone(s: State) {
    s.process.Some? && s.process.value.phase.Window? ==>
      && |s.process.value.phase.workers| <= 1
      && forall w :: 0 <= w < |s.process.value.phase.workers| && s.process.value.phase.workers[w].task.Reading?
           ==> s.process.value.phase.workers[w].task.prefix <= s.process.value.packets
  }

  lemma AloneStep(s: State, a: Action)
    requires Alone(s) && (a.OpenWindow? ==> a.keys <= 1)
    ensures Alone(Step(s, a))
  {
  }

  lemma {:induction false} AloneRun(run: seq<Action>)
    requires OneKey(run)
    ensures Alone(Run(run))
  {
    if run != [] {
      AloneRun(run[..|run| - 1]);
      AloneStep(Run(run[..|run| - 1]), run[|run| - 1]);
    }
  }

  /** With one acknowledgement key nothing a run has saved is ever lost. */
  lemma OneKeyLosesNothing(run: seq<Action>, i: nat)
    requires OneKey(run) && OnDisk(Run(run), i)
    requires Run(run).process.Some? ==> Run(run).process.value.submitDone
    ensures Survives(run, i)
  {
    var s := Run(run);
    RunKeepsInv(run);
    AloneRun(run);
    if s.process.Some? {
      AckedAhead(s, i);
      assert forall w: nat :: !Stale(s.process.value, w, i);
    }
    SavedAckSurvivesIff(run, i);
  }
}
