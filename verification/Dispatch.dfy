/**
 * The write phase of a load: source chunks go to the destination one at a time, or through a bounded
 * window of concurrent writes. Whatever order the writes of a window complete in, the load ends as the
 * serial loop would end it.
 */
module Dispatch {
  import opened Wrappers
  import opened Failures
  import opened Sequences
  import opened Materialization
  import opened Streams
  import opened Retry

  /** The retry policy, and what each attempt of each chunk's write answers. */
  datatype Setting = Setting(policy: RetryPolicy, writes: nat -> Operation) {
    /** How the write of chunk `i` ends after its retries: None for success. */
    function Outcome(i: nat): Option<WriteFailure>
      requires policy.Valid()
    {
      Terminal(policy, writes(i))
    }
  }

  function Terminal(policy: RetryPolicy, operation: Operation): Option<WriteFailure>
    requires policy.Valid()
  {
    operation(LastAttempt(policy, operation, 1))
  }

  /** What the phase decides: to commit so many chunks, or to end the session over a failure. */
  datatype Ending = Commits(chunks: nat) | Halts(code: Code)

  // ----- What a write phase means -----

  /** The lowest failing chunk among the first `n`, if any. */
  function FirstFailing(setting: Setting, n: nat): (r: Option<nat>)
    requires setting.policy.Valid()
    ensures r.Some? ==> r.value < n && setting.Outcome(r.value).Some?
    ensures forall i :: 0 <= i < n && setting.Outcome(i).Some? ==> r.Some? && r.value <= i
  {
    if n == 0 then None
    else match FirstFailing(setting, n - 1)
      case Some(i) => Some(i)
      case None => if setting.Outcome(n - 1).Some? then Some(n - 1) else None
  }

  /** The lowest failing write decides; without one the source's failure does, and without either all commits. */
  function EndingOf(setting: Setting, run: Yields): Ending
    requires setting.policy.Valid()
  {
    match FirstFailing(setting, |run.batches|)
    case Some(i) => Halts(setting.Outcome(i).value.code)
    case None => if run.failure.Some? then Halts(run.failure.value) else Commits(|run.batches|)
  }

  // ----- The attempt log -----

  /** How many failed attempts a unit logs: none unless it was retried, then all of them. */
  function LoggedAttempts(policy: RetryPolicy, operation: Operation): nat
    requires policy.Valid()
  {
    var last := LastAttempt(policy, operation, 1);
    if last == 1 then 0 else if operation(last).Some? then last else last - 1
  }

  lemma LoggedAttemptFailed(policy: RetryPolicy, operation: Operation, k: nat)
    requires policy.Valid() && 1 <= k <= LoggedAttempts(policy, operation)
    ensures k <= LastAttempt(policy, operation, 1) && operation(k).Some?
  {
    assert k < LastAttempt(policy, operation, 1) ==> Retries(policy, operation, k);
  }

  function UnitLog(policy: RetryPolicy, unit: RetryUnit, operation: Operation): (log: seq<RetryAttempt>)
    requires policy.Valid()
    ensures |log| == LoggedAttempts(policy, operation)
    ensures forall k :: 0 <= k < |log| ==> log[k].unit == unit && log[k].attempt == k + 1
  {
    seq(LoggedAttempts(policy, operation), k requires 0 <= k < LoggedAttempts(policy, operation) =>
      LoggedAttemptFailed(policy, operation, k + 1);
      Entry(policy, unit, operation, k + 1, LastAttempt(policy, operation, 1)))
  }

  /** A unit's run logs its own log and ends as its own outcome, whatever runs beside it. */
  lemma RunIsDetermined(policy: RetryPolicy, unit: RetryUnit, operation: Operation, run: UnitRun)
    requires policy.Valid() && IsRun(policy, unit, operation, run)
    ensures run.failure == Terminal(policy, operation) && run.log == UnitLog(policy, unit, operation)
  {
    var log := UnitLog(policy, unit, operation);
    forall k | 0 <= k < |log| ensures run.log[k] == log[k] {
      LoggedAttemptFailed(policy, operation, k + 1);
    }
  }

  function ChunkLog(setting: Setting, i: nat): seq<RetryAttempt>
    requires setting.policy.Valid()
  {
    UnitLog(setting.policy, WriteChunk(i), setting.writes(i))
  }

  /** The logs of the first `n` chunks. */
  function ChunkLogs(setting: Setting, n: nat): (logs: seq<seq<RetryAttempt>>)
    requires setting.policy.Valid()
    ensures |logs| == n && forall i :: 0 <= i < n ==> logs[i] == ChunkLog(setting, i)
  {
    seq(n, i requires 0 <= i < n => ChunkLog(setting, i))
  }

  lemma ChunkLogsSnoc(setting: Setting, n: nat)
    requires setting.policy.Valid()
    ensures ChunkLogs(setting, n + 1) == ChunkLogs(setting, n) + [ChunkLog(setting, n)]
  {
  }

  /** The logs one after the other. */
  function Joined<T>(logs: seq<seq<T>>): seq<T> {
    if logs == [] then [] else Joined(logs[..|logs| - 1]) + logs[|logs| - 1]
  }

  /** The entries of every log whose index is not in flight. */
  function Received<T>(logs: seq<seq<T>>, inFlight: set<nat>): multiset<T> {
    if logs == [] then multiset{}
    else Received(logs[..|logs| - 1], inFlight) + ReceivedPart(logs[|logs| - 1], |logs| - 1 in inFlight)
  }

  function ReceivedPart<T>(log: seq<T>, waits: bool): multiset<T> {
    if waits then multiset{} else multiset(log)
  }

  lemma {:induction false} ReceivedDependsBelow<T>(logs: seq<seq<T>>, a: set<nat>, b: set<nat>)
    requires forall i :: 0 <= i < |logs| ==> (i in a <==> i in b)
    ensures Received(logs, a) == Received(logs, b)
  {
    if logs != [] {
      ReceivedDependsBelow(logs[..|logs| - 1], a, b);
    }
  }

  lemma Swap<T>(a: multiset<T>, b: multiset<T>, c: multiset<T>)
    ensures (a + b) + c == (a + c) + b
  {
  }

  lemma NothingAdded<T>(a: multiset<T>)
    ensures a + multiset{} == a
  {
  }

  /** Receiving a chunk adds exactly its log. */
  lemma {:induction false} ReceivedOneMore<T>(logs: seq<seq<T>>, before: set<nat>, after: set<nat>, k: nat)
    requires k < |logs| && k in before && k !in after
    requires forall i :: 0 <= i < |logs| && i != k ==> (i in before <==> i in after)
    ensures Received(logs, after) == Received(logs, before) + multiset(logs[k])
  {
    var last := |logs| - 1;
    var init := logs[..last];
    var part := ReceivedPart(logs[last], last in before);
    assert Received(logs, before) == Received(init, before) + part;
    assert Received(logs, after) == Received(init, after) + ReceivedPart(logs[last], last in after);
    if k == last {
      ReceivedDependsBelow(init, before, after);
      NothingAdded(Received(init, before));
    } else {
      ReceivedOneMore(init, before, after, k);
      assert init[k] == logs[k];
      Swap(Received(init, before), multiset(logs[k]), part);
    }
  }

  /** Dispatching a chunk adds nothing until it is received. */
  lemma DispatchingAddsNothing<T>(logs: seq<seq<T>>, log: seq<T>, before: set<nat>, after: set<nat>)
    requires |logs| in after && forall i :: 0 <= i < |logs| ==> (i in before <==> i in after)
    ensures Received(logs + [log], after) == Received(logs, before)
  {
    ReceivedDependsBelow(logs, before, after);
    assert (logs + [log])[..|logs|] == logs;
    NothingAdded(Received(logs, before));
  }

  /** Nothing in flight: every log is received. */
  lemma {:induction false} AllReceived<T>(logs: seq<seq<T>>)
    ensures Received(logs, {}) == multiset(Joined(logs))
  {
    if logs != [] {
      AllReceived(logs[..|logs| - 1]);
    }
  }

  /** A log in report order whose chunks all lie below `n`. */
  ghost predicate OrderedBelow(log: seq<RetryAttempt>, n: nat) {
    Ordered(log) && forall i :: 0 <= i < |log| ==> log[i].unit.Begin? || log[i].unit.index < n
  }

  lemma JoinedSnoc<T>(logs: seq<seq<T>>, log: seq<T>)
    ensures Joined(logs + [log]) == Joined(logs) + log
  {
    assert (logs + [log])[..|logs|] == logs;
  }

  /** The serial appending order: the begin unit, then the chunks in order. */
  function SerialLog(setting: Setting, begun: seq<RetryAttempt>, n: nat): seq<RetryAttempt>
    requires setting.policy.Valid()
  {
    begun + Joined(ChunkLogs(setting, n))
  }

  lemma SerialLogSnoc(setting: Setting, begun: seq<RetryAttempt>, n: nat)
    requires setting.policy.Valid()
    ensures SerialLog(setting, begun, n + 1) == SerialLog(setting, begun, n) + ChunkLog(setting, n)
  {
    ChunkLogsSnoc(setting, n);
    JoinedSnoc(ChunkLogs(setting, n), ChunkLog(setting, n));
    ConcatAssociates(begun, Joined(ChunkLogs(setting, n)), ChunkLog(setting, n));
  }

  /** The serial appending order is the report order. */
  lemma {:induction false} SerialLogIsOrdered(setting: Setting, begin: Operation, n: nat)
    requires setting.policy.Valid()
    ensures OrderedBelow(SerialLog(setting, UnitLog(setting.policy, Begin, begin), n), n)
  {
    var begun := UnitLog(setting.policy, Begin, begin);
    if n == 0 {
      assert SerialLog(setting, begun, 0) == begun;
    } else {
      SerialLogIsOrdered(setting, begin, n - 1);
      SerialLogSnoc(setting, begun, n - 1);
    }
  }

  // ----- The serial loop -----

  /** How many chunks the serial loop writes or tries to. */
  function Attempted(setting: Setting, n: nat): nat
    requires setting.policy.Valid()
  {
    match FirstFailing(setting, n)
    case Some(i) => i + 1
    case None => n
  }

  /** The first failing write found, the serial loop ends over it. */
  lemma FailureEndsSerial(setting: Setting, run: Yields, i: nat)
    requires setting.policy.Valid() && i < |run.batches|
    requires FirstFailing(setting, i).None? && setting.Outcome(i).Some?
    ensures EndingOf(setting, run) == Halts(setting.Outcome(i).value.code)
    ensures Attempted(setting, |run.batches|) == i + 1
  {
    FirstFailingStays(setting, i + 1, |run.batches|);
  }

  /** Every chunk written, the source decides. */
  lemma SourceEndsSerial(setting: Setting, run: Yields, n: nat)
    requires setting.policy.Valid() && FirstFailing(setting, n).None?
    requires n == |run.batches|
    ensures EndingOf(setting, run) == if run.failure.Some? then Halts(run.failure.value) else Commits(n)
    ensures Attempted(setting, n) == n
  {
  }

  lemma {:induction false} FirstFailingStays(setting: Setting, i: nat, n: nat)
    requires setting.policy.Valid() && i <= n && FirstFailing(setting, i).Some?
    ensures FirstFailing(setting, n) == FirstFailing(setting, i)
  {
    if i < n {
      FirstFailingStays(setting, i, n - 1);
    }
  }

  /** What a stream will still yield, carried closed. */
  ghost predicate Yielding(stream: ChunkStream, run: Yields)
    reads stream
  {
    stream.Valid() && stream.Future() == run
  }

  /** The chunks a run has left after the first `n`. */
  function After(run: Yields, n: nat): Yields
    requires n <= |run.batches|
  {
    Yields(run.batches[n..], run.failure)
  }

  /** Pulls the next chunk, the end of the stream, or its failure. */
  method Pull(stream: ChunkStream, ghost run: Yields, ghost n: nat) returns (r: Option<Result<Batch, Code>>)
    requires n <= |run.batches| && Yielding(stream, After(run, n))
    modifies stream
    ensures r.None? ==> n == |run.batches| && run.failure.None?
    ensures r.Some? && r.value.Failure? ==> n == |run.batches| && run.failure == Some(r.value.error)
    ensures r.Some? && r.value.Success? ==>
      n < |run.batches| && r.value.value == run.batches[n] && Yielding(stream, After(run, n + 1))
  {
    r := stream.Next();
    if r.Some? && r.value.Success? {
      assert run.batches[n..] == [r.value.value] + stream.Future().batches;
      assert run.batches[n + 1..] == run.batches[n..][1..] == stream.Future().batches;
    }
  }

  /** Writes one chunk with its retries, and appends their log. */
  method WriteUnit(setting: Setting, i: nat, ghost begun: seq<RetryAttempt>, log: seq<RetryAttempt>)
    returns (failure: Option<WriteFailure>, log': seq<RetryAttempt>)
    requires setting.policy.Valid() && log == SerialLog(setting, begun, i)
    ensures failure == setting.Outcome(i) && log' == SerialLog(setting, begun, i + 1)
  {
    var unit := RunUnit(setting.policy, WriteChunk(i), setting.writes(i));
    RunIsDetermined(setting.policy, WriteChunk(i), setting.writes(i), unit);
    SerialLogSnoc(setting, begun, i);
    return unit.failure, log + unit.log;
  }

  /** The sequential write phase: one chunk at a time, in stream order, each with its own retries. */
  method RunSerial(setting: Setting, stream: ChunkStream, begun: seq<RetryAttempt>, ghost run: Yields)
    returns (ending: Ending, log: seq<RetryAttempt>)
    requires setting.policy.Valid() && Yielding(stream, run)
    modifies stream
    ensures ending == EndingOf(setting, run)
    ensures log == SerialLog(setting, begun, Attempted(setting, |run.batches|))
  {
    var chunkCount := 0;
    log := begun;
    assert After(run, 0) == run && SerialLog(setting, begun, 0) == begun;
    while true
      invariant chunkCount <= |run.batches| && Yielding(stream, After(run, chunkCount))
      invariant FirstFailing(setting, chunkCount).None?
      invariant log == SerialLog(setting, begun, chunkCount)
      decreases |run.batches| - chunkCount
    {
      var next := Pull(stream, run, chunkCount);
      if next.None? {
        SourceEndsSerial(setting, run, chunkCount);
        return Commits(chunkCount), log;
      }
      if next.value.Failure? {
        SourceEndsSerial(setting, run, chunkCount);
        return Halts(next.value.error), log;
      }
      var failure;
      failure, log := WriteUnit(setting, chunkCount, begun, log);
      if failure.Some? {
        FailureEndsSerial(setting, run, chunkCount);
        return Halts(failure.value.code), log;
      }
      chunkCount := chunkCount + 1;
    }
  }

  // ----- The bounded window -----

  /** A write that ended in failure, under its chunk's index. */
  datatype FailedWrite = FailedWrite(index: nat, failure: WriteFailure)

  /** What is fixed for one windowed phase: the writes, the window's size, the stream's run, the log so far. */
  datatype Job = Job(setting: Setting, size: nat, run: Yields, begun: seq<RetryAttempt>) {
    predicate Valid() {
      setting.policy.Valid() && size >= 1
    }
  }

  /**
   * The dispatcher's variables. A slot of `inFlight` holds the chunk a write was handed; `written` is what
   * the destination accepted.
   */
  datatype Window = Window(
    inFlight: map<nat, Batch>,
    dispatched: nat,
    sourceDone: bool,
    halted: bool,
    sourceFailure: Option<Code>,
    writeFailures: seq<FailedWrite>,
    log: seq<RetryAttempt>,
    written: set<nat>)
  {
    predicate FailedAt(i: nat) {
      exists k :: 0 <= k < |writeFailures| && writeFailures[k].index == i
    }

    function Ended(): Window {
      this.(sourceDone := true)
    }

    function Stopped(code: Code): Window {
      this.(sourceFailure := Some(code), halted := true)
    }

    /** A pulled chunk occupies a free slot at once. */
    function Dispatch(batch: Batch): Window {
      this.(inFlight := inFlight[dispatched := batch], dispatched := dispatched + 1)
    }

    /** A slot's completion: its attempts join the log, and a failure halts the load. */
    function Complete(k: nat, failure: Option<WriteFailure>, attempts: seq<RetryAttempt>): Window {
      var freed := this.(inFlight := inFlight - {k}, log := log + attempts);
      match failure
      case None => freed.(written := written + {k})
      case Some(f) => freed.(writeFailures := writeFailures + [FailedWrite(k, f)], halted := true)
    }
  }

  function Opening(begun: seq<RetryAttempt>): Window {
    Window(map[], 0, false, false, None, [], begun, {})
  }

  /** At most a window of chunks is materialized, each the stream's own at its index. */
  ghost predicate SlotsBounded(job: Job, w: Window) {
    && |w.inFlight| <= job.size && w.dispatched <= |job.run.batches|
    && forall i :: i in w.inFlight ==> i < w.dispatched && w.inFlight[i] == job.run.batches[i]
  }

  ghost predicate Disjoint(w: Window) {
    && (forall i :: i in w.written ==> i < w.dispatched && i !in w.inFlight)
    && (forall k :: 0 <= k < |w.writeFailures| ==>
          var i := w.writeFailures[k].index; i < w.dispatched && i !in w.inFlight && i !in w.written)
    && (forall j, k :: 0 <= j < k < |w.writeFailures| ==> w.writeFailures[j].index != w.writeFailures[k].index)
  }

  /** The dispatched chunks split exactly into those in flight, those written and those failed. */
  ghost predicate Split(w: Window) {
    Disjoint(w) && forall i :: 0 <= i < w.dispatched ==> i in w.inFlight || i in w.written || w.FailedAt(i)
  }

  /** Every completion is the outcome of its chunk. */
  ghost predicate OutcomesKept(job: Job, w: Window)
    requires job.Valid()
  {
    && (forall i :: i in w.written ==> job.setting.Outcome(i).None?)
    && forall k :: 0 <= k < |w.writeFailures| ==>
         job.setting.Outcome(w.writeFailures[k].index) == Some(w.writeFailures[k].failure)
  }

  /** Where the source stands; the load has halted exactly when something failed. */
  ghost predicate SourceStands(job: Job, w: Window) {
    && (w.sourceDone ==> w.dispatched == |job.run.batches| && job.run.failure.None?)
    && (w.sourceFailure.Some? ==> w.dispatched == |job.run.batches| && job.run.failure == w.sourceFailure)
    && (w.halted <==> w.sourceFailure.Some? || w.writeFailures != [])
  }

  ghost predicate LogKept(job: Job, w: Window)
    requires job.Valid()
  {
    multiset(w.log) == multiset(job.begun) + Received(ChunkLogs(job.setting, w.dispatched), w.inFlight.Keys)
  }

  /** What every reachable state of the dispatcher keeps. */
  ghost predicate Inv(job: Job, w: Window) {
    && job.Valid() && SlotsBounded(job, w) && Split(w) && OutcomesKept(job, w) && SourceStands(job, w) && LogKept(job, w)
  }

  /** Whether the dispatcher pulls: a slot is free, and neither a failure nor the source's end was seen. */
  predicate Pulls(job: Job, w: Window) {
    !w.halted && !w.sourceDone && |w.inFlight| < job.size
  }

  /** A pull takes what the stream yields next. */
  ghost predicate PullStep(job: Job, w: Window, w': Window) {
    && Pulls(job, w) && w.dispatched <= |job.run.batches|
    && if w.dispatched < |job.run.batches| then w' == w.Dispatch(job.run.batches[w.dispatched])
       else if job.run.failure.Some? then w' == w.Stopped(job.run.failure.value)
       else w' == w.Ended()
  }

  /** Any write in flight may complete next, once the dispatcher pulls no more. */
  ghost predicate CompletionStep(job: Job, w: Window, w': Window)
    requires job.Valid()
  {
    && !Pulls(job, w)
    && exists k: nat {:trigger k in w.inFlight} :: k in w.inFlight && w' == w.Complete(k, job.setting.Outcome(k), ChunkLog(job.setting, k))
  }

  ghost predicate Step(job: Job, w: Window, w': Window)
    requires job.Valid()
  {
    PullStep(job, w, w') || CompletionStep(job, w, w')
  }

  /** A run of the dispatcher under some schedule. */
  ghost predicate Run(job: Job, states: seq<Window>)
    requires job.Valid()
  {
    && states != [] && states[0] == Opening(job.begun)
    && forall i :: 0 <= i < |states| - 1 ==> Step(job, states[i], states[i + 1])
  }

  lemma OpeningHolds(job: Job)
    requires job.Valid()
    ensures Inv(job, Opening(job.begun))
  {
    NothingAdded(multiset(job.begun));
  }

  lemma DispatchLogged(job: Job, w: Window, batch: Batch)
    requires job.Valid() && LogKept(job, w) && w.dispatched !in w.inFlight
    ensures LogKept(job, w.Dispatch(batch))
  {
    ChunkLogsSnoc(job.setting, w.dispatched);
    DispatchingAddsNothing(ChunkLogs(job.setting, w.dispatched), ChunkLog(job.setting, w.dispatched),
      w.inFlight.Keys, w.Dispatch(batch).inFlight.Keys);
  }

  lemma DispatchSplits(w: Window, batch: Batch)
    requires Split(w) && w.dispatched !in w.inFlight
    ensures Split(w.Dispatch(batch))
  {
    var w' := w.Dispatch(batch);
    forall i | 0 <= i < w'.dispatched ensures i in w'.inFlight || i in w'.written || w'.FailedAt(i) {
      assert i < w.dispatched ==> i in w.inFlight || i in w.written || w.FailedAt(i);
      assert w'.writeFailures == w.writeFailures;
    }
  }

  lemma DispatchBounded(job: Job, w: Window, batch: Batch)
    requires SlotsBounded(job, w) && |w.inFlight| < job.size
    requires w.dispatched < |job.run.batches| && batch == job.run.batches[w.dispatched]
    ensures SlotsBounded(job, w.Dispatch(batch)) && |w.Dispatch(batch).inFlight| == |w.inFlight| + 1
  {
    assert w.dispatched !in w.inFlight;
    assert w.Dispatch(batch).inFlight.Keys == w.inFlight.Keys + {w.dispatched};
  }

  lemma DispatchKeeps(job: Job, w: Window, batch: Batch)
    requires Inv(job, w) && Pulls(job, w)
    requires w.dispatched < |job.run.batches| && batch == job.run.batches[w.dispatched]
    ensures Inv(job, w.Dispatch(batch)) && |w.Dispatch(batch).inFlight| == |w.inFlight| + 1
  {
    assert w.dispatched !in w.inFlight;
    DispatchBounded(job, w, batch);
    DispatchSplits(w, batch);
    DispatchLogged(job, w, batch);
  }

  lemma CompletionSplits(w: Window, k: nat, failure: Option<WriteFailure>, attempts: seq<RetryAttempt>)
    requires Split(w) && k in w.inFlight && k < w.dispatched
    ensures Split(w.Complete(k, failure, attempts))
  {
    var w' := w.Complete(k, failure, attempts);
    forall i | 0 <= i < w'.dispatched ensures i in w'.inFlight || i in w'.written || w'.FailedAt(i) {
      if w.FailedAt(i) {
        var j :| 0 <= j < |w.writeFailures| && w.writeFailures[j].index == i;
        assert w'.writeFailures[j].index == i;
      } else if i == k && failure.Some? {
        assert w'.writeFailures[|w.writeFailures|].index == i;
      }
    }
  }

  lemma CompletionLogged(job: Job, w: Window, k: nat, failure: Option<WriteFailure>)
    requires job.Valid() && LogKept(job, w) && k in w.inFlight && k < w.dispatched
    ensures LogKept(job, w.Complete(k, failure, ChunkLog(job.setting, k)))
  {
    var w' := w.Complete(k, failure, ChunkLog(job.setting, k));
    ReceivedOneMore(ChunkLogs(job.setting, w.dispatched), w.inFlight.Keys, w'.inFlight.Keys, k);
  }

  lemma CompletionBounded(job: Job, w: Window, k: nat, failure: Option<WriteFailure>, attempts: seq<RetryAttempt>)
    requires SlotsBounded(job, w) && k in w.inFlight
    ensures SlotsBounded(job, w.Complete(k, failure, attempts))
    ensures |w.Complete(k, failure, attempts).inFlight| == |w.inFlight| - 1
  {
    assert w.Complete(k, failure, attempts).inFlight.Keys == w.inFlight.Keys - {k};
  }

  lemma CompletionKeeps(job: Job, w: Window, k: nat)
    requires Inv(job, w) && k in w.inFlight
    ensures Inv(job, w.Complete(k, job.setting.Outcome(k), ChunkLog(job.setting, k)))
    ensures |w.Complete(k, job.setting.Outcome(k), ChunkLog(job.setting, k)).inFlight| == |w.inFlight| - 1
  {
    var failure, attempts := job.setting.Outcome(k), ChunkLog(job.setting, k);
    CompletionBounded(job, w, k, failure, attempts);
    CompletionSplits(w, k, failure, attempts);
    CompletionOutcome(job, w, k);
    CompletionLogged(job, w, k, failure);
  }

  lemma CompletionOutcome(job: Job, w: Window, k: nat)
    requires job.Valid() && OutcomesKept(job, w) && SourceStands(job, w)
    ensures OutcomesKept(job, w.Complete(k, job.setting.Outcome(k), ChunkLog(job.setting, k)))
    ensures SourceStands(job, w.Complete(k, job.setting.Outcome(k), ChunkLog(job.setting, k)))
  {
  }

  lemma StepKeeps(job: Job, w: Window, w': Window)
    requires Inv(job, w) && Step(job, w, w')
    ensures Inv(job, w')
  {
    if PullStep(job, w, w') {
      if w.dispatched < |job.run.batches| {
        DispatchKeeps(job, w, job.run.batches[w.dispatched]);
      }
    } else {
      var k: nat :| k in w.inFlight && w' == w.Complete(k, job.setting.Outcome(k), ChunkLog(job.setting, k));
      CompletionKeeps(job, w, k);
    }
  }

  /** Every state of every run, under every schedule, keeps the invariant. */
  lemma {:induction false} EveryStateKeeps(job: Job, states: seq<Window>, i: nat)
    requires job.Valid() && Run(job, states) && i < |states|
    ensures Inv(job, states[i])
  {
    if i == 0 {
      OpeningHolds(job);
    } else {
      EveryStateKeeps(job, states, i - 1);
      assert Step(job, states[i - 1], states[i - 1 + 1]);
      StepKeeps(job, states[i - 1], states[i]);
    }
  }

  // ----- How a window ends -----

  /** Drained: nothing in flight, and nothing more to pull. */
  ghost predicate Drained(job: Job, w: Window) {
    |w.inFlight| == 0 && (w.halted || w.sourceDone)
  }

  /** The recorded failure of the lowest chunk. */
  function LowestFailure(failures: seq<FailedWrite>): FailedWrite
    requires failures != []
  {
    var last := |failures| - 1;
    if last == 0 then failures[0]
    else
      var lowest := LowestFailure(failures[..last]);
      if failures[last].index < lowest.index then failures[last] else lowest
  }

  lemma {:induction false} LowestIsLowest(failures: seq<FailedWrite>, k: nat)
    requires k < |failures|
    ensures LowestFailure(failures) in failures && LowestFailure(failures).index <= failures[k].index
  {
    var last := |failures| - 1;
    if last > 0 {
      LowestIsLowest(failures[..last], if k < last then k else 0);
    }
  }

  /** What the dispatcher decides once its window has drained. */
  function Decision(w: Window): Ending {
    if w.writeFailures != [] then Halts(LowestFailure(w.writeFailures).failure.code)
    else if w.sourceFailure.Some? then Halts(w.sourceFailure.value)
    else Commits(w.dispatched)
  }

  lemma DrainedFailures(job: Job, w: Window, i: nat)
    requires job.Valid() && Split(w) && OutcomesKept(job, w) && |w.inFlight| == 0 && i < w.dispatched
    ensures i in w.written <==> job.setting.Outcome(i).None?
    ensures w.FailedAt(i) <==> job.setting.Outcome(i).Some?
  {
    assert w.inFlight == map[];
    assert i in w.inFlight || i in w.written || w.FailedAt(i);
  }

  /** With a failed write, the lowest chunk's is the serial loop's; every chunk below it was written. */
  lemma LowestFailureIsFirst(job: Job, w: Window)
    requires job.Valid() && Split(w) && OutcomesKept(job, w) && |w.inFlight| == 0
    requires w.writeFailures != [] && w.dispatched <= |job.run.batches|
    ensures var lowest := LowestFailure(w.writeFailures);
      && FirstFailing(job.setting, |job.run.batches|) == Some(lowest.index)
      && job.setting.Outcome(lowest.index) == Some(lowest.failure)
      && forall i :: 0 <= i < lowest.index ==> i in w.written
  {
    var lowest := LowestFailure(w.writeFailures);
    LowestIsLowest(w.writeFailures, 0);
    var k :| 0 <= k < |w.writeFailures| && w.writeFailures[k] == lowest;
    assert w.writeFailures[k].index < w.dispatched;
    forall i | 0 <= i < lowest.index ensures i in w.written && job.setting.Outcome(i).None? {
      BelowLowestIsWritten(job, w, i);
    }
  }

  lemma BelowLowestIsWritten(job: Job, w: Window, i: nat)
    requires job.Valid() && Split(w) && OutcomesKept(job, w) && |w.inFlight| == 0 && w.writeFailures != []
    requires i < LowestFailure(w.writeFailures).index && i < w.dispatched
    ensures i in w.written && job.setting.Outcome(i).None?
  {
    DrainedFailures(job, w, i);
    if w.FailedAt(i) {
      var j :| 0 <= j < |w.writeFailures| && w.writeFailures[j].index == i;
      LowestIsLowest(w.writeFailures, j);
    }
  }

  /**
   * Under every schedule and window size a drained window ends as the serial loop would: it commits the
   * same chunks, or surfaces the same failure; and every chunk below the one that failed was written.
   */
  lemma DrainedDecidesAsSerial(job: Job, w: Window)
    requires Inv(job, w) && Drained(job, w)
    ensures Decision(w) == EndingOf(job.setting, job.run)
    ensures Decision(w).Commits? ==> forall i :: i in w.written <==> 0 <= i < |job.run.batches|
    ensures var first := FirstFailing(job.setting, |job.run.batches|);
      first.Some? ==> forall i :: 0 <= i < first.value ==> i in w.written
  {
    if w.writeFailures != [] {
      LowestFailureIsFirst(job, w);
    } else {
      forall i | 0 <= i < w.dispatched ensures i in w.written {
        DrainedFailures(job, w, i);
      }
    }
  }

  /** However completions interleave, the rendered log is the dispatched chunks' in serial order. */
  lemma RenderedLogIsSerial(job: Job, w: Window, begin: Operation)
    requires Inv(job, w) && |w.inFlight| == 0 && job.begun == UnitLog(job.setting.policy, Begin, begin)
    ensures Sorted(w.log) == SerialLog(job.setting, job.begun, w.dispatched)
  {
    assert w.inFlight.Keys == {};
    AllReceived(ChunkLogs(job.setting, w.dispatched));
    SerialLogIsOrdered(job.setting, begin, w.dispatched);
    RenderedLogIsScheduleIndependent(w.log, SerialLog(job.setting, job.begun, w.dispatched));
  }

  // ----- Whole runs -----

  /** Once halted, a load dispatches nothing more. */
  lemma {:induction false} NothingDispatchedAfterHalt(job: Job, states: seq<Window>, i: nat, j: nat)
    requires job.Valid() && Run(job, states) && i <= j < |states| && states[i].halted
    ensures states[j].halted && states[j].dispatched == states[i].dispatched
  {
    if i < j {
      NothingDispatchedAfterHalt(job, states, i, j - 1);
      assert Step(job, states[j - 1], states[j - 1 + 1]);
    }
  }

  /** The steps a state has left at most. */
  function StepsLeft(job: Job, w: Window): int {
    2 * (|job.run.batches| - w.dispatched) + |w.inFlight| + if w.halted || w.sourceDone then 0 else 1
  }

  lemma PullRunsOut(job: Job, w: Window, w': Window)
    requires SlotsBounded(job, w) && PullStep(job, w, w')
    ensures 0 <= StepsLeft(job, w') < StepsLeft(job, w)
  {
    if w.dispatched < |job.run.batches| {
      DispatchBounded(job, w, job.run.batches[w.dispatched]);
    }
  }

  lemma CompletionRunsOut(job: Job, w: Window, w': Window)
    requires job.Valid() && SlotsBounded(job, w) && CompletionStep(job, w, w')
    ensures 0 <= StepsLeft(job, w') < StepsLeft(job, w)
  {
    var k: nat :| k in w.inFlight && w' == w.Complete(k, job.setting.Outcome(k), ChunkLog(job.setting, k));
    CompletionBounded(job, w, k, job.setting.Outcome(k), ChunkLog(job.setting, k));
  }

  lemma StepsRunOut(job: Job, w: Window, w': Window)
    requires job.Valid() && SlotsBounded(job, w) && Step(job, w, w')
    ensures 0 <= StepsLeft(job, w') < StepsLeft(job, w)
  {
    if PullStep(job, w, w') {
      PullRunsOut(job, w, w');
    } else {
      CompletionRunsOut(job, w, w');
    }
  }

  lemma RunPrefix(job: Job, states: seq<Window>)
    requires job.Valid() && Run(job, states) && |states| > 1
    ensures Run(job, states[..|states| - 1])
    ensures Step(job, states[|states| - 2], states[|states| - 1])
  {
    var last := |states| - 1;
    var prefix := states[..last];
    forall i | 0 <= i < |prefix| - 1 ensures Step(job, prefix[i], prefix[i + 1]) {
      assert Step(job, states[i], states[i + 1]);
    }
    assert Step(job, states[last - 1], states[last - 1 + 1]);
  }

  /** Every run over a source of `n` chunks is over within 2n + 1 steps. */
  lemma {:induction false} RunsTerminate(job: Job, states: seq<Window>)
    requires job.Valid() && Run(job, states)
    ensures StepsLeft(job, states[|states| - 1]) + |states| <= 2 * |job.run.batches| + 2
  {
    var last := |states| - 1;
    if last > 0 {
      RunPrefix(job, states);
      RunsTerminate(job, states[..last]);
      EveryStateKeeps(job, states, last - 1);
      StepsRunOut(job, states[last - 1], states[last]);
    }
  }

  /** A state no step leaves is drained, so a session is committed or abandoned only with nothing in flight. */
  lemma StuckIsDrained(job: Job, w: Window)
    requires Inv(job, w)
    ensures Drained(job, w) <==> forall w' :: !Step(job, w, w')
  {
    if Drained(job, w) {
      assert w.inFlight == map[];
    } else if Pulls(job, w) {
      var next := if w.dispatched < |job.run.batches| then w.Dispatch(job.run.batches[w.dispatched])
                  else if job.run.failure.Some? then w.Stopped(job.run.failure.value) else w.Ended();
      assert PullStep(job, w, next);
      assert Step(job, w, next);
    } else {
      assert |w.inFlight| > 0;
      assert w.inFlight.Keys != {};
      var k :| k in w.inFlight;
      assert CompletionStep(job, w, w.Complete(k, job.setting.Outcome(k), ChunkLog(job.setting, k)));
      assert Step(job, w, w.Complete(k, job.setting.Outcome(k), ChunkLog(job.setting, k)));
    }
  }

  // ----- The windowed loop -----

  /** While the source has neither ended nor failed, the stream yields what was not dispatched. */
  ghost predicate StreamStands(job: Job, w: Window, stream: ChunkStream)
    reads stream
  {
    !w.sourceDone && w.sourceFailure.None? && w.dispatched <= |job.run.batches| ==>
      Yielding(stream, After(job.run, w.dispatched))
  }

  /** One pull while a slot is free. */
  method PullOne(ghost job: Job, stream: ChunkStream, w: Window) returns (w': Window)
    requires Inv(job, w) && Pulls(job, w) && StreamStands(job, w, stream)
    modifies stream
    ensures PullStep(job, w, w') && StreamStands(job, w', stream)
  {
    var next := Pull(stream, job.run, w.dispatched);
    if next.None? {
      return w.Ended();
    }
    if next.value.Failure? {
      return w.Stopped(next.value.error);
    }
    return w.Dispatch(next.value.value);
  }

  /** Fills the free slots, until a failure or the source's end. */
  method Fill(ghost job: Job, size: nat, stream: ChunkStream, w: Window) returns (w': Window)
    requires Inv(job, w) && StreamStands(job, w, stream) && size == job.size
    modifies stream
    ensures Inv(job, w') && StreamStands(job, w', stream) && !Pulls(job, w')
    ensures StepsLeft(job, w') <= StepsLeft(job, w)
  {
    w' := w;
    while !w'.halted && !w'.sourceDone && |w'.inFlight| < size
      invariant Inv(job, w') && StreamStands(job, w', stream)
      invariant StepsLeft(job, w') <= StepsLeft(job, w)
      decreases StepsLeft(job, w')
    {
      ghost var before := w';
      w' := PullOne(job, stream, w');
      StepKeeps(job, before, w');
      StepsRunOut(job, before, w');
    }
  }

  /** Receives whichever completion arrives first; nothing is known about which. */
  method Receive(ghost job: Job, setting: Setting, w: Window) returns (w': Window)
    requires Inv(job, w) && setting == job.setting && !Pulls(job, w) && w.inFlight != map[]
    ensures CompletionStep(job, w, w')
    ensures w'.sourceDone == w.sourceDone && w'.sourceFailure == w.sourceFailure && w'.dispatched == w.dispatched
  {
    var k :| k in w.inFlight;
    var unit := RunUnit(setting.policy, WriteChunk(k), setting.writes(k));
    RunIsDetermined(setting.policy, WriteChunk(k), setting.writes(k), unit);
    return w.Complete(k, unit.failure, unit.log);
  }

  /** The lowest-index failure, found in one pass. */
  method FindLowest(failures: seq<FailedWrite>) returns (lowest: FailedWrite)
    requires failures != []
    ensures lowest == LowestFailure(failures)
  {
    lowest := failures[0];
    for i := 1 to |failures|
      invariant lowest == LowestFailure(failures[..i])
    {
      assert failures[..i + 1][..i] == failures[..i];
      if failures[i].index < lowest.index {
        lowest := failures[i];
      }
    }
    assert failures[..|failures|] == failures;
  }

  /** The bounded-window write phase: it drains, then ends as the serial loop would. */
  method RunWindowed(setting: Setting, size: nat, stream: ChunkStream, begun: seq<RetryAttempt>, ghost run: Yields)
    returns (w: Window, ending: Ending)
    requires setting.policy.Valid() && size >= 1 && Yielding(stream, run)
    modifies stream
    ensures Inv(Job(setting, size, run, begun), w) && Drained(Job(setting, size, run, begun), w)
    ensures ending == Decision(w) == EndingOf(setting, run)
  {
    ghost var job := Job(setting, size, run, begun);
    OpeningHolds(job);
    assert After(run, 0) == run;
    w := Opening(begun);
    while true
      invariant Inv(job, w) && StreamStands(job, w, stream)
      decreases StepsLeft(job, w)
    {
      w := Fill(job, size, stream, w);
      if |w.inFlight| == 0 {
        break;
      }
      ghost var before := w;
      w := Receive(job, setting, w);
      StepKeeps(job, before, w);
      StepsRunOut(job, before, w);
    }
    DrainedDecidesAsSerial(job, w);
    if w.writeFailures == [] && w.sourceFailure.None? {
      return w, Commits(w.dispatched);
    }
    if w.writeFailures == [] {
      return w, Halts(w.sourceFailure.value);
    }
    var lowest := FindLowest(w.writeFailures);
    return w, Halts(lowest.failure.code);
  }

  // ----- The whole phase -----

  /** A phase fails before the session opens, or ends in session. */
  datatype PhaseEnd = BeforeSession(code: Code) | InSession(ending: Ending)

  function PhaseOf(setting: Setting, begin: Operation, run: Yields): PhaseEnd
    requires setting.policy.Valid()
  {
    match Terminal(setting.policy, begin)
    case Some(failure) => BeforeSession(failure.code)
    case None => InSession(EndingOf(setting, run))
  }

  /** The log renders as the serial log of `n` of the `total` chunks. */
  ghost predicate RendersAs(log: seq<RetryAttempt>, setting: Setting, begin: Operation, n: nat, total: nat)
    requires setting.policy.Valid()
  {
    n <= total && Sorted(log) == SerialLog(setting, UnitLog(setting.policy, Begin, begin), n)
  }

  /**
   * Opens the session and runs the phase under the effective parallelism. Its result and, when it
   * commits, its rendered attempt log do not depend on the parallelism or the schedule.
   */
  method RunWritePhase(setting: Setting, begin: Operation, parallelism: nat, stream: ChunkStream, ghost run: Yields)
    returns (r: PhaseEnd, log: seq<RetryAttempt>)
    requires setting.policy.Valid() && parallelism >= 1 && Yielding(stream, run)
    modifies stream
    ensures r == PhaseOf(setting, begin, run)
    ensures r.BeforeSession? ==> log == UnitLog(setting.policy, Begin, begin)
    ensures r.InSession? ==>
      exists n: nat :: RendersAs(log, setting, begin, n, |run.batches|) && (r.ending.Commits? ==> n == |run.batches|)
  {
    var start := RunUnit(setting.policy, Begin, begin);
    RunIsDetermined(setting.policy, Begin, begin, start);
    if start.failure.Some? {
      return BeforeSession(start.failure.value.code), start.log;
    }
    var ending;
    if parallelism == 1 {
      ending, log := RunSerial(setting, stream, start.log, run);
      ghost var n := Attempted(setting, |run.batches|);
      SerialLogIsOrdered(setting, begin, n);
      RenderedLogIsScheduleIndependent(log, log);
      assert RendersAs(log, setting, begin, n, |run.batches|);
    } else {
      var w;
      w, ending := RunWindowed(setting, parallelism, stream, start.log, run);
      log := w.log;
      RenderedLogIsSerial(Job(setting, parallelism, run, start.log), w, begin);
      assert RendersAs(log, setting, begin, w.dispatched, |run.batches|);
    }
    return InSession(ending), log;
  }
}
