/**
 * The windowed phase over a live session refines the dispatcher: when the answer to a write depends on its
 * chunk alone, every schedule of the two together is a schedule of the dispatcher, and ends as it decides.
 */
module LivePhases {
  import opened Wrappers
  import opened Failures
  import opened Streams
  import opened Retry
  import opened Sessions
  import opened DuckDbSessions
  import opened ScheduledDuckDb
  import opened Upserts
  import Sql = SqlServerSessions
  import SqlServer = ScheduledSqlServer
  import Dispatch
  import Live = Interleavings

  /** After writes in this order, the session answers the write of chunk `k` as the setting says. */
  predicate AnswersAsSet<S, R>(p: Live.Phase<S, R>, setting: Dispatch.Setting, order: seq<nat>, k: nat)
    requires Live.Below(order, |p.chunks|) && k < |p.chunks|
  {
    setting.writes(k)(1) == Reported(p.writer.write(Live.SessionAfter(p, order), k, p.chunks[k]).1)
  }

  /** The answer to a write depends on its chunk alone, in every state its session can reach. */
  ghost predicate IndexDecides<S, R>(p: Live.Phase<S, R>, setting: Dispatch.Setting) {
    && setting.policy.Valid()
    && forall order, k: nat :: Live.Below(order, |p.chunks|) && k < |p.chunks| ==> AnswersAsSet(p, setting, order, k)
  }

  lemma TerminalOutcome(setting: Dispatch.Setting, k: nat, answer: Option<SessionFailure>)
    requires setting.policy.Valid() && setting.writes(k)(1) == Reported(answer)
    ensures setting.Outcome(k) == Reported(answer)
  {
    assert !Retries(setting.policy, setting.writes(k), 1);
  }

  /** The stream the phase's chunks stand for, seen by the dispatcher. */
  ghost predicate Fits<S, R>(p: Live.Phase<S, R>, job: Dispatch.Job) {
    && job.Valid() && job.size == p.size
    && |job.run.batches| == |p.chunks| && job.run.failure == p.sourceFailure
  }

  /** The dispatcher's variables are those of the phase, without what the session has yet to report. */
  ghost predicate Mirrors<S>(w: Live.Live<S>, v: Dispatch.Window) {
    && v.inFlight.Keys == w.inFlight && v.dispatched == w.dispatched
    && v.sourceDone == w.sourceDone && v.halted == w.halted
  }

  ghost predicate AnswersFit<S>(setting: Dispatch.Setting, w: Live.Live<S>)
    requires setting.policy.Valid()
  {
    forall k :: k in w.answers ==> setting.Outcome(k) == Reported(w.answers[k])
  }

  /** A pull of the phase is a pull of the dispatcher. */
  lemma PullMirrored<S, R>(p: Live.Phase<S, R>, job: Dispatch.Job, w: Live.Live<S>, v: Dispatch.Window)
    returns (v': Dispatch.Window)
    requires Fits(p, job) && Mirrors(w, v) && Live.CanPull(p, w)
    ensures Dispatch.PullStep(job, v, v') && Mirrors(Live.Pulled(p, w), v')
  {
    assert |v.inFlight| == |v.inFlight.Keys|;
    v' := if v.dispatched < |p.chunks| then v.Dispatch(job.run.batches[v.dispatched])
          else if p.sourceFailure.Some? then v.Stopped(p.sourceFailure.value) else v.Ended();
  }

  /** A completion received is a completion step of the dispatcher. */
  lemma ReceiveMirrored<S, R>(p: Live.Phase<S, R>, job: Dispatch.Job, w: Live.Live<S>, v: Dispatch.Window, k: nat)
    returns (v': Dispatch.Window)
    requires Fits(p, job) && Mirrors(w, v) && AnswersFit(job.setting, w)
    requires Live.CanReceive(p, w, k) && w.dispatched <= |p.chunks|
    ensures Dispatch.CompletionStep(job, v, v') && Mirrors(Live.Received(w, k), v')
  {
    assert |v.inFlight| == |v.inFlight.Keys|;
    v' := v.Complete(k, job.setting.Outcome(k), Dispatch.ChunkLog(job.setting, k));
    assert k in v.inFlight;
  }

  /** A write that reaches the session changes nothing the dispatcher sees. */
  lemma WriteMirrored<S, R>(p: Live.Phase<S, R>, job: Dispatch.Job, w: Live.Live<S>, v: Dispatch.Window, k: nat)
    requires job.Valid() && IndexDecides(p, job.setting) && Live.Explained(p, w) && Live.CanWrite(p, w, k)
    requires Mirrors(w, v) && AnswersFit(job.setting, w)
    ensures Mirrors(Live.Wrote(p, w, k), v) && AnswersFit(job.setting, Live.Wrote(p, w, k))
  {
    assert AnswersAsSet(p, job.setting, w.order, k);
    TerminalOutcome(job.setting, k, p.writer.write(w.session, k, p.chunks[k]).1);
  }

  lemma StepMirrored<S, R>(p: Live.Phase<S, R>, job: Dispatch.Job, w: Live.Live<S>, w': Live.Live<S>,
    v: Dispatch.Window) returns (v': Dispatch.Window)
    requires Fits(p, job) && IndexDecides(p, job.setting) && Live.Explained(p, w)
    requires Mirrors(w, v) && AnswersFit(job.setting, w) && Live.Step(p, w, w')
    ensures (v' == v || Dispatch.Step(job, v, v')) && Mirrors(w', v') && AnswersFit(job.setting, w')
  {
    if Live.CanPull(p, w) && w' == Live.Pulled(p, w) {
      v' := PullMirrored(p, job, w, v);
    } else if k: nat :| Live.CanWrite(p, w, k) && w' == Live.Wrote(p, w, k) {
      WriteMirrored(p, job, w, v, k);
      v' := v;
    } else {
      var k: nat :| Live.CanReceive(p, w, k) && w' == Live.Received(w, k);
      v' := ReceiveMirrored(p, job, w, v, k);
    }
  }

  lemma RunOneMore(job: Dispatch.Job, run: seq<Dispatch.Window>, v: Dispatch.Window)
    requires job.Valid() && Dispatch.Run(job, run) && Dispatch.Step(job, run[|run| - 1], v)
    ensures Dispatch.Run(job, run + [v])
  {
    var longer := run + [v];
    forall i | 0 <= i < |longer| - 1 ensures Dispatch.Step(job, longer[i], longer[i + 1]) {
      assert i < |run| - 1 ==> Dispatch.Step(job, run[i], run[i + 1]);
    }
  }

  /** Every schedule of phase and session projects onto a schedule of the dispatcher. */
  lemma {:induction false} LiveRunsAreDispatcherRuns<S, R>(p: Live.Phase<S, R>, job: Dispatch.Job,
    states: seq<Live.Live<S>>, w: Live.Live<S>) returns (run: seq<Dispatch.Window>)
    requires Fits(p, job) && IndexDecides(p, job.setting) && Live.Reaches(p, states, w)
    ensures Dispatch.Run(job, run) && Mirrors(w, run[|run| - 1]) && AnswersFit(job.setting, w)
    decreases |states|
  {
    var last := |states| - 1;
    if last == 0 {
      run := [Dispatch.Opening(job.begun)];
    } else {
      Live.StepsBack(p, states, w);
      run := LiveRunsAreDispatcherRuns(p, job, states[..last], states[last - 1]);
      Live.EveryStateKeeps(p, states[..last], states[last - 1]);
      var v := StepMirrored(p, job, states[last - 1], w, run[|run| - 1]);
      if v != run[|run| - 1] {
        RunOneMore(job, run, v);
        run := run + [v];
      }
    }
  }

  /** The lowest chunk refused is the first whose write fails. */
  lemma {:induction false} LowestRefusedIsFirstFailing(
    setting: Dispatch.Setting, answers: map<nat, Option<SessionFailure>>, n: nat)
    requires setting.policy.Valid()
    requires forall k :: 0 <= k < n ==> k in answers && setting.Outcome(k) == Reported(answers[k])
    ensures Dispatch.FirstFailing(setting, n) == Live.LowestRefused(answers, n)
  {
    if n > 0 {
      LowestRefusedIsFirstFailing(setting, answers, n - 1);
      assert n - 1 in answers;
    }
  }

  /** What a drained phase does, in the dispatcher's terms. */
  function EndingShown<S, R>(p: Live.Phase<S, R>, w: Live.Live<S>): Dispatch.Ending {
    match Live.Surfaced(p, w)
    case Some(code) => Dispatch.Halts(code)
    case None => Dispatch.Commits(w.dispatched)
  }

  /**
   * However its writes interleave, a drained phase ends exactly as the serial loop would: it commits the same
   * chunks, or surfaces the same failure; and its session accepted every chunk below the one whose failure
   * that is, or every chunk when it is the source's.
   */
  lemma LivePhaseEndsAsSerial<S, R>(p: Live.Phase<S, R>, job: Dispatch.Job, states: seq<Live.Live<S>>, w: Live.Live<S>)
    requires Fits(p, job) && IndexDecides(p, job.setting) && Live.Reaches(p, states, w) && Live.Drained(w)
    ensures EndingShown(p, w) == Dispatch.EndingOf(job.setting, job.run)
    ensures w.halted <==> EndingShown(p, w).Halts?
    ensures !w.halted ==> w.dispatched == |p.chunks|
    ensures Live.Below(w.order, |p.chunks|)
    ensures var first := Dispatch.FirstFailing(job.setting, |p.chunks|);
      forall k :: 0 <= k < (if first.Some? then first.value else |p.chunks|) ==>
        k in w.answers && w.answers[k].None? && k in Live.Accepted(p, w.order)
  {
    var _ := LiveRunsAreDispatcherRuns(p, job, states, w);
    Live.EveryStateKeeps(p, states, w);
    Live.SurfacedIsLowest(p, states, w);
    LowestRefusedIsFirstFailing(job.setting, w.answers, w.dispatched);
    if Live.LowestRefused(w.answers, w.dispatched).Some? {
      Dispatch.FirstFailingStays(job.setting, w.dispatched, |p.chunks|);
    }
  }

  /** The dispatcher's setting for a DuckDB full refresh. */
  function RefreshSetting(policy: RetryPolicy, executes: nat -> bool): Dispatch.Setting {
    Dispatch.Setting(policy, (k: nat) => (attempt: nat) =>
      if executes(k) then None else Some(WriteFailure(DestinationWriteFailed, false)))
  }

  lemma RefreshAnswersByIndex<R(!new)>(table: Option<seq<R>>, chunks: seq<seq<R>>, sourceFailure: Option<Code>,
    size: nat, executes: nat -> bool, commits: bool, closes: bool, policy: RetryPolicy)
    requires policy.Valid()
    ensures IndexDecides(
      RefreshPhase(table, chunks, sourceFailure, size, executes, commits, closes), RefreshSetting(policy, executes))
  {
  }

  /** The dispatcher's setting for a DuckDB append. */
  function AppendSetting(policy: RetryPolicy, outcomes: nat -> InsertOutcome): Dispatch.Setting {
    Dispatch.Setting(policy, (k: nat) => (attempt: nat) =>
      if outcomes(k).Inserts? then None else Some(WriteFailure(DestinationWriteFailed, false)))
  }

  lemma AppendAnswersByIndex<R(!new)>(table: seq<R>, chunks: seq<seq<R>>, sourceFailure: Option<Code>,
    size: nat, outcomes: nat -> InsertOutcome, closes: bool, policy: RetryPolicy)
    requires policy.Valid()
    ensures IndexDecides(
      AppendPhase(table, chunks, sourceFailure, size, outcomes, closes), AppendSetting(policy, outcomes))
  {
  }

  /** The dispatcher's setting for a DuckDB merge. */
  function MergeSetting<Cell>(policy: RetryPolicy, keys: Keys, chunks: seq<seq<Row<Cell>>>, stages: nat -> bool)
    : Dispatch.Setting
  {
    var holds := StagedAt(keys, chunks, stages);
    Dispatch.Setting(policy, (k: nat) => (attempt: nat) =>
      if holds(k) then None else Some(WriteFailure(DestinationWriteFailed, false)))
  }

  lemma MergeAnswersByIndex<Cell(!new)>(keys: Keys, table: seq<Row<Cell>>, chunks: seq<seq<Row<Cell>>>,
    sourceFailure: Option<Code>, size: nat, stages: nat -> bool, outcome: MergeOutcome, policy: RetryPolicy)
    requires policy.Valid() && keys.Valid() && Rows(keys, table)
    ensures IndexDecides(
      MergePhase(keys, table, chunks, sourceFailure, size, stages, outcome), MergeSetting(policy, keys, chunks, stages))
  {
    var p, setting := MergePhase(keys, table, chunks, sourceFailure, size, stages, outcome),
                      MergeSetting(policy, keys, chunks, stages);
    forall order, k: nat | Live.Below(order, |chunks|) && k < |chunks| ensures AnswersAsSet(p, setting, order, k) {
      MergeAfter(keys, table, chunks, sourceFailure, size, stages, outcome, order);
      var s := Live.SessionAfter(p, order);
      assert p.writer.write(s, k, chunks[k]) == MergeWrite(s, chunks[k], stages(k));
      assert setting.writes(k)(1).None? <==> Rows(keys, chunks[k]) && stages(k);
    }
  }

  /** The dispatcher's setting for a SQL Server append whose session prepares well. */
  function SqlAppendSetting<Cell>(policy: RetryPolicy, chunks: seq<seq<Row<Cell>>>, faults: SqlServer.Faults)
    : Dispatch.Setting
  {
    Dispatch.Setting(policy, (k: nat) => (attempt: nat) =>
      if k < |chunks| && faults.writes(k).FailsSend(chunks[k]) then Some(WriteFailure(DestinationWriteFailed, false))
      else None)
  }

  /** A SQL Server append answers by the chunk alone when no write fails in preparing. */
  lemma SqlAppendAnswersByIndex<Cell(!new)>(keys: Keys, table: seq<Row<Cell>>, chunks: seq<seq<Row<Cell>>>,
    sourceFailure: Option<Code>, size: nat, faults: SqlServer.Faults, policy: RetryPolicy)
    requires policy.Valid() && keys.Valid() && forall k: nat :: k < |chunks| ==> !faults.writes(k).PrepareFails?
    ensures IndexDecides(
      SqlServer.AppendPhase(keys, table, chunks, sourceFailure, size, faults), SqlAppendSetting(policy, chunks, faults))
  {
    var p, setting := SqlServer.AppendPhase(keys, table, chunks, sourceFailure, size, faults),
                      SqlAppendSetting(policy, chunks, faults);
    forall order, k: nat | Live.Below(order, |chunks|) && k < |chunks| ensures AnswersAsSet(p, setting, order, k) {
      SqlServer.AppendAfter(keys, table, chunks, sourceFailure, size, faults, order);
      var s := Live.SessionAfter(p, order);
      Sql.AppendOneWrite(s, chunks[k], faults.writes(k), faults.rollbackReaches(k));
      SqlFailureCode(s, chunks[k], faults.writes(k), faults.rollbackReaches(k));
    }
  }

  lemma SqlFailureCode<Cell(!new)>(s: Sql.OpenSql<Cell>, rows: seq<Row<Cell>>, fault: Sql.WriteFault, rollbackReaches: bool)
    requires !fault.PrepareFails?
    ensures var answer := Sql.SqlWrite(s, rows, fault, rollbackReaches).1;
      answer.Some? ==> answer.value.code == DestinationWriteFailed
  {
  }
}
