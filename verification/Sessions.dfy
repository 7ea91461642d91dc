/** What every destination write session answers, and how the serial write phase drives one to its end. */
module Sessions {
  import opened Wrappers
  import opened Failures
  import opened Sequences
  import opened Chunks
  import opened Streams
  import opened Retry
  import opened Dispatch

  datatype Strategy = TransactionalReplace | Insert | TransactionalMerge | TransactionalDeleteInsert | BulkInsert

  /** The write facts a destination reports. */
  datatype Facts =
    | NotApplicable
    | Atomic(strategy: Strategy)
    | Merged(strategy: Strategy, updated: nat, inserted: nat)
    | BestEffort(strategy: Strategy)

  /** A write failure with what the destination had committed by then. Every shipped failure is terminal. */
  datatype SessionFailure = SessionFailure(code: Code, facts: Facts, writtenRecords: nat, committedChunks: nat)

  datatype AbandonedWrite = AbandonedWrite(committedChunks: nat, writtenRecords: nat, facts: Facts)

  /** A failure that reports nothing committed. */
  function NothingCommitted(code: Code, facts: Facts): SessionFailure {
    SessionFailure(code, facts, 0, 0)
  }

  /** An append session's honest end: best effort once a chunk is committed, unchanged before. */
  function AppendAbandoned(strategy: Strategy, chunks: nat, records: nat): AbandonedWrite {
    AbandonedWrite(chunks, records, if chunks > 0 then BestEffort(strategy) else NotApplicable)
  }

  /**
   * The writer a destination opens, as the operations a session in state `S` takes: `write` is handed the
   * chunk's index and rows, `drop` is what becomes of a writer neither committed nor abandoned.
   */
  datatype Writer<!S, !R> = Writer(
    write: (S, nat, seq<R>) -> (S, Option<SessionFailure>),
    commit: S -> (S, Result<Facts, SessionFailure>),
    abandon: S -> (S, AbandonedWrite),
    drop: S -> S)

  /** How a serial phase ends: committed chunks and facts, or the failure it reports. */
  datatype Delivery = Committed(facts: Facts, chunks: nat) | Failed(failure: SessionFailure)

  /** The serial phase over a session: chunks in order, then commit; a source failure abandons. */
  function Deliver<S, R>(w: Writer<S, R>, s: S, chunks: seq<seq<R>>, first: nat, sourceFailure: Option<Code>): (S, Delivery)
    decreases |chunks|
  {
    if chunks == [] then
      if sourceFailure.Some? then
        var (s', abandoned) := w.abandon(s);
        (s', Failed(SessionFailure(
          sourceFailure.value, abandoned.facts, abandoned.writtenRecords, abandoned.committedChunks)))
      else
        var (s', committed) := w.commit(s);
        match committed
        case Success(facts) => (s', Committed(facts, first))
        case Failure(failure) => (w.drop(s'), Failed(failure))
    else
      var (s', failure) := w.write(s, first, chunks[0]);
      if failure.Some? then (w.drop(s'), Failed(failure.value))
      else Deliver(w, s', chunks[1..], first + 1, sourceFailure)
  }

  /** One step of the phase over the chunks from `i` on. */
  lemma DeliverStep<S, R>(w: Writer<S, R>, s: S, chunks: seq<seq<R>>, i: nat, sourceFailure: Option<Code>)
    requires i < |chunks|
    ensures var (s', failure) := w.write(s, i, chunks[i]);
      Deliver(w, s, chunks[i..], i, sourceFailure)
        == if failure.Some? then (w.drop(s'), Failed(failure.value))
           else Deliver(w, s', chunks[i + 1..], i + 1, sourceFailure)
  {
    assert chunks[i..][0] == chunks[i] && chunks[i..][1..] == chunks[i + 1..];
  }

  /** The session after its first `n` writes, however they were answered. */
  function AfterWrites<S, R>(w: Writer<S, R>, s: S, chunks: seq<seq<R>>, n: nat): S
    requires n <= |chunks|
  {
    if n == 0 then s
    else w.write(AfterWrites(w, s, chunks, n - 1), n - 1, chunks[n - 1]).0
  }

  /** The answer to write `i` in the serial order. */
  function Answer<S, R>(w: Writer<S, R>, s: S, chunks: seq<seq<R>>, i: nat): Option<SessionFailure>
    requires i < |chunks|
  {
    w.write(AfterWrites(w, s, chunks, i), i, chunks[i]).1
  }

  /** The dispatcher's view of a session: each write fails terminally or succeeds, as the session answers. */
  ghost predicate Drives<S, R>(setting: Setting, w: Writer<S, R>, s: S, chunks: seq<seq<R>>) {
    && setting.policy.Valid()
    && forall i: nat {:trigger setting.Outcome(i)} :: i < |chunks| ==>
         setting.writes(i)(1) == Reported(Answer(w, s, chunks, i))
  }

  lemma TerminalAnswersAreOutcomes<S, R>(setting: Setting, w: Writer<S, R>, s: S, chunks: seq<seq<R>>, i: nat)
    requires Drives(setting, w, s, chunks) && i < |chunks|
    ensures setting.Outcome(i).Some? <==> Answer(w, s, chunks, i).Some?
    ensures setting.Outcome(i).Some? ==> setting.Outcome(i).value.code == Answer(w, s, chunks, i).value.code
  {
    var outcome := setting.Outcome(i);
    assert !Retries(setting.policy, setting.writes(i), 1);
  }

  lemma {:induction false} DeliverSkips<S, R>(
    w: Writer<S, R>, s: S, chunks: seq<seq<R>>, sourceFailure: Option<Code>, n: nat)
    requires n <= |chunks| && forall i :: 0 <= i < n ==> Answer(w, s, chunks, i).None?
    ensures Deliver(w, s, chunks, 0, sourceFailure)
         == Deliver(w, AfterWrites(w, s, chunks, n), chunks[n..], n, sourceFailure)
  {
    if n == 0 {
      assert chunks[0..] == chunks;
    } else {
      DeliverSkips(w, s, chunks, sourceFailure, n - 1);
      assert Answer(w, s, chunks, n - 1).None?;
      assert chunks[n - 1..][0] == chunks[n - 1] && chunks[n - 1..][1..] == chunks[n..];
    }
  }

  /** The delivery ends as decided: committed from the state after every write, or failed with the code. */
  ghost predicate DeliversAs<S, R>(
    w: Writer<S, R>, s: S, chunks: seq<seq<R>>, sourceFailure: Option<Code>, ending: Ending)
  {
    var (s', delivery) := Deliver(w, s, chunks, 0, sourceFailure);
    if ending.Halts? then delivery.Failed? && delivery.failure.code == ending.code
    else
      var (committed, r) := w.commit(AfterWrites(w, s, chunks, |chunks|));
      && ending.chunks == |chunks|
      && (r.Success? ==> s' == committed && delivery == Committed(r.value, |chunks|))
      && (r.Failure? ==> s' == w.drop(committed) && delivery == Failed(r.error))
  }

  /** What attempt 1 of a write reports to the retry engine. */
  function Reported(answer: Option<SessionFailure>): Option<WriteFailure> {
    if answer.Some? then Some(WriteFailure(answer.value.code, false)) else None
  }

  /**
   * Driving a session is what the dispatcher decides: it commits after every chunk, or surfaces the code of
   * the first write the session refuses, else the source's.
   */
  lemma DeliveryIsTheSerialEnding<S, R>(
    setting: Setting, w: Writer<S, R>, s: S, chunks: seq<seq<R>>, run: Yields)
    requires Drives(setting, w, s, chunks) && |run.batches| == |chunks|
    ensures DeliversAs(w, s, chunks, run.failure, EndingOf(setting, run))
  {
    var first := FirstFailing(setting, |chunks|);
    var n := if first.Some? then first.value else |chunks|;
    forall i | 0 <= i < n ensures Answer(w, s, chunks, i).None? {
      TerminalAnswersAreOutcomes(setting, w, s, chunks, i);
      assert setting.Outcome(i).None?;
    }
    DeliverSkips(w, s, chunks, run.failure, n);
    if first.Some? {
      TerminalAnswersAreOutcomes(setting, w, s, chunks, n);
      assert chunks[n..][0] == chunks[n];
    } else {
      assert chunks[n..] == [];
    }
  }
}
