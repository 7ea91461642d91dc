/**
 * The SQL Server write session as a transaction state machine: the first chunk prepares it, a failed write
 * rolls back, and full refresh and merge commit once at the end. The server's side of the connection is
 * modelled beside the session's own fields, which can come apart from it.
 */
module SqlServerSessions {
  import opened Wrappers
  import opened Failures
  import opened Sequences
  import opened Chunks
  import opened Sessions
  import opened Upserts

  datatype Mode = FullRefresh | Append | Merge

  /**
   * On the server: the committed table (None before it exists), the table inside the open transaction and
   * the staging table it created (None without one). In the session: whether a plan is prepared, whether
   * it believes a transaction is open, and append's counters.
   */
  datatype SqlSession<Cell> = SqlSession(
    mode: Mode,
    keys: Keys,
    table: Option<seq<Row<Cell>>>,
    working: Option<seq<Row<Cell>>>,
    stage: Option<seq<Row<Cell>>>,
    prepared: bool,
    transaction: bool,
    committedChunks: nat,
    writtenRecords: nat)
  {
    ghost predicate Valid() {
      && keys.Valid()
      && (mode.Merge? ==>
            && Rows(keys, table.OrElse([])) && Rows(keys, working.OrElse([])) && Rows(keys, stage.OrElse([])))
    }

    /** The attempted rollback: the flag clears whether or not the statement reached the server. */
    function RolledBack(reached: bool): SqlSession<Cell> {
      if !transaction then this
      else if reached then this.(transaction := false, working := None, stage := None)
      else this.(transaction := false)
    }

    /** The connection is gone, and with it whatever transaction the server still held. */
    function Dropped(): SqlSession<Cell> {
      this.(transaction := false, working := None, stage := None)
    }
  }

  type OpenSql<Cell> = s: SqlSession<Cell> | s.Valid()
    witness SqlSession(Append, Keys(0, []), None, None, None, false, false, 0, 0)

  function BeginSql<Cell>(mode: Mode, keys: Keys, table: Option<seq<Row<Cell>>>): SqlSession<Cell> {
    SqlSession(mode, keys, table, None, None, false, false, 0, 0)
  }

  /**
   * What goes wrong in one write: preparing (before or after BEGIN TRAN), the bulk send, only the reply to a
   * bulk send the server applied, or nothing.
   */
  datatype WriteFault = NoFault | PrepareFails(code: Code, begun: bool) | BulkFails | BulkUnheard {
    /** The send of these rows is applied and its reply lost; an empty chunk sends nothing and awaits no reply. */
    predicate LosesReply<R>(rows: seq<R>) {
      BulkUnheard? && rows != []
    }

    /** The write of these rows fails in its bulk send. */
    predicate FailsSend<R>(rows: seq<R>) {
      BulkFails? || LosesReply(rows)
    }
  }

  function WithTransaction<Cell>(s: OpenSql<Cell>): OpenSql<Cell> {
    match s.mode
    case Append => s
    case FullRefresh => s.(transaction := true, working := Some([]))
    case Merge => s.(transaction := true, working := Some(s.table.OrElse([])), stage := Some([]))
  }

  function MergeFailed(code: Code): SessionFailure {
    NothingCommitted(code, Atomic(TransactionalMerge))
  }

  /** The table a bulk send goes to exists: the stage of a merge, else the target, inside the transaction or not. */
  predicate HasDestination<Cell>(s: SqlSession<Cell>) {
    match s.mode
    case Append => s.table.Some?
    case FullRefresh => s.working.Some? || s.table.Some?
    case Merge => s.stage.Some?
  }

  /** Whether a prepared session's bulk send of these rows is applied; an empty chunk sends nothing. */
  predicate Applies<Cell>(s: SqlSession<Cell>, rows: seq<Row<Cell>>, fault: WriteFault) {
    && !fault.BulkFails? && (rows != [] ==> HasDestination(s))
    && (s.mode.Merge? ==> Rows(s.keys, rows))
  }

  /** Rows land in the stage, in the open transaction, or, without one, in the committed table itself. */
  function Landed<Cell>(s: OpenSql<Cell>, rows: seq<Row<Cell>>): OpenSql<Cell>
    requires Applies(s, rows, NoFault)
  {
    if rows == [] then s
    else match s.mode
      case Merge => s.(stage := Some(s.stage.value + rows))
      case Append => s.(table := Some(s.table.value + rows))
      case FullRefresh =>
        if s.working.Some? then s.(working := Some(s.working.value + rows))
        else s.(table := Some(s.table.value + rows))
  }

  /** An acknowledged append write is counted. */
  function Counted<Cell>(s: OpenSql<Cell>, records: nat): OpenSql<Cell> {
    if s.mode.Append? then s.(committedChunks := s.committedChunks + 1, writtenRecords := s.writtenRecords + records)
    else s
  }

  /** A failed write: full refresh and merge roll back. */
  function Refused<Cell>(s: OpenSql<Cell>, rollbackReaches: bool): OpenSql<Cell> {
    if s.mode.Append? then s else s.RolledBack(rollbackReaches)
  }

  function SendFailure<Cell>(s: SqlSession<Cell>): SessionFailure {
    match s.mode
    case Append => SessionFailure(DestinationWriteFailed, BestEffort(BulkInsert), s.writtenRecords, s.committedChunks)
    case Merge => MergeFailed(DestinationWriteFailed)
    case FullRefresh => NothingCommitted(DestinationWriteFailed, NotApplicable)
  }

  /** The bulk send of a prepared session. */
  function SqlSend<Cell>(s: OpenSql<Cell>, rows: seq<Row<Cell>>, fault: WriteFault, rollbackReaches: bool)
    : (OpenSql<Cell>, Option<SessionFailure>)
  {
    if !Applies(s, rows, fault) then (Refused(s, rollbackReaches), Some(SendFailure(s)))
    else if fault.LosesReply(rows) then (Refused(Landed(s, rows), rollbackReaches), Some(SendFailure(s)))
    else (Counted(Landed(s, rows), |rows|), None)
  }

  /** One write: an unprepared session prepares first, and rolls back when preparing fails. */
  function SqlWrite<Cell>(s: OpenSql<Cell>, rows: seq<Row<Cell>>, fault: WriteFault, rollbackReaches: bool)
    : (OpenSql<Cell>, Option<SessionFailure>)
  {
    if !s.prepared && fault.PrepareFails? then
      var begun := if fault.begun then WithTransaction(s) else s;
      (begun.RolledBack(rollbackReaches),
       Some(if s.mode.Merge? && begun.transaction then MergeFailed(fault.code)
            else NothingCommitted(fault.code, NotApplicable)))
    else
      SqlSend(if s.prepared then s else WithTransaction(s).(prepared := true), rows, fault, rollbackReaches)
  }

  /** How the session's end goes: a statement before COMMIT fails, COMMIT is refused, goes unheard, or is acknowledged. */
  datatype CommitFault = StatementFails | CommitRefused | CommitUnheard | CommitAcknowledged {
    predicate Commits() {
      CommitUnheard? || CommitAcknowledged?
    }
  }

  /** COMMIT of the transaction's contents. */
  function Finished<Cell>(s: OpenSql<Cell>, contents: seq<Row<Cell>>, success: Facts, failure: SessionFailure,
    fault: CommitFault): (OpenSql<Cell>, Result<Facts, SessionFailure>)
    requires s.mode.Merge? ==> Rows(s.keys, contents)
  {
    if !fault.Commits() then (s.Dropped(), Failure(failure))
    else
      (s.Dropped().(table := Some(contents)),
       if fault.CommitAcknowledged? then Success(success) else Failure(failure))
  }

  function SqlMergeCommit<Cell(==, !new)>(s: OpenSql<Cell>, fault: CommitFault)
    : (OpenSql<Cell>, Result<Facts, SessionFailure>)
    requires s.mode.Merge?
  {
    if s.working.None? || s.stage.None? || fault.StatementFails? then
      (s.Dropped(), Failure(MergeFailed(DestinationWriteFailed)))
    else
      var target, stage := s.working.value, s.stage.value;
      if CollidingCount(s.keys, stage, |stage|) > 0 then (s.Dropped(), Failure(MergeFailed(DuplicateMergeKeys)))
      else
        CountsPartitionTheStage(s.keys, target, stage);
        var updated := MatchedCount(s.keys, target, stage);
        Finished(s, MergeInto(s.keys, target, stage), Merged(TransactionalMerge, updated, |stage| - updated),
          MergeFailed(DestinationWriteFailed), fault)
  }

  function SqlCommit<Cell(==, !new)>(s: OpenSql<Cell>, fault: CommitFault)
    : (OpenSql<Cell>, Result<Facts, SessionFailure>)
  {
    match s.mode
    case Append => (s, Success(BestEffort(BulkInsert)))
    case Merge => SqlMergeCommit(s, fault)
    case FullRefresh =>
      if s.working.None? then (s.Dropped(), Failure(NothingCommitted(DestinationWriteFailed, NotApplicable)))
      else Finished(s, s.working.value, Atomic(TransactionalDeleteInsert),
                    NothingCommitted(DestinationWriteFailed, NotApplicable), fault)
  }

  function SqlAbandon<Cell>(s: OpenSql<Cell>): (OpenSql<Cell>, AbandonedWrite) {
    (s.Dropped(), AppendAbandoned(BulkInsert, s.committedChunks, s.writtenRecords))
  }

  function SqlWriter<Cell(==, !new)>(faults: nat -> WriteFault, rollbackReaches: nat -> bool, fault: CommitFault)
    : Writer<OpenSql<Cell>, Row<Cell>>
  {
    Writer(
      (s: OpenSql<Cell>, i: nat, rows: seq<Row<Cell>>) => SqlWrite(s, rows, faults(i), rollbackReaches(i)),
      (s: OpenSql<Cell>) => SqlCommit(s, fault),
      (s: OpenSql<Cell>) => SqlAbandon(s),
      (s: OpenSql<Cell>) => DropSession(s))
  }

  function DropSession<Cell>(s: OpenSql<Cell>): OpenSql<Cell> {
    s.Dropped()
  }

  // ----- Full refresh and merge, driven serially -----

  /** None of these writes fails in its bulk send. */
  predicate NoneFails<R>(chunks: seq<seq<R>>, faults: nat -> WriteFault, first: nat)
    decreases chunks
  {
    chunks == [] || (!faults(first).FailsSend(chunks[0]) && NoneFails(chunks[1..], faults, first + 1))
  }

  /** Every chunk of a phase is accepted: the first prepares, and none fails to send. */
  predicate AllAccepted<R>(chunks: seq<seq<R>>, faults: nat -> WriteFault) {
    NoneFails(chunks, faults, 0) && !faults(0).PrepareFails?
  }

  /** A prepared full refresh: the target is untouched, and the transaction holds what was sent. */
  predicate Refreshing<Cell(==)>(s: SqlSession<Cell>, table: Option<seq<Row<Cell>>>, sent: seq<Row<Cell>>) {
    && s.mode.FullRefresh? && s.prepared && s.transaction && s.table == table && s.working == Some(sent)
    && s.committedChunks == 0 && s.writtenRecords == 0
  }

  /**
   * How a full refresh ends: the target is exactly what was sent when COMMIT happens, else untouched; and
   * it reports success exactly when COMMIT was also acknowledged, else nothing committed.
   */
  ghost predicate SqlRefreshEnds<Cell>(table: Option<seq<Row<Cell>>>, s': SqlSession<Cell>, delivery: Delivery,
    sent: seq<Row<Cell>>, reached: bool, fault: CommitFault)
  {
    && s'.table == (if reached && fault.Commits() then Some(sent) else table)
    && (delivery.Committed? <==> reached && fault.CommitAcknowledged?)
    && (delivery.Failed? ==> delivery.failure.committedChunks == 0 && delivery.failure.writtenRecords == 0)
  }

  lemma {:induction false} RefreshingEnds<Cell(!new)>(s: OpenSql<Cell>, table: Option<seq<Row<Cell>>>, sent: seq<Row<Cell>>,
    chunks: seq<seq<Row<Cell>>>, first: nat, sourceFailure: Option<Code>, faults: nat -> WriteFault,
    rollbackReaches: nat -> bool, fault: CommitFault)
    requires Refreshing(s, table, sent)
    ensures var (s', delivery) := Deliver(SqlWriter(faults, rollbackReaches, fault), s, chunks, first, sourceFailure);
      SqlRefreshEnds(table, s', delivery, sent + Flatten(chunks),
        sourceFailure.None? && NoneFails(chunks, faults, first), fault)
    decreases |chunks|
  {
    var w := SqlWriter<Cell>(faults, rollbackReaches, fault);
    if chunks == [] {
      assert sent + Flatten<Row<Cell>>([]) == sent;
    } else if !faults(first).FailsSend(chunks[0]) {
      var next := w.write(s, first, chunks[0]).0;
      assert chunks[0] == [] ==> sent + chunks[0] == sent;
      RefreshingEnds(next, table, sent + chunks[0], chunks[1..], first + 1, sourceFailure, faults, rollbackReaches, fault);
      ConcatAssociates(sent, chunks[0], Flatten(chunks[1..]));
    }
  }

  /** A SQL Server full refresh over at least one chunk is atomic, and reports what it left unless COMMIT went unheard. */
  lemma SqlRefreshIsAtomic<Cell(!new)>(keys: Keys, table: Option<seq<Row<Cell>>>, chunks: seq<seq<Row<Cell>>>,
    sourceFailure: Option<Code>, faults: nat -> WriteFault, rollbackReaches: nat -> bool, fault: CommitFault)
    requires keys.Valid() && chunks != []
    ensures var (s', delivery) :=
        Deliver(SqlWriter(faults, rollbackReaches, fault), BeginSql(FullRefresh, keys, table), chunks, 0, sourceFailure);
      SqlRefreshEnds(table, s', delivery, Flatten(chunks), sourceFailure.None? && AllAccepted(chunks, faults), fault)
  {
    var w := SqlWriter<Cell>(faults, rollbackReaches, fault);
    var s := BeginSql(FullRefresh, keys, table);
    if !faults(0).PrepareFails? && !faults(0).FailsSend(chunks[0]) {
      var next := w.write(s, 0, chunks[0]).0;
      assert [] + chunks[0] == chunks[0];
      RefreshingEnds(next, table, chunks[0], chunks[1..], 1, sourceFailure, faults, rollbackReaches, fault);
    }
  }

  /** Every chunk of a merge has the stage's columns and is sent. */
  predicate AllSent<Cell>(keys: Keys, chunks: seq<seq<Row<Cell>>>, faults: nat -> WriteFault, first: nat)
    decreases chunks
  {
    chunks == [] ||
    (Rows(keys, chunks[0]) && !faults(first).FailsSend(chunks[0]) && AllSent(keys, chunks[1..], faults, first + 1))
  }

  lemma {:induction false} SentRowsAligned<Cell>(keys: Keys, chunks: seq<seq<Row<Cell>>>, faults: nat -> WriteFault, first: nat)
    requires AllSent(keys, chunks, faults, first)
    ensures Rows(keys, Flatten(chunks))
    decreases chunks
  {
    if chunks != [] {
      SentRowsAligned(keys, chunks[1..], faults, first + 1);
    }
  }

  /** A prepared merge: the target is untouched inside and outside the transaction, the stage holds what was sent. */
  predicate Merging<Cell(==)>(s: SqlSession<Cell>, table: seq<Row<Cell>>, staged: seq<Row<Cell>>) {
    && s.mode.Merge? && s.prepared && s.transaction
    && s.table == Some(table) && s.working == Some(table) && s.stage == Some(staged)
    && s.committedChunks == 0 && s.writtenRecords == 0
  }

  /** How a merge ends: the upsert of everything staged when the keys are distinct and COMMIT happens, else untouched. */
  ghost predicate SqlMergeEnds<Cell(!new)>(keys: Keys, table: seq<Row<Cell>>, s': SqlSession<Cell>, delivery: Delivery,
    staged: seq<Row<Cell>>, reached: bool, fault: CommitFault)
    requires keys.Valid() && Rows(keys, table) && (reached ==> Rows(keys, staged))
  {
    var committed := reached && DistinctKeys(keys, staged) && fault.Commits();
    && s'.table == Some(if committed then MergeInto(keys, table, staged) else table)
    && (delivery.Committed? <==> committed && fault.CommitAcknowledged?)
    && (delivery.Committed? ==>
          && delivery.facts.Merged? && delivery.facts.updated == MatchedCount(keys, table, staged)
          && delivery.facts.updated + delivery.facts.inserted == |staged|)
    && (delivery.Failed? ==> delivery.failure.committedChunks == 0 && delivery.failure.writtenRecords == 0)
  }

  lemma MergeCommitEnds<Cell(!new)>(s: OpenSql<Cell>, table: seq<Row<Cell>>, staged: seq<Row<Cell>>, fault: CommitFault)
    requires Merging(s, table, staged)
    ensures var (s', r) := SqlCommit(s, fault);
      var committed := DistinctKeys(s.keys, staged) && fault.Commits();
      && s'.table == Some(if committed then MergeInto(s.keys, table, staged) else table)
      && (r.Success? <==> committed && fault.CommitAcknowledged?)
      && (r.Success? ==>
            && r.value.Merged? && r.value.updated == MatchedCount(s.keys, table, staged)
            && r.value.updated + r.value.inserted == |staged|)
      && (r.Failure? ==> r.error.committedChunks == 0 && r.error.writtenRecords == 0)
  {
    GateIsExact(s.keys, staged);
    CountsPartitionTheStage(s.keys, table, staged);
  }

  lemma RefusedMergeWriteEnds<Cell(!new)>(s: OpenSql<Cell>, table: seq<Row<Cell>>, staged: seq<Row<Cell>>,
    chunks: seq<seq<Row<Cell>>>, first: nat, sourceFailure: Option<Code>, faults: nat -> WriteFault,
    rollbackReaches: nat -> bool, fault: CommitFault)
    requires Merging(s, table, staged) && chunks != []
    requires !Rows(s.keys, chunks[0]) || faults(first).FailsSend(chunks[0])
    ensures var (s', delivery) := Deliver(SqlWriter(faults, rollbackReaches, fault), s, chunks, first, sourceFailure);
      s'.table == Some(table) && delivery == Failed(MergeFailed(DestinationWriteFailed))
  {
    var (s', failure) := SqlWriter<Cell>(faults, rollbackReaches, fault).write(s, first, chunks[0]);
    if Applies(s, chunks[0], faults(first)) {
      assert s' == Landed(s, chunks[0]).RolledBack(rollbackReaches(first));
    } else {
      assert s' == s.RolledBack(rollbackReaches(first));
    }
    assert failure == Some(MergeFailed(DestinationWriteFailed)) && s'.table == Some(table);
  }

  /** A chunk a prepared merge takes extends the stage. */
  lemma StagingOneMore<Cell(!new)>(s: OpenSql<Cell>, table: seq<Row<Cell>>, staged: seq<Row<Cell>>,
    rows: seq<Row<Cell>>, fault: WriteFault, rollbackReaches: bool)
    requires Merging(s, table, staged) && Rows(s.keys, rows) && !fault.FailsSend(rows)
    ensures var (s', answer) := SqlWrite(s, rows, fault, rollbackReaches);
      answer.None? && s'.keys == s.keys && Merging(s', table, staged + rows)
  {
    assert rows == [] ==> staged + rows == staged;
  }

  lemma {:induction false} MergingEnds<Cell(!new)>(s: OpenSql<Cell>, table: seq<Row<Cell>>, staged: seq<Row<Cell>>,
    chunks: seq<seq<Row<Cell>>>, first: nat, sourceFailure: Option<Code>, faults: nat -> WriteFault,
    rollbackReaches: nat -> bool, fault: CommitFault)
    requires Merging(s, table, staged)
    ensures AllSent(s.keys, chunks, faults, first) ==> Rows(s.keys, staged + Flatten(chunks))
    ensures var (s', delivery) := Deliver(SqlWriter(faults, rollbackReaches, fault), s, chunks, first, sourceFailure);
      SqlMergeEnds(s.keys, table, s', delivery, staged + Flatten(chunks),
        sourceFailure.None? && AllSent(s.keys, chunks, faults, first), fault)
    decreases |chunks|
  {
    if AllSent(s.keys, chunks, faults, first) {
      SentRowsAligned(s.keys, chunks, faults, first);
    }
    if chunks == [] {
      assert staged + Flatten<Row<Cell>>([]) == staged;
      MergeCommitEnds(s, table, staged, fault);
    } else if Rows(s.keys, chunks[0]) && !faults(first).FailsSend(chunks[0]) {
      StagingOneMore(s, table, staged, chunks[0], faults(first), rollbackReaches(first));
      var next := SqlWriter<Cell>(faults, rollbackReaches, fault).write(s, first, chunks[0]).0;
      MergingEnds(next, table, staged + chunks[0], chunks[1..], first + 1, sourceFailure, faults, rollbackReaches, fault);
      ConcatAssociates(staged, chunks[0], Flatten(chunks[1..]));
    } else {
      RefusedMergeWriteEnds(s, table, staged, chunks, first, sourceFailure, faults, rollbackReaches, fault);
    }
  }

  /** A merge whose first write cannot prepare leaves the table untouched and reports nothing committed. */
  lemma UnpreparedMergeEnds<Cell(!new)>(keys: Keys, table: seq<Row<Cell>>, chunks: seq<seq<Row<Cell>>>,
    sourceFailure: Option<Code>, faults: nat -> WriteFault, rollbackReaches: nat -> bool, fault: CommitFault)
    requires keys.Valid() && Rows(keys, table) && chunks != [] && faults(0).PrepareFails?
    ensures var (s', delivery) :=
        Deliver(SqlWriter(faults, rollbackReaches, fault), BeginSql(Merge, keys, Some(table)), chunks, 0, sourceFailure);
      && s'.table == Some(table) && delivery.Failed?
      && delivery.failure.committedChunks == 0 && delivery.failure.writtenRecords == 0
  {
    var s: OpenSql<Cell> := BeginSql(Merge, keys, Some(table));
    var (s', failure) := SqlWriter<Cell>(faults, rollbackReaches, fault).write(s, 0, chunks[0]);
    assert failure.Some? && s'.table == Some(table);
    assert failure.value.committedChunks == 0 && failure.value.writtenRecords == 0;
  }

  /** Preparing a merge and writing its first chunk is writing that chunk to a prepared one. */
  lemma PreparingThenWriting<Cell(!new)>(s: OpenSql<Cell>, open: OpenSql<Cell>, chunks: seq<seq<Row<Cell>>>,
    sourceFailure: Option<Code>, faults: nat -> WriteFault, rollbackReaches: nat -> bool, fault: CommitFault)
    requires !s.prepared && chunks != [] && !faults(0).PrepareFails?
    requires open == WithTransaction(s).(prepared := true)
    ensures Deliver(SqlWriter(faults, rollbackReaches, fault), s, chunks, 0, sourceFailure)
         == Deliver(SqlWriter(faults, rollbackReaches, fault), open, chunks, 0, sourceFailure)
  {
    var w := SqlWriter<Cell>(faults, rollbackReaches, fault);
    var sent := SqlSend(open, chunks[0], faults(0), rollbackReaches(0));
    assert SqlWrite(s, chunks[0], faults(0), rollbackReaches(0)) == sent;
    assert SqlWrite(open, chunks[0], faults(0), rollbackReaches(0)) == sent;
    assert w.write(s, 0, chunks[0]) == w.write(open, 0, chunks[0]);
  }

  /** A SQL Server merge into an existing table is atomic, and its commit always finds a prepared session. */
  lemma SqlMergeIsAtomic<Cell(!new)>(keys: Keys, table: seq<Row<Cell>>, chunks: seq<seq<Row<Cell>>>,
    sourceFailure: Option<Code>, faults: nat -> WriteFault, rollbackReaches: nat -> bool, fault: CommitFault)
    requires keys.Valid() && Rows(keys, table) && chunks != []
    ensures AllSent(keys, chunks, faults, 0) ==> Rows(keys, Flatten(chunks))
    ensures var (s', delivery) :=
        Deliver(SqlWriter(faults, rollbackReaches, fault), BeginSql(Merge, keys, Some(table)), chunks, 0, sourceFailure);
      SqlMergeEnds(keys, table, s', delivery, Flatten(chunks),
        sourceFailure.None? && !faults(0).PrepareFails? && AllSent(keys, chunks, faults, 0), fault)
  {
    if AllSent(keys, chunks, faults, 0) {
      SentRowsAligned(keys, chunks, faults, 0);
    }
    if faults(0).PrepareFails? {
      UnpreparedMergeEnds(keys, table, chunks, sourceFailure, faults, rollbackReaches, fault);
    } else {
      var s: OpenSql<Cell> := BeginSql(Merge, keys, Some(table));
      var open: OpenSql<Cell> := WithTransaction(s).(prepared := true);
      PreparingThenWriting(s, open, chunks, sourceFailure, faults, rollbackReaches, fault);
      MergingEnds(open, table, [], chunks, 0, sourceFailure, faults, rollbackReaches, fault);
      assert [] + Flatten(chunks) == Flatten(chunks);
    }
  }

  // ----- Append -----

  /** How many leading chunks an append session commits and counts; only the first can fail in preparing. */
  function SqlPrefix<R>(prepared: bool, chunks: seq<seq<R>>, faults: nat -> WriteFault, first: nat): (n: nat)
    ensures n <= |chunks|
    decreases chunks
  {
    if chunks == [] || faults(first).FailsSend(chunks[0]) || (!prepared && faults(first).PrepareFails?) then 0
    else 1 + SqlPrefix(true, chunks[1..], faults, first + 1)
  }

  /** What the chunk after the counted prefix added: its rows when only the reply was lost, else nothing. */
  function Uncounted<R>(chunks: seq<seq<R>>, faults: nat -> WriteFault, first: nat, n: nat): seq<R>
    requires n <= |chunks|
  {
    if n < |chunks| && faults(first + n).LosesReply(chunks[n]) then chunks[n] else []
  }

  /**
   * How an append ends: the table gained the counted chunks and what one lost reply hides, and a failure
   * reports the counted chunks alone, so it falls short of the table exactly when a reply was lost.
   */
  ghost predicate SqlAppendEnds<Cell>(s: SqlSession<Cell>, s': SqlSession<Cell>, delivery: Delivery,
    chunks: seq<seq<Row<Cell>>>, n: nat, uncounted: seq<Row<Cell>>, ended: bool)
    requires n <= |chunks|
  {
    && s.table.Some? && s'.table == Some(s.table.value + Flatten(chunks[..n]) + uncounted)
    && (delivery.Committed? <==> n == |chunks| && ended)
    && (delivery.Failed? ==>
          && delivery.failure.committedChunks == s.committedChunks + n
          && delivery.failure.writtenRecords == s.writtenRecords + |Flatten(chunks[..n])|
          && (delivery.failure.writtenRecords - s.writtenRecords == |s'.table.value| - |s.table.value| <==>
                uncounted == []))
  }

  /**
   * One append write into an existing table is counted with its rows, or refused: then the counters stay, and
   * the table gained its rows exactly when only the reply was lost.
   */
  lemma AppendOneWrite<Cell(!new)>(s: OpenSql<Cell>, rows: seq<Row<Cell>>, fault: WriteFault, rollbackReaches: bool)
    requires s.mode.Append? && !s.transaction && s.table.Some?
    ensures var (s', answer) := SqlWrite(s, rows, fault, rollbackReaches);
      && (answer.Some? <==> fault.FailsSend(rows) || (!s.prepared && fault.PrepareFails?))
      && (answer.None? ==>
            s' == s.(prepared := true, table := Some(s.table.value + rows),
                     committedChunks := s.committedChunks + 1, writtenRecords := s.writtenRecords + |rows|))
      && (answer.Some? ==>
            s' == s.(prepared := s.prepared || !fault.PrepareFails?,
                     table := Some(s.table.value + if fault.LosesReply(rows) then rows else [])))
      && (answer.Some? && (s.prepared || (s.committedChunks == 0 && s.writtenRecords == 0)) ==>
            answer.value.committedChunks == s.committedChunks && answer.value.writtenRecords == s.writtenRecords)
  {
    assert s.table.value + [] == s.table.value;
    assert rows == [] ==> s.table.value + rows == s.table.value;
  }

  lemma PrefixStep<R>(before: seq<R>, chunks: seq<seq<R>>, n: nat, uncounted: seq<R>)
    requires 0 < n <= |chunks|
    ensures before + Flatten(chunks[..n]) + uncounted == (before + chunks[0]) + Flatten(chunks[1..][..n - 1]) + uncounted
    ensures |Flatten(chunks[..n])| == |chunks[0]| + |Flatten(chunks[1..][..n - 1])|
  {
    assert chunks[..n] == [chunks[0]] + chunks[1..][..n - 1];
    assert ([chunks[0]] + chunks[1..][..n - 1])[1..] == chunks[1..][..n - 1];
    ConcatAssociates(before, chunks[0], Flatten(chunks[1..][..n - 1]));
  }

  /** What holds from after a counted chunk holds from before it, with that chunk in the prefix. */
  lemma CountedChunkEnds<Cell>(s: SqlSession<Cell>, next: SqlSession<Cell>, s': SqlSession<Cell>, delivery: Delivery,
    chunks: seq<seq<Row<Cell>>>, n: nat, faults: nat -> WriteFault, first: nat, ended: bool)
    requires 0 < n <= |chunks| && s.table.Some? && next.table == Some(s.table.value + chunks[0])
    requires next.committedChunks == s.committedChunks + 1 && next.writtenRecords == s.writtenRecords + |chunks[0]|
    requires SqlAppendEnds(next, s', delivery, chunks[1..], n - 1, Uncounted(chunks[1..], faults, first + 1, n - 1), ended)
    ensures SqlAppendEnds(s, s', delivery, chunks, n, Uncounted(chunks, faults, first, n), ended)
  {
    PrefixStep(s.table.value, chunks, n, Uncounted(chunks, faults, first, n));
  }

  lemma RefusedAppendEnds<Cell>(s: SqlSession<Cell>, next: SqlSession<Cell>, failure: SessionFailure,
    chunks: seq<seq<Row<Cell>>>, n: nat, uncounted: seq<Row<Cell>>, ended: bool)
    requires n == 0 < |chunks| && s.table.Some? && next.table == Some(s.table.value + uncounted)
    requires failure.committedChunks == s.committedChunks && failure.writtenRecords == s.writtenRecords
    ensures SqlAppendEnds(s, next.Dropped(), Failed(failure), chunks, n, uncounted, ended)
  {
    assert chunks[..n] == [] && Flatten<Row<Cell>>([]) == [];
    assert s.table.value + [] == s.table.value;
  }

  /**
   * A serial append into an existing table keeps the chunks before the first that fails, and reports them.
   * When the first that fails lost only its reply, the table also holds that chunk, and only then does the
   * report fall short.
   */
  lemma {:induction false} SqlAppendKeepsThePrefix<Cell(!new)>(s: OpenSql<Cell>, chunks: seq<seq<Row<Cell>>>, first: nat,
    sourceFailure: Option<Code>, faults: nat -> WriteFault, rollbackReaches: nat -> bool, fault: CommitFault)
    requires s.mode.Append? && s.table.Some? && !s.transaction
    requires !s.prepared ==> s.committedChunks == 0 && s.writtenRecords == 0
    ensures var (s', delivery) := Deliver(SqlWriter(faults, rollbackReaches, fault), s, chunks, first, sourceFailure);
      var n := SqlPrefix(s.prepared, chunks, faults, first);
      SqlAppendEnds(s, s', delivery, chunks, n, Uncounted(chunks, faults, first, n), sourceFailure.None?)
    decreases |chunks|
  {
    var w := SqlWriter<Cell>(faults, rollbackReaches, fault);
    if chunks == [] {
      assert chunks[..0] == [] && Flatten<Row<Cell>>([]) == [];
      assert s.table.value + [] + [] == s.table.value;
    } else {
      var n := SqlPrefix(s.prepared, chunks, faults, first);
      AppendOneWrite(s, chunks[0], faults(first), rollbackReaches(first));
      var (next, answer) := w.write(s, first, chunks[0]);
      if answer.Some? {
        RefusedAppendEnds(s, next, answer.value, chunks, n, Uncounted(chunks, faults, first, n), sourceFailure.None?);
      } else {
        SqlAppendKeepsThePrefix(next, chunks[1..], first + 1, sourceFailure, faults, rollbackReaches, fault);
        var (s', delivery) := Deliver(w, next, chunks[1..], first + 1, sourceFailure);
        CountedChunkEnds(s, next, s', delivery, chunks, n, faults, first, sourceFailure.None?);
      }
    }
  }

  /**
   * What a failed append reports besides its counts: a failed preparation keeps its code and has no facts, a
   * failed send is best effort, and a source failure keeps its code and is best effort once a chunk counted.
   */
  lemma {:induction false} SqlAppendLabels<Cell(!new)>(s: OpenSql<Cell>, chunks: seq<seq<Row<Cell>>>, first: nat,
    sourceFailure: Option<Code>, faults: nat -> WriteFault, rollbackReaches: nat -> bool, fault: CommitFault)
    requires s.mode.Append? && s.table.Some? && !s.transaction
    ensures var delivery := Deliver(SqlWriter(faults, rollbackReaches, fault), s, chunks, first, sourceFailure).1;
      var n := SqlPrefix(s.prepared, chunks, faults, first);
      && (delivery.Committed? ==> delivery.facts == BestEffort(BulkInsert) && delivery.chunks == first + n)
      && (delivery.Failed? ==>
            if n < |chunks| then
              if !s.prepared && n == 0 && faults(first).PrepareFails? then
                delivery.failure.code == faults(first).code && delivery.failure.facts == NotApplicable
              else delivery.failure.code == DestinationWriteFailed && delivery.failure.facts == BestEffort(BulkInsert)
            else
              && sourceFailure.Some? && delivery.failure.code == sourceFailure.value
              && delivery.failure.facts == if s.committedChunks + n > 0 then BestEffort(BulkInsert) else NotApplicable)
    decreases |chunks|
  {
    if chunks != [] {
      AppendOneWrite(s, chunks[0], faults(first), rollbackReaches(first));
      var (next, answer) := SqlWriter<Cell>(faults, rollbackReaches, fault).write(s, first, chunks[0]);
      if answer.None? {
        SqlAppendLabels(next, chunks[1..], first + 1, sourceFailure, faults, rollbackReaches, fault);
      }
    }
  }

  /** One chunk, applied, its reply lost: the table holds its row, and the failed load reports nothing. */
  lemma LostReplyGoesUnreported<Cell(!new)>(keys: Keys, row: Row<Cell>, fault: CommitFault)
    requires keys.Valid()
    ensures var (s', delivery) := Deliver(SqlWriter((i: nat) => BulkUnheard, (i: nat) => true, fault),
        BeginSql(Append, keys, Some([])), [[row]], 0, None);
      && s'.table == Some([row]) && delivery.Failed?
      && delivery.failure.committedChunks == 0 && delivery.failure.writtenRecords == 0
  {
    var faults, chunks := (i: nat) => BulkUnheard, [[row]];
    SqlAppendKeepsThePrefix(BeginSql(Append, keys, Some([])), chunks, 0, None, faults, (i: nat) => true, fault);
    assert SqlPrefix(false, chunks, faults, 0) == 0 && chunks[..0] == [];
    assert Uncounted(chunks, faults, 0, 0) == [row] && [] + [] + [row] == [row];
  }

  // ----- Full refresh under arbitrary write orders -----

  /** One write of any caller, and how it goes. */
  datatype SqlCall<Cell> = SqlCall(rows: seq<Row<Cell>>, fault: WriteFault, rollbackReaches: bool)

  function SqlWrites<Cell>(s: OpenSql<Cell>, calls: seq<SqlCall<Cell>>): OpenSql<Cell>
    decreases calls
  {
    if calls == [] then s
    else SqlWrites(SqlWrite(s, calls[0].rows, calls[0].fault, calls[0].rollbackReaches).0, calls[1..])
  }

  /** The rows of the writes the server applies, whether or not their replies arrive. */
  function AppliedRows<Cell>(calls: seq<SqlCall<Cell>>): seq<Row<Cell>> {
    if calls == [] then []
    else (if calls[0].fault.BulkFails? then [] else calls[0].rows) + AppliedRows(calls[1..])
  }

  /** The rows applied after the first write that fails in its send, when its rollback reached the server. */
  function StrayRows<Cell>(calls: seq<SqlCall<Cell>>): seq<Row<Cell>> {
    if calls == [] then []
    else if calls[0].fault.FailsSend(calls[0].rows) then
      if calls[0].rollbackReaches then AppliedRows(calls[1..]) else []
    else StrayRows(calls[1..])
  }

  /** Rolled back but still prepared: every further write commits by itself. */
  lemma {:induction false} RolledBackWritesLand<Cell(!new)>(s: OpenSql<Cell>, calls: seq<SqlCall<Cell>>)
    requires s.mode.FullRefresh? && s.prepared && !s.transaction && s.working.None? && s.table.Some?
    ensures SqlWrites(s, calls).table == Some(s.table.value + AppliedRows(calls))
    decreases calls
  {
    if calls == [] {
      assert s.table.value + AppliedRows<Cell>([]) == s.table.value;
    } else {
      var next := SqlWrite(s, calls[0].rows, calls[0].fault, calls[0].rollbackReaches).0;
      RolledBackWritesLand(next, calls[1..]);
      var applied := if calls[0].fault.BulkFails? then [] else calls[0].rows;
      assert next.table.value == s.table.value + applied;
      ConcatAssociates(s.table.value, applied, AppliedRows(calls[1..]));
    }
  }

  /** A transaction the server still holds keeps everything out of the table. */
  lemma {:induction false} HeldWritesStay<Cell(!new)>(s: OpenSql<Cell>, calls: seq<SqlCall<Cell>>)
    requires s.mode.FullRefresh? && s.prepared && !s.transaction && s.working.Some?
    ensures SqlWrites(s, calls).table == s.table
    decreases calls
  {
    if calls != [] {
      HeldWritesStay(SqlWrite(s, calls[0].rows, calls[0].fault, calls[0].rollbackReaches).0, calls[1..]);
    }
  }

  /**
   * What a full refresh lets into an existing table before COMMIT, over any writes in any order: exactly
   * the rows the server applies after a failed send was rolled back, replies lost or not. The rollback ends the
   * transaction and leaves the session prepared, so a later write reaches the table directly.
   */
  lemma {:induction false} RefreshLeaksExactlyStrayRows<Cell(!new)>(s: OpenSql<Cell>, calls: seq<SqlCall<Cell>>)
    requires s.mode.FullRefresh? && s.table.Some?
    requires if s.prepared then s.transaction && s.working.Some? else !s.transaction
    ensures SqlWrites(s, calls).table == Some(s.table.value + StrayRows(calls))
    decreases calls
  {
    if calls == [] {
      assert s.table.value + StrayRows<Cell>([]) == s.table.value;
    } else {
      var call := calls[0];
      var next := SqlWrite(s, call.rows, call.fault, call.rollbackReaches).0;
      if !call.fault.FailsSend(call.rows) {
        RefreshLeaksExactlyStrayRows(next, calls[1..]);
      } else if call.rollbackReaches {
        RolledBackWritesLand(next, calls[1..]);
      } else {
        HeldWritesStay(next, calls[1..]);
        assert s.table.value + [] == s.table.value;
      }
    }
  }

  /** What one write keeps: only append counts, a merge stays off the table, and no full refresh creates one outside its transaction. */
  lemma OneWriteKeeps<Cell(!new)>(s: OpenSql<Cell>, call: SqlCall<Cell>)
    ensures var s' := SqlWrite(s, call.rows, call.fault, call.rollbackReaches).0;
      && s'.mode == s.mode
      && (!s.mode.Append? ==> s'.committedChunks == s.committedChunks && s'.writtenRecords == s.writtenRecords)
      && (s.mode.Merge? ==> s'.table == s.table)
      && (s.mode.FullRefresh? && s.table.None? ==> s'.table.None?)
  {
  }

  /** A full refresh or a merge counts nothing as committed, whatever is written in whatever order. */
  lemma {:induction false} OnlyAppendCounts<Cell(!new)>(s: OpenSql<Cell>, calls: seq<SqlCall<Cell>>)
    requires !s.mode.Append?
    ensures var s' := SqlWrites(s, calls);
      s'.mode == s.mode && s'.committedChunks == s.committedChunks && s'.writtenRecords == s.writtenRecords
    decreases calls
  {
    if calls != [] {
      OneWriteKeeps(s, calls[0]);
      OnlyAppendCounts(SqlWrite(s, calls[0].rows, calls[0].fault, calls[0].rollbackReaches).0, calls[1..]);
    }
  }

  /** A full refresh that creates its table never shows one before COMMIT: rolled back, it has nowhere to write. */
  lemma {:induction false} NewTableNeverLeaks<Cell(!new)>(s: OpenSql<Cell>, calls: seq<SqlCall<Cell>>)
    requires s.mode.FullRefresh? && s.table.None?
    ensures SqlWrites(s, calls).table.None?
    decreases calls
  {
    if calls != [] {
      OneWriteKeeps(s, calls[0]);
      NewTableNeverLeaks(SqlWrite(s, calls[0].rows, calls[0].fault, calls[0].rollbackReaches).0, calls[1..]);
    }
  }

  /** Serial callers stop at the first failure: nothing follows a failed bulk send. */
  ghost predicate StopsAtFailure<Cell>(calls: seq<SqlCall<Cell>>) {
    forall i :: 0 <= i < |calls| - 1 ==> !calls[i].fault.FailsSend(calls[i].rows)
  }

  lemma {:induction false} SerialWritesLeakNothing<Cell(!new)>(calls: seq<SqlCall<Cell>>)
    requires StopsAtFailure(calls)
    ensures StrayRows(calls) == []
  {
    if calls != [] {
      assert forall i :: 0 <= i < |calls[1..]| - 1 ==> calls[1..][i] == calls[i + 1];
      SerialWritesLeakNothing(calls[1..]);
    }
  }

  /** Whatever is written in whatever order, a merge's target is untouched until COMMIT. */
  lemma {:induction false} MergeWritesStayStaged<Cell(!new)>(s: OpenSql<Cell>, calls: seq<SqlCall<Cell>>)
    requires s.mode.Merge?
    ensures SqlWrites(s, calls).table == s.table
    decreases calls
  {
    if calls != [] {
      OneWriteKeeps(s, calls[0]);
      MergeWritesStayStaged(SqlWrite(s, calls[0].rows, calls[0].fault, calls[0].rollbackReaches).0, calls[1..]);
    }
  }

  // ----- The writer -----

  /** The writer with its session behind the lock; the server's side of the connection is part of its state. */
  class SqlServerWriter<Cell(==, !new)> {
    const mode: Mode
    const keys: Keys
    var table: Option<seq<Row<Cell>>>
    var working: Option<seq<Row<Cell>>>
    var stage: Option<seq<Row<Cell>>>
    var prepared: bool
    var transaction: bool
    var committedChunks: nat
    var writtenRecords: nat

    function State(): SqlSession<Cell>
      reads this
    {
      SqlSession(mode, keys, table, working, stage, prepared, transaction, committedChunks, writtenRecords)
    }

    constructor (mode: Mode, keys: Keys, table: Option<seq<Row<Cell>>>)
      requires keys.Valid() && (mode.Merge? ==> Rows(keys, table.OrElse([])))
      ensures State() == BeginSql(mode, keys, table) && State().Valid()
    {
      this.mode, this.keys, this.table := mode, keys, table;
      working, stage := None, None;
      prepared, transaction, committedChunks, writtenRecords := false, false, 0, 0;
    }

    /** No transaction is believed open any more; the server's own stays open when the statement did not reach it. */
    method Rollback(reached: bool)
      modifies this`working, this`stage, this`transaction
      ensures !transaction
      ensures old(transaction) && reached ==> working.None? && stage.None?
      ensures !old(transaction) || !reached ==> working == old(working) && stage == old(stage)
    {
      if transaction {
        if reached {
          working, stage := None, None;
        }
        transaction := false;
      }
    }

    /** The connection closes, and the server rolls back what it still holds. */
    method Close()
      modifies this`working, this`stage, this`transaction
      ensures State() == old(State()).Dropped()
    {
      working, stage, transaction := None, None, false;
    }

    method BeginTransaction()
      requires State().Valid()
      modifies this`working, this`stage, this`transaction
      ensures State() == WithTransaction(old(State()))
    {
      if mode.FullRefresh? {
        transaction, working := true, Some([]);
      } else if mode.Merge? {
        transaction, working, stage := true, Some(table.OrElse([])), Some([]);
      }
    }

    /** Rows sent to the stage, or to the target inside or outside a transaction. */
    method SendRows(rows: seq<Row<Cell>>)
      requires State().Valid() && Applies(State(), rows, NoFault)
      modifies this`table, this`working, this`stage
      ensures State() == Landed(old(State()), rows)
    {
      if rows != [] {
        if mode.Merge? {
          stage := Some(stage.value + rows);
        } else if mode.FullRefresh? && working.Some? {
          working := Some(working.value + rows);
        } else {
          table := Some(table.value + rows);
        }
      }
    }

    /**
     * One write. Only append counts, and only what is acknowledged; a merge never touches the table, and a
     * full refresh only from outside its transaction.
     */
    method WriteChunk(rows: seq<Row<Cell>>, fault: WriteFault, rollbackReaches: bool)
      returns (failure: Option<SessionFailure>)
      requires State().Valid()
      modifies this
      ensures mode.Merge? || (mode.FullRefresh? && (!old(prepared) || old(working).Some?)) ==> table == old(table)
      ensures committedChunks == old(committedChunks) + if mode.Append? && failure.None? then 1 else 0
      ensures writtenRecords == old(writtenRecords) + if mode.Append? && failure.None? then |rows| else 0
      ensures State() == SqlWrite(old(State()), rows, fault, rollbackReaches).0
      ensures failure == SqlWrite(old(State()), rows, fault, rollbackReaches).1
    {
      if !prepared {
        if fault.PrepareFails? {
          if fault.begun {
            BeginTransaction();
          }
          var stagedMerge := mode.Merge? && transaction;
          Rollback(rollbackReaches);
          return Some(if stagedMerge then MergeFailed(fault.code) else NothingCommitted(fault.code, NotApplicable));
        }
        BeginTransaction();
        prepared := true;
      }
      ghost var ready: OpenSql<Cell> := State();
      assert SqlWrite(old(State()), rows, fault, rollbackReaches) == SqlSend(ready, rows, fault, rollbackReaches);
      var s := State();
      if Applies(s, rows, fault) {
        SendRows(rows);
        if !fault.LosesReply(rows) {
          if mode.Append? {
            committedChunks, writtenRecords := committedChunks + 1, writtenRecords + |rows|;
          }
          return None;
        }
      }
      if !mode.Append? {
        Rollback(rollbackReaches);
      }
      return Some(SendFailure(s));
    }

    /** Append has nothing left to commit; the others run their statements and COMMIT, and hold no transaction after. */
    method Commit(fault: CommitFault) returns (r: Result<Facts, SessionFailure>)
      requires State().Valid()
      modifies this`table, this`working, this`stage, this`transaction
      ensures mode.Append? || !fault.Commits() ==> table == old(table)
      ensures State() == SqlCommit(old(State()), fault).0
      ensures r == SqlCommit(old(State()), fault).1
    {
      var s := State();
      if mode.Append? {
        return Success(BestEffort(BulkInsert));
      }
      var failure := if mode.Merge? then MergeFailed(DestinationWriteFailed)
        else NothingCommitted(DestinationWriteFailed, NotApplicable);
      var contents: seq<Row<Cell>>, facts := [], Atomic(TransactionalDeleteInsert);
      if s.working.None? || (mode.Merge? && (s.stage.None? || fault.StatementFails?)) {
        Close();
        return Failure(failure);
      }
      if mode.FullRefresh? {
        contents := s.working.value;
      } else {
        var colliding := CollidingCount(s.keys, s.stage.value, |s.stage.value|);
        if colliding > 0 {
          Close();
          return Failure(MergeFailed(DuplicateMergeKeys));
        }
        CountsPartitionTheStage(s.keys, s.working.value, s.stage.value);
        var updated := MatchedCount(s.keys, s.working.value, s.stage.value);
        facts := Merged(TransactionalMerge, updated, |s.stage.value| - updated);
        contents := MergeInto(s.keys, s.working.value, s.stage.value);
      }
      Close();
      if fault.Commits() {
        table := Some(contents);
      }
      return if fault.CommitAcknowledged? then Success(facts) else Failure(failure);
    }

    /**
     * Drives a fresh session as the serial write phase does. A full refresh or a merge leaves all of it or
     * nothing; an append leaves and reports the chunks before the first that fails, and one more, unreported,
     * when that one lost only its reply. No session opens to append or merge into a missing table.
     */
    method Drive(chunks: seq<seq<Row<Cell>>>, sourceFailure: Option<Code>, faults: nat -> WriteFault,
      rollbackReaches: nat -> bool, fault: CommitFault) returns (delivery: Delivery)
      requires State().Valid() && State() == BeginSql(mode, keys, table) && chunks != []
      modifies this
      ensures mode.FullRefresh? ==>
        SqlRefreshEnds(old(table), State(), delivery, Flatten(chunks), sourceFailure.None? && AllAccepted(chunks, faults), fault)
      ensures mode.Merge? && old(table).Some? ==>
        && (AllSent(keys, chunks, faults, 0) ==> Rows(keys, Flatten(chunks)))
        && SqlMergeEnds(keys, old(table).value, State(), delivery, Flatten(chunks),
             sourceFailure.None? && !faults(0).PrepareFails? && AllSent(keys, chunks, faults, 0), fault)
      ensures mode.Append? && old(table).Some? ==>
        var n := SqlPrefix(false, chunks, faults, 0);
        SqlAppendEnds(old(State()), State(), delivery, chunks, n, Uncounted(chunks, faults, 0, n), sourceFailure.None?)
    {
      ghost var start: OpenSql<Cell> := State();
      if mode.FullRefresh? {
        SqlRefreshIsAtomic(keys, table, chunks, sourceFailure, faults, rollbackReaches, fault);
      } else if mode.Merge? && table.Some? {
        SqlMergeIsAtomic(keys, table.value, chunks, sourceFailure, faults, rollbackReaches, fault);
      } else if table.Some? {
        SqlAppendKeepsThePrefix(start, chunks, 0, sourceFailure, faults, rollbackReaches, fault);
      }
      delivery := DriveSerially(chunks, sourceFailure, faults, rollbackReaches, fault);
    }

    /** The serial write phase over this session ends as the same phase over its state does. */
    method DriveSerially(chunks: seq<seq<Row<Cell>>>, sourceFailure: Option<Code>, faults: nat -> WriteFault,
      rollbackReaches: nat -> bool, fault: CommitFault) returns (delivery: Delivery)
      requires State().Valid()
      modifies this
      ensures (State(), delivery) ==
        Deliver(SqlWriter(faults, rollbackReaches, fault), old(State()), chunks, 0, sourceFailure)
    {
      ghost var w := SqlWriter<Cell>(faults, rollbackReaches, fault);
      ghost var start: OpenSql<Cell> := State();
      assert chunks[0..] == chunks;
      for i := 0 to |chunks|
        invariant State().Valid()
        invariant Deliver(w, State(), chunks[i..], i, sourceFailure) == Deliver(w, start, chunks, 0, sourceFailure)
      {
        DeliverStep(w, State(), chunks, i, sourceFailure);
        ghost var before: OpenSql<Cell> := State();
        var failure := WriteChunk(chunks[i], faults(i), rollbackReaches(i));
        assert (State(), failure) == w.write(before, i, chunks[i]);
        if failure.Some? {
          Close();
          return Failed(failure.value);
        }
      }
      if sourceFailure.Some? {
        Close();
        var abandoned := AppendAbandoned(BulkInsert, committedChunks, writtenRecords);
        return Failed(SessionFailure(
          sourceFailure.value, abandoned.facts, abandoned.writtenRecords, abandoned.committedChunks));
      }
      var committed := Commit(fault);
      if committed.Failure? {
        Close();
        return Failed(committed.error);
      }
      return Committed(committed.value, |chunks|);
    }
  }
}
