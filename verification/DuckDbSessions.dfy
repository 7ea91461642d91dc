/**
 * The DuckDB write sessions. Each operation is a function on the session's state, with the outcome of its
 * statements as a parameter; the writers that update that state in place are proved against it.
 */
module DuckDbSessions {
  import opened Wrappers
  import opened Failures
  import opened Sequences
  import opened Chunks
  import opened Sessions
  import opened Upserts

  // ----- Full refresh -----

  /** The committed table (None before it exists), its state inside the open transaction, and the counters. */
  datatype Refresh<R> = Refresh(
    table: Option<seq<R>>, working: Option<seq<R>>, writtenChunks: nat, writtenRecords: nat)
  {
    function RolledBack(): Refresh<R> {
      this.(working := table)
    }
  }

  function BeginRefresh<R>(table: Option<seq<R>>): Refresh<R> {
    Refresh(table, table, 0, 0)
  }

  /** The first chunk replaces the table inside the transaction; the others extend it. */
  function RefreshWrite<R>(s: Refresh<R>, rows: seq<R>, executes: bool): (Refresh<R>, Option<SessionFailure>) {
    if !executes then (s, Some(NothingCommitted(DestinationWriteFailed, Atomic(TransactionalReplace))))
    else
      var contents := if s.writtenChunks == 0 then rows else s.working.OrElse([]) + rows;
      (Refresh(s.table, Some(contents), s.writtenChunks + 1, s.writtenRecords + |rows|), None)
  }

  function RefreshCommit<R>(s: Refresh<R>, commits: bool, closes: bool): (Refresh<R>, Result<Facts, SessionFailure>) {
    if !commits then (s.RolledBack(), Failure(NothingCommitted(DestinationWriteFailed, Atomic(TransactionalReplace))))
    else
      (s.(table := s.working),
       if closes then Success(Atomic(TransactionalReplace))
       else Failure(SessionFailure(
         DestinationWriteFailed, Atomic(TransactionalReplace), s.writtenRecords, s.writtenChunks)))
  }

  function RefreshAbandon<R>(s: Refresh<R>): (Refresh<R>, AbandonedWrite) {
    (s.RolledBack(), AbandonedWrite(0, 0, NotApplicable))
  }

  /** A writer whose write `i` executes exactly when `executes(i)` holds. */
  function RefreshWriter<R>(executes: nat -> bool, commits: bool, closes: bool): Writer<Refresh<R>, R> {
    Writer(
      (s: Refresh<R>, i, rows) => RefreshWrite(s, rows, executes(i)),
      (s: Refresh<R>) => RefreshCommit(s, commits, closes),
      (s: Refresh<R>) => RefreshAbandon(s),
      (s: Refresh<R>) => s.RolledBack())
  }

  predicate AllExecute(executes: nat -> bool, first: nat, count: nat) {
    forall i: nat :: first <= i < first + count ==> executes(i)
  }

  /** What a full refresh reports and leaves, from a session that has already written `before`. */
  ghost predicate RefreshEnds<R>(s: Refresh<R>, s': Refresh<R>, delivery: Delivery, before: seq<R>, chunks: seq<seq<R>>,
    reached: bool, commits: bool, closes: bool)
  {
    && (if reached && commits then s'.table == Some(before + Flatten(chunks)) else s'.table == s.table)
    && (delivery.Committed? <==> reached && commits && closes)
    && (delivery.Failed? ==>
          && delivery.failure.committedChunks == (if reached && commits then s.writtenChunks + |chunks| else 0)
          && delivery.failure.writtenRecords == (if reached && commits then |before + Flatten(chunks)| else 0))
  }

  lemma {:induction false} RefreshEndsAtomically<R>(s: Refresh<R>, before: seq<R>, chunks: seq<seq<R>>,
    sourceFailure: Option<Code>, executes: nat -> bool, commits: bool, closes: bool)
    requires s.writtenChunks > 0 || chunks != []
    requires if s.writtenChunks > 0 then s.working == Some(before) else before == []
    requires s.writtenRecords == |before|
    ensures var (s', delivery) :=
        Deliver(RefreshWriter(executes, commits, closes), s, chunks, s.writtenChunks, sourceFailure);
      RefreshEnds(s, s', delivery, before, chunks,
        sourceFailure.None? && AllExecute(executes, s.writtenChunks, |chunks|), commits, closes)
    decreases |chunks|
  {
    var w := RefreshWriter<R>(executes, commits, closes);
    if chunks == [] {
      assert before + Flatten<R>([]) == before;
    } else if executes(s.writtenChunks) {
      var next := RefreshWrite(s, chunks[0], true).0;
      assert s.writtenChunks == 0 ==> before + chunks[0] == chunks[0];
      RefreshEndsAtomically(next, before + chunks[0], chunks[1..], sourceFailure, executes, commits, closes);
      ConcatAssociates(before, chunks[0], Flatten(chunks[1..]));
      assert AllExecute(executes, s.writtenChunks, |chunks|) <==> AllExecute(executes, s.writtenChunks + 1, |chunks| - 1);
    }
  }

  /**
   * A DuckDB full refresh over at least one chunk: the table becomes exactly the chunks' rows when the source
   * ends, every write executes and COMMIT happens, and is untouched otherwise; a failure reports what the
   * table then holds of this load, also when only the close after COMMIT failed.
   */
  lemma RefreshIsAtomic<R>(table: Option<seq<R>>, chunks: seq<seq<R>>, sourceFailure: Option<Code>,
    executes: nat -> bool, commits: bool, closes: bool)
    requires chunks != []
    ensures var (s', delivery) :=
        Deliver(RefreshWriter(executes, commits, closes), BeginRefresh(table), chunks, 0, sourceFailure);
      RefreshEnds(BeginRefresh(table), s', delivery, [], chunks,
        sourceFailure.None? && AllExecute(executes, 0, |chunks|), commits, closes)
  {
    RefreshEndsAtomically(BeginRefresh(table), [], chunks, sourceFailure, executes, commits, closes);
  }

  /** What a write changes and keeps determines it. */
  lemma RefreshWriteByParts<R>(s: Refresh<R>, s': Refresh<R>, rows: seq<R>, executes: bool)
    requires !executes ==> s' == s
    requires executes ==>
      && s'.working == Some(if s.writtenChunks == 0 then rows else s.working.OrElse([]) + rows) && s'.table == s.table
      && s'.writtenChunks == s.writtenChunks + 1 && s'.writtenRecords == s.writtenRecords + |rows|
    ensures s' == RefreshWrite(s, rows, executes).0
  {
  }

  /** The writer with its counters behind the session lock. */
  class DuckDbFullRefreshWriter<R> {
    var table: Option<seq<R>>
    var working: Option<seq<R>>
    var writtenChunks: nat
    var writtenRecords: nat

    function State(): Refresh<R>
      reads this
    {
      Refresh(table, working, writtenChunks, writtenRecords)
    }

    constructor (table: Option<seq<R>>)
      ensures State() == BeginRefresh(table)
    {
      this.table, working := table, table;
      writtenChunks, writtenRecords := 0, 0;
    }

    /** Takes a chunk into the open transaction and counts it, or changes nothing; the table stays either way. */
    method WriteChunk(rows: seq<R>, executes: bool) returns (failure: Option<SessionFailure>)
      modifies this`working, this`writtenChunks, this`writtenRecords
      ensures failure ==
        if executes then None else Some(NothingCommitted(DestinationWriteFailed, Atomic(TransactionalReplace)))
      ensures failure.Some? ==> State() == old(State())
      ensures failure.None? ==>
        && working == Some(if old(writtenChunks) == 0 then rows else old(working).OrElse([]) + rows)
        && writtenChunks == old(writtenChunks) + 1 && writtenRecords == old(writtenRecords) + |rows|
    {
      if !executes {
        return Some(NothingCommitted(DestinationWriteFailed, Atomic(TransactionalReplace)));
      }
      if writtenChunks == 0 {
        working := Some(rows);
      } else {
        working := Some(working.OrElse([]) + rows);
      }
      writtenChunks := writtenChunks + 1;
      writtenRecords := writtenRecords + |rows|;
      return None;
    }

    /** Publishes the transaction when COMMIT happens, else loses it; a failure reports what the table then holds. */
    method Commit(commits: bool, closes: bool) returns (r: Result<Facts, SessionFailure>)
      modifies this`table, this`working
      ensures table == (if commits then old(working) else old(table)) && working == table
      ensures r.Success? <==> commits && closes
      ensures r.Success? ==> r.value == Atomic(TransactionalReplace)
      ensures r.Failure? ==>
        r.error == SessionFailure(DestinationWriteFailed, Atomic(TransactionalReplace),
                                  if commits then writtenRecords else 0, if commits then writtenChunks else 0)
    {
      if !commits {
        working := table;
        return Failure(NothingCommitted(DestinationWriteFailed, Atomic(TransactionalReplace)));
      }
      table := working;
      if !closes {
        return Failure(SessionFailure(
          DestinationWriteFailed, Atomic(TransactionalReplace), writtenRecords, writtenChunks));
      }
      return Success(Atomic(TransactionalReplace));
    }

    /** The transaction is lost, by ROLLBACK or with its connection; the table and the counters stay. */
    method RollBack()
      modifies this`working
      ensures State() == old(State()).RolledBack()
    {
      working := table;
    }

    /**
     * Drives a fresh session as the serial write phase does: every chunk in order, then the commit; a failed
     * write drops the session, and a failed source abandons it. The table becomes exactly the chunks' rows or
     * stays, and a failure reports what it then holds of this load.
     */
    method Drive(chunks: seq<seq<R>>, sourceFailure: Option<Code>, executes: nat -> bool, commits: bool, closes: bool)
      returns (delivery: Delivery)
      requires chunks != [] && State() == BeginRefresh(table)
      modifies this
      ensures RefreshEnds(old(State()), State(), delivery, [], chunks,
        sourceFailure.None? && AllExecute(executes, 0, |chunks|), commits, closes)
    {
      RefreshIsAtomic(table, chunks, sourceFailure, executes, commits, closes);
      delivery := DriveSerially(chunks, sourceFailure, executes, commits, closes);
    }

    /** The serial write phase over this session ends as the same phase over its state does. */
    method DriveSerially(chunks: seq<seq<R>>, sourceFailure: Option<Code>, executes: nat -> bool, commits: bool,
      closes: bool) returns (delivery: Delivery)
      modifies this
      ensures (State(), delivery)
           == Deliver(RefreshWriter(executes, commits, closes), old(State()), chunks, 0, sourceFailure)
    {
      ghost var w := RefreshWriter<R>(executes, commits, closes);
      ghost var end := Deliver(w, State(), chunks, 0, sourceFailure);
      assert chunks[0..] == chunks;
      for i := 0 to |chunks|
        invariant Deliver(w, State(), chunks[i..], i, sourceFailure) == end
      {
        DeliverStep(w, State(), chunks, i, sourceFailure);
        ghost var before := State();
        var failure := WriteChunk(chunks[i], executes(i));
        RefreshWriteByParts(before, State(), chunks[i], executes(i));
        if failure.Some? {
          RollBack();
          return Failed(failure.value);
        }
      }
      assert chunks[|chunks|..] == [];
      if sourceFailure.Some? {
        RollBack();
        return Failed(NothingCommitted(sourceFailure.value, NotApplicable));
      }
      ghost var before := State();
      var committed := Commit(commits, closes);
      assert (State(), committed) == w.commit(before);
      if committed.Failure? {
        RollBack();
        return Failed(committed.error);
      }
      return Committed(committed.value, |chunks|);
    }
  }

  // ----- Append -----

  /** How one append write goes: the chunk does not align with the table, its INSERT fails, or it commits. */
  datatype InsertOutcome = Misaligned | InsertFails | Inserts

  /** The table with every committed INSERT, and the counters. */
  datatype Append<R> = Append(table: seq<R>, committedChunks: nat, writtenRecords: nat)

  function AppendWrite<R>(s: Append<R>, rows: seq<R>, outcome: InsertOutcome): (Append<R>, Option<SessionFailure>) {
    match outcome
    case Inserts => (Append(s.table + rows, s.committedChunks + 1, s.writtenRecords + |rows|), None)
    case Misaligned =>
      (s, Some(if s.committedChunks > 0
               then SessionFailure(DestinationWriteFailed, BestEffort(Insert), s.writtenRecords, s.committedChunks)
               else NothingCommitted(DestinationWriteFailed, NotApplicable)))
    case InsertFails =>
      (s, Some(SessionFailure(DestinationWriteFailed, BestEffort(Insert), s.writtenRecords, s.committedChunks)))
  }

  function AppendCommit<R>(s: Append<R>, closes: bool): (Append<R>, Result<Facts, SessionFailure>) {
    (s, if closes then Success(BestEffort(Insert))
        else Failure(SessionFailure(DestinationWriteFailed, BestEffort(Insert), s.writtenRecords, s.committedChunks)))
  }

  function AppendWriter<R>(outcomes: nat -> InsertOutcome, closes: bool): Writer<Append<R>, R> {
    Writer(
      (s: Append<R>, i, rows) => AppendWrite(s, rows, outcomes(i)),
      (s: Append<R>) => AppendCommit(s, closes),
      (s: Append<R>) => (s, AppendAbandoned(Insert, s.committedChunks, s.writtenRecords)),
      (s: Append<R>) => s)
  }

  /** One append write of any caller, in whatever order concurrent slots reach the session. */
  datatype InsertCall<R> = InsertCall(rows: seq<R>, outcome: InsertOutcome)

  function AppendAll<R>(s: Append<R>, calls: seq<InsertCall<R>>): Append<R>
    decreases calls
  {
    if calls == [] then s else AppendAll(AppendWrite(s, calls[0].rows, calls[0].outcome).0, calls[1..])
  }

  /** The chunks of the calls that committed. */
  function CommittedChunks<R>(calls: seq<InsertCall<R>>): seq<seq<R>> {
    if calls == [] then []
    else (if calls[0].outcome.Inserts? then [calls[0].rows] else []) + CommittedChunks(calls[1..])
  }

  lemma FlattenCons<R>(first: seq<R>, rest: seq<seq<R>>)
    ensures Flatten([first] + rest) == first + Flatten(rest)
  {
    assert ([first] + rest)[1..] == rest;
  }

  /** However writes interleave, the table holds exactly the committed chunks, and the counters count them. */
  lemma {:induction false} AppendHoldsCommitted<R>(s: Append<R>, calls: seq<InsertCall<R>>)
    ensures var s', chunks := AppendAll(s, calls), CommittedChunks(calls);
      && s'.table == s.table + Flatten(chunks)
      && s'.committedChunks == s.committedChunks + |chunks|
      && s'.writtenRecords == s.writtenRecords + |Flatten(chunks)|
    decreases calls
  {
    if calls == [] {
      assert s.table + Flatten<R>([]) == s.table;
    } else {
      AppendHoldsCommitted(AppendWrite(s, calls[0].rows, calls[0].outcome).0, calls[1..]);
      var rest := CommittedChunks(calls[1..]);
      if calls[0].outcome.Inserts? {
        FlattenCons(calls[0].rows, rest);
        ConcatAssociates(s.table, calls[0].rows, Flatten(rest));
      } else {
        assert CommittedChunks(calls) == rest;
      }
    }
  }

  /** How many leading chunks commit. */
  function Prefix(outcomes: nat -> InsertOutcome, first: nat, count: nat): (n: nat)
    ensures n <= count
    decreases count
  {
    if count == 0 || !outcomes(first).Inserts? then 0 else 1 + Prefix(outcomes, first + 1, count - 1)
  }

  /** The table gained the first `n` chunks, and a failure reports exactly those and all before them. */
  ghost predicate AppendEnds<R>(
    s: Append<R>, s': Append<R>, delivery: Delivery, chunks: seq<seq<R>>, n: nat, ended: bool, closes: bool)
    requires n <= |chunks|
  {
    && s'.table == s.table + Flatten(chunks[..n])
    && (delivery.Committed? <==> n == |chunks| && ended && closes)
    && (delivery.Failed? ==>
          && delivery.failure.committedChunks == s.committedChunks + n
          && delivery.failure.writtenRecords == s.writtenRecords + |Flatten(chunks[..n])|)
  }

  /** A serial append keeps exactly the chunks before the first that fails, and reports exactly those. */
  lemma {:induction false} AppendKeepsThePrefix<R>(
    s: Append<R>, chunks: seq<seq<R>>, sourceFailure: Option<Code>, outcomes: nat -> InsertOutcome, closes: bool)
    requires s.committedChunks == 0 ==> s.writtenRecords == 0
    ensures var (s', delivery) := Deliver(AppendWriter(outcomes, closes), s, chunks, s.committedChunks, sourceFailure);
      AppendEnds(s, s', delivery, chunks, Prefix(outcomes, s.committedChunks, |chunks|), sourceFailure.None?, closes)
    decreases |chunks|
  {
    var n := Prefix(outcomes, s.committedChunks, |chunks|);
    if n == 0 {
      assert chunks[..0] == [];
      assert s.table + Flatten<R>([]) == s.table;
    } else {
      var next := AppendWrite(s, chunks[0], Inserts).0;
      AppendKeepsThePrefix(next, chunks[1..], sourceFailure, outcomes, closes);
      assert chunks[..n] == [chunks[0]] + chunks[1..][..n - 1];
      FlattenCons(chunks[0], chunks[1..][..n - 1]);
      ConcatAssociates(s.table, chunks[0], Flatten(chunks[1..][..n - 1]));
    }
  }

  /**
   * What a failed append reports besides its counts. A write that fails is best effort, unless it is the
   * first chunk and does not align; a source failure keeps its code and is best effort once a chunk committed.
   */
  lemma {:induction false} AppendLabels<R>(
    s: Append<R>, chunks: seq<seq<R>>, sourceFailure: Option<Code>, outcomes: nat -> InsertOutcome, closes: bool)
    ensures var delivery := Deliver(AppendWriter(outcomes, closes), s, chunks, s.committedChunks, sourceFailure).1;
      var n := Prefix(outcomes, s.committedChunks, |chunks|);
      var committed := s.committedChunks + n;
      && (delivery.Committed? ==> delivery.facts == BestEffort(Insert) && delivery.chunks == committed)
      && (delivery.Failed? ==>
            if n < |chunks| then
              && delivery.failure.code == DestinationWriteFailed
              && delivery.failure.facts ==
                 if committed == 0 && outcomes(committed).Misaligned? then NotApplicable else BestEffort(Insert)
            else if sourceFailure.Some? then
              && delivery.failure.code == sourceFailure.value
              && delivery.failure.facts == if committed > 0 then BestEffort(Insert) else NotApplicable
            else delivery.failure.code == DestinationWriteFailed && delivery.failure.facts == BestEffort(Insert))
    decreases |chunks|
  {
    if Prefix(outcomes, s.committedChunks, |chunks|) > 0 {
      AppendLabels(AppendWrite(s, chunks[0], Inserts).0, chunks[1..], sourceFailure, outcomes, closes);
    }
  }

  class DuckDbAppendWriter<R> {
    var table: seq<R>
    var committedChunks: nat
    var writtenRecords: nat

    function State(): Append<R>
      reads this
    {
      Append(table, committedChunks, writtenRecords)
    }

    constructor (table: seq<R>)
      ensures State() == Append(table, 0, 0)
    {
      this.table, committedChunks, writtenRecords := table, 0, 0;
    }

    /** Commits a chunk by itself and counts it, or changes nothing and reports what is committed by then. */
    method WriteChunk(rows: seq<R>, outcome: InsertOutcome) returns (failure: Option<SessionFailure>)
      modifies this
      ensures failure.Some? <==> outcome != Inserts
      ensures failure.Some? ==> State() == old(State()) && failure.value.code == DestinationWriteFailed
      ensures failure.Some? && (committedChunks > 0 || writtenRecords == 0) ==>
        failure.value.committedChunks == committedChunks && failure.value.writtenRecords == writtenRecords
      ensures failure.Some? ==>
        failure.value.facts == (if outcome == Misaligned && committedChunks == 0 then NotApplicable else BestEffort(Insert))
      ensures failure.None? ==>
        && table == old(table) + rows
        && committedChunks == old(committedChunks) + 1 && writtenRecords == old(writtenRecords) + |rows|
    {
      if outcome == Misaligned && committedChunks == 0 {
        return Some(NothingCommitted(DestinationWriteFailed, NotApplicable));
      }
      if outcome != Inserts {
        return Some(SessionFailure(DestinationWriteFailed, BestEffort(Insert), writtenRecords, committedChunks));
      }
      table := table + rows;
      committedChunks := committedChunks + 1;
      writtenRecords := writtenRecords + |rows|;
      return None;
    }

    /**
     * Drives a session as the serial write phase does. The table gains exactly the chunks before the first
     * that fails, and a failure reports exactly those.
     */
    method Drive(chunks: seq<seq<R>>, sourceFailure: Option<Code>, outcomes: nat -> InsertOutcome, closes: bool)
      returns (delivery: Delivery)
      requires committedChunks == 0 && writtenRecords == 0
      modifies this
      ensures AppendEnds(old(State()), State(), delivery, chunks, Prefix(outcomes, 0, |chunks|), sourceFailure.None?, closes)
    {
      ghost var w, start := AppendWriter<R>(outcomes, closes), State();
      AppendKeepsThePrefix(start, chunks, sourceFailure, outcomes, closes);
      assert chunks[0..] == chunks;
      for i := 0 to |chunks|
        invariant committedChunks == i && (i == 0 ==> writtenRecords == 0)
        invariant Deliver(w, State(), chunks[i..], i, sourceFailure) == Deliver(w, start, chunks, 0, sourceFailure)
      {
        DeliverStep(w, State(), chunks, i, sourceFailure);
        ghost var before := State();
        var failure := WriteChunk(chunks[i], outcomes(i));
        assert (State(), failure) == w.write(before, i, chunks[i]);
        if failure.Some? {
          return Failed(failure.value);
        }
      }
      if sourceFailure.Some? {
        var abandoned := AppendAbandoned(Insert, committedChunks, writtenRecords);
        return Failed(SessionFailure(
          sourceFailure.value, abandoned.facts, abandoned.writtenRecords, abandoned.committedChunks));
      }
      if !closes {
        return Failed(SessionFailure(DestinationWriteFailed, BestEffort(Insert), writtenRecords, committedChunks));
      }
      return Committed(BestEffort(Insert), |chunks|);
    }
  }

  // ----- Merge -----

  /** The committed target, the temporary stage inside the open transaction, and the counters. */
  datatype MergeSession<Cell> = MergeSession(
    keys: Keys, table: seq<Row<Cell>>, stage: seq<Row<Cell>>, stagedChunks: nat, stagedRecords: nat)
  {
    ghost predicate Valid() {
      keys.Valid() && Rows(keys, table) && Rows(keys, stage) && stagedRecords == |stage|
    }
  }

  /** A merge session as its writer keeps it. */
  type OpenMerge<Cell> = s: MergeSession<Cell> | s.Valid() witness MergeSession(Keys(0, []), [], [], 0, 0)

  /** Which statement of a merge's end fails, if any. */
  datatype MergeOutcome = GateFails | CountFails | MergeFails | CommitFails | CloseFails | Completes

  function BeginMerge<Cell>(keys: Keys, table: seq<Row<Cell>>): MergeSession<Cell> {
    MergeSession(keys, table, [], 0, 0)
  }

  function MergeFailure(code: Code): SessionFailure {
    NothingCommitted(code, Atomic(TransactionalMerge))
  }

  /** A chunk is staged when it aligns with the target's columns and its INSERT executes. */
  function MergeWrite<Cell>(s: OpenMerge<Cell>, rows: seq<Row<Cell>>, stages: bool)
    : (OpenMerge<Cell>, Option<SessionFailure>)
  {
    if !Rows(s.keys, rows) || !stages then (s, Some(MergeFailure(DestinationWriteFailed)))
    else
      (s.(stage := s.stage + rows, stagedChunks := s.stagedChunks + 1, stagedRecords := s.stagedRecords + |rows|), None)
  }

  /** The gate, the matched count, the one MERGE, COMMIT and the close; only COMMIT makes anything visible. */
  function MergeCommit<Cell(==, !new)>(s: OpenMerge<Cell>, outcome: MergeOutcome)
    : (OpenMerge<Cell>, Result<Facts, SessionFailure>)
  {
    if outcome.GateFails? then (s, Failure(MergeFailure(DestinationWriteFailed)))
    else if CollidingCount(s.keys, s.stage, |s.stage|) > 0 then (s, Failure(MergeFailure(DuplicateMergeKeys)))
    else if outcome.CountFails? || outcome.MergeFails? || outcome.CommitFails? then
      (s, Failure(MergeFailure(DestinationWriteFailed)))
    else
      CountsPartitionTheStage(s.keys, s.table, s.stage);
      var updated := MatchedCount(s.keys, s.table, s.stage);
      (s.(table := MergeInto(s.keys, s.table, s.stage)),
       if outcome.CloseFails? then
         Failure(SessionFailure(DestinationWriteFailed, Atomic(TransactionalMerge), s.stagedRecords, s.stagedChunks))
       else Success(Merged(TransactionalMerge, updated, s.stagedRecords - updated)))
  }

  predicate MergeCommits(outcome: MergeOutcome) {
    outcome.CloseFails? || outcome.Completes?
  }

  /**
   * A DuckDB merge's end: the target takes the upsert of the stage exactly when the staged keys are distinct
   * and COMMIT happens, and is untouched otherwise; a success partitions the staged records into updated
   * and inserted, and a failure reports what the target then holds of this load.
   */
  lemma MergeIsAtomicUpsert<Cell(!new)>(s: OpenMerge<Cell>, outcome: MergeOutcome)
    ensures var (s', r) := MergeCommit(s, outcome);
      var committed := DistinctKeys(s.keys, s.stage) && MergeCommits(outcome);
      && s'.table == (if committed then MergeInto(s.keys, s.table, s.stage) else s.table)
      && (r.Success? <==> committed && outcome.Completes?)
      && (r.Success? ==>
            && r.value.Merged? && r.value.updated == MatchedCount(s.keys, s.table, s.stage)
            && r.value.updated + r.value.inserted == |s.stage|
            && |s'.table| == |s.table| + r.value.inserted)
      && (r.Failure? ==>
            && r.error.writtenRecords == (if committed then |s.stage| else 0)
            && r.error.committedChunks == (if committed then s.stagedChunks else 0))
      && (!DistinctKeys(s.keys, s.stage) && !outcome.GateFails? ==> r == Failure(MergeFailure(DuplicateMergeKeys)))
  {
    GateIsExact(s.keys, s.stage);
    CountsPartitionTheStage(s.keys, s.table, s.stage);
  }

  function MergeWriter<Cell(==, !new)>(stages: nat -> bool, outcome: MergeOutcome): Writer<OpenMerge<Cell>, Row<Cell>> {
    Writer(
      (s: OpenMerge<Cell>, i: nat, rows: seq<Row<Cell>>) => MergeWrite(s, rows, stages(i)),
      (s: OpenMerge<Cell>) => MergeCommit(s, outcome),
      (s: OpenMerge<Cell>) => (s, AbandonedWrite(0, 0, NotApplicable)),
      (s: OpenMerge<Cell>) => s)
  }

  /** Every chunk aligns and is staged. */
  predicate AllStaged<Cell>(keys: Keys, chunks: seq<seq<Row<Cell>>>, stages: nat -> bool, first: nat)
    decreases chunks
  {
    chunks == [] || (Rows(keys, chunks[0]) && stages(first) && AllStaged(keys, chunks[1..], stages, first + 1))
  }

  lemma {:induction false} StagedRowsAligned<Cell>(keys: Keys, chunks: seq<seq<Row<Cell>>>, stages: nat -> bool, first: nat)
    requires AllStaged(keys, chunks, stages, first)
    ensures Rows(keys, Flatten(chunks))
    decreases chunks
  {
    if chunks != [] {
      StagedRowsAligned(keys, chunks[1..], stages, first + 1);
    }
  }

  /** What a merge phase reports and leaves: the upsert of everything staged, or the target untouched. */
  ghost predicate MergeEnds<Cell(!new)>(s: OpenMerge<Cell>, s': OpenMerge<Cell>, delivery: Delivery,
    chunks: seq<seq<Row<Cell>>>, reached: bool, outcome: MergeOutcome)
    requires reached ==> Rows(s.keys, Flatten(chunks))
  {
    var staged := s.stage + Flatten(chunks);
    var committed := reached && DistinctKeys(s.keys, staged) && MergeCommits(outcome);
    && s'.table == (if committed then MergeInto(s.keys, s.table, staged) else s.table)
    && (delivery.Committed? <==> committed && outcome.Completes?)
    && (delivery.Committed? ==>
          && delivery.facts.Merged? && delivery.facts.updated == MatchedCount(s.keys, s.table, staged)
          && delivery.facts.updated + delivery.facts.inserted == |staged|)
    && (delivery.Failed? ==>
          && delivery.failure.writtenRecords == (if committed then |staged| else 0)
          && delivery.failure.committedChunks == (if committed then s.stagedChunks + |chunks| else 0))
  }

  lemma RefusedChunkEnds<Cell(!new)>(s: OpenMerge<Cell>, chunks: seq<seq<Row<Cell>>>,
    sourceFailure: Option<Code>, stages: nat -> bool, outcome: MergeOutcome)
    requires chunks != [] && !(Rows(s.keys, chunks[0]) && stages(s.stagedChunks))
    ensures Deliver(MergeWriter(stages, outcome), s, chunks, s.stagedChunks, sourceFailure)
         == (s, Failed(MergeFailure(DestinationWriteFailed)))
  {
    var w := MergeWriter<Cell>(stages, outcome);
    assert w.write(s, s.stagedChunks, chunks[0]) == (s, Some(MergeFailure(DestinationWriteFailed)));
    assert w.drop(s) == s;
  }

  /** The whole serial phase of a merge session. */
  lemma {:induction false} MergePhaseIsAtomic<Cell(!new)>(s: OpenMerge<Cell>, chunks: seq<seq<Row<Cell>>>,
    sourceFailure: Option<Code>, stages: nat -> bool, outcome: MergeOutcome)
    ensures AllStaged(s.keys, chunks, stages, s.stagedChunks) ==> Rows(s.keys, Flatten(chunks))
    ensures var (s', delivery) := Deliver(MergeWriter(stages, outcome), s, chunks, s.stagedChunks, sourceFailure);
      MergeEnds(s, s', delivery, chunks,
        sourceFailure.None? && AllStaged(s.keys, chunks, stages, s.stagedChunks), outcome)
    decreases |chunks|
  {
    if AllStaged(s.keys, chunks, stages, s.stagedChunks) {
      StagedRowsAligned(s.keys, chunks, stages, s.stagedChunks);
    }
    if chunks == [] {
      assert s.stage + Flatten<Row<Cell>>([]) == s.stage;
      MergeIsAtomicUpsert(s, outcome);
    } else if Rows(s.keys, chunks[0]) && stages(s.stagedChunks) {
      var next: OpenMerge<Cell> := MergeWrite(s, chunks[0], true).0;
      MergePhaseIsAtomic(next, chunks[1..], sourceFailure, stages, outcome);
      ConcatAssociates(s.stage, chunks[0], Flatten(chunks[1..]));
    } else {
      RefusedChunkEnds(s, chunks, sourceFailure, stages, outcome);
    }
  }

  class DuckDbMergeWriter<Cell(==, !new)> {
    const keys: Keys
    var table: seq<Row<Cell>>
    var stage: seq<Row<Cell>>
    var stagedChunks: nat
    var stagedRecords: nat

    function State(): MergeSession<Cell>
      reads this
    {
      MergeSession(keys, table, stage, stagedChunks, stagedRecords)
    }

    constructor (keys: Keys, table: seq<Row<Cell>>)
      requires keys.Valid() && Rows(keys, table)
      ensures State() == BeginMerge(keys, table) && State().Valid()
    {
      this.keys, this.table := keys, table;
      stage, stagedChunks, stagedRecords := [], 0, 0;
    }

    /** Stages an aligned chunk and counts it, or changes nothing; the target stays either way. */
    method WriteChunk(rows: seq<Row<Cell>>, stages: bool) returns (failure: Option<SessionFailure>)
      requires State().Valid()
      modifies this`stage, this`stagedChunks, this`stagedRecords
      ensures State().Valid()
      ensures failure == if Rows(keys, rows) && stages then None else Some(MergeFailure(DestinationWriteFailed))
      ensures failure.Some? ==> State() == old(State())
      ensures failure.None? ==> stage == old(stage) + rows && stagedChunks == old(stagedChunks) + 1
    {
      if !Rows(keys, rows) || !stages {
        return Some(MergeFailure(DestinationWriteFailed));
      }
      stage := stage + rows;
      stagedChunks := stagedChunks + 1;
      stagedRecords := stagedRecords + |rows|;
      return None;
    }

    /** The gate, the matched count, the one MERGE, COMMIT and the close; everything but the target stays. */
    method Commit(outcome: MergeOutcome) returns (r: Result<Facts, SessionFailure>)
      requires State().Valid()
      modifies this`table
      ensures State() == MergeCommit(old(State()), outcome).0
      ensures r == MergeCommit(old(State()), outcome).1
      ensures !MergeCommits(outcome) || !DistinctKeys(keys, stage) ==> table == old(table) && r.Failure?
    {
      var s := State();
      GateIsExact(s.keys, s.stage);
      if outcome.GateFails? {
        return Failure(MergeFailure(DestinationWriteFailed));
      }
      var colliding := CollidingCount(s.keys, s.stage, |s.stage|);
      if colliding > 0 {
        return Failure(MergeFailure(DuplicateMergeKeys));
      }
      if outcome.CountFails? {
        return Failure(MergeFailure(DestinationWriteFailed));
      }
      CountsPartitionTheStage(s.keys, s.table, s.stage);
      var updated := MatchedCount(s.keys, s.table, s.stage);
      var inserted: nat := s.stagedRecords - updated;
      if outcome.MergeFails? || outcome.CommitFails? {
        return Failure(MergeFailure(DestinationWriteFailed));
      }
      r := if outcome.CloseFails? then
        Failure(SessionFailure(DestinationWriteFailed, Atomic(TransactionalMerge), s.stagedRecords, s.stagedChunks))
      else Success(Merged(TransactionalMerge, updated, inserted));
      table := MergeInto(s.keys, s.table, s.stage);
    }

    /**
     * Drives a fresh session as the serial write phase does. The target takes the upsert of all chunks or
     * stays, and the counts it reports are exact.
     */
    method Drive(chunks: seq<seq<Row<Cell>>>, sourceFailure: Option<Code>, stages: nat -> bool, outcome: MergeOutcome)
      returns (delivery: Delivery)
      requires State().Valid() && State() == BeginMerge(keys, table)
      modifies this
      ensures State().Valid() && (AllStaged(keys, chunks, stages, 0) ==> Rows(keys, Flatten(chunks)))
      ensures MergeEnds(old(State()), State(), delivery, chunks,
        sourceFailure.None? && AllStaged(keys, chunks, stages, 0), outcome)
    {
      ghost var w := MergeWriter<Cell>(stages, outcome);
      ghost var start: OpenMerge<Cell> := State();
      MergePhaseIsAtomic(start, chunks, sourceFailure, stages, outcome);
      assert chunks[0..] == chunks;
      for i := 0 to |chunks|
        invariant State().Valid()
        invariant Deliver(w, State(), chunks[i..], i, sourceFailure) == Deliver(w, start, chunks, 0, sourceFailure)
      {
        DeliverStep(w, State(), chunks, i, sourceFailure);
        ghost var before: OpenMerge<Cell> := State();
        var failure := WriteChunk(chunks[i], stages(i));
        assert (State(), failure) == w.write(before, i, chunks[i]);
        if failure.Some? {
          return Failed(failure.value);
        }
      }
      if sourceFailure.Some? {
        return Failed(NothingCommitted(sourceFailure.value, NotApplicable));
      }
      var committed := Commit(outcome);
      if committed.Failure? {
        return Failed(committed.error);
      }
      return Committed(committed.value, |chunks|);
    }
  }
}
