/**
 * A windowed write phase over a live session: concurrent writes reach the session in any order the window
 * allows, and their answers reach the dispatcher in any other. What each session then leaves, for every
 * schedule.
 */
module Interleavings {
  import opened Wrappers
  import opened Failures
  import opened Sequences
  import opened Chunks
  import opened Sessions

  /** One phase: a session's writer and opening state, the source's chunks, the failure that ends them, the window. */
  datatype Phase<!S, !R> = Phase(
    writer: Writer<S, R>, start: S, chunks: seq<seq<R>>, sourceFailure: Option<Code>, size: nat)

  /** The dispatcher and its session. `order` lists the writes the session has taken, `answers` what it said. */
  datatype Live<S> = Live(
    session: S,
    dispatched: nat,
    inFlight: set<nat>,
    order: seq<nat>,
    answers: map<nat, Option<SessionFailure>>,
    sourceDone: bool,
    halted: bool)

  function Begun<S, R>(p: Phase<S, R>): Live<S> {
    Live(p.start, 0, {}, [], map[], false, false)
  }

  predicate CanPull<S, R>(p: Phase<S, R>, w: Live<S>) {
    !w.halted && !w.sourceDone && |w.inFlight| < p.size && w.dispatched <= |p.chunks|
  }

  function Pulled<S, R>(p: Phase<S, R>, w: Live<S>): Live<S> {
    if w.dispatched < |p.chunks| then w.(inFlight := w.inFlight + {w.dispatched}, dispatched := w.dispatched + 1)
    else if p.sourceFailure.Some? then w.(halted := true)
    else w.(sourceDone := true)
  }

  /** A write in flight reaches the session, which answers it. */
  predicate CanWrite<S, R>(p: Phase<S, R>, w: Live<S>, k: nat) {
    k in w.inFlight && k !in w.answers && k < |p.chunks|
  }

  function Wrote<S, R>(p: Phase<S, R>, w: Live<S>, k: nat): Live<S>
    requires k < |p.chunks|
  {
    var (session, answer) := p.writer.write(w.session, k, p.chunks[k]);
    w.(session := session, order := w.order + [k], answers := w.answers[k := answer])
  }

  /** An answered write completes at the dispatcher, once it pulls no more. */
  predicate CanReceive<S, R>(p: Phase<S, R>, w: Live<S>, k: nat) {
    !CanPull(p, w) && k in w.inFlight && k in w.answers
  }

  function Received<S>(w: Live<S>, k: nat): Live<S>
    requires k in w.answers
  {
    w.(inFlight := w.inFlight - {k}, halted := w.halted || w.answers[k].Some?)
  }

  ghost predicate Step<S, R>(p: Phase<S, R>, w: Live<S>, w': Live<S>) {
    || (CanPull(p, w) && w' == Pulled(p, w))
    || (exists k: nat :: CanWrite(p, w, k) && w' == Wrote(p, w, k))
    || (exists k: nat :: CanReceive(p, w, k) && w' == Received(w, k))
  }

  /** A state some schedule reaches. */
  ghost predicate Reaches<S, R>(p: Phase<S, R>, states: seq<Live<S>>, w: Live<S>) {
    && states != [] && states[0] == Begun(p) && states[|states| - 1] == w
    && forall i :: 0 <= i < |states| - 1 ==> Step(p, states[i], states[i + 1])
  }

  /** Nothing in flight and nothing to pull: the dispatcher commits the session, or abandons it when halted. */
  predicate Drained<S>(w: Live<S>) {
    w.inFlight == {} && (w.halted || w.sourceDone)
  }

  // ----- What every schedule keeps -----

  predicate Below(order: seq<nat>, n: nat) {
    forall i :: 0 <= i < |order| ==> order[i] < n
  }

  /** The session after writes in this order. */
  function SessionAfter<S, R>(p: Phase<S, R>, order: seq<nat>): S
    requires Below(order, |p.chunks|)
  {
    if order == [] then p.start
    else
      var last := |order| - 1;
      p.writer.write(SessionAfter(p, order[..last]), order[last], p.chunks[order[last]]).0
  }

  function AnswerAt<S, R>(p: Phase<S, R>, order: seq<nat>, i: nat): Option<SessionFailure>
    requires Below(order, |p.chunks|) && i < |order|
  {
    p.writer.write(SessionAfter(p, order[..i]), order[i], p.chunks[order[i]]).1
  }

  /** What the session answered to each of these writes. */
  function AnswersTo<S, R>(p: Phase<S, R>, order: seq<nat>): (r: map<nat, Option<SessionFailure>>)
    requires Below(order, |p.chunks|)
    ensures forall k :: k in r <==> k in order
  {
    if order == [] then map[]
    else
      var last := |order| - 1;
      AnswersTo(p, order[..last])[order[last] := AnswerAt(p, order, last)]
  }

  lemma {:induction false} AnswerIsAt<S, R>(p: Phase<S, R>, order: seq<nat>, i: nat)
    requires Below(order, |p.chunks|) && Distinct(order) && i < |order|
    ensures AnswersTo(p, order)[order[i]] == AnswerAt(p, order, i)
  {
    var last := |order| - 1;
    var earlier := order[..last];
    if i < last {
      AnswerIsAt(p, earlier, i);
      assert earlier[..i] == order[..i] && earlier[i] == order[i] && order[i] != order[last];
    }
  }

  /** The session took every one of these writes. */
  predicate AllAnsweredWell<S, R>(p: Phase<S, R>, order: seq<nat>)
    requires Below(order, |p.chunks|)
  {
    order == [] || (AllAnsweredWell(p, order[..|order| - 1]) && AnswerAt(p, order, |order| - 1).None?)
  }

  ghost predicate NoFailure(answers: map<nat, Option<SessionFailure>>) {
    forall k :: k in answers ==> answers[k].None?
  }

  lemma OneMoreAnswer(answers: map<nat, Option<SessionFailure>>, k: nat, answer: Option<SessionFailure>)
    requires k !in answers
    ensures NoFailure(answers[k := answer]) <==> NoFailure(answers) && answer.None?
  {
    var more := answers[k := answer];
    assert more[k] == answer && forall j :: j in answers ==> j in more && more[j] == answers[j];
  }

  lemma {:induction false} WellIffNoFailure<S, R>(p: Phase<S, R>, order: seq<nat>)
    requires Below(order, |p.chunks|) && Distinct(order)
    ensures AllAnsweredWell(p, order) <==> NoFailure(AnswersTo(p, order))
  {
    if order != [] {
      var last := |order| - 1;
      WellIffNoFailure(p, order[..last]);
      assert order[last] !in order[..last];
      OneMoreAnswer(AnswersTo(p, order[..last]), order[last], AnswerAt(p, order, last));
    }
  }

  ghost predicate Slots<S, R>(p: Phase<S, R>, w: Live<S>) {
    && |w.inFlight| <= p.size && w.dispatched <= |p.chunks|
    && (forall k :: k in w.inFlight ==> k < w.dispatched)
    && (forall k :: 0 <= k < w.dispatched ==> k in w.inFlight || k in w.answers)
    && (w.sourceDone ==> w.dispatched == |p.chunks| && p.sourceFailure.None?)
  }

  /** The session has taken each dispatched write at most once, and `order` explains its state and answers. */
  ghost predicate Explained<S, R>(p: Phase<S, R>, w: Live<S>) {
    && Below(w.order, w.dispatched) && w.dispatched <= |p.chunks| && Distinct(w.order)
    && w.session == SessionAfter(p, w.order) && w.answers == AnswersTo(p, w.order)
  }

  /** The dispatcher halts over a failure it has seen, and over nothing else. */
  ghost predicate HaltsOverFailures<S, R>(p: Phase<S, R>, w: Live<S>) {
    && (!w.halted ==> forall k :: k in w.answers && k !in w.inFlight ==> w.answers[k].None?)
    && (w.halted ==>
          || (p.sourceFailure.Some? && w.dispatched == |p.chunks|)
          || exists k :: k in w.answers && w.answers[k].Some?)
  }

  ghost predicate Keeps<S, R>(p: Phase<S, R>, w: Live<S>) {
    Slots(p, w) && Explained(p, w) && HaltsOverFailures(p, w)
  }

  lemma AppendDistinct(order: seq<nat>, k: nat)
    requires Distinct(order) && k !in order
    ensures Distinct(order + [k])
  {
    var longer := order + [k];
    forall i, j | 0 <= i < j < |longer| ensures longer[i] != longer[j] {
      assert longer[i] == order[i] && order[i] in order;
    }
  }

  lemma WriteExplained<S, R>(p: Phase<S, R>, w: Live<S>, k: nat)
    requires Explained(p, w) && CanWrite(p, w, k) && k < w.dispatched
    ensures Explained(p, Wrote(p, w, k))
  {
    AppendDistinct(w.order, k);
    assert (w.order + [k])[..|w.order|] == w.order;
  }

  lemma PullKeeps<S, R>(p: Phase<S, R>, w: Live<S>)
    requires Keeps(p, w) && CanPull(p, w)
    ensures Keeps(p, Pulled(p, w))
  {
  }

  lemma WriteSlots<S, R>(p: Phase<S, R>, w: Live<S>, w': Live<S>, k: nat, answer: Option<SessionFailure>)
    requires Slots(p, w) && HaltsOverFailures(p, w) && k in w.inFlight && k !in w.answers
    requires w' == w.(session := w'.session, order := w'.order, answers := w.answers[k := answer])
    ensures Slots(p, w') && HaltsOverFailures(p, w')
  {
    if w.halted && !(p.sourceFailure.Some? && w.dispatched == |p.chunks|) {
      var j :| j in w.answers && w.answers[j].Some?;
      assert j in w'.answers && w'.answers[j].Some?;
    }
  }

  lemma WriteKeeps<S, R>(p: Phase<S, R>, w: Live<S>, k: nat)
    requires Keeps(p, w) && CanWrite(p, w, k)
    ensures Keeps(p, Wrote(p, w, k))
  {
    WriteExplained(p, w, k);
    WriteSlots(p, w, Wrote(p, w, k), k, p.writer.write(w.session, k, p.chunks[k]).1);
  }

  lemma ReceiveKeeps<S, R>(p: Phase<S, R>, w: Live<S>, k: nat)
    requires Keeps(p, w) && CanReceive(p, w, k)
    ensures Keeps(p, Received(w, k))
  {
    assert w.inFlight == (w.inFlight - {k}) + {k};
  }

  lemma {:induction false} EveryStateKeeps<S, R>(p: Phase<S, R>, states: seq<Live<S>>, w: Live<S>)
    requires Reaches(p, states, w)
    ensures Keeps(p, w)
    decreases |states|
  {
    var last := |states| - 1;
    if last > 0 {
      var before := states[last - 1];
      StepsBack(p, states, w);
      EveryStateKeeps(p, states[..last], before);
      if CanPull(p, before) && w == Pulled(p, before) {
        PullKeeps(p, before);
      } else if k: nat :| CanWrite(p, before, k) && w == Wrote(p, before, k) {
        WriteKeeps(p, before, k);
      } else {
        var k: nat :| CanReceive(p, before, k) && w == Received(before, k);
        ReceiveKeeps(p, before, k);
      }
    }
  }

  lemma StepsBack<S, R>(p: Phase<S, R>, states: seq<Live<S>>, w: Live<S>)
    requires Reaches(p, states, w) && |states| > 1
    ensures Reaches(p, states[..|states| - 1], states[|states| - 2])
    ensures Step(p, states[|states| - 2], w)
  {
    var last := |states| - 1;
    var prefix := states[..last];
    assert Step(p, states[last - 1], states[last - 1 + 1]);
    forall i | 0 <= i < |prefix| - 1 ensures Step(p, prefix[i], prefix[i + 1]) {
      assert Step(p, states[i], states[i + 1]);
    }
  }

  // ----- How a drained phase ends -----

  /** The order lists 0 to n - 1, each once. */
  ghost predicate Lists(order: seq<nat>, n: nat) {
    && Distinct(order) && Below(order, n)
    && forall k :: 0 <= k < n ==> k in order
  }

  /**
   * A drained phase has written exactly what it dispatched, each chunk once. It commits exactly when the
   * source ended well and the session took every chunk.
   */
  lemma DrainedPhase<S, R>(p: Phase<S, R>, states: seq<Live<S>>, w: Live<S>)
    requires Reaches(p, states, w) && Drained(w)
    ensures w.dispatched <= |p.chunks| && Lists(w.order, w.dispatched) && w.session == SessionAfter(p, w.order)
    ensures !w.halted <==>
      p.sourceFailure.None? && w.dispatched == |p.chunks| && AllAnsweredWell(p, w.order)
    ensures w.halted ==>
      (p.sourceFailure.Some? && w.dispatched == |p.chunks|) || !AllAnsweredWell(p, w.order)
  {
    EveryStateKeeps(p, states, w);
    WellIffNoFailure(p, w.order);
    assert !w.halted ==> NoFailure(w.answers);
  }

  /** The rows of the chunks an order lists. */
  function WrittenRows<R>(chunks: seq<seq<R>>, order: seq<nat>): seq<R>
    requires Below(order, |chunks|)
  {
    if order == [] then []
    else WrittenRows(chunks, order[..|order| - 1]) + chunks[order[|order| - 1]]
  }

  lemma {:induction false} WrittenRowsWithout<R>(chunks: seq<seq<R>>, order: seq<nat>, i: nat)
    requires Below(order, |chunks|) && i < |order|
    ensures Below(order[..i] + order[i + 1..], |chunks|)
    ensures multiset(WrittenRows(chunks, order))
         == multiset(WrittenRows(chunks, order[..i] + order[i + 1..])) + multiset(chunks[order[i]])
  {
    var last := |order| - 1;
    var rest := order[..i] + order[i + 1..];
    if i == last {
      assert rest == order[..last];
    } else {
      WrittenRowsWithout(chunks, order[..last], i);
      assert rest[..last - 1] == order[..last][..i] + order[..last][i + 1..];
      assert rest[last - 1] == order[last];
    }
  }

  lemma {:induction false} FlattenSnoc<R>(chunks: seq<seq<R>>, chunk: seq<R>)
    ensures Flatten(chunks + [chunk]) == Flatten(chunks) + chunk
  {
    if chunks == [] {
      assert [] + [chunk] == [chunk] && [chunk][1..] == [];
      assert Flatten([chunk]) == chunk + Flatten<R>([]) == chunk;
    } else {
      assert (chunks + [chunk])[1..] == chunks[1..] + [chunk];
      FlattenSnoc(chunks[1..], chunk);
      ConcatAssociates(chunks[0], Flatten(chunks[1..]), chunk);
    }
  }

  lemma {:induction false} WrittenRowsOfPrefix<R>(chunks: seq<seq<R>>, order: seq<nat>, n: nat)
    requires n <= |chunks| && Below(order, n)
    ensures WrittenRows(chunks, order) == WrittenRows(chunks[..n], order)
  {
    if order != [] {
      WrittenRowsOfPrefix(chunks, order[..|order| - 1], n);
    }
  }

  lemma ListsWithoutLast(order: seq<nat>, n: nat, i: nat)
    requires Lists(order, n + 1) && i < |order| && order[i] == n
    ensures Lists(order[..i] + order[i + 1..], n)
  {
    var rest := order[..i] + order[i + 1..];
    forall k | 0 <= k < n ensures k in rest {
      assert k in order;
      var j :| 0 <= j < |order| && order[j] == k;
      assert rest[if j < i then j else j - 1] == k;
    }
  }

  lemma NothingBelowZero(order: seq<nat>)
    requires order != []
    ensures !Below(order, 0)
  {
    assert order[0] >= 0;
  }

  /** An order that lists n chunks has n entries. */
  lemma {:induction false} ListsEach(order: seq<nat>, n: nat)
    requires Lists(order, n)
    ensures |order| == n
    decreases n
  {
    if n > 0 {
      assert n - 1 in order;
      var i :| 0 <= i < |order| && order[i] == n - 1;
      ListsWithoutLast(order, n - 1, i);
      ListsEach(order[..i] + order[i + 1..], n - 1);
    } else if order != [] {
      NothingBelowZero(order);
    }
  }

  /** An order that lists every chunk writes exactly the chunks' rows, whatever it is. */
  lemma {:induction false} ListedRowsAreAllRows<R>(chunks: seq<seq<R>>, order: seq<nat>)
    requires Lists(order, |chunks|)
    ensures multiset(WrittenRows(chunks, order)) == multiset(Flatten(chunks))
    decreases |chunks|
  {
    if chunks == [] {
      assert order == [];
    } else {
      var n := |chunks| - 1;
      assert n in order;
      var i :| 0 <= i < |order| && order[i] == n;
      var rest := order[..i] + order[i + 1..];
      ListsWithoutLast(order, n, i);
      WrittenRowsWithout(chunks, order, i);
      WrittenRowsOfPrefix(chunks, rest, n);
      ListedRowsAreAllRows(chunks[..n], rest);
      FlattenSnoc(chunks[..n], chunks[n]);
      assert chunks[..n] + [chunks[n]] == chunks;
    }
  }

  /** The writes of an order the session took. */
  function Accepted<S, R>(p: Phase<S, R>, order: seq<nat>): (r: seq<nat>)
    requires Below(order, |p.chunks|)
    ensures Below(r, |p.chunks|)
  {
    if order == [] then []
    else
      var last := |order| - 1;
      Accepted(p, order[..last]) + if AnswerAt(p, order, last).None? then [order[last]] else []
  }

  lemma KeepingOneMore<S, R>(p: Phase<S, R>, order: seq<nat>)
    requires Below(order, |p.chunks|) && order != []
    ensures var last := |order| - 1;
      var before, after := Accepted(p, order[..last]), Accepted(p, order);
      if AnswerAt(p, order, last).Some? then after == before
      else after == before + [order[last]]
           && WrittenRows(p.chunks, after) == WrittenRows(p.chunks, before) + p.chunks[order[last]]
  {
    var last := |order| - 1;
    var before := Accepted(p, order[..last]);
    assert (before + [order[last]])[..|before|] == before;
  }

  /** Every one of these chunks is among the accepted, or has been refused. */
  lemma {:induction false} AcceptedOrRefused<S, R>(p: Phase<S, R>, order: seq<nat>, i: nat)
    requires Below(order, |p.chunks|) && i < |order|
    ensures AnswerAt(p, order, i).None? ==> order[i] in Accepted(p, order)
  {
    var last := |order| - 1;
    if i < last {
      assert order[..last][..i] == order[..i];
      AcceptedOrRefused(p, order[..last], i);
    }
  }

  lemma {:induction false} AcceptedAreWritten<S, R>(p: Phase<S, R>, order: seq<nat>, k: nat)
    requires Below(order, |p.chunks|) && k in Accepted(p, order)
    ensures exists i :: 0 <= i < |order| && order[i] == k && AnswerAt(p, order, i).None?
  {
    var last := |order| - 1;
    if k in Accepted(p, order[..last]) {
      AcceptedAreWritten(p, order[..last], k);
      var i :| 0 <= i < last && order[..last][i] == k && AnswerAt(p, order[..last], i).None?;
      assert order[..last][..i] == order[..i];
    }
  }

  lemma {:induction false} AcceptedDistinct<S, R>(p: Phase<S, R>, order: seq<nat>)
    requires Below(order, |p.chunks|) && Distinct(order)
    ensures Distinct(Accepted(p, order))
  {
    if order != [] {
      var last := |order| - 1;
      AcceptedDistinct(p, order[..last]);
      if order[last] in Accepted(p, order[..last]) {
        AcceptedAreWritten(p, order[..last], order[last]);
      }
      if AnswerAt(p, order, last).None? {
        AppendDistinct(Accepted(p, order[..last]), order[last]);
      }
    }
  }

  // ----- What a drained phase surfaces and reports -----

  /** The lowest chunk below `n` whose write was refused, if any. */
  function LowestRefused(answers: map<nat, Option<SessionFailure>>, n: nat): (r: Option<nat>)
    ensures r.Some? ==> r.value < n && r.value in answers && answers[r.value].Some?
    ensures forall k :: 0 <= k < n && k in answers && answers[k].Some? ==> r.Some? && r.value <= k
  {
    if n == 0 then None
    else match LowestRefused(answers, n - 1)
      case Some(k) => Some(k)
      case None => if n - 1 in answers && answers[n - 1].Some? then Some(n - 1) else None
  }

  /** The failure a drained phase surfaces: its lowest refused chunk's, else the source's. */
  function Surfaced<S, R>(p: Phase<S, R>, w: Live<S>): Option<Code> {
    match LowestRefused(w.answers, w.dispatched)
    case Some(k) => Some(w.answers[k].value.code)
    case None => p.sourceFailure
  }

  /** The end of a drained phase: the session commits, or is abandoned over the failure the phase surfaces. */
  function Ended<S, R>(p: Phase<S, R>, w: Live<S>): (S, Delivery) {
    match Surfaced(p, w)
    case Some(code) =>
      var (session, abandoned) := p.writer.abandon(w.session);
      (session, Failed(SessionFailure(code, abandoned.facts, abandoned.writtenRecords, abandoned.committedChunks)))
    case None =>
      var (session, committed) := p.writer.commit(w.session);
      match committed
      case Success(facts) => (session, Committed(facts, w.dispatched))
      case Failure(failure) => (p.writer.drop(session), Failed(failure))
  }

  /** The chunks below the one whose failure surfaces; all that were dispatched when no write was refused. */
  function BelowSurfaced<S>(w: Live<S>): nat {
    match LowestRefused(w.answers, w.dispatched)
    case Some(k) => k
    case None => w.dispatched
  }

  /**
   * A drained phase surfaces a failure exactly when it halted, and its session has accepted every chunk below
   * the one whose failure that is.
   */
  lemma SurfacedIsLowest<S, R>(p: Phase<S, R>, states: seq<Live<S>>, w: Live<S>)
    requires Reaches(p, states, w) && Drained(w)
    ensures w.halted <==> Surfaced(p, w).Some?
    ensures Below(w.order, |p.chunks|)
    ensures forall k :: 0 <= k < BelowSurfaced(w) ==>
      k in w.answers && w.answers[k].None? && k in Accepted(p, w.order)
    ensures LowestRefused(w.answers, w.dispatched).None? ==> w.dispatched == |p.chunks|
  {
    EveryStateKeeps(p, states, w);
    forall k | 0 <= k < BelowSurfaced(w) ensures k in w.answers && w.answers[k].None? && k in Accepted(p, w.order) {
      assert k in w.answers;
      var i :| 0 <= i < |w.order| && w.order[i] == k;
      AnswerIsAt(p, w.order, i);
      AcceptedOrRefused(p, w.order, i);
    }
  }

  /** A phase that drains without halting has written every chunk, and ends as the commit of its session ends. */
  lemma EndsCommitted<S, R>(p: Phase<S, R>, states: seq<Live<S>>, w: Live<S>)
    requires Reaches(p, states, w) && Drained(w) && !w.halted
    ensures Lists(w.order, |p.chunks|) && AllAnsweredWell(p, w.order) && w.session == SessionAfter(p, w.order)
    ensures Ended(p, w) == CommitOf(p, SessionAfter(p, w.order))
  {
    DrainedPhase(p, states, w);
    SurfacedIsLowest(p, states, w);
  }

  /** How committing this session ends a phase that wrote every chunk. */
  function CommitOf<S, R>(p: Phase<S, R>, session: S): (S, Delivery) {
    var (session', committed) := p.writer.commit(session);
    match committed
    case Success(facts) => (session', Committed(facts, |p.chunks|))
    case Failure(failure) => (p.writer.drop(session'), Failed(failure))
  }

  /** Through a window of one, only the last write can have been refused. */
  ghost predicate OneAtATime<S, R>(p: Phase<S, R>, w: Live<S>)
    requires Below(w.order, |p.chunks|)
  {
    var last := |w.order| - 1;
    && (w.halted ==> w.inFlight == {})
    && (w.order != [] ==>
          && AllAnsweredWell(p, w.order[..last])
          && (AnswerAt(p, w.order, last).Some? ==> w.halted || w.order[last] in w.inFlight))
  }

  lemma WriteOneAtATime<S, R>(p: Phase<S, R>, w: Live<S>, k: nat)
    requires Explained(p, w) && OneAtATime(p, w) && CanWrite(p, w, k) && w.inFlight == {k}
    ensures OneAtATime(p, Wrote(p, w, k))
  {
    assert (w.order + [k])[..|w.order|] == w.order;
    if w.order != [] {
      assert w.order[|w.order| - 1] in w.order;
    }
  }

  lemma ReceiveOneAtATime<S, R>(p: Phase<S, R>, w: Live<S>, k: nat)
    requires Explained(p, w) && OneAtATime(p, w) && CanReceive(p, w, k) && w.inFlight == {k}
    ensures OneAtATime(p, Received(w, k))
  {
    AnswerIsAt(p, w.order, |w.order| - 1);
  }

  lemma StepOneAtATime<S, R>(p: Phase<S, R>, w: Live<S>, w': Live<S>)
    requires Keeps(p, w) && OneAtATime(p, w) && p.size == 1 && Step(p, w, w')
    requires Below(w'.order, |p.chunks|)
    ensures OneAtATime(p, w')
  {
    if CanPull(p, w) && w' == Pulled(p, w) {
      assert w.inFlight == {};
    } else if k: nat :| CanWrite(p, w, k) && w' == Wrote(p, w, k) {
      OnlyInFlight(p, w, k);
      WriteOneAtATime(p, w, k);
    } else {
      var k: nat :| CanReceive(p, w, k) && w' == Received(w, k);
      OnlyInFlight(p, w, k);
      ReceiveOneAtATime(p, w, k);
    }
  }

  lemma {:induction false} WindowOfOneIsSerial<S, R>(p: Phase<S, R>, states: seq<Live<S>>, w: Live<S>)
    requires Reaches(p, states, w) && p.size == 1
    ensures Keeps(p, w) && OneAtATime(p, w)
    decreases |states|
  {
    EveryStateKeeps(p, states, w);
    var last := |states| - 1;
    if last > 0 {
      StepsBack(p, states, w);
      WindowOfOneIsSerial(p, states[..last], states[last - 1]);
      StepOneAtATime(p, states[last - 1], w);
    }
  }

  lemma OnlyInFlight<S, R>(p: Phase<S, R>, w: Live<S>, k: nat)
    requires |w.inFlight| <= 1 && k in w.inFlight
    ensures w.inFlight == {k}
  {
    assert |w.inFlight - {k}| == 0;
  }

  lemma ReachesOneMore<S, R>(p: Phase<S, R>, states: seq<Live<S>>, w: Live<S>, w': Live<S>)
    requires Reaches(p, states, w) && Step(p, w, w')
    ensures Reaches(p, states + [w'], w')
  {
    var longer := states + [w'];
    forall i | 0 <= i < |longer| - 1 ensures Step(p, longer[i], longer[i + 1]) {
      assert i < |states| - 1 ==> Step(p, states[i], states[i + 1]);
    }
  }

  /** Through a window of two, both writes of two chunks reach the session although the first is refused. */
  lemma SecondFollowsRefusedFirst<S, R>(p: Phase<S, R>) returns (states: seq<Live<S>>, w: Live<S>)
    requires p.size == 2 && |p.chunks| == 2 && p.writer.write(p.start, 0, p.chunks[0]).1.Some?
    ensures Reaches(p, states, w) && Drained(w) && w.halted && w.order == [0, 1]
  {
    w := Begun(p);
    states := [w];
    var next := Pulled(p, w);
    ReachesOneMore(p, states, w, next);
    states, w := states + [next], next;
    assert w.inFlight == {0};
    next := Pulled(p, w);
    ReachesOneMore(p, states, w, next);
    states, w := states + [next], next;
    assert w.inFlight == {0, 1} && CanWrite(p, w, 0);
    next := Wrote(p, w, 0);
    ReachesOneMore(p, states, w, next);
    states, w := states + [next], next;
    assert CanWrite(p, w, 1);
    next := Wrote(p, w, 1);
    ReachesOneMore(p, states, w, next);
    states, w := states + [next], next;
    assert w.order == [0, 1] && CanReceive(p, w, 0);
    next := Received(w, 0);
    ReachesOneMore(p, states, w, next);
    states, w := states + [next], next;
    assert w.inFlight == {1} && CanReceive(p, w, 1);
    next := Received(w, 1);
    ReachesOneMore(p, states, w, next);
    states, w := states + [next], next;
    assert w.inFlight == {};
  }
}
