/** The retry engine: bounded attempts of one unit, exponential backoff, and the log the report renders. */
module Retry {
  import opened Wrappers
  import opened Failures
  import opened Sequences
  import opened Digits

  const U32_MAX := 0xffff_ffff

  type U64 = n: nat | n <= U64_MAX

  datatype RetryPolicy = RetryPolicy(maxAttempts: U64, initialDelay: U64, maxDelay: U64) {
    predicate Valid() {
      maxAttempts >= 1
    }
  }

  // ----- Backoff -----

  function Pow2(n: nat): nat {
    if n == 0 then 1 else 2 * Pow2(n - 1)
  }

  function Min(a: nat, b: nat): nat {
    if a < b then a else b
  }

  function Saturate(n: nat): U64 {
    Min(n, U64_MAX)
  }

  /** The wait before attempt `attempt`, in saturating 64-bit arithmetic over a 32-bit exponent. */
  function DelayBeforeAttempt(policy: RetryPolicy, attempt: U64): U64 {
    var doublings := Min(if attempt >= 2 then attempt - 2 else 0, U32_MAX);
    Min(Saturate(Saturate(Pow2(doublings)) * policy.initialDelay), policy.maxDelay)
  }

  lemma {:induction false} Pow2Add(a: nat, b: nat)
    ensures Pow2(a + b) == Pow2(a) * Pow2(b)
  {
    if a > 0 {
      Pow2Add(a - 1, b);
      assert Pow2(a + b) == 2 * Pow2(a - 1 + b);
    }
  }

  lemma {:induction false} Pow2Monotone(a: nat, b: nat)
    requires a <= b
    ensures 0 < Pow2(a) <= Pow2(b)
    decreases b - a, a
  {
    if a < b {
      Pow2Monotone(a, b - 1);
    } else if a > 0 {
      Pow2Monotone(a - 1, a - 1);
    }
  }

  lemma Pow2Doubles(n: nat, p: nat)
    requires Pow2(n) == p
    ensures Pow2(2 * n) == p * p
  {
    Pow2Add(n, n);
  }

  lemma Pow2Of64()
    ensures Pow2(64) == U64_MAX + 1
  {
    Pow2Doubles(1, 2);
    Pow2Doubles(2, 4);
    Pow2Doubles(4, 16);
    Pow2Doubles(8, 256);
    Pow2Doubles(16, 0x1_0000);
    Pow2Doubles(32, 0x1_0000_0000);
  }

  lemma ProductAtLeast(a: nat, b: nat)
    requires b >= 1
    ensures a * b >= a
  {
  }

  lemma MultiplyMonotone(a: nat, b: nat, c: nat)
    requires a <= b
    ensures a * c <= b * c
  {
  }

  /** Saturating below the cap changes nothing. */
  lemma SaturatedProduct(p: nat, initial: U64, cap: U64)
    ensures Min(Saturate(Saturate(p) * initial), cap) == Min(initial * p, cap)
  {
    if p > U64_MAX && initial >= 1 {
      ProductAtLeast(U64_MAX, initial);
      ProductAtLeast(p, initial);
    }
  }

  lemma HugePower(n: nat, initial: U64, cap: U64)
    requires n >= 64 && initial >= 1
    ensures Min(initial * Pow2(n), cap) == cap
  {
    Pow2Of64();
    Pow2Monotone(64, n);
    ProductAtLeast(Pow2(n), initial);
  }

  lemma ClampedExponent(n: nat, initial: U64, cap: U64)
    ensures Min(initial * Pow2(Min(n, U32_MAX)), cap) == Min(initial * Pow2(n), cap)
  {
    if n > U32_MAX {
      if initial >= 1 {
        HugePower(n, initial, cap);
        HugePower(U32_MAX, initial, cap);
      }
    }
  }

  /** The saturating wait is the unbounded formula min(initial * 2^(n-2), max), at every attempt. */
  lemma DelayIsExact(policy: RetryPolicy, attempt: U64)
    requires attempt >= 2
    ensures DelayBeforeAttempt(policy, attempt) == Min(policy.initialDelay * Pow2(attempt - 2), policy.maxDelay)
  {
    SaturatedProduct(Pow2(Min(attempt - 2, U32_MAX)), policy.initialDelay, policy.maxDelay);
    ClampedExponent(attempt - 2, policy.initialDelay, policy.maxDelay);
  }

  /** Waits never shrink from one attempt to the next. */
  lemma DelaysNeverShrink(policy: RetryPolicy, attempt: U64)
    requires 2 <= attempt < U64_MAX
    ensures DelayBeforeAttempt(policy, attempt) <= DelayBeforeAttempt(policy, attempt + 1)
  {
    DelayIsExact(policy, attempt);
    DelayIsExact(policy, attempt + 1);
    Pow2Monotone(attempt - 2, attempt - 1);
    MultiplyMonotone(Pow2(attempt - 2), Pow2(attempt - 1), policy.initialDelay);
  }

  // ----- One unit -----

  datatype RetryUnit = Begin | WriteChunk(index: nat)

  datatype WriteFailure = WriteFailure(code: Code, transient: bool)

  datatype RetryAttempt = RetryAttempt(unit: RetryUnit, attempt: nat, code: Code, delayBeforeRetry: Option<U64>)

  /** What each attempt of a unit answers, by attempt number from one: success, or a failure. */
  type Operation = nat -> Option<WriteFailure>

  /** A unit's whole run: how it ended, the calls it made, the attempts it logged, the waits it slept. */
  datatype UnitRun = UnitRun(failure: Option<WriteFailure>, calls: nat, log: seq<RetryAttempt>, slept: seq<U64>)

  /** An attempt is followed by another exactly when its failure is transient and budget remains. */
  predicate Retries(policy: RetryPolicy, operation: Operation, attempt: nat) {
    operation(attempt).Some? && operation(attempt).value.transient && attempt < policy.maxAttempts
  }

  /** The attempt a unit ends on: the first that succeeds, fails terminally, or exhausts the budget. */
  function LastAttempt(policy: RetryPolicy, operation: Operation, attempt: nat): (r: nat)
    requires 1 <= attempt <= policy.maxAttempts
    ensures attempt <= r <= policy.maxAttempts && !Retries(policy, operation, r)
    ensures forall k :: attempt <= k < r ==> Retries(policy, operation, k)
    decreases policy.maxAttempts - attempt
  {
    if Retries(policy, operation, attempt) then LastAttempt(policy, operation, attempt + 1) else attempt
  }

  /** The log entry of a failed attempt of a unit that ends on `last`. */
  function Entry(policy: RetryPolicy, unit: RetryUnit, operation: Operation, k: nat, last: nat): RetryAttempt
    requires 1 <= k <= last <= policy.maxAttempts && operation(k).Some?
  {
    RetryAttempt(unit, k, operation(k).value.code,
      if k < last then Some(DelayBeforeAttempt(policy, k + 1)) else None)
  }

  /** The first `n` failed attempts are logged and the waits after them slept. */
  ghost predicate Logged(policy: RetryPolicy, unit: RetryUnit, operation: Operation, last: nat, n: nat,
    log: seq<RetryAttempt>)
    requires last <= policy.maxAttempts
  {
    && |log| == n <= last
    && forall k {:trigger operation(k)} :: 1 <= k <= n ==>
         operation(k).Some? && log[k - 1] == Entry(policy, unit, operation, k, last)
  }

  ghost predicate Slept(policy: RetryPolicy, n: nat, slept: seq<U64>)
    requires n < policy.maxAttempts
  {
    |slept| == n && forall k :: 0 <= k < n ==> slept[k] == DelayBeforeAttempt(policy, k + 2)
  }

  /** A never-retried unit logs nothing; a retried one logs every failed attempt, the final one without a wait. */
  ghost predicate IsRun(policy: RetryPolicy, unit: RetryUnit, operation: Operation, run: UnitRun)
    requires policy.Valid()
  {
    var last := LastAttempt(policy, operation, 1);
    var failed := if operation(last).Some? then last else last - 1;
    && run.failure == operation(last)
    && run.calls == last
    && Slept(policy, last - 1, run.slept)
    && Logged(policy, unit, operation, last, if last == 1 then 0 else failed, run.log)
  }

  lemma LogSnoc(policy: RetryPolicy, unit: RetryUnit, operation: Operation, last: nat, n: nat, log: seq<RetryAttempt>)
    requires last <= policy.maxAttempts && n < last && operation(n + 1).Some?
    requires Logged(policy, unit, operation, last, n, log)
    ensures Logged(policy, unit, operation, last, n + 1, log + [Entry(policy, unit, operation, n + 1, last)])
  {
    var longer := log + [Entry(policy, unit, operation, n + 1, last)];
    forall k {:trigger operation(k)} | 1 <= k <= n + 1
      ensures operation(k).Some? && longer[k - 1] == Entry(policy, unit, operation, k, last)
    {
      if k <= n {
        assert longer[k - 1] == log[k - 1];
      }
    }
  }

  /** Runs one unit: retries while the failure is transient and budget remains, sleeping in between. */
  method RunUnit(policy: RetryPolicy, unit: RetryUnit, operation: Operation) returns (run: UnitRun)
    requires policy.Valid()
    ensures IsRun(policy, unit, operation, run)
  {
    var attempt := 1;
    var log: seq<RetryAttempt>, slept: seq<U64> := [], [];
    ghost var last := LastAttempt(policy, operation, 1);
    while true
      invariant 1 <= attempt <= last && LastAttempt(policy, operation, attempt) == last
      invariant Logged(policy, unit, operation, last, attempt - 1, log) && Slept(policy, attempt - 1, slept)
      decreases policy.maxAttempts - attempt
    {
      var outcome := operation(attempt);
      if outcome.None? {
        return UnitRun(None, attempt, log, slept);
      }
      var failure := outcome.value;
      LogSnoc(policy, unit, operation, last, attempt - 1, log);
      if failure.transient && attempt < policy.maxAttempts {
        var delay := DelayBeforeAttempt(policy, attempt + 1);
        log := log + [RetryAttempt(unit, attempt, failure.code, Some(delay))];
        slept := slept + [delay];
        attempt := attempt + 1;
      } else {
        if attempt > 1 {
          log := log + [RetryAttempt(unit, attempt, failure.code, None)];
        }
        return UnitRun(Some(failure), attempt, log, slept);
      }
    }
  }

  /** Every run stays within its budget, and sleeps exactly the waits it logs, never shrinking. */
  lemma RunsAreBounded(policy: RetryPolicy, unit: RetryUnit, operation: Operation, run: UnitRun)
    requires policy.Valid() && IsRun(policy, unit, operation, run)
    ensures 1 <= run.calls <= policy.maxAttempts
    ensures forall j, k :: 0 <= j < k < |run.slept| ==> run.slept[j] <= run.slept[k]
    ensures |run.slept| <= |run.log|
    ensures forall k :: 0 <= k < |run.slept| ==> run.log[k].delayBeforeRetry == Some(run.slept[k])
    ensures forall k :: |run.slept| <= k < |run.log| ==> run.log[k].delayBeforeRetry == None
    ensures run.log == [] <==> run.calls == 1
    ensures run.failure.Some? && !run.failure.value.transient ==>
      forall k :: 1 <= k < run.calls ==> Retries(policy, operation, k)
  {
    forall j, k | 0 <= j < k < |run.slept| ensures run.slept[j] <= run.slept[k] {
      LaterDelayIsNoShorter(policy, j + 2, k + 2);
    }
    forall k | 0 <= k < |run.log|
      ensures run.log[k] == Entry(policy, unit, operation, k + 1, LastAttempt(policy, operation, 1))
    {
      assert operation(k + 1).Some?;
    }
  }

  /** A run ends on success, on a terminal failure, or with its budget spent; every attempt before failed transiently. */
  lemma RunsUseTheirBudget(policy: RetryPolicy, unit: RetryUnit, operation: Operation, run: UnitRun)
    requires policy.Valid() && IsRun(policy, unit, operation, run)
    ensures run.failure == operation(run.calls)
    ensures run.failure.Some? ==> run.calls == policy.maxAttempts || !run.failure.value.transient
    ensures forall k {:trigger operation(k)} :: 1 <= k < run.calls ==> operation(k).Some? && operation(k).value.transient
  {
    forall k {:trigger operation(k)} | 1 <= k < run.calls ensures operation(k).Some? && operation(k).value.transient {
      assert Retries(policy, operation, k);
    }
  }

  lemma {:induction false} LaterDelayIsNoShorter(policy: RetryPolicy, a: U64, b: U64)
    requires 2 <= a <= b
    ensures DelayBeforeAttempt(policy, a) <= DelayBeforeAttempt(policy, b)
    decreases b - a
  {
    if a < b {
      DelaysNeverShrink(policy, a);
      LaterDelayIsNoShorter(policy, a + 1, b);
    }
  }

  // ----- The rendered log -----

  /** The report position: begin first, then chunks by index, attempts ascending within a unit. */
  predicate Before(a: RetryAttempt, b: RetryAttempt) {
    match (a.unit, b.unit)
    case (Begin, Begin) => a.attempt < b.attempt
    case (Begin, WriteChunk(_)) => true
    case (WriteChunk(_), Begin) => false
    case (WriteChunk(i), WriteChunk(j)) => i < j || (i == j && a.attempt < b.attempt)
  }

  ghost predicate Ordered(log: seq<RetryAttempt>) {
    forall i, j :: 0 <= i < j < |log| ==> Before(log[i], log[j])
  }

  /** Inserts an entry after every entry it does not precede, as a stable sort does. */
  function InsertInOrder(sorted: seq<RetryAttempt>, entry: RetryAttempt): seq<RetryAttempt> {
    if sorted == [] || Before(entry, sorted[0]) then [entry] + sorted
    else [sorted[0]] + InsertInOrder(sorted[1..], entry)
  }

  function Sorted(log: seq<RetryAttempt>): seq<RetryAttempt> {
    if log == [] then [] else InsertInOrder(Sorted(log[..|log| - 1]), log[|log| - 1])
  }

  /** No two entries share a unit and an attempt, so any two of them are strictly ordered. */
  ghost predicate UniqueKeys(log: seq<RetryAttempt>) {
    forall i, j :: 0 <= i < |log| && 0 <= j < |log| && i != j ==> Before(log[i], log[j]) || Before(log[j], log[i])
  }

  lemma {:induction false} InsertAddsEntry(sorted: seq<RetryAttempt>, entry: RetryAttempt)
    ensures multiset(InsertInOrder(sorted, entry)) == multiset(sorted) + multiset{entry}
  {
    if sorted != [] {
      InsertAddsEntry(sorted[1..], entry);
      assert sorted == [sorted[0]] + sorted[1..];
    }
  }

  lemma ConsKeepsOrder(first: RetryAttempt, rest: seq<RetryAttempt>)
    requires Ordered(rest) && forall x :: x in multiset(rest) ==> Before(first, x)
    ensures Ordered([first] + rest)
  {
    forall k | 0 <= k < |rest| ensures Before(first, rest[k]) {
      assert rest[k] in multiset(rest);
    }
  }

  lemma FirstPrecedesRest(sorted: seq<RetryAttempt>, x: RetryAttempt)
    requires Ordered(sorted) && sorted != [] && x in multiset(sorted[1..])
    ensures Before(sorted[0], x)
  {
    var k :| 0 <= k < |sorted[1..]| && sorted[1..][k] == x;
    assert sorted[k + 1] == x;
  }

  lemma {:induction false} InsertKeepsOrder(sorted: seq<RetryAttempt>, entry: RetryAttempt)
    requires Ordered(sorted) && forall x :: x in multiset(sorted) ==> Before(x, entry) || Before(entry, x)
    ensures Ordered(InsertInOrder(sorted, entry))
  {
    if sorted != [] {
      assert sorted == [sorted[0]] + sorted[1..];
      if Before(entry, sorted[0]) {
        forall x | x in multiset(sorted) ensures Before(entry, x) {
          FirstComesFirst(sorted, x);
        }
        ConsKeepsOrder(entry, sorted);
      } else {
        InsertKeepsOrder(sorted[1..], entry);
        InsertAddsEntry(sorted[1..], entry);
        forall x | x in multiset(InsertInOrder(sorted[1..], entry)) ensures Before(sorted[0], x) {
          if x != entry {
            FirstPrecedesRest(sorted, x);
          }
        }
        ConsKeepsOrder(sorted[0], InsertInOrder(sorted[1..], entry));
      }
    }
  }

  lemma {:induction false} SortedIsOrdered(log: seq<RetryAttempt>)
    requires UniqueKeys(log)
    ensures Ordered(Sorted(log)) && multiset(Sorted(log)) == multiset(log)
  {
    if log != [] {
      var rest, last := log[..|log| - 1], log[|log| - 1];
      assert log == rest + [last];
      SortedIsOrdered(rest);
      forall x | x in multiset(Sorted(rest)) ensures Before(x, last) || Before(last, x) {
        var k :| 0 <= k < |rest| && rest[k] == x;
        assert log[k] == x;
      }
      InsertKeepsOrder(Sorted(rest), last);
      InsertAddsEntry(Sorted(rest), last);
    }
  }

  lemma FirstComesFirst(log: seq<RetryAttempt>, entry: RetryAttempt)
    requires Ordered(log) && entry in log
    ensures entry == log[0] || Before(log[0], entry)
  {
  }

  lemma TailHoldsTheRest<T>(s: seq<T>)
    requires s != []
    ensures multiset(s[1..]) == multiset(s) - multiset{s[0]}
  {
    assert s == [s[0]] + s[1..];
  }

  /** Two ordered logs of the same entries are one list. */
  lemma {:induction false} OrderedLogIsUnique(a: seq<RetryAttempt>, b: seq<RetryAttempt>)
    requires Ordered(a) && Ordered(b) && multiset(a) == multiset(b)
    ensures a == b
  {
    assert |multiset(a)| == |a| && |multiset(b)| == |b|;
    if a != [] {
      assert a[0] in multiset(b) && b[0] in multiset(a);
      FirstComesFirst(a, b[0]);
      FirstComesFirst(b, a[0]);
      TailHoldsTheRest(a);
      TailHoldsTheRest(b);
      OrderedLogIsUnique(a[1..], b[1..]);
    }
  }

  lemma OrderedMembersCompare(ordered: seq<RetryAttempt>, a: RetryAttempt, b: RetryAttempt)
    requires Ordered(ordered) && a in ordered && b in ordered && a != b
    ensures Before(a, b) || Before(b, a)
  {
  }

  lemma OrderedKeysAreUnique(log: seq<RetryAttempt>, ordered: seq<RetryAttempt>)
    requires Ordered(ordered) && multiset(log) == multiset(ordered)
    ensures UniqueKeys(log)
  {
    forall i, j | 0 <= i < |log| && 0 <= j < |log| && i != j ensures Before(log[i], log[j]) || Before(log[j], log[i]) {
      OrderedHasNoTwins(ordered, log[i]);
      EntriesDiffer(log, i, j);
      assert log[i] in multiset(ordered) && log[j] in multiset(ordered);
      OrderedMembersCompare(ordered, log[i], log[j]);
    }
  }

  lemma EntriesDiffer(log: seq<RetryAttempt>, i: nat, j: nat)
    requires i < |log| && j < |log| && i != j && multiset(log)[log[i]] <= 1
    ensures log[i] != log[j]
  {
    if log[i] == log[j] {
      TwiceInMultiset(log, i, j);
    }
  }

  lemma TwiceInMultiset<T>(s: seq<T>, i: nat, j: nat)
    requires i < |s| && j < |s| && i != j && s[i] == s[j]
    ensures multiset(s)[s[i]] >= 2
  {
    var lo, hi := if i < j then i else j, if i < j then j else i;
    assert s == s[..lo] + [s[lo]] + s[lo + 1..hi] + [s[hi]] + s[hi + 1..];
  }

  lemma FirstIsNotRepeated(log: seq<RetryAttempt>)
    requires Ordered(log) && log != []
    ensures log[0] !in log[1..]
  {
    forall k | 0 <= k < |log[1..]| ensures log[1..][k] != log[0] {
      assert Before(log[0], log[k + 1]);
    }
  }

  lemma {:induction false} OrderedHasNoTwins(log: seq<RetryAttempt>, entry: RetryAttempt)
    requires Ordered(log)
    ensures multiset(log)[entry] <= 1
  {
    if log != [] {
      OrderedHasNoTwins(log[1..], entry);
      FirstIsNotRepeated(log);
      assert log == [log[0]] + log[1..];
    }
  }

  /** However the units' attempts interleave, rendering them gives the one ordered list of them. */
  lemma RenderedLogIsScheduleIndependent(log: seq<RetryAttempt>, serial: seq<RetryAttempt>)
    requires Ordered(serial) && multiset(log) == multiset(serial)
    ensures Sorted(log) == serial
  {
    OrderedKeysAreUnique(log, serial);
    SortedIsOrdered(log);
    OrderedLogIsUnique(Sorted(log), serial);
  }
}
