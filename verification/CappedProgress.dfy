/**
 The byte counter shared by concurrent readers (pkg/oci/progress.go).

 The first half is the counter as an explicit step machine: each caller of Add is at one
 stage, `Advance` performs one atomic action of one caller, and a schedule is the order in
 which callers act.  "Every interleaving" is therefore "every schedule".  The second half is
 the same loop as an imperative method whose environment may move the counter between any
 two of its atomic actions.
 */
module CappedProgress {
  import opened Sequences

  datatype Stage =
    | Entry                 // about to load the counter (also after a failed swap)
    | Loaded(seen: int)     // holds the loaded value, about to compare and swap
    | Claimed(delta: int)   // owns delta bytes, about to report them
    | Finished

  datatype Caller = Caller(bytes: int, stage: Stage)

  datatype State = State(
    total: int,
    current: int,
    reported: int,
    retries: nat,
    swaps: nat,
    callers: seq<Caller>)

  function Min(a: int, b: int): int {
    if a <= b then a else b
  }

  function Begin(total: int, amounts: seq<int>): State {
    State(total, 0, 0, 0, 0, seq(|amounts|, i requires 0 <= i < |amounts| => Caller(amounts[i], Entry)))
  }

  function At(s: State, i: nat, stage: Stage): State
    requires i < |s.callers|
  {
    s.(callers := s.callers[i := s.callers[i].(stage := stage)])
  }

  /** One atomic action of caller i; a finished caller has none. */
  function Advance(s: State, i: nat): State
    requires i < |s.callers|
  {
    var c := s.callers[i];
    match c.stage
    case Entry =>
      if c.bytes <= 0 then At(s, i, Finished)
      else if s.total <= 0 then At(s, i, Claimed(c.bytes))
      else if s.total - s.current <= 0 then At(s, i, Finished)
      else At(s, i, Loaded(s.current))
    case Loaded(seen) =>
      if s.current == seen then
        var delta := Min(c.bytes, s.total - seen);
        At(s, i, Claimed(delta)).(current := seen + delta, swaps := s.swaps + 1)
      else
        At(s, i, Entry).(retries := s.retries + 1)
    case Claimed(delta) =>
      At(s, i, Finished).(reported := s.reported + delta)
    case Finished => s
  }

  ghost predicate Schedule(s: State, order: seq<nat>) {
    forall k :: 0 <= k < |order| ==> order[k] < |s.callers|
  }

  function Execute(s: State, order: seq<nat>): (s': State)
    requires Schedule(s, order)
    ensures |s'.callers| == |s.callers|
  {
    if order == [] then s else Advance(Execute(s, order[..|order| - 1]), order[|order| - 1])
  }

  ghost predicate Quiescent(s: State) {
    forall i :: 0 <= i < |s.callers| ==> s.callers[i].stage == Finished
  }

  /** Every action in the schedule is taken by a caller that still has one. */
  ghost predicate Effective(s: State, order: seq<nat>)
    requires Schedule(s, order)
  {
    order == [] ||
    var before := order[..|order| - 1];
    Effective(s, before) && Execute(s, before).callers[order[|order| - 1]].stage != Finished
  }

  // ----- What the callers own, have delivered, and still have to do

  function Positive(bytes: int): int { if bytes > 0 then bytes else 0 }

  function Owned(c: Caller): int { if c.stage.Claimed? then c.stage.delta else 0 }

  function Delivered(c: Caller): int {
    if c.stage.Claimed? || c.stage.Finished? then Positive(c.bytes) else 0
  }

  function Left(c: Caller): int {
    match c.stage
    case Entry => 3
    case Loaded(_) => 2
    case Claimed(_) => 1
    case Finished => 0
  }

  predicate Competing(c: Caller) { c.stage.Entry? || c.stage.Loaded? }

  function Stale(current: int): Caller -> bool {
    (c: Caller) => c.stage.Loaded? && c.stage.seen != current
  }

  const OwnedBytes: Caller -> int := c => Owned(c)
  const DeliveredBytes: Caller -> int := c => Delivered(c)
  const ActionsLeft: Caller -> int := c => Left(c)
  const PositiveBytes: int -> int := b => Positive(b)
  const IsCompeting: Caller -> bool := c => Competing(c)

  ghost predicate CallerValid(s: State, c: Caller) {
    match c.stage
    case Entry => true
    case Loaded(seen) => c.bytes > 0 && s.total > 0 && 0 <= seen <= s.current && seen < s.total
    case Claimed(delta) => 0 < delta <= c.bytes
    case Finished => true
  }

  /** The accounting every interleaving keeps. */
  ghost predicate Accounted(s: State) {
    && (forall i :: 0 <= i < |s.callers| ==> CallerValid(s, s.callers[i]))
    && (if s.total > 0 then
          && 0 <= s.current <= s.total
          && s.current == s.reported + Sum(s.callers, OwnedBytes)
          && s.current <= Sum(s.callers, DeliveredBytes)
          && (s.current < s.total ==> s.current == Sum(s.callers, DeliveredBytes))
        else
          && s.current == 0
          && s.reported + Sum(s.callers, OwnedBytes) == Sum(s.callers, DeliveredBytes))
  }

  lemma BeginAccounted(total: int, amounts: seq<int>)
    ensures Accounted(Begin(total, amounts))
  {
    var s := Begin(total, amounts);
    SumConst(s.callers, OwnedBytes, 0);
    SumConst(s.callers, DeliveredBytes, 0);
  }

  lemma AdvanceAccounted(s: State, i: nat)
    requires Accounted(s) && i < |s.callers|
    ensures Accounted(Advance(s, i))
  {
    var s' := Advance(s, i);
    var c := s.callers[i];
    assert CallerValid(s, c);
    SumUpdate(s.callers, OwnedBytes, i, s'.callers[i]);
    SumUpdate(s.callers, DeliveredBytes, i, s'.callers[i]);
    assert c.stage.Finished? ==> s' == s;
    forall j | 0 <= j < |s'.callers|
      ensures CallerValid(s', s'.callers[j])
    {
      assert CallerValid(s, s.callers[j]);
    }
  }

  lemma {:induction false} ExecuteAccounted(total: int, amounts: seq<int>, order: seq<nat>)
    requires Schedule(Begin(total, amounts), order)
    ensures Accounted(Execute(Begin(total, amounts), order))
  {
    if order == [] {
      BeginAccounted(total, amounts);
    } else {
      ExecuteAccounted(total, amounts, order[..|order| - 1]);
      AdvanceAccounted(Execute(Begin(total, amounts), order[..|order| - 1]), order[|order| - 1]);
    }
  }

  lemma {:induction false} ExecuteKeepsBytes(s: State, order: seq<nat>, i: nat)
    requires Schedule(s, order) && i < |s.callers|
    ensures Execute(s, order).total == s.total
    ensures Execute(s, order).callers[i].bytes == s.callers[i].bytes
  {
    if order != [] {
      ExecuteKeepsBytes(s, order[..|order| - 1], i);
    }
  }

  /** At every reachable moment the counter is within bounds and equals what was reported plus what is owned. */
  lemma CounterBounded(total: int, amounts: seq<int>, order: seq<nat>)
    requires Schedule(Begin(total, amounts), order)
    requires total > 0
    ensures
      var s := Execute(Begin(total, amounts), order);
      && 0 <= s.current <= total
      && s.current - s.reported == Sum(s.callers, OwnedBytes)
      && 0 <= s.reported <= s.current
  {
    ExecuteAccounted(total, amounts, order);
    var s := Execute(Begin(total, amounts), order);
    ExecuteTotal(Begin(total, amounts), order);
    forall i | 0 <= i < |s.callers| ensures Owned(s.callers[i]) >= 0 {
      assert CallerValid(s, s.callers[i]);
    }
    OwnedNonNegative(s.callers);
    ReportedNonNegative(total, amounts, order);
  }

  lemma {:induction false} ExecuteTotal(s: State, order: seq<nat>)
    requires Schedule(s, order)
    ensures Execute(s, order).total == s.total
  {
    if order != [] {
      ExecuteTotal(s, order[..|order| - 1]);
    }
  }

  lemma OwnedNonNegative(callers: seq<Caller>)
    requires forall i :: 0 <= i < |callers| ==> Owned(callers[i]) >= 0
    ensures Sum(callers, OwnedBytes) >= 0
  {
    SumConst(callers, (c: Caller) => 0, 0);
    SumLeq(callers, (c: Caller) => 0, callers, OwnedBytes);
  }

  lemma {:induction false} ReportedNonNegative(total: int, amounts: seq<int>, order: seq<nat>)
    requires Schedule(Begin(total, amounts), order)
    ensures Execute(Begin(total, amounts), order).reported >= 0
  {
    if order != [] {
      var before := Execute(Begin(total, amounts), order[..|order| - 1]);
      ReportedNonNegative(total, amounts, order[..|order| - 1]);
      ExecuteAccounted(total, amounts, order[..|order| - 1]);
      assert CallerValid(before, before.callers[order[|order| - 1]]);
    }
  }

  /**
   Whatever the interleaving, once all callers have returned the listener has been told
   exactly the bytes read, capped at a positive total and uncapped otherwise.
   */
  lemma QuiescentReport(total: int, amounts: seq<int>, order: seq<nat>)
    requires Schedule(Begin(total, amounts), order)
    requires Quiescent(Execute(Begin(total, amounts), order))
    ensures
      var read := Sum(amounts, PositiveBytes);
      Execute(Begin(total, amounts), order).reported == if total > 0 then Min(total, read) else read
  {
    var b := Begin(total, amounts);
    var s := Execute(b, order);
    ExecuteAccounted(total, amounts, order);
    ExecuteTotal(b, order);
    SumConst(s.callers, OwnedBytes, 0);
    forall i | 0 <= i < |amounts|
      ensures Delivered(s.callers[i]) == Positive(amounts[i])
    {
      ExecuteKeepsBytes(b, order, i);
    }
    SumLeq(s.callers, DeliveredBytes, amounts, PositiveBytes);
    SumLeq(amounts, PositiveBytes, s.callers, DeliveredBytes);
  }

  // ----- Lock freedom: failed swaps are paid for by successful ones

  /** Twice the number of swaps that the first k successful ones of n callers can make fail. */
  function Allowance(n: int, k: nat): int {
    if k == 0 then 0 else Allowance(n, k - 1) + 2 * (n - k)
  }

  /**
   With n callers the k-th successful swap can make at most n - k others stale, and only a
   stale caller retries.
   */
  ghost predicate RetriesPaid(s: State) {
    var n := |s.callers|;
    && s.swaps + Count(s.callers, IsCompeting) <= n
    && 2 * (s.retries + Count(s.callers, Stale(s.current))) <= Allowance(n, s.swaps)
  }

  lemma {:induction false} StaleAtMostCompeting(callers: seq<Caller>, current: int)
    ensures Count(callers, Stale(current)) <= Count(callers, IsCompeting)
  {
    if callers != [] {
      StaleAtMostCompeting(callers[1..], current);
    }
  }

  lemma SwapPays(n: int, k: nat, competing: int, retries: int, stale: int, stale': int)
    requires k + competing <= n
    requires 0 <= stale && stale' <= competing - 1
    requires 2 * (retries + stale) <= Allowance(n, k)
    ensures 2 * (retries + stale') <= Allowance(n, k + 1)
  {
  }

  lemma AdvanceRetriesPaid(s: State, i: nat)
    requires Accounted(s) && RetriesPaid(s) && i < |s.callers|
    ensures RetriesPaid(Advance(s, i))
  {
    var s' := Advance(s, i);
    var c := s.callers[i];
    assert CallerValid(s, c);
    CountUpdate(s.callers, IsCompeting, i, s'.callers[i]);
    CountUpdate(s.callers, Stale(s.current), i, s'.callers[i]);
    if c.stage.Loaded? && c.stage.seen == s.current {
      StaleAtMostCompeting(s'.callers, s'.current);
      SwapPays(|s.callers|, s.swaps, Count(s.callers, IsCompeting), s.retries,
               Count(s.callers, Stale(s.current)), Count(s'.callers, Stale(s'.current)));
    } else if c.stage.Finished? {
      assert s' == s;
    } else {
      assert s'.current == s.current;
    }
  }

  lemma {:induction false} ExecuteRetriesPaid(total: int, amounts: seq<int>, order: seq<nat>)
    requires Schedule(Begin(total, amounts), order)
    ensures RetriesPaid(Execute(Begin(total, amounts), order))
  {
    var b := Begin(total, amounts);
    if order == [] {
      CountZero(b.callers, Stale(0));
    } else {
      ExecuteRetriesPaid(total, amounts, order[..|order| - 1]);
      ExecuteAccounted(total, amounts, order[..|order| - 1]);
      AdvanceRetriesPaid(Execute(b, order[..|order| - 1]), order[|order| - 1]);
    }
  }

  /** n concurrent calls retry at most n(n-1)/2 times in total, however they interleave. */
  lemma RetryBound(total: int, amounts: seq<int>, order: seq<nat>)
    requires Schedule(Begin(total, amounts), order)
    ensures 2 * Execute(Begin(total, amounts), order).retries <= |amounts| * (|amounts| - 1)
  {
    ExecuteRetriesPaid(total, amounts, order);
    var s := Execute(Begin(total, amounts), order);
    AllowanceBound(|amounts|, s.swaps);
  }

  /** Adding 2(n-1), 2(n-2) and so on down to zero gives n(n-1). */
  lemma {:induction false} AllowanceBound(n: nat, k: nat)
    requires k <= n
    ensures Allowance(n, k) <= n * (n - 1)
    decreases n - k
  {
    if k == n {
      AllowanceTotal(n, n);
    } else {
      AllowanceBound(n, k + 1);
    }
  }

  lemma {:induction false} AllowanceTotal(n: nat, k: nat)
    ensures Allowance(n, k) == k * (2 * n - 1 - k)
  {
    if k > 0 {
      AllowanceTotal(n, k - 1);
      var w := 2 * n - 1 - k;
      assert k * w == (k - 1) * w + w;
      assert (k - 1) * (w + 1) == (k - 1) * w + (k - 1);
    }
  }

  lemma {:induction false} EffectiveSteps(total: int, amounts: seq<int>, order: seq<nat>)
    requires Schedule(Begin(total, amounts), order)
    requires Effective(Begin(total, amounts), order)
    ensures
      var s := Execute(Begin(total, amounts), order);
      |order| + Sum(s.callers, ActionsLeft) <= 3 * |amounts| + 2 * s.retries
  {
    var b := Begin(total, amounts);
    if order == [] {
      SumConst(b.callers, ActionsLeft, 3);
    } else {
      var before := Execute(b, order[..|order| - 1]);
      var i := order[|order| - 1];
      EffectiveSteps(total, amounts, order[..|order| - 1]);
      SumUpdate(before.callers, ActionsLeft, i, Advance(before, i).callers[i]);
    }
  }

  /** The whole group finishes within n(n+2) actions: no schedule keeps it busy longer. */
  lemma Termination(total: int, amounts: seq<int>, order: seq<nat>)
    requires Schedule(Begin(total, amounts), order)
    requires Effective(Begin(total, amounts), order)
    ensures |order| <= |amounts| * (|amounts| + 2)
  {
    var s := Execute(Begin(total, amounts), order);
    EffectiveSteps(total, amounts, order);
    RetryBound(total, amounts, order);
    ActionsLeftNonNegative(s.callers);
    ActionBudget(|amounts|, |order|, s.retries);
  }

  lemma ActionsLeftNonNegative(callers: seq<Caller>)
    ensures Sum(callers, ActionsLeft) >= 0
  {
    SumConst(callers, (c: Caller) => 0, 0);
    SumLeq(callers, (c: Caller) => 0, callers, ActionsLeft);
  }

  lemma ActionBudget(n: nat, actions: nat, retries: nat)
    requires actions <= 3 * n + 2 * retries && 2 * retries <= n * (n - 1)
    ensures actions <= n * (n + 2)
  {
    assert n * (n + 2) == n * (n - 1) + 3 * n;
  }

  // ----- Totals of manifest descriptors

  /** The ceiling handed to the counter: the sum of the positive descriptor sizes. */
  method DescriptorTotal(sizes: seq<int>) returns (total: int)
    ensures total == Sum(sizes, PositiveBytes)
  {
    total := 0;
    for i := 0 to |sizes|
      invariant total == Sum(sizes[..i], PositiveBytes)
    {
      assert sizes[..i + 1] == sizes[..i] + [sizes[i]];
      SumAppend(sizes[..i], [sizes[i]], PositiveBytes);
      assert [sizes[i]][1..] == [];
      if sizes[i] > 0 {
        total := total + sizes[i];
      }
    }
    assert sizes[..|sizes|] == sizes;
  }

  /** A copy that reads, fetches or skips exactly the manifest's bytes reports exactly the announced total. */
  lemma FullTransferReportsTotal(sizes: seq<int>, amounts: seq<int>, order: seq<nat>)
    requires Sum(amounts, PositiveBytes) == Sum(sizes, PositiveBytes)
    requires Schedule(Begin(Sum(sizes, PositiveBytes), amounts), order)
    requires Quiescent(Execute(Begin(Sum(sizes, PositiveBytes), amounts), order))
    ensures Execute(Begin(Sum(sizes, PositiveBytes), amounts), order).reported == Sum(sizes, PositiveBytes)
  {
    QuiescentReport(Sum(sizes, PositiveBytes), amounts, order);
  }

  // ----- The compare-and-swap loop itself

  class CappedTransferProgress {
    const total: int
    var current: int
    ghost var others: int   // how far other callers have moved the counter

    ghost predicate Valid()
      reads this
    {
      total > 0 ==> 0 <= current <= total
    }

    constructor (totalBytes: int)
      ensures Valid() && total == totalBytes && current == 0
    {
      total := totalBytes;
      current := 0;
      others := 0;
    }

    /** Other callers: with a positive total they may only move the counter up, never past it. */
    method Interfere()
      requires Valid() && total > 0
      modifies this`current, this`others
      ensures Valid() && old(current) <= current
      ensures others - old(others) == current - old(current)
    {
      var moved: int :| current <= moved <= total;
      others := others + (moved - current);
      current := moved;
    }

    method CompareAndSwap(expected: int, next: int) returns (swapped: bool)
      modifies this`current
      ensures swapped <==> old(current) == expected
      ensures current == if swapped then next else old(current)
    {
      swapped := current == expected;
      if swapped {
        current := next;
      }
    }

    /**
     `told` is what this call reports to the listener.  Under any interference the call
     returns, tells exactly what it added to the counter itself, and withholds bytes only when
     the ceiling is reached; every lost race is paid for by growth of the counter.
     */
    method Add(bytes: int) returns (told: int)
      requires Valid()
      modifies this`current, this`others
      ensures Valid()
      ensures 0 <= told <= Positive(bytes)
      ensures total <= 0 ==> told == Positive(bytes) && current == old(current)
      ensures total > 0 ==> others >= old(others) && current - old(current) == told + (others - old(others))
      ensures told < Positive(bytes) ==> total > 0 && current == total
    {
      if bytes <= 0 {
        return 0;
      }
      if total <= 0 {
        return bytes;
      }
      while true
        invariant Valid() && others - old(others) == current - old(current) >= 0
        decreases total - current
      {
        ghost var atLoad := current;
        var seen := current;
        var remaining := total - seen;
        if remaining <= 0 {
          return 0;
        }
        var delta := Min(bytes, remaining);
        Interfere();
        var swapped := CompareAndSwap(seen, seen + delta);
        if swapped {
          return delta;
        }
        assert atLoad < current;
      }
    }
  }
}
