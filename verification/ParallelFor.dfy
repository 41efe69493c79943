/** `parallel_for`: threads carve [0, num) into chunks with fetch_add on one shared
    counter. The counter and the chunk arithmetic are `size_t`, so they wrap at 2^64;
    whether that can do harm is decided exactly, by `WrapHarmless`. A run is any
    interleaving of the threads' fetch_add steps, calls of `func` and loop tests. */
module ParallelFor {
  import opened Common
  import opened Tally

  /** What a `size_t` keeps of a number. */
  function Wrapped(x: nat): (w: nat)
    ensures w < SIZE_MAX_PLUS_ONE && w <= x
  {
    if x < SIZE_MAX_PLUS_ONE then x else Wrapped(x - SIZE_MAX_PLUS_ONE)
  }

  lemma {:induction false} WrappedIsRemainder(x: nat)
    ensures Wrapped(x) == x % SIZE_MAX_PLUS_ONE
  {
    if x >= SIZE_MAX_PLUS_ONE {
      WrappedIsRemainder(x - SIZE_MAX_PLUS_ONE);
    }
  }

  lemma {:induction false} WrappedSum(x: nat, y: nat)
    ensures Wrapped(Wrapped(x) + y) == Wrapped(x + y)
  {
    if x >= SIZE_MAX_PLUS_ONE {
      WrappedSum(x - SIZE_MAX_PLUS_ONE, y);
    }
  }

  datatype Thread =
    | Fetching                // about to fetch_add
    | Calling(a: nat, b: nat) // the iterator is at begin + a, the chunk ends at begin + b
    | Done

  datatype Job = Job(num: nat, parallelism: nat, chunk: nat)

  datatype State = State(cur: nat, threads: seq<Thread>, fetches: nat, calls: seq<int>)

  datatype Action = Fetch(t: nat) | Advance(t: nat)

  /** The chunk the loop uses: the argument, or by default the even share. */
  function EffectiveChunk(num: nat, parallelism: nat, chunk: nat): (c: nat)
    requires parallelism > 0
  {
    if chunk == 0 then Wrapped(num + parallelism - 1) / parallelism else chunk
  }

  ghost predicate WellFormed(j: Job)
  {
    j.num < SIZE_MAX_PLUS_ONE && j.chunk < SIZE_MAX_PLUS_ONE && j.parallelism > 0
  }

  function Init(j: Job): (s: State)
  {
    State(0, seq(j.parallelism, _ => Fetching), 0, [])
  }

  predicate Enabled(s: State, a: Action)
  {
    match a
    case Fetch(t) => t < |s.threads| && s.threads[t].Fetching?
    case Advance(t) => t < |s.threads| && s.threads[t].Calling?
  }

  function Claim(j: Job, x: nat): (pc: Thread)
  {
    if x >= j.num then Done
    else
      var y := Wrapped(x + j.chunk);
      Calling(x, if y < j.num then y else j.num)
  }

  function Apply(j: Job, s: State, a: Action): State
    requires Enabled(s, a)
  {
    match a
    case Fetch(t) =>
      State(Wrapped(s.cur + j.chunk), s.threads[t := Claim(j, s.cur)], s.fetches + 1, s.calls)
    case Advance(t) =>
      var Calling(a, b) := s.threads[t];
      if a == b then s.(threads := s.threads[t := Fetching])
      else s.(threads := s.threads[t := Calling(a + 1, b)], calls := s.calls + [a])
  }

  ghost predicate Run(j: Job, from: State, schedule: seq<Action>, to: State)
    decreases |schedule|
  {
    if schedule == [] then from == to
    else Enabled(from, schedule[0]) && Run(j, Apply(j, from, schedule[0]), schedule[1..], to)
  }

  ghost predicate Reachable(j: Job, schedule: seq<Action>, s: State)
  {
    Run(j, Init(j), schedule, s)
  }

  predicate Complete(s: State)
  {
    forall t :: 0 <= t < |s.threads| ==> s.threads[t].Done?
  }

  // ---------------------------------------------------------------- ranges as bags

  /** The indices from `a` up to `b`, each once. */
  function Range(a: int, b: int): (r: multiset<int>)
    decreases b - a
  {
    if a >= b then multiset{} else multiset{a} + Range(a + 1, b)
  }

  lemma {:induction false} RangeCounts(a: int, b: int, i: int)
    ensures Range(a, b)[i] == if a <= i < b then 1 else 0
    decreases b - a
  {
    if a < b {
      RangeCounts(a + 1, b, i);
      assert Range(a, b)[i] == multiset{a}[i] + Range(a + 1, b)[i];
    }
  }

  lemma RangeSplits(a: int, b: int, c: int)
    requires a <= b <= c
    ensures Range(a, b) + Range(b, c) == Range(a, c)
  {
    forall i: int
      ensures (Range(a, b) + Range(b, c))[i] == Range(a, c)[i]
    {
      RangeCounts(a, b, i);
      RangeCounts(b, c, i);
      RangeCounts(a, c, i);
    }
  }

  ghost predicate EachIndexOnce(j: Job, calls: seq<int>)
  {
    multiset(calls) == Range(0, j.num)
  }

  /** What a thread will still call. A chunk whose end lies before its start has run
      past its end: the loop tests `a != b`, so at least the next index is called. */
  function ToCall(t: Thread): multiset<int>
  {
    if !t.Calling? then multiset{}
    else if t.a <= t.b then Range(t.a, t.b)
    else multiset{t.a}
  }

  /** Everything called so far together with everything claimed but not yet called. */
  ghost function Claimed(s: State): multiset<int>
  {
    multiset(s.calls) + Collect(s.threads, ToCall)
  }

  // ------------------------------------------------ when wrap-around does no harm

  /** Where fetch number `i` would start if the counter did not wrap. */
  function Position(j: Job, i: nat): (x: nat)
    ensures i > 0 ==> x >= j.chunk
  {
    if i == 0 then 0 else Position(j, i - 1) + j.chunk
  }

  /** The counter's value before fetch number `i`. */
  function Value(j: Job, i: nat): nat
  {
    if i == 0 then 0 else Wrapped(Value(j, i - 1) + j.chunk)
  }

  lemma {:induction false} ValueIsPosition(j: Job, i: nat)
    ensures Value(j, i) == Wrapped(Position(j, i))
  {
    if i > 0 {
      ValueIsPosition(j, i - 1);
      WrappedSum(Position(j, i - 1), j.chunk);
    }
  }

  /** The number of chunks, which is the number of fetches that should claim one. */
  function Chunks(j: Job): (k: nat)
    requires j.num > 0 ==> j.chunk > 0
  {
    ChunksFrom(j, 0)
  }

  /** The first fetch from number `i` on that starts beyond the range. */
  function ChunksFrom(j: Job, i: nat): (k: nat)
    requires j.num > 0 ==> j.chunk > 0
    ensures k >= i && Position(j, k) >= j.num
    ensures forall f :: i <= f < k ==> Position(j, f) < j.num
    decreases j.num - Position(j, i)
  {
    if Position(j, i) >= j.num then i else ChunksFrom(j, i + 1)
  }

  lemma {:induction false} PositionIsProduct(j: Job, i: nat)
    ensures Position(j, i) == i * j.chunk
  {
    if i > 0 {
      PositionIsProduct(j, i - 1);
      assert i * j.chunk == (i - 1) * j.chunk + j.chunk;
    }
  }

  lemma {:induction false} PositionMonotone(j: Job, f: nat, g: nat)
    requires f <= g
    ensures Position(j, f) <= Position(j, g)
  {
    if f < g {
      PositionMonotone(j, f, g - 1);
    }
  }

  /** Every thread's last fetch, and the end of the last chunk, must read as out of
      range even after wrapping. A caller can evaluate this before the call. */
  ghost predicate WrapHarmless(j: Job)
  {
    j.num > 0 ==>
      && j.chunk > 0
      && forall i: nat :: Chunks(j) <= i < Chunks(j) + j.parallelism ==> Value(j, i) >= j.num
  }

  // ------------------------------------------------ orderly runs

  function IsDone(t: Thread): nat
  {
    if t.Done? then 1 else 0
  }

  /** The first indices are claimed in order, each once; fetches beyond the last
      chunk have each retired one thread. */
  ghost predicate Orderly(j: Job, s: State)
    requires j.num > 0 ==> j.chunk > 0
  {
    CounterOrderly(j, s) && ClaimsOrderly(j, s)
  }

  ghost predicate CounterOrderly(j: Job, s: State)
    requires j.num > 0 ==> j.chunk > 0
  {
    && |s.threads| == j.parallelism
    && s.cur == Value(j, s.fetches)
    && Total(s.threads, IsDone) == (if s.fetches <= Chunks(j) then 0 else s.fetches - Chunks(j))
  }

  ghost predicate ClaimsOrderly(j: Job, s: State)
  {
    NoRunaway(s) && Claimed(s) == Range(0, Reach(j, s.fetches))
  }

  /** No thread has stepped past the end of its chunk. */
  ghost predicate NoRunaway(s: State)
  {
    forall t :: 0 <= t < |s.threads| && s.threads[t].Calling? ==> s.threads[t].a <= s.threads[t].b
  }

  /** How far the first `f` fetches have claimed. */
  function Reach(j: Job, f: nat): nat
  {
    Min(Position(j, f), j.num)
  }

  lemma InitOrderly(j: Job)
    requires j.num > 0 ==> j.chunk > 0
    ensures Orderly(j, Init(j))
  {
    TotalIsZero(Init(j).threads, IsDone);
    CollectIsEmpty(Init(j).threads, ToCall);
  }

  /** Fetch number `f` does what it should: claim the next chunk, or retire the thread. */
  ghost predicate FetchFits(j: Job, f: nat)
    requires j.num > 0 ==> j.chunk > 0
  {
    if f < Chunks(j) then Position(j, f + 1) < SIZE_MAX_PLUS_ONE else Value(j, f) >= j.num
  }

  lemma ClaimIsNextChunk(j: Job, f: nat)
    requires WellFormed(j) && (j.num > 0 ==> j.chunk > 0)
    requires f < Chunks(j) && Position(j, f + 1) < SIZE_MAX_PLUS_ONE
    ensures Claim(j, Value(j, f)) == Calling(Position(j, f), Reach(j, f + 1))
  {
    ValueIsPosition(j, f);
  }

  lemma FetchKeepsCounter(j: Job, s: State, t: nat)
    requires WellFormed(j) && (j.num > 0 ==> j.chunk > 0)
    requires CounterOrderly(j, s) && Enabled(s, Fetch(t)) && FetchFits(j, s.fetches)
    ensures CounterOrderly(j, Apply(j, s, Fetch(t)))
  {
    TotalUpdate(s.threads, t, Claim(j, s.cur), IsDone);
    if s.fetches < Chunks(j) {
      ClaimIsNextChunk(j, s.fetches);
    }
  }

  /** Claiming a chunk moves the claimed range on by exactly that chunk. */
  lemma ClaimExtendsRange(j: Job, f: nat)
    requires WellFormed(j) && (j.num > 0 ==> j.chunk > 0) && FetchFits(j, f)
    ensures Range(0, Reach(j, f)) + ToCall(Claim(j, Value(j, f))) == Range(0, Reach(j, f + 1))
    ensures var pc := Claim(j, Value(j, f)); pc.Calling? ==> pc.a <= pc.b
  {
    if f < Chunks(j) {
      ClaimIsNextChunk(j, f);
      RangeSplits(0, Position(j, f), Reach(j, f + 1));
    } else {
      PositionMonotone(j, Chunks(j), f);
    }
  }

  lemma FetchKeepsClaims(j: Job, s: State, t: nat)
    requires ClaimsOrderly(j, s) && Enabled(s, Fetch(t))
    requires Range(0, Reach(j, s.fetches)) + ToCall(Claim(j, s.cur)) == Range(0, Reach(j, s.fetches + 1))
    requires Claim(j, s.cur).Calling? ==> Claim(j, s.cur).a <= Claim(j, s.cur).b
    ensures ClaimsOrderly(j, Apply(j, s, Fetch(t)))
  {
    FetchAddsClaim(j, s, t);
    NoRunawayUpdate(s, t, Claim(j, s.cur));
  }

  lemma NoRunawayUpdate(s: State, t: nat, pc: Thread)
    requires NoRunaway(s) && t < |s.threads| && (pc.Calling? ==> pc.a <= pc.b)
    ensures NoRunaway(s.(threads := s.threads[t := pc]))
  {
  }

  lemma FetchAddsClaim(j: Job, s: State, t: nat)
    requires Enabled(s, Fetch(t))
    ensures Claimed(Apply(j, s, Fetch(t))) == Claimed(s) + ToCall(Claim(j, s.cur))
  {
    CollectUpdate(s.threads, t, Claim(j, s.cur), ToCall);
    var bag, more := Collect(s.threads, ToCall), ToCall(Claim(j, s.cur));
    assert bag - multiset{} + more == bag + more;
    assert multiset(s.calls) + (bag + more) == multiset(s.calls) + bag + more;
  }

  /** One turn of the calling loop keeps the claims, unless it has run past its end. */
  lemma AdvanceKeepsClaims(j: Job, s: State, t: nat)
    requires Enabled(s, Advance(t)) && s.threads[t].a <= s.threads[t].b
    ensures Claimed(Apply(j, s, Advance(t))) == Claimed(s)
  {
    var s', a, b := Apply(j, s, Advance(t)), s.threads[t].a, s.threads[t].b;
    CollectUpdate(s.threads, t, s'.threads[t], ToCall);
    if a == b {
      assert ToCall(s.threads[t]) == ToCall(s'.threads[t]);
    } else {
      assert multiset(s'.calls) == multiset(s.calls) + multiset{a};
      CallOne(multiset(s.calls), Collect(s.threads, ToCall), a, Range(a + 1, b));
    }
  }

  lemma CallOne(called: multiset<int>, claimed: multiset<int>, a: int, rest: multiset<int>)
    requires multiset{a} + rest <= claimed
    ensures called + multiset{a} + (claimed - (multiset{a} + rest) + rest) == called + claimed
  {
  }

  lemma AdvanceKeepsOrder(j: Job, s: State, t: nat)
    requires j.num > 0 ==> j.chunk > 0
    requires Orderly(j, s) && Enabled(s, Advance(t))
    ensures Orderly(j, Apply(j, s, Advance(t)))
  {
    var s' := Apply(j, s, Advance(t));
    AdvanceFrame(j, s, t);
    AdvanceKeepsClaims(j, s, t);
    assert Claimed(s') == Range(0, Reach(j, s'.fetches));
  }

  lemma AdvanceFrame(j: Job, s: State, t: nat)
    requires NoRunaway(s) && Enabled(s, Advance(t))
    ensures var s' := Apply(j, s, Advance(t));
            && s'.fetches == s.fetches && s'.cur == s.cur && |s'.threads| == |s.threads|
            && Total(s'.threads, IsDone) == Total(s.threads, IsDone) && NoRunaway(s')
  {
    TotalPointwise(s.threads, Apply(j, s, Advance(t)).threads, IsDone);
  }

  lemma StepKeepsOrder(j: Job, s: State, a: Action)
    requires WellFormed(j) && (j.num > 0 ==> j.chunk > 0)
    requires Orderly(j, s) && Enabled(s, a) && (a.Fetch? ==> FetchFits(j, s.fetches))
    ensures Orderly(j, Apply(j, s, a))
  {
    match a
    case Fetch(t) =>
      FetchKeepsCounter(j, s, t);
      ClaimExtendsRange(j, s.fetches);
      FetchKeepsClaims(j, s, t);
    case Advance(t) => AdvanceKeepsOrder(j, s, t);
  }

  // ------------------------------------------------ harmless wrap: each index once

  lemma HarmlessFits(j: Job, s: State, t: nat)
    requires WellFormed(j) && WrapHarmless(j) && Orderly(j, s) && Enabled(s, Fetch(t))
    ensures FetchFits(j, s.fetches)
  {
    var f, k := s.fetches, Chunks(j);
    if f < k {
      assert Value(j, k) >= j.num;
      LastChunkFits(j);
      PositionMonotone(j, f + 1, k);
    } else if j.num > 0 {
      TotalAtMostLength(s.threads, IsDone);
      assert f < k + j.parallelism;
    }
  }

  /** If the last chunk's end wrapped, it would read as inside the range. */
  lemma LastChunkFits(j: Job)
    requires WellFormed(j) && j.num > 0 && j.chunk > 0
    ensures Value(j, Chunks(j)) >= j.num <==> Position(j, Chunks(j)) < SIZE_MAX_PLUS_ONE
  {
    ValueIsPosition(j, Chunks(j));
    assert Position(j, Chunks(j) - 1) < j.num;
  }

  lemma {:induction false} RunKeepsOrder(j: Job, from: State, schedule: seq<Action>, to: State)
    requires WellFormed(j) && WrapHarmless(j) && Orderly(j, from) && Run(j, from, schedule, to)
    ensures Orderly(j, to)
    decreases |schedule|
  {
    if schedule != [] {
      if schedule[0].Fetch? {
        HarmlessFits(j, from, schedule[0].t);
      }
      StepKeepsOrder(j, from, schedule[0]);
      RunKeepsOrder(j, Apply(j, from, schedule[0]), schedule[1..], to);
    }
  }

  /** The end of a run: every thread has retired. */
  lemma CompleteClaimsAll(j: Job, s: State)
    requires WellFormed(j) && (j.num > 0 ==> j.chunk > 0) && Orderly(j, s) && Complete(s)
    ensures s.fetches == Chunks(j) + j.parallelism && EachIndexOnce(j, s.calls)
  {
    TotalAtMostLength(s.threads, IsDone);
    CollectIsEmpty(s.threads, ToCall);
    PositionMonotone(j, Chunks(j), s.fetches);
    assert Reach(j, s.fetches) == j.num;
    assert Claimed(s) == multiset(s.calls);
  }

  // ------------------------------------------------ every run ends, in a fixed number of steps

  function Work(t: Thread): nat
  {
    if t.Calling? && t.a <= t.b then 1 + t.b - t.a else 0
  }

  /** Steps left: two and the calls for each unclaimed chunk, one fetch to retire
      each thread, and what the claimed chunks still need. */
  ghost function Remaining(j: Job, s: State): int
    requires j.num > 0 ==> j.chunk > 0
  {
    2 * (Chunks(j) - Min(s.fetches, Chunks(j))) + (j.num - Reach(j, s.fetches))
    + (j.parallelism - Total(s.threads, IsDone)) + Total(s.threads, Work)
  }

  lemma StepCountsDown(j: Job, s: State, a: Action)
    requires WellFormed(j) && WrapHarmless(j) && Orderly(j, s) && Enabled(s, a)
    ensures Remaining(j, Apply(j, s, a)) == Remaining(j, s) - 1
  {
    match a
    case Fetch(t) => FetchCountsDown(j, s, t);
    case Advance(t) =>
      AdvanceFrame(j, s, t);
      TotalUpdate(s.threads, t, Apply(j, s, a).threads[t], Work);
  }

  lemma FetchCountsDown(j: Job, s: State, t: nat)
    requires WellFormed(j) && WrapHarmless(j) && Orderly(j, s) && Enabled(s, Fetch(t))
    ensures Remaining(j, Apply(j, s, Fetch(t))) == Remaining(j, s) - 1
  {
    var f, pc := s.fetches, Claim(j, s.cur);
    TotalUpdate(s.threads, t, pc, Work);
    TotalUpdate(s.threads, t, pc, IsDone);
    HarmlessFits(j, s, t);
    if f < Chunks(j) {
      ClaimIsNextChunk(j, f);
    } else {
      PositionMonotone(j, Chunks(j), f);
    }
  }

  lemma {:induction false} RunCountsDown(j: Job, from: State, schedule: seq<Action>, to: State)
    requires WellFormed(j) && WrapHarmless(j) && Orderly(j, from) && Run(j, from, schedule, to)
    ensures Orderly(j, to) && |schedule| + Remaining(j, to) == Remaining(j, from)
    decreases |schedule|
  {
    if schedule != [] {
      StepCountsDown(j, from, schedule[0]);
      RunKeepsOrder(j, from, schedule[..1], Apply(j, from, schedule[0]));
      RunCountsDown(j, Apply(j, from, schedule[0]), schedule[1..], to);
    }
  }

  lemma RemainingIsZeroAtEnd(j: Job, s: State)
    requires WellFormed(j) && (j.num > 0 ==> j.chunk > 0) && Orderly(j, s)
    ensures Remaining(j, s) >= 0
    ensures Remaining(j, s) == 0 <==> Complete(s)
  {
    TotalAtMostLength(s.threads, IsDone);
    if Complete(s) {
      CompleteClaimsAll(j, s);
      TotalIsZero(s.threads, Work);
      PositionMonotone(j, Chunks(j), s.fetches);
    }
  }

  /** With harmless wrap-around: at no time is an index called twice or outside the
      range, every complete run has called each index once, and every run takes
      exactly as many steps as every other, so all threads terminate. */
  lemma HarmlessRun(j: Job, schedule: seq<Action>, s: State)
    requires WellFormed(j) && WrapHarmless(j) && Reachable(j, schedule, s)
    ensures multiset(s.calls) <= Range(0, j.num)
    ensures Complete(s) ==> EachIndexOnce(j, s.calls)
    ensures |schedule| <= 2 * Chunks(j) + j.num + j.parallelism
    ensures |schedule| == 2 * Chunks(j) + j.num + j.parallelism <==> Complete(s)
  {
    InitOrderly(j);
    TotalIsZero(Init(j).threads, IsDone);
    TotalIsZero(Init(j).threads, Work);
    RunCountsDown(j, Init(j), schedule, s);
    RemainingIsZeroAtEnd(j, s);
    RangeSplits(0, Reach(j, s.fetches), j.num);
    assert multiset(s.calls) <= Claimed(s);
    if Complete(s) {
      CompleteClaimsAll(j, s);
    }
  }

  lemma FetchesBounded(j: Job, schedule: seq<Action>, s: State)
    requires WellFormed(j) && WrapHarmless(j) && Reachable(j, schedule, s)
    ensures s.fetches <= Chunks(j) + j.parallelism && s.cur == Value(j, s.fetches)
  {
    InitOrderly(j);
    RunKeepsOrder(j, Init(j), schedule, s);
    TotalAtMostLength(s.threads, IsDone);
  }

  /** The counter never exceeds num + (parallelism + 1) * chunk. */
  lemma CounterBounded(j: Job, schedule: seq<Action>, s: State)
    requires WellFormed(j) && WrapHarmless(j) && Reachable(j, schedule, s)
    ensures s.cur <= Position(j, s.fetches) <= j.num + (j.parallelism + 1) * j.chunk
    ensures j.num > 0 ==> Position(j, s.fetches) < j.num + (j.parallelism + 1) * j.chunk
  {
    FetchesBounded(j, schedule, s);
    PositionMonotone(j, s.fetches, Chunks(j) + j.parallelism);
    LastPosition(j);
    ValueIsPosition(j, s.fetches);
  }

  lemma LastPosition(j: Job)
    requires j.num > 0 ==> j.chunk > 0
    ensures Position(j, Chunks(j) + j.parallelism) <= j.num + (j.parallelism + 1) * j.chunk
    ensures j.num > 0 ==> Position(j, Chunks(j) + j.parallelism) < j.num + (j.parallelism + 1) * j.chunk
  {
    var k := Chunks(j);
    PositionIsProduct(j, j.parallelism + 1);
    if j.num > 0 {
      assert k > 0 && Position(j, k - 1) < j.num;
      PositionAdds(j, k - 1, j.parallelism + 1);
    } else {
      PositionMonotone(j, j.parallelism, j.parallelism + 1);
    }
  }

  lemma {:induction false} PositionAdds(j: Job, f: nat, g: nat)
    ensures Position(j, f + g) == Position(j, f) + Position(j, g)
  {
    if g > 0 {
      PositionAdds(j, f, g - 1);
    }
  }

  // ------------------------------------------------ harmful wrap: no run ends well

  ghost predicate HasRunaway(s: State)
  {
    exists t :: 0 <= t < |s.threads| && s.threads[t].Calling? && s.threads[t].a > s.threads[t].b
  }

  /** Some thread has passed the end of its chunk, or some index is claimed twice. */
  ghost predicate Broken(s: State)
  {
    HasRunaway(s) || exists x :: Claimed(s)[x] >= 2
  }

  lemma ClaimsOnlyGrow(j: Job, s: State, a: Action)
    requires Enabled(s, a)
    ensures Claimed(s) <= Claimed(Apply(j, s, a))
  {
    match a
    case Fetch(t) => FetchAddsClaim(j, s, t);
    case Advance(t) =>
      if s.threads[t].a <= s.threads[t].b {
        AdvanceKeepsClaims(j, s, t);
      } else {
        RunawayAddsClaim(j, s, t);
      }
  }

  lemma RunawayAddsClaim(j: Job, s: State, t: nat)
    requires Enabled(s, Advance(t)) && s.threads[t].a > s.threads[t].b
    ensures Claimed(s) <= Claimed(Apply(j, s, Advance(t)))
  {
    var s', a := Apply(j, s, Advance(t)), s.threads[t].a;
    CollectUpdate(s.threads, t, s'.threads[t], ToCall);
    assert multiset(s'.calls) == multiset(s.calls) + multiset{a};
    MoveOne(multiset(s.calls), Collect(s.threads, ToCall), a, multiset{a + 1});
  }

  lemma MoveOne(called: multiset<int>, claimed: multiset<int>, a: int, next: multiset<int>)
    requires multiset{a} <= claimed
    ensures called + claimed <= called + multiset{a} + (claimed - multiset{a} + next)
  {
  }

  lemma BrokenStays(j: Job, s: State, a: Action)
    requires Broken(s) && Enabled(s, a)
    ensures Broken(Apply(j, s, a))
  {
    var s' := Apply(j, s, a);
    if HasRunaway(s) {
      var t :| 0 <= t < |s.threads| && s.threads[t].Calling? && s.threads[t].a > s.threads[t].b;
      assert s'.threads[t].Calling? && s'.threads[t].a > s'.threads[t].b;
    } else {
      var x :| Claimed(s)[x] >= 2;
      ClaimsOnlyGrow(j, s, a);
      assert Claimed(s')[x] >= 2;
    }
  }

  /** A chunk whose end has wrapped ends before it starts. */
  lemma WrappedChunkRunsAway(j: Job, f: nat)
    requires WellFormed(j) && j.num > 0 && j.chunk > 0
    requires f < Chunks(j) && Position(j, f + 1) >= SIZE_MAX_PLUS_ONE
    ensures Claim(j, Value(j, f)) == Calling(Position(j, f), Position(j, f) + j.chunk - SIZE_MAX_PLUS_ONE)
  {
    ValueIsPosition(j, f);
    assert Position(j, f) < j.num && Position(j, f + 1) == Position(j, f) + j.chunk;
    WrappedOnce(Position(j, f) + j.chunk);
  }

  lemma WrappedOnce(x: nat)
    requires SIZE_MAX_PLUS_ONE <= x < 2 * SIZE_MAX_PLUS_ONE
    ensures Wrapped(x) == x - SIZE_MAX_PLUS_ONE
  {
    assert Wrapped(x) == Wrapped(x - SIZE_MAX_PLUS_ONE);
  }

  /** A fetch after the last chunk that reads as inside the range claims it again. */
  lemma LateFetchClaimsAgain(j: Job, s: State, t: nat)
    requires WellFormed(j) && j.chunk > 0 && ClaimsOrderly(j, s) && Enabled(s, Fetch(t))
    requires s.cur < j.num && Reach(j, s.fetches) == j.num
    ensures Broken(Apply(j, s, Fetch(t)))
  {
    var s', pc := Apply(j, s, Fetch(t)), Claim(j, s.cur);
    assert s'.threads[t] == pc;
    if s.cur + j.chunk >= SIZE_MAX_PLUS_ONE {
      WrappedOnce(s.cur + j.chunk);
      assert pc.a > pc.b;
    } else {
      FetchAddsClaim(j, s, t);
      RangeCounts(0, j.num, s.cur);
      RangeCounts(pc.a, pc.b, s.cur);
      assert Claimed(s')[s.cur] == Claimed(s)[s.cur] + ToCall(pc)[s.cur];
    }
  }

  /** The first fetch that does not fit breaks the run. */
  lemma MisfitBreaks(j: Job, s: State, t: nat)
    requires WellFormed(j) && j.num > 0 && j.chunk > 0
    requires Orderly(j, s) && Enabled(s, Fetch(t)) && !FetchFits(j, s.fetches)
    ensures Broken(Apply(j, s, Fetch(t)))
  {
    if s.fetches < Chunks(j) {
      WrappedChunkRunsAway(j, s.fetches);
      assert Apply(j, s, Fetch(t)).threads[t] == Claim(j, s.cur);
    } else {
      PositionMonotone(j, Chunks(j), s.fetches);
      LateFetchClaimsAgain(j, s, t);
    }
  }

  lemma {:induction false} MisfitRun(j: Job, misfit: nat, from: State, schedule: seq<Action>, to: State)
    requires WellFormed(j) && j.num > 0 && j.chunk > 0
    requires forall f: nat :: f < misfit ==> FetchFits(j, f)
    requires !FetchFits(j, misfit)
    requires (Orderly(j, from) && from.fetches <= misfit) || Broken(from)
    requires Run(j, from, schedule, to)
    ensures (Orderly(j, to) && to.fetches <= misfit) || Broken(to)
    decreases |schedule|
  {
    if schedule != [] {
      var a := schedule[0];
      if Broken(from) {
        BrokenStays(j, from, a);
      } else if a.Fetch? && from.fetches == misfit {
        MisfitBreaks(j, from, a.t);
      } else {
        StepKeepsOrder(j, from, a);
      }
      MisfitRun(j, misfit, Apply(j, from, a), schedule[1..], to);
    }
  }

  /** With a zero chunk nobody ever gets past the first index. */
  lemma {:induction false} ZeroChunkRun(j: Job, from: State, schedule: seq<Action>, to: State)
    requires WellFormed(j) && j.num > 0 && j.chunk == 0 && Run(j, from, schedule, to)
    requires from.cur == 0 && forall t :: 0 <= t < |from.threads| ==> !from.threads[t].Done?
    ensures |to.threads| == |from.threads| && forall t :: 0 <= t < |to.threads| ==> !to.threads[t].Done?
    decreases |schedule|
  {
    if schedule != [] {
      ZeroChunkRun(j, Apply(j, from, schedule[0]), schedule[1..], to);
    }
  }

  lemma {:induction false} FirstMisfit(j: Job, from: nat, bad: nat) returns (misfit: nat)
    requires j.num > 0 && j.chunk > 0 && from <= bad && !FetchFits(j, bad)
    requires forall f: nat :: f < from ==> FetchFits(j, f)
    ensures misfit <= bad && !FetchFits(j, misfit) && forall f: nat :: f < misfit ==> FetchFits(j, f)
    decreases bad - from
  {
    if FetchFits(j, from) {
      misfit := FirstMisfit(j, from + 1, bad);
    } else {
      misfit := from;
    }
  }

  lemma BrokenEndsWrong(j: Job, s: State)
    requires Broken(s) && Complete(s)
    ensures !EachIndexOnce(j, s.calls)
  {
    CollectIsEmpty(s.threads, ToCall);
    var x :| Claimed(s)[x] >= 2;
    RangeCounts(0, j.num, x);
    assert multiset(s.calls)[x] != Range(0, j.num)[x];
  }

  /** When wrap-around is not harmless, no run ever ends with each index called once. */
  lemma HarmfulRun(j: Job, schedule: seq<Action>, s: State)
    requires WellFormed(j) && !WrapHarmless(j) && Reachable(j, schedule, s)
    ensures !(Complete(s) && EachIndexOnce(j, s.calls))
  {
    if j.chunk == 0 {
      ZeroChunkRun(j, Init(j), schedule, s);
      assert !s.threads[0].Done?;
    } else {
      var bad: nat :| Chunks(j) <= bad < Chunks(j) + j.parallelism && Value(j, bad) < j.num;
      var misfit := FirstMisfit(j, 0, bad);
      InitOrderly(j);
      MisfitRun(j, misfit, Init(j), schedule, s);
      if Complete(s) {
        if Broken(s) {
          BrokenEndsWrong(j, s);
        } else {
          CompleteClaimsAll(j, s);
        }
      }
    }
  }

  // ------------------------------------------------ the exact condition

  lemma {:induction false} FinishFrom(j: Job, s: State) returns (schedule: seq<Action>, end: State)
    requires WellFormed(j) && WrapHarmless(j) && Orderly(j, s)
    ensures Run(j, s, schedule, end) && Complete(end)
    decreases if Remaining(j, s) >= 0 then Remaining(j, s) else 0
  {
    RemainingIsZeroAtEnd(j, s);
    if Complete(s) {
      return [], s;
    }
    var t :| 0 <= t < |s.threads| && !s.threads[t].Done?;
    var a := if s.threads[t].Fetching? then Fetch(t) else Advance(t);
    StepCountsDown(j, s, a);
    if a.Fetch? {
      HarmlessFits(j, s, t);
    }
    StepKeepsOrder(j, s, a);
    RemainingIsZeroAtEnd(j, Apply(j, s, a));
    var rest;
    rest, end := FinishFrom(j, Apply(j, s, a));
    schedule := [a] + rest;
    assert schedule[1..] == rest;
  }

  /** Some run ends with each index called exactly once if and only if wrap-around is
      harmless, and then every run that ends does. */
  lemma CorrectIffWrapHarmless(j: Job)
    requires WellFormed(j)
    ensures WrapHarmless(j) <==>
            exists schedule, s :: Reachable(j, schedule, s) && Complete(s) && EachIndexOnce(j, s.calls)
    ensures WrapHarmless(j) ==>
            forall schedule, s :: Reachable(j, schedule, s) && Complete(s) ==> EachIndexOnce(j, s.calls)
  {
    if WrapHarmless(j) {
      InitOrderly(j);
      var schedule, s := FinishFrom(j, Init(j));
      HarmlessRun(j, schedule, s);
      assert Reachable(j, schedule, s) && Complete(s) && EachIndexOnce(j, s.calls);
      forall schedule, s | Reachable(j, schedule, s) && Complete(s)
        ensures EachIndexOnce(j, s.calls)
      {
        HarmlessRun(j, schedule, s);
      }
    } else {
      forall schedule, s | Reachable(j, schedule, s)
        ensures !(Complete(s) && EachIndexOnce(j, s.calls))
      {
        HarmfulRun(j, schedule, s);
      }
    }
  }

  /** `parallel_for` as it is called: a given chunk is used as it is, the default is the even
      share rounded up, and the call is correct if and only if wrap-around is harmless. */
  lemma CallCorrectIffWrapHarmless(num: nat, parallelism: nat, chunk: nat)
    requires num < SIZE_MAX_PLUS_ONE && chunk < SIZE_MAX_PLUS_ONE && parallelism > 0
    ensures var j := Job(num, parallelism, EffectiveChunk(num, parallelism, chunk));
            && (chunk > 0 ==> j.chunk == chunk)
            && (chunk == 0 && num + parallelism <= SIZE_MAX_PLUS_ONE ==> EvenShare(num, parallelism, j.chunk))
            && (WrapHarmless(j) <==>
                exists schedule, s :: Reachable(j, schedule, s) && Complete(s) && EachIndexOnce(j, s.calls))
            && (WrapHarmless(j) ==>
                forall schedule, s :: Reachable(j, schedule, s) && Complete(s) ==> EachIndexOnce(j, s.calls))
  {
    var j := Job(num, parallelism, EffectiveChunk(num, parallelism, chunk));
    if chunk == 0 {
      ShareIsEven(num, parallelism);
      ShareFits(Wrapped(num + parallelism - 1), parallelism);
    }
    CorrectIffWrapHarmless(j);
  }

  /** The smallest chunk with which the threads cover the range, one chunk each. */
  predicate EvenShare(num: nat, parallelism: nat, chunk: nat)
  {
    parallelism * chunk >= num && (chunk > 0 ==> parallelism * (chunk - 1) < num)
  }

  lemma ShareIsEven(num: nat, parallelism: nat)
    requires parallelism > 0
    ensures EvenShare(num, parallelism, (num + parallelism - 1) / parallelism)
  {
    var m := num + parallelism - 1;
    var q := m / parallelism;
    QuotientRemainder(m, q, m % parallelism, parallelism);
  }

  lemma ShareFits(m: nat, d: nat)
    requires m < SIZE_MAX_PLUS_ONE && d > 0
    ensures 0 <= m / d < SIZE_MAX_PLUS_ONE
  {
    QuotientRemainder(m, m / d, m % d, d);
  }

  /** A sufficient condition on the arguments alone. */
  lemma RoomIsHarmless(j: Job)
    requires WellFormed(j) && (j.num > 0 ==> j.chunk > 0)
    requires j.num + j.parallelism * j.chunk <= SIZE_MAX_PLUS_ONE
    ensures WrapHarmless(j)
  {
    if j.num > 0 {
      var k := Chunks(j);
      forall i: nat | k <= i < k + j.parallelism
        ensures Value(j, i) >= j.num
      {
        PositionMonotone(j, k, i);
        PositionMonotone(j, i, k - 1 + j.parallelism);
        PositionAdds(j, k - 1, j.parallelism);
        PositionIsProduct(j, j.parallelism);
        ValueIsPosition(j, i);
      }
    }
  }

  /** The default chunk is harmless whenever twice the range and the threads fit. */
  lemma DefaultChunkIsHarmless(num: nat, parallelism: nat)
    requires parallelism > 0 && 2 * num + parallelism <= SIZE_MAX_PLUS_ONE
    ensures WrapHarmless(Job(num, parallelism, EffectiveChunk(num, parallelism, 0)))
  {
    var chunk := EffectiveChunk(num, parallelism, 0);
    DivideUp(num, parallelism);
    assert chunk == (num + parallelism - 1) / parallelism;
    RoomIsHarmless(Job(num, parallelism, chunk));
  }

  lemma DivideUp(n: nat, d: nat)
    requires d > 0
    ensures var q := (n + d - 1) / d; d * q <= n + d - 1 && (n > 0 ==> q > 0) && 0 <= q <= n + d - 1
  {
    var m := n + d - 1;
    var q := m / d;
    QuotientRemainder(m, q, m % d, d);
  }

  lemma QuotientRemainder(m: int, q: int, r: int, d: int)
    requires m >= 0 && d > 0 && m == d * q + r && 0 <= r < d
    ensures d * q <= m && 0 <= q <= m && (m >= d ==> q > 0)
  {
    assert q <= -1 ==> d * q <= -d;
    assert q >= 1 ==> d * q >= q;
  }

  /** Two threads and a chunk of 2^63: the third fetch wraps to zero. */
  lemma HugeChunkIsHarmful()
    ensures var j := Job(1, 2, 0x8000_0000_0000_0000); WellFormed(j) && !WrapHarmless(j)
  {
    var j := Job(1, 2, 0x8000_0000_0000_0000);
    assert Position(j, 1) == 0x8000_0000_0000_0000;
    assert Chunks(j) == 1;
    assert Value(j, 2) == 0;
  }
}
