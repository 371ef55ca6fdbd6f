/** When exactly `oldest` can run off the end of the list. */
module OverTrim {
  import opened Backlog
  import opened QueueMachine
  import opened QueueInvariant
  import opened Runs
  import Trimming
  import Sums

  // ----- the condition is tight for atomic publishing -----

  /** After `pre` earlier entries, i goroutines have each appended one more and stand at the guard;
      all entries have `limit` bytes. */
  predicate AllAtGuard(q: Queue, limit: int, pre: nat, i: nat) {
    && Inv(q) && !q.crashed
    && i <= |q.threads| && q.newest == pre + i
    && q.oldest == Node(0) && q.removers == [] && q.size == (pre + i) * limit
    && (forall j: nat :: j < |q.threads| ==> q.threads[j] == if j < i then Guard(pre + j) else Idle)
    && (forall j: nat :: j < |q.log| ==> SizeOf(q.overhead, q.log[j]) == limit)
  }

  lemma {:induction false} GatherAtGuard(g: Grain, q: Queue, m: Msg, limit: int, pre: nat, i: nat, n: nat)
    returns (r: Queue)
    requires AllAtGuard(q, limit, pre, i) && i <= n <= |q.threads| && SizeOf(q.overhead, m) == limit
    ensures AllAtGuard(r, limit, pre, n) && Leads(g, q, r, limit)
    decreases n - i
  {
    if i == n {
      LeadsNowhere(g, q, limit);
      r := q;
    } else {
      AppendRun(g, q, i, m, limit);
      var next := Appended(q, i, m);
      LeadsKeepsInv(g, q, next, limit);
      assert (pre + (i + 1)) * limit == (pre + i) * limit + limit;
      r := GatherAtGuard(g, next, m, limit, pre, i + 1, n);
      LeadsOn(g, q, next, r, limit);
      LeadsKeepsInv(g, q, r, limit);
    }
  }

  /** Of n goroutines at the guard, i have won their CAS on `oldest` and stalled there. */
  predicate Stalled(q: Queue, limit: int, pre: nat, n: nat, i: nat) {
    && Inv(q) && !q.crashed
    && i <= n <= |q.threads| && q.newest == pre + n
    && q.oldest == Node(i) && |q.removers| == i && q.size == (pre + n) * limit
    && (forall j: nat :: j < |q.threads| ==>
          q.threads[j] == if j < i then ReadSize(pre + j, j) else if j < n then Guard(pre + j) else Idle)
    && (forall j: nat :: j < |q.log| ==> SizeOf(q.overhead, q.log[j]) == limit)
  }

  lemma StallOne(g: Grain, q: Queue, limit: int, pre: nat, n: nat, i: nat) returns (r: Queue)
    requires Stalled(q, limit, pre, n, i) && i < n && q.maxsize < q.size
    ensures Stalled(r, limit, pre, n, i + 1) && Leads(g, q, r, limit)
    ensures |r.threads| == |q.threads| && r.overhead == q.overhead && r.maxsize == q.maxsize && r.size == q.size
  {
    r := TakenOff(q, i, pre + i, i);
    TakeOffRun(g, q, i, pre + i, i, limit);
    FilledIn(q, i);
    LeadsKeepsInv(g, q, r, limit);
    OneMoreStalled(q, r, limit, pre, n, i);
  }

  lemma OneMoreStalled(q: Queue, r: Queue, limit: int, pre: nat, n: nat, i: nat)
    requires Stalled(q, limit, pre, n, i) && i < n && Inv(r)
    requires At(q, i).next == Node(i + 1) && r == TakenOff(q, i, pre + i, i)
    ensures Stalled(r, limit, pre, n, i + 1)
  {
  }

  lemma {:induction false} StallAll(g: Grain, q: Queue, limit: int, pre: nat, n: nat, i: nat) returns (r: Queue)
    requires Stalled(q, limit, pre, n, i) && q.maxsize < q.size
    ensures Stalled(r, limit, pre, n, n) && Leads(g, q, r, limit) && |r.threads| == |q.threads|
    decreases n - i
  {
    if i == n {
      LeadsNowhere(g, q, limit);
      r := q;
    } else {
      var next := StallOne(g, q, limit, pre, n, i);
      r := StallAll(g, next, limit, pre, n, i + 1);
      LeadsOn(g, q, next, r, limit);
    }
  }

  /** All but the last goroutine are stalled; the last one stands at the guard after `gone`
      entries have been removed, and `size` is what the counter says. */
  predicate OnlyLastRuns(c: Queue, limit: int, gone: nat, size: int) {
    && Inv(c) && !c.crashed && |c.threads| >= 1
    && var last := |c.threads| - 1;
    && c.newest == last + 1 && c.oldest == Node(gone) && |c.removers| == gone
    && c.threads[last] == Guard(last)
    && c.size == size
    && (forall j: nat :: j < last ==> c.threads[j] == ReadSize(j, j))
    && (forall j: nat :: j < |c.log| ==> SizeOf(c.overhead, c.log[j]) == limit)
  }

  lemma LastAppends(g: Grain, q: Queue, m: Msg, limit: int) returns (a: Queue)
    requires |q.threads| >= 1 && Stalled(q, limit, 0, |q.threads| - 1, |q.threads| - 1)
    requires SizeOf(q.overhead, m) == limit
    ensures Leads(g, q, a, limit) && OnlyLastRuns(a, limit, |q.threads| - 1, (|q.threads| - 1) * limit + limit)
    ensures |a.threads| == |q.threads| && a.overhead == q.overhead && a.maxsize == q.maxsize
  {
    var t := |q.threads| - 1;
    a := Appended(q, t, m);
    AppendRun(g, q, t, m, limit);
    LeadsKeepsInv(g, q, a, limit);
  }

  /** It takes its own entry off and settles for it. */
  lemma LastTakesItsOwn(g: Grain, a: Queue, limit: int, rest: int) returns (c: Queue)
    requires |a.threads| >= 1 && OnlyLastRuns(a, limit, |a.threads| - 1, rest + limit)
    requires a.maxsize < rest && limit > 0
    ensures Leads(g, a, c, limit) && OnlyLastRuns(c, limit, |a.threads|, rest)
    ensures |c.threads| == |a.threads| && c.overhead == a.overhead && c.maxsize == a.maxsize
  {
    var t := |a.threads| - 1;
    FilledIn(a, t);
    var b := TakenOff(a, t, t, t);
    TakeOffRun(g, a, t, t, t, limit);
    c := Settled(b, t, t, t);
    SettleRun(g, b, t, t, t, limit);
    LeadsOn(g, a, b, c, limit);
    LeadsKeepsInv(g, a, c, limit);
  }

  /** All but the last goroutine are stalled, and the last one has taken off the unfilled entry. */
  predicate RanOff(r: Queue, limit: int) {
    && Inv(r) && !r.crashed && r.oldest == Nil && |r.threads| >= 1
    && var last := |r.threads| - 1;
    && r.newest == last + 1 && |r.removers| == last + 2
    && r.threads[last] == ReadSize(last, last + 1)
    && r.size == last * limit
    && (forall j: nat :: j < last ==> r.threads[j] == ReadSize(j, j))
    && (forall j: nat :: j < |r.log| ==> SizeOf(r.overhead, r.log[j]) == limit)
  }

  /** It trims once more, on a counter the others have not corrected yet, and runs off the end. */
  lemma LastRunsOff(g: Grain, c: Queue, limit: int) returns (r: Queue)
    requires |c.threads| >= 1 && OnlyLastRuns(c, limit, |c.threads|, (|c.threads| - 1) * limit)
    requires c.maxsize < (|c.threads| - 1) * limit
    ensures Leads(g, c, r, limit) && RanOff(r, limit)
    ensures |r.threads| == |c.threads| && r.overhead == c.overhead && r.maxsize == c.maxsize
  {
    var t := |c.threads| - 1;
    assert EntryOk(c, t + 1);
    r := TakenOff(c, t, t, t + 1);
    TakeOffRun(g, c, t, t, t + 1, limit);
    LeadsKeepsInv(g, c, r, limit);
  }

  lemma AllButLastStall(g: Grain, overhead: int, maxsize: int, threads: nat, limit: int) returns (r: Queue)
    requires 0 < overhead <= limit && threads >= 1
    requires maxsize < (threads - 1) * limit
    ensures Leads(g, Init(overhead, maxsize, threads), r, limit)
    ensures |r.threads| == threads && r.overhead == overhead && r.maxsize == maxsize
    ensures Stalled(r, limit, 0, threads - 1, threads - 1)
  {
    var init := Init(overhead, maxsize, threads);
    InvInit(overhead, maxsize, threads);
    var a := GatherAtGuard(g, init, Filler(overhead, limit), limit, 0, 0, threads - 1);
    LeadsKeepsInv(g, init, a, limit);
    r := StallAll(g, a, limit, 0, threads - 1, 0);
    LeadsOn(g, init, a, r, limit);
    LeadsKeepsInv(g, init, r, limit);
  }

  /** Below the limit of (T - 1) entries, T goroutines can make `oldest` run off the end: all but
      one stall right after their CAS, and the last one trims on an outdated counter. */
  lemma TooLittleRoomOverTrims(g: Grain, overhead: int, maxsize: int, threads: nat, limit: int) returns (r: Queue)
    requires 0 < overhead <= limit && threads >= 1
    requires maxsize < (threads - 1) * limit
    ensures Leads(g, Init(overhead, maxsize, threads), r, limit)
    ensures |r.threads| == threads && r.overhead == overhead && r.maxsize == maxsize
    ensures RanOff(r, limit) && r.oldest == Nil
  {
    var init := Init(overhead, maxsize, threads);
    var a := AllButLastStall(g, overhead, maxsize, threads, limit);
    var b := LastAppends(g, a, Filler(overhead, limit), limit);
    LeadsOn(g, init, a, b, limit);
    var c := LastTakesItsOwn(g, b, limit, (threads - 1) * limit);
    LeadsOn(g, init, b, c, limit);
    r := LastRunsOff(g, c, limit);
    LeadsOn(g, init, c, r, limit);
  }

  /** No run from the initial state makes `oldest` nil. */
  ghost predicate NeverNil(g: Grain, overhead: int, maxsize: int, threads: nat, limit: int) {
    forall r :: Leads(g, Init(overhead, maxsize, threads), r, limit) ==> r.oldest.Node?
  }

  lemma LeadsIsReachable(overhead: int, maxsize: int, threads: nat, r: Queue, limit: int)
    requires Leads(AtomicPublish, Init(overhead, maxsize, threads), r, limit)
    ensures Trimming.ReachableAtMost(r, limit)
    ensures r.overhead == overhead && r.maxsize == maxsize && |r.threads| == threads
  {
    InvInit(overhead, maxsize, threads);
    LeadsKeepsInv(AtomicPublish, Init(overhead, maxsize, threads), r, limit);
  }

  /** With atomic publishing, room for one largest entry per other goroutine is exactly what
      keeps `oldest` on the list. */
  lemma AtomicSafeIffRoom(overhead: int, maxsize: int, threads: nat, limit: int)
    requires 0 < overhead <= limit && threads >= 1
    ensures NeverNil(AtomicPublish, overhead, maxsize, threads, limit) <==> maxsize >= (threads - 1) * limit
  {
    if maxsize >= (threads - 1) * limit {
      forall r | Leads(AtomicPublish, Init(overhead, maxsize, threads), r, limit) ensures r.oldest.Node? {
        LeadsIsReachable(overhead, maxsize, threads, r, limit);
        Trimming.NeverOverTrims(r, limit);
      }
    } else {
      var r := TooLittleRoomOverTrims(AtomicPublish, overhead, maxsize, threads, limit);
      assert !r.oldest.Node?;
    }
  }

  // ----- how much goes too far at most -----

  /** Goroutine 0 appends and returns until n entries are on the list. */
  lemma {:induction false} AppendsWithinLimit(g: Grain, q: Queue, m: Msg, limit: int, pre: nat, n: nat)
    returns (r: Queue)
    requires AllAtGuard(q, limit, pre, 0) && |q.threads| >= 1 && SizeOf(q.overhead, m) == limit > 0
    requires pre <= n && n * limit <= q.maxsize
    ensures AllAtGuard(r, limit, n, 0) && Leads(g, q, r, limit)
    decreases n - pre
  {
    if pre == n {
      LeadsNowhere(g, q, limit);
      r := q;
    } else {
      Trimming.Monotone(limit, pre + 1, n);
      var b := AppendsOnce(g, q, m, limit, pre);
      LeadsKeepsInv(g, q, b, limit);
      r := AppendsWithinLimit(g, b, m, limit, pre + 1, n);
      LeadsOn(g, q, b, r, limit);
    }
  }

  lemma AppendsOnce(g: Grain, q: Queue, m: Msg, limit: int, pre: nat) returns (r: Queue)
    requires AllAtGuard(q, limit, pre, 0) && |q.threads| >= 1 && SizeOf(q.overhead, m) == limit
    requires (pre + 1) * limit <= q.maxsize
    ensures AllAtGuard(r, limit, pre + 1, 0) && Leads(g, q, r, limit)
  {
    var a := Appended(q, 0, m);
    AppendRun(g, q, 0, m, limit);
    assert (pre + 1) * limit == pre * limit + limit;
    r := Apply(a, Step(0));
    LeadsStep(g, q, a, 0, limit);
    LeadsKeepsInv(g, q, r, limit);
  }

  lemma StalledLive(r: Queue, limit: int, pre: nat, n: nat)
    requires Stalled(r, limit, pre, n, n)
    ensures Trimming.Live(r) == (pre + n) * limit - n * limit
  {
    var rest := r.log[n..];
    TotalEqualSizes(r.overhead, limit, rest);
    assert |rest| == pre && (pre + n) * limit == pre * limit + n * limit;
  }

  /** With the list filled up to the limit, all goroutines append once more, and all of them win
      their CAS before anybody subtracts. */
  lemma AllStall(g: Grain, overhead: int, maxsize: int, threads: nat, limit: int, pre: nat) returns (r: Queue)
    requires 0 < overhead <= limit && threads >= 1
    requires pre * limit <= maxsize < (pre + threads) * limit
    ensures Leads(g, Init(overhead, maxsize, threads), r, limit)
    ensures r.maxsize == maxsize && |r.threads| == threads && Stalled(r, limit, pre, threads, threads)
  {
    var m := Filler(overhead, limit);
    var init := Init(overhead, maxsize, threads);
    InvInit(overhead, maxsize, threads);
    var a := AppendsWithinLimit(g, init, m, limit, 0, pre);
    LeadsKeepsInv(g, init, a, limit);
    var b := GatherAtGuard(g, a, m, limit, pre, 0, threads);
    LeadsOn(g, init, a, b, limit);
    LeadsKeepsInv(g, init, b, limit);
    r := StallAll(g, b, limit, pre, threads, 0);
    LeadsOn(g, init, b, r, limit);
    LeadsKeepsInv(g, init, r, limit);
  }

  /** The retention bound is attained for every number of goroutines: with room for n largest
      entries less one byte, a run gets down to the last byte that it allows. */
  lemma RetentionBoundIsTight(overhead: int, threads: nat, limit: int, n: nat) returns (r: Queue)
    requires 0 < overhead <= limit && 1 <= threads <= n
    ensures Leads(AtomicPublish, Init(overhead, n * limit - 1, threads), r, limit)
    ensures Trimming.ReachableAtMost(r, limit) && r.maxsize == n * limit - 1
    ensures |r.removers| == |r.threads| == threads
    ensures Trimming.Live(r) == r.maxsize - limit * threads + 1
  {
    var pre := n - threads;
    Trimming.Monotone(limit, pre + 1, n);
    Sums.Distribute(limit, pre, 1);
    r := AllStall(AtomicPublish, overhead, n * limit - 1, threads, limit, pre);
    LeadsIsReachable(overhead, n * limit - 1, threads, r, limit);
    StalledLive(r, limit, pre, threads);
  }

  // ----- the finest interleaving -----

  /** Goroutine 0 has claimed entry 0 and stopped before line 91, or between lines 91 and 92;
      goroutine 1, which is now at `second`, has appended n messages since. */
  predicate FirstIsStuck(q: Queue, stuck: Thread, second: Thread, m: Msg, limit: int, n: nat) {
    && Inv(q) && !q.crashed
    && stuck in {StoreNext(m, 0, 1), StoreMsg(m, 0)}
    && |q.threads| >= 2
    && q.threads == Init(q.overhead, q.maxsize, |q.threads|).threads[0 := stuck][1 := second]
    && q.newest == n + 1 && q.oldest == Node(0) && q.removers == []
    && At(q, 0).next == (if stuck.StoreNext? then Nil else Node(1)) && At(q, 0).msg == None
    && q.size == n * limit
    && (forall k: nat :: k < |q.log| ==> SizeOf(q.overhead, q.log[k]) == limit)
  }

  /** Goroutine 1 has just taken that entry off. */
  predicate StuckIsTrimmed(r: Queue, stuck: Thread, m: Msg, limit: int, n: nat, e: nat) {
    && !r.crashed && |r.threads| >= 2
    && r.threads == Init(r.overhead, r.maxsize, |r.threads|).threads[0 := stuck][1 := ReadSize(e, 0)]
    && r.oldest == (if stuck.StoreNext? then Nil else Node(1))
    && At(r, 0).msg == None && r.removers == [1]
    && |r.log| == n + 1 && r.size == n * limit
    && (forall k: nat :: k < |r.log| ==> SizeOf(r.overhead, r.log[k]) == limit)
  }

  lemma SecondAppends(q: Queue, stuck: Thread, m: Msg, limit: int, n: nat) returns (a: Queue)
    requires FirstIsStuck(q, stuck, Idle, m, limit, n) && SizeOf(q.overhead, m) == limit
    ensures Leads(Fine, q, a, limit) && a.overhead == q.overhead && a.maxsize == q.maxsize
    ensures a.size == q.size + limit && FirstIsStuck(a, stuck, Guard(q.newest), m, limit, n + 1)
  {
    a := Appended(q, 1, m);
    AppendRun(Fine, q, 1, m, limit);
    LeadsKeepsInv(Fine, q, a, limit);
    assert (n + 1) * limit == n * limit + limit;
  }

  lemma SecondReturns(q: Queue, stuck: Thread, m: Msg, limit: int, n: nat, e: nat) returns (b: Queue)
    requires FirstIsStuck(q, stuck, Guard(e), m, limit, n) && q.size <= q.maxsize
    ensures Leads(Fine, q, b, limit) && b.overhead == q.overhead && b.maxsize == q.maxsize
    ensures b.size == q.size && FirstIsStuck(b, stuck, Idle, m, limit, n)
  {
    b := Apply(q, Step(1));
    LeadsNext(Fine, q, Step(1), limit);
    LeadsKeepsInv(Fine, q, b, limit);
    assert b.threads == q.threads[1 := Idle];
  }

  lemma SecondTrims(q: Queue, stuck: Thread, m: Msg, limit: int, n: nat, e: nat) returns (r: Queue)
    requires FirstIsStuck(q, stuck, Guard(e), m, limit, n) && q.size > q.maxsize
    ensures Leads(Fine, q, r, limit) && r.overhead == q.overhead
    ensures StuckIsTrimmed(r, stuck, m, limit, n, e)
  {
    r := TakenOff(q, 1, e, 0);
    TakeOffRun(Fine, q, 1, e, 0, limit);
  }

  lemma {:induction false} TrimsStuckEntry(q: Queue, stuck: Thread, m: Msg, limit: int, n: nat)
    returns (r: Queue, last: nat, e: nat)
    requires FirstIsStuck(q, stuck, Idle, m, limit, n) && SizeOf(q.overhead, m) == limit > 0
    ensures Leads(Fine, q, r, limit) && r.overhead == q.overhead
    ensures StuckIsTrimmed(r, stuck, m, limit, last, e)
    decreases q.maxsize - q.size
  {
    last, e := n + 1, q.newest;
    var a := SecondAppends(q, stuck, m, limit, n);
    if a.size > a.maxsize {
      r := SecondTrims(a, stuck, m, limit, n + 1, e);
      LeadsOn(Fine, q, a, r, limit);
    } else {
      var b := SecondReturns(a, stuck, m, limit, n + 1, e);
      LeadsOn(Fine, q, a, b, limit);
      r, last, e := TrimsStuckEntry(b, stuck, m, limit, n + 1);
      LeadsOn(Fine, q, b, r, limit);
    }
  }

  lemma ClaimsAndStops(overhead: int, maxsize: int, threads: nat, limit: int, m: Msg) returns (r: Queue)
    requires 0 < overhead <= limit && threads >= 2 && SizeOf(overhead, m) == limit
    ensures Leads(Fine, Init(overhead, maxsize, threads), r, limit)
    ensures r.overhead == overhead && FirstIsStuck(r, StoreNext(m, 0, 1), Idle, m, limit, 0)
    ensures r.maxsize == maxsize && |r.threads| == threads
  {
    var init := Init(overhead, maxsize, threads);
    InvInit(overhead, maxsize, threads);
    var q2 := ClaimRun(init, 0, m, limit);
    r := Apply(q2, Step(0));
    LeadsStep(Fine, init, q2, 0, limit);
    LeadsKeepsInv(Fine, init, r, limit);
  }

  lemma LinksAndStops(overhead: int, maxsize: int, threads: nat, limit: int, m: Msg) returns (r: Queue)
    requires 0 < overhead <= limit && threads >= 2 && SizeOf(overhead, m) == limit
    ensures Leads(Fine, Init(overhead, maxsize, threads), r, limit)
    ensures r.overhead == overhead && FirstIsStuck(r, StoreMsg(m, 0), Idle, m, limit, 0)
  {
    var init := Init(overhead, maxsize, threads);
    var q := ClaimsAndStops(overhead, maxsize, threads, limit, m);
    r := Apply(q, Step(0));
    LeadsStep(Fine, init, q, 0, limit);
    ApplyKeepsInv(q, Step(0));
    assert r.threads == init.threads[0 := StoreMsg(m, 0)];
  }

  /** Whatever the limit, a second goroutine can trim an entry that the first has claimed but not
      linked yet. */
  lemma UnlinkedEntryRunsOff(overhead: int, maxsize: int, threads: nat, limit: int) returns (r: Queue)
    requires 0 < overhead <= limit && threads >= 2
    ensures Leads(Fine, Init(overhead, maxsize, threads), r, limit) && r.oldest == Nil
  {
    var m := Filler(overhead, limit);
    var init := Init(overhead, maxsize, threads);
    var q := ClaimsAndStops(overhead, maxsize, threads, limit, m);
    var n: nat, e: nat;
    r, n, e := TrimsStuckEntry(q, StoreNext(m, 0, 1), m, limit, 0);
    LeadsOn(Fine, init, q, r, limit);
  }

  // ----- a single appender -----

  /** How many entries the only goroutine has finished counting. */
  function Counted(q: Queue): int
    requires |q.threads| == 1
  {
    if q.threads[0].StoreNext? || q.threads[0].StoreMsg? || q.threads[0].AddSize? then q.newest - 1 else q.newest
  }

  /** The only goroutine is never surprised: the counter is exact whenever it looks. */
  predicate Alone(q: Queue) {
    && Inv(q) && |q.threads| == 1 && q.overhead > 0 && q.maxsize >= 0
    && q.oldest.Node?
    && |q.removers| <= Counted(q) <= |q.log|
    && (Counted(q) < q.newest ==> Filling(q.threads[0]) == Some(q.newest - 1))
    && var rest := Total(q.overhead, q.log[|q.removers|..Counted(q)]);
    && match q.threads[0]
       case LoadOldest(_) => q.size == rest > q.maxsize
       case LoadNext(_, o) => q.size == rest > q.maxsize && o == q.oldest
       case CasOldest(_, k, nx) =>
         q.size == rest > q.maxsize && k == |q.removers| && nx == Node(k + 1)
       case ReadSize(_, k) => k < |q.removers| && q.size == rest + SizeOf(q.overhead, q.log[k])
       case SubSize(_, k, bytes) => q.size == rest + bytes
       case _ => q.size == rest
  }

  lemma AloneClaims(q: Queue)
    requires Alone(q) && Enabled(q, Step(0)) && q.threads[0].CasNewest? && Inv(Apply(q, Step(0)))
    ensures Alone(Apply(q, Step(0)))
  {
    var q' := Apply(q, Step(0));
    var b, n := |q.removers|, |q.log|;
    assert ThreadOk(q, 0);
    assert Counted(q) == n;
    assert q'.newest > q.newest ==> Counted(q') == n && q'.log == q.log + [q.threads[0].msg];
    assert q'.log[b..n] == q.log[b..n];
  }

  lemma AloneAdds(q: Queue)
    requires Alone(q) && Enabled(q, Step(0)) && q.threads[0].AddSize? && Inv(Apply(q, Step(0)))
    ensures Alone(Apply(q, Step(0)))
  {
    var b, n := |q.removers|, |q.log|;
    assert ThreadOk(q, 0);
    assert EntryOk(q, q.threads[0].mine);
    assert Counted(q) == n - 1 && Counted(Apply(q, Step(0))) == n;
    assert q.log[b..n] == q.log[b..n - 1] + [q.log[n - 1]];
    TotalSnoc(q.overhead, q.log[b..n - 1], q.log[n - 1]);
  }

  lemma AloneAppends(q: Queue)
    requires Alone(q) && Enabled(q, Step(0)) && !InTrim(q.threads[0]) && Inv(Apply(q, Step(0)))
    ensures Alone(Apply(q, Step(0)))
  {
    if q.threads[0].CasNewest? {
      AloneClaims(q);
    } else if q.threads[0].AddSize? {
      AloneAdds(q);
    } else {
      assert ThreadOk(q, 0);
    }
  }

  lemma AloneRemoves(q: Queue)
    requires Alone(q) && Enabled(q, Step(0)) && q.threads[0].CasOldest? && Inv(Apply(q, Step(0)))
    ensures Alone(Apply(q, Step(0)))
  {
    var b := |q.removers|;
    assert ThreadOk(q, 0);
    assert Counted(q) == |q.log|;
    assert q.log[b..|q.log|] == q.log[b..];
    TotalDropFirst(q.overhead, q.log, b);
    assert q.log[b + 1..|q.log|] == q.log[b + 1..];
  }

  lemma AloneTrims(q: Queue)
    requires Alone(q) && Enabled(q, Step(0)) && InTrim(q.threads[0]) && Inv(Apply(q, Step(0)))
    ensures Alone(Apply(q, Step(0)))
  {
    assert ThreadOk(q, 0);
    if q.threads[0].CasOldest? {
      AloneRemoves(q);
    } else if q.threads[0].LoadNext? {
      assert Counted(q) == |q.log|;
      FilledIn(q, |q.removers|);
    } else if q.threads[0].ReadSize? {
      assert EntryOk(q, q.threads[0].k);
    }
  }

  lemma {:induction false} AloneStaysOn(q: Queue, acts: seq<Action>)
    requires Alone(q) && Legal(Fine, q, acts)
    ensures Alone(Run(Fine, q, acts))
    decreases acts
  {
    if acts != [] {
      var a := acts[0];
      ApplyKeepsInv(q, a);
      if a.Step? {
        if InTrim(q.threads[0]) { AloneTrims(q); } else { AloneAppends(q); }
      }
      AloneStaysOn(Apply(q, a), acts[1..]);
    }
  }

  /** At the finest interleaving only a single goroutine is safe: with two, no limit is large
      enough. */
  lemma FineSafeIffAlone(overhead: int, maxsize: int, threads: nat, limit: int)
    requires 0 < overhead <= limit && threads >= 1
    ensures NeverNil(Fine, overhead, maxsize, threads, limit) <==> threads == 1 && maxsize >= 0
  {
    var init := Init(overhead, maxsize, threads);
    if threads == 1 && maxsize >= 0 {
      InvInit(overhead, maxsize, threads);
      forall r | Leads(Fine, init, r, limit) ensures r.oldest.Node? {
        var acts :| Legal(Fine, init, acts) && Trimming.AllAtMost(overhead, limit, acts) && Run(Fine, init, acts) == r;
        AloneStaysOn(init, acts);
      }
    } else if threads >= 2 {
      var r := UnlinkedEntryRunsOff(overhead, maxsize, threads, limit);
      assert !r.oldest.Node?;
    } else {
      var r := TooLittleRoomOverTrims(Fine, overhead, maxsize, threads, limit);
      assert !r.oldest.Node?;
    }
  }
}
