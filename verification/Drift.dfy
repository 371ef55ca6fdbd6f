/** What an entry that is trimmed before its message is stored does to the room in the long run. */
module Drift {
  import opened Backlog
  import opened Ledger
  import opened QueueInvariant
  import opened QueueMachine
  import opened Runs
  import opened Sums
  import opened Trimming

  // ----- a goroutine trims alone -----

  /** Not in trim, and not in front of an entry that is not linked yet. */
  predicate StandsAside(pc: Thread) {
    Away(pc) || pc.StoreMsg?
  }

  /** Without a claimed entry. */
  predicate Away(pc: Thread) {
    pc.Idle? || pc.LoadNewest? || pc.CasNewest?
  }

  /** What goes astray if the entry that this goroutine is filling is removed now. */
  function Risk(q: Queue): Thread -> int {
    (pc: Thread) => if pc.StoreMsg? && pc.mine >= |q.removers| && At(q, pc.mine).msg.None? then |pc.msg| else 0
  }

  function AtRisk(q: Queue): int {
    Sum(q.threads, Risk(q))
  }

  /** Only goroutine t is inside trim, and the list can stand the bytes that may still go astray. */
  predicate TrimsAlone(q: Queue, t: nat) {
    && Inv(q) && RemoversExist(q) && Balanced(q) && !q.crashed && t < |q.threads|
    && q.oldest.Node? && q.maxsize >= 0
    && Excess(q) + AtRisk(q) <= q.maxsize
    && forall u: nat :: u < |q.threads| && u != t ==> StandsAside(q.threads[u])
  }

  lemma RiskNotNegative(q: Queue)
    ensures AtRisk(q) >= 0
  {
    SumNonNegative(q.threads, Risk(q));
  }

  /** With no debts the counter is the live bytes that have been added, and the excess. */
  lemma SizeWithoutDebts(q: Queue)
    requires Balanced(q) && |q.removers| <= |q.log|
    requires forall u: nat :: u < |q.threads| ==> Owed(q.overhead, q.log)(q.threads[u]) == 0
    ensures q.size + Sum(q.threads, Uncredited(q.overhead, q.log)) == Live(q) + Excess(q)
  {
    SumZero(q.threads, Owed(q.overhead, q.log));
    Books(q);
  }

  /** While the counter is over the limit there is an entry to remove, and it is linked. */
  lemma OldestIsLinked(q: Queue, t: nat, e: nat)
    requires TrimsAlone(q, t) && q.threads[t] == Guard(e) && q.size > q.maxsize
    ensures |q.removers| < |q.log| && At(q, |q.removers|).next == Node(|q.removers| + 1)
  {
    var k := |q.removers|;
    SizeWithoutDebts(q);
    SumsNotNegative(q);
    RiskNotNegative(q);
    assert k < |q.log|;
    assert EntryOk(q, k);
    if Held(q, k) { assert ThreadOk(q, q.owner[k]); }
  }

  lemma RiskRemoved(q: Queue, t: nat, k: nat, r: Queue)
    requires TrimsAlone(q, t) && k == |q.removers| < |q.log| && InTrim(q.threads[t])
    requires OnlyTrimmed(q, r) && |r.removers| == k + 1 && r.threads == q.threads
    ensures AtRisk(r) == AtRisk(q) - (SizeOf(q.overhead, q.log[k]) - SizeNow(q, k))
  {
    assert EntryOk(q, k);
    forall u: nat | u < |q.threads| && (At(q, k).msg.Some? || u != q.owner[k])
      ensures Risk(r)(q.threads[u]) == Risk(q)(q.threads[u])
    {
      assert ThreadOk(q, u);
      assert q.threads[u].StoreMsg? ==> At(r, q.threads[u].mine).msg == At(q, q.threads[u].mine).msg;
    }
    if At(q, k).msg.Some? {
      SumSame(q.threads, Risk(r), Risk(q));
    } else {
      var u := q.owner[k];
      assert ThreadOk(q, u) && q.threads[u].StoreMsg?;
      assert At(r, k).msg == At(q, k).msg;
      SumDiffersAt(q.threads, Risk(r), Risk(q), u);
    }
  }

  /** Nothing but what trim changes has changed. */
  predicate OnlyTrimmed(q: Queue, r: Queue) {
    && r == q.(threads := r.threads, oldest := r.oldest, size := r.size, entries := r.entries,
               removers := r.removers, events := r.events, subtracted := r.subtracted)
    && q.removers <= r.removers
    && |r.entries| == |q.entries| && forall i :: 0 <= i < |q.entries| ==> r.entries[i].msg == q.entries[i].msg
  }

  /** One round: the books stay as they are, up to what goes astray. */
  lemma RoundAlone(q: Queue, t: nat, e: nat, limit: int) returns (r: Queue)
    requires TrimsAlone(q, t) && q.threads[t] == Guard(e) && q.size > q.maxsize
    ensures Leads(Fine, q, r, limit) && OnlyTrimmed(q, r) && TrimsAlone(r, t)
    ensures r.threads == q.threads && |r.removers| == |q.removers| + 1 <= |q.log|
    ensures Excess(r) + AtRisk(r) == Excess(q) + AtRisk(q)
  {
    var k := |q.removers|;
    OldestIsLinked(q, t, e);
    var a := TakenOff(q, t, e, k);
    TakeOffRun(Fine, q, t, e, k, limit);
    r := Settled(a, t, e, k);
    SettleRun(Fine, a, t, e, k, limit);
    LeadsOn(Fine, q, a, r, limit);
    LeadsKeepsBooks(q, r, limit);
    RiskRemoved(q, t, k, r);
    CapsAfterRemoval(q);
  }

  lemma LeadsKeepsBooks(q: Queue, r: Queue, limit: int)
    requires Inv(q) && RemoversExist(q) && Balanced(q) && Leads(Fine, q, r, limit)
    ensures Inv(r) && RemoversExist(r) && Balanced(r) && Excess(r) >= Excess(q)
    ensures r.overhead == q.overhead && r.maxsize == q.maxsize && |r.threads| == |q.threads|
  {
    LeadsKeepsInv(Fine, q, r, limit);
    var acts :| Legal(Fine, q, acts) && AllAtMost(q.overhead, limit, acts) && Run(Fine, q, acts) == r;
    RunKeepsBalance(q, acts);
  }

  /** It stops when the counter is within the limit, with `oldest` still on the list. */
  lemma {:induction false} FinishAlone(q: Queue, t: nat, e: nat, limit: int) returns (r: Queue)
    requires TrimsAlone(q, t) && q.threads[t] == Guard(e)
    ensures Leads(Fine, q, r, limit) && OnlyTrimmed(q, r) && TrimsAlone(r, t)
    ensures r.threads == q.threads[t := Idle] && r.size <= r.maxsize
    ensures Excess(r) + AtRisk(r) == Excess(q) + AtRisk(q)
    decreases |q.log| - |q.removers|
  {
    if q.size > q.maxsize {
      var a := RoundAlone(q, t, e, limit);
      r := FinishAlone(a, t, e, limit);
      LeadsOn(Fine, q, a, r, limit);
    } else {
      r := Apply(q, Step(t));
      LeadsNext(Fine, q, Step(t), limit);
      LeadsKeepsBooks(q, r, limit);
      ReturnsAlone(q, t, e, r);
    }
  }

  lemma ReturnsAlone(q: Queue, t: nat, e: nat, r: Queue)
    requires q.overhead > 0 && t < |q.threads| && q.threads[t] == Guard(e)
    requires OnlyTrimmed(q, r) && r.removers == q.removers && r.threads == q.threads[t := Idle]
    requires r.subtracted == q.subtracted && r.entries == q.entries
    ensures Excess(r) == Excess(q) && AtRisk(r) == AtRisk(q)
  {
    SumUpdate(q.threads, Owed(q.overhead, q.log), t, Idle);
    SumUpdate(q.threads, Risk(q), t, Idle);
    forall u | 0 <= u < |r.threads| ensures Risk(r)(r.threads[u]) == Risk(q)(r.threads[u]) {
      assert r.threads[u].StoreMsg? ==> At(r, r.threads[u].mine) == At(q, r.threads[u].mine);
    }
    SumSame(r.threads, Risk(r), Risk(q));
  }

  // ----- one entry goes astray -----

  /** Nobody is at work, `oldest` is on the list, and this many bytes have gone astray. */
  predicate Resting(q: Queue, excess: int) {
    && Inv(q) && RemoversExist(q) && Balanced(q) && !q.crashed
    && q.oldest.Node? && q.size <= q.maxsize && Excess(q) == excess
    && forall u: nat :: u < |q.threads| ==> q.threads[u].Idle?
  }

  /** Goroutine 0 stands between lines 91 and 92 with entry n, and nobody else is at work. */
  predicate Stuck(q: Queue, n: nat, m: Msg) {
    && Inv(q) && RemoversExist(q) && Balanced(q) && !q.crashed && |q.threads| >= 2
    && q.oldest.Node? && q.size <= q.maxsize && q.maxsize >= 0
    && q.threads[0] == StoreMsg(m, n) && At(q, n).msg.None?
    && forall u: nat :: 0 < u < |q.threads| ==> q.threads[u].Idle?
  }

  lemma NoDebts(q: Queue)
    requires forall u: nat :: u < |q.threads| ==> Owed(q.overhead, q.log)(q.threads[u]) == 0
    ensures Excess(q) == Caps(q.overhead, q.log, |q.removers|) - q.subtracted
  {
    SumZero(q.threads, Owed(q.overhead, q.log));
  }

  /** Appending with nobody in debt lets nothing go astray. */
  lemma ClaimKeepsExcess(q: Queue, r: Queue)
    requires |q.removers| <= |q.log| && q.log <= r.log && q.overhead == r.overhead
    requires r.removers == q.removers && r.subtracted == q.subtracted
    requires forall u: nat :: u < |q.threads| ==> Owed(q.overhead, q.log)(q.threads[u]) == 0
    requires forall u: nat :: u < |r.threads| ==> Owed(r.overhead, r.log)(r.threads[u]) == 0
    ensures Excess(r) == Excess(q)
  {
    NoDebts(q);
    NoDebts(r);
    assert r.log[..|q.removers|] == q.log[..|q.removers|];
  }

  /** Goroutine 0 appends while nobody else has claimed an entry: the books stay in order. */
  lemma AppendKeepsBooks(q: Queue, m: Msg, limit: int)
    requires Inv(q) && RemoversExist(q) && Balanced(q) && !q.crashed && q.oldest.Node?
    requires |q.threads| >= 1 && q.threads[0].Idle? && SizeOf(q.overhead, m) <= limit
    requires forall u: nat :: 0 < u < |q.threads| ==> Away(q.threads[u])
    ensures |q.entries| == q.newest + 1
    ensures var r := Appended(q, 0, m);
            Leads(Fine, q, r, limit) && Inv(r) && RemoversExist(r) && Balanced(r) && Excess(r) == Excess(q)
  {
    var r := Appended(q, 0, m);
    AppendRun(Fine, q, 0, m, limit);
    LeadsKeepsBooks(q, r, limit);
    ClaimKeepsExcess(q, r);
  }

  lemma StuckRisk(q: Queue, m: Msg, n: nat, second: Thread)
    requires |q.threads| >= 2 && q.threads[0] == StoreMsg(m, n) && At(q, n).msg.None?
    requires q.threads[1] == second && !second.StoreMsg?
    requires forall u: nat :: 1 < u < |q.threads| ==> q.threads[u].Idle?
    ensures AtRisk(q) == if n >= |q.removers| then |m| else 0
    ensures !Filling(second).Some? ==>
              Sum(q.threads, Uncredited(q.overhead, q.log)) == if n < |q.log| then SizeOf(q.overhead, q.log[n]) else 0
  {
    var none := q.threads[0 := Idle];
    assert q.threads == none[0 := q.threads[0]];
    SumZero(none, Risk(q));
    SumUpdate(none, Risk(q), 0, q.threads[0]);
    if !Filling(second).Some? {
      SumZero(none, Uncredited(q.overhead, q.log));
      SumUpdate(none, Uncredited(q.overhead, q.log), 0, q.threads[0]);
    }
  }

  lemma LinksAndStops(q: Queue, m: Msg, limit: int) returns (r: Queue)
    requires Resting(q, Excess(q)) && |q.threads| >= 2 && q.maxsize >= 0 && SizeOf(q.overhead, m) <= limit
    ensures Leads(Fine, q, r, limit) && Stuck(r, q.newest, m) && Excess(r) == Excess(q)
    ensures r.overhead == q.overhead && r.maxsize == q.maxsize && |r.removers| <= q.newest
  {
    assert EntryOk(q, q.newest);
    var q2 := ClaimRun(q, 0, m, limit);
    FineLinkRun(q, q2, 0, limit);
    var c := Claimed(q, 0, m);
    r := Apply(c, Step(0));
    LeadsKeepsBooks(q, r, limit);
    ClaimKeepsExcess(q, r);
  }

  /** While entry n has not been removed, not much can be behind it. */
  lemma FewBehind(q: Queue, n: nat, m: Msg)
    requires Stuck(q, n, m) && |q.removers| <= n
    ensures n < |q.log| && q.newest - n <= q.maxsize + SizeOf(q.overhead, q.log[n])
  {
    assert ThreadOk(q, 0);
    SizeWithoutDebts(q);
    StuckRisk(q, m, n, Idle);
    var rest := q.log[|q.removers|..];
    TotalAtLeast(q.overhead, rest);
    Monotone(|rest|, 1, q.overhead);
  }

  /** Goroutine 1 appends once and trims. */
  lemma SecondAppends(q: Queue, n: nat, m: Msg, limit: int) returns (r: Queue)
    requires Stuck(q, n, m) && |q.removers| <= n && Excess(q) + |m| <= q.maxsize && SizeOf(q.overhead, m) <= limit
    ensures Leads(Fine, q, r, limit) && Stuck(r, n, m)
    ensures r.overhead == q.overhead && r.maxsize == q.maxsize && r.newest == q.newest + 1
    ensures Excess(r) == Excess(q) + if n < |r.removers| then |m| else 0
  {
    assert ThreadOk(q, 0);
    var a := Appended(q, 1, m);
    AppendRun(Fine, q, 1, m, limit);
    LeadsKeepsBooks(q, a, limit);
    ClaimKeepsExcess(q, a);
    StuckRisk(a, m, n, Guard(q.newest));
    r := FinishAlone(a, 1, q.newest, limit);
    LeadsOn(Fine, q, a, r, limit);
    assert At(r, n).msg == At(a, n).msg;
    StuckRisk(r, m, n, Idle);
  }

  /** It goes on until it has taken entry n off. */
  lemma {:induction false} SecondRemoves(q: Queue, n: nat, m: Msg, limit: int) returns (r: Queue)
    requires Stuck(q, n, m) && |q.removers| <= n && Excess(q) + |m| <= q.maxsize && SizeOf(q.overhead, m) <= limit
    ensures Leads(Fine, q, r, limit) && Stuck(r, n, m) && n < |r.removers|
    ensures r.overhead == q.overhead && r.maxsize == q.maxsize && Excess(r) == Excess(q) + |m|
    decreases q.maxsize + SizeOf(q.overhead, m) - (q.newest - n)
  {
    assert ThreadOk(q, 0);
    FewBehind(q, n, m);
    var a := SecondAppends(q, n, m, limit);
    if n < |a.removers| {
      r := a;
    } else {
      r := SecondRemoves(a, n, m, limit);
      LeadsOn(Fine, q, a, r, limit);
    }
  }

  /** Goroutine 0 stores the message and adds its full size. */
  lemma FirstStores(q: Queue, n: nat, m: Msg, limit: int) returns (r: Queue)
    requires !q.crashed && |q.threads| >= 1 && q.threads[0] == StoreMsg(m, n)
    requires n < |q.entries| && At(q, n).valid == 1
    ensures Leads(Fine, q, r, limit)
    ensures r == q.(threads := q.threads[0 := Guard(n)], size := r.size, added := r.added, entries := r.entries)
  {
    LeadsNowhere(Fine, q, limit);
    FineStoreRun(q, q, 0, limit);
    var c := Apply(Apply(q, Step(0)), Step(0));
    StoreResult(q, n, m);
    DoneRun(Fine, q, c, 0, n, limit);
    r := Goto(Put(c, n, At(c, n).(valid := 0)), 0, Guard(n));
    assert r.threads == q.threads[0 := Guard(n)];
  }

  lemma StoreResult(q: Queue, n: nat, m: Msg)
    requires !q.crashed && |q.threads| >= 1 && q.threads[0] == StoreMsg(m, n) && n < |q.entries|
    ensures Enabled(Apply(q, Step(0)), Step(0))
    ensures var c := Apply(Apply(q, Step(0)), Step(0));
            && c == q.(threads := q.threads[0 := MarkDone(n)], size := c.size, added := c.added, entries := c.entries)
            && |c.entries| == |q.entries| && At(c, n).valid == At(q, n).valid
  {
    var b := Apply(q, Step(0));
    assert b.threads == q.threads[0 := AddSize(n)];
    assert Apply(b, Step(0)).threads == q.threads[0 := MarkDone(n)];
  }

  /** Then it trims. */
  lemma FirstFinishes(q: Queue, n: nat, m: Msg, limit: int) returns (r: Queue)
    requires Stuck(q, n, m) && n < |q.removers| && Excess(q) <= q.maxsize
    ensures Leads(Fine, q, r, limit) && Resting(r, Excess(q))
    ensures r.overhead == q.overhead && r.maxsize == q.maxsize && |r.threads| == |q.threads|
  {
    assert ThreadOk(q, 0) && EntryOk(q, n);
    var d := FirstStores(q, n, m, limit);
    LeadsKeepsBooks(q, d, limit);
    ClaimKeepsExcess(q, d);
    r := FirstTrims(d, n, limit);
    LeadsOn(Fine, q, d, r, limit);
  }

  /** Goroutine 0 trims alone, while nobody else has claimed an entry. */
  lemma FirstTrims(q: Queue, n: nat, limit: int) returns (r: Queue)
    requires Inv(q) && RemoversExist(q) && Balanced(q) && !q.crashed && |q.threads| >= 1
    requires q.oldest.Node? && 0 <= Excess(q) <= q.maxsize && q.threads[0] == Guard(n)
    requires forall u: nat :: 0 < u < |q.threads| ==> Away(q.threads[u])
    ensures Leads(Fine, q, r, limit) && OnlyTrimmed(q, r)
    ensures Inv(r) && RemoversExist(r) && Balanced(r) && Excess(r) == Excess(q)
    ensures r.oldest.Node? && r.size <= r.maxsize && r.threads == q.threads[0 := Idle]
  {
    SumZero(q.threads, Risk(q));
    r := FinishAlone(q, 0, n, limit);
    SumZero(r.threads, Risk(r));
  }

  /** From rest to rest, the length of one message goes astray. */
  lemma OneGoesAstray(q: Queue, m: Msg, limit: int) returns (r: Queue)
    requires Resting(q, Excess(q)) && |q.threads| >= 2 && SizeOf(q.overhead, m) <= limit
    requires q.maxsize >= 0 && Excess(q) + |m| <= q.maxsize
    ensures Leads(Fine, q, r, limit) && Resting(r, Excess(q) + |m|)
    ensures r.overhead == q.overhead && r.maxsize == q.maxsize && |r.threads| == |q.threads|
  {
    var a := LinksAndStops(q, m, limit);
    var b := SecondRemoves(a, q.newest, m, limit);
    LeadsOn(Fine, q, a, b, limit);
    r := FirstFinishes(b, q.newest, m, limit);
    LeadsOn(Fine, q, b, r, limit);
    LeadsKeepsBooks(q, r, limit);
  }

  lemma {:induction false} MoreGoAstray(q: Queue, limit: int, target: int) returns (r: Queue)
    requires Resting(q, Excess(q)) && |q.threads| >= 2 && q.overhead < limit
    requires Excess(q) <= target <= q.maxsize
    ensures Leads(Fine, q, r, limit) && Resting(r, target)
    ensures r.overhead == q.overhead && r.maxsize == q.maxsize && |r.threads| == |q.threads|
    decreases target - Excess(q)
  {
    if Excess(q) == target {
      LeadsNowhere(Fine, q, limit);
      r := q;
    } else {
      var length := if target - Excess(q) < limit - q.overhead then target - Excess(q) else limit - q.overhead;
      var a := OneGoesAstray(q, Filler(q.overhead, q.overhead + length), limit);
      r := MoreGoAstray(a, limit, target);
      LeadsOn(Fine, q, a, r, limit);
    }
  }

  // ----- at rest -----

  predicate AllIdle(q: Queue) {
    forall t: nat :: t < |q.threads| ==> q.threads[t].Idle?
  }

  lemma RestingSize(q: Queue)
    requires Balanced(q) && |q.removers| <= |q.log| && AllIdle(q)
    ensures q.size == Live(q) + Excess(q)
  {
    SizeWithoutDebts(q);
    SumZero(q.threads, Uncredited(q.overhead, q.log));
  }

  /** With a second goroutine and messages that need not be empty, the counter at rest can be off
      by any number of bytes up to the limit. */
  lemma CounterDrifts(overhead: int, maxsize: int, threads: nat, limit: int, excess: int) returns (r: Queue)
    requires 0 < overhead < limit && threads >= 2 && 0 <= excess <= maxsize
    ensures Leads(Fine, Init(overhead, maxsize, threads), r, limit)
    ensures AllIdle(r) && r.oldest.Node? && !r.crashed
    ensures r.size == Live(r) + excess && Excess(r) == excess
  {
    var init := Init(overhead, maxsize, threads);
    InitIsBalanced(overhead, maxsize, threads);
    r := MoreGoAstray(init, limit, excess);
    RestingSize(r);
  }

  ghost predicate CanRestAt(overhead: int, maxsize: int, threads: nat, limit: int, excess: int) {
    exists r :: Leads(Fine, Init(overhead, maxsize, threads), r, limit)
                && AllIdle(r) && r.oldest.Node? && r.size == Live(r) + excess
  }

  lemma CanRestIffWithinLimit(overhead: int, maxsize: int, threads: nat, limit: int, excess: int)
    requires 0 < overhead < limit && threads >= 2 && maxsize >= 0
    ensures CanRestAt(overhead, maxsize, threads, limit, excess) <==> 0 <= excess <= maxsize
  {
    if 0 <= excess <= maxsize {
      var r := CounterDrifts(overhead, maxsize, threads, limit, excess);
    } else {
      var init := Init(overhead, maxsize, threads);
      forall r | Leads(Fine, init, r, limit) && AllIdle(r) && r.oldest.Node?
        ensures 0 <= r.size - Live(r) <= maxsize
      {
        InitIsBalanced(overhead, maxsize, threads);
        assert Legal(Fine, init, []) && Run(Fine, init, []) == init;
        DriftStays(init, r, limit);
        LeadsKeepsInv(Fine, init, r, limit);
        TotalPositive(r.overhead, r.log[|r.removers|..]);
      }
    }
  }

  /** It never gets back, in any interleaving: at every later rest with `oldest` on the list there
      is that much less room for messages. */
  lemma DriftStays(q: Queue, r: Queue, limit: int)
    requires Reachable(Fine, q) && q.overhead > 0 && q.maxsize >= 0
    requires Leads(Fine, q, r, limit) && AllIdle(r) && r.oldest.Node?
    ensures |r.removers| <= |r.log| && r.size == Live(r) + Excess(r) && Excess(r) >= Excess(q)
    ensures r.size <= r.maxsize && Live(r) <= r.maxsize - Excess(q)
  {
    ReachableInv(Fine, q);
    ReachableIsBalanced(q);
    LeadsKeepsBooks(q, r, limit);
    RestingSize(r);
    LeadsReachable(q, r, limit);
    WithinLimitAtRest(r);
  }

  lemma LeadsReachable(q: Queue, r: Queue, limit: int)
    requires Reachable(Fine, q) && Leads(Fine, q, r, limit)
    ensures Reachable(Fine, r)
  {
    var init := Init(q.overhead, q.maxsize, |q.threads|);
    var first :| Legal(Fine, init, first) && Run(Fine, init, first) == q;
    var second :| Legal(Fine, q, second) && AllAtMost(q.overhead, limit, second) && Run(Fine, q, second) == r;
    ReachableInv(Fine, q);
    LeadsKeepsInv(Fine, q, r, limit);
    RunConcat(Fine, init, first, second);
  }

  /** Nothing that is appended later stays in the backlog: at every rest with `oldest` on the list
      the list is empty. */
  ghost predicate KeepsNothing(q: Queue) {
    forall r, limit {:trigger Leads(Fine, q, r, limit)} ::
      Leads(Fine, q, r, limit) && AllIdle(r) && r.oldest.Node? ==> Live(r) == 0 && r.oldest == Node(r.newest)
  }

  /** A room can get there, whatever its limit. */
  lemma BacklogIsLost(overhead: int, maxsize: int, threads: nat, limit: int) returns (q: Queue)
    requires 0 < overhead < limit && threads >= 2 && maxsize >= 0
    ensures Leads(Fine, Init(overhead, maxsize, threads), q, limit)
    ensures AllIdle(q) && q.oldest.Node? && !q.crashed && KeepsNothing(q)
  {
    q := CounterDrifts(overhead, maxsize, threads, limit, maxsize);
    var init := Init(overhead, maxsize, threads);
    InvInit(overhead, maxsize, threads);
    LeadsKeepsInv(Fine, init, q, limit);
    assert Reachable(Fine, q);
    forall r, more {:trigger Leads(Fine, q, r, more)} | Leads(Fine, q, r, more) && AllIdle(r) && r.oldest.Node?
      ensures Live(r) == 0 && r.oldest == Node(r.newest)
    {
      DriftStays(q, r, more);
      LeadsKeepsInv(Fine, q, r, more);
      TotalPositive(r.overhead, r.log[|r.removers|..]);
    }
  }
}
