/** How far the byte counter can rise while appenders are at work. */
module Counter {
  import opened Backlog
  import opened QueueMachine
  import opened QueueInvariant
  import opened Ledger
  import opened Runs
  import opened Sums
  import opened Trimming

  /** No run from the initial state takes the counter above `bound`. */
  ghost predicate NeverAbove(g: Grain, overhead: int, maxsize: int, threads: nat, limit: int, bound: int) {
    forall r :: Leads(g, Init(overhead, maxsize, threads), r, limit) ==> r.size <= bound
  }

  ghost predicate Bounded(g: Grain, overhead: int, maxsize: int, threads: nat, limit: int) {
    exists bound :: NeverAbove(g, overhead, maxsize, threads, limit, bound)
  }

  // ----- three goroutines: no bound -----

  /** Goroutine 0 is trimming, everybody else has returned; all entries have `limit` bytes, and
      n of them are in the counter. */
  predicate OneTrims(q: Queue, limit: int, n: nat) {
    && Inv(q) && !q.crashed && |q.threads| >= 3
    && q.oldest.Node? && |q.removers| < q.newest
    && q.size == n * limit > q.maxsize
    && q.threads[0].Guard? && (forall t: nat :: 0 < t < |q.threads| ==> q.threads[t].Idle?)
    && (forall k: nat :: k < |q.log| ==> SizeOf(q.overhead, q.log[k]) == limit)
  }

  /** Goroutines 1 and 2 have appended and are about to take the same entry off. */
  predicate TwoArmed(q: Queue, limit: int, n: nat, k: nat) {
    && !q.crashed && |q.threads| >= 3
    && q.oldest == Node(k) && k < |q.log| && |q.removers| == k && k + 1 < q.newest
    && At(q, k).next == Node(k + 1) && At(q, k).msg == Some(q.log[k])
    && q.size == (n + 2) * limit > q.maxsize
    && q.threads[0].Guard? && (forall t: nat :: 2 < t < |q.threads| ==> q.threads[t].Idle?)
    && q.threads[1].CasOldest? && q.threads[1].k == k
    && q.threads[2].CasOldest? && q.threads[2].k == k
    && (forall j: nat :: j < |q.log| ==> SizeOf(q.overhead, q.log[j]) == limit)
  }

  lemma BothAppend(g: Grain, q: Queue, m: Msg, limit: int) returns (r: Queue)
    requires Inv(q) && !q.crashed && |q.threads| >= 3 && q.threads[1].Idle? && q.threads[2].Idle?
    requires SizeOf(q.overhead, m) == limit
    ensures Leads(g, q, r, limit) && Inv(r)
    ensures AppendedTwice(q, r, m, limit)
  {
    var a := Appended(q, 1, m);
    AppendRun(g, q, 1, m, limit);
    LeadsKeepsInv(g, q, a, limit);
    r := Appended(a, 2, m);
    AppendRun(g, a, 2, m, limit);
    LeadsOn(g, q, a, r, limit);
    LeadsKeepsInv(g, q, r, limit);
    TwiceAppended(q, m, limit);
  }

  predicate AppendedTwice(q: Queue, r: Queue, m: Msg, limit: int) {
    && |q.threads| >= 3
    && r == q.(threads := q.threads[1 := Guard(q.newest)][2 := Guard(q.newest + 1)],
               newest := q.newest + 2, size := q.size + limit + limit, log := q.log + [m] + [m],
               added := r.added, entries := r.entries, owner := r.owner, call := r.call, events := r.events)
  }

  lemma TwiceAppended(q: Queue, m: Msg, limit: int)
    requires |q.entries| == q.newest + 1 && |q.threads| >= 3 && SizeOf(q.overhead, m) == limit
    ensures |Appended(q, 1, m).entries| == q.newest + 2
    ensures AppendedTwice(q, Appended(Appended(q, 1, m), 2, m), m, limit)
  {
  }

  lemma BothArm(g: Grain, q: Queue, m: Msg, limit: int, n: nat) returns (r: Queue)
    requires OneTrims(q, limit, n) && SizeOf(q.overhead, m) == limit > 0
    ensures Leads(g, q, r, limit) && r.overhead == q.overhead && r.maxsize == q.maxsize
    ensures TwoArmed(r, limit, n, |q.removers|)
  {
    var k := |q.removers|;
    var b := BothAppend(g, q, m, limit);
    assert (n + 2) * limit == n * limit + limit + limit;
    FilledIn(b, k);
    r := BothReach(g, q, b, limit, k, q.newest, q.newest + 1);
  }

  lemma BothReach(g: Grain, q: Queue, b: Queue, limit: int, k: nat, e1: nat, e2: nat) returns (r: Queue)
    requires Leads(g, q, b, limit) && b.overhead == q.overhead
    requires !b.crashed && |b.threads| >= 3 && b.size > b.maxsize && b.oldest == Node(k)
    requires b.threads[1] == Guard(e1) && b.threads[2] == Guard(e2)
    ensures Leads(g, q, r, limit)
    ensures var nx := At(b, k).next;
            r == b.(threads := b.threads[1 := CasOldest(e1, k, nx)][2 := CasOldest(e2, k, nx)])
  {
    var nx := At(b, k).next;
    var c := Goto(b, 1, CasOldest(e1, k, nx));
    ArmRun(g, b, 1, e1, k, limit);
    LeadsOn(g, q, b, c, limit);
    r := Goto(c, 2, CasOldest(e2, k, nx));
    ArmRun(g, c, 2, e2, k, limit);
    LeadsOn(g, q, c, r, limit);
  }

  /** What is left when goroutine 0 has taken the entry off and the other two have given up. */
  predicate OneWon(q: Queue, r: Queue, k: nat, limit: int, n: nat) {
    && |q.threads| >= 3 && r.threads == q.threads[1 := Idle][2 := Idle] && !r.crashed
    && r.oldest == Node(k + 1) && |r.removers| == k + 1
    && r.newest == q.newest && r.log == q.log && r.overhead == q.overhead && r.maxsize == q.maxsize
    && r.size == (n + 1) * limit
  }

  /** Goroutine 0 takes the entry off. */
  lemma FirstWins(g: Grain, q: Queue, limit: int, n: nat, k: nat) returns (r: Queue)
    requires TwoArmed(q, limit, n, k)
    ensures Leads(g, q, r, limit) && r == Settled(TakenOff(q, 0, q.threads[0].mine, k), 0, q.threads[0].mine, k)
  {
    var e := q.threads[0].mine;
    var a := TakenOff(q, 0, e, k);
    TakeOffRun(g, q, 0, e, k, limit);
    r := Settled(a, 0, e, k);
    SettleRun(g, a, 0, e, k, limit);
    LeadsOn(g, q, a, r, limit);
  }

  /** A goroutine that finds `oldest` changed returns. */
  lemma GivesUp(g: Grain, q: Queue, b: Queue, t: nat, limit: int) returns (r: Queue)
    requires Leads(g, q, b, limit) && b.overhead == q.overhead
    requires !b.crashed && t < |b.threads| && b.threads[t].CasOldest? && b.oldest != Node(b.threads[t].k)
    ensures Leads(g, q, r, limit)
    ensures r == b.(threads := b.threads[t := Idle], events := r.events, lost := r.lost)
  {
    r := Apply(b, Step(t));
    LeadsStep(g, q, b, t, limit);
  }

  lemma OthersGiveUp(g: Grain, q: Queue, limit: int, n: nat, k: nat) returns (r: Queue)
    requires TwoArmed(q, limit, n, k)
    ensures Leads(g, q, r, limit) && OneWon(q, r, k, limit, n)
  {
    var b := FirstWins(g, q, limit, n, k);
    assert b.threads == q.threads;
    assert (n + 2) * limit == (n + 1) * limit + limit;
    var c := GivesUp(g, q, b, 1, limit);
    r := GivesUp(g, q, c, 2, limit);
  }

  /** One entry more than before is in the counter. */
  lemma OneRound(g: Grain, q: Queue, m: Msg, limit: int, n: nat) returns (r: Queue)
    requires OneTrims(q, limit, n) && SizeOf(q.overhead, m) == limit > 0
    ensures Leads(g, q, r, limit) && r.overhead == q.overhead && OneTrims(r, limit, n + 1)
  {
    var k := |q.removers|;
    var a := BothArm(g, q, m, limit, n);
    r := OthersGiveUp(g, a, limit, n, k);
    LeadsOn(g, q, a, r, limit);
    LeadsKeepsInv(g, q, r, limit);
    assert (n + 1) * limit == n * limit + limit;
  }

  lemma {:induction false} KeepsRising(g: Grain, q: Queue, m: Msg, limit: int, n: nat, top: nat) returns (r: Queue)
    requires OneTrims(q, limit, n) && SizeOf(q.overhead, m) == limit > 0 && n <= top
    ensures Leads(g, q, r, limit) && r.size == top * limit
    decreases top - n
  {
    if n == top {
      LeadsNowhere(g, q, limit);
      r := q;
    } else {
      var b := OneRound(g, q, m, limit, n);
      r := KeepsRising(g, b, m, limit, n + 1, top);
      LeadsOn(g, q, b, r, limit);
    }
  }

  /** Nobody is at work, and nothing has been trimmed. */
  predicate AllReturned(q: Queue, limit: int, n: nat) {
    && Inv(q) && !q.crashed && |q.threads| >= 3
    && q.oldest == Node(0) && q.removers == [] && q.newest == n
    && q.size == n * limit
    && (forall t: nat :: t < |q.threads| ==> q.threads[t].Idle?)
    && (forall k: nat :: k < |q.log| ==> SizeOf(q.overhead, q.log[k]) == limit)
  }

  /** Goroutine 0 appends until it has something to trim. */
  lemma {:induction false} FillUp(g: Grain, q: Queue, m: Msg, limit: int, n: nat) returns (r: Queue, full: nat)
    requires AllReturned(q, limit, n) && SizeOf(q.overhead, m) == limit > 0
    ensures Leads(g, q, r, limit) && r.overhead == q.overhead && OneTrims(r, limit, full)
    decreases q.maxsize - n * limit
  {
    var a := Appended(q, 0, m);
    AppendRun(g, q, 0, m, limit);
    LeadsKeepsInv(g, q, a, limit);
    assert (n + 1) * limit == n * limit + limit;
    if a.size > a.maxsize {
      r, full := a, n + 1;
    } else {
      var b := Apply(a, Step(0));
      LeadsStep(g, q, a, 0, limit);
      LeadsKeepsInv(g, q, b, limit);
      r, full := FillUp(g, b, m, limit, n + 1);
      LeadsOn(g, q, b, r, limit);
    }
  }

  /** With three goroutines the counter rises above any bound, whatever the limit: in each round
      two of them append and give up, because the third has taken the same entry off. */
  lemma UnboundedFromThree(g: Grain, overhead: int, maxsize: int, threads: nat, limit: int, bound: int)
    returns (r: Queue)
    requires 0 < overhead <= limit && threads >= 3
    ensures Leads(g, Init(overhead, maxsize, threads), r, limit) && r.size > bound
  {
    var m := Filler(overhead, limit);
    var init := Init(overhead, maxsize, threads);
    InvInit(overhead, maxsize, threads);
    var a, n := FillUp(g, init, m, limit, 0);
    var top := if bound < n then n + 1 else bound + 1;
    r := KeepsRising(g, a, m, limit, n, top);
    LeadsOn(g, init, a, r, limit);
    assert top * limit >= top by { Monotone(top, 1, limit); }
  }

  // ----- two goroutines: a bound -----

  /** A goroutine that will go away, or append, before it takes anything more off. */
  predicate Waits(oldest: Link, pc: Thread) {
    match pc
    case Idle => true
    case LoadNewest(_, _) => true
    case CasNewest(_, _, _) => true
    case LoadNext(_, o) => o != oldest
    case CasOldest(_, k, _) => oldest != Node(k)
    case _ => false
  }

  /** What a goroutine is going to subtract, as far as the message has been stored. */
  function WillSubtract(q: Queue, pc: Thread): int {
    match pc
    case ReadSize(_, k) => if At(q, k).msg.Some? then SizeNow(q, k) else 0
    case SubSize(_, _, bytes) => bytes
    case _ => 0
  }

  /** A goroutine's part of the potential: bytes it still adds or subtracts, and one largest entry
      while it waits. */
  function Part(q: Queue, limit: int, pc: Thread): int {
    Uncredited(q.overhead, q.log)(pc) - WillSubtract(q, pc) + if Waits(q.oldest, pc) then limit else 0
  }

  function Share(q: Queue, limit: int): Thread -> int {
    (pc: Thread) => Part(q, limit, pc)
  }

  /** Bytes that were added but that no entry accounts for, plus one largest entry for each entry
      on the list and each goroutine that waits. */
  function Potential(q: Queue, limit: int): int {
    q.size - Live(q) + limit * (q.newest - |q.removers|) + Sum(q.threads, Share(q, limit))
  }

  predicate SameShape(q: Queue, r: Queue) {
    r.newest == q.newest && r.log == q.log && r.oldest == q.oldest && r.removers == q.removers
  }

  ghost predicate SameMessages(q: Queue, r: Queue) {
    forall k: nat {:trigger At(r, k)} :: At(r, k).msg == At(q, k).msg
  }

  /** A step that only the goroutine itself notices. */
  ghost predicate OwnStep(q: Queue, pc: Thread, r: Queue, pc': Thread, limit: int) {
    && SameShape(q, r) && SameMessages(q, r)
    && r.size + Part(r, limit, pc') <= q.size + Part(q, limit, pc)
  }

  ghost predicate ClaimStep(q: Queue, pc: Thread, r: Queue, pc': Thread) {
    && pc.CasNewest? && pc'.StoreNext? && pc'.mine == |q.log|
    && r.newest == q.newest + 1 && r.log == q.log + [pc.msg]
    && r.oldest == q.oldest && r.removers == q.removers && r.size == q.size && SameMessages(q, r)
  }

  ghost predicate StoreStep(q: Queue, pc: Thread, r: Queue, pc': Thread) {
    && pc.StoreMsg? && pc' == AddSize(pc.mine)
    && SameShape(q, r) && r.size == q.size
    && forall k: nat {:trigger At(r, k)} :: At(q, k).msg.Some? ==> At(r, k).msg == At(q, k).msg
  }

  ghost predicate RemoveStep(q: Queue, t: nat, pc: Thread, r: Queue, pc': Thread) {
    && var k := |q.removers|;
    && pc.CasOldest? && pc.k == k && pc' == ReadSize(pc.mine, k)
    && q.oldest == Node(k) && r.oldest in {Nil, Node(k + 1)} && r.removers == q.removers + [t]
    && r.newest == q.newest && r.log == q.log && r.size == q.size && SameMessages(q, r)
  }

  ghost predicate LeaveStep(q: Queue, pc: Thread, r: Queue, pc': Thread) {
    && pc.Guard? && pc'.Idle?
    && SameShape(q, r) && SameMessages(q, r) && r.size == q.size <= q.maxsize
  }

  /** A step of goroutine t, reduced to what concerns the potential. */
  ghost predicate PotentialStep(q: Queue, t: nat, r: Queue, limit: int) {
    && t < |q.threads| == |r.threads|
    && r.threads == q.threads[t := r.threads[t]]
    && r.overhead == q.overhead && r.maxsize == q.maxsize
    && var pc, pc' := q.threads[t], r.threads[t];
    (OwnStep(q, pc, r, pc', limit) || ClaimStep(q, pc, r, pc') || StoreStep(q, pc, r, pc')
     || RemoveStep(q, t, pc, r, pc') || LeaveStep(q, pc, r, pc'))
  }

  lemma ClaimIsPotentialStep(q: Queue, t: nat, limit: int)
    requires Inv(q) && Enabled(q, Step(t)) && q.threads[t].CasNewest?
    ensures PotentialStep(q, t, Apply(q, Step(t)), limit)
  {
    assert ThreadOk(q, t);
  }

  lemma FillIsPotentialStep(q: Queue, t: nat, limit: int)
    requires Inv(q) && Enabled(q, Step(t)) && !InTrim(q.threads[t]) && !q.threads[t].CasNewest?
    ensures PotentialStep(q, t, Apply(q, Step(t)), limit)
  {
    assert ThreadOk(q, t);
    var f := Filling(q.threads[t]);
    assert f.Some? ==> EntryOk(q, f.value);
  }

  lemma TrimIsPotentialStep(q: Queue, t: nat, limit: int)
    requires Inv(q) && Enabled(q, Step(t)) && InTrim(q.threads[t]) && !q.threads[t].CasOldest?
    requires q.overhead > 0
    ensures PotentialStep(q, t, Apply(q, Step(t)), limit)
  {
    assert ThreadOk(q, t);
  }

  lemma RemoveIsPotentialStep(q: Queue, t: nat, limit: int)
    requires Inv(q) && Enabled(q, Step(t)) && q.threads[t].CasOldest?
    ensures PotentialStep(q, t, Apply(q, Step(t)), limit)
  {
    assert ThreadOk(q, t);
  }

  lemma AppendsOrTrims(q: Queue, a: Action, limit: int)
    requires Inv(q) && Enabled(q, a) && q.overhead > 0
    ensures PotentialStep(q, a.t, Apply(q, a), limit)
  {
    match a
    case Call(t, arg) =>
      var r := Apply(q, a);
      assert r.threads == q.threads[t := r.threads[t]];
    case Step(t) =>
      if q.threads[t].CasOldest? { RemoveIsPotentialStep(q, t, limit); }
      else if InTrim(q.threads[t]) { TrimIsPotentialStep(q, t, limit); }
      else if q.threads[t].CasNewest? { ClaimIsPotentialStep(q, t, limit); }
      else { FillIsPotentialStep(q, t, limit); }
  }

  // ----- what a step does to the potential -----

  /** What the other goroutine contributes, if there is one. */
  function OtherPart(q: Queue, t: nat, r: Queue, limit: int): int
    requires t < |q.threads| <= 2
  {
    if |q.threads| == 2 then Part(r, limit, q.threads[1 - t]) else 0
  }

  lemma SharesSplit(q: Queue, t: nat, r: Queue, limit: int)
    requires t < |q.threads| == |r.threads| <= 2 && r.threads == q.threads[t := r.threads[t]]
    ensures Sum(q.threads, Share(q, limit)) == Part(q, limit, q.threads[t]) + OtherPart(q, t, q, limit)
    ensures Sum(r.threads, Share(r, limit)) == Part(r, limit, r.threads[t]) + OtherPart(q, t, r, limit)
  {
    SumOfTwo(q.threads, Share(q, limit));
    SumOfTwo(r.threads, Share(r, limit));
  }

  lemma ShareInRange(q: Queue, limit: int, t: nat)
    requires Inv(q) && Small(q, limit) && t < |q.threads|
    ensures -limit <= Part(q, limit, q.threads[t]) <= limit
    ensures 0 <= WillSubtract(q, q.threads[t])
  {
    assert ThreadOk(q, t) && SmallDebt(q, t, limit);
    var pc := q.threads[t];
    if pc.ReadSize? { assert EntryOk(q, pc.k); }
  }

  /** When the last step concerned nobody else, the other goroutine's part is what it was. */
  lemma OtherIsUnmoved(q: Queue, t: nat, r: Queue, limit: int)
    requires Inv(q) && t < |q.threads| <= 2 && r.overhead == q.overhead
    requires q.log <= r.log && r.oldest == q.oldest && SameMessages(q, r)
    ensures OtherPart(q, t, r, limit) == OtherPart(q, t, q, limit)
  {
    if |q.threads| == 2 {
      assert ThreadOk(q, 1 - t);
      var pc := q.threads[1 - t];
      if pc.ReadSize? { assert At(r, pc.k) == At(r, pc.k); }
    }
  }

  lemma ClaimKeepsPotential(q: Queue, t: nat, r: Queue, limit: int)
    requires Inv(q) && Small(q, limit) && t < |q.threads| == |r.threads| <= 2
    requires r.threads == q.threads[t := r.threads[t]] && r.overhead == q.overhead
    requires ClaimStep(q, q.threads[t], r, r.threads[t])
    ensures |q.removers| <= |q.log| ==> Potential(r, limit) == Potential(q, limit)
    ensures Potential(r, limit) <= Potential(q, limit) + limit
  {
    var m := q.threads[t].msg;
    assert CarriesAtMost(q, t, limit);
    SharesSplit(q, t, r, limit);
    OtherIsUnmoved(q, t, r, limit);
    assert limit * (r.newest - |r.removers|) == limit * (q.newest - |q.removers|) + limit;
    if |q.removers| <= |q.log| {
      LiveAfterPublish(q, m);
      assert Live(r) == Live(q.(log := r.log));
    }
  }

  lemma StoreKeepsPotential(q: Queue, t: nat, r: Queue, limit: int)
    requires Inv(q) && Inv(r) && Small(q, limit) && t < |q.threads| == |r.threads| <= 2
    requires r.threads == q.threads[t := r.threads[t]] && r.overhead == q.overhead
    requires StoreStep(q, q.threads[t], r, r.threads[t])
    ensures Potential(r, limit) <= Potential(q, limit)
  {
    SharesSplit(q, t, r, limit);
    if |q.threads| == 2 {
      var pc := q.threads[1 - t];
      if pc.ReadSize? { assert At(r, pc.k) == At(r, pc.k); }
      assert OtherPart(q, t, r, limit) <= OtherPart(q, t, q, limit);
    }
    assert Live(r) == Live(q);
  }

  /** The other goroutine may now wait, but only if it does not own the removed entry. */
  lemma OtherMayWait(q: Queue, t: nat, r: Queue, limit: int)
    requires Inv(q) && Small(q, limit) && t < |q.threads| == |r.threads| <= 2
    requires r.threads == q.threads[t := r.threads[t]] && r.overhead == q.overhead
    requires RemoveStep(q, t, q.threads[t], r, r.threads[t])
    ensures OtherPart(q, t, r, limit) <= OtherPart(q, t, q, limit) + limit
    ensures |q.removers| < |q.log| && At(q, |q.removers|).msg.None? ==>
              OtherPart(q, t, r, limit) == OtherPart(q, t, q, limit)
  {
    var k := |q.removers|;
    assert EntryOk(q, k);
    if |q.threads| == 2 {
      var pc := q.threads[1 - t];
      assert ThreadOk(q, 1 - t);
      if pc.ReadSize? { assert At(r, pc.k) == At(r, pc.k); }
    }
  }

  /** What is taken off the list will be subtracted, unless its message is not stored yet. */
  lemma RemovedWillBeSubtracted(q: Queue, t: nat, r: Queue, limit: int)
    requires Inv(q) && Small(q, limit) && t < |q.threads| == |r.threads| && r.overhead == q.overhead
    requires RemoveStep(q, t, q.threads[t], r, r.threads[t])
    ensures Live(q) - Live(r) + Part(r, limit, r.threads[t])
              <= if |q.removers| < |q.log| && At(q, |q.removers|).msg.None? then limit else 0
    ensures Part(q, limit, q.threads[t]) == 0
  {
    var k := |q.removers|;
    assert EntryOk(q, k) && At(r, k).msg == At(q, k).msg;
    if k < |q.log| {
      LiveAfterRemove(q, t);
      assert Live(r) == Live(q.(removers := r.removers));
    }
  }

  lemma RemoveKeepsPotential(q: Queue, t: nat, r: Queue, limit: int)
    requires Inv(q) && Small(q, limit) && t < |q.threads| == |r.threads| <= 2
    requires r.threads == q.threads[t := r.threads[t]] && r.overhead == q.overhead
    requires RemoveStep(q, t, q.threads[t], r, r.threads[t])
    ensures Potential(r, limit) <= Potential(q, limit)
  {
    SharesSplit(q, t, r, limit);
    OtherMayWait(q, t, r, limit);
    RemovedWillBeSubtracted(q, t, r, limit);
    var count := q.newest - |q.removers|;
    assert r.newest - |r.removers| == count - 1 && limit * (count - 1) == limit * count - limit;
  }

  lemma OwnStepKeepsPotential(q: Queue, t: nat, r: Queue, limit: int)
    requires Inv(q) && t < |q.threads| == |r.threads| <= 2
    requires r.threads == q.threads[t := r.threads[t]] && r.overhead == q.overhead
    requires OwnStep(q, q.threads[t], r, r.threads[t], limit)
    ensures Potential(r, limit) <= Potential(q, limit)
  {
    SharesSplit(q, t, r, limit);
    OtherIsUnmoved(q, t, r, limit);
    assert Live(r) == Live(q);
  }

  // ----- returning because the counter is within the limit -----

  lemma LiveBetween(q: Queue, limit: int)
    requires Inv(q) && Small(q, limit)
    ensures q.overhead * (q.newest - |q.removers|) <= Live(q) <= limit * (q.newest - |q.removers|) + limit
    ensures 0 <= Live(q)
  {
    var count := q.newest - |q.removers|;
    if |q.removers| <= |q.log| {
      var rest := q.log[|q.removers|..];
      TotalAtLeast(q.overhead, rest);
      TotalAtMost(q.overhead, rest, limit);
      assert |rest| == count;
    } else {
      assert count == -1;
    }
  }

  /** The live bytes are in the counter, except for those that their owners still have to add. */
  lemma LiveIsCounted(q: Queue, limit: int)
    requires Inv(q) && Balanced(q) && Small(q, limit) && |q.threads| <= 2
    ensures Live(q) <= q.size + 2 * limit || Live(q) == 0
  {
    SumsNotNegative(q);
    SumOfTwo(q.threads, Uncredited(q.overhead, q.log));
    if |q.removers| <= |q.log| {
      TotalConcat(q.overhead, q.log[..|q.removers|], q.log[|q.removers|..]);
      assert q.log[..|q.removers|] + q.log[|q.removers|..] == q.log;
    }
  }

  /** The most bytes that can be on the list when somebody finds the counter within the limit. */
  function Fit(maxsize: int, limit: int): int {
    (if maxsize < 0 then 0 else maxsize) + 2 * limit
  }

  /** The bound on the potential: as many largest entries as smallest ones fit, and those bytes. */
  function Ceiling(overhead: int, maxsize: int, limit: int): int
    requires overhead > 0
  {
    Fit(maxsize, limit) + limit * (Fit(maxsize, limit) / overhead) + 2 * limit
  }

  lemma AtMostQuotient(overhead: int, count: int, fit: int)
    requires overhead > 0 && overhead * count <= fit
    ensures count <= fit / overhead
  {
    if count > fit / overhead { Monotone(overhead, fit / overhead + 1, count); }
  }

  lemma LeavingIsUnderCeiling(q: Queue, t: nat, r: Queue, limit: int)
    requires Inv(q) && Balanced(q) && Small(q, limit) && |q.threads| <= 2
    requires Inv(r) && Small(r, limit) && |r.threads| <= 2
    requires t < |q.threads| == |r.threads| && r.overhead == q.overhead && r.maxsize == q.maxsize
    requires LeaveStep(q, q.threads[t], r, r.threads[t])
    ensures Potential(r, limit) <= Ceiling(r.overhead, r.maxsize, limit)
  {
    LiveIsCounted(q, limit);
    LiveBetween(q, limit);
    assert Live(r) == Live(q);
    var count := r.newest - |r.removers|;
    AtMostQuotient(r.overhead, count, Fit(r.maxsize, limit));
    Monotone(limit, count, Fit(r.maxsize, limit) / r.overhead);
    SumOfTwo(r.threads, Share(r, limit));
    forall u: nat | u < |r.threads| ensures Share(r, limit)(r.threads[u]) <= limit { ShareInRange(r, limit, u); }
  }

  // ----- over whole runs -----

  /** Once `oldest` has run off, the first claim is not backed by anything that will be removed. */
  predicate UnderCeiling(q: Queue, limit: int) {
    && Inv(q) && RemoversExist(q) && Balanced(q) && Small(q, limit) && |q.threads| <= 2
    && Potential(q, limit) <= Ceiling(q.overhead, q.maxsize, limit)
                              + if q.oldest.Nil? && |q.removers| <= |q.log| then limit else 0
  }

  lemma StepStaysUnderCeiling(q: Queue, t: nat, r: Queue, limit: int)
    requires UnderCeiling(q, limit) && PotentialStep(q, t, r, limit)
    requires Inv(r) && RemoversExist(r) && Balanced(r) && Small(r, limit)
    ensures UnderCeiling(r, limit)
  {
    var pc, pc' := q.threads[t], r.threads[t];
    if OwnStep(q, pc, r, pc', limit) { OwnStepKeepsPotential(q, t, r, limit); }
    else if ClaimStep(q, pc, r, pc') { ClaimKeepsPotential(q, t, r, limit); }
    else if StoreStep(q, pc, r, pc') { StoreKeepsPotential(q, t, r, limit); }
    else if RemoveStep(q, t, pc, r, pc') { RemoveKeepsPotential(q, t, r, limit); }
    else { LeavingIsUnderCeiling(q, t, r, limit); }
  }

  lemma ApplyStaysUnderCeiling(q: Queue, a: Action, limit: int)
    requires UnderCeiling(q, limit) && Enabled(q, a) && AtMost(q.overhead, limit, a)
    ensures UnderCeiling(Apply(q, a), limit)
  {
    var r := Apply(q, a);
    ApplyKeepsInv(q, a);
    ApplyKeepsBalance(q, a);
    ApplyKeepsSmall(q, a, limit);
    AppendsOrTrims(q, a, limit);
    StepStaysUnderCeiling(q, a.t, r, limit);
  }

  lemma {:induction false} RunStaysUnderCeiling(q: Queue, acts: seq<Action>, limit: int)
    requires UnderCeiling(q, limit) && Legal(Fine, q, acts) && AllAtMost(q.overhead, limit, acts)
    ensures UnderCeiling(Run(Fine, q, acts), limit)
    decreases acts
  {
    if acts != [] {
      ApplyGrows(q, acts[0]);
      ApplyStaysUnderCeiling(q, acts[0], limit);
      RunStaysUnderCeiling(Apply(q, acts[0]), acts[1..], limit);
    }
  }

  lemma InitIsUnderCeiling(overhead: int, maxsize: int, threads: nat, limit: int)
    requires 0 < overhead <= limit && threads <= 2
    ensures UnderCeiling(Init(overhead, maxsize, threads), limit)
  {
    var q := Init(overhead, maxsize, threads);
    InitIsBalanced(overhead, maxsize, threads);
    SumOfTwo(q.threads, Share(q, limit));
    Monotone(limit, 0, Fit(maxsize, limit) / overhead);
  }

  /** Under the ceiling the counter is at most four largest entries above it. */
  lemma CeilingBoundsSize(q: Queue, limit: int)
    requires UnderCeiling(q, limit)
    ensures q.size <= Ceiling(q.overhead, q.maxsize, limit) + 4 * limit
  {
    LiveBetween(q, limit);
    SumOfTwo(q.threads, Share(q, limit));
    forall u: nat | u < |q.threads| ensures Share(q, limit)(q.threads[u]) >= -limit { ShareInRange(q, limit, u); }
  }

  /** With two goroutines every lost CAS pays for the removal that made it fail, so the counter
      stays bounded, at the finest interleaving too. */
  lemma BoundedUpToTwo(g: Grain, overhead: int, maxsize: int, threads: nat, limit: int)
    requires 0 < overhead <= limit && threads <= 2
    ensures NeverAbove(g, overhead, maxsize, threads, limit, Ceiling(overhead, maxsize, limit) + 4 * limit)
  {
    var init := Init(overhead, maxsize, threads);
    InitIsUnderCeiling(overhead, maxsize, threads, limit);
    forall r | Leads(g, init, r, limit) ensures r.size <= Ceiling(overhead, maxsize, limit) + 4 * limit {
      LeadsAtFineGrain(g, init, r, limit);
      var acts :| Legal(Fine, init, acts) && AllAtMost(overhead, limit, acts) && Run(Fine, init, acts) == r;
      RunStaysUnderCeiling(init, acts, limit);
      LeadsKeepsInv(Fine, init, r, limit);
      CeilingBoundsSize(r, limit);
    }
  }

  /** The counter has an upper bound over all runs exactly when there are at most two goroutines,
      whatever the limit and at either grain. */
  lemma BoundedIffTwo(g: Grain, overhead: int, maxsize: int, threads: nat, limit: int)
    requires 0 < overhead <= limit
    ensures Bounded(g, overhead, maxsize, threads, limit) <==> threads <= 2
  {
    if threads <= 2 {
      BoundedUpToTwo(g, overhead, maxsize, threads, limit);
    } else {
      forall bound ensures !NeverAbove(g, overhead, maxsize, threads, limit, bound) {
        var r := UnboundedFromThree(g, overhead, maxsize, threads, limit, bound);
      }
    }
  }
}
