/** Runs put together piece by piece: what one goroutine can do while the others stand still. */
module Runs {
  import opened Backlog
  import opened QueueMachine
  import opened QueueInvariant
  import Trimming

  /** Some run with entries of at most `limit` bytes leads from q to r. */
  ghost predicate Leads(g: Grain, q: Queue, r: Queue, limit: int) {
    exists acts :: Legal(g, q, acts) && Trimming.AllAtMost(q.overhead, limit, acts) && Run(g, q, acts) == r
  }

  lemma LeadsNowhere(g: Grain, q: Queue, limit: int)
    ensures Leads(g, q, q, limit)
  {
    assert Legal(g, q, []) && Run(g, q, []) == q;
  }

  lemma LeadsNext(g: Grain, q: Queue, a: Action, limit: int)
    requires Enabled(q, a) && Trimming.AtMost(q.overhead, limit, a)
    ensures Leads(g, q, Next(g, q, a), limit)
  {
    OneStep(g, q, a);
    assert Legal(g, q, [a]) && Trimming.AllAtMost(q.overhead, limit, [a]);
  }

  lemma LeadsOn(g: Grain, q: Queue, r: Queue, s: Queue, limit: int)
    requires Leads(g, q, r, limit) && Leads(g, r, s, limit) && q.overhead == r.overhead
    ensures Leads(g, q, s, limit)
  {
    var first :| Legal(g, q, first) && Trimming.AllAtMost(q.overhead, limit, first) && Run(g, q, first) == r;
    var second :| Legal(g, r, second) && Trimming.AllAtMost(r.overhead, limit, second) && Run(g, r, second) == s;
    RunConcat(g, q, first, second);
    assert Trimming.AllAtMost(q.overhead, limit, first + second);
  }

  lemma LeadsStep(g: Grain, q: Queue, r: Queue, t: nat, limit: int)
    requires Leads(g, q, r, limit) && Enabled(r, Step(t)) && q.overhead == r.overhead
    ensures Leads(g, q, Next(g, r, Step(t)), limit)
  {
    LeadsNext(g, r, Step(t), limit);
    LeadsOn(g, q, r, Next(g, r, Step(t)), limit);
  }

  /** What atomic publishing can reach, the finest interleaving can reach. */
  lemma LeadsAtFineGrain(g: Grain, q: Queue, r: Queue, limit: int)
    requires Leads(g, q, r, limit)
    ensures Leads(Fine, q, r, limit)
  {
    if g.AtomicPublish? {
      var acts :| Legal(g, q, acts) && Trimming.AllAtMost(q.overhead, limit, acts) && Run(g, q, acts) == r;
      var fine := AtomicRunIsFineRun(q, acts);
      assert Trimming.AllAtMost(q.overhead, limit, fine);
    }
  }

  /** Goroutine t appends m with nobody interfering, up to its first look at the guard. */
  function Appended(q: Queue, t: nat, m: Msg): Queue
    requires t < |q.threads| && |q.entries| == q.newest + 1
  {
    var n := q.newest;
    q.(threads := q.threads[t := Guard(n)],
       newest := n + 1,
       size := q.size + SizeOf(q.overhead, m), added := q.added + SizeOf(q.overhead, m),
       entries := q.entries[n := Entry(Node(n + 1), Some(m), 0)] + [EMPTY_ENTRY],
       log := q.log + [m], owner := q.owner + [t], call := q.call + [|q.events|],
       events := q.events + [Begun(t, m)])
  }

  /** Goroutine t, at the guard, takes entry k off. */
  function TakenOff(q: Queue, t: nat, e: nat, k: nat): Queue
    requires t < |q.threads|
  {
    q.(threads := q.threads[t := ReadSize(e, k)], oldest := At(q, k).next, removers := q.removers + [t])
  }

  /** ... and settles the accounts. */
  function Settled(q: Queue, t: nat, e: nat, k: nat): Queue
    requires t < |q.threads|
  {
    Put(q, k, At(q, k).(next := Stale)).(
      threads := q.threads[t := Guard(e)],
      size := q.size - SizeNow(q, k), subtracted := q.subtracted + SizeNow(q, k))
  }

  /** Call, load, claim. */
  function Claimed(q: Queue, t: nat, m: Msg): Queue
    requires t < |q.threads|
  {
    var n := |q.entries|;
    q.(threads := q.threads[t := StoreNext(m, q.newest, n)],
       newest := n, entries := q.entries + [EMPTY_ENTRY],
       log := q.log + [m], owner := q.owner + [t], call := q.call + [|q.events|],
       events := q.events + [Begun(t, m)])
  }

  lemma ClaimRun(q: Queue, t: nat, m: Msg, limit: int) returns (q2: Queue)
    requires !q.crashed && t < |q.threads| && q.threads[t].Idle?
    requires SizeOf(q.overhead, m) <= limit
    ensures forall g: Grain :: Leads(g, q, q2, limit)
    ensures q2.overhead == q.overhead && Claims(q2, Step(t)) && Apply(q2, Step(t)) == Claimed(q, t, m)
  {
    var q1 := Apply(q, Call(t, Some(m)));
    q2 := Apply(q1, Step(t));
    forall g: Grain ensures Leads(g, q, q2, limit) {
      LeadsNext(g, q, Call(t, Some(m)), limit);
      LeadsStep(g, q, q1, t, limit);
    }
    assert Apply(q2, Step(t)).threads == Claimed(q, t, m).threads;
  }

  /** Link, message, size. */
  lemma FillResult(c: Queue, t: nat, m: Msg, n: nat)
    requires !c.crashed && t < |c.threads| && c.threads[t] == StoreNext(m, n, n + 1)
    requires n < |c.entries|
    ensures Enabled(c, Step(t))
    ensures var c1 := Apply(c, Step(t)); Enabled(c1, Step(t)) && c1.threads[t] == StoreMsg(m, n)
    ensures var c2 := Apply(Apply(c, Step(t)), Step(t)); Enabled(c2, Step(t)) && c2.threads[t] == AddSize(n)
    ensures var c3 := Apply(Apply(Apply(c, Step(t)), Step(t)), Step(t));
            c3 == Filled(c, t, m, n)
  {
    var c1 := Apply(c, Step(t));
    assert c1.threads[t] == StoreMsg(m, n);
    var c2 := Apply(c1, Step(t));
    assert c2.threads[t] == AddSize(n);
    var e := c.entries[n].(next := Node(n + 1), msg := Some(m));
    assert c2.entries == c.entries[n := e];
    assert c2.threads == c.threads[t := AddSize(n)];
    assert Apply(c2, Step(t)).threads == c.threads[t := MarkDone(n)];
  }

  /** A claimed entry with its link, message and size in place. */
  function Filled(c: Queue, t: nat, m: Msg, n: nat): Queue
    requires t < |c.threads| && n < |c.entries|
  {
    c.(threads := c.threads[t := MarkDone(n)],
       entries := c.entries[n := c.entries[n].(next := Node(n + 1), msg := Some(m))],
       size := c.size + SizeOf(c.overhead, m), added := c.added + SizeOf(c.overhead, m))
  }

  /** Lines 85 to 93 in one step. */
  lemma AtomicFillRun(q: Queue, q2: Queue, t: nat, limit: int)
    requires Leads(AtomicPublish, q, q2, limit) && q.overhead == q2.overhead && Claims(q2, Step(t))
    ensures Leads(AtomicPublish, q, Publish(q2, t), limit)
  {
    LeadsStep(AtomicPublish, q, q2, t, limit);
  }

  /** Lines 85 and 91. */
  lemma FineLinkRun(q: Queue, q2: Queue, t: nat, limit: int)
    requires Leads(Fine, q, q2, limit) && q.overhead == q2.overhead && Claims(q2, Step(t))
    ensures var c1 := Apply(Apply(q2, Step(t)), Step(t));
            Leads(Fine, q, c1, limit) && c1.overhead == q.overhead && Enabled(c1, Step(t))
            && c1.threads[t].StoreMsg?
  {
    LeadsStep(Fine, q, q2, t, limit);
    LeadsStep(Fine, q, Apply(q2, Step(t)), t, limit);
  }

  /** Lines 92 and 93. */
  lemma FineStoreRun(q: Queue, c1: Queue, t: nat, limit: int)
    requires Leads(Fine, q, c1, limit) && c1.overhead == q.overhead && Enabled(c1, Step(t))
    requires c1.threads[t].StoreMsg?
    ensures Enabled(Apply(c1, Step(t)), Step(t))
    ensures Leads(Fine, q, Apply(Apply(c1, Step(t)), Step(t)), limit)
  {
    LeadsStep(Fine, q, c1, t, limit);
    LeadsStep(Fine, q, Apply(c1, Step(t)), t, limit);
  }

  lemma PublishRun(g: Grain, q: Queue, q2: Queue, t: nat, m: Msg, limit: int) returns (r: Queue)
    requires Inv(q) && !q.crashed && t < |q.threads|
    requires Leads(g, q, q2, limit) && q.overhead == q2.overhead
    requires Claims(q2, Step(t)) && Apply(q2, Step(t)) == Claimed(q, t, m)
    ensures Leads(g, q, r, limit) && r == Filled(Claimed(q, t, m), t, m, q.newest)
  {
    r := Publish(q2, t);
    FillResult(Claimed(q, t, m), t, m, q.newest);
    match g
    case AtomicPublish => AtomicFillRun(q, q2, t, limit);
    case Fine =>
      FineLinkRun(q, q2, t, limit);
      FineStoreRun(q, Apply(Apply(q2, Step(t)), Step(t)), t, limit);
  }

  /** Marked done, that is what Appended describes. */
  lemma DoneResult(q: Queue, t: nat, m: Msg, c3: Queue)
    requires Inv(q) && t < |q.threads| && EntryOk(q, q.newest)
    requires c3 == Filled(Claimed(q, t, m), t, m, q.newest)
    ensures At(c3, q.newest).valid == 1
    ensures Goto(Put(c3, q.newest, At(c3, q.newest).(valid := 0)), t, Guard(q.newest)) == Appended(q, t, m)
  {
    var d := Goto(Put(c3, q.newest, At(c3, q.newest).(valid := 0)), t, Guard(q.newest));
    assert d.threads == q.threads[t := Guard(q.newest)];
    assert d.entries == Appended(q, t, m).entries;
  }

  lemma DoneRun(g: Grain, q: Queue, c: Queue, t: nat, n: nat, limit: int)
    requires Leads(g, q, c, limit) && q.overhead == c.overhead
    requires !c.crashed && t < |c.threads| && c.threads[t] == MarkDone(n) && At(c, n).valid == 1
    ensures Leads(g, q, Goto(Put(c, n, At(c, n).(valid := 0)), t, Guard(n)), limit)
  {
    LeadsStep(g, q, c, t, limit);
  }

  lemma AppendRun(g: Grain, q: Queue, t: nat, m: Msg, limit: int)
    requires Inv(q) && !q.crashed && t < |q.threads| && q.threads[t].Idle?
    requires SizeOf(q.overhead, m) <= limit
    ensures Leads(g, q, Appended(q, t, m), limit)
  {
    assert EntryOk(q, q.newest);
    var q2 := ClaimRun(q, t, m, limit);
    var r := PublishRun(g, q, q2, t, m, limit);
    DoneResult(q, t, m, r);
    DoneRun(g, q, r, t, q.newest, limit);
  }

  /** Past the guard, with `oldest` and its successor loaded. */
  lemma ArmRun(g: Grain, q: Queue, t: nat, e: nat, k: nat, limit: int)
    requires !q.crashed && t < |q.threads| && q.threads[t] == Guard(e)
    requires q.size > q.maxsize && q.oldest == Node(k)
    ensures Leads(g, q, Goto(q, t, CasOldest(e, k, At(q, k).next)), limit)
  {
    var q1, q2 := Goto(q, t, LoadOldest(e)), Goto(q, t, LoadNext(e, Node(k)));
    LeadsNext(g, q, Step(t), limit);
    LoadsSuccessor(q, t, e, k);
    LeadsStep(g, q, q1, t, limit);
    LeadsStep(g, q, q2, t, limit);
  }

  lemma LoadsSuccessor(q: Queue, t: nat, e: nat, k: nat)
    requires !q.crashed && t < |q.threads| && q.oldest == Node(k)
    ensures Apply(Goto(q, t, LoadOldest(e)), Step(t)) == Goto(q, t, LoadNext(e, Node(k)))
    ensures Apply(Goto(q, t, LoadNext(e, Node(k))), Step(t)) == Goto(q, t, CasOldest(e, k, At(q, k).next))
  {
    assert Goto(Goto(q, t, LoadOldest(e)), t, LoadNext(e, Node(k))).threads == q.threads[t := LoadNext(e, Node(k))];
    var pc := CasOldest(e, k, At(q, k).next);
    assert Goto(Goto(q, t, LoadNext(e, Node(k))), t, pc).threads == q.threads[t := pc];
  }

  lemma TakeOffRun(g: Grain, q: Queue, t: nat, e: nat, k: nat, limit: int)
    requires !q.crashed && t < |q.threads| && q.threads[t] == Guard(e)
    requires q.size > q.maxsize && q.oldest == Node(k)
    ensures Leads(g, q, TakenOff(q, t, e, k), limit)
  {
    var armed := Goto(q, t, CasOldest(e, k, At(q, k).next));
    ArmRun(g, q, t, e, k, limit);
    LeadsStep(g, q, armed, t, limit);
    assert Apply(armed, Step(t)).threads == q.threads[t := ReadSize(e, k)];
  }

  /** The size is read and subtracted. */
  lemma SubtractRun(g: Grain, q: Queue, t: nat, e: nat, k: nat, limit: int)
    requires !q.crashed && t < |q.threads| && q.threads[t] == ReadSize(e, k)
    ensures Leads(g, q, Subtracted(q, t, e, k), limit)
  {
    var q1 := Apply(q, Step(t));
    LeadsNext(g, q, Step(t), limit);
    LeadsStep(g, q, q1, t, limit);
    assert Apply(q1, Step(t)).threads == q.threads[t := StoreStale(e, k)];
  }

  function Subtracted(q: Queue, t: nat, e: nat, k: nat): Queue
    requires t < |q.threads|
  {
    q.(threads := q.threads[t := StoreStale(e, k)],
       size := q.size - SizeNow(q, k), subtracted := q.subtracted + SizeNow(q, k))
  }

  lemma SettleRun(g: Grain, q: Queue, t: nat, e: nat, k: nat, limit: int)
    requires !q.crashed && t < |q.threads| && q.threads[t] == ReadSize(e, k)
    ensures Leads(g, q, Settled(q, t, e, k), limit)
  {
    var r := Subtracted(q, t, e, k);
    SubtractRun(g, q, t, e, k, limit);
    LeadsStep(g, q, r, t, limit);
    assert Apply(r, Step(t)).threads == q.threads[t := Guard(e)];
  }

  lemma LeadsKeepsInv(g: Grain, q: Queue, r: Queue, limit: int)
    requires Inv(q) && Leads(g, q, r, limit)
    ensures Inv(r) && r.overhead == q.overhead && r.maxsize == q.maxsize && |r.threads| == |q.threads|
  {
    var acts :| Legal(g, q, acts) && Trimming.AllAtMost(q.overhead, limit, acts) && Run(g, q, acts) == r;
    RunKeepsInv(g, q, acts);
  }

  /** A message whose entry takes exactly `limit` bytes. */
  function Filler(overhead: int, limit: int): (m: Msg)
    requires overhead <= limit
    ensures SizeOf(overhead, m) == limit
  {
    seq(limit - overhead, _ => 0)
  }
}
