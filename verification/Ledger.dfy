/** The byte counter at the finest interleaving: every entry is added once and subtracted at most
    once, so the counter cannot leave the range of an int64. */
module Ledger {
  import opened Backlog
  import opened QueueMachine
  import opened QueueInvariant
  import SafeVals
  import opened Sums

  /** The bytes of an entry that its owner has claimed and not yet added. */
  function Uncredited(overhead: int, log: seq<Msg>): Thread -> int {
    (pc: Thread) =>
      match pc
      case StoreNext(_, e, _) => if e < |log| then SizeOf(overhead, log[e]) else 0
      case StoreMsg(_, e) => if e < |log| then SizeOf(overhead, log[e]) else 0
      case AddSize(e) => if e < |log| then SizeOf(overhead, log[e]) else 0
      case _ => 0
  }

  /** The most that can be subtracted for entry k: an unfilled one has no message. */
  function Cap(overhead: int, log: seq<Msg>, k: nat): int {
    if k < |log| then SizeOf(overhead, log[k]) else overhead
  }

  /** What a goroutine has taken off the list but not yet off the counter: the most that it is
      still going to subtract. */
  function Owed(overhead: int, log: seq<Msg>): Thread -> int {
    (pc: Thread) =>
      match pc
      case ReadSize(_, k) => Cap(overhead, log, k)
      case SubSize(_, _, bytes) => bytes
      case _ => 0
  }

  /** The most that can be subtracted for all removed entries together. */
  function Caps(overhead: int, log: seq<Msg>, removed: nat): int {
    if removed <= |log| then Total(overhead, log[..removed]) else Total(overhead, log) + overhead
  }

  /** The bytes of removed entries that nobody has subtracted or is going to subtract. */
  function Excess(q: Queue): int {
    Caps(q.overhead, q.log, |q.removers|) - q.subtracted - Sum(q.threads, Owed(q.overhead, q.log))
  }

  predicate Same(q: Queue, r: Queue) {
    r.log == q.log && r.removers == q.removers
  }

  predicate SameSums(q: Queue, r: Queue) {
    r.size == q.size && r.added == q.added && r.subtracted == q.subtracted
  }

  /** A step of goroutine t, reduced to what concerns the counter. */
  predicate LedgerStep(q: Queue, t: nat, r: Queue) {
    && t < |q.threads| == |r.threads|
    && r.threads == q.threads[t := r.threads[t]]
    && r.overhead == q.overhead
    && var credit, credit' := Uncredited(q.overhead, q.log), Uncredited(r.overhead, r.log);
    && var debit, debit' := Owed(q.overhead, q.log), Owed(r.overhead, r.log);
    && var pc, pc' := q.threads[t], r.threads[t];
    || (&& Same(q, r) && SameSums(q, r)
        && credit'(pc') == credit(pc) && 0 <= debit'(pc') <= debit(pc)
        && (pc.ReadSize? || debit'(pc') == debit(pc)))
    || (&& pc.CasNewest? && pc'.StoreNext? && pc'.mine == |q.log|  // claimed
        && r.log == q.log + [pc.msg] && r.removers == q.removers && SameSums(q, r))
    || (&& pc.AddSize? && pc'.MarkDone? && Same(q, r)  // added
        && r.size == q.size + credit(pc) && r.added == q.added + credit(pc) && r.subtracted == q.subtracted)
    || (&& pc.CasOldest? && pc'.ReadSize? && pc'.k == |q.removers|  // removed
        && r.log == q.log && r.removers == q.removers + [t] && SameSums(q, r))
    || (&& pc.SubSize? && pc'.StoreStale? && Same(q, r)  // subtracted
        && r.size == q.size - pc.bytes && r.added == q.added && r.subtracted == q.subtracted + pc.bytes)
  }

  lemma AppendIsLedgerStep(q: Queue, t: nat)
    requires Inv(q) && Enabled(q, Step(t)) && !InTrim(q.threads[t])
    ensures LedgerStep(q, t, Apply(q, Step(t)))
  {
    assert ThreadOk(q, t);
    var f := Filling(q.threads[t]);
    assert f.Some? ==> EntryOk(q, f.value);
  }

  lemma TrimIsLedgerStep(q: Queue, t: nat)
    requires Inv(q) && Enabled(q, Step(t)) && InTrim(q.threads[t]) && q.overhead > 0
    requires q.threads[t].SubSize? ==> q.threads[t].bytes >= 0
    requires !q.threads[t].ReadSize? && !q.threads[t].CasOldest?
    ensures LedgerStep(q, t, Apply(q, Step(t)))
  {
    assert ThreadOk(q, t);
  }

  lemma RemoveIsLedgerStep(q: Queue, t: nat)
    requires Inv(q) && Enabled(q, Step(t)) && q.threads[t].CasOldest?
    ensures LedgerStep(q, t, Apply(q, Step(t)))
  {
    assert ThreadOk(q, t);
  }

  lemma ReadIsLedgerStep(q: Queue, t: nat)
    requires Inv(q) && Enabled(q, Step(t)) && q.threads[t].ReadSize? && q.overhead > 0
    ensures LedgerStep(q, t, Apply(q, Step(t)))
  {
    assert ThreadOk(q, t);
    assert q.threads[t].k <= q.newest ==> EntryOk(q, q.threads[t].k);
  }

  predicate Balanced(q: Queue) {
    && q.overhead > 0
    && q.size == q.added - q.subtracted
    && q.added + Sum(q.threads, Uncredited(q.overhead, q.log)) == Total(q.overhead, q.log)
    && 0 <= q.added && 0 <= q.subtracted && 0 <= Excess(q)
    && (forall t: nat :: t < |q.threads| ==> DebtOk(q, t))
  }

  predicate DebtOk(q: Queue, t: nat) {
    t < |q.threads| && (q.threads[t].SubSize? ==> q.threads[t].bytes >= 0)
  }

  lemma CreditAfterClaim(q: Queue, m: Msg)
    requires Inv(q)
    ensures Sum(q.threads, Uncredited(q.overhead, q.log + [m])) == Sum(q.threads, Uncredited(q.overhead, q.log))
  {
    var f, g := Uncredited(q.overhead, q.log + [m]), Uncredited(q.overhead, q.log);
    forall i | 0 <= i < |q.threads| ensures f(q.threads[i]) == g(q.threads[i]) { assert ThreadOk(q, i); }
    SumSame(q.threads, f, g);
  }

  /** When the entry being claimed has already been taken off, its remover may still come to
      subtract its full size. */
  lemma DebitAfterClaim(q: Queue, m: Msg)
    requires Inv(q) && q.overhead > 0
    requires |q.removers| == q.newest + 1 ==> q.removers[q.newest] < |q.threads|
    ensures Sum(q.threads, Owed(q.overhead, q.log + [m])) - Sum(q.threads, Owed(q.overhead, q.log))
         <= Caps(q.overhead, q.log + [m], |q.removers|) - Caps(q.overhead, q.log, |q.removers|)
    ensures |q.removers| <= |q.log| ==>
              Sum(q.threads, Owed(q.overhead, q.log + [m])) == Sum(q.threads, Owed(q.overhead, q.log))
              && Caps(q.overhead, q.log + [m], |q.removers|) == Caps(q.overhead, q.log, |q.removers|)
  {
    var f, g := Owed(q.overhead, q.log + [m]), Owed(q.overhead, q.log);
    forall i | 0 <= i < |q.threads| && (|q.removers| <= q.newest || i != q.removers[q.newest])
      ensures f(q.threads[i]) == g(q.threads[i])
    {
      assert ThreadOk(q, i);
    }
    TotalSnoc(q.overhead, q.log, m);
    if |q.removers| <= q.newest {
      SumSame(q.threads, f, g);
      assert (q.log + [m])[..|q.removers|] == q.log[..|q.removers|];
    } else {
      SumDiffersAt(q.threads, f, g, q.removers[q.newest]);
      assert (q.log + [m])[..|q.removers|] == q.log + [m];
    }
  }

  lemma CapsAfterRemoval(q: Queue)
    requires |q.removers| <= |q.log|
    ensures Caps(q.overhead, q.log, |q.removers| + 1)
         == Caps(q.overhead, q.log, |q.removers|) + Cap(q.overhead, q.log, |q.removers|)
  {
    var b := |q.removers|;
    if b < |q.log| {
      assert q.log[..b + 1] == q.log[..b] + [q.log[b]];
      TotalSnoc(q.overhead, q.log[..b], q.log[b]);
    } else {
      assert q.log[..b] == q.log;
    }
  }

  /** Removers are goroutines of this queue. */
  predicate RemoversExist(q: Queue) {
    forall k: nat :: k < |q.removers| ==> q.removers[k] < |q.threads|
  }

  /** Only reading the size of an entry without its message lets bytes go astray, as long as
      nobody has removed the unfilled entry; and they never come back. */
  lemma ExcessAfter(q: Queue, t: nat, r: Queue)
    requires Inv(q) && RemoversExist(q) && q.overhead > 0 && LedgerStep(q, t, r)
    requires r.removers != q.removers ==> |q.removers| <= |q.log|
    ensures Excess(r) >= Excess(q)
    ensures |q.removers| <= |q.log| ==>
              Excess(r) - Excess(q) ==
                if !q.threads[t].ReadSize? then 0
                else Owed(q.overhead, q.log)(q.threads[t]) - Owed(r.overhead, r.log)(r.threads[t])
  {
    var pc, pc' := q.threads[t], r.threads[t];
    SumUpdate(q.threads, Owed(q.overhead, q.log), t, pc');
    if r.log != q.log {
      DebitAfterClaim(q, pc.msg);
      SumUpdate(q.threads, Owed(q.overhead, r.log), t, pc');
    } else if r.removers != q.removers {
      CapsAfterRemoval(q);
    }
  }

  lemma StepKeepsBalance(q: Queue, t: nat, r: Queue)
    requires Inv(q) && Inv(r) && RemoversExist(q) && Balanced(q) && LedgerStep(q, t, r)
    requires r.removers != q.removers ==> |q.removers| <= |q.log|
    ensures Balanced(r) && RemoversExist(r)
  {
    var pc := q.threads[t];
    assert DebtOk(q, t);
    SumUpdate(q.threads, Uncredited(q.overhead, q.log), t, r.threads[t]);
    ExcessAfter(q, t, r);
    if r.log != q.log {
      CreditAfterClaim(q, pc.msg);
      TotalSnoc(q.overhead, q.log, pc.msg);
      SumUpdate(q.threads, Uncredited(q.overhead, r.log), t, r.threads[t]);
    }
    forall u: nat | u < |r.threads| ensures DebtOk(r, u) { assert DebtOk(q, u); }
  }

  lemma ApplyIsLedgerStep(q: Queue, a: Action)
    requires Inv(q) && Balanced(q) && Enabled(q, a)
    ensures LedgerStep(q, a.t, Apply(q, a))
    ensures Apply(q, a).removers != q.removers ==> |q.removers| <= |q.log|
  {
    var r := Apply(q, a);
    assert DebtOk(q, a.t);
    assert ThreadOk(q, a.t);
    if a.Step? && q.threads[a.t].ReadSize? {
      ReadIsLedgerStep(q, a.t);
    } else if a.Step? && q.threads[a.t].CasOldest? {
      RemoveIsLedgerStep(q, a.t);
    } else if a.Step? && InTrim(q.threads[a.t]) {
      TrimIsLedgerStep(q, a.t);
    } else if a.Step? {
      AppendIsLedgerStep(q, a.t);
    } else {
      assert a.arg.None? ==> r.threads == q.threads[a.t := r.threads[a.t]];
    }
  }

  lemma ApplyKeepsBalance(q: Queue, a: Action)
    requires Inv(q) && RemoversExist(q) && Balanced(q) && Enabled(q, a)
    ensures Balanced(Apply(q, a)) && RemoversExist(Apply(q, a))
    ensures Excess(Apply(q, a)) >= Excess(q)
  {
    var r := Apply(q, a);
    ApplyKeepsInv(q, a);
    ApplyIsLedgerStep(q, a);
    ExcessAfter(q, a.t, r);
    StepKeepsBalance(q, a.t, r);
  }

  lemma {:induction false} RunKeepsBalance(q: Queue, acts: seq<Action>)
    requires Inv(q) && RemoversExist(q) && Balanced(q) && Legal(Fine, q, acts)
    ensures Balanced(Run(Fine, q, acts)) && RemoversExist(Run(Fine, q, acts))
    ensures Excess(Run(Fine, q, acts)) >= Excess(q)
    decreases acts
  {
    if acts != [] {
      ApplyKeepsInv(q, acts[0]);
      ApplyKeepsBalance(q, acts[0]);
      RunKeepsBalance(Apply(q, acts[0]), acts[1..]);
    }
  }

  lemma InitIsBalanced(overhead: int, maxsize: int, threads: nat)
    requires overhead > 0
    ensures var q := Init(overhead, maxsize, threads);
            Inv(q) && Balanced(q) && RemoversExist(q) && Excess(q) == 0
  {
    var q := Init(overhead, maxsize, threads);
    InvInit(overhead, maxsize, threads);
    SumZero(q.threads, Uncredited(overhead, q.log));
    SumZero(q.threads, Owed(overhead, q.log));
  }

  lemma ReachableIsBalanced(q: Queue)
    requires Reachable(Fine, q) && q.overhead > 0
    ensures Balanced(q) && RemoversExist(q)
  {
    var init := Init(q.overhead, q.maxsize, |q.threads|);
    var acts :| Legal(Fine, init, acts) && Run(Fine, init, acts) == q;
    InitIsBalanced(q.overhead, q.maxsize, |q.threads|);
    RunKeepsBalance(init, acts);
  }

  /** What has been added is exactly the bytes of the claimed entries, less those still on their
      way; what has been subtracted is at most the bytes of the removed ones. */
  lemma AddedOnceSubtractedOnce(q: Queue)
    requires Reachable(Fine, q) && q.overhead > 0
    ensures q.size == q.added - q.subtracted
    ensures q.added == Total(q.overhead, q.log) - Sum(q.threads, Uncredited(q.overhead, q.log))
    ensures 0 <= q.subtracted <= Caps(q.overhead, q.log, |q.removers|)
                                 - Sum(q.threads, Owed(q.overhead, q.log))
  {
    ReachableIsBalanced(q);
  }

  /** So while the bytes ever appended stay below 2^63, the int64 counter holds the true value:
      wrapping changes nothing. */
  lemma CounterFits(q: Queue)
    requires Reachable(Fine, q) && q.overhead > 0
    requires Total(q.overhead, q.log) + q.overhead < SafeVals.HALF64
    ensures -SafeVals.HALF64 <= q.size < SafeVals.HALF64 && SafeVals.Wrap64(q.size) as int == q.size
  {
    ReachableIsBalanced(q);
    SumsNotNegative(q);
    CapsAtMostAll(q.overhead, q.log, |q.removers|);
    SafeVals.Wrap64Fits(q.size as SafeVals.int64);
  }

  lemma SumsNotNegative(q: Queue)
    requires Balanced(q)
    ensures Sum(q.threads, Uncredited(q.overhead, q.log)) >= 0
    ensures Sum(q.threads, Owed(q.overhead, q.log)) >= 0
  {
    forall i | 0 <= i < |q.threads|
      ensures Uncredited(q.overhead, q.log)(q.threads[i]) >= 0
      ensures Owed(q.overhead, q.log)(q.threads[i]) >= 0
    {
      assert DebtOk(q, i);
    }
    SumNonNegative(q.threads, Uncredited(q.overhead, q.log));
    SumNonNegative(q.threads, Owed(q.overhead, q.log));
  }

  lemma CapsAtMostAll(overhead: int, log: seq<Msg>, removed: nat)
    requires overhead > 0
    ensures Caps(overhead, log, removed) <= Total(overhead, log) + overhead
  {
    if removed <= |log| {
      TotalConcat(overhead, log[..removed], log[removed..]);
      assert log[..removed] + log[removed..] == log;
      TotalPositive(overhead, log[removed..]);
    }
  }
}
