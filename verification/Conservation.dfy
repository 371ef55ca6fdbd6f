/** Exactly when the byte counter agrees with the entries that have not been removed. */
module Conservation {
  import opened Backlog
  import opened Ledger
  import OverTrim
  import opened QueueInvariant
  import opened QueueMachine
  import opened Runs
  import opened Sums
  import opened Trimming

  /** The counter and what is still to be added are the live bytes and what is still to be
      subtracted. */
  predicate Accounted(q: Queue) {
    q.size + Sum(q.threads, Uncredited(q.overhead, q.log)) == Live(q) + TotalOwed(q)
  }

  ghost predicate AlwaysConserves(g: Grain, overhead: int, maxsize: int, threads: nat, limit: int) {
    forall r :: Leads(g, Init(overhead, maxsize, threads), r, limit) ==> Accounted(r)
  }

  // ----- too little room -----

  /** The goroutine that took the unfilled entry off subtracts bytes that were never added. */
  lemma TooLittleRoomLosesBytes(g: Grain, overhead: int, maxsize: int, threads: nat, limit: int) returns (r: Queue)
    requires 0 < overhead <= limit && threads >= 1
    requires maxsize < (threads - 1) * limit
    ensures Leads(g, Init(overhead, maxsize, threads), r, limit)
    ensures r.size == Live(r) + TotalOwed(r) - overhead
    ensures Sum(r.threads, Uncredited(r.overhead, r.log)) == 0
  {
    var init := Init(overhead, maxsize, threads);
    var q := OverTrim.TooLittleRoomOverTrims(g, overhead, maxsize, threads, limit);
    assert EntryOk(q, threads);
    var q1 := Apply(q, Step(threads - 1));
    LeadsStep(g, init, q, threads - 1, limit);
    r := Apply(q1, Step(threads - 1));
    LeadsStep(g, init, q1, threads - 1, limit);
    OthersOweTheirs(r, limit);
  }

  lemma OthersOweTheirs(r: Queue, limit: int)
    requires |r.threads| >= 1 && |r.log| == |r.threads| && r.threads[|r.threads| - 1].StoreStale?
    requires forall j: nat :: j < |r.threads| - 1 ==> r.threads[j] == ReadSize(j, j)
    requires forall j: nat :: j < |r.log| ==> SizeOf(r.overhead, r.log[j]) == limit
    ensures TotalOwed(r) == (|r.threads| - 1) * limit
    ensures Sum(r.threads, Uncredited(r.overhead, r.log)) == 0
  {
    SumAllButLast(r.threads, Owed(r.overhead, r.log), limit);
    SumZero(r.threads, Uncredited(r.overhead, r.log));
  }

  lemma AtomicConservesIffRoom(overhead: int, maxsize: int, threads: nat, limit: int)
    requires 0 < overhead <= limit && threads >= 1
    ensures AlwaysConserves(AtomicPublish, overhead, maxsize, threads, limit) <==> maxsize >= (threads - 1) * limit
  {
    if maxsize >= (threads - 1) * limit {
      forall r | Leads(AtomicPublish, Init(overhead, maxsize, threads), r, limit) ensures Accounted(r) {
        OverTrim.LeadsIsReachable(overhead, maxsize, threads, r, limit);
        ReachableIsSafe(r, limit);
        SumZero(r.threads, Uncredited(r.overhead, r.log));
      }
    } else {
      var r := TooLittleRoomLosesBytes(AtomicPublish, overhead, maxsize, threads, limit);
      assert !Accounted(r);
    }
  }

  // ----- an entry trimmed before its message is stored -----

  /** A second goroutine can trim an entry that is linked but has no message yet: it is subtracted
      as if it were empty, and added in full. `oldest` stays on the list. */
  lemma HalfFilledEntryIsLost(overhead: int, maxsize: int, threads: nat, limit: int) returns (r: Queue)
    requires 0 < overhead <= limit && threads >= 2
    ensures Leads(Fine, Init(overhead, maxsize, threads), r, limit) && r.oldest == Node(1)
    ensures r.size + Sum(r.threads, Uncredited(r.overhead, r.log)) == Live(r) + TotalOwed(r) + (limit - overhead)
  {
    var m := Filler(overhead, limit);
    var init := Init(overhead, maxsize, threads);
    var q := OverTrim.LinksAndStops(overhead, maxsize, threads, limit, m);
    var s, n, e := OverTrim.TrimsStuckEntry(q, StoreMsg(m, 0), m, limit, 0);
    LeadsOn(Fine, init, q, s, limit);
    r := Apply(s, Step(1));
    LeadsStep(Fine, init, s, 1, limit);
    HalfFilledSums(s, m, limit, n, e);
  }

  lemma HalfFilledSums(s: Queue, m: Msg, limit: int, n: nat, e: nat)
    requires OverTrim.StuckIsTrimmed(s, StoreMsg(m, 0), m, limit, n, e)
    ensures var r := Apply(s, Step(1));
            r.size + Sum(r.threads, Uncredited(r.overhead, r.log))
              == Live(r) + TotalOwed(r) + (limit - s.overhead)
  {
    var r := Apply(s, Step(1));
    var none := Init(s.overhead, s.maxsize, |s.threads|).threads;
    var one := none[0 := StoreMsg(m, 0)];
    assert r.threads == one[1 := SubSize(e, 0, s.overhead)];
    var credit, debit := Uncredited(r.overhead, r.log), Owed(r.overhead, r.log);
    SumZero(none, credit);
    SumUpdate(none, credit, 0, one[0]);
    SumUpdate(one, credit, 1, r.threads[1]);
    SumZero(none, debit);
    SumUpdate(none, debit, 0, one[0]);
    SumUpdate(one, debit, 1, r.threads[1]);
    TotalEqualSizes(r.overhead, limit, r.log[1..]);
  }

  // ----- when nothing goes astray -----

  /** Nobody can read the size of an entry before its message is there, or it does not matter. */
  predicate Careful(q: Queue, limit: int) {
    && Inv(q) && RemoversExist(q) && Balanced(q) && Small(q, limit)
    && (|q.threads| == 1 || limit == q.overhead)
  }

  lemma ReadsRightSize(q: Queue, t: nat, limit: int)
    requires Careful(q, limit) && t < |q.threads| && q.threads[t].ReadSize?
    ensures SizeNow(q, q.threads[t].k) == Cap(q.overhead, q.log, q.threads[t].k)
  {
    assert ThreadOk(q, t);
    assert EntryOk(q, q.threads[t].k);
  }

  lemma ApplyKeepsCareful(q: Queue, a: Action, limit: int)
    requires Careful(q, limit) && Enabled(q, a) && AtMost(q.overhead, limit, a)
    ensures Careful(Apply(q, a), limit)
    ensures |q.removers| <= |q.log| ==> Excess(Apply(q, a)) == Excess(q)
  {
    var r := Apply(q, a);
    ApplyKeepsInv(q, a);
    ApplyGrows(q, a);
    ApplyKeepsBalance(q, a);
    ApplyKeepsSmall(q, a, limit);
    ApplyIsLedgerStep(q, a);
    ExcessAfter(q, a.t, r);
    if q.threads[a.t].ReadSize? { ReadsRightSize(q, a.t, limit); }
  }

  // ----- while `oldest` is on the list -----

  predicate ExactOnList(q: Queue, limit: int) {
    Careful(q, limit) && (q.oldest.Node? ==> Excess(q) == 0)
  }

  lemma {:induction false} RunStaysExact(q: Queue, acts: seq<Action>, limit: int)
    requires ExactOnList(q, limit) && Legal(Fine, q, acts) && AllAtMost(q.overhead, limit, acts)
    ensures ExactOnList(Run(Fine, q, acts), limit)
    decreases acts
  {
    if acts != [] {
      var rest := acts[1..];
      ApplyGrows(q, acts[0]);
      ApplyKeepsCareful(q, acts[0], limit);
      assert forall a <- rest :: a in acts;
      RunStaysExact(Apply(q, acts[0]), rest, limit);
    }
  }

  // ----- with room -----

  /** A step of goroutine t, reduced to who is about to remove. */
  predicate ArmStep(q: Queue, t: nat, r: Queue) {
    && t < |q.threads| == |r.threads|
    && r.threads == q.threads[t := r.threads[t]]
    && r.overhead == q.overhead && r.maxsize == q.maxsize && q.log <= r.log
    && var pc, pc' := q.threads[t], r.threads[t];
    || (r.oldest == q.oldest && r.removers == q.removers && Armed(pc') <= Armed(pc))
    || (pc.Guard? && pc'.LoadOldest? && q.size == r.size > q.maxsize && SameList(q, r))
    || (&& pc.CasOldest? && pc'.ReadSize? && q.oldest.Node? && r.removers == q.removers + [t]
        && r.log == q.log)
  }

  lemma TrimIsArmStep(q: Queue, t: nat)
    requires Enabled(q, Step(t)) && InTrim(q.threads[t])
    ensures ArmStep(q, t, Apply(q, Step(t)))
  {
  }

  lemma AppendIsArmStep(q: Queue, t: nat)
    requires Enabled(q, Step(t)) && !InTrim(q.threads[t])
    ensures ArmStep(q, t, Apply(q, Step(t)))
  {
  }

  lemma ApplyIsArmStep(q: Queue, a: Action)
    requires Enabled(q, a)
    ensures ArmStep(q, a.t, Apply(q, a))
  {
    if a.Step? {
      if InTrim(q.threads[a.t]) { TrimIsArmStep(q, a.t); } else { AppendIsArmStep(q, a.t); }
    } else {
      assert a.arg.None? ==> q.threads == q.threads[a.t := q.threads[a.t]];
    }
  }

  /** Nobody removes more than there is. */
  predicate ExactWithRoom(q: Queue, limit: int) {
    && Careful(q, limit) && Excess(q) == 0
    && RoomForAll(q.overhead, q.maxsize, |q.threads|, limit)
    && |q.removers| <= |q.log| && ArmedHasRoom(q, limit)
  }

  lemma StepRemovesReal(q: Queue, t: nat, r: Queue, limit: int)
    requires ExactWithRoom(q, limit) && ArmStep(q, t, r)
    ensures |r.removers| <= |r.log|
  {
    if r.removers != q.removers {
      OneArmed(q, t);
      Monotone(limit, |q.threads| - TotalArmed(q), |q.threads| - 1);
    }
  }

  lemma ArmingHasRoom(q: Queue, t: nat, r: Queue, limit: int)
    requires ExactWithRoom(q, limit) && ArmStep(q, t, r) && Careful(r, limit) && Excess(r) == 0
    requires q.threads[t].Guard? && r.threads[t].LoadOldest?
    ensures Live(r) > r.maxsize - limit * (|r.threads| - TotalArmed(r))
  {
    Books(r);
    SumsNotNegative(r);
    forall i | 0 <= i < |r.threads|
      ensures Owed(r.overhead, r.log)(r.threads[i]) <= limit * (1 - Armed(r.threads[i]))
    {
      assert SmallDebt(r, i, limit);
    }
    OwedAtMost(r.threads, Owed(r.overhead, r.log), limit);
  }

  lemma LiveGrows(q: Queue, r: Queue)
    requires |q.removers| <= |q.log| && r.removers == q.removers && q.log <= r.log
    requires r.overhead == q.overhead > 0
    ensures Live(r) >= Live(q)
  {
    var b, n := |q.removers|, |q.log|;
    assert r.log[b..] == q.log[b..] + r.log[n..];
    TotalConcat(q.overhead, q.log[b..], r.log[n..]);
    TotalPositive(q.overhead, r.log[n..]);
  }

  lemma OthersKeepRoom(q: Queue, t: nat, r: Queue, limit: int)
    requires ExactWithRoom(q, limit) && ArmStep(q, t, r) && |r.removers| <= |r.log|
    requires !(q.threads[t].Guard? && r.threads[t].LoadOldest?)
    requires q.oldest.Nil? ==> r.oldest.Nil?
    ensures ArmedHasRoom(r, limit)
  {
    SumUpdate(q.threads, Armed, t, r.threads[t]);
    var idle := |q.threads| - TotalArmed(q);
    if r.removers == q.removers {
      LiveGrows(q, r);
      Monotone(limit, idle, |q.threads| - TotalArmed(r));
    } else {
      OneArmed(q, t);
      LiveAfterRemove(q, t);
      assert Live(r) == Live(q.(removers := r.removers));
      Distribute(limit, idle, 1);
    }
  }

  lemma ApplyKeepsRoom(q: Queue, a: Action, limit: int)
    requires ExactWithRoom(q, limit) && Enabled(q, a) && AtMost(q.overhead, limit, a)
    ensures ExactWithRoom(Apply(q, a), limit)
  {
    var r := Apply(q, a);
    ApplyGrows(q, a);
    ApplyKeepsCareful(q, a, limit);
    ApplyIsArmStep(q, a);
    StepRemovesReal(q, a.t, r, limit);
    if q.threads[a.t].Guard? && r.threads[a.t].LoadOldest? {
      ArmingHasRoom(q, a.t, r, limit);
    } else {
      OthersKeepRoom(q, a.t, r, limit);
    }
  }

  lemma {:induction false} RunKeepsRoom(q: Queue, acts: seq<Action>, limit: int)
    requires ExactWithRoom(q, limit) && Legal(Fine, q, acts) && AllAtMost(q.overhead, limit, acts)
    ensures ExactWithRoom(Run(Fine, q, acts), limit)
    decreases acts
  {
    if acts != [] {
      var rest := acts[1..];
      ApplyGrows(q, acts[0]);
      ApplyKeepsRoom(q, acts[0], limit);
      assert forall a <- rest :: a in acts;
      RunKeepsRoom(Apply(q, acts[0]), rest, limit);
    }
  }

  lemma InitIsExact(overhead: int, maxsize: int, threads: nat, limit: int)
    requires 0 < overhead <= limit && (threads == 1 || limit == overhead)
    ensures ExactOnList(Init(overhead, maxsize, threads), limit)
    ensures maxsize >= (threads - 1) * limit ==> ExactWithRoom(Init(overhead, maxsize, threads), limit)
  {
    var q := Init(overhead, maxsize, threads);
    InitIsBalanced(overhead, maxsize, threads);
    SumZero(q.threads, Armed);
  }

  // ----- the conditions -----

  /** At the finest interleaving the bytes are conserved for a single goroutine, and for more only
      if all messages are empty; and there has to be as much room as atomic publishing needs. */
  lemma FineConservesIff(overhead: int, maxsize: int, threads: nat, limit: int)
    requires 0 < overhead <= limit && threads >= 1
    ensures AlwaysConserves(Fine, overhead, maxsize, threads, limit) <==>
              maxsize >= (threads - 1) * limit && (threads == 1 || limit == overhead)
  {
    var init := Init(overhead, maxsize, threads);
    if maxsize < (threads - 1) * limit {
      var r := TooLittleRoomLosesBytes(Fine, overhead, maxsize, threads, limit);
      assert !Accounted(r);
    } else if threads >= 2 && limit > overhead {
      var r := HalfFilledEntryIsLost(overhead, maxsize, threads, limit);
      assert !Accounted(r);
    } else {
      InitIsExact(overhead, maxsize, threads, limit);
      forall r | Leads(Fine, init, r, limit) ensures Accounted(r) {
        var acts :| Legal(Fine, init, acts) && AllAtMost(overhead, limit, acts) && Run(Fine, init, acts) == r;
        RunKeepsRoom(init, acts, limit);
        Books(r);
      }
    }
  }

  /** The counter agrees with the list as long as there is one to agree with. */
  ghost predicate ConservesOnList(overhead: int, maxsize: int, threads: nat, limit: int) {
    forall r :: Leads(Fine, Init(overhead, maxsize, threads), r, limit) && r.oldest.Node? ==> Accounted(r)
  }

  /** For that no room is needed. */
  lemma FineConservesOnListIff(overhead: int, maxsize: int, threads: nat, limit: int)
    requires 0 < overhead <= limit && threads >= 1
    ensures ConservesOnList(overhead, maxsize, threads, limit) <==> threads == 1 || limit == overhead
  {
    var init := Init(overhead, maxsize, threads);
    if threads >= 2 && limit > overhead {
      var r := HalfFilledEntryIsLost(overhead, maxsize, threads, limit);
      assert !Accounted(r);
    } else {
      InitIsExact(overhead, maxsize, threads, limit);
      forall r | Leads(Fine, init, r, limit) && r.oldest.Node? ensures Accounted(r) {
        var acts :| Legal(Fine, init, acts) && AllAtMost(overhead, limit, acts) && Run(Fine, init, acts) == r;
        RunStaysExact(init, acts, limit);
        Books(r);
      }
    }
  }
}
