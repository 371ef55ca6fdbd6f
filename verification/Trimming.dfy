/** What trim guarantees when goroutines race in it. */
module Trimming {
  import opened Backlog
  import opened QueueMachine
  import opened QueueInvariant
  import opened Ledger
  import opened Sums

  // ----- giving up on a lost CAS loses no work -----

  /** This goroutine will look at the guard again, or hold an entry it has taken off. */
  predicate WillRecheck(q: Queue, pc: Thread) {
    match pc
    case MarkDone(_) => true
    case Guard(_) => true
    case LoadOldest(_) => q.oldest.Node?
    case LoadNext(_, o) => o.Node? && o == q.oldest
    case CasOldest(_, k, _) => q.oldest == Node(k)
    case ReadSize(_, _) => true
    case SubSize(_, _, _) => true
    case StoreStale(_, _) => true
    case _ => false
  }

  /** This goroutine is about to follow a nil `oldest`. */
  predicate EndsProcess(q: Queue, pc: Thread) {
    (pc.LoadOldest? && q.oldest.Nil?) || (pc.LoadNext? && pc.oldoldest.Nil?)
  }

  predicate DealsWithIt(q: Queue, pc: Thread) {
    WillRecheck(q, pc) || EndsProcess(q, pc)
  }

  predicate NoLostWork(q: Queue) {
    q.size > q.maxsize ==> exists t: nat :: t < |q.threads| && DealsWithIt(q, q.threads[t])
  }

  /** A goroutine that goes away without rechecking leaves the counter and `oldest` alone, and
      was not the one everybody relied on. */
  lemma LeavesNothingUndone(q: Queue, a: Action)
    requires Inv(q) && Enabled(q, a) && q.size > q.maxsize
    ensures var q' := Apply(q, a);
            || DealsWithIt(q', q'.threads[a.t])
            || (q'.size == q.size && q'.oldest == q.oldest && !DealsWithIt(q, q.threads[a.t]))
  {
    assert ThreadOk(q, a.t);
  }

  lemma OnlyAddingExceeds(q: Queue, a: Action)
    requires Inv(q) && Enabled(q, a) && q.size <= q.maxsize && Apply(q, a).size > q.maxsize
    ensures DealsWithIt(Apply(q, a), Apply(q, a).threads[a.t])
  {
  }

  lemma ApplyKeepsWork(q: Queue, a: Action)
    requires Inv(q) && NoLostWork(q) && Enabled(q, a)
    ensures NoLostWork(Apply(q, a))
  {
    var q' := Apply(q, a);
    ApplyGrows(q, a);
    if q'.size > q'.maxsize {
      if q.size > q.maxsize {
        LeavesNothingUndone(q, a);
        var w: nat :| w < |q.threads| && DealsWithIt(q, q.threads[w]);
        assert w < |q'.threads| && a.t < |q'.threads|;
        assert DealsWithIt(q', q'.threads[a.t]) || DealsWithIt(q', q'.threads[w]);
      } else {
        OnlyAddingExceeds(q, a);
        assert a.t < |q'.threads|;
      }
    }
  }

  lemma {:induction false} RunKeepsWork(q: Queue, acts: seq<Action>)
    requires Inv(q) && NoLostWork(q) && Legal(Fine, q, acts)
    ensures NoLostWork(Run(Fine, q, acts))
    decreases acts
  {
    if acts != [] {
      ApplyKeepsInv(q, acts[0]);
      ApplyKeepsWork(q, acts[0]);
      RunKeepsWork(Apply(q, acts[0]), acts[1..]);
    }
  }

  /** Whenever the counter is over the limit, some goroutine will recheck it or still holds an
      entry it has taken off, or is about to end the process on a nil `oldest`. */
  lemma OverLimitIsBeingHandled(q: Queue)
    requires Reachable(Fine, q) && q.maxsize >= 0
    ensures q.size > q.maxsize ==>
              exists t: nat :: t < |q.threads| && (WillRecheck(q, q.threads[t]) || EndsProcess(q, q.threads[t]))
    ensures q.size > q.maxsize && q.oldest.Node? ==>
              exists t: nat :: t < |q.threads| && WillRecheck(q, q.threads[t])
  {
    var init := Init(q.overhead, q.maxsize, |q.threads|);
    var acts :| Legal(Fine, init, acts) && Run(Fine, init, acts) == q;
    InvInit(q.overhead, q.maxsize, |q.threads|);
    RunKeepsWork(init, acts);
    ReachableInv(Fine, q);
    if q.size > q.maxsize && q.oldest.Node? {
      var w: nat :| w < |q.threads| && DealsWithIt(q, q.threads[w]);
      assert ThreadOk(q, w);
      assert WillRecheck(q, q.threads[w]);
    }
  }

  /** Once every appender has finished, the counter is back below the limit. */
  lemma WithinLimitAtRest(q: Queue)
    requires Reachable(Fine, q) && q.maxsize >= 0
    requires forall t: nat :: t < |q.threads| ==> q.threads[t].Idle?
    ensures q.size <= q.maxsize
  {
    OverLimitIsBeingHandled(q);
  }

  // ----- atomic publishing: what a step does to the bytes -----

  /** 1 for a goroutine that has passed the guard and not yet tried its CAS on `oldest`. */
  function Armed(pc: Thread): int {
    if pc.LoadOldest? || pc.LoadNext? || pc.CasOldest? then 1 else 0
  }

  function TotalOwed(q: Queue): int {
    Sum(q.threads, Owed(q.overhead, q.log))
  }

  function TotalArmed(q: Queue): int {
    Sum(q.threads, Armed)
  }

  /** The bytes of the claimed entries that nobody has removed. While `oldest` is on the list they
      are those from `oldest` up to the unfilled newest one. */
  function Live(q: Queue): int {
    if |q.removers| <= |q.log| then Total(q.overhead, q.log[|q.removers|..]) else 0
  }

  /** How the counter and the list are related, whatever has happened. */
  lemma Books(q: Queue)
    requires Balanced(q) && |q.removers| <= |q.log|
    ensures q.size + Sum(q.threads, Uncredited(q.overhead, q.log)) == Live(q) + TotalOwed(q) + Excess(q)
  {
    TotalConcat(q.overhead, q.log[..|q.removers|], q.log[|q.removers|..]);
    assert q.log[..|q.removers|] + q.log[|q.removers|..] == q.log;
  }

  predicate Published(q: Queue) {
    forall t: nat :: t < |q.threads| ==>
      !q.threads[t].StoreNext? && !q.threads[t].StoreMsg? && !q.threads[t].AddSize?
  }

  predicate SameList(q: Queue, r: Queue) {
    r.oldest == q.oldest && r.removers == q.removers && r.log == q.log
  }

  function Carried(pc: Thread): Option<Msg> {
    match pc
    case LoadNewest(m, _) => Some(m)
    case CasNewest(m, _, _) => Some(m)
    case _ => None
  }

  /** A step of goroutine t in the atomic-publish machine, reduced to what concerns bytes. */
  predicate ByteStep(q: Queue, t: nat, r: Queue) {
    && t < |q.threads| == |r.threads|
    && r.threads == q.threads[t := r.threads[t]]
    && r.overhead == q.overhead && r.maxsize == q.maxsize
    && var pc, pc' := q.threads[t], r.threads[t];
    || (&& SameList(q, r) && r.size == q.size  // nothing to do with trimming, or giving up
        && Armed(pc') == 0 && !pc'.ReadSize? && !pc'.SubSize? && !pc.ReadSize? && !pc.SubSize?)
    || (r == q.(crashed := true))
    || (&& pc.CasNewest? && pc'.MarkDone?  // lines 85-93
        && r.oldest == q.oldest && r.removers == q.removers
        && r.log == q.log + [pc.msg] && r.size == q.size + SizeOf(q.overhead, pc.msg))
    || (&& pc.Guard? && pc'.LoadOldest? && q.size > q.maxsize
        && SameList(q, r) && r.size == q.size)
    || (&& Armed(pc) == 1 && Armed(pc') == 1 && SameList(q, r) && r.size == q.size
        && (pc'.CasOldest? ==> pc.LoadNext? && pc'.newoldest == At(q, pc'.k).next))
    || (&& pc.CasOldest? && pc' == ReadSize(pc.mine, pc.k) && q.oldest == Node(pc.k)
        && r.oldest == pc.newoldest && r.removers == q.removers + [t]
        && r.log == q.log && r.size == q.size)
    || (&& pc.ReadSize? && pc' == SubSize(pc.mine, pc.k, SizeNow(q, pc.k))
        && SameList(q, r) && r.size == q.size)
    || (&& pc.SubSize? && pc'.StoreStale? && SameList(q, r) && r.size == q.size - pc.bytes)
  }

  lemma TrimIsByteStep(q: Queue, t: nat)
    requires Inv(q) && Enabled(q, Step(t)) && Published(q) && InTrim(q.threads[t])
    ensures ByteStep(q, t, Apply(q, Step(t)))
    ensures Published(Apply(q, Step(t)))
  {
    assert ThreadOk(q, t);
  }

  lemma AppendIsByteStep(q: Queue, a: Action)
    requires Inv(q) && Enabled(q, a) && Published(q) && !Claims(q, a)
    requires a.Step? ==> !InTrim(q.threads[a.t])
    ensures ByteStep(q, a.t, Apply(q, a))
    ensures Published(Apply(q, a))
  {
    assert ThreadOk(q, a.t);
  }

  lemma PublishIsByteStep(q: Queue, a: Action)
    requires Inv(q) && Published(q) && Claims(q, a)
    ensures ByteStep(q, a.t, Publish(q, a.t))
    ensures Published(Publish(q, a.t))
  {
    assert ThreadOk(q, a.t);
  }

  lemma NextIsByteStep(q: Queue, a: Action)
    requires Inv(q) && Enabled(q, a) && Published(q)
    ensures ByteStep(q, a.t, Next(AtomicPublish, q, a))
    ensures Published(Next(AtomicPublish, q, a))
  {
    if Claims(q, a) { PublishIsByteStep(q, a); }
    else if a.Step? && InTrim(q.threads[a.t]) { TrimIsByteStep(q, a.t); }
    else { AppendIsByteStep(q, a); }
  }

  // ----- byte conservation -----

  /** A subtraction in flight is for the size of the removed entry. */
  predicate OwesRight(q: Queue, t: nat) {
    && t < |q.threads|
    && (q.threads[t].SubSize? ==>
          && q.threads[t].k < |q.log|
          && q.threads[t].bytes == SizeOf(q.overhead, q.log[q.threads[t].k]))
  }

  predicate Conserved(q: Queue) {
    q.oldest.Node? ==>
      && q.size == Live(q) + TotalOwed(q)
      && forall t: nat :: t < |q.threads| ==> OwesRight(q, t)
  }

  lemma LiveAfterPublish(q: Queue, m: Msg)
    requires |q.removers| <= |q.log|
    ensures Live(q.(log := q.log + [m])) == Live(q) + SizeOf(q.overhead, m)
  {
    var b := |q.removers|;
    assert (q.log + [m])[b..] == q.log[b..] + [m];
    TotalSnoc(q.overhead, q.log[b..], m);
  }

  lemma LiveAfterRemove(q: Queue, t: nat)
    requires |q.removers| < |q.log|
    ensures Live(q.(removers := q.removers + [t])) == Live(q) - SizeOf(q.overhead, q.log[|q.removers|])
  {
    TotalDropFirst(q.overhead, q.log, |q.removers|);
  }

  lemma OwedAfterPublish(q: Queue, m: Msg)
    requires Inv(q) && q.oldest.Node?
    ensures Sum(q.threads, Owed(q.overhead, q.log + [m])) == TotalOwed(q)
  {
    forall i | 0 <= i < |q.threads|
      ensures Owed(q.overhead, q.log + [m])(q.threads[i]) == Owed(q.overhead, q.log)(q.threads[i])
    {
      assert ThreadOk(q, i);
    }
    SumSame(q.threads, Owed(q.overhead, q.log + [m]), Owed(q.overhead, q.log));
  }

  lemma StepOwesRight(q: Queue, t: nat, r: Queue, u: nat)
    requires Inv(q) && Published(q) && Conserved(q) && ByteStep(q, t, r) && Inv(r)
    requires q.oldest.Node? && u < |q.threads|
    ensures OwesRight(r, u)
  {
    assert ThreadOk(q, u) && OwesRight(q, u);
    if r.threads[u].SubSize? && !q.threads[u].SubSize? {
      FilledIn(q, q.threads[u].k);
    }
  }

  lemma StepConserves(q: Queue, t: nat, r: Queue)
    requires Inv(q) && Published(q) && Conserved(q) && ByteStep(q, t, r) && Inv(r)
    requires q.oldest.Nil? ==> r.oldest.Nil?
    ensures Conserved(r)
  {
    if r.oldest.Node? {
      var pc := q.threads[t];
      SumUpdate(q.threads, Owed(q.overhead, q.log), t, r.threads[t]);
      assert ThreadOk(q, t) && OwesRight(q, t);
      if r.log != q.log {
        LiveAfterPublish(q, pc.msg);
        OwedAfterPublish(q, pc.msg);
        SumUpdate(q.threads, Owed(q.overhead, r.log), t, r.threads[t]);
      }
      if r.removers != q.removers {
        LiveAfterRemove(q, t);
      }
      if pc.ReadSize? {
        FilledIn(q, pc.k);
      }
      forall u: nat | u < |r.threads| ensures OwesRight(r, u) {
        StepOwesRight(q, t, r, u);
      }
    }
  }

  // ----- how far racing goroutines can over-trim -----

  /** No entry, present or on its way, is larger than `limit`. */
  predicate EntriesAtMost(q: Queue, limit: int) {
    && (forall i: nat :: i < |q.log| ==> SizeOf(q.overhead, q.log[i]) <= limit)
    && (forall t: nat :: t < |q.threads| ==> CarriesAtMost(q, t, limit))
  }

  predicate CarriesAtMost(q: Queue, t: nat, limit: int) {
    && t < |q.threads|
    && (Carried(q.threads[t]).Some? ==> SizeOf(q.overhead, Carried(q.threads[t]).value) <= limit)
  }

  predicate AtMost(overhead: int, limit: int, a: Action) {
    a.Call? && a.arg.Some? ==> SizeOf(overhead, a.arg.value) <= limit
  }

  predicate AllAtMost(overhead: int, limit: int, acts: seq<Action>) {
    forall a <- acts :: AtMost(overhead, limit, a)
  }

  /** A subtraction in flight is for at most `limit` bytes. */
  predicate SmallDebt(q: Queue, t: nat, limit: int) {
    t < |q.threads| && (q.threads[t].SubSize? ==> 0 <= q.threads[t].bytes <= limit)
  }

  predicate Small(q: Queue, limit: int) {
    && 0 < q.overhead <= limit && EntriesAtMost(q, limit)
    && (forall t: nat :: t < |q.threads| ==> SmallDebt(q, t, limit))
  }

  lemma AppendKeepsSmall(q: Queue, t: nat, limit: int)
    requires Inv(q) && Small(q, limit) && Enabled(q, Step(t)) && !InTrim(q.threads[t])
    ensures Small(Apply(q, Step(t)), limit)
  {
    var r := Apply(q, Step(t));
    assert ThreadOk(q, t) && CarriesAtMost(q, t, limit);
    forall u: nat | u < |r.threads| ensures CarriesAtMost(r, u, limit) && SmallDebt(r, u, limit) {
      assert CarriesAtMost(q, u, limit) && SmallDebt(q, u, limit);
    }
  }

  lemma TrimKeepsSmall(q: Queue, t: nat, limit: int)
    requires Inv(q) && Small(q, limit) && Enabled(q, Step(t)) && InTrim(q.threads[t])
    ensures Small(Apply(q, Step(t)), limit)
  {
    var r := Apply(q, Step(t));
    assert ThreadOk(q, t);
    if q.threads[t].ReadSize? { assert EntryOk(q, q.threads[t].k); }
    forall u: nat | u < |r.threads| ensures CarriesAtMost(r, u, limit) && SmallDebt(r, u, limit) {
      assert CarriesAtMost(q, u, limit) && SmallDebt(q, u, limit);
    }
  }

  lemma CallKeepsSmall(q: Queue, a: Action, limit: int)
    requires Small(q, limit) && Enabled(q, a) && a.Call? && AtMost(q.overhead, limit, a)
    ensures Small(Apply(q, a), limit)
  {
    var r := Apply(q, a);
    forall u: nat | u < |r.threads| ensures CarriesAtMost(r, u, limit) && SmallDebt(r, u, limit) {
      assert CarriesAtMost(q, u, limit) && SmallDebt(q, u, limit);
    }
  }

  lemma ApplyKeepsSmall(q: Queue, a: Action, limit: int)
    requires Inv(q) && Small(q, limit) && Enabled(q, a) && AtMost(q.overhead, limit, a)
    ensures Small(Apply(q, a), limit)
  {
    if a.Call? { CallKeepsSmall(q, a, limit); }
    else if InTrim(q.threads[a.t]) { TrimKeepsSmall(q, a.t, limit); }
    else { AppendKeepsSmall(q, a.t, limit); }
  }

  /** The debts of the goroutines that are not armed are at most `limit` each. */
  lemma {:induction false} OwedAtMost(ts: seq<Thread>, debt: Thread -> int, limit: int)
    requires limit >= 0
    requires forall i :: 0 <= i < |ts| ==> debt(ts[i]) <= limit * (1 - Armed(ts[i]))
    ensures Sum(ts, debt) <= limit * (|ts| - Sum(ts, Armed))
  {
    if ts != [] {
      forall i | 0 <= i < |ts[1..]| ensures debt(ts[1..][i]) <= limit * (1 - Armed(ts[1..][i])) {
        assert ts[1..][i] == ts[i + 1];
      }
      OwedAtMost(ts[1..], debt, limit);
      var rest := |ts| - 1 - Sum(ts[1..], Armed);
      Distribute(limit, 1 - Armed(ts[0]), rest);
    }
  }

  /** With a >= 1 goroutines armed, more than maxsize - limit * (T - a) bytes are live. */
  predicate ArmedHasRoom(q: Queue, limit: int) {
    q.oldest.Node? && TotalArmed(q) >= 1 ==>
      Live(q) > q.maxsize - limit * (|q.threads| - TotalArmed(q))
  }

  lemma OneArmed(q: Queue, t: nat)
    requires t < |q.threads| && Armed(q.threads[t]) == 1
    ensures TotalArmed(q) >= 1
  {
    SumOne(q.threads, Armed, t);
  }

  lemma ArmsWithRoom(q: Queue, t: nat, r: Queue, limit: int)
    requires Inv(q) && Conserved(q) && EntriesAtMost(q, limit) && limit >= 0
    requires ByteStep(q, t, r) && q.threads[t].Guard? && r.threads[t].LoadOldest? && q.oldest.Node?
    ensures Live(r) > r.maxsize - limit * (|r.threads| - TotalArmed(r))
  {
    forall i | 0 <= i < |r.threads|
      ensures Owed(r.overhead, r.log)(r.threads[i]) <= limit * (1 - Armed(r.threads[i]))
    {
      assert ThreadOk(q, i) && OwesRight(q, i);
    }
    OwedAtMost(r.threads, Owed(r.overhead, r.log), limit);
    SumUpdate(q.threads, Owed(q.overhead, q.log), t, r.threads[t]);
  }

  lemma Monotone(limit: int, a: int, b: int)
    requires limit >= 0 && a <= b
    ensures limit * a <= limit * b
  {
  }

  lemma RemovalKeepsRoom(q: Queue, t: nat, r: Queue, limit: int)
    requires ByteStep(q, t, r) && EntriesAtMost(q, limit) && ArmedHasRoom(q, limit)
    requires q.oldest.Node? && r.removers != q.removers && |r.removers| <= |r.log|
    ensures TotalArmed(r) == TotalArmed(q) - 1
    ensures Live(r) > r.maxsize - limit * (|r.threads| - TotalArmed(r))
  {
    var others := |q.threads| - TotalArmed(q);
    SumUpdate(q.threads, Armed, t, r.threads[t]);
    OneArmed(q, t);
    LiveAfterRemove(q, t);
    assert limit * (others + 1) == limit * others + limit;
  }

  /** A step that neither arms nor removes leaves at least as many bytes and fewer armed. */
  lemma OtherStepsKeepRoom(q: Queue, t: nat, r: Queue, limit: int)
    requires ByteStep(q, t, r) && limit > 0 && q.overhead > 0 && ArmedHasRoom(q, limit)
    requires q.oldest.Node? && r.removers == q.removers && |q.removers| <= |q.log|
    requires !(q.threads[t].Guard? && r.threads[t].LoadOldest?)
    ensures ArmedHasRoom(r, limit)
  {
    SumUpdate(q.threads, Armed, t, r.threads[t]);
    assert TotalArmed(r) <= TotalArmed(q);
    Monotone(limit, |q.threads| - TotalArmed(q), |r.threads| - TotalArmed(r));
    if r.log != q.log { PublishAddsSize(q, t, r); }
  }

  lemma StepKeepsRoom(q: Queue, t: nat, r: Queue, limit: int)
    requires Inv(q) && Published(q) && Conserved(q) && ByteStep(q, t, r)
    requires EntriesAtMost(q, limit) && limit > 0 && ArmedHasRoom(q, limit) && q.overhead > 0
    requires q.oldest.Node? && |r.removers| <= |r.log|
    ensures ArmedHasRoom(r, limit)
  {
    if q.threads[t].Guard? && r.threads[t].LoadOldest? {
      ArmsWithRoom(q, t, r, limit);
    } else if r.removers != q.removers {
      RemovalKeepsRoom(q, t, r, limit);
    } else {
      OtherStepsKeepRoom(q, t, r, limit);
    }
  }

  lemma PublishAddsSize(q: Queue, t: nat, r: Queue)
    requires ByteStep(q, t, r) && r.log != q.log && |q.removers| <= |q.log|
    ensures r.log == q.log + [q.threads[t].msg]
    ensures Live(r) == Live(q) + SizeOf(q.overhead, q.threads[t].msg)
  {
    LiveAfterPublish(q, q.threads[t].msg);
    assert Live(r) == Live(q.(log := r.log));
  }

  /** A CAS that can still win will move `oldest` to a real entry. */
  predicate SeesSuccessor(q: Queue, t: nat) {
    && t < |q.threads|
    && (q.threads[t].CasOldest? && q.oldest == Node(q.threads[t].k) ==>
          q.threads[t].newoldest == Node(q.threads[t].k + 1))
  }

  /** Either nothing has been removed, or little more than the limit requires. */
  predicate Retained(q: Queue, limit: int) {
    |q.removers| == 0 || Live(q) > q.maxsize - limit * |q.threads|
  }

  predicate Safe(q: Queue, limit: int) {
    && Inv(q) && Published(q) && Conserved(q) && EntriesAtMost(q, limit)
    && q.oldest.Node?
    && ArmedHasRoom(q, limit)
    && (forall t: nat :: t < |q.threads| ==> SeesSuccessor(q, t))
    && Retained(q, limit)
  }

  /** The condition on the configuration: T goroutines, entries of at most `limit` bytes. */
  predicate RoomForAll(overhead: int, maxsize: int, threads: nat, limit: int) {
    overhead > 0 && limit > 0 && maxsize >= (threads - 1) * limit
  }

  lemma ArmedMeansLive(q: Queue, limit: int, t: nat)
    requires Safe(q, limit) && RoomForAll(q.overhead, q.maxsize, |q.threads|, limit)
    requires t < |q.threads| && Armed(q.threads[t]) == 1
    ensures Live(q) > q.maxsize - limit * (|q.threads| - 1) >= 0
    ensures |q.removers| < |q.log|
  {
    OneArmed(q, t);
    Monotone(limit, |q.threads| - TotalArmed(q), |q.threads| - 1);
  }

  lemma RemovesRealEntry(q: Queue, t: nat, r: Queue, limit: int)
    requires Safe(q, limit) && RoomForAll(q.overhead, q.maxsize, |q.threads|, limit)
    requires ByteStep(q, t, r)
    ensures r.oldest.Node?
    ensures |r.removers| <= |r.log|
  {
    assert SeesSuccessor(q, t);
    if r.removers != q.removers { ArmedMeansLive(q, limit, t); }
  }

  lemma StepSeesSuccessor(q: Queue, t: nat, r: Queue, limit: int, u: nat)
    requires Safe(q, limit) && RoomForAll(q.overhead, q.maxsize, |q.threads|, limit)
    requires ByteStep(q, t, r) && Inv(r) && u < |q.threads|
    ensures SeesSuccessor(r, u)
  {
    assert ThreadOk(q, u) && SeesSuccessor(q, u) && ThreadOk(r, u);
    if u == t && r.threads[t].CasOldest? && r.oldest == Node(r.threads[t].k) && r != q.(crashed := true) {
      ArmedMeansLive(q, limit, t);
      FilledIn(q, r.threads[t].k);
    }
  }

  lemma StepRetains(q: Queue, t: nat, r: Queue, limit: int)
    requires Safe(q, limit) && RoomForAll(q.overhead, q.maxsize, |q.threads|, limit)
    requires ByteStep(q, t, r)
    ensures Retained(r, limit)
  {
    if r.log != q.log {
      PublishAddsSize(q, t, r);
    } else if r.removers != q.removers {
      ArmedMeansLive(q, limit, t);
      LiveAfterRemove(q, t);
      assert limit * |q.threads| == limit * (|q.threads| - 1) + limit;
    }
  }

  /** What a goroutine carries after its step it carried before, or it has just been given it. */
  lemma CarriesOn(q: Queue, a: Action, limit: int)
    requires Enabled(q, a) && CarriesAtMost(q, a.t, limit) && AtMost(q.overhead, limit, a)
    ensures CarriesAtMost(Apply(q, a), a.t, limit)
  {
  }

  lemma StepKeepsSizes(q: Queue, a: Action, limit: int)
    requires Inv(q) && Published(q) && EntriesAtMost(q, limit) && Enabled(q, a) && AtMost(q.overhead, limit, a)
    ensures EntriesAtMost(Next(AtomicPublish, q, a), limit)
  {
    var r := Next(AtomicPublish, q, a);
    assert CarriesAtMost(q, a.t, limit);
    NextIsByteStep(q, a);
    CarriesOn(q, a, limit);
    forall u: nat | u < |r.threads| ensures CarriesAtMost(r, u, limit) {
      assert CarriesAtMost(q, u, limit);
    }
  }

  lemma NextKeepsSafe(q: Queue, a: Action, limit: int)
    requires Safe(q, limit) && RoomForAll(q.overhead, q.maxsize, |q.threads|, limit)
    requires Enabled(q, a) && AtMost(q.overhead, limit, a)
    ensures Safe(Next(AtomicPublish, q, a), limit)
  {
    NextKeepsInv(AtomicPublish, q, a);
    NextIsByteStep(q, a);
    StepKeepsSizes(q, a, limit);
    SafeStep(q, a.t, Next(AtomicPublish, q, a), limit);
  }

  lemma SafeStep(q: Queue, t: nat, r: Queue, limit: int)
    requires Safe(q, limit) && RoomForAll(q.overhead, q.maxsize, |q.threads|, limit)
    requires ByteStep(q, t, r) && Inv(r) && Published(r) && EntriesAtMost(r, limit)
    ensures Safe(r, limit)
  {
    RemovesRealEntry(q, t, r, limit);
    StepConserves(q, t, r);
    StepKeepsRoom(q, t, r, limit);
    StepRetains(q, t, r, limit);
    forall u: nat | u < |r.threads| ensures SeesSuccessor(r, u) {
      StepSeesSuccessor(q, t, r, limit, u);
    }
  }

  // ----- over whole runs -----

  lemma InitIsSafe(overhead: int, maxsize: int, threads: nat, limit: int)
    ensures Safe(Init(overhead, maxsize, threads), limit)
  {
    var q := Init(overhead, maxsize, threads);
    InvInit(overhead, maxsize, threads);
    SumZero(q.threads, Armed);
    SumZero(q.threads, Owed(overhead, q.log));
  }

  lemma {:induction false} RunKeepsSafe(q: Queue, acts: seq<Action>, limit: int)
    requires Safe(q, limit) && RoomForAll(q.overhead, q.maxsize, |q.threads|, limit)
    requires Legal(AtomicPublish, q, acts) && AllAtMost(q.overhead, limit, acts)
    ensures Safe(Run(AtomicPublish, q, acts), limit)
    decreases acts
  {
    if acts != [] {
      NextKeepsSafe(q, acts[0], limit);
      NextKeepsInv(AtomicPublish, q, acts[0]);
      RunKeepsSafe(Next(AtomicPublish, q, acts[0]), acts[1..], limit);
    }
  }

  /** q can be reached with atomic publishing and no entry above `limit` bytes. */
  ghost predicate ReachableAtMost(q: Queue, limit: int) {
    exists acts ::
      && Legal(AtomicPublish, Init(q.overhead, q.maxsize, |q.threads|), acts)
      && AllAtMost(q.overhead, limit, acts)
      && Run(AtomicPublish, Init(q.overhead, q.maxsize, |q.threads|), acts) == q
  }

  lemma ReachableIsSafe(q: Queue, limit: int)
    requires ReachableAtMost(q, limit) && RoomForAll(q.overhead, q.maxsize, |q.threads|, limit)
    ensures Safe(q, limit)
  {
    var init := Init(q.overhead, q.maxsize, |q.threads|);
    var acts :| Legal(AtomicPublish, init, acts) && AllAtMost(q.overhead, limit, acts)
                && Run(AtomicPublish, init, acts) == q;
    InitIsSafe(q.overhead, q.maxsize, |q.threads|, limit);
    RunKeepsSafe(init, acts, limit);
  }

  /** With room for one entry per other goroutine, `oldest` never passes the unfilled newest
      entry, and the more goroutines are about to remove something the more is left to remove. */
  lemma NeverOverTrims(q: Queue, limit: int)
    requires ReachableAtMost(q, limit) && RoomForAll(q.overhead, q.maxsize, |q.threads|, limit)
    ensures q.oldest.Node? && q.oldest.i <= q.newest
    ensures TotalArmed(q) >= 1 ==> Live(q) > q.maxsize - limit * (|q.threads| - TotalArmed(q))
  {
    ReachableIsSafe(q, limit);
  }

  /** Racing goroutines over-trim by less than one entry each. */
  lemma RetentionBound(q: Queue, limit: int)
    requires ReachableAtMost(q, limit) && q.overhead > 0 && limit > 0
    ensures |q.removers| == 0 || Live(q) > q.maxsize - limit * |q.threads|
  {
    if q.maxsize >= (|q.threads| - 1) * limit {
      ReachableIsSafe(q, limit);
    } else {
      assert limit * |q.threads| == (|q.threads| - 1) * limit + limit;
      if |q.removers| <= |q.log| { TotalPositive(q.overhead, q.log[|q.removers|..]); }
    }
  }

  lemma NextConserves(q: Queue, a: Action)
    requires Inv(q) && Published(q) && Conserved(q) && Enabled(q, a)
    ensures var r := Next(AtomicPublish, q, a); Inv(r) && Published(r) && Conserved(r)
  {
    NextKeepsInv(AtomicPublish, q, a);
    NextIsByteStep(q, a);
    StepConserves(q, a.t, Next(AtomicPublish, q, a));
  }

  lemma {:induction false} RunConserves(q: Queue, acts: seq<Action>)
    requires Inv(q) && Published(q) && Conserved(q) && Legal(AtomicPublish, q, acts)
    ensures Conserved(Run(AtomicPublish, q, acts))
    decreases acts
  {
    if acts != [] {
      NextConserves(q, acts[0]);
      RunConserves(Next(AtomicPublish, q, acts[0]), acts[1..]);
    }
  }

  /** As long as `oldest` has not run off the list, the counter is the bytes on the list plus
      what removers still have to subtract: every entry is added once and subtracted once. */
  lemma BytesConserved(q: Queue)
    requires Reachable(AtomicPublish, q) && q.oldest.Node?
    ensures q.size == Live(q) + TotalOwed(q)
  {
    var init := Init(q.overhead, q.maxsize, |q.threads|);
    var acts :| Legal(AtomicPublish, init, acts) && Run(AtomicPublish, init, acts) == q;
    InitIsSafe(q.overhead, q.maxsize, |q.threads|, 0);
    RunConserves(init, acts);
  }

  // ----- what the list looks like -----

  /** A removed entry points to the stale marker, or its remover is still at work. */
  predicate CutOff(q: Queue, k: nat) {
    && k < |q.removers|
    && (At(q, k).next == Stale
        || (q.removers[k] < |q.threads| && Pending(q.threads[q.removers[k]]) == Some(k)))
  }

  predicate AllCutOff(q: Queue) {
    q.oldest.Node? ==> forall k: nat :: k < |q.removers| ==> CutOff(q, k)
  }

  lemma TrimCutsOff(q: Queue, t: nat, k: nat)
    requires Inv(q) && Enabled(q, Step(t)) && InTrim(q.threads[t]) && q.oldest.Node?
    requires k < |Apply(q, Step(t)).removers|
    requires k < |q.removers| ==> CutOff(q, k)
    ensures CutOff(Apply(q, Step(t)), k)
  {
    assert ThreadOk(q, t);
  }

  lemma OthersLeaveCutOff(q: Queue, a: Action, k: nat)
    requires Inv(q) && Published(q) && Enabled(q, a) && q.oldest.Node? && CutOff(q, k)
    requires a.Step? ==> !InTrim(q.threads[a.t]) && !Claims(q, a)
    ensures CutOff(Next(AtomicPublish, q, a), k)
  {
    assert ThreadOk(q, a.t);
  }

  lemma ClaimLeavesCutOff(q: Queue, a: Action, k: nat)
    requires Inv(q) && Published(q) && Claims(q, a) && q.oldest.Node? && CutOff(q, k)
    ensures CutOff(Publish(q, a.t), k)
  {
    assert ThreadOk(q, a.t);
  }

  lemma NextKeepsCutOff(q: Queue, a: Action)
    requires Inv(q) && Published(q) && Enabled(q, a) && AllCutOff(q)
    ensures AllCutOff(Next(AtomicPublish, q, a))
  {
    var r := Next(AtomicPublish, q, a);
    NextKeepsInv(AtomicPublish, q, a);
    if r.oldest.Node? {
      forall k: nat | k < |r.removers| ensures CutOff(r, k) {
        if a.Step? && InTrim(q.threads[a.t]) {
          TrimCutsOff(q, a.t, k);
        } else {
          NextIsByteStep(q, a);
          if Claims(q, a) { ClaimLeavesCutOff(q, a, k); } else { OthersLeaveCutOff(q, a, k); }
        }
      }
    }
  }

  lemma {:induction false} RunKeepsCutOff(q: Queue, acts: seq<Action>)
    requires Inv(q) && Published(q) && AllCutOff(q) && Legal(AtomicPublish, q, acts)
    ensures AllCutOff(Run(AtomicPublish, q, acts))
    ensures Published(Run(AtomicPublish, q, acts))
    decreases acts
  {
    if acts != [] {
      NextKeepsInv(AtomicPublish, q, acts[0]);
      NextIsByteStep(q, acts[0]);
      NextKeepsCutOff(q, acts[0]);
      RunKeepsCutOff(Next(AtomicPublish, q, acts[0]), acts[1..]);
    }
  }

  /** Once every appender has finished, the list is the one a sequential queue would have: all
      removed entries are cut off, all others are filled in and linked up to the empty one, and
      the counter is their size and within the limit. Only how much was removed depends on the
      race. */
  lemma ListAtRest(q: Queue)
    requires Reachable(AtomicPublish, q) && q.oldest.Node? && q.maxsize >= 0
    requires forall t: nat :: t < |q.threads| ==> q.threads[t].Idle?
    ensures q.oldest.i == |q.removers| <= q.newest == |q.log| && |q.entries| == q.newest + 1
    ensures forall k: nat :: k < q.newest ==>
              q.entries[k] == Entry(if k < q.oldest.i then Stale else Node(k + 1), Some(q.log[k]), 0)
    ensures q.entries[q.newest] == EMPTY_ENTRY
    ensures q.size == Total(q.overhead, q.log[q.oldest.i..]) <= q.maxsize
  {
    var init := Init(q.overhead, q.maxsize, |q.threads|);
    var acts :| Legal(AtomicPublish, init, acts) && Run(AtomicPublish, init, acts) == q;
    InitIsSafe(q.overhead, q.maxsize, |q.threads|, 0);
    ReachableInv(AtomicPublish, q);
    RunKeepsCutOff(init, acts);
    forall k: nat | k < q.newest
      ensures q.entries[k] == Entry(if k < q.oldest.i then Stale else Node(k + 1), Some(q.log[k]), 0)
    {
      FilledIn(q, k);
      assert EntryOk(q, k);
      assert k < |q.removers| ==> CutOff(q, k);
    }
    assert EntryOk(q, q.newest);
    BytesConserved(q);
    SumZero(q.threads, Owed(q.overhead, q.log));
    var fine := AtomicRunIsFineRun(init, acts);
    WithinLimitAtRest(q);
  }
}
