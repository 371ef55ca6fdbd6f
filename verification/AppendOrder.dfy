/** Append takes effect at its CAS on `newest`: real-time order, each sender's order, and how
    often that CAS can fail. */
module AppendOrder {
  import opened Backlog
  import opened QueueMachine
  import opened QueueInvariant
  import Sums

  // ----- what a step does to the history -----

  predicate SameHistory(q: Queue, r: Queue) {
    r.newest == q.newest && r.log == q.log && r.owner == q.owner && r.call == q.call
  }

  /** The history variables after a step of goroutine t, without the details of the step. */
  predicate HistoryStep(q: Queue, t: nat, r: Queue) {
    && t < |q.threads| == |r.threads|
    && r.threads == q.threads[t := r.threads[t]]
    && (r.lost == q.lost || (r.lost == q.lost + 1 && InTrim(q.threads[t])
                                && r.events == q.events + [Returned(t, q.threads[t].mine)]))
    && var pc, pc' := q.threads[t], r.threads[t];
    || (&& pc.Idle? && pc'.LoadNewest? && pc'.call == |q.events|  // called
        && SameHistory(q, r) && r.fails == q.fails && r.events == q.events + [Begun(t, pc'.msg)])
    || (&& pc.LoadNewest? && pc' == CasNewest(pc.msg, pc.call, q.newest)
        && SameHistory(q, r) && r.fails == q.fails && r.events == q.events)
    || (&& pc.CasNewest? && pc.seen == q.newest && pc'.StoreNext? && pc'.mine == q.newest  // CAS won
        && r.newest == q.newest + 1 && r.log == q.log + [pc.msg]
        && r.owner == q.owner + [t] && r.call == q.call + [pc.call]
        && r.fails == q.fails && r.events == q.events)
    || (&& pc.CasNewest? && pc.seen != q.newest && pc' == LoadNewest(pc.msg, pc.call)  // CAS lost
        && SameHistory(q, r) && r.fails == q.fails + 1 && r.events == q.events)
    || (&& !pc.LoadNewest? && !pc.CasNewest? && !pc'.LoadNewest? && !pc'.CasNewest?
        && SameHistory(q, r) && r.fails == q.fails
        && (|| (r.events == q.events && pc.Idle? && pc'.Idle?)
            || (r.events == q.events && !pc.Idle? && !pc'.Idle? && pc'.mine == pc.mine)
            || (InTrim(pc) && pc'.Idle? && r.events == q.events + [Returned(t, pc.mine)])))
  }

  lemma AppendIsHistoryStep(q: Queue, t: nat)
    requires Inv(q) && Enabled(q, Step(t)) && !InTrim(q.threads[t])
    ensures HistoryStep(q, t, Apply(q, Step(t)))
  {
  }

  lemma TrimIsHistoryStep(q: Queue, t: nat)
    requires Inv(q) && Enabled(q, Step(t)) && InTrim(q.threads[t])
    ensures HistoryStep(q, t, Apply(q, Step(t)))
  {
  }

  lemma CallIsHistoryStep(q: Queue, t: nat, arg: Option<Msg>)
    requires Inv(q) && Enabled(q, Call(t, arg))
    ensures HistoryStep(q, t, Apply(q, Call(t, arg)))
  {
  }

  lemma ApplyIsHistoryStep(q: Queue, a: Action)
    requires Inv(q) && Enabled(q, a)
    ensures HistoryStep(q, a.t, Apply(q, a))
  {
    match a
    case Call(t, arg) => CallIsHistoryStep(q, t, arg);
    case Step(t) => if InTrim(q.threads[t]) { TrimIsHistoryStep(q, t); } else { AppendIsHistoryStep(q, t); }
  }

  // ----- calls and returns -----

  function Who(e: Event): nat {
    match e
    case Begun(t, _) => t
    case Returned(t, _) => t
  }

  /** Event c is the call of Append by t with m, and t has done nothing since, up to event r. */
  predicate LastCallBefore(events: seq<Event>, t: nat, m: Msg, c: nat, r: nat) {
    && c < r <= |events| && events[c] == Begun(t, m)
    && forall j: nat :: c < j < r ==> Who(events[j]) != t
  }

  /** The call that goroutine t is in. */
  predicate InItsCall(q: Queue, t: nat) {
    && t < |q.threads|
    && match q.threads[t]
       case Idle => true
       case LoadNewest(m, c) => LastCallBefore(q.events, t, m, c, |q.events|)
       case CasNewest(m, c, _) => LastCallBefore(q.events, t, m, c, |q.events|)
       case _ => InCallOf(q, t, q.threads[t].mine)
  }

  predicate InCallOf(q: Queue, t: nat, i: nat) {
    && i < |q.log| && i < |q.owner| && i < |q.call| && q.owner[i] == t
    && LastCallBefore(q.events, t, q.log[i], q.call[i], |q.events|)
  }

  /** The return recorded as event r is that of the call that put entry i into the log. */
  predicate EndsCallOf(q: Queue, r: nat, t: nat, i: nat) {
    && r < |q.events|
    && i < |q.log| && i < |q.owner| && i < |q.call| && q.owner[i] == t
    && LastCallBefore(q.events, t, q.log[i], q.call[i], r)
  }

  predicate CallsInv(q: Queue) {
    && (forall t: nat :: t < |q.threads| ==> InItsCall(q, t))
    && (forall r: nat :: r < |q.events| && q.events[r].Returned? ==>
          EndsCallOf(q, r, q.events[r].t, q.events[r].i))
  }

  lemma StepStaysInCall(q: Queue, t: nat, r: Queue, u: nat)
    requires CallsInv(q) && HistoryStep(q, t, r) && |q.log| == |q.owner| == |q.call| == q.newest && u < |q.threads|
    ensures InItsCall(r, u)
  {
    assert InItsCall(q, u);
  }

  lemma StepKeepsCalls(q: Queue, t: nat, r: Queue)
    requires CallsInv(q) && HistoryStep(q, t, r) && |q.log| == |q.owner| == |q.call| == q.newest
    ensures CallsInv(r)
  {
    forall u: nat | u < |r.threads| ensures InItsCall(r, u) { StepStaysInCall(q, t, r, u); }
    forall e: nat | e < |r.events| && r.events[e].Returned?
      ensures EndsCallOf(r, e, r.events[e].t, r.events[e].i)
    {
      if e < |q.events| {
        assert EndsCallOf(q, e, q.events[e].t, q.events[e].i);
      } else {
        assert InItsCall(q, t);
      }
    }
  }

  /** Calls less returns of goroutine t. */
  function OpenCalls(events: seq<Event>, t: nat): int {
    if events == [] then 0
    else
      var last := events[|events| - 1];
      OpenCalls(events[..|events| - 1], t)
      + (if Who(last) != t then 0 else if last.Begun? then 1 else -1)
  }

  lemma OpenCallsAfter(events: seq<Event>, e: Event, t: nat)
    ensures OpenCalls(events + [e], t)
         == OpenCalls(events, t) + (if Who(e) != t then 0 else if e.Begun? then 1 else -1)
  {
    assert (events + [e])[..|events|] == events;
  }

  predicate OpenInv(q: Queue, t: nat) {
    t < |q.threads| && OpenCalls(q.events, t) == if q.threads[t].Idle? then 0 else 1
  }

  lemma StepKeepsOpen(q: Queue, t: nat, r: Queue, u: nat)
    requires OpenInv(q, u) && HistoryStep(q, t, r)
    ensures OpenInv(r, u)
  {
    if r.events != q.events { OpenCallsAfter(q.events, r.events[|q.events|], u); }
  }

  // ----- real-time order -----

  predicate CallOf(q: Queue, c: nat, t: nat, m: Msg) {
    c < |q.events| && q.events[c] == Begun(t, m)
  }

  /** The entries up to i were all claimed for calls made before event r. */
  predicate ClaimedBefore(q: Queue, r: nat, i: nat) {
    i < |q.call| && forall j: nat :: j <= i ==> q.call[j] < r
  }

  predicate OrderInv(q: Queue) {
    && |q.call| == |q.log| && |q.owner| == |q.log|
    && (forall i: nat :: i < |q.call| ==> CallOf(q, q.call[i], q.owner[i], q.log[i]))
    && (forall r: nat :: r < |q.events| && q.events[r].Returned? ==> ClaimedBefore(q, r, q.events[r].i))
  }

  lemma StepKeepsOrder(q: Queue, t: nat, r: Queue)
    requires Inv(q) && CallsInv(q) && OrderInv(q) && HistoryStep(q, t, r)
    ensures OrderInv(r)
  {
    assert ThreadOk(q, t) && InItsCall(q, t);
    forall i: nat | i < |r.call| ensures CallOf(r, r.call[i], r.owner[i], r.log[i]) {
      if i < |q.call| { assert CallOf(q, q.call[i], q.owner[i], q.log[i]); }
    }
    forall e: nat | e < |r.events| && r.events[e].Returned? ensures ClaimedBefore(r, e, r.events[e].i) {
      if e < |q.events| {
        assert ClaimedBefore(q, e, q.events[e].i);
      } else {
        forall j: nat | j <= r.events[e].i ensures r.call[j] < e {
          assert CallOf(q, q.call[j], q.owner[j], q.log[j]);
        }
      }
    }
  }

  // ----- each sender's order -----

  /** The messages goroutine t has called Append with, in the order of its calls. */
  function Sent(events: seq<Event>, t: nat): seq<Msg> {
    if events == [] then []
    else
      var last := events[|events| - 1];
      Sent(events[..|events| - 1], t) + if last.Begun? && last.t == t then [last.m] else []
  }

  /** The messages of goroutine t in the log, in log order. */
  function Logged(log: seq<Msg>, owner: seq<nat>, t: nat): seq<Msg>
    requires |log| == |owner|
  {
    if log == [] then []
    else
      var n := |log| - 1;
      Logged(log[..n], owner[..n], t) + if owner[n] == t then [log[n]] else []
  }

  /** A message whose CAS has not succeeded yet. */
  function Unclaimed(pc: Thread): seq<Msg> {
    match pc
    case LoadNewest(m, _) => [m]
    case CasNewest(m, _, _) => [m]
    case _ => []
  }

  predicate SenderInv(q: Queue, t: nat) {
    && t < |q.threads| && |q.log| == |q.owner|
    && Sent(q.events, t) == Logged(q.log, q.owner, t) + Unclaimed(q.threads[t])
  }

  lemma SentAfter(events: seq<Event>, e: Event, t: nat)
    ensures Sent(events + [e], t) == Sent(events, t) + if e.Begun? && e.t == t then [e.m] else []
  {
    assert (events + [e])[..|events|] == events;
  }

  lemma LoggedAfter(log: seq<Msg>, owner: seq<nat>, m: Msg, o: nat, t: nat)
    requires |log| == |owner|
    ensures Logged(log + [m], owner + [o], t) == Logged(log, owner, t) + if o == t then [m] else []
  {
    assert (log + [m])[..|log|] == log && (owner + [o])[..|owner|] == owner;
  }

  lemma StepKeepsSender(q: Queue, t: nat, r: Queue, u: nat)
    requires SenderInv(q, u) && HistoryStep(q, t, r)
    ensures SenderInv(r, u)
  {
    if r.log != q.log {
      LoggedAfter(q.log, q.owner, q.threads[t].msg, t, u);
    } else if r.events != q.events {
      SentAfter(q.events, r.events[|q.events|], u);
    }
  }

  // ----- lock-freedom -----

  /** 1 for a goroutine whose loaded `newest` is out of date, so that its CAS must fail. */
  function OutOfDate(newest: nat): Thread -> int {
    (pc: Thread) => if pc.CasNewest? && pc.seen != newest then 1 else 0
  }

  predicate FailsInv(q: Queue) {
    q.fails + Sums.Sum(q.threads, OutOfDate(q.newest)) <= (|q.threads| - 1) * q.newest
  }

  lemma StepKeepsFails(q: Queue, t: nat, r: Queue)
    requires FailsInv(q) && HistoryStep(q, t, r)
    ensures FailsInv(r)
  {
    Sums.SumUpdate(q.threads, OutOfDate(q.newest), t, r.threads[t]);
    if r.newest != q.newest {
      Sums.CountOthers(r.threads, OutOfDate(r.newest), t);
      Sums.SumNonNegative(q.threads, OutOfDate(q.newest));
      Sums.Distribute(|q.threads| - 1, q.newest, 1);
    }
  }

  /** How many calls of Append have returned. */
  function Returns(events: seq<Event>): nat {
    if events == [] then 0
    else Returns(events[..|events| - 1]) + if events[|events| - 1].Returned? then 1 else 0
  }

  predicate LostInv(q: Queue) {
    q.lost <= Returns(q.events)
  }

  lemma StepKeepsLost(q: Queue, t: nat, r: Queue)
    requires LostInv(q) && HistoryStep(q, t, r)
    ensures LostInv(r)
  {
    if |r.events| > |q.events| { assert r.events[..|r.events| - 1] == q.events; }
  }

  // ----- over whole runs -----

  ghost predicate AllInv(q: Queue) {
    && Inv(q) && OrderInv(q) && FailsInv(q) && LostInv(q) && CallsInv(q)
    && forall t: nat :: t < |q.threads| ==> SenderInv(q, t) && OpenInv(q, t)
  }

  lemma AllInit(overhead: int, maxsize: int, threads: nat)
    ensures AllInv(Init(overhead, maxsize, threads))
  {
    var q := Init(overhead, maxsize, threads);
    Sums.SumZero(q.threads, OutOfDate(q.newest));
    assert (|q.threads| - 1) * q.newest == 0;
  }

  lemma KeepsAll(q: Queue, t: nat, r: Queue)
    requires AllInv(q) && Inv(r) && HistoryStep(q, t, r)
    ensures AllInv(r)
  {
    StepKeepsOrder(q, t, r);
    StepKeepsFails(q, t, r);
    StepKeepsLost(q, t, r);
    StepKeepsCalls(q, t, r);
    forall u: nat | u < |r.threads| ensures SenderInv(r, u) && OpenInv(r, u) {
      StepKeepsSender(q, t, r, u);
      StepKeepsOpen(q, t, r, u);
    }
  }

  lemma ApplyKeepsAll(q: Queue, a: Action)
    requires AllInv(q) && Enabled(q, a)
    ensures AllInv(Apply(q, a))
  {
    ApplyKeepsInv(q, a);
    ApplyIsHistoryStep(q, a);
    KeepsAll(q, a.t, Apply(q, a));
  }

  lemma {:induction false} RunKeepsAll(q: Queue, acts: seq<Action>)
    requires AllInv(q) && Legal(Fine, q, acts)
    ensures AllInv(Run(Fine, q, acts))
    decreases acts
  {
    if acts != [] {
      ApplyKeepsAll(q, acts[0]);
      RunKeepsAll(Apply(q, acts[0]), acts[1..]);
    }
  }

  lemma ReachableAll(q: Queue)
    requires Reachable(Fine, q)
    ensures AllInv(q)
  {
    var init := Init(q.overhead, q.maxsize, |q.threads|);
    var acts :| Legal(Fine, init, acts) && Run(Fine, init, acts) == q;
    AllInit(q.overhead, q.maxsize, |q.threads|);
    RunKeepsAll(init, acts);
  }

  /** An append that has returned before another one is called precedes it in the log. */
  lemma ReturnedBeforePrecedes(q: Queue, r: nat, j: nat)
    requires Reachable(Fine, q)
    requires r < |q.events| && q.events[r].Returned?
    requires j < |q.call| && r < q.call[j]
    ensures q.events[r].i < j
    ensures j < |q.log| && j < |q.owner|
    ensures q.call[j] < |q.events| && q.events[q.call[j]] == Begun(q.owner[j], q.log[j])
  {
    ReachableAll(q);
    assert ClaimedBefore(q, r, q.events[r].i);
    assert CallOf(q, q.call[j], q.owner[j], q.log[j]);
  }

  /** Every call of Append is recorded when it begins and when it returns: goroutine t has one call
      open while it is at work, and none otherwise. */
  lemma CallsAreRecorded(q: Queue, t: nat)
    requires Reachable(Fine, q) && t < |q.threads|
    ensures OpenCalls(q.events, t) == if q.threads[t].Idle? then 0 else 1
  {
    ReachableAll(q);
    assert OpenInv(q, t);
  }

  /** Every return is that of the latest call of its goroutine, which is the one that put entry i,
      the entry it returns with, into the log. */
  lemma ReturnsMatchCalls(q: Queue, r: nat)
    requires Reachable(Fine, q) && r < |q.events| && q.events[r].Returned?
    ensures var t, i := q.events[r].t, q.events[r].i;
            && i < |q.log| == |q.owner| == |q.call| && q.owner[i] == t && q.call[i] < r
            && q.events[q.call[i]] == Begun(t, q.log[i])
            && forall j: nat :: q.call[i] < j < r ==> Who(q.events[j]) != t
  {
    ReachableAll(q);
    assert EndsCallOf(q, r, q.events[r].t, q.events[r].i);
  }

  /** What each client's read loop sends is in the log in the order it was sent, complete except
      for a message still on its way to the CAS. */
  lemma SendOrderKept(q: Queue, t: nat)
    requires Reachable(Fine, q) && t < |q.threads|
    ensures |q.log| == |q.owner|
    ensures Sent(q.events, t) == Logged(q.log, q.owner, t) + Unclaimed(q.threads[t])
  {
    ReachableAll(q);
    assert SenderInv(q, t);
  }

  /** After N successful appends by T goroutines, at most N * (T - 1) attempts have failed,
      counting those that are bound to fail. */
  lemma FailedAttemptsBounded(q: Queue)
    requires Reachable(Fine, q)
    ensures q.fails + Sums.Sum(q.threads, OutOfDate(q.newest)) <= (|q.threads| - 1) * |q.log|
  {
    ReachableAll(q);
  }

  /** trim gives up at its first lost CAS, so a call of Append loses at most one: all attempts on
      `oldest` together are at most one for each entry removed and one for each call returned. */
  lemma TrimAttemptsBounded(q: Queue)
    requires Reachable(Fine, q)
    ensures q.lost <= Returns(q.events)
    ensures |q.removers| + q.lost <= |q.log| + 1 + Returns(q.events)
  {
    ReachableAll(q);
  }
}
