/** How often the CAS attempts in Append and trim fail, goroutine by goroutine and at worst. */
module Contention {
  import AppendOrder
  import Backlog
  import Drift
  import opened Ledger
  import QueueInvariant
  import opened QueueMachine
  import opened Runs
  import Sums

  // ----- on `oldest`: once a call -----

  /** Goroutine t is about to lose its CAS on `oldest`. */
  predicate Loses(q: Queue, a: Action, t: nat) {
    && Enabled(q, a) && a == Step(t)
    && q.threads[t].CasOldest? && q.oldest != Node(q.threads[t].k)
  }

  function LossesOf(q: Queue, acts: seq<Action>, t: nat): nat
    requires Legal(Fine, q, acts)
    decreases acts
  {
    if acts == [] then 0
    else LossesOf(Apply(q, acts[0]), acts[1..], t) + if Loses(q, acts[0], t) then 1 else 0
  }

  /** How many calls of goroutine t have returned. */
  function ReturnsOf(events: seq<Event>, t: nat): nat {
    if events == [] then 0
    else
      var last := events[|events| - 1];
      ReturnsOf(events[..|events| - 1], t) + if last.Returned? && last.t == t then 1 else 0
  }

  lemma ReturnsAfter(events: seq<Event>, e: Event, t: nat)
    ensures ReturnsOf(events + [e], t) == ReturnsOf(events, t) + if e.Returned? && e.t == t then 1 else 0
  {
    assert (events + [e])[..|events|] == events;
  }

  lemma LosingReturns(q: Queue, a: Action, t: nat)
    requires Enabled(q, a)
    ensures ReturnsOf(Apply(q, a).events, t) >= ReturnsOf(q.events, t) + if Loses(q, a, t) then 1 else 0
  {
    var events := Apply(q, a).events;
    assert events == q.events || events == q.events + [events[|events| - 1]];
    if events != q.events { ReturnsAfter(q.events, events[|events| - 1], t); }
  }

  /** In every part of every run a goroutine loses no more attempts on `oldest` than calls return:
      a call that has lost one is over. */
  lemma {:induction false} OneLossPerCall(q: Queue, acts: seq<Action>, t: nat)
    requires Legal(Fine, q, acts)
    ensures LossesOf(q, acts, t) <= ReturnsOf(Run(Fine, q, acts).events, t) - ReturnsOf(q.events, t)
    decreases acts
  {
    if acts != [] {
      LosingReturns(q, acts[0], t);
      OneLossPerCall(Apply(q, acts[0]), acts[1..], t);
    }
  }

  // ----- the counts of lost attempts are exact -----

  /** The goroutine is about to lose its CAS on `newest`. */
  predicate Fails(q: Queue, a: Action) {
    Enabled(q, a) && a.Step? && q.threads[a.t].CasNewest? && q.threads[a.t].seen != q.newest
  }

  function Failures(q: Queue, acts: seq<Action>): nat
    requires Legal(Fine, q, acts)
    decreases acts
  {
    if acts == [] then 0
    else Failures(Apply(q, acts[0]), acts[1..]) + if Fails(q, acts[0]) then 1 else 0
  }

  function Losses(q: Queue, acts: seq<Action>): nat
    requires Legal(Fine, q, acts)
    decreases acts
  {
    if acts == [] then 0
    else Losses(Apply(q, acts[0]), acts[1..]) + if Loses(q, acts[0], acts[0].t) then 1 else 0
  }

  lemma OneAttempt(q: Queue, a: Action)
    requires Enabled(q, a)
    ensures Apply(q, a).fails == q.fails + if Fails(q, a) then 1 else 0
    ensures Apply(q, a).lost == q.lost + if Loses(q, a, a.t) then 1 else 0
  {
  }

  /** The two counters hold exactly the lost attempts of the run. */
  lemma {:induction false} AttemptsAreCounted(q: Queue, acts: seq<Action>)
    requires Legal(Fine, q, acts)
    ensures Run(Fine, q, acts).fails == q.fails + Failures(q, acts)
    ensures Run(Fine, q, acts).lost == q.lost + Losses(q, acts)
    decreases acts
  {
    if acts != [] {
      OneAttempt(q, acts[0]);
      AttemptsAreCounted(Apply(q, acts[0]), acts[1..]);
    }
  }

  // ----- a goroutine that runs alone returns -----

  /** The most steps that a goroutine at pc still needs while nobody else moves: seven for each
      entry that it may take off, and the way there. */
  function StepsAlone(q: Queue, pc: Thread): int {
    7 * (q.newest + 1 - |q.removers|)
    + match pc
      case Idle => 0
      case LoadNewest(_, _) => 17
      case CasNewest(_, _, seen) => if seen == q.newest then 16 else 18
      case StoreNext(_, _, _) => 8
      case StoreMsg(_, _) => 7
      case AddSize(_) => 6
      case MarkDone(_) => 5
      case Guard(_) => 4
      case LoadOldest(_) => 3
      case LoadNext(_, _) => 2
      case CasOldest(_, _, _) => 1
      case ReadSize(_, _) => 7
      case SubSize(_, _, _) => 6
      case StoreStale(_, _) => 5
  }

  predicate StepCounts(q: Queue, t: nat, r: Queue) {
    && t < |q.threads| == |r.threads| && r.threads == q.threads[t := r.threads[t]]
    && (r.crashed ==> r.oldest == Nil)
    && r.log + AppendOrder.Unclaimed(r.threads[t]) == q.log + AppendOrder.Unclaimed(q.threads[t])
    && (!r.crashed ==> 0 <= StepsAlone(r, r.threads[t]) < StepsAlone(q, q.threads[t]))
  }

  lemma AppendStepCounts(q: Queue, t: nat)
    requires QueueInvariant.Inv(q) && Enabled(q, Step(t)) && !InTrim(q.threads[t])
    ensures StepCounts(q, t, Apply(q, Step(t)))
  {
    assert QueueInvariant.ThreadOk(q, t);
    var f := QueueInvariant.Filling(q.threads[t]);
    assert f.Some? ==> QueueInvariant.EntryOk(q, f.value);
  }

  lemma TrimStepCounts(q: Queue, t: nat)
    requires QueueInvariant.Inv(q) && Enabled(q, Step(t)) && InTrim(q.threads[t])
    ensures StepCounts(q, t, Apply(q, Step(t)))
  {
    assert QueueInvariant.ThreadOk(q, t);
  }

  /** From every state that satisfies the invariant, goroutine t alone gets to the end of its call,
      or to the end of the process by following a nil `oldest`. */
  lemma {:induction false} FinishesCall(q: Queue, t: nat) returns (acts: seq<Action>)
    requires QueueInvariant.Inv(q) && !q.crashed && t < |q.threads|
    ensures Legal(Fine, q, acts) && forall a <- acts :: a == Step(t)
    ensures |acts| <= StepsAlone(q, q.threads[t])
    ensures var r := Run(Fine, q, acts);
            && r.log == q.log + AppendOrder.Unclaimed(q.threads[t])
            && |r.threads| == |q.threads| && r.threads == q.threads[t := r.threads[t]]
            && (r.crashed ==> r.oldest == Nil) && (!r.crashed ==> r.threads[t].Idle?)
    decreases if q.threads[t].Idle? then 0 else StepsAlone(q, q.threads[t])
  {
    if q.threads[t].Idle? {
      acts := [];
    } else {
      var r := Apply(q, Step(t));
      QueueInvariant.ApplyKeepsInv(q, Step(t));
      if InTrim(q.threads[t]) { TrimStepCounts(q, t); } else { AppendStepCounts(q, t); }
      var rest := [];
      if !r.crashed { rest := FinishesCall(r, t); }
      acts := [Step(t)] + rest;
      assert acts[0] == Step(t) && acts[1..] == rest;
    }
  }

  /** Append is obstruction-free: in every reachable state, whatever the others have left undone, a
      goroutine that runs alone returns within seven steps for each entry on the list and a few
      more; unless `oldest` has run off the list, or does so. */
  lemma ReturnsAlone(q: Queue, t: nat) returns (acts: seq<Action>)
    requires QueueInvariant.Reachable(Fine, q) && !q.crashed && t < |q.threads|
    ensures Legal(Fine, q, acts) && forall a <- acts :: a == Step(t)
    ensures |acts| <= 7 * (q.newest + 1 - |q.removers|) + 18
    ensures var r := Run(Fine, q, acts);
            (r.crashed && r.oldest == Nil) || (!r.crashed && r.threads == q.threads[t := Idle])
  {
    QueueInvariant.ReachableInv(Fine, q);
    acts := FinishesCall(q, t);
  }

  /** So in every reachable state an idle goroutine can append any message alone; nil ends the
      process and changes nothing. */
  lemma AppendsAlone(q: Queue, t: nat, arg: Backlog.Option<Backlog.Msg>) returns (acts: seq<Action>)
    requires QueueInvariant.Reachable(Fine, q) && !q.crashed && t < |q.threads| && q.threads[t].Idle?
    ensures Legal(Fine, q, acts) && acts != [] && acts[0] == Call(t, arg)
    ensures forall a <- acts[1..] :: a == Step(t)
    ensures var r := Run(Fine, q, acts);
            if arg.None? then acts == [acts[0]] && r == q.(crashed := true)
            else r.log == q.log + [arg.value]
                 && ((r.crashed && r.oldest == Nil) || (!r.crashed && r.threads == q.threads))
  {
    QueueInvariant.ReachableInv(Fine, q);
    var call := Call(t, arg);
    var s := Apply(q, call);
    QueueInvariant.ApplyKeepsInv(q, call);
    var rest := [];
    if arg.Some? { rest := FinishesCall(s, t); }
    acts := [call] + rest;
    assert acts[0] == call && acts[1..] == rest;
    assert Legal(Fine, s, rest);
  }

  // ----- on `newest`: all but one, every time -----

  /** Goroutine 0 has returned, and the books are in order. */
  predicate FirstIsIdle(q: Queue) {
    && QueueInvariant.Inv(q) && RemoversExist(q) && Balanced(q) && !q.crashed && |q.threads| >= 1
    && q.oldest.Node? && q.maxsize >= 0 && Excess(q) == 0
    && q.threads[0].Idle?
  }

  /** What all the others are made to do, one after the other: call Append, load `newest`, or lose
      their CAS on it. */
  datatype Stage = Calling | Loading | Losing

  predicate Done(q: Queue, stage: Stage, pc: Thread) {
    match stage
    case Calling => pc.LoadNewest?
    case Loading => pc.CasNewest? && pc.seen == q.newest
    case Losing => pc.LoadNewest?
  }

  predicate ToDo(q: Queue, stage: Stage, pc: Thread) {
    match stage
    case Calling => pc.Idle?
    case Loading => pc.LoadNewest?
    case Losing => pc.CasNewest? && pc.seen != q.newest
  }

  predicate LinedUp(q: Queue, stage: Stage, i: nat) {
    && FirstIsIdle(q) && 1 <= i <= |q.threads|
    && forall j: nat :: 0 < j < |q.threads| ==>
         if j < i then Done(q, stage, q.threads[j]) else ToDo(q, stage, q.threads[j])
  }

  /** What the action of one goroutine of the line does to the queue. */
  predicate OneMoves(q: Queue, stage: Stage, i: nat, r: Queue) {
    && i < |q.threads| == |r.threads|
    && r == q.(threads := q.threads[i := r.threads[i]], events := r.events, fails := r.fails)
    && Done(q, stage, r.threads[i])
    && r.fails == q.fails + if stage.Losing? then 1 else 0
  }

  lemma MovesOn(q: Queue, stage: Stage, i: nat, limit: int) returns (r: Queue)
    requires LinedUp(q, stage, i) && i < |q.threads| && q.overhead <= limit
    ensures Leads(Fine, q, r, limit) && OneMoves(q, stage, i, r)
  {
    var a := if stage.Calling? then Call(i, Backlog.Some([])) else Step(i);
    r := Apply(q, a);
    LeadsNext(Fine, q, a, limit);
  }

  lemma MovesKeepBooks(q: Queue, stage: Stage, i: nat, r: Queue)
    requires LinedUp(q, stage, i) && OneMoves(q, stage, i, r) && i >= 1
    ensures Excess(r) == Excess(q)
  {
    Sums.SumUpdate(q.threads, Owed(q.overhead, q.log), i, r.threads[i]);
  }

  lemma {:induction false} AllMoveOn(q: Queue, stage: Stage, i: nat, limit: int) returns (r: Queue)
    requires LinedUp(q, stage, i) && q.overhead <= limit
    ensures Leads(Fine, q, r, limit) && LinedUp(r, stage, |r.threads|)
    ensures r == q.(threads := r.threads, events := r.events, fails := r.fails)
    ensures |r.threads| == |q.threads|
    ensures r.fails == q.fails + if stage.Losing? then |q.threads| - i else 0
    decreases |q.threads| - i
  {
    if i == |q.threads| {
      LeadsNowhere(Fine, q, limit);
      r := q;
    } else {
      var a := MovesOn(q, stage, i, limit);
      Drift.LeadsKeepsBooks(q, a, limit);
      MovesKeepBooks(q, stage, i, a);
      r := AllMoveOn(a, stage, i + 1, limit);
      LeadsOn(Fine, q, a, r, limit);
    }
  }

  /** Goroutine 0 appends while all the others have loaded the same `newest`. */
  lemma FirstClaims(q: Queue, limit: int) returns (r: Queue)
    requires LinedUp(q, Loading, |q.threads|) && q.overhead <= limit
    ensures Leads(Fine, q, r, limit) && LinedUp(r, Losing, 1)
    ensures r.overhead == q.overhead && |r.threads| == |q.threads|
    ensures r.newest == q.newest + 1 && r.fails == q.fails
  {
    Drift.AppendKeepsBooks(q, [], limit);
    var a := Appended(q, 0, []);
    r := Drift.FirstTrims(a, q.newest, limit);
    LeadsOn(Fine, q, a, r, limit);
  }

  lemma OneRound(q: Queue, limit: int) returns (r: Queue)
    requires LinedUp(q, Losing, |q.threads|) && q.overhead <= limit
    ensures Leads(Fine, q, r, limit) && LinedUp(r, Losing, |r.threads|)
    ensures r.overhead == q.overhead && |r.threads| == |q.threads|
    ensures r.newest == q.newest + 1 && r.fails == q.fails + |q.threads| - 1
  {
    assert LinedUp(q, Loading, 1);
    var a := AllMoveOn(q, Loading, 1, limit);
    var b := FirstClaims(a, limit);
    LeadsOn(Fine, q, a, b, limit);
    r := AllMoveOn(b, Losing, 1, limit);
    LeadsOn(Fine, q, b, r, limit);
  }

  lemma {:induction false} Rounds(q: Queue, n: nat, limit: int) returns (r: Queue)
    requires LinedUp(q, Losing, |q.threads|) && q.overhead <= limit && q.newest <= n
    requires q.fails == (|q.threads| - 1) * q.newest
    ensures Leads(Fine, q, r, limit) && r.newest == n == |r.log| && |r.threads| == |q.threads|
    ensures r.fails == (|q.threads| - 1) * n
    decreases n - q.newest
  {
    if q.newest == n {
      LeadsNowhere(Fine, q, limit);
      r := q;
    } else {
      var a := OneRound(q, limit);
      Sums.Distribute(|q.threads| - 1, q.newest, 1);
      r := Rounds(a, n, limit);
      LeadsOn(Fine, q, a, r, limit);
    }
  }

  lemma InitLinesUp(overhead: int, maxsize: int, threads: nat)
    requires overhead > 0 && maxsize >= 0 && threads >= 1
    ensures LinedUp(Init(overhead, maxsize, threads), Calling, 1)
  {
    InitIsBalanced(overhead, maxsize, threads);
  }

  /** The bound on failed attempts is attained for every number of goroutines and of appends: all
      load `newest`, one of them wins, and the others try again. */
  lemma FailedAttemptsTight(overhead: int, maxsize: int, threads: nat, n: nat) returns (r: Queue)
    requires overhead > 0 && maxsize >= 0 && threads >= 1
    ensures Leads(Fine, Init(overhead, maxsize, threads), r, overhead)
    ensures |r.log| == n && |r.threads| == threads && r.fails == (threads - 1) * n
  {
    var init := Init(overhead, maxsize, threads);
    InitLinesUp(overhead, maxsize, threads);
    var a := AllMoveOn(init, Calling, 1, overhead);
    r := Rounds(a, n, overhead);
    LeadsOn(Fine, init, a, r, overhead);
  }
}
