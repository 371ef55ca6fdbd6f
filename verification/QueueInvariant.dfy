/** What every interleaving of Append and trim keeps. */
module QueueInvariant {
  import opened Backlog
  import opened QueueMachine

  /** The entry that a goroutine has claimed and not yet marked done. */
  function Filling(pc: Thread): Option<nat> {
    match pc
    case StoreNext(_, e, _) => Some(e)
    case StoreMsg(_, e) => Some(e)
    case AddSize(e) => Some(e)
    case MarkDone(e) => Some(e)
    case _ => None
  }

  predicate Held(q: Queue, i: nat) {
    i < |q.owner| && q.owner[i] < |q.threads| && Filling(q.threads[q.owner[i]]) == Some(i)
  }

  predicate Owns(q: Queue, t: nat, e: nat) {
    e < q.newest && e < |q.owner| && q.owner[e] == t
  }

  predicate EntryOk(q: Queue, i: nat) {
    && i < |q.entries|
    && var e := q.entries[i];
    && (e.next == Nil || (e.next == Node(i + 1) && i < q.newest) || (e.next == Stale && i < |q.removers|))
    && (e.msg == None || (i < q.newest && i < |q.log| && e.msg == Some(q.log[i])))
    && e.valid == (if i == q.newest || Held(q, i) then 1 else 0)
    && (i < q.newest && !Held(q, i) ==> e.next != Nil && e.msg.Some?)
  }

  predicate ThreadOk(q: Queue, t: nat) {
    && t < |q.threads|
    && match q.threads[t]
       case Idle => true
       case LoadNewest(_, _) => true
       case CasNewest(_, _, seen) => seen <= q.newest
       case StoreNext(m, e, newp) => Owns(q, t, e) && e < |q.log| && q.log[e] == m && newp == e + 1
       case StoreMsg(m, e) => Owns(q, t, e) && e < |q.log| && q.log[e] == m && At(q, e).next != Nil
       case AddSize(e) => Owns(q, t, e) && At(q, e).next != Nil && At(q, e).msg.Some?
       case MarkDone(e) => Owns(q, t, e) && At(q, e).next != Nil && At(q, e).msg.Some?
       case Guard(e) => Owns(q, t, e)
       case LoadOldest(e) => Owns(q, t, e)
       case LoadNext(e, o) =>
         && Owns(q, t, e)
         && match o {
              case Nil => q.oldest == Nil
              case Node(k) => k <= q.newest && k <= |q.removers|
              case Stale => false
            }
       case CasOldest(e, k, nx) =>
         && Owns(q, t, e)
         && k <= q.newest && k <= |q.removers|
         && match nx {
              case Nil => true
              case Node(n) => n == k + 1 && k < q.newest
              case Stale => k < |q.removers|
            }
       case ReadSize(e, k) => Owns(q, t, e) && Removed(q, t, k)
       case SubSize(e, k, _) => Owns(q, t, e) && Removed(q, t, k)
       case StoreStale(e, k) => Owns(q, t, e) && Removed(q, t, k)
  }

  /** Thread t is the one that took entry k off. */
  predicate Removed(q: Queue, t: nat, k: nat) {
    k < |q.removers| && q.removers[k] == t
  }

  /** `oldest` is the first entry nobody has removed; nil only after running off the end. */
  predicate OldestOk(q: Queue) {
    match q.oldest
    case Node(k) => k == |q.removers| && k <= q.newest
    case Nil => 1 <= |q.removers| <= q.newest + 1
    case Stale => false
  }

  /** The counts agree and `oldest` stays where it belongs. */
  predicate Counts(q: Queue) {
    && |q.entries| == q.newest + 1
    && |q.log| == q.newest && |q.owner| == q.newest && |q.call| == q.newest
    && OldestOk(q)
  }

  predicate Inv(q: Queue) {
    && Counts(q)
    && (forall i: nat :: i < q.newest ==> q.owner[i] < |q.threads|)
    && (forall i: nat :: i <= q.newest ==> EntryOk(q, i))
    && (forall t: nat :: t < |q.threads| ==> ThreadOk(q, t))
  }

  lemma InvInit(overhead: int, maxsize: int, threads: nat)
    ensures Inv(Init(overhead, maxsize, threads))
  {
  }

  /** A claimed entry whose owner has got as far as marking it done has its message and its link,
      and as long as nobody has taken it off the link leads to the next entry. */
  lemma FilledIn(q: Queue, i: nat)
    requires Inv(q) && i < q.newest
    requires Held(q, i) ==> q.threads[q.owner[i]].MarkDone?
    ensures At(q, i).msg == Some(q.log[i]) && At(q, i).next != Nil
    ensures i >= |q.removers| ==> At(q, i).next == Node(i + 1)
  {
    assert EntryOk(q, i);
    assert ThreadOk(q, q.owner[i]);
  }

  /** What never goes back: claims, removals, a link or message once it is there, the nil. */
  ghost predicate Grows(q: Queue, q': Queue) {
    && q'.overhead == q.overhead && q'.maxsize == q.maxsize
    && |q'.threads| == |q.threads|
    && q.newest <= q'.newest
    && q.log <= q'.log && q.owner <= q'.owner && q.call <= q'.call
    && q.removers <= q'.removers && q.events <= q'.events
    && (q.oldest.Nil? ==> q'.oldest.Nil?)
    && (forall i: nat {:trigger At(q', i)} :: i <= q.newest ==>
          && (At(q, i).next != Nil ==> At(q', i).next != Nil)
          && (At(q, i).msg.Some? ==> At(q', i).msg == At(q, i).msg)
          && (At(q, i).valid == 0 ==> At(q', i).valid == 0))
  }

  lemma AppendGrows(q: Queue, t: nat)
    requires Inv(q) && Enabled(q, Step(t)) && !InTrim(q.threads[t])
    ensures Grows(q, Apply(q, Step(t)))
  {
    assert ThreadOk(q, t);
    var f := Filling(q.threads[t]);
    assert f.Some? ==> EntryOk(q, f.value);
  }

  lemma TrimGrows(q: Queue, t: nat)
    requires Inv(q) && Enabled(q, Step(t)) && InTrim(q.threads[t])
    ensures Grows(q, Apply(q, Step(t)))
  {
    assert ThreadOk(q, t);
  }

  lemma ApplyGrows(q: Queue, a: Action)
    requires Inv(q) && Enabled(q, a)
    ensures Grows(q, Apply(q, a))
  {
    if a.Step? {
      if InTrim(q.threads[a.t]) { TrimGrows(q, a.t); } else { AppendGrows(q, a.t); }
    }
  }

  lemma OthersStayOk(q: Queue, q': Queue, u: nat)
    requires Inv(q) && Grows(q, q') && u < |q.threads|
    requires q'.threads[u] == q.threads[u]
    ensures ThreadOk(q', u)
  {
    assert ThreadOk(q, u);
    var f := Filling(q.threads[u]);
    assert f.Some? ==> At(q', f.value) == At(q', f.value);
  }

  lemma AppenderStaysOk(q: Queue, t: nat)
    requires Inv(q) && Enabled(q, Step(t)) && !InTrim(q.threads[t])
    ensures ThreadOk(Apply(q, Step(t)), t)
  {
    assert ThreadOk(q, t);
  }

  lemma TrimmerStaysOk(q: Queue, t: nat)
    requires Inv(q) && Enabled(q, Step(t)) && InTrim(q.threads[t])
    ensures ThreadOk(Apply(q, Step(t)), t)
  {
    assert ThreadOk(q, t);
    var pc := q.threads[t];
    if pc.LoadNext? && pc.oldoldest.Node? { assert EntryOk(q, pc.oldoldest.i); }
  }

  lemma ClaimedEntry(q: Queue, t: nat, i: nat)
    requires Inv(q) && Enabled(q, Step(t)) && q.threads[t].CasNewest? && i <= Apply(q, Step(t)).newest
    ensures EntryOk(Apply(q, Step(t)), i)
  {
    assert ThreadOk(q, t);
    if i <= q.newest { assert EntryOk(q, i); }
  }

  lemma FilledEntry(q: Queue, t: nat, i: nat)
    requires Inv(q) && Enabled(q, Step(t)) && !InTrim(q.threads[t]) && !q.threads[t].CasNewest?
    requires i <= q.newest
    ensures EntryOk(Apply(q, Step(t)), i)
  {
    assert ThreadOk(q, t) && EntryOk(q, i);
  }

  /** A step inside trim concerns entries only by storing the marker in one that was removed. */
  predicate MarksOnly(q: Queue, t: nat, r: Queue) {
    && t < |q.threads| == |r.threads| && InTrim(q.threads[t])
    && r.threads == q.threads[t := r.threads[t]] && Filling(r.threads[t]).None?
    && r.newest == q.newest && r.log == q.log && r.owner == q.owner && q.removers <= r.removers
    && (r.entries == q.entries
        || exists k: nat :: k < |q.entries| && k < |q.removers|
                            && r.entries == q.entries[k := q.entries[k].(next := Stale)])
  }

  lemma TrimMarksOnly(q: Queue, t: nat)
    requires Inv(q) && Enabled(q, Step(t)) && InTrim(q.threads[t])
    ensures MarksOnly(q, t, Apply(q, Step(t)))
  {
    assert ThreadOk(q, t);
  }

  lemma TrimmedEntry(q: Queue, t: nat, r: Queue, i: nat)
    requires Inv(q) && MarksOnly(q, t, r) && i <= q.newest
    ensures EntryOk(r, i)
  {
    assert ThreadOk(q, t) && EntryOk(q, i);
  }

  lemma AppendCounts(q: Queue, t: nat)
    requires Inv(q) && Enabled(q, Step(t)) && !InTrim(q.threads[t])
    ensures Counts(Apply(q, Step(t)))
    ensures Apply(q, Step(t)).newest > q.newest ==> Apply(q, Step(t)).owner == q.owner + [t]
  {
    assert ThreadOk(q, t);
  }

  lemma TrimCounts(q: Queue, t: nat)
    requires Inv(q) && Enabled(q, Step(t)) && InTrim(q.threads[t])
    ensures Counts(Apply(q, Step(t)))
    ensures Apply(q, Step(t)).newest == q.newest
  {
    assert ThreadOk(q, t);
  }

  lemma StepKeepsInv(q: Queue, t: nat)
    requires Inv(q) && Enabled(q, Step(t))
    ensures Inv(Apply(q, Step(t)))
  {
    var q' := Apply(q, Step(t));
    ApplyGrows(q, Step(t));
    forall i: nat | i <= q'.newest ensures EntryOk(q', i) {
      if InTrim(q.threads[t]) {
        TrimMarksOnly(q, t);
        TrimmedEntry(q, t, q', i);
      } else if q.threads[t].CasNewest? {
        ClaimedEntry(q, t, i);
      } else {
        FilledEntry(q, t, i);
      }
    }
    forall u: nat | u < |q'.threads| ensures ThreadOk(q', u) {
      if u != t { OthersStayOk(q, q', u); }
      else if InTrim(q.threads[t]) { TrimmerStaysOk(q, t); }
      else { AppenderStaysOk(q, t); }
    }
    if InTrim(q.threads[t]) { TrimCounts(q, t); } else { AppendCounts(q, t); }
  }

  lemma CallKeepsInv(q: Queue, t: nat, arg: Option<Msg>)
    requires Inv(q) && Enabled(q, Call(t, arg))
    ensures Inv(Apply(q, Call(t, arg)))
  {
    var q' := Apply(q, Call(t, arg));
    assert ThreadOk(q, t);
    forall i: nat | i <= q'.newest ensures EntryOk(q', i) { assert EntryOk(q, i); }
    forall u: nat | u < |q'.threads| ensures ThreadOk(q', u) { assert ThreadOk(q, u); }
  }

  /** One atomic step keeps the invariant. */
  lemma ApplyKeepsInv(q: Queue, a: Action)
    requires Inv(q) && Enabled(q, a)
    ensures Inv(Apply(q, a))
  {
    match a
    case Step(t) => StepKeepsInv(q, t);
    case Call(t, arg) => CallKeepsInv(q, t, arg);
  }

  // ----- every reachable state -----

  /** q can be reached from an empty queue with as many goroutines. */
  ghost predicate Reachable(g: Grain, q: Queue) {
    exists acts ::
      && Legal(g, Init(q.overhead, q.maxsize, |q.threads|), acts)
      && Run(g, Init(q.overhead, q.maxsize, |q.threads|), acts) == q
  }

  lemma PublishKeepsInv(q: Queue, t: nat)
    requires Inv(q) && Claims(q, Step(t))
    ensures Inv(Publish(q, t)) && Grows(q, Publish(q, t))
  {
    var a := Step(t);
    var q1 := Apply(q, a);
    ApplyKeepsInv(q, a);
    ApplyGrows(q, a);
    var q2 := Apply(q1, a);
    ApplyKeepsInv(q1, a);
    ApplyGrows(q1, a);
    var q3 := Apply(q2, a);
    ApplyKeepsInv(q2, a);
    ApplyGrows(q2, a);
    ApplyKeepsInv(q3, a);
    ApplyGrows(q3, a);
    GrowsTransitive(q, q1, q2);
    GrowsTransitive(q, q2, q3);
    GrowsTransitive(q, q3, Apply(q3, a));
  }

  lemma GrowsTransitive(q: Queue, r: Queue, s: Queue)
    requires Grows(q, r) && Grows(r, s)
    ensures Grows(q, s)
  {
    forall i: nat {:trigger At(s, i)} | i <= q.newest
      ensures (At(q, i).next != Nil ==> At(s, i).next != Nil)
      ensures (At(q, i).msg.Some? ==> At(s, i).msg == At(q, i).msg)
      ensures (At(q, i).valid == 0 ==> At(s, i).valid == 0)
    {
      assert At(r, i) == At(r, i);
    }
  }

  lemma NextKeepsInv(g: Grain, q: Queue, a: Action)
    requires Inv(q) && Enabled(q, a)
    ensures Inv(Next(g, q, a)) && Grows(q, Next(g, q, a))
  {
    ApplyKeepsInv(q, a);
    ApplyGrows(q, a);
    if g.AtomicPublish? && Claims(q, a) {
      PublishKeepsInv(q, a.t);
    }
  }

  lemma {:induction false} RunKeepsInv(g: Grain, q: Queue, acts: seq<Action>)
    requires Inv(q) && Legal(g, q, acts)
    ensures Inv(Run(g, q, acts)) && Grows(q, Run(g, q, acts))
    decreases acts
  {
    if acts != [] {
      NextKeepsInv(g, q, acts[0]);
      RunKeepsInv(g, Next(g, q, acts[0]), acts[1..]);
      GrowsTransitive(q, Next(g, q, acts[0]), Run(g, q, acts));
    }
  }

  lemma ReachableInv(g: Grain, q: Queue)
    requires Reachable(g, q)
    ensures Inv(q)
  {
    var init := Init(q.overhead, q.maxsize, |q.threads|);
    var acts :| Legal(g, init, acts) && Run(g, init, acts) == q;
    InvInit(q.overhead, q.maxsize, |q.threads|);
    RunKeepsInv(g, init, acts);
  }

  /** `oldest` steps from one entry to the one right behind it, or off the end, and only by the
      CAS of a goroutine that is then recorded as the remover of that entry. */
  lemma OldestOnlyMovesForward(g: Grain, q: Queue, a: Action)
    requires Reachable(g, q) && Enabled(q, a)
    ensures !q.oldest.Stale?
    ensures var q' := Apply(q, a);
            (q'.oldest == q.oldest && q'.removers == q.removers)
            || (&& q.oldest == Node(|q.removers|)
                && q'.oldest in {Node(|q.removers| + 1), Nil}
                && q'.removers == q.removers + [a.t])
  {
    ReachableInv(g, q);
    assert ThreadOk(q, a.t);
  }

  /** Which removed entry a goroutine is still accounting for. */
  function Pending(pc: Thread): Option<nat> {
    match pc
    case ReadSize(_, k) => Some(k)
    case SubSize(_, k, _) => Some(k)
    case StoreStale(_, k) => Some(k)
    case _ => None
  }

  /** No entry is filled by two goroutines, or taken off by two. */
  lemma OneFillerOneRemover(g: Grain, q: Queue, t: nat, u: nat)
    requires Reachable(g, q) && t < |q.threads| && u < |q.threads| && t != u
    ensures Filling(q.threads[t]).Some? ==> Filling(q.threads[t]) != Filling(q.threads[u])
    ensures Pending(q.threads[t]).Some? ==> Pending(q.threads[t]) != Pending(q.threads[u])
  {
    ReachableInv(g, q);
    assert ThreadOk(q, t) && ThreadOk(q, u);
  }

  /** An entry that points to the stale marker has been passed by `oldest`. */
  lemma StaleWasPassed(g: Grain, q: Queue, i: nat)
    requires Reachable(g, q) && At(q, i).next == Stale
    ensures i < |q.removers| && (q.oldest.Node? ==> i < q.oldest.i)
  {
    ReachableInv(g, q);
    assert i <= q.newest ==> EntryOk(q, i);
  }

  /** The WaitGroup of an entry goes from 1 to 0 once, by the goroutine that claimed the entry,
      when its link and message are in place; it never goes below. */
  lemma DoneExactlyOnce(g: Grain, q: Queue, a: Action, i: nat)
    requires Reachable(g, q) && Enabled(q, a) && i <= q.newest
    ensures 0 <= At(q, i).valid <= 1 && |q.owner| == q.newest && |q.log| == q.newest
    ensures var q' := Apply(q, a);
            At(q', i).valid != At(q, i).valid ==>
              && At(q, i).valid == 1 && At(q', i).valid == 0
              && i < q.newest && q.owner[i] == a.t && a == Step(a.t) && q.threads[a.t] == MarkDone(i)
              && At(q, i).next != Nil && At(q, i).msg == Some(q.log[i])
  {
    ReachableInv(g, q);
    assert EntryOk(q, i);
    match a
    case Call(t, arg) =>
    case Step(t) =>
      if InTrim(q.threads[t]) { TrimLeavesValid(q, t, i); } else { OnlyOwnerMarksDone(q, t, i); }
  }

  lemma TrimLeavesValid(q: Queue, t: nat, i: nat)
    requires Inv(q) && Enabled(q, Step(t)) && InTrim(q.threads[t])
    ensures At(Apply(q, Step(t)), i).valid == At(q, i).valid
  {
    TrimMarksOnly(q, t);
  }

  lemma OnlyOwnerMarksDone(q: Queue, t: nat, i: nat)
    requires Inv(q) && Enabled(q, Step(t)) && !InTrim(q.threads[t]) && i <= q.newest
    ensures var q' := Apply(q, Step(t));
            At(q', i).valid != At(q, i).valid ==>
              && At(q, i).valid == 1 && At(q', i).valid == 0
              && i < q.newest && q.owner[i] == t && q.threads[t] == MarkDone(i)
              && At(q, i).next != Nil && At(q, i).msg == Some(q.log[i])
  {
    assert ThreadOk(q, t) && EntryOk(q, i);
  }

  /** The process ends only by appending nil or by following a nil `oldest`. */
  lemma OnlyNilCrashes(g: Grain, q: Queue, a: Action)
    requires Reachable(g, q) && Enabled(q, a)
    ensures Apply(q, a).crashed <==>
              || (a.Call? && a.arg.None?)
              || (a.Step? && q.threads[a.t].LoadNext? && q.threads[a.t].oldoldest == Nil && q.oldest == Nil)
  {
    ReachableInv(g, q);
    assert ThreadOk(q, a.t);
    var f := Filling(q.threads[a.t]);
    assert f.Some? ==> EntryOk(q, f.value);
  }
}
