/** hub/messagequeue.go as a state machine: any number of goroutines inside Append and trim, one
    action per atomic operation, sequentially consistent memory, no pointer ever reused. */
module QueueMachine {
  import opened Backlog

  /** Entries are numbered in the order in which they became `newest`; 0 is the initial one. */
  datatype Link = Nil | Node(i: nat) | Stale

  datatype Entry = Entry(next: Link, msg: Option<Msg>, valid: int)

  const EMPTY_ENTRY := Entry(Nil, None, 1)

  /** What a goroutine does next, with the local variables it still needs. `mine` is the entry
      its message went into. */
  datatype Thread =
    | Idle
    | LoadNewest(msg: Msg, call: nat)                       // line 84
    | CasNewest(msg: Msg, call: nat, seen: nat)             // line 85
    | StoreNext(msg: Msg, mine: nat, newp: nat)             // line 91
    | StoreMsg(msg: Msg, mine: nat)                         // line 92
    | AddSize(mine: nat)                                    // line 93
    | MarkDone(mine: nat)                                   // line 95
    | Guard(mine: nat)                                      // line 55
    | LoadOldest(mine: nat)                                 // line 57
    | LoadNext(mine: nat, oldoldest: Link)                  // line 59
    | CasOldest(mine: nat, k: nat, newoldest: Link)         // line 60
    | ReadSize(mine: nat, k: nat)                           // line 69, e.Size()
    | SubSize(mine: nat, k: nat, bytes: int)                // line 69, the subtraction
    | StoreStale(mine: nat, k: nat)                         // line 71

  datatype Event = Begun(t: nat, m: Msg) | Returned(t: nat, i: nat)

  datatype Queue = Queue(
    overhead: int,
    maxsize: int,
    oldest: Link,
    newest: nat,
    size: int,
    entries: seq<Entry>,
    threads: seq<Thread>,
    crashed: bool,  // a goroutine panicked or dereferenced nil, which ends the process
    // what happened so far; no step looks at these
    log: seq<Msg>,  // the message of each claimed entry
    owner: seq<nat>,  // who claimed it
    call: seq<nat>,  // for which call (an index into events)
    removers: seq<nat>,  // who moved `oldest` past each entry
    events: seq<Event>,
    fails: nat,  // lost CAS attempts on `newest`
    lost: nat,  // lost CAS attempts on `oldest`
    added: int,  // everything ever added to size
    subtracted: int)  // everything ever subtracted from it

  datatype Action = Call(t: nat, arg: Option<Msg>) | Step(t: nat)

  function Init(overhead: int, maxsize: int, threads: nat): Queue {
    Queue(overhead, maxsize, Node(0), 0, 0, [EMPTY_ENTRY], seq(threads, _ => Idle), false,
          [], [], [], [], [], 0, 0, 0, 0)
  }

  function At(q: Queue, i: nat): Entry {
    if i < |q.entries| then q.entries[i] else EMPTY_ENTRY
  }

  function Put(q: Queue, i: nat, e: Entry): Queue {
    if i < |q.entries| then q.(entries := q.entries[i := e]) else q
  }

  /** queueEntry.Size as it reads at this moment: a nil message has length 0. */
  function SizeNow(q: Queue, i: nat): int {
    match At(q, i).msg
    case None => q.overhead
    case Some(m) => SizeOf(q.overhead, m)
  }

  function Goto(q: Queue, t: nat, pc: Thread): Queue
    requires t < |q.threads|
  {
    q.(threads := q.threads[t := pc])
  }

  function Return(q: Queue, t: nat, mine: nat): Queue
    requires t < |q.threads|
  {
    Goto(q, t, Idle).(events := q.events + [Returned(t, mine)])
  }

  predicate Enabled(q: Queue, a: Action) {
    && !q.crashed
    && a.t < |q.threads|
    && (a.Call? <==> q.threads[a.t].Idle?)
  }

  function Apply(q: Queue, a: Action): Queue
    requires Enabled(q, a)
  {
    match a
    case Call(t, None) => q.(crashed := true)
    case Call(t, Some(m)) =>
      Goto(q, t, LoadNewest(m, |q.events|)).(events := q.events + [Begun(t, m)])
    case Step(t) => Move(q, t, q.threads[t])
  }

  /** Inside trim, called from Append for the message in entry `mine`. */
  predicate InTrim(pc: Thread) {
    pc.Guard? || pc.LoadOldest? || pc.LoadNext? || pc.CasOldest? || pc.ReadSize? || pc.SubSize? || pc.StoreStale?
  }

  function Move(q: Queue, t: nat, pc: Thread): Queue
    requires t < |q.threads| && !pc.Idle?
  {
    if InTrim(pc) then MoveTrim(q, t, pc) else MoveAppend(q, t, pc)
  }

  /** Append, lines 84 to 95 */
  function MoveAppend(q: Queue, t: nat, pc: Thread): Queue
    requires t < |q.threads| && !pc.Idle? && !InTrim(pc)
  {
    match pc
    case LoadNewest(m, c) => Goto(q, t, CasNewest(m, c, q.newest))
    case CasNewest(m, c, seen) =>
      if q.newest == seen then Claim(q, t, m, c)
      else Goto(q, t, LoadNewest(m, c)).(fails := q.fails + 1)
    case StoreNext(m, e, newp) => Goto(Put(q, e, At(q, e).(next := Node(newp))), t, StoreMsg(m, e))
    case StoreMsg(m, e) => Goto(Put(q, e, At(q, e).(msg := Some(m))), t, AddSize(e))
    case AddSize(e) =>
      Goto(q.(size := q.size + SizeNow(q, e), added := q.added + SizeNow(q, e)), t, MarkDone(e))
    case MarkDone(e) =>
      if At(q, e).valid <= 0 then q.(crashed := true)  // negative WaitGroup counter
      else Goto(Put(q, e, At(q, e).(valid := At(q, e).valid - 1)), t, Guard(e))
  }

  /** Line 85, won: the prepared entry becomes the newest one. */
  function Claim(q: Queue, t: nat, m: Msg, c: nat): Queue
    requires t < |q.threads|
  {
    var newp := |q.entries|;
    Goto(q, t, StoreNext(m, q.newest, newp)).(
      newest := newp, entries := q.entries + [EMPTY_ENTRY],
      log := q.log + [m], owner := q.owner + [t], call := q.call + [c])
  }

  /** trim, lines 55 to 71 */
  function MoveTrim(q: Queue, t: nat, pc: Thread): Queue
    requires t < |q.threads| && InTrim(pc)
  {
    match pc
    case Guard(e) => if q.size > q.maxsize then Goto(q, t, LoadOldest(e)) else Return(q, t, e)
    case LoadOldest(e) => Goto(q, t, LoadNext(e, q.oldest))
    case LoadNext(e, o) =>
      (match o
       case Node(k) => Goto(q, t, CasOldest(e, k, At(q, k).next))
       case _ => q.(crashed := true))  // nil; that it is never the marker is proved
    case CasOldest(e, k, nx) =>
      if q.oldest == Node(k) then
        Goto(q, t, ReadSize(e, k)).(oldest := nx, removers := q.removers + [t])
      else
        Return(q, t, e).(lost := q.lost + 1)
    case ReadSize(e, k) => Goto(q, t, SubSize(e, k, SizeNow(q, k)))
    case SubSize(e, k, bytes) =>
      Goto(q.(size := q.size - bytes, subtracted := q.subtracted + bytes), t, StoreStale(e, k))
    case StoreStale(e, k) => Goto(Put(q, k, At(q, k).(next := Stale)), t, Guard(e))
  }

  // ----- runs -----

  /** A claim is about to succeed. */
  predicate Claims(q: Queue, a: Action) {
    Enabled(q, a) && a.Step? && q.threads[a.t].CasNewest? && q.threads[a.t].seen == q.newest
  }

  /** Lines 85 to 93 in one go. */
  function Publish(q: Queue, t: nat): Queue
    requires Claims(q, Step(t))
  {
    Apply(Apply(Apply(Apply(q, Step(t)), Step(t)), Step(t)), Step(t))
  }

  /** The finest interleaving, or the one that publishes an entry atomically. */
  datatype Grain = Fine | AtomicPublish

  function Next(g: Grain, q: Queue, a: Action): Queue
    requires Enabled(q, a)
  {
    if g.AtomicPublish? && Claims(q, a) then Publish(q, a.t) else Apply(q, a)
  }

  predicate Legal(g: Grain, q: Queue, acts: seq<Action>)
    decreases acts
  {
    acts == [] || (Enabled(q, acts[0]) && Legal(g, Next(g, q, acts[0]), acts[1..]))
  }

  function Run(g: Grain, q: Queue, acts: seq<Action>): Queue
    requires Legal(g, q, acts)
    decreases acts
  {
    if acts == [] then q else Run(g, Next(g, q, acts[0]), acts[1..])
  }

  lemma {:induction false} RunConcat(g: Grain, q: Queue, a: seq<Action>, b: seq<Action>)
    requires Legal(g, q, a) && Legal(g, Run(g, q, a), b)
    ensures Legal(g, q, a + b) && Run(g, q, a + b) == Run(g, Run(g, q, a), b)
    decreases a
  {
    if a == [] {
      assert a + b == b;
    } else {
      var all, rest := a + b, a[1..];
      assert all[0] == a[0] && all[1..] == rest + b;
      RunConcat(g, Next(g, q, a[0]), rest, b);
    }
  }

  /** Every atomic-publish run is a run of the finest interleaving. */
  lemma {:induction false} AtomicRunIsFineRun(q: Queue, acts: seq<Action>) returns (fine: seq<Action>)
    requires Legal(AtomicPublish, q, acts)
    ensures Legal(Fine, q, fine) && Run(Fine, q, fine) == Run(AtomicPublish, q, acts)
    ensures forall a <- fine :: a in acts
    decreases acts
  {
    if acts == [] {
      fine := [];
    } else {
      var a := acts[0];
      var rest := AtomicRunIsFineRun(Next(AtomicPublish, q, a), acts[1..]);
      var first := if Claims(q, a) then [a, a, a, a] else [a];
      FirstSteps(q, a, first);
      RunConcat(Fine, q, first, rest);
      fine := first + rest;
    }
  }

  lemma OneStep(g: Grain, q: Queue, a: Action)
    requires Enabled(q, a)
    ensures Legal(g, q, [a]) && Run(g, q, [a]) == Next(g, q, a)
  {
    assert [a][1..] == [];
    assert Legal(g, Next(g, q, a), []);
  }

  lemma FirstSteps(q: Queue, a: Action, first: seq<Action>)
    requires Enabled(q, a) && first == if Claims(q, a) then [a, a, a, a] else [a]
    ensures Legal(Fine, q, first) && Run(Fine, q, first) == Next(AtomicPublish, q, a)
  {
    OneStep(Fine, q, a);
    if Claims(q, a) {
      var q1 := Apply(q, a);
      var q2 := Apply(q1, a);
      var q3 := Apply(q2, a);
      OneStep(Fine, q1, a);
      OneStep(Fine, q2, a);
      OneStep(Fine, q3, a);
      RunConcat(Fine, q2, [a], [a]);
      RunConcat(Fine, q1, [a], [a, a]);
      RunConcat(Fine, q, [a], [a, a, a]);
      assert [a] + [a] == [a, a] && [a] + [a, a] == [a, a, a] && [a] + [a, a, a] == first;
    }
  }
}
