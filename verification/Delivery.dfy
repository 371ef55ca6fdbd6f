/** From the backlog to the connections: the listener of hub/messagequeue.go and the sender
    goroutine of hub/chatroom.go, for any number of clients, beside any number of appenders. */
module Delivery {
  import opened Backlog
  import opened QueueMachine
  import opened QueueInvariant
  import Drift
  import Ledger
  import Runs

  datatype ListenerState =
    | LStart                // line 100
    | LTop(p: Link)         // lines 102-106
    | LWait(e: nat)         // line 107
    | LSend(e: nat)         // lines 108-115
    | LNext(e: nat)         // line 116
    | LQuit
    | LClosed

  datatype SenderState =
    | SReceive              // chatroom.go line 52
    | SWrite(msg: Msg)      // chatroom.go line 56
    | SLeave                // the deferred Close
    | SGone

  datatype Client = Client(
    listener: ListenerState,
    sender: SenderState,
    closed: bool,  // client.closed is closed
    quit: bool,  // the quit channel is closed
    // what happened so far
    start: nat,
    delivered: seq<Msg>,  // sent on the msgs channel
    attempted: seq<Msg>,  // passed to writeMessage, with a result
    failed: bool)  // whether the last of these failed

  const NEW_CLIENT := Client(LStart, SReceive, false, false, 0, [], [], false)

  datatype ClientAction =
    | Listen | Top | Ready | Deliver | SeeQuit | Follow  // listener
    | WriteOk | WriteErr | ChannelClosed | Leave  // sender
    | ReadError | Watch  // the read loop gives up; the goroutine that forwards `closed` to `quit`

  predicate ByListener(a: ClientAction) {
    a.Listen? || a.Top? || a.Ready? || a.Deliver? || a.SeeQuit? || a.Follow?
  }

  predicate CanAct(q: Queue, c: Client, a: ClientAction) {
    match a
    case Listen => c.listener.LStart?
    case Top => c.listener.LTop?
    case Ready => c.listener.LWait? && At(q, c.listener.e).valid == 0
    case Deliver => c.listener.LSend? && c.sender.SReceive?
    case SeeQuit => c.listener.LSend? && c.quit
    case Follow => c.listener.LNext?
    case WriteOk => c.sender.SWrite?
    case WriteErr => c.sender.SWrite?
    case ChannelClosed => c.sender.SReceive? && c.listener.LClosed?
    case Leave => c.sender.SLeave?
    case ReadError => !c.closed
    case Watch => c.closed && !c.quit
  }

  /** A nil dereference at line 107, or the panic at line 109. */
  predicate Panics(q: Queue, c: Client, a: ClientAction) {
    (a.Top? && c.listener == LTop(Nil)) || (a.Ready? && c.listener.LWait? && At(q, c.listener.e).msg.None?)
  }

  function Act(q: Queue, c: Client, a: ClientAction): Client
    requires CanAct(q, c, a) && !Panics(q, c, a)
  {
    match a
    case Listen => c.(listener := LTop(q.oldest), start := |q.removers|)
    case Top => c.(listener := if c.listener.p.Stale? then LClosed else LWait(c.listener.p.i))
    case Ready => c.(listener := LSend(c.listener.e))
    case Deliver =>
      var msg := MsgAt(q, c.listener.e);
      c.(listener := LNext(c.listener.e), delivered := c.delivered + [msg], sender := SWrite(msg))
    case SeeQuit => c.(listener := LQuit)
    case Follow => c.(listener := LTop(At(q, c.listener.e).next))
    case WriteOk => c.(sender := SReceive, attempted := c.attempted + [c.sender.msg])
    case WriteErr => c.(sender := SLeave, attempted := c.attempted + [c.sender.msg], failed := true)
    case ChannelClosed => c.(sender := SLeave)
    case Leave => c.(sender := SGone, closed := true)
    case ReadError => c.(closed := true)
    case Watch => c.(quit := true)
  }

  function MsgAt(q: Queue, e: nat): Msg {
    match At(q, e).msg
    case Some(m) => m
    case None => []
  }

  // ----- the whole system -----

  datatype System = System(q: Queue, clients: seq<Client>, panicked: bool)

  datatype Move = ByAppender(a: Action) | ByClient(i: nat, c: ClientAction)

  function Start(overhead: int, maxsize: int, threads: nat, clients: nat): System {
    System(Init(overhead, maxsize, threads), seq(clients, _ => NEW_CLIENT), false)
  }

  predicate Possible(s: System, m: Move) {
    && !s.panicked && !s.q.crashed
    && match m
       case ByAppender(a) => Enabled(s.q, a)
       case ByClient(i, c) => i < |s.clients| && CanAct(s.q, s.clients[i], c)
  }

  function Do(s: System, m: Move): System
    requires Possible(s, m)
  {
    match m
    case ByAppender(a) => s.(q := Apply(s.q, a))
    case ByClient(i, c) =>
      if Panics(s.q, s.clients[i], c) then s.(panicked := true)
      else s.(clients := s.clients[i := Act(s.q, s.clients[i], c)])
  }

  predicate AllPossible(s: System, ms: seq<Move>)
    decreases ms
  {
    ms == [] || (Possible(s, ms[0]) && AllPossible(Do(s, ms[0]), ms[1..]))
  }

  function DoAll(s: System, ms: seq<Move>): System
    requires AllPossible(s, ms)
    decreases ms
  {
    if ms == [] then s else DoAll(Do(s, ms[0]), ms[1..])
  }

  // ----- what every interleaving keeps -----

  /** The next position in the log that the client's listener has to deliver. */
  function Position(c: Client): nat {
    c.start + |c.delivered|
  }

  predicate ListenerOk(q: Queue, c: Client) {
    match c.listener
    case LStart => c.delivered == []
    case LTop(Node(e)) => e == Position(c)
    case LTop(Nil) => q.oldest.Nil? && c.delivered == []
    case LTop(Stale) => c.delivered != [] && Position(c) - 1 < |q.removers|
    case LWait(e) => e == Position(c)
    case LSend(e) => e == Position(c) && e < q.newest && At(q, e).valid == 0
    case LNext(e) => c.delivered != [] && e + 1 == Position(c) && At(q, e).valid == 0
    case LClosed => c.delivered != [] && Position(c) - 1 < |q.removers|
    case LQuit => c.quit
  }

  predicate SenderOk(c: Client) {
    && c.delivered == c.attempted + (if c.sender.SWrite? then [c.sender.msg] else [])
    && (c.failed ==> c.attempted != [] && (c.sender.SLeave? || c.sender.SGone?))
    && (c.sender.SGone? || c.quit ==> c.closed)
    && (c.sender.SLeave? || c.sender.SGone? ==> c.failed || c.listener.LClosed?)
  }

  predicate ClientOk(q: Queue, c: Client) {
    && (c.listener != LStart && c.listener != LTop(Nil) ==> Position(c) <= q.newest)
    && (c.delivered != [] ==>
          Position(c) <= q.newest && Position(c) <= |q.log| && c.delivered == q.log[c.start..Position(c)])
    && c.start <= |q.removers|
    && (forall k: nat :: c.start <= k < Position(c) ==> At(q, k).valid == 0)
    && ListenerOk(q, c)
    && SenderOk(c)
  }

  predicate SystemOk(s: System) {
    && Inv(s.q)
    && (forall i: nat :: i < |s.clients| ==> ClientOk(s.q, s.clients[i]))
  }

  lemma QueueStepKeepsClient(q: Queue, q': Queue, c: Client)
    requires Inv(q) && Inv(q') && Grows(q, q') && ClientOk(q, c)
    ensures ClientOk(q', c)
  {
    if c.delivered != [] {
      assert q'.log[c.start..Position(c)] == q.log[c.start..Position(c)];
    }
    if c.listener.LSend? || c.listener.LNext? {
      assert c.listener.e <= q.newest ==> At(q', c.listener.e).valid == 0;
    }
  }

  lemma ListenerStepKeepsClient(q: Queue, c: Client, a: ClientAction)
    requires Inv(q) && ClientOk(q, c) && CanAct(q, c, a) && ByListener(a) && !Panics(q, c, a)
    ensures ClientOk(q, Act(q, c, a))
  {
    if a.Deliver? {
      DeliveryKeepsClient(q, c);
    } else if c.listener.LWait? || c.listener.LSend? || c.listener.LNext? {
      assert EntryOk(q, c.listener.e);
    }
  }

  /** The message handed over is the one the log has at that position. */
  lemma DeliveryKeepsClient(q: Queue, c: Client)
    requires Inv(q) && ClientOk(q, c) && CanAct(q, c, Deliver)
    ensures ClientOk(q, Act(q, c, Deliver))
  {
    var e := c.listener.e;
    assert EntryOk(q, e);
    assert MsgAt(q, e) == q.log[e];
    assert q.log[c.start..e + 1] == q.log[c.start..e] + [q.log[e]];
  }

  lemma SenderStepKeepsClient(q: Queue, c: Client, a: ClientAction)
    requires Inv(q) && ClientOk(q, c) && CanAct(q, c, a) && !ByListener(a)
    ensures ClientOk(q, Act(q, c, a))
  {
  }

  lemma DoKeepsOk(s: System, m: Move)
    requires SystemOk(s) && Possible(s, m)
    ensures SystemOk(Do(s, m))
  {
    var s' := Do(s, m);
    if m.ByAppender? {
      ApplyKeepsInv(s.q, m.a);
      ApplyGrows(s.q, m.a);
      forall i: nat | i < |s'.clients| ensures ClientOk(s'.q, s'.clients[i]) {
        QueueStepKeepsClient(s.q, s'.q, s.clients[i]);
      }
    } else if !Panics(s.q, s.clients[m.i], m.c) {
      if ByListener(m.c) {
        ListenerStepKeepsClient(s.q, s.clients[m.i], m.c);
      } else {
        SenderStepKeepsClient(s.q, s.clients[m.i], m.c);
      }
    }
  }

  lemma {:induction false} DoAllKeepsOk(s: System, ms: seq<Move>)
    requires SystemOk(s) && AllPossible(s, ms)
    ensures SystemOk(DoAll(s, ms))
    decreases ms
  {
    if ms != [] {
      DoKeepsOk(s, ms[0]);
      DoAllKeepsOk(Do(s, ms[0]), ms[1..]);
    }
  }

  ghost predicate SystemReachable(s: System) {
    exists ms ::
      && AllPossible(Start(s.q.overhead, s.q.maxsize, |s.q.threads|, |s.clients|), ms)
      && DoAll(Start(s.q.overhead, s.q.maxsize, |s.q.threads|, |s.clients|), ms) == s
  }

  lemma ReachableIsOk(s: System)
    requires SystemReachable(s)
    ensures SystemOk(s)
  {
    var init := Start(s.q.overhead, s.q.maxsize, |s.q.threads|, |s.clients|);
    var ms :| AllPossible(init, ms) && DoAll(init, ms) == s;
    InvInit(s.q.overhead, s.q.maxsize, |s.q.threads|);
    DoAllKeepsOk(init, ms);
  }

  // ----- main results -----

  /** What has been handed to a client is one contiguous slice of the log, from the entry that
      was oldest when it started to listen: no gap, no repetition, no reordering. One that was closed
      as out of sync ends with a message that has really left the backlog. */
  lemma DeliversASlice(s: System, i: nat)
    requires SystemReachable(s) && i < |s.clients|
    ensures var c := s.clients[i];
            c.delivered != [] ==>
              Position(c) <= |s.q.log| && c.delivered == s.q.log[c.start..Position(c)]
    ensures var c := s.clients[i];
            c.listener.LClosed? ==> c.delivered != [] && Position(c) - 1 < |s.q.removers|
  {
    ReachableIsOk(s);
    assert ClientOk(s.q, s.clients[i]);
  }

  /** Nothing is delivered before the appender has marked its entry done. */
  lemma DeliversOnlyDone(s: System, i: nat, k: nat)
    requires SystemReachable(s) && i < |s.clients|
    requires s.clients[i].start <= k < s.clients[i].start + |s.clients[i].delivered|
    ensures k < |s.q.log| && At(s.q, k) == Entry(At(s.q, k).next, Some(s.q.log[k]), 0)
    ensures !Held(s.q, k)
  {
    ReachableIsOk(s);
    assert ClientOk(s.q, s.clients[i]);
    assert EntryOk(s.q, k);
  }

  /** The slice starts at the base of that moment; if there is none, the process ends. */
  lemma StartsAtOldest(s: System, i: nat)
    requires SystemReachable(s) && Possible(s, ByClient(i, Listen))
    ensures var s' := Do(s, ByClient(i, Listen));
            && s'.clients[i].delivered == []
            && Possible(s', ByClient(i, Top))
            && if s.q.oldest.Node? then
                 s'.clients[i].listener == LTop(Node(s'.clients[i].start)) && s.q.oldest == Node(s'.clients[i].start)
               else
                 Do(s', ByClient(i, Top)).panicked
  {
    ReachableIsOk(s);
    assert ClientOk(s.q, s.clients[i]);
  }

  /** With every appender finished and its receiver waiting, a listener that cannot move has been
      told to quit, has been closed as out of sync, or has delivered everything to the end. */
  lemma CompleteAtRest(s: System, i: nat)
    requires SystemReachable(s) && i < |s.clients| && !s.panicked && !s.q.crashed
    requires forall t: nat :: t < |s.q.threads| ==> s.q.threads[t].Idle?
    requires s.clients[i].sender.SReceive?
    requires forall a :: ByListener(a) ==> !Possible(s, ByClient(i, a))
    ensures var c := s.clients[i];
            || (c.listener.LQuit? && c.quit && c.closed)
            || (c.listener.LClosed? && c.delivered != [] && Position(c) - 1 < |s.q.removers|)
            || (c.start <= |s.q.log| && c.delivered == s.q.log[c.start..] && c.attempted == s.q.log[c.start..])
  {
    ReachableIsOk(s);
    var c := s.clients[i];
    assert ClientOk(s.q, c);
    assert !Possible(s, ByClient(i, Listen)) && !Possible(s, ByClient(i, Top)) && !Possible(s, ByClient(i, Ready))
        && !Possible(s, ByClient(i, Deliver)) && !Possible(s, ByClient(i, Follow));
    if c.listener.LWait? {
      assert EntryOk(s.q, c.listener.e);
      assert s.q.log[c.start..|s.q.log|] == s.q.log[c.start..];
    }
  }

  /** An upper bound on the steps a listener has left while nothing is appended. */
  function StepsLeft(q: Queue, c: Client): int {
    match c.listener
    case LStart => 4 * (q.newest + 2)
    case LTop(Node(e)) => 4 * (q.newest - e) + 3
    case LTop(_) => 1
    case LWait(e) => 4 * (q.newest - e) + 2
    case LSend(e) => 4 * (q.newest - e) + 1
    case LNext(e) => 4 * (q.newest - e)
    case LQuit => 0
    case LClosed => 0
  }

  /** The same for everything that still goes on around the client. */
  function ClientStepsLeft(q: Queue, c: Client): int {
    5 * StepsLeft(q, c)
    + (match c.sender
       case SWrite(_) => 3
       case SReceive => 2
       case SLeave => 1
       case SGone => 0)
    + (if c.quit then 0 else 1)
  }

  /** Every step of a client but a failing read uses one of the steps it has left. */
  lemma ClientProgresses(s: System, i: nat, a: ClientAction)
    requires SystemOk(s) && !a.ReadError? && Possible(s, ByClient(i, a))
    ensures var s' := Do(s, ByClient(i, a));
            s'.panicked || 0 <= ClientStepsLeft(s.q, s'.clients[i]) < ClientStepsLeft(s.q, s.clients[i])
  {
    var c := s.clients[i];
    assert ClientOk(s.q, c);
    if !Panics(s.q, c, a) {
      if ByListener(a) { ListenerStepProgresses(s.q, c, a); } else { OtherStepProgresses(s.q, c, a); }
    }
  }

  /** How many moves of client i are among ms, apart from the failing of its read. */
  function OwnMoves(ms: seq<Move>, i: nat): nat {
    if ms == [] then 0
    else OwnMoves(ms[1..], i) + if ms[0].ByClient? && ms[0].i == i && !ms[0].c.ReadError? then 1 else 0
  }

  lemma {:induction false} NewestGrows(s: System, ms: seq<Move>)
    requires SystemOk(s) && AllPossible(s, ms)
    ensures DoAll(s, ms).q.newest >= s.q.newest
    decreases ms
  {
    if ms != [] {
      DoKeepsOk(s, ms[0]);
      if ms[0].ByAppender? { ApplyGrows(s.q, ms[0].a); }
      NewestGrows(Do(s, ms[0]), ms[1..]);
    }
  }

  lemma StepsLeftNotNegative(q: Queue, c: Client)
    requires Inv(q) && ClientOk(q, c)
    ensures ClientStepsLeft(q, c) >= 0
  {
  }

  lemma MoveUsesStep(s: System, m: Move, i: nat)
    requires SystemOk(s) && Possible(s, m) && i < |s.clients| && Do(s, m).q.newest == s.q.newest
    ensures |Do(s, m).clients| == |s.clients|
    ensures Do(s, m).panicked ==> ClientStepsLeft(s.q, s.clients[i]) >= OwnMoves([m], i)
    ensures !Do(s, m).panicked ==>
              OwnMoves([m], i) + ClientStepsLeft(Do(s, m).q, Do(s, m).clients[i]) <= ClientStepsLeft(s.q, s.clients[i])
  {
    StepsLeftNotNegative(s.q, s.clients[i]);
    if m.ByClient? && m.i == i {
      if !m.c.ReadError? { ClientProgresses(s, i, m.c); }
    } else {
      OthersUseNothing(s, m, i);
    }
  }

  lemma OthersUseNothing(s: System, m: Move, i: nat)
    requires Possible(s, m) && i < |s.clients| && (m.ByClient? ==> m.i != i)
    requires Do(s, m).q.newest == s.q.newest
    ensures |Do(s, m).clients| == |s.clients| && OwnMoves([m], i) == 0
    ensures ClientStepsLeft(Do(s, m).q, Do(s, m).clients[i]) == ClientStepsLeft(s.q, s.clients[i])
  {
  }

  /** In any run in which nothing is claimed, a client makes at most the moves it had left at the
      start: it comes to rest. */
  lemma {:induction false} ComesToRest(s: System, ms: seq<Move>, i: nat)
    requires SystemOk(s) && AllPossible(s, ms) && i < |s.clients|
    requires DoAll(s, ms).q.newest == s.q.newest
    ensures OwnMoves(ms, i) <= ClientStepsLeft(s.q, s.clients[i])
    decreases ms
  {
    StepsLeftNotNegative(s.q, s.clients[i]);
    if ms != [] {
      var m, rest := ms[0], ms[1..];
      var s' := Do(s, m);
      DoKeepsOk(s, m);
      if m.ByAppender? { ApplyGrows(s.q, m.a); }
      NewestGrows(s', rest);
      MoveUsesStep(s, m, i);
      if s'.panicked {
        assert rest == [];
      } else {
        ComesToRest(s', rest, i);
      }
    }
  }

  lemma ListenerStepProgresses(q: Queue, c: Client, a: ClientAction)
    requires Inv(q) && ClientOk(q, c) && CanAct(q, c, a) && ByListener(a) && !Panics(q, c, a)
    ensures 0 <= StepsLeft(q, Act(q, c, a)) < StepsLeft(q, c)
    ensures 0 <= ClientStepsLeft(q, Act(q, c, a)) < ClientStepsLeft(q, c)
  {
    if c.listener.LNext? { assert EntryOk(q, c.listener.e); }
  }

  lemma OtherStepProgresses(q: Queue, c: Client, a: ClientAction)
    requires Inv(q) && ClientOk(q, c) && CanAct(q, c, a) && !ByListener(a) && !a.ReadError?
    ensures 0 <= ClientStepsLeft(q, Act(q, c, a)) < ClientStepsLeft(q, c)
  {
  }

  /** A listener never panics on a nil message, and on a nil entry only if it started when
      `oldest` had run off the list. */
  lemma OnlyNilOldestPanics(s: System, i: nat, a: ClientAction)
    requires SystemReachable(s) && Possible(s, ByClient(i, a))
    ensures Do(s, ByClient(i, a)).panicked ==>
              s.q.oldest == Nil && s.clients[i].delivered == [] && s.clients[i].listener == LTop(Nil)
  {
    ReachableIsOk(s);
    var c := s.clients[i];
    assert ClientOk(s.q, c);
    if c.listener.LWait? { assert EntryOk(s.q, c.listener.e); }
  }

  /** The messages written to the connection without an error. */
  function Written(c: Client): seq<Msg> {
    if c.failed && c.attempted != [] then c.attempted[..|c.attempted| - 1] else c.attempted
  }

  /** End to end: what is written to a connection is a slice of the log starting where its
      listener started, at most one message behind the listener; and after an error the sender
      is on its way out. */
  lemma WritesASlice(s: System, i: nat)
    requires SystemReachable(s) && i < |s.clients|
    ensures var c := s.clients[i];
            && Written(c) <= c.delivered
            && |c.delivered| <= |Written(c)| + 1
            && (Written(c) != [] ==>
                  c.start + |Written(c)| <= |s.q.log|
                  && Written(c) == s.q.log[c.start..c.start + |Written(c)|])
            && (c.failed ==> c.sender.SLeave? || c.sender.SGone?)
  {
    ReachableIsOk(s);
    var c := s.clients[i];
    assert ClientOk(s.q, c);
    if Written(c) != [] {
      assert Written(c) == c.delivered[..|Written(c)|];
    }
  }

  /** Any two clients agree on every position of the log that both were sent. */
  lemma ClientsAgree(s: System, i: nat, j: nat, k: nat)
    requires SystemReachable(s) && i < |s.clients| && j < |s.clients|
    requires s.clients[i].start <= k < s.clients[i].start + |Written(s.clients[i])|
    requires s.clients[j].start <= k < s.clients[j].start + |Written(s.clients[j])|
    ensures Written(s.clients[i])[k - s.clients[i].start] == Written(s.clients[j])[k - s.clients[j].start]
    ensures k < |s.q.log| && Written(s.clients[i])[k - s.clients[i].start] == s.q.log[k]
  {
    WritesASlice(s, i);
    WritesASlice(s, j);
  }

  /** The sender makes no further write after an error, in any continuation of the run. */
  lemma {:induction false} NoWriteAfterError(s: System, ms: seq<Move>, i: nat)
    requires SystemOk(s) && AllPossible(s, ms) && i < |s.clients| && s.clients[i].failed
    ensures |DoAll(s, ms).clients| == |s.clients|
    ensures DoAll(s, ms).clients[i].failed
    ensures DoAll(s, ms).clients[i].attempted == s.clients[i].attempted
    decreases ms
  {
    if ms != [] {
      assert ClientOk(s.q, s.clients[i]);
      DoKeepsOk(s, ms[0]);
      NoWriteAfterError(Do(s, ms[0]), ms[1..], i);
    }
  }

  /** A client that can do nothing but fail a read: its sender is gone exactly if a write failed
      or the listener was cut off as out of sync. Then the client is closed and told to quit; and
      after a failed write its listener will hand over nothing more. Any other sender is waiting
      for a message. */
  lemma ShutsDown(s: System, i: nat)
    requires SystemReachable(s) && i < |s.clients| && !s.panicked && !s.q.crashed
    requires forall a: ClientAction :: !a.ReadError? ==> !Possible(s, ByClient(i, a))
    ensures var c := s.clients[i];
            && (c.sender.SGone? <==> c.failed || c.listener.LClosed?)
            && (!c.sender.SGone? ==> c.sender.SReceive?)
            && (c.sender.SGone? ==> c.closed && c.quit)
            && (c.failed ==> c.listener.LQuit? || c.listener.LClosed? || c.listener.LWait?)
  {
    ReachableIsOk(s);
    var c := s.clients[i];
    assert ClientOk(s.q, c);
    assert !Possible(s, ByClient(i, Leave)) && !Possible(s, ByClient(i, Watch))
        && !Possible(s, ByClient(i, ChannelClosed)) && !Possible(s, ByClient(i, WriteOk));
    assert !Possible(s, ByClient(i, Listen)) && !Possible(s, ByClient(i, Top))
        && !Possible(s, ByClient(i, SeeQuit)) && !Possible(s, ByClient(i, Follow));
  }

  // ----- senders that are left behind -----

  ghost predicate Continues(s: System, s': System) {
    exists ms :: AllPossible(s, ms) && DoAll(s, ms) == s'
  }

  lemma {:induction false} DoAllConcat(s: System, a: seq<Move>, b: seq<Move>)
    requires AllPossible(s, a) && AllPossible(DoAll(s, a), b)
    ensures AllPossible(s, a + b) && DoAll(s, a + b) == DoAll(DoAll(s, a), b)
    decreases a
  {
    if a == [] {
      assert a + b == b;
    } else {
      var all, rest := a + b, a[1..];
      assert all[0] == a[0] && all[1..] == rest + b;
      DoAllConcat(Do(s, a[0]), rest, b);
    }
  }

  lemma ContinuesNowhere(s: System)
    ensures Continues(s, s)
  {
    assert AllPossible(s, []) && DoAll(s, []) == s;
  }

  lemma ContinuesOn(s: System, s1: System, s2: System)
    requires Continues(s, s1) && Continues(s1, s2)
    ensures Continues(s, s2)
  {
    var a :| AllPossible(s, a) && DoAll(s, a) == s1;
    var b :| AllPossible(s1, b) && DoAll(s1, b) == s2;
    DoAllConcat(s, a, b);
  }

  lemma ContinuesBy(s: System, s': System, m: Move)
    requires Continues(s, s') && Possible(s', m)
    ensures Continues(s, Do(s', m))
  {
    var ms := [m];
    assert ms[1..] == [] && AllPossible(Do(s', m), []);
    assert AllPossible(s', ms) && DoAll(s', ms) == Do(s', m);
    ContinuesOn(s, s', Do(s', m));
  }

  /** What the appenders can do, they can do beside the clients. */
  lemma {:induction false} AppendersContinue(s: System, acts: seq<Action>)
    requires !s.panicked && Legal(Fine, s.q, acts)
    ensures Continues(s, s.(q := Run(Fine, s.q, acts)))
    decreases acts
  {
    ContinuesNowhere(s);
    if acts != [] {
      var s' := Do(s, ByAppender(acts[0]));
      ContinuesBy(s, s, ByAppender(acts[0]));
      AppendersContinue(s', acts[1..]);
      ContinuesOn(s, s', s.(q := Run(Fine, s.q, acts)));
    }
  }

  lemma LeadsContinues(s: System, r: Queue, limit: int)
    requires !s.panicked && Runs.Leads(Fine, s.q, r, limit)
    ensures Continues(s, s.(q := r))
  {
    var acts :| Legal(Fine, s.q, acts) && Run(Fine, s.q, acts) == r;
    AppendersContinue(s, acts);
  }

  /** Goroutine 0 appends m and gets to its first look at the guard. */
  lemma AppendContinues(s: System, m: Msg) returns (s': System)
    requires Inv(s.q) && !s.panicked && !s.q.crashed && |s.q.threads| >= 1 && s.q.threads[0].Idle?
    ensures Continues(s, s') && s' == s.(q := Runs.Appended(s.q, 0, m))
    ensures At(s'.q, s.q.newest) == Entry(Node(s.q.newest + 1), Some(m), 0)
  {
    var limit := SizeOf(s.q.overhead, m);
    Runs.AppendRun(Fine, s.q, 0, m, limit);
    s' := s.(q := Runs.Appended(s.q, 0, m));
    LeadsContinues(s, s'.q, limit);
  }

  /** The sender waits on a channel that nobody will close or send on. */
  predicate LeftBehind(s: System, i: nat) {
    i < |s.clients| && s.clients[i].listener.LQuit? && s.clients[i].sender.SReceive?
  }

  lemma {:induction false} LeftForGood(s: System, ms: seq<Move>, i: nat)
    requires LeftBehind(s, i) && AllPossible(s, ms)
    ensures LeftBehind(DoAll(s, ms), i)
    decreases ms
  {
    if ms != [] {
      LeftForGood(Do(s, ms[0]), ms[1..], i);
    }
  }

  /** The read of a client can fail at any time, and its quit signal be given, and nothing else
      changes. */
  lemma ReadCanFail(s: System, i: nat) returns (s': System)
    requires i < |s.clients| && !s.panicked && !s.q.crashed
    ensures Continues(s, s')
    ensures s' == s.(clients := s.clients[i := s.clients[i].(closed := true, quit := true)])
  {
    ContinuesNowhere(s);
    s' := s;
    if !s'.clients[i].closed {
      ContinuesBy(s, s', ByClient(i, ReadError));
      s' := Do(s', ByClient(i, ReadError));
    }
    if !s'.clients[i].quit {
      ContinuesBy(s, s', ByClient(i, Watch));
      s' := Do(s', ByClient(i, Watch));
    }
  }

  /** A listener with a message to hand over can end instead, whatever its sender is doing: a read
      fails first and the listener sees the quit signal. A sender that waits is left behind. */
  lemma QuitLeavesSender(s: System, i: nat) returns (s': System)
    requires i < |s.clients| && !s.panicked && !s.q.crashed && s.clients[i].listener.LSend?
    ensures Continues(s, s')
    ensures s' == s.(clients := s.clients[i := s.clients[i].(listener := LQuit, closed := true, quit := true)])
    ensures s.clients[i].sender.SReceive? ==> LeftBehind(s', i)
  {
    var s1 := ReadCanFail(s, i);
    ContinuesBy(s, s1, ByClient(i, SeeQuit));
    s' := Do(s1, ByClient(i, SeeQuit));
  }

  /** In every room one appender and one client are enough for that. */
  lemma SenderIsLeftBehind(overhead: int, maxsize: int, threads: nat, clients: nat, i: nat) returns (s: System)
    requires threads >= 1 && i < clients
    ensures Continues(Start(overhead, maxsize, threads, clients), s) && LeftBehind(s, i)
  {
    var init := Start(overhead, maxsize, threads, clients);
    InvInit(overhead, maxsize, threads);
    ContinuesNowhere(init);
    ContinuesBy(init, init, ByClient(i, Listen));
    var s1 := Do(init, ByClient(i, Listen));
    ContinuesBy(init, s1, ByClient(i, Top));
    var s2 := Do(s1, ByClient(i, Top));
    var s3 := AppendContinues(s2, []);
    ContinuesOn(init, s2, s3);
    ContinuesBy(init, s3, ByClient(i, Ready));
    var s4 := Do(s3, ByClient(i, Ready));
    s := QuitLeavesSender(s4, i);
    ContinuesOn(init, s4, s);
  }

  ghost predicate WaitsForever(s: System, i: nat) {
    forall s' :: Continues(s, s') ==> i < |s'.clients| && s'.clients[i].sender.SReceive?
  }

  /** At rest a sender will wait forever exactly if its listener has quit: one whose listener
      stands at the end of the list gets the next message that is appended. */
  lemma WaitsForeverIffQuit(s: System, i: nat)
    requires SystemReachable(s) && i < |s.clients| && !s.panicked && !s.q.crashed
    requires forall a: ClientAction :: !a.ReadError? ==> !Possible(s, ByClient(i, a))
    requires |s.q.threads| >= 1 && forall t: nat :: t < |s.q.threads| ==> s.q.threads[t].Idle?
    ensures WaitsForever(s, i) <==> LeftBehind(s, i)
  {
    ContinuesNowhere(s);
    if LeftBehind(s, i) {
      forall s' | Continues(s, s') ensures i < |s'.clients| && s'.clients[i].sender.SReceive? {
        var ms :| AllPossible(s, ms) && DoAll(s, ms) == s';
        LeftForGood(s, ms, i);
      }
    } else if s.clients[i].sender.SReceive? {
      WaitsAtEnd(s, i);
      var s1 := AppendContinues(s, []);
      ContinuesBy(s, s1, ByClient(i, Ready));
      var s2 := Do(s1, ByClient(i, Ready));
      ContinuesBy(s, s2, ByClient(i, Deliver));
      assert Do(s2, ByClient(i, Deliver)).clients[i].sender.SWrite?;
    }
  }

  lemma WaitsAtEnd(s: System, i: nat)
    requires SystemReachable(s) && i < |s.clients| && !s.panicked && !s.q.crashed
    requires forall a: ClientAction :: !a.ReadError? ==> !Possible(s, ByClient(i, a))
    requires forall t: nat :: t < |s.q.threads| ==> s.q.threads[t].Idle?
    requires s.clients[i].sender.SReceive? && !s.clients[i].listener.LQuit?
    ensures Inv(s.q) && s.clients[i].listener == LWait(s.q.newest)
  {
    ReachableIsOk(s);
    var c := s.clients[i];
    assert ClientOk(s.q, c);
    assert !Possible(s, ByClient(i, Listen)) && !Possible(s, ByClient(i, Top)) && !Possible(s, ByClient(i, Ready))
        && !Possible(s, ByClient(i, Deliver)) && !Possible(s, ByClient(i, Follow))
        && !Possible(s, ByClient(i, ChannelClosed));
    assert EntryOk(s.q, c.listener.e);
  }

  // ----- what a client can always do -----

  /** A sender with a message in hand can write it ... */
  lemma WriteCanSucceed(s: System, i: nat) returns (s': System)
    requires SystemReachable(s) && i < |s.clients| && !s.panicked && !s.q.crashed && s.clients[i].sender.SWrite?
    ensures Continues(s, s') && |s'.clients| == |s.clients|
    ensures var c, c' := s.clients[i], s'.clients[i];
            && Written(c') == c'.delivered == c.delivered && !c'.failed
            && c' == c.(sender := SReceive, attempted := c.delivered)
  {
    ReachableIsOk(s);
    assert ClientOk(s.q, s.clients[i]);
    ContinuesNowhere(s);
    ContinuesBy(s, s, ByClient(i, WriteOk));
    s' := Do(s, ByClient(i, WriteOk));
  }

  /** ... or fail to, whether or not its read side is fine; then it goes away and closes the client. */
  lemma WriteCanFail(s: System, i: nat) returns (s': System)
    requires SystemReachable(s) && i < |s.clients| && !s.panicked && !s.q.crashed && s.clients[i].sender.SWrite?
    ensures Continues(s, s') && |s'.clients| == |s.clients|
    ensures var c, c' := s.clients[i], s'.clients[i];
            && Written(c') == Written(c) && c'.failed && c'.sender.SGone? && c'.closed
            && c' == c.(sender := SGone, attempted := c.delivered, failed := true, closed := true)
  {
    ReachableIsOk(s);
    assert ClientOk(s.q, s.clients[i]);
    ContinuesNowhere(s);
    ContinuesBy(s, s, ByClient(i, WriteErr));
    var s1 := Do(s, ByClient(i, WriteErr));
    ContinuesBy(s, s1, ByClient(i, Leave));
    s' := Do(s1, ByClient(i, Leave));
  }

  /** Nothing but the listener of client i has moved, and nothing has been handed over. */
  predicate OnlyListener(s: System, s': System, i: nat) {
    && i < |s.clients| == |s'.clients|
    && s' == s.(clients := s.clients[i := s'.clients[i]], panicked := s'.panicked)
    && s'.clients[i] == s.clients[i].(listener := s'.clients[i].listener, start := s'.clients[i].start)
  }

  /** At the select, on an entry that is not done, or at an end. */
  predicate AtSelect(q: Queue, l: ListenerState) {
    l.LSend? || l.LClosed? || l.LQuit? || (l.LWait? && At(q, l.e).valid != 0)
  }

  function ToSelect(l: ListenerState): ClientAction {
    match l
    case LStart => Listen
    case LNext(_) => Follow
    case LTop(_) => Top
    case _ => Ready
  }

  lemma ListenerMoves(s: System, i: nat) returns (s': System)
    requires SystemOk(s) && i < |s.clients| && !s.panicked && !s.q.crashed
    requires !AtSelect(s.q, s.clients[i].listener)
    ensures Continues(s, s') && SystemOk(s') && OnlyListener(s, s', i)
    ensures s'.panicked ==> s.q.oldest.Nil?
    ensures !s'.panicked ==> 0 <= StepsLeft(s'.q, s'.clients[i]) < StepsLeft(s.q, s.clients[i])
  {
    var c := s.clients[i];
    var m := ByClient(i, ToSelect(c.listener));
    assert ClientOk(s.q, c);
    if c.listener.LWait? { assert EntryOk(s.q, c.listener.e); }
    ContinuesNowhere(s);
    ContinuesBy(s, s, m);
    DoKeepsOk(s, m);
    s' := Do(s, m);
    if !s'.panicked { ListenerStepProgresses(s.q, c, m.c); }
  }

  lemma StepsNotNegative(q: Queue, c: Client)
    requires Inv(q) && ClientOk(q, c)
    ensures StepsLeft(q, c) >= 0
  {
  }

  /** Whatever its sender is doing, a listener gets by moves of its own to its select, to an entry
      that is not done yet, or to an end. */
  lemma {:induction false} ListenerRuns(s: System, i: nat) returns (s': System)
    requires SystemOk(s) && i < |s.clients| && !s.panicked && !s.q.crashed
    ensures Continues(s, s') && OnlyListener(s, s', i)
    ensures if s'.panicked then s.q.oldest.Nil? else AtSelect(s'.q, s'.clients[i].listener)
    decreases StepsLeft(s.q, s.clients[i])
  {
    ContinuesNowhere(s);
    s' := s;
    if !AtSelect(s.q, s.clients[i].listener) {
      StepsNotNegative(s.q, s.clients[i]);
      var next := ListenerMoves(s, i);
      s' := next;
      if !next.panicked {
        s' := ListenerRuns(next, i);
        ContinuesOn(s, next, s');
      }
    }
  }

  /** The sender of a listener that was cut off goes away and closes the client. */
  lemma CutOffSenderLeaves(s: System, i: nat) returns (s': System)
    requires i < |s.clients| && !s.panicked && !s.q.crashed
    requires s.clients[i].listener.LClosed? && s.clients[i].sender.SReceive?
    ensures Continues(s, s')
    ensures s' == s.(clients := s.clients[i := s.clients[i].(sender := SGone, closed := true)])
  {
    ContinuesNowhere(s);
    ContinuesBy(s, s, ByClient(i, ChannelClosed));
    var s1 := Do(s, ByClient(i, ChannelClosed));
    ContinuesBy(s, s1, ByClient(i, Leave));
    s' := Do(s1, ByClient(i, Leave));
  }

  /** Everything that this client can get at the moment has been written to it. */
  predicate CaughtUp(q: Queue, c: Client) {
    && c.sender.SReceive? && !c.failed && Written(c) == c.delivered
    && (c.listener.LClosed? || (c.listener.LWait? && At(q, c.listener.e).valid != 0))
  }

  /** The move that brings a client nearer to that. */
  function Onwards(q: Queue, c: Client): ClientAction {
    if c.sender.SWrite? then WriteOk
    else match c.listener
      case LStart => Listen
      case LTop(_) => Top
      case LWait(_) => Ready
      case LSend(_) => Deliver
      case _ => Follow
  }

  /** Only client i has moved, and only forwards; its connection is as it was. */
  predicate OnlyForwards(s: System, s': System, i: nat) {
    && i < |s.clients| == |s'.clients|
    && s' == s.(clients := s.clients[i := s'.clients[i]], panicked := s'.panicked)
    && s.clients[i].delivered <= s'.clients[i].delivered
    && s'.clients[i].closed == s.clients[i].closed && s'.clients[i].quit == s.clients[i].quit
    && (!s.clients[i].listener.LStart? ==> s'.clients[i].start == s.clients[i].start)
  }

  predicate AtWork(c: Client) {
    (c.sender.SReceive? || c.sender.SWrite?) && !c.listener.LQuit?
  }

  lemma MovesOnwards(s: System, i: nat)
    requires SystemOk(s) && i < |s.clients| && !s.panicked && !s.q.crashed
    requires AtWork(s.clients[i]) && !CaughtUp(s.q, s.clients[i])
    ensures var m := ByClient(i, Onwards(s.q, s.clients[i]));
            && Possible(s, m) && !m.c.ReadError? && OnlyForwards(s, Do(s, m), i)
            && if Do(s, m).panicked then s.q.oldest.Nil? else AtWork(Do(s, m).clients[i])
  {
    var c := s.clients[i];
    assert ClientOk(s.q, c);
    if c.listener.LWait? { assert EntryOk(s.q, c.listener.e); }
  }

  lemma ForwardsOn(s: System, s1: System, s2: System, i: nat)
    requires OnlyForwards(s, s1, i) && OnlyForwards(s1, s2, i)
    requires !s.clients[i].listener.LStart? ==> !s1.clients[i].listener.LStart?
    ensures OnlyForwards(s, s2, i)
  {
  }

  /** From every state in which its sender is at work, a client whose listener has not quit can
      catch up, by moves of its own: with the end of the list, or with the entry at which it is
      cut off. A process that ends here had no `oldest` to start from. */
  lemma {:induction false} CatchesUp(s: System, i: nat) returns (s': System)
    requires SystemOk(s) && i < |s.clients| && !s.panicked && !s.q.crashed && AtWork(s.clients[i])
    ensures Continues(s, s') && OnlyForwards(s, s', i)
    ensures if s'.panicked then s.q.oldest.Nil? else CaughtUp(s'.q, s'.clients[i])
    decreases ClientStepsLeft(s.q, s.clients[i])
  {
    ContinuesNowhere(s);
    if CaughtUp(s.q, s.clients[i]) {
      s' := s;
    } else {
      var m := ByClient(i, Onwards(s.q, s.clients[i]));
      MovesOnwards(s, i);
      ContinuesBy(s, s, m);
      s' := Do(s, m);
      if !s'.panicked {
        var next := s';
        MovesNearer(s, i, next);
        s' := CatchesUp(next, i);
        ContinuesOn(s, next, s');
        ForwardsOn(s, next, s', i);
      }
    }
  }

  lemma MovesNearer(s: System, i: nat, next: System)
    requires SystemOk(s) && i < |s.clients|
    requires var a := Onwards(s.q, s.clients[i]);
             Possible(s, ByClient(i, a)) && !a.ReadError? && next == Do(s, ByClient(i, a)) && !next.panicked
    ensures SystemOk(next) && |next.clients| == |s.clients| && !next.clients[i].listener.LStart?
    ensures 0 <= ClientStepsLeft(next.q, next.clients[i]) < ClientStepsLeft(s.q, s.clients[i])
  {
    var m := ByClient(i, Onwards(s.q, s.clients[i]));
    DoKeepsOk(s, m);
    ClientProgresses(s, i, m.c);
  }

  /** A listener on the unfilled entry, told to quit or not, stays there until the entry has been
      claimed. */
  lemma {:induction false} BlockedAtEnd(s: System, ms: seq<Move>, i: nat)
    requires SystemOk(s) && AllPossible(s, ms) && i < |s.clients|
    requires s.clients[i].listener == LWait(s.q.newest) && DoAll(s, ms).q.newest == s.q.newest
    ensures var s' := DoAll(s, ms);
            && |s'.clients| == |s.clients| && s'.clients[i].listener == s.clients[i].listener
            && s'.clients[i].delivered == s.clients[i].delivered
    decreases ms
  {
    if ms != [] {
      var m, rest := ms[0], ms[1..];
      var s' := Do(s, m);
      DoKeepsOk(s, m);
      if m.ByAppender? { ApplyGrows(s.q, m.a); }
      NewestGrows(s', rest);
      assert EntryOk(s.q, s.q.newest);
      assert s'.clients[i].listener == s.clients[i].listener && s'.clients[i].delivered == s.clients[i].delivered;
      BlockedAtEnd(s', rest, i);
    }
  }

  // ----- any number of messages to a connection -----

  /** Everybody has returned, the books are in order, and client i has been written the whole log. */
  predicate Served(s: System, i: nat, log: seq<Msg>) {
    && SystemOk(s) && !s.panicked && !s.q.crashed && i < |s.clients|
    && Ledger.RemoversExist(s.q) && Ledger.Balanced(s.q) && Ledger.Excess(s.q) == 0
    && s.q.oldest.Node? && s.q.maxsize >= 0 && |s.q.threads| >= 1
    && (forall t: nat :: t < |s.q.threads| ==> s.q.threads[t].Idle?)
    && s.q.log == log
    && s.clients[i] == NEW_CLIENT.(listener := LWait(|log|), delivered := log, attempted := log)
  }

  /** One more message m has been appended and handed over; goroutine 0 has yet to trim. */
  predicate InHand(s: System, i: nat, log: seq<Msg>, m: Msg) {
    && SystemOk(s) && !s.panicked && !s.q.crashed && i < |s.clients|
    && Ledger.RemoversExist(s.q) && Ledger.Balanced(s.q) && Ledger.Excess(s.q) == 0
    && s.q.oldest.Node? && s.q.maxsize >= 0 && |s.q.threads| >= 1
    && s.q.threads[0] == Guard(|log|) && (forall t: nat :: 0 < t < |s.q.threads| ==> s.q.threads[t].Idle?)
    && s.q.log == log + [m] && At(s.q, |log|).next == Node(|log| + 1)
    && s.clients[i] == NEW_CLIENT.(listener := LNext(|log|), sender := SWrite(m), delivered := log + [m],
                                   attempted := log)
  }

  lemma ContinuesOk(s: System, s': System)
    requires SystemOk(s) && Continues(s, s')
    ensures SystemOk(s')
  {
    var ms :| AllPossible(s, ms) && DoAll(s, ms) == s';
    DoAllKeepsOk(s, ms);
  }

  lemma StartsServed(overhead: int, maxsize: int, threads: nat, clients: nat, i: nat) returns (s: System)
    requires overhead > 0 && maxsize >= 0 && threads >= 1 && i < clients
    ensures Continues(Start(overhead, maxsize, threads, clients), s) && Served(s, i, [])
  {
    var init := Start(overhead, maxsize, threads, clients);
    Ledger.InitIsBalanced(overhead, maxsize, threads);
    ContinuesNowhere(init);
    ContinuesBy(init, init, ByClient(i, Listen));
    var s1 := Do(init, ByClient(i, Listen));
    ContinuesBy(init, s1, ByClient(i, Top));
    s := Do(s1, ByClient(i, Top));
    ContinuesOk(init, s);
  }

  lemma HandsOver(s: System, i: nat, log: seq<Msg>, m: Msg) returns (s': System)
    requires Served(s, i, log)
    ensures Continues(s, s') && InHand(s', i, log, m)
  {
    Drift.AppendKeepsBooks(s.q, m, SizeOf(s.q.overhead, m));
    var s1 := AppendContinues(s, m);
    ContinuesBy(s, s1, ByClient(i, Ready));
    var s2 := Do(s1, ByClient(i, Ready));
    ContinuesBy(s, s2, ByClient(i, Deliver));
    s' := Do(s2, ByClient(i, Deliver));
    ContinuesOk(s, s');
  }

  lemma MovesToEnd(s: System, i: nat, log: seq<Msg>, m: Msg) returns (s': System)
    requires InHand(s, i, log, m)
    ensures Continues(s, s') && |s'.clients| == |s.clients| && s' == s.(clients := s'.clients)
    ensures s'.clients[i]
         == NEW_CLIENT.(listener := LWait(|log| + 1), delivered := log + [m], attempted := log + [m])
  {
    ContinuesNowhere(s);
    ContinuesBy(s, s, ByClient(i, WriteOk));
    var s1 := Do(s, ByClient(i, WriteOk));
    ContinuesBy(s, s1, ByClient(i, Follow));
    var s2 := Do(s1, ByClient(i, Follow));
    ContinuesBy(s, s2, ByClient(i, Top));
    s' := Do(s2, ByClient(i, Top));
  }

  lemma WritesOn(s: System, i: nat, log: seq<Msg>, m: Msg) returns (s': System)
    requires InHand(s, i, log, m)
    ensures Continues(s, s') && Served(s', i, log + [m])
  {
    var s1 := MovesToEnd(s, i, log, m);
    var r := Drift.FirstTrims(s.q, |log|, 0);
    LeadsContinues(s1, r, 0);
    s' := s1.(q := r);
    ContinuesOn(s, s1, s');
    ContinuesOk(s, s');
  }

  lemma FailsInHand(s: System, i: nat, log: seq<Msg>, m: Msg) returns (s': System)
    requires InHand(s, i, log, m)
    ensures Continues(s, s') && |s'.clients| == |s.clients| && s'.q == s.q
    ensures s'.clients[i] == s.clients[i].(sender := SGone, attempted := log + [m], failed := true, closed := true)
  {
    ContinuesNowhere(s);
    ContinuesBy(s, s, ByClient(i, WriteErr));
    var s1 := Do(s, ByClient(i, WriteErr));
    ContinuesBy(s, s1, ByClient(i, Leave));
    s' := Do(s1, ByClient(i, Leave));
  }

  lemma FailsNext(s: System, i: nat, log: seq<Msg>, m: Msg) returns (s': System)
    requires Served(s, i, log)
    ensures Continues(s, s') && |s'.clients| > i && s'.q.log == log + [m]
    ensures var c := s'.clients[i];
            Written(c) == log && c.attempted == log + [m] && c.failed && c.closed && c.sender.SGone?
  {
    var s1 := HandsOver(s, i, log, m);
    s' := FailsInHand(s1, i, log, m);
    ContinuesOn(s, s1, s');
    assert (log + [m])[..|log|] == log;
  }

  lemma ServesOne(s: System, i: nat, log: seq<Msg>, m: Msg) returns (s': System)
    requires Served(s, i, log)
    ensures Continues(s, s') && Served(s', i, log + [m])
  {
    var s1 := HandsOver(s, i, log, m);
    s' := WritesOn(s1, i, log, m);
    ContinuesOn(s, s1, s');
  }

  lemma {:induction false} ServesAll(s: System, i: nat, log: seq<Msg>, more: seq<Msg>) returns (s': System)
    requires Served(s, i, log)
    ensures Continues(s, s') && Served(s', i, log + more)
    decreases more
  {
    if more == [] {
      ContinuesNowhere(s);
      s' := s;
      assert log + more == log;
    } else {
      var first, rest := log + [more[0]], more[1..];
      assert first + rest == log + more;
      var s1 := ServesOne(s, i, log, more[0]);
      s' := ServesAll(s1, i, first, rest);
      ContinuesOn(s, s1, s');
    }
  }

  lemma StartServes(overhead: int, maxsize: int, threads: nat, clients: nat, i: nat, log: seq<Msg>)
    returns (s: System)
    requires overhead > 0 && maxsize >= 0 && threads >= 1 && i < clients
    ensures Continues(Start(overhead, maxsize, threads, clients), s) && Served(s, i, log)
  {
    var s1 := StartsServed(overhead, maxsize, threads, clients, i);
    s := ServesAll(s1, i, [], log);
    ContinuesOn(Start(overhead, maxsize, threads, clients), s1, s);
    assert [] + log == log;
  }

  /** Whatever is sent, in every room with a limit from 0 on, a run writes all of it to client i ... */
  lemma AllIsWritten(overhead: int, maxsize: int, threads: nat, clients: nat, i: nat, log: seq<Msg>)
    returns (s: System)
    requires overhead > 0 && maxsize >= 0 && threads >= 1 && i < clients
    ensures Continues(Start(overhead, maxsize, threads, clients), s) && |s.clients| > i
    ensures s.q.log == log == Written(s.clients[i]) && !s.clients[i].failed && !s.clients[i].closed
  {
    s := StartServes(overhead, maxsize, threads, clients, i, log);
  }

  /** ... and another one writes all but the last message, fails at that one, and closes the client. */
  lemma LastWriteFails(overhead: int, maxsize: int, threads: nat, clients: nat, i: nat, log: seq<Msg>)
    returns (s: System)
    requires overhead > 0 && maxsize >= 0 && threads >= 1 && i < clients && log != []
    ensures Continues(Start(overhead, maxsize, threads, clients), s) && |s.clients| > i
    ensures var c := s.clients[i];
            && s.q.log == log && Written(c) == log[..|log| - 1] && c.attempted == log
            && c.failed && c.closed && c.sender.SGone?
  {
    var init, first, m := Start(overhead, maxsize, threads, clients), log[..|log| - 1], log[|log| - 1];
    var s1 := StartServes(overhead, maxsize, threads, clients, i, first);
    s := FailsNext(s1, i, first, m);
    ContinuesOn(init, s1, s);
    assert first + [m] == log;
  }
}
