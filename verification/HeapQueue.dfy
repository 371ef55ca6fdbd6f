/** hub/messagequeue.go over real nodes: Append and trim run one at a time, listeners hold on to
    nodes and step between them. */
module HeapQueue {
  import opened Backlog
  import opened SafeVals

  class QueueEntry {
    var next: QueueEntry?
    var msg: Option<Msg>  // None is Go's nil slice
    var valid: int  // the counter of the WaitGroup
    ghost const place: nat  // its index in the history; keeps the nodes apart

    constructor (ghost place: nat)
      ensures next == null && msg == None && valid == 1 && this.place == place
    {
      next, msg, valid := null, None, 1;
      this.place := place;
    }

    function Size(overhead: int): int
      reads this
    {
      match msg
      case None => overhead
      case Some(m) => SizeOf(overhead, m)
    }
  }

  class MessageQueue {
    const overhead: int
    const maxsize: int64
    const staleEntry: QueueEntry
    const oldest: SafePointer<QueueEntry?>
    const newest: SafePointer<QueueEntry?>
    const size: SafeInt64

    ghost var history: seq<Msg>  // every message ever appended
    ghost var nodes: seq<QueueEntry>  // the entry of each of them, and the empty one after
    ghost var base: nat  // how many of them have been trimmed

    /** Linked, but only the first `ready` entries have been marked done. */
    ghost predicate LinkedUpTo(ready: nat)
      reads this, nodes, oldest, newest, staleEntry
    {
      Chained(ready, base)
    }

    /** `oldest` has moved on to entry `first`, whatever has been marked as trimmed. */
    ghost predicate LinkedFrom(first: nat)
      reads this, nodes, oldest, newest, staleEntry
    {
      Chained(|history|, first)
    }

    /** The nodes spell out the history, except that trimmed ones point to the stale marker; the
        first `ready` of them have been marked done, and `oldest` is entry `first`. */
    ghost predicate Chained(ready: nat, first: nat)
      reads this, nodes, oldest, newest, staleEntry
    {
      && oldest != newest
      && |nodes| == |history| + 1 && base <= first <= |history|
      && (forall i {:trigger nodes[i]} :: 0 <= i < |nodes| ==> nodes[i].place == i)
      && staleEntry !in nodes
      && oldest.p == nodes[first] && newest.p == nodes[|history|]
      && (forall i {:trigger nodes[i].msg} :: 0 <= i < |history| ==> nodes[i].msg == Some(history[i]))
      && (forall i {:trigger nodes[i].valid} :: 0 <= i < |nodes| ==> nodes[i].valid == if i < ready then 0 else 1)
      && (forall i {:trigger nodes[i].next} :: 0 <= i < |history| ==>
            nodes[i].next == if i < base then staleEntry else nodes[i + 1])
      && nodes[|history|].next == null && nodes[|history|].msg == None
    }

    ghost predicate Linked()
      reads this, nodes, oldest, newest, staleEntry
    {
      LinkedUpTo(|history|)
    }

    /** The counter holds exactly the bytes of the entries that have not been trimmed. */
    ghost predicate Counted()
      reads this, size
    {
      base <= |history| && size.v as int == Total(overhead, history[base..])
    }

    ghost predicate Valid()
      reads this, nodes, oldest, newest, staleEntry, size
    {
      && overhead > 0 && maxsize >= 0
      && Linked() && Counted()
      && LongestSuffix(overhead, maxsize as int, history, base)
    }

    constructor (overhead: int, maxsize: int64)
      requires overhead > 0
      ensures Linked() && Counted() && history == [] && base == 0
      ensures maxsize >= 0 ==> Valid()
      ensures this.overhead == overhead && this.maxsize == maxsize
      ensures fresh(oldest) && fresh(newest) && fresh(size) && fresh(nodes) && fresh(staleEntry)
    {
      this.overhead, this.maxsize := overhead, maxsize;
      staleEntry := new QueueEntry(0);
      var initial := new QueueEntry(0);
      oldest := new SafePointer(initial);
      newest := new SafePointer(initial);
      size := new SafeInt64();
      history, nodes, base := [], [initial], 0;
    }

    /** Below 2^63 the counter does not wrap around. */
    method Count(bytes: int)
      requires 0 <= bytes && -HALF64 <= size.v as int + bytes < HALF64 && bytes < HALF64
      modifies size
      ensures size.v as int == old(size.v) as int + bytes
    {
      var _ := size.Add(bytes as int64);
    }

    method Uncount(bytes: int)
      requires 0 <= bytes < HALF64 && -HALF64 <= size.v as int - bytes
      modifies size
      ensures size.v as int == old(size.v) as int - bytes
    {
      var _ := size.Sub(bytes as int64);
    }

    /** While the counter is over the limit, there is an entry, and its bytes are in the counter. */
    lemma OldestIsCounted()
      requires overhead > 0 && maxsize >= 0 && Counted() && size.v > maxsize
      ensures base < |history|
      ensures Total(overhead, history[base..]) == SizeOf(overhead, history[base]) + Total(overhead, history[base + 1..])
      ensures 0 < SizeOf(overhead, history[base]) <= size.v as int
    {
      assert base < |history|;
      TotalDropFirst(overhead, history, base);
      TotalPositive(overhead, history[base + 1..]);
    }

    /** One round of the loop of trim (lines 56 to 71). */
    method TrimOne()
      requires overhead > 0 && maxsize >= 0 && Linked() && Counted() && size.v > maxsize
      modifies this`base, nodes, oldest, size
      ensures Linked() && Counted()
      ensures base == old(base) + 1
    {
      OldestIsCounted();
      var oldoldest := oldest.Load();
      var e: QueueEntry := oldoldest;
      var newoldest := e.next;
      var won := oldest.Cas(oldoldest, newoldest);
      assert won;  // nobody interferes here
      Uncount(e.Size(overhead));
      CutOff(e);
    }

    /** Line 71: with `oldest` already past entry e, its link is replaced by the marker. */
    method CutOff(e: QueueEntry)
      requires base < |history| && |nodes| == |history| + 1 && e == nodes[base]
      requires LinkedFrom(base + 1)
      modifies this`base, e`next
      ensures Linked() && base == old(base) + 1
    {
      e.next := staleEntry;
      base := base + 1;
    }

    /** Sequentially, trim takes entries off until the rest fits, and no further. */
    method Trim()
      requires overhead > 0 && maxsize >= 0 && Linked() && Counted()
      modifies this`base, nodes, oldest, size
      ensures Linked() && Counted()
      ensures base == TrimFrom(overhead, maxsize as int, history, old(base))
    {
      var total := size.Load();
      while total > maxsize
        invariant Linked() && Counted() && total == size.v
        invariant TrimFrom(overhead, maxsize as int, history, base)
               == TrimFrom(overhead, maxsize as int, history, old(base))
        decreases |history| - base
      {
        TrimOne();
        total := size.Load();
      }
    }

    /** Lines 80 to 92: claim the empty entry and fill it. */
    method Fill(m: Msg) returns (e: QueueEntry)
      requires Linked()
      modifies this`history, this`nodes, nodes, newest
      ensures LinkedUpTo(|old(history)|)
      ensures history == old(history) + [m]
      ensures |nodes| == |old(nodes)| + 1 && nodes == old(nodes) + [nodes[|old(nodes)|]]
      ensures fresh(nodes[|old(nodes)|])
      ensures e == nodes[|old(history)|]
    {
      var prepared := new QueueEntry(|nodes|);
      var oldnewest := newest.Load();
      var won := newest.Cas(oldnewest, prepared);
      assert won;  // nobody interferes here
      e := oldnewest;
      e.next := prepared;
      e.msg := Some(m);
      history, nodes := history + [m], nodes + [prepared];
    }

    /** Line 95 */
    method MarkDone(e: QueueEntry)
      requires |history| > 0 && LinkedUpTo(|history| - 1) && e == nodes[|history| - 1]
      modifies e`valid
      ensures Linked()
    {
      e.valid := e.valid - 1;
    }

    lemma NextIsCounted(m: Msg)
      requires base <= |history|
      ensures Total(overhead, (history + [m])[base..]) == Total(overhead, history[base..]) + SizeOf(overhead, m)
    {
      assert (history + [m])[base..] == history[base..] + [m];
      TotalSnoc(overhead, history[base..], m);
    }

    /** Lines 80 to 95: the entry is also counted, and only then marked ready. */
    method Publish(m: Msg)
      requires Linked() && Counted()
      requires 0 <= SizeOf(overhead, m)
      requires 0 <= size.v && size.v as int + SizeOf(overhead, m) < HALF64
      modifies this`history, this`nodes, nodes, newest, size
      ensures Linked() && Counted()
      ensures history == old(history) + [m]
      ensures |nodes| == |old(nodes)| + 1 && nodes == old(nodes) + [nodes[|old(nodes)|]]
      ensures fresh(nodes[|old(nodes)|])
    {
      NextIsCounted(m);
      var e := Fill(m);
      Count(e.Size(overhead));
      MarkDone(e);
    }

    /** A nil message panics before anything is touched. Any other becomes the next message of
        the history, and the backlog is again the longest suffix that fits. */
    method Append(msg: Option<Msg>) returns (panicked: bool)
      requires Valid()
      requires msg.Some? ==> maxsize as int + SizeOf(overhead, msg.value) < HALF64
      modifies this, nodes, oldest, newest, size
      ensures Valid()
      ensures panicked <==> msg.None?
      ensures panicked ==> history == old(history) && base == old(base) && nodes == old(nodes)
      ensures !panicked ==> history == old(history) + [msg.value]
      ensures !panicked ==> base == TrimFrom(overhead, maxsize as int, history, old(base))
      ensures !panicked ==> |nodes| == |old(nodes)| + 1 && nodes == old(nodes) + [nodes[|old(nodes)|]]
      ensures !panicked ==> fresh(nodes[|old(nodes)|])
    {
      if msg == None {
        return true;
      }
      TrimAfterAppend(overhead, maxsize as int, history, base, msg.value);
      TotalPositive(overhead, history[base..]);
      Publish(msg.value);
      Trim();
      panicked := false;
    }
  }

  /** The backlog after any series of appends is what one trim of the full history would leave. */
  lemma BacklogIsBatchTrim(q: MessageQueue)
    requires q.Valid()
    ensures q.base == TrimFrom(q.overhead, q.maxsize as int, q.history, 0)
    ensures q.base == BaseAfter(q.overhead, q.maxsize as int, q.history)
  {
    IncrementalTrimIsLongestSuffix(q.overhead, q.maxsize as int, q.history);
    IncrementalEqualsBatch(q.overhead, q.maxsize as int, q.history);
    LongestSuffixUnique(q.overhead, q.maxsize as int, q.history, q.base,
                        BaseAfter(q.overhead, q.maxsize as int, q.history));
  }

  /** Messages of one size: the last min(n, maxsize / size) of them are kept. */
  lemma EqualSizesBacklog(q: MessageQueue, size: int)
    requires q.Valid() && size > 0 && forall m <- q.history :: SizeOf(q.overhead, m) == size
    ensures var fit := q.maxsize as int / size;
            var kept := if |q.history| < fit then |q.history| else fit;
            && q.base == |q.history| - kept && q.size.v as int == kept * size
  {
    BacklogIsBatchTrim(q);
    EqualSizesRetained(q.overhead, q.maxsize as int, size, q.history);
  }

  // ----- listeners -----

  /** What a listener holds: the next message, one it has just delivered, or no way on. */
  datatype Cursor = Next(i: nat) | Sent(i: nat) | Stale(i: nat) | Closed(i: nat) | Quit(i: nat)

  /** How many messages of the history a cursor has behind it. */
  function Position(c: Cursor): nat {
    if c.Sent? then c.i + 1 else c.i
  }

  /** The listener's loop up to the select, on a plain history of n messages. */
  function Deliver(c: Cursor, n: nat, quit: bool): Cursor {
    match c
    case Stale(i) => Closed(i)
    case Next(i) => if i >= n then c else if quit then Quit(i) else Sent(i)
    case _ => c
  }

  /** Following `next` after message i: possible exactly while i has not been trimmed. */
  function Advance(c: Cursor, base: nat): Cursor {
    match c
    case Sent(i) => if i >= base then Next(i + 1) else Stale(i + 1)
    case _ => c
  }

  datatype Phase = Top | AtNext | Left | ChannelClosed

  class Listener {
    const q: MessageQueue
    var p: QueueEntry?
    var phase: Phase
    var delivered: seq<Msg>  // everything sent on the channel
    ghost const start: nat
    ghost var at: nat

    ghost function Abs(): Cursor
      reads this
    {
      match phase
      case Top => if p == q.staleEntry then Stale(at) else Next(at)
      case AtNext => if at == 0 then Closed(0) else Sent(at - 1)
      case Left => Quit(at)
      case ChannelClosed => Closed(at)
    }

    ghost predicate Valid()
      reads this, q, q.nodes, q.oldest, q.newest, q.staleEntry, q.size
    {
      && q.Valid()
      && start <= at <= |q.history|
      && delivered == q.history[start..at]
      && match phase
         case Top => p == q.nodes[at] || (p == q.staleEntry && start < at <= q.base)
         case AtNext => start < at && p == q.nodes[at - 1]
         case ChannelClosed => start < at <= q.base
         case Left => true
    }

    constructor (q: MessageQueue)
      requires q.Valid()
      ensures Valid() && this.q == q
      ensures start == q.base && Abs() == Next(q.base) && delivered == []
    {
      this.q := q;
      p := q.oldest.p;
      phase := Top;
      delivered := [];
      start, at := q.base, q.base;
    }

    /** In front of message i it holds the entry of that message, and has sent those before it. */
    lemma StandsAt(i: nat)
      requires Valid() && Abs() == Next(i)
      ensures i == at <= |q.history| && p == q.nodes[i] && delivered == q.history[start..i]
    {
    }

    /** What was sent on the channel is the history from the start to the cursor. */
    lemma DeliveredSlice()
      requires Valid()
      ensures start <= Position(Abs()) <= |q.history|
      ensures delivered == q.history[start..Position(Abs())]
    {
    }

    /** From the top of the loop to the select. Blocks on an entry that is not filled in yet. */
    method Receive(quit: bool) returns (blocked: bool)
      requires Valid() && phase == Top
      modifies this
      ensures Valid()
      ensures Abs() == Deliver(old(Abs()), |q.history|, quit)
      ensures blocked <==> old(Abs()) == Next(|q.history|)
      ensures delivered == q.history[start..Position(Abs())]
      ensures old(Abs()).Stale? ==> phase == ChannelClosed && delivered == old(delivered)
      ensures old(Abs()).Next? && old(at) < |q.history| && quit ==> phase == Left && delivered == old(delivered)
      ensures old(Abs()).Next? && old(at) < |q.history| && !quit ==>
                phase == AtNext && p == old(p) && delivered == old(delivered) + [q.history[old(at)]]
      ensures blocked ==> phase == Top && p == old(p) && delivered == old(delivered)
    {
      var e: QueueEntry := p;
      blocked := false;
      if e == q.staleEntry {
        phase := ChannelClosed;
      } else if e.valid != 0 {
        blocked := true;
      } else if quit {
        phase := Left;
      } else {
        delivered := delivered + [e.msg.value];
        at := at + 1;
        phase := AtNext;
      }
    }

    /** `p = e.next` */
    method Follow()
      requires Valid() && phase == AtNext
      modifies this
      ensures Valid()
      ensures Abs() == Advance(old(Abs()), q.base)
      ensures phase == Top && p == old(p.next) && delivered == old(delivered)
      ensures old(at) > q.base ==> Abs() == Next(old(at)) && p == q.nodes[old(at)]
    {
      p := p.next;
      phase := Top;
    }

    /** Appends and trims do not disturb a listener, even one that holds a trimmed entry. */
    twostate lemma Undisturbed()
      requires old(Valid()) && unchanged(this) && q.Valid()
      requires old(q.history) <= q.history && old(q.nodes) <= q.nodes && old(q.base) <= q.base
      ensures Valid() && Abs() == old(Abs())
    {
    }
  }

  // ----- whole runs of the plain history and one cursor -----

  datatype Event = Appended(m: Msg) | Received(quit: bool) | Followed

  datatype Room = Room(overhead: int, limit: int, history: seq<Msg>, base: nat, cursor: Cursor)

  predicate WellFormed(r: Room) {
    r.base <= |r.history| && Position(r.cursor) <= |r.history|
  }

  function Happen(r: Room, e: Event): (s: Room)
    requires WellFormed(r)
    ensures WellFormed(s)
  {
    match e
    case Appended(m) =>
      var h := r.history + [m];
      r.(history := h, base := TrimFrom(r.overhead, r.limit, h, r.base))
    case Received(quit) => r.(cursor := Deliver(r.cursor, |r.history|, quit))
    case Followed => r.(cursor := Advance(r.cursor, r.base))
  }

  function HappenAll(r: Room, es: seq<Event>): (s: Room)
    requires WellFormed(r)
    ensures WellFormed(s)
    decreases es
  {
    if es == [] then r else HappenAll(Happen(r, es[0]), es[1..])
  }

  lemma {:induction false} HappenConcat(r: Room, a: seq<Event>, b: seq<Event>)
    requires WellFormed(r)
    ensures HappenAll(r, a + b) == HappenAll(HappenAll(r, a), b)
    decreases a
  {
    if a == [] {
      assert a + b == b;
    } else {
      var all, rest := a + b, a[1..];
      assert all[0] == a[0] && all[1..] == rest + b;
      HappenConcat(Happen(r, a[0]), rest, b);
    }
  }

  /** A listener that has delivered the trimmed message i, and got at least as far as `stage`:
      1 before following the link, 2 at the marker, 3 closed. */
  predicate Abandoned(r: Room, i: nat, stage: nat) {
    && WellFormed(r) && i < r.base
    && match r.cursor
       case Sent(j) => j == i && stage <= 1
       case Stale(j) => j == i + 1 && stage <= 2
       case Closed(j) => j == i + 1 && stage <= 3
       case _ => false
  }

  /** It never gets back, and never on to message i + 1. */
  lemma {:induction false} AbandonedForGood(r: Room, es: seq<Event>, i: nat, stage: nat)
    requires Abandoned(r, i, stage)
    ensures Abandoned(HappenAll(r, es), i, stage)
    decreases es
  {
    if es != [] {
      AbandonedForGood(Happen(r, es[0]), es[1..], i, stage);
    }
  }

  lemma {:induction false} WaitsForItsTurn(r: Room, es: seq<Event>, i: nat)
    requires WellFormed(r) && i < r.base && r.cursor == Next(i)
    requires forall e <- es :: !e.Received?
    ensures i < HappenAll(r, es).base && HappenAll(r, es).cursor == Next(i)
    decreases es
  {
    if es != [] {
      WaitsForItsTurn(Happen(r, es[0]), es[1..], i);
    }
  }

  lemma OneEvent(r: Room, es: seq<Event>, n: nat)
    requires WellFormed(r) && n < |es|
    ensures HappenAll(r, es[..n + 1]) == Happen(HappenAll(r, es[..n]), es[n])
  {
    var first, last := es[..n], [es[n]];
    assert es[..n + 1] == first + last;
    HappenConcat(r, first, last);
    var s := HappenAll(r, first);
    assert last[1..] == [];
    assert HappenAll(s, last) == HappenAll(Happen(s, es[n]), []);
  }

  lemma FromTo(r: Room, es: seq<Event>, a: nat, b: nat)
    requires WellFormed(r) && a <= b <= |es|
    ensures HappenAll(r, es[..b]) == HappenAll(HappenAll(r, es[..a]), es[a..b])
  {
    var first, second := es[..a], es[a..b];
    assert es[..b] == first + second;
    HappenConcat(r, first, second);
  }

  /** From point a to point b of a run, an abandoned listener keeps what it has reached. */
  lemma AbandonedFromTo(r: Room, es: seq<Event>, a: nat, b: nat, i: nat, stage: nat)
    requires WellFormed(r) && a <= b <= |es| && Abandoned(HappenAll(r, es[..a]), i, stage)
    ensures Abandoned(HappenAll(r, es[..b]), i, stage)
  {
    var s := HappenAll(r, es[..a]);
    FromTo(r, es, a, b);
    AbandonedForGood(s, es[a..b], i, stage);
    assert HappenAll(r, es[..b]) == HappenAll(s, es[a..b]);
  }

  /** In any run in which it gets to its select, is not told to quit there, and then gets round
      its loop once more, it delivers message i and is closed: exactly that one message. What is
      appended and trimmed meanwhile makes no difference. */
  lemma AbandonedDeliversOnce(r: Room, es: seq<Event>, i: nat, select: nat, follow: nat, top: nat)
    requires WellFormed(r) && i < r.base && r.cursor == Next(i)
    requires select < follow < top < |es|
    requires es[select] == Received(false) && forall j :: 0 <= j < select ==> !es[j].Received?
    requires es[follow].Followed? && es[top].Received?
    ensures HappenAll(r, es[..select]).cursor == Next(i)
    ensures HappenAll(r, es[..select + 1]).cursor == Sent(i)
    ensures HappenAll(r, es).cursor == Closed(i + 1)
  {
    WaitsForItsTurn(r, es[..select], i);
    OneEvent(r, es, select);
    AbandonedFromTo(r, es, select + 1, follow, i, 1);
    OneEvent(r, es, follow);
    AbandonedFromTo(r, es, follow + 1, top, i, 2);
    OneEvent(r, es, top);
    AbandonedFromTo(r, es, top + 1, |es|, i, 3);
    assert es[..|es|] == es;
  }

  /** The cursor only ever stands at or behind the end, closes only behind the base, and the
      history it walks is never rewritten: position and history both only grow. */
  lemma {:induction false} CursorMovesForward(r: Room, es: seq<Event>)
    requires WellFormed(r)
    requires (r.cursor.Stale? || r.cursor.Closed?) ==> 0 < r.cursor.i <= r.base
    ensures var s := HappenAll(r, es);
            && r.history <= s.history && r.base <= s.base
            && Position(r.cursor) <= Position(s.cursor)
            && ((s.cursor.Stale? || s.cursor.Closed?) ==> 0 < s.cursor.i <= s.base)
    decreases es
  {
    if es != [] {
      CursorMovesForward(Happen(r, es[0]), es[1..]);
    }
  }

  /** A listener that is told to quit at its select ends there: it sends nothing more, whatever
      happens later. */
  lemma {:induction false} QuitForGood(r: Room, es: seq<Event>, i: nat)
    requires WellFormed(r) && r.cursor == Quit(i)
    ensures HappenAll(r, es).cursor == Quit(i)
    decreases es
  {
    if es != [] {
      QuitForGood(Happen(r, es[0]), es[1..], i);
    }
  }

  lemma QuitEnds(r: Room, es: seq<Event>, i: nat)
    requires WellFormed(r) && r.cursor == Next(i) && i < |r.history|
    ensures HappenAll(r, [Received(true)] + es).cursor == Quit(i)
  {
    var all := [Received(true)] + es;
    assert all[0] == Received(true) && all[1..] == es;
    QuitForGood(Happen(r, Received(true)), es, i);
  }

  /** k times around the listener's loop. */
  function Laps(k: nat): seq<Event> {
    if k == 0 then [] else [Received(false), Followed] + Laps(k - 1)
  }

  /** A listener on an entry that is still in the backlog gets on by one message each time around
      its loop, as far as the history goes. */
  lemma {:induction false} KeepsUp(r: Room, i: nat, k: nat)
    requires WellFormed(r) && r.cursor == Next(i) && r.base <= i && i + k <= |r.history|
    ensures HappenAll(r, Laps(k)) == r.(cursor := Next(i + k))
    decreases k
  {
    if k != 0 {
      var es, rest := Laps(k), Laps(k - 1);
      var s := r.(cursor := Sent(i));
      assert es[0] == Received(false) && es[1..][0] == Followed && es[1..][1..] == rest;
      assert Happen(r, es[0]) == s && Happen(s, Followed) == r.(cursor := Next(i + 1));
      KeepsUp(r.(cursor := Next(i + 1)), i + 1, k - 1);
    }
  }

  /** At the end it waits, told to quit or not, until somebody appends. */
  lemma {:induction false} WaitsAtEnd(r: Room, es: seq<Event>)
    requires WellFormed(r) && r.cursor == Next(|r.history|)
    requires forall e <- es :: !e.Appended?
    ensures HappenAll(r, es) == r
    decreases es
  {
    if es != [] {
      assert es[0] in es && forall e <- es[1..] :: e in es;
      WaitsAtEnd(r, es[1..]);
    }
  }

  // ----- the real list and a real listener make exactly these runs -----

  /** The plain history and cursor that a queue and one of its listeners stand for. */
  ghost function View(l: Listener): Room
    reads l, l.q
  {
    Room(l.q.overhead, l.q.maxsize as int, l.q.history, l.q.base, l.Abs())
  }

  predicate Fits(q: MessageQueue, e: Event) {
    e.Appended? ==> q.maxsize as int + SizeOf(q.overhead, e.m) < HALF64
  }

  /** One event: somebody appends, or the listener makes its next move, if it is there. */
  method Perform(l: Listener, e: Event)
    requires l.Valid() && Fits(l.q, e)
    modifies l, l.q, l.q.nodes, l.q.oldest, l.q.newest, l.q.size
    ensures l.Valid() && WellFormed(old(View(l)))
    ensures View(l) == Happen(old(View(l)), e)
    ensures old(l.q.nodes) <= l.q.nodes
    ensures forall k :: |old(l.q.nodes)| <= k < |l.q.nodes| ==> fresh(l.q.nodes[k])
  {
    match e
    case Appended(m) =>
      var _ := l.q.Append(Some(m));
      l.Undisturbed();
    case Received(quit) =>
      if l.phase == Top {
        var _ := l.Receive(quit);
      }
    case Followed =>
      if l.phase == AtNext {
        l.Follow();
      }
  }

  /** The listeners of one queue. */
  ghost predicate Listening(q: MessageQueue, ls: seq<Listener>)
    reads ls, q, q.nodes, q.oldest, q.newest, q.staleEntry, q.size
  {
    && (forall j :: 0 <= j < |ls| ==> ls[j].q == q && ls[j].Valid())
    && (forall j, k :: 0 <= j < k < |ls| ==> ls[j] != ls[k])
  }

  /** What listener j notices of an event that happens at client i. */
  function Noticed(i: nat, e: Event, j: nat): seq<Event> {
    if e.Appended? || i == j then [e] else []
  }

  /** What listener j notices of a run, in which each event happens at some client. */
  function Seen(es: seq<(nat, Event)>, j: nat): seq<Event> {
    if es == [] then []
    else
      var last := es[|es| - 1];
      Seen(es[..|es| - 1], j) + Noticed(last.0, last.1, j)
  }

  lemma HappenOne(r: Room, e: Event)
    requires WellFormed(r)
    ensures HappenAll(r, [e]) == Happen(r, e)
  {
    var es := [e];
    assert es[1..] == [];
    assert HappenAll(r, es) == HappenAll(Happen(r, e), []);
  }

  /** The plain histories and cursors of all listeners. */
  ghost function Views(ls: seq<Listener>): seq<Room>
    reads ls, set l <- ls :: l.q
  {
    seq(|ls|, j requires 0 <= j < |ls| reads ls, set l <- ls :: l.q => View(ls[j]))
  }

  /** Each of the rooms after what its listener has noticed. */
  ghost predicate AllHappened(before: seq<Room>, es: seq<(nat, Event)>, after: seq<Room>) {
    && |before| == |after|
    && forall j :: 0 <= j < |before| ==>
         WellFormed(before[j]) && after[j] == HappenAll(before[j], Seen(es, j))
  }

  lemma SeenOne(i: nat, e: Event, j: nat)
    ensures Seen([(i, e)], j) == Noticed(i, e, j)
  {
    var es := [(i, e)];
    assert es[..0] == [];
    assert Seen(es, j) == Seen(es[..0], j) + Noticed(i, e, j);
  }

  lemma OneMoreHappened(start: seq<Room>, es: seq<(nat, Event)>, n: nat, before: seq<Room>, after: seq<Room>)
    requires n < |es| && AllHappened(start, es[..n], before) && AllHappened(before, [es[n]], after)
    ensures AllHappened(start, es[..n + 1], after)
  {
    var first, longer := es[..n], es[..n + 1];
    assert longer[..n] == first;
    forall j | 0 <= j < |start| ensures after[j] == HappenAll(start[j], Seen(longer, j)) {
      SeenOne(es[n].0, es[n].1, j);
      HappenConcat(start[j], Seen(first, j), Noticed(es[n].0, es[n].1, j));
    }
  }

  /** One event at client i: every other listener notices an append and nothing else. */
  method PerformAmong(q: MessageQueue, ls: seq<Listener>, i: nat, e: Event)
    requires Listening(q, ls) && i < |ls| && Fits(q, e)
    modifies ls, q, q.nodes, q.oldest, q.newest, q.size
    ensures Listening(q, ls) && AllHappened(old(Views(ls)), [(i, e)], Views(ls))
    ensures old(q.nodes) <= q.nodes
    ensures forall k :: |old(q.nodes)| <= k < |q.nodes| ==> fresh(q.nodes[k])
  {
    label before:
    Perform(ls[i], e);
    forall j | 0 <= j < |ls|
      ensures ls[j].Valid() && WellFormed(old(View(ls[j])))
      ensures View(ls[j]) == HappenAll(old(View(ls[j])), Seen([(i, e)], j))
    {
      if j != i { ls[j].Undisturbed@before(); }
      SeenOne(i, e, j);
      HappenOne(old(View(ls[j])), e);
    }
  }

  /** Any run of appends, trims and listener steps over the nodes is, for each of the listeners, a
      run over the plain history. */
  method PerformAll(q: MessageQueue, ls: seq<Listener>, es: seq<(nat, Event)>)
    requires Listening(q, ls) && forall e <- es :: e.0 < |ls| && Fits(q, e.1)
    modifies ls, q, q.nodes, q.oldest, q.newest, q.size
    ensures Listening(q, ls) && AllHappened(old(Views(ls)), es, Views(ls))
  {
    ghost var start := Views(ls);
    for n := 0 to |es|
      invariant Listening(q, ls) && AllHappened(start, es[..n], Views(ls))
      invariant old(q.nodes) <= q.nodes
      invariant forall k :: |old(q.nodes)| <= k < |q.nodes| ==> fresh(q.nodes[k])
    {
      ghost var before := Views(ls);
      assert es[n] in es;
      PerformAmong(q, ls, es[n].0, es[n].1);
      OneMoreHappened(start, es, n, before, Views(ls));
    }
    assert es[..|es|] == es;
  }

  /** The moves es of client j alone. */
  function AtClient(es: seq<Event>, j: nat): seq<(nat, Event)> {
    if es == [] then [] else AtClient(es[..|es| - 1], j) + [(j, es[|es| - 1])]
  }

  lemma {:induction false} SeesItsOwn(es: seq<Event>, j: nat)
    ensures Seen(AtClient(es, j), j) == es
    ensures forall e <- AtClient(es, j) :: e.0 == j && e.1 in es
  {
    if es != [] {
      var start, last := es[..|es| - 1], es[|es| - 1];
      var first := AtClient(start, j);
      var all := first + [(j, last)];
      SeesItsOwn(start, j);
      assert all[..|first|] == first && es == start + [last];
    }
  }

  lemma {:induction false} LapsNeverAppend(k: nat)
    ensures forall e <- Laps(k) :: !e.Appended?
  {
    if k != 0 { LapsNeverAppend(k - 1); }
  }

  /** With nobody else at work, a listener on an entry that is still in the backlog delivers the
      next k messages of the history, in order; after all of them it is on the unfilled entry. */
  method CatchUp(q: MessageQueue, ls: seq<Listener>, j: nat, k: nat)
    requires Listening(q, ls) && j < |ls| && ls[j].Abs().Next?
    requires q.base <= ls[j].at && ls[j].at + k <= |q.history|
    modifies ls, q, q.nodes, q.oldest, q.newest, q.size
    ensures Listening(q, ls) && q.history == old(q.history) && q.base == old(q.base)
    ensures ls[j].at == old(ls[j].at) + k
    ensures ls[j].Abs() == Next(ls[j].at) && ls[j].p == q.nodes[ls[j].at]
    ensures ls[j].delivered == old(ls[j].delivered) + q.history[old(ls[j].at)..old(ls[j].at) + k]
  {
    ghost var before, i := Views(ls), ls[j].at;
    ls[j].StandsAt(i);
    KeepsUp(before[j], i, k);
    PerformLaps(q, ls, j, k);
    assert View(ls[j]) == before[j].(cursor := Next(i + k));
    ls[j].StandsAt(i + k);
    SliceGrows(q.history, ls[j].start, i, i + k);
  }

  method PerformLaps(q: MessageQueue, ls: seq<Listener>, j: nat, k: nat)
    requires Listening(q, ls) && j < |ls|
    modifies ls, q, q.nodes, q.oldest, q.newest, q.size
    ensures Listening(q, ls) && WellFormed(old(View(ls[j])))
    ensures View(ls[j]) == HappenAll(old(View(ls[j])), Laps(k))
  {
    LapsNeverAppend(k);
    SeesItsOwn(Laps(k), j);
    ghost var before := Views(ls);
    PerformAll(q, ls, AtClient(Laps(k), j));
    ghost var after := Views(ls);
    assert after[j] == HappenAll(before[j], Laps(k));
  }

  lemma SliceGrows(h: seq<Msg>, a: nat, b: nat, c: nat)
    requires a <= b <= c <= |h|
    ensures h[a..c] == h[a..b] + h[b..c]
  {
  }
}
