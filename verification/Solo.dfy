/** The step machine and the plain history agree: with one goroutine, whatever it appends, the
    list is the backlog that HeapQueue.MessageQueue keeps. */
module Solo {
  import Backlog
  import opened QueueMachine
  import opened QueueInvariant
  import opened OverTrim

  /** The latest message is counted and may have to be made room for. */
  predicate MakingRoom(pc: Thread) {
    InTrim(pc) || pc.MarkDone?
  }

  /** How far the trimming for the latest message has come. */
  predicate OnItsWay(q: Queue) {
    && Alone(q)
    && var base := Backlog.BaseAfter(q.overhead, q.maxsize, q.log[..Counted(q)]);
    if MakingRoom(q.threads[0]) then Backlog.TrimFrom(q.overhead, q.maxsize, q.log, |q.removers|) == base
    else |q.removers| == base
  }

  predicate SoloStep(q: Queue, r: Queue) {
    && |q.threads| == 1 == |r.threads| && r.overhead == q.overhead && r.maxsize == q.maxsize
    && var pc, pc' := q.threads[0], r.threads[0];
    || (&& r.log == q.log && r.removers == q.removers  // nothing changes in the backlog
        && Counted(r) == Counted(q) && MakingRoom(pc) == MakingRoom(pc'))
    || (&& pc.CasNewest? && !MakingRoom(pc') && Counted(r) == Counted(q)  // claimed
        && r.log == q.log + [pc.msg] && r.removers == q.removers)
    || (&& pc.AddSize? && MakingRoom(pc') && Counted(q) == |q.log| - 1  // counted
        && r.log == q.log && r.removers == q.removers && Counted(r) == |q.log|)
    || (&& pc.CasOldest? && MakingRoom(pc') && Counted(q) == |q.log|  // taken off
        && r.log == q.log && |r.removers| == |q.removers| + 1 && Counted(r) == |q.log|)
    || (&& pc.Guard? && pc'.Idle? && q.size <= q.maxsize && Counted(q) == |q.log|  // done
        && r.log == q.log && r.removers == q.removers && Counted(r) == |q.log|)
  }

  lemma TrimIsSolo(q: Queue)
    requires Alone(q) && Enabled(q, Step(0)) && InTrim(q.threads[0])
    ensures SoloStep(q, Apply(q, Step(0)))
  {
    assert ThreadOk(q, 0);
  }

  lemma AppendIsSolo(q: Queue)
    requires Alone(q) && Enabled(q, Step(0)) && !InTrim(q.threads[0])
    ensures SoloStep(q, Apply(q, Step(0)))
  {
    assert ThreadOk(q, 0);
    var f := Filling(q.threads[0]);
    assert f.Some? ==> EntryOk(q, f.value);
  }

  /** A counted message triggers trimming from where the last one left off. */
  lemma CountedStays(q: Queue, r: Queue)
    requires OnItsWay(q) && SoloStep(q, r) && Alone(r) && r.log == q.log && Counted(q) == |q.log| - 1
    requires MakingRoom(r.threads[0]) && !MakingRoom(q.threads[0])
    ensures OnItsWay(r)
  {
    assert q.log[..|q.log|] == q.log;
  }

  /** Taking an entry off, or stopping, is what TrimFrom does from here. */
  lemma TrimmedStays(q: Queue, r: Queue)
    requires OnItsWay(q) && SoloStep(q, r) && Alone(r) && r.log == q.log
    requires MakingRoom(q.threads[0]) && (r.removers != q.removers || !MakingRoom(r.threads[0]))
    ensures OnItsWay(r)
  {
    var n := |q.log|;
    assert q.log[..n] == q.log;
    assert q.log[|q.removers|..n] == q.log[|q.removers|..];
  }

  lemma StepStays(q: Queue, r: Queue)
    requires OnItsWay(q) && SoloStep(q, r) && Alone(r)
    ensures OnItsWay(r)
  {
    if r.log != q.log {
      assert r.log[..Counted(r)] == q.log[..Counted(q)];
    } else if MakingRoom(q.threads[0]) && (r.removers != q.removers || !MakingRoom(r.threads[0])) {
      TrimmedStays(q, r);
    } else if MakingRoom(r.threads[0]) && !MakingRoom(q.threads[0]) {
      CountedStays(q, r);
    }
  }

  lemma ApplyStays(q: Queue, a: Action)
    requires OnItsWay(q) && Enabled(q, a)
    ensures OnItsWay(Apply(q, a))
  {
    ApplyKeepsInv(q, a);
    if a.Step? {
      if InTrim(q.threads[0]) {
        AloneTrims(q);
        TrimIsSolo(q);
      } else {
        AloneAppends(q);
        AppendIsSolo(q);
      }
      StepStays(q, Apply(q, a));
    }
  }

  lemma {:induction false} StaysOnItsWay(q: Queue, acts: seq<Action>)
    requires OnItsWay(q) && Legal(Fine, q, acts)
    ensures OnItsWay(Run(Fine, q, acts))
    decreases acts
  {
    if acts != [] {
      ApplyStays(q, acts[0]);
      StaysOnItsWay(Apply(q, acts[0]), acts[1..]);
    }
  }

  /** Whenever the only appender has returned, `oldest` is the start of the longest suffix of the
      whole history that fits, and the counter is its size. */
  lemma SoloBacklogIsLongestSuffix(q: Queue)
    requires Reachable(Fine, q) && |q.threads| == 1 && q.overhead > 0 && q.maxsize >= 0
    requires q.threads[0].Idle?
    ensures var base := Backlog.BaseAfter(q.overhead, q.maxsize, q.log);
            && q.oldest == Node(base)
            && q.size == Backlog.Total(q.overhead, q.log[base..])
            && Backlog.LongestSuffix(q.overhead, q.maxsize, q.log, base)
  {
    var init := Init(q.overhead, q.maxsize, 1);
    var acts :| Legal(Fine, init, acts) && Run(Fine, init, acts) == q;
    InvInit(q.overhead, q.maxsize, 1);
    StaysOnItsWay(init, acts);
    assert q.log[..|q.log|] == q.log;
    assert q.log[|q.removers|..|q.log|] == q.log[|q.removers|..];
    Backlog.IncrementalTrimIsLongestSuffix(q.overhead, q.maxsize, q.log);
  }
}
