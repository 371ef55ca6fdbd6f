/** hub/groupchatserver.go: the read loop that serves one connection. */
module Server {
  import Backlog
  import SafeVals
  import HeapQueue

  /** What one call of readMessage finds: a text frame, a frame of another type, or an error. */
  datatype Frame = Text(m: Backlog.Msg) | OtherType | Broken

  /** The messages that come before the first frame that readMessage turns into an error. */
  function Accepted(frames: seq<Frame>): seq<Backlog.Msg> {
    if frames == [] || !frames[0].Text? then [] else [frames[0].m] + Accepted(frames[1..])
  }

  lemma {:induction false} AcceptedSnoc(frames: seq<Frame>, i: nat)
    requires i < |frames| && forall j :: 0 <= j <= i ==> frames[j].Text?
    ensures Accepted(frames[..i + 1]) == Accepted(frames[..i]) + [frames[i].m]
  {
    assert frames[..i + 1][1..] == frames[1..][..i];
    if i != 0 {
      AcceptedSnoc(frames[1..], i - 1);
      assert frames[..i][1..] == frames[1..][..i - 1];
    }
  }

  lemma {:induction false} AcceptedStops(frames: seq<Frame>, i: nat)
    requires i < |frames| && !frames[i].Text? && forall j :: 0 <= j < i ==> frames[j].Text?
    ensures Accepted(frames) == Accepted(frames[..i])
  {
    if i != 0 {
      AcceptedStops(frames[1..], i - 1);
      assert frames[..i][1..] == frames[1..][..i - 1];
    }
  }

  /** They are the k messages up to the first other frame. */
  lemma {:induction false} AcceptedAre(frames: seq<Frame>, k: nat)
    requires k <= |frames| && forall j :: 0 <= j < k ==> frames[j].Text?
    requires k < |frames| ==> !frames[k].Text?
    ensures |Accepted(frames)| == k
    ensures forall j :: 0 <= j < k ==> Accepted(frames)[j] == frames[j].m
  {
    if k != 0 {
      AcceptedAre(frames[1..], k - 1);
    }
  }

  /** None of the messages is so large that the byte counter would overflow. */
  predicate Fit(backlog: HeapQueue.MessageQueue, frames: seq<Frame>) {
    forall f <- frames :: f.Text? ==>
      backlog.maxsize as int + Backlog.SizeOf(backlog.overhead, f.m) < SafeVals.HALF64
  }

  /** The loop of lines 72 to 85, up to the first failing read: exactly the text messages before
      it enter the room's history, in the order in which they were read. */
  method ReadLoop(backlog: HeapQueue.MessageQueue, frames: seq<Frame>) returns (read: nat)
    requires backlog.Valid() && Fit(backlog, frames)
    requires exists i :: 0 <= i < |frames| && !frames[i].Text?
    modifies backlog, backlog.nodes, backlog.oldest, backlog.newest, backlog.size
    ensures backlog.Valid()
    ensures backlog.history == old(backlog.history) + Accepted(frames)
    ensures read < |frames| && !frames[read].Text? && forall j :: 0 <= j < read ==> frames[j].Text?
    ensures |backlog.history| == |old(backlog.history)| + read
    ensures forall j :: 0 <= j < read ==> backlog.history[|old(backlog.history)| + j] == frames[j].m
  {
    var i := 0;
    assert Accepted(frames[..0]) == [];
    while frames[i].Text?
      invariant 0 <= i < |frames| && forall j :: 0 <= j < i ==> frames[j].Text?
      invariant exists k :: i <= k < |frames| && !frames[k].Text?
      invariant backlog.Valid()
      invariant backlog.history == old(backlog.history) + Accepted(frames[..i])
      invariant old(backlog.nodes) <= backlog.nodes
      invariant forall k :: |old(backlog.nodes)| <= k < |backlog.nodes| ==> fresh(backlog.nodes[k])
      decreases |frames| - i
    {
      assert frames[i] in frames;
      var panicked := backlog.Append(Backlog.Some(frames[i].m));
      assert !panicked;
      AcceptedSnoc(frames, i);
      i := i + 1;
    }
    AcceptedStops(frames, i);
    AcceptedAre(frames, i);
    read := i;
  }
}
