/** The send queues of the stream client, the server sessions and the broadcast peer: one write is
    under way at a time, and the others wait in a queue. */
module SendPump {
  import opened Options

  /** A queue entry; what it holds does not matter here. */
  type Entry = nat

  // --- stream client and server session -------------------------------------

  /** The fields guarded by the outbound mutex. */
  datatype Out = Out(queue: seq<Entry>, active: bool)

  /** send() with the mutex held: the entry to write at once, if any. */
  function Push(o: Out, e: Entry): (Out, Option<Entry>) {
    if o.active then (o.(queue := o.queue + [e]), None) else (o.(active := true), Some(e))
  }

  /** handle_write() after a write that did not fail. */
  function Proceed(o: Out): (Out, Option<Entry>) {
    if o.queue != [] then (o.(queue := o.queue[1..]), Some(o.queue[0])) else (o.(active := false), None)
  }

  class StreamPump {
    var outboundQueue: seq<Entry>
    var outboundActive: bool

    ghost function Value(): Out
      reads this
    {
      Out(outboundQueue, outboundActive)
    }

    constructor ()
      ensures Value() == Out([], false)
    {
      outboundQueue, outboundActive := [], false;
    }

    method Send(entry: Entry) returns (write: Option<Entry>)
      modifies this
      ensures (Value(), write) == Push(old(Value()), entry)
      ensures outboundActive && write == (if old(outboundActive) then None else Some(entry))
      ensures outboundQueue == old(outboundQueue) + (if old(outboundActive) then [entry] else [])
    {
      if outboundActive {
        outboundQueue := outboundQueue + [entry];
        write := None;
      } else {
        outboundActive := true;
        write := Some(entry);
      }
    }

    method HandleWrite(error: bool) returns (write: Option<Entry>)
      modifies this
      ensures (Value(), write) == if error then (old(Value()), None) else Proceed(old(Value()))
      ensures write.Some? <==> !error && old(outboundQueue) != []
      ensures old(outboundQueue) == (if write.Some? then [write.value] else []) + outboundQueue
      ensures outboundActive <==> old(outboundActive) && (error || write.Some?)
    {
      write := None;
      if !error {
        if outboundQueue != [] {
          write := Some(outboundQueue[0]);
          outboundQueue := outboundQueue[1..];
        } else {
          outboundActive := false;
        }
      }
    }
  }

  /** The pump, the writes that have been issued and not been reported yet, and, for the statements,
      the entries in the order in which send() got the mutex, those written, and the failed write. */
  datatype Stream = Stream(
    o: Out, outstanding: seq<Entry>, sends: seq<Entry>, completed: seq<Entry>, lost: Option<Entry>)

  datatype StreamStep = Send(e: Entry) | Written | WriteFailed

  function Issue(w: Option<Entry>): seq<Entry> {
    if w.Some? then [w.value] else []
  }

  /** The completion handlers run for the oldest outstanding write; without one they cannot run. */
  function NextStream(s: Stream, step: StreamStep): Stream {
    match step
    case Send(e) =>
      var (o, w) := Push(s.o, e);
      s.(o := o, outstanding := s.outstanding + Issue(w), sends := s.sends + [e])
    case Written =>
      if s.outstanding == [] then s else
      var (o, w) := Proceed(s.o);
      s.(o := o, outstanding := s.outstanding[1..] + Issue(w), completed := s.completed + [s.outstanding[0]])
    case WriteFailed =>
      if s.outstanding == [] then s
      else s.(outstanding := s.outstanding[1..], lost := Some(s.outstanding[0]))
  }

  function RunStream(s: Stream, steps: seq<StreamStep>): Stream {
    if steps == [] then s else NextStream(RunStream(s, steps[..|steps| - 1]), steps[|steps| - 1])
  }

  const IDLE := Stream(Out([], false), [], [], [], None)

  predicate ValidStream(s: Stream) {
    && |s.outstanding| <= 1
    && (s.o.queue != [] ==> s.o.active)
    && (s.o.active <==> s.outstanding != [] || s.lost.Some?)
    && (s.lost.Some? ==> s.outstanding == [])
    && s.completed + Issue(s.lost) + s.outstanding + s.o.queue == s.sends
  }

  lemma SendKeepsValid(s: Stream, e: Entry)
    requires ValidStream(s)
    ensures ValidStream(NextStream(s, Send(e)))
  {
    var before := s.completed + Issue(s.lost) + s.outstanding;
    assert before + (s.o.queue + [e]) == s.sends + [e];
    assert s.o.queue == [] ==> before + [e] + [] == s.sends + [e];
  }

  lemma CompletionKeepsValid(s: Stream, step: StreamStep)
    requires ValidStream(s) && !step.Send?
    ensures ValidStream(NextStream(s, step))
  {
    if s.outstanding != [] {
      assert s.outstanding == [s.outstanding[0]] && s.outstanding[1..] == [];
      if step.Written? && s.o.queue != [] {
        assert s.o.queue == [s.o.queue[0]] + s.o.queue[1..];
      }
    }
  }

  lemma NextStreamKeepsValid(s: Stream, step: StreamStep)
    requires ValidStream(s)
    ensures ValidStream(NextStream(s, step))
  {
    if step.Send? {
      SendKeepsValid(s, step.e);
    } else {
      CompletionKeepsValid(s, step);
    }
  }

  /** In every interleaving of senders and completions at most one write is outstanding, nothing waits
      in the queue of an inactive pump, and what was written, is being written and waits is, in this
      order, what was sent. */
  lemma {:induction false} StreamIsFifo(steps: seq<StreamStep>)
    ensures ValidStream(RunStream(IDLE, steps))
  {
    if steps == [] {
    } else {
      StreamIsFifo(steps[..|steps| - 1]);
      NextStreamKeepsValid(RunStream(IDLE, steps[..|steps| - 1]), steps[|steps| - 1]);
    }
  }

  /** As long as no write failed, everything sent is out once nothing is outstanding. */
  lemma StreamDrains(steps: seq<StreamStep>)
    ensures var s := RunStream(IDLE, steps);
            s.lost.None? && s.outstanding == [] ==> s.completed == s.sends && !s.o.active
  {
    StreamIsFifo(steps);
  }

  /** A write that fails is lost, and no other one is issued for it. */
  lemma FailedWriteIsLost(before: seq<StreamStep>)
    requires RunStream(IDLE, before).outstanding != []
    ensures var s := RunStream(IDLE, before);
            var r := NextStream(s, WriteFailed);
            && r.lost == Some(s.outstanding[0]) && r.outstanding == []
            && r.completed == s.completed && r.sends == s.sends && r.o == s.o
  {
    StreamIsFifo(before);
  }

  /** After a failed write nothing is written any more, not even after a reconnect: every later send
      only lengthens the queue, and the writes issued stay the prefix of the sends they were. */
  lemma {:induction false} NothingAfterFailure(before: seq<StreamStep>, after: seq<StreamStep>)
    requires RunStream(IDLE, before).lost.Some?
    ensures var s, r := RunStream(IDLE, before), RunStream(RunStream(IDLE, before), after);
            && r.outstanding == [] && r.completed == s.completed && r.lost == s.lost && r.o.active
            && |r.o.queue| - |s.o.queue| == |r.sends| - |s.sends|
            && s.completed + Issue(s.lost) <= s.sends
    decreases |after|
  {
    StreamIsFifo(before);
    if after == [] {
    } else {
      NothingAfterFailure(before, after[..|after| - 1]);
    }
  }

  // --- broadcast peer -------------------------------------------------------

  /** start_send() with the mutex held. */
  function Start(o: Out): (Out, Option<Entry>) {
    if o.queue == [] || o.active then (o, None) else (Out(o.queue[1..], true), Some(o.queue[0]))
  }

  class PeerPump {
    var outboundQueue: seq<Entry>
    var outboundActive: bool

    ghost function Value(): Out
      reads this
    {
      Out(outboundQueue, outboundActive)
    }

    /** Nothing is sent before the address has been resolved. */
    constructor ()
      ensures Value() == Out([], true)
    {
      outboundQueue, outboundActive := [], true;
    }

    method Enqueue(entry: Entry)
      modifies this
      ensures Value() == old(Value()).(queue := old(outboundQueue) + [entry])
    {
      outboundQueue := outboundQueue + [entry];
    }

    method StartSend() returns (write: Option<Entry>)
      modifies this
      ensures (Value(), write) == Start(old(Value()))
      ensures write.Some? <==> old(outboundQueue) != [] && !old(outboundActive)
      ensures old(outboundQueue) == (if write.Some? then [write.value] else []) + outboundQueue
      ensures outboundActive <==> old(outboundActive) || write.Some?
    {
      if outboundQueue == [] || outboundActive {
        return None;
      }
      outboundActive := true;
      write := Some(outboundQueue[0]);
      outboundQueue := outboundQueue[1..];
    }

    /** The locked part of handle_sent() and of a successful handle_resolve(). */
    method SetInactive()
      modifies this
      ensures Value() == old(Value()).(active := false)
    {
      outboundActive := false;
    }
  }

  datatype Resolution = Unresolved | Resolved | Unresolvable

  /** The pump and the calls of start_send() that are due: send(), handle_sent() and handle_resolve()
      give up the mutex before they make theirs. */
  datatype Peer = Peer(
    o: Out, resolution: Resolution, due: nat, outstanding: seq<Entry>, sends: seq<Entry>, completed: seq<Entry>)

  datatype PeerStep = Enqueue(e: Entry) | StartSend | Sent | Resolve(ok: bool)

  /** A datagram counts as completed whether or not sending it failed. */
  function NextPeer(s: Peer, step: PeerStep): Peer {
    match step
    case Enqueue(e) => s.(o := s.o.(queue := s.o.queue + [e]), sends := s.sends + [e], due := s.due + 1)
    case StartSend =>
      if s.due == 0 then s else
      var (o, w) := Start(s.o);
      s.(o := o, outstanding := s.outstanding + Issue(w), due := s.due - 1)
    case Sent =>
      if s.outstanding == [] then s
      else s.(o := s.o.(active := false), outstanding := s.outstanding[1..],
              completed := s.completed + [s.outstanding[0]], due := s.due + 1)
    case Resolve(ok) =>
      if !s.resolution.Unresolved? then s
      else if ok then s.(o := s.o.(active := false), resolution := Resolved, due := s.due + 1)
      else s.(resolution := Unresolvable, due := s.due + 1)
  }

  function RunPeer(s: Peer, steps: seq<PeerStep>): Peer {
    if steps == [] then s else NextPeer(RunPeer(s, steps[..|steps| - 1]), steps[|steps| - 1])
  }

  const UNRESOLVED := Peer(Out([], true), Unresolved, 0, [], [], [])

  predicate ValidPeer(s: Peer) {
    && |s.outstanding| <= 1
    && (s.o.active <==> s.outstanding != [] || !s.resolution.Resolved?)
    && (!s.resolution.Resolved? ==> s.outstanding == [] && s.completed == [])
    && (s.o.queue != [] && !s.o.active ==> s.due > 0)
    && s.completed + s.outstanding + s.o.queue == s.sends
  }

  lemma NextPeerKeepsValid(s: Peer, step: PeerStep)
    requires ValidPeer(s)
    ensures ValidPeer(NextPeer(s, step))
  {
    if step.Sent? && s.outstanding != [] {
      assert s.outstanding == [s.outstanding[0]] && s.outstanding[1..] == [];
    }
    if step.StartSend? && s.o.queue != [] {
      assert s.o.queue == [s.o.queue[0]] + s.o.queue[1..];
    }
  }

  /** In every interleaving the peer has at most one datagram under way, sends in the order of the
      calls, and a waiting entry never goes unnoticed: a call of start_send() is still due. */
  lemma {:induction false} PeerIsFifo(steps: seq<PeerStep>)
    ensures ValidPeer(RunPeer(UNRESOLVED, steps))
  {
    if steps == [] {
    } else {
      PeerIsFifo(steps[..|steps| - 1]);
      NextPeerKeepsValid(RunPeer(UNRESOLVED, steps[..|steps| - 1]), steps[|steps| - 1]);
    }
  }

  /** Once resolved, everything sent is out when nothing is under way or due, even if sends failed;
      before that, and if resolving failed, nothing is ever out. */
  lemma PeerDrains(steps: seq<PeerStep>)
    ensures var s := RunPeer(UNRESOLVED, steps);
            if s.resolution.Resolved? then s.outstanding == [] && s.due == 0 ==> s.completed == s.sends
            else s.completed == [] && s.o.queue == s.sends
  {
    PeerIsFifo(steps);
  }
}
