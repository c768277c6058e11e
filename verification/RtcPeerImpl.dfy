/** The signaling client as the program has it: an object whose callbacks update its fields, each
    async function split at its awaits.  A candidate is represented by its number of arrival. */
module RtcPeerImpl {
  import opened Options
  import opened RtcPeer

  class RtcPeerImpl {
    const roomId: RoomId
    var wsOpen: bool
    var outboundQueue: seq<Out>
    var sent: seq<Out>
    var remoteDescriptionSet: bool
    var pendingCandidates: seq<nat>
    var handed: seq<nat>
    var received: nat
    var awaiting: seq<Kind>
    var flushes: seq<Flush>
    var answersDue: nat
    ghost var generated: seq<Out>

    ghost function WireView(): Wire
      reads this
    {
      Wire(wsOpen, outboundQueue, sent, generated)
    }

    ghost function RemoteView(): Remote
      reads this
    {
      Remote(remoteDescriptionSet, pendingCandidates, received, handed, awaiting, flushes, answersDue)
    }

    ghost function View(): Peer
      reads this
    {
      Peer(roomId, WireView(), RemoteView())
    }

    constructor (roomId: RoomId)
      ensures View() == NewPeer(roomId)
    {
      this.roomId, wsOpen, outboundQueue, sent, generated := roomId, false, [], [], [];
      remoteDescriptionSet, pendingCandidates, handed, received := false, [], [], 0;
      awaiting, flushes, answersDue := [], [], 0;
    }

    // ---- Frames out ---------------------------------------------------------------------

    /** The join first, then what was buffered, in the order it was queued. */
    method OnOpen()
      requires !wsOpen
      modifies this`wsOpen, this`outboundQueue, this`sent
      ensures WireView() == WireStep(old(WireView()), false, Open)
      ensures wsOpen && outboundQueue == [] && sent == old(sent) + [Join] + old(outboundQueue)
    {
      sent := sent + [Join];
      wsOpen := true;
      var queued := outboundQueue;
      outboundQueue := [];
      var k := 0;
      while k < |queued|
        invariant 0 <= k <= |queued| && wsOpen && outboundQueue == []
        invariant sent == old(sent) + [Join] + queued[..k]
      {
        sent := sent + [queued[k]];
        k := k + 1;
      }
      assert queued[..k] == queued;
    }

    method SendFrame(frame: Out)
      modifies this`outboundQueue, this`sent, this`generated
      ensures WireView() == SendOrBuffer(old(WireView()), frame)
      ensures sent == old(sent) + (if wsOpen then [frame] else []) && outboundQueue == old(outboundQueue) + if wsOpen then [] else [frame]
    {
      generated := generated + [frame];
      if wsOpen {
        sent := sent + [frame];
      } else {
        outboundQueue := outboundQueue + [frame];
      }
    }

    /** The offer has become the local description. */
    method OfferReady(id: nat)
      modifies this`outboundQueue, this`sent, this`generated
      ensures WireView() == WireStep(old(WireView()), false, Negotiated(id))
    {
      SendFrame(Offer(id));
    }

    /** The end-of-candidates signal carries none. */
    method OnIceCandidate(candidate: Option<nat>)
      modifies this`outboundQueue, this`sent, this`generated
      ensures WireView() == WireStep(old(WireView()), false, LocalCandidate(candidate))
    {
      if candidate.Some? {
        SendFrame(Ice(candidate.value));
      }
    }

    /** The answer has become the local description; it is sent without the buffer. */
    method AnswerReady(id: nat)
      requires answersDue > 0
      modifies this`sent, this`generated, this`answersDue
      ensures View() == Step(old(View()), Answered(id))
      ensures sent == old(sent) + [Answer(id)] && answersDue == old(answersDue) - 1
    {
      answersDue := answersDue - 1;
      sent := sent + [Answer(id)];
      generated := generated + [Answer(id)];
    }

    // ---- Messages in --------------------------------------------------------------------

    method HandleIce(room: RoomId)
      requires wsOpen
      modifies this`received, this`handed, this`pendingCandidates
      ensures RemoteView() == RemoteStep(old(RemoteView()), roomId, wsOpen, GotIce(room))
      ensures handed == old(handed) + if room == roomId && remoteDescriptionSet then [old(received)] else []
      ensures pendingCandidates == old(pendingCandidates) + if room == roomId && !remoteDescriptionSet then [old(received)] else []
      ensures received == old(received) + if room == roomId then 1 else 0
    {
      if room != roomId {
        return;
      }
      var candidate := received;
      received := received + 1;
      if remoteDescriptionSet {
        handed := handed + [candidate];
      } else {
        pendingCandidates := pendingCandidates + [candidate];
      }
    }

    /** Up to the await of setting the remote description. */
    method HandleDescription(room: RoomId, kind: Kind)
      requires wsOpen
      modifies this`awaiting
      ensures RemoteView() == RemoteStep(old(RemoteView()), roomId, wsOpen, GotDescription(room, kind))
      ensures awaiting == old(awaiting) + if room == roomId && (kind == OfferKind || kind == AnswerKind) then [kind] else []
    {
      if room != roomId {
        return;
      }
      if kind.OfferKind? || kind.AnswerKind? {
        awaiting := awaiting + [kind];
      }
    }

    /** The await is over: mark it and start to flush. */
    method RemoteDescriptionSet(which: nat)
      requires which < |awaiting|
      modifies this`remoteDescriptionSet, this`awaiting, this`flushes, this`handed, this`pendingCandidates, this`answersDue
      ensures RemoteView() == RemoteStep(old(RemoteView()), roomId, wsOpen, DescriptionSet(which))
      ensures remoteDescriptionSet && awaiting == old(awaiting)[..which] + old(awaiting)[which + 1..]
      ensures handed == old(handed) + old(pendingCandidates)[..if old(pendingCandidates) == [] then 0 else 1]
      ensures answersDue == old(answersDue) + if old(awaiting)[which] == OfferKind && old(pendingCandidates) == [] then 1 else 0
    {
      var kind := awaiting[which];
      awaiting := Without(awaiting, which);
      remoteDescriptionSet := true;
      flushes := flushes + [Flush(pendingCandidates, 0, kind)];
      ContinueFlush(|flushes| - 1);
    }

    /** One turn of the flush loop, or its end. */
    method ContinueFlush(k: nat)
      requires k < |flushes|
      modifies this`flushes, this`handed, this`pendingCandidates, this`answersDue
      ensures RemoteView() == Advance(old(RemoteView()), k)
      ensures var f := old(flushes)[k];
              if f.next < |f.list|
              then
                && handed == old(handed) + [f.list[f.next]] && flushes == old(flushes)[k := Flush(f.list, f.next + 1, f.kind)]
                && pendingCandidates == old(pendingCandidates) && answersDue == old(answersDue)
              else
                && handed == old(handed) && flushes == old(flushes)[..k] + old(flushes)[k + 1..] && pendingCandidates == []
                && answersDue == old(answersDue) + if f.kind == OfferKind then 1 else 0
    {
      var f := flushes[k];
      if f.next < |f.list| {
        handed := handed + [f.list[f.next]];
        flushes := flushes[k := f.(next := f.next + 1)];
        return;
      }
      pendingCandidates := [];
      flushes := Without(flushes, k);
      if f.kind.OfferKind? {
        answersDue := answersDue + 1;
      }
    }

    /** A rejected candidate ends its flush with the queue as it is. */
    method AbortFlush(k: nat)
      requires k < |flushes|
      modifies this`flushes
      ensures RemoteView() == RemoteStep(old(RemoteView()), roomId, wsOpen, CandidateRejected(k))
      ensures flushes == old(flushes)[..k] + old(flushes)[k + 1..]
    {
      flushes := Without(flushes, k);
    }
  }
}
