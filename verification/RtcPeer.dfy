/** The signaling client of a peer connection. */
module RtcPeer {
  import opened Options

  // Frames are buffered until the socket opens, and remote ICE candidates are queued until the
  // remote description is set.  Every event is one run of a callback, or of an async function up
  // to its next await.

  datatype RoomId = RoomId(text: string)

  datatype Out = Join | Offer(id: nat) | Answer(id: nat) | Ice(id: nat)

  /** A description of another kind is ignored. */
  datatype Kind = OfferKind | AnswerKind | OtherKind

  /** `generated` is what was to be sent so far; `sent` is what is on the wire. */
  datatype Wire = Wire(open: bool, queue: seq<Out>, sent: seq<Out>, generated: seq<Out>)

  /** A flush iterates over the candidates that were pending when it began. */
  datatype Flush = Flush(list: seq<nat>, next: nat, kind: Kind)

  /** Candidates are numbered in order of arrival.  `awaiting` holds descriptions being set, and
      `answersDue` counts the offers whose flush is done and whose answer is not sent yet. */
  datatype Remote = Remote(
    isSet: bool, pending: seq<nat>, received: nat, handed: seq<nat>,
    awaiting: seq<Kind>, flushes: seq<Flush>, answersDue: nat)

  datatype Peer = Peer(room: RoomId, wire: Wire, remote: Remote)

  datatype Event =
    | Open
    | Negotiated(id: nat)
    | LocalCandidate(candidate: Option<nat>)
    | GotIce(room: RoomId)
    | GotDescription(room: RoomId, kind: Kind)
    | DescriptionSet(which: nat)
    | CandidateAdded(flush: nat)
    | CandidateRejected(flush: nat)
    | Answered(id: nat)

  function NewPeer(room: RoomId): Peer {
    Peer(room, Wire(false, [], [], []), Remote(false, [], 0, [], [], [], 0))
  }

  // ---- Frames out -----------------------------------------------------------------------

  function OpenStep(w: Wire): Wire {
    if w.open then w else Wire(true, [], w.sent + [Join] + w.queue, w.generated)
  }

  function SendOrBuffer(w: Wire, frame: Out): Wire {
    if w.open then w.(sent := w.sent + [frame], generated := w.generated + [frame])
    else w.(queue := w.queue + [frame], generated := w.generated + [frame])
  }

  /** The answer does not go through the buffer. */
  function Send(w: Wire, frame: Out): Wire {
    w.(sent := w.sent + [frame], generated := w.generated + [frame])
  }

  // ---- Candidates in --------------------------------------------------------------------

  function IceStep(r: Remote): Remote {
    if r.isSet then r.(received := r.received + 1, handed := r.handed + [r.received])
    else r.(received := r.received + 1, pending := r.pending + [r.received])
  }

  function Without<T>(s: seq<T>, k: nat): seq<T>
    requires k < |s|
  {
    s[..k] + s[k + 1..]
  }

  /** A flush runs to its next await: it hands over one more candidate, or clears the queue. */
  function Advance(r: Remote, k: nat): Remote
    requires k < |r.flushes|
  {
    var f := r.flushes[k];
    if f.next < |f.list| then r.(handed := r.handed + [f.list[f.next]], flushes := r.flushes[k := f.(next := f.next + 1)])
    else r.(pending := [], flushes := Without(r.flushes, k), answersDue := r.answersDue + if f.kind.OfferKind? then 1 else 0)
  }

  /** Marks the description set and starts the flush. */
  function DescriptionStep(r: Remote, which: nat): Remote
    requires which < |r.awaiting|
  {
    var begun := r.(isSet := true, awaiting := Without(r.awaiting, which), flushes := r.flushes + [Flush(r.pending, 0, r.awaiting[which])]);
    Advance(begun, |r.flushes|)
  }

  function WireStep(w: Wire, answerDue: bool, e: Event): Wire {
    match e
    case Open => OpenStep(w)
    case Negotiated(id) => SendOrBuffer(w, Offer(id))
    case LocalCandidate(candidate) => if candidate.None? then w else SendOrBuffer(w, Ice(candidate.value))
    case Answered(id) => if answerDue then Send(w, Answer(id)) else w
    case _ => w
  }

  /** The socket delivers nothing before it is open; frames for another room are ignored. */
  function RemoteStep(r: Remote, room: RoomId, open: bool, e: Event): Remote {
    match e
    case GotIce(from) => if !open || from != room then r else IceStep(r)
    case GotDescription(from, kind) =>
      if !open || from != room || kind.OtherKind? then r else r.(awaiting := r.awaiting + [kind])
    case DescriptionSet(which) => if which >= |r.awaiting| then r else DescriptionStep(r, which)
    case CandidateAdded(k) => if k >= |r.flushes| then r else Advance(r, k)
    case CandidateRejected(k) => if k >= |r.flushes| then r else r.(flushes := Without(r.flushes, k))
    case Answered(id) => if r.answersDue == 0 then r else r.(answersDue := r.answersDue - 1)
    case _ => r
  }

  function Step(p: Peer, e: Event): Peer {
    Peer(p.room, WireStep(p.wire, p.remote.answersDue > 0, e), RemoteStep(p.remote, p.room, p.wire.open, e))
  }

  function Run(room: RoomId, es: seq<Event>): Peer {
    if es == [] then NewPeer(room) else Step(Run(room, es[..|es| - 1]), es[|es| - 1])
  }

  // ---- What one event does --------------------------------------------------------------

  /** Opening sends the join and then the buffer; before that frames are buffered, afterwards sent;
      the end of candidates sends nothing; an answer goes straight out, for an offer that is due one. */
  lemma SendingEffect(p: Peer, id: nat)
    ensures var w, w' := p.wire, Step(p, Open).wire;
            if w.open then w' == w else w'.open && w'.queue == [] && w'.sent == w.sent + [Join] + w.queue && w'.generated == w.generated
    ensures var w, w' := p.wire, Step(p, Negotiated(id)).wire;
            && w'.open == w.open && w'.generated == w.generated + [Offer(id)]
            && w'.sent == w.sent + (if w.open then [Offer(id)] else []) && w'.queue == w.queue + if w.open then [] else [Offer(id)]
    ensures var w, w' := p.wire, Step(p, LocalCandidate(Some(id))).wire;
            && w'.open == w.open && w'.generated == w.generated + [Ice(id)]
            && w'.sent == w.sent + (if w.open then [Ice(id)] else []) && w'.queue == w.queue + if w.open then [] else [Ice(id)]
    ensures Step(p, LocalCandidate(None)) == p
    ensures var p' := Step(p, Answered(id));
            if p.remote.answersDue == 0 then p' == p
            else p'.wire.sent == p.wire.sent + [Answer(id)] && p'.remote == p.remote.(answersDue := p.remote.answersDue - 1)
  {
    assert p.wire.sent + [] == p.wire.sent && p.wire.queue + [] == p.wire.queue;
  }

  /** A candidate of this room is handed over if a description is set and queued if none is; an offer
      or answer of this room begins to be set; everything else is ignored. */
  lemma ReceivingEffect(p: Peer, from: RoomId, kind: Kind)
    ensures var r, r' := p.remote, Step(p, GotIce(from)).remote;
            if !p.wire.open || from != p.room then r' == r
            else if r.isSet then r' == r.(received := r.received + 1, handed := r.handed + [r.received])
            else r' == r.(received := r.received + 1, pending := r.pending + [r.received])
    ensures var r, r' := p.remote, Step(p, GotDescription(from, kind)).remote;
            if p.wire.open && from == p.room && (kind == OfferKind || kind == AnswerKind) then r' == r.(awaiting := r.awaiting + [kind]) else r' == r
  {
  }

  /** A turn of a flush hands over its next candidate; after the last one the queue is cleared, the
      flush ends, and an offer is due its answer; a rejected candidate ends it with the queue as it is. */
  lemma FlushEffect(p: Peer, k: nat)
    requires k < |p.remote.flushes|
    ensures var r, r', f := p.remote, Step(p, CandidateAdded(k)).remote, p.remote.flushes[k];
            if f.next < |f.list| then r' == r.(handed := r.handed + [f.list[f.next]], flushes := r.flushes[k := Flush(f.list, f.next + 1, f.kind)])
            else r' == r.(pending := [], flushes := r.flushes[..k] + r.flushes[k + 1..], answersDue := r.answersDue + if f.kind == OfferKind then 1 else 0)
    ensures Step(p, CandidateRejected(k)).remote == p.remote.(flushes := p.remote.flushes[..k] + p.remote.flushes[k + 1..])
  {
  }

  /** A description that has been set starts to flush what is queued, its first candidate at once. */
  lemma DescriptionEffect(p: Peer, which: nat)
    requires which < |p.remote.awaiting|
    ensures var r, r', kind := p.remote, Step(p, DescriptionSet(which)).remote, p.remote.awaiting[which];
            && r'.isSet && r'.awaiting == r.awaiting[..which] + r.awaiting[which + 1..] && r'.received == r.received
            && if r.pending == []
               then r'.handed == r.handed && r'.pending == [] && r'.flushes == r.flushes && r'.answersDue == r.answersDue + if kind == OfferKind then 1 else 0
               else r'.handed == r.handed + [r.pending[0]] && r'.pending == r.pending && r'.answersDue == r.answersDue
                    && r'.flushes == r.flushes + [Flush(r.pending, 1, kind)]
  {
    var r := p.remote;
    assert (r.flushes + [Flush(r.pending, 0, r.awaiting[which])])[..|r.flushes|] == r.flushes;
  }

  // ---- The wire -------------------------------------------------------------------------

  predicate WireOk(w: Wire) {
    if w.open then w.queue == [] && w.sent == [Join] + w.generated else w.queue == w.generated && w.sent == []
  }

  /** Nothing remote happens before the socket opens. */
  predicate RemoteNeedsOpen(p: Peer) {
    !p.wire.open ==> p.remote == NewPeer(p.room).remote
  }

  lemma StepKeepsOrder(p: Peer, e: Event)
    requires WireOk(p.wire) && RemoteNeedsOpen(p)
    ensures WireOk(Step(p, e).wire) && RemoteNeedsOpen(Step(p, e))
  {
  }

  lemma {:induction false} FramesInOrder(room: RoomId, es: seq<Event>)
    ensures WireOk(Run(room, es).wire) && RemoteNeedsOpen(Run(room, es))
  {
    if es != [] {
      FramesInOrder(room, es[..|es| - 1]);
      StepKeepsOrder(Run(room, es[..|es| - 1]), es[|es| - 1]);
    }
  }

  /** The frames the events call for: every offer, every local candidate, and an answer for an
      offer that has been processed. */
  function FramesOf(room: RoomId, es: seq<Event>): seq<Out> {
    if es == [] then []
    else
      var n := |es| - 1;
      FramesOf(room, es[..n]) +
      match es[n]
      case Negotiated(id) => [Offer(id)]
      case LocalCandidate(candidate) => if candidate.Some? then [Ice(candidate.value)] else []
      case Answered(id) => if Run(room, es[..n]).remote.answersDue > 0 then [Answer(id)] else []
      case _ => []
  }

  predicate Opened(es: seq<Event>) {
    exists k :: 0 <= k < |es| && es[k].Open?
  }

  lemma {:induction false} GeneratedInOrder(room: RoomId, es: seq<Event>)
    ensures Run(room, es).wire.generated == FramesOf(room, es)
  {
    if es != [] {
      GeneratedInOrder(room, es[..|es| - 1]);
    }
  }

  lemma {:induction false} OpenWhenOpened(room: RoomId, es: seq<Event>)
    ensures Run(room, es).wire.open <==> Opened(es)
  {
    if es != [] {
      var n := |es| - 1;
      OpenWhenOpened(room, es[..n]);
      assert Opened(es) <==> Opened(es[..n]) || es[n].Open? by {
        assert forall k :: 0 <= k < n ==> es[..n][k] == es[k];
      }
    }
  }

  /** The wire carries nothing before the socket opens, and then the join followed by every frame
      the events called for, in order, none lost. */
  lemma {:induction false} JoinThenGenerationOrder(room: RoomId, es: seq<Event>)
    ensures Run(room, es).wire.sent == if Opened(es) then [Join] + FramesOf(room, es) else []
  {
    FramesInOrder(room, es);
    GeneratedInOrder(room, es);
    OpenWhenOpened(room, es);
  }

  // ---- Answers --------------------------------------------------------------------------

  function Answers(frames: seq<Out>): nat {
    if frames == [] then 0 else Answers(frames[..|frames| - 1]) + if frames[|frames| - 1].Answer? then 1 else 0
  }

  /** Event `n` ends the flush of an offer: it finds the flush at its end, or sets the offer with
      nothing queued. */
  predicate FinishesOffer(room: RoomId, es: seq<Event>, n: nat)
    requires n < |es|
  {
    var r := Run(room, es[..n]).remote;
    match es[n]
    case CandidateAdded(k) => k < |r.flushes| && r.flushes[k].kind == OfferKind && r.flushes[k].next >= |r.flushes[k].list|
    case DescriptionSet(which) => which < |r.awaiting| && r.awaiting[which] == OfferKind && r.pending == []
    case _ => false
  }

  function OffersFinished(room: RoomId, es: seq<Event>): nat {
    if es == [] then 0 else OffersFinished(room, es[..|es| - 1]) + if FinishesOffer(room, es, |es| - 1) then 1 else 0
  }

  lemma DueAfter(p: Peer, e: Event)
    ensures var n, n' := p.remote.answersDue, Step(p, e).remote.answersDue;
            match e
            case CandidateAdded(k) =>
              n' == n + if k < |p.remote.flushes| && p.remote.flushes[k].kind == OfferKind && p.remote.flushes[k].next >= |p.remote.flushes[k].list| then 1 else 0
            case DescriptionSet(which) => n' == n + if which < |p.remote.awaiting| && p.remote.awaiting[which] == OfferKind && p.remote.pending == [] then 1 else 0
            case Answered(_) => n' == if n == 0 then 0 else n - 1
            case _ => n' == n
  {
    match e
    case DescriptionSet(which) => if which < |p.remote.awaiting| { DescriptionEffect(p, which); }
    case CandidateAdded(k) => if k < |p.remote.flushes| { FlushEffect(p, k); }
    case _ =>
  }

  lemma AnswersOfOneMore(frames: seq<Out>, frame: Out)
    ensures Answers(frames + [frame]) == Answers(frames) + if frame.Answer? then 1 else 0
  {
    assert (frames + [frame])[..|frames|] == frames;
  }

  lemma GeneratedAfter(p: Peer, e: Event)
    ensures Answers(Step(p, e).wire.generated) == Answers(p.wire.generated) + if e.Answered? && p.remote.answersDue > 0 then 1 else 0
  {
    match e
    case Negotiated(id) => AnswersOfOneMore(p.wire.generated, Offer(id));
    case LocalCandidate(candidate) => if candidate.Some? { AnswersOfOneMore(p.wire.generated, Ice(candidate.value)); }
    case Answered(id) => AnswersOfOneMore(p.wire.generated, Answer(id));
    case _ =>
  }

  lemma {:induction false} AnswersGenerated(room: RoomId, es: seq<Event>)
    ensures Run(room, es).remote.answersDue + Answers(Run(room, es).wire.generated) == OffersFinished(room, es)
  {
    if es != [] {
      var n := |es| - 1;
      AnswersGenerated(room, es[..n]);
      DueAfter(Run(room, es[..n]), es[n]);
      GeneratedAfter(Run(room, es[..n]), es[n]);
    }
  }

  lemma {:induction false} NothingFinishesBeforeOpen(room: RoomId, es: seq<Event>)
    requires !Run(room, es).wire.open
    ensures OffersFinished(room, es) == 0
  {
    if es != [] {
      FramesInOrder(room, es[..|es| - 1]);
      NothingFinishesBeforeOpen(room, es[..|es| - 1]);
    }
  }

  lemma {:induction false} AnswersAfterJoin(frames: seq<Out>)
    ensures Answers([Join] + frames) == Answers(frames)
  {
    if frames == [] {
      assert [Join] + frames == [] + [Join];
      AnswersOfOneMore([], Join);
    } else {
      var n := |frames| - 1;
      AnswersAfterJoin(frames[..n]);
      assert [Join] + frames == ([Join] + frames[..n]) + [frames[n]];
      AnswersOfOneMore([Join] + frames[..n], frames[n]);
    }
  }

  /** In every run each offer whose flush has finished has its answer on the wire or is due one, and
      there is no other answer. */
  lemma {:induction false} AnswersAreForFinishedOffers(room: RoomId, es: seq<Event>)
    ensures Run(room, es).remote.answersDue + Answers(Run(room, es).wire.sent) == OffersFinished(room, es)
  {
    FramesInOrder(room, es);
    AnswersGenerated(room, es);
    if Run(room, es).wire.open {
      AnswersAfterJoin(Run(room, es).wire.generated);
    } else {
      NothingFinishesBeforeOpen(room, es);
    }
  }

  // ---- Candidates -----------------------------------------------------------------------

  predicate Distinct(s: seq<nat>) {
    forall i, j :: 0 <= i < j < |s| ==> s[i] != s[j]
  }

  /** The candidates of this room still to be handed over: all of them until the description is
      set, and then the rest of the flush. */
  function Waiting(r: Remote): seq<nat> {
    if !r.isSet then r.pending
    else if r.flushes == [] || r.flushes[0].next > |r.flushes[0].list| then []
    else r.flushes[0].list[r.flushes[0].next..]
  }

  /** At most one flush runs, over the pending candidates, and its first is handed over already. */
  predicate FlushOk(r: Remote) {
    && (!r.isSet ==> r.handed == [] && r.flushes == [])
    && (r.isSet && r.pending != [] ==> r.pending[0] in r.handed)
    && (r.flushes != [] ==> |r.flushes| == 1 && r.flushes[0].list == r.pending != [] && 1 <= r.flushes[0].next <= |r.pending|)
  }

  /** Handed over, then still to be. */
  function Line(r: Remote): seq<nat> {
    r.handed + Waiting(r)
  }

  predicate Bounded(s: seq<nat>, n: nat) {
    forall i :: 0 <= i < |s| ==> s[i] < n
  }

  /** No candidate is handed over twice. */
  predicate OnceOk(r: Remote) {
    Distinct(Line(r)) && Bounded(Line(r), r.received)
  }

  /** Every candidate is handed over or still to be. */
  predicate Lossless(r: Remote) {
    forall x :: 0 <= x < r.received ==> x in Line(r)
  }

  /** A new number goes anywhere. */
  lemma InsertStaysDistinct(a: seq<nat>, n: nat, b: seq<nat>)
    requires Distinct(a + b) && Bounded(a + b, n)
    ensures Distinct(a + [n] + b) && Bounded(a + [n] + b, n + 1)
    ensures forall x :: x in a + b ==> x in a + [n] + b
  {
    var s := a + [n] + b;
    forall i | 0 <= i < |s| && i != |a| ensures s[i] == (a + b)[if i < |a| then i else i - 1] {
    }
  }

  lemma IceKeeps(r: Remote)
    requires FlushOk(r) && OnceOk(r)
    ensures FlushOk(IceStep(r)) && OnceOk(IceStep(r))
    ensures Lossless(r) ==> Lossless(IceStep(r))
  {
    var r' := IceStep(r);
    if r.isSet {
      InsertStaysDistinct(r.handed, r.received, Waiting(r));
      assert Line(r') == r.handed + [r.received] + Waiting(r);
    } else {
      InsertStaysDistinct(Line(r), r.received, []);
      assert Line(r) + [] == Line(r);
      assert Line(r') == Line(r) + [r.received] + [];
    }
    assert r.received in Line(r');
  }

  lemma AdvanceKeeps(r: Remote, k: nat)
    requires FlushOk(r) && OnceOk(r) && k < |r.flushes|
    ensures FlushOk(Advance(r, k)) && OnceOk(Advance(r, k))
    ensures Lossless(r) ==> Lossless(Advance(r, k))
  {
    var r' := Advance(r, k);
    assert Line(r') == Line(r);
  }

  lemma RejectKeeps(r: Remote, k: nat)
    requires FlushOk(r) && OnceOk(r) && k < |r.flushes|
    ensures var r' := r.(flushes := Without(r.flushes, k)); FlushOk(r') && OnceOk(r')
  {
    var r' := r.(flushes := Without(r.flushes, k));
    assert Line(r') == r.handed;
    assert forall i :: 0 <= i < |r.handed| ==> r.handed[i] == Line(r)[i];
  }

  lemma DescriptionKeeps(r: Remote, which: nat)
    requires FlushOk(r) && OnceOk(r) && which < |r.awaiting| && !(r.isSet && r.pending != [])
    ensures FlushOk(DescriptionStep(r, which)) && OnceOk(DescriptionStep(r, which))
    ensures Lossless(r) ==> Lossless(DescriptionStep(r, which))
  {
    var r' := DescriptionStep(r, which);
    assert r.flushes == [];
    assert Line(r') == Line(r);
  }

  /** Event `n` sets a description while candidates are pending although one was set before: a
      flush is under way, or was cut short by a rejected candidate. */
  predicate OverlapsAt(room: RoomId, es: seq<Event>, n: nat)
    requires n < |es|
  {
    var r := Run(room, es[..n]).remote;
    es[n].DescriptionSet? && es[n].which < |r.awaiting| && r.isSet && r.pending != []
  }

  predicate Overlaps(room: RoomId, es: seq<Event>) {
    exists n :: 0 <= n < |es| && OverlapsAt(room, es, n)
  }

  predicate Rejects(es: seq<Event>) {
    exists n :: 0 <= n < |es| && es[n].CandidateRejected?
  }

  /** The queue stays in order, nothing is handed over twice, and nothing is lost unless rejected. */
  predicate RemoteKept(r: Remote, r': Remote, rejects: bool) {
    FlushOk(r') && OnceOk(r') && (Lossless(r) && !rejects ==> Lossless(r'))
  }

  lemma BookkeepingKeeps(r: Remote, awaiting: seq<Kind>, answersDue: nat)
    requires FlushOk(r) && OnceOk(r)
    ensures RemoteKept(r, r.(awaiting := awaiting, answersDue := answersDue), false)
  {
    assert Line(r.(awaiting := awaiting, answersDue := answersDue)) == Line(r);
  }

  lemma MessageKeeps(r: Remote, room: RoomId, open: bool, e: Event)
    requires FlushOk(r) && OnceOk(r) && (e.GotIce? || e.GotDescription?)
    ensures RemoteKept(r, RemoteStep(r, room, open, e), false)
  {
    if e.GotIce? {
      IceKeeps(r);
    } else {
      BookkeepingKeeps(r, r.awaiting + [e.kind], r.answersDue);
    }
  }

  lemma FlushingKeeps(r: Remote, room: RoomId, open: bool, e: Event)
    requires FlushOk(r) && OnceOk(r) && (e.CandidateAdded? || e.CandidateRejected?)
    ensures RemoteKept(r, RemoteStep(r, room, open, e), e.CandidateRejected?)
  {
    if e.CandidateAdded? {
      if e.flush < |r.flushes| { AdvanceKeeps(r, e.flush); }
    } else if e.flush < |r.flushes| {
      RejectKeeps(r, e.flush);
    }
  }

  lemma SettingKeeps(r: Remote, room: RoomId, open: bool, which: nat)
    requires FlushOk(r) && OnceOk(r) && !(which < |r.awaiting| && r.isSet && r.pending != [])
    ensures RemoteKept(r, RemoteStep(r, room, open, DescriptionSet(which)), false)
  {
    if which < |r.awaiting| {
      DescriptionKeeps(r, which);
    }
  }

  lemma StepKeepsRemote(r: Remote, room: RoomId, open: bool, e: Event)
    requires FlushOk(r) && OnceOk(r)
    requires !(e.DescriptionSet? && e.which < |r.awaiting| && r.isSet && r.pending != [])
    ensures RemoteKept(r, RemoteStep(r, room, open, e), e.CandidateRejected?)
  {
    match e
    case GotIce(_) => MessageKeeps(r, room, open, e);
    case GotDescription(_, _) => MessageKeeps(r, room, open, e);
    case DescriptionSet(which) => SettingKeeps(r, room, open, which);
    case CandidateAdded(_) => FlushingKeeps(r, room, open, e);
    case CandidateRejected(_) => FlushingKeeps(r, room, open, e);
    case Answered(_) => BookkeepingKeeps(r, r.awaiting, if r.answersDue == 0 then 0 else r.answersDue - 1);
    case _ =>
  }

  lemma {:induction false} RoomStands(room: RoomId, es: seq<Event>)
    ensures Run(room, es).room == room
  {
    if es != [] {
      RoomStands(room, es[..|es| - 1]);
    }
  }

  lemma OverlapsOfPrefix(room: RoomId, es: seq<Event>, n: nat)
    requires n <= |es| && !Overlaps(room, es)
    ensures !Overlaps(room, es[..n])
  {
    forall k | 0 <= k < n ensures !OverlapsAt(room, es[..n], k) {
      assert es[..n][..k] == es[..k];
      assert !OverlapsAt(room, es, k);
    }
  }

  lemma {:induction false} RunKeepsRemote(room: RoomId, es: seq<Event>)
    requires !Overlaps(room, es)
    ensures FlushOk(Run(room, es).remote) && OnceOk(Run(room, es).remote)
    ensures !Rejects(es) ==> Lossless(Run(room, es).remote)
  {
    if es != [] {
      var n := |es| - 1;
      OverlapsOfPrefix(room, es, n);
      RunKeepsRemote(room, es[..n]);
      assert !OverlapsAt(room, es, n);
      var p := Run(room, es[..n]);
      RoomStands(room, es[..n]);
      StepKeepsRemote(p.remote, room, p.wire.open, es[n]);
      if !Rejects(es) {
        assert !es[n].CandidateRejected?;
        forall k | 0 <= k < n ensures !es[..n][k].CandidateRejected? {
          assert es[..n][k] == es[k];
        }
      }
    }
  }

  lemma StepHandsMore(p: Peer, e: Event)
    ensures p.remote.handed <= Step(p, e).remote.handed
  {
  }

  /** Whatever is handed over stays so. */
  lemma {:induction false} HandedOnlyGrows(room: RoomId, es: seq<Event>, n: nat)
    requires n <= |es|
    ensures Run(room, es[..n]).remote.handed <= Run(room, es).remote.handed
    decreases |es| - n
  {
    if n < |es| {
      assert es[..n + 1][..n] == es[..n];
      StepHandsMore(Run(room, es[..n]), es[n]);
      HandedOnlyGrows(room, es, n + 1);
    } else {
      assert es[..n] == es;
    }
  }

  lemma OverlapStepDuplicates(r: Remote, which: nat)
    requires FlushOk(r) && r.isSet && r.pending != [] && which < |r.awaiting|
    ensures !Distinct(DescriptionStep(r, which).handed)
  {
    var i :| 0 <= i < |r.handed| && r.handed[i] == r.pending[0];
    var handed := DescriptionStep(r, which).handed;
    assert handed == r.handed + [r.pending[0]];
    assert handed[i] == handed[|r.handed|];
  }

  lemma DuplicatesStay(a: seq<nat>, b: seq<nat>)
    requires !Distinct(a) && a <= b
    ensures !Distinct(b)
  {
    var i, j :| 0 <= i < j < |a| && a[i] == a[j];
    assert b[i] == b[j];
  }

  lemma OverlapDuplicatesNow(p: Peer, e: Event)
    requires FlushOk(p.remote) && e.DescriptionSet? && e.which < |p.remote.awaiting| && p.remote.isSet && p.remote.pending != []
    ensures !Distinct(Step(p, e).remote.handed)
  {
    OverlapStepDuplicates(p.remote, e.which);
  }

  /** The first overlap hands the first pending candidate over again. */
  lemma {:induction false} OverlapDuplicates(room: RoomId, es: seq<Event>)
    requires Overlaps(room, es)
    ensures !Distinct(Run(room, es).remote.handed)
  {
    var n := |es| - 1;
    if Overlaps(room, es[..n]) {
      OverlapDuplicates(room, es[..n]);
      HandedOnlyGrows(room, es, n);
      DuplicatesStay(Run(room, es[..n]).remote.handed, Run(room, es).remote.handed);
    } else {
      LastOverlaps(room, es);
      RunKeepsRemote(room, es[..n]);
      OverlapDuplicatesNow(Run(room, es[..n]), es[n]);
    }
  }

  lemma LastOverlaps(room: RoomId, es: seq<Event>)
    requires es != [] && Overlaps(room, es)
    ensures OverlapsAt(room, es, |es| - 1) || Overlaps(room, es[..|es| - 1])
  {
    var n := |es| - 1;
    var k :| 0 <= k < |es| && OverlapsAt(room, es, k);
    if k < n {
      assert es[..n][..k] == es[..k];
      assert OverlapsAt(room, es[..n], k);
    }
  }

  /** In every run each candidate of this room is handed over at most once if and only if no
      description is set while an earlier one's pending candidates are unfinished. */
  lemma {:induction false} HandedOnceIff(room: RoomId, es: seq<Event>)
    ensures var handed := Run(room, es).remote.handed;
            (exists i, j :: 0 <= i < j < |handed| && handed[i] == handed[j])
            <==>
            (exists n :: 0 <= n < |es| && es[n].DescriptionSet?
                         && var r := Run(room, es[..n]).remote; es[n].which < |r.awaiting| && r.isSet && r.pending != [])
  {
    forall n | 0 <= n < |es|
      ensures OverlapsAt(room, es, n) <==>
                es[n].DescriptionSet? && var r := Run(room, es[..n]).remote; es[n].which < |r.awaiting| && r.isSet && r.pending != []
    {
    }
    if Overlaps(room, es) {
      OverlapDuplicates(room, es);
    } else {
      RunKeepsRemote(room, es);
      var r := Run(room, es).remote;
      assert forall i :: 0 <= i < |r.handed| ==> r.handed[i] == Line(r)[i];
    }
  }

  lemma RunOneMore(room: RoomId, es: seq<Event>, e: Event)
    ensures Run(room, es + [e]) == Step(Run(room, es), e)
  {
    assert (es + [e])[..|es|] == es;
  }

  /** Two offers set one after the other, the second while the first one's flush waits for the only
      candidate, hand that candidate over twice. */
  lemma OverlapHappens(room: RoomId)
    ensures var r := Run(room, [Open, GotIce(room), GotDescription(room, OfferKind), GotDescription(room, OfferKind),
                                DescriptionSet(0), DescriptionSet(0)]).remote;
            r.received == 1 && r.handed == [0, 0]
  {
    var e1 := [Open];
    var e2 := e1 + [GotIce(room)];
    var e3 := e2 + [GotDescription(room, OfferKind)];
    var e4 := e3 + [GotDescription(room, OfferKind)];
    var e5 := e4 + [DescriptionSet(0)];
    RunOneMore(room, [], Open);
    RunOneMore(room, e1, GotIce(room));
    RunOneMore(room, e2, GotDescription(room, OfferKind));
    RunOneMore(room, e3, GotDescription(room, OfferKind));
    RunOneMore(room, e4, DescriptionSet(0));
    RunOneMore(room, e5, DescriptionSet(0));
    assert Run(room, e4).remote == Remote(false, [0], 1, [], [OfferKind, OfferKind], [], 0);
    assert Run(room, e5).remote.awaiting == [OfferKind] && Run(room, e5).remote.handed == [0];
    assert e5 + [DescriptionSet(0)] == [Open, GotIce(room), GotDescription(room, OfferKind), GotDescription(room, OfferKind),
                                        DescriptionSet(0), DescriptionSet(0)];
  }

  /** Without overlaps and rejected candidates none is lost: each is handed over or waiting, never
      both, none before the description is set, and all once the flush has ended. */
  lemma {:induction false} EveryCandidateIsHanded(room: RoomId, es: seq<Event>)
    requires !Overlaps(room, es) && forall n :: 0 <= n < |es| ==> !es[n].CandidateRejected?
    ensures var r := Run(room, es).remote;
            && Distinct(Line(r))
            && (forall x :: x in Line(r) <==> 0 <= x < r.received)
            && (!r.isSet ==> r.handed == [] && forall x :: 0 <= x < r.received ==> x in r.pending)
            && (r.isSet && r.flushes == [] ==>
                  && (forall i, j :: 0 <= i < j < |r.handed| ==> r.handed[i] != r.handed[j])
                  && forall x :: x in r.handed <==> 0 <= x < r.received)
  {
    RunKeepsRemote(room, es);
    var r := Run(room, es).remote;
    if r.isSet && r.flushes == [] {
      assert Line(r) == r.handed;
    } else if !r.isSet {
      assert Line(r) == r.pending;
    }
  }

  predicate NothingEarly(r: Remote) {
    !r.isSet ==> r.handed == [] && r.flushes == []
  }

  lemma StepKeepsNothingEarly(r: Remote, room: RoomId, open: bool, e: Event)
    requires NothingEarly(r)
    ensures NothingEarly(RemoteStep(r, room, open, e))
  {
  }

  /** Nothing is handed over before a description is set, in any run. */
  lemma {:induction false} NothingBeforeTheDescription(room: RoomId, es: seq<Event>)
    ensures var r := Run(room, es).remote; !r.isSet ==> r.handed == [] && r.flushes == []
  {
    if es != [] {
      var p := Run(room, es[..|es| - 1]);
      NothingBeforeTheDescription(room, es[..|es| - 1]);
      StepKeepsNothingEarly(p.remote, p.room, p.wire.open, es[|es| - 1]);
    }
  }
}
