/**
 No lost wake-up: posters that commit and then notify, pumps that clear and then send, sockets that subscribe and
 then send a first frame, in any interleaving. Source: backend/app/sync/signal_hub.py and routes.py.

 A step is what runs between two `await`s. A poster awaits between its commit and its `notify`, so it may die there.
 */
module SignalProtocol {
  import opened ByteStrings

  /** Where a socket's task stands. */
  datatype Phase = Handshake | Waiting | Sending | Keepalive | Closed

  /**
   `known` is the committed head the last poke frame answers for, `due` the head the one on its way does. `armed` says
   that the revocation was there when the current wait began: a wait that sees it ends the socket, while one that
   began before it may still end in a frame. `frames` counts what was sent.
   */
  datatype Socket = Socket(
    workspaceId: Uuid, memberId: Uuid, phase: Phase, event: bool, revoked: bool, armed: bool,
    known: nat, due: nat, frames: nat)
  {
    function Sent(): Socket {
      this.(phase := Waiting, armed := revoked, frames := frames + 1)
    }
  }

  /** A poster between its commit and its `notify`, and the head its commit made. */
  datatype Poster = Poster(workspaceId: Uuid, head: nat)

  /**
   `heads` counts the commits that stored anything; `dropped` is the latest head whose poster died before its `notify`.
   */
  datatype State = State(
    heads: map<Uuid, nat>, dropped: map<Uuid, nat>, posters: map<nat, Poster>, sockets: map<nat, Socket>)

  datatype Event =
    | Commit(poster: nat, workspaceId: Uuid)
    | Notify(poster: nat)
    | Die(poster: nat)
    | Subscribe(id: nat, workspaceId: Uuid, memberId: Uuid)
    | FirstFrame(id: nat)
    | Wake(id: nat)
    | PokeFrame(id: nat)
    | Timeout(id: nat)
    | KeepaliveFrame(id: nat)
    | RevokeMember(workspaceId: Uuid, memberId: Uuid)
    | Close(id: nat)

  function HeadOf(s: State, workspaceId: Uuid): nat {
    if workspaceId in s.heads then s.heads[workspaceId] else 0
  }

  function DroppedOf(s: State, workspaceId: Uuid): nat {
    if workspaceId in s.dropped then s.dropped[workspaceId] else 0
  }

  predicate In(s: State, id: nat, phase: Phase) {
    id in s.sockets && s.sockets[id].phase == phase
  }

  predicate Enabled(s: State, e: Event) {
    match e
    case Commit(poster, _) => poster !in s.posters
    case Notify(poster) => poster in s.posters
    case Die(poster) => poster in s.posters
    case Subscribe(id, _, _) => id !in s.sockets
    case FirstFrame(id) => In(s, id, Handshake)
    case Wake(id) => In(s, id, Waiting) && s.sockets[id].event && !s.sockets[id].armed
    case PokeFrame(id) => In(s, id, Sending)
    case Timeout(id) => In(s, id, Waiting) && !s.sockets[id].armed
    case KeepaliveFrame(id) => In(s, id, Keepalive)
    case RevokeMember(_, _) => true
    case Close(id) => id in s.sockets
  }

  function Poked(sockets: map<nat, Socket>, workspaceId: Uuid): map<nat, Socket> {
    map id | id in sockets ::
      if sockets[id].workspaceId == workspaceId && sockets[id].phase != Closed then
        sockets[id].(event := true)
      else sockets[id]
  }

  function Tripped(sockets: map<nat, Socket>, workspaceId: Uuid, memberId: Uuid): map<nat, Socket> {
    map id | id in sockets ::
      var socket := sockets[id];
      if socket.workspaceId == workspaceId && socket.memberId == memberId && socket.phase != Closed then
        socket.(revoked := true)
      else socket
  }

  function Moved(s: State, id: nat, socket: Socket): State {
    s.(sockets := s.sockets[id := socket])
  }

  function After(s: State, e: Event): State
    requires Enabled(s, e)
  {
    match e
    case Commit(poster, w) =>
      var head := HeadOf(s, w) + 1;
      s.(heads := s.heads[w := head], posters := s.posters[poster := Poster(w, head)])
    case Notify(poster) =>
      s.(posters := s.posters - {poster}, sockets := Poked(s.sockets, s.posters[poster].workspaceId))
    case Die(poster) =>
      var p := s.posters[poster];
      var latest := if DroppedOf(s, p.workspaceId) < p.head then p.head else DroppedOf(s, p.workspaceId);
      s.(posters := s.posters - {poster}, dropped := s.dropped[p.workspaceId := latest])
    case Subscribe(id, w, m) => Moved(s, id, Socket(w, m, Handshake, false, false, false, 0, HeadOf(s, w), 0))
    case FirstFrame(id) => Moved(s, id, s.sockets[id].Sent().(known := s.sockets[id].due))
    case Wake(id) =>
      Moved(s, id, s.sockets[id].(phase := Sending, event := false, due := HeadOf(s, s.sockets[id].workspaceId)))
    case PokeFrame(id) => Moved(s, id, s.sockets[id].Sent().(known := s.sockets[id].due))
    case Timeout(id) => Moved(s, id, s.sockets[id].(phase := Keepalive))
    case KeepaliveFrame(id) => Moved(s, id, s.sockets[id].Sent())
    case RevokeMember(w, m) => s.(sockets := Tripped(s.sockets, w, m))
    case Close(id) => Moved(s, id, s.sockets[id].(phase := Closed))
  }

  const START := State(map[], map[], map[], map[])

  ghost predicate Runs(states: seq<State>, events: seq<Event>) {
    && |states| == |events| + 1 && states[0] == START
    && forall k | 0 <= k < |events| :: Enabled(states[k], events[k]) && states[k + 1] == After(states[k], events[k])
  }

  // --- The invariant ---

  /** Some poster that committed past `head` is still before its `notify`. */
  ghost predicate PosterPending(s: State, workspaceId: Uuid, head: nat) {
    exists p | p in s.posters :: s.posters[p].workspaceId == workspaceId && head < s.posters[p].head
  }

  /** The head that the frame being sent answers for, or that the last one did. */
  function Promised(socket: Socket): nat {
    if socket.phase in {Handshake, Sending} then socket.due else socket.known
  }

  /** News beyond the last frame, sent or on its way, is signalled, or about to be, or died with its poster. */
  ghost predicate NotMissed(s: State, socket: Socket) {
    && socket.known <= HeadOf(s, socket.workspaceId) && socket.due <= HeadOf(s, socket.workspaceId)
    && (socket.phase != Closed && Promised(socket) < HeadOf(s, socket.workspaceId) ==>
          || socket.event
          || PosterPending(s, socket.workspaceId, Promised(socket))
          || Promised(socket) < DroppedOf(s, socket.workspaceId))
  }

  /** What is pending or dropped was committed. */
  ghost predicate HeadsBound(s: State) {
    && (forall p | p in s.posters :: s.posters[p].head <= HeadOf(s, s.posters[p].workspaceId))
    && (forall w | w in s.dropped :: s.dropped[w] <= HeadOf(s, w))
  }

  ghost predicate NoneMissed(s: State) {
    HeadsBound(s) && forall id | id in s.sockets :: NotMissed(s, s.sockets[id])
  }

  lemma StepMissesNone(s: State, e: Event)
    requires NoneMissed(s) && Enabled(s, e)
    ensures NoneMissed(After(s, e))
  {
    hide HeadsBound, NotMissed;
    HeadsStayBound(s, e);
    forall id | id in After(s, e).sockets
      ensures NotMissed(After(s, e), After(s, e).sockets[id])
    {
      if id in s.sockets {
        SocketStep(s, e, id);
      } else {
        NewSocket(s, e, id);
      }
    }
  }

  lemma HeadsGrow(s: State, e: Event)
    requires Enabled(s, e)
    ensures forall w :: HeadOf(s, w) <= HeadOf(After(s, e), w)
  {
    hide Poked, Tripped, DroppedOf;
  }

  lemma HeadsStayBound(s: State, e: Event)
    requires HeadsBound(s) && Enabled(s, e)
    ensures HeadsBound(After(s, e))
  {
    hide Poked, Tripped;
    var s' := After(s, e);
    HeadsGrow(s, e);
    forall p | p in s'.posters
      ensures s'.posters[p].head <= HeadOf(s', s'.posters[p].workspaceId)
    {
      hide DroppedOf;
      assert p in s.posters || e.Commit?;
    }
    forall w | w in s'.dropped
      ensures s'.dropped[w] <= HeadOf(s', w)
    {
    }
  }

  lemma NewSocket(s: State, e: Event, id: nat)
    requires Enabled(s, e) && id !in s.sockets && id in After(s, e).sockets
    ensures NotMissed(After(s, e), After(s, e).sockets[id])
  {
  }

  lemma SocketStep(s: State, e: Event, id: nat)
    requires Enabled(s, e) && id in s.sockets && NotMissed(s, s.sockets[id])
    ensures id in After(s, e).sockets && NotMissed(After(s, e), After(s, e).sockets[id])
  {
    hide NotMissed;
    match e
    case Commit(poster, w) => CommitMissesNone(s, poster, w, id);
    case Notify(poster) => NotifyMissesNone(s, poster, id);
    case Die(poster) => DeathIsDropped(s, poster, id);
    case _ => OtherStep(s, e, id);
  }

  /** No other step changes what is committed, pending or dropped. */
  lemma OtherStep(s: State, e: Event, id: nat)
    requires Enabled(s, e) && !e.Commit? && !e.Notify? && !e.Die? && id in s.sockets && NotMissed(s, s.sockets[id])
    ensures id in After(s, e).sockets && NotMissed(After(s, e), After(s, e).sockets[id])
  {
    hide PosterPending;
    SamePosters(s, After(s, e));
  }

  lemma SamePosters(a: State, b: State)
    requires a.posters == b.posters
    ensures forall w, head :: PosterPending(a, w, head) == PosterPending(b, w, head)
  {
  }

  lemma CommitMissesNone(s: State, poster: nat, w: Uuid, id: nat)
    requires poster !in s.posters && id in s.sockets && NotMissed(s, s.sockets[id])
    ensures NotMissed(After(s, Commit(poster, w)), s.sockets[id])
  {
    var s', mine, head := After(s, Commit(poster, w)), s.sockets[id].workspaceId, Promised(s.sockets[id]);
    assert s'.posters[poster] == Poster(w, HeadOf(s, w) + 1);
    if PosterPending(s, mine, head) {
      var p :| p in s.posters && s.posters[p].workspaceId == mine && head < s.posters[p].head;
      assert p in s'.posters && s'.posters[p] == s.posters[p];
    }
  }

  lemma NotifyMissesNone(s: State, poster: nat, id: nat)
    requires poster in s.posters && id in s.sockets && NotMissed(s, s.sockets[id])
    ensures NotMissed(After(s, Notify(poster)), After(s, Notify(poster)).sockets[id])
  {
    var s', mine, head := After(s, Notify(poster)), s.sockets[id].workspaceId, Promised(s.sockets[id]);
    if s.posters[poster].workspaceId != mine && PosterPending(s, mine, head) {
      var p :| p in s.posters && s.posters[p].workspaceId == mine && head < s.posters[p].head;
      assert p in s'.posters && s'.posters[p] == s.posters[p];
    }
  }

  lemma DeathIsDropped(s: State, poster: nat, id: nat)
    requires poster in s.posters && id in s.sockets && NotMissed(s, s.sockets[id])
    ensures NotMissed(After(s, Die(poster)), s.sockets[id])
  {
    var s', mine, head := After(s, Die(poster)), s.sockets[id].workspaceId, Promised(s.sockets[id]);
    if PosterPending(s, mine, head) {
      var p :| p in s.posters && s.posters[p].workspaceId == mine && head < s.posters[p].head;
      if p != poster {
        assert p in s'.posters && s'.posters[p] == s.posters[p];
      }
    }
  }

  /**
   In every reachable state, when the committed head has moved past a socket's last poke frame, its flag is set, or
   a poster is between commit and notify, or its pump is between clear and send, or its handshake is between
   subscribing and the first frame; or a poster that committed since that frame died before its notify.
   */
  lemma {:induction false} NoLostWakeUp(states: seq<State>, events: seq<Event>, k: nat)
    requires Runs(states, events) && k < |states|
    ensures NoneMissed(states[k])
    ensures forall id | id in states[k].sockets ::
              var socket := states[k].sockets[id];
              socket.phase != Closed && socket.known < HeadOf(states[k], socket.workspaceId) ==>
                || socket.event || PosterPending(states[k], socket.workspaceId, socket.known)
                || socket.phase in {Sending, Handshake} || socket.known < DroppedOf(states[k], socket.workspaceId)
  {
    hide After, Enabled, PosterPending, HeadsBound;
    if k > 0 {
      NoLostWakeUp(states, events, k - 1);
      StepMissesNone(states[k - 1], events[k - 1]);
    } else {
      StartMissesNone();
    }
    assert forall id | id in states[k].sockets :: NotMissed(states[k], states[k].sockets[id]);
  }

  lemma StartMissesNone()
    ensures NoneMissed(START)
  {
  }

  /**
   A socket at rest, with nothing signalled and no poster about to signal, has been poked for the whole log if and
   only if no poster that committed past its last frame died before its notify.
   */
  lemma QuietMeansCurrent(states: seq<State>, events: seq<Event>, k: nat, id: nat)
    requires Runs(states, events) && k < |states| && id in states[k].sockets
    requires var socket := states[k].sockets[id];
             && socket.phase in {Waiting, Keepalive} && !socket.event
             && !PosterPending(states[k], socket.workspaceId, socket.known)
    ensures var socket := states[k].sockets[id];
            socket.known == HeadOf(states[k], socket.workspaceId) <==>
            DroppedOf(states[k], socket.workspaceId) <= socket.known
  {
    hide Runs, PosterPending;
    NoLostWakeUp(states, events, k);
    assert NotMissed(states[k], states[k].sockets[id]);
  }

  /** Such a death does lose a poke: commit, die, and the subscriber rests behind the head. */
  lemma DeathLosesAPoke(w: Uuid, m: Uuid) returns (states: seq<State>, events: seq<Event>)
    ensures Runs(states, events) && |states| == 5
    ensures var s := states[4];
            && 0 in s.sockets && s.sockets[0].phase == Waiting && !s.sockets[0].event && s.posters == map[]
            && s.sockets[0].known < HeadOf(s, w) && s.sockets[0].workspaceId == w
  {
    events := [Subscribe(0, w, m), FirstFrame(0), Commit(0, w), Die(0)];
    var one := After(START, events[0]);
    var two := After(one, events[1]);
    var three := After(two, events[2]);
    states := [START, one, two, three, After(three, events[3])];
  }

  /** A poke or a revocation changes only sockets of its own Workspace, and a revocation only its own Member's. */
  lemma SignalsStayHome(s: State, e: Event, id: nat)
    requires Enabled(s, e) && id in s.sockets
    ensures id in After(s, e).sockets
    ensures var was, now := s.sockets[id], After(s, e).sockets[id];
            && (now.event && !was.event ==> e.Notify? && s.posters[e.poster].workspaceId == was.workspaceId)
            && (now.revoked && !was.revoked ==> e == RevokeMember(was.workspaceId, was.memberId))
            && (was.revoked ==> now.revoked)
            && now.workspaceId == was.workspaceId && now.memberId == was.memberId
  {
  }

  /** The frames a socket may still send once it is revoked. */
  function FramesLeft(socket: Socket): nat {
    if socket.phase == Closed || (socket.phase == Waiting && socket.armed) then 0 else 1
  }

  /** After a revocation a socket sends at most one more frame of any kind. */
  lemma {:induction false} RevokedSendsOneFrameAtMost(states: seq<State>, events: seq<Event>, j: nat, k: nat, id: nat)
    requires Runs(states, events) && j <= k < |states| && id in states[j].sockets && states[j].sockets[id].revoked
    ensures id in states[k].sockets && states[k].sockets[id].revoked
    ensures states[k].sockets[id].frames + FramesLeft(states[k].sockets[id])
         <= states[j].sockets[id].frames + FramesLeft(states[j].sockets[id])
         <= states[j].sockets[id].frames + 1
    decreases k
  {
    hide After, Enabled;
    if j < k {
      RevokedSendsOneFrameAtMost(states, events, j, k - 1, id);
      SignalsStayHome(states[k - 1], events[k - 1], id);
      RevokedStep(states[k - 1], events[k - 1], id);
    }
  }

  lemma RevokedStep(s: State, e: Event, id: nat)
    requires Enabled(s, e) && id in s.sockets && s.sockets[id].revoked
    ensures var was, now := s.sockets[id], After(s, e).sockets[id];
            now.frames + FramesLeft(now) <= was.frames + FramesLeft(was)
  {
  }
}
