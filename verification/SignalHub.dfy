/**
 The in-process fan-out of the payload-free signal: subscriptions with two flags each, and the hub that sets them.
 Source: backend/app/sync/signal_hub.py.
 */
module Signals {
  import opened ByteStrings

  /** One subscriber's handle: a flag for news and a flag for revocation. */
  class SignalSubscription {
    const workspaceId: Uuid
    const memberId: Uuid
    var event: bool
    var revoked: bool

    constructor (workspaceId: Uuid, memberId: Uuid)
      ensures this.workspaceId == workspaceId && this.memberId == memberId && !event && !revoked
    {
      this.workspaceId := workspaceId;
      this.memberId := memberId;
      event := false;
      revoked := false;
    }

    method Clear()
      modifies this`event
      ensures !event
    {
      event := false;
    }

    method Notify()
      modifies this`event
      ensures event
    {
      event := true;
    }

    /** Never undone: nothing resets `revoked`. */
    method Revoke()
      modifies this`revoked
      ensures revoked
    {
      revoked := true;
    }
  }

  class SignalHub {
    var subscribers: map<Uuid, set<SignalSubscription>>

    /** A Workspace is listed while it has subscribers, and holds only its own. */
    ghost predicate Valid()
      reads this
    {
      forall w | w in subscribers :: subscribers[w] != {} && forall s | s in subscribers[w] :: s.workspaceId == w
    }

    function SubscribersOf(workspaceId: Uuid): set<SignalSubscription>
      reads this
    {
      if workspaceId in subscribers then subscribers[workspaceId] else {}
    }

    constructor ()
      ensures Valid() && forall w :: SubscribersOf(w) == {}
    {
      subscribers := map[];
    }

    method Subscribe(workspaceId: Uuid, memberId: Uuid) returns (s: SignalSubscription)
      requires Valid()
      modifies this
      ensures Valid() && fresh(s) && s.workspaceId == workspaceId && s.memberId == memberId && !s.event && !s.revoked
      ensures SubscribersOf(workspaceId) == old(SubscribersOf(workspaceId)) + {s}
      ensures forall w | w != workspaceId :: SubscribersOf(w) == old(SubscribersOf(w))
    {
      s := new SignalSubscription(workspaceId, memberId);
      subscribers := subscribers[workspaceId := SubscribersOf(workspaceId) + {s}];
    }

    method Unsubscribe(workspaceId: Uuid, s: SignalSubscription)
      requires Valid()
      modifies this
      ensures Valid()
      ensures SubscribersOf(workspaceId) == old(SubscribersOf(workspaceId)) - {s}
      ensures forall w | w != workspaceId :: SubscribersOf(w) == old(SubscribersOf(w))
    {
      if workspaceId !in subscribers { return; }
      var holders := subscribers[workspaceId] - {s};
      if holders == {} {
        subscribers := subscribers - {workspaceId};
      } else {
        subscribers := subscribers[workspaceId := holders];
      }
    }

    /** Sets the news flag of each subscription listed under the Workspace; no other flag changes. */
    method Notify(workspaceId: Uuid)
      requires Valid()
      modifies SubscribersOf(workspaceId)`event
      ensures Valid()
      ensures forall s | s in SubscribersOf(workspaceId) :: s.event
      ensures forall s: SignalSubscription | old(allocated(s)) && s.workspaceId != workspaceId ::
                s.event == old(s.event)
    {
      var todo := SubscribersOf(workspaceId);
      while todo != {}
        invariant todo <= SubscribersOf(workspaceId)
        invariant forall s | s in SubscribersOf(workspaceId) - todo :: s.event
      {
        var s :| s in todo;
        assert s.workspaceId == workspaceId;
        s.Notify();
        todo := todo - {s};
      }
    }

    /** Sets the revocation flag of the Member's own subscriptions there, and counts them. */
    method Revoke(workspaceId: Uuid, memberId: Uuid) returns (tripped: nat)
      requires Valid()
      modifies SubscribersOf(workspaceId)`revoked
      ensures Valid()
      ensures forall s | s in SubscribersOf(workspaceId) :: s.revoked == (old(s.revoked) || s.memberId == memberId)
      ensures tripped == |HeldBy(SubscribersOf(workspaceId), memberId)|
    {
      hide HeldBy, Passed;
      var todo := SubscribersOf(workspaceId);
      tripped := 0;
      NonePassed(todo, memberId);
      while todo != {}
        invariant todo <= SubscribersOf(workspaceId) && tripped == Passed(SubscribersOf(workspaceId), todo, memberId)
        invariant forall s | s in SubscribersOf(workspaceId) ::
                    s.revoked == (old(s.revoked) || (s !in todo && s.memberId == memberId))
      {
        var s :| s in todo;
        OnePassed(SubscribersOf(workspaceId), todo, memberId, s);
        if s.memberId == memberId {
          s.Revoke();
          tripped := tripped + 1;
        }
        todo := todo - {s};
      }
      AllPassed(SubscribersOf(workspaceId), memberId);
    }
  }

  // --- A turn of the pump ---

  /** What a turn does once its wait is over: one of the two frames, or one of the two ways out. */
  datatype Turn = SendPoke | SendKeepalive | CloseForbidden | Stop

  /** News is forgotten only by the turn that passes it on; revocation goes first, a disconnect next. */
  method PumpTurn(s: SignalSubscription, waiterDone: bool, revokedDone: bool, readerDone: bool) returns (turn: Turn)
    modifies s`event
    ensures turn.CloseForbidden? <==> revokedDone
    ensures turn.Stop? <==> readerDone && !revokedDone
    ensures turn.SendPoke? <==> waiterDone && !revokedDone && !readerDone
    ensures s.event == (old(s.event) && !turn.SendPoke?)
  {
    if revokedDone { return CloseForbidden; }
    if readerDone { return Stop; }
    if waiterDone {
      s.Clear();
      return SendPoke;
    }
    return SendKeepalive;
  }

  /** One Member's subscriptions among some. */
  function HeldBy(subscriptions: set<SignalSubscription>, memberId: Uuid): (held: set<SignalSubscription>)
    ensures held <= subscriptions
  {
    set s | s in subscriptions && s.memberId == memberId
  }

  /** How many of that Member's subscriptions the loop is past. */
  ghost function Passed(all: set<SignalSubscription>, todo: set<SignalSubscription>, memberId: Uuid): nat {
    |HeldBy(all, memberId) - todo|
  }

  lemma NonePassed(all: set<SignalSubscription>, memberId: Uuid)
    ensures Passed(all, all, memberId) == 0
  {
  }

  lemma OnePassed(all: set<SignalSubscription>, todo: set<SignalSubscription>, memberId: Uuid, s: SignalSubscription)
    requires s in todo && todo <= all
    ensures Passed(all, todo - {s}, memberId) == Passed(all, todo, memberId) + if s.memberId == memberId then 1 else 0
  {
    var held := HeldBy(all, memberId);
    assert held - (todo - {s}) == (held - todo) + if s in held then {s} else {};
  }

  lemma AllPassed(all: set<SignalSubscription>, memberId: Uuid)
    ensures Passed(all, {}, memberId) == |HeldBy(all, memberId)|
  {
  }
}
