/** The socket event handlers as state transitions: each takes the state
    before the event and gives the state after it with the messages sent.
    Node runs one handler to completion before the next, so every event is
    one atomic step. */
module Handlers {
  import opened Protocol
  import opened Registry
  import opened Matchmaker

  /** The client events the server reacts to; `conn` is the socket the
      event arrives on. */
  datatype Event =
    | Register(conn: Handle, name: string)
    | Relay(kind: RelayKind, conn: Handle, target: Handle, payload: Payload)
    | EndRoom(conn: Handle)
    | EndCall(conn: Handle)
    | Disconnect(conn: Handle)

  /** `users[k]` back to `available` with its peer cleared. */
  function Release(users: map<Handle, User>, k: Handle): map<Handle, User>
    requires k in users
  {
    users[k := users[k].(status := Available)]
  }

  /** The state once a new user is stored and queued. */
  function Admit(s: State, h: Handle, name: string): State
  {
    State(s.users[h := User(name, h, Available)], s.order + [h], s.queue + [h])
  }

  lemma AdmitWellformed(s: State, h: Handle, name: string)
    requires Wellformed(s) && h !in s.users
    ensures Wellformed(Admit(s, h, name))
  {
    var t := Admit(s, h, name);
    assert forall i :: 0 <= i < |s.order| ==> t.order[i] == s.order[i];
  }

  /** The tail every state-changing handler shares: broadcast the roster,
      then run the matchmaker. */
  function Conclude(x: Step): Step
    requires Wellformed(x.st)
  {
    var m := Matchmake(x.st);
    Step(m.st, x.out + [UserList(Snapshot(x.st.users, x.st.order))] + m.out)
  }

  /** `register`: a name already held by a registered user is refused and
      the connection closed; otherwise the user is stored as available,
      queued at the back, greeted, and the matchmaker runs. A connection
      registers at most once (`h !in s.users`). */
  function RegisterStep(s: State, h: Handle, name: string): Step
    requires Wellformed(s) && h !in s.users
  {
    if NameHeld(s.users, name) then
      Step(s, [Notice(h, TakenNotice(name)), Close(h)])
    else
      AdmitWellformed(s, h, name);
      Conclude(Step(Admit(s, h, name), [Notice(h, ConnectedNotice)]))
  }

  lemma ReleaseWellformed(s: State, p: Handle)
    requires Wellformed(s) && p in s.users
    ensures Wellformed(State(Release(s.users, p), s.order, s.queue + [p]))
  {
    var t := State(Release(s.users, p), s.order, s.queue + [p]);
    assert forall i :: 0 <= i < |s.queue| ==> t.queue[i] == s.queue[i];
  }

  /** A registered user made available with its peer cleared and pushed on
      the back of the queue. */
  function Requeue(s: State, p: Handle): (t: State)
    requires Wellformed(s) && p in s.users
    ensures Wellformed(t)
  {
    ReleaseWellformed(s, p);
    State(Release(s.users, p), s.order, s.queue + [p])
  }

  /** The first half of `end-call`, for a caller in a call: the caller, then
      the peer if it is still registered, made available and queued; the
      peer told. */
  function HangUp(s: State, h: Handle): (r: Step)
    requires Wellformed(s) && h in s.users && s.users[h].status.InCall?
    ensures Wellformed(r.st)
  {
    var me := s.users[h];
    var p := me.status.peer;
    var c := Requeue(s, h);
    if p in c.users then
      Step(Requeue(c, p), [CallEndedByPeer(p), Notice(p, CallEndedNotice(me.userId))])
    else
      Step(c, [])
  }

  /** `end-call`: only a user in a call acts; it and then its peer (when the
      peer is still registered) become available and are queued in that
      order, the peer is told, and the matchmaker runs. */
  function EndCallStep(s: State, h: Handle): Step
    requires Wellformed(s)
  {
    if h in s.users && s.users[h].status.InCall? then Conclude(HangUp(s, h)) else Step(s, [])
  }

  lemma RemoveWellformed(s: State, h: Handle)
    requires Wellformed(s) && NoDup(s.queue) && h in s.users
    ensures Wellformed(State(s.users - {h}, Without(s.order, h), Without(s.queue, h)))
  {
    WithoutRemoves(s.order, h);
    WithoutRemoves(s.queue, h);
    var o := Without(s.order, h);
    var q := Without(s.queue, h);
    assert forall i :: 0 <= i < |o| ==> o[i] in s.order;
    assert forall i :: 0 <= i < |q| ==> q[i] in s.queue;
  }

  /** A registered user deleted from the registry and its iteration order,
      with its first queue entry spliced out. */
  function Removed(s: State, h: Handle): (t: State)
    requires Wellformed(s) && NoDup(s.queue) && h in s.users
    ensures Wellformed(t)
  {
    RemoveWellformed(s, h);
    State(s.users - {h}, Without(s.order, h), Without(s.queue, h))
  }

  /** The first half of `disconnect`, for a registered user: remove it, and
      free, queue and tell a surviving peer. */
  function Leave(s: State, h: Handle): (r: Step)
    requires Wellformed(s) && NoDup(s.queue) && h in s.users
    ensures Wellformed(r.st)
  {
    var gone := s.users[h];
    var t := Removed(s, h);
    if gone.status.InCall? && gone.status.peer in t.users then
      var p := gone.status.peer;
      Step(Requeue(t, p), [CallEndedByPeer(p), Notice(p, PeerLeftNotice(gone.userId))])
    else
      Step(t, [])
  }

  /** `disconnect`: an unregistered connection does nothing. Otherwise the
      user is deleted, its first queue entry spliced out, a surviving peer is
      made available, queued and told, and the matchmaker runs. */
  function DisconnectStep(s: State, h: Handle): Step
    requires Wellformed(s) && NoDup(s.queue)
  {
    if h !in s.users then Step(s, []) else Conclude(Leave(s, h))
  }

  /** `offer`, `answer`, `ice-candidate`: forward the payload to the named
      target, tagged with the sender, whoever the target is. */
  function RelayStep(s: State, kind: RelayKind, sender: Handle, target: Handle, payload: Payload): Step
  {
    Step(s, [Relayed(kind, target, sender, payload)])
  }

  /** `end-room`: the server closes the connection; the clean-up is the
      `disconnect` event that follows. */
  function EndRoomStep(s: State, h: Handle): Step
  {
    Step(s, [Close(h)])
  }

  /** Events the model admits: a connection registers at most once. */
  predicate Allowed(s: State, e: Event)
  {
    e.Register? ==> e.conn !in s.users
  }

  function Apply(s: State, e: Event): Step
    requires Consistent(s) && Allowed(s, e)
  {
    match e
    case Register(h, name) => RegisterStep(s, h, name)
    case Relay(kind, h, target, payload) => RelayStep(s, kind, h, target, payload)
    case EndRoom(h) => EndRoomStep(s, h)
    case EndCall(h) => EndCallStep(s, h)
    case Disconnect(h) => DisconnectStep(s, h)
  }

  // ---- register ----

  /** A taken name is refused: the caller is told and its connection closed,
      and the registry and queue are unchanged. */
  lemma RegisterRefusesTakenName(s: State, h: Handle, name: string)
    requires Wellformed(s) && h !in s.users
    requires NameHeld(s.users, name)
    ensures RegisterStep(s, h, name).st == s
    ensures RegisterStep(s, h, name).out == [Notice(h, TakenNotice(name)), Close(h)]
  {
  }

  /** A free name is admitted: a new available user with no peer is stored,
      queued at the back, greeted, and then the matchmaker runs. */
  lemma RegisterAdmits(s: State, h: Handle, name: string)
    requires Wellformed(s) && h !in s.users
    requires !NameHeld(s.users, name)
    ensures (AdmitWellformed(s, h, name);
      var t := State(s.users[h := User(name, h, Available)], s.order + [h], s.queue + [h]);
      && RegisterStep(s, h, name).st == Matchmake(t).st
      && RegisterStep(s, h, name).out ==
           [Notice(h, ConnectedNotice), UserList(Snapshot(t.users, t.order))] + Matchmake(t).out)
  {
  }

  /** In a settled state (at most one user waiting), a newcomer either waits
      alone or is paired with the waiting user, who starts the call. */
  lemma RegisterMatchesWaiting(s: State, h: Handle, name: string)
    requires Consistent(s) && |s.queue| <= 1 && h !in s.users
    requires !NameHeld(s.users, name)
    ensures var r := RegisterStep(s, h, name);
      && |r.out| >= 3
      && r.out[0] == Notice(h, ConnectedNotice)
      && h in r.st.users && r.st.users[h].userId == name
      && (s.queue == [] ==>
            && r.st.queue == [h] && r.st.users[h].status == Available
            && r.out[2..] == [Notice(h, WaitingNotice)])
      && (|s.queue| == 1 ==>
            var x := s.queue[0];
            && r.st.queue == []
            && r.st.users[x].status == InCall(h) && r.st.users[h].status == InCall(x)
            && r.out[2] == CallInitiated(x, name, h)
            && r.out[3] == CallIncoming(h, s.users[x].userId, x))
  {
    AdmitWellformed(s, h, name);
    var t := Admit(s, h, name);
    if s.queue == [] {
      MatchmakeWaits(t);
    } else {
      var x := s.queue[0];
      assert t.queue == [x, h];
      assert x != h;
      MatchmakePairsFirstTwo(t);
    }
  }

  lemma AdmitConsistent(s: State, h: Handle, name: string)
    requires Consistent(s) && h !in s.users
    requires !NameHeld(s.users, name)
    ensures Consistent(Admit(s, h, name))
  {
    AdmitWellformed(s, h, name);
    AdmitQueue(s, h, name);
    AdmitPeers(s, h, name);
    AdmitNames(s, h, name);
  }

  lemma AdmitQueue(s: State, h: Handle, name: string)
    requires QueueAvailable(s) && NoDup(s.queue) && AvailableQueued(s) && h !in s.users
    ensures var t := Admit(s, h, name);
      QueueAvailable(t) && NoDup(t.queue) && AvailableQueued(t)
  {
    var t := Admit(s, h, name);
    assert forall i :: 0 <= i < |s.queue| ==> t.queue[i] == s.queue[i];
    assert h !in s.queue;
    forall k | k in t.users && t.users[k].status == Available
      ensures k in t.queue
    {
      if k != h {
        var i :| 0 <= i < |s.queue| && s.queue[i] == k;
        assert t.queue[i] == k;
      }
    }
  }

  lemma AdmitPeers(s: State, h: Handle, name: string)
    requires PeersSymmetric(s) && h !in s.users
    ensures PeersSymmetric(Admit(s, h, name))
  {
    var users := Admit(s, h, name).users;
    forall k | k in users && users[k].status.InCall?
      ensures var q := users[k].status.peer; q != k && q in users && users[q].status == InCall(k)
    {
      assert k != h;
    }
  }

  lemma AdmitNames(s: State, h: Handle, name: string)
    requires NamesUnique(s) && h !in s.users && !NameHeld(s.users, name)
    ensures NamesUnique(Admit(s, h, name))
  {
    var users := Admit(s, h, name).users;
    forall k1, k2 | k1 in users && k2 in users && users[k1].userId == users[k2].userId
      ensures k1 == k2
    {
      if k1 != h && k2 != h {
        assert s.users[k1].userId == s.users[k2].userId;
      }
    }
  }

  /** `register` keeps the invariant, and a settled state stays settled. */
  lemma RegisterPreserves(s: State, h: Handle, name: string)
    requires Consistent(s) && h !in s.users
    ensures Consistent(RegisterStep(s, h, name).st)
    ensures |s.queue| <= 1 ==> |RegisterStep(s, h, name).st.queue| <= 1
  {
    if !NameHeld(s.users, name) {
      AdmitConsistent(s, h, name);
      MatchmakePreserves(Admit(s, h, name));
    }
  }

  // ---- end-call ----

  /** `end-call` from a user who is not in a call changes nothing and sends
      nothing. */
  lemma EndCallIgnored(s: State, h: Handle)
    requires Wellformed(s)
    requires h !in s.users || s.users[h].status == Available
    ensures EndCallStep(s, h) == Step(s, [])
  {
  }

  /** Ending a call queues the caller and then the peer, both available
      with no peer; the peer is told first that the call ended, then why;
      then the roster is broadcast and the matchmaker runs. */
  lemma EndCallRequeuesBoth(s: State, h: Handle)
    requires Wellformed(s) && h in s.users && s.users[h].status.InCall?
    requires s.users[h].status.peer in s.users
    ensures var p := s.users[h].status.peer;
      var t := State(s.users[h := s.users[h].(status := Available)][p := s.users[p].(status := Available)],
                     s.order, s.queue + [h, p]);
      && HangUp(s, h).st == t
      && EndCallStep(s, h).st == Matchmake(t).st
      && EndCallStep(s, h).out ==
           [CallEndedByPeer(p), Notice(p, CallEndedNotice(s.users[h].userId)), UserList(Snapshot(t.users, t.order))]
           + Matchmake(t).out
  {
    var p := s.users[h].status.peer;
    var t := State(s.users[h := s.users[h].(status := Available)][p := s.users[p].(status := Available)],
                   s.order, s.queue + [h, p]);
    assert (s.queue + [h]) + [p] == s.queue + [h, p];
    assert HangUp(s, h).st == t;
  }

  /** With nobody else waiting, ending a call puts the same two users back
      in a call with each other at once, the caller now starting it: the
      state after the event is the state before it. */
  lemma EndCallRepairsSamePair(s: State, h: Handle)
    requires Consistent(s) && s.queue == [] && h in s.users && s.users[h].status.InCall?
    ensures var p := s.users[h].status.peer;
      var r := EndCallStep(s, h);
      && r.st == s
      && |r.out| == 6
      && r.out[3] == CallInitiated(h, s.users[p].userId, p)
      && r.out[4] == CallIncoming(p, s.users[h].userId, h)
  {
    var p := s.users[h].status.peer;
    assert p != h && p in s.users && s.users[p].status == InCall(h);
    RepairSamePair(s, h, p);
  }

  lemma RepairSamePair(s: State, h: Handle, p: Handle)
    requires Wellformed(s) && s.queue == [] && h in s.users && p in s.users && h != p
    requires s.users[h].status == InCall(p) && s.users[p].status == InCall(h)
    ensures var r := EndCallStep(s, h);
      && r.st == s
      && |r.out| == 6
      && r.out[3] == CallInitiated(h, s.users[p].userId, p)
      && r.out[4] == CallIncoming(p, s.users[h].userId, h)
  {
    var x := HangUp(s, h);
    assert |x.out| == 2;
    RepairedPair(s, h, p);
  }

  lemma RepairedPair(s: State, h: Handle, p: Handle)
    requires Wellformed(s) && s.queue == [] && h in s.users && p in s.users && h != p
    requires s.users[h].status == InCall(p) && s.users[p].status == InCall(h)
    ensures var m := Matchmake(HangUp(s, h).st);
      && m.st == s
      && |m.out| == 3
      && m.out[0] == CallInitiated(h, s.users[p].userId, p)
      && m.out[1] == CallIncoming(p, s.users[h].userId, h)
  {
    var t := HangUp(s, h).st;
    assert t.users == Release(Release(s.users, h), p) && t.order == s.order && t.queue == [h, p];
    PairedRelease(s.users, h, p);
    MatchmakePairsFirstTwo(t);
  }

  /** Pairing two users that were just released from a call with each
      other gives back the registry as it was. */
  lemma PairedRelease(users: map<Handle, User>, h: Handle, p: Handle)
    requires h in users && p in users && h != p
    requires users[h].status == InCall(p) && users[p].status == InCall(h)
    ensures Paired(Release(Release(users, h), p), h, p) == users
  {
  }

  /** The state `end-call` hands to the matchmaker is consistent. */
  lemma EndCallReleaseConsistent(s: State, h: Handle)
    requires Consistent(s) && h in s.users && s.users[h].status.InCall?
    ensures Consistent(HangUp(s, h).st)
  {
    var p := s.users[h].status.peer;
    assert p != h && p in s.users && s.users[p].status == InCall(h);
    assert h !in s.queue && p !in s.queue;
    var t := HangUp(s, h).st;
    assert t == Requeue(Requeue(s, h), p);
    ReleasePairQueue(s, h, p);
    ReleasePairPeers(s, h, p);
    NamesKept(s, t);
  }

  lemma ReleasePairQueue(s: State, h: Handle, p: Handle)
    requires Wellformed(s) && QueueAvailable(s) && NoDup(s.queue) && AvailableQueued(s)
    requires h in s.users && p in s.users && h != p && h !in s.queue && p !in s.queue
    ensures var t := Requeue(Requeue(s, h), p);
      QueueAvailable(t) && NoDup(t.queue) && AvailableQueued(t)
  {
    ReleaseAppend(s, h);
    ReleaseAppend(Requeue(s, h), p);
  }

  lemma ReleasePairPeers(s: State, h: Handle, p: Handle)
    requires Wellformed(s) && PeersSymmetric(s) && h in s.users && p in s.users
    requires s.users[h].status == InCall(p) && s.users[p].status == InCall(h)
    ensures PeersSymmetric(Requeue(Requeue(s, h), p))
  {
    var users := Requeue(Requeue(s, h), p).users;
    forall k | k in users && users[k].status.InCall?
      ensures var q := users[k].status.peer; q != k && q in users && users[q].status == InCall(k)
    {
      assert k != h && k != p;
    }
  }

  /** `end-call` keeps the invariant, and a settled state stays settled. */
  lemma EndCallPreserves(s: State, h: Handle)
    requires Consistent(s)
    ensures Consistent(EndCallStep(s, h).st)
    ensures |s.queue| <= 1 ==> |EndCallStep(s, h).st.queue| <= 1
  {
    if h in s.users && s.users[h].status.InCall? {
      EndCallReleaseConsistent(s, h);
      MatchmakePreserves(HangUp(s, h).st);
    }
  }

  // ---- disconnect ----

  /** A connection that is not registered disconnects without effect. */
  lemma DisconnectIgnored(s: State, h: Handle)
    requires Wellformed(s) && NoDup(s.queue) && h !in s.users
    ensures DisconnectStep(s, h) == Step(s, [])
  {
  }

  /** A disconnect removes the user from the registry, its iteration order
      and the queue, and no other user. */
  lemma DisconnectRemoves(s: State, h: Handle)
    requires Wellformed(s) && NoDup(s.queue) && h in s.users
    ensures var r := DisconnectStep(s, h);
      && h !in r.st.users && h !in r.st.order && h !in r.st.queue
      && r.st.users.Keys == s.users.Keys - {h}
  {
    WithoutRemoves(s.order, h);
    WithoutRemoves(s.queue, h);
    MatchmakeFrame(Leave(s, h).st);
  }

  /** A disconnect out of a call frees the surviving peer: it is told,
      first that the call ended, then why, and is queued as available after
      the departed user's queue entry is spliced out; then the matchmaker
      runs. */
  lemma DisconnectFreesPeer(s: State, h: Handle)
    requires Wellformed(s) && NoDup(s.queue) && h in s.users
    requires s.users[h].status.InCall? && s.users[h].status.peer in s.users && s.users[h].status.peer != h
    ensures var p, r := s.users[h].status.peer, DisconnectStep(s, h);
      (RemoveWellformed(s, h);
       var t := State(Release(s.users - {h}, p), Without(s.order, h), Without(s.queue, h) + [p]);
       && r.st == Matchmake(t).st
       && r.out == [CallEndedByPeer(p), Notice(p, PeerLeftNotice(s.users[h].userId)),
                    UserList(Snapshot(t.users, t.order))] + Matchmake(t).out)
  {
    RemoveWellformed(s, h);
    var p := s.users[h].status.peer;
    LeaveFreesPeer(s, h);
    ConcludeTwo(Leave(s, h).st, CallEndedByPeer(p), Notice(p, PeerLeftNotice(s.users[h].userId)));
  }

  /** A disconnect by a user not in a call deletes it, splices its queue
      entry out and leaves everyone else as they were; the user list is
      broadcast and the matchmaker runs on what is left. */
  lemma DisconnectDequeues(s: State, h: Handle)
    requires Wellformed(s) && NoDup(s.queue) && h in s.users && !s.users[h].status.InCall?
    ensures (RemoveWellformed(s, h);
      var t := State(s.users - {h}, Without(s.order, h), Without(s.queue, h));
      && DisconnectStep(s, h).st == Matchmake(t).st
      && DisconnectStep(s, h).out == [UserList(Snapshot(t.users, t.order))] + Matchmake(t).out)
  {
    RemoveWellformed(s, h);
    LeaveAlone(s, h);
    ConcludeEmpty(Removed(s, h));
  }

  lemma ConcludeTwo(t: State, a: Message, b: Message)
    requires Wellformed(t)
    ensures Conclude(Step(t, [a, b])) == Step(Matchmake(t).st, [a, b, UserList(Snapshot(t.users, t.order))] + Matchmake(t).out)
  {
    assert [a, b] + [UserList(Snapshot(t.users, t.order))] == [a, b, UserList(Snapshot(t.users, t.order))];
  }

  lemma ConcludeEmpty(t: State)
    requires Wellformed(t)
    ensures Conclude(Step(t, [])) == Step(Matchmake(t).st, [UserList(Snapshot(t.users, t.order))] + Matchmake(t).out)
  {
    assert [] + [UserList(Snapshot(t.users, t.order))] == [UserList(Snapshot(t.users, t.order))];
  }

  lemma LeaveAlone(s: State, h: Handle)
    requires Wellformed(s) && NoDup(s.queue) && h in s.users && !s.users[h].status.InCall?
    ensures Removed(s, h) == State(s.users - {h}, Without(s.order, h), Without(s.queue, h))
    ensures Leave(s, h) == Step(Removed(s, h), [])
  {
  }

  lemma LeaveFreesPeer(s: State, h: Handle)
    requires Wellformed(s) && NoDup(s.queue) && h in s.users
    requires s.users[h].status.InCall? && s.users[h].status.peer in s.users && s.users[h].status.peer != h
    ensures var p := s.users[h].status.peer;
      Leave(s, h) == Step(State(Release(s.users - {h}, p), Without(s.order, h), Without(s.queue, h) + [p]),
                          [CallEndedByPeer(p), Notice(p, PeerLeftNotice(s.users[h].userId))])
  {
  }

  /** The state `disconnect` hands to the matchmaker is consistent. */
  lemma DisconnectReleaseConsistent(s: State, h: Handle)
    requires Consistent(s) && h in s.users
    ensures (RemoveWellformed(s, h);
      var users, order, queue := s.users - {h}, Without(s.order, h), Without(s.queue, h);
      var gone := s.users[h];
      && (gone.status.InCall? ==> Consistent(State(Release(users, gone.status.peer), order, queue + [gone.status.peer])))
      && (!gone.status.InCall? ==> Consistent(State(users, order, queue))))
  {
    RemoveWellformed(s, h);
    var users, order, queue := s.users - {h}, Without(s.order, h), Without(s.queue, h);
    var gone := s.users[h];
    if gone.status.InCall? {
      var p := gone.status.peer;
      assert p != h && p in s.users && s.users[p].status == InCall(h) && p !in s.queue;
      RemoveReleaseQueue(s, h, p);
      RemoveReleasePeers(s, h, p);
      NamesKept(s, State(Release(users, p), order, queue + [p]));
    } else {
      RemoveQueue(s, h);
      RemovePeers(s, h);
      NamesKept(s, State(users, order, queue));
    }
  }

  lemma RemoveQueue(s: State, h: Handle)
    requires Wellformed(s) && QueueAvailable(s) && NoDup(s.queue) && AvailableQueued(s) && h in s.users
    ensures var t := State(s.users - {h}, Without(s.order, h), Without(s.queue, h));
      Wellformed(t) && QueueAvailable(t) && NoDup(t.queue) && AvailableQueued(t)
  {
    RemoveWellformed(s, h);
    WithoutRemoves(s.queue, h);
    var queue := Without(s.queue, h);
    assert forall i :: 0 <= i < |queue| ==> queue[i] in s.queue;
  }

  lemma RemovePeers(s: State, h: Handle)
    requires PeersSymmetric(s) && h in s.users && s.users[h].status == Available
    ensures PeersSymmetric(State(s.users - {h}, Without(s.order, h), Without(s.queue, h)))
  {
    var users := s.users - {h};
    forall k | k in users && users[k].status.InCall?
      ensures var q := users[k].status.peer; q != k && q in users && users[q].status == InCall(k)
    {
      assert k != h;
    }
  }

  lemma RemoveReleaseQueue(s: State, h: Handle, p: Handle)
    requires Wellformed(s) && QueueAvailable(s) && NoDup(s.queue) && AvailableQueued(s)
    requires h in s.users && p in s.users && p != h && p !in s.queue
    ensures var t := State(Release(s.users - {h}, p), Without(s.order, h), Without(s.queue, h) + [p]);
      Wellformed(t) && QueueAvailable(t) && NoDup(t.queue) && AvailableQueued(t)
  {
    RemoveQueue(s, h);
    WithoutRemoves(s.queue, h);
    ReleaseAppend(State(s.users - {h}, Without(s.order, h), Without(s.queue, h)), p);
  }

  /** Making an unqueued user available and queueing it at the back keeps
      the queue facts. */
  lemma ReleaseAppend(s: State, p: Handle)
    requires Wellformed(s) && QueueAvailable(s) && NoDup(s.queue) && AvailableQueued(s)
    requires p in s.users && p !in s.queue
    ensures var t := State(Release(s.users, p), s.order, s.queue + [p]);
      Wellformed(t) && QueueAvailable(t) && NoDup(t.queue) && AvailableQueued(t)
  {
    var t := State(Release(s.users, p), s.order, s.queue + [p]);
    assert forall i :: 0 <= i < |s.queue| ==> t.queue[i] == s.queue[i];
    forall k | k in t.users && t.users[k].status == Available
      ensures k in t.queue
    {
      if k != p {
        var i :| 0 <= i < |s.queue| && s.queue[i] == k;
        assert t.queue[i] == k;
      }
    }
  }

  lemma RemoveReleasePeers(s: State, h: Handle, p: Handle)
    requires PeersSymmetric(s) && h in s.users && p in s.users && p != h
    requires s.users[h].status == InCall(p) && s.users[p].status == InCall(h)
    ensures PeersSymmetric(State(Release(s.users - {h}, p), Without(s.order, h), Without(s.queue, h) + [p]))
  {
    var users := Release(s.users - {h}, p);
    forall k | k in users && users[k].status.InCall?
      ensures var q := users[k].status.peer; q != k && q in users && users[q].status == InCall(k)
    {
      assert k != h && k != p;
    }
  }

  /** `disconnect` keeps the invariant, and a settled state stays settled. */
  lemma DisconnectPreserves(s: State, h: Handle)
    requires Consistent(s)
    ensures Consistent(DisconnectStep(s, h).st)
    ensures |s.queue| <= 1 ==> |DisconnectStep(s, h).st.queue| <= 1
  {
    if h in s.users {
      if s.users[h].status.InCall? {
        PeerLeftPreserves(s, h);
      } else {
        AloneLeftPreserves(s, h);
      }
    }
  }

  lemma PeerLeftPreserves(s: State, h: Handle)
    requires Consistent(s) && h in s.users && s.users[h].status.InCall?
    ensures Consistent(DisconnectStep(s, h).st)
    ensures |s.queue| <= 1 ==> |DisconnectStep(s, h).st.queue| <= 1
  {
    var p := s.users[h].status.peer;
    assert p != h && p in s.users;
    assert h !in s.queue;
    DisconnectReleaseConsistent(s, h);
    WithoutRemoves(s.queue, h);
    DisconnectFreesPeer(s, h);
    MatchmakePreserves(State(Release(s.users - {h}, p), Without(s.order, h), Without(s.queue, h) + [p]));
  }

  lemma AloneLeftPreserves(s: State, h: Handle)
    requires Consistent(s) && h in s.users && !s.users[h].status.InCall?
    ensures Consistent(DisconnectStep(s, h).st)
    ensures |s.queue| <= 1 ==> |DisconnectStep(s, h).st.queue| <= 1
  {
    DisconnectReleaseConsistent(s, h);
    WithoutRemoves(s.queue, h);
    DisconnectDequeues(s, h);
    MatchmakePreserves(State(s.users - {h}, Without(s.order, h), Without(s.queue, h)));
  }

  /** A second disconnect of the same connection has no further effect. */
  lemma DisconnectIdempotent(s: State, h: Handle)
    requires Consistent(s)
    ensures (DisconnectPreserves(s, h);
      DisconnectStep(DisconnectStep(s, h).st, h) == Step(DisconnectStep(s, h).st, []))
  {
    DisconnectPreserves(s, h);
    if h in s.users {
      DisconnectRemoves(s, h);
    }
  }

  // ---- relays, end-room, every event ----

  /** A relay sends exactly one message, to the target, carrying the sender
      and the payload unchanged, and touches neither registry nor queue. It
      does not check that the target is the sender's peer. */
  lemma RelayForwardsUnchanged(s: State, e: Event)
    requires Consistent(s) && e.Relay?
    ensures Apply(s, e).st == s
    ensures |Apply(s, e).out| == 1
    ensures forall h :: AddressedTo(Apply(s, e).out[0], h) <==> h == e.target
    ensures Apply(s, e).out[0] == Relayed(e.kind, e.target, e.conn, e.payload)
  {
  }

  /** `end-room` only closes the caller's connection. */
  lemma EndRoomOnlyCloses(s: State, h: Handle)
    ensures EndRoomStep(s, h).st == s
    ensures EndRoomStep(s, h).out == [Close(h)]
  {
  }

  /** Every event keeps the invariant, and keeps at most one user waiting:
      one pair per matchmaking run is always enough. */
  lemma ApplyPreserves(s: State, e: Event)
    requires Consistent(s) && Allowed(s, e)
    ensures Consistent(Apply(s, e).st)
    ensures |s.queue| <= 1 ==> |Apply(s, e).st.queue| <= 1
  {
    match e
    case Register(h, name) => RegisterPreserves(s, h, name);
    case Relay(_, _, _, _) =>
    case EndRoom(_) =>
    case EndCall(h) => EndCallPreserves(s, h);
    case Disconnect(h) => DisconnectPreserves(s, h);
  }

  /** A run is admissible when no connection registers twice. */
  ghost predicate Admissible(s: State, es: seq<Event>)
    requires Consistent(s)
    decreases |es|
  {
    es == [] || (Allowed(s, es[0]) && (ApplyPreserves(s, es[0]); Admissible(Apply(s, es[0]).st, es[1..])))
  }

  /** The events handled one after another, with everything they send. */
  ghost function Run(s: State, es: seq<Event>): Step
    requires Consistent(s) && Admissible(s, es)
    decreases |es|
  {
    if es == [] then Step(s, [])
    else
      ApplyPreserves(s, es[0]);
      var first := Apply(s, es[0]);
      var rest := Run(first.st, es[1..]);
      Step(rest.st, first.out + rest.out)
  }

  /** From any consistent state, every admissible sequence of events leads
      to a consistent state: queued users are registered and available, no
      one is queued twice, and in-call users point at each other. */
  lemma {:induction false} RunPreserves(s: State, es: seq<Event>)
    requires Consistent(s) && Admissible(s, es)
    ensures Consistent(Run(s, es).st)
    ensures |s.queue| <= 1 ==> |Run(s, es).st.queue| <= 1
    decreases |es|
  {
    if es != [] {
      ApplyPreserves(s, es[0]);
      RunPreserves(Apply(s, es[0]).st, es[1..]);
    }
  }
}
