/** The signalling server as the source has it: process-wide state updated
    in place by one method per socket event. Each method is proved to leave
    the state, and to add to the outbox, exactly what the matching step
    function of `Handlers` describes, so every lemma about those functions
    holds of the methods. */
module Server {
  import opened Protocol
  import opened Registry
  import opened Matchmaker
  import opened Handlers

  class SignallingServer {
    /** The `users` Map: handle to record. */
    var users: map<Handle, User>
    /** The keys of `users` in the order the Map iterates them. */
    var order: seq<Handle>
    /** The `callQueue` array of handles. */
    var callQueue: seq<Handle>
    /** Every message emitted so far, oldest first. */
    var outbox: seq<Message>

    function Current(): State
      reads this`users, this`order, this`callQueue
    {
      State(users, order, callQueue)
    }

    /** The invariant every handler keeps (`Registry.Consistent`). */
    ghost predicate Valid()
      reads this`users, this`order, this`callQueue
    {
      Consistent(Current())
    }

    constructor ()
      ensures Current() == Initial && outbox == []
      ensures Valid()
    {
      users, order, callQueue, outbox := map[], [], [], [];
    }

    /** `updateUserListForAll`: broadcast a snapshot of the registry. */
    method UpdateUserListForAll()
      requires forall i :: 0 <= i < |order| ==> order[i] in users
      modifies this`outbox
      ensures outbox == old(outbox) + [UserList(Snapshot(users, order))]
    {
      outbox := outbox + [UserList(Snapshot(users, order))];
    }

    /** `attemptMatchmaking`, recursing on the queue it has just shortened. */
    method AttemptMatchmaking()
      requires Wellformed(Current())
      modifies this
      ensures Current() == Matchmake(old(Current())).st
      ensures outbox == old(outbox) + Matchmake(old(Current())).out
      decreases |callQueue|
    {
      if |callQueue| >= 2 {
        var callerId := callQueue[0];
        callQueue := callQueue[1..];
        var calleeId := callQueue[0];
        callQueue := callQueue[1..];
        var caller, callee := users[callerId], users[calleeId];
        if caller.status == Available && callee.status == Available {
          users := users[callerId := users[callerId].(status := InCall(calleeId))];
          users := users[calleeId := users[calleeId].(status := InCall(callerId))];
          outbox := outbox + [CallInitiated(callerId, callee.userId, calleeId), CallIncoming(calleeId, caller.userId, callerId)];
          UpdateUserListForAll();
          return;
        } else {
          if caller.status == Available {
            callQueue := [callerId] + callQueue;
          }
          if callee.status == Available {
            callQueue := [calleeId] + callQueue;
          }
          AttemptMatchmaking();
          return;
        }
      } else if |callQueue| == 1 {
        var waiting := callQueue[0];
        if waiting in users {
          outbox := outbox + [Notice(users[waiting].socketId, WaitingNotice)];
        }
      }
    }

    /** The duplicate-name scan of `register`, over the Map's entries in
        order, stopping at the first user with that name. */
    method NameTaken(name: string) returns (taken: bool)
      requires RegistryOk(Current())
      ensures taken <==> exists k :: k in users && users[k].userId == name
    {
      var i := 0;
      while i < |order|
        invariant 0 <= i <= |order|
        invariant forall j :: 0 <= j < i ==> users[order[j]].userId != name
      {
        if users[order[i]].userId == name {
          return true;
        }
        i := i + 1;
      }
      return false;
    }

    /** `socket.on('register')`. */
    method OnRegister(h: Handle, name: string)
      requires Valid() && h !in users
      modifies this
      ensures Current() == RegisterStep(old(Current()), h, name).st
      ensures outbox == old(outbox) + RegisterStep(old(Current()), h, name).out
      ensures Valid()
    {
      ghost var s0, out0 := Current(), outbox;
      RegisterPreserves(s0, h, name);
      var taken := NameTaken(name);
      if taken {
        outbox := outbox + [Notice(h, TakenNotice(name)), Close(h)];
        return;
      }
      AdmitWellformed(s0, h, name);
      users := users[h := User(name, h, Available)];
      order := order + [h];
      callQueue := callQueue + [h];
      outbox := outbox + [Notice(h, ConnectedNotice)];
      ghost var x := Step(Admit(s0, h, name), [Notice(h, ConnectedNotice)]);
      assert Current() == x.st && outbox == out0 + x.out;
      Conclude(x, out0);
    }

    /** The tail of every state-changing handler: `updateUserListForAll()`
        then `attemptMatchmaking()`. */
    method Settle()
      requires Wellformed(Current())
      modifies this
      ensures Current() == Matchmake(old(Current())).st
      ensures outbox == old(outbox) + [UserList(Snapshot(old(users), old(order)))] + Matchmake(old(Current())).out
    {
      UpdateUserListForAll();
      AttemptMatchmaking();
    }

    /** `Settle` after the first half `x` of an event, which sent `x.out`
        on top of `out0`: the whole event is `Handlers.Conclude(x)`. */
    method Conclude(ghost x: Step, ghost out0: seq<Message>)
      requires Wellformed(x.st) && Current() == x.st && outbox == out0 + x.out
      modifies this
      ensures Current() == Handlers.Conclude(x).st
      ensures outbox == out0 + Handlers.Conclude(x).out
    {
      ghost var roster, m := UserList(Snapshot(x.st.users, x.st.order)), Matchmake(x.st);
      Settle();
      assert outbox == out0 + x.out + [roster] + m.out;
      assert out0 + x.out + [roster] + m.out == out0 + (x.out + [roster] + m.out);
    }

    /** `socket.on('offer' | 'answer' | 'ice-candidate')`. */
    method OnRelay(kind: RelayKind, h: Handle, target: Handle, payload: Payload)
      modifies this`outbox
      ensures Current() == RelayStep(old(Current()), kind, h, target, payload).st
      ensures outbox == old(outbox) + RelayStep(old(Current()), kind, h, target, payload).out
      ensures old(Valid()) ==> Valid()
    {
      outbox := outbox + [Relayed(kind, target, h, payload)];
    }

    /** `socket.on('end-room')`. */
    method OnEndRoom(h: Handle)
      modifies this`outbox
      ensures Current() == EndRoomStep(old(Current()), h).st
      ensures outbox == old(outbox) + EndRoomStep(old(Current()), h).out
      ensures old(Valid()) ==> Valid()
    {
      outbox := outbox + [Close(h)];
    }

    /** A registered user's `status` set to `'available'`, its
        `currentPeerSocketId` cleared, and its handle pushed on the queue. */
    method RequeueUser(p: Handle)
      requires Wellformed(Current()) && p in users
      modifies this`users, this`callQueue
      ensures Current() == Requeue(old(Current()), p)
    {
      users := users[p := users[p].(status := Available)];
      callQueue := callQueue + [p];
    }

    /** What both `end-call` and `disconnect` do for a surviving peer: send
        it `call-ended-by-peer`, requeue it, then send it `text`. */
    method FreePeer(p: Handle, text: string)
      requires Wellformed(Current()) && p in users
      modifies this`users, this`callQueue, this`outbox
      ensures Current() == Requeue(old(Current()), p)
      ensures outbox == old(outbox) + [CallEndedByPeer(p), Notice(p, text)]
    {
      outbox := outbox + [CallEndedByPeer(p)];
      RequeueUser(p);
      outbox := outbox + [Notice(p, text)];
    }

    /** `users.delete(h)`, which also drops `h` from the Map's iteration
        order, then `callQueue.splice(callQueue.indexOf(h), 1)` when `h` is
        queued. */
    method RemoveUser(h: Handle)
      requires Wellformed(Current()) && NoDup(callQueue) && h in users
      modifies this`users, this`order, this`callQueue
      ensures Current() == Removed(old(Current()), h)
    {
      users := users - {h};
      order := Without(order, h);
      var queueIndex := IndexOf(callQueue, h);
      if queueIndex > -1 {
        callQueue := callQueue[..queueIndex] + callQueue[queueIndex + 1..];
      }
    }

    /** `socket.on('end-call')`. */
    method OnEndCall(h: Handle)
      requires Valid()
      modifies this
      ensures Current() == EndCallStep(old(Current()), h).st
      ensures outbox == old(outbox) + EndCallStep(old(Current()), h).out
      ensures Valid()
    {
      ghost var s0, out0 := Current(), outbox;
      EndCallPreserves(s0, h);
      if h in users && users[h].status.InCall? {
        var me := users[h];
        var p := me.status.peer;
        RequeueUser(h);
        if p in users {
          FreePeer(p, CallEndedNotice(me.userId));
        }
        ghost var x := HangUp(s0, h);
        assert Current() == x.st && outbox == out0 + x.out;
        Conclude(x, out0);
      }
    }

    /** `socket.on('disconnect')`. */
    method OnDisconnect(h: Handle)
      requires Valid()
      modifies this
      ensures Current() == DisconnectStep(old(Current()), h).st
      ensures outbox == old(outbox) + DisconnectStep(old(Current()), h).out
      ensures Valid()
    {
      ghost var s0, out0 := Current(), outbox;
      if h in users {
        var gone := users[h];
        RemoveUser(h);
        if gone.status.InCall? {
          var p := gone.status.peer;
          if p in users {
            FreePeer(p, PeerLeftNotice(gone.userId));
          }
        }
        ghost var x := Leave(s0, h);
        assert Current() == x.st && outbox == out0 + x.out;
        Conclude(x, out0);
      }
      DisconnectPreserves(s0, h);
    }
  }
}
