/** `attemptMatchmaking`: take the two oldest queued handles and pair them
    if both are still available; otherwise put the available one back at the
    front and retry; with one handle left, tell that user to wait. */
module Matchmaker {
  import opened Protocol
  import opened Registry

  /** The registry after `a` is made to call `b` and `b` to call `a`. */
  function Paired(users: map<Handle, User>, a: Handle, b: Handle): map<Handle, User>
    requires a in users && b in users
  {
    users[a := users[a].(status := InCall(b))][b := users[b].(status := InCall(a))]
  }

  /** The queue after a stale dequeue: each of `a`, `b` that is still
      available is put back in front of `rest`, `a` first, then `b`. */
  function Requeued(users: map<Handle, User>, a: Handle, b: Handle, rest: seq<Handle>): seq<Handle>
    requires a in users && b in users
  {
    var q := if users[a].status == Available then [a] + rest else rest;
    if users[b].status == Available then [b] + q else q
  }

  /** One run of the matchmaker. It pairs at most one couple: after a match
      it returns without looking at the rest of the queue. Every queued
      handle must be registered; the source's branch for a dequeued handle
      with no user never terminates and is not modelled. */
  function Matchmake(s: State): Step
    requires Wellformed(s)
    decreases |s.queue|
  {
    if |s.queue| >= 2 then
      var a, b, rest := s.queue[0], s.queue[1], s.queue[2..];
      var caller, callee := s.users[a], s.users[b];
      if caller.status == Available && callee.status == Available then
        var users := Paired(s.users, a, b);
        Step(State(users, s.order, rest),
             [CallInitiated(a, callee.userId, b), CallIncoming(b, caller.userId, a), UserList(Snapshot(users, s.order))])
      else
        Matchmake(s.(queue := Requeued(s.users, a, b, rest)))
    else if |s.queue| == 1 && s.queue[0] in s.users then
      Step(s, [Notice(s.users[s.queue[0]].socketId, WaitingNotice)])
    else
      Step(s, [])
  }

  /** The matchmaker only changes statuses and shortens the queue: the
      registry keeps its keys, names and handles, the iteration order is
      untouched, no handle joins the queue, and the result is well formed. */
  lemma {:induction false} MatchmakeFrame(s: State)
    requires Wellformed(s)
    ensures var r := Matchmake(s);
      && r.st.order == s.order
      && r.st.users.Keys == s.users.Keys
      && (forall k :: k in s.users ==>
            r.st.users[k].userId == s.users[k].userId && r.st.users[k].socketId == s.users[k].socketId)
      && (forall x :: x in r.st.queue ==> x in s.queue)
      && |r.st.queue| <= |s.queue|
      && Wellformed(r.st)
    decreases |s.queue|
  {
    if |s.queue| >= 2 {
      var a, b, rest := s.queue[0], s.queue[1], s.queue[2..];
      if s.users[a].status == Available && s.users[b].status == Available {
        var t := Matchmake(s).st;
        assert t == State(Paired(s.users, a, b), s.order, rest);
        assert forall i :: 0 <= i < |rest| ==> rest[i] == s.queue[i + 2];
      } else {
        var s' := s.(queue := Requeued(s.users, a, b, rest));
        MatchmakeFrame(s');
        assert forall x :: x in s'.queue ==> x in s.queue;
      }
    }
  }

  /** Successful match: the two oldest handles, both available, leave the
      queue in a call with each other; the first is told to start the call,
      the second that a call is coming; the roster is broadcast and nothing
      else happens. */
  lemma MatchmakePairsFirstTwo(s: State)
    requires Wellformed(s) && |s.queue| >= 2
    requires s.users[s.queue[0]].status == Available && s.users[s.queue[1]].status == Available
    ensures var r, a, b := Matchmake(s), s.queue[0], s.queue[1];
      && r.st.queue == s.queue[2..]
      && r.st.users[a].status == InCall(b)
      && r.st.users[b].status == InCall(a)
      && (forall k :: k in s.users && k != a && k != b ==> r.st.users[k] == s.users[k])
      && r.out == [CallInitiated(a, s.users[b].userId, b), CallIncoming(b, s.users[a].userId, a),
                   UserList(Snapshot(r.st.users, s.order))]
  {
  }

  /** Stale dequeue: when one of the two oldest handles is not available,
      it is dropped, an available one goes back to the front, and the
      matchmaker starts again on a strictly shorter queue. */
  lemma MatchmakeDropsStale(s: State)
    requires Wellformed(s) && |s.queue| >= 2
    requires s.users[s.queue[0]].status != Available || s.users[s.queue[1]].status != Available
    ensures var a, b, rest := s.queue[0], s.queue[1], s.queue[2..];
      && (s.users[a].status == Available ==> Matchmake(s) == Matchmake(s.(queue := [a] + rest)))
      && (s.users[b].status == Available ==> Matchmake(s) == Matchmake(s.(queue := [b] + rest)))
      && (s.users[a].status != Available && s.users[b].status != Available ==>
            Matchmake(s) == Matchmake(s.(queue := rest)))
  {
  }

  /** Waiting notice: with one queued handle the matchmaker only tells that
      user to wait; with none it does nothing. */
  lemma MatchmakeWaits(s: State)
    requires Wellformed(s) && |s.queue| <= 1
    ensures Matchmake(s).st == s
    ensures |s.queue| == 1 ==> Matchmake(s).out == [Notice(s.queue[0], WaitingNotice)]
    ensures |s.queue| == 0 ==> Matchmake(s).out == []
  {
  }

  /** At most one pair per run: either no record changes, or exactly two
      queued, available users are paired with each other. */
  lemma {:induction false} MatchmakeAtMostOnePair(s: State)
    requires Wellformed(s)
    ensures var r := Matchmake(s);
      || r.st.users == s.users
      || exists a, b :: a in s.users && b in s.users && a in s.queue && b in s.queue &&
           s.users[a].status == Available && s.users[b].status == Available &&
           r.st.users == Paired(s.users, a, b)
    decreases |s.queue|
  {
    if |s.queue| >= 2 {
      var a, b, rest := s.queue[0], s.queue[1], s.queue[2..];
      if s.users[a].status == Available && s.users[b].status == Available {
        assert Matchmake(s).st.users == Paired(s.users, a, b);
      } else {
        var s' := s.(queue := Requeued(s.users, a, b, rest));
        MatchmakeAtMostOnePair(s');
        assert forall x :: x in s'.queue ==> x in s.queue;
      }
    }
  }

  /** No live participant is lost: every queued, available handle is, after
      the run, either still queued or in a call. Only unavailable handles
      are dropped. */
  lemma {:induction false} MatchmakeKeepsLive(s: State)
    requires Wellformed(s)
    ensures (MatchmakeFrame(s);
      forall x :: x in s.queue && x in s.users && s.users[x].status == Available ==>
        x in Matchmake(s).st.queue || Matchmake(s).st.users[x].status.InCall?)
    decreases |s.queue|
  {
    if |s.queue| >= 2 {
      var a, b, rest := s.queue[0], s.queue[1], s.queue[2..];
      if !(s.users[a].status == Available && s.users[b].status == Available) {
        var s' := s.(queue := Requeued(s.users, a, b, rest));
        MatchmakeKeepsLive(s');
        forall x | x in s.queue && x in s.users && s.users[x].status == Available
          ensures x in s'.queue
        {
          var i :| 0 <= i < |s.queue| && s.queue[i] == x;
          if i >= 2 { assert rest[i - 2] == x; }
        }
      }
    }
  }

  /** The matchmaker keeps the invariant. In a consistent state the two
      oldest queued users are always available, so with two or more queued
      it always pairs the first two; a queue of at most three is left with
      at most one waiting user. */
  lemma MatchmakePreserves(s: State)
    requires Consistent(s)
    ensures Consistent(Matchmake(s).st)
    ensures |s.queue| >= 2 ==> Matchmake(s).st.queue == s.queue[2..]
    ensures |s.queue| <= 3 ==> |Matchmake(s).st.queue| <= 1
  {
    if |s.queue| >= 2 {
      var a, b := s.queue[0], s.queue[1];
      assert s.users[a].status == Available && s.users[b].status == Available;
      PairingConsistent(s);
      assert Matchmake(s).st == State(Paired(s.users, a, b), s.order, s.queue[2..]);
    } else {
      MatchmakeWaits(s);
    }
  }

  /** Pairing the first two queued users of a consistent state gives a
      consistent state. */
  lemma PairingConsistent(s: State)
    requires Consistent(s) && |s.queue| >= 2
    ensures Consistent(State(Paired(s.users, s.queue[0], s.queue[1]), s.order, s.queue[2..]))
  {
    var a, b := s.queue[0], s.queue[1];
    var t := State(Paired(s.users, a, b), s.order, s.queue[2..]);
    assert a in s.users && b in s.users && a != b;
    assert s.users[a].status == Available && s.users[b].status == Available;
    PairedQueue(s);
    PairedPeersSymmetric(s, a, b);
    PairedNames(s, a, b);
  }

  lemma PairedNames(s: State, a: Handle, b: Handle)
    requires NamesUnique(s) && a in s.users && b in s.users
    ensures NamesUnique(s.(users := Paired(s.users, a, b)))
  {
    NamesKept(s, s.(users := Paired(s.users, a, b)));
  }

  lemma PairedQueue(s: State)
    requires Wellformed(s) && QueueAvailable(s) && NoDup(s.queue) && AvailableQueued(s) && |s.queue| >= 2
    ensures var t := State(Paired(s.users, s.queue[0], s.queue[1]), s.order, s.queue[2..]);
      Wellformed(t) && QueueAvailable(t) && NoDup(t.queue) && AvailableQueued(t)
  {
    var a, b, rest := s.queue[0], s.queue[1], s.queue[2..];
    var users := Paired(s.users, a, b);
    assert forall i :: 0 <= i < |rest| ==> rest[i] == s.queue[i + 2];
    forall k | k in users && users[k].status == Available
      ensures k in rest
    {
      var i :| 0 <= i < |s.queue| && s.queue[i] == k;
      assert rest[i - 2] == k;
    }
  }

  lemma PairedPeersSymmetric(s: State, a: Handle, b: Handle)
    requires Wellformed(s) && PeersSymmetric(s)
    requires a in s.users && b in s.users && a != b
    requires s.users[a].status == Available && s.users[b].status == Available
    ensures PeersSymmetric(s.(users := Paired(s.users, a, b)))
  {
    var users := Paired(s.users, a, b);
    forall k | k in users && users[k].status.InCall?
      ensures var p := users[k].status.peer; p != k && p in users && users[p].status == InCall(k)
    {
      if k != a && k != b {
        var p := s.users[k].status.peer;
        assert p != a && p != b;
      }
    }
  }
}
