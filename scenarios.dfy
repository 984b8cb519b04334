/** Concrete runs of the server from start-up, with connection handles 1, 2,
    3 and 4 and users alice, bob, carol and dave. */
module Scenarios {
  import opened Protocol
  import opened Registry
  import opened Matchmaker
  import opened Handlers

  /** alice registered and waiting. */
  const AliceWaits := State(map[1 := User("alice", 1, Available)], [1], [1])

  /** alice and bob in a call with each other. */
  const AliceWithBob := State(map[1 := User("alice", 1, InCall(2)), 2 := User("bob", 2, InCall(1))], [1, 2], [])

  lemma SnapshotOne(users: map<Handle, User>, a: Handle)
    requires a in users
    ensures Snapshot(users, [a]) == [Info(users, users[a])]
  {
    assert [a][1..] == [];
  }

  lemma SnapshotTwo(users: map<Handle, User>, a: Handle, b: Handle)
    requires a in users && b in users
    ensures Snapshot(users, [a, b]) == [Info(users, users[a]), Info(users, users[b])]
  {
    assert [a, b][1..] == [b];
    SnapshotOne(users, b);
  }

  /** A lone registrant is greeted and told to wait; no call starts. */
  lemma ScenarioAloneWaits()
    ensures RegisterStep(Initial, 1, "alice") ==
      Step(AliceWaits, [Notice(1, ConnectedNotice), UserList([UserInfo("alice", "available", None)]),
                        Notice(1, WaitingNotice)])
  {
    var s := Admit(Initial, 1, "alice");
    assert s == AliceWaits;
    SnapshotOne(s.users, 1);
  }

  /** alice waiting and bob just queued behind her. */
  const BobQueued := State(map[1 := User("alice", 1, Available), 2 := User("bob", 2, Available)], [1, 2], [1, 2])

  /** A second registrant is paired with the waiting one: alice is told to
      start the call with bob, bob that alice is calling. */
  lemma ScenarioAliceBob()
    ensures (AliceWaitsConsistent(); RegisterStep(AliceWaits, 2, "bob") ==
      Step(AliceWithBob,
           [Notice(2, ConnectedNotice),
            UserList([UserInfo("alice", "available", None), UserInfo("bob", "available", None)]),
            CallInitiated(1, "bob", 2), CallIncoming(2, "alice", 1),
            UserList([UserInfo("alice", "in-call", Some("bob")), UserInfo("bob", "in-call", Some("alice"))])]))
  {
    AliceWaitsConsistent();
    assert !NameHeld(AliceWaits.users, "bob");
    assert Admit(AliceWaits, 2, "bob") == BobQueued;
    SnapshotTwo(BobQueued.users, 1, 2);
    PairAliceBob();
  }

  lemma PairAliceBob()
    ensures Matchmake(BobQueued) ==
      Step(AliceWithBob,
           [CallInitiated(1, "bob", 2), CallIncoming(2, "alice", 1),
            UserList([UserInfo("alice", "in-call", Some("bob")), UserInfo("bob", "in-call", Some("alice"))])])
  {
    MatchmakePairsFirstTwo(BobQueued);
    assert Paired(BobQueued.users, 1, 2) == AliceWithBob.users;
    SnapshotTwo(AliceWithBob.users, 1, 2);
  }

  /** alice ending the call with nobody else waiting: bob is told, both are
      made available and queued alice first, and the matchmaker pairs them
      again at once, alice starting the call. The state is as before. */
  lemma ScenarioEndCallRepairs()
    ensures (AliceWithBobConsistent(); EndCallStep(AliceWithBob, 1) ==
      Step(AliceWithBob,
           [CallEndedByPeer(2), Notice(2, CallEndedNotice("alice")),
            UserList([UserInfo("alice", "available", None), UserInfo("bob", "available", None)]),
            CallInitiated(1, "bob", 2), CallIncoming(2, "alice", 1),
            UserList([UserInfo("alice", "in-call", Some("bob")), UserInfo("bob", "in-call", Some("alice"))])]))
  {
    AliceWithBobConsistent();
    AliceHangsUp();
    SnapshotTwo(BobQueued.users, 1, 2);
    PairAliceBob();
  }

  lemma AliceHangsUp()
    ensures (AliceWithBobConsistent();
      HangUp(AliceWithBob, 1) == Step(BobQueued, [CallEndedByPeer(2), Notice(2, CallEndedNotice("alice"))]))
  {
    AliceWithBobConsistent();
    assert Release(Release(AliceWithBob.users, 1), 2) == BobQueued.users;
  }

  /** alice and bob in a call, carol registered and waiting. */
  const CarolWaits := State(AliceWithBob.users[3 := User("carol", 3, Available)], [1, 2, 3], [3])

  /** So carol, registering after that end-call, finds nobody to pair with
      and waits. */
  lemma ScenarioCarolWaits()
    ensures (AliceWithBobConsistent();
      var r := RegisterStep(AliceWithBob, 3, "carol");
      && r.st == CarolWaits
      && r.out[0] == Notice(3, ConnectedNotice)
      && r.out[2..] == [Notice(3, WaitingNotice)])
  {
    AliceWithBobConsistent();
    CarolRegisters();
    CarolWaitsConsistent();
    MatchmakeWaits(CarolWaits);
  }

  lemma CarolRegisters()
    ensures (AliceWithBobConsistent();
      RegisterStep(AliceWithBob, 3, "carol") == Conclude(Step(CarolWaits, [Notice(3, ConnectedNotice)])))
  {
    AliceWithBobConsistent();
    CarolAdmitted();
  }

  lemma CarolAdmitted()
    ensures !NameHeld(AliceWithBob.users, "carol")
    ensures Admit(AliceWithBob, 3, "carol") == CarolWaits
  {
  }

  /** carol waiting and dave just queued behind her. */
  const DaveQueued := State(CarolWaits.users[4 := User("dave", 4, Available)], [1, 2, 3, 4], [3, 4])

  /** Both couples in calls, first come first paired. */
  const FourPaired := State(CarolWaits.users[3 := User("carol", 3, InCall(4))][4 := User("dave", 4, InCall(3))],
                            [1, 2, 3, 4], [])

  /** The fourth registrant is paired with the third, not with anyone
      earlier. */
  lemma ScenarioDavePairsWithCarol()
    ensures (CarolWaitsConsistent();
      var r := RegisterStep(CarolWaits, 4, "dave");
      && r.st == FourPaired
      && r.out[2..4] == [CallInitiated(3, "dave", 4), CallIncoming(4, "carol", 3)])
  {
    CarolWaitsConsistent();
    DaveAdmitted();
    PairCarolDave();
  }

  lemma DaveAdmitted()
    ensures !NameHeld(CarolWaits.users, "dave")
    ensures Admit(CarolWaits, 4, "dave") == DaveQueued
  {
  }

  lemma PairCarolDave()
    ensures (CarolWaitsConsistent(); DaveAdmitted(); AdmitWellformed(CarolWaits, 4, "dave");
      && Matchmake(DaveQueued).st == FourPaired
      && Matchmake(DaveQueued).out[..2] == [CallInitiated(3, "dave", 4), CallIncoming(4, "carol", 3)])
  {
    CarolWaitsConsistent();
    DaveAdmitted();
    AdmitWellformed(CarolWaits, 4, "dave");
    MatchmakePairsFirstTwo(DaveQueued);
    assert Paired(DaveQueued.users, 3, 4) == FourPaired.users;
  }

  /** dave registered and waiting. */
  const DaveWaits := State(map[1 := User("dave", 1, Available)], [1], [1])

  /** dave registers from start-up and waits; a second connection
      registering "dave" is told and closed, and the first dave stays
      registered, available and queued. */
  lemma ScenarioDuplicateName()
    ensures RegisterStep(Initial, 1, "dave").st == DaveWaits
    ensures RegisterStep(DaveWaits, 2, "dave") == Step(DaveWaits, [Notice(2, TakenNotice("dave")), Close(2)])
  {
    assert Admit(Initial, 1, "dave") == DaveWaits;
    assert DaveWaits.users[1].userId == "dave";
  }

  /** bob's connection dropping out of the call: alice is told, made
      available and queued, told to wait; bob is gone. */
  lemma ScenarioPeerDrops()
    ensures (AliceWithBobConsistent(); DisconnectStep(AliceWithBob, 2) ==
      Step(AliceWaits, [CallEndedByPeer(1), Notice(1, PeerLeftNotice("bob")),
                        UserList([UserInfo("alice", "available", None)]), Notice(1, WaitingNotice)]))
    ensures (AliceWaitsConsistent(); DisconnectStep(AliceWaits, 2) == Step(AliceWaits, []))
  {
    AliceWithBobConsistent();
    AliceWaitsConsistent();
    BobLeaves();
    SnapshotOne(AliceWaits.users, 1);
    MatchmakeWaits(AliceWaits);
  }

  lemma BobLeaves()
    ensures (AliceWithBobConsistent(); Leave(AliceWithBob, 2) == Step(AliceWaits, [CallEndedByPeer(1), Notice(1, PeerLeftNotice("bob"))]))
  {
    AliceWithBobConsistent();
    assert IndexOf([1, 2], 2) == 1 by { assert [1, 2][1..] == [2]; }
    assert Without(AliceWithBob.order, 2) == [1];
    assert Release(AliceWithBob.users - {2}, 1) == AliceWaits.users;
  }

  /** A run whose first event leads from `s` to `t` ends where the rest of
      the run from `t` ends. */
  lemma RunCons(s: State, e: Event, t: State, es: seq<Event>)
    requires Consistent(s) && Allowed(s, e) && Apply(s, e).st == t
    requires Consistent(t) && Admissible(t, es)
    ensures Admissible(s, [e] + es) && Run(s, [e] + es).st == Run(t, es).st
  {
    assert ([e] + es)[0] == e && ([e] + es)[1..] == es;
  }

  /** A one-event run ends where its event leads. */
  lemma RunSingle(s: State, e: Event, t: State)
    requires Consistent(s) && Allowed(s, e) && Apply(s, e).st == t
    ensures Admissible(s, [e]) && Run(s, [e]).st == t
  {
    assert [e][1..] == [];
    ApplyPreserves(s, e);
  }

  /** The states the first-come-first-paired run passes through are all
      consistent, as every event keeps the invariant. */
  lemma RegistrationsConsistent()
    ensures Consistent(AliceWaits) && Consistent(AliceWithBob) && Consistent(CarolWaits) && Consistent(FourPaired)
  {
    AliceWaitsConsistent();
    AliceWithBobConsistent();
    CarolWaitsConsistent();
    FourPairedConsistent();
  }

  lemma AliceWaitsConsistent()
    ensures Consistent(AliceWaits)
  {
    ScenarioAloneWaits();
    assert Consistent(Initial);
    ApplyPreserves(Initial, Register(1, "alice"));
  }

  lemma AliceWithBobConsistent()
    ensures Consistent(AliceWithBob)
  {
    AliceWaitsConsistent();
    ScenarioAliceBob();
    ApplyPreserves(AliceWaits, Register(2, "bob"));
  }

  lemma CarolWaitsConsistent()
    ensures Consistent(CarolWaits)
  {
    AliceWithBobConsistent();
    CarolAdmitted();
    AdmitConsistent(AliceWithBob, 3, "carol");
  }

  lemma FourPairedConsistent()
    ensures Consistent(FourPaired)
  {
    CarolWaitsConsistent();
    ScenarioDavePairsWithCarol();
    ApplyPreserves(CarolWaits, Register(4, "dave"));
  }

  lemma RunFromCarolWaits()
    ensures Consistent(CarolWaits) && Admissible(CarolWaits, [Register(4, "dave")])
    ensures Run(CarolWaits, [Register(4, "dave")]).st == FourPaired
  {
    RegistrationsConsistent();
    ScenarioDavePairsWithCarol();
    RunSingle(CarolWaits, Register(4, "dave"), FourPaired);
  }

  lemma RunFromAliceWithBob()
    ensures Consistent(AliceWithBob) && Admissible(AliceWithBob, [Register(3, "carol"), Register(4, "dave")])
    ensures Run(AliceWithBob, [Register(3, "carol"), Register(4, "dave")]).st == FourPaired
  {
    RegistrationsConsistent();
    ScenarioCarolWaits();
    RunFromCarolWaits();
    RunCons(AliceWithBob, Register(3, "carol"), CarolWaits, [Register(4, "dave")]);
  }

  lemma RunFromAliceWaits()
    ensures Consistent(AliceWaits) && Admissible(AliceWaits, [Register(2, "bob"), Register(3, "carol"), Register(4, "dave")])
    ensures Run(AliceWaits, [Register(2, "bob"), Register(3, "carol"), Register(4, "dave")]).st == FourPaired
  {
    RegistrationsConsistent();
    ScenarioAliceBob();
    RunFromAliceWithBob();
    RunCons(AliceWaits, Register(2, "bob"), AliceWithBob, [Register(3, "carol"), Register(4, "dave")]);
  }

  /** Four registrations in order, with nobody leaving: the first two are
      paired with each other, then the last two; the first is never paired
      with the third. */
  lemma ScenarioFirstComeFirstPaired()
    ensures var es := [Register(1, "alice"), Register(2, "bob"), Register(3, "carol"), Register(4, "dave")];
      && Consistent(Initial) && Admissible(Initial, es)
      && Run(Initial, es).st == FourPaired
  {
    assert Consistent(Initial);
    RegistrationsConsistent();
    ScenarioAloneWaits();
    RunFromAliceWaits();
    RunCons(Initial, Register(1, "alice"), AliceWaits, [Register(2, "bob"), Register(3, "carol"), Register(4, "dave")]);
  }
}
