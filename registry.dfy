/** The participant registry and the call queue: the server's whole state,
    the invariants it keeps, and the read-only views of it (the user-list
    snapshot, name lookup, queue search). */
module Registry {
  import opened Protocol

  /** `available`, or `in-call` together with the peer's handle. The source
      keeps the two in separate fields but always sets them together, so an
      in-call user without a peer never arises. */
  datatype Status = Available | InCall(peer: Handle)

  /** A registry record: display name, own handle, status. */
  datatype User = User(userId: string, socketId: Handle, status: Status)

  /** The server's mutable state. `users` is the registry; `order` lists its
      keys in insertion order, the order in which a JavaScript Map is iterated;
      `queue` is the call queue. */
  datatype State = State(users: map<Handle, User>, order: seq<Handle>, queue: seq<Handle>)

  /** A state together with the messages emitted while reaching it. */
  datatype Step = Step(st: State, out: seq<Message>)

  /** The state at start-up. */
  const Initial: State := State(map[], [], [])

  predicate NoDup(s: seq<Handle>)
  {
    forall i, j :: 0 <= i < j < |s| ==> s[i] != s[j]
  }

  /** `order` enumerates exactly the registry's keys, once each, and every
      record is filed under its own handle. */
  ghost predicate RegistryOk(s: State)
  {
    && NoDup(s.order)
    && (forall i :: 0 <= i < |s.order| ==> s.order[i] in s.users)
    && (forall k :: k in s.users ==> k in s.order)
    && (forall k :: k in s.users ==> s.users[k].socketId == k)
  }

  /** Every queued handle is registered. */
  ghost predicate QueueRegistered(s: State)
  {
    forall i :: 0 <= i < |s.queue| ==> s.queue[i] in s.users
  }

  /** What matchmaking needs in order to terminate. */
  ghost predicate Wellformed(s: State)
  {
    RegistryOk(s) && QueueRegistered(s)
  }

  /** Every queued handle is a registered, available user. */
  ghost predicate QueueAvailable(s: State)
  {
    forall i :: 0 <= i < |s.queue| ==> s.queue[i] in s.users && s.users[s.queue[i]].status == Available
  }

  /** No available user is left out of the queue. */
  ghost predicate AvailableQueued(s: State)
  {
    forall k :: k in s.users && s.users[k].status == Available ==> k in s.queue
  }

  /** In-call users point at a distinct registered user who points back. */
  ghost predicate PeersSymmetric(s: State)
  {
    forall k :: k in s.users && s.users[k].status.InCall? ==>
      var p := s.users[k].status.peer;
      p != k && p in s.users && s.users[p].status == InCall(k)
  }

  /** Display names are unique among registered users. */
  ghost predicate NamesUnique(s: State)
  {
    forall k1, k2 :: k1 in s.users && k2 in s.users && s.users[k1].userId == s.users[k2].userId ==> k1 == k2
  }

  /** The invariant every handler keeps. */
  ghost predicate Consistent(s: State)
  {
    && Wellformed(s)
    && QueueAvailable(s)
    && NoDup(s.queue)
    && AvailableQueued(s)
    && PeersSymmetric(s)
    && NamesUnique(s)
  }

  /** Changing only statuses keeps names unique. */
  lemma NamesKept(s: State, t: State)
    requires NamesUnique(s)
    requires t.users.Keys <= s.users.Keys
    requires forall k :: k in t.users ==> t.users[k].userId == s.users[k].userId
    ensures NamesUnique(t)
  {
    forall k1, k2 | k1 in t.users && k2 in t.users && t.users[k1].userId == t.users[k2].userId
      ensures k1 == k2
    {
      assert s.users[k1].userId == s.users[k2].userId;
    }
  }

  /** Some registered user already uses `name`. */
  predicate NameHeld(users: map<Handle, User>, name: string)
  {
    exists k :: k in users && users[k].userId == name
  }

  /** `Array.prototype.indexOf`: the first position of `x`, or -1. */
  function IndexOf(s: seq<Handle>, x: Handle): (i: int)
    ensures -1 <= i < |s|
    ensures i == -1 <==> x !in s
    ensures 0 <= i ==> s[i] == x && x !in s[..i]
  {
    if |s| == 0 then -1
    else if s[0] == x then 0
    else
      var j := IndexOf(s[1..], x);
      assert s[1..][..j + 1] == s[1..j + 2] by { if j >= 0 { assert s[1..][..j + 1] == s[1..][..j] + [s[1..][j]]; } }
      if j == -1 then -1 else j + 1
  }

  /** `s` with its first `x` spliced out, if it has one. */
  function Without(s: seq<Handle>, x: Handle): seq<Handle>
  {
    var i := IndexOf(s, x);
    if i > -1 then s[..i] + s[i + 1..] else s
  }

  /** Splicing out `x` from a duplicate-free sequence removes exactly `x`
      and keeps the rest duplicate-free. */
  lemma WithoutRemoves(s: seq<Handle>, x: Handle)
    requires NoDup(s)
    ensures NoDup(Without(s, x))
    ensures forall y :: y in Without(s, x) <==> y in s && y != x
    ensures x in s ==> |Without(s, x)| == |s| - 1
    ensures x !in s ==> Without(s, x) == s
  {
    var i := IndexOf(s, x);
    if i > -1 {
      var r := s[..i] + s[i + 1..];
      assert forall k :: 0 <= k < |r| ==> r[k] == s[if k < i then k else k + 1];
      forall y
        ensures y in r <==> y in s && y != x
      {
        if y in s && y != x {
          var k :| 0 <= k < |s| && s[k] == y;
          assert k != i;
          assert r[if k < i then k else k - 1] == y;
        }
      }
    }
  }

  /** Splicing out `x` cuts the sequence at the first occurrence of `x`
      and keeps everything else in order. */
  lemma WithoutSplicesFirst(s: seq<Handle>, x: Handle)
    ensures x in s ==> exists i :: 0 <= i < |s| && s[i] == x && x !in s[..i] && Without(s, x) == s[..i] + s[i + 1..]
    ensures x !in s ==> Without(s, x) == s
  {
    var i := IndexOf(s, x);
    if i > -1 {
      assert s[i] == x && x !in s[..i] && Without(s, x) == s[..i] + s[i + 1..];
    }
  }

  function StatusName(st: Status): string
  {
    if st.Available? then "available" else "in-call"
  }

  /** One user-list entry; the peer's name is looked up in the registry. */
  function Info(users: map<Handle, User>, u: User): UserInfo
  {
    UserInfo(u.userId, StatusName(u.status),
             if u.status.InCall? && u.status.peer in users then Some(users[u.status.peer].userId) else None)
  }

  /** `updateUserListForAll`'s list: one entry per registered user, in the
      registry's iteration order. */
  function Snapshot(users: map<Handle, User>, order: seq<Handle>): seq<UserInfo>
    requires forall i :: 0 <= i < |order| ==> order[i] in users
  {
    if order == [] then [] else [Info(users, users[order[0]])] + Snapshot(users, order[1..])
  }

  lemma {:induction false} SnapshotAt(users: map<Handle, User>, order: seq<Handle>, i: int)
    requires forall j :: 0 <= j < |order| ==> order[j] in users
    requires 0 <= i < |order|
    ensures |Snapshot(users, order)| == |order|
    ensures Snapshot(users, order)[i] == Info(users, users[order[i]])
  {
    if i > 0 {
      SnapshotAt(users, order[1..], i - 1);
    } else if |order| > 1 {
      SnapshotAt(users, order[1..], 0);
    }
  }

  /** The roster lists every registered user, shows a peer exactly for
      users in a call, and shows peers in pairs: if A's entry names B as
      peer, B's entry names A. */
  lemma SnapshotSymmetric(s: State)
    requires RegistryOk(s) && PeersSymmetric(s)
    ensures var r := Snapshot(s.users, s.order);
      && |r| == |s.users|
      && (forall k :: k in s.users ==> exists i :: 0 <= i < |r| && r[i].id == s.users[k].userId)
      && (forall i :: 0 <= i < |r| ==> (r[i].peer.Some? <==> r[i].status == "in-call"))
      && (forall i :: 0 <= i < |r| && r[i].peer.Some? ==>
            exists j :: 0 <= j < |r| && r[j].id == r[i].peer.value && r[j].peer == Some(r[i].id))
  {
    OrderCardinality(s);
    SnapshotEntries(s.users, s.order);
    SnapshotListsAll(s);
    SnapshotPeers(s);
  }

  lemma SnapshotListsAll(s: State)
    requires RegistryOk(s)
    requires |Snapshot(s.users, s.order)| == |s.order|
    requires forall i :: 0 <= i < |s.order| ==> Snapshot(s.users, s.order)[i] == Info(s.users, s.users[s.order[i]])
    ensures var r := Snapshot(s.users, s.order);
      forall k :: k in s.users ==> exists i :: 0 <= i < |r| && r[i].id == s.users[k].userId
  {
    var r := Snapshot(s.users, s.order);
    forall k | k in s.users
      ensures exists i :: 0 <= i < |r| && r[i].id == s.users[k].userId
    {
      var i :| 0 <= i < |s.order| && s.order[i] == k;
      assert r[i].id == s.users[k].userId;
    }
  }

  lemma SnapshotPeers(s: State)
    requires RegistryOk(s) && PeersSymmetric(s)
    requires |Snapshot(s.users, s.order)| == |s.order|
    requires forall i :: 0 <= i < |s.order| ==> Snapshot(s.users, s.order)[i] == Info(s.users, s.users[s.order[i]])
    ensures var r := Snapshot(s.users, s.order);
      && (forall i :: 0 <= i < |r| ==> (r[i].peer.Some? <==> r[i].status == "in-call"))
      && (forall i :: 0 <= i < |r| && r[i].peer.Some? ==>
            exists j :: 0 <= j < |r| && r[j].id == r[i].peer.value && r[j].peer == Some(r[i].id))
  {
    var r := Snapshot(s.users, s.order);
    forall i | 0 <= i < |r|
      ensures r[i].peer.Some? <==> r[i].status == "in-call"
    {
      assert r[i] == Info(s.users, s.users[s.order[i]]);
    }
    forall i | 0 <= i < |r| && r[i].peer.Some?
      ensures exists j :: 0 <= j < |r| && r[j].id == r[i].peer.value && r[j].peer == Some(r[i].id)
    {
      var h := s.order[i];
      assert r[i] == Info(s.users, s.users[h]);
      var p := s.users[h].status.peer;
      var j :| 0 <= j < |s.order| && s.order[j] == p;
      assert r[j] == Info(s.users, s.users[p]);
    }
  }

  lemma SnapshotEntries(users: map<Handle, User>, order: seq<Handle>)
    requires forall j :: 0 <= j < |order| ==> order[j] in users
    ensures |Snapshot(users, order)| == |order|
    ensures forall i :: 0 <= i < |order| ==> Snapshot(users, order)[i] == Info(users, users[order[i]])
  {
    if order == [] {
    } else {
      SnapshotAt(users, order, 0);
      forall i | 0 <= i < |order|
        ensures Snapshot(users, order)[i] == Info(users, users[order[i]])
      {
        SnapshotAt(users, order, i);
      }
    }
  }

  /** `order` has as many entries as the registry has keys. */
  lemma {:induction false} OrderCardinality(s: State)
    requires RegistryOk(s)
    ensures |s.order| == |s.users|
  {
    ListedCardinality(s.order, s.users.Keys);
  }

  lemma {:induction false} ListedCardinality(xs: seq<Handle>, ks: set<Handle>)
    requires NoDup(xs)
    requires forall i :: 0 <= i < |xs| ==> xs[i] in ks
    requires forall k :: k in ks ==> k in xs
    ensures |xs| == |ks|
  {
    if xs != [] {
      var rest := xs[1..];
      assert forall k :: k in ks - {xs[0]} ==> k in rest by {
        forall k | k in ks - {xs[0]} ensures k in rest {
          var i :| 0 <= i < |xs| && xs[i] == k;
          assert i != 0;
          assert rest[i - 1] == k;
        }
      }
      ListedCardinality(rest, ks - {xs[0]});
    }
  }
}
