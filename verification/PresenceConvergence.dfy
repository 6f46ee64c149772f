/** What a reported online set is worth: where it came from, and when it is exact. */
module PresenceConvergence {

  import opened Presence
  import opened PresenceCluster

  lemma {:induction false} PrefixIsRun(start: Cluster, actions: seq<Action>, k: nat)
    requires ValidRun(start, actions) && k <= |actions|
    ensures ValidRun(start, actions[..k])
    ensures k < |actions| ==> Allowed(After(start, actions[..k]), actions[k])
    ensures k < |actions| ==>
              ValidRun(start, actions[..k + 1]) &&
              After(start, actions[..k + 1]) == Do(After(start, actions[..k]), actions[k])
  {
    if k == |actions| {
      assert actions[..k] == actions;
    } else if k == |actions| - 1 {
      assert actions[..k + 1] == actions;
    } else {
      PrefixIsRun(start, actions[..|actions| - 1], k);
      assert actions[..|actions| - 1][..k] == actions[..k];
      assert actions[..|actions| - 1][..k + 1] == actions[..k + 1];
    }
  }

  /** At some moment of the run the instance's local online set was exactly `users`. */
  ghost predicate WasLocal(start: Cluster, actions: seq<Action>, sender: InstanceId, users: set<UserId>)
  {
    exists k: nat :: LocalAt(start, actions, k, sender, users)
  }

  ghost predicate LocalAt(start: Cluster, actions: seq<Action>, k: nat, sender: InstanceId, users: set<UserId>)
  {
    k <= |actions| && ValidRun(start, actions[..k]) && sender in After(start, actions[..k]).nodes &&
    LocalOnline(After(start, actions[..k]).nodes[sender].gateway) == users
  }

  lemma WasLocalLater(start: Cluster, actions: seq<Action>, sender: InstanceId, users: set<UserId>)
    requires |actions| > 0 && WasLocal(start, actions[..|actions| - 1], sender, users)
    ensures WasLocal(start, actions, sender, users)
  {
    var earlier := actions[..|actions| - 1];
    var k: nat :| LocalAt(start, earlier, k, sender, users);
    assert earlier[..k] == actions[..k];
    assert LocalAt(start, actions, k, sender, users);
  }

  ghost predicate RumoursTrue(start: Cluster, actions: seq<Action>)
    requires ValidRun(start, actions)
  {
    var s := After(start, actions);
    (forall p :: p in s.network ==> WasLocal(start, actions, p.sender, p.users)) &&
    (forall id, peer :: id in s.nodes && peer in s.nodes[id].gateway.peers ==>
       WasLocal(start, actions, peer, s.nodes[id].gateway.peers[peer].users))
  }

  /** Whatever an instance has heard, or may yet hear, was true of its sender when it was sent. */
  lemma {:induction false} RumoursWereTrue(start: Cluster, actions: seq<Action>)
    requires Initial(start) && ValidRun(start, actions)
    ensures RumoursTrue(start, actions)
  {
    if |actions| > 0 {
      var earlier, last := actions[..|actions| - 1], actions[|actions| - 1];
      RumoursWereTrue(start, earlier);
      var before, s := After(start, earlier), After(start, actions);
      assert s == Do(before, last);
      forall p | p in s.network ensures WasLocal(start, actions, p.sender, p.users) {
        if p in before.network {
          WasLocalLater(start, actions, p.sender, p.users);
        } else {
          NewPacketsAreTrue(before, last, p);
          assert actions[..|actions|] == actions;
          assert LocalAt(start, actions, |actions|, p.sender, p.users);
        }
      }
      forall id, peer | id in s.nodes && peer in s.nodes[id].gateway.peers
        ensures WasLocal(start, actions, peer, s.nodes[id].gateway.peers[peer].users)
      {
        EntriesComeFrom(before, last, id, peer);
        WasLocalLater(start, actions, peer, s.nodes[id].gateway.peers[peer].users);
      }
    }
  }

  lemma NewPacketsAreTrue(s: Cluster, action: Action, p: Packet)
    requires Allowed(s, action) && p in Do(s, action).network && p !in s.network
    ensures p.number == s.published && Do(s, action).published == s.published + 1
    ensures action.NodeStep? && p.sender == action.id && p.sender in Do(s, action).nodes
    ensures p.users == LocalOnline(Do(s, action).nodes[p.sender].gateway)
  {
  }

  /** An entry about a peer is an old one or a packet just delivered. */
  lemma EntriesComeFrom(s: Cluster, action: Action, id: InstanceId, peer: InstanceId)
    requires Allowed(s, action) && id in Do(s, action).nodes && peer in Do(s, action).nodes[id].gateway.peers
    ensures var entry := Do(s, action).nodes[id].gateway.peers[peer];
            (id in s.nodes && peer in s.nodes[id].gateway.peers && s.nodes[id].gateway.peers[peer] == entry) ||
            (action.Deliver? && action.packet in s.network && action.packet.sender == peer &&
             entry == PeerState(action.packet.users, s.now))
  {
    match action
    case NodeStep(node, input, _, _) =>
      if id == node {
        HandledPeers(s.nodes[id].gateway, input, s.now);
      }
    case Deliver(p, _) =>
      if id == p.dest && p.sender != p.dest {
        HandledPeers(s.nodes[id].gateway, Hearing(p.sender, p.users, s.now), s.now);
      }
    case _ =>
  }

  predicate HeardFrom(s: Cluster, id: InstanceId, peer: InstanceId, user: UserId)
    requires id in s.nodes
  {
    var peers := s.nodes[id].gateway.peers;
    peer != id && peer in peers && user in peers[peer].users && 0 <= s.now - peers[peer].at <= 60_000
  }

  lemma RemoteUsersWereHeard(s: Cluster, id: InstanceId, user: UserId) returns (peer: InstanceId)
    requires id in s.nodes && NodeOk(id, s.nodes[id]) && HeardBy(s.nodes[id].gateway, s.now)
    requires user in Online(s.nodes[id].gateway, s.now) && user !in LocalOnline(s.nodes[id].gateway)
    ensures HeardFrom(s, id, peer, user)
  {
    var peers := s.nodes[id].gateway.peers;
    peer :| peer in peers && Recent(peers[peer], s.now) && user in peers[peer].users;
  }

  /**
   * A user reported online is connected here, or was connected to a peer when that peer sent the set
   * that arrived here at most a minute ago.
   */
  lemma ReportedUsersWereOnline(start: Cluster, actions: seq<Action>, id: InstanceId, user: UserId)
    requires Initial(start) && ValidRun(start, actions) && id in After(start, actions).nodes
    requires user in Online(After(start, actions).nodes[id].gateway, After(start, actions).now)
    ensures var s := After(start, actions);
            user in s.nodes[id].gateway.connected.Values ||
            exists peer :: HeardFrom(s, id, peer, user) &&
                           WasLocal(start, actions, peer, s.nodes[id].gateway.peers[peer].users)
  {
    EveryRunIsOk(start, actions);
    RumoursWereTrue(start, actions);
    var s := After(start, actions);
    OnlineAreConnected(s.nodes[id].gateway);
    if user !in LocalOnline(s.nodes[id].gateway) {
      var peer := RemoteUsersWereHeard(s, id, user);
      assert HeardFrom(s, id, peer, user);
    }
  }

  // --- Convergence --------------------------------------------------------------------------------

  /** Connections do not change, and no instance starts or stops. */
  predicate Quiet(action: Action)
  {
    match action
    case Tick(_) => true
    case NodeStep(_, input, _, _) => !input.Connecting? && !input.Disconnecting?
    case Deliver(_, _) => true
    case Drop(_) => true
    case Crash(_) => false
    case Begin(_) => false
  }

  predicate Live(s: Cluster, id: InstanceId)
  {
    id in s.nodes && s.nodes[id].up
  }

  /** The packet or entry says what is true of a live instance. */
  predicate Exact(s: Cluster, sender: InstanceId, users: set<UserId>)
  {
    Live(s, sender) && users == LocalOnline(s.nodes[sender].gateway)
  }

  predicate SameConnections(s: Cluster, after: Cluster)
  {
    after.nodes.Keys == s.nodes.Keys &&
    forall id :: id in s.nodes ==>
      after.nodes[id].up == s.nodes[id].up && after.nodes[id].gateway.counts == s.nodes[id].gateway.counts
  }

  lemma QuietInputKeepsCounts(g: Gateway, input: Input)
    requires Possible(g, input) && !input.Connecting? && !input.Disconnecting?
    ensures Handle(g, input).counts == g.counts
  {
  }

  lemma QuietKeepsConnections(s: Cluster, action: Action)
    requires Allowed(s, action) && Quiet(action)
    ensures SameConnections(s, Do(s, action)) && Do(s, action).now >= s.now && Do(s, action).published >= s.published
  {
    match action
    case NodeStep(id, input, stale, changes) =>
      QuietInputKeepsCounts(s.nodes[id].gateway, input);
      assert Do(s, action).nodes == s.nodes[id := AfterInput(s.nodes[id], input, stale, changes)];
    case Deliver(p, changes) =>
      if p.sender != p.dest {
        var input := Hearing(p.sender, p.users, s.now);
        QuietInputKeepsCounts(s.nodes[p.dest].gateway, input);
        assert Do(s, action).nodes == s.nodes[p.dest := AfterInput(s.nodes[p.dest], input, {}, changes)];
      }
    case _ =>
  }

  lemma ExactStays(s: Cluster, after: Cluster, sender: InstanceId, users: set<UserId>)
    requires SameConnections(s, after) && Exact(s, sender, users)
    ensures Exact(after, sender, users)
  {
  }

  /** Messages published since number `since` are exact. */
  predicate NewsExact(s: Cluster, since: nat)
  {
    since <= s.published &&
    forall p :: p in s.network && p.number >= since ==> Exact(s, p.sender, p.users)
  }

  predicate Drained(s: Cluster, since: nat)
  {
    forall p :: p in s.network ==> p.number >= since
  }

  /** Whatever was heard after `time` is exact. */
  predicate HeardExact(s: Cluster, time: int)
  {
    time <= s.now &&
    forall id, peer :: id in s.nodes && peer in s.nodes[id].gateway.peers && s.nodes[id].gateway.peers[peer].at > time
      ==> Exact(s, peer, s.nodes[id].gateway.peers[peer].users)
  }

  lemma QuietKeepsNewsExact(s: Cluster, action: Action, since: nat)
    requires Allowed(s, action) && Quiet(action) && NewsExact(s, since)
    ensures NewsExact(Do(s, action), since)
    ensures Drained(s, since) ==> Drained(Do(s, action), since)
  {
    var after := Do(s, action);
    QuietKeepsConnections(s, action);
    forall p | p in after.network && p.number >= since ensures Exact(after, p.sender, p.users) {
      if p in s.network {
        ExactStays(s, after, p.sender, p.users);
      } else {
        NewPacketsAreTrue(s, action, p);
      }
    }
    if Drained(s, since) {
      forall p | p in after.network ensures p.number >= since {
        if p !in s.network {
          NewPacketsAreTrue(s, action, p);
        }
      }
    }
  }

  lemma QuietKeepsHeardExact(s: Cluster, action: Action, since: nat, time: int)
    requires Allowed(s, action) && Quiet(action)
    requires NewsExact(s, since) && Drained(s, since) && HeardExact(s, time)
    ensures HeardExact(Do(s, action), time)
  {
    var after := Do(s, action);
    QuietKeepsConnections(s, action);
    forall id, peer | id in after.nodes && peer in after.nodes[id].gateway.peers &&
                      after.nodes[id].gateway.peers[peer].at > time
      ensures Exact(after, peer, after.nodes[id].gateway.peers[peer].users)
    {
      EntriesComeFrom(s, action, id, peer);
      ExactStays(s, after, peer, after.nodes[id].gateway.peers[peer].users);
    }
  }

  predicate QuietFrom(actions: seq<Action>, n: nat)
  {
    forall k :: n <= k < |actions| ==> Quiet(actions[k])
  }

  lemma {:induction false} NewsIsExact(start: Cluster, actions: seq<Action>, n: nat, k: nat)
    requires Initial(start) && ValidRun(start, actions) && QuietFrom(actions, n) && n <= k <= |actions|
    ensures ValidRun(start, actions[..n]) && ValidRun(start, actions[..k])
    ensures NewsExact(After(start, actions[..k]), After(start, actions[..n]).published)
  {
    PrefixIsRun(start, actions, n);
    if k == n {
      EveryRunIsOk(start, actions[..n]);
    } else {
      NewsIsExact(start, actions, n, k - 1);
      PrefixIsRun(start, actions, k - 1);
      QuietKeepsNewsExact(After(start, actions[..k - 1]), actions[k - 1], After(start, actions[..n]).published);
    }
  }

  /** From a quiet moment with no old message left, everything heard later is exact. */
  lemma {:induction false} HeardIsExact(start: Cluster, actions: seq<Action>, n: nat, m: nat, k: nat)
    requires Initial(start) && ValidRun(start, actions) && QuietFrom(actions, n) && n <= m <= k <= |actions|
    requires ValidRun(start, actions[..n]) && ValidRun(start, actions[..m])
    requires Drained(After(start, actions[..m]), After(start, actions[..n]).published)
    ensures ValidRun(start, actions[..k])
    ensures Drained(After(start, actions[..k]), After(start, actions[..n]).published)
    ensures HeardExact(After(start, actions[..k]), After(start, actions[..m]).now)
  {
    PrefixIsRun(start, actions, k);
    if k == m {
      EveryRunIsOk(start, actions[..m]);
      var s := After(start, actions[..m]);
      assert forall id :: id in s.nodes ==> HeardBy(s.nodes[id].gateway, s.now);
    } else {
      HeardIsExact(start, actions, n, m, k - 1);
      NewsIsExact(start, actions, n, k - 1);
      PrefixIsRun(start, actions, k - 1);
      var since := After(start, actions[..n]).published;
      QuietKeepsNewsExact(After(start, actions[..k - 1]), actions[k - 1], since);
      QuietKeepsHeardExact(After(start, actions[..k - 1]), actions[k - 1], since, After(start, actions[..m]).now);
    }
  }

  /** Everyone with a socket connected to a live instance. */
  function TrulyOnline(s: Cluster): set<UserId>
  {
    set id, u | id in s.nodes && s.nodes[id].up && u in s.nodes[id].gateway.connected.Values :: u
  }

  /** A recent entry about every live peer, heard after `time`, and none about anyone else. */
  ghost predicate HeardAllSince(s: Cluster, id: InstanceId, time: int)
    requires id in s.nodes
  {
    var peers := s.nodes[id].gateway.peers;
    (forall j :: Live(s, j) && j != id ==> j in peers && peers[j].at > time && Recent(peers[j], s.now)) &&
    (forall j :: j in peers && Recent(peers[j], s.now) ==> Live(s, j) && peers[j].at > time)
  }

  lemma ExactEntriesGiveTheUnion(s: Cluster, id: InstanceId, time: int)
    requires ClusterOk(s) && HeardExact(s, time) && Live(s, id) && HeardAllSince(s, id, time)
    ensures Online(s.nodes[id].gateway, s.now) == TrulyOnline(s)
  {
    var g := s.nodes[id].gateway;
    var recent := RecentPeers(g.peers, s.now);
    forall j | Live(s, j) ensures LocalOnline(s.nodes[j].gateway) == s.nodes[j].gateway.connected.Values {
      OnlineAreConnected(s.nodes[j].gateway);
    }
    forall u | u in TrulyOnline(s) ensures u in Online(g, s.now) {
      var j :| j in s.nodes && s.nodes[j].up && u in s.nodes[j].gateway.connected.Values;
      assert Live(s, j);
      if j != id {
        assert Exact(s, j, g.peers[j].users);
        assert j in recent && u in recent[j].users;
      }
    }
    forall u | u in Online(g, s.now) ensures u in TrulyOnline(s) {
      if u in LocalOnline(g) {
        assert Live(s, id);
      } else {
        var j :| j in recent && u in recent[j].users;
        assert Exact(s, j, g.peers[j].users);
      }
    }
  }

  /**
   * Presence converges. Connections last changed at step n, by step m the messages published before
   * then were all delivered or lost, and at the end each live instance has since heard every other live
   * instance within the last minute and no one else. Then every live instance reports exactly the
   * users with a socket on some live instance.
   */
  lemma PresenceConverges(start: Cluster, actions: seq<Action>, n: nat, m: nat)
    requires Initial(start) && ValidRun(start, actions) && QuietFrom(actions, n) && n <= m <= |actions|
    requires ValidRun(start, actions[..n]) && ValidRun(start, actions[..m])
    requires Drained(After(start, actions[..m]), After(start, actions[..n]).published)
    requires forall id :: Live(After(start, actions), id) ==>
               HeardAllSince(After(start, actions), id, After(start, actions[..m]).now)
    ensures var s := After(start, actions);
            forall id :: Live(s, id) ==> Online(s.nodes[id].gateway, s.now) == TrulyOnline(s)
  {
    var s, time := After(start, actions), After(start, actions[..m]).now;
    EveryRunIsOk(start, actions);
    HeardIsExact(start, actions, n, m, |actions|);
    assert actions[..|actions|] == actions;
    forall id | Live(s, id) ensures Online(s.nodes[id].gateway, s.now) == TrulyOnline(s) {
      ExactEntriesGiveTheUnion(s, id, time);
    }
  }

  /**
   * Waiting out one minute is enough to forget the dead: once the old messages have been gone for more
   * than the time to live, a recent heartbeat from every live peer is all that is needed.
   */
  lemma PresenceConvergesAfterOneMinute(start: Cluster, actions: seq<Action>, n: nat, m: nat)
    requires Initial(start) && ValidRun(start, actions) && QuietFrom(actions, n) && n <= m <= |actions|
    requires ValidRun(start, actions[..n]) && ValidRun(start, actions[..m])
    requires Drained(After(start, actions[..m]), After(start, actions[..n]).published)
    requires After(start, actions).now > After(start, actions[..m]).now + 60_000
    requires var s := After(start, actions);
             forall id, j :: Live(s, id) && Live(s, j) && j != id ==>
               j in s.nodes[id].gateway.peers && Recent(s.nodes[id].gateway.peers[j], s.now)
    ensures var s := After(start, actions);
            forall id :: Live(s, id) ==> Online(s.nodes[id].gateway, s.now) == TrulyOnline(s)
  {
    var s, time := After(start, actions), After(start, actions[..m]).now;
    HeardIsExact(start, actions, n, m, |actions|);
    assert actions[..|actions|] == actions;
    forall id | Live(s, id) ensures HeardAllSince(s, id, time) {
      var peers := s.nodes[id].gateway.peers;
      forall j | j in peers && Recent(peers[j], s.now) ensures Live(s, j) && peers[j].at > time {
        assert Exact(s, j, peers[j].users);
      }
    }
    PresenceConverges(start, actions, n, m);
  }
}
