/**
 * Any number of API instances sharing presence over a bus that may lose, delay and reorder messages.
 * An instance ignores its own messages; a crashed instance never comes back under its old id.
 */
module PresenceCluster {

  import opened Presence
  import opened PresenceEvents

  /** `views` are the online sets that the connected clients hold; `emitted` all events sent so far. */
  datatype Node = Node(up: bool, gateway: Gateway, views: map<SocketId, set<UserId>>, emitted: seq<Change>)

  /** One copy of a published message; copies of one publication share its number. */
  datatype Packet = Packet(number: nat, dest: InstanceId, sender: InstanceId, users: set<UserId>)

  datatype Cluster = Cluster(now: int, nodes: map<InstanceId, Node>, network: set<Packet>, published: nat)

  /** `stale` is what a connecting client believed before its snapshot. */
  datatype Action =
    | Tick(ms: nat)
    | NodeStep(id: InstanceId, input: Input, stale: set<UserId>, changes: seq<Change>)
    | Deliver(packet: Packet, changes: seq<Change>)
    | Drop(packet: Packet)
    | Crash(id: InstanceId)
    | Begin(id: InstanceId)

  function ClockOf(input: Input, now: int): int
  {
    match input
    case Joining(_, _) => now
    case Leaving(_, _) => now
    case _ => input.now
  }

  function AfterInput(node: Node, input: Input, stale: set<UserId>, changes: seq<Change>): Node
    requires Possible(node.gateway, input)
  {
    var gateway := Handle(node.gateway, input);
    var listeners := match input
                     case Connecting(socket, _, _) => node.views[socket := stale]
                     case Disconnecting(socket, _) => node.views - {socket}
                     case _ => node.views;
    var told := map x | x in listeners :: Fold(listeners[x], changes);
    Node(node.up, gateway,
         if input.Connecting? then told[input.socket := Online(gateway, input.now)] else told,
         node.emitted + changes)
  }

  /** These handlers publish the local set. */
  predicate Publishes(node: Node, input: Input)
  {
    input.Connecting? || (input.Disconnecting? && input.socket in node.gateway.connected) || input.Beating?
  }

  function Publish(s: Cluster, sender: InstanceId): Cluster
    requires sender in s.nodes
  {
    s.(network := s.network + (set d | d in s.nodes ::
                                 Packet(s.published, d, sender, LocalOnline(s.nodes[sender].gateway))),
       published := s.published + 1)
  }

  predicate NodeCan(s: Cluster, id: InstanceId, input: Input, changes: seq<Change>)
  {
    id in s.nodes && s.nodes[id].up && Possible(s.nodes[id].gateway, input) && ClockOf(input, s.now) == s.now &&
    IsDelta(changes, s.nodes[id].gateway.lastBroadcast, Handle(s.nodes[id].gateway, input).lastBroadcast)
  }

  predicate Allowed(s: Cluster, action: Action)
  {
    match action
    case Tick(_) => true
    case NodeStep(id, input, _, changes) => !input.Hearing? && NodeCan(s, id, input, changes)
    case Deliver(p, changes) =>
      p in s.network && p.dest in s.nodes && s.nodes[p.dest].up &&
      (if p.sender == p.dest then changes == [] else NodeCan(s, p.dest, Hearing(p.sender, p.users, s.now), changes))
    case Drop(p) => p in s.network
    case Crash(id) => id in s.nodes
    case Begin(id) => id !in s.nodes
  }

  function Do(s: Cluster, action: Action): Cluster
    requires Allowed(s, action)
  {
    match action
    case Tick(ms) => s.(now := s.now + ms)
    case NodeStep(id, input, stale, changes) =>
      var after := s.(nodes := s.nodes[id := AfterInput(s.nodes[id], input, stale, changes)]);
      if Publishes(s.nodes[id], input) then Publish(after, id) else after
    case Deliver(p, changes) =>
      var rest := s.(network := s.network - {p});
      if p.sender == p.dest then rest
      else rest.(nodes := s.nodes[p.dest :=
                   AfterInput(s.nodes[p.dest], Hearing(p.sender, p.users, s.now), {}, changes)])
    case Drop(p) => s.(network := s.network - {p})
    case Crash(id) => s.(nodes := s.nodes[id := s.nodes[id].(up := false)])
    case Begin(id) => s.(nodes := s.nodes[id := Node(true, EMPTY, map[], [])])
  }

  /**
   * What is on the bus after each action: a connection, the disconnection of a connected socket and a heartbeat send
   * every instance the local set that they leave; a packet goes by being delivered or lost.
   */
  lemma NetworkAfter(s: Cluster, action: Action, p: Packet)
    requires Allowed(s, action)
    ensures var after := Do(s, action);
            var sends := action.NodeStep? &&
                         (action.input.Connecting? || action.input.Beating? ||
                          (action.input.Disconnecting? &&
                           action.input.socket in s.nodes[action.id].gateway.connected));
            (p in after.network <==>
               (p in s.network && !(action.Deliver? && action.packet == p) && !(action.Drop? && action.packet == p)) ||
               (sends && p.number == s.published && p.dest in s.nodes && p.sender == action.id &&
                p.users == LocalOnline(after.nodes[action.id].gateway))) &&
            after.published == s.published + if sends then 1 else 0
  {
    hide Handle;
  }

  /** Which instances are up, and what their gateways did, after each action. */
  lemma NodesAfter(s: Cluster, action: Action, id: InstanceId)
    requires Allowed(s, action)
    ensures var after := Do(s, action);
            (id in after.nodes <==> id in s.nodes || action == Begin(id)) &&
            (id in after.nodes ==>
               (after.nodes[id].up <==> action == Begin(id) || (s.nodes[id].up && action != Crash(id))) &&
               after.nodes[id].gateway ==
                 if action == Begin(id) then EMPTY
                 else if action.NodeStep? && action.id == id then Handle(s.nodes[id].gateway, action.input)
                 else if action.Deliver? && action.packet.dest == id && action.packet.sender != id
                 then Handle(s.nodes[id].gateway, Hearing(action.packet.sender, action.packet.users, s.now))
                 else s.nodes[id].gateway)
  {
    hide Handle, Fold, Online, LocalOnline, IsDelta;
  }

  /** A heartbeat that is delivered leaves the receiver with the sender's local set, stamped now. */
  lemma HeartbeatIsHeard(s: Cluster, sender: InstanceId, dest: InstanceId, sent: seq<Change>, heard: seq<Change>)
    requires sender != dest && dest in s.nodes && s.nodes[dest].up
    requires NodeCan(s, sender, Beating(s.now), sent)
    ensures var users := LocalOnline(s.nodes[sender].gateway);
            var packet, beat := Packet(s.published, dest, sender, users), NodeStep(sender, Beating(s.now), {}, sent);
            Allowed(s, beat) && packet in Do(s, beat).network &&
            (NodeCan(s, dest, Hearing(sender, users, s.now), heard) ==>
               Allowed(Do(s, beat), Deliver(packet, heard)) &&
               var after := Do(Do(s, beat), Deliver(packet, heard));
               sender in after.nodes[dest].gateway.peers &&
               after.nodes[dest].gateway.peers[sender] == PeerState(users, s.now))
  {
    hide Online, IsDelta;
  }

  predicate Initial(s: Cluster)
  {
    s.nodes == map[] && s.network == {} && s.published == 0
  }

  predicate ValidRun(start: Cluster, actions: seq<Action>)
    decreases |actions|, 0
  {
    |actions| == 0 ||
    (ValidRun(start, actions[..|actions| - 1]) &&
     Allowed(After(start, actions[..|actions| - 1]), actions[|actions| - 1]))
  }

  function After(start: Cluster, actions: seq<Action>): Cluster
    requires ValidRun(start, actions)
    decreases |actions|, 1
  {
    if |actions| == 0 then start
    else Do(After(start, actions[..|actions| - 1]), actions[|actions| - 1])
  }

  // --- What holds in every reachable cluster ---------------------------------------------------

  predicate NodeOk(id: InstanceId, node: Node)
  {
    id !in node.gateway.peers &&
    node.views.Keys == node.gateway.connected.Keys &&
    (forall x :: x in node.views ==> node.views[x] == node.gateway.lastBroadcast) &&
    Fold({}, node.emitted) == node.gateway.lastBroadcast && Effective({}, node.emitted)
  }

  predicate NodesOk(s: Cluster)
  {
    forall id :: id in s.nodes ==> NodeOk(id, s.nodes[id])
  }

  ghost predicate CountsOk(s: Cluster)
  {
    forall id :: id in s.nodes ==> CountsFit(s.nodes[id].gateway)
  }

  /** No peer was heard in the future. */
  predicate HeardBy(g: Gateway, now: int)
  {
    forall peer :: peer in g.peers ==> g.peers[peer].at <= now
  }

  predicate TimesOk(s: Cluster)
  {
    forall id :: id in s.nodes ==> HeardBy(s.nodes[id].gateway, s.now)
  }

  predicate NumbersOk(s: Cluster)
  {
    forall p :: p in s.network ==> p.number < s.published
  }

  ghost predicate ClusterOk(s: Cluster)
  {
    NodesOk(s) && CountsOk(s) && TimesOk(s) && NumbersOk(s)
  }

  lemma HandledPeers(g: Gateway, input: Input, now: int)
    requires Possible(g, input) && ClockOf(input, now) == now
    ensures forall i :: i in Handle(g, input).peers ==>
              (input.Hearing? && i == input.sender && Handle(g, input).peers[i] == PeerState(input.users, now)) ||
              (i in g.peers && Handle(g, input).peers[i] == g.peers[i] && (input.Hearing? ==> i != input.sender))
  {
  }

  /** A client that takes its snapshot and applies each later event holds the last announced set. */
  lemma InputKeepsNodeOk(id: InstanceId, node: Node, input: Input, stale: set<UserId>, changes: seq<Change>, now: int)
    requires NodeOk(id, node) && Possible(node.gateway, input) && ClockOf(input, now) == now
    requires IsDelta(changes, node.gateway.lastBroadcast, Handle(node.gateway, input).lastBroadcast)
    requires input.Hearing? ==> input.sender != id
    ensures NodeOk(id, AfterInput(node, input, stale, changes))
  {
    var g, after := node.gateway, AfterInput(node, input, stale, changes);
    DeltaFolds(changes, g.lastBroadcast, after.gateway.lastBroadcast);
    FoldAppend({}, node.emitted, changes);
    EffectiveAppend({}, node.emitted, changes);
    HandledPeers(g, input, now);
    if input.Connecting? {
      SnapshotIsLastBroadcast(g, input);
    }
  }

  /** With one clock reading per handler the snapshot is the set just announced. */
  lemma SnapshotIsLastBroadcast(g: Gateway, input: Input)
    requires Possible(g, input) && input.Connecting?
    ensures Online(Handle(g, input), input.now) == Handle(g, input).lastBroadcast
  {
    var counted := AddLocal(g.(connected := g.connected[input.socket := input.user]), input.user);
    var after := Handle(g, input);
    assert RecentPeers(after.peers, input.now) == RecentPeers(counted.peers, input.now);
    assert LocalOnline(after) == LocalOnline(counted);
  }

  /** The state after one handler of one node, before anything is published. */
  function NodeChanged(s: Cluster, id: InstanceId, input: Input, stale: set<UserId>, changes: seq<Change>): Cluster
    requires NodeCan(s, id, input, changes)
  {
    s.(nodes := s.nodes[id := AfterInput(s.nodes[id], input, stale, changes)])
  }

  lemma NodeChangeKeepsOk(s: Cluster, id: InstanceId, input: Input, stale: set<UserId>, changes: seq<Change>)
    requires ClusterOk(s) && NodeCan(s, id, input, changes)
    requires input.Hearing? ==> input.sender != id
    ensures ClusterOk(NodeChanged(s, id, input, stale, changes))
  {
    var after := NodeChanged(s, id, input, stale, changes);
    assert after.nodes[id].gateway == Handle(s.nodes[id].gateway, input);
    assert NodesOk(after) by {
      InputKeepsNodeOk(id, s.nodes[id], input, stale, changes, s.now);
    }
    assert CountsOk(after) by {
      InputKeepsCounts(s.nodes[id].gateway, input);
    }
    assert TimesOk(after) by {
      HandledPeers(s.nodes[id].gateway, input, s.now);
    }
  }

  lemma BeginKeepsOk(s: Cluster, id: InstanceId)
    requires ClusterOk(s) && id !in s.nodes
    ensures ClusterOk(Do(s, Begin(id)))
  {
    var after := Do(s, Begin(id));
    assert forall u: UserId :: SocketsOf(EMPTY, u) == {};
    assert CountsFit(EMPTY);
    assert NodesOk(after) && CountsOk(after) && TimesOk(after) && NumbersOk(after);
  }

  lemma CrashKeepsOk(s: Cluster, id: InstanceId)
    requires ClusterOk(s) && id in s.nodes
    ensures ClusterOk(Do(s, Crash(id)))
  {
    var after := Do(s, Crash(id));
    assert NodesOk(after) && CountsOk(after) && TimesOk(after) && NumbersOk(after);
  }

  lemma ActionKeepsOk(s: Cluster, action: Action)
    requires ClusterOk(s) && Allowed(s, action)
    ensures ClusterOk(Do(s, action))
  {
    match action
    case NodeStep(id, input, stale, changes) => NodeChangeKeepsOk(s, id, input, stale, changes);
    case Deliver(p, changes) =>
      if p.sender != p.dest {
        NodeChangeKeepsOk(s, p.dest, Hearing(p.sender, p.users, s.now), {}, changes);
      }
    case Begin(id) => BeginKeepsOk(s, id);
    case Crash(id) => CrashKeepsOk(s, id);
    case Tick(_) =>
      assert TimesOk(Do(s, action));
    case Drop(_) =>
  }

  lemma {:induction false} EveryRunIsOk(start: Cluster, actions: seq<Action>)
    requires Initial(start) && ValidRun(start, actions)
    ensures ClusterOk(After(start, actions))
  {
    if |actions| > 0 {
      EveryRunIsOk(start, actions[..|actions| - 1]);
      ActionKeepsOk(After(start, actions[..|actions| - 1]), actions[|actions| - 1]);
    }
  }

  // --- Clients -----------------------------------------------------------------------------------

  /**
   * In every run each connected client of each instance holds exactly the set the instance announced
   * last, which is the fold of all its events, and no event ever repeats a status already sent.
   */
  lemma ClientsFollowEvents(start: Cluster, actions: seq<Action>, id: InstanceId)
    requires Initial(start) && ValidRun(start, actions) && id in After(start, actions).nodes
    ensures var node := After(start, actions).nodes[id];
            node.views.Keys == node.gateway.connected.Keys &&
            (forall x :: x in node.views ==> node.views[x] == node.gateway.lastBroadcast) &&
            Fold({}, node.emitted) == node.gateway.lastBroadcast && Effective({}, node.emitted)
  {
    EveryRunIsOk(start, actions);
    assert NodeOk(id, After(start, actions).nodes[id]);
  }

  predicate Recomputes(node: Node, input: Input)
  {
    input.Connecting? || (input.Disconnecting? && input.socket in node.gateway.connected) ||
    input.Hearing? || input.Beating?
  }

  /** Every handler that changes who is online announces the true online set of that moment. */
  lemma AnnouncedSetIsTrue(node: Node, input: Input, stale: set<UserId>, changes: seq<Change>)
    requires Possible(node.gateway, input)
    ensures var after := AfterInput(node, input, stale, changes);
            if Recomputes(node, input) then after.gateway.lastBroadcast == Online(after.gateway, input.now)
            else after.gateway.lastBroadcast == node.gateway.lastBroadcast
                 && LocalOnline(after.gateway) == LocalOnline(node.gateway)
  {
    var g := Handle(node.gateway, input);
    if Recomputes(node, input) {
      assert RecentPeers(g.peers, input.now) == g.peers;
    }
  }
}
