/**
 * One chat gateway: socket counts, rooms, what it last heard from each peer, and the online set it
 * last told its clients. Every handler is a function from state to state; handlers read the clock once.
 */
module Presence {

  type SocketId = string
  type UserId = string
  type InstanceId = string
  type ConversationId = string

  const PRESENCE_TTL_MS := 60000

  datatype PeerState = PeerState(users: set<UserId>, at: int)

  datatype Gateway = Gateway(
    connected: map<SocketId, UserId>,
    counts: map<UserId, int>,
    rooms: map<ConversationId, set<UserId>>,
    socketRooms: map<SocketId, set<ConversationId>>,
    peers: map<InstanceId, PeerState>,
    lastBroadcast: set<UserId>)

  const EMPTY := Gateway(map[], map[], map[], map[], map[], {})

  datatype Change = Change(user: UserId, online: bool)

  function LocalOnline(g: Gateway): set<UserId>
  {
    set u | u in g.counts && g.counts[u] > 0
  }

  predicate Recent(peer: PeerState, now: int)
  {
    now - peer.at <= PRESENCE_TTL_MS
  }

  function RecentPeers(peers: map<InstanceId, PeerState>, now: int): map<InstanceId, PeerState>
  {
    map i | i in peers && Recent(peers[i], now) :: peers[i]
  }

  function PeerUsers(peers: map<InstanceId, PeerState>): set<UserId>
  {
    set i, u | i in peers && u in peers[i].users :: u
  }

  /** What `onlineUserIds` returns. */
  function Online(g: Gateway, now: int): set<UserId>
  {
    LocalOnline(g) + PeerUsers(RecentPeers(g.peers, now))
  }

  /** Online is who has a socket here, or was in what a peer said at most 60 seconds ago. */
  lemma OnlineIff(g: Gateway, now: int, user: UserId)
    ensures user in Online(g, now) <==>
            (user in g.counts && g.counts[user] > 0) ||
            exists i :: i in g.peers && now - g.peers[i].at <= 60_000 && user in g.peers[i].users
  {
    var recent := RecentPeers(g.peers, now);
    if i :| i in g.peers && now - g.peers[i].at <= 60_000 && user in g.peers[i].users {
      assert i in recent && recent[i] == g.peers[i];
    }
    if user in PeerUsers(recent) {
      var i :| i in recent && user in recent[i].users;
      assert i in g.peers && g.peers[i] == recent[i];
    }
  }

  /** What `onlineUserIds` leaves behind: expired peers are forgotten. */
  function Pruned(g: Gateway, now: int): Gateway
  {
    g.(peers := RecentPeers(g.peers, now))
  }

  function Recomputed(g: Gateway, now: int): Gateway
  {
    Pruned(g, now).(lastBroadcast := Online(g, now))
  }

  function CountOf(g: Gateway, user: UserId): int
  {
    if user in g.counts then g.counts[user] else 0
  }

  function AddLocal(g: Gateway, user: UserId): Gateway
  {
    g.(counts := g.counts[user := CountOf(g, user) + 1])
  }

  function RemoveLocal(g: Gateway, user: UserId): Gateway
  {
    var next := CountOf(g, user) - 1;
    g.(counts := if next <= 0 then g.counts - {user} else g.counts[user := next])
  }

  function Connect(g: Gateway, socket: SocketId, user: UserId, now: int): Gateway
  {
    Recomputed(AddLocal(g.(connected := g.connected[socket := user]), user), now)
  }

  function RoomsOf(g: Gateway, socket: SocketId): set<ConversationId>
  {
    if socket in g.socketRooms then g.socketRooms[socket] else {}
  }

  function MembersOf(g: Gateway, conversation: ConversationId): set<UserId>
  {
    if conversation in g.rooms then g.rooms[conversation] else {}
  }

  /** `user` is taken out of every room in `left` that exists. */
  function LeaveRooms(rooms: map<ConversationId, set<UserId>>, left: set<ConversationId>, user: UserId)
    : map<ConversationId, set<UserId>>
  {
    map c | c in rooms :: if c in left then rooms[c] - {user} else rooms[c]
  }

  function Disconnect(g: Gateway, socket: SocketId, now: int): Gateway
  {
    if socket !in g.connected then g.(socketRooms := g.socketRooms - {socket})
    else
      var user := g.connected[socket];
      Recomputed(RemoveLocal(g.(rooms := LeaveRooms(g.rooms, RoomsOf(g, socket), user),
                                socketRooms := g.socketRooms - {socket},
                                connected := g.connected - {socket}), user), now)
  }

  /** Joining, for a socket whose user is a member of the conversation. */
  function Join(g: Gateway, socket: SocketId, conversation: ConversationId): Gateway
    requires socket in g.connected
  {
    var known := RoomsOf(g, socket);
    if conversation in known then g
    else g.(socketRooms := g.socketRooms[socket := known + {conversation}],
            rooms := g.rooms[conversation := MembersOf(g, conversation) + {g.connected[socket]}])
  }

  function Leave(g: Gateway, socket: SocketId, conversation: ConversationId): Gateway
  {
    if socket !in g.connected then g
    else g.(socketRooms := if socket in g.socketRooms
                           then g.socketRooms[socket := g.socketRooms[socket] - {conversation}] else g.socketRooms,
            rooms := if conversation in g.rooms
                     then g.rooms[conversation := g.rooms[conversation] - {g.connected[socket]}] else g.rooms)
  }

  /** A peer's `global_presence` message. */
  function HearPeer(g: Gateway, sender: InstanceId, users: set<UserId>, now: int): Gateway
  {
    Recomputed(g.(peers := g.peers[sender := PeerState(users, now)]), now)
  }

  // --- Any run of one gateway -----------------------------------------------------------------

  datatype Input =
    | Connecting(socket: SocketId, user: UserId, now: int)
    | Disconnecting(socket: SocketId, now: int)
    | Joining(socket: SocketId, conversation: ConversationId)
    | Leaving(socket: SocketId, conversation: ConversationId)
    | Hearing(sender: InstanceId, users: set<UserId>, now: int)
    | Beating(now: int)
    | Asking(now: int)

  /** Socket ids are never reused while connected, and a join is one step on a connected socket. */
  predicate Possible(g: Gateway, input: Input)
  {
    match input
    case Connecting(socket, _, _) => socket !in g.connected
    case Joining(socket, _) => socket in g.connected
    case _ => true
  }

  function Handle(g: Gateway, input: Input): Gateway
    requires Possible(g, input)
  {
    match input
    case Connecting(socket, user, now) => Connect(g, socket, user, now)
    case Disconnecting(socket, now) => Disconnect(g, socket, now)
    case Joining(socket, conversation) => Join(g, socket, conversation)
    case Leaving(socket, conversation) => Leave(g, socket, conversation)
    case Hearing(sender, users, now) => HearPeer(g, sender, users, now)
    case Beating(now) => Recomputed(g, now)
    case Asking(now) => Pruned(g, now)
  }

  predicate DisconnectsUser(g: Gateway, input: Input, user: UserId)
  {
    input.Disconnecting? && input.socket in g.connected && g.connected[input.socket] == user
  }

  /** Which sockets are connected, and which conversations each has joined, after each input. */
  lemma SocketsAfter(g: Gateway, input: Input, x: SocketId, c: ConversationId)
    requires Possible(g, input)
    ensures var after := Handle(g, input);
            (x in after.connected <==>
               (input.Connecting? && input.socket == x) ||
               (x in g.connected && !(input.Disconnecting? && input.socket == x))) &&
            (x in after.connected ==>
               after.connected[x] ==
                 if input.Connecting? && input.socket == x then input.user else g.connected[x]) &&
            (c in RoomsOf(after, x) <==>
               input == Joining(x, c) ||
               (c in RoomsOf(g, x) && !(input.Disconnecting? && input.socket == x) &&
                !(input == Leaving(x, c) && x in g.connected)))
  {
  }

  /**
   * Who is listed in a room after each input: a joining user, unless their socket had joined before, is added; the
   * user of a leaving socket, and of a closing one that had joined, is taken out; nobody else comes or goes.
   */
  lemma ListedAfter(g: Gateway, input: Input, c: ConversationId, u: UserId)
    requires Possible(g, input)
    ensures u in MembersOf(Handle(g, input), c) <==>
            (input.Joining? && input.conversation == c && c !in RoomsOf(g, input.socket) &&
             g.connected[input.socket] == u) ||
            (u in MembersOf(g, c) &&
             !(input.Leaving? && input.conversation == c && input.socket in g.connected &&
               g.connected[input.socket] == u) &&
             !(DisconnectsUser(g, input, u) && c in RoomsOf(g, input.socket)))
  {
  }

  /** These handlers look at who is online, and forget on the way what peers said more than 60 seconds ago. */
  predicate Looks(g: Gateway, input: Input)
  {
    input.Connecting? || (input.Disconnecting? && input.socket in g.connected) || input.Hearing? ||
    input.Beating? || input.Asking?
  }

  /** What is remembered of a peer after each input. */
  lemma PeersAfter(g: Gateway, input: Input, i: InstanceId)
    requires Possible(g, input)
    ensures var after := Handle(g, input);
            if input.Hearing? && input.sender == i then
              i in after.peers && after.peers[i] == PeerState(input.users, input.now)
            else
              (i in after.peers <==>
                 i in g.peers && (Looks(g, input) ==> input.now - g.peers[i].at <= 60_000)) &&
              (i in after.peers ==> after.peers[i] == g.peers[i])
  {
  }

  predicate PossibleRun(inputs: seq<Input>)
    decreases |inputs|, 0
  {
    |inputs| == 0 ||
    (PossibleRun(inputs[..|inputs| - 1]) &&
     Possible(HandleAll(inputs[..|inputs| - 1]), inputs[|inputs| - 1]))
  }

  function HandleAll(inputs: seq<Input>): Gateway
    requires PossibleRun(inputs)
    decreases |inputs|, 1
  {
    if |inputs| == 0 then EMPTY
    else Handle(HandleAll(inputs[..|inputs| - 1]), inputs[|inputs| - 1])
  }

  /** A run goes on from where it is. */
  lemma RunGoesOn(inputs: seq<Input>, input: Input)
    requires PossibleRun(inputs) && Possible(HandleAll(inputs), input)
    ensures PossibleRun(inputs + [input]) && HandleAll(inputs + [input]) == Handle(HandleAll(inputs), input)
    ensures HandleAll([]) == EMPTY
  {
    assert (inputs + [input])[..|inputs|] == inputs;
  }

  function SocketsOf(g: Gateway, user: UserId): set<SocketId>
  {
    set x | x in g.connected && g.connected[x] == user
  }

  /** A user's count is the number of their connected sockets, and no count is left at zero. */
  predicate CountFits(g: Gateway, u: UserId)
  {
    CountOf(g, u) == |SocketsOf(g, u)| && (u in g.counts ==> g.counts[u] > 0)
  }

  /** Every user's count is the number of that user's connected sockets. */
  ghost predicate CountsFit(g: Gateway)
  {
    forall u: UserId :: CountFits(g, u)
  }

  /** Some connected socket of the user is joined to the conversation. */
  predicate Joined(g: Gateway, user: UserId, conversation: ConversationId)
  {
    exists x :: x in g.connected && g.connected[x] == user && conversation in RoomsOf(g, x)
  }

  /** No one is listed in a room without a connected socket joined to it. */
  predicate RoomsSound(g: Gateway)
  {
    forall c, u :: c in g.rooms && u in g.rooms[c] ==> Joined(g, u, c)
  }

  /** Only connected sockets have joined rooms. */
  predicate RoomsOfConnected(g: Gateway)
  {
    g.socketRooms.Keys <= g.connected.Keys
  }

  /** Everyone with a connected socket joined to a room is listed in it. */
  predicate RoomsComplete(g: Gateway)
  {
    forall x, c :: x in g.connected && c in RoomsOf(g, x) ==> g.connected[x] in MembersOf(g, c)
  }

  lemma ConnectKeepsCount(g: Gateway, socket: SocketId, user: UserId, now: int, u: UserId)
    requires CountFits(g, u) && socket !in g.connected
    ensures CountFits(Connect(g, socket, user, now), u)
  {
    var after := Connect(g, socket, user, now);
    if u == user {
      assert SocketsOf(after, u) == SocketsOf(g, u) + {socket};
    } else {
      assert SocketsOf(after, u) == SocketsOf(g, u);
    }
  }

  lemma ConnectKeepsCounts(g: Gateway, socket: SocketId, user: UserId, now: int)
    requires CountsFit(g) && socket !in g.connected
    ensures CountsFit(Connect(g, socket, user, now))
  {
    hide Connect, CountFits;
    forall u: UserId ensures CountFits(Connect(g, socket, user, now), u) {
      assert CountFits(g, u);
      ConnectKeepsCount(g, socket, user, now, u);
    }
  }

  lemma DisconnectedUserFits(g: Gateway, socket: SocketId, now: int)
    requires socket in g.connected && CountFits(g, g.connected[socket])
    ensures CountFits(Disconnect(g, socket, now), g.connected[socket])
  {
    var user, after := g.connected[socket], Disconnect(g, socket, now);
    assert SocketsOf(after, user) == SocketsOf(g, user) - {socket};
    assert socket in SocketsOf(g, user);
  }

  lemma OtherUsersFit(g: Gateway, socket: SocketId, now: int, u: UserId)
    requires CountFits(g, u) && (socket in g.connected ==> g.connected[socket] != u)
    ensures CountFits(Disconnect(g, socket, now), u)
  {
    var after := Disconnect(g, socket, now);
    assert SocketsOf(after, u) == SocketsOf(g, u);
  }

  lemma DisconnectKeepsCounts(g: Gateway, socket: SocketId, now: int)
    requires CountsFit(g)
    ensures CountsFit(Disconnect(g, socket, now))
  {
    hide Disconnect, CountFits;
    forall u: UserId ensures CountFits(Disconnect(g, socket, now), u) {
      assert CountFits(g, u);
      if socket in g.connected && g.connected[socket] == u {
        DisconnectedUserFits(g, socket, now);
      } else {
        OtherUsersFit(g, socket, now, u);
      }
    }
  }

  lemma InputKeepsCounts(g: Gateway, input: Input)
    requires CountsFit(g) && Possible(g, input)
    ensures CountsFit(Handle(g, input))
  {
    hide CountFits, CountsFit;
    match input
    case Connecting(socket, user, now) => ConnectKeepsCounts(g, socket, user, now);
    case Disconnecting(socket, now) => DisconnectKeepsCounts(g, socket, now);
    case _ =>
      assert Handle(g, input).counts == g.counts && Handle(g, input).connected == g.connected;
      SameCounts(g, Handle(g, input));
  }

  lemma SameCounts(g: Gateway, after: Gateway)
    requires CountsFit(g) && after.counts == g.counts && after.connected == g.connected
    ensures CountsFit(after)
  {
    forall u: UserId ensures CountFits(after, u) {
      assert CountFits(g, u) && SocketsOf(after, u) == SocketsOf(g, u);
    }
  }

  lemma InputKeepsRoomsSound(g: Gateway, input: Input)
    requires RoomsSound(g) && Possible(g, input)
    ensures RoomsSound(Handle(g, input))
  {
    var after := Handle(g, input);
    forall c, u | c in after.rooms && u in after.rooms[c] ensures Joined(after, u, c) {
      if input.Joining? && c == input.conversation && u == g.connected[input.socket] {
        assert c in RoomsOf(after, input.socket);
      } else {
        assert Joined(g, u, c);
        var x :| x in g.connected && g.connected[x] == u && c in RoomsOf(g, x);
        assert x in after.connected && after.connected[x] == u && c in RoomsOf(after, x);
      }
    }
  }

  /**
   * In every reachable gateway state each user's count is the number of connected sockets, the local
   * online set is the set of connected users, and every listed room member has a joined socket.
   */
  lemma {:induction false} EveryRunCountsSockets(inputs: seq<Input>)
    requires PossibleRun(inputs)
    ensures CountsFit(HandleAll(inputs)) && RoomsSound(HandleAll(inputs)) && RoomsOfConnected(HandleAll(inputs))
    ensures LocalOnline(HandleAll(inputs)) == HandleAll(inputs).connected.Values
  {
    if |inputs| > 0 {
      var earlier, last := inputs[..|inputs| - 1], inputs[|inputs| - 1];
      EveryRunCountsSockets(earlier);
      InputKeepsCounts(HandleAll(earlier), last);
      InputKeepsRoomsSound(HandleAll(earlier), last);
    }
    OnlineAreConnected(HandleAll(inputs));
  }

  lemma OnlineAreConnected(g: Gateway)
    requires CountsFit(g)
    ensures LocalOnline(g) == g.connected.Values
  {
    forall u: UserId ensures u in LocalOnline(g) <==> u in g.connected.Values {
      assert CountFits(g, u);
      if u in g.connected.Values {
        var x :| x in g.connected && g.connected[x] == u;
        assert x in SocketsOf(g, u);
      } else {
        assert SocketsOf(g, u) == {};
      }
    }
  }

  // --- When rooms are complete ------------------------------------------------------------------

  /** Another tab of the same user is joined to the room. */
  predicate SharesRoom(g: Gateway, socket: SocketId, conversation: ConversationId)
    requires socket in g.connected
  {
    exists x :: x in g.connected && x != socket && g.connected[x] == g.connected[socket] &&
                conversation in RoomsOf(g, x)
  }

  /** Closing a socket keeps the room lists complete exactly when no other tab of its user shares its rooms. */
  lemma DisconnectKeepsCompleteIff(g: Gateway, socket: SocketId, now: int)
    requires RoomsComplete(g) && socket in g.connected
    ensures RoomsComplete(Disconnect(g, socket, now)) <==>
            forall c :: c in RoomsOf(g, socket) ==> !SharesRoom(g, socket, c)
  {
    var after, user := Disconnect(g, socket, now), g.connected[socket];
    assert forall x :: x in after.connected <==> x in g.connected && x != socket;
    assert forall x :: x in after.connected ==> RoomsOf(after, x) == RoomsOf(g, x);
    assert forall c :: MembersOf(after, c) ==
                       if c in RoomsOf(g, socket) then MembersOf(g, c) - {user} else MembersOf(g, c);
    if c :| c in RoomsOf(g, socket) && SharesRoom(g, socket, c) {
      var x :| x in g.connected && x != socket && g.connected[x] == user && c in RoomsOf(g, x);
      assert x in after.connected && c in RoomsOf(after, x) && after.connected[x] !in MembersOf(after, c);
    } else {
      forall x, c | x in after.connected && c in RoomsOf(after, x) ensures after.connected[x] in MembersOf(after, c) {
        assert g.connected[x] in MembersOf(g, c);
        if g.connected[x] == user && c in RoomsOf(g, socket) {
          assert SharesRoom(g, socket, c);
        }
      }
    }
  }

  /** Leaving a room keeps the room lists complete exactly when no other tab of the user is joined to it. */
  lemma LeaveKeepsCompleteIff(g: Gateway, socket: SocketId, conversation: ConversationId)
    requires RoomsComplete(g) && socket in g.connected
    ensures RoomsComplete(Leave(g, socket, conversation)) <==> !SharesRoom(g, socket, conversation)
  {
    var after, user := Leave(g, socket, conversation), g.connected[socket];
    assert forall x :: x in g.connected ==>
      RoomsOf(after, x) == if x == socket then RoomsOf(g, x) - {conversation} else RoomsOf(g, x);
    assert forall c :: MembersOf(after, c) == if c == conversation then MembersOf(g, c) - {user} else MembersOf(g, c);
    if SharesRoom(g, socket, conversation) {
      var x :| x in g.connected && x != socket && g.connected[x] == user && conversation in RoomsOf(g, x);
      assert x in after.connected && conversation in RoomsOf(after, x);
      assert after.connected[x] !in MembersOf(after, conversation);
    } else {
      forall x, c | x in after.connected && c in RoomsOf(after, x) ensures after.connected[x] in MembersOf(after, c) {
        assert g.connected[x] in MembersOf(g, c);
      }
    }
  }

  /** The other handlers never make a complete gateway incomplete. */
  lemma OtherInputsKeepComplete(g: Gateway, input: Input)
    requires RoomsComplete(g) && RoomsOfConnected(g)
    requires Possible(g, input) && !input.Disconnecting? && !input.Leaving?
    ensures RoomsComplete(Handle(g, input))
  {
    var after := Handle(g, input);
    forall x, c | x in after.connected && c in RoomsOf(after, x) ensures after.connected[x] in MembersOf(after, c) {
      if !(input.Joining? && x == input.socket && c == input.conversation) &&
         !(input.Connecting? && x == input.socket) {
        assert g.connected[x] in MembersOf(g, c);
      }
    }
  }

  /** Two tabs of one user in one room: closing the first drops the user from the room's list. */
  lemma TwoTabsCounterexample()
    ensures var one := Connect(EMPTY, "x", "u", 0);
            var two := Connect(one, "y", "u", 0);
            var both := Join(Join(two, "x", "c"), "y", "c");
            var after := Disconnect(both, "x", 0);
            RoomsComplete(both) && Joined(after, "u", "c") && "u" !in MembersOf(after, "c")
  {
    var two := Connect(Connect(EMPTY, "x", "u", 0), "y", "u", 0);
    assert two.connected == map["x" := "u", "y" := "u"] && two.socketRooms == map[];
    assert "x"[0] != "y"[0];
    assert RoomsOf(two, "x") == {} && RoomsOf(two, "y") == {};
    var joined := Join(two, "x", "c");
    assert RoomsOf(two, "x") + {"c"} == {"c"} && RoomsOf(two, "y") + {"c"} == {"c"};
    assert joined.connected == two.connected && joined.socketRooms == map["x" := {"c"}];
    assert RoomsOf(joined, "y") == {};
    var both := Join(joined, "y", "c");
    assert both.connected == two.connected && both.socketRooms == map["x" := {"c"}, "y" := {"c"}];
    var after := Disconnect(both, "x", 0);
    assert after.connected == map["y" := "u"] && after.socketRooms == map["y" := {"c"}];
    assert "y" in after.connected && "c" in RoomsOf(after, "y");
  }
}
