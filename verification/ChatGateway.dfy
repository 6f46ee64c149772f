/** The presence fields of `ChatGateway` and the handlers that change them in place. */
module ChatGateway {

  import opened Wrappers
  import opened Presence
  import opened PresenceEvents

  class Server {
    var connectedUsers: map<SocketId, UserId>
    var userSocketCount: map<UserId, int>
    var roomMembers: map<ConversationId, set<UserId>>
    var socketRooms: map<SocketId, set<ConversationId>>
    var peerOnline: map<InstanceId, PeerState>
    var lastBroadcastOnline: set<UserId>

    // What has left the instance: events to its sockets, local sets to the bus.
    var emitted: seq<Change>
    var published: seq<set<UserId>>

    ghost function View(): Gateway
      reads this
    {
      Gateway(connectedUsers, userSocketCount, roomMembers, socketRooms, peerOnline, lastBroadcastOnline)
    }

    constructor ()
      ensures View() == EMPTY && emitted == [] && published == []
    {
      connectedUsers, userSocketCount, roomMembers, socketRooms := map[], map[], map[], map[];
      peerOnline, lastBroadcastOnline, emitted, published := map[], {}, [], [];
    }

    function LocalOnlineUserIds(): (users: set<UserId>)
      reads this
      ensures users == LocalOnline(View())
    {
      set u | u in userSocketCount && userSocketCount[u] > 0
    }

    /** Forgets expired peers while it collects the others. */
    method OnlineUserIds(now: int) returns (online: set<UserId>)
      modifies this`peerOnline
      ensures View() == Pruned(old(View()), now) && online == Online(old(View()), now)
    {
      var all := peerOnline;
      online := LocalOnlineUserIds();
      ghost var local := online;
      assert Kept(all, all.Keys, now) == all && UsersSeen(all, all.Keys, now) == {};
      hide Kept, UsersSeen, Online;
      var rest := all.Keys;
      while rest != {}
        invariant rest <= all.Keys
        invariant peerOnline == Kept(all, rest, now) && online == local + UsersSeen(all, rest, now)
        decreases rest
      {
        var id :| id in rest;
        SweepOne(all, rest, id, now);
        if now - peerOnline[id].at > PRESENCE_TTL_MS {
          peerOnline := peerOnline - {id};
        } else {
          online := online + peerOnline[id].users;
        }
        rest := rest - {id};
      }
      assert peerOnline == RecentPeers(all, now) && online == Online(old(View()), now) by {
        SweptAll(all, now);
        OnlineIs(old(View()), now);
      }
    }

    /** The peers left while `rest` is still to be visited. */
    static function Kept(all: map<InstanceId, PeerState>, rest: set<InstanceId>, now: int): map<InstanceId, PeerState>
    {
      map i | i in all && (i in rest || Recent(all[i], now)) :: all[i]
    }

    static function UsersSeen(all: map<InstanceId, PeerState>, rest: set<InstanceId>, now: int): set<UserId>
    {
      PeerUsers(RecentPeers(all - rest, now))
    }

    static lemma SweepOne(all: map<InstanceId, PeerState>, rest: set<InstanceId>, id: InstanceId, now: int)
      requires id in rest && rest <= all.Keys
      ensures id in Kept(all, rest, now) && Kept(all, rest, now)[id] == all[id]
      ensures Kept(all, rest - {id}, now) ==
              if Recent(all[id], now) then Kept(all, rest, now) else Kept(all, rest, now) - {id}
      ensures UsersSeen(all, rest - {id}, now) ==
              UsersSeen(all, rest, now) + if Recent(all[id], now) then all[id].users else {}
    {
      var done := RecentPeers(all - rest, now);
      if Recent(all[id], now) {
        assert RecentPeers(all - (rest - {id}), now) == done[id := all[id]];
        PeerUsersInsert(done, id, all[id]);
      } else {
        assert RecentPeers(all - (rest - {id}), now) == done;
      }
    }

    static lemma SweptAll(all: map<InstanceId, PeerState>, now: int)
      ensures Kept(all, {}, now) == RecentPeers(all, now)
      ensures UsersSeen(all, {}, now) == PeerUsers(RecentPeers(all, now))
    {
      assert all - {} == all;
    }

    static lemma OnlineIs(g: Gateway, now: int)
      ensures Online(g, now) == LocalOnline(g) + PeerUsers(RecentPeers(g.peers, now))
    {
    }

    static lemma PeerUsersInsert(peers: map<InstanceId, PeerState>, id: InstanceId, state: PeerState)
      requires id !in peers
      ensures PeerUsers(peers[id := state]) == PeerUsers(peers) + state.users
    {
      var longer := peers[id := state];
      forall u | u in PeerUsers(peers) + state.users ensures u in PeerUsers(longer) {
        if u in state.users {
          assert id in longer && u in longer[id].users;
        } else {
          var i :| i in peers && u in peers[i].users;
          assert i in longer && u in longer[i].users;
        }
      }
    }

    method PublishGlobalPresence()
      modifies this`published
      ensures published == old(published) + [LocalOnline(View())]
    {
      published := published + [LocalOnlineUserIds()];
    }

    /** One event for each user that came online, then one for each that went. */
    method RecomputeGlobalPresence(now: int) returns (changes: seq<Change>)
      modifies this`peerOnline, this`lastBroadcastOnline, this`emitted
      ensures View() == Recomputed(old(View()), now)
      ensures IsDelta(changes, old(lastBroadcastOnline), lastBroadcastOnline)
      ensures emitted == old(emitted) + changes
    {
      var online := OnlineUserIds(now);
      var before := lastBroadcastOnline;
      changes := [];
      var rest := online;
      while rest != {}
        invariant emitted == old(emitted) && View() == Pruned(old(View()), now)
        invariant rest <= online
        invariant IsDelta(changes, before, before + (online - rest))
        decreases rest
      {
        var user :| user in rest;
        if user !in before {
          OneMoreChange(changes, before, before + (online - rest), user, true);
          changes := changes + [Change(user, true)];
        }
        rest := rest - {user};
        assert before + (online - rest) == before + (online - rest - {user}) + {user};
      }
      var gone := before;
      while gone != {}
        invariant emitted == old(emitted) && View() == Pruned(old(View()), now)
        invariant gone <= before
        invariant IsDelta(changes, before, (before + online) - ((before - gone) - online))
        decreases gone
      {
        var user :| user in gone;
        if user !in online {
          OneMoreChange(changes, before, (before + online) - ((before - gone) - online), user, false);
          changes := changes + [Change(user, false)];
          assert (before + online) - ((before - (gone - {user})) - online)
              == (before + online) - ((before - gone) - online) - {user};
        } else {
          assert (before + online) - ((before - (gone - {user})) - online)
              == (before + online) - ((before - gone) - online);
        }
        gone := gone - {user};
      }
      assert (before + online) - ((before - gone) - online) == online;
      emitted := emitted + changes;
      lastBroadcastOnline := online;
    }

    static lemma OneMoreChange(changes: seq<Change>, before: set<UserId>, after: set<UserId>, user: UserId,
                               online: bool)
      requires IsDelta(changes, before, after)
      requires (user in before) == (user in after) == !online
      ensures IsDelta(changes + [Change(user, online)], before, if online then after + {user} else after - {user})
    {
      var longer := changes + [Change(user, online)];
      assert longer[|changes|] == Change(user, online);
      assert forall c :: c in changes ==> c in longer;
      assert forall i :: 0 <= i < |changes| ==> changes[i].user != user;
    }

    method AddLocalPresence(user: UserId, now: int)
      modifies this`userSocketCount, this`peerOnline, this`lastBroadcastOnline, this`emitted, this`published
      ensures View() == Recomputed(AddLocal(old(View()), user), now)
      ensures published == old(published) + [LocalOnline(View())]
      ensures exists changes :: emitted == old(emitted) + changes &&
                IsDelta(changes, old(lastBroadcastOnline), lastBroadcastOnline)
    {
      var count := if user in userSocketCount then userSocketCount[user] else 0;
      userSocketCount := userSocketCount[user := count + 1];
      PublishGlobalPresence();
      var changes := RecomputeGlobalPresence(now);
    }

    method RemoveLocalPresence(user: UserId, now: int)
      modifies this`userSocketCount, this`peerOnline, this`lastBroadcastOnline, this`emitted, this`published
      ensures View() == Recomputed(RemoveLocal(old(View()), user), now)
      ensures published == old(published) + [LocalOnline(View())]
      ensures exists changes :: emitted == old(emitted) + changes &&
                IsDelta(changes, old(lastBroadcastOnline), lastBroadcastOnline)
    {
      var next := (if user in userSocketCount then userSocketCount[user] else 0) - 1;
      if next <= 0 {
        userSocketCount := userSocketCount - {user};
      } else {
        userSocketCount := userSocketCount[user := next];
      }
      PublishGlobalPresence();
      var changes := RecomputeGlobalPresence(now);
    }

    /** A socket without a verified user is closed at once; others get a snapshot. */
    method HandleConnection(socket: SocketId, user: Option<UserId>, now: int) returns (snapshot: Option<set<UserId>>)
      modifies this
      ensures user.None? ==> View() == old(View()) && snapshot == None && emitted == old(emitted)
      ensures user.Some? ==>
                View() == Connect(old(View()), socket, user.value, now) && snapshot == Some(lastBroadcastOnline)
      ensures user.Some? ==> published == old(published) + [LocalOnline(View())]
      ensures user.Some? ==> exists changes :: emitted == old(emitted) + changes &&
                                               IsDelta(changes, old(lastBroadcastOnline), lastBroadcastOnline)
    {
      if user.None? {
        return None;
      }
      connectedUsers := connectedUsers[socket := user.value];
      AddLocalPresence(user.value, now);
      assert RecentPeers(peerOnline, now) == peerOnline;
      var online := OnlineUserIds(now);
      return Some(online);
    }

    method HandleDisconnect(socket: SocketId, now: int)
      modifies this
      ensures View() == Disconnect(old(View()), socket, now)
      ensures published ==
              if socket in old(connectedUsers) then old(published) + [LocalOnline(View())] else old(published)
      ensures exists changes :: emitted == old(emitted) + changes &&
                IsDelta(changes, old(lastBroadcastOnline), lastBroadcastOnline)
    {
      if socket in connectedUsers {
        var user := connectedUsers[socket];
        var left := if socket in socketRooms then socketRooms[socket] else {};
        var rest := left;
        var rooms := roomMembers;
        while rest != {}
          invariant rest <= left
          invariant View() == old(View()).(rooms := LeaveRooms(rooms, left - rest, user))
          invariant emitted == old(emitted) && published == old(published)
          decreases rest
        {
          var conversation :| conversation in rest;
          if conversation in roomMembers {
            roomMembers := roomMembers[conversation := roomMembers[conversation] - {user}];
          }
          rest := rest - {conversation};
          assert roomMembers == LeaveRooms(rooms, left - rest, user);
        }
        assert left - rest == RoomsOf(old(View()), socket);
        socketRooms := socketRooms - {socket};
        connectedUsers := connectedUsers - {socket};
        RemoveLocalPresence(user, now);
      } else {
        socketRooms := socketRooms - {socket};
        assert emitted == old(emitted) + [] && IsDelta([], old(lastBroadcastOnline), lastBroadcastOnline);
      }
    }

    /** `isMember` is the answer of the membership check; nothing is joined without it. */
    method HandleJoinConversation(socket: SocketId, conversation: ConversationId, isMember: bool)
      returns (success: bool)
      requires socket in connectedUsers
      modifies this`socketRooms, this`roomMembers
      ensures success == isMember
      ensures View() == if isMember then Join(old(View()), socket, conversation) else old(View())
    {
      if !isMember {
        return false;
      }
      var known := if socket in socketRooms then socketRooms[socket] else {};
      if conversation in known {
        return true;
      }
      socketRooms := socketRooms[socket := known + {conversation}];
      var members := if conversation in roomMembers then roomMembers[conversation] else {};
      roomMembers := roomMembers[conversation := members + {connectedUsers[socket]}];
      return true;
    }

    method HandleLeaveConversation(socket: SocketId, conversation: ConversationId)
      modifies this`socketRooms, this`roomMembers
      ensures View() == Leave(old(View()), socket, conversation)
    {
      if socket in connectedUsers {
        if socket in socketRooms {
          socketRooms := socketRooms[socket := socketRooms[socket] - {conversation}];
        }
        if conversation in roomMembers {
          roomMembers := roomMembers[conversation := roomMembers[conversation] - {connectedUsers[socket]}];
        }
      }
    }

    /** The bus drops an instance's own messages before this handler. */
    method HandleGlobalPresence(sender: InstanceId, users: set<UserId>, now: int)
      modifies this`peerOnline, this`lastBroadcastOnline, this`emitted
      ensures View() == HearPeer(old(View()), sender, users, now)
      ensures exists changes :: emitted == old(emitted) + changes &&
                IsDelta(changes, old(lastBroadcastOnline), lastBroadcastOnline)
    {
      peerOnline := peerOnline[sender := PeerState(users, now)];
      var changes := RecomputeGlobalPresence(now);
    }

    method Heartbeat(now: int)
      modifies this`peerOnline, this`lastBroadcastOnline, this`emitted, this`published
      ensures View() == Handle(old(View()), Beating(now))
      ensures published == old(published) + [LocalOnline(View())]
      ensures exists changes :: emitted == old(emitted) + changes &&
                IsDelta(changes, old(lastBroadcastOnline), lastBroadcastOnline)
    {
      PublishGlobalPresence();
      var changes := RecomputeGlobalPresence(now);
    }
  }
}
