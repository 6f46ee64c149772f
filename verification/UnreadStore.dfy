/** Messages, notifications and read states as tables that the chat use cases update in place. */
module UnreadStore {

  import opened Wrappers
  import opened Unread

  datatype Summary = Summary(unreadCount: nat, lastContent: Option<string>, lastAt: Option<int>)

  datatype Deletion = Deleted | NotFound | Forbidden

  /** The latest message of a conversation. */
  function LastMessage(messages: seq<Message>, conversation: ConversationId): (last: Option<Message>)
    ensures last.None? <==> forall m :: m in messages ==> m.conversation != conversation
    ensures last.Some? ==>
              last.value in messages && last.value.conversation == conversation &&
              forall m :: m in messages && m.conversation == conversation ==> m.createdAt <= last.value.createdAt
  {
    if messages == [] then None
    else
      var earlier, m := LastMessage(messages[..|messages| - 1], conversation), messages[|messages| - 1];
      if m.conversation == conversation && (earlier.None? || earlier.value.createdAt <= m.createdAt) then Some(m)
      else earlier
  }

  function SummaryOf(s: Inbox, user: UserId, conversation: ConversationId): Summary
  {
    var last := LastMessage(s.messages, conversation);
    Summary(SummaryCount(s, user, conversation),
            if last.Some? then Some(last.value.content) else None,
            if last.Some? then Some(last.value.createdAt) else None)
  }

  /** The summary in terms of the messages: how many are unread, and the latest one. */
  lemma SummaryIs(s: Inbox, user: UserId, c: ConversationId)
    ensures var summary := SummaryOf(s, user, c);
            summary.unreadCount ==
              |set i | 0 <= i < |s.messages| && s.messages[i].conversation == c && s.messages[i].sender != user &&
                       ((user, c) in s.lastRead ==> s.messages[i].createdAt > s.lastRead[(user, c)])| &&
            (summary.lastContent.None? <==> forall m :: m in s.messages ==> m.conversation != c) &&
            (summary.lastAt.None? <==> summary.lastContent.None?) &&
            (summary.lastContent.Some? ==>
               (exists m :: m in s.messages && m.conversation == c && m.content == summary.lastContent.value &&
                            m.createdAt == summary.lastAt.value) &&
               (forall m :: m in s.messages && m.conversation == c ==> m.createdAt <= summary.lastAt.value))
  {
    CountIsSize(s.messages, user, c, LastRead(s, user, c));
    var counted := set i | 0 <= i < |s.messages| && CountsFor(s.messages[i], user, c, LastRead(s, user, c));
    assert counted ==
      set i | 0 <= i < |s.messages| && s.messages[i].conversation == c && s.messages[i].sender != user &&
              ((user, c) in s.lastRead ==> s.messages[i].createdAt > s.lastRead[(user, c)]);
  }

  lemma {:induction false} CountIsSize(messages: seq<Message>, user: UserId, c: ConversationId, lastRead: Option<int>)
    ensures CountUnread(messages, user, c, lastRead) ==
            |set i | 0 <= i < |messages| && CountsFor(messages[i], user, c, lastRead)|
  {
    hide CountsFor;
    var all := set i | 0 <= i < |messages| && CountsFor(messages[i], user, c, lastRead);
    if messages == [] {
      assert all == {};
    } else {
      var n := |messages| - 1;
      CountIsSize(messages[..n], user, c, lastRead);
      var earlier := set i | 0 <= i < |messages[..n]| && CountsFor(messages[..n][i], user, c, lastRead);
      assert all == earlier + if CountsFor(messages[n], user, c, lastRead) then {n} else {};
    }
  }

  /** How many rows differ. */
  function Changed(before: seq<Notification>, after: seq<Notification>): nat
    requires |before| == |after|
  {
    if before == [] then 0
    else
      var n := |before| - 1;
      Changed(before[..n], after[..n]) + if before[n] != after[n] then 1 else 0
  }

  lemma NothingChanged()
    ensures Changed([], []) == 0
  {
  }

  lemma ChangedUpTo(before: seq<Notification>, after: seq<Notification>, i: nat)
    requires |before| == |after| && i < |before|
    ensures Changed(before[..i + 1], after[..i + 1]) ==
            Changed(before[..i], after[..i]) + if before[i] != after[i] then 1 else 0
  {
    assert before[..i + 1][..i] == before[..i] && after[..i + 1][..i] == after[..i];
  }

  lemma {:induction false} ChangedIsSize(before: seq<Notification>, after: seq<Notification>)
    requires |before| == |after|
    ensures Changed(before, after) == |set k | 0 <= k < |after| && after[k] != before[k]|
  {
    var all := set k | 0 <= k < |after| && after[k] != before[k];
    if before == [] {
      assert all == {};
    } else {
      var n := |before| - 1;
      ChangedIsSize(before[..n], after[..n]);
      var earlier := set k | 0 <= k < |after[..n]| && after[..n][k] != before[..n][k];
      assert all == earlier + if after[n] != before[n] then {n} else {};
    }
  }

  /** The entry of one conversation, from the rows of the two queries. */
  function Entry(c: ConversationId, unread: map<ConversationId, nat>, last: map<ConversationId, Message>): Summary
  {
    Summary(if c in unread then unread[c] else 0,
            if c in last then Some(last[c].content) else None,
            if c in last then Some(last[c].createdAt) else None)
  }

  /** An entry for exactly the ids, from the rows handled so far. */
  ghost predicate Filled(result: map<ConversationId, Summary>, ids: seq<ConversationId>,
                         unread: map<ConversationId, nat>, last: map<ConversationId, Message>)
  {
    (forall c :: c in result <==> c in ids) && (forall c :: c in result ==> result[c] == Entry(c, unread, last))
  }

  lemma FilledFromEmpty()
    ensures Filled(map[], [], map[], map[])
  {
  }

  lemma FillCount(result: map<ConversationId, Summary>, ids: seq<ConversationId>,
                  unread: map<ConversationId, nat>, c: ConversationId, count: nat)
    requires Filled(result, ids, unread, map[]) && c in ids
    ensures c in result && Filled(result[c := result[c].(unreadCount := count)], ids, unread[c := count], map[])
  {
  }

  lemma FillLast(result: map<ConversationId, Summary>, ids: seq<ConversationId>, unread: map<ConversationId, nat>,
                 last: map<ConversationId, Message>, c: ConversationId, m: Message)
    requires Filled(result, ids, unread, last) && c in ids
    ensures c in result
    ensures Filled(result[c := result[c].(lastContent := Some(m.content), lastAt := Some(m.createdAt))],
                   ids, unread, last[c := m])
  {
  }

  lemma FilledIsSummary(result: map<ConversationId, Summary>, ids: seq<ConversationId>,
                        unread: map<ConversationId, nat>, last: map<ConversationId, Message>, s: Inbox, user: UserId)
    requires Filled(result, ids, unread, last)
    requires forall c :: c in unread <==> c in ids && SummaryCount(s, user, c) > 0
    requires forall c :: c in unread ==> unread[c] == SummaryCount(s, user, c)
    requires forall c :: c in last <==> c in ids && LastMessage(s.messages, c).Some?
    requires forall c :: c in last ==> LastMessage(s.messages, c) == Some(last[c])
    ensures forall c :: c in result <==> c in ids
    ensures forall c :: c in ids ==> result[c] == SummaryOf(s, user, c)
  {
    hide SummaryCount, LastMessage;
  }

  class Store {
    var users: set<UserId>
    var participants: map<ConversationId, seq<UserId>>
    var muted: set<(UserId, ConversationId)>
    var messages: seq<Message>
    var notifications: seq<Notification>
    var lastRead: map<(UserId, ConversationId), int>
    var hidden: set<(UserId, ConversationId)>

    constructor (s: Inbox)
      ensures Contents() == s
    {
      users, participants, muted := s.users, s.participants, s.muted;
      messages, notifications, lastRead, hidden := s.messages, s.notifications, s.lastRead, s.hidden;
    }

    ghost function Contents(): Inbox
      reads this
    {
      Inbox(users, participants, muted, messages, notifications, lastRead, hidden)
    }

    // --- Repositories ------------------------------------------------------------------------------

    method FindUnreadByGroupKey(user: UserId, conversation: ConversationId) returns (row: Option<nat>)
      ensures row == FindUnread(notifications, user, conversation)
    {
      var i := 0;
      while i < |notifications|
        invariant i <= |notifications|
        invariant FindUnread(notifications, user, conversation) ==
                  match FindUnread(notifications[i..], user, conversation) {
                    case Some(k) => Some(i + k)
                    case None => None
                  }
      {
        assert notifications[i..][0] == notifications[i] && notifications[i..][1..] == notifications[i + 1..];
        if Matches(notifications[i], user, conversation) {
          return Some(i);
        }
        i := i + 1;
      }
      return None;
    }

    method CreateNotification(user: UserId, conversation: ConversationId)
      modifies this`notifications
      ensures notifications ==
              old(notifications) + [Notification(user, OfMessages, Some(GroupKey(conversation)), 1, false)]
    {
      notifications := notifications + [Notification(user, OfMessages, Some(GroupKey(conversation)), 1, false)];
    }

    method IncrementGrouped(row: nat)
      requires row < |notifications|
      modifies this`notifications
      ensures notifications ==
              old(notifications)[row :=
                old(notifications)[row].(unreadCount := old(notifications)[row].unreadCount + 1)]
    {
      notifications := notifications[row := notifications[row].(unreadCount := notifications[row].unreadCount + 1)];
    }

    method MarkAsRead(row: nat, user: UserId)
      modifies this`notifications
      ensures notifications ==
              if row < |old(notifications)| && old(notifications)[row].user == user
              then old(notifications)[row := old(notifications)[row].(isRead := true)]
              else old(notifications)
    {
      if row < |notifications| && notifications[row].user == user {
        notifications := notifications[row := notifications[row].(isRead := true)];
      }
    }

    /** The rows of a user, all of them or those with one group key; how many were unread. */
    method MarkAllAsRead(user: UserId, key: Option<string>) returns (affected: nat)
      modifies this`notifications
      ensures notifications == MarkRead(old(notifications), user, key)
      ensures |notifications| == |old(notifications)|
      ensures forall k :: 0 <= k < |notifications| ==>
                notifications[k] ==
                if old(notifications)[k].user == user && (key.None? || old(notifications)[k].groupKey == key)
                then old(notifications)[k].(isRead := true) else old(notifications)[k]
      ensures affected == |set k | 0 <= k < |notifications| && notifications[k] != old(notifications)[k]|
    {
      hide Changed, MarkRead;
      affected := 0;
      assert Changed([], []) == 0 by { NothingChanged(); }
      var i := 0;
      while i < |notifications|
        modifies this`notifications
        invariant |notifications| == |old(notifications)| && i <= |notifications|
        invariant forall k :: 0 <= k < i ==> notifications[k] == MarkedRead(old(notifications)[k], user, key)
        invariant forall k :: i <= k < |notifications| ==> notifications[k] == old(notifications)[k]
        invariant affected == Changed(old(notifications)[..i], notifications[..i])
      {
        var n := notifications[i];
        ghost var before := notifications;
        if n.user == user && !n.isRead && (key.None? || n.groupKey == key) {
          notifications := notifications[i := n.(isRead := true)];
          affected := affected + 1;
        }
        ChangedUpTo(old(notifications), notifications, i);
        assert notifications[..i] == before[..i];
        i := i + 1;
      }
      assert old(notifications)[..i] == old(notifications) && notifications[..i] == notifications;
      ChangedIsSize(old(notifications), notifications);
    }

    method DeleteById(row: nat, user: UserId) returns (result: Deletion)
      modifies this`notifications
      ensures result.NotFound? <==> row >= |old(notifications)|
      ensures result.Forbidden? <==> row < |old(notifications)| && old(notifications)[row].user != user
      ensures forall now: int :: Contents() == Do(old(Contents()), Event.Delete(row, user), now)
      ensures notifications ==
              if row < |old(notifications)| && old(notifications)[row].user == user
              then old(notifications)[..row] + old(notifications)[row + 1..] else old(notifications)
    {
      if row >= |notifications| {
        return NotFound;
      }
      if notifications[row].user != user {
        return Forbidden;
      }
      notifications := notifications[..row] + notifications[row + 1..];
      return Deleted;
    }

    // --- Use cases ---------------------------------------------------------------------------------

    /** False when the conversation or the sender does not exist. */
    method Send(conversation: ConversationId, sender: UserId, content: string, now: int) returns (sent: bool)
      modifies this`messages, this`hidden, this`notifications
      ensures sent == Accepts(old(Contents()), Event.Send(conversation, sender, content))
      ensures Contents() == Do(old(Contents()), Event.Send(conversation, sender, content), now)
      ensures sent <==> conversation in participants && sender in users
      ensures !sent ==> Contents() == old(Contents())
      ensures sent ==>
                messages == old(messages) + [Message(conversation, sender, now, content)] &&
                (forall pair :: pair in hidden <==> pair in old(hidden) && pair.1 != conversation)
    {
      hide FindUnread, GroupKey;
      if conversation !in participants || sender !in users {
        return false;
      }
      messages := messages + [Message(conversation, sender, now, content)];
      hidden := set pair | pair in hidden && pair.1 != conversation;
      var members := participants[conversation];
      ghost var before := notifications;
      var i := 0;
      while i < |members|
        modifies this`notifications
        invariant i <= |members|
        invariant notifications == NotifyAll(before, members[..i], sender, conversation, muted)
      {
        var user := members[i];
        assert members[..i + 1][..i] == members[..i];
        i := i + 1;
        if user == sender || (user, conversation) in muted {
          continue;
        }
        var existing := FindUnreadByGroupKey(user, conversation);
        match existing
        case Some(row) => IncrementGrouped(row);
        case None => CreateNotification(user, conversation);
      }
      assert members[..|members|] == members;
      return true;
    }

    method UpdateConversationUserState(user: UserId, conversation: ConversationId, now: int)
      modifies this`lastRead, this`notifications
      ensures Contents() == Do(old(Contents()), Event.Read(user, conversation), now)
      ensures lastRead == old(lastRead)[(user, conversation) := now]
      ensures |notifications| == |old(notifications)|
      ensures forall k :: 0 <= k < |notifications| ==>
                notifications[k] ==
                if Matches(old(notifications)[k], user, conversation) &&
                   (forall j :: 0 <= j < k ==> !Matches(old(notifications)[j], user, conversation))
                then old(notifications)[k].(isRead := true) else old(notifications)[k]
    {
      FirstMatch(notifications, user, conversation);
      lastRead := lastRead[(user, conversation) := now];
      var existing := FindUnreadByGroupKey(user, conversation);
      if existing.Some? {
        MarkAsRead(existing.value, user);
      }
    }

    /** One entry for each conversation asked for, empty ones included. */
    method SummarizeForUser(user: UserId, ids: seq<ConversationId>) returns (result: map<ConversationId, Summary>)
      ensures forall c :: c in result <==> c in ids
      ensures forall c :: c in ids ==> result[c] == SummaryOf(Contents(), user, c)
      ensures forall c :: c in ids ==>
                (result[c].lastAt.None? <==> forall m :: m in messages ==> m.conversation != c) &&
                (result[c].lastAt.Some? ==>
                   result[c].lastContent.Some? &&
                   (forall m :: m in messages && m.conversation == c ==> m.createdAt <= result[c].lastAt.value) &&
                   exists m :: m in messages && m.conversation == c && m.createdAt == result[c].lastAt.value &&
                               m.content == result[c].lastContent.value)
    {
      hide Filled;
      result := map[];
      FilledFromEmpty();
      if |ids| == 0 {
        assert ids == [];
        FilledIsSummary(result, ids, map[], map[], Contents(), user);
        return;
      }
      var unread := UnreadRows(user, ids);
      var last := LastRows(ids);
      result := EmptyEntries(ids);
      result := WithCounts(result, ids, unread);
      result := WithLast(result, ids, unread, last);
      FilledIsSummary(result, ids, unread, last, Contents(), user);
    }

    static method EmptyEntries(ids: seq<ConversationId>) returns (result: map<ConversationId, Summary>)
      ensures Filled(result, ids, map[], map[])
    {
      result := map[];
      for i := 0 to |ids|
        invariant Filled(result, ids[..i], map[], map[])
      {
        result := result[ids[i] := Summary(0, None, None)];
      }
      assert ids[..|ids|] == ids;
    }

    static method WithCounts(entries: map<ConversationId, Summary>, ids: seq<ConversationId>,
                             unread: map<ConversationId, nat>)
      returns (result: map<ConversationId, Summary>)
      requires Filled(entries, ids, map[], map[]) && forall c :: c in unread ==> c in ids
      ensures Filled(result, ids, unread, map[])
    {
      hide Filled;
      result := entries;
      var rest := unread.Keys;
      ghost var counted: map<ConversationId, nat> := map[];
      while rest != {}
        invariant rest <= unread.Keys && counted == unread - rest
        invariant Filled(result, ids, counted, map[])
        decreases rest
      {
        var c :| c in rest;
        FillCount(result, ids, counted, c, unread[c]);
        result := result[c := result[c].(unreadCount := unread[c])];
        counted := counted[c := unread[c]];
        rest := rest - {c};
      }
      assert counted == unread;
    }

    static method WithLast(entries: map<ConversationId, Summary>, ids: seq<ConversationId>,
                           ghost unread: map<ConversationId, nat>, last: map<ConversationId, Message>)
      returns (result: map<ConversationId, Summary>)
      requires Filled(entries, ids, unread, map[]) && forall c :: c in last ==> c in ids
      ensures Filled(result, ids, unread, last)
    {
      hide Filled;
      result := entries;
      var rest := last.Keys;
      ghost var shown: map<ConversationId, Message> := map[];
      while rest != {}
        invariant rest <= last.Keys && shown == last - rest
        invariant Filled(result, ids, unread, shown)
        decreases rest
      {
        var c :| c in rest;
        FillLast(result, ids, unread, shown, c, last[c]);
        result := result[c := result[c].(lastContent := Some(last[c].content), lastAt := Some(last[c].createdAt))];
        shown := shown[c := last[c]];
        rest := rest - {c};
      }
      assert shown == last;
    }

    /** The grouped query: a row only for conversations with something unread. */
    method UnreadRows(user: UserId, ids: seq<ConversationId>) returns (rows: map<ConversationId, nat>)
      ensures forall c :: c in rows <==> c in ids && SummaryCount(Contents(), user, c) > 0
      ensures forall c :: c in rows ==> rows[c] == SummaryCount(Contents(), user, c)
    {
      rows := map[];
      for i := 0 to |messages|
        invariant forall c :: c in rows <==>
                    c in ids && CountUnread(messages[..i], user, c, LastRead(Contents(), user, c)) > 0
        invariant forall c :: c in rows ==>
                    rows[c] == CountUnread(messages[..i], user, c, LastRead(Contents(), user, c))
      {
        var m := messages[i];
        assert messages[..i + 1][..i] == messages[..i];
        var key := (user, m.conversation);
        if m.conversation in ids && m.sender != user && (key !in lastRead || m.createdAt > lastRead[key]) {
          rows := rows[m.conversation := if m.conversation in rows then rows[m.conversation] + 1 else 1];
        }
      }
      assert messages[..|messages|] == messages;
    }

    /** The latest message of each conversation that has one. */
    method LastRows(ids: seq<ConversationId>) returns (rows: map<ConversationId, Message>)
      ensures forall c :: c in rows <==> c in ids && LastMessage(messages, c).Some?
      ensures forall c :: c in rows ==> LastMessage(messages, c) == Some(rows[c])
    {
      rows := map[];
      for i := 0 to |messages|
        invariant forall c :: c in rows <==> c in ids && LastMessage(messages[..i], c).Some?
        invariant forall c :: c in rows ==> LastMessage(messages[..i], c) == Some(rows[c])
      {
        var m := messages[i];
        assert messages[..i + 1][..i] == messages[..i];
        if m.conversation in ids &&
           (m.conversation !in rows || rows[m.conversation].createdAt <= m.createdAt) {
          rows := rows[m.conversation := m];
        }
      }
      assert messages[..|messages|] == messages;
    }
  }
}
