/**
 * Two unread counters for each user and conversation: the grouped notification, counted up message by
 * message, and the summary, recomputed from the messages and the last reading time.
 */
module Unread {

  import opened Wrappers

  type UserId = string
  type ConversationId = string

  datatype Message = Message(conversation: ConversationId, sender: UserId, createdAt: int, content: string)

  datatype Kind = OfMessages | OfOther

  datatype Notification = Notification(
    user: UserId, kind: Kind, groupKey: Option<string>, unreadCount: nat, isRead: bool)

  /** A read-state row exists once a user has read or hidden the conversation. */
  datatype Inbox = Inbox(
    users: set<UserId>,
    participants: map<ConversationId, seq<UserId>>,
    muted: set<(UserId, ConversationId)>,
    messages: seq<Message>,
    notifications: seq<Notification>,
    lastRead: map<(UserId, ConversationId), int>,
    hidden: set<(UserId, ConversationId)>)

  function GroupKey(conversation: ConversationId): string
  {
    "conversation:" + conversation
  }

  lemma GroupKeyInjective(c: ConversationId, d: ConversationId)
    requires GroupKey(c) == GroupKey(d)
    ensures c == d
  {
    assert GroupKey(c)[13..] == c && GroupKey(d)[13..] == d;
  }

  // --- The summary ---------------------------------------------------------------------------------

  predicate CountsFor(message: Message, user: UserId, conversation: ConversationId, lastRead: Option<int>)
  {
    message.conversation == conversation && message.sender != user &&
    (lastRead.None? || message.createdAt > lastRead.value)
  }

  function CountUnread(messages: seq<Message>, user: UserId, conversation: ConversationId, lastRead: Option<int>): nat
  {
    if messages == [] then 0
    else
      CountUnread(messages[..|messages| - 1], user, conversation, lastRead) +
      if CountsFor(messages[|messages| - 1], user, conversation, lastRead) then 1 else 0
  }

  function LastRead(s: Inbox, user: UserId, conversation: ConversationId): Option<int>
  {
    if (user, conversation) in s.lastRead then Some(s.lastRead[(user, conversation)]) else None
  }

  function SummaryCount(s: Inbox, user: UserId, conversation: ConversationId): nat
  {
    CountUnread(s.messages, user, conversation, LastRead(s, user, conversation))
  }

  /** Nothing is unread after reading at or after the last message. */
  lemma {:induction false} ReadLeavesNone(messages: seq<Message>, user: UserId, conversation: ConversationId, now: int)
    requires forall m :: m in messages ==> m.createdAt <= now
    ensures CountUnread(messages, user, conversation, Some(now)) == 0
  {
    if messages != [] {
      ReadLeavesNone(messages[..|messages| - 1], user, conversation, now);
    }
  }

  // --- The grouped notification --------------------------------------------------------------------

  predicate Matches(n: Notification, user: UserId, conversation: ConversationId)
  {
    n.user == user && n.kind.OfMessages? && n.groupKey == Some(GroupKey(conversation)) && !n.isRead
  }

  /** The row of the unread notification, if any. */
  function FindUnread(notifications: seq<Notification>, user: UserId, conversation: ConversationId): (row: Option<nat>)
    ensures row.None? <==> forall n :: n in notifications ==> !Matches(n, user, conversation)
    ensures row.Some? ==> row.value < |notifications| && Matches(notifications[row.value], user, conversation)
  {
    if notifications == [] then None
    else if Matches(notifications[0], user, conversation) then Some(0)
    else
      match FindUnread(notifications[1..], user, conversation)
      case Some(row) => Some(row + 1)
      case None => None
  }

  /** The row found is the first one that matches. */
  lemma {:induction false} FirstMatch(notifications: seq<Notification>, user: UserId, conversation: ConversationId)
    ensures var row := FindUnread(notifications, user, conversation);
            row.Some? ==> forall j :: 0 <= j < row.value ==> !Matches(notifications[j], user, conversation)
  {
    if notifications != [] {
      FirstMatch(notifications[1..], user, conversation);
      assert forall j :: 1 <= j < |notifications| ==> notifications[j] == notifications[1..][j - 1];
    }
  }

  function GroupCount(notifications: seq<Notification>, user: UserId, conversation: ConversationId): nat
  {
    match FindUnread(notifications, user, conversation)
    case Some(row) => notifications[row].unreadCount
    case None => 0
  }

  ghost predicate AtMostOne(notifications: seq<Notification>, user: UserId, conversation: ConversationId)
  {
    forall i, j :: 0 <= i < j < |notifications| ==>
      !Matches(notifications[i], user, conversation) || !Matches(notifications[j], user, conversation)
  }

  ghost predicate Positive(notifications: seq<Notification>)
  {
    forall n :: n in notifications && n.kind.OfMessages? ==> n.unreadCount > 0
  }

  function Notify(notifications: seq<Notification>, user: UserId, conversation: ConversationId): seq<Notification>
  {
    match FindUnread(notifications, user, conversation)
    case Some(row) =>
      notifications[row := notifications[row].(unreadCount := notifications[row].unreadCount + 1)]
    case None => notifications + [Notification(user, OfMessages, Some(GroupKey(conversation)), 1, false)]
  }

  /** The recipients in turn; the sender and those who muted the conversation are skipped. */
  function NotifyAll(
    notifications: seq<Notification>, recipients: seq<UserId>, sender: UserId, conversation: ConversationId,
    muted: set<(UserId, ConversationId)>): seq<Notification>
  {
    if recipients == [] then notifications
    else
      var last := recipients[|recipients| - 1];
      var earlier := NotifyAll(notifications, recipients[..|recipients| - 1], sender, conversation, muted);
      if last == sender || (last, conversation) in muted then earlier else Notify(earlier, last, conversation)
  }

  /** Marking all of a user's notifications as read, or all with one group key. */
  function MarkRead(notifications: seq<Notification>, user: UserId, key: Option<string>): (r: seq<Notification>)
    ensures |r| == |notifications|
    ensures forall i :: 0 <= i < |r| ==> r[i] == MarkedRead(notifications[i], user, key)
  {
    if notifications == [] then []
    else [MarkedRead(notifications[0], user, key)] + MarkRead(notifications[1..], user, key)
  }

  function MarkedRead(n: Notification, user: UserId, key: Option<string>): Notification
  {
    if n.user == user && (key.None? || n.groupKey == key) then n.(isRead := true) else n
  }

  // --- Events --------------------------------------------------------------------------------------

  datatype Event =
    | Send(conversation: ConversationId, sender: UserId, content: string)
    | Read(user: UserId, conversation: ConversationId)
    | MarkAll(user: UserId)
    | MarkConversation(user: UserId, conversation: ConversationId)
    | MarkOne(row: nat, user: UserId)
    | Delete(row: nat, user: UserId)
    | Notice(user: UserId, groupKey: Option<string>)
    | Hide(user: UserId, conversation: ConversationId)
    | Mute(user: UserId, conversation: ConversationId, on: bool)
    | Join(user: UserId, conversation: ConversationId)
    | Leave(user: UserId, conversation: ConversationId)
    | Open(conversation: ConversationId)

  predicate Accepts(s: Inbox, event: Event)
    requires event.Send?
  {
    event.conversation in s.participants && event.sender in s.users
  }

  function SendMessage(s: Inbox, conversation: ConversationId, sender: UserId, content: string, now: int): Inbox
    requires conversation in s.participants
  {
    s.(messages := s.messages + [Message(conversation, sender, now, content)],
       hidden := (set pair | pair in s.hidden && pair.1 != conversation),
       notifications := NotifyAll(s.notifications, s.participants[conversation], sender, conversation, s.muted))
  }

  /** The read marker, then the notification that the marker covers. */
  function ReadConversation(s: Inbox, user: UserId, conversation: ConversationId, now: int): Inbox
  {
    s.(lastRead := s.lastRead[(user, conversation) := now],
       notifications :=
         match FindUnread(s.notifications, user, conversation)
         case Some(row) => s.notifications[row := s.notifications[row].(isRead := true)]
         case None => s.notifications)
  }

  function Without(users: seq<UserId>, user: UserId): (rest: seq<UserId>)
    ensures forall u :: u in rest <==> u in users && u != user
  {
    if users == [] then []
    else if users[0] == user then Without(users[1..], user)
    else [users[0]] + Without(users[1..], user)
  }

  predicate NoRepeats(users: seq<UserId>)
  {
    forall i, j :: 0 <= i < j < |users| ==> users[i] != users[j]
  }

  function Do(s: Inbox, event: Event, now: int): Inbox
  {
    match event
    case Send(c, sender, content) => if Accepts(s, event) then SendMessage(s, c, sender, content, now) else s
    case Read(u, c) => ReadConversation(s, u, c, now)
    case MarkAll(u) => s.(notifications := MarkRead(s.notifications, u, None))
    case MarkConversation(u, c) => s.(notifications := MarkRead(s.notifications, u, Some(GroupKey(c))))
    case MarkOne(row, u) =>
      if row < |s.notifications| && s.notifications[row].user == u then
        s.(notifications := s.notifications[row := s.notifications[row].(isRead := true)])
      else s
    case Delete(row, u) =>
      if row < |s.notifications| && s.notifications[row].user == u then
        s.(notifications := s.notifications[..row] + s.notifications[row + 1..])
      else s
    case Notice(u, key) => s.(notifications := s.notifications + [Notification(u, OfOther, key, 1, false)])
    case Hide(u, c) => s.(hidden := s.hidden + {(u, c)})
    case Mute(u, c, on) => s.(muted := if on then s.muted + {(u, c)} else s.muted - {(u, c)})
    case Join(u, c) =>
      if c in s.participants && u !in s.participants[c] then
        s.(participants := s.participants[c := s.participants[c] + [u]])
      else s
    case Leave(u, c) =>
      if c in s.participants then s.(participants := s.participants[c := Without(s.participants[c], u)]) else s
    case Open(c) => if c in s.participants then s else s.(participants := s.participants[c := []])
  }

  /** Handlers run one after another; the clock moves on between them. */
  datatype Timed = Timed(event: Event, now: int)

  predicate ValidRun(events: seq<Timed>)
  {
    forall i, j :: 0 <= i < j < |events| ==> events[i].now < events[j].now
  }

  function After(start: Inbox, events: seq<Timed>): Inbox
  {
    if events == [] then start
    else
      var last := events[|events| - 1];
      Do(After(start, events[..|events| - 1]), last.event, last.now)
  }

  // --- Invariants of every run -----------------------------------------------------------------------

  predicate NoRepeatedMembers(s: Inbox)
  {
    forall c :: c in s.participants ==> NoRepeats(s.participants[c])
  }

  predicate SentBefore(s: Inbox, now: int)
  {
    forall m :: m in s.messages ==> m.createdAt < now
  }

  predicate ReadBefore(s: Inbox, now: int)
  {
    forall k :: k in s.lastRead ==> s.lastRead[k] < now
  }

  ghost predicate Inv(s: Inbox)
  {
    NoRepeatedMembers(s) && Positive(s.notifications) &&
    forall u, c :: AtMostOne(s.notifications, u, c)
  }

  /** The two counters show the same number. */
  predicate Agree(s: Inbox, user: UserId, conversation: ConversationId)
  {
    GroupCount(s.notifications, user, conversation) == SummaryCount(s, user, conversation)
  }

  lemma FoundRow(notifications: seq<Notification>, row: nat, user: UserId, conversation: ConversationId)
    requires row < |notifications| && Matches(notifications[row], user, conversation)
    requires AtMostOne(notifications, user, conversation)
    ensures FindUnread(notifications, user, conversation) == Some(row)
  {
    assert notifications[row] in notifications;
  }

  lemma NoneFound(notifications: seq<Notification>, user: UserId, conversation: ConversationId)
    requires forall i :: 0 <= i < |notifications| ==> !Matches(notifications[i], user, conversation)
    ensures FindUnread(notifications, user, conversation) == None
    ensures GroupCount(notifications, user, conversation) == 0 && AtMostOne(notifications, user, conversation)
  {
  }

  /** One notification counts up for its user and conversation, and nothing else changes. */
  lemma NotifyCounts(ns: seq<Notification>, v: UserId, c: ConversationId, u: UserId, d: ConversationId)
    requires AtMostOne(ns, v, c) && AtMostOne(ns, u, d)
    ensures AtMostOne(Notify(ns, v, c), u, d)
    ensures GroupCount(Notify(ns, v, c), u, d) == GroupCount(ns, u, d) + if v == u && c == d then 1 else 0
  {
    var after := Notify(ns, v, c);
    if GroupKey(c) == GroupKey(d) {
      GroupKeyInjective(c, d);
    }
    if v == u && c == d {
      var row := if FindUnread(ns, u, d).Some? then FindUnread(ns, u, d).value else |ns|;
      assert Matches(after[row], u, d);
      assert forall i :: 0 <= i < |ns| && i != row ==> after[i] == ns[i];
      if row == |ns| {
        assert forall i :: 0 <= i < |ns| ==> ns[i] in ns;
      }
      FoundRow(after, row, u, d);
    } else {
      SameMatches(ns, after, u, d);
    }
  }

  /** Rows that keep their place and are as unread as before show the same count. */
  lemma SameMatches(ns: seq<Notification>, after: seq<Notification>, u: UserId, d: ConversationId)
    requires AtMostOne(ns, u, d) && |ns| <= |after|
    requires forall i :: 0 <= i < |ns| && (Matches(ns[i], u, d) || Matches(after[i], u, d)) ==> after[i] == ns[i]
    requires forall i :: |ns| <= i < |after| ==> !Matches(after[i], u, d)
    ensures AtMostOne(after, u, d) && GroupCount(after, u, d) == GroupCount(ns, u, d)
  {
    var found := FindUnread(ns, u, d);
    if found.Some? {
      FoundRow(after, found.value, u, d);
    } else {
      assert forall i :: 0 <= i < |ns| ==> ns[i] in ns;
      NoneFound(after, u, d);
    }
  }

  predicate Notified(recipients: seq<UserId>, sender: UserId, muted: set<(UserId, ConversationId)>,
                     user: UserId, conversation: ConversationId)
  {
    user in recipients && user != sender && (user, conversation) !in muted
  }

  /** Every recipient is counted up once, and nobody else. */
  lemma {:induction false} NotifyAllCounts(ns: seq<Notification>, recipients: seq<UserId>, sender: UserId,
                                           c: ConversationId, muted: set<(UserId, ConversationId)>,
                                           u: UserId, d: ConversationId)
    requires NoRepeats(recipients) && forall v :: AtMostOne(ns, v, c)
    requires AtMostOne(ns, u, d)
    ensures AtMostOne(NotifyAll(ns, recipients, sender, c, muted), u, d)
    ensures GroupCount(NotifyAll(ns, recipients, sender, c, muted), u, d) ==
            GroupCount(ns, u, d) + if c == d && Notified(recipients, sender, muted, u, c) then 1 else 0
  {
    if recipients != [] {
      var earlier, last := recipients[..|recipients| - 1], recipients[|recipients| - 1];
      NotifyAllCounts(ns, earlier, sender, c, muted, u, d);
      NotifyAllCounts(ns, earlier, sender, c, muted, last, c);
      assert recipients == earlier + [last];
      assert last !in earlier;
      NotifyCounts(NotifyAll(ns, earlier, sender, c, muted), last, c, u, d);
    }
  }

  /**
   * The rows after a message: an old row is as it was, or counts one more for a recipient reached; a new row
   * is the unread notification of a recipient reached, under the key of the conversation.
   */
  lemma {:induction false} NotifyAllRows(ns: seq<Notification>, recipients: seq<UserId>, sender: UserId,
                                         c: ConversationId, muted: set<(UserId, ConversationId)>)
    requires NoRepeats(recipients)
    ensures var after := NotifyAll(ns, recipients, sender, c, muted);
            |ns| <= |after| &&
            (forall i :: 0 <= i < |ns| ==>
               after[i] == ns[i] ||
               (!ns[i].isRead && ns[i].groupKey == Some("conversation:" + c) &&
                ns[i].user in recipients && ns[i].user != sender && (ns[i].user, c) !in muted &&
                after[i] == ns[i].(unreadCount := ns[i].unreadCount + 1))) &&
            forall i :: |ns| <= i < |after| ==>
              after[i] == Notification(after[i].user, OfMessages, Some("conversation:" + c), 1, false) &&
              after[i].user in recipients && after[i].user != sender && (after[i].user, c) !in muted
  {
    if recipients != [] {
      var earlier, last := recipients[..|recipients| - 1], recipients[|recipients| - 1];
      NotifyAllRows(ns, earlier, sender, c, muted);
      assert recipients == earlier + [last] && last !in earlier;
    }
  }

  lemma {:induction false} NotifyAllPositive(ns: seq<Notification>, recipients: seq<UserId>, sender: UserId,
                                             c: ConversationId, muted: set<(UserId, ConversationId)>)
    requires Positive(ns)
    ensures Positive(NotifyAll(ns, recipients, sender, c, muted))
  {
    if recipients != [] {
      NotifyAllPositive(ns, recipients[..|recipients| - 1], sender, c, muted);
    }
  }

  lemma {:induction false} WithoutKeepsNoRepeats(users: seq<UserId>, user: UserId)
    requires NoRepeats(users)
    ensures NoRepeats(Without(users, user))
  {
    if users != [] {
      assert forall i :: 0 <= i < |users| - 1 ==> users[1..][i] == users[i + 1];
      WithoutKeepsNoRepeats(users[1..], user);
      if users[0] != user {
        assert users[0] !in Without(users[1..], user);
      }
    }
  }

  // --- Every event keeps the invariant ---------------------------------------------------------------

  /** Some rows were marked as read. */
  predicate MarkedFrom(ns: seq<Notification>, after: seq<Notification>)
  {
    |after| == |ns| && forall i :: 0 <= i < |ns| ==> after[i] == ns[i] || after[i] == ns[i].(isRead := true)
  }

  lemma MarkingKeeps(ns: seq<Notification>, after: seq<Notification>, u: UserId, c: ConversationId)
    requires MarkedFrom(ns, after) && AtMostOne(ns, u, c)
    ensures AtMostOne(after, u, c)
    ensures GroupCount(after, u, c) ==
            if FindUnread(ns, u, c).Some? && after[FindUnread(ns, u, c).value].isRead then 0 else GroupCount(ns, u, c)
    ensures FindUnread(ns, u, c).None? ==> GroupCount(ns, u, c) == 0
  {
    var found := FindUnread(ns, u, c);
    assert forall i :: 0 <= i < |ns| ==> ns[i] in ns;
    if found.Some? && !after[found.value].isRead {
      FoundRow(after, found.value, u, c);
    } else {
      NoneFound(after, u, c);
    }
  }

  lemma MarkingKeepsPositive(ns: seq<Notification>, after: seq<Notification>)
    requires MarkedFrom(ns, after) && Positive(ns)
    ensures Positive(after)
  {
    forall n | n in after && n.kind.OfMessages? ensures n.unreadCount > 0 {
      var i :| 0 <= i < |after| && after[i] == n;
      assert ns[i] in ns;
    }
  }

  lemma DeletingKeeps(ns: seq<Notification>, row: nat, u: UserId, c: ConversationId)
    requires row < |ns| && AtMostOne(ns, u, c)
    ensures var after := ns[..row] + ns[row + 1..];
            AtMostOne(after, u, c) &&
            GroupCount(after, u, c) == if Matches(ns[row], u, c) then 0 else GroupCount(ns, u, c)
  {
    hide GroupKey, Matches;
    var after := ns[..row] + ns[row + 1..];
    assert forall i :: 0 <= i < row ==> after[i] == ns[i];
    assert forall i :: row < i < |ns| ==> after[i - 1] == ns[i];
    assert AtMostOne(after, u, c) by {
      forall i, j | 0 <= i < j < |after| ensures !Matches(after[i], u, c) || !Matches(after[j], u, c) {
        var k, l := if i < row then i else i + 1, if j < row then j else j + 1;
        assert k < l && after[i] == ns[k] && after[j] == ns[l];
      }
    }
    var found := FindUnread(ns, u, c);
    if found.Some? && found.value != row {
      FoundRow(after, if found.value < row then found.value else found.value - 1, u, c);
    } else {
      forall i | 0 <= i < |after| ensures !Matches(after[i], u, c) {
        var k := if i < row then i else i + 1;
        assert after[i] == ns[k] && ns[k] in ns;
      }
      NoneFound(after, u, c);
    }
  }

  /** What each event does to the grouped count. */
  predicate Clears(s: Inbox, event: Event, u: UserId, c: ConversationId)
  {
    match event
    case MarkAll(v) => v == u
    case MarkConversation(v, d) => v == u && d == c
    case MarkOne(row, v) => row < |s.notifications| && v == u && Matches(s.notifications[row], u, c)
    case Delete(row, v) => row < |s.notifications| && v == u && Matches(s.notifications[row], u, c)
    case Read(v, d) => v == u && d == c
    case _ => false
  }

  predicate Arrives(s: Inbox, event: Event, u: UserId, c: ConversationId)
  {
    event.Send? && Accepts(s, event) && event.conversation == c && event.sender != u
  }

  /** The recipient of a message gets a notification for it. */
  predicate Reaches(s: Inbox, u: UserId, c: ConversationId)
  {
    c in s.participants && u in s.participants[c] && (u, c) !in s.muted
  }

  lemma MarkedByEvent(s: Inbox, event: Event, now: int, u: UserId, c: ConversationId)
    requires AtMostOne(s.notifications, u, c)
    requires event.MarkAll? || event.MarkConversation? || event.MarkOne? || event.Read?
    ensures MarkedFrom(s.notifications, Do(s, event, now).notifications)
    ensures var found := FindUnread(s.notifications, u, c);
            found.Some? ==> (Do(s, event, now).notifications[found.value].isRead <==> Clears(s, event, u, c))
  {
    if event.MarkOne? {
      MarkedOne(s, event, now, u, c);
    } else {
      MarkedMany(s, event, now, u, c);
    }
  }

  lemma MarkedOne(s: Inbox, event: Event, now: int, u: UserId, c: ConversationId)
    requires AtMostOne(s.notifications, u, c) && event.MarkOne?
    ensures MarkedFrom(s.notifications, Do(s, event, now).notifications)
    ensures var found := FindUnread(s.notifications, u, c);
            found.Some? ==> (Do(s, event, now).notifications[found.value].isRead <==> Clears(s, event, u, c))
  {
    hide GroupKey;
    if event.row < |s.notifications| && Matches(s.notifications[event.row], u, c) {
      FoundRow(s.notifications, event.row, u, c);
    }
  }

  lemma MarkedMany(s: Inbox, event: Event, now: int, u: UserId, c: ConversationId)
    requires event.MarkAll? || event.MarkConversation? || event.Read?
    ensures MarkedFrom(s.notifications, Do(s, event, now).notifications)
    ensures var found := FindUnread(s.notifications, u, c);
            found.Some? ==> (Do(s, event, now).notifications[found.value].isRead <==> Clears(s, event, u, c))
  {
    hide GroupKey;
    if !event.MarkAll? && GroupKey(event.conversation) == GroupKey(c) {
      GroupKeyInjective(event.conversation, c);
    }
  }

  /** A message adds one for whom it reaches; what clears the notification leaves 0. */
  lemma EventCounts(s: Inbox, event: Event, now: int, u: UserId, c: ConversationId)
    requires Inv(s)
    ensures AtMostOne(Do(s, event, now).notifications, u, c)
    ensures GroupCount(Do(s, event, now).notifications, u, c) ==
            if Clears(s, event, u, c) then 0
            else GroupCount(s.notifications, u, c) + if Arrives(s, event, u, c) && Reaches(s, u, c) then 1 else 0
  {
    hide GroupCount, NotifyAll, MarkRead, GroupKey;
    var ns, after := s.notifications, Do(s, event, now).notifications;
    if event.MarkAll? || event.MarkConversation? || event.MarkOne? || event.Read? {
      MarkedByEvent(s, event, now, u, c);
      MarkingKeeps(ns, after, u, c);
    } else if event.Delete? && event.row < |ns| && ns[event.row].user == event.user {
      DeletingKeeps(ns, event.row, u, c);
    } else if event.Send? && Accepts(s, event) {
      NotifyAllCounts(ns, s.participants[event.conversation], event.sender, event.conversation, s.muted, u, c);
    } else if event.Notice? {
      SameMatches(ns, after, u, c);
    }
  }

  lemma EventKeepsPositive(s: Inbox, event: Event, now: int)
    requires Positive(s.notifications)
    ensures Positive(Do(s, event, now).notifications)
  {
    if event.MarkAll? || event.MarkConversation? || event.MarkOne? || event.Read? {
      MarkingKeepsPositive(s.notifications, Do(s, event, now).notifications);
    } else if event.Send? && Accepts(s, event) {
      NotifyAllPositive(s.notifications, s.participants[event.conversation], event.sender, event.conversation, s.muted);
    }
  }

  lemma EventKeepsInv(s: Inbox, event: Event, now: int)
    requires Inv(s)
    ensures Inv(Do(s, event, now))
  {
    EventKeepsPositive(s, event, now);
    forall u, c ensures AtMostOne(Do(s, event, now).notifications, u, c) {
      EventCounts(s, event, now, u, c);
    }
    if event.Leave? && event.conversation in s.participants {
      WithoutKeepsNoRepeats(s.participants[event.conversation], event.user);
    }
  }

  /** The messages, and who has hidden what, after each event: a message unhides its conversation for everybody. */
  lemma MessagesAndHidden(s: Inbox, event: Event, now: int, user: UserId, c: ConversationId)
    ensures var after := Do(s, event, now);
            var sent := event.Send? && event.conversation in s.participants && event.sender in s.users;
            after.messages ==
              (if sent then s.messages + [Message(event.conversation, event.sender, now, event.content)]
               else s.messages) &&
            (event.Notice? ==>
               after.notifications ==
                 s.notifications + [Notification(event.user, OfOther, event.groupKey, 1, false)]) &&
            ((user, c) in after.hidden <==>
               event == Hide(user, c) || ((user, c) in s.hidden && !(sent && event.conversation == c)))
  {
  }

  /** Who takes part, who has muted what, and the reading times, after each event. */
  lemma MembersMutedAndRead(s: Inbox, event: Event, now: int, user: UserId, c: ConversationId)
    ensures var after := Do(s, event, now);
            (c in after.participants <==> c in s.participants || event == Open(c)) &&
            (c in after.participants ==>
               (user in after.participants[c] <==>
                  (event == Join(user, c) && c in s.participants) ||
                  (c in s.participants && user in s.participants[c] && event != Leave(user, c)))) &&
            ((user, c) in after.muted <==>
               event == Mute(user, c, true) || ((user, c) in s.muted && event != Mute(user, c, false))) &&
            LastRead(after, user, c) == (if event == Read(user, c) then Some(now) else LastRead(s, user, c)) &&
            after.users == s.users
  {
  }

  /** In any run there is never more than one unread notification for a user and a conversation. */
  lemma {:induction false} EveryRunKeepsInv(start: Inbox, events: seq<Timed>)
    requires Inv(start)
    ensures Inv(After(start, events))
  {
    if events != [] {
      var last := events[|events| - 1];
      EveryRunKeepsInv(start, events[..|events| - 1]);
      EventKeepsInv(After(start, events[..|events| - 1]), last.event, last.now);
    }
  }

  // --- When the counters agree -----------------------------------------------------------------------

  /** A message that does not reach the user, or a notification cleared without reading. */
  predicate Diverges(s: Inbox, event: Event, u: UserId, c: ConversationId)
  {
    (Arrives(s, event, u, c) && !Reaches(s, u, c)) ||
    (Clears(s, event, u, c) && !event.Read? && FindUnread(s.notifications, u, c).Some?)
  }

  lemma EventSummary(s: Inbox, event: Event, now: int, u: UserId, c: ConversationId)
    requires SentBefore(s, now) && ReadBefore(s, now)
    ensures SummaryCount(Do(s, event, now), u, c) ==
            if event == Read(u, c) then 0
            else SummaryCount(s, u, c) + if Arrives(s, event, u, c) then 1 else 0
  {
    var after := Do(s, event, now);
    if event == Read(u, c) {
      ReadLeavesNone(s.messages, u, c, now);
    } else if event.Send? && Accepts(s, event) {
      assert after.messages[..|after.messages| - 1] == s.messages;
    }
  }

  /** From agreement, an event keeps the counters equal exactly when it is not one of the two kinds above. */
  lemma AgreementIsKeptIff(s: Inbox, event: Event, now: int, u: UserId, c: ConversationId)
    requires Inv(s) && SentBefore(s, now) && ReadBefore(s, now) && Agree(s, u, c)
    ensures Agree(Do(s, event, now), u, c) <==> !Diverges(s, event, u, c)
  {
    EventCounts(s, event, now, u, c);
    EventSummary(s, event, now, u, c);
    assert forall i :: 0 <= i < |s.notifications| ==> s.notifications[i] in s.notifications;
  }

  lemma {:induction false} ClockRuns(start: Inbox, events: seq<Timed>, now: int)
    requires ValidRun(events) && (events != [] ==> events[|events| - 1].now < now)
    requires SentBefore(start, if events == [] then now else events[0].now)
    requires ReadBefore(start, if events == [] then now else events[0].now)
    ensures SentBefore(After(start, events), now) && ReadBefore(After(start, events), now)
  {
    if events != [] {
      var last, earlier := events[|events| - 1], events[..|events| - 1];
      if earlier != [] {
        assert earlier[|earlier| - 1] == events[|events| - 2];
      }
      ClockRuns(start, earlier, last.now);
    }
  }

  ghost predicate NeverDiverges(start: Inbox, events: seq<Timed>, u: UserId, c: ConversationId)
  {
    forall n :: 0 <= n < |events| ==> !Diverges(After(start, events[..n]), events[n].event, u, c)
  }

  ghost predicate AlwaysAgree(start: Inbox, events: seq<Timed>, u: UserId, c: ConversationId)
  {
    forall n :: 0 <= n <= |events| ==> Agree(After(start, events[..n]), u, c)
  }

  lemma LastMoment(start: Inbox, events: seq<Timed>, u: UserId, c: ConversationId)
    requires events != []
    ensures var earlier, last := events[..|events| - 1], events[|events| - 1].event;
            (AlwaysAgree(start, events, u, c) <==>
               AlwaysAgree(start, earlier, u, c) && Agree(After(start, events), u, c)) &&
            (NeverDiverges(start, events, u, c) <==>
               NeverDiverges(start, earlier, u, c) && !Diverges(After(start, earlier), last, u, c))
  {
    hide Agree, Diverges, After;
    var earlier := events[..|events| - 1];
    assert forall n :: 0 <= n <= |earlier| ==> earlier[..n] == events[..n];
    assert events[..|events|] == events;
  }

  /**
   * Over a whole run with a strictly increasing clock, the notification and the summary show the same
   * count at every moment exactly when no message missed the user and no unread notification was cleared
   * without reading.
   */
  lemma {:induction false} CountersAgreeIff(start: Inbox, events: seq<Timed>, u: UserId, c: ConversationId)
    requires Inv(start) && Agree(start, u, c) && ValidRun(events)
    requires events != [] ==> SentBefore(start, events[0].now) && ReadBefore(start, events[0].now)
    ensures AlwaysAgree(start, events, u, c) <==> NeverDiverges(start, events, u, c)
  {
    hide Agree, Diverges, Do, Inv, SentBefore, ReadBefore;
    if events != [] {
      var last, earlier := events[|events| - 1], events[..|events| - 1];
      CountersAgreeIff(start, earlier, u, c);
      LastMoment(start, events, u, c);
      EveryRunKeepsInv(start, earlier);
      ClockRuns(start, earlier, last.now);
      if AlwaysAgree(start, earlier, u, c) {
        assert earlier[..|earlier|] == earlier;
        AgreementIsKeptIff(After(start, earlier), last.event, last.now, u, c);
      }
    } else {
      assert events[..0] == events;
    }
  }

  /** One message, then "mark all as read": the notification shows 0 and the summary 1. */
  lemma MarkAllCounterexample()
    ensures var start := Inbox({"a", "b"}, map["c" := ["a", "b"]], {}, [], [], map[], {});
            var sent := Do(start, Send("c", "a", "hello"), 1);
            Agree(start, "b", "c") && Agree(sent, "b", "c") && !Agree(Do(sent, MarkAll("b"), 2), "b", "c")
  {
    var start := Inbox({"a", "b"}, map["c" := ["a", "b"]], {}, [], [], map[], {});
    var send := Send("c", "a", "hello");
    var sent := Do(start, send, 1);
    assert "b" in start.participants["c"];
    EventCounts(start, send, 1, "b", "c");
    EventSummary(start, send, 1, "b", "c");
    EventKeepsInv(start, send, 1);
    EventCounts(sent, MarkAll("b"), 2, "b", "c");
    EventSummary(sent, MarkAll("b"), 2, "b", "c");
  }

  // --- A permanent participant who never mutes -------------------------------------------------------

  /** The user stays, does not mute, and clears notifications only by reading. */
  predicate Plain(event: Event, u: UserId, c: ConversationId)
  {
    match event
    case MarkAll(v) => v != u
    case MarkConversation(v, d) => v != u || d != c
    case MarkOne(_, v) => v != u
    case Delete(_, v) => v != u
    case Leave(v, d) => v != u || d != c
    case Mute(v, d, on) => !on || v != u || d != c
    case _ => true
  }

  lemma {:induction false} StaysReached(start: Inbox, events: seq<Timed>, u: UserId, c: ConversationId)
    requires Reaches(start, u, c) && forall e :: e in events ==> Plain(e.event, u, c)
    ensures Reaches(After(start, events), u, c)
  {
    if events != [] {
      assert events[|events| - 1] in events;
      StaysReached(start, events[..|events| - 1], u, c);
    }
  }

  /** For a permanent participant who never mutes and clears only by reading, the counters always agree. */
  lemma PermanentParticipantAgrees(start: Inbox, events: seq<Timed>, u: UserId, c: ConversationId)
    requires Inv(start) && Agree(start, u, c) && ValidRun(events)
    requires events != [] ==> SentBefore(start, events[0].now) && ReadBefore(start, events[0].now)
    requires Reaches(start, u, c) && forall e :: e in events ==> Plain(e.event, u, c)
    ensures AtMostOne(After(start, events).notifications, u, c) && Agree(After(start, events), u, c)
  {
    EveryRunKeepsInv(start, events);
    assert AtMostOne(After(start, events).notifications, u, c);
    hide Agree, Inv;
    forall n | 0 <= n < |events| ensures !Diverges(After(start, events[..n]), events[n].event, u, c) {
      StaysReached(start, events[..n], u, c);
      assert Plain(events[n].event, u, c);
    }
    CountersAgreeIff(start, events, u, c);
    assert events[..|events|] == events;
  }
}
