/** `OpenPrivateConversationUseCase.execute` over its repositories, one call at a time. */
module OpenPrivateConversation {

  import opened Wrappers
  import opened OpenConversation

  datatype Opened =
    | Opened(id: ConversationId, created: bool)
    | InvalidTarget
    | ContactNotAllowed

  predicate DistinctTimes(store: Store)
  {
    forall c, d :: c in store.conversations && d in store.conversations && c != d ==>
      store.conversations[c].createdAt != store.conversations[d].createdAt
  }

  /** `n` repository calls of one call of the protocol. */
  ghost function Steps(store: Store, call: Call, id: ConversationId, createdAt: int, n: nat): (Store, Call)
  {
    if n == 0 then (store, call)
    else
      var (before, at) := Steps(store, call, id, createdAt, n - 1);
      Step(before, at, id, createdAt)
  }

  class Repositories {
    var conversations: map<ConversationId, Conversation>
    var hidden: set<(UserId, ConversationId)>

    /** The users known, with whether each is banned, and who may write to whom. */
    const banned: map<UserId, bool>
    const contacts: set<(UserId, UserId)>

    constructor (store: Store, banned: map<UserId, bool>, contacts: set<(UserId, UserId)>)
      ensures Rows() == store && this.banned == banned && this.contacts == contacts
    {
      conversations, hidden := store.conversations, store.hidden;
      this.banned, this.contacts := banned, contacts;
    }

    ghost function Rows(): Store
      reads this
    {
      Store(conversations, hidden)
    }

    /** The oldest private conversation of the two users, by a scan of the rows. */
    method FindPrivate(a: UserId, b: UserId) returns (found: Option<ConversationId>)
      ensures found.None? <==> forall id :: !Complete(Rows(), id, a, b)
      ensures found.Some? ==> IsOldest(Rows(), found.value, a, b)
      ensures DistinctTimes(Rows()) ==> found == FindPrivateBetween(Rows(), a, b)
    {
      found := None;
      var rest := conversations.Keys;
      while rest != {}
        invariant rest <= conversations.Keys
        invariant found.None? ==> forall id :: Complete(Rows(), id, a, b) ==> id in rest
        invariant found.Some? ==>
                    Complete(Rows(), found.value, a, b) &&
                    forall id :: Complete(Rows(), id, a, b) && id !in rest ==>
                      conversations[found.value].createdAt <= conversations[id].createdAt
        decreases rest
      {
        var id :| id in rest;
        rest := rest - {id};
        if conversations[id].isPrivate && a in conversations[id].members && b in conversations[id].members {
          assert Complete(Rows(), id, a, b);
          if found.None? || conversations[id].createdAt < conversations[found.value].createdAt {
            found := Some(id);
          }
        }
      }
      FindsOldest(Rows(), a, b);
    }

    method Create(id: ConversationId, createdAt: int)
      modifies this`conversations
      ensures conversations == old(conversations)[id := Conversation(true, createdAt, {})]
    {
      conversations := conversations[id := Conversation(true, createdAt, {})];
    }

    method AddParticipantIfNotExists(id: ConversationId, user: UserId)
      modifies this`conversations
      ensures Rows() == AddMember(old(Rows()), id, user)
    {
      if id in conversations {
        var conversation := conversations[id];
        conversations := conversations[id := conversation.(members := conversation.members + {user})];
      }
    }

    method DeleteById(id: ConversationId)
      modifies this`conversations
      ensures conversations == old(conversations) - {id}
    {
      conversations := conversations - {id};
    }

    method SetHidden(user: UserId, id: ConversationId, value: bool)
      modifies this`hidden
      ensures hidden == if value then old(hidden) + {(user, id)} else old(hidden) - {(user, id)}
    {
      hidden := if value then hidden + {(user, id)} else hidden - {(user, id)};
    }

    /** What a call does once its conversation has two members: give way to an older one, or keep it. */
    method Converge(requester: UserId, target: UserId, made: ConversationId, ghost createdAt: int)
      returns (answer: Opened)
      requires DistinctTimes(Rows())
      modifies this
      ensures answer.Opened?
      ensures answer.created <==> forall c :: IsOldest(old(Rows()), c, requester, target) ==> c == made
      ensures answer.created ==> answer.id == made && Rows() == old(Rows())
      ensures !answer.created ==>
                IsOldest(old(Rows()), answer.id, requester, target) && answer.id != made &&
                conversations == old(conversations) - {made} && hidden == old(hidden) - {(requester, answer.id)}
      ensures Steps(old(Rows()), Call(requester, target, FindAgain(made)), made, createdAt,
                    if answer.created then 1 else 3) ==
              (Rows(), Call(requester, target, Done(answer.id, answer.created)))
    {
      ghost var start, call := Rows(), Call(requester, target, FindAgain(made));
      var canonical := FindPrivate(requester, target);
      if canonical.Some? && canonical.value != made {
        assert Steps(start, call, made, createdAt, 1) == (start, call.(pc := Delete(made, canonical.value)));
        DeleteById(made);
        assert Steps(start, call, made, createdAt, 2) == (Rows(), call.(pc := Unhide(canonical.value)));
        SetHidden(requester, canonical.value, false);
        return Opened(canonical.value, false);
      }
      return Opened(made, true);
    }

    /**
     * A call that nobody interrupts reopens the oldest conversation of the two for the requester only,
     * or makes one with exactly the two as members; it is a run of the protocol's steps.
     */
    method Execute(requester: UserId, target: UserId, id: ConversationId, createdAt: int) returns (answer: Opened)
      requires id !in conversations
      requires DistinctTimes(Rows()) && forall c :: c in conversations ==> conversations[c].createdAt != createdAt
      modifies this
      ensures answer.InvalidTarget? <==>
                target == "" || target == requester || target !in banned || banned[target]
      ensures answer.ContactNotAllowed? <==> !answer.InvalidTarget? && (requester, target) !in contacts
      ensures !answer.Opened? ==> Rows() == old(Rows())
      ensures answer.Opened? ==> (answer.created <==> forall c :: !Complete(old(Rows()), c, requester, target))
      ensures answer.Opened? && !answer.created ==>
                IsOldest(old(Rows()), answer.id, requester, target) &&
                conversations == old(conversations) && hidden == old(hidden) - {(requester, answer.id)}
      ensures answer.Opened? && answer.created ==>
                answer.id == id && hidden == old(hidden) &&
                conversations == old(conversations)[id := Conversation(true, createdAt, {requester, target})]
      ensures answer.Opened? ==>
                Steps(old(Rows()), Call(requester, target, Find), id, createdAt, if answer.created then 5 else 2) ==
                (Rows(), Call(requester, target, Done(answer.id, answer.created)))
    {
      if target == "" || target == requester {
        return InvalidTarget;
      }
      if target !in banned || banned[target] {
        return InvalidTarget;
      }
      if (requester, target) !in contacts {
        return ContactNotAllowed;
      }
      ghost var start, call := Rows(), Call(requester, target, Find);
      var existing := FindPrivate(requester, target);
      if existing.Some? {
        SetHidden(requester, existing.value, false);
        assert Steps(start, call, id, createdAt, 1) == (start, call.(pc := Unhide(existing.value)));
        return Opened(existing.value, false);
      }
      assert Steps(start, call, id, createdAt, 1) == (start, call.(pc := OpenConversation.Create));
      Create(id, createdAt);
      assert Steps(start, call, id, createdAt, 2) == (Rows(), call.(pc := AddRequester(id)));
      AddParticipantIfNotExists(id, requester);
      assert Steps(start, call, id, createdAt, 3) == (Rows(), call.(pc := AddTarget(id)));
      AddParticipantIfNotExists(id, target);
      assert Steps(start, call, id, createdAt, 4) == (Rows(), call.(pc := FindAgain(id)));
      assert conversations[id].members == {requester, target};
      OnlyTheNew(start, Rows(), id, requester, target);
      ghost var made := Rows();
      answer := Converge(requester, target, id, createdAt);
    }
  }

  lemma OnlyTheNew(before: Store, after: Store, id: ConversationId, a: UserId, b: UserId)
    requires forall c :: !Complete(before, c, a, b)
    requires id in after.conversations && after.conversations == before.conversations[id := after.conversations[id]]
    requires Complete(after, id, a, b)
    ensures forall c :: Complete(after, c, a, b) <==> c == id
  {
    forall c | Complete(after, c, a, b) ensures c == id {
      assert c != id ==> Complete(before, c, a, b);
    }
  }
}
