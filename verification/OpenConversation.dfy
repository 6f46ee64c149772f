/**
 * Opening a private conversation: look for one, create one, add both members, look again, and give
 * way to an older one. Calls of any users interleave at every repository call, without locks.
 */
module OpenConversation {

  import opened Wrappers

  type UserId = string
  type ConversationId = string
  type CallId = nat

  datatype Conversation = Conversation(isPrivate: bool, createdAt: int, members: set<UserId>)

  datatype Store = Store(conversations: map<ConversationId, Conversation>, hidden: set<(UserId, ConversationId)>)

  /** A private conversation that holds both users. */
  predicate Complete(store: Store, id: ConversationId, a: UserId, b: UserId)
  {
    id in store.conversations && store.conversations[id].isPrivate && {a, b} <= store.conversations[id].members
  }

  predicate IsOldest(store: Store, id: ConversationId, a: UserId, b: UserId)
  {
    Complete(store, id, a, b) &&
    forall other :: other in store.conversations && Complete(store, other, a, b) ==>
      store.conversations[id].createdAt <= store.conversations[other].createdAt
  }

  /** The query orders by creation time and takes the first row. */
  ghost function FindPrivateBetween(store: Store, a: UserId, b: UserId): Option<ConversationId>
  {
    if exists id :: IsOldest(store, id, a, b) then
      var id :| IsOldest(store, id, a, b);
      Some(id)
    else None
  }

  lemma FindsOldest(store: Store, a: UserId, b: UserId)
    ensures FindPrivateBetween(store, a, b).None? <==> forall id :: !Complete(store, id, a, b)
    ensures FindPrivateBetween(store, a, b).Some? ==> IsOldest(store, FindPrivateBetween(store, a, b).value, a, b)
  {
    if id :| Complete(store, id, a, b) {
      var all := set c | c in store.conversations && Complete(store, c, a, b);
      assert id in all;
      var oldest := OldestOf(store, all);
      assert IsOldest(store, oldest, a, b);
    }
  }

  lemma {:induction false} OldestOf(store: Store, ids: set<ConversationId>) returns (oldest: ConversationId)
    requires ids != {} && ids <= store.conversations.Keys
    ensures oldest in ids
    ensures forall c :: c in ids ==> store.conversations[oldest].createdAt <= store.conversations[c].createdAt
  {
    var c :| c in ids;
    oldest := c;
    if ids != {c} {
      var rest := OldestOf(store, ids - {c});
      if store.conversations[rest].createdAt < store.conversations[c].createdAt {
        oldest := rest;
      }
    }
  }

  // --- One call ------------------------------------------------------------------------------------

  datatype Pc =
    | Find
    | Create
    | AddRequester(made: ConversationId)
    | AddTarget(made: ConversationId)
    | FindAgain(made: ConversationId)
    | Delete(made: ConversationId, canonical: ConversationId)
    | Unhide(canonical: ConversationId)
    | Done(id: ConversationId, created: bool)
    | Stopped(at: Option<ConversationId>)  // the server died; the conversation it had made, if any

  datatype Call = Call(requester: UserId, target: UserId, pc: Pc)

  function AddMember(store: Store, id: ConversationId, user: UserId): Store
  {
    if id !in store.conversations then store
    else
      var conversation := store.conversations[id];
      store.(conversations := store.conversations[id := conversation.(members := conversation.members + {user})])
  }

  /** One repository call; `id` and `createdAt` are what the database gives a new row. */
  ghost function Step(store: Store, call: Call, id: ConversationId, createdAt: int): (Store, Call)
  {
    match call.pc
    case Find =>
      var found := FindPrivateBetween(store, call.requester, call.target);
      (store, call.(pc := if found.Some? then Unhide(found.value) else Create))
    case Create =>
      (store.(conversations := store.conversations[id := Conversation(true, createdAt, {})]),
       call.(pc := AddRequester(id)))
    case AddRequester(made) => (AddMember(store, made, call.requester), call.(pc := AddTarget(made)))
    case AddTarget(made) => (AddMember(store, made, call.target), call.(pc := FindAgain(made)))
    case FindAgain(made) =>
      var found := FindPrivateBetween(store, call.requester, call.target);
      (store, call.(pc := if found.Some? && found.value != made then Delete(made, found.value) else Done(made, true)))
    case Delete(made, canonical) =>
      (store.(conversations := store.conversations - {made}), call.(pc := Unhide(canonical)))
    case Unhide(canonical) =>
      (store.(hidden := store.hidden - {(call.requester, canonical)}), call.(pc := Done(canonical, false)))
    case Done(_, _) => (store, call)
    case Stopped(_) => (store, call)
  }

  // --- Any number of calls ---------------------------------------------------------------------------

  /**
   * `born` records every conversation ever and its creation time, `completed` every private one that
   * ever had two members, as it was then.
   */
  datatype State = State(
    store: Store,
    calls: map<CallId, Call>,
    born: map<ConversationId, int>,
    completed: map<ConversationId, Conversation>)

  datatype Action =
    | Begin(call: CallId, requester: UserId, target: UserId)
    | Run(call: CallId, id: ConversationId, createdAt: int)
    | Stop(call: CallId)

  predicate Running(call: Call)
  {
    !call.pc.Done? && !call.pc.Stopped?
  }

  /** New rows have new ids and creation times of their own, in any order. */
  predicate Allowed(s: State, action: Action)
  {
    match action
    case Begin(k, requester, target) => k !in s.calls && requester != target
    case Run(k, id, createdAt) =>
      k in s.calls && Running(s.calls[k]) &&
      (s.calls[k].pc.Create? ==> id !in s.born && createdAt !in s.born.Values)
    case Stop(k) => k in s.calls && Running(s.calls[k])
  }

  /** The conversation a call has made and still answers for. */
  function Made(pc: Pc): Option<ConversationId>
  {
    match pc
    case AddRequester(made) => Some(made)
    case AddTarget(made) => Some(made)
    case FindAgain(made) => Some(made)
    case Delete(made, _) => Some(made)
    case Done(id, created) => if created then Some(id) else None
    case Stopped(at) => at
    case _ => None
  }

  ghost function Do(s: State, action: Action): State
    requires Allowed(s, action)
  {
    match action
    case Begin(k, requester, target) => s.(calls := s.calls[k := Call(requester, target, Find)])
    case Run(k, id, createdAt) =>
      var call := s.calls[k];
      var (store, next) := Step(s.store, call, id, createdAt);
      State(store, s.calls[k := next],
            if call.pc.Create? then s.born[id := createdAt] else s.born,
            if call.pc.AddTarget? && call.pc.made in store.conversations
            then s.completed[call.pc.made := store.conversations[call.pc.made]] else s.completed)
    case Stop(k) => s.(calls := s.calls[k := s.calls[k].(pc := Stopped(Made(s.calls[k].pc)))])
  }

  /** A call that dies leaves the tables and the other calls as they are, and takes no step any more. */
  lemma StoppedForGood(s: State, k: CallId, id: ConversationId, createdAt: int, j: CallId)
    requires Allowed(s, Stop(k)) && j in s.calls && j != k
    ensures var after := Do(s, Stop(k));
            after.store == s.store && after.calls[j] == s.calls[j] && !Running(after.calls[k]) &&
            !Allowed(after, Run(k, id, createdAt)) && !Allowed(after, Stop(k))
  {
  }

  /** Any conversations may exist at the start, with creation times of their own. */
  predicate Initial(s: State)
  {
    s.calls == map[] &&
    s.born == (map c | c in s.store.conversations :: s.store.conversations[c].createdAt) &&
    s.completed == (map c | c in s.store.conversations && s.store.conversations[c].isPrivate
                                                       && |s.store.conversations[c].members| >= 2
                      :: s.store.conversations[c]) &&
    forall c, d :: c in s.born && d in s.born && s.born[c] == s.born[d] ==> c == d
  }

  ghost predicate ValidRun(start: State, actions: seq<Action>)
    decreases |actions|, 0
  {
    |actions| == 0 ||
    (ValidRun(start, actions[..|actions| - 1]) &&
     Allowed(After(start, actions[..|actions| - 1]), actions[|actions| - 1]))
  }

  ghost function After(start: State, actions: seq<Action>): State
    requires ValidRun(start, actions)
    decreases |actions|, 1
  {
    if |actions| == 0 then start
    else Do(After(start, actions[..|actions| - 1]), actions[|actions| - 1])
  }

  // --- The invariant -----------------------------------------------------------------------------------

  /** The conversation was once complete for both users. */
  predicate WasComplete(s: State, id: ConversationId, a: UserId, b: UserId)
  {
    id in s.completed && {a, b} <= s.completed[id].members
  }

  predicate Older(s: State, id: ConversationId, than: ConversationId)
  {
    id in s.born && than in s.born && s.born[id] < s.born[than]
  }

  /** Some older conversation has held all the members of this one. */
  predicate GivesWay(s: State, id: ConversationId)
    requires id in s.completed
  {
    exists d :: d in s.completed && Older(s, d, id) && s.completed[id].members <= s.completed[d].members
  }

  predicate BirthsFit(s: State)
  {
    (forall c, d :: c in s.born && d in s.born && s.born[c] == s.born[d] ==> c == d) &&
    (forall c :: c in s.store.conversations ==> c in s.born && s.born[c] == s.store.conversations[c].createdAt) &&
    (forall c :: c in s.completed ==> c in s.born)
  }

  ghost predicate CompletedFit(s: State)
  {
    (forall c, a, b :: a != b && Complete(s.store, c, a, b) ==> WasComplete(s, c, a, b)) &&
    (forall c :: c in s.completed && c in s.store.conversations ==>
       s.store.conversations[c].isPrivate && s.completed[c].members <= s.store.conversations[c].members) &&
    (forall c :: c in s.completed && c !in s.store.conversations ==> GivesWay(s, c))
  }

  /** What the store holds of the conversation a call has made. */
  predicate MadeFits(s: State, call: Call)
  {
    Made(call.pc).Some? ==>
      var made := Made(call.pc).value;
      var pair := {call.requester, call.target};
      made in s.store.conversations && s.store.conversations[made].isPrivate &&
      (match call.pc
       case AddRequester(_) => s.store.conversations[made].members == {} && made !in s.completed
       case AddTarget(_) => s.store.conversations[made].members == {call.requester} && made !in s.completed
       case Stopped(_) => s.store.conversations[made].members <= pair
       case _ => s.store.conversations[made].members == pair && WasComplete(s, made, call.requester, call.target)
                 && s.completed[made].members == pair) &&
      (call.pc.Delete? ==>
         WasComplete(s, call.pc.canonical, call.requester, call.target) && Older(s, call.pc.canonical, made))
  }

  predicate CallsFit(s: State)
  {
    (forall k :: k in s.calls ==> s.calls[k].requester != s.calls[k].target && MadeFits(s, s.calls[k])) &&
    (forall j, k :: j in s.calls && k in s.calls && j != k && Made(s.calls[j].pc).Some? ==>
       Made(s.calls[j].pc) != Made(s.calls[k].pc))
  }

  ghost predicate Inv(s: State)
  {
    BirthsFit(s) && CompletedFit(s) && CallsFit(s)
  }

  lemma InitialInv(s: State)
    requires Initial(s)
    ensures Inv(s)
  {
    forall c, a, b | a != b && Complete(s.store, c, a, b) ensures WasComplete(s, c, a, b) {
      assert {a, b} <= s.store.conversations[c].members;
      CardinalityOfPair(s.store.conversations[c].members, a, b);
    }
  }

  lemma CardinalityOfPair(members: set<UserId>, a: UserId, b: UserId)
    requires a != b && {a, b} <= members
    ensures |members| >= 2
  {
    assert members == (members - {a, b}) + {a, b};
    assert |members| == |members - {a, b}| + |{a, b}|;
  }

  // --- Every action keeps the invariant ------------------------------------------------------------------

  /** The call and at most one conversation change; what was ever complete is not forgotten. */
  ghost predicate OnlyTouches(s: State, after: State, k: CallId, id: ConversationId)
  {
    (forall c :: c != id ==>
       (c in s.store.conversations <==> c in after.store.conversations) &&
       (c in s.store.conversations ==> after.store.conversations[c] == s.store.conversations[c])) &&
    (forall c :: c in s.born ==> c in after.born && after.born[c] == s.born[c]) &&
    (forall c :: c in s.completed ==> c in after.completed && after.completed[c] == s.completed[c]) &&
    (forall c :: c in after.completed && c !in s.completed ==> c == id) &&
    (forall j :: j != k ==> (j in s.calls <==> j in after.calls) && (j in s.calls ==> after.calls[j] == s.calls[j]))
  }

  lemma CallsFollow(s: State, after: State, k: CallId, id: ConversationId)
    requires CallsFit(s) && OnlyTouches(s, after, k, id)
    requires forall j :: j in s.calls && j != k ==> Made(s.calls[j].pc) != Some(id)
    requires k in after.calls && after.calls[k].requester != after.calls[k].target && MadeFits(after, after.calls[k])
    requires Made(after.calls[k].pc) == Some(id) || Made(after.calls[k].pc) == None ||
             (k in s.calls && Made(after.calls[k].pc) == Made(s.calls[k].pc))
    ensures CallsFit(after)
  {
    forall j | j in after.calls && j != k ensures MadeFits(after, after.calls[j]) {
      assert MadeFits(s, s.calls[j]);
    }
  }

  lemma GivesWayStays(s: State, after: State, k: CallId, id: ConversationId, c: ConversationId)
    requires OnlyTouches(s, after, k, id) && c in s.completed && GivesWay(s, c)
    ensures GivesWay(after, c)
  {
    var d :| d in s.completed && Older(s, d, c) && s.completed[c].members <= s.completed[d].members;
    assert d in after.completed && Older(after, d, c);
  }

  lemma CompletedFollow(s: State, after: State, k: CallId, id: ConversationId)
    requires CompletedFit(s) && OnlyTouches(s, after, k, id)
    requires forall a, b :: a != b && Complete(after.store, id, a, b) ==> WasComplete(after, id, a, b)
    requires id in after.completed && id in after.store.conversations ==>
               after.store.conversations[id].isPrivate &&
               after.completed[id].members <= after.store.conversations[id].members
    requires id in after.completed && id !in after.store.conversations ==> GivesWay(after, id)
    ensures CompletedFit(after)
  {
    forall c, a, b | a != b && Complete(after.store, c, a, b) ensures WasComplete(after, c, a, b) {
      if c != id {
        assert Complete(s.store, c, a, b);
      }
    }
    forall c | c in after.completed && c !in after.store.conversations ensures GivesWay(after, c) {
      if c != id {
        GivesWayStays(s, after, k, id, c);
      }
    }
  }

  lemma NothingMadeKeepsInv(s: State, after: State, k: CallId)
    requires Inv(s) && after == s.(store := after.store, calls := after.calls)
    requires after.store.conversations == s.store.conversations
    requires k in after.calls && after.calls.Keys == s.calls.Keys + {k}
    requires forall j :: j in s.calls && j != k ==> after.calls[j] == s.calls[j]
    requires after.calls[k].requester != after.calls[k].target && MadeFits(after, after.calls[k])
    requires Made(after.calls[k].pc) == None || (k in s.calls && Made(after.calls[k].pc) == Made(s.calls[k].pc))
    ensures Inv(after)
  {
    forall j | j in after.calls && j != k ensures MadeFits(after, after.calls[j]) {
      assert MadeFits(s, s.calls[j]);
    }
    forall c | c in after.completed && c !in after.store.conversations ensures GivesWay(after, c) {
      assert GivesWay(s, c);
    }
    forall c, a, b | a != b && Complete(after.store, c, a, b) ensures WasComplete(after, c, a, b) {
      assert Complete(s.store, c, a, b);
    }
  }

  lemma CreateKeepsInv(s: State, k: CallId, id: ConversationId, createdAt: int)
    requires Inv(s) && Allowed(s, Run(k, id, createdAt)) && s.calls[k].pc.Create?
    ensures Inv(Do(s, Run(k, id, createdAt)))
  {
    var after := Do(s, Run(k, id, createdAt));
    assert OnlyTouches(s, after, k, id);
    forall j | j in s.calls && j != k ensures Made(s.calls[j].pc) != Some(id) {
      assert MadeFits(s, s.calls[j]);
    }
    CallsFollow(s, after, k, id);
    CompletedFollow(s, after, k, id);
  }

  lemma AddRequesterKeepsInv(s: State, k: CallId, id: ConversationId, createdAt: int)
    requires Inv(s) && Allowed(s, Run(k, id, createdAt)) && s.calls[k].pc.AddRequester?
    ensures Inv(Do(s, Run(k, id, createdAt)))
  {
    var after, made := Do(s, Run(k, id, createdAt)), s.calls[k].pc.made;
    assert MadeFits(s, s.calls[k]);
    assert after.store.conversations[made].members == {s.calls[k].requester};
    assert OnlyTouches(s, after, k, made);
    CallsFollow(s, after, k, made);
    CompletedFollow(s, after, k, made);
  }

  lemma AddTargetTouches(s: State, k: CallId, id: ConversationId, createdAt: int)
    requires Inv(s) && Allowed(s, Run(k, id, createdAt)) && s.calls[k].pc.AddTarget?
    ensures var after, made := Do(s, Run(k, id, createdAt)), s.calls[k].pc.made;
            var pair := {s.calls[k].requester, s.calls[k].target};
            OnlyTouches(s, after, k, made) && BirthsFit(after) && MadeFits(after, after.calls[k]) &&
            made in after.completed && made in after.store.conversations &&
            after.store.conversations[made].isPrivate && after.store.conversations[made].members == pair &&
            after.completed[made].members == pair
  {
    var after, made := Do(s, Run(k, id, createdAt)), s.calls[k].pc.made;
    assert MadeFits(s, s.calls[k]);
    assert after.store.conversations[made].members == {s.calls[k].requester, s.calls[k].target};
  }

  lemma AddTargetKeepsInv(s: State, k: CallId, id: ConversationId, createdAt: int)
    requires Inv(s) && Allowed(s, Run(k, id, createdAt)) && s.calls[k].pc.AddTarget?
    ensures Inv(Do(s, Run(k, id, createdAt)))
  {
    var after, made := Do(s, Run(k, id, createdAt)), s.calls[k].pc.made;
    AddTargetTouches(s, k, id, createdAt);
    hide OnlyTouches, BirthsFit, MadeFits, CompletedFit, GivesWay;
    CallsFollow(s, after, k, made);
    CompletedFollow(s, after, k, made);
  }

  /** The second lookup answers with the call's own conversation or with an older one. */
  lemma SecondLookup(s: State, k: CallId)
    requires Inv(s) && k in s.calls && s.calls[k].pc.FindAgain?
    ensures var call := s.calls[k];
            var found := FindPrivateBetween(s.store, call.requester, call.target);
            found.Some? && WasComplete(s, found.value, call.requester, call.target) &&
            (found.value != call.pc.made ==> Older(s, found.value, call.pc.made))
  {
    var call := s.calls[k];
    assert MadeFits(s, call);
    FindsOldest(s.store, call.requester, call.target);
    assert Complete(s.store, call.pc.made, call.requester, call.target);
    var found := FindPrivateBetween(s.store, call.requester, call.target).value;
    assert s.born[found] <= s.born[call.pc.made];
  }

  lemma DeleteTouches(s: State, k: CallId, id: ConversationId, createdAt: int)
    requires Inv(s) && Allowed(s, Run(k, id, createdAt)) && s.calls[k].pc.Delete?
    ensures var after, made := Do(s, Run(k, id, createdAt)), s.calls[k].pc.made;
            OnlyTouches(s, after, k, made) && made in after.completed && made !in after.store.conversations &&
            GivesWay(after, made) && BirthsFit(after)
  {
    var after, made := Do(s, Run(k, id, createdAt)), s.calls[k].pc.made;
    assert MadeFits(s, s.calls[k]);
    assert Older(after, s.calls[k].pc.canonical, made);
  }

  lemma DeletedCallsFollow(s: State, after: State, k: CallId, made: ConversationId)
    requires CallsFit(s) && OnlyTouches(s, after, k, made)
    requires k in s.calls && Made(s.calls[k].pc) == Some(made)
    requires k in after.calls && Made(after.calls[k].pc) == None
    requires after.calls[k].requester == s.calls[k].requester && after.calls[k].target == s.calls[k].target
    ensures CallsFit(after)
  {
    CallsFollow(s, after, k, made);
  }

  lemma DeleteKeepsInv(s: State, k: CallId, id: ConversationId, createdAt: int)
    requires Inv(s) && Allowed(s, Run(k, id, createdAt)) && s.calls[k].pc.Delete?
    ensures Inv(Do(s, Run(k, id, createdAt)))
  {
    var after, made := Do(s, Run(k, id, createdAt)), s.calls[k].pc.made;
    DeleteTouches(s, k, id, createdAt);
    DeletedCallsFollow(s, after, k, made);
    CompletedFollow(s, after, k, made);
  }

  lemma LookupKeepsInv(s: State, k: CallId, id: ConversationId, createdAt: int)
    requires Inv(s) && Allowed(s, Run(k, id, createdAt))
    requires s.calls[k].pc.Find? || s.calls[k].pc.Unhide?
    ensures Inv(Do(s, Run(k, id, createdAt)))
  {
    NothingMadeKeepsInv(s, Do(s, Run(k, id, createdAt)), k);
  }

  lemma FindAgainKeepsInv(s: State, k: CallId, id: ConversationId, createdAt: int)
    requires Inv(s) && Allowed(s, Run(k, id, createdAt)) && s.calls[k].pc.FindAgain?
    ensures Inv(Do(s, Run(k, id, createdAt)))
  {
    assert MadeFits(s, s.calls[k]);
    SecondLookup(s, k);
    NothingMadeKeepsInv(s, Do(s, Run(k, id, createdAt)), k);
  }

  lemma StopKeepsInv(s: State, k: CallId)
    requires Inv(s) && Allowed(s, Stop(k))
    ensures Inv(Do(s, Stop(k)))
  {
    assert MadeFits(s, s.calls[k]);
    NothingMadeKeepsInv(s, Do(s, Stop(k)), k);
  }

  lemma BeginKeepsInv(s: State, action: Action)
    requires Inv(s) && Allowed(s, action) && action.Begin?
    ensures Inv(Do(s, action))
  {
    NothingMadeKeepsInv(s, Do(s, action), action.call);
  }

  lemma ActionKeepsInv(s: State, action: Action)
    requires Inv(s) && Allowed(s, action)
    ensures Inv(Do(s, action))
  {
    if action.Begin? {
      BeginKeepsInv(s, action);
    } else if action.Stop? {
      StopKeepsInv(s, action.call);
    } else {
      var Run(k, id, createdAt) := action;
      match s.calls[k].pc
      case Create => CreateKeepsInv(s, k, id, createdAt);
      case AddRequester(_) => AddRequesterKeepsInv(s, k, id, createdAt);
      case AddTarget(_) => AddTargetKeepsInv(s, k, id, createdAt);
      case FindAgain(_) => FindAgainKeepsInv(s, k, id, createdAt);
      case Delete(_, _) => DeleteKeepsInv(s, k, id, createdAt);
      case Find => LookupKeepsInv(s, k, id, createdAt);
      case Unhide(_) => LookupKeepsInv(s, k, id, createdAt);
    }
  }

  lemma {:induction false} EveryRunKeepsInv(start: State, actions: seq<Action>)
    requires Initial(start) && ValidRun(start, actions)
    ensures Inv(After(start, actions))
  {
    if |actions| == 0 {
      InitialInv(start);
    } else {
      EveryRunKeepsInv(start, actions[..|actions| - 1]);
      ActionKeepsInv(After(start, actions[..|actions| - 1]), actions[|actions| - 1]);
    }
  }

  // --- A conversation, once there, stays -------------------------------------------------------------------

  /** The oldest conversation that was ever complete for the pair. */
  ghost predicate IsFirst(s: State, id: ConversationId, a: UserId, b: UserId)
  {
    BirthsFit(s) && WasComplete(s, id, a, b) && forall d :: WasComplete(s, d, a, b) ==> s.born[id] <= s.born[d]
  }

  lemma FirstExists(s: State, a: UserId, b: UserId) returns (first: ConversationId)
    requires BirthsFit(s) && exists c :: WasComplete(s, c, a, b)
    ensures IsFirst(s, first, a, b)
  {
    var ever := set c | c in s.completed && WasComplete(s, c, a, b);
    var c :| WasComplete(s, c, a, b);
    assert c in ever;
    first := Earliest(s, ever);
  }

  lemma {:induction false} Earliest(s: State, ids: set<ConversationId>) returns (first: ConversationId)
    requires ids != {} && ids <= s.born.Keys
    ensures first in ids && forall c :: c in ids ==> s.born[first] <= s.born[c]
  {
    first :| first in ids;
    if ids != {first} {
      var rest := Earliest(s, ids - {first});
      if s.born[rest] < s.born[first] {
        first := rest;
      }
    }
  }

  /** The oldest conversation that was ever complete is never deleted. */
  lemma FirstIsPresent(s: State, first: ConversationId, a: UserId, b: UserId)
    requires Inv(s) && a != b && IsFirst(s, first, a, b)
    ensures Complete(s.store, first, a, b) && FindPrivateBetween(s.store, a, b) == Some(first)
  {
    assert forall d :: d in s.completed && s.completed[first].members <= s.completed[d].members ==>
                         WasComplete(s, d, a, b);
    assert !GivesWay(s, first);
    assert Complete(s.store, first, a, b);
    FindsOldest(s.store, a, b);
    var found := FindPrivateBetween(s.store, a, b).value;
    assert WasComplete(s, found, a, b);
  }

  lemma {:induction false} CompletedStays(start: State, actions: seq<Action>, n: nat, id: ConversationId,
                                          a: UserId, b: UserId)
    requires Initial(start) && ValidRun(start, actions) && n <= |actions| && ValidRun(start, actions[..n])
    requires WasComplete(After(start, actions[..n]), id, a, b)
    ensures WasComplete(After(start, actions), id, a, b)
  {
    if n == |actions| {
      assert actions[..n] == actions;
    } else {
      var earlier := actions[..|actions| - 1];
      assert earlier[..n] == actions[..n];
      CompletedStays(start, earlier, n, id, a, b);
      EveryRunKeepsInv(start, earlier);
      CompletedGrows(After(start, earlier), actions[|actions| - 1], id, a, b);
    }
  }

  lemma CompletedGrows(s: State, action: Action, id: ConversationId, a: UserId, b: UserId)
    requires Inv(s) && Allowed(s, action) && WasComplete(s, id, a, b)
    ensures WasComplete(Do(s, action), id, a, b)
  {
    if action.Run? && s.calls[action.call].pc.AddTarget? {
      assert MadeFits(s, s.calls[action.call]);
    }
  }

  /**
   * In every interleaving, calls that die included: once some private conversation holds both users,
   * every later state has one.
   */
  lemma PairKeepsAConversation(start: State, actions: seq<Action>, n: nat, a: UserId, b: UserId)
    requires Initial(start) && ValidRun(start, actions) && n <= |actions| && ValidRun(start, actions[..n])
    requires a != b && exists c :: Complete(After(start, actions[..n]).store, c, a, b)
    ensures exists c :: Complete(After(start, actions).store, c, a, b)
  {
    var c :| Complete(After(start, actions[..n]).store, c, a, b);
    EveryRunKeepsInv(start, actions[..n]);
    EveryRunKeepsInv(start, actions);
    CompletedStays(start, actions, n, c, a, b);
    var first := FirstExists(After(start, actions), a, b);
    FirstIsPresent(After(start, actions), first, a, b);
  }

  /** A call keeps its conversation exactly when none that was ever complete for its pair is older. */
  lemma SecondLookupKeepsIff(s: State, k: CallId, id: ConversationId, createdAt: int)
    requires Inv(s) && k in s.calls && s.calls[k].pc.FindAgain?
    ensures var call := s.calls[k];
            Step(s.store, call, id, createdAt).1.pc == Done(call.pc.made, true) <==>
            IsFirst(s, call.pc.made, call.requester, call.target)
  {
    var call := s.calls[k];
    assert MadeFits(s, call);
    var first := FirstExists(s, call.requester, call.target);
    FirstIsPresent(s, first, call.requester, call.target);
  }

  // --- Which conversations remain ----------------------------------------------------------------------------

  predicate IsPair(call: Call, a: UserId, b: UserId)
  {
    {call.requester, call.target} == {a, b}
  }

  predicate OriginalsKept(start: State, s: State)
  {
    forall c :: c in start.store.conversations ==>
      c in s.store.conversations && s.store.conversations[c] == start.store.conversations[c]
  }

  predicate MadeAreNew(start: State, s: State)
  {
    forall k :: k in s.calls && Made(s.calls[k].pc).Some? ==> Made(s.calls[k].pc).value !in start.store.conversations
  }

  predicate NewAreMade(start: State, s: State)
  {
    forall c :: c in s.store.conversations && c !in start.store.conversations ==> MadeBySome(s, c)
  }

  predicate OriginsFit(start: State, s: State)
  {
    OriginalsKept(start, s) && MadeAreNew(start, s) && NewAreMade(start, s)
  }

  predicate MadeBySome(s: State, c: ConversationId)
  {
    exists k :: k in s.calls && Made(s.calls[k].pc) == Some(c)
  }

  lemma MadeStays(s: State, action: Action, c: ConversationId)
    requires Inv(s) && Allowed(s, action) && MadeBySome(s, c) && c in Do(s, action).store.conversations
    ensures MadeBySome(Do(s, action), c)
  {
    var k :| k in s.calls && Made(s.calls[k].pc) == Some(c);
    CallKeepsMade(s, action, k, c);
  }

  lemma CallKeepsMade(s: State, action: Action, k: CallId, c: ConversationId)
    requires Inv(s) && Allowed(s, action) && c in Do(s, action).store.conversations
    requires k in s.calls && Made(s.calls[k].pc) == Some(c)
    ensures k in Do(s, action).calls && Made(Do(s, action).calls[k].pc) == Some(c)
  {
    if action.Run? && action.call == k && s.calls[k].pc.FindAgain? {
      SecondLookup(s, k);
    }
  }

  /** An action changes no conversation but the one its call has made. */
  lemma OnlyMadeChanges(s: State, action: Action, c: ConversationId)
    requires Inv(s) && Allowed(s, action) && c in s.store.conversations
    requires action.Run? ==> Made(s.calls[action.call].pc) != Some(c)
    ensures c in Do(s, action).store.conversations && Do(s, action).store.conversations[c] == s.store.conversations[c]
  {
  }

  /** A call answers for a conversation only if it did so before or has just created it. */
  lemma MadeComesFrom(s: State, action: Action, k: CallId)
    requires Inv(s) && Allowed(s, action) && k in Do(s, action).calls && Made(Do(s, action).calls[k].pc).Some?
    ensures (k in s.calls && Made(s.calls[k].pc) == Made(Do(s, action).calls[k].pc)) ||
            Made(Do(s, action).calls[k].pc).value !in s.born
  {
  }

  lemma ActionKeepsOrigins(start: State, s: State, action: Action)
    requires Inv(s) && OriginsFit(start, s) && Allowed(s, action)
    requires start.store.conversations.Keys <= s.born.Keys
    ensures OriginsFit(start, Do(s, action))
  {
    var after := Do(s, action);
    assert OriginalsKept(start, after) by {
      forall c | c in start.store.conversations
        ensures c in after.store.conversations && after.store.conversations[c] == start.store.conversations[c]
      {
        OnlyMadeChanges(s, action, c);
      }
    }
    assert MadeAreNew(start, after) by {
      forall k | k in after.calls && Made(after.calls[k].pc).Some?
        ensures Made(after.calls[k].pc).value !in start.store.conversations
      {
        MadeComesFrom(s, action, k);
      }
    }
    assert NewAreMade(start, after) by {
      forall c | c in after.store.conversations && c !in start.store.conversations ensures MadeBySome(after, c) {
        NewIsMade(s, action, c);
      }
    }
  }

  lemma NewIsMade(s: State, action: Action, c: ConversationId)
    requires Inv(s) && Allowed(s, action) && c in Do(s, action).store.conversations
    requires c in s.store.conversations ==> MadeBySome(s, c)
    ensures MadeBySome(Do(s, action), c)
  {
    if c in s.store.conversations {
      MadeStays(s, action, c);
    } else {
      assert Made(Do(s, action).calls[action.call].pc) == Some(c);
    }
  }

  lemma {:induction false} EveryRunKeepsOrigins(start: State, actions: seq<Action>)
    requires Initial(start) && ValidRun(start, actions)
    ensures Inv(After(start, actions)) && OriginsFit(start, After(start, actions))
    ensures start.store.conversations.Keys <= After(start, actions).born.Keys
  {
    EveryRunKeepsInv(start, actions);
    if |actions| > 0 {
      EveryRunKeepsOrigins(start, actions[..|actions| - 1]);
      ActionKeepsOrigins(start, After(start, actions[..|actions| - 1]), actions[|actions| - 1]);
    }
  }

  predicate AllDone(s: State)
  {
    forall k :: k in s.calls ==> s.calls[k].pc.Done?
  }

  predicate KeptByCall(s: State, c: ConversationId, a: UserId, b: UserId)
  {
    exists k :: k in s.calls && IsPair(s.calls[k], a, b) && s.calls[k].pc == Done(c, true)
  }

  /** No call will delete the conversation any more. */
  predicate Settled(start: State, s: State, c: ConversationId, a: UserId, b: UserId)
  {
    Complete(start.store, c, a, b) || KeptByCall(s, c, a, b)
  }

  ghost predicate AtMostOne(store: Store, a: UserId, b: UserId)
  {
    forall c, d :: Complete(store, c, a, b) && Complete(store, d, a, b) ==> c == d
  }

  lemma SurvivorIsOriginalOrKept(start: State, s: State, a: UserId, b: UserId, c: ConversationId)
    requires Inv(s) && OriginsFit(start, s) && AllDone(s) && a != b && Complete(s.store, c, a, b)
    ensures Settled(start, s, c, a, b)
  {
    if c !in start.store.conversations {
      var k :| k in s.calls && Made(s.calls[k].pc) == Some(c);
      assert MadeFits(s, s.calls[k]);
      TwoOfTwo(a, b, s.calls[k].requester, s.calls[k].target);
    }
  }

  lemma KeptSurvives(s: State, a: UserId, b: UserId, c: ConversationId)
    requires Inv(s) && KeptByCall(s, c, a, b)
    ensures Complete(s.store, c, a, b)
  {
    var k :| k in s.calls && IsPair(s.calls[k], a, b) && s.calls[k].pc == Done(c, true);
    assert MadeFits(s, s.calls[k]);
  }

  lemma TwoOfTwo(a: UserId, b: UserId, c: UserId, d: UserId)
    requires a != b && {a, b} <= {c, d}
    ensures {a, b} == {c, d}
  {
  }

  /**
   * When every call has finished, the conversations of a pair are those there at the start and those
   * of the calls that reported `created`, whatever the interleaving.
   */
  lemma SurvivorsAreOriginalOrKept(start: State, actions: seq<Action>, a: UserId, b: UserId, c: ConversationId)
    requires Initial(start) && ValidRun(start, actions) && a != b && AllDone(After(start, actions))
    ensures Complete(After(start, actions).store, c, a, b) <==>
            Settled(start, After(start, actions), c, a, b)
  {
    EveryRunKeepsOrigins(start, actions);
    if Complete(After(start, actions).store, c, a, b) {
      SurvivorIsOriginalOrKept(start, After(start, actions), a, b, c);
    } else if KeptByCall(After(start, actions), c, a, b) {
      KeptSurvives(After(start, actions), a, b, c);
    }
  }

  // --- Completion in creation order ------------------------------------------------------------------------------

  /** This action completes a conversation of the pair. */
  predicate Completes(s: State, action: Action, a: UserId, b: UserId)
  {
    action.Run? && action.call in s.calls && s.calls[action.call].pc.AddTarget? && IsPair(s.calls[action.call], a, b)
  }

  /** Each conversation of the pair becomes complete after all older ones that ever do. */
  ghost predicate InOrder(start: State, actions: seq<Action>, a: UserId, b: UserId)
    requires ValidRun(start, actions)
  {
    |actions| > 0 ==>
      var s, last := After(start, actions[..|actions| - 1]), actions[|actions| - 1];
      InOrder(start, actions[..|actions| - 1], a, b) &&
      (Completes(s, last, a, b) ==> forall d :: WasComplete(s, d, a, b) ==> Older(s, d, s.calls[last.call].pc.made))
  }

  /** The conversation a call has settled on, once it has. */
  function Answer(pc: Pc): Option<ConversationId>
  {
    match pc
    case Delete(_, canonical) => Some(canonical)
    case Unhide(canonical) => Some(canonical)
    case Done(id, _) => Some(id)
    case _ => None
  }

  ghost predicate AnswersFirst(start: State, s: State, a: UserId, b: UserId)
  {
    (forall c :: Complete(start.store, c, a, b) ==> IsFirst(s, c, a, b)) &&
    (forall k :: k in s.calls && IsPair(s.calls[k], a, b) && Answer(s.calls[k].pc).Some? ==>
       IsFirst(s, Answer(s.calls[k].pc).value, a, b))
  }

  /** Only completing a conversation of the pair changes what was ever complete for it. */
  lemma CompletedComesFrom(s: State, action: Action, d: ConversationId, a: UserId, b: UserId)
    requires Inv(s) && Allowed(s, action) && a != b && WasComplete(Do(s, action), d, a, b)
    ensures WasComplete(s, d, a, b) || (Completes(s, action, a, b) && d == s.calls[action.call].pc.made)
  {
    if !WasComplete(s, d, a, b) {
      assert MadeFits(s, s.calls[action.call]);
      TwoOfTwo(a, b, s.calls[action.call].requester, s.calls[action.call].target);
    }
  }

  lemma FirstStays(s: State, action: Action, first: ConversationId, a: UserId, b: UserId)
    requires Inv(s) && Allowed(s, action) && a != b && IsFirst(s, first, a, b)
    requires Completes(s, action, a, b) ==> Older(s, first, s.calls[action.call].pc.made)
    ensures IsFirst(Do(s, action), first, a, b)
  {
    var after := Do(s, action);
    ActionKeepsInv(s, action);
    CompletedGrows(s, action, first, a, b);
    forall d | WasComplete(after, d, a, b) ensures after.born[first] <= after.born[d] {
      CompletedComesFrom(s, action, d, a, b);
    }
  }

  /** A call settles on the oldest conversation that was ever complete for its pair. */
  lemma NewAnswerIsFirst(s: State, k: CallId, id: ConversationId, createdAt: int, a: UserId, b: UserId)
    requires Inv(s) && Allowed(s, Run(k, id, createdAt)) && a != b && IsPair(s.calls[k], a, b)
    requires Answer(s.calls[k].pc).None?
    requires var next := Do(s, Run(k, id, createdAt)).calls[k].pc; Answer(next).Some?
    ensures IsFirst(s, Answer(Do(s, Run(k, id, createdAt)).calls[k].pc).value, a, b)
  {
    var call := s.calls[k];
    FindsOldest(s.store, call.requester, call.target);
    if call.pc.FindAgain? {
      SecondLookup(s, k);
    }
    var found := FindPrivateBetween(s.store, call.requester, call.target).value;
    assert Complete(s.store, found, call.requester, call.target);
    assert WasComplete(s, found, call.requester, call.target);
    var first := FirstExists(s, call.requester, call.target);
    FirstIsPresent(s, first, call.requester, call.target);
    assert forall d :: WasComplete(s, d, a, b) <==> WasComplete(s, d, call.requester, call.target);
  }

  lemma ActionKeepsAnswers(start: State, s: State, action: Action, a: UserId, b: UserId)
    requires Inv(s) && Allowed(s, action) && a != b && AnswersFirst(start, s, a, b)
    requires Completes(s, action, a, b) ==>
               forall d :: WasComplete(s, d, a, b) ==> Older(s, d, s.calls[action.call].pc.made)
    ensures AnswersFirst(start, Do(s, action), a, b)
  {
    var after := Do(s, action);
    forall c | Complete(start.store, c, a, b) ensures IsFirst(after, c, a, b) {
      FirstStays(s, action, c, a, b);
    }
    forall k | k in after.calls && IsPair(after.calls[k], a, b) && Answer(after.calls[k].pc).Some?
      ensures IsFirst(after, Answer(after.calls[k].pc).value, a, b)
    {
      if action.Run? && action.call == k && Answer(s.calls[k].pc).None? {
        NewAnswerIsFirst(s, k, action.id, action.createdAt, a, b);
      }
      FirstStays(s, action, Answer(after.calls[k].pc).value, a, b);
    }
  }

  lemma InitialIsFirst(s: State, c: ConversationId, a: UserId, b: UserId)
    requires Initial(s) && a != b && AtMostOne(s.store, a, b) && Complete(s.store, c, a, b)
    ensures IsFirst(s, c, a, b)
  {
    InitialInv(s);
    assert WasComplete(s, c, a, b);
    forall d | WasComplete(s, d, a, b) ensures d == c {
      assert Complete(s.store, d, a, b);
    }
  }

  lemma {:induction false} InOrderAnswersFirst(start: State, actions: seq<Action>, a: UserId, b: UserId)
    requires Initial(start) && ValidRun(start, actions) && a != b && InOrder(start, actions, a, b)
    requires AtMostOne(start.store, a, b)
    ensures Inv(After(start, actions)) && AnswersFirst(start, After(start, actions), a, b)
  {
    EveryRunKeepsInv(start, actions);
    if |actions| > 0 {
      InOrderAnswersFirst(start, actions[..|actions| - 1], a, b);
      ActionKeepsAnswers(start, After(start, actions[..|actions| - 1]), actions[|actions| - 1], a, b);
    } else {
      forall c | Complete(start.store, c, a, b) ensures IsFirst(start, c, a, b) {
        InitialIsFirst(start, c, a, b);
      }
    }
  }

  lemma FirstIsUnique(s: State, c: ConversationId, d: ConversationId, a: UserId, b: UserId)
    requires BirthsFit(s) && IsFirst(s, c, a, b) && IsFirst(s, d, a, b)
    ensures c == d
  {
    assert s.born[c] == s.born[d];
  }

  lemma SettledAnswersFirst(start: State, s: State, c: ConversationId, a: UserId, b: UserId)
    requires AnswersFirst(start, s, a, b) && Settled(start, s, c, a, b)
    ensures IsFirst(s, c, a, b)
  {
    if KeptByCall(s, c, a, b) {
      var k :| k in s.calls && IsPair(s.calls[k], a, b) && s.calls[k].pc == Done(c, true);
      assert Answer(s.calls[k].pc) == Some(c);
    }
  }

  /**
   * If the conversations of a pair become complete in creation order, and there was at most one at the
   * start, then when all calls have finished exactly one remains, and every caller was given it.
   */
  lemma ExactlyOneRemains(start: State, actions: seq<Action>, a: UserId, b: UserId, k: CallId)
    returns (only: ConversationId)
    requires Initial(start) && ValidRun(start, actions) && a != b && InOrder(start, actions, a, b)
    requires AtMostOne(start.store, a, b) && AllDone(After(start, actions))
    requires k in After(start, actions).calls && IsPair(After(start, actions).calls[k], a, b)
    ensures forall c :: Complete(After(start, actions).store, c, a, b) <==> c == only
    ensures forall j :: j in After(start, actions).calls && IsPair(After(start, actions).calls[j], a, b) ==>
              After(start, actions).calls[j].pc.id == only
  {
    InOrderAnswersFirst(start, actions, a, b);
    EveryRunKeepsOrigins(start, actions);
    only := OneRemains(start, After(start, actions), a, b, k);
  }

  lemma OneRemains(start: State, s: State, a: UserId, b: UserId, k: CallId) returns (only: ConversationId)
    requires Inv(s) && OriginsFit(start, s) && AnswersFirst(start, s, a, b) && AllDone(s) && a != b
    requires k in s.calls && IsPair(s.calls[k], a, b)
    ensures forall c :: Complete(s.store, c, a, b) <==> c == only
    ensures forall j :: j in s.calls && IsPair(s.calls[j], a, b) ==> s.calls[j].pc.id == only
  {
    assert BirthsFit(s);
    hide Inv, BirthsFit, OriginsFit, IsFirst, Complete, Settled, AnswersFirst, AllDone, IsPair;
    AnswerIsFirst(start, s, a, b, k);
    only := s.calls[k].pc.id;
    FirstIsPresent(s, only, a, b);
    forall c | Complete(s.store, c, a, b) ensures c == only {
      SurvivorIsOriginalOrKept(start, s, a, b, c);
      SettledAnswersFirst(start, s, c, a, b);
      FirstIsUnique(s, c, only, a, b);
    }
    forall j | j in s.calls && IsPair(s.calls[j], a, b) ensures s.calls[j].pc.Done? && s.calls[j].pc.id == only {
      AnswerIsFirst(start, s, a, b, j);
      FirstIsUnique(s, s.calls[j].pc.id, only, a, b);
    }
  }

  lemma AnswerIsFirst(start: State, s: State, a: UserId, b: UserId, k: CallId)
    requires AnswersFirst(start, s, a, b) && AllDone(s) && k in s.calls && IsPair(s.calls[k], a, b)
    ensures s.calls[k].pc.Done? && IsFirst(s, s.calls[k].pc.id, a, b)
  {
    hide IsFirst, Complete, IsPair;
    assert Answer(s.calls[k].pc) == Some(s.calls[k].pc.id);
  }

  // --- When two remain ----------------------------------------------------------------------------------------------

  /** No conversation becomes complete after a younger one of the pair was settled. */
  ghost predicate InTime(start: State, actions: seq<Action>, a: UserId, b: UserId)
    requires ValidRun(start, actions)
  {
    |actions| > 0 ==>
      var s, last := After(start, actions[..|actions| - 1]), actions[|actions| - 1];
      InTime(start, actions[..|actions| - 1], a, b) &&
      (Completes(s, last, a, b) ==>
         forall c :: Settled(start, s, c, a, b) ==> Older(s, c, s.calls[last.call].pc.made))
  }

  ghost predicate SettledFirst(start: State, s: State, a: UserId, b: UserId)
  {
    forall c :: Settled(start, s, c, a, b) ==> IsFirst(s, c, a, b)
  }

  /** A conversation newly settled was kept by the call that looked again, and was the first then. */
  lemma NewlySettledIsFirst(start: State, s: State, action: Action, c: ConversationId, a: UserId, b: UserId)
    requires Inv(s) && Allowed(s, action) && a != b
    requires Settled(start, Do(s, action), c, a, b) && !Settled(start, s, c, a, b)
    ensures IsFirst(s, c, a, b) && !Completes(s, action, a, b)
  {
    var after := Do(s, action);
    var k :| k in after.calls && IsPair(after.calls[k], a, b) && after.calls[k].pc == Done(c, true);
    assert action.Run? && action.call == k && s.calls[k].pc.FindAgain?;
    SecondLookupKeepsIff(s, k, action.id, action.createdAt);
    assert forall d :: WasComplete(s, d, a, b) <==> WasComplete(s, d, s.calls[k].requester, s.calls[k].target);
  }

  lemma ActionKeepsSettledFirst(start: State, s: State, action: Action, a: UserId, b: UserId)
    requires Inv(s) && Allowed(s, action) && a != b && SettledFirst(start, s, a, b)
    requires Completes(s, action, a, b) ==>
               forall c :: Settled(start, s, c, a, b) ==> Older(s, c, s.calls[action.call].pc.made)
    ensures SettledFirst(start, Do(s, action), a, b)
  {
    forall c | Settled(start, Do(s, action), c, a, b) ensures IsFirst(Do(s, action), c, a, b) {
      if !Settled(start, s, c, a, b) {
        NewlySettledIsFirst(start, s, action, c, a, b);
      }
      FirstStays(s, action, c, a, b);
    }
  }

  lemma {:induction false} InTimeSettlesFirst(start: State, actions: seq<Action>, a: UserId, b: UserId)
    requires Initial(start) && ValidRun(start, actions) && a != b && AtMostOne(start.store, a, b)
    requires InTime(start, actions, a, b)
    ensures Inv(After(start, actions)) && SettledFirst(start, After(start, actions), a, b)
  {
    EveryRunKeepsInv(start, actions);
    if |actions| > 0 {
      InTimeSettlesFirst(start, actions[..|actions| - 1], a, b);
      ActionKeepsSettledFirst(start, After(start, actions[..|actions| - 1]), actions[|actions| - 1], a, b);
    } else {
      forall c | Settled(start, start, c, a, b) ensures IsFirst(start, c, a, b) {
        InitialIsFirst(start, c, a, b);
      }
    }
  }

  lemma SettledStays(start: State, s: State, action: Action, c: ConversationId, a: UserId, b: UserId)
    requires Allowed(s, action) && Settled(start, s, c, a, b)
    ensures Settled(start, Do(s, action), c, a, b)
  {
    if KeptByCall(s, c, a, b) {
      var k :| k in s.calls && IsPair(s.calls[k], a, b) && s.calls[k].pc == Done(c, true);
      var after := Do(s, action);
      assert k in after.calls && IsPair(after.calls[k], a, b) && after.calls[k].pc == Done(c, true);
    }
  }

  /** What is not the first never becomes it, and what is stops being it when an older one completes. */
  lemma LateStays(s: State, action: Action, c: ConversationId, a: UserId, b: UserId)
    requires Inv(s) && Allowed(s, action) && a != b && WasComplete(s, c, a, b)
    requires !IsFirst(s, c, a, b) || (Completes(s, action, a, b) && !Older(s, c, s.calls[action.call].pc.made))
    ensures !IsFirst(Do(s, action), c, a, b)
  {
    if IsFirst(s, c, a, b) {
      OvertakenByCompletion(s, action, c, a, b);
    } else {
      var d :| WasComplete(s, d, a, b) && s.born[d] < s.born[c];
      CompletedGrows(s, action, d, a, b);
    }
  }

  lemma OvertakenByCompletion(s: State, action: Action, c: ConversationId, a: UserId, b: UserId)
    requires Inv(s) && Allowed(s, action) && WasComplete(s, c, a, b)
    requires Completes(s, action, a, b) && !Older(s, c, s.calls[action.call].pc.made)
    ensures !IsFirst(Do(s, action), c, a, b)
  {
    var made := s.calls[action.call].pc.made;
    assert MadeFits(s, s.calls[action.call]);
    assert WasComplete(Do(s, action), made, a, b);
    assert s.born[made] < s.born[c];
  }

  lemma SettledWasComplete(start: State, s: State, c: ConversationId, a: UserId, b: UserId)
    requires Inv(s) && OriginsFit(start, s) && a != b && Settled(start, s, c, a, b)
    ensures Complete(s.store, c, a, b) && WasComplete(s, c, a, b)
  {
    if KeptByCall(s, c, a, b) {
      KeptSurvives(s, a, b, c);
    }
  }

  lemma {:induction false} LateSettlesAnother(start: State, actions: seq<Action>, a: UserId, b: UserId)
      returns (late: ConversationId)
    requires Initial(start) && ValidRun(start, actions) && a != b && !InTime(start, actions, a, b)
    ensures Settled(start, After(start, actions), late, a, b) && !IsFirst(After(start, actions), late, a, b)
  {
    var s, last := After(start, actions[..|actions| - 1]), actions[|actions| - 1];
    EveryRunKeepsOrigins(start, actions[..|actions| - 1]);
    if !InTime(start, actions[..|actions| - 1], a, b) {
      late := LateSettlesAnother(start, actions[..|actions| - 1], a, b);
    } else {
      late :| Settled(start, s, late, a, b) && !Older(s, late, s.calls[last.call].pc.made);
    }
    SettledWasComplete(start, s, late, a, b);
    SettledStays(start, s, last, late, a, b);
    LateStays(s, last, late, a, b);
  }

  /**
   * When all calls have finished, a pair has no two conversations exactly when none of them became
   * complete after a younger one had been settled: there from the start, or reported as `created`.
   */
  lemma NoTwoRemainIff(start: State, actions: seq<Action>, a: UserId, b: UserId)
    requires Initial(start) && ValidRun(start, actions) && a != b && AllDone(After(start, actions))
    requires AtMostOne(start.store, a, b)
    ensures AtMostOne(After(start, actions).store, a, b) <==> InTime(start, actions, a, b)
  {
    var s := After(start, actions);
    EveryRunKeepsOrigins(start, actions);
    if InTime(start, actions, a, b) {
      InTimeSettlesFirst(start, actions, a, b);
      forall c, d | Complete(s.store, c, a, b) && Complete(s.store, d, a, b) ensures c == d {
        SurvivorIsOriginalOrKept(start, s, a, b, c);
        SurvivorIsOriginalOrKept(start, s, a, b, d);
        FirstIsUnique(s, c, d, a, b);
      }
    } else {
      var late := LateSettlesAnother(start, actions, a, b);
      SettledWasComplete(start, s, late, a, b);
      var first := FirstExists(s, a, b);
      FirstIsPresent(s, first, a, b);
    }
  }

  lemma OnlyOneFound(store: Store, id: ConversationId, a: UserId, b: UserId)
    requires forall c :: Complete(store, c, a, b) <==> c == id
    ensures FindPrivateBetween(store, a, b) == Some(id)
  {
    FindsOldest(store, a, b);
    assert Complete(store, id, a, b);
  }

  const EMPTY := State(Store(map[], {}), map[], map[], map[])

  const BOTH_LOOKED := State(
    EMPTY.store, map[0 := Call("a", "b", Create), 1 := Call("b", "a", Create)], map[], map[])

  /** Two users who open each other at once, after both have found nothing and created a row. */
  const BOTH_CREATED := State(
    Store(map["x" := Conversation(true, 1, {}), "y" := Conversation(true, 2, {})], {}),
    map[0 := Call("a", "b", AddRequester("x")), 1 := Call("b", "a", AddRequester("y"))],
    map["x" := 1, "y" := 2], map[])

  /** The younger row became complete first, so its call kept it. */
  const YOUNGER_KEPT := State(
    Store(map["x" := Conversation(true, 1, {}), "y" := Conversation(true, 2, {"a", "b"})], {}),
    map[0 := Call("a", "b", AddRequester("x")), 1 := Call("b", "a", Done("y", true))],
    map["x" := 1, "y" := 2], map["y" := Conversation(true, 2, {"a", "b"})])

  lemma Extend(actions: seq<Action>, action: Action, next: State) returns (longer: seq<Action>)
    requires ValidRun(EMPTY, actions) && Allowed(After(EMPTY, actions), action)
    requires Do(After(EMPTY, actions), action) == next
    ensures ValidRun(EMPTY, longer) && After(EMPTY, longer) == next
  {
    longer := actions + [action];
    assert longer[..|actions|] == actions;
  }

  lemma BothLook() returns (actions: seq<Action>)
    ensures ValidRun(EMPTY, actions) && After(EMPTY, actions) == BOTH_LOOKED
  {
    FindsOldest(EMPTY.store, "a", "b");
    FindsOldest(EMPTY.store, "b", "a");
    var none: seq<Action> := [];
    var one := EMPTY.(calls := map[0 := Call("a", "b", Find)]);
    actions := Extend(none, Begin(0, "a", "b"), one);
    var looked := EMPTY.(calls := map[0 := Call("a", "b", Create)]);
    actions := Extend(actions, Run(0, "", 0), looked);
    var two := EMPTY.(calls := map[0 := Call("a", "b", Create), 1 := Call("b", "a", Find)]);
    actions := Extend(actions, Begin(1, "b", "a"), two);
    actions := Extend(actions, Run(1, "", 0), BOTH_LOOKED);
  }

  lemma BothCreate() returns (actions: seq<Action>)
    ensures ValidRun(EMPTY, actions) && After(EMPTY, actions) == BOTH_CREATED
  {
    actions := BothLook();
    var one := State(
      Store(map["x" := Conversation(true, 1, {})], {}),
      map[0 := Call("a", "b", AddRequester("x")), 1 := Call("b", "a", Create)], map["x" := 1], map[]);
    assert BOTH_LOOKED.born["x" := 1] == map["x" := 1];
    actions := Extend(actions, Run(0, "x", 1), one);
    assert map["x" := 1].Values == {1};
    actions := Extend(actions, Run(1, "y", 2), BOTH_CREATED);
  }

  const YOUNGER_COMPLETE := State(
    Store(map["x" := Conversation(true, 1, {}), "y" := Conversation(true, 2, {"a", "b"})], {}),
    map[0 := Call("a", "b", AddRequester("x")), 1 := Call("b", "a", FindAgain("y"))],
    map["x" := 1, "y" := 2], map["y" := Conversation(true, 2, {"a", "b"})])

  lemma YoungerIsCompleted() returns (actions: seq<Action>)
    ensures ValidRun(EMPTY, actions) && After(EMPTY, actions) == YOUNGER_COMPLETE
  {
    actions := BothCreate();
    var run := Run(1, "", 0);
    actions := Extend(actions, run, Do(BOTH_CREATED, run));
    assert Do(Do(BOTH_CREATED, run), run).store.conversations["y"].members == {"a", "b"};
    actions := Extend(actions, run, YOUNGER_COMPLETE);
  }

  lemma YoungerIsKept() returns (actions: seq<Action>)
    ensures ValidRun(EMPTY, actions) && After(EMPTY, actions) == YOUNGER_KEPT
  {
    actions := YoungerIsCompleted();
    OnlyOneFound(YOUNGER_COMPLETE.store, "y", "b", "a");
    actions := Extend(actions, Run(1, "", 0), YOUNGER_KEPT);
  }

  const BOTH_COMPLETE := State(
    Store(map["x" := Conversation(true, 1, {"a", "b"}), "y" := Conversation(true, 2, {"a", "b"})], {}),
    map[0 := Call("a", "b", FindAgain("x")), 1 := Call("b", "a", Done("y", true))],
    map["x" := 1, "y" := 2],
    map["x" := Conversation(true, 1, {"a", "b"}), "y" := Conversation(true, 2, {"a", "b"})])

  const OLDER_JOINED := State(
    Store(map["x" := Conversation(true, 1, {"a"}), "y" := Conversation(true, 2, {"a", "b"})], {}),
    map[0 := Call("a", "b", AddTarget("x")), 1 := Call("b", "a", Done("y", true))],
    map["x" := 1, "y" := 2], map["y" := Conversation(true, 2, {"a", "b"})])

  lemma OlderJoins()
    ensures Allowed(YOUNGER_KEPT, Run(0, "", 0)) && Do(YOUNGER_KEPT, Run(0, "", 0)) == OLDER_JOINED
  {
    assert Do(YOUNGER_KEPT, Run(0, "", 0)).store.conversations["x"].members == {"a"};
  }

  lemma OlderCompletes()
    ensures Allowed(OLDER_JOINED, Run(0, "", 0)) && Do(OLDER_JOINED, Run(0, "", 0)) == BOTH_COMPLETE
  {
    assert Do(OLDER_JOINED, Run(0, "", 0)).store.conversations["x"].members == {"a", "b"};
  }

  lemma OlderIsCompleted() returns (actions: seq<Action>)
    ensures ValidRun(EMPTY, actions) && After(EMPTY, actions) == BOTH_COMPLETE
  {
    hide Do, Allowed;
    actions := YoungerIsKept();
    OlderJoins();
    actions := Extend(actions, Run(0, "", 0), OLDER_JOINED);
    OlderCompletes();
    actions := Extend(actions, Run(0, "", 0), BOTH_COMPLETE);
  }

  /** Arbitrary interleavings can leave a pair with two conversations. */
  lemma TwoRemain() returns (actions: seq<Action>)
    ensures Initial(EMPTY) && ValidRun(EMPTY, actions) && AllDone(After(EMPTY, actions))
    ensures Complete(After(EMPTY, actions).store, "x", "a", "b") && Complete(After(EMPTY, actions).store, "y", "a", "b")
  {
    actions := OlderIsCompleted();
    OlderIsFound(BOTH_COMPLETE.store);
    actions := Extend(actions, Run(0, "", 0), Do(BOTH_COMPLETE, Run(0, "", 0)));
  }

  lemma OlderIsFound(store: Store)
    requires store.conversations ==
             map["x" := Conversation(true, 1, {"a", "b"}), "y" := Conversation(true, 2, {"a", "b"})]
    ensures FindPrivateBetween(store, "a", "b") == Some("x")
  {
    assert Complete(store, "x", "a", "b") && Complete(store, "y", "a", "b");
    FindsOldest(store, "a", "b");
  }
}
