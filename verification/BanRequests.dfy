/**
 * Deciding a ban request: claim it, ban the client, and give the request back if banning fails. Any number
 * of decisions interleave at every database call, and any of them may die at any point.
 */
module BanRequests {

  import opened Wrappers

  type UserId = string
  type RequestId = string
  type CallId = nat

  datatype Status = Pending | Accepted | Rejected

  datatype Request = Request(
    client: UserId, director: UserId, status: Status,
    processedAt: Option<int>, processedBy: Option<UserId>, comment: Option<string>)

  datatype Decision = Decision(request: RequestId, actor: UserId, accept: bool, comment: Option<string>)

  datatype Error = NotFound | AlreadyProcessed | NotAssignedDirector | BanFailed | DisconnectFailed

  datatype Pc =
    | Claim
    | Explain                  // the claim changed no row: find out why
    | Ban(client: UserId)
    | Disconnect(client: UserId)
    | Compensate(banFailed: bool)  // or else the disconnection did
    | Notify                   // best effort: its failures are swallowed
    | Succeeded
    | Failed(error: Error)
    | Died(at: Pc)

  /** `banned`: the ban step of this decision has run. */
  datatype Call = Call(decision: Decision, pc: Pc, banned: bool)

  datatype State = State(requests: map<RequestId, Request>, bannedUsers: set<UserId>, calls: map<CallId, Call>)

  datatype Action =
    | Create(id: RequestId, client: UserId, director: UserId)
    | Begin(call: CallId, decision: Decision)
    | Run(call: CallId, now: int, ok: bool)  // `ok`: whether the ban or the disconnection succeeds
    | Stop(call: CallId)

  function StatusOf(decision: Decision): Status
  {
    if decision.accept then Accepted else Rejected
  }

  /** What the conditional update tests and writes. */
  predicate CanClaim(requests: map<RequestId, Request>, decision: Decision)
  {
    decision.request in requests && requests[decision.request].status.Pending? &&
    requests[decision.request].director == decision.actor
  }

  function Claimed(request: Request, decision: Decision, now: int): Request
  {
    request.(status := StatusOf(decision), comment := decision.comment,
             processedAt := Some(now), processedBy := Some(decision.actor))
  }

  /** What compensation writes back, without looking. */
  function Released(request: Request): Request
  {
    request.(status := Pending, processedAt := None, processedBy := None, comment := None)
  }

  function Reason(requests: map<RequestId, Request>, decision: Decision): Error
  {
    if decision.request !in requests then NotFound
    else if !requests[decision.request].status.Pending? then AlreadyProcessed
    else NotAssignedDirector
  }

  predicate Running(pc: Pc)
  {
    !pc.Succeeded? && !pc.Failed? && !pc.Died?
  }

  /** The decision has claimed its request and not given it back. */
  predicate Holding(pc: Pc)
  {
    pc.Ban? || pc.Disconnect? || pc.Compensate? || pc.Notify? || pc.Succeeded? ||
    (pc.Died? && Holding(pc.at))
  }

  predicate Allowed(s: State, action: Action)
  {
    match action
    case Create(id, _, _) => id !in s.requests
    case Begin(k, _) => k !in s.calls
    case Run(k, _, _) => k in s.calls && Running(s.calls[k].pc)
    case Stop(k) => k in s.calls && Running(s.calls[k].pc)
  }

  function Step(s: State, k: CallId, now: int, ok: bool): State
    requires Allowed(s, Run(k, now, ok))
  {
    var call := s.calls[k];
    var id := call.decision.request;
    match call.pc
    case Claim =>
      if CanClaim(s.requests, call.decision) then
        var next := if call.decision.accept then Ban(s.requests[id].client) else Notify;
        s.(requests := s.requests[id := Claimed(s.requests[id], call.decision, now)],
           calls := s.calls[k := call.(pc := next)])
      else s.(calls := s.calls[k := call.(pc := Explain)])
    case Explain => s.(calls := s.calls[k := call.(pc := Failed(Reason(s.requests, call.decision)))])
    case Ban(client) =>
      if ok then
        s.(bannedUsers := s.bannedUsers + {client},
           calls := s.calls[k := call.(pc := Disconnect(client), banned := true)])
      else s.(calls := s.calls[k := call.(pc := Compensate(true))])
    case Disconnect(_) => s.(calls := s.calls[k := call.(pc := if ok then Notify else Compensate(false))])
    case Compensate(banFailed) =>
      s.(requests := if id in s.requests then s.requests[id := Released(s.requests[id])] else s.requests,
         calls := s.calls[k := call.(pc := Failed(if banFailed then BanFailed else DisconnectFailed))])
    case Notify => s.(calls := s.calls[k := call.(pc := Succeeded)])
    case _ => s
  }

  /** A step bans the client exactly when it is the ban and it is ok, and compensates for what is not. */
  lemma StepBansIff(s: State, k: CallId, now: int, ok: bool, user: UserId)
    requires Allowed(s, Run(k, now, ok))
    ensures var pc, after := s.calls[k].pc, Step(s, k, now, ok);
            (user in after.bannedUsers <==> user in s.bannedUsers || (pc == Ban(user) && ok)) &&
            (after.calls[k].pc.Compensate? <==> (pc.Ban? || pc.Disconnect?) && !ok) &&
            (after.calls[k].pc.Disconnect? <==> pc.Ban? && ok) &&
            (after.calls[k].pc.Notify? <==>
               (pc.Disconnect? && ok) ||
               (pc.Claim? && CanClaim(s.requests, s.calls[k].decision) && !s.calls[k].decision.accept)) &&
            (after.calls[k].pc.Succeeded? <==> pc.Notify?) &&
            (after.calls[k].pc == Failed(BanFailed) <==> pc == Compensate(true)) &&
            (after.calls[k].pc == Failed(DisconnectFailed) <==> pc == Compensate(false))
  {
  }

  function Do(s: State, action: Action): State
    requires Allowed(s, action)
  {
    match action
    case Create(id, client, director) =>
      s.(requests := s.requests[id := Request(client, director, Pending, None, None, None)])
    case Begin(k, decision) => s.(calls := s.calls[k := Call(decision, Claim, false)])
    case Run(k, now, ok) => Step(s, k, now, ok)
    case Stop(k) => s.(calls := s.calls[k := s.calls[k].(pc := Died(s.calls[k].pc))])
  }

  ghost predicate ValidRun(start: State, actions: seq<Action>)
    decreases |actions|, 0
  {
    |actions| == 0 ||
    (ValidRun(start, actions[..|actions| - 1]) &&
     Allowed(After(start, actions[..|actions| - 1]), actions[|actions| - 1]))
  }

  ghost function After(start: State, actions: seq<Action>): State
    requires ValidRun(start, actions)
    decreases |actions|, 1
  {
    if |actions| == 0 then start
    else Do(After(start, actions[..|actions| - 1]), actions[|actions| - 1])
  }

  // --- The invariant -------------------------------------------------------------------------------

  predicate Consistent(request: Request)
  {
    (request.status.Pending? <==> request.processedAt.None?) &&
    (request.status.Pending? <==> request.processedBy.None?) &&
    (request.status.Pending? ==> request.comment.None?)
  }

  predicate AllConsistent(s: State)
  {
    forall id :: id in s.requests ==> Consistent(s.requests[id])
  }

  /** Where a decision is, or was when it died. */
  function Reached(pc: Pc): (at: Pc)
    ensures !at.Died?
  {
    if pc.Died? then Reached(pc.at) else pc
  }

  /** A decision that has got past banning its client; a rejection never does. */
  predicate PastBan(call: Call)
  {
    var at := Reached(call.pc);
    at.Disconnect? || at == Compensate(false) || at == Failed(DisconnectFailed) ||
    (call.decision.accept && (at.Notify? || at.Succeeded?))
  }

  /** Whether the ban step of a decision has run, from where the decision is. */
  predicate BannedFits(call: Call)
  {
    var at := Reached(call.pc);
    (call.banned <==> PastBan(call)) &&
    (at.Ban? || at.Disconnect? || at.Compensate? || at == Failed(DisconnectFailed) ==> call.decision.accept)
  }

  /** The request of a decision that holds it says what was decided, by whom and why. */
  predicate HolderFits(s: State, call: Call)
  {
    BannedFits(call) &&
    (Holding(call.pc) ==>
      var decision := call.decision;
      decision.request in s.requests &&
      var request := s.requests[decision.request];
      request.status == StatusOf(decision) && request.processedBy == Some(decision.actor) &&
      request.director == decision.actor && request.comment == decision.comment &&
      (call.pc.Ban? || call.pc.Disconnect? ==> call.pc.client == request.client)) &&
    (call.banned ==> call.decision.request in s.requests && s.requests[call.decision.request].client in s.bannedUsers)
  }

  predicate AllHoldersFit(s: State)
  {
    forall k :: k in s.calls ==> HolderFits(s, s.calls[k])
  }

  predicate HoldersAreAlone(s: State)
  {
    forall j, k :: j in s.calls && k in s.calls && j != k && Holding(s.calls[j].pc) && Holding(s.calls[k].pc) ==>
      s.calls[j].decision.request != s.calls[k].decision.request
  }

  predicate Inv(s: State)
  {
    AllConsistent(s) && AllHoldersFit(s) && HoldersAreAlone(s)
  }

  /** Requests may have been decided before, by calls no longer known. */
  predicate Initial(s: State)
  {
    s.calls == map[] && AllConsistent(s)
  }

  /** Nobody holds a pending request. */
  lemma PendingIsFree(s: State, id: RequestId, k: CallId)
    requires AllHoldersFit(s) && id in s.requests && s.requests[id].status.Pending?
    requires k in s.calls && s.calls[k].decision.request == id
    ensures !Holding(s.calls[k].pc)
  {
    assert HolderFits(s, s.calls[k]);
  }

  lemma StepKeepsConsistent(s: State, k: CallId, now: int, ok: bool)
    requires AllConsistent(s) && Allowed(s, Run(k, now, ok))
    ensures AllConsistent(Step(s, k, now, ok))
  {
  }

  /** Only the calls of one request see that request change. */
  lemma OthersFit(s: State, after: State, id: RequestId, call: Call)
    requires HolderFits(s, call) && call.decision.request != id
    requires s.bannedUsers <= after.bannedUsers
    requires forall r :: r != id && r in s.requests ==> r in after.requests && after.requests[r] == s.requests[r]
    ensures HolderFits(after, call)
  {
  }

  lemma OwnHolderFits(s: State, k: CallId, now: int, ok: bool)
    requires Inv(s) && Allowed(s, Run(k, now, ok))
    ensures HolderFits(Step(s, k, now, ok), Step(s, k, now, ok).calls[k])
  {
    assert HolderFits(s, s.calls[k]);
  }

  lemma OtherHolderFits(s: State, k: CallId, now: int, ok: bool, j: CallId)
    requires Inv(s) && Allowed(s, Run(k, now, ok)) && j in s.calls && j != k
    ensures HolderFits(Step(s, k, now, ok), s.calls[j])
  {
    var id := s.calls[k].decision.request;
    assert HolderFits(s, s.calls[k]) && HolderFits(s, s.calls[j]);
    if s.calls[j].decision.request != id {
      OthersFit(s, Step(s, k, now, ok), id, s.calls[j]);
    } else if CanClaim(s.requests, s.calls[k].decision) {
      PendingIsFree(s, id, j);
    }
  }

  lemma StepKeepsHolders(s: State, k: CallId, now: int, ok: bool)
    requires Inv(s) && Allowed(s, Run(k, now, ok))
    ensures AllHoldersFit(Step(s, k, now, ok))
  {
    var after := Step(s, k, now, ok);
    assert forall j :: j in after.calls ==> j in s.calls && (j != k ==> after.calls[j] == s.calls[j]);
    hide HolderFits, Step;
    forall j | j in after.calls ensures HolderFits(after, after.calls[j]) {
      if j == k {
        OwnHolderFits(s, k, now, ok);
      } else {
        OtherHolderFits(s, k, now, ok, j);
      }
    }
  }

  lemma StepKeepsAlone(s: State, k: CallId, now: int, ok: bool)
    requires Inv(s) && Allowed(s, Run(k, now, ok))
    ensures HoldersAreAlone(Step(s, k, now, ok))
  {
    var after, id := Step(s, k, now, ok), s.calls[k].decision.request;
    forall j | j in s.calls && j != k && s.calls[j].decision.request == id
      ensures !Holding(s.calls[j].pc) || !Holding(after.calls[k].pc)
    {
      if CanClaim(s.requests, s.calls[k].decision) {
        PendingIsFree(s, id, j);
      }
    }
  }

  lemma ActionKeepsInv(s: State, action: Action)
    requires Inv(s) && Allowed(s, action)
    ensures Inv(Do(s, action))
  {
    match action
    case Run(k, now, ok) =>
      StepKeepsConsistent(s, k, now, ok);
      StepKeepsHolders(s, k, now, ok);
      StepKeepsAlone(s, k, now, ok);
    case Create(id, _, _) =>
      forall j | j in s.calls ensures HolderFits(Do(s, action), s.calls[j]) {
        assert HolderFits(s, s.calls[j]);
      }
    case Begin(k, _) =>
      forall j | j in s.calls ensures HolderFits(Do(s, action), s.calls[j]) {
        assert HolderFits(s, s.calls[j]);
      }
    case Stop(k) =>
      forall j | j in s.calls ensures HolderFits(Do(s, action), Do(s, action).calls[j]) {
        assert HolderFits(s, s.calls[j]);
      }
  }

  /**
   * In every interleaving, a request is pending exactly when its processed fields are empty, compensation
   * included.
   */
  lemma {:induction false} EveryRunKeepsInv(start: State, actions: seq<Action>)
    requires Initial(start) && ValidRun(start, actions)
    ensures Inv(After(start, actions))
  {
    if |actions| > 0 {
      EveryRunKeepsInv(start, actions[..|actions| - 1]);
      ActionKeepsInv(After(start, actions[..|actions| - 1]), actions[|actions| - 1]);
    }
  }

  // --- Success is unique and final -----------------------------------------------------------------

  /** At most one decision on a request ever succeeds. */
  lemma AtMostOneSucceeds(start: State, actions: seq<Action>, j: CallId, k: CallId)
    requires Initial(start) && ValidRun(start, actions)
    requires j in After(start, actions).calls && After(start, actions).calls[j].pc.Succeeded?
    requires k in After(start, actions).calls && After(start, actions).calls[k].pc.Succeeded?
    requires After(start, actions).calls[j].decision.request == After(start, actions).calls[k].decision.request
    ensures j == k
  {
    EveryRunKeepsInv(start, actions);
  }

  /** An accepted success means that the ban step ran, and nothing here lifts a ban. */
  lemma AcceptedSuccessBanned(start: State, actions: seq<Action>, k: CallId)
    requires Initial(start) && ValidRun(start, actions)
    requires k in After(start, actions).calls && After(start, actions).calls[k].pc.Succeeded?
    requires After(start, actions).calls[k].decision.accept
    ensures var s := After(start, actions);
            var id := s.calls[k].decision.request;
            s.calls[k].banned && id in s.requests && s.requests[id].client in s.bannedUsers
  {
    EveryRunKeepsInv(start, actions);
    assert HolderFits(After(start, actions), After(start, actions).calls[k]);
  }

  lemma SuccessStays(s: State, action: Action, k: CallId)
    requires Inv(s) && Allowed(s, action) && k in s.calls && s.calls[k].pc.Succeeded?
    ensures k in Do(s, action).calls && Do(s, action).calls[k] == s.calls[k]
    ensures s.calls[k].decision.request in s.requests
    ensures var id := s.calls[k].decision.request;
            id in Do(s, action).requests && Do(s, action).requests[id] == s.requests[id]
  {
    assert HolderFits(s, s.calls[k]);
    if action.Run? {
      assert HolderFits(s, s.calls[action.call]);
    }
  }

  /** Once a decision has succeeded, its request never changes again. */
  lemma {:induction false} SuccessIsFinal(start: State, actions: seq<Action>, n: nat, k: CallId)
    requires Initial(start) && ValidRun(start, actions) && n <= |actions| && ValidRun(start, actions[..n])
    requires k in After(start, actions[..n]).calls && After(start, actions[..n]).calls[k].pc.Succeeded?
    ensures var was, now := After(start, actions[..n]), After(start, actions);
            var decision := was.calls[k].decision;
            k in now.calls && now.calls[k] == was.calls[k] &&
            decision.request in was.requests && decision.request in now.requests &&
            now.requests[decision.request] == was.requests[decision.request] &&
            now.requests[decision.request].status == StatusOf(decision) &&
            now.requests[decision.request].processedBy == Some(decision.actor) &&
            now.requests[decision.request].comment == decision.comment
  {
    EveryRunKeepsInv(start, actions[..n]);
    assert HolderFits(After(start, actions[..n]), After(start, actions[..n]).calls[k]);
    if n == |actions| {
      assert actions[..n] == actions;
    } else {
      var earlier := actions[..|actions| - 1];
      assert earlier[..n] == actions[..n];
      SuccessIsFinal(start, earlier, n, k);
      EveryRunKeepsInv(start, earlier);
      SuccessStays(After(start, earlier), actions[|actions| - 1], k);
    }
  }

  // --- What a death or a late failure leaves ---------------------------------------------------------

  predicate AllEnded(s: State)
  {
    forall k :: k in s.calls ==> !Running(s.calls[k].pc)
  }

  /** Everyone banned was banned at the start or by the ban step of a decision on a request about them. */
  predicate BannedBySome(s: State, user: UserId)
  {
    exists k :: k in s.calls && s.calls[k].banned && About(s, s.calls[k], user)
  }

  lemma BannedBySomeStays(s: State, action: Action, user: UserId)
    requires Allowed(s, action) && BannedBySome(s, user)
    ensures BannedBySome(Do(s, action), user)
  {
    var k :| k in s.calls && s.calls[k].banned && About(s, s.calls[k], user);
    var after := Do(s, action);
    assert k in after.calls && after.calls[k].banned && after.calls[k].decision == s.calls[k].decision;
    assert About(after, after.calls[k], user);
  }

  lemma NewlyBanned(s: State, action: Action, user: UserId)
    requires Inv(s) && Allowed(s, action) && user in Do(s, action).bannedUsers && user !in s.bannedUsers
    ensures BannedBySome(Do(s, action), user)
  {
    assert action.Run? && s.calls[action.call].pc == Ban(user);
    assert HolderFits(s, s.calls[action.call]);
    var after := Do(s, action);
    assert after.calls[action.call].banned;
    assert About(after, after.calls[action.call], user);
  }

  /** The users banned are those of the start and the clients of the decisions whose ban step has run. */
  lemma {:induction false} BannedUsersIff(start: State, actions: seq<Action>, user: UserId)
    requires Initial(start) && ValidRun(start, actions)
    ensures var s := After(start, actions);
            user in s.bannedUsers <==> user in start.bannedUsers || BannedBySome(s, user)
  {
    EveryRunKeepsInv(start, actions);
    var s := After(start, actions);
    if BannedBySome(s, user) {
      var k :| k in s.calls && s.calls[k].banned && About(s, s.calls[k], user);
      assert HolderFits(s, s.calls[k]);
    }
    if |actions| > 0 {
      var earlier, last := After(start, actions[..|actions| - 1]), actions[|actions| - 1];
      EveryRunKeepsInv(start, actions[..|actions| - 1]);
      BannedUsersIff(start, actions[..|actions| - 1], user);
      if user in earlier.bannedUsers {
        if BannedBySome(earlier, user) {
          BannedBySomeStays(earlier, last, user);
        }
      } else if user in s.bannedUsers {
        NewlyBanned(earlier, last, user);
      }
    }
  }

  /** The decision is on a request about the user. */
  predicate About(s: State, call: Call, user: UserId)
  {
    call.decision.request in s.requests && s.requests[call.decision.request].client == user
  }

  /** It never claimed its request, or it stopped in the ban step or with that step failed. */
  predicate StoppedBeforeBan(pc: Pc)
  {
    var at := Reached(pc);
    at.Claim? || at.Explain? || at.Ban? || at == Compensate(true) ||
    (at.Failed? && at.error != DisconnectFailed)
  }

  /**
   * When no decision is under way, the client of an accepted request is not banned exactly when they were
   * not at the start and every accepting decision on any request about them never claimed it, or stopped
   * in the ban step or with that step failed.
   */
  lemma AcceptedIsUnappliedIff(start: State, actions: seq<Action>, id: RequestId)
    requires Initial(start) && ValidRun(start, actions) && AllEnded(After(start, actions))
    requires id in After(start, actions).requests && After(start, actions).requests[id].status.Accepted?
    ensures var s := After(start, actions);
            var user := s.requests[id].client;
            user !in s.bannedUsers <==>
            user !in start.bannedUsers &&
            forall k :: k in s.calls && s.calls[k].decision.accept && About(s, s.calls[k], user) ==>
              StoppedBeforeBan(s.calls[k].pc)
  {
    var s := After(start, actions);
    var user := s.requests[id].client;
    EveryRunKeepsInv(start, actions);
    BannedUsersIff(start, actions, user);
    forall k | k in s.calls && About(s, s.calls[k], user)
      ensures s.calls[k].banned <==> s.calls[k].decision.accept && !StoppedBeforeBan(s.calls[k].pc)
    {
      assert HolderFits(s, s.calls[k]);
    }
  }

  /** Compensation gives the request back but does not lift the ban when only the disconnection failed. */
  lemma CompensationKeepsBan(s: State, k: CallId, now: int)
    requires Inv(s) && k in s.calls && s.calls[k].pc.Disconnect?
    ensures var after := Step(Step(s, k, now, false), k, now, true);
            var id := s.calls[k].decision.request;
            id in after.requests && after.requests[id].status.Pending? &&
            after.requests[id].client in after.bannedUsers && after.calls[k].pc == Failed(DisconnectFailed)
  {
    assert HolderFits(s, s.calls[k]);
  }

  /** A decision that dies right after its claim leaves the request accepted and the client not banned. */
  lemma DeathCounterexample()
    ensures var start := State(map["r" := Request("client", "d", Pending, None, None, None)], {}, map[]);
            var begun := Do(start, Begin(0, Decision("r", "d", true, None)));
            var claimed := Do(begun, Run(0, 1, true));
            var after := Do(claimed, Stop(0));
            Initial(start) && AllEnded(after) && after.requests["r"].status.Accepted? && after.bannedUsers == {}
  {
  }

  // --- A decision that nobody disturbs -------------------------------------------------------------

  /** A run goes on with one more action. */
  lemma Then(start: State, actions: seq<Action>, action: Action) returns (more: seq<Action>)
    requires ValidRun(start, actions) && Allowed(After(start, actions), action)
    ensures ValidRun(start, more) && After(start, more) == Do(After(start, actions), action)
  {
    more := actions + [action];
    assert more[..|more| - 1] == actions;
  }

  /**
   * After any run, a decision that is taken without interruption ends as it does alone: each error on its own
   * condition, the request claimed, given back or left alone, and the client banned exactly when the ban went through.
   */
  lemma UndisturbedDecision(start: State, actions: seq<Action>, k: CallId, decision: Decision, now: int,
                            banOk: bool, disconnectOk: bool) returns (more: seq<Action>)
    requires ValidRun(start, actions) && k !in After(start, actions).calls
    ensures ValidRun(start, more)
    ensures var s, after, id := After(start, actions), After(start, more), decision.request;
            var there := id in s.requests;
            var open := there && s.requests[id].status.Pending?;
            var mine := open && s.requests[id].director == decision.actor;
            k in after.calls &&
            after.calls[k].pc == (if !there then Failed(NotFound)
                                  else if !open then Failed(AlreadyProcessed)
                                  else if !mine then Failed(NotAssignedDirector)
                                  else if decision.accept && !banOk then Failed(BanFailed)
                                  else if decision.accept && !disconnectOk then Failed(DisconnectFailed)
                                  else Succeeded) &&
            after.requests ==
              (if !mine then s.requests
               else s.requests[id :=
                 if after.calls[k].pc.Failed?
                 then Request(s.requests[id].client, decision.actor, Pending, None, None, None)
                 else Request(s.requests[id].client, decision.actor, if decision.accept then Accepted else Rejected,
                              Some(now), Some(decision.actor), decision.comment)]) &&
            after.bannedUsers ==
              s.bannedUsers + (if mine && decision.accept && banOk then {s.requests[id].client} else {})
  {
    hide ValidRun, After;
    more := Then(start, actions, Begin(k, decision));
    var mine := CanClaim(After(start, actions).requests, decision);
    more := Then(start, more, Run(k, now, true));
    if mine && decision.accept {
      more := Then(start, more, Run(k, now, banOk));
      if banOk {
        more := Then(start, more, Run(k, now, disconnectOk));
      }
    }
    more := Then(start, more, Run(k, now, true));
  }

  /** Requests are never removed, and new ones are pending. */
  lemma RequestsAfter(s: State, action: Action, id: RequestId)
    requires Allowed(s, action)
    ensures id in Do(s, action).requests <==> id in s.requests || (action.Create? && action.id == id)
    ensures action.Create? && action.id == id ==>
              Do(s, action).requests[id] == Request(action.client, action.director, Pending, None, None, None)
  {
  }
}
