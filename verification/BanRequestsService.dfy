/** `BanRequestsService.decide` on its tables, for one decision at a time. */
module BanRequestsService {

  import opened Wrappers
  import opened BanRequests
  import Text

  datatype Answer = Success(status: Status) | Refused(error: Error)

  /** Giving a claimed request back restores it. */
  lemma ReleaseUndoesClaim(request: Request, decision: Decision, now: int)
    requires request.status.Pending? && Consistent(request)
    ensures Released(Claimed(request, decision, now)) == request
  {
  }

  class Service {
    var requests: map<RequestId, Request>
    var bannedUsers: set<UserId>

    constructor (requests: map<RequestId, Request>, bannedUsers: set<UserId>)
      ensures this.requests == requests && this.bannedUsers == bannedUsers
    {
      this.requests, this.bannedUsers := requests, bannedUsers;
    }

    /** The conditional update; None when it changes no row. */
    method ClaimRow(decision: Decision, now: int) returns (client: Option<UserId>)
      modifies this`requests
      ensures client.Some? <==> CanClaim(old(requests), decision)
      ensures client.None? ==> requests == old(requests)
      ensures client.Some? ==>
                client.value == old(requests)[decision.request].client &&
                requests == old(requests)[decision.request := Claimed(old(requests)[decision.request], decision, now)]
      ensures client.Some? <==>
                decision.request in old(requests) && old(requests)[decision.request].status.Pending? &&
                old(requests)[decision.request].director == decision.actor
      ensures client.Some? ==>
                requests == old(requests)[decision.request :=
                  Request(client.value, decision.actor, if decision.accept then Accepted else Rejected,
                          Some(now), Some(decision.actor), decision.comment)]
    {
      var id := decision.request;
      if id in requests && requests[id].status.Pending? && requests[id].director == decision.actor {
        requests := requests[id := Claimed(requests[id], decision, now)];
        return Some(requests[id].client);
      }
      return None;
    }

    method ReleaseRow(id: RequestId)
      modifies this`requests
      ensures requests ==
              if id in old(requests) then old(requests)[id := Released(old(requests)[id])] else old(requests)
      ensures id in old(requests) ==>
                requests[id] == Request(old(requests)[id].client, old(requests)[id].director, Pending, None, None, None)
    {
      if id in requests {
        requests := requests[id := Released(requests[id])];
      }
    }

    /** `banOk` and `disconnectOk` are what banning and disconnecting the client answer. */
    method Decide(id: RequestId, actor: UserId, accept: bool, comment: string, now: int,
                  banOk: bool, disconnectOk: bool)
      returns (answer: Answer)
      requires forall r :: r in requests ==> Consistent(requests[r])
      modifies this
      ensures forall r :: r in requests ==> Consistent(requests[r])
      ensures var trimmed := Text.Trim(comment);
              var decision := Decision(id, actor, accept, if trimmed == "" then None else Some(trimmed));
              (answer.Success? <==> CanClaim(old(requests), decision) && (accept ==> banOk && disconnectOk)) &&
              (answer.Success? ==>
                 answer.status == StatusOf(decision) &&
                 requests == old(requests)[id := Claimed(old(requests)[id], decision, now)]) &&
              (answer.Refused? ==>
                 requests == old(requests) &&
                 answer.error == if !CanClaim(old(requests), decision) then Reason(old(requests), decision)
                                 else if banOk then DisconnectFailed else BanFailed) &&
              bannedUsers == if CanClaim(old(requests), decision) && accept && banOk
                             then old(bannedUsers) + {old(requests)[id].client} else old(bannedUsers)
      ensures var there := id in old(requests);
              var open := there && old(requests)[id].status.Pending?;
              var mine := open && old(requests)[id].director == actor;
              (answer == Refused(NotFound) <==> !there) &&
              (answer == Refused(AlreadyProcessed) <==> there && !open) &&
              (answer == Refused(NotAssignedDirector) <==> open && !mine) &&
              (answer == Refused(BanFailed) <==> mine && accept && !banOk) &&
              (answer == Refused(DisconnectFailed) <==> mine && accept && banOk && !disconnectOk) &&
              (answer == Success(Accepted) <==> mine && accept && banOk && disconnectOk) &&
              (answer == Success(Rejected) <==> mine && !accept) &&
              (answer.Success? ==>
                 requests == old(requests)[id :=
                   Request(old(requests)[id].client, actor, answer.status, Some(now), Some(actor),
                           if Text.Trim(comment) == "" then None else Some(Text.Trim(comment)))])
    {
      var trimmed := Text.Trim(comment);
      var decision := Decision(id, actor, accept, if trimmed == "" then None else Some(trimmed));
      var claimed := ClaimRow(decision, now);
      if claimed.None? {
        if id !in requests {
          return Refused(NotFound);
        }
        if !requests[id].status.Pending? {
          return Refused(AlreadyProcessed);
        }
        return Refused(NotAssignedDirector);
      }
      ghost var was := old(requests)[id];
      ReleaseUndoesClaim(was, decision, now);
      if accept {
        if banOk {
          bannedUsers := bannedUsers + {claimed.value};
        }
        if !banOk || !disconnectOk {
          ReleaseRow(id);
          assert requests == old(requests)[id := was] == old(requests);
          return Refused(if banOk then DisconnectFailed else BanFailed);
        }
      }
      return Success(StatusOf(decision));
    }
  }
}
