/** `InitializeClientUseCase.assignAdvisor` over the table of links between advisors and clients. */
module AdvisorAssignment {

  import opened Wrappers
  import opened LeastLoaded

  datatype User = User(id: string, isAdvisor: bool, isBanned: bool)

  const MAX_ADVISORS := 500

  /** The active ones among the users listed. */
  function ActiveAdvisors(users: seq<User>): (ids: seq<AdvisorId>)
    ensures |ids| <= |users|
  {
    if users == [] then []
    else
      var last := users[|users| - 1];
      ActiveAdvisors(users[..|users| - 1]) + if last.isAdvisor && !last.isBanned then [last.id] else []
  }

  predicate HasActive(users: seq<User>, id: string)
  {
    exists u :: u in users && u.id == id && u.isAdvisor && !u.isBanned
  }

  lemma {:induction false} ActiveIff(users: seq<User>, id: string)
    ensures id in ActiveAdvisors(users) <==> HasActive(users, id)
  {
    if users != [] {
      var last := users[|users| - 1];
      ActiveIff(users[..|users| - 1], id);
      assert users == users[..|users| - 1] + [last];
    }
  }

  function Listed(users: seq<User>, limit: nat): seq<User>
  {
    if |users| <= limit then users else users[..limit]
  }

  predicate DistinctIds(users: seq<User>)
  {
    forall i, j :: 0 <= i < j < |users| ==> users[i].id != users[j].id
  }

  lemma {:induction false} AdvisorsAreDistinct(users: seq<User>)
    requires DistinctIds(users)
    ensures Distinct(ActiveAdvisors(users))
  {
    if users != [] {
      var earlier, last := users[..|users| - 1], users[|users| - 1];
      AdvisorsAreDistinct(earlier);
      ActiveIff(earlier, last.id);
      assert last.id !in ActiveAdvisors(earlier);
    }
  }

  /** A row with its load for each of the advisors that has clients. */
  ghost predicate RowsFit(rows: map<AdvisorId, nat>, links: Links, ids: seq<AdvisorId>)
  {
    (forall a :: a in rows <==> a in ids && Load(links, a) > 0) &&
    (forall a :: a in rows ==> rows[a] == Load(links, a))
  }

  lemma CountOne(rows: map<AdvisorId, nat>, links: Links, ids: seq<AdvisorId>, c: ClientId, a: AdvisorId)
    requires RowsFit(rows, links, ids) && c !in links
    ensures RowsFit(if a in ids then rows[a := if a in rows then rows[a] + 1 else 1] else rows, links[c := a], ids)
  {
    hide Load;
    forall b {
      LoadAfter(links, c, a, b);
    }
  }

  class Onboarding {
    var links: Links
    const users: seq<User>

    constructor (links: Links, users: seq<User>)
      ensures this.links == links && this.users == users
    {
      this.links, this.users := links, users;
    }

    ghost function Candidates(): seq<AdvisorId>
    {
      ActiveAdvisors(Listed(users, MAX_ADVISORS))
    }

    predicate Known(id: string)
    {
      exists u :: u in users && u.id == id
    }

    method FindAdvisorOf(client: ClientId) returns (advisor: Option<AdvisorId>)
      ensures advisor == if client in links then Some(links[client]) else None
    {
      return if client in links then Some(links[client]) else None;
    }

    /** A count for every id asked for, 0 included. */
    method CountByAdvisorIds(ids: seq<AdvisorId>) returns (counts: map<AdvisorId, nat>)
      ensures forall a :: a in counts <==> a in ids
      ensures forall a :: a in counts ==> counts[a] == Load(links, a)
    {
      counts := map[];
      for i := 0 to |ids|
        invariant forall a :: a in counts <==> a in ids[..i]
        invariant forall a :: a in counts ==> counts[a] == 0
      {
        counts := counts[ids[i] := 0];
      }
      if |ids| == 0 {
        return;
      }
      var rows := GroupByAdvisor(ids);
      var rest := rows.Keys;
      while rest != {}
        invariant rest <= rows.Keys
        invariant forall a :: a in counts <==> a in ids
        invariant forall a :: a in counts ==> counts[a] == if a in rows && a !in rest then rows[a] else 0
        decreases rest
      {
        var a :| a in rest;
        counts := counts[a := rows[a]];
        rest := rest - {a};
      }
    }

    /** The grouped query: a row for each of the advisors that has clients. */
    method GroupByAdvisor(ids: seq<AdvisorId>) returns (rows: map<AdvisorId, nat>)
      ensures RowsFit(rows, links, ids)
    {
      rows := map[];
      ghost var seen: Links := map[];
      assert RowsFit(rows, seen, ids) by {
        assert forall a :: ClientsOf(seen, a) == {};
      }
      hide RowsFit;
      var rest := links.Keys;
      while rest != {}
        invariant rest <= links.Keys && seen == links - rest
        invariant RowsFit(rows, seen, ids)
        decreases rest
      {
        var c :| c in rest;
        rest := rest - {c};
        var a := links[c];
        CountOne(rows, seen, ids, c, a);
        if a in ids {
          rows := rows[a := if a in rows then rows[a] + 1 else 1];
        }
        seen := seen[c := a];
      }
      assert seen == links;
    }

    /** False where the source throws: the same user, an unknown one, or a client who has an advisor. */
    method Link(advisor: AdvisorId, client: ClientId) returns (linked: bool)
      modifies this
      ensures linked <==>
                advisor != client && client !in old(links) &&
                (exists u :: u in users && u.id == advisor) && (exists u :: u in users && u.id == client)
      ensures links == if linked then old(links)[client := advisor] else old(links)
    {
      if advisor == client {
        return false;
      }
      if !Known(advisor) || !Known(client) {
        return false;
      }
      if client in links {
        return false;
      }
      links := links[client := advisor];
      return true;
    }

    /** The candidates are the active advisors among the first 500 users. */
    lemma CandidatesAreActive()
      ensures forall i :: 0 <= i < |users| && i < 500 && users[i].isAdvisor && !users[i].isBanned ==>
                users[i].id in Candidates()
      ensures forall a :: a in Candidates() ==>
                exists i :: 0 <= i < |users| && i < 500 && users[i].id == a && users[i].isAdvisor && !users[i].isBanned
    {
      var listed := Listed(users, MAX_ADVISORS);
      forall i | 0 <= i < |users| && i < 500 && users[i].isAdvisor && !users[i].isBanned
        ensures users[i].id in Candidates()
      {
        assert listed[i] == users[i] && users[i] in listed;
        ActiveIff(listed, users[i].id);
      }
      forall a | a in Candidates()
        ensures exists i :: 0 <= i < |users| && i < 500 && users[i].id == a && users[i].isAdvisor && !users[i].isBanned
      {
        ActiveIff(listed, a);
        var u :| u in listed && u.id == a && u.isAdvisor && !u.isBanned;
        var i :| 0 <= i < |listed| && listed[i] == u;
        assert users[i] == u;
      }
    }

    /** A least loaded active advisor, if there is any, for every random number. */
    method Choose(random: real) returns (chosen: Option<AdvisorId>)
      ensures chosen.None? <==> Candidates() == []
      ensures chosen.Some? ==>
                chosen.value in Candidates() && IsLeastLoaded(links, chosen.value, Candidates())
      ensures chosen.None? <==> forall i :: 0 <= i < |users| && i < 500 ==> !users[i].isAdvisor || users[i].isBanned
      ensures chosen.Some? ==>
                (exists i :: 0 <= i < |users| && i < 500 && users[i].id == chosen.value &&
                             users[i].isAdvisor && !users[i].isBanned) &&
                (forall i :: 0 <= i < |users| && i < 500 && users[i].isAdvisor && !users[i].isBanned ==>
                   Load(links, chosen.value) <= Load(links, users[i].id))
    {
      hide Load, ActiveAdvisors, PickLeastLoadedId;
      CandidatesAreActive();
      var listed := Listed(users, MAX_ADVISORS);
      var advisors := ActiveAdvisors(listed);
      if |advisors| == 0 {
        return None;
      }
      var counts := CountByAdvisorIds(advisors);
      var candidates := seq(|advisors|, i requires 0 <= i < |advisors| =>
        Candidate(advisors[i], if advisors[i] in counts then counts[advisors[i]] else 0));
      assert forall i :: 0 <= i < |advisors| ==> candidates[i] == Candidate(advisors[i], Load(links, advisors[i]));
      chosen := PickLeastLoadedId(candidates, random);
      if chosen.Some? {
        forall a | a in advisors ensures Load(links, chosen.value) <= Load(links, a) {
          var i :| 0 <= i < |advisors| && advisors[i] == a;
          assert candidates[i] in candidates;
        }
      }
    }

    /** A client keeps the advisor they have; a new one is given a least loaded active advisor. */
    method AssignAdvisor(client: ClientId, random: real) returns (advisorId: Option<AdvisorId>, added: bool)
      modifies this
      ensures client in old(links) ==> advisorId == Some(old(links)[client]) && !added
      ensures !added ==> links == old(links)
      ensures added ==>
                advisorId.Some? && Assigned(old(links), links, client, advisorId.value, Candidates()) &&
                IsLeastLoaded(old(links), advisorId.value, Candidates())
      ensures client !in old(links) && Known(client) && Candidates() != [] && client !in Candidates() ==> added
      ensures advisorId.Some? <==> client in links
      ensures advisorId.Some? ==> links[client] == advisorId.value
      ensures added ==> client !in old(links) && links == old(links)[client := advisorId.value]
      ensures added ==>
                (exists i :: 0 <= i < |users| && i < 500 && users[i].id == advisorId.value &&
                             users[i].isAdvisor && !users[i].isBanned) &&
                (forall i :: 0 <= i < |users| && i < 500 && users[i].isAdvisor && !users[i].isBanned ==>
                   Load(old(links), advisorId.value) <= Load(old(links), users[i].id))
    {
      hide Load, ActiveAdvisors;
      var existing := FindAdvisorOf(client);
      if existing.Some? {
        return existing, false;
      }
      var chosen := Choose(random);
      if chosen.None? {
        return None, false;
      }
      ActiveIff(Listed(users, MAX_ADVISORS), chosen.value);
      var linked := Link(chosen.value, client);
      if linked {
        return chosen, true;
      }
      var winner := FindAdvisorOf(client);
      return winner, false;
    }
  }
}
