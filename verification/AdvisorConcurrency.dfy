/**
 * `assignAdvisor` for many clients at once: each call looks for a link, counts and chooses, and links, and
 * other calls run between any two of these.
 */
module AdvisorConcurrency {

  import opened Sequences
  import opened Wrappers
  import L = LeastLoaded

  type CallId = nat

  datatype Pc =
    | Find
    | Count
    | Link(advisor: L.AdvisorId)
    | FindWinner
    | Done(answer: Option<L.AdvisorId>, added: bool)
    | Died

  datatype Call = Call(client: L.ClientId, pc: Pc)

  /** The active advisors and the known users do not change. */
  datatype State = State(
    links: L.Links, advisors: seq<L.AdvisorId>, known: set<string>, calls: map<CallId, Call>)

  datatype Action =
    | Begin(call: CallId, client: L.ClientId)
    | Run(call: CallId, random: real)
    | Stop(call: CallId)

  predicate Running(pc: Pc)
  {
    !pc.Done? && !pc.Died?
  }

  predicate Allowed(s: State, action: Action)
  {
    match action
    case Begin(k, _) => k !in s.calls
    case Run(k, _) => k in s.calls && Running(s.calls[k].pc)
    case Stop(k) => k in s.calls && Running(s.calls[k].pc)
  }

  function AdvisorOf(links: L.Links, client: L.ClientId): Option<L.AdvisorId>
  {
    if client in links then Some(links[client]) else None
  }

  function Candidates(links: L.Links, advisors: seq<L.AdvisorId>): (candidates: seq<L.Candidate>)
    ensures |candidates| == |advisors|
    ensures forall i :: 0 <= i < |advisors| ==> candidates[i] == L.Candidate(advisors[i], L.Load(links, advisors[i]))
  {
    if advisors == [] then []
    else [L.Candidate(advisors[0], L.Load(links, advisors[0]))] + Candidates(links, advisors[1..])
  }

  /** The repository refuses a link to oneself, to or from an unknown user, and for a linked client. */
  predicate CanLink(s: State, client: L.ClientId, advisor: L.AdvisorId)
  {
    advisor != client && advisor in s.known && client in s.known && client !in s.links
  }

  function NextPc(s: State, call: Call, random: real): Pc
  {
    match call.pc
    case Find =>
      var existing := AdvisorOf(s.links, call.client);
      if existing.Some? then Done(existing, false)
      else if s.advisors == [] then Done(None, false)
      else Count
    case Count =>
      (match L.PickLeastLoadedId(Candidates(s.links, s.advisors), random)
       case Some(advisor) => Link(advisor)
       case None => Done(None, false))
    case Link(advisor) => if CanLink(s, call.client, advisor) then Done(Some(advisor), true) else FindWinner
    case FindWinner => Done(AdvisorOf(s.links, call.client), false)
    case Done(_, _) => call.pc
    case Died => call.pc
  }

  /** This step links a client. */
  predicate Links(s: State, action: Action)
  {
    action.Run? && action.call in s.calls && s.calls[action.call].pc.Link? &&
    CanLink(s, s.calls[action.call].client, s.calls[action.call].pc.advisor)
  }

  function Do(s: State, action: Action): State
    requires Allowed(s, action)
  {
    match action
    case Begin(k, client) => s.(calls := s.calls[k := Call(client, Find)])
    case Run(k, random) =>
      var call := s.calls[k];
      s.(links := if Links(s, action) then s.links[call.client := call.pc.advisor] else s.links,
         calls := s.calls[k := call.(pc := NextPc(s, call, random))])
    case Stop(k) => s.(calls := s.calls[k := s.calls[k].(pc := Died)])
  }

  ghost predicate ValidRun(start: State, actions: seq<Action>)
    decreases |actions|, 0
  {
    |actions| == 0 || (ValidRun(start, Front(actions)) && Allowed(After(start, Front(actions)), Last(actions)))
  }

  ghost function After(start: State, actions: seq<Action>): State
    requires ValidRun(start, actions)
    decreases |actions|, 1
  {
    if |actions| == 0 then start else Do(After(start, Front(actions)), Last(actions))
  }

  /** Nothing is under way, and the advisors are listed once each. */
  predicate Initial(s: State)
  {
    s.calls == map[] && s.advisors != [] && L.Distinct(s.advisors)
  }

  // --- The links made --------------------------------------------------------------------------------

  function Logged(s: State, action: Action): seq<L.Assignment>
  {
    if Links(s, action) then [L.Assignment(s.calls[action.call].client, s.calls[action.call].pc.advisor)] else []
  }

  /** The links in the order in which they were made. */
  ghost function Log(start: State, actions: seq<Action>): seq<L.Assignment>
    requires ValidRun(start, actions)
  {
    if |actions| == 0 then []
    else Log(start, Front(actions)) + Logged(After(start, Front(actions)), Last(actions))
  }

  predicate ChoicesFit(s: State)
  {
    forall k :: k in s.calls && s.calls[k].pc.Link? ==> s.calls[k].pc.advisor in s.advisors
  }

  lemma PickFits(s: State, random: real, advisor: L.AdvisorId)
    requires L.PickLeastLoadedId(Candidates(s.links, s.advisors), random) == Some(advisor)
    ensures advisor in s.advisors && L.IsLeastLoaded(s.links, advisor, s.advisors)
  {
    hide L.Load, L.PickLeastLoadedId;
    var candidates := Candidates(s.links, s.advisors);
    forall a | a in s.advisors ensures L.Load(s.links, advisor) <= L.Load(s.links, a) {
      var i :| 0 <= i < |s.advisors| && s.advisors[i] == a;
      assert candidates[i] in candidates;
    }
  }

  lemma StepKeepsChoices(s: State, action: Action)
    requires ChoicesFit(s) && Allowed(s, action)
    ensures ChoicesFit(Do(s, action))
  {
    hide L.PickLeastLoadedId;
    if action.Run? && s.calls[action.call].pc.Count? {
      var picked := L.PickLeastLoadedId(Candidates(s.links, s.advisors), action.random);
      if picked.Some? {
        PickFits(s, action.random, picked.value);
      }
    }
  }

  lemma {:induction false} RunIsAssignments(start: State, actions: seq<Action>)
    requires Initial(start) && ValidRun(start, actions)
    ensures After(start, actions).advisors == start.advisors && ChoicesFit(After(start, actions))
    ensures L.ValidRun(start.links, Log(start, actions), start.advisors)
    ensures After(start, actions).links == L.After(start.links, Log(start, actions))
  {
    if |actions| > 0 {
      var s, last, log := After(start, Front(actions)), Last(actions), Log(start, Front(actions));
      RunIsAssignments(start, Front(actions));
      StepKeepsChoices(s, last);
      var longer := log + Logged(s, last);
      if Links(s, last) {
        assert longer[..|longer| - 1] == log;
      } else {
        assert longer == log;
      }
    }
  }

  predicate Added(call: Call)
  {
    call.pc.Done? && call.pc.added
  }

  /** Every answer is the link that the client has. */
  predicate AnswersFit(start: L.Links, s: State)
  {
    (forall c :: c in start ==> c in s.links) &&
    forall k :: k in s.calls && s.calls[k].pc.Done? ==>
      var Done(answer, added) := s.calls[k].pc;
      (added ==> answer.Some? && s.calls[k].client !in start) &&
      (answer.Some? ==> s.calls[k].client in s.links && s.links[s.calls[k].client] == answer.value)
  }

  /** No two calls are told that they linked the same client. */
  predicate AddedAlone(s: State)
  {
    forall j, k :: j in s.calls && k in s.calls && j != k && Added(s.calls[j]) && Added(s.calls[k]) ==>
      s.calls[j].client != s.calls[k].client
  }

  /** For every client linked since the start some call is told that it linked them. */
  predicate AddedCovers(start: L.Links, s: State)
  {
    forall c :: c in s.links && c !in start ==> exists k :: k in s.calls && Added(s.calls[k]) && s.calls[k].client == c
  }

  /**
   * In every interleaving each caller is told the advisor whom the client has, then and ever after; for every
   * client linked since the start exactly one call, and for no other client any, is told that it linked them.
   */
  lemma {:induction false} AnswersAreLinks(start: State, actions: seq<Action>)
    requires Initial(start) && ValidRun(start, actions)
    ensures var s := After(start, actions);
            AnswersFit(start.links, s) && AddedAlone(s) && AddedCovers(start.links, s)
  {
    hide AnswersFit, AddedAlone, AddedCovers, Do;
    if |actions| > 0 {
      AnswersAreLinks(start, Front(actions));
      ActionKeepsAnswers(start.links, After(start, Front(actions)), Last(actions));
      ActionKeepsCovers(start.links, After(start, Front(actions)), Last(actions));
    } else {
      NoAnswersYet(start);
    }
  }

  /** When a call finishes it is told the link that its client has, or that there is none; a link found ends it. */
  lemma AnswerIsCurrent(s: State, k: CallId, random: real)
    requires Allowed(s, Run(k, random)) && s.advisors != []
    ensures var call, after := s.calls[k], Do(s, Run(k, random));
            (after.calls[k].pc.Done? ==>
               after.calls[k].pc.answer ==
               if call.client in after.links then Some(after.links[call.client]) else None) &&
            (call.pc.Find? && call.client in s.links ==> after.calls[k].pc.Done?) &&
            (call.pc.FindWinner? ==> after.calls[k].pc.Done?)
  {
    hide L.PickLeastLoadedId;
  }

  lemma NoAnswersYet(s: State)
    requires s.calls == map[]
    ensures AnswersFit(s.links, s) && AddedAlone(s) && AddedCovers(s.links, s)
  {
  }

  lemma ActionKeepsAnswers(start: L.Links, s: State, action: Action)
    requires AnswersFit(start, s) && AddedAlone(s) && Allowed(s, action)
    ensures AnswersFit(start, Do(s, action)) && AddedAlone(Do(s, action))
  {
    hide L.PickLeastLoadedId, Candidates;
  }

  lemma ActionKeepsCovers(start: L.Links, s: State, action: Action)
    requires AddedCovers(start, s) && Allowed(s, action)
    ensures AddedCovers(start, Do(s, action))
  {
    hide L.PickLeastLoadedId, Candidates;
    var after := Do(s, action);
    forall c | c in after.links && c !in start
      ensures exists k :: k in after.calls && Added(after.calls[k]) && after.calls[k].client == c
    {
      if c in s.links {
        var k :| k in s.calls && Added(s.calls[k]) && s.calls[k].client == c;
        assert k in after.calls && Added(after.calls[k]);
      } else {
        assert Added(after.calls[action.call]);
      }
    }
  }

  /**
   * In every interleaving the maximum load is the least possible for the clients linked exactly when each
   * link was to an advisor who had fewer clients than that at that moment.
   */
  lemma BalancedIff(start: State, actions: seq<Action>)
    requires Initial(start) && ValidRun(start, actions)
    ensures var log := Log(start, actions);
            var best := L.BestMax(start.links, start.advisors, |log|);
            L.MaxLoad(After(start, actions).links, start.advisors) == best <==> L.AllUnder(start.links, log, best)
  {
    RunIsAssignments(start, actions);
    L.OptimalIff(start.links, Log(start, actions), start.advisors);
  }

  // --- How far overlapping calls can miss it ---------------------------------------------------------

  /** Calls between their count and their link. */
  function Choosing(s: State): set<CallId>
  {
    set k | k in s.calls && s.calls[k].pc.Link?
  }

  function ChoosingOf(s: State, advisor: L.AdvisorId): set<CallId>
  {
    set k | k in s.calls && s.calls[k].pc == Link(advisor)
  }

  ghost predicate AtMostChoosing(start: State, actions: seq<Action>, c: nat)
    requires ValidRun(start, actions)
  {
    |Choosing(After(start, actions))| <= c && (|actions| > 0 ==> AtMostChoosing(start, Front(actions), c))
  }

  /** Clients linked and about to be linked stay near the best maximum for one client more. */
  predicate Near(s: State, a: L.AdvisorId, start: L.Links, m: nat, c: nat)
    requires s.advisors != []
  {
    L.Load(s.links, a) <= L.BestMax(start, s.advisors, m) + c - 1 &&
    L.Load(s.links, a) + |ChoosingOf(s, a)| <= L.BestMax(start, s.advisors, m + 1) + c - 1
  }

  lemma BestMaxGrows(start: L.Links, advisors: seq<L.AdvisorId>, m: nat)
    requires advisors != []
    ensures L.BestMax(start, advisors, m) <= L.BestMax(start, advisors, m + 1)
  {
    hide L.MaxLoad, L.TotalLoad, L.CeilDiv;
    L.CeilDivGrows(L.TotalLoad(start, advisors) + m, |advisors|);
  }

  lemma FewerChoosing(s: State, a: L.AdvisorId)
    ensures |ChoosingOf(s, a)| <= |Choosing(s)|
  {
    assert |Choosing(s) - ChoosingOf(s, a)| == |Choosing(s)| - |ChoosingOf(s, a)|;
  }

  /** A call that has just chosen an advisor saw them under the best maximum. */
  lemma ChoiceIsNear(s: State, a: L.AdvisorId, start: L.Links, m: nat, c: nat)
    requires s.advisors != [] && L.IsLeastLoaded(s.links, a, s.advisors)
    requires L.TotalLoad(s.links, s.advisors) == L.TotalLoad(start, s.advisors) + m
    requires |ChoosingOf(s, a)| < c
    ensures L.Load(s.links, a) + |ChoosingOf(s, a)| + 1 <= L.BestMax(start, s.advisors, m + 1) + c - 1
  {
    hide L.Load, L.TotalLoad, L.MaxLoad, L.CeilDiv, ChoosingOf;
    L.NewLoadIsLow(s.links, s.advisors, a);
  }

  /** This step chooses the advisor. */
  predicate Chooses(s: State, action: Action, a: L.AdvisorId)
  {
    action.Run? && action.call in s.calls && s.calls[action.call].pc.Count? &&
    L.PickLeastLoadedId(Candidates(s.links, s.advisors), action.random) == Some(a)
  }

  predicate LinksTo(s: State, action: Action, a: L.AdvisorId)
  {
    Links(s, action) && s.calls[action.call].pc.advisor == a
  }

  lemma ChoosingAfter(s: State, action: Action, a: L.AdvisorId)
    requires Allowed(s, action)
    ensures |ChoosingOf(Do(s, action), a)| + One(LinksTo(s, action, a)) <=
            |ChoosingOf(s, a)| + One(Chooses(s, action, a))
  {
    hide L.PickLeastLoadedId, CanLink, Candidates, ChoosingOf;
    var after := Do(s, action);
    ChoosingOfOthers(s, after, action.call, a);
  }

  /** Only the call that steps can start or stop choosing. */
  lemma ChoosingOfOthers(s: State, after: State, k: CallId, a: L.AdvisorId)
    requires k in after.calls && after.calls == s.calls[k := after.calls[k]]
    ensures |ChoosingOf(after, a)| ==
            |ChoosingOf(s, a)| - One(k in s.calls && s.calls[k].pc == Link(a)) + One(after.calls[k].pc == Link(a))
  {
    var before, now := ChoosingOf(s, a), ChoosingOf(after, a);
    assert forall j :: j != k ==> (j in before <==> j in now);
    assert before - {k} == now - {k};
    assert |before - {k}| == |before| - One(k in before);
    assert |now - {k}| == |now| - One(k in now);
  }

  lemma LoadAfterStep(s: State, action: Action, a: L.AdvisorId)
    requires Allowed(s, action)
    ensures L.Load(Do(s, action).links, a) == L.Load(s.links, a) + One(LinksTo(s, action, a))
  {
    hide L.Load;
    if Links(s, action) {
      L.LoadAfter(s.links, s.calls[action.call].client, s.calls[action.call].pc.advisor, a);
    }
  }

  lemma ChosenIsNear(s: State, action: Action, a: L.AdvisorId, start: L.Links, m: nat, c: nat)
    requires Allowed(s, action) && s.advisors != [] && Chooses(s, action, a) && |Choosing(Do(s, action))| <= c
    requires L.TotalLoad(s.links, s.advisors) == L.TotalLoad(start, s.advisors) + m
    ensures L.Load(s.links, a) + |ChoosingOf(s, a)| + 1 <= L.BestMax(start, s.advisors, m + 1) + c - 1
  {
    hide L.Load, L.TotalLoad, L.BestMax, L.PickLeastLoadedId;
    PickFits(s, action.random, a);
    FewerChoosing(Do(s, action), a);
    assert ChoosingOf(Do(s, action), a) == ChoosingOf(s, a) + {action.call};
    ChoiceIsNear(s, a, start, m, c);
  }

  lemma StepKeepsNear(s: State, action: Action, a: L.AdvisorId, start: L.Links, m: nat, c: nat)
    requires Allowed(s, action) && s.advisors != [] && Near(s, a, start, m, c)
    requires L.TotalLoad(s.links, s.advisors) == L.TotalLoad(start, s.advisors) + m
    requires |Choosing(Do(s, action))| <= c
    ensures Near(Do(s, action), a, start, m + |Logged(s, action)|, c)
  {
    hide L.Load, L.TotalLoad, L.BestMax, L.PickLeastLoadedId, ChoosingOf, Choosing, Allowed;
    BestMaxGrows(start, s.advisors, m);
    BestMaxGrows(start, s.advisors, m + 1);
    ChoosingAfter(s, action, a);
    LoadAfterStep(s, action, a);
    if Chooses(s, action, a) {
      ChosenIsNear(s, action, a, start, m, c);
    }
  }

  lemma StartIsNear(start: State, a: L.AdvisorId, c: nat)
    requires Initial(start) && a in start.advisors && c > 0
    ensures Near(start, a, start.links, 0, c)
  {
    hide L.Load, L.TotalLoad, L.MaxLoad, L.CeilDiv;
    assert ChoosingOf(start, a) == {};
    BestMaxGrows(start.links, start.advisors, 0);
  }

  lemma {:induction false} RunStaysNear(start: State, actions: seq<Action>, c: nat, a: L.AdvisorId)
    requires Initial(start) && ValidRun(start, actions) && AtMostChoosing(start, actions, c)
    requires a in start.advisors && c > 0
    ensures After(start, actions).advisors == start.advisors
    ensures Near(After(start, actions), a, start.links, |Log(start, actions)|, c)
  {
    hide Near, Do, Links, L.TotalLoad, L.ValidRun, L.Distinct;
    RunIsAssignments(start, actions);
    if |actions| == 0 {
      StartIsNear(start, a, c);
    } else {
      RunStaysNear(start, Front(actions), c, a);
      RunIsAssignments(start, Front(actions));
      L.TotalOfRun(start.links, Log(start, Front(actions)), start.advisors);
      StepKeepsNear(After(start, Front(actions)), Last(actions), a, start.links, |Log(start, Front(actions))|, c);
    }
  }

  /**
   * In every interleaving with at most `c` calls between their count and their link at a time, the maximum
   * load is less than `c` above the least possible; one at a time reach the least possible.
   */
  lemma OverlapCostsLessThan(start: State, actions: seq<Action>, c: nat)
    requires Initial(start) && ValidRun(start, actions) && AtMostChoosing(start, actions, c) && c > 0
    ensures var best := L.BestMax(start.links, start.advisors, |Log(start, actions)|);
            best <= L.MaxLoad(After(start, actions).links, start.advisors) < best + c
  {
    hide L.Load, L.TotalLoad, L.CeilDiv;
    RunIsAssignments(start, actions);
    L.NoRunBeats(start.links, Log(start, actions), start.advisors);
    var max := L.MaxLoad(After(start, actions).links, start.advisors);
    var a :| a in start.advisors && L.Load(After(start, actions).links, a) == max;
    RunStaysNear(start, actions, c, a);
  }

  // --- Two calls that count before either links ------------------------------------------------------

  const TWO_IDLE := State(map[], ["a", "b"], {"a", "b", "x", "y"}, map[])

  const BOTH_COUNTING := TWO_IDLE.(calls := map[0 := Call("x", Count), 1 := Call("y", Count)])

  const BOTH_CHOSE := TWO_IDLE.(calls := map[0 := Call("x", Link("a")), 1 := Call("y", Link("a"))])

  const BOTH_LINKED := TWO_IDLE.(
    links := map["x" := "a", "y" := "a"],
    calls := map[0 := Call("x", Done(Some("a"), true)), 1 := Call("y", Done(Some("a"), true))])

  lemma Extend(actions: seq<Action>, action: Action, next: State) returns (longer: seq<Action>)
    requires ValidRun(TWO_IDLE, actions) && Allowed(After(TWO_IDLE, actions), action)
    requires Do(After(TWO_IDLE, actions), action) == next
    ensures ValidRun(TWO_IDLE, longer) && After(TWO_IDLE, longer) == next
    ensures |Log(TWO_IDLE, longer)| == |Log(TWO_IDLE, actions)| + |Logged(After(TWO_IDLE, actions), action)|
  {
    longer := actions + [action];
    assert Front(longer) == actions;
  }

  lemma BothCount() returns (actions: seq<Action>)
    ensures ValidRun(TWO_IDLE, actions) && After(TWO_IDLE, actions) == BOTH_COUNTING && Log(TWO_IDLE, actions) == []
  {
    hide L.PickLeastLoadedId;
    actions := [];
    actions := Extend(actions, Begin(0, "x"), TWO_IDLE.(calls := map[0 := Call("x", Find)]));
    actions := Extend(actions, Run(0, 0.0), TWO_IDLE.(calls := map[0 := Call("x", Count)]));
    actions := Extend(actions, Begin(1, "y"), TWO_IDLE.(calls := map[0 := Call("x", Count), 1 := Call("y", Find)]));
    actions := Extend(actions, Run(1, 0.0), BOTH_COUNTING);
  }

  lemma FirstIsDrawn()
    ensures L.PickLeastLoadedId(Candidates(map[], ["a", "b"]), 0.0) == Some("a")
  {
    var none: L.Links := map[];
    assert L.ClientsOf(none, "a") == {} && L.ClientsOf(none, "b") == {};
    var candidates := Candidates(none, ["a", "b"]);
    assert candidates == [L.Candidate("a", 0), L.Candidate("b", 0)];
    assert candidates[0] in candidates && L.MinCount(candidates) == 0;
    assert L.WithCount(candidates, 0)[0] == L.Candidate("a", 0);
  }

  lemma BothChoose() returns (actions: seq<Action>)
    ensures ValidRun(TWO_IDLE, actions) && After(TWO_IDLE, actions) == BOTH_CHOSE && Log(TWO_IDLE, actions) == []
  {
    hide L.PickLeastLoadedId;
    actions := BothCount();
    FirstIsDrawn();
    var one := TWO_IDLE.(calls := map[0 := Call("x", Link("a")), 1 := Call("y", Count)]);
    actions := Extend(actions, Run(0, 0.0), one);
    actions := Extend(actions, Run(1, 0.0), BOTH_CHOSE);
  }

  const ONE_LINKED := TWO_IDLE.(
    links := map["x" := "a"], calls := map[0 := Call("x", Done(Some("a"), true)), 1 := Call("y", Link("a"))])

  lemma BothLink()
    ensures Allowed(BOTH_CHOSE, Run(0, 0.0)) && Do(BOTH_CHOSE, Run(0, 0.0)) == ONE_LINKED
    ensures Allowed(ONE_LINKED, Run(1, 0.0)) && Do(ONE_LINKED, Run(1, 0.0)) == BOTH_LINKED
    ensures |Logged(BOTH_CHOSE, Run(0, 0.0))| == |Logged(ONE_LINKED, Run(1, 0.0))| == 1
  {
  }

  /** Two calls that both count before either links give one advisor both clients. */
  lemma StaleCountsCounterexample() returns (actions: seq<Action>)
    ensures Initial(TWO_IDLE) && ValidRun(TWO_IDLE, actions) && After(TWO_IDLE, actions) == BOTH_LINKED
    ensures L.MaxLoad(After(TWO_IDLE, actions).links, TWO_IDLE.advisors) == 2
    ensures L.BestMax(TWO_IDLE.links, TWO_IDLE.advisors, |Log(TWO_IDLE, actions)|) == 1
  {
    hide L.MaxLoad, L.BestMax, Do, Logged, Allowed;
    actions := BothChoose();
    BothLink();
    actions := Extend(actions, Run(0, 0.0), ONE_LINKED);
    actions := Extend(actions, Run(1, 0.0), BOTH_LINKED);
    LoadsOfTwo();
  }

  lemma LoadsOfTwo()
    ensures L.MaxLoad(BOTH_LINKED.links, ["a", "b"]) == 2 && L.BestMax(map[], ["a", "b"], 2) == 1
  {
    var none: L.Links := map[];
    assert L.ClientsOf(none, "a") == {} && L.ClientsOf(none, "b") == {};
    assert L.ClientsOf(BOTH_LINKED.links, "a") == {"x", "y"} && L.ClientsOf(BOTH_LINKED.links, "b") == {};
    assert "x" != "y" && |{"x", "y"}| == 2;
    var advisors := ["a", "b"];
    assert advisors[0] in advisors && advisors[1..] == ["b"] && advisors[1..][1..] == [];
    assert L.TotalLoad(none, advisors) == 0;
    assert L.MaxLoad(none, advisors) == 0;
  }
}
