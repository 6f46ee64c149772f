/** Choosing the least loaded candidate, and what a run of such choices does to the loads. */
module LeastLoaded {

  import opened Wrappers

  datatype Candidate = Candidate(id: string, count: nat)

  function MinCount(candidates: seq<Candidate>): (min: nat)
    requires candidates != []
    ensures forall c :: c in candidates ==> min <= c.count
    ensures exists c :: c in candidates && c.count == min
  {
    var first := candidates[0];
    assert first in candidates;
    if |candidates| == 1 then first.count
    else
      var rest := MinCount(candidates[1..]);
      assert forall c :: c in candidates ==> c == first || c in candidates[1..];
      assert exists c :: c in candidates[1..] && c.count == rest;
      if first.count < rest then first.count else rest
  }

  function WithCount(candidates: seq<Candidate>, count: nat): (chosen: seq<Candidate>)
    ensures forall c :: c in chosen <==> c in candidates && c.count == count
  {
    if candidates == [] then []
    else (if candidates[0].count == count then [candidates[0]] else []) + WithCount(candidates[1..], count)
  }

  /** `random` scaled to an index; the first candidate when it does not give one. */
  function Draw(candidates: seq<Candidate>, random: real): (chosen: Candidate)
    requires candidates != []
    ensures chosen in candidates
  {
    var index := (random * |candidates| as real).Floor;
    if 0 <= index < |candidates| then candidates[index] else candidates[0]
  }

  function PickLeastLoadedId(candidates: seq<Candidate>, random: real): (id: Option<string>)
    ensures id.None? <==> candidates == []
    ensures id.Some? ==> exists c :: c in candidates && c.id == id.value &&
                                     forall d :: d in candidates ==> c.count <= d.count
  {
    if candidates == [] then None
    else
      var least := WithCount(candidates, MinCount(candidates));
      var chosen := Draw(least, random);
      Some(chosen.id)
  }

  lemma DrawAny(candidates: seq<Candidate>, i: nat) returns (random: real)
    requires i < |candidates|
    ensures 0.0 <= random < 1.0 && Draw(candidates, random) == candidates[i]
  {
    random := Fraction(i, |candidates|);
  }

  lemma Fraction(i: nat, n: nat) returns (r: real)
    requires i < n
    ensures 0.0 <= r < 1.0 && r * n as real == i as real
  {
    r := i as real / n as real;
    assert r * n as real == i as real;
    AtLeastWhole(r, n as real);
  }

  lemma AtLeastWhole(r: real, n: real)
    requires n >= 0.0
    ensures r >= 1.0 ==> r * n >= n
  {
  }

  /** Every least loaded candidate is chosen by some random number. */
  lemma EveryTieCanWin(candidates: seq<Candidate>, c: Candidate) returns (random: real)
    requires c in candidates && forall d :: d in candidates ==> c.count <= d.count
    ensures 0.0 <= random < 1.0 && PickLeastLoadedId(candidates, random) == Some(c.id)
  {
    var least := WithCount(candidates, MinCount(candidates));
    assert c in least;
    var i :| 0 <= i < |least| && least[i] == c;
    random := DrawAny(least, i);
  }

  // --- Loads ---------------------------------------------------------------------------------------

  type ClientId = string
  type AdvisorId = string

  /** The advisor of each client: the unique index on the client. */
  type Links = map<ClientId, AdvisorId>

  function ClientsOf(links: Links, advisor: AdvisorId): set<ClientId>
  {
    set c | c in links && links[c] == advisor
  }

  function Load(links: Links, advisor: AdvisorId): nat
  {
    |ClientsOf(links, advisor)|
  }

  lemma LoadAfter(links: Links, client: ClientId, advisor: AdvisorId, other: AdvisorId)
    requires client !in links
    ensures Load(links[client := advisor], other) == Load(links, other) + if other == advisor then 1 else 0
  {
    var after := links[client := advisor];
    assert ClientsOf(after, other) == ClientsOf(links, other) + if other == advisor then {client} else {};
  }

  function TotalLoad(links: Links, advisors: seq<AdvisorId>): nat
  {
    if advisors == [] then 0 else Load(links, advisors[0]) + TotalLoad(links, advisors[1..])
  }

  function MaxLoad(links: Links, advisors: seq<AdvisorId>): (max: nat)
    requires advisors != []
    ensures forall a :: a in advisors ==> Load(links, a) <= max
    ensures exists a :: a in advisors && Load(links, a) == max
  {
    var first := advisors[0];
    assert first in advisors;
    if |advisors| == 1 then Load(links, first)
    else
      var rest := MaxLoad(links, advisors[1..]);
      assert forall a :: a in advisors ==> a == first || a in advisors[1..];
      assert exists a :: a in advisors[1..] && Load(links, a) == rest;
      if Load(links, first) > rest then Load(links, first) else rest
  }

  predicate Distinct(advisors: seq<AdvisorId>)
  {
    forall i, j :: 0 <= i < j < |advisors| ==> advisors[i] != advisors[j]
  }

  lemma {:induction false} TotalAfter(links: Links, client: ClientId, advisor: AdvisorId, advisors: seq<AdvisorId>)
    requires client !in links && Distinct(advisors)
    ensures TotalLoad(links[client := advisor], advisors) ==
            TotalLoad(links, advisors) + if advisor in advisors then 1 else 0
  {
    if advisors != [] {
      LoadAfter(links, client, advisor, advisors[0]);
      TotalAfter(links, client, advisor, advisors[1..]);
      assert advisor in advisors <==> advisor == advisors[0] || advisor in advisors[1..];
    }
  }

  lemma Times(n: nat, k: int)
    requires n > 0
    ensures n * k == k + (n - 1) * k
  {
  }

  /** Bounds on every load bound the total. */
  lemma {:induction false} TotalBounds(links: Links, advisors: seq<AdvisorId>, low: nat, high: nat)
    requires forall a :: a in advisors ==> low <= Load(links, a) <= high
    ensures |advisors| * low <= TotalLoad(links, advisors) <= |advisors| * high
  {
    hide Load;
    if advisors != [] {
      assert advisors[0] in advisors;
      TotalBounds(links, advisors[1..], low, high);
      Times(|advisors|, low);
      Times(|advisors|, high);
    }
  }

  function CeilDiv(total: nat, n: nat): nat
    requires n > 0
  {
    (total + n - 1) / n
  }

  lemma CeilDivIff(total: nat, n: nat, k: nat)
    requires n > 0
    ensures total <= n * k <==> CeilDiv(total, n) <= k
  {
    var q, r := (total + n - 1) / n, (total + n - 1) % n;
    assert total + n - 1 == n * q + r;
    if q <= k {
      assert n * q <= n * k;
    } else {
      assert n * (k + 1) <= n * q;
    }
  }

  // --- Runs ----------------------------------------------------------------------------------------

  /** A client without an advisor is given one of the advisors. */
  predicate Assigned(before: Links, after: Links, client: ClientId, advisor: AdvisorId, advisors: seq<AdvisorId>)
  {
    client !in before && advisor in advisors && after == before[client := advisor]
  }

  predicate IsLeastLoaded(links: Links, advisor: AdvisorId, advisors: seq<AdvisorId>)
  {
    forall a :: a in advisors ==> Load(links, advisor) <= Load(links, a)
  }

  datatype Assignment = Assignment(client: ClientId, advisor: AdvisorId)

  function After(start: Links, run: seq<Assignment>): Links
  {
    if run == [] then start
    else
      var last := run[|run| - 1];
      After(start, run[..|run| - 1])[last.client := last.advisor]
  }

  /** Assignments one after another, each of a client who has no advisor yet. */
  predicate ValidRun(start: Links, run: seq<Assignment>, advisors: seq<AdvisorId>)
  {
    run != [] ==>
      var earlier, last := run[..|run| - 1], run[|run| - 1];
      ValidRun(start, earlier, advisors) && last.advisor in advisors && last.client !in After(start, earlier)
  }

  /** Each one goes to a least loaded advisor, whichever of those it is. */
  predicate Greedy(start: Links, run: seq<Assignment>, advisors: seq<AdvisorId>)
  {
    run != [] ==>
      var earlier, last := run[..|run| - 1], run[|run| - 1];
      Greedy(start, earlier, advisors) && IsLeastLoaded(After(start, earlier), last.advisor, advisors)
  }

  lemma {:induction false} TotalOfRun(start: Links, run: seq<Assignment>, advisors: seq<AdvisorId>)
    requires Distinct(advisors) && ValidRun(start, run, advisors)
    ensures TotalLoad(After(start, run), advisors) == TotalLoad(start, advisors) + |run|
  {
    if run != [] {
      var earlier, last := run[..|run| - 1], run[|run| - 1];
      TotalOfRun(start, earlier, advisors);
      TotalAfter(After(start, earlier), last.client, last.advisor, advisors);
    }
  }

  lemma {:induction false} LoadsGrow(start: Links, run: seq<Assignment>, advisors: seq<AdvisorId>, a: AdvisorId)
    requires ValidRun(start, run, advisors)
    ensures Load(start, a) <= Load(After(start, run), a)
  {
    if run != [] {
      var earlier, last := run[..|run| - 1], run[|run| - 1];
      LoadsGrow(start, earlier, advisors, a);
      LoadAfter(After(start, earlier), last.client, last.advisor, a);
    }
  }

  function Max(a: nat, b: nat): nat
  {
    if a < b then b else a
  }

  /** The least maximum possible: the start's own, or an even spread of all clients. */
  function BestMax(start: Links, advisors: seq<AdvisorId>, m: nat): nat
    requires advisors != []
  {
    Max(MaxLoad(start, advisors), CeilDiv(TotalLoad(start, advisors) + m, |advisors|))
  }

  /** No way of assigning the clients has a lower maximum. */
  lemma NoRunBeats(start: Links, run: seq<Assignment>, advisors: seq<AdvisorId>)
    requires advisors != [] && Distinct(advisors) && ValidRun(start, run, advisors)
    ensures BestMax(start, advisors, |run|) <= MaxLoad(After(start, run), advisors)
  {
    hide After, Load, MaxLoad, TotalLoad, CeilDiv, Distinct, ValidRun;
    var after := After(start, run);
    var max := MaxLoad(after, advisors);
    var a :| a in advisors && Load(start, a) == MaxLoad(start, advisors);
    LoadsGrow(start, run, advisors, a);
    TotalOfRun(start, run, advisors);
    TotalBounds(after, advisors, 0, max);
    CeilDivIff(TotalLoad(start, advisors) + |run|, |advisors|, max);
  }

  lemma {:induction false} GreedyStaysLow(start: Links, run: seq<Assignment>, advisors: seq<AdvisorId>, a: AdvisorId)
    requires advisors != [] && Distinct(advisors) && ValidRun(start, run, advisors) && Greedy(start, run, advisors)
    requires a in advisors
    ensures Load(After(start, run), a) <= BestMax(start, advisors, |run|)
  {
    hide Load, MaxLoad, TotalLoad, CeilDiv, Distinct;
    if run != [] {
      var earlier, last := run[..|run| - 1], run[|run| - 1];
      var s, total := After(start, earlier), TotalLoad(start, advisors) + |earlier|;
      GreedyStaysLow(start, earlier, advisors, a);
      LoadAfter(s, last.client, last.advisor, a);
      CeilDivGrows(total, |advisors|);
      if a == last.advisor {
        TotalOfRun(start, earlier, advisors);
        NewLoadIsLow(s, advisors, a);
      }
    }
  }

  lemma CeilDivGrows(total: nat, n: nat)
    requires n > 0
    ensures CeilDiv(total, n) <= CeilDiv(total + 1, n)
  {
    CeilDivIff(total, n, CeilDiv(total + 1, n));
    CeilDivIff(total + 1, n, CeilDiv(total + 1, n));
  }

  /** A least loaded advisor is under the average with one more client. */
  lemma NewLoadIsLow(links: Links, advisors: seq<AdvisorId>, a: AdvisorId)
    requires advisors != [] && IsLeastLoaded(links, a, advisors)
    ensures Load(links, a) + 1 <= CeilDiv(TotalLoad(links, advisors) + 1, |advisors|)
  {
    hide Load, MaxLoad, TotalLoad, CeilDiv;
    TotalBounds(links, advisors, Load(links, a), MaxLoad(links, advisors));
    CeilDivIff(TotalLoad(links, advisors) + 1, |advisors|, Load(links, a));
  }

  /** After any run of least-loaded choices, whatever the tie-breaks, the maximum is the least possible. */
  lemma GreedyIsOptimal(start: Links, run: seq<Assignment>, advisors: seq<AdvisorId>)
    requires advisors != [] && Distinct(advisors) && ValidRun(start, run, advisors) && Greedy(start, run, advisors)
    ensures MaxLoad(After(start, run), advisors) == BestMax(start, advisors, |run|)
  {
    NoRunBeats(start, run, advisors);
    var a :| a in advisors && Load(After(start, run), a) == MaxLoad(After(start, run), advisors);
    GreedyStaysLow(start, run, advisors, a);
  }

  /** Loads that differ by at most one keep doing so. */
  lemma {:induction false} GreedyStaysEven(start: Links, run: seq<Assignment>, advisors: seq<AdvisorId>)
    requires ValidRun(start, run, advisors) && Greedy(start, run, advisors)
    requires forall a, b :: a in advisors && b in advisors ==> Load(start, a) <= Load(start, b) + 1
    ensures forall a, b :: a in advisors && b in advisors ==>
              Load(After(start, run), a) <= Load(After(start, run), b) + 1
  {
    if run != [] {
      var earlier, last := run[..|run| - 1], run[|run| - 1];
      var s := After(start, earlier);
      GreedyStaysEven(start, earlier, advisors);
      forall a, b | a in advisors && b in advisors
        ensures Load(After(start, run), a) <= Load(After(start, run), b) + 1
      {
        LoadAfter(s, last.client, last.advisor, a);
        LoadAfter(s, last.client, last.advisor, b);
      }
    }
  }

  // --- Choices that need not be least loaded -----------------------------------------------------------

  lemma {:induction false} LoadsGrowFrom(start: Links, run: seq<Assignment>, advisors: seq<AdvisorId>, n: nat,
                                         a: AdvisorId)
    requires ValidRun(start, run, advisors) && n <= |run|
    ensures Load(After(start, run[..n]), a) <= Load(After(start, run), a)
  {
    hide Load;
    if n == |run| {
      assert run[..n] == run;
    } else {
      var earlier, last := run[..|run| - 1], run[|run| - 1];
      assert earlier[..n] == run[..n];
      LoadsGrowFrom(start, earlier, advisors, n, a);
      LoadAfter(After(start, earlier), last.client, last.advisor, a);
    }
  }

  /** Each choice was under the limit when it was made. */
  predicate AllUnder(start: Links, run: seq<Assignment>, limit: int)
  {
    forall n :: 0 <= n < |run| ==> Load(After(start, run[..n]), run[n].advisor) < limit
  }

  lemma {:induction false} UnderKeepsLow(start: Links, run: seq<Assignment>, advisors: seq<AdvisorId>, limit: int,
                                         a: AdvisorId)
    requires ValidRun(start, run, advisors) && AllUnder(start, run, limit) && Load(start, a) <= limit
    ensures Load(After(start, run), a) <= limit
  {
    hide Load;
    if run != [] {
      var earlier, last := run[..|run| - 1], run[|run| - 1];
      assert forall n :: 0 <= n < |earlier| ==> earlier[..n] == run[..n];
      UnderKeepsLow(start, earlier, advisors, limit, a);
      LoadAfter(After(start, earlier), last.client, last.advisor, a);
    }
  }

  /** A choice at the limit ends above it. */
  lemma OverEndsHigh(start: Links, run: seq<Assignment>, advisors: seq<AdvisorId>, limit: int, n: nat)
    requires advisors != [] && ValidRun(start, run, advisors) && n < |run|
    requires Load(After(start, run[..n]), run[n].advisor) >= limit
    ensures MaxLoad(After(start, run), advisors) > limit
  {
    hide Load, MaxLoad;
    var now, earlier := run[..n + 1], After(start, run[..n]);
    PrefixIsValid(start, run, advisors, n + 1);
    assert now[..|now| - 1] == run[..n] && now[|now| - 1] == run[n];
    assert After(start, now) == earlier[run[n].client := run[n].advisor] && run[n].client !in earlier;
    hide ValidRun, After;
    LoadAfter(earlier, run[n].client, run[n].advisor, run[n].advisor);
    LoadsGrowFrom(start, run, advisors, n + 1, run[n].advisor);
  }

  lemma {:induction false} PrefixIsValid(start: Links, run: seq<Assignment>, advisors: seq<AdvisorId>, n: nat)
    requires ValidRun(start, run, advisors) && n <= |run|
    ensures ValidRun(start, run[..n], advisors)
  {
    if n == |run| {
      assert run[..n] == run;
    } else {
      assert run[..|run| - 1][..n] == run[..n];
      PrefixIsValid(start, run[..|run| - 1], advisors, n);
    }
  }

  /**
   * However the advisors were chosen, the maximum is the least possible exactly when each chosen advisor had
   * fewer clients than that at the moment of the link.
   */
  lemma OptimalIff(start: Links, run: seq<Assignment>, advisors: seq<AdvisorId>)
    requires advisors != [] && Distinct(advisors) && ValidRun(start, run, advisors)
    ensures MaxLoad(After(start, run), advisors) == BestMax(start, advisors, |run|) <==>
            AllUnder(start, run, BestMax(start, advisors, |run|))
  {
    hide Load, Distinct, CeilDiv, TotalLoad;
    var best := BestMax(start, advisors, |run|);
    if AllUnder(start, run, best) {
      NoRunBeats(start, run, advisors);
      var a :| a in advisors && Load(After(start, run), a) == MaxLoad(After(start, run), advisors);
      UnderKeepsLow(start, run, advisors, best, a);
    } else {
      var n :| 0 <= n < |run| && Load(After(start, run[..n]), run[n].advisor) >= best;
      OverEndsHigh(start, run, advisors, best, n);
    }
  }
}
