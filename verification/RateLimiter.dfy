/** The login limiter: at most ten requests of an address in a window that opens with its first one. */
module RateLimiter {

  import opened Wrappers

  type Address = string

  const WINDOW_MS := 60000
  const MAX_REQUESTS := 10

  datatype Rec = Rec(count: nat, resetAt: int)

  predicate Opens(rec: Option<Rec>, now: int)
  {
    rec.None? || rec.value.resetAt <= now
  }

  function Next(rec: Option<Rec>, now: int): Rec
  {
    if Opens(rec, now) then Rec(1, now + WINDOW_MS) else rec.value.(count := rec.value.count + 1)
  }

  predicate Admits(rec: Option<Rec>, now: int)
  {
    Opens(rec, now) || rec.value.count + 1 <= MAX_REQUESTS
  }

  // --- Runs of one address -------------------------------------------------------------------------

  function After(times: seq<int>): Option<Rec>
  {
    if times == [] then None else Some(Next(After(times[..|times| - 1]), times[|times| - 1]))
  }

  predicate InOrder(times: seq<int>)
  {
    forall i, j :: 0 <= i < j < |times| ==> times[i] <= times[j]
  }

  /** Requests let through from `lo` until before `hi`. */
  function Admitted(times: seq<int>, lo: int, hi: int): nat
  {
    if times == [] then 0
    else
      var earlier, now := times[..|times| - 1], times[|times| - 1];
      Admitted(earlier, lo, hi) + if lo <= now < hi && Admits(After(earlier), now) then 1 else 0
  }

  function Capped(count: nat): nat
  {
    if count < MAX_REQUESTS then count else MAX_REQUESTS
  }

  lemma {:induction false} NoneYet(times: seq<int>, lo: int, hi: int)
    requires forall i :: 0 <= i < |times| ==> times[i] < lo || times[i] >= hi
    ensures Admitted(times, lo, hi) == 0
  {
    if times != [] {
      NoneYet(times[..|times| - 1], lo, hi);
    }
  }

  /** Every request so far is from before the end of the window. */
  lemma {:induction false} WithinWindow(times: seq<int>)
    requires InOrder(times) && times != []
    ensures forall i :: 0 <= i < |times| ==> times[i] < After(times).value.resetAt
    ensures After(times).value.resetAt - WINDOW_MS <= times[|times| - 1]
  {
    var earlier, now := times[..|times| - 1], times[|times| - 1];
    assert forall i :: 0 <= i < |times| ==> times[i] <= now;
    if earlier != [] {
      WithinWindow(earlier);
      assert earlier[|earlier| - 1] <= now;
    }
  }

  /** A window that opens at `lo` is full at the limit, whatever comes after it. */
  predicate WindowKept(times: seq<int>, lo: int)
    requires times != []
  {
    var rec := After(times).value;
    if rec.resetAt == lo + WINDOW_MS then Admitted(times, lo, lo + WINDOW_MS) == Capped(rec.count)
    else rec.resetAt >= lo + 2 * WINDOW_MS && Admitted(times, lo, lo + WINDOW_MS) <= MAX_REQUESTS
  }

  lemma {:induction false} WindowIsKept(times: seq<int>, n: nat)
    requires InOrder(times) && n < |times| && Opens(After(times[..n]), times[n])
    ensures WindowKept(times, times[n])
  {
    var earlier, now := times[..|times| - 1], times[|times| - 1];
    if n == |times| - 1 {
      if earlier != [] {
        WithinWindow(earlier);
      }
      NoneYet(earlier, now, now + WINDOW_MS);
    } else {
      assert earlier[..n] == times[..n];
      WindowIsKept(earlier, n);
      WithinWindow(earlier);
      assert times[n] <= now && earlier[|earlier| - 1] <= now;
    }
  }

  /** A window admits at most ten requests. */
  lemma WindowAdmitsAtMostTen(times: seq<int>, n: nat)
    requires InOrder(times) && n < |times| && Opens(After(times[..n]), times[n])
    ensures Admitted(times, times[n], times[n] + 60_000) <= 10
  {
    WindowIsKept(times, n);
  }

  /** A window is open for 60 seconds, and of the requests in it, refused ones included, the first ten pass. */
  lemma {:induction false} FirstTenPass(times: seq<int>, n: nat, i: nat)
    requires InOrder(times) && n <= i < |times| && Opens(After(times[..n]), times[n])
    requires times[i] < times[n] + 60_000
    ensures Admits(After(times[..i]), times[i]) <==> i - n < 10
    ensures i > n ==> !Opens(After(times[..i]), times[i])
    ensures After(times[..i + 1]) == Some(Rec(i - n + 1, times[n] + 60_000))
  {
    assert times[..i + 1][..i] == times[..i];
    if i > n {
      FirstTenPass(times, n, i - 1);
      assert times[..i - 1 + 1] == times[..i];
    }
  }

  /** How many of the last minute's requests the current window can account for. */
  predicate MinuteKept(times: seq<int>, lo: int)
  {
    var admitted := Admitted(times, lo, lo + WINDOW_MS + 1);
    if times == [] then admitted == 0
    else
      var rec := After(times).value;
      var since := rec.resetAt - WINDOW_MS;
      if since <= lo then admitted <= Capped(rec.count) && (rec.resetAt <= lo ==> admitted == 0)
      else if since <= lo + WINDOW_MS then admitted <= MAX_REQUESTS + Capped(rec.count)
      else admitted <= 2 * MAX_REQUESTS
  }

  lemma MinuteStep(times: seq<int>, now: int, lo: int)
    requires MinuteKept(times, lo) && InOrder(times + [now])
    ensures MinuteKept(times + [now], lo)
  {
    var all := times + [now];
    assert all[..|times|] == times;
    assert forall i :: 0 <= i < |times| ==> all[i] == times[i] <= all[|times|];
    if now < lo {
      NoneYet(times, lo, lo + WINDOW_MS + 1);
    }
    if times != [] {
      assert InOrder(times) by {
        assert forall i :: 0 <= i < |times| ==> all[i] == times[i];
      }
      WithinWindow(times);
    }
  }

  /**
   * Whatever the requests and whatever the minute: in any 60 seconds, both ends included, at most twenty
   * requests of an address are let through.
   */
  lemma {:induction false} MinuteAdmitsAtMostTwenty(times: seq<int>, lo: int)
    requires InOrder(times)
    ensures MinuteKept(times, lo) && Admitted(times, lo, lo + 60_001) <= 20
  {
    if times != [] {
      MinuteAdmitsAtMostTwenty(times[..|times| - 1], lo);
      MinuteStep(times[..|times| - 1], times[|times| - 1], lo);
      assert times[..|times| - 1] + [times[|times| - 1]] == times;
    }
  }

  function Repeated(now: int, n: nat): seq<int>
  {
    seq(n, _ => now)
  }

  lemma OneRequest(times: seq<int>, now: int, lo: int, hi: int)
    ensures After(times + [now]) == Some(Next(After(times), now))
    ensures Admitted(times + [now], lo, hi) ==
            Admitted(times, lo, hi) + if lo <= now < hi && Admits(After(times), now) then 1 else 0
  {
    assert (times + [now])[..|times|] == times;
  }

  /** The first ten requests of a window all pass. */
  lemma {:induction false} BurstPasses(times: seq<int>, now: int, n: nat, lo: int, hi: int)
    requires Opens(After(times), now) && 1 <= n <= MAX_REQUESTS && lo <= now < hi
    ensures After(times + Repeated(now, n)) == Some(Rec(n, now + WINDOW_MS))
    ensures Admitted(times + Repeated(now, n), lo, hi) == Admitted(times, lo, hi) + n
  {
    hide After, Admitted;
    var earlier := times + Repeated(now, n - 1);
    assert times + Repeated(now, n) == earlier + [now];
    OneRequest(earlier, now, lo, hi);
    if n > 1 {
      BurstPasses(times, now, n - 1, lo, hi);
    } else {
      assert earlier == times;
    }
  }

  /** Twenty is reached: ten requests as a window opens and ten as it ends. */
  lemma TwentyIsReached(lo: int) returns (times: seq<int>)
    ensures InOrder(times) && Admitted(times, lo, lo + 60_001) == 20
  {
    var first: seq<int> := Repeated(lo, MAX_REQUESTS);
    assert [] + first == first;
    BurstPasses([], lo, MAX_REQUESTS, lo, lo + WINDOW_MS + 1);
    BurstPasses(first, lo + WINDOW_MS, MAX_REQUESTS, lo, lo + WINDOW_MS + 1);
    times := first + Repeated(lo + WINDOW_MS, MAX_REQUESTS);
  }

  // --- All addresses -------------------------------------------------------------------------------

  datatype Request = Request(address: Address, now: int)

  function Of(requests: seq<Request>, address: Address): seq<int>
  {
    if requests == [] then []
    else
      var last := requests[|requests| - 1];
      Of(requests[..|requests| - 1], address) + if last.address == address then [last.now] else []
  }

  predicate ClockRuns(requests: seq<Request>)
  {
    forall i, j :: 0 <= i < j < |requests| ==> requests[i].now <= requests[j].now
  }

  lemma {:induction false} OfInOrder(requests: seq<Request>, address: Address)
    requires ClockRuns(requests)
    ensures InOrder(Of(requests, address))
    ensures forall t :: t in Of(requests, address) ==> t <= requests[|requests| - 1].now
  {
    if requests != [] {
      var earlier := requests[..|requests| - 1];
      OfInOrder(earlier, address);
      if earlier != [] {
        assert earlier[|earlier| - 1].now <= requests[|requests| - 1].now;
      }
      var times := Of(earlier, address);
      assert forall i :: 0 <= i < |times| ==> times[i] in times;
    }
  }

  /** No address gets more than twenty requests through in 60 seconds, whatever the others send. */
  lemma EveryAddressIsLimited(requests: seq<Request>, address: Address, lo: int)
    requires ClockRuns(requests)
    ensures Admitted(Of(requests, address), lo, lo + 60_001) <= 20
  {
    OfInOrder(requests, address);
    MinuteAdmitsAtMostTwenty(Of(requests, address), lo);
  }

  lemma OneMore(requests: seq<Request>, request: Request, address: Address)
    ensures After(Of(requests + [request], address)) ==
            if address == request.address then Some(Next(After(Of(requests, address)), request.now))
            else After(Of(requests, address))
  {
    var times := Of(requests, address);
    assert (requests + [request])[..|requests|] == requests;
    assert (times + [request.now])[..|times|] == times;
    assert times + [] == times;
  }

  datatype Answer = Admitted | Retry(seconds: int)

  /** Rounds up, for a positive number of milliseconds. */
  function CeilSeconds(ms: int): int
  {
    (ms + 999) / 1000
  }

  class Limiter {
    var attempts: map<Address, Rec>
    ghost var history: seq<Request>

    ghost function Stored(address: Address): Option<Rec>
      reads this
    {
      if address in attempts then Some(attempts[address]) else None
    }

    /** Each address has the record that its own requests left. */
    ghost predicate Valid()
      reads this
    {
      forall a :: Stored(a) == After(Of(history, a))
    }

    constructor ()
      ensures Valid() && history == []
    {
      attempts, history := map[], [];
    }

    method Store(address: Address, rec: Rec, ghost now: int)
      requires Valid() && rec == Next(Stored(address), now)
      modifies this
      ensures Valid() && history == old(history) + [Request(address, now)]
      ensures attempts == old(attempts)[address := rec]
    {
      hide Of, After, Next;
      attempts := attempts[address := rec];
      history := history + [Request(address, now)];
      forall a ensures Stored(a) == After(Of(history, a)) {
        OneMore(old(history), Request(address, now), a);
      }
    }

    /** The wait that a refusal gives is the shortest in whole seconds after which a window opens. */
    method Enforce(address: Address, now: int) returns (answer: Answer)
      requires Valid()
      modifies this
      ensures Valid() && history == old(history) + [Request(address, now)]
      ensures answer.Admitted? <==> Admits(After(Of(old(history), address)), now)
      ensures answer.Retry? ==>
                answer.seconds >= 1 && Opens(After(Of(history, address)), now + answer.seconds * 1000) &&
                !Opens(After(Of(history, address)), now + (answer.seconds - 1) * 1000)
    {
      hide Of, After;
      assert Stored(address) == After(Of(history, address));
      if address !in attempts || attempts[address].resetAt <= now {
        Store(address, Rec(1, now + WINDOW_MS), now);
        return Answer.Admitted;
      }
      var rec := attempts[address];
      rec := rec.(count := rec.count + 1);
      Store(address, rec, now);
      assert Stored(address) == After(Of(history, address));
      if rec.count > MAX_REQUESTS {
        var seconds := CeilSeconds(rec.resetAt - now);
        return Retry(if seconds < 1 then 1 else seconds);
      }
      return Answer.Admitted;
    }
  }
}
