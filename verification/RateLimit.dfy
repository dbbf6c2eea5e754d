/**
 * The sliding-window rate limiters. Both forget entries that have left the window, and sweep
 * their whole table when it has grown large; neither can be observed.
 */
module RateLimit {
  import opened Basics

  const MAX_MAP_SIZE: nat := 100_000

  /** The counts are compared after a cast to 32 bits. */
  const TWO_TO_THE_32: nat := 0x1_0000_0000

  type Table = map<string, seq<nat>>

  /** Time since `t`; never negative. */
  function Elapsed(now: nat, t: nat): nat {
    if t <= now then now - t else 0
  }

  /** The entries still inside the window (`retain`). */
  function Live(times: seq<nat>, now: nat, window: nat): seq<nat> {
    if times == [] then []
    else (if Elapsed(now, times[0]) < window then [times[0]] else []) + Live(times[1..], now, window)
  }

  function Entries(table: Table, key: string): seq<nat> {
    if key in table then table[key] else []
  }

  function Sweep(table: Table, now: nat, window: nat): Table {
    map k | k in table && Live(table[k], now, window) != [] :: Live(table[k], now, window)
  }

  function SweepIfLarge(table: Table, now: nat, window: nat): Table {
    if |table| > MAX_MAP_SIZE then Sweep(table, now, window) else table
  }

  /** What an entry was set to before makes no difference once it is set again. */
  lemma {:induction false} EntryMade(table: Table, key: string, before: seq<nat>, times: seq<nat>)
    ensures table[key := before][key := times] == table[key := times]
  {
  }

  // ----- the login limiter -----

  datatype LoginCall =
    | IsBlocked(key: string, at: nat)
    | RecordFailure(key: string, at: nat)
    | Clear(key: string, at: nat)

  /** The limiter's state after a call, and its answer (false for calls that give none). */
  function LoginStep(table: Table, call: LoginCall, maxAttempts: nat, window: nat): (Table, bool) {
    match call
    case IsBlocked(key, now) =>
      if key in table then
        var times := Live(table[key], now, window);
        (table[key := times], |times| % TWO_TO_THE_32 >= maxAttempts)
      else (table, false)
    case RecordFailure(key, now) =>
      var swept := SweepIfLarge(table, now, window);
      (swept[key := Live(Entries(swept, key), now, window) + [now]], false)
    case Clear(key, _) => (table - {key}, false)
  }

  class LoginRateLimiter {
    var attempts: Table
    const maxAttempts: nat
    const window: nat

    constructor (maxAttempts: nat, window: nat)
      requires maxAttempts < TWO_TO_THE_32
      ensures attempts == map[] && this.maxAttempts == maxAttempts && this.window == window
    {
      attempts := map[];
      this.maxAttempts, this.window := maxAttempts, window;
    }

    method IsBlocked(email: string, now: nat) returns (blocked: bool)
      modifies this
      ensures (attempts, blocked) == LoginStep(old(attempts), LoginCall.IsBlocked(email, now), maxAttempts, window)
      ensures (forall t | t in Entries(old(attempts), email) :: t <= now) ==>
        (blocked <==>
           email in old(attempts) && InWindow(old(attempts)[email], now, window) % 0x1_0000_0000 >= maxAttempts)
    {
      LookDecides(attempts, email, now, maxAttempts, window);
      if email in attempts {
        var times := Retain(attempts[email], now, window);
        attempts := attempts[email := times];
        blocked := |times| % TWO_TO_THE_32 >= maxAttempts;
      } else {
        blocked := false;
      }
    }

    method RecordFailure(email: string, now: nat)
      modifies this
      ensures attempts == LoginStep(old(attempts), LoginCall.RecordFailure(email, now), maxAttempts, window).0
    {
      if |attempts| > MAX_MAP_SIZE {
        attempts := Sweep(attempts, now, window);
      }
      if email !in attempts {
        attempts := attempts[email := []];
      }
      var times := Retain(attempts[email], now, window);
      times := times + [now];
      attempts := attempts[email := times];
      EntryMade(SweepIfLarge(old(attempts), now, window), email, [], times);
    }

    method Clear(email: string)
      modifies this
      ensures attempts == LoginStep(old(attempts), LoginCall.Clear(email, 0), maxAttempts, window).0
    {
      attempts := attempts - {email};
    }
  }

  /** The library's in-order filter, as the loop it is. */
  method Retain(times: seq<nat>, now: nat, window: nat) returns (kept: seq<nat>)
    ensures kept == Live(times, now, window)
    ensures forall t: nat :: t in kept <==> t in times && window > 0 && now < t + window
  {
    kept := [];
    var i := 0;
    while i < |times|
      invariant 0 <= i <= |times|
      invariant Live(times, now, window) == kept + Live(times[i..], now, window)
    {
      LiveNext(kept, times, i, now, window);
      if Elapsed(now, times[i]) < window {
        kept := kept + [times[i]];
      }
      i := i + 1;
    }
    forall t: nat
      ensures t in kept <==> t in times && window > 0 && now < t + window
    {
      LiveHolds(times, now, window, t);
    }
  }

  lemma {:induction false} LiveNext(kept: seq<nat>, times: seq<nat>, i: nat, now: nat, window: nat)
    requires i < |times|
    ensures var next := if Elapsed(now, times[i]) < window then kept + [times[i]] else kept;
      kept + Live(times[i..], now, window) == next + Live(times[i + 1..], now, window)
  {
    assert times[i..][0] == times[i] && times[i..][1..] == times[i + 1..];
  }

  // ----- what the window holds -----

  /** How many of `times` lie in the interval of length `window` that opens at `x`. */
  function CountIn(times: seq<nat>, x: int, window: nat): nat {
    if times == [] then 0
    else (if x < times[0] <= x + window then 1 else 0) + CountIn(times[1..], x, window)
  }

  /** The entries that the last `window` before `now` holds, an entry just as old as the window no more among them. */
  function InWindow(times: seq<nat>, now: nat, window: nat): nat {
    CountIn(times, now - window, window)
  }

  /** What is still live is what the window holds. */
  lemma {:induction false} LiveIsInWindow(times: seq<nat>, now: nat, window: nat)
    requires forall t | t in times :: t <= now
    ensures |Live(times, now, window)| == InWindow(times, now, window)
  {
    if times != [] {
      assert times[0] in times && forall t | t in times[1..] :: t in times;
      LiveIsInWindow(times[1..], now, window);
    }
  }

  /** Each entry younger than the window is kept, and no other; one made later than now is young. */
  lemma {:induction false} LiveHolds(times: seq<nat>, now: nat, window: nat, t: nat)
    ensures t in Live(times, now, window) <==> t in times && window > 0 && now < t + window
  {
    if times != [] {
      LiveHolds(times[1..], now, window, t);
    }
  }

  // ----- the request limiter -----

  /** One call of check_and_record: the new state, and whether the request is let through. */
  function RequestStep(table: Table, key: string, now: nat, maxRequests: nat, window: nat): (Table, bool) {
    if maxRequests == 0 then (table, true) else
      var swept := SweepIfLarge(table, now, window);
      var times := Live(Entries(swept, key), now, window);
      if |times| % TWO_TO_THE_32 >= maxRequests then (swept[key := times], false)
      else (swept[key := times + [now]], true)
  }

  class GrpcRateLimiter {
    var requests: Table
    const maxRequests: nat
    const window: nat

    constructor (maxRequests: nat, window: nat)
      requires maxRequests < TWO_TO_THE_32
      ensures requests == map[] && this.maxRequests == maxRequests && this.window == window
    {
      requests := map[];
      this.maxRequests, this.window := maxRequests, window;
    }

    method CheckAndRecord(ip: string, now: nat) returns (allowed: bool)
      modifies this
      ensures (requests, allowed) == RequestStep(old(requests), ip, now, maxRequests, window)
      ensures (forall t | t in Entries(old(requests), ip) :: t <= now) ==>
        (allowed <==>
           maxRequests == 0 || InWindow(Entries(old(requests), ip), now, window) % 0x1_0000_0000 < maxRequests)
    {
      RequestDecides(requests, ip, now, maxRequests, window);
      if maxRequests == 0 {
        return true;
      }
      if |requests| > MAX_MAP_SIZE {
        requests := Sweep(requests, now, window);
      }
      if ip !in requests {
        requests := requests[ip := []];
      }
      var times := Retain(requests[ip], now, window);
      ghost var swept := SweepIfLarge(old(requests), now, window);
      requests := requests[ip := times];
      EntryMade(swept, ip, [], times);
      assert requests == swept[ip := times];
      if |times| % TWO_TO_THE_32 >= maxRequests {
        return false;
      }
      requests := requests[ip := times + [now]];
      EntryMade(swept, ip, times, times + [now]);
      allowed := true;
    }
  }

  /** A look answers by what the window holds under the key. */
  lemma {:induction false} LookDecides(table: Table, key: string, now: nat, max: nat, window: nat)
    ensures (forall t | t in Entries(table, key) :: t <= now) ==>
      (LoginStep(table, IsBlocked(key, now), max, window).1 <==>
         key in table && InWindow(table[key], now, window) % 0x1_0000_0000 >= max)
  {
    if forall t | t in Entries(table, key) :: t <= now {
      LiveIsInWindow(Entries(table, key), now, window);
    }
  }

  /** A request does as well, whether the table is swept or not. */
  lemma {:induction false} RequestDecides(table: Table, key: string, now: nat, max: nat, window: nat)
    ensures (forall t | t in Entries(table, key) :: t <= now) ==>
      (RequestStep(table, key, now, max, window).1 <==>
         max == 0 || InWindow(Entries(table, key), now, window) % 0x1_0000_0000 < max)
  {
    if forall t | t in Entries(table, key) :: t <= now {
      LiveIsInWindow(Entries(table, key), now, window);
      LiveLater(Entries(table, key), now, now, window);
    }
  }

  // ----- the other keys -----

  /** Some entry is younger than the window. */
  ghost predicate SomeYoung(times: seq<nat>, now: nat, window: nat) {
    exists t :: t in times && now < t + window
  }

  lemma {:induction false} YoungIsLive(times: seq<nat>, now: nat, window: nat)
    requires forall t | t in times :: t <= now
    ensures Live(times, now, window) != [] <==> SomeYoung(times, now, window)
  {
    var live := Live(times, now, window);
    if live != [] {
      LiveFrom(times, now, window, live[0]);
      LiveHolds(times, now, window, live[0]);
    }
    if SomeYoung(times, now, window) {
      var t :| t in times && now < t + window;
      LiveHolds(times, now, window, t);
    }
  }

  lemma {:induction false} LiveFrom(times: seq<nat>, now: nat, window: nat, t: nat)
    requires t in Live(times, now, window)
    ensures t in times
  {
    if t !in times[1..] {
      if t in Live(times[1..], now, window) {
        LiveFrom(times[1..], now, window, t);
      }
    }
  }

  /** Other keys are left alone while the table is small; else those with nothing young are dropped. */
  lemma {:induction false} OtherKeys(table: Table, key: string, other: string, now: nat, max: nat, window: nat)
    requires other != key && other in table && forall t | t in table[other] :: t <= now
    ensures var after := LoginStep(table, RecordFailure(key, now), max, window).0;
      if |table| <= 100_000 then other in after && after[other] == table[other]
      else other in after <==> SomeYoung(table[other], now, window)
    ensures max > 0 ==>
      var after := RequestStep(table, key, now, max, window).0;
      if |table| <= 100_000 then other in after && after[other] == table[other]
      else other in after <==> SomeYoung(table[other], now, window)
  {
    YoungIsLive(table[other], now, window);
  }

  /** A look at a key makes no entry and drops no key; clearing drops just that key. */
  lemma {:induction false} KeysAfter(table: Table, key: string, now: nat, max: nat, window: nat)
    ensures LoginStep(table, IsBlocked(key, now), max, window).0.Keys == table.Keys
    ensures var after := LoginStep(table, LoginCall.Clear(key, now), max, window).0;
      after.Keys == table.Keys - {key} && forall k | k in after :: after[k] == table[k]
  {
  }

  /** An entry that is young, in the table, for the key. */
  predicate IsYoung(table: Table, key: string, now: nat, window: nat, t: nat) {
    key in table && t in table[key] && window > 0 && now < t + window
  }

  lemma {:induction false} YoungAfterSweep(table: Table, key: string, now: nat, window: nat, t: nat)
    ensures t in Live(Entries(SweepIfLarge(table, now, window), key), now, window) <==>
            IsYoung(table, key, now, window, t)
  {
    LiveHolds(Entries(table, key), now, window, t);
    LiveHolds(Entries(SweepIfLarge(table, now, window), key), now, window, t);
  }

  /** The entry for the key itself: the young times there were, and now behind them if a failure was recorded. */
  lemma {:induction false} EntryAfter(table: Table, key: string, now: nat, max: nat, window: nat)
    ensures var after := LoginStep(table, RecordFailure(key, now), max, window).0;
      && key in after && after[key] != [] && after[key][|after[key]| - 1] == now
      && forall t :: t in after[key][..|after[key]| - 1] <==> IsYoung(table, key, now, window, t)
    ensures max > 0 ==>
      var (after, yes) := RequestStep(table, key, now, max, window);
      && key in after && (yes ==> after[key] != [] && after[key][|after[key]| - 1] == now)
      && forall t :: t in (if yes then after[key][..|after[key]| - 1] else after[key]) <==>
                     IsYoung(table, key, now, window, t)
  {
    var kept := Live(Entries(SweepIfLarge(table, now, window), key), now, window);
    assert (kept + [now])[..|kept|] == kept;
    forall t
      ensures t in kept <==> IsYoung(table, key, now, window, t)
    {
      YoungAfterSweep(table, key, now, window, t);
    }
  }

  // ----- what forgetting keeps -----

  lemma {:induction false} LiveAppend(a: seq<nat>, b: seq<nat>, now: nat, window: nat)
    ensures Live(a + b, now, window) == Live(a, now, window) + Live(b, now, window)
  {
    if a == [] {
      assert a + b == b;
    } else {
      assert (a + b)[1..] == a[1..] + b;
      LiveAppend(a[1..], b, now, window);
    }
  }

  /** What an earlier look dropped is not live later. */
  lemma {:induction false} LiveLater(times: seq<nat>, early: nat, late: nat, window: nat)
    requires early <= late
    ensures Live(Live(times, early, window), late, window) == Live(times, late, window)
  {
    if times != [] {
      LiveLater(times[1..], early, late, window);
      var head := if Elapsed(early, times[0]) < window then [times[0]] else [];
      LiveAppend(head, Live(times[1..], early, window), late, window);
    }
  }

  /** From `now` on, the table under `key` has the live entries of the full history `all`. */
  ghost predicate Remembers(table: Table, key: string, all: seq<nat>, now: nat, window: nat) {
    forall late: nat | now <= late ::
      Live(Entries(table, key), late, window) == Live(all, late, window)
  }

  lemma {:induction false} RemembersLater(table: Table, key: string, all: seq<nat>, now: nat, later: nat, window: nat)
    requires Remembers(table, key, all, now, window) && now <= later
    ensures Remembers(table, key, all, later, window)
  {
  }

  lemma {:induction false} SweepUnseen(table: Table, key: string, all: seq<nat>, now: nat, window: nat)
    requires Remembers(table, key, all, now, window)
    ensures Remembers(SweepIfLarge(table, now, window), key, all, now, window)
  {
    var swept := Sweep(table, now, window);
    forall late: nat | now <= late
      ensures Live(Entries(swept, key), late, window) == Live(all, late, window)
    {
      LiveLater(Entries(table, key), now, late, window);
      assert Live(Entries(table, key), late, window) == Live(all, late, window);
    }
  }

  /** Dropping under `key` what is no longer live, and adding the same entries to both sides. */
  lemma {:induction false} PruneUnseen(table: Table, key: string, added: seq<nat>, all: seq<nat>, now: nat, window: nat)
    requires Remembers(table, key, all, now, window)
    ensures Remembers(table[key := Live(Entries(table, key), now, window) + added], key, all + added, now, window)
  {
    var kept := Live(Entries(table, key), now, window);
    forall late: nat | now <= late
      ensures Live(kept + added, late, window) == Live(all + added, late, window)
    {
      assert Live(Entries(table, key), late, window) == Live(all, late, window);
      LiveLater(Entries(table, key), now, late, window);
      LiveAppend(kept, added, late, window);
      LiveAppend(all, added, late, window);
    }
  }

  // ----- the login limiter over a whole run -----

  /** The state after a run from the start. */
  function LoginRun(calls: seq<LoginCall>, maxAttempts: nat, window: nat): Table {
    if calls == [] then map[]
    else LoginStep(LoginRun(calls[..|calls| - 1], maxAttempts, window), calls[|calls| - 1], maxAttempts, window).0
  }

  /** Every failure recorded for `key` since it was last cleared, however long ago. */
  function Failures(calls: seq<LoginCall>, key: string): seq<nat> {
    if calls == [] then [] else
      var earlier := Failures(calls[..|calls| - 1], key);
      match calls[|calls| - 1]
      case RecordFailure(k, at) => if k == key then earlier + [at] else earlier
      case Clear(k, _) => if k == key then [] else earlier
      case IsBlocked(_, _) => earlier
  }

  /** Call `i` recorded a failure for `key` that was not cleared since. */
  predicate Counts(calls: seq<LoginCall>, key: string, i: nat) {
    && i < |calls| && calls[i].RecordFailure? && calls[i].key == key
    && forall j | i < j < |calls| :: !(calls[j].Clear? && calls[j].key == key)
  }

  /** They are the times of those calls, in order. */
  lemma {:induction false} FailuresAre(calls: seq<LoginCall>, key: string) returns (at: seq<nat>)
    ensures |at| == |Failures(calls, key)|
    ensures forall j | 0 <= j < |at| :: Counts(calls, key, at[j]) && calls[at[j]].at == Failures(calls, key)[j]
    ensures forall j, k | 0 <= j < k < |at| :: at[j] < at[k]
    ensures forall i: nat | Counts(calls, key, i) :: i in at
  {
    if calls == [] {
      at := [];
    } else {
      var init, last := calls[..|calls| - 1], calls[|calls| - 1];
      var before := FailuresAre(init, key);
      at := before;
      if last.key == key && last.Clear? {
        at := [];
      } else if last.key == key && last.RecordFailure? {
        at := before + [|calls| - 1];
        assert at[|before|] == |calls| - 1;
      }
      forall i: nat | Counts(calls, key, i)
        ensures i in at
      {
        if i < |calls| - 1 {
          assert Counts(init, key, i);
        }
      }
    }
  }

  /** The clock does not go back during the run, and has reached at most `now`. */
  predicate Clocked(calls: seq<LoginCall>, now: nat) {
    (forall i | 0 <= i < |calls| :: calls[i].at <= now)
    && forall i, j | 0 <= i < j < |calls| :: calls[i].at <= calls[j].at
  }

  lemma {:induction false} LoginRemembers(calls: seq<LoginCall>, key: string, now: nat, maxAttempts: nat, window: nat)
    requires Clocked(calls, now)
    ensures Remembers(LoginRun(calls, maxAttempts, window), key, Failures(calls, key), now, window)
    decreases |calls|
  {
    if calls != [] {
      var init, call := calls[..|calls| - 1], calls[|calls| - 1];
      var table := LoginRun(init, maxAttempts, window);
      LoginRemembers(init, key, call.at, maxAttempts, window);
      match call {
        case IsBlocked(k, at) =>
          if k == key && k in table {
            PruneUnseen(table, key, [], Failures(init, key), at, window);
            assert Live(table[k], at, window) + [] == Live(table[k], at, window);
            assert Failures(init, key) + [] == Failures(init, key);
          }
        case RecordFailure(k, at) =>
          SweepUnseen(table, key, Failures(init, key), at, window);
          if k == key {
            PruneUnseen(SweepIfLarge(table, at, window), key, [at], Failures(init, key), at, window);
          }
        case Clear(k, at) =>
      }
      RemembersLater(LoginRun(calls, maxAttempts, window), key, Failures(calls, key), call.at, now, window);
    }
  }

  lemma {:induction false} LoginDecision(table: Table, key: string, all: seq<nat>, now: nat, maxAttempts: nat,
          window: nat)
    requires Remembers(table, key, all, now, window) && maxAttempts >= 1
    ensures LoginStep(table, IsBlocked(key, now), maxAttempts, window).1 <==>
            |Live(all, now, window)| % TWO_TO_THE_32 >= maxAttempts
  {
    assert Live(Entries(table, key), now, window) == Live(all, now, window);
  }

  lemma {:induction false} FailuresInPast(calls: seq<LoginCall>, key: string, now: nat)
    requires Clocked(calls, now)
    ensures forall t | t in Failures(calls, key) :: t <= now
    decreases |calls|
  {
    if calls != [] {
      FailuresInPast(calls[..|calls| - 1], key, calls[|calls| - 1].at);
    }
  }

  /**
   * After every run with a clock that does not go back, under any interleaving of keys, the
   * answer is the one that the full history gives, up to the cast of the count to 32 bits.
   */
  lemma {:induction false} LoginExact(calls: seq<LoginCall>, key: string, now: nat, maxAttempts: nat, window: nat)
    requires Clocked(calls, now) && maxAttempts >= 1
    ensures var blocked := LoginStep(LoginRun(calls, maxAttempts, window), IsBlocked(key, now), maxAttempts, window).1;
      var count := InWindow(Failures(calls, key), now, window);
      && (blocked <==> count % 0x1_0000_0000 >= maxAttempts)
      && (count < 0x1_0000_0000 ==> (blocked <==> count >= maxAttempts))
  {
    FailuresInPast(calls, key, now);
    LiveIsInWindow(Failures(calls, key), now, window);
    LoginRemembers(calls, key, now, maxAttempts, window);
    LoginDecision(LoginRun(calls, maxAttempts, window), key, Failures(calls, key), now, maxAttempts, window);
  }

  /** Every answer is the one the full history gives, while its count fits into 32 bits. */
  ghost predicate AnswersFromHistory(maxAttempts: nat, window: nat) {
    forall calls, key, now: nat | Clocked(calls, now) && InWindow(Failures(calls, key), now, window) < TWO_TO_THE_32 ::
      LoginStep(LoginRun(calls, maxAttempts, window), IsBlocked(key, now), maxAttempts, window).1 <==>
      InWindow(Failures(calls, key), now, window) >= maxAttempts
  }

  /** With a limit of zero attempts the answer only tells whether the key happens to be in the table. */
  lemma {:induction false} ZeroAttempts(table: Table, key: string, now: nat, window: nat)
    ensures LoginStep(table, IsBlocked(key, now), 0, window).1 <==> key in table
  {
  }

  /** A limit of at least one attempt is exactly what it takes. */
  lemma {:induction false} LoginExactIff(maxAttempts: nat, window: nat)
    ensures AnswersFromHistory(maxAttempts, window) <==> maxAttempts >= 1
  {
    if maxAttempts >= 1 {
      forall calls, key, now: nat | Clocked(calls, now) && InWindow(Failures(calls, key), now, window) < TWO_TO_THE_32
        ensures LoginStep(LoginRun(calls, maxAttempts, window), IsBlocked(key, now), maxAttempts, window).1 <==>
                InWindow(Failures(calls, key), now, window) >= maxAttempts
      {
        LoginExact(calls, key, now, maxAttempts, window);
      }
    } else {
      ZeroAttempts(map[], "", 0, window);
      var none: seq<LoginCall> := [];
      assert Clocked(none, 0) && Failures(none, "") == [] && LoginRun(none, 0, window) == map[];
    }
  }

  // ----- the request limiter over a whole run -----

  datatype Request = Request(key: string, at: nat)

  function RequestRun(calls: seq<Request>, maxRequests: nat, window: nat): Table {
    if calls == [] then map[] else
      var call := calls[|calls| - 1];
      RequestStep(RequestRun(calls[..|calls| - 1], maxRequests, window), call.key, call.at, maxRequests, window).0
  }

  /** The reference: all requests of `key` ever admitted, one being admitted while the window has room. */
  function Admitted(calls: seq<Request>, key: string, maxRequests: nat, window: nat): seq<nat> {
    if calls == [] then [] else
      var call := calls[|calls| - 1];
      var earlier := Admitted(calls[..|calls| - 1], key, maxRequests, window);
      if call.key == key && InWindow(earlier, call.at, window) < maxRequests then earlier + [call.at] else earlier
  }

  predicate RequestsClocked(calls: seq<Request>, now: nat) {
    (forall i | 0 <= i < |calls| :: calls[i].at <= now)
    && forall i, j | 0 <= i < j < |calls| :: calls[i].at <= calls[j].at
  }

  lemma {:induction false} LiveShrinks(times: seq<nat>, early: nat, late: nat, window: nat)
    requires early <= late
    ensures |Live(times, late, window)| <= |Live(times, early, window)|
  {
    if times != [] {
      LiveShrinks(times[1..], early, late, window);
    }
  }

  /** While no window holds more than the limit the cast to 32 bits changes nothing. */
  lemma {:induction false} RequestDecision(table: Table, key: string, now: nat, maxRequests: nat, window: nat,
          all: seq<nat>)
    requires 0 < maxRequests < TWO_TO_THE_32
    requires Remembers(table, key, all, now, window) && |Live(all, now, window)| <= maxRequests
    ensures var swept := SweepIfLarge(table, now, window);
      var times := Live(Entries(swept, key), now, window);
      && times == Live(all, now, window)
      && RequestStep(table, key, now, maxRequests, window) ==
         if |times| < maxRequests then (swept[key := times + [now]], true) else (swept[key := times], false)
  {
    SweepUnseen(table, key, all, now, window);
    assert Live(Entries(SweepIfLarge(table, now, window), key), now, window) == Live(all, now, window);
    assert |Live(all, now, window)| % TWO_TO_THE_32 == |Live(all, now, window)|;
  }

  lemma {:induction false} RequestStepRemembers(table: Table, key: string, now: nat, maxRequests: nat, window: nat,
          all: seq<nat>)
    requires 0 < maxRequests < TWO_TO_THE_32
    requires Remembers(table, key, all, now, window) && |Live(all, now, window)| <= maxRequests
    ensures var all' := if |Live(all, now, window)| < maxRequests then all + [now] else all;
      && Remembers(RequestStep(table, key, now, maxRequests, window).0, key, all', now, window)
      && |Live(all', now, window)| <= maxRequests
  {
    RequestDecision(table, key, now, maxRequests, window, all);
    var swept := SweepIfLarge(table, now, window);
    SweepUnseen(table, key, all, now, window);
    if |Live(all, now, window)| < maxRequests {
      PruneUnseen(swept, key, [now], all, now, window);
      LiveAppend(all, [now], now, window);
    } else {
      PruneUnseen(swept, key, [], all, now, window);
      assert all + [] == all;
      assert Live(Entries(swept, key), now, window) + [] == Live(Entries(swept, key), now, window);
    }
  }

  /** A request under another key does not show. */
  lemma {:induction false} OtherKeyUnseen(table: Table, key: string, other: string, now: nat, maxRequests: nat,
          window: nat, all: seq<nat>)
    requires other != key && Remembers(table, key, all, now, window)
    ensures Remembers(RequestStep(table, other, now, maxRequests, window).0, key, all, now, window)
  {
    SweepUnseen(table, key, all, now, window);
    var swept, after := SweepIfLarge(table, now, window), RequestStep(table, other, now, maxRequests, window).0;
    assert Entries(after, key) == Entries(if maxRequests == 0 then table else swept, key);
  }

  lemma {:induction false} AdmittedInPast(calls: seq<Request>, key: string, now: nat, maxRequests: nat, window: nat)
    requires RequestsClocked(calls, now)
    ensures forall t | t in Admitted(calls, key, maxRequests, window) :: t <= now
    decreases |calls|
  {
    if calls != [] {
      AdmittedInPast(calls[..|calls| - 1], key, calls[|calls| - 1].at, maxRequests, window);
    }
  }

  lemma {:induction false} RequestsRemembered(calls: seq<Request>, key: string, now: nat, maxRequests: nat, window: nat)
    requires RequestsClocked(calls, now) && 0 < maxRequests < TWO_TO_THE_32
    ensures Remembers(RequestRun(calls, maxRequests, window), key, Admitted(calls, key, maxRequests, window), now,
      window)
    ensures |Live(Admitted(calls, key, maxRequests, window), now, window)| <= maxRequests
    decreases |calls|
  {
    if calls != [] {
      var init, call := calls[..|calls| - 1], calls[|calls| - 1];
      var table := RequestRun(init, maxRequests, window);
      var all := Admitted(init, key, maxRequests, window);
      RequestsRemembered(init, key, call.at, maxRequests, window);
      AdmittedInPast(init, key, call.at, maxRequests, window);
      LiveIsInWindow(all, call.at, window);
      if call.key == key {
        RequestStepRemembers(table, key, call.at, maxRequests, window, all);
      } else {
        OtherKeyUnseen(table, key, call.key, call.at, maxRequests, window, all);
      }
      var all' := Admitted(calls, key, maxRequests, window);
      RemembersLater(RequestRun(calls, maxRequests, window), key, all', call.at, now, window);
      LiveShrinks(all', call.at, now, window);
    }
  }

  /** After every run, a request is let through exactly when its window has room in the full history. */
  lemma {:induction false} RequestExact(calls: seq<Request>, key: string, now: nat, maxRequests: nat, window: nat)
    requires RequestsClocked(calls, now) && maxRequests < TWO_TO_THE_32
    ensures RequestStep(RequestRun(calls, maxRequests, window), key, now, maxRequests, window).1 <==>
      maxRequests == 0 || InWindow(Admitted(calls, key, maxRequests, window), now, window) < maxRequests
  {
    if maxRequests > 0 {
      AdmittedInPast(calls, key, now, maxRequests, window);
      LiveIsInWindow(Admitted(calls, key, maxRequests, window), now, window);
      RequestsRemembered(calls, key, now, maxRequests, window);
      RequestDecision(RequestRun(calls, maxRequests, window), key, now, maxRequests, window,
                      Admitted(calls, key, maxRequests, window));
    }
  }

  lemma {:induction false} CountAppend(a: seq<nat>, b: seq<nat>, x: int, window: nat)
    ensures CountIn(a + b, x, window) == CountIn(a, x, window) + CountIn(b, x, window)
  {
    if a == [] {
      assert a + b == b;
    } else {
      assert (a + b)[1..] == a[1..] + b;
      CountAppend(a[1..], b, x, window);
    }
  }

  lemma {:induction false} CountFits(times: seq<nat>, now: nat, x: int, window: nat)
    requires x < now <= x + window
    requires forall t | t in times :: t <= now
    ensures CountIn(times, x, window) <= InWindow(times, now, window)
  {
    if times != [] {
      assert times[0] in times && forall t | t in times[1..] :: t in times;
      CountFits(times[1..], now, x, window);
    }
  }

  lemma {:induction false} AdmittedNeverTooMany(calls: seq<Request>, key: string, now: nat, maxRequests: nat,
          window: nat, x: int)
    requires RequestsClocked(calls, now)
    ensures CountIn(Admitted(calls, key, maxRequests, window), x, window) <= maxRequests
    decreases |calls|
  {
    if calls != [] {
      var init, call := calls[..|calls| - 1], calls[|calls| - 1];
      var all := Admitted(init, key, maxRequests, window);
      AdmittedNeverTooMany(init, key, call.at, maxRequests, window, x);
      AdmittedInPast(init, key, call.at, maxRequests, window);
      CountAppend(all, [call.at], x, window);
      if x < call.at <= x + window {
        CountFits(all, call.at, x, window);
      }
    }
  }

  // ----- what the request limiter itself lets through -----

  /** The times at which the limiter answered a request of `key` with yes. */
  function LetThrough(calls: seq<Request>, key: string, maxRequests: nat, window: nat): seq<nat> {
    if calls == [] then [] else
      var init, call := calls[..|calls| - 1], calls[|calls| - 1];
      var earlier := LetThrough(init, key, maxRequests, window);
      var (_, yes) := RequestStep(RequestRun(init, maxRequests, window), call.key, call.at, maxRequests, window);
      if call.key == key && yes then earlier + [call.at] else earlier
  }

  function Requested(calls: seq<Request>, key: string): seq<nat> {
    if calls == [] then [] else
      var earlier, call := Requested(calls[..|calls| - 1], key), calls[|calls| - 1];
      if call.key == key then earlier + [call.at] else earlier
  }

  /** It lets through what the reference admits; with a limit of zero it lets everything through. */
  lemma {:induction false} LetThroughIs(calls: seq<Request>, key: string, now: nat, maxRequests: nat, window: nat)
    requires RequestsClocked(calls, now) && maxRequests < TWO_TO_THE_32
    ensures LetThrough(calls, key, maxRequests, window) ==
            if maxRequests == 0 then Requested(calls, key) else Admitted(calls, key, maxRequests, window)
    decreases |calls|
  {
    if calls != [] {
      var init, call := calls[..|calls| - 1], calls[|calls| - 1];
      LetThroughIs(init, key, call.at, maxRequests, window);
      RequestExact(init, call.key, call.at, maxRequests, window);
    }
  }

  /** The promise of the limiter: no interval as long as the window ever sees more of its answers be yes. */
  lemma {:induction false} NeverTooMany(calls: seq<Request>, key: string, now: nat, maxRequests: nat, window: nat,
          x: int)
    requires RequestsClocked(calls, now) && 0 < maxRequests < TWO_TO_THE_32
    ensures CountIn(LetThrough(calls, key, maxRequests, window), x, window) <= maxRequests
  {
    LetThroughIs(calls, key, now, maxRequests, window);
    AdmittedNeverTooMany(calls, key, now, maxRequests, window, x);
  }

  /** A request is refused exactly when the limiter let as many through in the window as the limit allows. */
  lemma {:induction false} RefusedOnlyWhenFull(calls: seq<Request>, key: string, now: nat, maxRequests: nat,
          window: nat)
    requires RequestsClocked(calls, now) && maxRequests < TWO_TO_THE_32
    ensures !RequestStep(RequestRun(calls, maxRequests, window), key, now, maxRequests, window).1 <==>
      maxRequests > 0 && CountIn(LetThrough(calls, key, maxRequests, window), now - window, window) == maxRequests
  {
    RequestExact(calls, key, now, maxRequests, window);
    LetThroughIs(calls, key, now, maxRequests, window);
    if maxRequests > 0 {
      RequestsRemembered(calls, key, now, maxRequests, window);
      AdmittedInPast(calls, key, now, maxRequests, window);
      LiveIsInWindow(Admitted(calls, key, maxRequests, window), now, window);
    }
  }

  /** What the reference admits later depends on what it admitted, not on what it refused. */
  lemma {:induction false} AdmittedAfter(a: seq<Request>, b: seq<Request>, later: seq<Request>, key: string,
          maxRequests: nat, window: nat)
    requires Admitted(a, key, maxRequests, window) == Admitted(b, key, maxRequests, window)
    ensures Admitted(a + later, key, maxRequests, window) == Admitted(b + later, key, maxRequests, window)
    decreases |later|
  {
    if later == [] {
      assert a + later == a && b + later == b;
    } else {
      var n := |later| - 1;
      assert (a + later)[..|a + later| - 1] == a + later[..n];
      assert (b + later)[..|b + later| - 1] == b + later[..n];
      AdmittedAfter(a, b, later[..n], key, maxRequests, window);
    }
  }

  /** A refused request uses up nothing: without it the limiter lets through the very same later requests. */
  lemma {:induction false} RefusedUnseen(calls: seq<Request>, refused: Request, later: seq<Request>, key: string,
          now: nat, maxRequests: nat, window: nat)
    requires RequestsClocked(calls + [refused] + later, now) && RequestsClocked(calls, refused.at)
    requires RequestsClocked(calls + later, now) && maxRequests < TWO_TO_THE_32
    requires !RequestStep(RequestRun(calls, maxRequests, window), refused.key, refused.at, maxRequests, window).1
    ensures LetThrough(calls + [refused] + later, key, maxRequests, window) ==
            LetThrough(calls + later, key, maxRequests, window)
  {
    RequestExact(calls, refused.key, refused.at, maxRequests, window);
    assert (calls + [refused])[..|calls|] == calls;
    AdmittedAfter(calls + [refused], calls, later, key, maxRequests, window);
    LetThroughIs(calls + [refused] + later, key, now, maxRequests, window);
    LetThroughIs(calls + later, key, now, maxRequests, window);
  }

  // ----- memory -----

  function RequestKeys(calls: seq<Request>): set<string> {
    set i | 0 <= i < |calls| :: calls[i].key
  }

  function LoginKeys(calls: seq<LoginCall>): set<string> {
    set i | 0 <= i < |calls| :: calls[i].key
  }

  lemma {:induction false} FailuresOfKnown(calls: seq<LoginCall>, key: string)
    requires Failures(calls, key) != []
    ensures key in LoginKeys(calls)
    decreases |calls|
  {
    var init, call := calls[..|calls| - 1], calls[|calls| - 1];
    if call.key != key || !call.RecordFailure? {
      FailuresOfKnown(init, key);
      var i :| 0 <= i < |init| && init[i].key == key;
      assert calls[i].key == key;
    }
  }

  lemma {:induction false} AdmittedOfKnown(calls: seq<Request>, key: string, maxRequests: nat, window: nat)
    requires Admitted(calls, key, maxRequests, window) != []
    ensures key in RequestKeys(calls)
    decreases |calls|
  {
    var init, call := calls[..|calls| - 1], calls[|calls| - 1];
    if call.key != key {
      AdmittedOfKnown(init, key, maxRequests, window);
      var i :| 0 <= i < |init| && init[i].key == key;
      assert calls[i].key == key;
    }
  }

  /** The keys with a failure that has not left the window. */
  function FailingKeys(calls: seq<LoginCall>, now: nat, window: nat): set<string> {
    set k | k in LoginKeys(calls) && InWindow(Failures(calls, k), now, window) > 0
  }

  function BusyKeys(calls: seq<Request>, now: nat, maxRequests: nat, window: nat): set<string> {
    set k | k in RequestKeys(calls) && InWindow(LetThrough(calls, k, maxRequests, window), now, window) > 0
  }

  lemma {:induction false} NothingInWindow(now: nat, window: nat)
    ensures Live([], now, window) == [] && InWindow([], now, window) == 0
  {
  }

  lemma {:induction false} SubsetSize<T>(a: set<T>, b: set<T>)
    requires a <= b
    ensures |a| <= |b|
  {
    assert b == a + (b - a);
  }

  /** Adding one key to a swept table whose keys are all in `live`. */
  lemma {:induction false} SweptSize(table: Table, key: string, times: seq<nat>, now: nat, window: nat,
          live: set<string>)
    requires |table| > MAX_MAP_SIZE ==> Sweep(table, now, window).Keys <= live
    ensures |SweepIfLarge(table, now, window)[key := times]| <= Max(MAX_MAP_SIZE, |live|) + 1
  {
    var swept := SweepIfLarge(table, now, window);
    assert swept[key := times].Keys == swept.Keys + {key};
    if |table| > MAX_MAP_SIZE {
      SubsetSize(swept.Keys, live);
    }
    assert |swept[key := times].Keys| <= |swept.Keys| + 1;
    assert |swept.Keys| == |swept| && |swept[key := times].Keys| == |swept[key := times]|;
  }

  /** After every recorded failure the table has no more keys than this. */
  lemma {:induction false} LoginMemory(calls: seq<LoginCall>, key: string, now: nat, maxAttempts: nat, window: nat)
    requires Clocked(calls, now)
    ensures |LoginRun(calls + [RecordFailure(key, now)], maxAttempts, window)| <=
            Max(100_000, |FailingKeys(calls, now, window)|) + 1
  {
    var table := LoginRun(calls, maxAttempts, window);
    var swept := Sweep(table, now, window);
    forall k | k in swept
      ensures k in FailingKeys(calls, now, window)
    {
      LoginRemembers(calls, k, now, maxAttempts, window);
      assert Live(Entries(table, k), now, window) == Live(Failures(calls, k), now, window);
      FailuresInPast(calls, k, now);
      LiveIsInWindow(Failures(calls, k), now, window);
      NothingInWindow(now, window);
      FailuresOfKnown(calls, k);
    }
    var kept := Live(Entries(SweepIfLarge(table, now, window), key), now, window) + [now];
    SweptSize(table, key, kept, now, window, FailingKeys(calls, now, window));
    assert (calls + [RecordFailure(key, now)])[..|calls|] == calls;
  }

  /** After every request, let through or not, the table has no more keys than this. */
  lemma {:induction false} RequestMemory(calls: seq<Request>, key: string, now: nat, maxRequests: nat, window: nat)
    requires RequestsClocked(calls, now) && maxRequests < TWO_TO_THE_32
    ensures |RequestRun(calls + [Request(key, now)], maxRequests, window)| <=
            Max(100_000, |BusyKeys(calls, now, maxRequests, window)|) + 1
  {
    assert (calls + [Request(key, now)])[..|calls|] == calls;
    if maxRequests == 0 {
      NothingKept(calls, window);
    } else {
      var table := RequestRun(calls, maxRequests, window);
      var swept := Sweep(table, now, window);
      forall k | k in swept
        ensures k in BusyKeys(calls, now, maxRequests, window)
      {
        RequestsRemembered(calls, k, now, maxRequests, window);
        LetThroughIs(calls, k, now, maxRequests, window);
        assert Live(Entries(table, k), now, window) == Live(Admitted(calls, k, maxRequests, window), now, window);
        AdmittedInPast(calls, k, now, maxRequests, window);
        LiveIsInWindow(Admitted(calls, k, maxRequests, window), now, window);
        NothingInWindow(now, window);
        AdmittedOfKnown(calls, k, maxRequests, window);
      }
      var times := Live(Entries(SweepIfLarge(table, now, window), key), now, window);
      SweptSize(table, key, times, now, window, BusyKeys(calls, now, maxRequests, window));
      SweptSize(table, key, times + [now], now, window, BusyKeys(calls, now, maxRequests, window));
    }
  }

  lemma {:induction false} NothingKept(calls: seq<Request>, window: nat)
    ensures RequestRun(calls, 0, window) == map[]
    decreases |calls|
  {
    if calls != [] {
      NothingKept(calls[..|calls| - 1], window);
    }
  }
}
