/** The sliding-window limiter: a pruned, expiring sorted set per tenant, against counting
    over the whole admission history. Times are milliseconds on one clock that Redis shares. */
module RateLimiter {
  import opened Basics

  const DEFAULT_WINDOW_MS: nat := 60_000
  const DEFAULT_LIMIT: nat := 1

  datatype Admission = Admission(at: int, member: string)

  /** A Redis sorted set with its expiry: members with scores. */
  datatype SortedSet = SortedSet(scores: map<string, int>, expiresAt: int)

  /** The script's reply. On refusal `count` is the current size, otherwise what remains. */
  datatype Decision = Decision(allowed: bool, retryMs: int, count: int)

  // ---------------------------------------------------------------- the specification

  /** How many admissions are later than `cutoff`. */
  function CountAfter(history: seq<Admission>, cutoff: int): nat {
    if history == [] then 0
    else CountAfter(history[..|history| - 1], cutoff) + if history[|history| - 1].at > cutoff then 1 else 0
  }

  /** Admit iff fewer than `limit` admissions happened in the last window. */
  predicate Admits(history: seq<Admission>, now: int, window: nat, limit: nat) {
    CountAfter(history, now - window) < limit
  }

  predicate Ascending(history: seq<Admission>) {
    forall i, j :: 0 <= i <= j < |history| ==> history[i].at <= history[j].at
  }

  predicate DistinctMembers(history: seq<Admission>) {
    forall i, j :: 0 <= i < j < |history| ==> history[i].member != history[j].member
  }

  function AdmitAll(history: seq<Admission>, calls: seq<Admission>, window: nat, limit: nat): seq<Admission>
    decreases |calls|
  {
    if calls == [] then history
    else AdmitAll(if Admits(history, calls[0].at, window, limit) then history + [calls[0]] else history,
                  calls[1..], window, limit)
  }

  // ---------------------------------------------------------------- the set mirrors the history

  /** The members of the history that are later than `cutoff`, with their times. */
  function Recent(history: seq<Admission>, cutoff: int): map<string, int> {
    if history == [] then map[]
    else
      var last := history[|history| - 1];
      var before := Recent(history[..|history| - 1], cutoff);
      if last.at > cutoff then before[last.member := last.at] else before
  }

  predicate Holds(history: seq<Admission>, i: nat, m: string, t: int) {
    i < |history| && history[i] == Admission(t, m)
  }

  lemma {:induction false} RecentSound(history: seq<Admission>, cutoff: int, m: string) returns (i: nat)
    requires m in Recent(history, cutoff)
    ensures Holds(history, i, m, Recent(history, cutoff)[m]) && Recent(history, cutoff)[m] > cutoff
  {
    var n := |history| - 1;
    if history[n].at > cutoff && history[n].member == m {
      i := n;
    } else {
      i := RecentSound(history[..n], cutoff, m);
    }
  }

  lemma {:induction false} RecentComplete(history: seq<Admission>, cutoff: int, i: nat)
    requires DistinctMembers(history) && i < |history| && history[i].at > cutoff
    ensures history[i].member in Recent(history, cutoff) && Recent(history, cutoff)[history[i].member] == history[i].at
  {
    var n := |history| - 1;
    if i < n {
      RecentComplete(history[..n], cutoff, i);
    }
  }

  lemma {:induction false} RecentIsCounted(history: seq<Admission>, cutoff: int)
    requires DistinctMembers(history)
    ensures |Recent(history, cutoff)| == CountAfter(history, cutoff)
  {
    if history != [] {
      var n := |history| - 1;
      RecentIsCounted(history[..n], cutoff);
      if history[n].member in Recent(history[..n], cutoff) {
        var i := RecentSound(history[..n], cutoff, history[n].member);
        assert false;
      }
    }
  }

  function Prune(scores: map<string, int>, cutoff: int): map<string, int> {
    map m | m in scores && scores[m] > cutoff :: scores[m]
  }

  /** Pruning again, later, loses nothing that is still in the window. */
  lemma PruneRecent(history: seq<Admission>, cutoff: int, later: int)
    requires DistinctMembers(history) && cutoff <= later
    ensures Prune(Recent(history, cutoff), later) == Recent(history, later)
  {
    var kept := Prune(Recent(history, cutoff), later);
    forall m | m in kept ensures m in Recent(history, later) && Recent(history, later)[m] == kept[m] {
      var i := RecentSound(history, cutoff, m);
      RecentComplete(history, later, i);
    }
    forall m | m in Recent(history, later) ensures m in kept {
      var i := RecentSound(history, later, m);
      RecentComplete(history, cutoff, i);
    }
  }

  // ---------------------------------------------------------------- window bound

  predicate AdmittedAt(history: seq<Admission>, i: nat, window: nat, limit: nat)
    requires i < |history|
  {
    Admits(history[..i], history[i].at, window, limit)
  }

  /** Every admission was made by the rule, on the history before it. */
  predicate AdmittedByRule(history: seq<Admission>, window: nat, limit: nat) {
    forall i :: 0 <= i < |history| ==> AdmittedAt(history, i, window, limit)
  }

  function CountWithin(history: seq<Admission>, lo: int, hi: int): nat {
    if history == [] then 0
    else CountWithin(history[..|history| - 1], lo, hi) + if lo < history[|history| - 1].at <= hi then 1 else 0
  }

  lemma {:induction false} LaterCutoffCountsLess(history: seq<Admission>, cutoff: int, later: int)
    requires cutoff <= later
    ensures CountAfter(history, later) <= CountAfter(history, cutoff)
  {
    if history != [] {
      LaterCutoffCountsLess(history[..|history| - 1], cutoff, later);
    }
  }

  lemma {:induction false} WithinIsAfter(history: seq<Admission>, lo: int, hi: int)
    requires forall i :: 0 <= i < |history| ==> history[i].at <= hi
    ensures CountWithin(history, lo, hi) == CountAfter(history, lo)
  {
    if history != [] {
      WithinIsAfter(history[..|history| - 1], lo, hi);
    }
  }

  lemma AdmittedPrefix(history: seq<Admission>, window: nat, limit: nat)
    requires history != [] && AdmittedByRule(history, window, limit) && Ascending(history)
    ensures AdmittedByRule(history[..|history| - 1], window, limit) && Ascending(history[..|history| - 1])
    ensures Admits(history[..|history| - 1], history[|history| - 1].at, window, limit)
  {
    var front := history[..|history| - 1];
    assert AdmittedAt(history, |front|, window, limit);
    forall i | 0 <= i < |front| ensures AdmittedAt(front, i, window, limit) {
      assert AdmittedAt(history, i, window, limit) && front[..i] == history[..i];
    }
  }

  /** Window bound: no interval (t - window, t] holds more than `limit` admissions, for every t. */
  lemma {:induction false} WindowBound(history: seq<Admission>, window: nat, limit: nat, t: int)
    requires AdmittedByRule(history, window, limit) && Ascending(history)
    ensures CountWithin(history, t - window, t) <= limit
  {
    if history != [] {
      var n := |history| - 1;
      AdmittedPrefix(history, window, limit);
      if history[n].at > t {
        WindowBound(history[..n], window, limit, t);
      } else {
        WithinIsAfter(history, t - window, t);
        LaterCutoffCountsLess(history, history[n].at - window, t - window);
      }
    }
  }

  lemma NeverOverLimit(history: seq<Admission>, window: nat, limit: nat, now: int)
    requires AdmittedByRule(history, window, limit) && Ascending(history)
    requires forall i :: 0 <= i < |history| ==> history[i].at <= now
    ensures CountAfter(history, now - window) <= limit
  {
    WindowBound(history, window, limit, now);
    WithinIsAfter(history, now - window, now);
  }

  lemma {:induction false} AdmitAllSnoc(history: seq<Admission>, calls: seq<Admission>, last: Admission,
                                        window: nat, limit: nat)
    ensures var h := AdmitAll(history, calls, window, limit);
            AdmitAll(history, calls + [last], window, limit)
            == if Admits(h, last.at, window, limit) then h + [last] else h
    decreases |calls|
  {
    if calls == [] {
      assert calls + [last] == [last];
    } else {
      AdmitAllSnoc(if Admits(history, calls[0].at, window, limit) then history + [calls[0]] else history,
                   calls[1..], last, window, limit);
      assert (calls + [last])[1..] == calls[1..] + [last];
    }
  }

  lemma AppendByRule(history: seq<Admission>, a: Admission, window: nat, limit: nat)
    requires Ascending(history) && AdmittedByRule(history, window, limit) && Admits(history, a.at, window, limit)
    requires history != [] ==> history[|history| - 1].at <= a.at
    ensures Ascending(history + [a]) && AdmittedByRule(history + [a], window, limit)
  {
    var h := history + [a];
    forall i | 0 <= i < |h| ensures AdmittedAt(h, i, window, limit) {
      assert h[..i] == history[..i];
      if i == |history| {
        assert history[..i] == history;
      } else {
        assert AdmittedAt(history, i, window, limit);
      }
    }
  }

  lemma {:induction false} RunIsByRule(calls: seq<Admission>, window: nat, limit: nat)
    requires Ascending(calls)
    ensures var h := AdmitAll([], calls, window, limit);
            && AdmittedByRule(h, window, limit) && Ascending(h)
            && (h != [] ==> calls != [] && h[|h| - 1].at <= calls[|calls| - 1].at)
    decreases |calls|
  {
    if calls != [] {
      var n := |calls| - 1;
      RunIsByRule(calls[..n], window, limit);
      AdmitAllSnoc([], calls[..n], calls[n], window, limit);
      assert calls[..n] + [calls[n]] == calls;
      var h := AdmitAll([], calls[..n], window, limit);
      if Admits(h, calls[n].at, window, limit) {
        AppendByRule(h, calls[n], window, limit);
      }
    }
  }

  /** Over a whole run from nothing, no interval (t - window, t] holds more than `limit` admissions. */
  lemma {:induction false} RunsKeepWindowBound(calls: seq<Admission>, window: nat, limit: nat, t: int)
    requires Ascending(calls)
    ensures CountWithin(AdmitAll([], calls, window, limit), t - window, t) <= limit
  {
    RunIsByRule(calls, window, limit);
    WindowBound(AdmitAll([], calls, window, limit), window, limit, t);
  }

  // ---------------------------------------------------------------- exact retry

  /** `retry` is exactly how long the refusals last if nothing is admitted meanwhile. */
  ghost predicate RetryIsExact(history: seq<Admission>, now: int, retry: int, window: nat, limit: nat) {
    && 1 <= retry <= window
    && forall t :: now <= t ==> (Admits(history, t, window, limit) <==> now + retry <= t)
  }

  lemma {:induction false} SameCount(history: seq<Admission>, cutoff: int, later: int)
    requires cutoff <= later
    requires forall i :: 0 <= i < |history| && history[i].at > cutoff ==> history[i].at > later
    ensures CountAfter(history, later) == CountAfter(history, cutoff)
  {
    if history != [] {
      var n := |history| - 1;
      assert forall i :: 0 <= i < n ==> history[..n][i] == history[i];
      SameCount(history[..n], cutoff, later);
    }
  }

  lemma {:induction false} OneLess(history: seq<Admission>, cutoff: int, later: int, i: nat)
    requires cutoff <= later && i < |history| && cutoff < history[i].at <= later
    ensures CountAfter(history, later) < CountAfter(history, cutoff)
  {
    var n := |history| - 1;
    if i < n {
      OneLess(history[..n], cutoff, later, i);
    } else {
      LaterCutoffCountsLess(history[..n], cutoff, later);
    }
  }

  lemma OldestGivesRetry(history: seq<Admission>, now: int, i: nat, window: nat, limit: nat)
    requires i < |history| && now - window < history[i].at <= now
    requires forall k :: 0 <= k < |history| && history[k].at > now - window ==> history[k].at >= history[i].at
    requires CountAfter(history, now - window) == limit
    ensures RetryIsExact(history, now, window - (now - history[i].at), window, limit)
  {
    var retry := window - (now - history[i].at);
    forall t | now <= t ensures Admits(history, t, window, limit) <==> now + retry <= t {
      if t < now + retry {
        SameCount(history, now - window, t - window);
      } else {
        OneLess(history, now - window, t - window, i);
      }
    }
  }

  /** After a refusal, every call before now + retry is refused as well, whatever the calls,
      and the first call at or after that moment is admitted. */
  lemma {:induction false} RefusedUntilRetry(history: seq<Admission>, now: int, retry: int, window: nat, limit: nat,
                                             calls: seq<Admission>, next: Admission)
    requires RetryIsExact(history, now, retry, window, limit)
    requires forall k :: 0 <= k < |calls| ==> now <= calls[k].at < now + retry
    requires now + retry <= next.at
    ensures AdmitAll(history, calls, window, limit) == history
    ensures AdmitAll(history, calls + [next], window, limit) == history + [next]
    decreases |calls|
  {
    if calls == [] {
      assert calls + [next] == [next];
    } else {
      assert !Admits(history, calls[0].at, window, limit);
      RefusedUntilRetry(history, now, retry, window, limit, calls[1..], next);
      assert (calls + [next])[1..] == calls[1..] + [next];
    }
  }

  // ---------------------------------------------------------------- the script

  lemma {:induction false} LeastExists(scores: map<string, int>) returns (m: string)
    requires scores != map[]
    ensures m in scores && forall k :: k in scores ==> scores[m] <= scores[k]
    decreases |scores|
  {
    var some :| some in scores;
    var rest := map k | k in scores && k != some :: scores[k];
    if rest == map[] {
      m := some;
      assert forall k :: k in scores && k != some ==> k in rest;
    } else {
      assert rest.Keys == scores.Keys - {some};
      assert |rest| < |scores|;
      var least := LeastExists(rest);
      m := if scores[some] <= rest[least] then some else least;
      assert forall k :: k in scores ==> k == some || k in rest;
    }
  }

  /** ZRANGE key 0 0 */
  method Oldest(scores: map<string, int>) returns (m: string)
    requires scores != map[]
    ensures m in scores && forall k :: k in scores ==> scores[m] <= scores[k]
  {
    ghost var least := LeastExists(scores);
    m :| m in scores && forall k :: k in scores ==> scores[m] <= scores[k];
  }

  lemma RetryOfOldest(history: seq<Admission>, now: int, m: string, window: nat, limit: nat)
    requires DistinctMembers(history) && CountAfter(history, now - window) == limit
    requires forall i :: 0 <= i < |history| ==> history[i].at <= now
    requires var recent := Recent(history, now - window);
             m in recent && forall k :: k in recent ==> recent[m] <= recent[k]
    ensures RetryIsExact(history, now, window - (now - Recent(history, now - window)[m]), window, limit)
  {
    var i := RecentSound(history, now - window, m);
    forall k | 0 <= k < |history| && history[k].at > now - window ensures history[k].at >= history[i].at {
      RecentComplete(history, now - window, k);
    }
    OldestGivesRetry(history, now, i, window, limit);
  }

  function Next(history: seq<Admission>, a: Admission, window: nat, limit: nat): seq<Admission> {
    if Admits(history, a.at, window, limit) then history + [a] else history
  }

  lemma {:induction false} NextInOrder(history: seq<Admission>, a: Admission, window: nat, limit: nat)
    requires Ascending(history) && DistinctMembers(history) && AdmittedByRule(history, window, limit)
    requires forall i :: 0 <= i < |history| ==> history[i].at <= a.at && history[i].member != a.member
    requires window > 0
    ensures var next := Next(history, a, window, limit);
            && Ascending(next) && DistinctMembers(next) && AdmittedByRule(next, window, limit)
            && (forall i :: 0 <= i < |next| ==> next[i].at <= a.at)
            && Recent(next, a.at - window)
               == if Admits(history, a.at, window, limit) then Recent(history, a.at - window)[a.member := a.at]
                  else Recent(history, a.at - window)
  {
    if Admits(history, a.at, window, limit) {
      assert (history + [a])[..|history|] == history;
      AppendByRule(history, a, window, limit);
    }
  }

  /** What a tenant's stored set knows of its history `h` after calls up to time `clock`. */
  predicate KeepsUpWith(stored: Option<SortedSet>, h: seq<Admission>, clock: int, window: nat, limit: nat) {
    && Ascending(h) && DistinctMembers(h) && AdmittedByRule(h, window, limit)
    && (forall i :: 0 <= i < |h| ==> h[i].at <= clock)
    && match stored
       case None => h == []
       case Some(SortedSet(scores, expiresAt)) =>
         && expiresAt <= clock + window
         && scores == Recent(h, expiresAt - 2 * window)
         && forall i :: 0 <= i < |h| ==> h[i].at + window <= expiresAt
  }

  lemma TimePasses(stored: Option<SortedSet>, h: seq<Admission>, clock: int, later: int, window: nat, limit: nat)
    requires KeepsUpWith(stored, h, clock, window, limit) && clock <= later
    ensures KeepsUpWith(stored, h, later, window, limit)
  {
  }

  datatype Call = Call(tenant: string, now: int, member: string)

  /** The calls of one tenant that reach the script: a call without a tenant does not. */
  function CallsOf(calls: seq<Call>, tenant: string): seq<Admission> {
    if calls == [] then []
    else
      var last := calls[|calls| - 1];
      CallsOf(calls[..|calls| - 1], tenant)
      + if last.tenant == tenant != "" then [Admission(last.now, last.member)] else []
  }

  /** No call of the tenant from the `n`th on reuses a member of its history. */
  predicate NewMembers(history: seq<Admission>, calls: seq<Call>, n: nat, tenant: string) {
    forall k, i :: 0 <= k < |history| && n <= i < |calls| && calls[i].tenant == tenant ==>
      history[k].member != calls[i].member
  }

  /** Calls in the order of time; two calls of one tenant never share a member. */
  predicate InTurn(calls: seq<Call>) {
    forall i, j :: 0 <= i < j < |calls| ==>
      && calls[i].now <= calls[j].now
      && (calls[i].tenant == calls[j].tenant ==> calls[i].member != calls[j].member)
  }

  /** The decision that counting over the whole history makes about `a`. */
  ghost predicate DecidesByCount(d: Decision, history: seq<Admission>, a: Admission, window: nat, limit: nat) {
    && (d.allowed <==> Admits(history, a.at, window, limit))
    && (d.allowed ==> d.retryMs == 0 && d.count == limit - CountAfter(history + [a], a.at - window))
    && (!d.allowed ==> d.count == limit && RetryIsExact(history, a.at, d.retryMs, window, limit))
  }

  function AfterCall(history: seq<Admission>, call: Call, tenant: string, window: nat, limit: nat): seq<Admission> {
    if call.tenant == tenant != "" then Next(history, Admission(call.now, call.member), window, limit) else history
  }

  lemma AfterCallIsNew(history: seq<Admission>, calls: seq<Call>, n: nat, tenant: string, window: nat, limit: nat)
    requires n < |calls| && NewMembers(history, calls, n, tenant) && InTurn(calls)
    ensures NewMembers(AfterCall(history, calls[n], tenant, window, limit), calls, n + 1, tenant)
  {
  }

  function Decided(history: seq<Admission>, calls: seq<Call>, tenant: string, window: nat, limit: nat): seq<Admission> {
    if calls == [] then history
    else
      var front, last := calls[..|calls| - 1], calls[|calls| - 1];
      AfterCall(Decided(history, front, tenant, window, limit), last, tenant, window, limit)
  }

  lemma {:induction false} DecidedIsAdmitAll(history: seq<Admission>, calls: seq<Call>, tenant: string,
                                             window: nat, limit: nat)
    ensures Decided(history, calls, tenant, window, limit) == AdmitAll(history, CallsOf(calls, tenant), window, limit)
  {
    if calls != [] {
      var front, last := calls[..|calls| - 1], calls[|calls| - 1];
      DecidedIsAdmitAll(history, front, tenant, window, limit);
      AdmitAllSnoc(history, CallsOf(front, tenant), Admission(last.now, last.member), window, limit);
      assert CallsOf(front, tenant) + [] == CallsOf(front, tenant);
    }
  }

  datatype Reply = Refuse(reason: string) | Decide(decision: Decision)

  class SlidingWindowLimiter {
    const windowMs: nat
    const limit: nat
    var sets: map<string, SortedSet>
    ghost var history: map<string, seq<Admission>>
    ghost var clock: int

    /** Everything ever admitted for a tenant. */
    ghost function Admitted(tenant: string): seq<Admission>
      reads this
    {
      if tenant in history then history[tenant] else []
    }

    function Stored(tenant: string): Option<SortedSet>
      reads this
    {
      if tenant in sets then Some(sets[tenant]) else None
    }

    ghost predicate Mirrors(tenant: string)
      reads this
    {
      KeepsUpWith(Stored(tenant), Admitted(tenant), clock, windowMs, limit)
    }

    ghost predicate Valid()
      reads this
    {
      windowMs > 0 && limit > 0 && forall tenant :: Mirrors(tenant)
    }

    constructor (limitPerMinute: int)
      ensures Valid() && (forall tenant :: Admitted(tenant) == [])
      ensures windowMs == 60_000
      ensures limit == if limitPerMinute <= 0 then 1 else limitPerMinute
    {
      windowMs := DEFAULT_WINDOW_MS;
      limit := if limitPerMinute <= 0 then DEFAULT_LIMIT else limitPerMinute;
      sets, history, clock := map[], map[], 0;
    }

    /** The stored scores at `now`: an expired key is empty. */
    function Scores(tenant: string, now: int): map<string, int>
      reads this
    {
      if tenant in sets && now <= sets[tenant].expiresAt then sets[tenant].scores else map[]
    }

    /** What the script sees after pruning is the recent part of the full history. */
    lemma PrunedIsRecent(tenant: string, now: int)
      requires Valid() && clock <= now
      ensures Prune(Scores(tenant, now), now - windowMs) == Recent(Admitted(tenant), now - windowMs)
    {
      assert Mirrors(tenant);
      var h := Admitted(tenant);
      if tenant in sets {
        if now <= sets[tenant].expiresAt {
          PruneRecent(h, sets[tenant].expiresAt - 2 * windowMs, now - windowMs);
        } else {
          var recent := Recent(h, now - windowMs);
          if recent != map[] {
            var m :| m in recent;
            var i := RecentSound(h, now - windowMs, m);
            assert false;
          }
        }
      }
    }

    /** The tenant's set after the script, expiring one window from now. */
    method StoreSet(tenant: string, now: int, scores: map<string, int>, ghost h: seq<Admission>)
      requires Valid() && clock <= now
      requires Ascending(h) && DistinctMembers(h) && AdmittedByRule(h, windowMs, limit)
      requires forall i :: 0 <= i < |h| ==> h[i].at <= now
      requires scores == Recent(h, now - windowMs)
      modifies this
      ensures Valid() && clock == now && Admitted(tenant) == h
      ensures forall other :: other != tenant ==> Admitted(other) == old(Admitted(other))
      ensures sets == old(sets)[tenant := SortedSet(scores, now + windowMs)]
    {
      sets := sets[tenant := SortedSet(scores, now + windowMs)];
      history := history[tenant := h];
      clock := now;
      assert Mirrors(tenant);
      forall other | other != tenant ensures Mirrors(other) {
        assert old(Mirrors(other)) && Stored(other) == old(Stored(other)) && Admitted(other) == old(Admitted(other));
        TimePasses(Stored(other), Admitted(other), old(clock), now, windowMs, limit);
      }
    }

    /** The script's body on the pruned set. */
    method RunScript(pruned: map<string, int>, now: int, member: string, ghost h: seq<Admission>)
      returns (scores: map<string, int>, decision: Decision)
      requires windowMs > 0 && limit > 0 && pruned == Recent(h, now - windowMs)
      requires Ascending(h) && DistinctMembers(h) && AdmittedByRule(h, windowMs, limit)
      requires forall i :: 0 <= i < |h| ==> h[i].at <= now && h[i].member != member
      ensures DecidesByCount(decision, h, Admission(now, member), windowMs, limit)
      ensures scores == if decision.allowed then pruned[member := now] else pruned
    {
      RecentIsCounted(h, now - windowMs);
      NeverOverLimit(h, windowMs, limit, now);
      scores := pruned;
      var current := |scores|;
      if current >= limit {
        var m := Oldest(scores);
        var retryMs := windowMs - (now - scores[m]);
        RetryOfOldest(h, now, m, windowMs, limit);
        if retryMs < 1 {
          retryMs := 1;
        }
        return scores, Decision(false, retryMs, current);
      }
      assert (h + [Admission(now, member)])[..|h|] == h;
      return scores[member := now], Decision(true, 0, limit - (current + 1));
    }

    /** Prune, decide, store, in one atomic script. */
    method EvalScript(tenant: string, now: int, member: string) returns (decision: Decision)
      requires Valid() && clock <= now
      requires forall i :: 0 <= i < |Admitted(tenant)| ==> Admitted(tenant)[i].member != member
      modifies this
      ensures Valid() && clock == now
      ensures Admitted(tenant) == Next(old(Admitted(tenant)), Admission(now, member), windowMs, limit)
      ensures forall other :: other != tenant ==> Admitted(other) == old(Admitted(other))
      ensures DecidesByCount(decision, old(Admitted(tenant)), Admission(now, member), windowMs, limit)
    {
      ghost var h := Admitted(tenant);
      PrunedIsRecent(tenant, now);
      assert Mirrors(tenant);
      var scores;
      scores, decision := RunScript(Prune(Scores(tenant, now), now - windowMs), now, member, h);
      NextInOrder(h, Admission(now, member), windowMs, limit);
      StoreSet(tenant, now, scores, Next(h, Admission(now, member), windowMs, limit));
    }

    /** The script, run atomically at `now`. It decides exactly as counting over the full
        history would; a refusal changes nothing that matters and its wait is exact. */
    method AllowTransactionSubmission(tenant: string, now: int, member: string) returns (reply: Reply)
      requires Valid() && clock <= now
      requires forall i :: 0 <= i < |Admitted(tenant)| ==> Admitted(tenant)[i].member != member
      modifies this
      ensures Valid()
      ensures reply.Refuse? <==> tenant == ""
      ensures forall t :: Admitted(t) == AfterCall(old(Admitted(t)), Call(tenant, now, member), t, windowMs, limit)
      ensures clock == if tenant == "" then old(clock) else now
      ensures reply.Decide? ==>
                DecidesByCount(reply.decision, old(Admitted(tenant)), Admission(now, member), windowMs, limit)
    {
      if tenant == "" {
        return Refuse("tenant id is required for rate limiting");
      }
      var decision := EvalScript(tenant, now, member);
      reply := Decide(decision);
    }

    method ServeNext(calls: seq<Call>, n: nat)
      requires Valid() && n < |calls| && clock <= calls[n].now && InTurn(calls)
      requires forall tenant :: NewMembers(Admitted(tenant), calls, n, tenant)
      modifies this
      ensures Valid() && clock <= calls[n].now
      ensures forall tenant :: Admitted(tenant) == AfterCall(old(Admitted(tenant)), calls[n], tenant, windowMs, limit)
      ensures forall tenant :: NewMembers(Admitted(tenant), calls, n + 1, tenant)
    {
      assert NewMembers(Admitted(calls[n].tenant), calls, n, calls[n].tenant);
      var reply := AllowTransactionSubmission(calls[n].tenant, calls[n].now, calls[n].member);
      assert calls[n] == Call(calls[n].tenant, calls[n].now, calls[n].member);
      forall tenant ensures NewMembers(Admitted(tenant), calls, n + 1, tenant) {
        AfterCallIsNew(old(Admitted(tenant)), calls, n, tenant, windowMs, limit);
      }
    }

    /** Any run of calls, of any tenants in any order: each tenant's admissions are those that
        the counting rule makes of its own calls alone. */
    method Serve(calls: seq<Call>)
      requires Valid() && InTurn(calls)
      requires calls != [] ==> clock <= calls[0].now
      requires forall tenant :: NewMembers(Admitted(tenant), calls, 0, tenant)
      modifies this
      ensures Valid()
      ensures forall tenant ::
                Admitted(tenant) == AdmitAll(old(Admitted(tenant)), CallsOf(calls, tenant), windowMs, limit)
    {
      assert calls[..0] == [];
      for n := 0 to |calls|
        invariant Valid() && (n < |calls| ==> clock <= calls[n].now)
        invariant forall tenant ::
                    Admitted(tenant) == Decided(old(Admitted(tenant)), calls[..n], tenant, windowMs, limit)
        invariant forall tenant :: NewMembers(Admitted(tenant), calls, n, tenant)
      {
        ServeNext(calls, n);
        assert calls[..n + 1][..n] == calls[..n];
      }
      assert calls[..|calls|] == calls;
      forall tenant
        ensures Admitted(tenant) == AdmitAll(old(Admitted(tenant)), CallsOf(calls, tenant), windowMs, limit)
      {
        DecidedIsAdmitAll(old(Admitted(tenant)), calls, tenant, windowMs, limit);
      }
    }

    /** At any time, no interval of one window's length holds more than the limit of what was ever
        admitted for a tenant. */
    lemma AdmittedWithinBound(tenant: string, t: int)
      requires Valid()
      ensures CountWithin(Admitted(tenant), t - windowMs, t) <= limit
    {
      assert Mirrors(tenant);
      WindowBound(Admitted(tenant), windowMs, limit, t);
    }
  }
}

/** The Retry-After header: whole seconds for a wait in nanoseconds. */
module RetryAfter {
  import opened RateLimiter

  const SECOND: int := 1_000_000_000
  const MILLISECOND: int := 1_000_000

  /** Go's division truncates toward zero; the argument is positive where it is used. */
  function RetryAfterSeconds(duration: int): int {
    if duration <= 0 then 1
    else
      var seconds := duration / SECOND + if duration % SECOND != 0 then 1 else 0;
      if seconds < 1 then 1 else seconds
  }

  /** The header is the least positive whole number of seconds that is not shorter than the wait. */
  lemma LeastWholeSeconds(duration: int)
    ensures var s := RetryAfterSeconds(duration);
            && 1 <= s && duration <= s * SECOND
            && forall n :: 1 <= n && duration <= n * SECOND ==> s <= n
  {
    var s := RetryAfterSeconds(duration);
    if duration > 0 {
      assert duration == duration / SECOND * SECOND + duration % SECOND;
      forall n | 1 <= n && duration <= n * SECOND ensures s <= n {
      }
    }
  }

  /** The header of a refusal is exact to the second: after that many seconds a call is admitted
      if nothing was admitted meanwhile, and after any smaller whole number it is refused. */
  lemma HeaderIsExact(history: seq<Admission>, now: int, retryMs: int, window: nat, limit: nat)
    requires RetryIsExact(history, now, retryMs, window, limit)
    ensures var s := RetryAfterSeconds(retryMs * MILLISECOND);
            && 1 <= s && Admits(history, now + 1000 * s, window, limit)
            && forall n :: 0 <= n < s ==> !Admits(history, now + 1000 * n, window, limit)
  {
    var s := RetryAfterSeconds(retryMs * MILLISECOND);
    LeastWholeSeconds(retryMs * MILLISECOND);
    forall n | 0 <= n < s ensures !Admits(history, now + 1000 * n, window, limit) {
      assert now + retryMs > now + 1000 * n;
    }
  }
}
