/** How far the rules can be relaxed without losing the window: for each of them, when a run that
    breaks it still keeps rows apart, and runs that do not, for every TTL. */
module SubmissionLimits {
  import opened Basics
  import opened Submission
  import opened SubmissionRuns
  import opened SubmissionWindow

  // ---------------------------------------------------------------- building runs

  function NewWorld(ttl: nat): World {
    World(ttl, 0, None, [], map[], 0, [])
  }

  /** The steps are enabled, obey the rules, and lead from `w` to `w'`. */
  predicate Reaches(rules: Rules, w: World, events: seq<Event>, w': World)
    decreases |events|
  {
    if events == [] then w == w'
    else
      && Enabled(w, events[0]) && Obeys(rules, w, events[0])
      && Reaches(rules, Apply(w, events[0]), events[1..], w')
  }

  lemma {:induction false} ReachesIsLawful(rules: Rules, w: World, events: seq<Event>, w': World)
    ensures Reaches(rules, w, events, w') <==> Valid(w, events) && Lawful(rules, w, events) && Exec(w, events) == w'
    decreases |events|
  {
    if events != [] {
      if Enabled(w, events[0]) {
        ReachesIsLawful(rules, Apply(w, events[0]), events[1..], w');
      }
    }
  }

  lemma ReachesByStep(rules: Rules, w: World, e: Event)
    requires Enabled(w, e) && Obeys(rules, w, e)
    ensures Reaches(rules, w, [e], Apply(w, e))
  {
    assert [e][1..] == [];
  }

  lemma {:induction false} ReachesThen(rules: Rules, a: World, e1: seq<Event>, b: World, e2: seq<Event>, c: World)
    requires Reaches(rules, a, e1, b) && Reaches(rules, b, e2, c)
    ensures Reaches(rules, a, e1 + e2, c)
    decreases |e1|
  {
    if e1 == [] {
      assert e1 + e2 == e2;
    } else {
      ReachesThen(rules, Apply(a, e1[0]), e1[1..], b, e2, c);
      assert (e1 + e2)[1..] == e1[1..] + e2;
    }
  }

  function Ticks(n: nat): seq<Event> {
    if n == 0 then [] else [Tick] + Ticks(n - 1)
  }

  lemma {:induction false} TimePasses(rules: Rules, w: World, n: nat)
    requires n > 0 ==> forall h :: h in w.handlers ==> MayWait(rules, w.clock + n - 1, w.handlers[h])
    ensures Reaches(rules, w, Ticks(n), w.(clock := w.clock + n))
    decreases n
  {
    if n > 0 {
      forall h | h in w.handlers ensures MayWait(rules, w.clock, w.handlers[h]) {
        assert MayWait(rules, w.clock + n - 1, w.handlers[h]);
      }
      var w1 := w.(clock := w.clock + 1);
      ReachesByStep(rules, w, Tick);
      TimePasses(rules, w1, n - 1);
      ReachesThen(rules, w, [Tick], w1, Ticks(n - 1), w.(clock := w.clock + n));
    }
  }

  function AfterBegin(w: World, h: HandlerId): World {
    World(w.ttl, w.clock, Some(Record(PendingBy(h), w.clock + w.ttl)), w.rows,
          w.handlers[h := Acquired(w.clock)], w.epoch + 1, w.responses)
  }

  /** A request that arrives while the key is not live acquires it. */
  lemma BeginReaches(rules: Rules, w: World, h: HandlerId)
    requires h !in w.handlers && !Live(w)
    ensures Reaches(rules, w, [Arrive(h), SetNX(h)], AfterBegin(w, h))
  {
    var w1 := Apply(w, Arrive(h));
    ReachesByStep(rules, w, Arrive(h));
    ReachesByStep(rules, w1, SetNX(h));
    assert Apply(w1, SetNX(h)).handlers == AfterBegin(w, h).handlers;
    ReachesThen(rules, w, [Arrive(h)], w1, [SetNX(h)], AfterBegin(w, h));
    assert [Arrive(h)] + [SetNX(h)] == [Arrive(h), SetNX(h)];
  }

  function AfterCreate(w: World, h: HandlerId, id: RowId): World
    requires h in w.handlers && w.handlers[h].Acquired?
  {
    var row := Row(id, w.clock, h, w.epoch);
    World(w.ttl, w.clock, w.record, w.rows + [row], w.handlers[h := Created(w.handlers[h].begunAt, row)],
          w.epoch, w.responses)
  }

  lemma CreateReaches(rules: Rules, w: World, h: HandlerId, id: RowId)
    requires h in w.handlers && w.handlers[h].Acquired? && FreshId(w, id)
    ensures Reaches(rules, w, [CreateStart(h), CreateCommit(h, id)], AfterCreate(w, h, id))
  {
    var w1 := Apply(w, CreateStart(h));
    ReachesByStep(rules, w, CreateStart(h));
    ReachesByStep(rules, w1, CreateCommit(h, id));
    assert Apply(w1, CreateCommit(h, id)).handlers == AfterCreate(w, h, id).handlers;
    ReachesThen(rules, w, [CreateStart(h)], w1, [CreateCommit(h, id)], AfterCreate(w, h, id));
    assert [CreateStart(h)] + [CreateCommit(h, id)] == [CreateStart(h), CreateCommit(h, id)];
  }

  function BeginAndCreate(h: HandlerId, id: RowId): seq<Event> {
    [Arrive(h), SetNX(h)] + [CreateStart(h), CreateCommit(h, id)]
  }

  /** A request that arrives while the key is not live stores a row at once. */
  lemma BeginAndCreateReaches(rules: Rules, w: World, h: HandlerId, id: RowId)
    requires h !in w.handlers && !Live(w) && FreshId(w, id)
    ensures Reaches(rules, w, BeginAndCreate(h, id), AfterCreate(AfterBegin(w, h), h, id))
  {
    BeginReaches(rules, w, h);
    CreateReaches(rules, AfterBegin(w, h), h, id);
    ReachesThen(rules, w, [Arrive(h), SetNX(h)], AfterBegin(w, h), [CreateStart(h), CreateCommit(h, id)],
                AfterCreate(AfterBegin(w, h), h, id));
  }

  lemma {:induction false} FreshNat(used: set<nat>) returns (n: nat)
    ensures forall k :: k in used ==> k < n
    decreases |used|
  {
    n := 0;
    if used != {} {
      var some :| some in used;
      var rest := FreshNat(used - {some});
      n := if some < rest then rest else some + 1;
      forall k | k in used ensures k < n {
        assert k == some || k in used - {some};
      }
    }
  }

  // ---------------------------------------------------------------- which states are safe

  /** No way to go on brings two rows within the TTL of each other. */
  ghost predicate StaysApart(rules: Rules, w: World) {
    forall more :: Valid(w, more) && Lawful(rules, w, more) ==> !TooClose(Exec(w, more))
  }

  lemma KeptWindowStaysApart(rules: Rules, w: World)
    requires KeepsWindow(w, {}) && rules.ownerLimit <= w.ttl && !rules.failures.AnyFailure?
    ensures StaysApart(rules, w)
  {
    forall more | Valid(w, more) && Lawful(rules, w, more) ensures !TooClose(Exec(w, more)) {
      WindowIsKept(rules, w, more);
    }
  }

  lemma NewNames(w: World) returns (h: HandlerId, id: RowId)
    ensures h !in w.handlers && FreshId(w, id)
  {
    h := FreshNat(w.handlers.Keys);
    var ids := set i | 0 <= i < |w.rows| :: w.rows[i].id;
    id := FreshNat(ids);
    assert forall i :: 0 <= i < |w.rows| ==> w.rows[i].id in ids;
  }

  /** A row that nobody is about to mark and that the key does not cover: once the key is dead,
      the next request stores a second row while the first is within its TTL. */
  lemma UncoveredRowIsLost(w: World, i: nat)
    requires i < |w.rows| && w.clock <= w.rows[i].createdAt + w.ttl && !KeyCovers(w, w.rows[i].createdAt)
    requires forall h :: h in w.handlers ==> !OwnerPc(w.handlers[h])
    ensures !StaysApart(Window(w.ttl), w)
  {
    var n := if Live(w) then w.record.value.deadline + 1 - w.clock else 0;
    var w1 := w.(clock := w.clock + n);
    TimePasses(Window(w.ttl), w, n);
    var h, id := NewNames(w1);
    var w2 := AfterCreate(AfterBegin(w1, h), h, id);
    BeginAndCreateReaches(Window(w.ttl), w1, h, id);
    ReachesThen(Window(w.ttl), w, Ticks(n), w1, BeginAndCreate(h, id), w2);
    assert w2.rows[i] == w.rows[i] && w2.rows[|w.rows|].createdAt == w1.clock;
    ReachesIsLawful(Window(w.ttl), w, Ticks(n) + BeginAndCreate(h, id), w2);
    assert TooClose(w2);
  }

  // ---------------------------------------------------------------- a MarkCompleted that fails

  /** When the creator's MarkCompleted fails, the window is still kept if and only if the key, as
      it is at that moment, outlives the row. While the record is still the creator's own, that
      is so exactly when the row was created at the very time of Begin. */
  lemma FailedMarkIsHarmlessIff(w: World, events: seq<Event>, h: HandlerId)
    requires Init(w) && Valid(w, events) && Lawful(Window(w.ttl), w, events)
    requires Enabled(Exec(w, events), OwnerMark(h, false))
    ensures var u := Exec(w, events);
            var pc := u.handlers[h];
            && (StaysApart(Window(w.ttl), Apply(u, OwnerMark(h, false))) <==> KeyCovers(u, pc.row.createdAt))
            && (u.record.Some? && u.record.value.state == PendingBy(h) ==>
                  (KeyCovers(u, pc.row.createdAt) <==> pc.row.createdAt == pc.begunAt))
  {
    var rules := Window(w.ttl);
    WindowIsKept(rules, w, events);
    var u := Exec(w, events);
    var v := Apply(u, OwnerMark(h, false));
    assert OwnerKeepsKey(u, {}, h, u.handlers[h]);
    if KeyCovers(u, u.handlers[h].row.createdAt) {
      StepKeepsOwners(rules, u, {}, OwnerMark(h, false));
      StepKeepsRows(u, {}, OwnerMark(h, false));
      assert {} + LostBy(u, OwnerMark(h, false)) == {};
      KeptWindowStaysApart(rules, v);
    } else {
      UncoveredRowIsLost(v, |u.rows| - 1);
    }
  }

  // ---------------------------------------------------------------- a create error that hides a row

  lemma LostLater(rules: Rules, w: World, e: Event)
    requires Enabled(w, e) && Obeys(rules, w, e) && !StaysApart(rules, Apply(w, e))
    ensures !StaysApart(rules, w)
  {
    var w1 := Apply(w, e);
    var more :| Valid(w1, more) && Lawful(rules, w1, more) && TooClose(Exec(w1, more));
    var run := [e] + more;
    assert run[1..] == more;
    assert Valid(w, run) && Lawful(rules, w, run) && TooClose(Exec(w, run));
  }

  lemma CoveredHiddenRowIsKept(u: World, h: HandlerId, id: RowId)
    requires KeepsWindow(u, {}) && Enabled(u, CreateError(h, Some(id))) && KeyCovers(u, u.handlers[h].stamp)
    ensures KeepsWindow(Apply(Apply(u, CreateError(h, Some(id))), Clear(h, false)), {})
  {
    var v := Apply(Apply(u, CreateError(h, Some(id))), Clear(h, false));
    assert OwnerKeepsKey(u, {}, h, u.handlers[h]);
    forall i | 0 <= i < |u.rows| ensures !Replayable(v, v.rows[i].createdAt) {
      assert v.rows[i] == u.rows[i];
    }
  }

  /** When a create error hides a stored row, the window is lost in some continuation, through
      Clear. If Clear does not happen either, the window is kept if and only if the key outlives
      the row. */
  lemma HiddenRowIsHarmlessIff(w: World, events: seq<Event>, h: HandlerId, id: RowId)
    requires Init(w) && Valid(w, events) && Lawful(Window(w.ttl), w, events)
    requires Enabled(Exec(w, events), CreateError(h, Some(id)))
    ensures var u := Exec(w, events);
            var v := Apply(u, CreateError(h, Some(id)));
            && !StaysApart(Window(w.ttl), v)
            && !StaysApart(Window(w.ttl), Apply(v, Clear(h, true)))
            && (StaysApart(Window(w.ttl), Apply(v, Clear(h, false))) <==> KeyCovers(u, u.handlers[h].stamp))
  {
    var rules := Window(w.ttl);
    WindowIsKept(rules, w, events);
    var u := Exec(w, events);
    var v := Apply(u, CreateError(h, Some(id)));
    assert OwnerKeepsKey(u, {}, h, u.handlers[h]);
    UncoveredRowIsLost(Apply(v, Clear(h, true)), |u.rows|);
    LostLater(rules, v, Clear(h, true));
    if KeyCovers(u, u.handlers[h].stamp) {
      CoveredHiddenRowIsKept(u, h, id);
      KeptWindowStaysApart(rules, Apply(v, Clear(h, false)));
    } else {
      UncoveredRowIsLost(Apply(v, Clear(h, false)), |u.rows|);
    }
  }

  // ---------------------------------------------------------------- runs that break one rule once

  /** A run from `w` through `u` to `v` that obeys the rules but for the step `bad` at `u`. */
  predicate BreaksOnce(rules: Rules, w: World, before: seq<Event>, u: World, bad: Event, after: seq<Event>, v: World) {
    && Reaches(rules, w, before, u)
    && Enabled(u, bad) && !Obeys(rules, u, bad)
    && Reaches(rules, Apply(u, bad), after, v)
  }

  function CreatorEvents(gap: nat): seq<Event> {
    [Arrive(1), SetNX(1)] + (Ticks(gap) + [CreateStart(1), CreateCommit(1, 1)])
  }

  /** A creator that inserts `gap` ticks after its Begin. */
  lemma CreatorReaches(ttl: nat, gap: nat)
    requires gap <= ttl
    ensures Reaches(Strict(ttl), NewWorld(ttl), CreatorEvents(gap),
                    AfterCreate(AfterBegin(NewWorld(ttl), 1).(clock := gap), 1, 1))
  {
    var rules, w0 := Strict(ttl), NewWorld(ttl);
    var w1 := AfterBegin(w0, 1);
    BeginReaches(rules, w0, 1);
    var w2 := w1.(clock := gap);
    TimePasses(rules, w1, gap);
    CreateReaches(rules, w2, 1, 1);
    ReachesThen(rules, w1, Ticks(gap), w2, [CreateStart(1), CreateCommit(1, 1)], AfterCreate(w2, 1, 1));
    ReachesThen(rules, w0, [Arrive(1), SetNX(1)], w1, Ticks(gap) + [CreateStart(1), CreateCommit(1, 1)],
                AfterCreate(w2, 1, 1));
  }

  lemma WaitThenCreate(rules: Rules, w: World, n: nat) returns (events: seq<Event>, w': World)
    requires forall h :: h in w.handlers ==> w.handlers[h].Done?
    requires 2 !in w.handlers && !Live(w.(clock := w.clock + n)) && FreshId(w, 2)
    ensures Reaches(rules, w, events, w')
    ensures w'.rows == w.rows + [Row(2, w.clock + n, 2, w.epoch + 1)] && w'.ttl == w.ttl
  {
    var w1 := w.(clock := w.clock + n);
    TimePasses(rules, w, n);
    w' := AfterCreate(AfterBegin(w1, 2), 2, 2);
    BeginAndCreateReaches(rules, w1, 2, 2);
    events := Ticks(n) + BeginAndCreate(2, 2);
    ReachesThen(rules, w, Ticks(n), w1, BeginAndCreate(2, 2), w');
  }

  /** For every TTL and every time the creator lets pass between Begin and the insert: if its
      MarkCompleted fails, a second row can be stored within the TTL of the first. */
  lemma FailedMarkLosesWindow(ttl: nat, gap: nat)
    returns (before: seq<Event>, u: World, after: seq<Event>, v: World)
    requires 0 < gap <= ttl
    ensures BreaksOnce(Strict(ttl), NewWorld(ttl), before, u, OwnerMark(1, false), after, v)
    ensures u.handlers[1].row.createdAt == u.handlers[1].begunAt + gap
    ensures TooClose(v)
  {
    var rules := Strict(ttl);
    before, u := CreatorEvents(gap), AfterCreate(AfterBegin(NewWorld(ttl), 1).(clock := gap), 1, 1);
    CreatorReaches(ttl, gap);
    after, v := WaitThenCreate(rules, Apply(u, OwnerMark(1, false)), ttl + 1 - gap);
    assert v.rows[0].createdAt == gap && v.rows[1].createdAt == ttl + 1;
  }

  lemma ClearThenCreate(rules: Rules, w: World) returns (events: seq<Event>, w': World)
    requires 1 in w.handlers && w.handlers[1].Clearing? && 2 !in w.handlers && FreshId(w, 2)
    ensures Reaches(rules, w, events, w') && w'.rows == w.rows + [Row(2, w.clock, 2, w.epoch + 1)] && w'.ttl == w.ttl
  {
    var w1 := Apply(w, Clear(1, true));
    ReachesByStep(rules, w, Clear(1, true));
    w' := AfterCreate(AfterBegin(w1, 2), 2, 2);
    BeginAndCreateReaches(rules, w1, 2, 2);
    events := [Clear(1, true)] + BeginAndCreate(2, 2);
    ReachesThen(rules, w, [Clear(1, true)], w1, BeginAndCreate(2, 2), w');
  }

  /** If a create error hides a stored row, Clear lets a retry store a second one at once. */
  lemma HiddenRowLosesWindow(ttl: nat)
    returns (before: seq<Event>, u: World, after: seq<Event>, v: World)
    ensures BreaksOnce(Strict(ttl), NewWorld(ttl), before, u, CreateError(1, Some(1)), after, v)
    ensures TooClose(v)
  {
    var rules, w0 := Strict(ttl), NewWorld(ttl);
    var w1 := AfterBegin(w0, 1);
    BeginReaches(rules, w0, 1);
    u := Apply(w1, CreateStart(1));
    ReachesByStep(rules, w1, CreateStart(1));
    before := [Arrive(1), SetNX(1)] + [CreateStart(1)];
    ReachesThen(rules, w0, [Arrive(1), SetNX(1)], w1, [CreateStart(1)], u);
    var w2 := Apply(u, CreateError(1, Some(1)));
    after, v := ClearThenCreate(rules, w2);
    assert v.rows[0].createdAt == 0 && v.rows[1].createdAt == 0;
  }

  lemma BeginThenStall(rules: Rules, ttl: nat) returns (events: seq<Event>, w: World)
    requires rules.ownerLimit >= ttl
    ensures Reaches(rules, NewWorld(ttl), events, w)
    ensures w == AfterBegin(NewWorld(ttl), 1).(clock := ttl)
  {
    var w0 := NewWorld(ttl);
    var w1 := AfterBegin(w0, 1);
    BeginReaches(rules, w0, 1);
    w := w1.(clock := ttl);
    TimePasses(rules, w1, ttl);
    events := [Arrive(1), SetNX(1)] + Ticks(ttl);
    ReachesThen(rules, w0, [Arrive(1), SetNX(1)], w1, Ticks(ttl), w);
  }

  lemma OvertakeThenCreate(rules: Rules, w: World) returns (events: seq<Event>, w': World)
    requires 1 in w.handlers && w.handlers[1].Acquired? && 2 !in w.handlers && !Live(w) && w.rows == []
    ensures Reaches(rules, w, events, w')
    ensures w' == AfterCreate(AfterCreate(AfterBegin(w, 2), 2, 2), 1, 1)
  {
    var w1 := AfterCreate(AfterBegin(w, 2), 2, 2);
    BeginAndCreateReaches(rules, w, 2, 2);
    w' := AfterCreate(w1, 1, 1);
    CreateReaches(rules, w1, 1, 1);
    events := BeginAndCreate(2, 2) + [CreateStart(1), CreateCommit(1, 1)];
    ReachesThen(rules, w, BeginAndCreate(2, 2), w1, [CreateStart(1), CreateCommit(1, 1)], w');
  }

  /** Two creators in one epoch answer with two transactions. */
  lemma BothMark(rules: Rules, w: World, h: HandlerId, k: HandlerId) returns (events: seq<Event>, w': World)
    requires h != k && h in w.handlers && k in w.handlers && w.handlers[h].Created? && w.handlers[k].Created?
    requires w.handlers[h].row.id != w.handlers[k].row.id
    ensures Reaches(rules, w, events, w') && w'.rows == w.rows && w'.ttl == w.ttl && !AgreeByEpoch(w'.responses)
  {
    var w1 := Apply(w, OwnerMark(h, true));
    ReachesByStep(rules, w, OwnerMark(h, true));
    w' := Apply(w1, OwnerMark(k, true));
    ReachesByStep(rules, w1, OwnerMark(k, true));
    events := [OwnerMark(h, true)] + [OwnerMark(k, true)];
    ReachesThen(rules, w, [OwnerMark(h, true)], w1, [OwnerMark(k, true)], w');
    var n := |w.responses|;
    assert w'.responses[n] == Response(w.epoch, w.handlers[h].row.id);
    assert w'.responses[n + 1] == Response(w.epoch, w.handlers[k].row.id);
  }

  lemma OvertakeThenAnswer(rules: Rules, w: World) returns (events: seq<Event>, w': World)
    requires 1 in w.handlers && w.handlers[1].Acquired? && 2 !in w.handlers && !Live(w) && w.rows == []
    ensures Reaches(rules, w, events, w') && TooClose(w') && !AgreeByEpoch(w'.responses)
  {
    var e1, w1 := OvertakeThenCreate(rules, w);
    var e2;
    e2, w' := BothMark(rules, w1, 2, 1);
    events := e1 + e2;
    ReachesThen(rules, w, e1, w1, e2, w');
    assert w'.rows[0].createdAt == w.clock && w'.rows[1].createdAt == w.clock;
  }

  /** If the acquirer takes one tick longer than the TTL to insert, another request acquires the
      key in the meantime; both store a row, and both answers belong to one window. */
  lemma SlowOwnerLosesWindow(ttl: nat, loserLimit: Option<nat>)
    returns (before: seq<Event>, u: World, after: seq<Event>, v: World)
    ensures BreaksOnce(Rules(ttl, loserLimit, NoFailure), NewWorld(ttl), before, u, Tick, after, v)
    ensures u.clock == ttl && u.handlers == map[1 := Acquired(0)]
    ensures TooClose(v) && !AgreeByEpoch(v.responses)
  {
    var rules := Rules(ttl, loserLimit, NoFailure);
    before, u := BeginThenStall(rules, ttl);
    assert !MayWait(rules, ttl, u.handlers[1]);
    after, v := OvertakeThenAnswer(rules, Apply(u, Tick));
  }

  // ---------------------------------------------------------------- the time limit of acquirers is exact

  lemma StricterReaches(a: Rules, b: Rules, w: World, events: seq<Event>, w': World)
    requires Stricter(a, b) && Reaches(a, w, events, w')
    ensures Reaches(b, w, events, w')
  {
    ReachesIsLawful(a, w, events, w');
    StricterIsLawful(a, b, w, events);
    ReachesIsLawful(b, w, events, w');
  }

  /** Rules that also allow the bad step allow the whole run. */
  lemma WiderRulesAllow(a: Rules, b: Rules,
                        w: World, before: seq<Event>, u: World, bad: Event, after: seq<Event>, v: World)
    returns (events: seq<Event>)
    requires BreaksOnce(a, w, before, u, bad, after, v) && Stricter(a, b) && Obeys(b, u, bad)
    ensures Valid(w, events) && Lawful(b, w, events) && Exec(w, events) == v
  {
    StricterReaches(a, b, w, before, u);
    StricterReaches(a, b, Apply(u, bad), after, v);
    events := before + ([bad] + after);
    ReachesByStep(b, u, bad);
    ReachesThen(b, u, [bad], Apply(u, bad), after, v);
    ReachesThen(b, w, before, u, [bad] + after, v);
    ReachesIsLawful(b, w, events, v);
  }

  /** The time an acquirer may take: the window is kept in every run if and only if that limit is
      at most the TTL. */
  lemma OwnerLimitIsExact(ttl: nat, limit: nat)
    ensures StaysApart(Rules(limit, None, CoveredMarks), NewWorld(ttl)) <==> limit <= ttl
  {
    var rules, w := Rules(limit, None, CoveredMarks), NewWorld(ttl);
    if limit <= ttl {
      KeptWindowStaysApart(rules, w);
    } else {
      var before, u, after, v := SlowOwnerLosesWindow(ttl, None);
      var events := WiderRulesAllow(Rules(ttl, None, NoFailure), rules, w, before, u, Tick, after, v);
    }
  }
}
