/** How far the rules can be relaxed without losing agreement: for each of them, when a run that
    breaks it still answers with one transaction per window, and runs that do not. */
module SubmissionAgreement {
  import opened Basics
  import opened Submission
  import opened SubmissionRuns
  import opened SubmissionWindow
  import opened SubmissionLimits

  /** All answers of a window agree, however the run goes on. */
  ghost predicate Agrees(rules: Rules, w: World) {
    forall events :: Valid(w, events) && Lawful(rules, w, events) ==> AgreeByEpoch(Exec(w, events).responses)
  }

  lemma InvStaysAgreed(w: World)
    requires Inv(w)
    ensures Agrees(Strict(w.ttl), w)
  {
    forall events | Valid(w, events) && Lawful(Strict(w.ttl), w, events)
      ensures AgreeByEpoch(Exec(w, events).responses)
    {
      RunKeepsInv(w, events);
      InvAgrees(Exec(w, events));
    }
  }

  lemma RunDisagrees(rules: Rules, w: World, events: seq<Event>, w': World, more: seq<Event>, v: World)
    requires Reaches(rules, w, events, w') && Reaches(rules, w', more, v) && !AgreeByEpoch(v.responses)
    ensures !Agrees(rules, w)
  {
    ReachesThen(rules, w, events, w', more, v);
    ReachesIsLawful(rules, w, events + more, v);
  }

  // ---------------------------------------------------------------- a loser's run

  function PeekEvents(h: HandlerId): seq<Event> {
    [Arrive(h), SetNX(h)] + [GetState(h)]
  }

  function AfterPeek(w: World, h: HandlerId): World {
    w.(handlers := w.handlers[h := Seen(w.clock)])
  }

  /** A request that arrives while another's pending record is live looks for a row. */
  lemma PeekReaches(rules: Rules, w: World, h: HandlerId)
    requires h !in w.handlers && Live(w) && !w.record.value.state.CompletedAs?
    ensures Reaches(rules, w, PeekEvents(h), AfterPeek(w, h))
  {
    var w1 := Apply(w, Arrive(h));
    var w2 := Apply(w1, SetNX(h));
    ReachesByStep(rules, w, Arrive(h));
    ReachesByStep(rules, w1, SetNX(h));
    ReachesThen(rules, w, [Arrive(h)], w1, [SetNX(h)], w2);
    assert [Arrive(h)] + [SetNX(h)] == [Arrive(h), SetNX(h)];
    ReachesByStep(rules, w2, GetState(h));
    assert Apply(w2, GetState(h)).handlers == AfterPeek(w, h).handlers;
    ReachesThen(rules, w, [Arrive(h), SetNX(h)], w2, [GetState(h)], AfterPeek(w, h));
  }

  function FindEvents(h: HandlerId, r: Row): seq<Event> {
    [Lookup(h, Some(r))] + [TestAge(h)]
  }

  function AfterFind(w: World, h: HandlerId, r: Row): World
    requires h in w.handlers && w.handlers[h].Seen?
  {
    w.(handlers := w.handlers[h := Marking(w.handlers[h].peekedAt, r)])
  }

  lemma FindReaches(rules: Rules, w: World, h: HandlerId, r: Row)
    requires h in w.handlers && w.handlers[h].Seen? && IsNewest(w.rows, Some(r)) && Replayable(w, r.createdAt)
    ensures Reaches(rules, w, FindEvents(h, r), AfterFind(w, h, r))
  {
    var w1 := Apply(w, Lookup(h, Some(r)));
    ReachesByStep(rules, w, Lookup(h, Some(r)));
    ReachesByStep(rules, w1, TestAge(h));
    assert Apply(w1, TestAge(h)).handlers == AfterFind(w, h, r).handlers;
    ReachesThen(rules, w, [Lookup(h, Some(r))], w1, [TestAge(h)], AfterFind(w, h, r));
  }

  lemma FindThenStall(rules: Rules, w: World, g: HandlerId, r: Row, n: nat) returns (events: seq<Event>, w': World)
    requires g in w.handlers && w.handlers[g].Seen? && IsNewest(w.rows, Some(r)) && Replayable(w, r.createdAt)
    requires n > 0 ==> forall h :: h in w.handlers ==> MayWait(rules, w.clock + n - 1, w.handlers[h])
    ensures Reaches(rules, w, events, w') && w' == AfterFind(w, g, r).(clock := w.clock + n)
  {
    var w1 := AfterFind(w, g, r);
    FindReaches(rules, w, g, r);
    w' := w1.(clock := w.clock + n);
    assert n > 0 ==> MayWait(rules, w.clock + n - 1, w.handlers[g]);
    TimePasses(rules, w1, n);
    events := FindEvents(g, r) + Ticks(n);
    ReachesThen(rules, w, FindEvents(g, r), w1, Ticks(n), w');
  }

  /** A loser's mark and a creator's in one epoch, for two rows. */
  lemma LoserAndCreatorMark(rules: Rules, w: World, g: HandlerId, k: HandlerId)
    returns (events: seq<Event>, w': World)
    requires g in w.handlers && w.handlers[g].Marking? && k in w.handlers && w.handlers[k].Created?
    requires w.handlers[g].candidate.id != w.handlers[k].row.id
    ensures Reaches(rules, w, events, w') && !AgreeByEpoch(w'.responses)
  {
    var w1 := Apply(w, LoserMark(g, true));
    ReachesByStep(rules, w, LoserMark(g, true));
    w' := Apply(w1, OwnerMark(k, true));
    ReachesByStep(rules, w1, OwnerMark(k, true));
    events := [LoserMark(g, true)] + [OwnerMark(k, true)];
    ReachesThen(rules, w, [LoserMark(g, true)], w1, [OwnerMark(k, true)], w');
    var n := |w.responses|;
    assert w'.responses[n] == Response(w.epoch, w.handlers[g].candidate.id);
    assert w'.responses[n + 1] == Response(w.epoch, w.handlers[k].row.id);
  }

  /** A loser that still holds a row of the last window when the next one is acquired. */
  lemma StaleMarkDisagrees(rules: Rules, w: World, g: HandlerId) returns (events: seq<Event>, w': World)
    requires g in w.handlers && w.handlers[g].Marking? && w.handlers[g].candidate in w.rows && !Live(w)
    ensures Reaches(rules, w, events, w') && !AgreeByEpoch(w'.responses)
  {
    var k, id := NewNames(w);
    var w1 := AfterCreate(AfterBegin(w, k), k, id);
    BeginAndCreateReaches(rules, w, k, id);
    var e2;
    e2, w' := LoserAndCreatorMark(rules, w1, g, k);
    events := BeginAndCreate(k, id) + e2;
    ReachesThen(rules, w, BeginAndCreate(k, id), w1, e2, w');
  }

  // ---------------------------------------------------------------- the time limits are exact

  lemma PeekDuringCreation(rules: Rules, ttl: nat) returns (events: seq<Event>, w: World)
    ensures Reaches(rules, NewWorld(ttl), events, w)
    ensures w == AfterPeek(AfterBegin(NewWorld(ttl), 1), 2)
  {
    var w0 := NewWorld(ttl);
    var w1 := AfterBegin(w0, 1);
    BeginReaches(rules, w0, 1);
    w := AfterPeek(w1, 2);
    PeekReaches(rules, w1, 2);
    events := [Arrive(1), SetNX(1)] + PeekEvents(2);
    ReachesThen(rules, w0, [Arrive(1), SetNX(1)], w1, PeekEvents(2), w);
  }

  lemma CreateAndMark(rules: Rules, w: World) returns (events: seq<Event>, w': World)
    requires 1 in w.handlers && w.handlers[1].Acquired? && w.rows == []
    ensures Reaches(rules, w, events, w')
    ensures w'.ttl == w.ttl && w'.clock == w.clock && w'.rows == [Row(1, w.clock, 1, w.epoch)]
    ensures w'.record == Some(Record(CompletedAs(1), w.clock + w.ttl))
    ensures w'.handlers == w.handlers[1 := Done(Accepted(1))]
  {
    var w1 := AfterCreate(w, 1, 1);
    CreateReaches(rules, w, 1, 1);
    w' := Apply(w1, OwnerMark(1, true));
    ReachesByStep(rules, w1, OwnerMark(1, true));
    events := [CreateStart(1), CreateCommit(1, 1)] + [OwnerMark(1, true)];
    ReachesThen(rules, w, [CreateStart(1), CreateCommit(1, 1)], w1, [OwnerMark(1, true)], w');
    assert w'.handlers == w.handlers[1 := Done(Accepted(1))];
  }

  /** A row stored and marked after a loser has seen the pending record. */
  lemma MarkUnderLoser(rules: Rules, ttl: nat) returns (events: seq<Event>, w: World)
    ensures Reaches(rules, NewWorld(ttl), events, w)
    ensures w.ttl == ttl && w.clock == 0 && w.record == Some(Record(CompletedAs(1), ttl)) && w.rows == [Row(1, 0, 1, 1)]
    ensures 2 in w.handlers && w.handlers[2] == Seen(0)
    ensures forall h :: h in w.handlers && h != 2 ==> h == 1 && w.handlers[h].Done?
  {
    var e1, w1 := PeekDuringCreation(rules, ttl);
    var e2;
    e2, w := CreateAndMark(rules, w1);
    events := e1 + e2;
    ReachesThen(rules, NewWorld(ttl), e1, w1, e2, w);
  }

  /** The loser then finds the row, and stalls. */
  lemma LoserStalls(rules: Rules, ttl: nat) returns (events: seq<Event>, w: World)
    requires rules.loserLimit.Some? ==> rules.loserLimit.value >= ttl
    ensures Reaches(rules, NewWorld(ttl), events, w)
    ensures w.ttl == ttl && w.clock == ttl
    ensures w.record == Some(Record(CompletedAs(1), ttl)) && w.rows == [Row(1, 0, 1, 1)]
    ensures 2 in w.handlers && w.handlers[2] == Marking(0, w.rows[0])
    ensures forall h :: h in w.handlers && h != 2 ==> h == 1 && w.handlers[h].Done?
  {
    var e1, w1 := MarkUnderLoser(rules, ttl);
    var e2;
    e2, w := FindThenStall(rules, w1, 2, w1.rows[0], ttl);
    events := e1 + e2;
    ReachesThen(rules, NewWorld(ttl), e1, w1, e2, w);
  }

  /** If a loser takes one tick longer than the TTL from its GET to its MarkCompleted, it
      overwrites the next window's record, and that window answers with two transactions,
      however quick the acquirers are. */
  lemma SlowLoserBreaksAgreement(ttl: nat, ownerLimit: nat)
    returns (before: seq<Event>, u: World, after: seq<Event>, v: World)
    ensures BreaksOnce(Rules(ownerLimit, Some(ttl), NoFailure), NewWorld(ttl), before, u, Tick, after, v)
    ensures u.clock == ttl && forall h :: h in u.handlers && SegmentOpen(u.handlers[h]) ==>
                                u.handlers[h].Marking? && u.handlers[h].peekedAt == 0
    ensures !AgreeByEpoch(v.responses)
  {
    var rules := Rules(ownerLimit, Some(ttl), NoFailure);
    before, u := LoserStalls(rules, ttl);
    assert !MayWait(rules, ttl, u.handlers[2]);
    after, v := StaleMarkDisagrees(rules, Apply(u, Tick), 2);
  }

  /** The time an acquirer and a loser may take: all answers of a window agree in every run if and
      only if both limits are at most the TTL. */
  lemma TimeLimitsAreExact(ttl: nat, ownerLimit: nat, loserLimit: nat)
    ensures Agrees(Rules(ownerLimit, Some(loserLimit), NoFailure), NewWorld(ttl))
       <==> ownerLimit <= ttl && loserLimit <= ttl
  {
    var rules, w := Rules(ownerLimit, Some(loserLimit), NoFailure), NewWorld(ttl);
    if ownerLimit > ttl {
      var before, u, after, v := SlowOwnerLosesWindow(ttl, Some(loserLimit));
      var events := WiderRulesAllow(Rules(ttl, Some(loserLimit), NoFailure), rules, w, before, u, Tick, after, v);
    } else if loserLimit > ttl {
      var before, u, after, v := SlowLoserBreaksAgreement(ttl, ownerLimit);
      var events := WiderRulesAllow(Rules(ownerLimit, Some(ttl), NoFailure), rules, w, before, u, Tick, after, v);
    } else {
      forall events | Valid(w, events) && Lawful(rules, w, events)
        ensures AgreeByEpoch(Exec(w, events).responses)
      {
        StricterIsLawful(rules, Strict(ttl), w, events);
        Agreement(w, events);
      }
    }
  }

  // ---------------------------------------------------------------- a row under a pending record

  function OpenSegments(w: World): set<HandlerId> {
    set h | h in w.handlers && SegmentOpen(w.handlers[h])
  }

  /** Requests can die one after the other; what is stored stays. */
  lemma {:induction false} RequestsDie(rules: Rules, w: World) returns (events: seq<Event>, w': World)
    requires forall h :: h in w.handlers ==> !w.handlers[h].Created?
    ensures Reaches(rules, w, events, w')
    ensures w' == w.(handlers := w'.handlers) && OpenSegments(w') == {}
    decreases |OpenSegments(w)|
  {
    if OpenSegments(w) == {} {
      events, w' := [], w;
    } else {
      var h :| h in OpenSegments(w);
      var w1 := Apply(w, Fail(h));
      ReachesByStep(rules, w, Fail(h));
      assert OpenSegments(w1) == OpenSegments(w) - {h};
      var rest;
      rest, w' := RequestsDie(rules, w1);
      events := [Fail(h)] + rest;
      ReachesThen(rules, w, [Fail(h)], w1, rest, w');
    }
  }

  lemma PeekThenStall(rules: Rules, w: World, r: Row) returns (events: seq<Event>, w': World, g: HandlerId)
    requires Live(w) && !w.record.value.state.CompletedAs? && OpenSegments(w) == {}
    requires IsNewest(w.rows, Some(r)) && Replayable(w, r.createdAt)
    requires rules.loserLimit.Some? ==> rules.loserLimit.value > 0
    ensures Reaches(rules, w, events, w') && w'.clock == w.clock + 1 && w'.record == w.record && w'.rows == w.rows
    ensures g in w'.handlers && w'.handlers[g] == Marking(w.clock, r)
  {
    var id;
    g, id := NewNames(w);
    var w1 := AfterPeek(w, g);
    PeekReaches(rules, w, g);
    forall h | h in w1.handlers ensures MayWait(rules, w1.clock, w1.handlers[h]) {
      assert h != g ==> h !in OpenSegments(w);
    }
    var e2;
    e2, w' := FindThenStall(rules, w1, g, r, 1);
    events := PeekEvents(g) + e2;
    ReachesThen(rules, w, PeekEvents(g), w1, e2, w');
  }

  /** A row that is within its TTL for as long as a pending record is live, with nobody about to
      mark it: a loser finds it as the record expires, and marks it in the next window. */
  lemma ExpireUnderLoser(rules: Rules, w: World, r: Row) returns (events: seq<Event>, w': World)
    requires Live(w) && !w.record.value.state.CompletedAs? && OpenSegments(w) == {}
    requires IsNewest(w.rows, Some(r)) && w.record.value.deadline <= r.createdAt + w.ttl
    requires rules.loserLimit.Some? ==> rules.loserLimit.value > 0
    ensures Reaches(rules, w, events, w') && !AgreeByEpoch(w'.responses)
  {
    var n := w.record.value.deadline - w.clock;
    var w1 := w.(clock := w.clock + n);
    forall h | h in w.handlers ensures !SegmentOpen(w.handlers[h]) {
      assert h !in OpenSegments(w);
    }
    TimePasses(rules, w, n);
    assert OpenSegments(w1) == {};
    var e2, w2, g := PeekThenStall(rules, w1, r);
    var e3;
    e3, w' := StaleMarkDisagrees(rules, w2, g);
    ReachesThen(rules, w1, e2, w2, e3, w');
    events := Ticks(n) + (e2 + e3);
    ReachesThen(rules, w, Ticks(n), w1, e2 + e3, w');
  }

  lemma PendingRowBreaksAgreement(rules: Rules, w: World, r: Row)
    requires Live(w) && !w.record.value.state.CompletedAs?
    requires forall h :: h in w.handlers ==> !w.handlers[h].Created?
    requires IsNewest(w.rows, Some(r)) && w.record.value.deadline <= r.createdAt + w.ttl
    requires rules.loserLimit.Some? ==> rules.loserLimit.value > 0
    ensures !Agrees(rules, w)
  {
    var e1, w1 := RequestsDie(rules, w);
    var e2, w2 := ExpireUnderLoser(rules, w1, r);
    RunDisagrees(rules, w, e1, w1, e2, w2);
  }

  // ---------------------------------------------------------------- a MarkCompleted that fails

  /** A loser that could have seen the record is outlived by it. */
  predicate Outlived(w: World, pc: Handler) {
    w.record.Some? && w.record.value.state.CompletedAs? && SegmentOpen(pc) && !OwnerPc(pc) ==>
      (pc.peekedAt <= w.record.value.deadline ==> pc.peekedAt + w.ttl <= w.record.value.deadline)
  }

  /** A completed record outlives the row it names, and every loser that could have seen it. */
  predicate RecordOutlives(w: World) {
    w.record.Some? && w.record.value.state.CompletedAs? ==>
      && w.rows != [] && w.rows[|w.rows| - 1].createdAt + w.ttl <= w.record.value.deadline
      && forall h :: h in w.handlers ==> Outlived(w, w.handlers[h])
  }

  lemma StepKeepsOutlived(w: World, e: Event, h: HandlerId)
    requires Inv(w) && RecordOutlives(w) && Enabled(w, e) && h in Apply(w, e).handlers
    ensures Outlived(Apply(w, e), Apply(w, e).handlers[h])
  {
    if h in w.handlers {
      assert HandlerOk(w, h, w.handlers[h]) && Outlived(w, w.handlers[h]);
    }
  }

  lemma StepKeepsRecordOutlives(w: World, e: Event)
    requires Inv(w) && RecordOutlives(w) && Enabled(w, e) && Obeys(Strict(w.ttl), w, e)
    ensures RecordOutlives(Apply(w, e))
  {
    if !e.Tick? && e.h in w.handlers {
      assert HandlerOk(w, e.h, w.handlers[e.h]);
    }
    forall h | h in Apply(w, e).handlers {
      StepKeepsOutlived(w, e, h);
    }
  }

  lemma {:induction false} RunKeepsRecordOutlives(w: World, events: seq<Event>)
    requires Inv(w) && RecordOutlives(w) && Valid(w, events) && Lawful(Strict(w.ttl), w, events)
    ensures RecordOutlives(Exec(w, events))
    decreases |events|
  {
    if events != [] {
      StepKeepsInv(w, events[0]);
      StepKeepsRecordOutlives(w, events[0]);
      RunKeepsRecordOutlives(Apply(w, events[0]), events[1..]);
    }
  }

  /** Once a loser has marked the creator's row, the creator's own mark is no longer needed. */
  lemma MarkedRowStaysHeld(w: World, h: HandlerId, r: Row, p: nat)
    requires Inv(w) && RecordOutlives(w) && Enabled(w, OwnerMark(h, false))
    requires w.record.Some? && w.record.value.state == CompletedAs(w.handlers[h].row.id)
    requires HeldFor(w, r, p) && p <= w.clock
    requires p == r.createdAt || exists k :: k in w.handlers && SegmentOpen(w.handlers[k]) && !OwnerPc(w.handlers[k])
                                             && w.handlers[k].peekedAt == p
    ensures HeldFor(Apply(w, OwnerMark(h, false)), r, p)
  {
    assert HandlerOk(w, h, w.handlers[h]);
    if r.owner in w.handlers && w.handlers[r.owner].Created? {
      assert HandlerOk(w, r.owner, w.handlers[r.owner]);
    }
  }

  lemma MarkedRowKeepsHandler(w: World, h: HandlerId, k: HandlerId)
    requires Inv(w) && RecordOutlives(w) && Enabled(w, OwnerMark(h, false))
    requires w.record.Some? && w.record.value.state == CompletedAs(w.handlers[h].row.id)
    requires k in w.handlers && k != h
    ensures HandlerOk(Apply(w, OwnerMark(h, false)), k, w.handlers[k])
  {
    var pc := w.handlers[k];
    assert HandlerOk(w, h, w.handlers[h]) && HandlerOk(w, k, pc);
    if SegmentOpen(pc) && !OwnerPc(pc) {
      forall r | HeldFor(w, r, pc.peekedAt) ensures HeldFor(Apply(w, OwnerMark(h, false)), r, pc.peekedAt) {
        MarkedRowStaysHeld(w, h, r, pc.peekedAt);
      }
    }
  }

  lemma MarkedRowKeepsInv(w: World, h: HandlerId)
    requires Inv(w) && RecordOutlives(w) && Enabled(w, OwnerMark(h, false))
    requires w.record.Some? && w.record.value.state == CompletedAs(w.handlers[h].row.id)
    ensures Inv(Apply(w, OwnerMark(h, false)))
  {
    var w' := Apply(w, OwnerMark(h, false));
    assert HandlerOk(w, h, w.handlers[h]);
    forall i | 0 <= i < |w.rows| && Replayable(w', w.rows[i].createdAt)
      ensures HeldFor(w', w.rows[i], w.rows[i].createdAt)
    {
      assert Replayable(w, w.rows[i].createdAt);
      MarkedRowStaysHeld(w, h, w.rows[i], w.rows[i].createdAt);
    }
    forall k | 0 <= k < |w'.responses| ensures Names(w'.rows, w'.responses[k]) {
      assert k < |w.responses| ==> Names(w.rows, w.responses[k]);
      assert w.rows[|w.rows| - 1] == w.handlers[h].row;
    }
    forall k | k in w'.handlers ensures HandlerOk(w', k, w'.handlers[k]) {
      if k != h {
        MarkedRowKeepsHandler(w, h, k);
      }
    }
  }

  /** When the creator's MarkCompleted fails, all answers of every window still agree, however the
      run goes on, if and only if a loser has marked the row already. */
  lemma FailedMarkKeepsAgreementIff(w: World, events: seq<Event>, h: HandlerId)
    requires Init(w) && w.ttl > 0 && Valid(w, events) && Lawful(Strict(w.ttl), w, events)
    requires Enabled(Exec(w, events), OwnerMark(h, false))
    ensures var u := Exec(w, events);
            && u.record.Some?
            && (Agrees(Strict(w.ttl), Apply(u, OwnerMark(h, false)))
                <==> u.record.value.state == CompletedAs(u.handlers[h].row.id))
  {
    RunKeepsInv(w, events);
    RunKeepsRecordOutlives(w, events);
    StricterIsLawful(Strict(w.ttl), Window(w.ttl), w, events);
    WindowIsKept(Window(w.ttl), w, events);
    var u := Exec(w, events);
    var pc, v := u.handlers[h], Apply(u, OwnerMark(h, false));
    assert HandlerOk(u, h, pc) && OwnerKeepsKey(u, {}, h, pc);
    if u.record.value.state == CompletedAs(pc.row.id) {
      MarkedRowKeepsInv(u, h);
      InvStaysAgreed(v);
    } else {
      PendingRowBreaksAgreement(Strict(w.ttl), v, pc.row);
    }
  }

  lemma FailThenExpire(rules: Rules, u: World, r: Row) returns (after: seq<Event>, v: World)
    requires u.handlers.Keys == {1} && u.handlers[1] == Created(r.createdAt, r) && u.rows == [r]
    requires u.record == Some(Record(PendingBy(1), u.clock + u.ttl)) && u.clock == r.createdAt
    requires rules.loserLimit.Some? ==> rules.loserLimit.value > 0
    ensures Reaches(rules, Apply(u, OwnerMark(1, false)), after, v) && !AgreeByEpoch(v.responses)
  {
    assert OpenSegments(Apply(u, OwnerMark(1, false))) == {};
    after, v := ExpireUnderLoser(rules, Apply(u, OwnerMark(1, false)), r);
  }

  /** A creator that inserts at the time of its Begin. */
  lemma CreatorAtOnce(ttl: nat) returns (events: seq<Event>, w: World)
    ensures Reaches(Strict(ttl), NewWorld(ttl), events, w)
    ensures w.ttl == ttl && w.clock == 0 && w.rows == [Row(1, 0, 1, 1)]
    ensures w.record == Some(Record(PendingBy(1), ttl))
    ensures w.handlers.Keys == {1} && w.handlers[1] == Created(0, Row(1, 0, 1, 1))
  {
    events, w := CreatorEvents(0), AfterCreate(AfterBegin(NewWorld(ttl), 1).(clock := 0), 1, 1);
    CreatorReaches(ttl, 0);
  }

  /** A MarkCompleted that fails while the key covers the row keeps the window but not agreement:
      the record expires with the row, under a loser that is within its own TTL. */
  lemma CoveredFailedMarkBreaksAgreement(ttl: nat)
    returns (before: seq<Event>, u: World, after: seq<Event>, v: World)
    requires ttl > 0
    ensures BreaksOnce(Strict(ttl), NewWorld(ttl), before, u, OwnerMark(1, false), after, v)
    ensures MarkIsCovered(u, 1)
    ensures !AgreeByEpoch(v.responses)
  {
    before, u := CreatorAtOnce(ttl);
    after, v := FailThenExpire(Strict(ttl), u, Row(1, 0, 1, 1));
  }

  // ---------------------------------------------------------------- a create error that hides a row

  lemma CreateThenBothMark(rules: Rules, w: World, g: HandlerId, k: HandlerId, id: RowId)
    returns (events: seq<Event>, w': World)
    requires g != k && g in w.handlers && w.handlers[g].Marking? && w.handlers[g].candidate in w.rows
    requires k in w.handlers && w.handlers[k].Acquired? && FreshId(w, id)
    ensures Reaches(rules, w, events, w') && !AgreeByEpoch(w'.responses)
  {
    var w1 := AfterCreate(w, k, id);
    CreateReaches(rules, w, k, id);
    var e2;
    e2, w' := LoserAndCreatorMark(rules, w1, g, k);
    events := [CreateStart(k), CreateCommit(k, id)] + e2;
    ReachesThen(rules, w, [CreateStart(k), CreateCommit(k, id)], w1, e2, w');
  }

  /** With the key gone, a loser of the next window finds the hidden row before that window has
      its own. */
  lemma HiddenRowIsFound(rules: Rules, w: World, r: Row) returns (events: seq<Event>, w': World)
    requires !Live(w) && IsNewest(w.rows, Some(r)) && Replayable(w, r.createdAt)
    ensures Reaches(rules, w, events, w') && !AgreeByEpoch(w'.responses)
  {
    var k, id := NewNames(w);
    var w1 := AfterBegin(w, k);
    BeginReaches(rules, w, k);
    var g, id' := NewNames(w1);
    var w2 := AfterPeek(w1, g);
    PeekReaches(rules, w1, g);
    ReachesThen(rules, w, [Arrive(k), SetNX(k)], w1, PeekEvents(g), w2);
    var e3, w3 := FindThenStall(rules, w2, g, r, 0);
    var e4;
    e4, w' := CreateThenBothMark(rules, w3, g, k, id);
    ReachesThen(rules, w2, e3, w3, e4, w');
    events := ([Arrive(k), SetNX(k)] + PeekEvents(g)) + (e3 + e4);
    ReachesThen(rules, w, [Arrive(k), SetNX(k)] + PeekEvents(g), w2, e3 + e4, w');
  }

  /** When a create error hides a stored row, agreement is lost in some continuation, whether Clear
      succeeds or not. */
  lemma HiddenRowBreaksAgreement(w: World, events: seq<Event>, h: HandlerId, id: RowId, cleared: bool)
    requires Init(w) && w.ttl > 0 && Valid(w, events) && Lawful(Strict(w.ttl), w, events)
    requires Enabled(Exec(w, events), CreateError(h, Some(id)))
    ensures !Agrees(Strict(w.ttl), Apply(Apply(Exec(w, events), CreateError(h, Some(id))), Clear(h, cleared)))
  {
    RunKeepsInv(w, events);
    StricterIsLawful(Strict(w.ttl), Window(w.ttl), w, events);
    WindowIsKept(Window(w.ttl), w, events);
    var u := Exec(w, events);
    assert HandlerOk(u, h, u.handlers[h]) && OwnerKeepsKey(u, {}, h, u.handlers[h]);
    var v := Apply(Apply(u, CreateError(h, Some(id))), Clear(h, cleared));
    var r := v.rows[|u.rows|];
    assert IsNewest(v.rows, Some(r));
    if cleared {
      var more, v' := HiddenRowIsFound(Strict(w.ttl), v, r);
      ReachesIsLawful(Strict(w.ttl), v, more, v');
    } else {
      PendingRowBreaksAgreement(Strict(w.ttl), v, r);
    }
  }
}
