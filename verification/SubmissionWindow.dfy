/** What keeps two rows of one reference apart. Losers may take as long as they like and may
    overwrite any record, since a Set only ever extends the key; and an acquirer's
    MarkCompleted may fail as long as the key, as it is, outlives the row. Other failures lose
    no more than the row they concern. */
module SubmissionWindow {
  import opened Basics
  import opened Submission
  import opened SubmissionRuns

  /** The row that a step leaves without protection: one whose MarkCompleted fails while the key
      does not outlive it, or one that a create error hides. */
  function LostBy(w: World, e: Event): set<RowId>
    requires Enabled(w, e)
  {
    match e
    case OwnerMark(h, ok) => if ok || MarkIsCovered(w, h) then {} else {w.handlers[h].row.id}
    case CreateError(_, stored) => if stored.Some? then {stored.value} else {}
    case _ => {}
  }

  function Lost(w: World, events: seq<Event>): set<RowId>
    requires Valid(w, events)
    decreases |events|
  {
    if events == [] then {} else LostBy(w, events[0]) + Lost(Apply(w, events[0]), events[1..])
  }

  predicate TooClose(w: World) {
    exists i, j :: 0 <= i < j < |w.rows| && w.rows[j].createdAt <= w.rows[i].createdAt + w.ttl
  }

  // ---------------------------------------------------------------- invariant

  predicate OlderOrLost(w: World, lost: set<RowId>, t: nat) {
    forall i :: 0 <= i < |w.rows| && w.rows[i].id !in lost ==> w.rows[i].createdAt + w.ttl < t
  }

  /** The one request between Begin and Mark or Clear, and what it finds. */
  predicate OwnerKeepsKey(w: World, lost: set<RowId>, h: HandlerId, pc: Handler)
    requires OwnerPc(pc)
  {
    && pc.begunAt <= w.clock <= pc.begunAt + w.ttl
    && KeyCovers(w, pc.begunAt)
    && (w.record.value.state == PendingBy(h) ==> w.record.value.deadline == pc.begunAt + w.ttl)
    && (if pc.Created? then IsLast(w, pc.row) && pc.row.owner == h && pc.begunAt <= pc.row.createdAt
        else OlderOrLost(w, lost, pc.begunAt))
    && (pc.Creating? ==> pc.begunAt <= pc.stamp <= w.clock)
  }

  predicate RowIsKept(w: World, r: Row) {
    || KeyCovers(w, r.createdAt)
    || (r.owner in w.handlers && w.handlers[r.owner].Created? && w.handlers[r.owner].row == r)
  }

  predicate SoleOwner(w: World) {
    forall h, k :: h in w.handlers && k in w.handlers && OwnerPc(w.handlers[h]) && OwnerPc(w.handlers[k]) ==> h == k
  }

  predicate OwnersKeepKey(w: World, lost: set<RowId>) {
    && (forall h :: h in w.handlers && OwnerPc(w.handlers[h]) ==> OwnerKeepsKey(w, lost, h, w.handlers[h]))
    && SoleOwner(w)
  }

  predicate RowsApart(w: World, lost: set<RowId>) {
    && (forall i :: 0 <= i < |w.rows| ==> w.rows[i].createdAt <= w.clock)
    && (forall i, j :: 0 <= i < j < |w.rows| && w.rows[i].id !in lost ==>
          w.rows[i].createdAt + w.ttl < w.rows[j].createdAt)
  }

  predicate RowsKept(w: World, lost: set<RowId>) {
    && RowsApart(w, lost)
    && (forall i :: 0 <= i < |w.rows| && w.rows[i].id !in lost && Replayable(w, w.rows[i].createdAt) ==>
          RowIsKept(w, w.rows[i]))
  }

  /** The invariant, for all rows but those that are `lost`. */
  predicate KeepsWindow(w: World, lost: set<RowId>) {
    OwnersKeepKey(w, lost) && RowsKept(w, lost)
  }

  /** When the key is not live nobody owns it and every row that is not lost is past its TTL. */
  lemma DeadKeyOwesNothing(w: World, lost: set<RowId>)
    requires KeepsWindow(w, lost) && !Live(w)
    ensures forall h :: h in w.handlers ==> !OwnerPc(w.handlers[h])
    ensures OlderOrLost(w, lost, w.clock)
  {
    forall i | 0 <= i < |w.rows| && w.rows[i].id !in lost ensures w.rows[i].createdAt + w.ttl < w.clock {
      assert Replayable(w, w.rows[i].createdAt) ==> RowIsKept(w, w.rows[i]);
    }
  }

  /** Only a request that finds the key dead becomes its owner. */
  lemma StepKeepsSoleOwner(w: World, lost: set<RowId>, e: Event)
    requires KeepsWindow(w, lost) && Enabled(w, e)
    ensures SoleOwner(Apply(w, e))
  {
    if e.SetNX? && !Live(w) {
      DeadKeyOwesNothing(w, lost);
    }
  }

  /** What the owner itself does next leaves it in order. */
  lemma OwnStepKeepsOwner(w: World, lost: set<RowId>, e: Event)
    requires KeepsWindow(w, lost) && Enabled(w, e) && !e.Tick? && !e.SetNX?
    requires e.h in w.handlers && OwnerPc(w.handlers[e.h]) && OwnerPc(Apply(w, e).handlers[e.h])
    ensures OwnerKeepsKey(Apply(w, e), lost + LostBy(w, e), e.h, Apply(w, e).handlers[e.h])
  {
    assert OwnerKeepsKey(w, lost, e.h, w.handlers[e.h]);
  }

  /** Nothing that others do takes the key from its owner. */
  lemma OthersKeepOwner(w: World, lost: set<RowId>, e: Event, h: HandlerId)
    requires KeepsWindow(w, lost) && Enabled(w, e) && !e.Tick? && e.h != h
    requires h in w.handlers && OwnerPc(w.handlers[h])
    ensures OwnerKeepsKey(Apply(w, e), lost + LostBy(w, e), h, w.handlers[h])
  {
    assert OwnerKeepsKey(w, lost, h, w.handlers[h]);
    if e.h in w.handlers {
      assert !OwnerPc(w.handlers[e.h]);
    }
  }

  lemma TickKeepsOwner(rules: Rules, w: World, lost: set<RowId>, h: HandlerId)
    requires KeepsWindow(w, lost) && Obeys(rules, w, Tick) && rules.ownerLimit <= w.ttl
    requires h in w.handlers && OwnerPc(w.handlers[h])
    ensures OwnerKeepsKey(Apply(w, Tick), lost, h, w.handlers[h])
  {
    assert OwnerKeepsKey(w, lost, h, w.handlers[h]) && MayWait(rules, w.clock, w.handlers[h]);
  }

  lemma StepKeepsOwners(rules: Rules, w: World, lost: set<RowId>, e: Event)
    requires KeepsWindow(w, lost) && Enabled(w, e) && Obeys(rules, w, e) && rules.ownerLimit <= w.ttl
    ensures OwnersKeepKey(Apply(w, e), lost + LostBy(w, e))
  {
    var w', lost' := Apply(w, e), lost + LostBy(w, e);
    StepKeepsSoleOwner(w, lost, e);
    forall h | h in w'.handlers && OwnerPc(w'.handlers[h]) ensures OwnerKeepsKey(w', lost', h, w'.handlers[h]) {
      if e.Tick? {
        TickKeepsOwner(rules, w, lost, h);
        assert lost' == lost;
      } else if e.h != h {
        OthersKeepOwner(w, lost, e, h);
      } else if e.SetNX? {
        DeadKeyOwesNothing(w, lost);
      } else {
        OwnStepKeepsOwner(w, lost, e);
      }
    }
  }

  /** A row that is kept and still replayable stays kept, or is lost by this very step. */
  lemma StepKeepsRow(w: World, lost: set<RowId>, e: Event, r: Row)
    requires KeepsWindow(w, lost) && Enabled(w, e)
    requires r in w.rows && r.id !in lost + LostBy(w, e) && Replayable(w, r.createdAt) && RowIsKept(w, r)
    ensures RowIsKept(Apply(w, e), r)
  {
    var i :| 0 <= i < |w.rows| && w.rows[i] == r;
    if !e.Tick? && e.h in w.handlers && OwnerPc(w.handlers[e.h]) {
      assert OwnerKeepsKey(w, lost, e.h, w.handlers[e.h]);
    }
  }

  lemma StepKeepsRowsApart(w: World, lost: set<RowId>, e: Event)
    requires KeepsWindow(w, lost) && Enabled(w, e)
    ensures RowsApart(Apply(w, e), lost + LostBy(w, e))
  {
    if e.CreateCommit? || e.CreateError? {
      assert OwnerKeepsKey(w, lost, e.h, w.handlers[e.h]);
    }
  }

  lemma StepKeepsRows(w: World, lost: set<RowId>, e: Event)
    requires KeepsWindow(w, lost) && Enabled(w, e)
    ensures RowsKept(Apply(w, e), lost + LostBy(w, e))
  {
    var w', lost' := Apply(w, e), lost + LostBy(w, e);
    StepKeepsRowsApart(w, lost, e);
    forall i | 0 <= i < |w'.rows| && w'.rows[i].id !in lost' && Replayable(w', w'.rows[i].createdAt)
      ensures RowIsKept(w', w'.rows[i])
    {
      if i < |w.rows| {
        assert w'.rows[i] == w.rows[i] && Replayable(w, w.rows[i].createdAt);
        StepKeepsRow(w, lost, e, w.rows[i]);
      }
    }
  }

  lemma {:induction false} RunKeepsWindow(rules: Rules, w: World, lost: set<RowId>, events: seq<Event>)
    requires KeepsWindow(w, lost) && Valid(w, events) && Lawful(rules, w, events) && rules.ownerLimit <= w.ttl
    ensures KeepsWindow(Exec(w, events), lost + Lost(w, events)) && Exec(w, events).ttl == w.ttl
    decreases |events|
  {
    if events == [] {
      assert lost + Lost(w, events) == lost;
    } else {
      var lost' := lost + LostBy(w, events[0]);
      StepKeepsOwners(rules, w, lost, events[0]);
      StepKeepsRows(w, lost, events[0]);
      RunKeepsWindow(rules, Apply(w, events[0]), lost', events[1..]);
      assert lost' + Lost(Apply(w, events[0]), events[1..]) == lost + Lost(w, events);
    }
  }

  /** Covered failures lose nothing. */
  lemma {:induction false} NothingIsLost(rules: Rules, w: World, events: seq<Event>)
    requires Valid(w, events) && Lawful(rules, w, events) && !rules.failures.AnyFailure?
    ensures Lost(w, events) == {}
    decreases |events|
  {
    if events != [] {
      NothingIsLost(rules, Apply(w, events[0]), events[1..]);
    }
  }

  lemma WindowIsKept(rules: Rules, w: World, events: seq<Event>)
    requires KeepsWindow(w, {}) && Valid(w, events) && Lawful(rules, w, events)
    requires rules.ownerLimit <= w.ttl && !rules.failures.AnyFailure?
    ensures KeepsWindow(Exec(w, events), {}) && Exec(w, events).ttl == w.ttl
  {
    RunKeepsWindow(rules, w, {}, events);
    NothingIsLost(rules, w, events);
    assert {} + Lost(w, events) == {};
  }

  // ---------------------------------------------------------------- guarantees

  /** At most one creation per window: any two rows ever stored under the reference were
      created more than the TTL apart. */
  lemma OneCreationPerWindow(w: World, events: seq<Event>)
    requires Init(w) && Valid(w, events) && Lawful(Window(w.ttl), w, events)
    ensures var rows := Exec(w, events).rows;
            forall i, j :: 0 <= i < j < |rows| ==> rows[i].createdAt + w.ttl < rows[j].createdAt
  {
    WindowIsKept(Window(w.ttl), w, events);
  }

  /** Failures stay local: whatever fails, if a row is followed by another within the TTL, then a
      create error hid it, or its own MarkCompleted failed while the key did not cover it. */
  lemma FailuresLoseOnlyTheirRow(w: World, events: seq<Event>)
    requires Init(w) && Valid(w, events) && Lawful(Prompt(w.ttl), w, events)
    ensures var rows := Exec(w, events).rows;
            forall i, j :: 0 <= i < j < |rows| && rows[j].createdAt <= rows[i].createdAt + w.ttl ==>
                             rows[i].id in Lost(w, events)
  {
    RunKeepsWindow(Prompt(w.ttl), w, {}, events);
    assert {} + Lost(w, events) == Lost(w, events);
  }

  /** Window hand-over: an acquisition finds no row that the age test would still replay, and
      no later step can make one of the rows it finds replayable again. */
  lemma WindowHandover(w: World, events: seq<Event>, h: HandlerId, more: seq<Event>)
    requires Init(w) && Valid(w, events) && Lawful(Window(w.ttl), w, events)
    requires Enabled(Exec(w, events), SetNX(h)) && Apply(Exec(w, events), SetNX(h)).handlers[h].Acquired?
    requires Valid(Apply(Exec(w, events), SetNX(h)), more)
    ensures var u := Exec(w, events);
            var later := Exec(Apply(u, SetNX(h)), more);
            && u.rows <= later.rows
            && (forall i :: 0 <= i < |u.rows| ==>
                  !Replayable(u, u.rows[i].createdAt) && !Replayable(later, u.rows[i].createdAt))
  {
    WindowIsKept(Window(w.ttl), w, events);
    var u := Exec(w, events);
    DeadKeyOwesNothing(u, {});
    RunsOnlyAdd(Apply(u, SetNX(h)), more);
  }

  /** The newest row under the reference is the last one stored, so a lookup never returns a
      row of an earlier window once a later one has created its own. */
  lemma LookupFindsLastRow(w: World, events: seq<Event>, h: HandlerId, newest: Option<Row>)
    requires Init(w) && Valid(w, events) && Lawful(Window(w.ttl), w, events)
    requires Enabled(Exec(w, events), Lookup(h, newest))
    ensures var u := Exec(w, events);
            newest == if u.rows == [] then None else Some(u.rows[|u.rows| - 1])
  {
    WindowIsKept(Window(w.ttl), w, events);
    var u := Exec(w, events);
    if newest.Some? {
      assert !Newer(u.rows[|u.rows| - 1], newest.value);
    }
  }
}
