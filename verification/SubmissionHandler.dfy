/** The submission handler's own code over a Redis key and a transactions table that other
    handlers and the clock keep changing between any two of its commands. */
module SubmissionHandler {
  import opened Basics
  import opened Submission
  import opened SubmissionRuns
  import opened SubmissionWindow

  /** What happens around one command: the steps of others (and of the clock) before it, and
      whether it returns an error. */
  datatype Slot = Slot(others: seq<Event>, fails: bool)

  datatype ReplaySlots = ReplaySlots(get: Slot, lookup: Slot, test: Slot, mark: Slot)

  /** One request: is its body valid, what id would its row get, does a create error hide a
      stored row, how often does it poll before the wait ends, and what goes on around it. */
  datatype Script = Script(
    begin: Slot, first: ReplaySlots, polls: seq<ReplaySlots>,
    valid: bool, id: RowId, hidden: bool, start: Slot, insert: Slot, mark: Slot, clear: Slot)

  predicate ByOther(e: Event, h: HandlerId) {
    e.Tick? || e.h != h
  }

  /** The state once other handlers and the clock have taken whatever steps of `others` they could. */
  function AfterOthers(w: World, h: HandlerId, others: seq<Event>): (reached: World)
    ensures h in w.handlers ==> h in reached.handlers && reached.handlers[h] == w.handlers[h]
  {
    if others == [] then w
    else
      var before, e := AfterOthers(w, h, others[..|others| - 1]), others[|others| - 1];
      if ByOther(e, h) && Enabled(before, e) then Apply(before, e) else before
  }

  /** Others are not held up by the handler's own code. */
  lemma OthersMove(w: World, h: HandlerId, others: seq<Event>, e: Event)
    requires (e.Tick? || e.h != h) && Enabled(AfterOthers(w, h, others), e)
    ensures AfterOthers(w, h, others + [e]) == Apply(AfterOthers(w, h, others), e)
  {
    assert (others + [e])[..|others|] == others;
  }

  lemma {:induction false} OthersOnlyAddRows(w: World, h: HandlerId, others: seq<Event>)
    ensures w.rows <= AfterOthers(w, h, others).rows
    decreases |others|
  {
    if others != [] {
      OthersOnlyAddRows(w, h, others[..|others| - 1]);
    }
  }

  /** How often a handler has asked Redis, and the table, for a transaction to replay. */
  datatype Tally = Tally(gets: nat, lookups: nat)

  function TallyOf(log: seq<Event>, h: HandlerId): Tally {
    if log == [] then Tally(0, 0)
    else
      var before, e := TallyOf(log[..|log| - 1], h), log[|log| - 1];
      Tally(before.gets + if e == GetState(h) then 1 else 0,
            before.lookups + if e.Lookup? && e.h == h then 1 else 0)
  }

  lemma LogGrows(w: World, log: seq<Event>, e: Event)
    requires Valid(w, log) && Enabled(Exec(w, log), e)
    ensures Valid(w, log + [e]) && Exec(w, log + [e]) == Apply(Exec(w, log), e)
    ensures forall h ::
              var before := TallyOf(log, h);
              TallyOf(log + [e], h) == Tally(before.gets + if e == GetState(h) then 1 else 0,
                                             before.lookups + if e.Lookup? && e.h == h then 1 else 0)
  {
    ExecConcat(w, log, [e]);
    assert [e][1..] == [];
    assert (log + [e])[..|log|] == log;
  }

  predicate AttemptFails(slots: ReplaySlots) {
    slots.get.fails || slots.lookup.fails
  }

  predicate SomeAttemptFails(script: Script) {
    AttemptFails(script.first) || exists i :: 0 <= i < |script.polls| && AttemptFails(script.polls[i])
  }

  function RowsBy(rows: seq<Row>, h: HandlerId): nat {
    if rows == [] then 0
    else RowsBy(rows[..|rows| - 1], h) + if rows[|rows| - 1].owner == h then 1 else 0
  }

  function Newest(rows: seq<Row>): (found: Option<Row>)
    ensures IsNewest(rows, found)
    ensures found.None? <==> rows == []
    ensures found.Some? ==> found.value in rows
    ensures found.Some? ==> forall i :: 0 <= i < |rows| ==>
              || rows[i].createdAt < found.value.createdAt
              || (rows[i].createdAt == found.value.createdAt && rows[i].id <= found.value.id)
  {
    if rows == [] then None
    else
      var last := rows[|rows| - 1];
      var before := Newest(rows[..|rows| - 1]);
      if before.Some? && Newer(before.value, last) then before else Some(last)
  }

  /** The state after an insert that others surround. */
  function AfterInsert(w: World, h: HandlerId, script: Script): World
    requires h in w.handlers && w.handlers[h].Creating?
  {
    var reached := AfterOthers(w, h, script.insert.others);
    var free := FreshId(reached, script.id);
    if !script.insert.fails && free then Apply(reached, CreateCommit(h, script.id))
    else Apply(reached, CreateError(h, if script.hidden && free then Some(script.id) else None))
  }

  predicate Calm(slot: Slot) {
    slot.others == [] && !slot.fails
  }

  predicate CalmReplay(slots: ReplaySlots) {
    Calm(slots.get) && Calm(slots.lookup) && Calm(slots.test) && Calm(slots.mark)
  }

  /** Nobody else moves and no command fails. */
  predicate Undisturbed(script: Script) {
    && Calm(script.begin) && Calm(script.start) && Calm(script.insert) && Calm(script.mark) && Calm(script.clear)
    && CalmReplay(script.first) && forall i :: 0 <= i < |script.polls| ==> CalmReplay(script.polls[i])
  }

  predicate HasCompletedRecord(w: World) {
    Live(w) && w.record.value.state.CompletedAs?
  }

  /** The transaction that a replay answers with: the one the record names, or else the newest
      row under the reference unless that one is too old. */
  function Offer(w: World): Option<RowId> {
    if HasCompletedRecord(w) then Some(w.record.value.state.rowId)
    else
      match Newest(w.rows)
      case None => None
      case Some(row) => if Replayable(w, row.createdAt) then Some(row.id) else None
  }

  function Completed(w: World, id: RowId): Option<Record> {
    Some(Record(CompletedAs(id), w.clock + w.ttl))
  }

  /** What one attempt to replay leads to when nothing disturbs it. */
  predicate Attempted(w: World, w': World, h: HandlerId, replayed: bool) {
    && h in w'.handlers && w'.clock == w.clock && w'.rows == w.rows
    && replayed == Offer(w).Some?
    && (replayed ==> w'.handlers[h] == Done(Replayed(Offer(w).value)))
    && w'.record == if HasCompletedRecord(w) || !replayed then w.record else Completed(w, Offer(w).value)
  }

  /** A GET that does not answer leaves the offer as it was. */
  lemma PeekKeepsOffer(w: World, w1: World, w': World, h: HandlerId, replayed: bool)
    requires w1.ttl == w.ttl && w1.clock == w.clock && w1.rows == w.rows && w1.record == w.record
    requires Attempted(w1, w', h, replayed)
    ensures Attempted(w, w', h, replayed)
  {
  }

  /** What is done with the row found is what the offer says. */
  lemma FoundIsOffered(w: World, w1: World, w': World, h: HandlerId, replayed: bool)
    requires w1.ttl == w.ttl && w1.clock == w.clock && w1.rows == w.rows && w1.record == w.record
    requires !HasCompletedRecord(w)
    requires h in w1.handlers && w1.handlers[h].Found? && Newest(w1.rows) == Some(w1.handlers[h].candidate)
    requires h in w'.handlers && w'.clock == w1.clock && w'.rows == w1.rows
    requires var r := w1.handlers[h].candidate;
             && replayed == Replayable(w1, r.createdAt)
             && (if replayed then w'.handlers[h] == Done(Replayed(r.id)) && w'.record == Completed(w1, r.id)
                 else w'.record == w1.record)
    ensures Attempted(w, w', h, replayed)
  {
  }

  predicate Insertable(w: World, script: Script) {
    script.valid && FreshId(w, script.id)
  }

  /** What the acquirer leads to, in the given epoch, when nothing disturbs it. */
  predicate Inserted(w: World, w': World, h: HandlerId, epoch: nat, script: Script, result: Outcome) {
    if Insertable(w, script) then
      && result == Accepted(script.id)
      && w'.rows == w.rows + [Row(script.id, w.clock, h, epoch)]
      && w'.record == Completed(w, script.id)
    else
      result == Error && w'.rows == w.rows && w'.record.None?
  }

  lemma InsertedThenConcluded(w: World, w1: World, w': World, h: HandlerId, script: Script, result: Outcome)
    requires w1.clock == w.clock && w1.ttl == w.ttl && w'.rows == w1.rows
    requires w1.rows == if Insertable(w, script) then w.rows + [Row(script.id, w.clock, h, w.epoch)] else w.rows
    requires if Insertable(w, script) then result == Accepted(script.id) && w'.record == Completed(w1, script.id)
             else result == Error && w'.record.None?
    ensures Inserted(w, w', h, w.epoch, script, result)
  {
  }

  /** What a request leads to when nothing disturbs it. */
  predicate Served(w: World, w': World, h: HandlerId, script: Script, result: Outcome) {
    if Live(w) then
      && Attempted(w, w', h, result.Replayed?)
      && (result.Replayed? || result.InProgress?)
    else
      Inserted(w, w', h, w.epoch + 1, script, result)
  }

  /** An acquisition changes neither the rows nor the clock, so the outcome is that of the state
      before it. */
  lemma ServedByCreating(w: World, w1: World, w': World, h: HandlerId, script: Script, result: Outcome)
    requires !Live(w) && w1.ttl == w.ttl && w1.clock == w.clock && w1.rows == w.rows && w1.epoch == w.epoch + 1
    requires Inserted(w1, w', h, w1.epoch, script, result)
    ensures Served(w, w', h, script, result)
  {
  }

  lemma ServedByReplaying(w: World, w1: World, w': World, h: HandlerId, script: Script, result: Outcome)
    requires Live(w) && w1.ttl == w.ttl && w1.clock == w.clock && w1.rows == w.rows && w1.record == w.record
    requires Attempted(w1, w', h, result.Replayed?) && (result.Replayed? || result.InProgress?)
    ensures Served(w, w', h, script, result)
  {
  }

  /** Whether a request with this answer may have stored `n` rows. */
  predicate Accounts(n: nat, result: Outcome, hidden: bool) {
    && n <= 1
    && (result.Accepted? ==> n == 1)
    && (!result.Accepted? && !(result.Error? && hidden) ==> n == 0)
  }

  predicate Stores(e: Event) {
    e.CreateCommit? || (e.CreateError? && e.stored.Some?)
  }

  /** What one step does to the other handlers, to the rows of each handler, and to what has
      been answered. */
  lemma StepEffect(w: World, e: Event)
    requires Enabled(w, e)
    ensures var w' := Apply(w, e);
            && (forall h :: ByOther(e, h) ==> (h in w'.handlers <==> h in w.handlers)
                                              && (h in w'.handlers ==> w'.handlers[h] == w.handlers[h]))
            && (forall h :: RowsBy(w'.rows, h) == RowsBy(w.rows, h) + if Stores(e) && !ByOther(e, h) then 1 else 0)
            && w.responses <= w'.responses
  {
    assert Stores(e) ==> Apply(w, e).rows[..|w.rows|] == w.rows;
  }

  class Service {
    const ttl: nat
    var clock: nat
    var record: Option<Record>
    var rows: seq<Row>
    var handlers: map<HandlerId, Handler>
    var epoch: nat
    var responses: seq<Response>

    ghost const origin: World
    ghost var log: seq<Event>

    function State(): World
      reads this
    {
      World(ttl, clock, record, rows, handlers, epoch, responses)
    }

    ghost predicate Consistent()
      reads this
    {
      Init(origin) && Valid(origin, log) && State() == Exec(origin, log)
    }

    constructor (ttl: nat)
      ensures Consistent() && log == [] && handlers == map[] && this.ttl == ttl
    {
      this.ttl := ttl;
      clock, record, rows, handlers, epoch, responses := 0, None, [], map[], 0, [];
      origin := World(ttl, 0, None, [], map[], 0, []);
      log := [];
    }

    method Step(e: Event)
      requires Consistent() && Enabled(State(), e)
      modifies this
      ensures Consistent() && State() == Apply(old(State()), e) && log == old(log) + [e]
      ensures forall h :: ByOther(e, h) ==> (h in handlers <==> h in old(handlers))
                                            && (h in handlers ==> handlers[h] == old(handlers)[h])
      ensures forall h :: RowsBy(rows, h) == RowsBy(old(rows), h) + if Stores(e) && !ByOther(e, h) then 1 else 0
      ensures old(responses) <= responses
      ensures forall h :: ByOther(e, h) ==> TallyOf(log, h) == old(TallyOf(log, h))
      ensures !e.Tick? ==>
                var before := old(TallyOf(log, e.h));
                TallyOf(log, e.h) == Tally(before.gets + if e.GetState? then 1 else 0,
                                           before.lookups + if e.Lookup? then 1 else 0)
    {
      LogGrows(origin, log, e);
      StepEffect(State(), e);
      var w := Apply(State(), e);
      clock, record, rows, handlers, epoch, responses := w.clock, w.record, w.rows, w.handlers, w.epoch, w.responses;
      log := log + [e];
    }

    /** Other handlers and the clock take whatever steps of `others` they can. */
    method Interfere(h: HandlerId, others: seq<Event>)
      requires Consistent() && h in handlers
      modifies this
      ensures Consistent() && h in handlers && handlers[h] == old(handlers[h])
      ensures RowsBy(rows, h) == RowsBy(old(rows), h) && old(responses) <= responses
      ensures State() == AfterOthers(old(State()), h, others) && TallyOf(log, h) == old(TallyOf(log, h))
    {
      assert others[..0] == [];
      for i := 0 to |others|
        invariant Consistent() && h in handlers && handlers[h] == old(handlers[h])
        invariant RowsBy(rows, h) == RowsBy(old(rows), h) && old(responses) <= responses
        invariant State() == AfterOthers(old(State()), h, others[..i]) && TallyOf(log, h) == old(TallyOf(log, h))
      {
        assert others[..i + 1][..i] == others[..i];
        if ByOther(others[i], h) && Enabled(State(), others[i]) {
          Step(others[i]);
        }
      }
      assert others[..|others|] == others;
    }

    /** Begin: SETNX with the TTL. */
    method Begin(h: HandlerId, slot: Slot) returns (ok: bool, acquired: bool)
      requires Consistent() && h in handlers && handlers[h].Arrived?
      modifies this
      ensures Consistent() && h in handlers && RowsBy(rows, h) == RowsBy(old(rows), h) && old(responses) <= responses
      ensures !ok ==> handlers[h].Arrived?
      ensures ok ==> if acquired then handlers[h].Acquired? else handlers[h].Lost?
      ensures ok <==> !slot.fails
      ensures var reached := AfterOthers(old(State()), h, slot.others);
              && State() == (if ok then Apply(reached, SetNX(h)) else reached)
              && acquired == (ok && !Live(reached))
      ensures TallyOf(log, h) == old(TallyOf(log, h))
      ensures Calm(slot) ==>
                && ok && acquired == !old(Live(State())) && clock == old(clock) && rows == old(rows)
                && (if acquired then epoch == old(epoch) + 1 else record == old(record))
    {
      Interfere(h, slot.others);
      ok, acquired := !slot.fails, false;
      if ok {
        acquired := !Live(State());
        Step(SetNX(h));
      }
    }

    /** The last response names this transaction, and it came after the first `n`. */
    predicate Answered(n: nat, outcome: Outcome)
      requires outcome.Accepted? || outcome.Replayed?
      reads this
    {
      |responses| > n && responses[|responses| - 1].rowId == outcome.rowId
    }

    predicate HasReplayed(h: HandlerId, n: nat)
      reads this
    {
      && h in handlers && handlers[h].Done? && handlers[h].outcome.Replayed?
      && Answered(n, handlers[h].outcome)
    }

    /** GET; a completed record is the answer. */
    method Peek(h: HandlerId, slot: Slot) returns (ok: bool, answered: bool)
      requires Consistent() && h in handlers && (handlers[h].Lost? || handlers[h].Polling?)
      modifies this
      ensures Consistent() && h in handlers && RowsBy(rows, h) == RowsBy(old(rows), h) && old(responses) <= responses
      ensures !ok ==> !answered && handlers[h] == old(handlers[h])
      ensures ok && !answered ==> handlers[h].Seen?
      ensures answered ==> HasReplayed(h, old(|responses|))
      ensures ok <==> !slot.fails
      ensures var reached := AfterOthers(old(State()), h, slot.others);
              && State() == (if ok then Apply(reached, GetState(h)) else reached)
              && answered == (ok && HasCompletedRecord(reached))
      ensures ok ==> TallyOf(log, h) == Tally(old(TallyOf(log, h)).gets + 1, old(TallyOf(log, h)).lookups)
      ensures Calm(slot) ==>
                && ok && answered == old(HasCompletedRecord(State()))
                && clock == old(clock) && rows == old(rows) && record == old(record)
                && (answered ==> handlers[h].outcome.rowId == record.value.state.rowId)
    {
      Interfere(h, slot.others);
      ok, answered := !slot.fails, false;
      if ok {
        answered := HasCompletedRecord(State());
        Step(GetState(h));
      }
    }

    /** Writes the completed record, if Redis lets it, and answers either way. */
    method CacheAndReplay(h: HandlerId, slot: Slot)
      requires Consistent() && h in handlers && handlers[h].Marking?
      modifies this
      ensures Consistent() && h in handlers && RowsBy(rows, h) == RowsBy(old(rows), h) && old(responses) <= responses
      ensures handlers[h] == Done(Replayed(old(handlers[h]).candidate.id))
      ensures State() == Apply(AfterOthers(old(State()), h, slot.others), LoserMark(h, !slot.fails))
      ensures TallyOf(log, h) == old(TallyOf(log, h))
      ensures Calm(slot) ==>
                clock == old(clock) && rows == old(rows) && record == old(Completed(State(), handlers[h].candidate.id))
      ensures Answered(old(|responses|), handlers[h].outcome)
    {
      Interfere(h, slot.others);
      Step(LoserMark(h, !slot.fails));
      assert responses[|responses| - 1].rowId == handlers[h].outcome.rowId;
    }

    /** Answers with the row found if it is within the TTL. */
    method ReplayIfRecent(h: HandlerId, slots: ReplaySlots) returns (replayed: bool)
      requires Consistent() && h in handlers && handlers[h].Found?
      modifies this
      ensures Consistent() && h in handlers && RowsBy(rows, h) == RowsBy(old(rows), h) && old(responses) <= responses
      ensures replayed ==> HasReplayed(h, old(|responses|))
      ensures !replayed ==> handlers[h].Polling?
      ensures var reached := AfterOthers(old(State()), h, slots.test.others);
              && replayed == Replayable(reached, old(handlers[h]).candidate.createdAt)
              && (!replayed ==> State() == Apply(reached, TestAge(h)))
      ensures replayed ==> handlers[h].outcome.rowId == old(handlers[h]).candidate.id
      ensures TallyOf(log, h) == old(TallyOf(log, h))
      ensures CalmReplay(slots) ==>
                && clock == old(clock) && rows == old(rows)
                && replayed == old(Replayable(State(), handlers[h].candidate.createdAt))
                && (if replayed then
                      && handlers[h] == Done(Replayed(old(handlers[h]).candidate.id))
                      && record == old(Completed(State(), handlers[h].candidate.id))
                    else record == old(record))
    {
      Interfere(h, slots.test.others);
      Step(TestAge(h));
      replayed := handlers[h].Marking?;
      if replayed {
        CacheAndReplay(h, slots.mark);
      }
    }

    /** GetTransactionByReference: the newest row by (created_at, id). */
    method FindByReference(h: HandlerId, slot: Slot) returns (ok: bool)
      requires Consistent() && h in handlers && handlers[h].Seen?
      modifies this
      ensures Consistent() && h in handlers && RowsBy(rows, h) == RowsBy(old(rows), h) && old(responses) <= responses
      ensures ok <==> !slot.fails
      ensures !ok ==> handlers[h].Seen?
      ensures var reached := AfterOthers(old(State()), h, slot.others);
              && clock == reached.clock && rows == reached.rows && record == reached.record
              && (ok ==>
                    if rows == [] then handlers[h].Polling?
                    else handlers[h].Found? && Newest(rows) == Some(handlers[h].candidate))
      ensures ok ==> TallyOf(log, h) == Tally(old(TallyOf(log, h)).gets, old(TallyOf(log, h)).lookups + 1)
    {
      Interfere(h, slot.others);
      ok := !slot.fails;
      if ok {
        Step(Lookup(h, Newest(rows)));
      }
    }

    /** Answers with the newest row under the reference if it is within the TTL. */
    method ReplayByReference(h: HandlerId, slots: ReplaySlots) returns (failed: bool, replayed: bool)
      requires Consistent() && h in handlers && handlers[h].Seen?
      modifies this
      ensures Consistent() && h in handlers && RowsBy(rows, h) == RowsBy(old(rows), h) && old(responses) <= responses
      ensures failed ==> !replayed && !handlers[h].Created? && !handlers[h].Done?
      ensures replayed ==> HasReplayed(h, old(|responses|))
      ensures !failed && !replayed ==> handlers[h].Polling?
      ensures failed <==> slots.lookup.fails
      ensures !failed ==> TallyOf(log, h) == Tally(old(TallyOf(log, h)).gets, old(TallyOf(log, h)).lookups + 1)
      ensures replayed ==>
                var newest := Newest(AfterOthers(old(State()), h, slots.lookup.others).rows);
                newest.Some? && handlers[h].outcome.rowId == newest.value.id
      ensures CalmReplay(slots) && !old(HasCompletedRecord(State())) ==>
                !failed && Attempted(old(State()), State(), h, replayed)
    {
      ghost var before := State();
      var ok := FindByReference(h, slots.lookup);
      failed, replayed := !ok, false;
      ghost var found := State();
      if ok && handlers[h].Found? {
        replayed := ReplayIfRecent(h, slots);
        if CalmReplay(slots) && !HasCompletedRecord(before) {
          FoundIsOffered(before, found, State(), h, replayed);
        }
      }
    }

    /** Answers from the stored record, or from the newest row under the reference if that row
        is within the TTL, in which case the completed record is written as well. */
    method TryReplay(h: HandlerId, slots: ReplaySlots) returns (failed: bool, replayed: bool)
      requires Consistent() && h in handlers && (handlers[h].Lost? || handlers[h].Polling?)
      modifies this
      ensures Consistent() && h in handlers && RowsBy(rows, h) == RowsBy(old(rows), h) && old(responses) <= responses
      ensures failed ==> !replayed && !handlers[h].Created? && !handlers[h].Done?
      ensures replayed ==> HasReplayed(h, old(|responses|))
      ensures !failed && !replayed ==> handlers[h].Polling?
      ensures var reached := AfterOthers(old(State()), h, slots.get.others);
              && (failed <==> slots.get.fails || (!HasCompletedRecord(reached) && slots.lookup.fails))
              && (!slots.get.fails && HasCompletedRecord(reached) ==>
                    replayed && handlers[h].outcome.rowId == reached.record.value.state.rowId)
      ensures !failed && !replayed ==>
                TallyOf(log, h) == Tally(old(TallyOf(log, h)).gets + 1, old(TallyOf(log, h)).lookups + 1)
      ensures CalmReplay(slots) ==> !failed && Attempted(old(State()), State(), h, replayed)
    {
      ghost var before := State();
      var ok;
      ok, replayed := Peek(h, slots.get);
      failed := !ok;
      ghost var peeked := State();
      if ok && !replayed {
        failed, replayed := ReplayByReference(h, slots);
        if CalmReplay(slots) {
          PeekKeepsOffer(before, peeked, State(), h, replayed);
        }
      }
    }

    /** Polls until a replay succeeds, an error occurs, or the wait is over. */
    method WaitForReplayableTransaction(h: HandlerId, polls: seq<ReplaySlots>) returns (failed: bool, replayed: bool)
      requires Consistent() && h in handlers && handlers[h].Polling?
      modifies this
      ensures Consistent() && h in handlers && RowsBy(rows, h) == RowsBy(old(rows), h) && old(responses) <= responses
      ensures failed ==> !replayed && !handlers[h].Created? && !handlers[h].Done?
      ensures replayed ==> HasReplayed(h, old(|responses|))
      ensures !failed && !replayed ==> handlers[h].Polling?
      ensures failed ==> exists i :: 0 <= i < |polls| && AttemptFails(polls[i])
      ensures !failed && !replayed ==>
                var before, after := old(TallyOf(log, h)), TallyOf(log, h);
                after.gets == before.gets + |polls| && after.lookups == before.lookups + |polls|
      ensures polls != [] ==>
                var reached := AfterOthers(old(State()), h, polls[0].get.others);
                && (polls[0].get.fails ==> failed)
                && (!polls[0].get.fails && HasCompletedRecord(reached) ==>
                      replayed && handlers[h].outcome.rowId == reached.record.value.state.rowId)
                && (!polls[0].get.fails && !HasCompletedRecord(reached) && polls[0].lookup.fails ==> failed)
      ensures (forall i :: 0 <= i < |polls| ==> CalmReplay(polls[i])) && old(Offer(State())).None? ==>
                && !failed && !replayed
                && clock == old(clock) && rows == old(rows) && record == old(record)
    {
      for i := 0 to |polls|
        invariant Consistent() && h in handlers && handlers[h].Polling?
        invariant RowsBy(rows, h) == RowsBy(old(rows), h) && old(responses) <= responses
        invariant i == 0 ==> State() == old(State())
        invariant i > 0 ==>
                    var reached := AfterOthers(old(State()), h, polls[0].get.others);
                    !polls[0].get.fails && !HasCompletedRecord(reached) && !polls[0].lookup.fails
        invariant var before, after := old(TallyOf(log, h)), TallyOf(log, h);
                  after.gets == before.gets + i && after.lookups == before.lookups + i
        invariant (forall k :: 0 <= k < |polls| ==> CalmReplay(polls[k])) && old(Offer(State())).None? ==>
                    clock == old(clock) && rows == old(rows) && record == old(record)
      {
        failed, replayed := TryReplay(h, polls[i]);
        if failed || replayed {
          return;
        }
      }
      return false, false;
    }

    /** INSERT ... 'pending', with the time read before; the primary key keeps ids apart. */
    method InsertPending(h: HandlerId, script: Script)
      requires Consistent() && h in handlers && handlers[h].Creating? && RowsBy(rows, h) == 0
      modifies this
      ensures Consistent() && h in handlers && old(responses) <= responses
      ensures handlers[h].Created? || handlers[h].Clearing?
      ensures handlers[h].Created? ==> RowsBy(rows, h) == 1
      ensures handlers[h].Clearing? ==> RowsBy(rows, h) <= 1 && (RowsBy(rows, h) > 0 ==> script.hidden)
      ensures State() == AfterInsert(old(State()), h, script)
      ensures handlers[h].Created? ==> !script.insert.fails && handlers[h].row.id == script.id
      ensures handlers[h].Clearing? && !script.insert.fails ==> !FreshId(State(), script.id)
      ensures Calm(script.insert) ==>
                && clock == old(clock)
                && if old(FreshId(State(), script.id)) then
                     && handlers[h].Created? && handlers[h].row == Row(script.id, old(handlers[h]).stamp, h, old(epoch))
                     && rows == old(rows) + [handlers[h].row]
                   else handlers[h].Clearing? && rows == old(rows)
    {
      Interfere(h, script.insert.others);
      if !script.insert.fails && FreshId(State(), script.id) {
        Step(CreateCommit(h, script.id));
      } else {
        var stored := if script.hidden && FreshId(State(), script.id) then Some(script.id) else None;
        Step(CreateError(h, stored));
      }
    }

    /** A row was stored and nothing has failed; or the body was invalid, the insert failed, or the
        id was taken. */
    ghost predicate CreationReady(script: Script, h: HandlerId)
      reads this
    {
      && h in handlers
      && (handlers[h].Created? ==> script.valid && !script.insert.fails && handlers[h].row.id == script.id)
      && (handlers[h].Clearing? ==> !script.valid || script.insert.fails || !FreshId(State(), script.id))
    }

    /** Validation, then the insert. */
    method CreatePendingTransaction(h: HandlerId, script: Script)
      requires Consistent() && h in handlers && handlers[h].Acquired? && RowsBy(rows, h) == 0
      modifies this
      ensures Consistent() && h in handlers && old(responses) <= responses
      ensures handlers[h].Created? || handlers[h].Clearing?
      ensures handlers[h].Created? ==> RowsBy(rows, h) == 1
      ensures handlers[h].Clearing? ==> RowsBy(rows, h) <= 1 && (RowsBy(rows, h) > 0 ==> script.hidden)
      ensures CreationReady(script, h)
      ensures var reached := AfterOthers(old(State()), h, script.start.others);
              State() == if script.valid then AfterInsert(Apply(reached, CreateStart(h)), h, script)
                         else Apply(reached, CreateReject(h))
      ensures Undisturbed(script) ==>
                && clock == old(clock)
                && if old(Insertable(State(), script)) then
                     && handlers[h].Created? && handlers[h].row == Row(script.id, old(clock), h, old(epoch))
                     && rows == old(rows) + [handlers[h].row]
                   else handlers[h].Clearing? && rows == old(rows)
    {
      Interfere(h, script.start.others);
      if script.valid {
        Step(CreateStart(h));
        InsertPending(h, script);
      } else {
        Step(CreateReject(h));
      }
    }

    method CacheAndAccept(h: HandlerId, slot: Slot) returns (result: Outcome)
      requires Consistent() && h in handlers && handlers[h].Created?
      modifies this
      ensures Consistent() && h in handlers && RowsBy(rows, h) == RowsBy(old(rows), h) && old(responses) <= responses
      ensures result == Accepted(old(handlers[h]).row.id) && handlers[h] == Done(result)
      ensures Answered(old(|responses|), result)
      ensures State() == Apply(AfterOthers(old(State()), h, slot.others), OwnerMark(h, !slot.fails))
      ensures |log| > 0 && log[|log| - 1] == OwnerMark(h, !slot.fails)
      ensures Calm(slot) ==> rows == old(rows) && record == old(Completed(State(), handlers[h].row.id))
    {
      Interfere(h, slot.others);
      result := Accepted(handlers[h].row.id);
      Step(OwnerMark(h, !slot.fails));
      assert responses[|responses| - 1].rowId == result.rowId;
    }

    /** DEL, whoever holds the key. */
    method ClearKey(h: HandlerId, slot: Slot)
      requires Consistent() && h in handlers && handlers[h].Clearing?
      modifies this
      ensures Consistent() && h in handlers && RowsBy(rows, h) == RowsBy(old(rows), h) && old(responses) <= responses
      ensures handlers[h] == Done(Error)
      ensures State() == Apply(AfterOthers(old(State()), h, slot.others), Clear(h, !slot.fails))
      ensures |log| > 0 && log[|log| - 1] == Clear(h, !slot.fails)
      ensures forall id :: !old(FreshId(State(), id)) ==> !FreshId(State(), id)
      ensures Calm(slot) ==> rows == old(rows) && record.None?
    {
      Interfere(h, slot.others);
      Step(Clear(h, !slot.fails));
      OthersOnlyAddRows(old(State()), h, slot.others);
    }

    /** An acceptance ends with the mark, and nothing before it has failed; a refusal ends with the
        clear, and the body was invalid, the insert failed, or the id was taken. */
    ghost predicate CreationExplains(script: Script, h: HandlerId, result: Outcome)
      reads this
    {
      && |log| > 0 && (result.Accepted? || result.Error?)
      && (result.Accepted? ==>
            && log[|log| - 1] == OwnerMark(h, !script.mark.fails)
            && script.valid && !script.insert.fails && result.rowId == script.id)
      && (result.Error? ==>
            && log[|log| - 1] == Clear(h, !script.clear.fails)
            && (!script.valid || script.insert.fails || !FreshId(State(), script.id)))
    }

    /** Marks the key completed and accepts, or clears it and refuses. */
    method Conclude(h: HandlerId, script: Script) returns (result: Outcome)
      requires Consistent() && h in handlers && (handlers[h].Created? || handlers[h].Clearing?)
      requires CreationReady(script, h)
      modifies this
      ensures Consistent() && h in handlers && RowsBy(rows, h) == RowsBy(old(rows), h) && old(responses) <= responses
      ensures handlers[h] == Done(result)
      ensures result == if old(handlers[h].Created?) then Accepted(old(handlers[h]).row.id) else Error
      ensures result.Accepted? ==> Answered(old(|responses|), result)
      ensures CreationExplains(script, h, result)
      ensures Undisturbed(script) ==>
                && rows == old(rows)
                && record == if result.Accepted? then old(Completed(State(), handlers[h].row.id)) else None
    {
      if handlers[h].Created? {
        result := CacheAndAccept(h, script.mark);
      } else {
        ClearKey(h, script.clear);
        result := Error;
      }
    }

    /** A conflict comes after every attempt was made and none failed; an error comes after one
        that failed. */
    ghost predicate ReplayExplains(script: Script, h: HandlerId, before: Tally, result: Outcome)
      reads this
    {
      && |log| > 0
      && (result.InProgress? ==>
            && log[|log| - 1] == GiveUp(h)
            && TallyOf(log, h) == Tally(before.gets + 1 + |script.polls|, before.lookups + 1 + |script.polls|))
      && (result.Error? ==> log[|log| - 1] == Fail(h) && SomeAttemptFails(script))
      && (script.first.get.fails ==> result.Error?)
    }

    /** Insert the pending row, then mark the key completed; clear the key if creation fails. */
    method Create(h: HandlerId, script: Script) returns (result: Outcome)
      requires Consistent() && h in handlers && handlers[h].Acquired? && RowsBy(rows, h) == 0
      modifies this
      ensures Consistent() && h in handlers && handlers[h] == Done(result)
      ensures result.Accepted? || result.Error?
      ensures Accounts(RowsBy(rows, h), result, script.hidden)
      ensures old(responses) <= responses
      ensures result.Accepted? ==> Answered(old(|responses|), result)
      ensures CreationExplains(script, h, result)
      ensures Undisturbed(script) ==> Inserted(old(State()), State(), h, old(epoch), script, result)
    {
      ghost var before := State();
      CreatePendingTransaction(h, script);
      ghost var between := State();
      result := Conclude(h, script);
      if Undisturbed(script) {
        InsertedThenConcluded(before, between, State(), h, script, result);
      }
    }

    /** The first attempt, and the polls if it offers nothing. */
    method Attempt(h: HandlerId, script: Script) returns (failed: bool, replayed: bool)
      requires Consistent() && h in handlers && handlers[h].Lost?
      modifies this
      ensures Consistent() && h in handlers && RowsBy(rows, h) == RowsBy(old(rows), h) && old(responses) <= responses
      ensures failed ==> !replayed && !handlers[h].Created? && !handlers[h].Done? && SomeAttemptFails(script)
      ensures replayed ==> HasReplayed(h, old(|responses|))
      ensures !failed && !replayed ==> handlers[h].Polling?
      ensures !failed && !replayed ==>
                var before := old(TallyOf(log, h));
                TallyOf(log, h) == Tally(before.gets + 1 + |script.polls|, before.lookups + 1 + |script.polls|)
      ensures script.first.get.fails ==> failed
      ensures Undisturbed(script) ==> !failed && Attempted(old(State()), State(), h, replayed)
    {
      ghost var before := State();
      failed, replayed := TryReplay(h, script.first);
      ghost var first := State();
      if !failed && !replayed {
        failed, replayed := WaitForReplayableTransaction(h, script.polls);
        if Undisturbed(script) {
          assert Offer(first).None?;
          assert State().clock == first.clock && State().rows == first.rows && State().record == first.record;
        }
      }
    }

    method Replay(h: HandlerId, script: Script) returns (result: Outcome)
      requires Consistent() && h in handlers && handlers[h].Lost?
      modifies this
      ensures Consistent() && h in handlers && handlers[h] == Done(result) && !result.Accepted?
      ensures RowsBy(rows, h) == RowsBy(old(rows), h) && old(responses) <= responses
      ensures result.Replayed? ==> Answered(old(|responses|), result)
      ensures ReplayExplains(script, h, old(TallyOf(log, h)), result)
      ensures Undisturbed(script) ==>
                Attempted(old(State()), State(), h, result.Replayed?) && (result.Replayed? || result.InProgress?)
    {
      var failed, replayed := Attempt(h, script);
      if failed {
        Step(Fail(h));
      } else if !replayed {
        Step(GiveUp(h));
      }
      result := handlers[h].outcome;
    }

    /** The answer fits what the script let happen, from the state that Begin found. */
    ghost predicate Explained(found: World, script: Script, h: HandlerId, before: Tally, result: Outcome)
      reads this
    {
      if script.begin.fails then
        result == Error && |log| > 0 && log[|log| - 1] == Fail(h)
      else if Live(found) then
        ReplayExplains(script, h, before, result)
      else
        CreationExplains(script, h, result)
    }

    /** From Begin on. */
    method Serve(h: HandlerId, script: Script) returns (result: Outcome)
      requires Consistent() && h in handlers && handlers[h].Arrived? && RowsBy(rows, h) == 0
      modifies this
      ensures Consistent() && h in handlers && handlers[h] == Done(result)
      ensures old(responses) <= responses
      ensures result.Accepted? || result.Replayed? ==> Answered(old(|responses|), result)
      ensures Accounts(RowsBy(rows, h), result, script.hidden)
      ensures Explained(AfterOthers(old(State()), h, script.begin.others), script, h, old(TallyOf(log, h)), result)
      ensures Undisturbed(script) ==> Served(old(State()), State(), h, script, result)
    {
      ghost var before := State();
      var ok, acquired := Begin(h, script.begin);
      ghost var begun := State();
      if !ok {
        Step(Fail(h));
        return Error;
      }
      if acquired {
        result := Create(h, script);
        if Undisturbed(script) {
          ServedByCreating(before, begun, State(), h, script, result);
        }
      } else {
        result := Replay(h, script);
        if Undisturbed(script) {
          ServedByReplaying(before, begun, State(), h, script, result);
        }
      }
    }

    /** The request either acquires the reference and creates at most one row, or answers with
        a row that is already there, or gives up without creating anything. Undisturbed, which
        of these it does, and what it leaves stored, follows from the state it finds. */
    method HandleTransactionPlace(h: HandlerId, script: Script) returns (result: Outcome)
      requires Consistent() && h !in handlers && RowsBy(rows, h) == 0
      modifies this
      ensures Consistent() && h in handlers && handlers[h] == Done(result)
      ensures old(responses) <= responses
      ensures result.Accepted? || result.Replayed? ==> Answered(old(|responses|), result)
      ensures Accounts(RowsBy(rows, h), result, script.hidden)
      ensures Explained(AfterOthers(Apply(old(State()), Arrive(h)), h, script.begin.others),
                        script, h, old(TallyOf(log, h)), result)
      ensures Undisturbed(script) ==> Served(old(State()), State(), h, script, result)
    {
      Step(Arrive(h));
      result := Serve(h, script);
    }

    /** Under the hypotheses, everything proved of runs holds of what these methods leave. */
    lemma StaysOk()
      requires Consistent() && Lawful(Strict(origin.ttl), origin, log)
      ensures Inv(State())
    {
      RunKeepsInv(origin, log);
    }

    /** The window needs less than that. */
    lemma StaysApart()
      requires Consistent() && Lawful(Window(origin.ttl), origin, log)
      ensures forall i, j :: 0 <= i < j < |rows| ==> rows[i].createdAt + ttl < rows[j].createdAt
    {
      OneCreationPerWindow(origin, log);
      RunsOnlyAdd(origin, log);
    }
  }
}

/** Redis keys of different tenants and references. */
module ReferenceKey {
  const PREFIX := "idempotency:txn"

  function BuildKey(tenantId: string, reference: string): string {
    PREFIX + ":" + tenantId + ":" + reference
  }

  /** The longer tenant id starts with the shorter one and a separator. */
  predicate Extends(longer: string, shorter: string) {
    shorter + ":" <= longer
  }

  /** The key, letter by letter, and what follows its prefix. */
  lemma KeyParts(tenantId: string, reference: string)
    ensures BuildKey(tenantId, reference) == "idempotency:txn:" + tenantId + ":" + reference
    ensures BuildKey(tenantId, reference)[|PREFIX| + 1..] == tenantId + ":" + reference
  {
    assert PREFIX + ":" == "idempotency:txn:";
  }

  /** Tenants that share a key are the same, or the longer one extends the shorter. */
  lemma SharedKeySplits(t1: string, r1: string, t2: string, r2: string)
    requires BuildKey(t1, r1) == BuildKey(t2, r2)
    ensures if |t1| == |t2| then t1 == t2 && r1 == r2 else Extends(t2, t1) || Extends(t1, t2)
  {
    KeyParts(t1, r1);
    KeyParts(t2, r2);
    var s := t1 + ":" + r1;
    assert s == t2 + ":" + r2;
    assert s[..|t1| + 1] == t1 + ":" && s[..|t2| + 1] == t2 + ":";
    assert s[..|t1|] == t1 && s[..|t2|] == t2;
    if |t1| == |t2| {
      assert s[|t1| + 1..] == r1 && s[|t2| + 1..] == r2;
    } else if |t1| < |t2| {
      assert t2[..|t1| + 1] == s[..|t1| + 1];
    } else {
      assert t1[..|t2| + 1] == s[..|t2| + 1];
    }
  }

  lemma ExtendedKey(shorter: string, longer: string, reference: string)
    requires Extends(longer, shorter)
    ensures BuildKey(shorter, longer[|shorter| + 1..] + ":" + reference) == BuildKey(longer, reference)
  {
    var rest := longer[|shorter| + 1..];
    assert longer == shorter + ":" + rest;
    assert BuildKey(longer, reference) == PREFIX + ":" + (shorter + ":" + rest) + ":" + reference;
    assert BuildKey(shorter, rest + ":" + reference) == PREFIX + ":" + shorter + ":" + (rest + ":" + reference);
  }

  /** Two tenants can share a key, for references that are not empty, exactly when they are the
      same or one extends the other. */
  lemma TenantsCollideIff(t1: string, t2: string)
    ensures (exists r1, r2 :: r1 != "" && r2 != "" && BuildKey(t1, r1) == BuildKey(t2, r2))
       <==> t1 == t2 || Extends(t2, t1) || Extends(t1, t2)
  {
    forall r1, r2 | BuildKey(t1, r1) == BuildKey(t2, r2) ensures t1 == t2 || Extends(t2, t1) || Extends(t1, t2) {
      SharedKeySplits(t1, r1, t2, r2);
    }
    if t1 == t2 {
      assert BuildKey(t1, "r") == BuildKey(t2, "r");
    } else if Extends(t2, t1) {
      ExtendedKey(t1, t2, "r");
    } else if Extends(t1, t2) {
      ExtendedKey(t2, t1, "r");
      assert BuildKey(t1, "r") == BuildKey(t2, t1[|t2| + 1..] + ":" + "r");
    }
  }

  predicate NoColon(s: string) {
    forall i :: 0 <= i < |s| ==> s[i] != ':'
  }

  lemma ExtensionHasColon(longer: string, shorter: string)
    requires Extends(longer, shorter)
    ensures !NoColon(longer)
  {
    assert longer[|shorter|] == ':';
  }

  /** Tenant ids are UUIDs and hold no colon; then no two (tenant, reference) pairs share a key,
      whatever the references contain. */
  lemma KeysDoNotCollide(t1: string, r1: string, t2: string, r2: string)
    requires NoColon(t1) && NoColon(t2)
    ensures BuildKey(t1, r1) == BuildKey(t2, r2) <==> t1 == t2 && r1 == r2
  {
    if BuildKey(t1, r1) == BuildKey(t2, r2) {
      SharedKeySplits(t1, r1, t2, r2);
      if |t1| < |t2| {
        ExtensionHasColon(t2, t1);
      } else if |t2| < |t1| {
        ExtensionHasColon(t1, t2);
      }
    }
  }
}
