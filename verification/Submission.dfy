/** Idempotent submission for one tenant and one (trimmed) reference: any number of request
    handlers, one Redis key with a deadline, the transaction rows stored under the
    reference, and one clock. Each Redis command and each SQL statement is one step. */
module Submission {
  import opened Basics

  type RowId = nat
  type HandlerId = nat

  /** A stored transaction. `owner` and `epoch` are history: the handler that inserted it and
      how many times the key had been acquired by then. */
  datatype Row = Row(id: RowId, createdAt: nat, owner: HandlerId, epoch: nat)

  /** The stored record; the code never reads whose pending record it is. */
  datatype KeyState = PendingBy(owner: HandlerId) | CompletedAs(rowId: RowId)
  datatype Record = Record(state: KeyState, deadline: nat)

  datatype Outcome =
    | Accepted(rowId: RowId)    // 202, Idempotency-Replayed: false
    | Replayed(rowId: RowId)    // 202, Idempotency-Replayed: true
    | InProgress                // 409
    | Error                     // 4xx, 5xx, or the request died

  /** Where a handler is. `begunAt` and `peekedAt` are the clock at its Begin or last GET. */
  datatype Handler =
    | Arrived
    | Acquired(begunAt: nat)
    | Creating(begunAt: nat, stamp: nat)
    | Created(begunAt: nat, row: Row)
    | Clearing(begunAt: nat)
    | Lost
    | Seen(peekedAt: nat)
    | Found(peekedAt: nat, candidate: Row)
    | Marking(peekedAt: nat, candidate: Row)
    | Polling
    | Done(outcome: Outcome)

  datatype Response = Response(epoch: nat, rowId: RowId)

  datatype World = World(
    ttl: nat, clock: nat, record: Option<Record>, rows: seq<Row>,
    handlers: map<HandlerId, Handler>, epoch: nat, responses: seq<Response>)

  datatype Event =
    | Tick
    | Arrive(h: HandlerId)
    | SetNX(h: HandlerId)
    | GetState(h: HandlerId)
    | Lookup(h: HandlerId, newest: Option<Row>)
    | TestAge(h: HandlerId)
    | LoserMark(h: HandlerId, ok: bool)
    | CreateReject(h: HandlerId)
    | CreateStart(h: HandlerId)
    | CreateCommit(h: HandlerId, id: RowId)
    | CreateError(h: HandlerId, stored: Option<RowId>)
    | OwnerMark(h: HandlerId, ok: bool)
    | Clear(h: HandlerId, ok: bool)
    | GiveUp(h: HandlerId)
    | Fail(h: HandlerId)

  // ---------------------------------------------------------------- the pieces

  /** Redis keeps a key up to and including its deadline. */
  predicate Live(w: World) {
    w.record.Some? && w.clock <= w.record.value.deadline
  }

  /** isReplayableByTTL */
  predicate Replayable(w: World, createdAt: nat) {
    w.clock < createdAt || w.clock - createdAt <= w.ttl
  }

  predicate Newer(a: Row, b: Row) {
    a.createdAt > b.createdAt || (a.createdAt == b.createdAt && a.id > b.id)
  }

  /** ORDER BY created_at DESC, id DESC LIMIT 1 */
  predicate IsNewest(rows: seq<Row>, found: Option<Row>) {
    match found
    case None => rows == []
    case Some(r) => r in rows && forall i :: 0 <= i < |rows| ==> !Newer(rows[i], r)
  }

  /** The order of the lookup, by time and then by id. */
  lemma NewestByTimeAndId(rows: seq<Row>, r: Row)
    ensures IsNewest(rows, Some(r)) <==>
              && r in rows
              && forall row :: row in rows ==>
                   row.createdAt < r.createdAt || (row.createdAt == r.createdAt && row.id <= r.id)
  {
  }

  predicate FreshId(w: World, id: RowId) {
    forall i :: 0 <= i < |w.rows| ==> w.rows[i].id != id
  }

  predicate At(w: World, h: HandlerId) {
    h in w.handlers
  }

  predicate Enabled(w: World, e: Event) {
    match e
    case Tick => true
    case Arrive(h) => h !in w.handlers
    case SetNX(h) => At(w, h) && w.handlers[h].Arrived?
    case GetState(h) => At(w, h) && (w.handlers[h].Lost? || w.handlers[h].Polling?)
    case Lookup(h, newest) => At(w, h) && w.handlers[h].Seen? && IsNewest(w.rows, newest)
    case TestAge(h) => At(w, h) && w.handlers[h].Found?
    case LoserMark(h, _) => At(w, h) && w.handlers[h].Marking?
    case CreateReject(h) => At(w, h) && w.handlers[h].Acquired?
    case CreateStart(h) => At(w, h) && w.handlers[h].Acquired?
    case CreateCommit(h, id) => At(w, h) && w.handlers[h].Creating? && FreshId(w, id)
    case CreateError(h, stored) =>
      At(w, h) && w.handlers[h].Creating? && (stored.Some? ==> FreshId(w, stored.value))
    case OwnerMark(h, _) => At(w, h) && w.handlers[h].Created?
    case Clear(h, _) => At(w, h) && w.handlers[h].Clearing?
    case GiveUp(h) => At(w, h) && w.handlers[h].Polling?
    case Fail(h) => At(w, h) && !w.handlers[h].Created? && !w.handlers[h].Done?
  }

  function Go(w: World, h: HandlerId, pc: Handler): World {
    w.(handlers := w.handlers[h := pc])
  }

  function Respond(w: World, h: HandlerId, outcome: Outcome): World
    requires outcome.Accepted? || outcome.Replayed?
  {
    Go(w, h, Done(outcome)).(responses := w.responses + [Response(w.epoch, outcome.rowId)])
  }

  /** SET key completed EX ttl */
  function Store(w: World, rowId: RowId): World {
    w.(record := Some(Record(CompletedAs(rowId), w.clock + w.ttl)))
  }

  function Apply(w: World, e: Event): World
    requires Enabled(w, e)
  {
    match e
    case Tick => w.(clock := w.clock + 1)
    case Arrive(h) => Go(w, h, Arrived)
    case SetNX(h) =>
      if Live(w) then Go(w, h, Lost)
      else Go(w, h, Acquired(w.clock)).(record := Some(Record(PendingBy(h), w.clock + w.ttl)), epoch := w.epoch + 1)
    case GetState(h) =>
      if Live(w) && w.record.value.state.CompletedAs? then Respond(w, h, Replayed(w.record.value.state.rowId))
      else Go(w, h, Seen(w.clock))
    case Lookup(h, newest) =>
      Go(w, h, if newest.Some? then Found(w.handlers[h].peekedAt, newest.value) else Polling)
    case TestAge(h) =>
      var pc := w.handlers[h];
      Go(w, h, if Replayable(w, pc.candidate.createdAt) then Marking(pc.peekedAt, pc.candidate) else Polling)
    case LoserMark(h, ok) =>
      var id := w.handlers[h].candidate.id;
      Respond(if ok then Store(w, id) else w, h, Replayed(id))
    case CreateReject(h) => Go(w, h, Clearing(w.handlers[h].begunAt))
    case CreateStart(h) => Go(w, h, Creating(w.handlers[h].begunAt, w.clock))
    case CreateCommit(h, id) =>
      var row := Row(id, w.handlers[h].stamp, h, w.epoch);
      Go(w, h, Created(w.handlers[h].begunAt, row)).(rows := w.rows + [row])
    case CreateError(h, stored) =>
      var w' := if stored.Some? then w.(rows := w.rows + [Row(stored.value, w.handlers[h].stamp, h, w.epoch)]) else w;
      Go(w', h, Clearing(w.handlers[h].begunAt))
    case OwnerMark(h, ok) =>
      var id := w.handlers[h].row.id;
      Respond(if ok then Store(w, id) else w, h, Accepted(id))
    case Clear(h, ok) => Go(if ok then w.(record := None) else w, h, Done(Error))
    case GiveUp(h) => Go(w, h, Done(InProgress))
    case Fail(h) => Go(w, h, Done(Error))
  }

  // ---------------------------------------------------------------- hypotheses

  /** A handler between its Begin or GET and the Set, Del or response that ends the segment. */
  predicate SegmentOpen(pc: Handler) {
    pc.Acquired? || pc.Creating? || pc.Created? || pc.Clearing? || pc.Seen? || pc.Found? || pc.Marking?
  }

  predicate OwnerPc(pc: Handler) {
    pc.Acquired? || pc.Creating? || pc.Created? || pc.Clearing?
  }

  function SegmentStart(pc: Handler): nat
    requires SegmentOpen(pc)
  {
    if OwnerPc(pc) then pc.begunAt else pc.peekedAt
  }

  /** The key, as it is, outlives a row created at that time. */
  predicate KeyCovers(w: World, createdAt: nat) {
    w.record.Some? && w.record.value.deadline >= createdAt + w.ttl
  }

  /** Which failures a run may contain besides requests that die: none; MarkCompleted failing for
      a row that the key covers; or that and any other, create errors that hide a row included.
      A creator that dies before its MarkCompleted counts as one whose MarkCompleted fails. */
  datatype Failures = NoFailure | CoveredMarks | AnyFailure

  /** What a run may be asked to respect: how long an open segment of an acquirer and of a
      loser lasts at most, and which failures there may be. */
  datatype Rules = Rules(ownerLimit: nat, loserLimit: Option<nat>, failures: Failures)

  /** Every segment fits in the TTL, every MarkCompleted of an acquirer succeeds, and a create
      error means that no row was stored. */
  function Strict(ttl: nat): Rules {
    Rules(ttl, Some(ttl), NoFailure)
  }

  /** Only acquirers need to keep to the TTL, and their MarkCompleted may fail while the key
      covers the row. */
  function Window(ttl: nat): Rules {
    Rules(ttl, None, CoveredMarks)
  }

  /** Acquirers keep to the TTL; anything may fail. */
  function Prompt(ttl: nat): Rules {
    Rules(ttl, None, AnyFailure)
  }

  predicate MayWait(rules: Rules, now: nat, pc: Handler) {
    SegmentOpen(pc) ==>
      if OwnerPc(pc) then now < pc.begunAt + rules.ownerLimit
      else rules.loserLimit.Some? ==> now < pc.peekedAt + rules.loserLimit.value
  }

  predicate MarkIsCovered(w: World, h: HandlerId) {
    At(w, h) && w.handlers[h].Created? && KeyCovers(w, w.handlers[h].row.createdAt)
  }

  predicate Obeys(rules: Rules, w: World, e: Event) {
    match e
    case Tick => forall h :: h in w.handlers ==> MayWait(rules, w.clock, w.handlers[h])
    case OwnerMark(h, ok) => ok || rules.failures.AnyFailure? || (rules.failures.CoveredMarks? && MarkIsCovered(w, h))
    case CreateError(_, stored) => stored.None? || rules.failures.AnyFailure?
    case _ => true
  }

  // ---------------------------------------------------------------- invariant

  predicate IsLast(w: World, r: Row) {
    w.rows != [] && w.rows[|w.rows| - 1] == r
  }

  /** Row `r` is this window's row, and the key is held for it: by its creator, who has yet to
      mark it, or by a completed record that outlives every segment begun by time `p`. */
  predicate HeldFor(w: World, r: Row, p: nat) {
    && IsLast(w, r) && r.epoch == w.epoch
    && (|| (r.owner in w.handlers && w.handlers[r.owner].Created? && w.handlers[r.owner].row == r)
        || (w.record.Some? && w.record.value.state == CompletedAs(r.id) && w.record.value.deadline >= p + w.ttl))
  }

  predicate SegmentOk(w: World, pc: Handler) {
    SegmentOpen(pc) ==> SegmentStart(pc) <= w.clock <= SegmentStart(pc) + w.ttl
  }

  predicate AllOlderThan(w: World, t: nat) {
    forall i :: 0 <= i < |w.rows| ==> w.rows[i].createdAt + w.ttl < t
  }

  predicate AllEarlierEpochs(w: World) {
    forall i :: 0 <= i < |w.rows| ==> w.rows[i].epoch < w.epoch
  }

  predicate OwnerOk(w: World, h: HandlerId, pc: Handler)
    requires OwnerPc(pc)
  {
    && w.record.Some? && w.record.value.deadline >= pc.begunAt + w.ttl
    && (if pc.Created? then
          && IsLast(w, pc.row) && pc.row.owner == h && pc.row.epoch == w.epoch
          && pc.begunAt <= pc.row.createdAt
          && w.record.value.state in {PendingBy(h), CompletedAs(pc.row.id)}
        else
          && w.record.value.state == PendingBy(h)
          && AllOlderThan(w, pc.begunAt)
          && (pc.Creating? ==> pc.begunAt <= pc.stamp <= w.clock))
  }

  predicate LoserOk(w: World, pc: Handler) {
    match pc
    case Seen(p) => forall i :: 0 <= i < |w.rows| && Replayable(w, w.rows[i].createdAt) ==> HeldFor(w, w.rows[i], p)
    case Found(p, r) => r in w.rows && (Replayable(w, r.createdAt) ==> HeldFor(w, r, p))
    case Marking(p, r) => r in w.rows && HeldFor(w, r, p)
    case _ => true
  }

  predicate HandlerOk(w: World, h: HandlerId, pc: Handler) {
    && SegmentOk(w, pc)
    && (OwnerPc(pc) ==> OwnerOk(w, h, pc))
    && LoserOk(w, pc)
  }

  predicate RowsOk(w: World) {
    && (forall i :: 0 <= i < |w.rows| ==> w.rows[i].createdAt <= w.clock && w.rows[i].epoch <= w.epoch)
    && (forall i, j :: 0 <= i < j < |w.rows| ==>
          && w.rows[i].createdAt + w.ttl < w.rows[j].createdAt
          && w.rows[i].epoch < w.rows[j].epoch
          && w.rows[i].id != w.rows[j].id)
    && (forall i :: 0 <= i < |w.rows| && Replayable(w, w.rows[i].createdAt) ==>
          HeldFor(w, w.rows[i], w.rows[i].createdAt))
  }

  /** A completed record names the newest row; without one, only a creator that has not yet
      marked can have stored a row in this window. */
  predicate RecordOk(w: World) {
    match w.record
    case None => AllEarlierEpochs(w) || w.rows == []
    case Some(Record(CompletedAs(id), _)) =>
      w.rows != [] && w.rows[|w.rows| - 1].id == id && w.rows[|w.rows| - 1].epoch == w.epoch
    case Some(Record(PendingBy(h), _)) =>
      (h in w.handlers && w.handlers[h].Created?) || AllEarlierEpochs(w)
  }

  predicate Names(rows: seq<Row>, response: Response) {
    exists i :: 0 <= i < |rows| && rows[i].id == response.rowId && rows[i].epoch == response.epoch
  }

  predicate ResponsesOk(w: World) {
    forall k :: 0 <= k < |w.responses| ==> Names(w.rows, w.responses[k])
  }

  predicate Inv(w: World) {
    && RowsOk(w) && RecordOk(w) && ResponsesOk(w)
    && (forall h :: h in w.handlers ==> HandlerOk(w, h, w.handlers[h]))
  }

  predicate Init(w: World) {
    w.record.None? && w.rows == [] && w.handlers == map[] && w.epoch == 0 && w.responses == []
  }

  // ---------------------------------------------------------------- preservation

  /** While a row is held, no other handler is inside its own Begin-to-Clear segment. */
  lemma HeldExcludesOwners(w: World, r: Row, p: nat, h: HandlerId)
    requires Inv(w) && HeldFor(w, r, p)
    requires h in w.handlers && OwnerPc(w.handlers[h])
    ensures w.handlers[h].Created? && w.handlers[h].row == r
  {
    assert HandlerOk(w, h, w.handlers[h]);
    if r.owner in w.handlers {
      assert HandlerOk(w, r.owner, w.handlers[r.owner]);
    }
  }

  /** A held row keeps the key live for every segment that is still open. */
  lemma HeldMeansLive(w: World, r: Row, p: nat)
    requires Inv(w) && HeldFor(w, r, p) && w.clock <= p + w.ttl
    ensures Live(w)
  {
    if r.owner in w.handlers {
      assert HandlerOk(w, r.owner, w.handlers[r.owner]);
    }
  }

  /** Window hand-over: when the key is not live, every stored row is past its TTL. */
  lemma DeadKeyMeansStaleRows(w: World)
    requires Inv(w) && !Live(w)
    ensures forall i :: 0 <= i < |w.rows| ==> !Replayable(w, w.rows[i].createdAt)
  {
    forall i | 0 <= i < |w.rows| ensures !Replayable(w, w.rows[i].createdAt) {
      if Replayable(w, w.rows[i].createdAt) {
        HeldMeansLive(w, w.rows[i], w.rows[i].createdAt);
      }
    }
  }

  /** Only handler `h` moves: not from Created, not into Created, nothing shared changes. */
  predicate OnlyMoves(w: World, w': World, h: HandlerId) {
    && w'.ttl == w.ttl && w'.clock == w.clock && w'.record == w.record && w'.rows == w.rows && w'.epoch == w.epoch
    && h in w'.handlers && w' == w.(handlers := w.handlers[h := w'.handlers[h]], responses := w'.responses)
    && (h in w.handlers ==> !w.handlers[h].Created?) && !w'.handlers[h].Created?
  }

  lemma MoveKeepsHandler(w: World, w': World, h: HandlerId, k: HandlerId, pc: Handler)
    requires OnlyMoves(w, w', h) && HandlerOk(w, k, pc)
    ensures HandlerOk(w', k, pc)
  {
    forall r, p | HeldFor(w, r, p) ensures HeldFor(w', r, p) {}
  }

  lemma MoveKeepsRows(w: World, w': World, h: HandlerId)
    requires OnlyMoves(w, w', h) && RowsOk(w)
    ensures RowsOk(w')
  {
    forall i | 0 <= i < |w.rows| && Replayable(w', w.rows[i].createdAt)
      ensures HeldFor(w', w.rows[i], w.rows[i].createdAt)
    {
      assert Replayable(w, w.rows[i].createdAt);
      assert HeldFor(w, w.rows[i], w.rows[i].createdAt);
    }
  }

  lemma MoveKeepsInv(w: World, w': World, h: HandlerId)
    requires Inv(w) && OnlyMoves(w, w', h)
    requires HandlerOk(w, h, w'.handlers[h])
    requires ResponsesOk(w')
    ensures Inv(w')
  {
    MoveKeepsRows(w, w', h);
    forall k | k in w'.handlers ensures HandlerOk(w', k, w'.handlers[k]) {
      assert k != h ==> HandlerOk(w, k, w.handlers[k]);
      MoveKeepsHandler(w, w', h, k, w'.handlers[k]);
    }
  }

  predicate IsMove(w: World, e: Event) {
    match e
    case Arrive(_) => true
    case SetNX(_) => Live(w)
    case GetState(_) => true
    case Lookup(_, _) => true
    case TestAge(_) => true
    case CreateReject(_) => true
    case CreateStart(_) => true
    case CreateError(_, stored) => stored.None?
    case Clear(_, ok) => !ok
    case GiveUp(_) => true
    case Fail(_) => true
    case _ => false
  }

  lemma SeenIsOk(w: World)
    requires Inv(w) && !(Live(w) && w.record.value.state.CompletedAs?)
    ensures LoserOk(w, Seen(w.clock))
  {
    forall i | 0 <= i < |w.rows| && Replayable(w, w.rows[i].createdAt) ensures HeldFor(w, w.rows[i], w.clock) {
      var r := w.rows[i];
      assert HeldFor(w, r, r.createdAt);
      HeldMeansLive(w, r, r.createdAt);
    }
  }

  /** A GET that finds a completed record answers with the row of this window. */
  lemma ReplayIsNamed(w: World)
    requires Inv(w) && w.record.Some? && w.record.value.state.CompletedAs?
    ensures Names(w.rows, Response(w.epoch, w.record.value.state.rowId))
  {
    assert w.rows[|w.rows| - 1].id == w.record.value.state.rowId;
  }

  /** Where a move takes its handler. */
  lemma MoveIsOk(w: World, e: Event)
    requires Inv(w) && Enabled(w, e) && IsMove(w, e)
    ensures HandlerOk(w, e.h, Apply(w, e).handlers[e.h])
  {
    if e.h in w.handlers {
      assert HandlerOk(w, e.h, w.handlers[e.h]);
    }
    if e.GetState? && Apply(w, e).handlers[e.h].Seen? {
      SeenIsOk(w);
    }
  }

  lemma MovesKeepInv(w: World, e: Event)
    requires Inv(w) && Enabled(w, e) && IsMove(w, e)
    ensures Inv(Apply(w, e))
  {
    var w' := Apply(w, e);
    assert OnlyMoves(w, w', e.h);
    MoveIsOk(w, e);
    assert ResponsesOk(w') by {
      if w'.responses != w.responses {
        ReplayIsNamed(w);
      }
    }
    MoveKeepsInv(w, w', e.h);
  }

  lemma TickKeepsHandler(w: World, pc: Handler, h: HandlerId)
    requires HandlerOk(w, h, pc) && MayWait(Strict(w.ttl), w.clock, pc)
    ensures HandlerOk(Apply(w, Tick), h, pc)
  {
    forall r, p | HeldFor(w, r, p) ensures HeldFor(Apply(w, Tick), r, p) {}
  }

  lemma TickKeepsRows(w: World)
    requires RowsOk(w)
    ensures RowsOk(Apply(w, Tick))
  {
    var w' := Apply(w, Tick);
    forall i | 0 <= i < |w.rows| && Replayable(w', w.rows[i].createdAt)
      ensures HeldFor(w', w.rows[i], w.rows[i].createdAt)
    {
      assert Replayable(w, w.rows[i].createdAt) && HeldFor(w, w.rows[i], w.rows[i].createdAt);
    }
  }

  lemma TickKeepsInv(w: World)
    requires Inv(w) && Obeys(Strict(w.ttl), w, Tick)
    ensures Inv(Apply(w, Tick))
  {
    TickKeepsRows(w);
    forall h | h in w.handlers {
      TickKeepsHandler(w, w.handlers[h], h);
    }
  }

  lemma AcquireKeepsInv(w: World, h: HandlerId)
    requires Inv(w) && Enabled(w, SetNX(h)) && !Live(w)
    ensures Inv(Apply(w, SetNX(h)))
  {
    var w' := Apply(w, SetNX(h));
    DeadKeyMeansStaleRows(w);
    forall k | k in w'.handlers ensures HandlerOk(w', k, w'.handlers[k]) {
      if k != h {
        var pc := w.handlers[k];
        assert HandlerOk(w, k, pc);
        if pc.Marking? {
          HeldMeansLive(w, pc.candidate, pc.peekedAt);
        }
      }
    }
  }

  lemma CreateKeepsResponses(w: World, h: HandlerId, id: RowId)
    requires ResponsesOk(w) && Enabled(w, CreateCommit(h, id))
    ensures ResponsesOk(Apply(w, CreateCommit(h, id)))
  {
    var w' := Apply(w, CreateCommit(h, id));
    forall k | 0 <= k < |w'.responses| ensures Names(w'.rows, w'.responses[k]) {
      assert Names(w.rows, w.responses[k]);
      var i :| 0 <= i < |w.rows| && w.rows[i].id == w.responses[k].rowId && w.rows[i].epoch == w.responses[k].epoch;
      assert w'.rows[i] == w.rows[i];
    }
  }

  lemma CreateKeepsRows(w: World, h: HandlerId, id: RowId)
    requires Inv(w) && Enabled(w, CreateCommit(h, id))
    ensures RowsOk(Apply(w, CreateCommit(h, id))) && RecordOk(Apply(w, CreateCommit(h, id)))
  {
    assert HandlerOk(w, h, w.handlers[h]);
    assert forall i :: 0 <= i < |w.rows| ==> !Replayable(w, w.rows[i].createdAt);
  }

  lemma CreateKeepsHandler(w: World, h: HandlerId, id: RowId, k: HandlerId)
    requires Inv(w) && Enabled(w, CreateCommit(h, id)) && k in w.handlers
    ensures HandlerOk(Apply(w, CreateCommit(h, id)), k, Apply(w, CreateCommit(h, id)).handlers[k])
  {
    var pc := w.handlers[k];
    assert HandlerOk(w, h, w.handlers[h]) && HandlerOk(w, k, pc);
    assert forall i :: 0 <= i < |w.rows| ==> !Replayable(w, w.rows[i].createdAt);
    if pc.Marking? {
      HeldExcludesOwners(w, pc.candidate, pc.peekedAt, h);
    }
  }

  lemma CreateKeepsInv(w: World, h: HandlerId, id: RowId)
    requires Inv(w) && Enabled(w, CreateCommit(h, id))
    ensures Inv(Apply(w, CreateCommit(h, id)))
  {
    CreateKeepsResponses(w, h, id);
    CreateKeepsRows(w, h, id);
    forall k | k in w.handlers {
      CreateKeepsHandler(w, h, id, k);
    }
  }

  /** What remains after the held row's completed record is stored, by its creator or by a loser. */
  function Stored(w: World, h: HandlerId, r: Row, outcome: Outcome): World
    requires outcome.Accepted? || outcome.Replayed?
  {
    Go(Store(w, r.id), h, Done(outcome)).(responses := w.responses + [Response(w.epoch, r.id)])
  }

  lemma StoreKeepsHandler(w: World, h: HandlerId, r: Row, p: nat, outcome: Outcome, k: HandlerId)
    requires Inv(w) && h in w.handlers && HeldFor(w, r, p) && (outcome.Accepted? || outcome.Replayed?)
    requires w.handlers[h].Created? ==> w.handlers[h].row == r
    requires k in w.handlers && k != h
    ensures HandlerOk(Stored(w, h, r, outcome), k, w.handlers[k])
  {
    var w', pc := Stored(w, h, r, outcome), w.handlers[k];
    assert HandlerOk(w, k, pc);
    forall r', p': nat | HeldFor(w, r', p') && p' <= w.clock ensures HeldFor(w', r', p') {}
    if OwnerPc(pc) {
      HeldExcludesOwners(w, r, p, k);
    }
  }

  lemma StoreKeepsRows(w: World, h: HandlerId, r: Row, p: nat, outcome: Outcome)
    requires Inv(w) && h in w.handlers && HeldFor(w, r, p) && (outcome.Accepted? || outcome.Replayed?)
    requires w.handlers[h].Created? ==> w.handlers[h].row == r
    ensures var w' := Stored(w, h, r, outcome);
            RowsOk(w') && RecordOk(w') && ResponsesOk(w')
  {
    var w' := Stored(w, h, r, outcome);
    assert w'.rows[|w.rows| - 1] == r;
    forall k | 0 <= k < |w'.responses| ensures Names(w'.rows, w'.responses[k]) {
      assert k < |w.responses| ==> Names(w.rows, w.responses[k]);
    }
    forall i | 0 <= i < |w.rows| && Replayable(w', w.rows[i].createdAt)
      ensures HeldFor(w', w.rows[i], w.rows[i].createdAt)
    {
      assert Replayable(w, w.rows[i].createdAt) && HeldFor(w, w.rows[i], w.rows[i].createdAt);
    }
  }

  lemma StoreKeepsInv(w: World, h: HandlerId, r: Row, p: nat, outcome: Outcome)
    requires Inv(w) && h in w.handlers && HeldFor(w, r, p) && (outcome.Accepted? || outcome.Replayed?)
    requires w.handlers[h].Created? ==> w.handlers[h].row == r
    ensures Inv(Stored(w, h, r, outcome))
  {
    StoreKeepsRows(w, h, r, p, outcome);
    forall k | k in w.handlers && k != h {
      StoreKeepsHandler(w, h, r, p, outcome, k);
    }
  }

  lemma MarkKeepsInv(w: World, e: Event)
    requires Inv(w) && Enabled(w, e) && (e.LoserMark? || (e.OwnerMark? && e.ok))
    ensures Inv(Apply(w, e))
  {
    var w', pc := Apply(w, e), w.handlers[e.h];
    assert HandlerOk(w, e.h, pc);
    var r, p := if e.LoserMark? then pc.candidate else pc.row, SegmentStart(pc);
    assert HeldFor(w, r, p);
    var outcome := if e.LoserMark? then Replayed(r.id) else Accepted(r.id);
    if e.ok {
      StoreKeepsInv(w, e.h, r, p, outcome);
      assert w' == Stored(w, e.h, r, outcome);
    } else {
      assert w.rows[|w.rows| - 1] == r;
      assert Names(w.rows, Response(w.epoch, r.id));
      MoveKeepsInv(w, w', e.h);
    }
  }

  lemma ClearKeepsInv(w: World, h: HandlerId)
    requires Inv(w) && Enabled(w, Clear(h, true))
    ensures Inv(Apply(w, Clear(h, true)))
  {
    var w' := Apply(w, Clear(h, true));
    assert HandlerOk(w, h, w.handlers[h]);
    forall i | 0 <= i < |w.rows| ensures !Replayable(w, w.rows[i].createdAt) {}
    forall k | k in w'.handlers ensures HandlerOk(w', k, w'.handlers[k]) {
      var pc := w.handlers[k];
      assert HandlerOk(w, k, pc);
      if k != h && pc.Marking? {
        HeldExcludesOwners(w, pc.candidate, pc.peekedAt, h);
      }
    }
  }

  lemma StepKeepsInv(w: World, e: Event)
    requires Inv(w) && Enabled(w, e) && Obeys(Strict(w.ttl), w, e)
    ensures Inv(Apply(w, e))
  {
    if IsMove(w, e) {
      MovesKeepInv(w, e);
    } else {
      match e
      case Tick => TickKeepsInv(w);
      case SetNX(h) => AcquireKeepsInv(w, h);
      case CreateCommit(h, id) => CreateKeepsInv(w, h, id);
      case LoserMark(_, _) => MarkKeepsInv(w, e);
      case OwnerMark(_, _) => MarkKeepsInv(w, e);
      case Clear(h, _) => ClearKeepsInv(w, h);
    }
  }
}
