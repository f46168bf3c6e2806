/** What holds over every run of the worker engine: any number of workers, any
    interleaving of their SQL statements, of rollbacks and of new submissions. */
module WorkerRuns {
  import opened Basics
  import opened GoInt64
  import opened Ledger
  import opened WorkerEngine

  predicate Valid(t: Tenant, events: seq<Event>)
    decreases |events|
  {
    events == [] || (Enabled(t, events[0]) && Valid(Apply(t, events[0]), events[1..]))
  }

  function Exec(t: Tenant, events: seq<Event>): Tenant
    requires Valid(t, events)
    decreases |events|
  {
    if events == [] then t else Exec(Apply(t, events[0]), events[1..])
  }

  /** The sequential actions of a run: its submissions and its commits, in order. */
  function Trace(t: Tenant, events: seq<Event>): seq<Action>
    requires Valid(t, events)
    decreases |events|
  {
    if events == [] then [] else Effect(t, events[0]) + Trace(Apply(t, events[0]), events[1..])
  }

  function CommitOrder(t: Tenant, events: seq<Event>): seq<TxId>
    requires Valid(t, events)
  {
    Processed(Trace(t, events))
  }

  lemma {:induction false} ExecConcat(t: Tenant, a: seq<Event>, b: seq<Event>)
    requires Valid(t, a) && Valid(Exec(t, a), b)
    ensures Valid(t, a + b) && Exec(t, a + b) == Exec(Exec(t, a), b)
    decreases |a|
  {
    if a == [] {
      assert a + b == b;
    } else {
      ExecConcat(Apply(t, a[0]), a[1..], b);
      assert (a + b)[1..] == a[1..] + b;
    }
  }

  /** A tenant whose committed tables are in order, with sessions at any point. */
  ghost predicate Sound(t: Tenant, opening: int) {
    Inv(t) && InOrder(View(t), opening)
  }

  /** A newly created schema, with or without its balance row, is sound. */
  lemma FreshTenantIsSound(workers: nat, balance: Option<int>)
    requires balance in {None, Some(0)}
    ensures Sound(Tenant(map[], balance, [], 1, seq(workers, _ => Idle)), 0)
  {
  }

  // ---------------------------------------------------------------- serializability

  lemma {:induction false} RunRefines(t: Tenant, events: seq<Event>)
    requires Inv(t) && Valid(t, events)
    ensures Inv(Exec(t, events))
    ensures Legal(View(t), Trace(t, events))
    ensures View(Exec(t, events)) == Replay(View(t), Trace(t, events))
    decreases |events|
  {
    if events != [] {
      StepRefines(t, events[0]);
      RunRefines(Apply(t, events[0]), events[1..]);
      ReplayConcat(View(t), Effect(t, events[0]), Trace(Apply(t, events[0]), events[1..]));
    }
  }

  /** Serializability: the committed balance, entries and statuses are those of submitting
      every row up front and then processing one transaction at a time, in commit order,
      each transaction at most once. */
  lemma Serializable(t: Tenant, events: seq<Event>)
    requires Inv(t) && Valid(t, events)
    ensures var submitted := View(t).(txns := SubmitAll(t.txns, Trace(t, events)));
            var order := CommitOrder(t, events);
            && AllPending(submitted, order)
            && View(Exec(t, events)) == ProcessAll(submitted, order)
            && forall i, j :: 0 <= i < j < |order| ==> order[i] != order[j]
  {
    RunRefines(t, events);
    ReplayIsFoldInCommitOrder(View(t), Trace(t, events));
    ProcessedAtMostOnce(View(t), Trace(t, events));
  }

  // ---------------------------------------------------------------- chain, exactly once

  /** In id order the entries form a chain from the opening balance to the balance row. */
  lemma LedgerChain(t: Tenant, opening: int, events: seq<Event>)
    requires Sound(t, opening) && Valid(t, events)
    ensures Sound(Exec(t, events), opening)
    ensures var u := Exec(t, events);
            && (forall i, j :: 0 <= i < j < |u.entries| ==> u.entries[i].id < u.entries[j].id)
            && Chained(Postings(u.entries), opening, View(u).balance)
  {
    RunRefines(t, events);
    ReplayKeepsOrder(View(t), opening, Trace(t, events));
  }

  ghost predicate HasOneEntry(entries: seq<Entry>, id: TxId, row: TxRow) {
    exists i :: 0 <= i < |entries| && PostsRow(entries[i].posting, id, row)
                && forall j :: 0 <= j < |entries| && entries[j].posting.txId == id ==> j == i
  }

  ghost predicate HasNoEntry(entries: seq<Entry>, id: TxId) {
    forall j :: 0 <= j < |entries| ==> entries[j].posting.txId != id
  }

  lemma EntriesFollowPostings(entries: seq<Entry>, id: TxId, row: TxRow)
    requires RowInOrder(Postings(entries), id, row)
    ensures row.status.Completed? ==> HasOneEntry(entries, id, row)
    ensures !row.status.Completed? ==> HasNoEntry(entries, id)
  {
    var postings := Postings(entries);
    if row.status.Completed? {
      var i :| 0 <= i < |postings| && PostsRow(postings[i], id, row)
               && forall j :: 0 <= j < |postings| && postings[j].txId == id ==> j == i;
      assert forall j :: 0 <= j < |entries| ==> entries[j].posting == postings[j];
    } else {
      assert forall j :: 0 <= j < |entries| ==> entries[j].posting == postings[j];
    }
  }

  /** Every row, there from the start or submitted during the run, keeps what was submitted; once
      terminal it never changes; it was committed during the run iff it left the pending state
      then; and it has exactly one entry, with its reference and signed amount, iff it is
      completed, and none otherwise. */
  lemma {:induction false} ExactlyOnce(t: Tenant, opening: int, events: seq<Event>, id: TxId)
    requires Sound(t, opening) && Valid(t, events)
    ensures var u, submitted := Exec(t, events), SubmitAll(t.txns, Trace(t, events));
            && (id in u.txns <==> id in submitted)
            && (id in t.txns ==> id in u.txns && submitted[id] == t.txns[id])
            && (id in u.txns && id !in t.txns ==> submitted[id].status.Pending?)
            && (id in u.txns ==>
                  var before, after := submitted[id], u.txns[id];
                  && after == before.(status := after.status, failure := after.failure)
                  && (!before.status.Pending? ==> after == before)
                  && (id in CommitOrder(t, events) <==> before.status.Pending? && !after.status.Pending?)
                  && (after.status.Completed? ==> HasOneEntry(u.entries, id, after))
                  && (!after.status.Completed? ==> HasNoEntry(u.entries, id)))
  {
    LedgerChain(t, opening, events);
    RunRefines(t, events);
    Serializable(t, events);
    SubmittedRows(View(t), Trace(t, events), id);
    FoldSettles(View(t).(txns := SubmitAll(t.txns, Trace(t, events))), CommitOrder(t, events), id);
    var u := Exec(t, events);
    if id in u.txns {
      assert RowInOrder(View(u).postings, id, u.txns[id]);
      EntriesFollowPostings(u.entries, id, u.txns[id]);
    }
  }

  /** The k-th transaction committed during the run is settled against the balance at that moment,
      the one after the entries committed before it. */
  lemma OutcomesFitTheBalance(t: Tenant, opening: int, events: seq<Event>, k: nat)
    requires Sound(t, opening) && Valid(t, events) && k < |CommitOrder(t, events)|
    ensures var u, submitted := Exec(t, events), SubmitAll(t.txns, Trace(t, events));
            var id, l := CommitOrder(t, events)[k], View(t).(txns := submitted);
            && id in submitted && id in u.txns
            && AllPending(l, CommitOrder(t, events)[..k])
            && var before := ProcessAll(l, CommitOrder(t, events)[..k]);
            && before.postings <= Postings(u.entries)
            && before.balance == BalanceAfter(Postings(u.entries), opening, |before.postings|)
            && SettledAgainst(submitted[id], before.balance, u.txns[id])
  {
    Serializable(t, events);
    RunRefines(t, events);
    SubmittedIsInOrder(View(t), opening, Trace(t, events));
    FoldSettlesAgainst(View(t).(txns := SubmitAll(t.txns, Trace(t, events))), opening, CommitOrder(t, events), k);
  }

  /** A rollback after any statement publishes nothing and gives the row back to the queue. */
  lemma RollbackRestores(t: Tenant, w: nat)
    requires Inv(t) && Enabled(t, Rollback(w))
    ensures var u := Apply(t, Rollback(w));
            && View(u) == View(t) && u.entries == t.entries && u.nextEntryId == t.nextEntryId
            && Claimable(u, t.sessions[w].txId)
  {
    var u := Apply(t, Rollback(w));
    var id := t.sessions[w].txId;
    assert SessionOk(t, t.sessions[w]);
    forall v | 0 <= v < |u.sessions| ensures !u.sessions[v].HoldsRow(id) {
      assert v != w ==> Compatible(t.sessions[v], t.sessions[w]);
    }
  }

  // ---------------------------------------------------------------- money

  /** The session has read a balance in range, and the decision it takes on it is exact. */
  predicate ComputesExactly(s: Session) {
    s.BalanceLocked? || s.BalanceUpdated? || s.EntryInserted? || s.StatusUpdated? ==>
      var o := EvaluateTransaction(s.row, s.current);
      && 0 <= s.current <= MAX
      && 0 <= o.newBalance <= MAX
      && o.newBalance == s.current + o.change
      && o.change == (if o.status.Completed? then SignedAmount(s.row) else 0)
  }

  /** Everything computed so far is exact: what is committed, and what sessions have in hand. */
  ghost predicate ExactNow(t: Tenant) {
    && 0 <= View(t).balance <= MAX
    && PostingsExact(Postings(t.entries))
    && forall w :: 0 <= w < |t.sessions| ==> ComputesExactly(t.sessions[w])
  }

  /** In the first state of the run, and in every later one. */
  ghost predicate ExactThroughout(t: Tenant, events: seq<Event>)
    requires Valid(t, events)
    decreases |events|
  {
    ExactNow(t) && (events != [] ==> ExactThroughout(Apply(t, events[0]), events[1..]))
  }

  lemma FundedIsExactNow(t: Tenant, opening: int)
    requires Sound(t, opening) && Funded(View(t)) && PostingsExact(Postings(t.entries))
    ensures ExactNow(t)
  {
    forall w | 0 <= w < |t.sessions| ensures ComputesExactly(t.sessions[w]) {
      var s := t.sessions[w];
      assert SessionOk(t, s);
      if !s.Idle? {
        assert RowInOrder(View(t).postings, s.txId, s.row);
        PendingCreditsSplit(t.txns, s.txId);
        if s.BalanceLocked? || s.BalanceUpdated? || s.EntryInserted? || s.StatusUpdated? {
          EvaluationExactIff(s.row, s.current);
        }
      }
    }
  }

  /** One step keeps the books in order and uses up no more than the credit it submits. */
  lemma StepStaysFunded(t: Tenant, opening: int, e: Event)
    requires Sound(t, opening) && Enabled(t, e) && Funded(View(t)) && PostingsExact(Postings(t.entries))
    ensures var t' := Apply(t, e);
            && Sound(t', opening)
            && PostingsExact(Postings(t'.entries)) && 0 <= View(t').balance
            && View(t').balance + PendingCredits(t'.txns)
               <= View(t).balance + PendingCredits(t.txns) + SubmittedCredits(Effect(t, e))
  {
    StepRefines(t, e);
    ReplayKeepsOrder(View(t), opening, Effect(t, e));
    if Effect(t, e) != [] {
      var a := Effect(t, e)[0];
      assert Effect(t, e)[1..] == [];
      ActStaysFunded(View(t), opening, a);
    }
  }

  lemma SubmittedCreditsHead(t: Tenant, events: seq<Event>)
    requires Valid(t, events) && events != []
    ensures SubmittedCredits(Trace(t, events))
         == SubmittedCredits(Effect(t, events[0])) + SubmittedCredits(Trace(Apply(t, events[0]), events[1..]))
  {
    var effect, rest := Effect(t, events[0]), Trace(Apply(t, events[0]), events[1..]);
    if effect == [] {
      assert effect + rest == rest;
    } else {
      assert effect[1..] == [] && (effect + rest)[1..] == rest;
    }
  }

  /** If the balance plus all credits pending or submitted during the run fits in an int64, then
      in every state of the run no committed entry and no decision that a session has taken or is
      about to take has wrapped, whether it is committed later or rolled back, and no balance is
      negative. */
  lemma {:induction false} NoOverdrawNoOverflow(t: Tenant, opening: int, events: seq<Event>)
    requires Sound(t, opening) && Valid(t, events)
    requires PostingsExact(Postings(t.entries)) && 0 <= View(t).balance
    requires View(t).balance + PendingCredits(t.txns) + SubmittedCredits(Trace(t, events)) <= MAX
    ensures ExactThroughout(t, events)
    decreases |events|
  {
    FundedIsExactNow(t, opening);
    if events != [] {
      StepStaysFunded(t, opening, events[0]);
      SubmittedCreditsHead(t, events);
      NoOverdrawNoOverflow(Apply(t, events[0]), opening, events[1..]);
    }
  }

  lemma {:induction false} ExactAtTheEnd(t: Tenant, events: seq<Event>)
    requires Valid(t, events) && ExactThroughout(t, events)
    ensures ExactNow(Exec(t, events))
    decreases |events|
  {
    if events != [] {
      ExactAtTheEnd(Apply(t, events[0]), events[1..]);
    }
  }

  /** Conservation: under the same bound the balance is the opening balance plus everything posted. */
  lemma {:induction false} MoneyIsConserved(t: Tenant, opening: int, events: seq<Event>)
    requires Sound(t, opening) && Valid(t, events)
    requires PostingsExact(Postings(t.entries)) && 0 <= View(t).balance
    requires View(t).balance + PendingCredits(t.txns) + SubmittedCredits(Trace(t, events)) <= MAX
    ensures var u := Exec(t, events);
            View(u).balance == opening + Changes(Postings(u.entries))
  {
    NoOverdrawNoOverflow(t, opening, events);
    ExactAtTheEnd(t, events);
    LedgerChain(t, opening, events);
    var u := Exec(t, events);
    BalanceIsSumOfChanges(Postings(u.entries), opening, View(u).balance);
  }

  // ---------------------------------------------------------------- deadlock freedom

  /** A step that moves some worker's transaction forward. */
  predicate Forward(e: Event) {
    !e.SubmitRow? && !e.PollEmpty? && !e.Rollback?
  }

  predicate IsWorkerStep(t: Tenant, w: nat, e: Event) {
    Enabled(t, e) && Forward(e) && e.w == w
  }

  /** A session that holds the balance row can always execute its next statement. */
  lemma HolderCanStep(t: Tenant, w: nat) returns (e: Event)
    requires Inv(t) && w < |t.sessions| && t.sessions[w].HoldsBalance()
    ensures IsWorkerStep(t, w, e)
  {
    var s := t.sessions[w];
    match s
    case BalanceUpserted(_, _, _) => e := ReselectBalance(w);
    case BalanceLocked(_, row, _, current) =>
      e := if Completes(row, current) then UpdateBalance(w) else UpdateStatus(w);
    case BalanceUpdated(_, _, _, _) => e := InsertEntry(w);
    case EntryInserted(_, _, _, _, _) => e := UpdateStatus(w);
    case StatusUpdated(_, _, _, _, _) => e := Commit(w);
  }

  /** Deadlock freedom: whenever some worker is inside a transaction, some worker that is
      inside a transaction can execute its next statement without any rollback. */
  lemma NeverDeadlocked(t: Tenant, w: nat) returns (v: nat, e: Event)
    requires Inv(t) && w < |t.sessions| && !t.sessions[w].Idle?
    ensures v < |t.sessions| && !t.sessions[v].Idle? && IsWorkerStep(t, v, e)
  {
    if u: nat :| u < |t.sessions| && t.sessions[u].HoldsBalance() {
      v := u;
      e := HolderCanStep(t, u);
    } else {
      v := w;
      assert SessionOk(t, t.sessions[w]);
      match t.sessions[w]
      case Claimed(_, _) => e := SelectBalance(w);
      case BalanceNotFound(_, _) => e := InsertBalance(w);
      case BalanceUpserted(_, _, _) => e := ReselectBalance(w);
    }
  }

  // ---------------------------------------------------------------- termination

  /** How many statements of a transaction the session has executed. */
  function Phase(s: Session): nat {
    match s
    case Idle => 0
    case Claimed(_, _) => 1
    case BalanceNotFound(_, _) => 2
    case BalanceUpserted(_, _, _) => 3
    case BalanceLocked(_, _, _, _) => 4
    case BalanceUpdated(_, _, _, _) => 5
    case EntryInserted(_, _, _, _, _) => 6
    case StatusUpdated(_, _, _, _, _) => 7
  }

  function PhaseSum(sessions: seq<Session>): nat {
    if sessions == [] then 0 else Phase(sessions[0]) + PhaseSum(sessions[1..])
  }

  lemma {:induction false} PhaseSumUpdate(sessions: seq<Session>, w: nat, s: Session)
    requires w < |sessions|
    ensures PhaseSum(sessions[w := s]) == PhaseSum(sessions) - Phase(sessions[w]) + Phase(s)
  {
    if w > 0 {
      PhaseSumUpdate(sessions[1..], w - 1, s);
      assert sessions[w := s][1..] == sessions[1..][w - 1 := s];
    }
  }

  function PendingIds(t: Tenant): set<TxId> {
    set id | id in t.txns && t.txns[id].status.Pending?
  }

  /** Distinct sessions hold distinct pending rows, so phases are paid for by pending rows. */
  lemma {:induction false} PhasesArePaid(sessions: seq<Session>, ids: set<TxId>)
    requires forall w :: 0 <= w < |sessions| && !sessions[w].Idle? ==> sessions[w].txId in ids
    requires forall v, w :: 0 <= v < w < |sessions| ==> Compatible(sessions[v], sessions[w])
    ensures PhaseSum(sessions) <= 7 * |ids|
  {
    if sessions != [] {
      var rest := sessions[1..];
      assert forall w :: 0 <= w < |rest| ==> rest[w] == sessions[w + 1] && Compatible(sessions[0], rest[w]);
      if sessions[0].Idle? {
        PhasesArePaid(rest, ids);
      } else {
        PhasesArePaid(rest, ids - {sessions[0].txId});
      }
    }
  }

  /** Work still to do: eight statements for each pending row, less those already executed. */
  function WorkLeft(t: Tenant): int {
    8 * |PendingIds(t)| - PhaseSum(t.sessions)
  }

  lemma WorkLeftIsNatural(t: Tenant)
    requires Inv(t)
    ensures |PendingIds(t)| <= WorkLeft(t) <= 8 * |PendingIds(t)|
  {
    forall w | 0 <= w < |t.sessions| && !t.sessions[w].Idle? ensures t.sessions[w].txId in PendingIds(t) {
      assert SessionOk(t, t.sessions[w]);
    }
    PhasesArePaid(t.sessions, PendingIds(t));
  }

  lemma ForwardStepsDoWork(t: Tenant, e: Event)
    requires Inv(t) && Enabled(t, e) && !e.SubmitRow? && !e.PollEmpty?
    ensures WorkLeft(Apply(t, e)) <= WorkLeft(t) - 1 + (if e.Rollback? then 8 else 0)
  {
    var t' := Apply(t, e);
    PhaseSumUpdate(t.sessions, e.w, t'.sessions[e.w]);
    assert SessionOk(t, t.sessions[e.w]);
    if e.Commit? {
      assert PendingIds(t') == PendingIds(t) - {t.sessions[e.w].txId};
    } else {
      assert PendingIds(t') == PendingIds(t);
    }
  }

  function Rollbacks(events: seq<Event>): nat {
    if events == [] then 0 else (if events[0].Rollback? then 1 else 0) + Rollbacks(events[1..])
  }

  /** Termination: without new submissions, and not counting polls that find nothing, every
      schedule is over after at most eight steps for each pending row and each rollback. */
  lemma {:induction false} SchedulesEnd(t: Tenant, events: seq<Event>)
    requires Inv(t) && Valid(t, events)
    requires forall i :: 0 <= i < |events| ==> !events[i].SubmitRow? && !events[i].PollEmpty?
    ensures |events| + WorkLeft(Exec(t, events)) <= WorkLeft(t) + 8 * Rollbacks(events)
    ensures |events| <= 8 * (|PendingIds(t)| + Rollbacks(events))
    decreases |events|
  {
    if events != [] {
      ForwardStepsDoWork(t, events[0]);
      StepRefines(t, events[0]);
      SchedulesEnd(Apply(t, events[0]), events[1..]);
    }
    RunRefines(t, events);
    WorkLeftIsNatural(t);
    WorkLeftIsNatural(Exec(t, events));
  }

  lemma {:induction false} OldestExists(t: Tenant, ids: set<TxId>) returns (id: TxId)
    requires ids != {} && forall k :: k in ids ==> k in t.txns
    ensures id in ids && forall k :: k in ids ==> !Older(t, k, id)
    decreases |ids|
  {
    var some :| some in ids;
    if ids == {some} {
      id := some;
    } else {
      var rest := OldestExists(t, ids - {some});
      id := if Older(t, rest, some) then rest else some;
      forall k | k in ids ensures !Older(t, k, id) {
        assert k == some || k in ids - {some};
      }
    }
  }

  /** A schedule need not stop while a row is pending or a worker is inside a transaction. */
  lemma MovesUntilDone(t: Tenant) returns (e: Event)
    requires Inv(t) && |t.sessions| > 0
    requires PendingIds(t) != {} || exists w :: 0 <= w < |t.sessions| && !t.sessions[w].Idle?
    ensures Forward(e) && Enabled(t, e)
  {
    if w: nat :| w < |t.sessions| && !t.sessions[w].Idle? {
      var v;
      v, e := NeverDeadlocked(t, w);
    } else {
      var id := OldestExists(t, PendingIds(t));
      e := Claim(0, id);
    }
  }

  // ---------------------------------------------------------------- order

  function HeldIds(sessions: seq<Session>): (ids: set<TxId>)
    ensures |ids| <= |sessions|
    ensures forall w :: 0 <= w < |sessions| && !sessions[w].Idle? ==> sessions[w].txId in ids
    ensures forall w :: 0 <= w < |sessions| && sessions[w].Idle? ==> |ids| < |sessions|
  {
    if sessions == [] then {}
    else (if sessions[0].Idle? then {} else {sessions[0].txId}) + HeldIds(sessions[1..])
  }

  lemma {:induction false} SubsetIsSmaller<T>(a: set<T>, b: set<T>)
    requires a <= b
    ensures |a| <= |b|
  {
    if a != {} {
      var x :| x in a;
      SubsetIsSmaller(a - {x}, b - {x});
    }
  }

  /** Bounded overtaking: a claim passes over fewer rows than there are workers, and each row
      passed over is in the hands of another worker. */
  lemma BoundedOvertaking(t: Tenant, w: nat, id: TxId)
    requires Inv(t) && Enabled(t, Claim(w, id))
    ensures var passed := set k | k in t.txns && t.txns[k].status.Pending?
                                  && (t.txns[k].createdAt < t.txns[id].createdAt
                                      || (t.txns[k].createdAt == t.txns[id].createdAt && k < id));
            && |passed| <= |t.sessions| - 1
            && forall k :: k in passed ==> exists v :: 0 <= v < |t.sessions| && v != w && t.sessions[v].HoldsRow(k)
  {
    var passed := set k | k in t.txns && t.txns[k].status.Pending?
                          && (t.txns[k].createdAt < t.txns[id].createdAt
                              || (t.txns[k].createdAt == t.txns[id].createdAt && k < id));
    var held := HeldIds(t.sessions);
    forall k | k in passed ensures k in held && RowHeld(t, k) {
      assert !Claimable(t, k);
    }
    SubsetIsSmaller(passed, held);
  }

  /** The one worker's row, if it has one, is the oldest that is pending. */
  ghost predicate HoldsOldest(t: Tenant)
    requires |t.sessions| == 1
  {
    var s := t.sessions[0];
    s.Idle? || (s.txId in t.txns && forall k :: IsPending(t, k) && k != s.txId ==> Older(t, s.txId, k))
  }

  /** No rollback, and every arrival is younger than all that is there. */
  predicate Tidy(t: Tenant, events: seq<Event>)
    requires Valid(t, events)
    decreases |events|
  {
    events == [] || (
      && !events[0].Rollback?
      && (events[0].SubmitRow? ==>
            forall k :: k in t.txns ==> Older(Apply(t, events[0]), k, events[0].id))
      && Tidy(Apply(t, events[0]), events[1..]))
  }

  /** Pending now, or yet to arrive. */
  predicate Waits(t: Tenant, id: TxId) {
    IsPending(t, id) || id !in t.txns
  }

  /** `order` lists rows of `u` by age, and passes over none of those that waited at `t`. */
  predicate InAgeOrder(t: Tenant, u: Tenant, order: seq<TxId>) {
    && (forall i :: 0 <= i < |order| ==> order[i] in u.txns && Waits(t, order[i]))
    && (forall i, j :: 0 <= i < j < |order| ==> Older(u, order[i], order[j]))
    && (forall i, k :: 0 <= i < |order| && k in u.txns && Waits(t, k) && Older(u, k, order[i]) ==> k in order[..i])
  }

  /** Rows stay, with the age they have, and arrivals are younger than all of them. */
  lemma {:induction false} ArrivalsAreYounger(t: Tenant, events: seq<Event>)
    requires Valid(t, events) && Tidy(t, events) && Inv(t)
    ensures var u := Exec(t, events);
            && (forall k :: k in t.txns ==> k in u.txns && u.txns[k].createdAt == t.txns[k].createdAt)
            && (forall k, m :: k in t.txns && m in u.txns && m !in t.txns ==> Older(u, k, m))
    decreases |events|
  {
    if events != [] {
      StepRefines(t, events[0]);
      ArrivalsAreYounger(Apply(t, events[0]), events[1..]);
    }
  }

  lemma {:induction false} CommitOrderHead(t: Tenant, events: seq<Event>)
    requires Valid(t, events) && events != []
    ensures var rest := CommitOrder(Apply(t, events[0]), events[1..]);
            CommitOrder(t, events) == if events[0].Commit? then [t.sessions[events[0].w].txId] + rest else rest
  {
    var rest := Trace(Apply(t, events[0]), events[1..]);
    if Effect(t, events[0]) != [] {
      assert Trace(t, events)[1..] == rest;
    } else {
      assert Trace(t, events) == rest;
    }
  }

  lemma HoldsOldestStep(t: Tenant, e: Event)
    requires Inv(t) && Enabled(t, e)
    requires e.SubmitRow? ==> forall k :: k in t.txns ==> Older(Apply(t, e), k, e.id)
    requires |t.sessions| == 1 && HoldsOldest(t)
    ensures HoldsOldest(Apply(t, e))
  {
    var t' := Apply(t, e);
    assert SessionOk(t, t.sessions[0]);
    assert forall k :: IsPending(t', k) && !(e.SubmitRow? && k == e.id) ==> IsPending(t, k);
    if e.Claim? {
      forall k | IsPending(t', k) && k != e.id ensures Older(t', e.id, k) {
        assert !RowHeld(t, k);
        assert Claimable(t, k);
      }
    }
  }

  /** The oldest row that waits, committed, comes before the rest. */
  lemma CommitComesFirst(t: Tenant, u: Tenant, order: seq<TxId>)
    requires Inv(t) && |t.sessions| == 1 && HoldsOldest(t) && Enabled(t, Commit(0))
    requires forall k :: k in t.txns ==> k in u.txns && u.txns[k].createdAt == t.txns[k].createdAt
    requires forall k, m :: k in t.txns && m in u.txns && m !in t.txns ==> Older(u, k, m)
    requires InAgeOrder(Apply(t, Commit(0)), u, order)
    ensures InAgeOrder(t, u, [t.sessions[0].txId] + order)
  {
    var t', id := Apply(t, Commit(0)), t.sessions[0].txId;
    var order' := [id] + order;
    assert SessionOk(t, t.sessions[0]);
    assert forall k :: Waits(t, k) && k != id <==> Waits(t', k);
    assert forall k :: k in u.txns && Waits(t', k) ==> Older(u, id, k);
    forall i, k | 0 <= i < |order'| && k in u.txns && Waits(t, k) && Older(u, k, order'[i]) ensures k in order'[..i] {
      assert k == id ==> !Older(u, k, id);
      assert i > 0 && order'[i] == order[i - 1] && order'[..i] == [id] + order[..i - 1];
      assert k != id ==> k in order[..i - 1];
    }
  }

  /** Until it is committed a row keeps waiting. */
  lemma OthersKeepOrder(t: Tenant, u: Tenant, e: Event, order: seq<TxId>)
    requires Enabled(t, e) && !e.Commit? && InAgeOrder(Apply(t, e), u, order)
    ensures InAgeOrder(t, u, order)
  {
    assert forall k :: Waits(t, k) <==> Waits(Apply(t, e), k);
  }

  lemma {:induction false} CommitsFollowAge(t: Tenant, events: seq<Event>)
    requires Inv(t) && Valid(t, events) && Tidy(t, events)
    requires |t.sessions| == 1 && HoldsOldest(t)
    ensures InAgeOrder(t, Exec(t, events), CommitOrder(t, events))
    decreases |events|
  {
    if events != [] {
      var t', u, e := Apply(t, events[0]), Exec(t, events), events[0];
      StepRefines(t, e);
      HoldsOldestStep(t, e);
      CommitsFollowAge(t', events[1..]);
      CommitOrderHead(t, events);
      ArrivalsAreYounger(t, events);
      if e.Commit? {
        CommitComesFirst(t, u, CommitOrder(t', events[1..]));
      } else {
        OthersKeepOrder(t, u, e, CommitOrder(t', events[1..]));
      }
    }
  }

  /** With one worker, no rollback, and arrivals younger than what is there, processing follows
      (created_at, id) exactly: by age, and without passing over any row. */
  lemma SingleWorkerIsFifo(t: Tenant, events: seq<Event>)
    requires Inv(t) && Valid(t, events) && Tidy(t, events)
    requires |t.sessions| == 1 && HoldsOldest(t)
    ensures forall i :: 0 <= i < |CommitOrder(t, events)| ==> CommitOrder(t, events)[i] in Exec(t, events).txns
    ensures var u, order := Exec(t, events), CommitOrder(t, events);
            && (forall i, j :: 0 <= i < j < |order| ==>
                  || u.txns[order[i]].createdAt < u.txns[order[j]].createdAt
                  || (u.txns[order[i]].createdAt == u.txns[order[j]].createdAt && order[i] < order[j]))
            && (forall i, k :: 0 <= i < |order| && k in u.txns && (k !in t.txns || t.txns[k].status.Pending?)
                               && (u.txns[k].createdAt < u.txns[order[i]].createdAt
                                   || (u.txns[k].createdAt == u.txns[order[i]].createdAt && k < order[i])) ==>
                  k in order[..i])
  {
    CommitsFollowAge(t, events);
    var u, order := Exec(t, events), CommitOrder(t, events);
    forall i, j | 0 <= i < j < |order|
      ensures u.txns[order[i]].createdAt < u.txns[order[j]].createdAt
              || (u.txns[order[i]].createdAt == u.txns[order[j]].createdAt && order[i] < order[j])
    {
      assert Older(u, order[i], order[j]);
    }
    forall i, k | 0 <= i < |order| && k in u.txns && (k !in t.txns || t.txns[k].status.Pending?)
                  && (u.txns[k].createdAt < u.txns[order[i]].createdAt
                      || (u.txns[k].createdAt == u.txns[order[i]].createdAt && k < order[i]))
      ensures k in order[..i]
    {
      assert Waits(t, k) && Older(u, k, order[i]);
    }
  }
}
