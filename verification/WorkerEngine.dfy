/** One tenant's schema under any number of workers. Every SQL statement is one step of
    one worker's database session; what a session has written stays in the session until
    it commits. Row locks are held by sessions from the statement that takes them until
    commit or rollback. */
module WorkerEngine {
  import opened Basics
  import opened Ledger

  datatype Entry = Entry(id: nat, posting: Posting)

  /** A worker's database transaction, named after the last statement it executed.
      `inserted` says that the session itself created the missing balance row. */
  datatype Session =
    | Idle
    | Claimed(txId: TxId, row: TxRow)
    | BalanceNotFound(txId: TxId, row: TxRow)
    | BalanceUpserted(txId: TxId, row: TxRow, inserted: bool)
    | BalanceLocked(txId: TxId, row: TxRow, inserted: bool, current: int)
    | BalanceUpdated(txId: TxId, row: TxRow, inserted: bool, current: int)
    | EntryInserted(txId: TxId, row: TxRow, inserted: bool, current: int, entry: Entry)
    | StatusUpdated(txId: TxId, row: TxRow, inserted: bool, current: int, posted: Option<Entry>)
  {
    predicate HoldsBalance() {
      match this
      case Idle => false
      case Claimed(_, _) => false
      case BalanceNotFound(_, _) => false
      case BalanceUpserted(_, _, inserted) => inserted
      case _ => true
    }

    predicate HoldsRow(id: TxId) {
      !Idle? && txId == id
    }
  }

  /** The committed tables, the entry id sequence (never rolled back), and the sessions. */
  datatype Tenant = Tenant(
    txns: map<TxId, TxRow>, balance: Option<int>, entries: seq<Entry>,
    nextEntryId: nat, sessions: seq<Session>)

  datatype Event =
    | SubmitRow(id: TxId, row: TxRow)
    | Claim(w: nat, id: TxId)
    | PollEmpty(w: nat)
    | SelectBalance(w: nat)
    | InsertBalance(w: nat)
    | ReselectBalance(w: nat)
    | UpdateBalance(w: nat)
    | InsertEntry(w: nat)
    | UpdateStatus(w: nat)
    | Commit(w: nat)
    | Rollback(w: nat)

  // ---------------------------------------------------------------- locks and order

  predicate RowHeld(t: Tenant, id: TxId) {
    exists w :: 0 <= w < |t.sessions| && t.sessions[w].HoldsRow(id)
  }

  predicate BalanceHeldByOther(t: Tenant, w: nat) {
    exists v :: 0 <= v < |t.sessions| && v != w && t.sessions[v].HoldsBalance()
  }

  predicate IsPending(t: Tenant, id: TxId) {
    id in t.txns && t.txns[id].status.Pending?
  }

  predicate Claimable(t: Tenant, id: TxId) {
    IsPending(t, id) && !RowHeld(t, id)
  }

  /** ORDER BY created_at ASC, id ASC */
  predicate Older(t: Tenant, a: TxId, b: TxId)
    requires a in t.txns && b in t.txns
  {
    || t.txns[a].createdAt < t.txns[b].createdAt
    || (t.txns[a].createdAt == t.txns[b].createdAt && a < b)
  }

  /** The row that the claim query returns: the oldest pending row nobody has locked. */
  predicate NextInLine(t: Tenant, id: TxId) {
    && Claimable(t, id)
    && forall other :: other in t.txns && Claimable(t, other) ==> !Older(t, other, id)
  }

  predicate Completes(row: TxRow, current: int) {
    EvaluateTransaction(row, current).status.Completed?
  }

  // ---------------------------------------------------------------- steps

  predicate Enabled(t: Tenant, e: Event) {
    match e
    case SubmitRow(id, row) => id !in t.txns && Storable(row) && row.status.Pending? && row.failure.None?
    case Claim(w, id) => w < |t.sessions| && t.sessions[w].Idle? && NextInLine(t, id)
    case PollEmpty(w) => w < |t.sessions| && t.sessions[w].Idle? && forall id :: id in t.txns ==> !Claimable(t, id)
    case SelectBalance(w) =>
      w < |t.sessions| && t.sessions[w].Claimed? && (t.balance.Some? ==> !BalanceHeldByOther(t, w))
    case InsertBalance(w) =>
      w < |t.sessions| && t.sessions[w].BalanceNotFound? && (t.balance.None? ==> !BalanceHeldByOther(t, w))
    case ReselectBalance(w) =>
      w < |t.sessions| && t.sessions[w].BalanceUpserted?
      && (t.sessions[w].inserted || (t.balance.Some? && !BalanceHeldByOther(t, w)))
    case UpdateBalance(w) =>
      w < |t.sessions| && t.sessions[w].BalanceLocked? && Completes(t.sessions[w].row, t.sessions[w].current)
    case InsertEntry(w) => w < |t.sessions| && t.sessions[w].BalanceUpdated?
    case UpdateStatus(w) =>
      w < |t.sessions| && (t.sessions[w].EntryInserted?
        || (t.sessions[w].BalanceLocked? && !Completes(t.sessions[w].row, t.sessions[w].current)))
    case Commit(w) => w < |t.sessions| && t.sessions[w].StatusUpdated?
    case Rollback(w) => w < |t.sessions| && !t.sessions[w].Idle?
  }

  function SetSession(t: Tenant, w: nat, s: Session): Tenant
    requires w < |t.sessions|
  {
    t.(sessions := t.sessions[w := s])
  }

  /** UPDATE transactions SET status = ... WHERE id = ...; the statement has no guard on
      the status that the row has at that moment. */
  function WriteStatus(txns: map<TxId, TxRow>, id: TxId, o: Outcome): map<TxId, TxRow> {
    if id in txns then txns[id := Settle(txns[id], o)] else txns
  }

  function Publish(t: Tenant, s: Session): Tenant
    requires s.StatusUpdated?
  {
    var o := EvaluateTransaction(s.row, s.current);
    t.(txns := WriteStatus(t.txns, s.txId, o),
       balance := if s.posted.Some? then Some(o.newBalance) else if s.inserted then Some(0) else t.balance,
       entries := if s.posted.Some? then t.entries + [s.posted.value] else t.entries)
  }

  function Apply(t: Tenant, e: Event): Tenant
    requires Enabled(t, e)
  {
    match e
    case SubmitRow(id, row) => t.(txns := t.txns[id := row])
    case Claim(w, id) => SetSession(t, w, Claimed(id, t.txns[id]))
    case PollEmpty(w) => t
    case SelectBalance(w) =>
      var s := t.sessions[w];
      SetSession(t, w, if t.balance.Some? then BalanceLocked(s.txId, s.row, false, t.balance.value)
                       else BalanceNotFound(s.txId, s.row))
    case InsertBalance(w) =>
      var s := t.sessions[w];
      SetSession(t, w, BalanceUpserted(s.txId, s.row, t.balance.None?))
    case ReselectBalance(w) =>
      var s := t.sessions[w];
      SetSession(t, w, BalanceLocked(s.txId, s.row, s.inserted, if s.inserted then 0 else t.balance.value))
    case UpdateBalance(w) =>
      var s := t.sessions[w];
      SetSession(t, w, BalanceUpdated(s.txId, s.row, s.inserted, s.current))
    case InsertEntry(w) =>
      var s := t.sessions[w];
      var entry := Entry(t.nextEntryId, PostingFor(s.txId, s.row, s.current));
      SetSession(t, w, EntryInserted(s.txId, s.row, s.inserted, s.current, entry)).(nextEntryId := t.nextEntryId + 1)
    case UpdateStatus(w) =>
      var s := t.sessions[w];
      SetSession(t, w, StatusUpdated(s.txId, s.row, s.inserted, s.current,
                                     if s.EntryInserted? then Some(s.entry) else None))
    case Commit(w) => SetSession(Publish(t, t.sessions[w]), w, Idle)
    case Rollback(w) => SetSession(t, w, Idle)
  }

  /** A claim takes, of the pending rows that no session holds, the one that came first; the id
      decides between rows created at the same time. */
  lemma ClaimTakesTheFirst(t: Tenant, w: nat, id: TxId)
    requires Enabled(t, Claim(w, id))
    ensures id in t.txns && t.txns[id].status.Pending?
    ensures forall v :: 0 <= v < |t.sessions| && !t.sessions[v].Idle? ==> t.sessions[v].txId != id
    ensures forall k :: k in t.txns && t.txns[k].status.Pending?
                        && (forall v :: 0 <= v < |t.sessions| && !t.sessions[v].Idle? ==> t.sessions[v].txId != k) ==>
              || t.txns[id].createdAt < t.txns[k].createdAt
              || (t.txns[id].createdAt == t.txns[k].createdAt && id <= k)
  {
    forall k | k in t.txns && t.txns[k].status.Pending?
               && (forall v :: 0 <= v < |t.sessions| && !t.sessions[v].Idle? ==> t.sessions[v].txId != k)
      ensures t.txns[id].createdAt < t.txns[k].createdAt || (t.txns[id].createdAt == t.txns[k].createdAt && id <= k)
    {
      assert Claimable(t, k);
    }
    assert !RowHeld(t, id);
  }

  /** Whatever the schema admits can be submitted at any time, and then waits. */
  lemma SubmissionsAreFree(t: Tenant, id: TxId, row: TxRow)
    requires id !in t.txns && (row.kind == "credit" || row.kind == "debit")
    requires 1 <= row.amount <= 0x7fff_ffff_ffff_ffff && row.status == Pending && row.failure == None
    ensures Enabled(t, SubmitRow(id, row)) && Apply(t, SubmitRow(id, row)) == t.(txns := t.txns[id := row])
  {
  }

  // ---------------------------------------------------------------- invariant

  /** An entry that a session has inserted but not committed. */
  predicate EntryOk(t: Tenant, s: Session, entry: Entry)
    requires s.EntryInserted? || s.StatusUpdated?
  {
    && entry.posting == PostingFor(s.txId, s.row, s.current)
    && entry.id < t.nextEntryId
    && forall i :: 0 <= i < |t.entries| ==> t.entries[i].id < entry.id
  }

  predicate SessionOk(t: Tenant, s: Session) {
    s.Idle? || (
      && s.txId in t.txns && t.txns[s.txId] == s.row && s.row.status.Pending?
      && (s.BalanceUpserted? ==> (s.inserted <==> t.balance.None?))
      && (s.HoldsBalance() && !s.BalanceUpserted? ==>
            if s.inserted then t.balance.None? && s.current == 0 else t.balance == Some(s.current))
      && (s.BalanceUpdated? || s.EntryInserted? ==> Completes(s.row, s.current))
      && (s.EntryInserted? ==> EntryOk(t, s, s.entry))
      && (s.StatusUpdated? ==>
            && (s.posted.Some? <==> Completes(s.row, s.current))
            && (s.posted.Some? ==> EntryOk(t, s, s.posted.value))))
  }

  /** Two sessions never hold the same transaction row, nor both the balance row. */
  predicate Compatible(a: Session, b: Session) {
    && (!a.Idle? && !b.Idle? ==> a.txId != b.txId)
    && !(a.HoldsBalance() && b.HoldsBalance())
  }

  predicate EntryIdsIncrease(t: Tenant) {
    && (forall i, j :: 0 <= i < j < |t.entries| ==> t.entries[i].id < t.entries[j].id)
    && (forall i :: 0 <= i < |t.entries| ==> t.entries[i].id < t.nextEntryId)
  }

  ghost predicate Inv(t: Tenant) {
    && EntryIdsIncrease(t)
    && (forall w :: 0 <= w < |t.sessions| ==> SessionOk(t, t.sessions[w]))
    && (forall v, w :: 0 <= v < |t.sessions| && 0 <= w < |t.sessions| && v != w ==>
          Compatible(t.sessions[v], t.sessions[w]))
  }

  lemma SessionStepKeepsInv(t: Tenant, e: Event)
    requires Inv(t) && Enabled(t, e) && !e.SubmitRow? && !e.Commit?
    ensures Inv(Apply(t, e))
  {
    if !e.PollEmpty? {
      var t' := Apply(t, e);
      var s, s' := t.sessions[e.w], t'.sessions[e.w];
      assert SessionOk(t, s);
      assert SessionOk(t', s');
      forall v | 0 <= v < |t.sessions| && v != e.w
        ensures SessionOk(t', t.sessions[v]) && Compatible(s', t.sessions[v]) && Compatible(t.sessions[v], s')
      {
        assert SessionOk(t, t.sessions[v]) && Compatible(s, t.sessions[v]);
      }
    }
  }

  lemma SubmitKeepsInv(t: Tenant, e: Event)
    requires Inv(t) && Enabled(t, e) && e.SubmitRow?
    ensures Inv(Apply(t, e))
  {
    forall w | 0 <= w < |t.sessions| ensures SessionOk(Apply(t, e), t.sessions[w]) {
      assert SessionOk(t, t.sessions[w]);
    }
  }

  lemma CommitKeepsInv(t: Tenant, w: nat)
    requires Inv(t) && Enabled(t, Commit(w))
    ensures Inv(Apply(t, Commit(w)))
  {
    var t' := Apply(t, Commit(w));
    var s := t.sessions[w];
    assert SessionOk(t, s);
    forall v | 0 <= v < |t.sessions| && v != w ensures SessionOk(t', t.sessions[v]) {
      assert SessionOk(t, t.sessions[v]) && Compatible(s, t.sessions[v]);
    }
    forall u, v | 0 <= u < |t.sessions| && 0 <= v < |t.sessions| && u != v
      ensures Compatible(t'.sessions[u], t'.sessions[v])
    {
      assert Compatible(t.sessions[u], t.sessions[v]);
    }
  }

  // ---------------------------------------------------------------- refinement

  function Postings(entries: seq<Entry>): (p: seq<Posting>)
    ensures |p| == |entries|
    ensures forall i :: 0 <= i < |p| ==> p[i] == entries[i].posting
  {
    seq(|entries|, i requires 0 <= i < |entries| => entries[i].posting)
  }

  /** What a reader of the committed tables sees; a missing balance row counts as zero. */
  function View(t: Tenant): Ledger {
    Ledger(t.txns, if t.balance.Some? then t.balance.value else 0, Postings(t.entries))
  }

  /** The sequential action that a step stands for, if any. */
  function Effect(t: Tenant, e: Event): seq<Action>
    requires Enabled(t, e)
  {
    match e
    case SubmitRow(id, row) => [SubmitTx(id, row)]
    case Commit(w) => [ProcessTx(t.sessions[w].txId)]
    case _ => []
  }

  lemma CommitRefines(t: Tenant, w: nat)
    requires Inv(t) && Enabled(t, Commit(w))
    ensures var id := t.sessions[w].txId;
            CanProcess(View(t), id) && View(Apply(t, Commit(w))) == Process(View(t), id)
  {
    var s := t.sessions[w];
    assert SessionOk(t, s);
    var t' := Apply(t, Commit(w));
    if s.posted.Some? {
      assert Postings(t'.entries) == Postings(t.entries) + [s.posted.value.posting];
    }
  }

  /** Every step either leaves the committed view alone or is exactly one sequential action. */
  lemma StepRefines(t: Tenant, e: Event)
    requires Inv(t) && Enabled(t, e)
    ensures Inv(Apply(t, e))
    ensures Legal(View(t), Effect(t, e)) && View(Apply(t, e)) == Replay(View(t), Effect(t, e))
  {
    match e
    case SubmitRow(id, row) =>
      SubmitKeepsInv(t, e);
      assert Effect(t, e)[1..] == [];
    case Commit(w) =>
      CommitKeepsInv(t, w);
      CommitRefines(t, w);
      assert Effect(t, e)[1..] == [];
    case _ =>
      SessionStepKeepsInv(t, e);
  }
}
