/** The worker's own code, statement by statement, over a schema that other workers and the
    API keep changing between any two of its statements. */
module WorkerProcess {
  import opened Basics
  import opened Ledger
  import opened WorkerEngine
  import opened WorkerRuns

  /** What happens around one statement of this worker: the steps others take before it,
      and whether it ends in an error (a cancelled context, a lost connection). */
  datatype Slot = Slot(others: seq<Event>, fails: bool)

  /** `hidden`: if the commit ends in an error, the server has committed all the same and only
      its reply was lost. */
  datatype Script = Script(
    claim: Slot, select: Slot, insert: Slot, reselect: Slot,
    balance: Slot, entry: Slot, status: Slot, commit: Slot, hidden: bool)

  datatype Result =
    | NothingPending
    | Errored
    | Processed(txId: TxId, reference: string, status: Status)

  predicate Calm(slot: Slot) {
    slot.others == [] && !slot.fails
  }

  /** Nobody else moves and nothing fails. */
  predicate Undisturbed(script: Script) {
    && Calm(script.claim) && Calm(script.select) && Calm(script.insert) && Calm(script.reselect)
    && Calm(script.balance) && Calm(script.entry) && Calm(script.status) && Calm(script.commit)
  }

  /** How many commits a call with this result may have made. */
  predicate Accounts(commits: int, result: Result, script: Script) {
    match result
    case Processed(_, _, _) => commits == 1
    case NothingPending => commits == 0
    case Errored => commits == 0 || (commits == 1 && script.commit.fails && script.hidden)
  }

  predicate ByOther(e: Event, w: nat) {
    e.SubmitRow? || e.w != w
  }

  /** The state once other sessions have executed whatever of `others` they could. */
  function AfterOthers(t: Tenant, w: nat, others: seq<Event>): (reached: Tenant)
    ensures |reached.sessions| == |t.sessions|
    ensures w < |t.sessions| ==> reached.sessions[w] == t.sessions[w]
  {
    if others == [] then t
    else
      var before, e := AfterOthers(t, w, others[..|others| - 1]), others[|others| - 1];
      if ByOther(e, w) && Enabled(before, e) then Apply(before, e) else before
  }

  /** Others are not held up by the worker's own code. */
  lemma OthersMove(t: Tenant, w: nat, others: seq<Event>, e: Event)
    requires (e.SubmitRow? || e.w != w) && Enabled(AfterOthers(t, w, others), e)
    ensures AfterOthers(t, w, others + [e]) == Apply(AfterOthers(t, w, others), e)
  {
    assert (others + [e])[..|others|] == others;
  }

  predicate SomeStatementFails(script: Script) {
    || script.claim.fails || script.select.fails || script.insert.fails || script.reselect.fails
    || script.balance.fails || script.entry.fails || script.status.fails || script.commit.fails
  }

  function CommitsBy(log: seq<Event>, w: nat): nat {
    if log == [] then 0
    else CommitsBy(log[..|log| - 1], w) + if log[|log| - 1] == Commit(w) then 1 else 0
  }

  lemma LogGrows(t: Tenant, log: seq<Event>, e: Event)
    requires Valid(t, log) && Enabled(Exec(t, log), e)
    ensures Valid(t, log + [e]) && Exec(t, log + [e]) == Apply(Exec(t, log), e)
    ensures forall w :: CommitsBy(log + [e], w) == CommitsBy(log, w) + if e == Commit(w) then 1 else 0
  {
    ExecConcat(t, log, [e]);
    assert [e][1..] == [];
    assert (log + [e])[..|log|] == log;
  }

  /** What a statement does to the session that executes it. */
  predicate SessionMoves(s: Session, e: Event, s': Session) {
    match e
    case SelectBalance(_) =>
      (s'.BalanceLocked? || s'.BalanceNotFound?) && s.Claimed? && s'.txId == s.txId && s'.row == s.row
    case InsertBalance(_) => s.BalanceNotFound? && s'.BalanceUpserted? && s'.txId == s.txId && s'.row == s.row
    case ReselectBalance(_) => s.BalanceUpserted? && s'.BalanceLocked? && s'.txId == s.txId && s'.row == s.row
    case UpdateBalance(_) =>
      s.BalanceLocked? && s'.BalanceUpdated? && s'.txId == s.txId && s'.row == s.row && s'.current == s.current
    case InsertEntry(_) =>
      s.BalanceUpdated? && s'.EntryInserted? && s'.txId == s.txId && s'.row == s.row && s'.current == s.current
    case UpdateStatus(_) =>
      (s.BalanceLocked? || s.EntryInserted?) && s'.StatusUpdated? && s'.txId == s.txId && s'.row == s.row
      && s'.current == s.current
    case Commit(_) => s.StatusUpdated? && s'.Idle?
    case Rollback(_) => s'.Idle?
    case _ => true
  }

  /** The committed row is the session's row with the outcome of its evaluation. */
  predicate Settled(txns: map<TxId, TxRow>, s: Session)
    requires s.StatusUpdated?
  {
    s.txId in txns && txns[s.txId] == Settle(s.row, EvaluateTransaction(s.row, s.current))
  }

  /** Only the balance row can make a session wait. */
  lemma UnblockedCanGoOn(t: Tenant, w: nat)
    requires Inv(t) && w < |t.sessions|
    ensures !BalanceHeldByOther(t, w) ==>
              && (t.sessions[w].Claimed? ==> Enabled(t, SelectBalance(w)))
              && (t.sessions[w].BalanceNotFound? ==> Enabled(t, InsertBalance(w)))
              && (t.sessions[w].BalanceUpserted? ==> Enabled(t, ReselectBalance(w)))
  {
    assert SessionOk(t, t.sessions[w]);
  }

  /** What one step does to its own session, to the others, and to the committed tables. */
  lemma StepEffect(t: Tenant, e: Event)
    requires Inv(t) && Enabled(t, e)
    ensures var t' := Apply(t, e);
            && |t'.sessions| == |t.sessions|
            && (forall w :: 0 <= w < |t.sessions| && ByOther(e, w) ==> t'.sessions[w] == t.sessions[w])
            && (!e.SubmitRow? ==>
                  && e.w < |t.sessions|
                  && SessionMoves(t.sessions[e.w], e, t'.sessions[e.w])
                  && BalanceHeldByOther(t', e.w) == BalanceHeldByOther(t, e.w))
  {
  }

  class Schema {
    var txns: map<TxId, TxRow>
    var balance: Option<int>
    var entries: seq<Entry>
    var nextEntryId: nat
    var sessions: seq<Session>

    ghost const origin: Tenant
    ghost const opening: int
    ghost var log: seq<Event>

    function State(): Tenant
      reads this
    {
      Tenant(txns, balance, entries, nextEntryId, sessions)
    }

    /** The state was reached from `origin` by the logged steps. */
    ghost predicate Consistent()
      reads this
    {
      Sound(origin, opening) && Inv(State()) && Valid(origin, log) && State() == Exec(origin, log)
      && |sessions| == |origin.sessions|
    }

    constructor (workers: nat)
      ensures Consistent() && log == [] && |sessions| == workers
      ensures forall w :: 0 <= w < workers ==> sessions[w].Idle?
      ensures opening == 0 && txns == map[] && balance == Some(0) && entries == []
    {
      opening := 0;
      txns, balance, entries, nextEntryId := map[], Some(0), [], 1;
      sessions := seq(workers, _ => Idle);
      origin := Tenant(map[], Some(0), [], 1, seq(workers, _ => Idle));
      log := [];
    }

    /** Everything proved of runs holds of the state these methods leave behind. */
    lemma StaysSound()
      requires Consistent()
      ensures Sound(State(), opening)
    {
      LedgerChain(origin, opening, log);
    }

    /** One atomic step, by whichever session it belongs to. */
    method Step(e: Event)
      requires Consistent() && Enabled(State(), e)
      modifies this
      ensures Consistent() && State() == Apply(old(State()), e) && log == old(log) + [e]
      ensures forall w :: 0 <= w < |sessions| && ByOther(e, w) ==> sessions[w] == old(sessions[w])
      ensures forall w :: CommitsBy(log, w) == CommitsBy(old(log), w) + if e == Commit(w) then 1 else 0
      ensures !e.SubmitRow? ==> SessionMoves(old(sessions)[e.w], e, sessions[e.w])
      ensures !e.SubmitRow? ==> BalanceHeldByOther(State(), e.w) == old(BalanceHeldByOther(State(), e.w))
      ensures !e.SubmitRow? && !e.Commit? ==> View(State()) == old(View(State()))
      ensures e.Commit? ==> old(CanProcess(View(State()), sessions[e.w].txId))
                            && View(State()) == Process(old(View(State())), old(sessions[e.w].txId))
    {
      if e.Commit? {
        CommitRefines(State(), e.w);
      }
      LogGrows(origin, log, e);
      StepEffect(State(), e);
      StepRefines(State(), e);
      var t := Apply(State(), e);
      txns, balance, entries, nextEntryId, sessions := t.txns, t.balance, t.entries, t.nextEntryId, t.sessions;
      log := log + [e];
    }

    /** Other sessions execute whatever of `others` they can. */
    method Interfere(w: nat, others: seq<Event>)
      requires Consistent() && w < |sessions|
      modifies this
      ensures Consistent() && sessions[w] == old(sessions[w])
      ensures CommitsBy(log, w) == CommitsBy(old(log), w)
      ensures State() == AfterOthers(old(State()), w, others)
    {
      assert others[..0] == [];
      for i := 0 to |others|
        invariant Consistent() && sessions[w] == old(sessions[w])
        invariant CommitsBy(log, w) == CommitsBy(old(log), w)
        invariant State() == AfterOthers(old(State()), w, others[..i])
      {
        assert others[..i + 1][..i] == others[..i];
        if ByOther(others[i], w) && Enabled(State(), others[i]) {
          Step(others[i]);
        }
      }
      assert others[..|others|] == others;
    }

    /** The row that the session is about to commit is processed by the commit. */
    lemma CommitIsRight(w: nat)
      requires Consistent() && w < |sessions| && sessions[w].StatusUpdated?
      ensures CanProcess(View(State()), sessions[w].txId)
      ensures IsProcessed(View(State()), sessions[w].txId, Process(View(State()), sessions[w].txId))
    {
      StaysSound();
      assert SessionOk(State(), sessions[w]);
      var id := sessions[w].txId;
      assert RowInOrder(View(State()).postings, id, txns[id]);
      ProcessIsRight(View(State()), id);
    }

    /** The tables are those of some ledger with this row processed. */
    ghost predicate HasProcessed(id: TxId)
      reads this
    {
      exists before :: IsProcessed(before, id, View(State()))
    }

    /** One statement of worker `w`. It fails if the script says so, or if the lock it waits
        for is not granted in time; a failed statement leaves the session as it was. */
    method Execute(w: nat, e: Event, slot: Slot) returns (ok: bool)
      requires Consistent() && w < |sessions| && !e.SubmitRow? && e.w == w
      modifies this
      ensures Consistent()
      ensures !ok ==> sessions[w] == old(sessions[w])
      ensures ok ==> SessionMoves(old(sessions[w]), e, sessions[w]) && |log| > 0 && log[|log| - 1] == e
      ensures CommitsBy(log, w) == CommitsBy(old(log), w) + if ok && e == Commit(w) then 1 else 0
      ensures ok <==> !slot.fails && Enabled(AfterOthers(old(State()), w, slot.others), e)
      ensures var reached := AfterOthers(old(State()), w, slot.others);
              State() == if ok then Apply(reached, e) else reached
      ensures ok && e == Commit(w) ==> Settled(txns, old(sessions[w])) && HasProcessed(old(sessions[w]).txId)
      ensures Calm(slot) ==>
                && ok == old(Enabled(State(), e))
                && BalanceHeldByOther(State(), w) == old(BalanceHeldByOther(State(), w))
                && (e != Commit(w) || !ok ==> View(State()) == old(View(State())))
                && (e == Commit(w) && ok ==> old(CanProcess(View(State()), sessions[w].txId))
                                             && View(State()) == Process(old(View(State())), old(sessions[w].txId)))
    {
      Interfere(w, slot.others);
      ok := !slot.fails && Enabled(State(), e);
      if ok {
        assert SessionOk(State(), sessions[w]);
        if e.Commit? {
          CommitIsRight(w);
        }
        Step(e);
      }
    }

    lemma NextExists()
      requires exists id :: id in txns && Claimable(State(), id)
      ensures exists id :: id in txns && NextInLine(State(), id)
    {
      var t := State();
      var some :| some in txns && Claimable(t, some);
      var ids := set k | k in txns && Claimable(t, k);
      assert some in ids;
      var id := OldestExists(t, ids);
      assert NextInLine(t, id);
    }

    /** SELECT ... FOR UPDATE SKIP LOCKED LIMIT 1 */
    method ClaimPendingTransaction(w: nat, slot: Slot) returns (ok: bool, found: bool)
      requires Consistent() && w < |sessions| && sessions[w].Idle?
      modifies this
      ensures Consistent() && CommitsBy(log, w) == CommitsBy(old(log), w)
      ensures found ==> ok && sessions[w].Claimed? && |log| > 0 && log[|log| - 1] == Claim(w, sessions[w].txId)
      ensures found ==> NextInLine(State().(sessions := sessions[w := Idle]), sessions[w].txId)
      ensures !found ==> sessions[w].Idle?
      ensures ok <==> !slot.fails
      ensures State().(sessions := sessions[w := Idle]) == AfterOthers(old(State()), w, slot.others)
      ensures ok && !found ==> |log| > 0 && log[|log| - 1] == PollEmpty(w)
      ensures ok && !found ==> forall id :: id in txns ==> !Claimable(State(), id)
      ensures Calm(slot) ==>
                && ok && View(State()) == old(View(State()))
                && BalanceHeldByOther(State(), w) == old(BalanceHeldByOther(State(), w))
                && (found ==> NextInLine(old(State()), sessions[w].txId))
    {
      Interfere(w, slot.others);
      ok, found := !slot.fails, false;
      if ok && exists id :: id in txns && Claimable(State(), id) {
        NextExists();
        var id :| id in txns && NextInLine(State(), id);
        ghost var before := State();
        Step(Claim(w, id));
        assert State().(sessions := sessions[w := Idle]) == before;
        found := true;
      } else if ok {
        Step(PollEmpty(w));
      }
    }

    /** Locks the balance row, creating it first if it is missing. */
    method LockCurrentBalance(w: nat, script: Script) returns (ok: bool)
      requires Consistent() && w < |sessions| && sessions[w].Claimed?
      modifies this
      ensures Consistent() && CommitsBy(log, w) == CommitsBy(old(log), w)
      ensures !sessions[w].Idle? && sessions[w].row == old(sessions[w].row) && sessions[w].txId == old(sessions[w].txId)
      ensures ok ==> sessions[w].BalanceLocked? && !script.select.fails
      ensures !ok ==>
                script.select.fails || script.insert.fails || script.reselect.fails || BalanceHeldByOther(State(), w)
      ensures Undisturbed(script) && !old(BalanceHeldByOther(State(), w)) ==> ok && View(State()) == old(View(State()))
    {
      UnblockedCanGoOn(State(), w);
      ok := Execute(w, SelectBalance(w), script.select);
      UnblockedCanGoOn(State(), w);
      if ok && sessions[w].BalanceNotFound? {
        ok := Execute(w, InsertBalance(w), script.insert);
        UnblockedCanGoOn(State(), w);
        if ok {
          ok := Execute(w, ReselectBalance(w), script.reselect);
          UnblockedCanGoOn(State(), w);
        }
      }
    }

    /** UPDATE balances, then INSERT INTO ledger_entries. */
    method ApplyCompletedTransaction(w: nat, script: Script) returns (ok: bool)
      requires Consistent() && w < |sessions| && sessions[w].BalanceLocked?
      requires Completes(sessions[w].row, sessions[w].current)
      modifies this
      ensures Consistent() && CommitsBy(log, w) == CommitsBy(old(log), w)
      ensures !sessions[w].Idle?
      ensures ok ==> sessions[w].EntryInserted? && sessions[w].row == old(sessions[w].row)
                     && sessions[w].txId == old(sessions[w].txId) && sessions[w].current == old(sessions[w].current)
      ensures ok <==> !script.balance.fails && !script.entry.fails
      ensures Undisturbed(script) ==> View(State()) == old(View(State()))
    {
      ok := Execute(w, UpdateBalance(w), script.balance);
      if ok {
        ok := Execute(w, InsertEntry(w), script.entry);
      }
    }

    /** The last step was this worker's commit: the tables are those of some ledger with this row
        processed, which is now terminal. */
    ghost predicate JustCommitted(w: nat, txId: TxId, reference: string, status: Status)
      reads this
    {
      && |log| > 0 && log[|log| - 1] == Commit(w)
      && txId in txns && !status.Pending?
      && txns[txId].status == status && txns[txId].reference == reference
      && HasProcessed(txId)
    }

    /** COMMIT. */
    method CommitTransaction(w: nat, script: Script) returns (result: Result)
      requires Consistent() && w < |sessions| && sessions[w].StatusUpdated?
      modifies this
      ensures Consistent() && sessions[w].Idle?
      ensures Accounts(CommitsBy(log, w) - CommitsBy(old(log), w), result, script)
      ensures result.Processed? ==> JustCommitted(w, result.txId, result.reference, result.status)
      ensures !result.NothingPending? && (result.Processed? <==> !script.commit.fails)
      ensures State() == Apply(AfterOthers(old(State()), w, script.commit.others),
                               if script.commit.fails && !script.hidden then Rollback(w) else Commit(w))
      ensures result.Processed? ==>
                result.status == EvaluateTransaction(old(sessions[w]).row, old(sessions[w]).current).status
      ensures Calm(script.commit) ==>
                && result.Processed? && result.txId == old(sessions[w].txId)
                && old(CanProcess(View(State()), sessions[w].txId))
                && View(State()) == Process(old(View(State())), old(sessions[w].txId))
    {
      var s := sessions[w];
      if script.commit.fails && script.hidden {
        Interfere(w, script.commit.others);
        Step(Commit(w));
        return Errored;
      }
      var ok := Execute(w, Commit(w), script.commit);
      if ok {
        return Processed(s.txId, s.row.reference, EvaluateTransaction(s.row, s.current).status);
      }
      Step(Rollback(w));
      result := Errored;
    }

    /** UPDATE transactions, then COMMIT. */
    method FinishTransaction(w: nat, script: Script) returns (result: Result)
      requires Consistent() && w < |sessions|
      requires sessions[w].EntryInserted?
               || (sessions[w].BalanceLocked? && !Completes(sessions[w].row, sessions[w].current))
      modifies this
      ensures Consistent() && sessions[w].Idle?
      ensures Accounts(CommitsBy(log, w) - CommitsBy(old(log), w), result, script)
      ensures result.Processed? ==> JustCommitted(w, result.txId, result.reference, result.status)
      ensures !result.NothingPending? && (result.Processed? <==> !script.status.fails && !script.commit.fails)
      ensures result.Processed? ==>
                result.status == EvaluateTransaction(old(sessions[w]).row, old(sessions[w]).current).status
      ensures Undisturbed(script) ==>
                && result.Processed? && result.txId == old(sessions[w].txId)
                && old(CanProcess(View(State()), sessions[w].txId))
                && View(State()) == Process(old(View(State())), old(sessions[w].txId))
    {
      var ok := Execute(w, UpdateStatus(w), script.status);
      if ok {
        result := CommitTransaction(w, script);
      } else {
        Step(Rollback(w));
        result := Errored;
      }
    }

    /** From the claim on. */
    method ProcessClaimed(w: nat, script: Script) returns (result: Result)
      requires Consistent() && w < |sessions| && sessions[w].Claimed?
      modifies this
      ensures Consistent() && sessions[w].Idle? && !result.NothingPending?
      ensures Accounts(CommitsBy(log, w) - CommitsBy(old(log), w), result, script)
      ensures result.Processed? ==> JustCommitted(w, result.txId, result.reference, result.status)
      ensures result.Errored? && !SomeStatementFails(script) ==>
                BalanceHeldByOther(State(), w) && |log| > 0 && log[|log| - 1] == Rollback(w)
      ensures result.Processed? ==> !script.select.fails && !script.status.fails && !script.commit.fails
      ensures result.Processed? && result.status.Completed? ==> !script.balance.fails && !script.entry.fails
      ensures Undisturbed(script) && !old(BalanceHeldByOther(State(), w)) ==>
                && result.Processed? && result.txId == old(sessions[w].txId)
                && old(CanProcess(View(State()), sessions[w].txId))
                && View(State()) == Process(old(View(State())), old(sessions[w].txId))
    {
      var ok := LockCurrentBalance(w, script);
      if ok && Completes(sessions[w].row, sessions[w].current) {
        ok := ApplyCompletedTransaction(w, script);
      }
      if ok {
        result := FinishTransaction(w, script);
      } else {
        Step(Rollback(w));
        result := Errored;
      }
    }

    /** Whatever others do between its statements and wherever it fails, the call leaves the
        worker idle; it returns a transaction only if it committed exactly one, as its last step,
        and then that row is terminal with the status returned; otherwise it has committed none,
        unless the reply to its commit was lost; it finds nothing only if there is nothing to
        claim. It fails only if a statement fails or the balance row is not released to it, and
        whenever a statement it executes fails. Undisturbed, it processes the next row in line. */
    method ProcessNextPendingTransaction(w: nat, script: Script) returns (result: Result)
      requires Consistent() && w < |sessions| && sessions[w].Idle?
      modifies this
      ensures Consistent() && sessions[w].Idle?
      ensures Accounts(CommitsBy(log, w) - CommitsBy(old(log), w), result, script)
      ensures result.Processed? ==> JustCommitted(w, result.txId, result.reference, result.status)
      ensures result.NothingPending? ==> !script.claim.fails && forall id :: id in txns ==> !Claimable(State(), id)
      ensures result.Errored? && !SomeStatementFails(script) ==>
                BalanceHeldByOther(State(), w) && |log| > 0 && log[|log| - 1] == Rollback(w)
      ensures result.Processed? ==>
                !script.claim.fails && !script.select.fails && !script.status.fails && !script.commit.fails
      ensures result.Processed? && result.status.Completed? ==> !script.balance.fails && !script.entry.fails
      ensures Undisturbed(script) && !old(BalanceHeldByOther(State(), w)) ==>
                && !result.Errored?
                && (result.NothingPending? ==> View(State()) == old(View(State())))
                && (result.Processed? ==>
                      && old(NextInLine(State(), result.txId))
                      && View(State()) == Process(old(View(State())), result.txId))
    {
      var ok, found := ClaimPendingTransaction(w, script.claim);
      if !found {
        return if ok then NothingPending else Errored;
      }
      result := ProcessClaimed(w, script);
    }
  }
}
