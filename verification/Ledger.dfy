/** The tenant ledger as a sequential machine: rows are submitted as pending and then
    processed one whole transaction at a time. The concurrent worker engine is
    proved to refine this machine (module WorkerEngine). */
module Ledger {
  import opened Basics
  import opened GoInt64

  type TxId = nat

  datatype Status = Pending | Completed | Failed

  /** The failure code with the values its message prints. */
  datatype Failure =
    | InsufficientBalance(amount: int, available: int)
    | InvalidTransactionType(kind: string)

  datatype TxRow = TxRow(
    reference: string, kind: string, amount: int, createdAt: int,
    status: Status, failure: Option<Failure>)

  datatype Outcome = Outcome(status: Status, newBalance: int, change: int, failure: Option<Failure>)

  /** A ledger entry without its serial id. */
  datatype Posting = Posting(txId: TxId, reference: string, change: int, previous: int, next: int)

  datatype Ledger = Ledger(txns: map<TxId, TxRow>, balance: int, postings: seq<Posting>)

  // ---------------------------------------------------------------- one transaction

  /** The worker's decision on one row, in int64 arithmetic. */
  function EvaluateTransaction(row: TxRow, currentBalance: int): Outcome {
    if row.kind == "credit" then
      Outcome(Completed, Wrap(currentBalance + row.amount), row.amount, None)
    else if row.kind == "debit" then
      if currentBalance < row.amount then
        Outcome(Failed, currentBalance, 0, Some(InsufficientBalance(row.amount, currentBalance)))
      else
        Outcome(Completed, Wrap(currentBalance - row.amount), Wrap(-row.amount), None)
    else
      Outcome(Failed, currentBalance, 0, Some(InvalidTransactionType(row.kind)))
  }

  /** What the schema's CHECK constraints and BIGINT column admit. */
  predicate Storable(row: TxRow) {
    && row.kind in {"credit", "debit"}
    && 0 < row.amount <= MAX
  }

  function SignedAmount(row: TxRow): int {
    if row.kind == "credit" then row.amount else -row.amount
  }

  /** Starting from a balance that is not negative, one evaluation is exact and leaves the
      balance not negative unless the row is a credit that does not fit, and in that case
      the stored balance is negative. */
  lemma EvaluationExactIff(row: TxRow, balance: int)
    requires Storable(row) && 0 <= balance <= MAX
    ensures var o := EvaluateTransaction(row, balance);
            && (0 <= o.newBalance <==> !(row.kind == "credit" && balance > MAX - row.amount))
            && (o.newBalance == balance + o.change <==> !(row.kind == "credit" && balance > MAX - row.amount))
            && (o.status.Completed? ==> o.change == SignedAmount(row))
            && (o.status.Failed? <==> row.kind == "debit" && balance < row.amount)
            && (o.status.Failed? ==>
                  o.newBalance == balance && o.failure == Some(InsufficientBalance(row.amount, balance)))
  {
    if row.kind == "credit" && balance > MAX - row.amount {
      assert Wrap(balance + row.amount) == balance + row.amount - MODULUS;
    }
  }

  // ---------------------------------------------------------------- the sequential machine

  predicate CanSubmit(l: Ledger, id: TxId, row: TxRow) {
    && id !in l.txns
    && Storable(row)
    && row.status.Pending? && row.failure.None?
  }

  function Submit(l: Ledger, id: TxId, row: TxRow): Ledger {
    l.(txns := l.txns[id := row])
  }

  predicate CanProcess(l: Ledger, id: TxId) {
    id in l.txns && l.txns[id].status.Pending?
  }

  function Settle(row: TxRow, o: Outcome): TxRow {
    row.(status := o.status, failure := o.failure)
  }

  /** The entry that a completed row leaves in the ledger. */
  function PostingFor(id: TxId, row: TxRow, balance: int): Posting {
    var o := EvaluateTransaction(row, balance);
    Posting(id, row.reference, o.change, balance, o.newBalance)
  }

  function Process(l: Ledger, id: TxId): Ledger
    requires id in l.txns
  {
    var row := l.txns[id];
    var o := EvaluateTransaction(row, l.balance);
    var txns := l.txns[id := Settle(row, o)];
    if o.status.Completed? then
      Ledger(txns, o.newBalance, l.postings + [PostingFor(id, row, l.balance)])
    else
      l.(txns := txns)
  }

  /** What processing one row does, told by what is stored before and after it alone. */
  ghost predicate IsProcessed(l: Ledger, id: TxId, l': Ledger) {
    && id in l.txns && id in l'.txns && l'.txns == l.txns[id := l'.txns[id]]
    && var row, row' := l.txns[id], l'.txns[id];
    && row'.reference == row.reference && row'.kind == row.kind
    && row'.amount == row.amount && row'.createdAt == row.createdAt
    && if row.kind == "credit" || (row.kind == "debit" && row.amount <= l.balance) then
         var change := if row.kind == "credit" then row.amount else 0 - row.amount;
         && row'.status == Completed && row'.failure == None
         && -0x8000_0000_0000_0000 <= l'.balance <= 0x7fff_ffff_ffff_ffff
         && (l.balance + change - l'.balance) % 0x1_0000_0000_0000_0000 == 0
         && l'.postings == l.postings + [Posting(id, row.reference, change, l.balance, l'.balance)]
       else
         && row'.status == Failed && l'.balance == l.balance && l'.postings == l.postings
         && row'.failure == Some(if row.kind == "debit" then InsufficientBalance(row.amount, l.balance)
                                 else InvalidTransactionType(row.kind))
  }

  /** The decision, the row that is stored, the balance and the posting are the right ones. */
  lemma ProcessIsRight(l: Ledger, id: TxId)
    requires id in l.txns && 0 < l.txns[id].amount <= MAX
    ensures IsProcessed(l, id, Process(l, id))
  {
    assert Wrap(-l.txns[id].amount) == -l.txns[id].amount;
  }

  datatype Action = SubmitTx(id: TxId, row: TxRow) | ProcessTx(id: TxId)

  predicate Allowed(l: Ledger, a: Action) {
    match a
    case SubmitTx(id, row) => CanSubmit(l, id, row)
    case ProcessTx(id) => CanProcess(l, id)
  }

  function Act(l: Ledger, a: Action): Ledger
    requires Allowed(l, a)
  {
    match a
    case SubmitTx(id, row) => Submit(l, id, row)
    case ProcessTx(id) => Process(l, id)
  }

  predicate Legal(l: Ledger, acts: seq<Action>)
    decreases |acts|
  {
    acts == [] || (Allowed(l, acts[0]) && Legal(Act(l, acts[0]), acts[1..]))
  }

  function Replay(l: Ledger, acts: seq<Action>): Ledger
    requires Legal(l, acts)
    decreases |acts|
  {
    if acts == [] then l else Replay(Act(l, acts[0]), acts[1..])
  }

  lemma {:induction false} ReplayConcat(l: Ledger, a: seq<Action>, b: seq<Action>)
    requires Legal(l, a) && Legal(Replay(l, a), b)
    ensures Legal(l, a + b) && Replay(l, a + b) == Replay(Replay(l, a), b)
    decreases |a|
  {
    if a == [] {
      assert a + b == b;
    } else {
      ReplayConcat(Act(l, a[0]), a[1..], b);
      assert (a + b)[1..] == a[1..] + b;
    }
  }

  function CreditOf(amount: int): TxRow {
    TxRow("r", "credit", amount, 0, Pending, None)
  }

  lemma ReplayFirst(l: Ledger, a: Action, rest: seq<Action>)
    requires Allowed(l, a) && Legal(Act(l, a), rest)
    ensures Legal(l, [a] + rest) && Replay(l, [a] + rest) == Replay(Act(l, a), rest)
  {
    assert ([a] + rest)[1..] == rest;
  }

  /** Two credits that the API accepts drive the stored balance of a new ledger to the least int64. */
  lemma CreditCanWrap() returns (acts: seq<Action>)
    ensures acts == [SubmitTx(1, CreditOf(MAX)), ProcessTx(1), SubmitTx(2, CreditOf(1)), ProcessTx(2)]
    ensures Legal(Ledger(map[], 0, []), acts) && Replay(Ledger(map[], 0, []), acts).balance == MIN
  {
    var l0 := Ledger(map[], 0, []);
    var l1 := Act(l0, SubmitTx(1, CreditOf(MAX)));
    var l2 := Act(l1, ProcessTx(1));
    var l3 := Act(l2, SubmitTx(2, CreditOf(1)));
    assert l2.balance == MAX && Wrap(MAX + 1) == MIN;
    acts := [];
    ReplayFirst(l3, ProcessTx(2), acts);
    acts := [ProcessTx(2)] + acts;
    ReplayFirst(l2, SubmitTx(2, CreditOf(1)), acts);
    acts := [SubmitTx(2, CreditOf(1))] + acts;
    ReplayFirst(l1, ProcessTx(1), acts);
    acts := [ProcessTx(1)] + acts;
    ReplayFirst(l0, SubmitTx(1, CreditOf(MAX)), acts);
    acts := [SubmitTx(1, CreditOf(MAX))] + acts;
  }

  /** A debit above the balance is refused and says what there was; one of all there is completes. */
  lemma RefusedThenSpent() returns (l: Ledger)
    ensures var acts := [SubmitTx(7, CreditOf(10)), ProcessTx(7),
                         SubmitTx(8, TxRow("s", "debit", 50, 0, Pending, None)), ProcessTx(8),
                         SubmitTx(9, TxRow("t", "debit", 10, 0, Pending, None)), ProcessTx(9)];
            Legal(Ledger(map[], 0, []), acts) && Replay(Ledger(map[], 0, []), acts) == l
    ensures l.balance == 0 && l.postings == [Posting(7, "r", 10, 0, 10), Posting(9, "t", -10, 10, 0)]
    ensures 8 in l.txns && l.txns[8] == TxRow("s", "debit", 50, 0, Failed, Some(InsufficientBalance(50, 10)))
  {
    var debit8, debit9 := TxRow("s", "debit", 50, 0, Pending, None), TxRow("t", "debit", 10, 0, Pending, None);
    var l0 := Ledger(map[], 0, []);
    var l1 := Act(l0, SubmitTx(7, CreditOf(10)));
    var l2 := Act(l1, ProcessTx(7));
    var l3 := Act(l2, SubmitTx(8, debit8));
    var l4 := Act(l3, ProcessTx(8));
    var l5 := Act(l4, SubmitTx(9, debit9));
    l := Act(l5, ProcessTx(9));
    var acts := [];
    ReplayFirst(l5, ProcessTx(9), acts);
    acts := [ProcessTx(9)] + acts;
    ReplayFirst(l4, SubmitTx(9, debit9), acts);
    acts := [SubmitTx(9, debit9)] + acts;
    ReplayFirst(l3, ProcessTx(8), acts);
    acts := [ProcessTx(8)] + acts;
    ReplayFirst(l2, SubmitTx(8, debit8), acts);
    acts := [SubmitTx(8, debit8)] + acts;
    ReplayFirst(l1, ProcessTx(7), acts);
    acts := [ProcessTx(7)] + acts;
    ReplayFirst(l0, SubmitTx(7, CreditOf(10)), acts);
    acts := [SubmitTx(7, CreditOf(10))] + acts;
  }

  // ---------------------------------------------------------------- commit order

  function Processed(acts: seq<Action>): seq<TxId> {
    if acts == [] then []
    else (if acts[0].ProcessTx? then [acts[0].id] else []) + Processed(acts[1..])
  }

  /** All the submissions of a trace, none of its processing. */
  function SubmitAll(txns: map<TxId, TxRow>, acts: seq<Action>): map<TxId, TxRow>
    decreases |acts|
  {
    if acts == [] then txns
    else SubmitAll(if acts[0].SubmitTx? then txns[acts[0].id := acts[0].row] else txns, acts[1..])
  }

  predicate AllPending(l: Ledger, ids: seq<TxId>)
    decreases |ids|
  {
    ids == [] || (CanProcess(l, ids[0]) && AllPending(Process(l, ids[0]), ids[1..]))
  }

  /** "Process one transaction", folded over a list of ids. */
  function ProcessAll(l: Ledger, ids: seq<TxId>): Ledger
    requires AllPending(l, ids)
    decreases |ids|
  {
    if ids == [] then l else ProcessAll(Process(l, ids[0]), ids[1..])
  }

  lemma {:induction false} SubmitAllCommutes(l: Ledger, txns: map<TxId, TxRow>, id: TxId, row: TxRow, acts: seq<Action>)
    requires id in txns && id in l.txns && Legal(l, acts)
    ensures id in SubmitAll(txns, acts) && SubmitAll(txns, acts)[id] == txns[id]
    ensures SubmitAll(txns[id := row], acts) == SubmitAll(txns, acts)[id := row]
    decreases |acts|
  {
    if acts != [] {
      if acts[0].SubmitTx? {
        var txns' := txns[acts[0].id := acts[0].row];
        assert txns[id := row][acts[0].id := acts[0].row] == txns'[id := row];
        SubmitAllCommutes(Act(l, acts[0]), txns', id, row, acts[1..]);
      } else {
        SubmitAllCommutes(Act(l, acts[0]), txns, id, row, acts[1..]);
      }
    }
  }

  /** Processing a row first and submitting others later is the same as submitting them first. */
  lemma {:induction false} SubmissionsFloat(l: Ledger, id: TxId, acts: seq<Action>)
    requires id in l.txns && Legal(Process(l, id), acts)
    ensures id in SubmitAll(l.txns, acts) && SubmitAll(l.txns, acts)[id] == l.txns[id]
    ensures SubmitAll(Process(l, id).txns, acts) == SubmitAll(l.txns, acts)[id := Process(l, id).txns[id]]
  {
    SubmitAllCommutes(Process(l, id), l.txns, id, Process(l, id).txns[id], acts);
  }

  /** Any interleaving of submissions and processing equals: submit everything, then run
      the sequential fold over the transactions in the order they were processed. */
  lemma {:induction false} ReplayIsFoldInCommitOrder(l: Ledger, acts: seq<Action>)
    requires Legal(l, acts)
    ensures AllPending(l.(txns := SubmitAll(l.txns, acts)), Processed(acts))
    ensures Replay(l, acts) == ProcessAll(l.(txns := SubmitAll(l.txns, acts)), Processed(acts))
    decreases |acts|
  {
    if acts != [] {
      var l' := Act(l, acts[0]);
      ReplayIsFoldInCommitOrder(l', acts[1..]);
      if acts[0].ProcessTx? {
        var id := acts[0].id;
        SubmissionsFloat(l, id, acts[1..]);
        var all := l.(txns := SubmitAll(l.txns, acts));
        assert SubmitAll(l.txns, acts) == SubmitAll(l.txns, acts[1..]);
        assert Process(all, id) == l'.(txns := SubmitAll(l'.txns, acts[1..]));
        assert Processed(acts) == [id] + Processed(acts[1..]);
        assert Processed(acts)[1..] == Processed(acts[1..]);
      } else {
        assert Processed(acts) == Processed(acts[1..]);
      }
    }
  }

  /** Along a trace a row keeps what was submitted, and once terminal never changes again. */
  lemma {:induction false} RowsAreStable(l: Ledger, acts: seq<Action>, id: TxId)
    requires Legal(l, acts) && id in l.txns
    ensures var l' := Replay(l, acts);
            && id in l'.txns
            && (var row, row' := l.txns[id], l'.txns[id];
                && row' == row.(status := row'.status, failure := row'.failure)
                && (!row.status.Pending? ==> row' == row && id !in Processed(acts))
                && (row.status.Pending? ==> (row'.status.Pending? <==> id !in Processed(acts))))
    decreases |acts|
  {
    if acts != [] {
      RowsAreStable(Act(l, acts[0]), acts[1..], id);
    }
  }

  /** No transaction is processed twice. */
  lemma {:induction false} ProcessedAtMostOnce(l: Ledger, acts: seq<Action>)
    requires Legal(l, acts)
    ensures forall i, j :: 0 <= i < j < |Processed(acts)| ==> Processed(acts)[i] != Processed(acts)[j]
    decreases |acts|
  {
    if acts != [] {
      var l' := Act(l, acts[0]);
      ProcessedAtMostOnce(l', acts[1..]);
      if acts[0].ProcessTx? {
        RowsAreStable(l', acts[1..], acts[0].id);
      }
    }
  }

  /** All that was there and all that is submitted, as it was submitted. */
  lemma {:induction false} SubmittedRows(l: Ledger, acts: seq<Action>, id: TxId)
    requires Legal(l, acts)
    ensures var submitted := SubmitAll(l.txns, acts);
            && (id in l.txns ==> id in submitted && submitted[id] == l.txns[id])
            && (id in submitted && id !in l.txns ==>
                  submitted[id].status.Pending? && submitted[id].failure.None? && Storable(submitted[id]))
    decreases |acts|
  {
    if acts != [] {
      var l' := Act(l, acts[0]);
      SubmittedRows(l', acts[1..], id);
      if acts[0].ProcessTx? {
        SubmissionsFloat(l, acts[0].id, acts[1..]);
      }
    }
  }

  /** The fold settles exactly the rows it is given, and touches no other. */
  lemma {:induction false} FoldSettles(l: Ledger, ids: seq<TxId>, id: TxId)
    requires AllPending(l, ids)
    ensures var l' := ProcessAll(l, ids);
            && (id in l'.txns <==> id in l.txns)
            && (id in l.txns ==>
                  var row, row' := l.txns[id], l'.txns[id];
                  && row' == row.(status := row'.status, failure := row'.failure)
                  && (!row.status.Pending? ==> row' == row)
                  && (id in ids <==> row.status.Pending? && !row'.status.Pending?))
    decreases |ids|
  {
    if ids != [] {
      FoldSettles(Process(l, ids[0]), ids[1..], id);
    }
  }

  lemma {:induction false} FoldKeepsPostings(l: Ledger, ids: seq<TxId>)
    requires AllPending(l, ids)
    ensures l.postings <= ProcessAll(l, ids).postings
    decreases |ids|
  {
    if ids != [] {
      FoldKeepsPostings(Process(l, ids[0]), ids[1..]);
    }
  }

  /** The fold stores for each row what processing it at its turn stores. */
  lemma {:induction false} FoldStoresAtTurn(l: Ledger, ids: seq<TxId>, k: nat)
    requires AllPending(l, ids) && k < |ids|
    ensures AllPending(l, ids[..k])
    ensures var before := ProcessAll(l, ids[..k]);
            && CanProcess(before, ids[k]) && ids[k] in l.txns && before.txns[ids[k]] == l.txns[ids[k]]
            && ids[k] in ProcessAll(l, ids).txns
            && ProcessAll(l, ids).txns[ids[k]] == Process(before, ids[k]).txns[ids[k]]
            && before.postings <= ProcessAll(l, ids).postings
    decreases |ids|
  {
    var l' := Process(l, ids[0]);
    FoldSettles(l', ids[1..], ids[0]);
    FoldKeepsPostings(l, ids);
    if k > 0 {
      FoldStoresAtTurn(l', ids[1..], k - 1);
      assert ids[1..][k - 1] == ids[k] && ids[..k][1..] == ids[1..][..k - 1];
      assert ids[k] in ids[1..];
    }
  }

  // ---------------------------------------------------------------- books in order

  /** The balance after the first `i` postings. */
  function BalanceAfter(postings: seq<Posting>, opening: int, i: nat): int
    requires i <= |postings|
  {
    if i == 0 then opening else postings[i - 1].next
  }

  predicate Follows(p: Posting, balance: int) {
    p.previous == balance && p.next == Wrap(balance + p.change)
  }

  predicate LinkedAt(postings: seq<Posting>, opening: int, i: nat)
    requires i < |postings|
  {
    Follows(postings[i], BalanceAfter(postings, opening, i))
  }

  /** Each posting starts from the balance its predecessor left and adds its change;
      the last one leaves the stored balance. */
  ghost predicate Chained(postings: seq<Posting>, opening: int, balance: int) {
    && (forall i :: 0 <= i < |postings| ==> LinkedAt(postings, opening, i))
    && balance == BalanceAfter(postings, opening, |postings|)
  }

  predicate PostsRow(p: Posting, id: TxId, row: TxRow) {
    && p.txId == id
    && row.status.Completed?
    && p.reference == row.reference
    && p.change == SignedAmount(row)
  }

  ghost predicate PostedOnce(postings: seq<Posting>, id: TxId, row: TxRow) {
    exists i :: 0 <= i < |postings| && PostsRow(postings[i], id, row)
                && forall j :: 0 <= j < |postings| && postings[j].txId == id ==> j == i
  }

  ghost predicate NotPosted(postings: seq<Posting>, id: TxId) {
    forall j :: 0 <= j < |postings| ==> postings[j].txId != id
  }

  /** A completed row has exactly one posting, carrying its reference and signed amount;
      every other row has none; a failed row is a debit that exceeded what was there. */
  ghost predicate RowInOrder(postings: seq<Posting>, id: TxId, row: TxRow) {
    && Storable(row)
    && (row.status.Completed? ==> row.failure.None? && PostedOnce(postings, id, row))
    && (!row.status.Completed? ==> NotPosted(postings, id))
    && (row.status.Pending? ==> row.failure.None?)
    && (row.status.Failed? ==>
          && row.kind == "debit"
          && row.failure.Some? && row.failure.value.InsufficientBalance?
          && row.failure.value.amount == row.amount
          && row.failure.value.available < row.amount)
  }

  ghost predicate RowsInOrder(txns: map<TxId, TxRow>, postings: seq<Posting>) {
    && (forall i :: 0 <= i < |postings| ==> postings[i].txId in txns)
    && (forall id :: id in txns ==> RowInOrder(postings, id, txns[id]))
  }

  ghost predicate InOrder(l: Ledger, opening: int) {
    && InRange(l.balance)
    && Chained(l.postings, opening, l.balance)
    && RowsInOrder(l.txns, l.postings)
  }

  lemma PostingForIsLinked(id: TxId, row: TxRow, balance: int)
    requires Storable(row) && InRange(balance)
    requires EvaluateTransaction(row, balance).status.Completed?
    ensures var p := PostingFor(id, row, balance);
            && Follows(p, balance)
            && PostsRow(p, id, Settle(row, EvaluateTransaction(row, balance)))
  {
    assert Wrap(-row.amount) == -row.amount;
  }

  lemma AppendKeepsChain(postings: seq<Posting>, p: Posting, opening: int, balance: int)
    requires Chained(postings, opening, balance)
    requires Follows(p, balance)
    ensures Chained(postings + [p], opening, p.next)
  {
    forall i | 0 <= i < |postings| + 1 ensures LinkedAt(postings + [p], opening, i) {
      assert i < |postings| ==> LinkedAt(postings, opening, i);
    }
  }

  lemma AppendKeepsRowInOrder(l: Ledger, p: Posting, k: TxId, row: TxRow)
    requires k in l.txns && RowInOrder(l.postings, k, l.txns[k])
    requires k != p.txId ==> row == l.txns[k]
    requires k == p.txId ==> l.txns[k].status.Pending? && Storable(row) && row.failure.None? && PostsRow(p, k, row)
    ensures RowInOrder(l.postings + [p], k, row)
  {
    var postings' := l.postings + [p];
    if k == p.txId {
      assert PostsRow(postings'[|l.postings|], k, row);
    } else if row.status.Completed? {
      var i :| 0 <= i < |l.postings| && PostsRow(l.postings[i], k, row)
               && forall j :: 0 <= j < |l.postings| && l.postings[j].txId == k ==> j == i;
      assert PostsRow(postings'[i], k, row);
    }
  }

  lemma PostingKeepsRows(l: Ledger, row: TxRow, p: Posting)
    requires RowsInOrder(l.txns, l.postings) && CanProcess(l, p.txId)
    requires Storable(row) && row.failure.None? && PostsRow(p, p.txId, row)
    ensures RowsInOrder(l.txns[p.txId := row], l.postings + [p])
  {
    forall k | k in l.txns ensures RowInOrder(l.postings + [p], k, l.txns[p.txId := row][k]) {
      AppendKeepsRowInOrder(l, p, k, l.txns[p.txId := row][k]);
    }
  }

  lemma PostingKeepsOrder(l: Ledger, opening: int, row: TxRow, p: Posting)
    requires InOrder(l, opening) && CanProcess(l, p.txId)
    requires Storable(row) && row.failure.None? && PostsRow(p, p.txId, row)
    requires Follows(p, l.balance)
    ensures InOrder(Ledger(l.txns[p.txId := row], p.next, l.postings + [p]), opening)
  {
    AppendKeepsChain(l.postings, p, opening, l.balance);
    PostingKeepsRows(l, row, p);
  }

  lemma FailureKeepsOrder(l: Ledger, opening: int, id: TxId, row: TxRow)
    requires InOrder(l, opening) && CanProcess(l, id)
    requires row.status.Failed? && RowInOrder(l.postings, id, row)
    ensures InOrder(l.(txns := l.txns[id := row]), opening)
  {
  }

  lemma ProcessKeepsRowsInOrder(l: Ledger, opening: int, id: TxId)
    requires InOrder(l, opening) && CanProcess(l, id)
    ensures InOrder(Process(l, id), opening)
  {
    var row := l.txns[id];
    assert RowInOrder(l.postings, id, row);
    var o := EvaluateTransaction(row, l.balance);
    if o.status.Completed? {
      PostingForIsLinked(id, row, l.balance);
      PostingKeepsOrder(l, opening, Settle(row, o), PostingFor(id, row, l.balance));
    } else {
      FailureKeepsOrder(l, opening, id, Settle(row, o));
    }
  }

  lemma ActKeepsOrder(l: Ledger, opening: int, a: Action)
    requires InOrder(l, opening) && Allowed(l, a)
    ensures InOrder(Act(l, a), opening)
  {
    var l' := Act(l, a);
    if a.ProcessTx? {
      ProcessKeepsRowsInOrder(l, opening, a.id);
    } else {
      forall id | id in l'.txns ensures RowInOrder(l'.postings, id, l'.txns[id]) {
        if id != a.id {
          assert RowInOrder(l.postings, id, l.txns[id]);
        }
      }
    }
  }

  lemma {:induction false} ReplayKeepsOrder(l: Ledger, opening: int, acts: seq<Action>)
    requires InOrder(l, opening) && Legal(l, acts)
    ensures InOrder(Replay(l, acts), opening)
    decreases |acts|
  {
    if acts != [] {
      ActKeepsOrder(l, opening, acts[0]);
      ReplayKeepsOrder(Act(l, acts[0]), opening, acts[1..]);
    }
  }

  lemma {:induction false} FoldKeepsOrder(l: Ledger, opening: int, ids: seq<TxId>)
    requires InOrder(l, opening) && AllPending(l, ids)
    ensures InOrder(ProcessAll(l, ids), opening)
    decreases |ids|
  {
    if ids != [] {
      ActKeepsOrder(l, opening, ProcessTx(ids[0]));
      FoldKeepsOrder(Process(l, ids[0]), opening, ids[1..]);
    }
  }

  /** Submitting everything first keeps the books in order. */
  lemma SubmittedIsInOrder(l: Ledger, opening: int, acts: seq<Action>)
    requires InOrder(l, opening) && Legal(l, acts)
    ensures InOrder(l.(txns := SubmitAll(l.txns, acts)), opening)
  {
    var submitted := SubmitAll(l.txns, acts);
    forall i | 0 <= i < |l.postings| ensures l.postings[i].txId in submitted {
      SubmittedRows(l, acts, l.postings[i].txId);
    }
    forall id | id in submitted ensures RowInOrder(l.postings, id, submitted[id]) {
      SubmittedRows(l, acts, id);
      if id in l.txns {
        assert RowInOrder(l.postings, id, l.txns[id]);
      }
    }
  }

  /** The row is settled against this balance. */
  predicate SettledAgainst(row: TxRow, balance: int, row': TxRow) {
    && (row.kind == "debit" && balance < row.amount ==>
          row' == row.(status := Failed, failure := Some(InsufficientBalance(row.amount, balance))))
    && (row.kind == "credit" || (row.kind == "debit" && row.amount <= balance) ==>
          row' == row.(status := Completed, failure := None))
  }

  /** The k-th row of a fold is settled against the balance after the postings before it. */
  lemma FoldSettlesAgainst(l: Ledger, opening: int, ids: seq<TxId>, k: nat)
    requires InOrder(l, opening) && AllPending(l, ids) && k < |ids|
    ensures AllPending(l, ids[..k]) && ids[k] in l.txns && ids[k] in ProcessAll(l, ids).txns
    ensures var before, after := ProcessAll(l, ids[..k]), ProcessAll(l, ids);
            && before.postings <= after.postings
            && before.balance == BalanceAfter(after.postings, opening, |before.postings|)
            && SettledAgainst(l.txns[ids[k]], before.balance, after.txns[ids[k]])
  {
    FoldStoresAtTurn(l, ids, k);
    var before := ProcessAll(l, ids[..k]);
    FoldKeepsOrder(l, opening, ids[..k]);
    assert RowInOrder(before.postings, ids[k], before.txns[ids[k]]);
    ProcessIsRight(before, ids[k]);
  }

  // ---------------------------------------------------------------- no overdraw, no overflow

  /** What a row can still add to the balance. */
  function CreditDue(row: TxRow): nat {
    if row.status.Pending? && row.kind == "credit" && row.amount > 0 then row.amount else 0
  }

  ghost function PendingCredits(txns: map<TxId, TxRow>): nat
    decreases |txns|
  {
    if txns == map[] then 0
    else
      var id :| id in txns;
      CreditDue(txns[id]) + PendingCredits(txns - {id})
  }

  lemma {:induction false} PendingCreditsSplit(txns: map<TxId, TxRow>, id: TxId)
    requires id in txns
    ensures PendingCredits(txns) == CreditDue(txns[id]) + PendingCredits(txns - {id})
    decreases |txns|
  {
    var k :| k in txns && PendingCredits(txns) == CreditDue(txns[k]) + PendingCredits(txns - {k});
    if k != id {
      PendingCreditsSplit(txns - {k}, id);
      PendingCreditsSplit(txns - {id}, k);
      assert txns - {k} - {id} == txns - {id} - {k};
    }
  }

  lemma PendingCreditsUpdate(txns: map<TxId, TxRow>, id: TxId, row: TxRow)
    ensures PendingCredits(txns[id := row])
         == PendingCredits(txns) + CreditDue(row) - (if id in txns then CreditDue(txns[id]) else 0)
  {
    PendingCreditsSplit(txns[id := row], id);
    if id in txns {
      PendingCreditsSplit(txns, id);
      assert txns[id := row] - {id} == txns - {id};
    } else {
      assert txns[id := row] - {id} == txns;
    }
  }

  ghost predicate Funded(l: Ledger) {
    && 0 <= l.balance
    && l.balance + PendingCredits(l.txns) <= MAX
  }

  ghost predicate PostingsExact(postings: seq<Posting>) {
    forall i :: 0 <= i < |postings| ==>
      && 0 <= postings[i].previous <= MAX
      && 0 <= postings[i].next <= MAX
      && postings[i].next == postings[i].previous + postings[i].change
  }

  /** One action moves credit from due to paid, or adds what it submits. */
  lemma ActStaysFunded(l: Ledger, opening: int, a: Action)
    requires InOrder(l, opening) && Allowed(l, a) && PostingsExact(l.postings) && Funded(l)
    ensures var due := if a.SubmitTx? then CreditDue(a.row) else 0;
            var l' := Act(l, a);
            && 0 <= l'.balance && l'.balance + PendingCredits(l'.txns) <= l.balance + PendingCredits(l.txns) + due
            && PostingsExact(l'.postings)
  {
    if a.SubmitTx? {
      PendingCreditsUpdate(l.txns, a.id, a.row);
    } else {
      var row := l.txns[a.id];
      assert RowInOrder(l.postings, a.id, row);
      var o := EvaluateTransaction(row, l.balance);
      PendingCreditsSplit(l.txns, a.id);
      PendingCreditsUpdate(l.txns, a.id, Settle(row, o));
      EvaluationExactIff(row, l.balance);
    }
  }

  function SubmittedCredits(acts: seq<Action>): nat {
    if acts == [] then 0
    else (if acts[0].SubmitTx? then CreditDue(acts[0].row) else 0) + SubmittedCredits(acts[1..])
  }

  /** While the balance, the pending credits and the credits still to be submitted fit in an
      int64, no addition, subtraction or negation wraps and no balance is ever negative. */
  lemma {:induction false} ReplayStaysFunded(l: Ledger, opening: int, acts: seq<Action>)
    requires InOrder(l, opening) && Legal(l, acts) && PostingsExact(l.postings)
    requires 0 <= l.balance && l.balance + PendingCredits(l.txns) + SubmittedCredits(acts) <= MAX
    ensures Funded(Replay(l, acts)) && PostingsExact(Replay(l, acts).postings)
    decreases |acts|
  {
    if acts != [] {
      ActKeepsOrder(l, opening, acts[0]);
      ActStaysFunded(l, opening, acts[0]);
      ReplayStaysFunded(Act(l, acts[0]), opening, acts[1..]);
    }
  }

  function Changes(postings: seq<Posting>): int {
    if postings == [] then 0 else Changes(postings[..|postings| - 1]) + postings[|postings| - 1].change
  }

  predicate ExactAt(postings: seq<Posting>, opening: int, i: nat)
    requires i < |postings|
  {
    postings[i].next == BalanceAfter(postings, opening, i) + postings[i].change
  }

  lemma {:induction false} ExactChainSums(postings: seq<Posting>, opening: int)
    requires forall i :: 0 <= i < |postings| ==> ExactAt(postings, opening, i)
    ensures BalanceAfter(postings, opening, |postings|) == opening + Changes(postings)
    decreases |postings|
  {
    if postings != [] {
      var n := |postings| - 1;
      assert ExactAt(postings, opening, n);
      forall i | 0 <= i < n ensures ExactAt(postings[..n], opening, i) {
        assert ExactAt(postings, opening, i);
      }
      ExactChainSums(postings[..n], opening);
    }
  }

  /** Conservation: the balance is the opening balance plus everything posted. */
  lemma BalanceIsSumOfChanges(postings: seq<Posting>, opening: int, balance: int)
    requires Chained(postings, opening, balance) && PostingsExact(postings)
    ensures balance == opening + Changes(postings)
  {
    forall i | 0 <= i < |postings| ensures ExactAt(postings, opening, i) {
      assert LinkedAt(postings, opening, i);
    }
    ExactChainSums(postings, opening);
  }

  // ---------------------------------------------------------------- the bound is exact

  lemma {:induction false} FoldStaysExact(l: Ledger, opening: int, ids: seq<TxId>)
    requires InOrder(l, opening) && AllPending(l, ids) && PostingsExact(l.postings) && Funded(l)
    ensures PostingsExact(ProcessAll(l, ids).postings)
    decreases |ids|
  {
    if ids != [] {
      ActKeepsOrder(l, opening, ProcessTx(ids[0]));
      ActStaysFunded(l, opening, ProcessTx(ids[0]));
      FoldStaysExact(Process(l, ids[0]), opening, ids[1..]);
    }
  }

  lemma {:induction false} SomeCreditIsDue(txns: map<TxId, TxRow>) returns (id: TxId)
    requires PendingCredits(txns) > 0
    ensures id in txns && CreditDue(txns[id]) > 0
    decreases |txns|
  {
    id :| id in txns;
    PendingCreditsSplit(txns, id);
    if CreditDue(txns[id]) == 0 {
      id := SomeCreditIsDue(txns - {id});
    }
  }

  /** Credits that do not fit, processed one after the other, reach one that wraps. */
  lemma {:induction false} CreditsReachWrap(l: Ledger, opening: int) returns (ids: seq<TxId>)
    requires InOrder(l, opening) && 0 <= l.balance && l.balance + PendingCredits(l.txns) > MAX
    ensures AllPending(l, ids) && !PostingsExact(ProcessAll(l, ids).postings)
    decreases PendingCredits(l.txns)
  {
    var id := SomeCreditIsDue(l.txns);
    var row := l.txns[id];
    var l' := Process(l, id);
    assert RowInOrder(l.postings, id, row);
    EvaluationExactIff(row, l.balance);
    if l.balance > MAX - row.amount {
      ids := [id];
      assert ProcessAll(l', []) == l' && ids[1..] == [];
      assert !(0 <= l'.postings[|l.postings|].next);
    } else {
      PendingCreditsUpdate(l.txns, id, l'.txns[id]);
      ActKeepsOrder(l, opening, ProcessTx(id));
      var rest := CreditsReachWrap(l', opening);
      ids := [id] + rest;
      assert ids[1..] == rest;
    }
  }

  /** No order of processing the pending rows wraps or leaves a negative balance if and only if
      the balance and all pending credits together fit in an int64. */
  lemma NothingWrapsIff(l: Ledger, opening: int)
    requires InOrder(l, opening) && 0 <= l.balance && PostingsExact(l.postings)
    ensures l.balance + PendingCredits(l.txns) <= MAX
       <==> forall ids :: AllPending(l, ids) ==> PostingsExact(ProcessAll(l, ids).postings)
  {
    if l.balance + PendingCredits(l.txns) <= MAX {
      forall ids | AllPending(l, ids) ensures PostingsExact(ProcessAll(l, ids).postings) {
        FoldStaysExact(l, opening, ids);
      }
    } else {
      var ids := CreditsReachWrap(l, opening);
    }
  }
}
