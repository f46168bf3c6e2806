/** Reading the ledger: id-descending pages over the chain of entries. */
module LedgerPages {
  import opened Ledger
  import opened WorkerEngine
  import opened WorkerRuns

  /** ORDER BY id DESC */
  function NewestFirst(entries: seq<Entry>): (r: seq<Entry>)
    ensures |r| == |entries|
    ensures forall i :: 0 <= i < |r| ==> r[i] == entries[|entries| - 1 - i]
  {
    seq(|entries|, i requires 0 <= i < |entries| => entries[|entries| - 1 - i])
  }

  function Clip(n: nat, bound: nat): nat {
    if n < bound then n else bound
  }

  /** LIMIT and OFFSET on the whole result. */
  function Window(rows: seq<Entry>, limit: nat, offset: nat): seq<Entry> {
    rows[Clip(offset, |rows|)..Clip(offset + limit, |rows|)]
  }

  /** The row loop over the query's cursor. */
  method ListLedgerEntries(entries: seq<Entry>, limit: nat, offset: nat) returns (page: seq<Entry>)
    ensures page == Window(NewestFirst(entries), limit, offset)
    ensures |page| == if offset >= |entries| then 0
                      else if limit <= |entries| - offset then limit else |entries| - offset
    ensures forall k :: 0 <= k < |page| ==> page[k] == entries[|entries| - 1 - offset - k]
  {
    page := [];
    var n := |entries|;
    while |page| < limit && offset + |page| < n
      invariant |page| <= limit && (page != [] ==> offset + |page| <= n)
      invariant forall k :: 0 <= k < |page| ==> page[k] == NewestFirst(entries)[offset + k]
      decreases n - |page|
    {
      page := page + [entries[n - 1 - (offset + |page|)]];
    }
  }

  /** The pages from `offset` on, one after the other, until one is empty. */
  function PagesFrom(rows: seq<Entry>, limit: nat, offset: nat): seq<Entry>
    requires limit > 0
    decreases |rows| - offset
  {
    if offset >= |rows| then [] else Window(rows, limit, offset) + PagesFrom(rows, limit, offset + limit)
  }

  /** Tiling: consecutive pages of any positive size add up to the whole ledger, newest first,
      without gap or repeat. */
  lemma {:induction false} PagesTile(rows: seq<Entry>, limit: nat, offset: nat)
    requires limit > 0 && offset <= |rows|
    ensures PagesFrom(rows, limit, offset) == rows[offset..]
    decreases |rows| - offset
  {
    if offset < |rows| {
      if offset + limit <= |rows| {
        PagesTile(rows, limit, offset + limit);
        assert rows[offset..] == rows[offset..offset + limit] + rows[offset + limit..];
      }
    }
  }

  /** SELECT COUNT(*); it is the length of all pages together, whatever their size. */
  method CountLedgerEntries(entries: seq<Entry>) returns (total: nat)
    ensures forall limit: nat :: limit > 0 ==> |PagesFrom(NewestFirst(entries), limit, 0)| == total
  {
    total := |entries|;
    forall limit: nat | limit > 0 ensures |PagesFrom(NewestFirst(entries), limit, 0)| == total {
      PagesTile(NewestFirst(entries), limit, 0);
    }
  }

  /** A chain of entries read newest first. */
  ghost predicate ReadsBack(listed: seq<Entry>, opening: int, balance: int) {
    && (forall i, j :: 0 <= i < j < |listed| ==> listed[i].id > listed[j].id)
    && (forall i :: 0 <= i < |listed| - 1 ==> listed[i].posting.previous == listed[i + 1].posting.next)
    && (if listed == [] then balance == opening
        else listed[0].posting.next == balance && listed[|listed| - 1].posting.previous == opening)
  }

  lemma ChainReadsBack(entries: seq<Entry>, opening: int, balance: int)
    requires forall i, j :: 0 <= i < j < |entries| ==> entries[i].id < entries[j].id
    requires Chained(Postings(entries), opening, balance)
    ensures ReadsBack(NewestFirst(entries), opening, balance)
  {
    var rows, postings := NewestFirst(entries), Postings(entries);
    forall i | 0 <= i < |rows| - 1 ensures rows[i].posting.previous == rows[i + 1].posting.next {
      var k := |rows| - 1 - i;
      assert LinkedAt(postings, opening, k);
    }
    if rows != [] {
      assert LinkedAt(postings, opening, 0);
    }
  }

  lemma NewestFirstKeepsAll(entries: seq<Entry>)
    ensures forall e :: e in NewestFirst(entries) <==> e in entries
  {
    var rows := NewestFirst(entries);
    forall e | e in entries ensures e in rows {
      var i :| 0 <= i < |entries| && entries[i] == e;
      assert rows[|entries| - 1 - i] == e;
    }
  }

  /** In every reachable ledger the pages list the entries by descending id; each entry, within
      a page or across pages, starts from the balance the next one listed left behind; the
      first shows the current balance and the last the opening balance. */
  lemma PagesFollowChain(t: Tenant, opening: int, events: seq<Event>, limit: nat)
    requires Sound(t, opening) && Valid(t, events) && limit > 0
    ensures var u := Exec(t, events);
            var listed := PagesFrom(NewestFirst(u.entries), limit, 0);
            && |listed| == |u.entries|
            && (forall e :: e in listed <==> e in u.entries)
            && ReadsBack(listed, opening, View(u).balance)
  {
    LedgerChain(t, opening, events);
    var u := Exec(t, events);
    PagesTile(NewestFirst(u.entries), limit, 0);
    ChainReadsBack(u.entries, opening, View(u).balance);
    NewestFirstKeepsAll(u.entries);
  }
}
