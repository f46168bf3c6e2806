/** Runs of the submission protocol, and what holds over every run in which all segments fit in
    the TTL and every acquirer marks its row. No unique index on the reference is assumed. */
module SubmissionRuns {
  import opened Basics
  import opened Submission

  predicate Valid(w: World, events: seq<Event>)
    decreases |events|
  {
    events == [] || (Enabled(w, events[0]) && Valid(Apply(w, events[0]), events[1..]))
  }

  function Exec(w: World, events: seq<Event>): World
    requires Valid(w, events)
    decreases |events|
  {
    if events == [] then w else Exec(Apply(w, events[0]), events[1..])
  }

  /** Every step of the run obeys the rules. */
  predicate Lawful(rules: Rules, w: World, events: seq<Event>)
    requires Valid(w, events)
    decreases |events|
  {
    events == [] || (Obeys(rules, w, events[0]) && Lawful(rules, Apply(w, events[0]), events[1..]))
  }

  lemma {:induction false} ExecConcat(w: World, a: seq<Event>, b: seq<Event>)
    requires Valid(w, a) && Valid(Exec(w, a), b)
    ensures Valid(w, a + b) && Exec(w, a + b) == Exec(Exec(w, a), b)
    decreases |a|
  {
    if a == [] {
      assert a + b == b;
    } else {
      ExecConcat(Apply(w, a[0]), a[1..], b);
      assert (a + b)[1..] == a[1..] + b;
    }
  }

  /** Whatever the first rules allow, the second allow too. */
  predicate Stricter(a: Rules, b: Rules) {
    && a.ownerLimit <= b.ownerLimit
    && (b.loserLimit.Some? ==> a.loserLimit.Some? && a.loserLimit.value <= b.loserLimit.value)
    && (a.failures == b.failures || a.failures.NoFailure? || b.failures.AnyFailure?)
  }

  lemma {:induction false} StricterIsLawful(a: Rules, b: Rules, w: World, events: seq<Event>)
    requires Stricter(a, b) && Valid(w, events) && Lawful(a, w, events)
    ensures Lawful(b, w, events)
    decreases |events|
  {
    if events != [] {
      assert events[0].Tick? ==> forall h :: h in w.handlers && MayWait(a, w.clock, w.handlers[h]) ==>
                                   MayWait(b, w.clock, w.handlers[h]);
      StricterIsLawful(a, b, Apply(w, events[0]), events[1..]);
    }
  }

  /** Time does not go back, and no row is ever removed. */
  lemma {:induction false} RunsOnlyAdd(w: World, events: seq<Event>)
    requires Valid(w, events)
    ensures var u := Exec(w, events);
            u.ttl == w.ttl && w.clock <= u.clock && w.rows <= u.rows
    decreases |events|
  {
    if events != [] {
      RunsOnlyAdd(Apply(w, events[0]), events[1..]);
    }
  }

  lemma {:induction false} RunKeepsInv(w: World, events: seq<Event>)
    requires Inv(w) && Valid(w, events) && Lawful(Strict(w.ttl), w, events)
    ensures Inv(Exec(w, events)) && Exec(w, events).ttl == w.ttl
    decreases |events|
  {
    if events != [] {
      StepKeepsInv(w, events[0]);
      RunKeepsInv(Apply(w, events[0]), events[1..]);
    }
  }

  // ---------------------------------------------------------------- guarantees

  predicate AgreeByEpoch(responses: seq<Response>) {
    forall k, l :: 0 <= k < |responses| && 0 <= l < |responses| && responses[k].epoch == responses[l].epoch ==>
      responses[k].rowId == responses[l].rowId
  }

  lemma InvAgrees(w: World)
    requires Inv(w)
    ensures AgreeByEpoch(w.responses)
  {
    forall k, l | 0 <= k < |w.responses| && 0 <= l < |w.responses| && w.responses[k].epoch == w.responses[l].epoch
      ensures w.responses[k].rowId == w.responses[l].rowId
    {
      assert Names(w.rows, w.responses[k]) && Names(w.rows, w.responses[l]);
      var i :| 0 <= i < |w.rows| && w.rows[i].id == w.responses[k].rowId && w.rows[i].epoch == w.responses[k].epoch;
      var j :| 0 <= j < |w.rows| && w.rows[j].id == w.responses[l].rowId && w.rows[j].epoch == w.responses[l].epoch;
    }
  }

  /** Agreement: between one acquisition of the key and the next, every 202 response, first or
      replayed, carries the same transaction id: that of the only row created in between. */
  lemma Agreement(w: World, events: seq<Event>)
    requires Init(w) && Valid(w, events) && Lawful(Strict(w.ttl), w, events)
    ensures var u := Exec(w, events);
            && (forall k :: 0 <= k < |u.responses| ==> Names(u.rows, u.responses[k]))
            && AgreeByEpoch(u.responses)
            && (forall i, j :: 0 <= i < j < |u.rows| ==> u.rows[i].epoch < u.rows[j].epoch)
  {
    RunKeepsInv(w, events);
    InvAgrees(Exec(w, events));
  }

  /** A stored completed record names the newest row stored under the reference. */
  lemma CompletedNamesNewest(w: World, events: seq<Event>)
    requires Init(w) && Valid(w, events) && Lawful(Strict(w.ttl), w, events)
    ensures var u := Exec(w, events);
            u.record.Some? && u.record.value.state.CompletedAs? ==>
              && u.rows != []
              && u.rows[|u.rows| - 1].id == u.record.value.state.rowId
              && IsNewest(u.rows, Some(u.rows[|u.rows| - 1]))
  {
    RunKeepsInv(w, events);
  }

  /** Ownership without tokens: from its Begin until its MarkCompleted or Clear a request finds
      the key live, holding its own pending record or a completed record for its own row, and
      it is the only request in that position. */
  lemma Ownership(w: World, events: seq<Event>, h: HandlerId)
    requires Init(w) && Valid(w, events) && Lawful(Strict(w.ttl), w, events)
    requires h in Exec(w, events).handlers && OwnerPc(Exec(w, events).handlers[h])
    ensures var u := Exec(w, events);
            var pc := u.handlers[h];
            && Live(u)
            && (u.record.value.state == PendingBy(h)
                || (pc.Created? && u.record.value.state == CompletedAs(pc.row.id)))
            && (forall k :: k in u.handlers && OwnerPc(u.handlers[k]) ==> k == h)
  {
    RunKeepsInv(w, events);
    var u := Exec(w, events);
    assert HandlerOk(u, h, u.handlers[h]);
    forall k | k in u.handlers && OwnerPc(u.handlers[k]) ensures k == h {
      assert HandlerOk(u, k, u.handlers[k]);
    }
  }

  /** A loser's unconditional Set finds the key live and held for the very row it names: it
      overwrites that row's completed record, or the pending record of the request that has
      created that row and has yet to mark it, and nothing else. */
  lemma LosersMarkOnlyTheirRow(w: World, events: seq<Event>, h: HandlerId, ok: bool)
    requires Init(w) && Valid(w, events) && Lawful(Strict(w.ttl), w, events)
    requires Enabled(Exec(w, events), LoserMark(h, ok))
    ensures var u := Exec(w, events);
            var r := u.handlers[h].candidate;
            && Live(u) && IsLast(u, r)
            && (u.record.value.state == CompletedAs(r.id)
                || (&& u.record.value.state == PendingBy(r.owner)
                    && r.owner in u.handlers && u.handlers[r.owner].Created? && u.handlers[r.owner].row == r))
  {
    RunKeepsInv(w, events);
    var u := Exec(w, events);
    var pc := u.handlers[h];
    assert HandlerOk(u, h, pc);
    HeldMeansLive(u, pc.candidate, pc.peekedAt);
    if pc.candidate.owner in u.handlers {
      assert HandlerOk(u, pc.candidate.owner, u.handlers[pc.candidate.owner]);
    }
  }

  /** A GET answers if and only if a completed record is live at that moment, whatever the age of
      its row; the answer is the last row stored, and it is recorded. */
  lemma LiveRecordIsReplayed(w: World, events: seq<Event>, h: HandlerId)
    requires Init(w) && Valid(w, events) && Lawful(Strict(w.ttl), w, events)
    requires Enabled(Exec(w, events), GetState(h))
    ensures var u := Exec(w, events);
            var pc := Apply(u, GetState(h)).handlers[h];
            if u.record.Some? && u.record.value.state.CompletedAs? && u.clock <= u.record.value.deadline then
              && u.rows != [] && u.record.value.state.rowId == u.rows[|u.rows| - 1].id
              && pc == Done(Replayed(u.rows[|u.rows| - 1].id))
              && Apply(u, GetState(h)).responses == u.responses + [Response(u.epoch, u.rows[|u.rows| - 1].id)]
            else
              pc == Seen(u.clock)
  {
    RunKeepsInv(w, events);
  }

  /** Duplicates are replayed: once the creator has marked its row and for as long as the row
      is within its TTL, the first GET of any other request returns that row. */
  lemma DuplicatesAreReplayed(w: World, events: seq<Event>, r: Row, h: HandlerId)
    requires Init(w) && Valid(w, events) && Lawful(Strict(w.ttl), w, events)
    requires var u := Exec(w, events);
             && r in u.rows && Replayable(u, r.createdAt)
             && !(r.owner in u.handlers && u.handlers[r.owner].Created?)
             && h in u.handlers && (u.handlers[h].Lost? || u.handlers[h].Polling?)
    ensures Apply(Exec(w, events), GetState(h)).handlers[h] == Done(Replayed(r.id))
  {
    RunKeepsInv(w, events);
    var u := Exec(w, events);
    var i :| 0 <= i < |u.rows| && u.rows[i] == r;
    assert HeldFor(u, u.rows[i], u.rows[i].createdAt);
    HeldMeansLive(u, r, r.createdAt);
  }
}
