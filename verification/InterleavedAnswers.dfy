/**
 When the as-of query answers, in terms of the statements of a run: which one brought a row, which was the first
 to close it, and which was the last to stamp it.
 */
module InterleavedAnswers {
  import opened Wrappers
  import opened TemporalMemory
  import opened InterleavedInvalidation
  import opened InterleavedHistory

  // ---------------------------------------------------------------- the statements that matter to a row

  ghost predicate Brings(step: Step, id: Uuid) {
    step.Insert? && id in IdsOf(step.rows)
  }

  /** The first of the first n steps that brings a row with this id. */
  ghost function Bringing(steps: seq<Step>, n: nat, id: Uuid): (b: Option<nat>)
    requires n <= |steps|
    ensures b.Some? ==>
              b.value < n && Brings(steps[b.value], id) && forall k :: 0 <= k < b.value ==> !Brings(steps[k], id)
    ensures b.None? ==> forall k :: 0 <= k < n ==> !Brings(steps[k], id)
  {
    if n == 0 then None
    else if Bringing(steps, n - 1, id).Some? then Bringing(steps, n - 1, id)
    else if Brings(steps[n - 1], id) then Some(n - 1)
    else None
  }

  /** The validFrom of the first row of a batch with this id. */
  ghost function Stamp(rows: seq<Insertion>, id: Uuid): Time
    requires id in IdsOf(rows)
    decreases |rows|
  {
    if rows[0].id == id then rows[0].row.validFrom
    else
      assert id in IdsOf(rows[1..]) by {
        var i :| 0 <= i < |rows| && rows[i].id == id;
        assert rows[1..][i - 1] == rows[i];
      }
      Stamp(rows[1..], id)
  }

  /** Step k is an UPDATE that runs, of a call that selected this id. */
  ghost predicate Closes(env: Externals, steps: seq<Step>, k: nat, id: Uuid)
    requires k < |steps|
  {
    steps[k].Update? && Due(Run(env, map[], steps[..k]), steps[k].call)
    && id in Run(env, map[], steps[..k]).calls[steps[k].call].selected
  }

  /** When the transaction of that call began. */
  ghost function BeganAt(env: Externals, steps: seq<Step>, k: nat): Time
    requires k < |steps| && steps[k].Update? && Due(Run(env, map[], steps[..k]), steps[k].call)
  {
    Run(env, map[], steps[..k]).calls[steps[k].call].began
  }

  ghost function FirstClosing(env: Externals, steps: seq<Step>, n: nat, id: Uuid): (i: Option<nat>)
    requires n <= |steps|
    ensures i.Some? ==>
              && i.value < n && Closes(env, steps, i.value, id)
              && forall k :: 0 <= k < i.value ==> !Closes(env, steps, k, id)
    ensures i.None? ==> forall k :: 0 <= k < n ==> !Closes(env, steps, k, id)
  {
    if n == 0 then None
    else if FirstClosing(env, steps, n - 1, id).Some? then FirstClosing(env, steps, n - 1, id)
    else if Closes(env, steps, n - 1, id) then Some(n - 1)
    else None
  }

  ghost function LastClosing(env: Externals, steps: seq<Step>, n: nat, id: Uuid): (j: Option<nat>)
    requires n <= |steps|
    ensures j.Some? ==>
              && j.value < n && Closes(env, steps, j.value, id)
              && forall k :: j.value < k < n ==> !Closes(env, steps, k, id)
    ensures j.None? <==> FirstClosing(env, steps, n, id).None?
  {
    if n == 0 then None
    else if Closes(env, steps, n - 1, id) then Some(n - 1)
    else LastClosing(env, steps, n - 1, id)
  }

  // ---------------------------------------------------------------- what they make of the row

  lemma {:induction false} FirstOfferIsStored(t: Table, rows: seq<Insertion>, id: Uuid)
    requires id !in t && id in IdsOf(rows)
    ensures id in InsertAll(t, rows) && InsertAll(t, rows)[id].validFrom == Stamp(rows, id)
    decreases |rows|
  {
    var t', rest := InsertRow(t, rows[0]), rows[1..];
    if rows[0].id == id {
      FirstWriteWins(t', rest);
    } else {
      var i :| 0 <= i < |rows| && rows[i].id == id;
      assert rest[i - 1] == rows[i];
      FirstOfferIsStored(t', rest, id);
    }
  }

  lemma Prefixes(steps: seq<Step>, n: nat)
    requires 0 < n <= |steps|
    ensures steps[..n][..n - 1] == steps[..n - 1] && steps[..n][n - 1] == steps[n - 1]
  {}

  /** A row was inserted by the first step that brought its id, and starts when that step said. */
  lemma {:induction false} BroughtBy(env: Externals, steps: seq<Step>, n: nat, id: Uuid)
    requires InsertsOpenRows(steps) && n <= |steps|
    ensures var b, table, births := Bringing(steps, n, id), TableAfter(env, steps[..n]), Births(env, steps[..n]);
            && (b.Some? <==> id in table) && (id in table <==> id in births)
            && (b.Some? ==>
                  births[id] == steps[b.value].now && table[id].validFrom == Stamp(steps[b.value].rows, id))
    decreases n
  {
    if n > 0 {
      Prefixes(steps, n);
      BroughtBy(env, steps, n - 1, id);
      OneStep(env, steps[..n]);
      var before, last := TableAfter(env, steps[..n - 1]), steps[n - 1];
      if last.Insert? {
        FirstWriteWins(before, last.rows);
        if id !in before && id in IdsOf(last.rows) {
          FirstOfferIsStored(before, last.rows, id);
        }
      }
    }
  }

  lemma ClosedByStep(env: Externals, s: State, step: Step, id: Uuid)
    requires Inv(map[], s)
    requires step.Insert? ==> forall j :: 0 <= j < |step.rows| ==> step.rows[j].row.validTo.None?
    ensures var t' := Next(env, s, step).table;
            var closes := step.Update? && Due(s, step.call) && id in s.calls[step.call].selected;
            && (id in ClosedIds(t') <==> id in ClosedIds(s.table) || closes)
            && (id in ClosedIds(t') ==>
                  t'[id].validTo == if closes then Some(s.calls[step.call].began) else s.table[id].validTo)
  {
    if step.Insert? {
      InsertKeepsClosed(s.table, step.rows);
    }
  }

  /** A row was closed by the first UPDATE of a call that selected it, and bears the start of the last such call. */
  lemma {:induction false} ClosedBy(env: Externals, steps: seq<Step>, n: nat, id: Uuid)
    requires InsertsOpenRows(steps) && n <= |steps|
    ensures var i, j := FirstClosing(env, steps, n, id), LastClosing(env, steps, n, id);
            var table, shuts := TableAfter(env, steps[..n]), Shuts(env, steps[..n]);
            && (i.Some? <==> id in ClosedIds(table)) && (id in ClosedIds(table) <==> id in shuts)
            && (i.Some? ==> shuts[id] == steps[i.value].now && table[id].validTo == Some(BeganAt(env, steps, j.value)))
    decreases n
  {
    if n > 0 {
      Prefixes(steps, n);
      ClosedBy(env, steps, n - 1, id);
      RunKeepsInv(env, map[], steps[..n - 1]);
      ClosedByStep(env, Run(env, map[], steps[..n - 1]), steps[n - 1], id);
    }
  }

  // ---------------------------------------------------------------- the exact condition

  /** A row brought by step b with this stamp tells its times: the stamp is when it was inserted, and the call that
      stamped it last began when it was first closed; or it was closed as it came in, and its own interval is empty. */
  ghost predicate TellsItsTimes(env: Externals, steps: seq<Step>, id: Uuid, b: nat, stamp: Time)
    requires b < |steps|
  {
    var born, n := steps[b].now, |steps|;
    match FirstClosing(env, steps, n, id)
    case None => stamp == born
    case Some(i) =>
      var began := BeganAt(env, steps, LastClosing(env, steps, n, id).value);
      (stamp == born && began == steps[i].now) || (steps[i].now == born && began <= stamp)
  }

  /** A row with this id, if any was brought, tells its times by the stamp of its first offer. */
  ghost predicate RowTells(env: Externals, steps: seq<Step>, id: Uuid) {
    match Bringing(steps, |steps|, id)
    case None => true
    case Some(b) => TellsItsTimes(env, steps, id, b, Stamp(steps[b].rows, id))
  }

  lemma FaithfulTells(env: Externals, steps: seq<Step>, id: Uuid)
    requires InsertsOpenRows(steps)
    ensures var table, births, shuts := TableAfter(env, steps), Births(env, steps), Shuts(env, steps);
            && (id in table ==> id in births)
            && (RowTells(env, steps, id) <==>
                (id in table ==> Faithful(table[id], births[id], ShutAt(shuts, id))))
  {
    BroughtBy(env, steps, |steps|, id);
    ClosedBy(env, steps, |steps|, id);
    assert steps[..|steps|] == steps;
  }

  /** Under any interleaving, with any stamps, the as-of query is right at every time exactly when every row that was
      brought tells its times. */
  lemma AnswerableExactlyWhen(env: Externals, steps: seq<Step>)
    requires Chronological(steps) && InsertsOpenRows(steps)
    ensures Answerable(env, steps) <==> forall id :: RowTells(env, steps, id)
  {
    AsOfInterleaved(env, steps);
    AllFaithfulTells(env, steps, TableAfter(env, steps), Births(env, steps), Shuts(env, steps));
  }

  lemma AllFaithfulTells(env: Externals, steps: seq<Step>, table: Table, births: map<Uuid, Time>,
                         shuts: map<Uuid, Time>)
    requires InsertsOpenRows(steps)
    requires table == TableAfter(env, steps) && births == Births(env, steps) && shuts == Shuts(env, steps)
    ensures AllFaithful(table, births, shuts) <==> forall id :: RowTells(env, steps, id)
  {
    if AllFaithful(table, births, shuts) {
      forall id ensures RowTells(env, steps, id) {
        FaithfulTells(env, steps, id);
      }
    }
    if forall id :: RowTells(env, steps, id) {
      forall id | id in table ensures id in births && Faithful(table[id], births[id], ShutAt(shuts, id)) {
        FaithfulTells(env, steps, id);
        assert RowTells(env, steps, id);
      }
    }
  }

  lemma {:induction false} UnstampedStamp(rows: seq<Insertion>, id: Uuid, read: Time)
    requires id in IdsOf(rows) && forall j :: 0 <= j < |rows| ==> rows[j].row.validFrom == read
    ensures Stamp(rows, id) == read
    decreases |rows|
  {
    if rows[0].id != id {
      var i :| 0 <= i < |rows| && rows[i].id == id;
      assert rows[1..][i - 1] == rows[i];
      UnstampedStamp(rows[1..], id, read);
    }
  }

  /** A row brought without a stamp of its own tells its times by the clock as its caller read it. */
  ghost predicate UnstampedRowTells(env: Externals, steps: seq<Step>, id: Uuid) {
    match Bringing(steps, |steps|, id)
    case None => true
    case Some(b) => TellsItsTimes(env, steps, id, b, steps[b].read)
  }

  lemma UnstampedTells(env: Externals, steps: seq<Step>, id: Uuid)
    requires NoExplicitStamps(steps)
    ensures RowTells(env, steps, id) <==> UnstampedRowTells(env, steps, id)
  {
    if Bringing(steps, |steps|, id).Some? {
      var b := Bringing(steps, |steps|, id).value;
      UnstampedStamp(steps[b].rows, id, steps[b].read);
    }
  }

  /** With no stamps of their own: exactly when every row does so by the clock. */
  lemma UnstampedIsAnswerableExactlyWhen(env: Externals, steps: seq<Step>)
    requires Chronological(steps) && InsertsOpenRows(steps) && NoExplicitStamps(steps)
    ensures Answerable(env, steps) <==> forall id :: UnstampedRowTells(env, steps, id)
  {
    AnswerableExactlyWhen(env, steps);
    if forall id :: RowTells(env, steps, id) {
      forall id ensures UnstampedRowTells(env, steps, id) {
        UnstampedTells(env, steps, id);
        assert RowTells(env, steps, id);
      }
    }
    if forall id :: UnstampedRowTells(env, steps, id) {
      forall id ensures RowTells(env, steps, id) {
        UnstampedTells(env, steps, id);
        assert UnstampedRowTells(env, steps, id);
      }
    }
  }

  /**
   And where it is wrong, statement by statement: it shows a row from the reading of the clock until the insertion
   (unless a closing is stamped even earlier), and leaves one out from the start of the last call that stamped it
   until the first UPDATE that closed it.
   */
  lemma ErrsBetweenStampAndEffect(env: Externals, steps: seq<Step>, t: Time, id: Uuid)
    requires Chronological(steps) && InsertsOpenRows(steps) && NoExplicitStamps(steps)
    ensures var n := |steps|;
            var b, i, j := Bringing(steps, n, id), FirstClosing(env, steps, n, id), LastClosing(env, steps, n, id);
            var shown := id in MemoryHistory.Snapshot(TableAfter(env, steps), t);
            var live := id in MemoryHistory.LiveView(TableAfter(env, Seen(steps, t)));
            && (shown && !live <==>
                && b.Some? && steps[b.value].read <= t < steps[b.value].now
                && (j.Some? ==> t < BeganAt(env, steps, j.value)))
            && (live && !shown <==>
                && b.Some? && i.Some? && steps[b.value].now <= t
                && BeganAt(env, steps, j.value) <= t < steps[i.value].now)
  {
    SnapshotErrsExactlyWhen(env, steps, t, id);
    BroughtBy(env, steps, |steps|, id);
    ClosedBy(env, steps, |steps|, id);
    assert steps[..|steps|] == steps;
    if Bringing(steps, |steps|, id).Some? {
      var b := Bringing(steps, |steps|, id).value;
      UnstampedStamp(steps[b].rows, id, steps[b].read);
    }
    if FirstClosing(env, steps, |steps|, id).Some? {
      assert id in ClosedIds(TableAfter(env, steps));
    }
  }
}
