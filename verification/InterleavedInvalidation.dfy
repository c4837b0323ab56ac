/**
 `invalidate` taken apart. Its SELECT and its UPDATE are two statements; other calls may run between
 them. `now()` in the UPDATE is the time its transaction began, not the time it runs.
 */
module InterleavedInvalidation {
  import opened TemporalMemory
  import opened Wrappers

  /** One invalidate call: the ids its SELECT returned, and the time its transaction began. */
  datatype Call = Call(selected: set<Uuid>, began: Time, finished: bool)

  datatype State = State(table: Table, calls: seq<Call>)

  /** `now` is when a statement takes effect. `read` is when the caller of an insert read its clock, and `began`
      is when the transaction of an invalidate call began; both may be earlier. */
  datatype Step =
    | Insert(rows: seq<Insertion>, read: Time, now: Time)
    | Select(scope: string, matches: Matcher, began: Time, now: Time)
    | Update(call: nat, now: Time)

  /** A call that selects nothing returns at once; an Update that is not due does nothing. */
  ghost function Next(env: Externals, s: State, step: Step): State {
    match step
    case Insert(rows, _, _) => s.(table := InsertAll(s.table, rows))
    case Select(scope, matches, began, _) =>
      var ids := Selected(env, s.table, scope, matches);
      s.(calls := s.calls + [Call(ids, began, ids == {})])
    case Update(i, _) =>
      if Due(s, i) then
        State(Close(s.table, s.calls[i].selected, s.calls[i].began), s.calls[i := s.calls[i].(finished := true)])
      else s
  }

  ghost predicate Due(s: State, i: nat) {
    i < |s.calls| && !s.calls[i].finished
  }

  ghost function Run(env: Externals, start: Table, steps: seq<Step>): State {
    if steps == [] then State(start, [])
    else Next(env, Run(env, start, steps[..|steps| - 1]), steps[|steps| - 1])
  }

  ghost predicate AllFinished(s: State) {
    forall i :: 0 <= i < |s.calls| ==> s.calls[i].finished
  }

  /** What a finished call returned: the number of ids it selected. */
  ghost function SumOfCounts(calls: seq<Call>): nat {
    if calls == [] then 0 else SumOfCounts(calls[..|calls| - 1]) + |calls[|calls| - 1].selected|
  }

  ghost function Chosen(calls: seq<Call>): set<Uuid> {
    set i, id | 0 <= i < |calls| && id in calls[i].selected :: id
  }

  ghost predicate PairwiseDisjoint(calls: seq<Call>) {
    forall i, j :: 0 <= i < j < |calls| ==> calls[i].selected !! calls[j].selected
  }

  /** Rows closed so far are those closed at the start and those of the finished calls; the rest are open. */
  ghost predicate Inv(start: Table, s: State) {
    && start.Keys <= s.table.Keys
    && (forall i, id :: 0 <= i < |s.calls| && id in s.calls[i].selected ==> id in s.table && id !in ClosedIds(start))
    && (forall id :: id in ClosedIds(start) ==> id in ClosedIds(s.table))
    && (forall i, id :: 0 <= i < |s.calls| && s.calls[i].finished && id in s.calls[i].selected
                        ==> id in ClosedIds(s.table))
    && (forall id :: id in ClosedIds(s.table) && id !in ClosedIds(start) ==> WasFinished(s.calls, id))
  }

  ghost predicate WasFinished(calls: seq<Call>, id: Uuid) {
    exists i :: 0 <= i < |calls| && calls[i].finished && id in calls[i].selected
  }

  ghost predicate InsertsOpenRows(steps: seq<Step>) {
    forall i :: 0 <= i < |steps| && steps[i].Insert? ==>
                  forall j :: 0 <= j < |steps[i].rows| ==> steps[i].rows[j].row.validTo.None?
  }

  lemma {:induction false} InsertKeepsClosed(t: Table, rows: seq<Insertion>)
    requires forall j :: 0 <= j < |rows| ==> rows[j].row.validTo.None?
    ensures t.Keys <= InsertAll(t, rows).Keys
    ensures forall id <- t :: InsertAll(t, rows)[id] == t[id]
    ensures ClosedIds(InsertAll(t, rows)) == ClosedIds(t)
    decreases |rows|
  {
    if rows != [] {
      InsertKeepsClosed(InsertRow(t, rows[0]), rows[1..]);
      assert ClosedIds(InsertRow(t, rows[0])) == ClosedIds(t);
    }
  }

  lemma CloseAddsIds(t: Table, ids: set<Uuid>, now: Time)
    requires ids <= t.Keys
    ensures ClosedIds(Close(t, ids, now)) == ClosedIds(t) + ids
  {
    forall id ensures id in ClosedIds(Close(t, ids, now)) <==> id in ClosedIds(t) + ids {}
  }

  lemma StillFinished(calls: seq<Call>, calls': seq<Call>, id: Uuid)
    requires |calls| <= |calls'| && WasFinished(calls, id)
    requires forall i :: 0 <= i < |calls| ==>
               calls'[i].selected == calls[i].selected && (calls[i].finished ==> calls'[i].finished)
    ensures WasFinished(calls', id)
  {
    var i :| 0 <= i < |calls| && calls[i].finished && id in calls[i].selected;
    assert calls'[i].finished && id in calls'[i].selected;
  }

  lemma SelectKeepsInv(env: Externals, start: Table, s: State, step: Step)
    requires Inv(start, s) && step.Select?
    ensures Inv(start, Next(env, s, step))
  {
    var s' := Next(env, s, step);
    forall id | id in ClosedIds(s.table) && id !in ClosedIds(start) ensures WasFinished(s'.calls, id) {
      StillFinished(s.calls, s'.calls, id);
    }
  }

  lemma UpdateKeepsInv(env: Externals, start: Table, s: State, i: nat, now: Time)
    requires Inv(start, s) && Due(s, i)
    ensures Inv(start, Next(env, s, Update(i, now)))
    ensures ClosedIds(Next(env, s, Update(i, now)).table) == ClosedIds(s.table) + s.calls[i].selected
  {
    var s' := Next(env, s, Update(i, now));
    CloseAddsIds(s.table, s.calls[i].selected, s.calls[i].began);
    forall id | id in ClosedIds(s'.table) && id !in ClosedIds(start) ensures WasFinished(s'.calls, id) {
      if id in s.calls[i].selected {
        assert s'.calls[i].finished;
      } else {
        StillFinished(s.calls, s'.calls, id);
      }
    }
  }

  lemma StepKeepsInv(env: Externals, start: Table, s: State, step: Step)
    requires Inv(start, s)
    requires step.Insert? ==> forall j :: 0 <= j < |step.rows| ==> step.rows[j].row.validTo.None?
    ensures Inv(start, Next(env, s, step))
    ensures s.table.Keys <= Next(env, s, step).table.Keys
    ensures ClosedIds(s.table) <= ClosedIds(Next(env, s, step).table)
    ensures forall id <- s.table :: Next(env, s, step).table[id].(validTo := s.table[id].validTo) == s.table[id]
  {
    match step
    case Insert(rows, _, _) => InsertKeepsClosed(s.table, rows);
    case Select(_, _, _, _) => SelectKeepsInv(env, start, s, step);
    case Update(i, now) =>
      if Due(s, i) {
        UpdateKeepsInv(env, start, s, i, now);
      }
  }

  lemma {:induction false} RunKeepsInv(env: Externals, start: Table, steps: seq<Step>)
    requires InsertsOpenRows(steps)
    ensures Inv(start, Run(env, start, steps))
    decreases |steps|
  {
    if steps != [] {
      RunKeepsInv(env, start, steps[..|steps| - 1]);
      StepKeepsInv(env, start, Run(env, start, steps[..|steps| - 1]), steps[|steps| - 1]);
    } else {
      forall id | id in ClosedIds(start) ensures id in ClosedIds(Run(env, start, steps).table) {}
    }
  }

  /** However calls interleave: no row disappears, no closed row opens, no other column ever changes. */
  lemma {:induction false} ClosedStaysClosed(env: Externals, start: Table, steps: seq<Step>, n: nat)
    requires InsertsOpenRows(steps) && n <= |steps|
    ensures var before, after := Run(env, start, steps[..n]).table, Run(env, start, steps).table;
            && before.Keys <= after.Keys
            && ClosedIds(before) <= ClosedIds(after)
            && forall id <- before :: after[id].(validTo := before[id].validTo) == before[id]
    decreases |steps|
  {
    if n == |steps| {
      assert steps[..n] == steps;
    } else {
      var init := steps[..|steps| - 1];
      assert init[..n] == steps[..n];
      ClosedStaysClosed(env, start, init, n);
      RunKeepsInv(env, start, init);
      StepKeepsInv(env, start, Run(env, start, init), steps[|steps| - 1]);
    }
  }

  /** Counting a union: the sizes add up to at least the union, and exactly so for disjoint sets. */
  lemma {:induction false} CountingTheChosen(calls: seq<Call>)
    ensures SumOfCounts(calls) >= |Chosen(calls)|
    ensures SumOfCounts(calls) == |Chosen(calls)| <==> PairwiseDisjoint(calls)
    decreases |calls|
  {
    if calls == [] {
      assert Chosen(calls) == {};
    } else {
      var init, last := calls[..|calls| - 1], calls[|calls| - 1].selected;
      CountingTheChosen(init);
      assert Chosen(calls) == Chosen(init) + last by {
        forall id ensures id in Chosen(calls) <==> id in Chosen(init) + last {
          if id in Chosen(init) {
            var i :| 0 <= i < |init| && id in init[i].selected;
            assert calls[i] == init[i];
          }
          if id in Chosen(calls) && id !in last {
            var i :| 0 <= i < |calls| && id in calls[i].selected;
            assert init[i] == calls[i];
          }
        }
      }
      assert |Chosen(init) + last| == |Chosen(init)| + |last| - |Chosen(init) * last|;
      DisjointFromAll(calls);
      if Chosen(init) * last != {} {
        var id :| id in Chosen(init) * last;
        assert |Chosen(init) * last| >= 1;
      }
    }
  }

  lemma DisjointFromAll(calls: seq<Call>)
    requires calls != []
    ensures var init, last := calls[..|calls| - 1], calls[|calls| - 1].selected;
            PairwiseDisjoint(calls) <==> PairwiseDisjoint(init) && Chosen(init) * last == {}
  {
    var init, last := calls[..|calls| - 1], calls[|calls| - 1].selected;
    assert forall i :: 0 <= i < |init| ==> init[i] == calls[i];
    if PairwiseDisjoint(calls) {
      forall id | id in Chosen(init) ensures id !in last {
        var i :| 0 <= i < |init| && id in init[i].selected;
        assert calls[i].selected !! calls[|calls| - 1].selected;
      }
    }
    if PairwiseDisjoint(init) && Chosen(init) * last == {} {
      forall i, j | 0 <= i < j < |calls| ensures calls[i].selected !! calls[j].selected {
        if j < |init| {
          assert init[i].selected !! init[j].selected;
        } else {
          forall id | id in calls[i].selected ensures id !in last {
            assert 0 <= i < |init| && id in init[i].selected;
            assert id in Chosen(init);
            assert id in last ==> id in Chosen(init) * last;
          }
        }
      }
    }
  }

  /**
   When every call has finished, the rows closed since the start are exactly the union of the selected
   sets. The counts returned add up to at least that many, and to exactly that many only if no row was
   selected by two calls.
   */
  lemma InterleavedAccounting(env: Externals, start: Table, steps: seq<Step>)
    requires InsertsOpenRows(steps)
    requires AllFinished(Run(env, start, steps))
    ensures var s := Run(env, start, steps);
            && ClosedIds(s.table) == ClosedIds(start) + Chosen(s.calls)
            && ClosedIds(start) !! Chosen(s.calls)
            && SumOfCounts(s.calls) >= |ClosedIds(s.table)| - |ClosedIds(start)|
            && (SumOfCounts(s.calls) == |ClosedIds(s.table)| - |ClosedIds(start)| <==> PairwiseDisjoint(s.calls))
  {
    RunKeepsInv(env, start, steps);
    CountingTheChosen(Run(env, start, steps).calls);
    ChosenAreClosed(start, Run(env, start, steps));
  }

  lemma ChosenAreClosed(start: Table, s: State)
    requires Inv(start, s) && AllFinished(s)
    ensures ClosedIds(s.table) == ClosedIds(start) + Chosen(s.calls)
    ensures ClosedIds(start) !! Chosen(s.calls)
  {
    forall id ensures id in ClosedIds(s.table) <==> id in ClosedIds(start) + Chosen(s.calls) {
      if id in ClosedIds(s.table) && id !in ClosedIds(start) {
        assert WasFinished(s.calls, id);
      }
    }
  }

  /** A call whose two statements run at one time with nothing between them does what `invalidate` alone does. */
  lemma UndisturbedCallInvalidates(env: Externals, s: State, scope: string, matches: Matcher, now: Time)
    ensures var s' := Next(env, Next(env, s, Select(scope, matches, now, now)), Update(|s.calls|, now));
            && s'.table == Invalidated(env, s.table, scope, matches, now)
            && s'.calls == s.calls + [Call(Selected(env, s.table, scope, matches), now, true)]
  {
    var ids := Selected(env, s.table, scope, matches);
    if ids == {} {
      assert Close(s.table, {}, now) == s.table;
    }
  }

  // ---------------------------------------------------------------- when a closing is final

  ghost predicate SameClosedRows(before: Table, after: Table) {
    forall id <- ClosedIds(before) :: id in after && after[id] == before[id]
  }

  /** Once closed, a row never changes again. */
  ghost predicate ClosingsAreFinal(env: Externals, start: Table, steps: seq<Step>) {
    forall m, n :: 0 <= m <= n <= |steps| ==>
                     SameClosedRows(Run(env, start, steps[..m]).table, Run(env, start, steps[..n]).table)
  }

  /** Finished calls that selected a row in common began at one time. */
  ghost predicate SharersBeganTogether(calls: seq<Call>) {
    forall i, j, id :: 0 <= i < |calls| && 0 <= j < |calls| && calls[i].finished && calls[j].finished
                       && id in calls[i].selected && id in calls[j].selected
                       ==> calls[i].began == calls[j].began
  }

  ghost predicate StampedBy(calls: seq<Call>, id: Uuid, row: Row) {
    exists i :: 0 <= i < |calls| && calls[i].finished && id in calls[i].selected && row.validTo == Some(calls[i].began)
  }

  /** A row closed since the start carries the time at which some finished call that selected it began. */
  ghost predicate Stamped(start: Table, s: State) {
    forall id <- ClosedIds(s.table) :: id in ClosedIds(start) || StampedBy(s.calls, id, s.table[id])
  }

  ghost predicate Persist(calls: seq<Call>, calls': seq<Call>) {
    && |calls| <= |calls'|
    && forall i :: 0 <= i < |calls| ==>
         && calls'[i].selected == calls[i].selected && calls'[i].began == calls[i].began
         && (calls[i].finished ==> calls'[i].finished)
  }

  lemma {:induction false} CallsPersist(env: Externals, start: Table, steps: seq<Step>, n: nat)
    requires n <= |steps|
    ensures Persist(Run(env, start, steps[..n]).calls, Run(env, start, steps).calls)
    decreases |steps|
  {
    if n == |steps| {
      assert steps[..n] == steps;
    } else {
      assert steps[..|steps| - 1][..n] == steps[..n];
      CallsPersist(env, start, steps[..|steps| - 1], n);
    }
  }

  /** A row closed after a step was closed and the same before it, or has just been stamped by its call. */
  lemma ClosedBeforeOrNow(env: Externals, start: Table, s: State, step: Step, id: Uuid)
    requires Inv(start, s)
    requires step.Insert? ==> forall j :: 0 <= j < |step.rows| ==> step.rows[j].row.validTo.None?
    requires id in ClosedIds(Next(env, s, step).table)
    ensures var row := Next(env, s, step).table[id];
            || (id in ClosedIds(s.table) && row == s.table[id])
            || (step.Update? && Due(s, step.call) && id in s.calls[step.call].selected
                && row.validTo == Some(s.calls[step.call].began))
  {
    if step.Insert? {
      InsertKeepsClosed(s.table, step.rows);
    }
  }

  lemma StepKeepsStamps(env: Externals, start: Table, s: State, step: Step)
    requires Inv(start, s) && Stamped(start, s)
    requires step.Insert? ==> forall j :: 0 <= j < |step.rows| ==> step.rows[j].row.validTo.None?
    ensures Stamped(start, Next(env, s, step))
  {
    var s' := Next(env, s, step);
    forall id | id in ClosedIds(s'.table) && id !in ClosedIds(start)
      ensures StampedBy(s'.calls, id, s'.table[id])
    {
      ClosedBeforeOrNow(env, start, s, step, id);
      if step.Update? && Due(s, step.call) && id in s.calls[step.call].selected {
        assert s'.calls[step.call].finished;
      } else {
        var i :| 0 <= i < |s.calls| && s.calls[i].finished && id in s.calls[i].selected
                 && s.table[id].validTo == Some(s.calls[i].began);
        assert s'.calls[i] == s.calls[i];
      }
    }
  }

  lemma {:induction false} RunIsStamped(env: Externals, start: Table, steps: seq<Step>)
    requires InsertsOpenRows(steps)
    ensures Stamped(start, Run(env, start, steps))
    decreases |steps|
  {
    if steps != [] {
      var init := steps[..|steps| - 1];
      RunIsStamped(env, start, init);
      RunKeepsInv(env, start, init);
      StepKeepsStamps(env, start, Run(env, start, init), steps[|steps| - 1]);
    }
  }

  /** A step leaves closed rows alone when the sharers among the calls of a later moment began together. */
  lemma StepKeepsClosedRows(env: Externals, start: Table, s: State, step: Step, later: seq<Call>)
    requires Inv(start, s) && Stamped(start, s)
    requires step.Insert? ==> forall j :: 0 <= j < |step.rows| ==> step.rows[j].row.validTo.None?
    requires Persist(Next(env, s, step).calls, later) && SharersBeganTogether(later)
    ensures SameClosedRows(s.table, Next(env, s, step).table)
  {
    match step
    case Insert(rows, _, _) => InsertKeepsClosed(s.table, rows);
    case Select(_, _, _, _) =>
    case Update(i, _) =>
      if Due(s, i) {
        var s' := Next(env, s, step);
        forall id | id in ClosedIds(s.table) ensures s'.table[id] == s.table[id] {
          if id in s.calls[i].selected {
            assert StampedBy(s.calls, id, s.table[id]);
            var j :| 0 <= j < |s.calls| && s.calls[j].finished && id in s.calls[j].selected
                     && s.table[id].validTo == Some(s.calls[j].began);
            assert s'.calls[i].finished && s'.calls[j] == s.calls[j];
            assert later[i].finished && later[j].finished && later[i].began == later[j].began;
          }
        }
      }
  }

  lemma StillTheSame(t0: Table, t1: Table, t2: Table)
    requires SameClosedRows(t0, t1) && SameClosedRows(t1, t2)
    ensures SameClosedRows(t0, t2)
  {
    forall id | id in ClosedIds(t0) ensures id in t2 && t2[id] == t0[id] {
      assert id in ClosedIds(t1);
    }
  }

  lemma {:induction false} SharedStartsAreFinal(env: Externals, start: Table, steps: seq<Step>, m: nat, n: nat)
    requires InsertsOpenRows(steps) && SharersBeganTogether(Run(env, start, steps).calls)
    requires m <= n <= |steps|
    ensures SameClosedRows(Run(env, start, steps[..m]).table, Run(env, start, steps[..n]).table)
    decreases n
  {
    if m < n {
      SharedStartsAreFinal(env, start, steps, m, n - 1);
      var init, s := steps[..n - 1], Run(env, start, steps[..n - 1]);
      assert steps[..n][..n - 1] == init && steps[..n][n - 1] == steps[n - 1];
      RunKeepsInv(env, start, init);
      RunIsStamped(env, start, init);
      CallsPersist(env, start, steps, n);
      StepKeepsClosedRows(env, start, s, steps[n - 1], Run(env, start, steps).calls);
      StillTheSame(Run(env, start, steps[..m]).table, s.table, Run(env, start, steps[..n]).table);
    }
  }

  /** Every row a finished call selected carries the time at which that call began. */
  ghost predicate CarryTheirStamps(s: State) {
    forall i, id :: 0 <= i < |s.calls| && s.calls[i].finished && id in s.calls[i].selected
                    ==> id in s.table && s.table[id].validTo == Some(s.calls[i].began)
  }

  lemma StepKeepsCarrying(env: Externals, start: Table, s: State, step: Step)
    requires Inv(start, s) && CarryTheirStamps(s)
    requires SameClosedRows(s.table, Next(env, s, step).table)
    ensures CarryTheirStamps(Next(env, s, step))
  {
    var s' := Next(env, s, step);
    forall i, id | 0 <= i < |s'.calls| && s'.calls[i].finished && id in s'.calls[i].selected
      ensures id in s'.table && s'.table[id].validTo == Some(s'.calls[i].began)
    {
      if i < |s.calls| && s.calls[i].finished {
        assert s'.calls[i] == s.calls[i];
        assert id in ClosedIds(s.table);
      }
    }
  }

  lemma {:induction false} FinalClosingsKeepTheirStamps(env: Externals, start: Table, steps: seq<Step>, n: nat)
    requires InsertsOpenRows(steps) && ClosingsAreFinal(env, start, steps) && n <= |steps|
    ensures CarryTheirStamps(Run(env, start, steps[..n]))
    decreases n
  {
    if n > 0 {
      FinalClosingsKeepTheirStamps(env, start, steps, n - 1);
      assert steps[..n][..n - 1] == steps[..n - 1];
      RunKeepsInv(env, start, steps[..n - 1]);
      StepKeepsCarrying(env, start, Run(env, start, steps[..n - 1]), steps[n - 1]);
    }
  }

  lemma SharedStartsMakeFinal(env: Externals, start: Table, steps: seq<Step>)
    requires InsertsOpenRows(steps) && SharersBeganTogether(Run(env, start, steps).calls)
    ensures ClosingsAreFinal(env, start, steps)
  {
    forall m, n | 0 <= m <= n <= |steps|
      ensures SameClosedRows(Run(env, start, steps[..m]).table, Run(env, start, steps[..n]).table)
    {
      SharedStartsAreFinal(env, start, steps, m, n);
    }
  }

  lemma CarriedStampsAgree(s: State)
    requires CarryTheirStamps(s)
    ensures SharersBeganTogether(s.calls)
  {
    forall i, j, id | 0 <= i < |s.calls| && 0 <= j < |s.calls| && s.calls[i].finished && s.calls[j].finished
                      && id in s.calls[i].selected && id in s.calls[j].selected
      ensures s.calls[i].began == s.calls[j].began
    {
      assert s.table[id].validTo == Some(s.calls[i].began);
    }
  }

  /**
   However statements interleave, a closing is final exactly when finished calls that selected a row in
   common began at one time: an UPDATE writes the time its own transaction began, whatever is there.
   */
  lemma ClosingsAreFinalExactlyWhen(env: Externals, start: Table, steps: seq<Step>)
    requires InsertsOpenRows(steps)
    ensures ClosingsAreFinal(env, start, steps) <==> SharersBeganTogether(Run(env, start, steps).calls)
  {
    if SharersBeganTogether(Run(env, start, steps).calls) {
      SharedStartsMakeFinal(env, start, steps);
    }
    if ClosingsAreFinal(env, start, steps) {
      FinalClosingsKeepTheirStamps(env, start, steps, |steps|);
      assert steps[..|steps|] == steps;
      CarriedStampsAgree(Run(env, start, steps));
    }
  }

  lemma OnlyOneSelects(calls: seq<Call>)
    requires PairwiseDisjoint(calls)
    ensures forall i, j, id :: 0 <= i < |calls| && 0 <= j < |calls|
                               && id in calls[i].selected && id in calls[j].selected
                               ==> i == j
  {
    forall i, j | 0 <= i < |calls| && 0 <= j < |calls| && i != j ensures calls[i].selected !! calls[j].selected {
      var low, high := if i < j then i else j, if i < j then j else i;
      assert calls[low].selected !! calls[high].selected;
    }
  }

  /** With disjoint selections no two calls share a row, so every closing is final. */
  lemma DisjointClosingsAreFinal(env: Externals, start: Table, steps: seq<Step>)
    requires InsertsOpenRows(steps)
    requires PairwiseDisjoint(Run(env, start, steps).calls)
    ensures ClosingsAreFinal(env, start, steps)
  {
    OnlyOneSelects(Run(env, start, steps).calls);
    ClosingsAreFinalExactlyWhen(env, start, steps);
  }

  lemma RunOneMore(env: Externals, start: Table, steps: seq<Step>, step: Step)
    ensures Run(env, start, steps + [step]) == Next(env, Run(env, start, steps), step)
  {
    assert (steps + [step])[..|steps|] == steps;
  }

  lemma BothSelect(env: Externals, row: Row, m: Matcher)
    requires row.validTo.None? && forall item :: m(item)
    ensures Run(env, map[7 := row], [Select(row.scope, m, 3, 3), Select(row.scope, m, 5, 5)]) ==
            State(map[7 := row], [Call({7}, 3, false), Call({7}, 5, false)])
  {
    var start: Table := map[7 := row];
    var first, second := Select(row.scope, m, 3, 3), Select(row.scope, m, 5, 5);
    assert Selected(env, start, row.scope, m) == {7};
    RunOneMore(env, start, [], first);
    assert [] + [first] == [first];
    assert Run(env, start, [first]) == State(start, [Call({7}, 3, false)]);
    RunOneMore(env, start, [first], second);
    assert [first] + [second] == [first, second];
  }

  /** Two overlapping calls rewrite a closing time: the row is closed at 5, then at 3, and both calls count it. */
  lemma OverlapRewritesClosingTime(env: Externals, row: Row, m: Matcher)
    requires row.validTo.None? && forall item :: m(item)
    ensures var start: Table := map[7 := row];
            var selects := [Select(row.scope, m, 3, 3), Select(row.scope, m, 5, 5)];
            && Run(env, start, selects + [Update(1, 6)]).table == map[7 := row.(validTo := Some(5))]
            && Run(env, start, selects + [Update(1, 6)] + [Update(0, 7)]) ==
               State(map[7 := row.(validTo := Some(3))], [Call({7}, 3, true), Call({7}, 5, true)])
            && SumOfCounts([Call({7}, 3, true), Call({7}, 5, true)]) == 2
  {
    var start: Table := map[7 := row];
    var selects := [Select(row.scope, m, 3, 3), Select(row.scope, m, 5, 5)];
    BothSelect(env, row, m);
    RunOneMore(env, start, selects, Update(1, 6));
    RunOneMore(env, start, selects + [Update(1, 6)], Update(0, 7));
    assert Close(start, {7}, 5) == map[7 := row.(validTo := Some(5))];
    assert Close(map[7 := row.(validTo := Some(5))], {7}, 3) == map[7 := row.(validTo := Some(3))];
    var calls := [Call({7}, 3, true), Call({7}, 5, true)];
    assert calls[..1] == [calls[0]] && [calls[0]][..0] == [];
    assert SumOfCounts([calls[0]]) == 1;
  }
}
