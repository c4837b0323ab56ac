/**
 "What did the agent know, and when", over runs in which the two statements of an `invalidate` call
 interleave with other calls. A run starts from the empty table; its statements take effect one by one.
 */
module InterleavedHistory {
  import opened Wrappers
  import opened TemporalMemory
  import opened InterleavedInvalidation
  import MemoryHistory

  /** Statements take effect in order of time, none before its caller's clock was read or its transaction began. */
  ghost predicate Chronological(steps: seq<Step>) {
    && (forall i, j :: 0 <= i < j < |steps| ==> steps[i].now <= steps[j].now)
    && (forall i :: 0 <= i < |steps| && steps[i].Select? ==> steps[i].began <= steps[i].now)
    && (forall i :: 0 <= i < |steps| && steps[i].Insert? ==> steps[i].read <= steps[i].now)
  }

  ghost function TableAfter(env: Externals, steps: seq<Step>): Table {
    Run(env, map[], steps).table
  }

  /** The statements that took effect at or before `t`. */
  ghost function Seen(steps: seq<Step>, t: Time): seq<Step> {
    if steps == [] then []
    else
      var before := Seen(steps[..|steps| - 1], t);
      if steps[|steps| - 1].now <= t then before + [steps[|steps| - 1]] else before
  }

  /** When each row was inserted. */
  ghost function Births(env: Externals, steps: seq<Step>): map<Uuid, Time> {
    if steps == [] then map[]
    else
      var before := Births(env, steps[..|steps| - 1]);
      map id | id in TableAfter(env, steps) :: if id in before then before[id] else steps[|steps| - 1].now
  }

  /** When each closed row was first closed, whatever its validTo says. */
  ghost function Shuts(env: Externals, steps: seq<Step>): map<Uuid, Time> {
    if steps == [] then map[]
    else
      var before := Shuts(env, steps[..|steps| - 1]);
      map id | id in ClosedIds(TableAfter(env, steps)) :: if id in before then before[id] else steps[|steps| - 1].now
  }

  ghost function ShutAt(shuts: map<Uuid, Time>, id: Uuid): Option<Time> {
    if id in shuts then Some(shuts[id]) else None
  }

  /** One step never drops a row, changes no column but validTo, and opens no row. */
  lemma OneStep(env: Externals, steps: seq<Step>)
    requires InsertsOpenRows(steps) && steps != []
    ensures var before, after := TableAfter(env, steps[..|steps| - 1]), TableAfter(env, steps);
            && before.Keys <= after.Keys
            && ClosedIds(before) <= ClosedIds(after)
            && forall id <- before :: after[id].(validTo := before[id].validTo) == before[id]
  {
    RunKeepsInv(env, map[], steps[..|steps| - 1]);
    StepKeepsInv(env, map[], Run(env, map[], steps[..|steps| - 1]), steps[|steps| - 1]);
  }

  lemma {:induction false} LifetimesAreOrdered(env: Externals, steps: seq<Step>)
    requires Chronological(steps) && InsertsOpenRows(steps)
    ensures var table, births, shuts := TableAfter(env, steps), Births(env, steps), Shuts(env, steps);
            && births.Keys == table.Keys && shuts.Keys == ClosedIds(table)
            && (forall id <- births :: births[id] <= steps[|steps| - 1].now)
            && (forall id <- shuts :: births[id] <= shuts[id] <= steps[|steps| - 1].now)
    decreases |steps|
  {
    if steps != [] {
      LifetimesAreOrdered(env, steps[..|steps| - 1]);
      OneStep(env, steps);
    }
  }

  lemma {:induction false} AllSeen(steps: seq<Step>, t: Time)
    requires forall i :: 0 <= i < |steps| ==> steps[i].now <= t
    ensures Seen(steps, t) == steps
    decreases |steps|
  {
    if steps != [] {
      AllSeen(steps[..|steps| - 1], t);
    }
  }

  /** The rows of `table` inserted by `t` and not closed by `t`. */
  ghost function AliveAt(table: Table, births: map<Uuid, Time>, shuts: map<Uuid, Time>, t: Time): Table {
    map id | id in table && id in births && births[id] <= t && (id in shuts ==> shuts[id] > t)
      :: table[id].(validTo := None)
  }

  /** A step after `t` changes nothing about time `t`: what it adds or closes, it adds or closes later. */
  lemma LaterStepsDoNotReach(old': Table, births: map<Uuid, Time>, shuts: map<Uuid, Time>, new': Table,
                             births': map<Uuid, Time>, shuts': map<Uuid, Time>, now: Time, t: Time)
    requires births.Keys == old'.Keys && births'.Keys == new'.Keys && t < now
    requires old'.Keys <= new'.Keys && shuts.Keys <= shuts'.Keys
    requires forall id <- old' :: new'[id].(validTo := old'[id].validTo) == old'[id]
    requires forall id <- births' :: births'[id] == if id in births then births[id] else now
    requires forall id <- shuts' :: shuts'[id] == if id in shuts then shuts[id] else now
    ensures AliveAt(new', births', shuts', t) == AliveAt(old', births, shuts, t)
  {
    var v, v' := AliveAt(old', births, shuts, t), AliveAt(new', births', shuts', t);
    forall id ensures id in v <==> id in v' {}
    forall id | id in v ensures v[id] == v'[id] {}
  }

  lemma EverythingIsPast(table: Table, births: map<Uuid, Time>, shuts: map<Uuid, Time>, t: Time)
    requires births.Keys == table.Keys && shuts.Keys == ClosedIds(table)
    requires (forall id <- births :: births[id] <= t) && (forall id <- shuts :: shuts[id] <= t)
    ensures AliveAt(table, births, shuts, t) == MemoryHistory.LiveView(table)
  {
    forall id | id in MemoryHistory.LiveView(table) ensures table[id].(validTo := None) == table[id] {}
  }

  /** The rows live at time `t` are those of today's table inserted by then and not closed by then. */
  lemma {:induction false} LiveViewFromLifetimes(env: Externals, steps: seq<Step>, t: Time)
    requires Chronological(steps) && InsertsOpenRows(steps)
    ensures MemoryHistory.LiveView(TableAfter(env, Seen(steps, t))) ==
            AliveAt(TableAfter(env, steps), Births(env, steps), Shuts(env, steps), t)
    decreases |steps|
  {
    LifetimesAreOrdered(env, steps);
    if steps != [] {
      if steps[|steps| - 1].now <= t {
        AllSeen(steps, t);
        EverythingIsPast(TableAfter(env, steps), Births(env, steps), Shuts(env, steps), t);
      } else {
        var init := steps[..|steps| - 1];
        LiveViewFromLifetimes(env, init, t);
        LifetimesAreOrdered(env, init);
        OneStep(env, steps);
        LaterStepsDoNotReach(TableAfter(env, init), Births(env, init), Shuts(env, init), TableAfter(env, steps),
                             Births(env, steps), Shuts(env, steps), steps[|steps| - 1].now, t);
      }
    }
  }

  /** The row's own interval is the time it was there; or both are empty, and it was never seen. */
  ghost predicate Faithful(row: Row, born: Time, shut: Option<Time>) {
    || (row.validFrom == born && row.validTo == shut)
    || (shut == Some(born) && row.validTo.Some? && row.validTo.value <= row.validFrom)
  }

  ghost predicate AllFaithful(table: Table, births: map<Uuid, Time>, shuts: map<Uuid, Time>) {
    forall id <- table :: id in births && Faithful(table[id], births[id], ShutAt(shuts, id))
  }

  lemma FaithfulRowsAnswer(table: Table, births: map<Uuid, Time>, shuts: map<Uuid, Time>, t: Time)
    requires AllFaithful(table, births, shuts)
    ensures MemoryHistory.Snapshot(table, t) == AliveAt(table, births, shuts, t)
  {}

  lemma UnfaithfulRowGivesItselfAway(table: Table, births: map<Uuid, Time>, shuts: map<Uuid, Time>, id: Uuid)
    returns (t: Time)
    requires births.Keys == table.Keys && shuts.Keys == ClosedIds(table)
    requires id in table && !Faithful(table[id], births[id], ShutAt(shuts, id))
    requires id in shuts ==> births[id] <= shuts[id]
    ensures MemoryHistory.Snapshot(table, t) != AliveAt(table, births, shuts, t)
  {
    var row, born := table[id], births[id];
    var ends := if row.validTo.Some? then {row.validTo.value, shuts[id]} else {};
    t :| t in {row.validFrom, born} + ends &&
         (id in MemoryHistory.Snapshot(table, t) <==> id !in AliveAt(table, births, shuts, t));
  }

  /** The as-of query over the final table gives, for every past time, the rows that were live then. */
  ghost predicate Answerable(env: Externals, steps: seq<Step>) {
    forall t :: MemoryHistory.Snapshot(TableAfter(env, steps), t) ==
                MemoryHistory.LiveView(TableAfter(env, Seen(steps, t)))
  }

  /**
   Under any interleaving, the as-of query answers correctly at every time exactly when each row's validFrom
   is the time it was inserted and its validTo the time at which its closing took effect, or the row was
   closed as it came in and its own interval is empty too.
   */
  lemma AsOfInterleaved(env: Externals, steps: seq<Step>)
    requires Chronological(steps) && InsertsOpenRows(steps)
    ensures Answerable(env, steps) <==>
            AllFaithful(TableAfter(env, steps), Births(env, steps), Shuts(env, steps))
  {
    LifetimesAreOrdered(env, steps);
    var table, births, shuts := TableAfter(env, steps), Births(env, steps), Shuts(env, steps);
    forall t ensures MemoryHistory.LiveView(TableAfter(env, Seen(steps, t))) == AliveAt(table, births, shuts, t) {
      LiveViewFromLifetimes(env, steps, t);
    }
    if AllFaithful(table, births, shuts) {
      forall t ensures MemoryHistory.Snapshot(table, t) == AliveAt(table, births, shuts, t) {
        FaithfulRowsAnswer(table, births, shuts, t);
      }
    } else {
      var id :| id in table && !Faithful(table[id], births[id], ShutAt(shuts, id));
      var t := UnfaithfulRowGivesItselfAway(table, births, shuts, id);
      assert MemoryHistory.Snapshot(table, t) != MemoryHistory.LiveView(TableAfter(env, Seen(steps, t)));
    }
  }

  // ---------------------------------------------------------------- how wrong it can be

  /** No item brings a validFrom of its own: each row is stamped with the clock as its caller read it. */
  ghost predicate NoExplicitStamps(steps: seq<Step>) {
    forall i :: 0 <= i < |steps| && steps[i].Insert? ==>
                  forall j :: 0 <= j < |steps[i].rows| ==> steps[i].rows[j].row.validFrom == steps[i].read
  }

  /** Every INSERT takes effect at the very time its caller read the clock. */
  ghost predicate InsertsAreInstant(steps: seq<Step>) {
    forall i :: 0 <= i < |steps| && steps[i].Insert? ==> steps[i].read == steps[i].now
  }

  lemma {:induction false} NewRowsAreStamped(t: Table, rows: seq<Insertion>, read: Time)
    requires forall j :: 0 <= j < |rows| ==> rows[j].row.validFrom == read
    ensures forall id <- InsertAll(t, rows) :: id in t || InsertAll(t, rows)[id].validFrom == read
    decreases |rows|
  {
    MemoryHistory.NewRowsComeFromTheBatch(t, rows);
  }

  /** Without stamps of their own, rows start no later than they were inserted. */
  lemma {:induction false} UnstampedRowsStartByBirth(env: Externals, steps: seq<Step>)
    requires NoExplicitStamps(steps) && InsertsOpenRows(steps) && Chronological(steps)
    ensures Births(env, steps).Keys == TableAfter(env, steps).Keys
    ensures forall id <- TableAfter(env, steps) ::
              && TableAfter(env, steps)[id].validFrom <= Births(env, steps)[id]
              && (InsertsAreInstant(steps) ==> TableAfter(env, steps)[id].validFrom == Births(env, steps)[id])
    decreases |steps|
  {
    if steps != [] {
      var init, last := steps[..|steps| - 1], steps[|steps| - 1];
      UnstampedRowsStartByBirth(env, init);
      OneStep(env, steps);
      if last.Insert? {
        NewRowsAreStamped(TableAfter(env, init), last.rows, last.read);
      }
    }
  }

  /** Calls began before the closing of any row they selected took effect. */
  ghost predicate BeganBeforeShut(calls: seq<Call>, shuts: map<Uuid, Time>) {
    forall i, id :: 0 <= i < |calls| && id in calls[i].selected && id in shuts ==> calls[i].began <= shuts[id]
  }

  lemma CallsAfterStep(env: Externals, s: State, step: Step, i: nat)
    requires i < |Next(env, s, step).calls|
    ensures var c := Next(env, s, step).calls[i];
            || (i < |s.calls| && c.selected == s.calls[i].selected && c.began == s.calls[i].began)
            || (step.Select? && c.began == step.began && c.selected !! ClosedIds(s.table))
  {}

  lemma ShutsGrow(env: Externals, steps: seq<Step>, id: Uuid)
    requires steps != [] && id in Shuts(env, steps)
    ensures var init := steps[..|steps| - 1];
            if id in Shuts(env, init) then Shuts(env, steps)[id] == Shuts(env, init)[id]
            else Shuts(env, steps)[id] == steps[|steps| - 1].now
  {}

  /** One more step keeps every call's start at or before the time, and before what it selected was shut. */
  lemma StepBeginsInTime(env: Externals, steps: seq<Step>, i: nat)
    requires Chronological(steps) && InsertsOpenRows(steps) && steps != []
    requires i < |Run(env, map[], steps).calls|
    requires var init := steps[..|steps| - 1];
             && (forall j :: 0 <= j < |Run(env, map[], init).calls| ==>
                               Run(env, map[], init).calls[j].began <= steps[|steps| - 1].now)
             && BeganBeforeShut(Run(env, map[], init).calls, Shuts(env, init))
    ensures var c := Run(env, map[], steps).calls[i];
            && c.began <= steps[|steps| - 1].now
            && forall id :: id in c.selected && id in Shuts(env, steps) ==> c.began <= Shuts(env, steps)[id]
  {
    var init := steps[..|steps| - 1];
    LifetimesAreOrdered(env, init);
    var c := Run(env, map[], steps).calls[i];
    CallsAfterStep(env, Run(env, map[], init), steps[|steps| - 1], i);
    forall id | id in c.selected && id in Shuts(env, steps) ensures c.began <= Shuts(env, steps)[id] {
      ShutsGrow(env, steps, id);
    }
  }

  lemma {:induction false} CallsBeginInTime(env: Externals, steps: seq<Step>)
    requires Chronological(steps) && InsertsOpenRows(steps)
    ensures forall i :: 0 <= i < |Run(env, map[], steps).calls| ==>
                          Run(env, map[], steps).calls[i].began <= steps[|steps| - 1].now
    ensures BeganBeforeShut(Run(env, map[], steps).calls, Shuts(env, steps))
    decreases |steps|
  {
    if steps != [] {
      var init := steps[..|steps| - 1];
      CallsBeginInTime(env, init);
      assert init != [] ==> init[|init| - 1].now <= steps[|steps| - 1].now;
      forall i | 0 <= i < |Run(env, map[], steps).calls|
        ensures var c := Run(env, map[], steps).calls[i];
                && c.began <= steps[|steps| - 1].now
                && forall id :: id in c.selected && id in Shuts(env, steps) ==> c.began <= Shuts(env, steps)[id]
      {
        StepBeginsInTime(env, steps, i);
      }
    }
  }

  /** No row says that it was closed later than it was. */
  lemma {:induction false} ClosingTimesAreNeverLate(env: Externals, steps: seq<Step>)
    requires Chronological(steps) && InsertsOpenRows(steps)
    ensures Shuts(env, steps).Keys == ClosedIds(TableAfter(env, steps))
    ensures forall id <- Shuts(env, steps) :: TableAfter(env, steps)[id].validTo.value <= Shuts(env, steps)[id]
  {
    LifetimesAreOrdered(env, steps);
    RunIsStamped(env, map[], steps);
    CallsBeginInTime(env, steps);
    var s := Run(env, map[], steps);
    forall id | id in Shuts(env, steps) ensures s.table[id].validTo.value <= Shuts(env, steps)[id] {
      assert id !in ClosedIds(map[]);
      assert StampedBy(s.calls, id, s.table[id]);
    }
  }

  /**
   Whatever interleaves, the as-of query over rows that bring no validFrom of their own errs in two ways only: it
   shows a row between the reading of the clock and the insertion, and it leaves a row out between the time its
   closing was stamped with and the closing itself.
   */
  lemma SnapshotErrsExactlyWhen(env: Externals, steps: seq<Step>, t: Time, id: Uuid)
    requires Chronological(steps) && InsertsOpenRows(steps) && NoExplicitStamps(steps)
    ensures var table, births, shuts := TableAfter(env, steps), Births(env, steps), Shuts(env, steps);
            var shown := MemoryHistory.Snapshot(table, t);
            var live := MemoryHistory.LiveView(TableAfter(env, Seen(steps, t)));
            && (id in shown && id in live ==> shown[id] == live[id])
            && (id in shown && id !in live <==>
                id in table && id in births && table[id].validFrom <= t < births[id]
                && MemoryHistory.OpenAt(table[id], t))
            && (id in live && id !in shown <==>
                id in table && id in births && id in shuts && table[id].validTo.Some?
                && births[id] <= t && table[id].validTo.value <= t < shuts[id])
  {
    LifetimesAreOrdered(env, steps);
    LiveViewFromLifetimes(env, steps, t);
    UnstampedRowsStartByBirth(env, steps);
    ClosingTimesAreNeverLate(env, steps);
  }

  /** One insert alone can break it: no recall finds the row before 5, and the row says it was there at 4. */
  lemma LateInsertShowsARowTooEarly(env: Externals, row: Row)
    requires row.validFrom == 3 && row.validTo.None?
    ensures var steps := [Insert([Insertion(7, row)], 3, 5)];
            && Chronological(steps) && InsertsOpenRows(steps) && NoExplicitStamps(steps)
            && 7 in MemoryHistory.Snapshot(TableAfter(env, steps), 4)
            && 7 !in MemoryHistory.LiveView(TableAfter(env, Seen(steps, 4)))
  {
    var steps := [Insert([Insertion(7, row)], 3, 5)];
    assert steps[..0] == [];
    assert Run(env, map[], steps[..0]) == State(map[], []);
    assert Run(env, map[], steps) == Next(env, State(map[], []), steps[0]);
    assert InsertAll(map[], [Insertion(7, row)]) == map[7 := row];
    assert TableAfter(env, steps) == map[7 := row];
    assert Seen(steps, 4) == [];
    assert TableAfter(env, []) == map[];
  }

  /** One call alone can break it: the row is live at 4, the UPDATE runs at 5, and the row says closed at 3. */
  lemma LateUpdateHidesALiveRow(env: Externals, row: Row, m: Matcher)
    requires row.validFrom == 1 && row.validTo.None? && forall item :: m(item)
    ensures var steps := [Insert([Insertion(7, row)], 1, 1), Select(row.scope, m, 3, 3), Update(0, 5)];
            && Chronological(steps) && InsertsOpenRows(steps) && NoExplicitStamps(steps)
            && AllFinished(Run(env, map[], steps)) && ClosingsAreFinal(env, map[], steps)
            && 7 in MemoryHistory.LiveView(TableAfter(env, Seen(steps, 4)))
            && 7 !in MemoryHistory.Snapshot(TableAfter(env, steps), 4)
  {
    var insert, select := Insert([Insertion(7, row)], 1, 1), Select(row.scope, m, 3, 3);
    var update := Update(0, 5);
    var before := [insert, select];
    assert [] + [insert] == [insert] && [insert] + [select] == before && before + [update] == [insert, select, update];
    RunOneMore(env, map[], [], insert);
    RunOneMore(env, map[], [insert], select);
    RunOneMore(env, map[], before, update);
    assert InsertAll(map[], [Insertion(7, row)]) == map[7 := row];
    assert Selected(env, map[7 := row], row.scope, m) == {7};
    assert Run(env, map[], before) == State(map[7 := row], [Call({7}, 3, false)]);
    assert Close(map[7 := row], {7}, 3) == map[7 := row.(validTo := Some(3))];
    AllSeen(before, 4);
    assert (before + [update])[..2] == before;
    assert Seen(before + [update], 4) == before;
    DisjointClosingsAreFinal(env, map[], before + [update]);
  }

  /** Every UPDATE that is due runs at the very time its transaction began. */
  ghost predicate UpdatesAreInstant(env: Externals, steps: seq<Step>) {
    forall i :: 0 <= i < |steps| && steps[i].Update? && Due(Run(env, map[], steps[..i]), steps[i].call) ==>
                  steps[i].now == Run(env, map[], steps[..i]).calls[steps[i].call].began
  }

  lemma InstantStep(env: Externals, s: State, step: Step, shuts: map<Uuid, Time>, id: Uuid)
    requires Inv(map[], s) && BeganBeforeShut(s.calls, shuts) && shuts.Keys == ClosedIds(s.table)
    requires step.Insert? ==> forall j :: 0 <= j < |step.rows| ==> step.rows[j].row.validTo.None?
    requires step.Update? && Due(s, step.call) ==> step.now == s.calls[step.call].began
    requires id in shuts ==> s.table[id].validTo == Some(shuts[id]) && shuts[id] <= step.now
    requires id in ClosedIds(Next(env, s, step).table)
    ensures Next(env, s, step).table[id].validTo == Some(if id in shuts then shuts[id] else step.now)
  {
    ClosedBeforeOrNow(env, map[], s, step, id);
  }

  lemma {:induction false} InstantUpdatesStampTheClosing(env: Externals, steps: seq<Step>)
    requires Chronological(steps) && InsertsOpenRows(steps) && UpdatesAreInstant(env, steps)
    ensures Shuts(env, steps).Keys == ClosedIds(TableAfter(env, steps))
    ensures forall id <- Shuts(env, steps) :: TableAfter(env, steps)[id].validTo == Some(Shuts(env, steps)[id])
    decreases |steps|
  {
    LifetimesAreOrdered(env, steps);
    if steps != [] {
      var init, last := steps[..|steps| - 1], steps[|steps| - 1];
      assert UpdatesAreInstant(env, init) by {
        forall i | 0 <= i < |init| ensures init[..i] == steps[..i] && init[i] == steps[i] {}
      }
      InstantUpdatesStampTheClosing(env, init);
      RunKeepsInv(env, map[], init);
      CallsBeginInTime(env, init);
      LifetimesAreOrdered(env, init);
      forall id | id in Shuts(env, steps)
        ensures TableAfter(env, steps)[id].validTo == Some(Shuts(env, steps)[id])
      {
        ShutsGrow(env, steps, id);
        InstantStep(env, Run(env, map[], init), last, Shuts(env, init), id);
      }
    }
  }

  /** If every statement takes effect at the time it is stamped with, and no item brings its own stamp, the as-of
      query is right at every time. */
  lemma InstantStatementsKeepHistory(env: Externals, steps: seq<Step>)
    requires Chronological(steps) && InsertsOpenRows(steps) && NoExplicitStamps(steps)
    requires InsertsAreInstant(steps) && UpdatesAreInstant(env, steps)
    ensures Answerable(env, steps)
  {
    InstantUpdatesStampTheClosing(env, steps);
    UnstampedRowsStartByBirth(env, steps);
    LifetimesAreOrdered(env, steps);
    AsOfInterleaved(env, steps);
  }
}
