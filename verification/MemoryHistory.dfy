/**
 Whole runs of the memory store, one operation at a time: "what did the agent know, and when".

 A run starts from the empty table. It is chronological when its timestamps never decrease.
 */
module MemoryHistory {
  import opened Wrappers
  import opened TemporalMemory

  datatype Event =
    | Remember(items: seq<MemoryItem>, scope: string, now: Time)
    | Recall(query: string, scope: string, k: int, now: Time)
    | Invalidate(scope: string, matches: Matcher, now: Time)

  ghost function Apply(env: Externals, t: Table, e: Event): Table {
    match e
    case Remember(items, scope, now) => Remembered(env, t, items, scope, now)
    case Recall(_, _, _, _) => t
    case Invalidate(scope, matches, now) => Invalidated(env, t, scope, matches, now)
  }

  ghost function Run(env: Externals, es: seq<Event>): Table {
    if es == [] then map[] else Apply(env, Run(env, es[..|es| - 1]), es[|es| - 1])
  }

  ghost predicate Chronological(es: seq<Event>) {
    forall i, j :: 0 <= i < j < |es| ==> es[i].now <= es[j].now
  }

  // ---------------------------------------------------------------- what was known, and when

  /** The events stamped at or before `t`. */
  ghost function Seen(es: seq<Event>, t: Time): seq<Event> {
    if es == [] then []
    else
      var before := Seen(es[..|es| - 1], t);
      if es[|es| - 1].now <= t then before + [es[|es| - 1]] else before
  }

  ghost predicate OpenAt(row: Row, t: Time) {
    row.validTo.None? || row.validTo.value > t
  }

  /** The compliance query: the rows whose validity interval holds `t`, read off today's table. */
  ghost function Snapshot(table: Table, t: Time): Table {
    map id | id in table && table[id].validFrom <= t && OpenAt(table[id], t) :: table[id].(validTo := None)
  }

  /** What a recall could have returned at some moment. */
  ghost function LiveView(table: Table): Table {
    map id | id in table && table[id].validTo.None? :: table[id]
  }

  /** The stamp of the operation that inserted each row. */
  ghost function Births(env: Externals, es: seq<Event>): map<Uuid, Time> {
    if es == [] then map[]
    else
      var init, e := es[..|es| - 1], es[|es| - 1];
      map id | id in Run(env, es) :: if id in Births(env, init) then Births(env, init)[id] else e.now
  }

  /** A row's own interval tells when it was there. The second case is a row closed at its very birth. */
  ghost predicate Faithful(row: Row, born: Time) {
    row.validFrom == born || (row.validTo == Some(born) && row.validFrom >= born)
  }

  /** One operation never drops a row and never changes any column but validTo; a row it closes was live. */
  lemma ApplyKeepsRows(env: Externals, t: Table, e: Event)
    ensures t.Keys <= Apply(env, t, e).Keys
    ensures forall id <- t :: Apply(env, t, e)[id].(validTo := t[id].validTo) == t[id]
    ensures forall id <- t :: Apply(env, t, e)[id].validTo == t[id].validTo
                              || (t[id].validTo.None? && e.Invalidate? && Apply(env, t, e)[id].validTo == Some(e.now))
    ensures forall id <- Apply(env, t, e) :: id !in t ==> e.Remember? && Apply(env, t, e)[id].validTo.None?
    ensures forall id <- Apply(env, t, e) :: id !in t ==>
                                             Apply(env, t, e)[id].scope == e.scope
  {
    if e.Remember? {
      var prepared := PrepareRows(env, e.items, e.scope, e.now);
      if prepared.Success? {
        InsertKeepsRows(env, t, e.items, e.scope, e.now);
      }
    }
  }

  lemma {:induction false} InsertKeepsRows(env: Externals, t: Table, items: seq<MemoryItem>, scope: string, now: Time)
    requires PrepareRows(env, items, scope, now).Success?
    ensures var rows := PrepareRows(env, items, scope, now).value;
            var t' := InsertAll(t, rows);
            && t'.Keys == t.Keys + IdsOf(rows)
            && (forall id <- t :: t'[id] == t[id])
            && (forall id <- t' :: id !in t ==> t'[id].validTo.None? && t'[id].scope == scope)
            && (forall id <- t' :: id !in t && (forall it <- items :: it.validFrom.None?) ==> t'[id].validFrom == now)
  {
    var rows := PrepareRows(env, items, scope, now).value;
    FirstWriteWins(t, rows);
    if items != [] {
      PreparedRowsAre(env, items, scope, now);
    }
    NewRowsComeFromTheBatch(t, rows);
  }

  lemma {:induction false} NewRowsComeFromTheBatch(t: Table, rows: seq<Insertion>)
    ensures forall id <- InsertAll(t, rows) ::
              id in t || exists i :: 0 <= i < |rows| && InsertAll(t, rows)[id] == rows[i].row
    decreases |rows|
  {
    if rows != [] {
      var t' := InsertRow(t, rows[0]);
      NewRowsComeFromTheBatch(t', rows[1..]);
      FirstWriteWins(t', rows[1..]);
      forall id | id in InsertAll(t, rows) && id !in t
        ensures exists i :: 0 <= i < |rows| && InsertAll(t, rows)[id] == rows[i].row
      {
        if id in t' {
          assert InsertAll(t, rows)[id] == rows[0].row;
        } else {
          var i :| 0 <= i < |rows[1..]| && InsertAll(t, rows)[id] == rows[1..][i].row;
          assert rows[i + 1] == rows[1..][i];
        }
      }
    }
  }

  /** Every row has a birth, and a closed row was closed no earlier than that and no later than the last event. */
  lemma {:induction false} LifetimesAreOrdered(env: Externals, es: seq<Event>)
    requires Chronological(es)
    ensures Births(env, es).Keys == Run(env, es).Keys
    ensures forall id <- Run(env, es) :: Births(env, es)[id] <= es[|es| - 1].now
    ensures forall id <- Run(env, es) ::
              var row := Run(env, es)[id];
              row.validTo.Some? ==> Births(env, es)[id] <= row.validTo.value <= es[|es| - 1].now
    decreases |es|
  {
    if es != [] {
      LifetimesAreOrdered(env, es[..|es| - 1]);
      ApplyKeepsRows(env, Run(env, es[..|es| - 1]), es[|es| - 1]);
    }
  }

  lemma {:induction false} AllSeen(es: seq<Event>, t: Time)
    requires forall i :: 0 <= i < |es| ==> es[i].now <= t
    ensures Seen(es, t) == es
    decreases |es|
  {
    if es != [] {
      AllSeen(es[..|es| - 1], t);
    }
  }

  /** The rows of `table` born by `t` and not closed by `t`. */
  ghost function BornView(table: Table, births: map<Uuid, Time>, t: Time): Table {
    map id | id in table && id in births && births[id] <= t && OpenAt(table[id], t) :: table[id].(validTo := None)
  }

  /** An event later than `t` changes nothing about time `t`. */
  lemma LaterEventsDoNotReach(env: Externals, table: Table, births: map<Uuid, Time>,
                              births': map<Uuid, Time>, e: Event, t: Time)
    requires births.Keys == table.Keys && e.now > t
    requires births'.Keys == Apply(env, table, e).Keys
    requires forall id <- births' :: births'[id] == if id in births then births[id] else e.now
    ensures BornView(Apply(env, table, e), births', t) == BornView(table, births, t)
  {
    ApplyKeepsRows(env, table, e);
    var v, v' := BornView(table, births, t), BornView(Apply(env, table, e), births', t);
    forall id ensures id in v <==> id in v' {}
    forall id | id in v ensures v[id] == v'[id] {}
  }

  lemma EverythingIsPast(table: Table, births: map<Uuid, Time>, t: Time)
    requires births.Keys == table.Keys
    requires forall id <- table :: births[id] <= t && (table[id].validTo.Some? ==> table[id].validTo.value <= t)
    ensures BornView(table, births, t) == LiveView(table)
  {
    forall id | id in LiveView(table) ensures table[id].(validTo := None) == table[id] {}
  }

  /** The live rows at time `t` are those of today's table born by then and not closed by then. */
  lemma {:induction false} LiveViewFromBirths(env: Externals, es: seq<Event>, t: Time)
    requires Chronological(es)
    ensures LiveView(Run(env, Seen(es, t))) == BornView(Run(env, es), Births(env, es), t)
    decreases |es|
  {
    LifetimesAreOrdered(env, es);
    if es != [] {
      var init, e := es[..|es| - 1], es[|es| - 1];
      if e.now <= t {
        AllSeen(es, t);
        EverythingIsPast(Run(env, es), Births(env, es), t);
      } else {
        LiveViewFromBirths(env, init, t);
        LifetimesAreOrdered(env, init);
        LaterEventsDoNotReach(env, Run(env, init), Births(env, init), Births(env, es), e, t);
      }
    }
  }

  lemma FaithfulRowsAnswer(table: Table, births: map<Uuid, Time>, t: Time)
    requires births.Keys == table.Keys
    requires forall id <- table :: Faithful(table[id], births[id])
    ensures Snapshot(table, t) == BornView(table, births, t)
  {}

  lemma UnfaithfulRowGivesItselfAway(table: Table, births: map<Uuid, Time>, id: Uuid) returns (t: Time)
    requires births.Keys == table.Keys && id in table && !Faithful(table[id], births[id])
    requires table[id].validTo.Some? ==> births[id] <= table[id].validTo.value
    ensures Snapshot(table, t) != BornView(table, births, t)
  {
    t := if table[id].validFrom < births[id] then table[id].validFrom else births[id];
    assert id in Snapshot(table, t) <==> id !in BornView(table, births, t);
  }

  /** The as-of query over today's table gives, for every time, the rows that were live then. */
  ghost predicate Answerable(env: Externals, es: seq<Event>) {
    forall t :: Snapshot(Run(env, es), t) == LiveView(Run(env, Seen(es, t)))
  }

  /**
   The as-of query answers correctly at every time exactly when every row's validFrom is the
   moment the row was inserted (or the row was closed at that moment, and never seen).
   */
  lemma AsOfReconstruction(env: Externals, es: seq<Event>)
    requires Chronological(es)
    ensures Births(env, es).Keys == Run(env, es).Keys
    ensures Answerable(env, es) <==> forall id <- Run(env, es) :: Faithful(Run(env, es)[id], Births(env, es)[id])
  {
    LifetimesAreOrdered(env, es);
    var table, births := Run(env, es), Births(env, es);
    forall t ensures LiveView(Run(env, Seen(es, t))) == BornView(table, births, t) {
      LiveViewFromBirths(env, es, t);
    }
    if forall id <- table :: Faithful(table[id], births[id]) {
      forall t ensures Snapshot(table, t) == BornView(table, births, t) {
        FaithfulRowsAnswer(table, births, t);
      }
    } else {
      var id :| id in table && !Faithful(table[id], births[id]);
      var t := UnfaithfulRowGivesItselfAway(table, births, id);
      assert Snapshot(table, t) != LiveView(Run(env, Seen(es, t)));
    }
  }

  ghost predicate NoExplicitStamps(es: seq<Event>) {
    forall i :: 0 <= i < |es| && es[i].Remember? ==> forall item <- es[i].items :: item.validFrom.None?
  }

  /** Items that bring no validFrom of their own always give faithful rows. */
  lemma {:induction false} UnstampedRowsAreFaithful(env: Externals, es: seq<Event>)
    requires NoExplicitStamps(es)
    ensures Births(env, es).Keys == Run(env, es).Keys
    ensures forall id <- Run(env, es) :: Run(env, es)[id].validFrom == Births(env, es)[id]
    decreases |es|
  {
    if es != [] {
      var init, e := es[..|es| - 1], es[|es| - 1];
      UnstampedRowsAreFaithful(env, init);
      ApplyKeepsRows(env, Run(env, init), e);
      if e.Remember? && PrepareRows(env, e.items, e.scope, e.now).Success? {
        InsertKeepsRows(env, Run(env, init), e.items, e.scope, e.now);
      }
    }
  }

  /** With no explicit stamps, today's table answers "what was live at t" for every t. */
  lemma HistoryIsAnswerable(env: Externals, es: seq<Event>, t: Time)
    requires Chronological(es) && NoExplicitStamps(es)
    ensures Snapshot(Run(env, es), t) == LiveView(Run(env, Seen(es, t)))
  {
    UnstampedRowsAreFaithful(env, es);
    AsOfReconstruction(env, es);
  }

  /** A row stamped before it was inserted breaks it: the table claims it was known before anybody remembered it. */
  lemma BackdatedRowRewritesHistory(env: Externals, es: seq<Event>, id: Uuid)
    requires Chronological(es) && id in Run(env, es) && id in Births(env, es)
    requires Run(env, es)[id].validFrom < Births(env, es)[id]
    ensures var t := Run(env, es)[id].validFrom;
            id in Snapshot(Run(env, es), t) && id !in LiveView(Run(env, Seen(es, t)))
  {
    LifetimesAreOrdered(env, es);
    LiveViewFromBirths(env, es, Run(env, es)[id].validFrom);
  }

  /** One accepted item with a new id adds its own row, born now, and touches no other row or birth. */
  lemma OneItemMore(env: Externals, es: seq<Event>, item: MemoryItem, scope: string, now: Time, id: Uuid)
    requires PrepareRows(env, [item], scope, now).Success?
    requires env.parseUuid(item.id) == Some(id) && id !in Run(env, es)
    requires Births(env, es).Keys == Run(env, es).Keys
    ensures var es' := es + [Remember([item], scope, now)];
            && Run(env, es').Keys == Births(env, es').Keys == Run(env, es).Keys + {id}
            && (forall old' <- Run(env, es) ::
                  Run(env, es')[old'] == Run(env, es)[old'] && Births(env, es')[old'] == Births(env, es)[old'])
            && Births(env, es')[id] == now && Run(env, es')[id].validTo.None?
            && Run(env, es')[id].validFrom == if item.validFrom.Some? then item.validFrom.value else now
  {
    var es' := es + [Remember([item], scope, now)];
    var rows := PrepareRows(env, [item], scope, now).value;
    PreparedRowsAre(env, [item], scope, now);
    FirstWriteWins(Run(env, es), rows);
    assert rows[0].id == id && IdsOf(rows) == {id};
    assert es'[..|es|] == es;
    assert Run(env, es') == InsertAll(Run(env, es), rows);
  }

  /** So a new item, accepted at the end of any run that can be asked about, keeps it so exactly when it brings no
      stamp of its own, or the very time at which it is remembered. */
  lemma ItemKeepsHistoryExactlyWhen(env: Externals, es: seq<Event>, item: MemoryItem, scope: string, now: Time,
                                    id: Uuid)
    requires Chronological(es + [Remember([item], scope, now)]) && Answerable(env, es)
    requires PrepareRows(env, [item], scope, now).Success?
    requires env.parseUuid(item.id) == Some(id) && id !in Run(env, es)
    ensures Answerable(env, es + [Remember([item], scope, now)]) <==> item.validFrom in {None, Some(now)}
  {
    var es' := es + [Remember([item], scope, now)];
    PrefixIsChronological(es, Remember([item], scope, now));
    AsOfReconstruction(env, es);
    AsOfReconstruction(env, es');
    OneItemMore(env, es, item, scope, now, id);
    assert Faithful(Run(env, es')[id], Births(env, es')[id]) <==> item.validFrom in {None, Some(now)};
  }

  lemma PrefixIsChronological(es: seq<Event>, e: Event)
    requires Chronological(es + [e])
    ensures Chronological(es)
  {
    assert forall i :: 0 <= i < |es| ==> (es + [e])[i] == es[i];
  }

  /** A stamp in the past, after any run at all, shows the item at its stamp, when it was not there. */
  lemma BackdatedItemRewritesHistory(env: Externals, es: seq<Event>, item: MemoryItem, scope: string, now: Time,
                                     id: Uuid)
    requires Chronological(es + [Remember([item], scope, now)])
    requires PrepareRows(env, [item], scope, now).Success?
    requires env.parseUuid(item.id) == Some(id) && id !in Run(env, es)
    requires item.validFrom.Some? && item.validFrom.value < now
    ensures var es', t := es + [Remember([item], scope, now)], item.validFrom.value;
            id in Snapshot(Run(env, es'), t) && id !in LiveView(Run(env, Seen(es', t)))
  {
    PrefixIsChronological(es, Remember([item], scope, now));
    LifetimesAreOrdered(env, es);
    OneItemMore(env, es, item, scope, now, id);
    BackdatedRowRewritesHistory(env, es + [Remember([item], scope, now)], id);
  }

  // ---------------------------------------------------------------- conservation

  ghost function IdsRemembered(env: Externals, es: seq<Event>): set<Uuid> {
    if es == [] then {}
    else
      IdsRemembered(env, es[..|es| - 1]) + EventIds(env, es[|es| - 1])
  }

  ghost function EventIds(env: Externals, e: Event): set<Uuid> {
    if e.Remember? then
      match PrepareRows(env, e.items, e.scope, e.now)
      case Success(rows) => IdsOf(rows)
      case Failure(_) => {}
    else {}
  }

  /** The sum of the counts every invalidate call returned. */
  ghost function ReturnedCounts(env: Externals, es: seq<Event>): nat {
    if es == [] then 0
    else
      var init, e := es[..|es| - 1], es[|es| - 1];
      ReturnedCounts(env, init) + if e.Invalidate? then |Selected(env, Run(env, init), e.scope, e.matches)| else 0
  }

  lemma {:induction false} OneRowPerId(env: Externals, es: seq<Event>)
    ensures Run(env, es).Keys == IdsRemembered(env, es)
    decreases |es|
  {
    if es != [] {
      var init, e := es[..|es| - 1], es[|es| - 1];
      OneRowPerId(env, init);
      ApplyKeepsRows(env, Run(env, init), e);
      if e.Remember? && PrepareRows(env, e.items, e.scope, e.now).Success? {
        InsertKeepsRows(env, Run(env, init), e.items, e.scope, e.now);
      }
    }
  }

  lemma ClosedAfter(env: Externals, t: Table, e: Event)
    ensures ClosedIds(Apply(env, t, e)) ==
            ClosedIds(t) + if e.Invalidate? then Selected(env, t, e.scope, e.matches) else {}
  {
    ApplyKeepsRows(env, t, e);
    var t' := Apply(env, t, e);
    forall id ensures id in ClosedIds(t') <==>
                      id in ClosedIds(t) || (e.Invalidate? && id in Selected(env, t, e.scope, e.matches)) {}
  }

  lemma {:induction false} ClosingsAreCountedOnce(env: Externals, es: seq<Event>)
    ensures ReturnedCounts(env, es) == |ClosedIds(Run(env, es))|
    decreases |es|
  {
    if es == [] {
      assert ClosedIds(map[]) == {};
    } else {
      var init, e := es[..|es| - 1], es[|es| - 1];
      ClosingsAreCountedOnce(env, init);
      ClosedAfter(env, Run(env, init), e);
      if e.Invalidate? {
        assert ClosedIds(Run(env, init)) !! Selected(env, Run(env, init), e.scope, e.matches);
      }
    }
  }

  /** Nothing is ever deleted: one row per id ever remembered, each live or closed, and each closing counted once. */
  lemma Conservation(env: Externals, es: seq<Event>)
    ensures Run(env, es).Keys == IdsRemembered(env, es)
    ensures |AllLive(Run(env, es))| + |ClosedIds(Run(env, es))| == |IdsRemembered(env, es)|
    ensures ReturnedCounts(env, es) == |ClosedIds(Run(env, es))|
  {
    OneRowPerId(env, es);
    ClosingsAreCountedOnce(env, es);
    var t := Run(env, es);
    assert AllLive(t) !! ClosedIds(t);
    assert AllLive(t) + ClosedIds(t) == t.Keys;
  }

  // ---------------------------------------------------------------- scope isolation

  ghost function Slice(t: Table, scope: string): Table {
    map id | id in t && t[id].scope == scope :: t[id]
  }

  /** The run with every operation on other scopes left out. */
  ghost function Project(es: seq<Event>, scope: string): seq<Event> {
    if es == [] then []
    else
      var before := Project(es[..|es| - 1], scope);
      if es[|es| - 1].scope == scope then before + [es[|es| - 1]] else before
  }

  /** Every id remembered under `scope` is owned by `scope`: no other scope wrote it first. */
  ghost predicate OwnsItsIds(env: Externals, es: seq<Event>, scope: string) {
    forall id <- IdsRemembered(env, Project(es, scope)) :: id in Run(env, es) && Run(env, es)[id].scope == scope
  }

  lemma {:induction false} InsertIntoSlice(t: Table, rows: seq<Insertion>, scope: string)
    requires forall i :: 0 <= i < |rows| ==> rows[i].row.scope == scope
    requires forall id <- IdsOf(rows) :: id in t ==> t[id].scope == scope
    ensures Slice(InsertAll(t, rows), scope) == InsertAll(Slice(t, scope), rows)
    decreases |rows|
  {
    if rows != [] {
      var t', rest := InsertRow(t, rows[0]), rows[1..];
      assert rows[0].id in IdsOf(rows);
      assert Slice(t', scope) == InsertRow(Slice(t, scope), rows[0]);
      assert forall i :: 0 <= i < |rest| ==> rest[i] == rows[i + 1];
      assert IdsOf(rest) <= IdsOf(rows);
      InsertIntoSlice(t', rest, scope);
    }
  }

  lemma {:induction false} InsertElsewhere(t: Table, rows: seq<Insertion>, scope: string)
    requires forall i :: 0 <= i < |rows| ==> rows[i].row.scope != scope
    ensures Slice(InsertAll(t, rows), scope) == Slice(t, scope)
    decreases |rows|
  {
    if rows != [] {
      assert Slice(InsertRow(t, rows[0]), scope) == Slice(t, scope);
      assert forall i :: 0 <= i < |rows[1..]| ==> rows[1..][i] == rows[i + 1];
      InsertElsewhere(InsertRow(t, rows[0]), rows[1..], scope);
    }
  }

  lemma PreparedScope(env: Externals, items: seq<MemoryItem>, scope: string, now: Time)
    ensures var p := PrepareRows(env, items, scope, now);
            p.Success? ==> forall i :: 0 <= i < |p.value| ==> p.value[i].row.scope == scope
  {
    if items != [] {
      PreparedRowsAre(env, items, scope, now);
    }
  }

  /** An operation on another scope leaves every row of this scope, and so its recall candidates, alone. */
  lemma OtherScopesAreUntouched(env: Externals, t: Table, e: Event, scope: string)
    requires e.scope != scope
    ensures Slice(Apply(env, t, e), scope) == Slice(t, scope)
    ensures LiveIds(Apply(env, t, e), scope) == LiveIds(t, scope)
  {
    if e.Remember? && PrepareRows(env, e.items, e.scope, e.now).Success? {
      PreparedScope(env, e.items, e.scope, e.now);
      InsertElsewhere(t, PrepareRows(env, e.items, e.scope, e.now).value, scope);
    }
    var t' := Apply(env, t, e);
    assert Slice(t', scope) == Slice(t, scope);
    forall id ensures id in LiveIds(t', scope) <==> id in LiveIds(t, scope) {
      assert id in Slice(t', scope) <==> id in Slice(t, scope);
    }
  }

  /** An operation sees only the rows of its own scope, as long as its ids are free or its own. */
  lemma OwnScopeSeesOnlyItself(env: Externals, t: Table, e: Event)
    requires forall id <- t :: id in EventIds(env, e) ==> t[id].scope == e.scope
    ensures Slice(Apply(env, t, e), e.scope) == Apply(env, Slice(t, e.scope), e)
  {
    var s := Slice(t, e.scope);
    if e.Remember? && PrepareRows(env, e.items, e.scope, e.now).Success? {
      PreparedScope(env, e.items, e.scope, e.now);
      InsertIntoSlice(t, PrepareRows(env, e.items, e.scope, e.now).value, e.scope);
    }
    if e.Invalidate? {
      assert Selected(env, s, e.scope, e.matches) == Selected(env, t, e.scope, e.matches);
    }
  }

  /**
   A scope's rows are what they would be had no other scope ever been used, exactly when no other
   scope was first to write one of the ids this scope remembered.
   */
  lemma {:induction false} ScopeIsolation(env: Externals, es: seq<Event>, scope: string)
    ensures Slice(Run(env, es), scope) == Run(env, Project(es, scope)) <==> OwnsItsIds(env, es, scope)
    decreases |es|
  {
    if Slice(Run(env, es), scope) == Run(env, Project(es, scope)) {
      OneRowPerId(env, Project(es, scope));
      forall id | id in IdsRemembered(env, Project(es, scope))
        ensures id in Run(env, es) && Run(env, es)[id].scope == scope
      {
        assert id in Slice(Run(env, es), scope);
      }
    }
    if OwnsItsIds(env, es, scope) && es != [] {
      var init, e := es[..|es| - 1], es[|es| - 1];
      var t := Run(env, init);
      ApplyKeepsRows(env, t, e);
      OwnershipOfPrefix(env, es, scope);
      ScopeIsolation(env, init, scope);
      if e.scope == scope {
        assert Project(es, scope)[..|Project(es, scope)| - 1] == Project(init, scope);
        OwnScopeSeesOnlyItself(env, t, e);
      } else {
        OtherScopesAreUntouched(env, t, e, scope);
      }
    }
  }

  lemma OwnershipOfPrefix(env: Externals, es: seq<Event>, scope: string)
    requires es != [] && OwnsItsIds(env, es, scope)
    ensures OwnsItsIds(env, es[..|es| - 1], scope)
    ensures es[|es| - 1].scope == scope ==>
              var t := Run(env, es[..|es| - 1]);
              forall id <- t :: id in EventIds(env, es[|es| - 1]) ==> t[id].scope == scope
  {
    var init, e := es[..|es| - 1], es[|es| - 1];
    var p, p' := Project(init, scope), Project(es, scope);
    ApplyKeepsRows(env, Run(env, init), e);
    if e.scope == scope {
      assert p'[..|p'| - 1] == p;
      assert IdsRemembered(env, p') == IdsRemembered(env, p) + EventIds(env, e);
    }
    forall id | id in IdsRemembered(env, p) ensures id in Run(env, init) {
      ProjectedIdsAreRemembered(env, init, scope);
      OneRowPerId(env, init);
    }
  }

  lemma {:induction false} ProjectedIdsAreRemembered(env: Externals, es: seq<Event>, scope: string)
    ensures IdsRemembered(env, Project(es, scope)) <= IdsRemembered(env, es)
    decreases |es|
  {
    if es != [] {
      ProjectedIdsAreRemembered(env, es[..|es| - 1], scope);
      if es[|es| - 1].scope == scope {
        assert Project(es, scope)[..|Project(es, scope)| - 1] == Project(es[..|es| - 1], scope);
      }
    }
  }
}
