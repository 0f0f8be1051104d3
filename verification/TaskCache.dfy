/** The task list as a cache of a table of the database, read as the program reads it, by
    looking an id up: exactly which polls and loads leave list and table able to agree. */
module TaskCache {
  import opened TaskList

  /** A row of the table: its settings and the time of its last change. */
  datatype Rec = Rec(sch: seq<string>, settings: seq<string>, flag: int, optTime: int)

  /** The table and the database's clock; the program's list and its watermark. */
  datatype World = World(table: map<int, Rec>, clock: int, list: seq<Task>, g: int)

  /** The task is, field for field, the row of the table with that id. */
  predicate IsRow(t: Task, w: World, id: int)
    requires id in w.table
  {
    && t.id == id && t.sch == w.table[id].sch && t.settings == w.table[id].settings
    && t.flag == w.table[id].flag
  }

  function TaskAt(w: World, id: int): (t: Task)
    requires id in w.table
    ensures IsRow(t, w, id)
  {
    Task(id, w.table[id].sch, w.table[id].settings, w.table[id].flag)
  }

  /** A row of the table whose id is found in the list is found there as it is, and one
      whose id is not found is not in use. */
  predicate Agrees(w: World, id: int) {
    id in w.table &&
      match Lookup(w.list, id)
      case Some(t) => IsRow(t, w, id)
      case None => w.table[id].flag != 1
  }

  ghost predicate AllAgree(w: World) {
    forall id :: id in w.table ==> Agrees(w, id)
  }

  /** A row of the table will be read by the next poll. */
  predicate Due(w: World, id: int) {
    id in w.table && w.table[id].optTime >= w.g
  }

  /** A row of the table has been changed at this very tick of the clock. */
  predicate ChangedNow(w: World, id: int) {
    id in w.table && w.table[id].optTime == w.clock
  }

  /** What holds whatever happens: there is a list, of tasks of the table, some id perhaps
      more than once, and no time is ahead of the clock. */
  ghost predicate Base(w: World) {
    && w.list != [] && (forall i :: 0 <= i < |w.list| ==> w.list[i].id in w.table)
    && 0 !in w.table && w.g <= w.clock && forall id :: id in w.table ==> w.table[id].optTime <= w.clock
  }

  /** Every row of the table agrees with the list or is due. */
  ghost predicate Coherent(w: World) {
    Base(w) && forall id :: id in w.table ==> Agrees(w, id) || Due(w, id)
  }

  // ---- Events ----

  /** The fetched row is a row of the table as it is now. */
  ghost predicate IsCurrent(w: World, r: Row) {
    && r.id in w.table && r.sch == w.table[r.id].sch && r.settings == w.table[r.id].settings
    && r.flag == w.table[r.id].flag && r.dbTime == w.clock
  }

  ghost predicate Reads(w: World, rows: seq<Row>) {
    DistinctRows(rows) && forall i :: 0 <= i < |rows| ==> IsCurrent(w, rows[i])
  }

  /** All rows of the table that are due, in some order, as one snapshot has them. */
  ghost predicate AnswersRefresh(w: World, rows: seq<Row>) {
    Reads(w, rows) && forall id :: Mentions(rows, id) <==> Due(w, id)
  }

  /** All rows of the table that are in use. */
  ghost predicate AnswersLoad(w: World, rows: seq<Row>) {
    Reads(w, rows) && forall id :: Mentions(rows, id) <==> id in w.table && w.table[id].flag == 1
  }

  /** Time passes; somebody inserts or changes a row, which stamps it with the time; the
      program polls, or is told to load again, and of all the rows of the answer the first
      n are fetched before the end (1403) or an error. */
  datatype Event =
    | Tick(to: int)
    | Change(id: int, sch: seq<string>, settings: seq<string>, flag: int)
    | Poll(all: seq<Row>, n: nat, code: int)
    | Reload(all: seq<Row>, n: nat, code: int)

  ghost predicate Legal(w: World, e: Event) {
    match e
    case Tick(to) => to >= w.clock
    case Change(id, _, _, _) => id != 0
    case Poll(all, n, code) => AnswersRefresh(w, all) && n <= |all| && code != 0 && (code == 1403 ==> n == |all|)
    case Reload(all, n, code) => AnswersLoad(w, all) && n <= |all| && code != 0 && (code == 1403 ==> n == |all|)
  }

  function Do(w: World, e: Event): World {
    match e
    case Tick(to) => w.(clock := to)
    case Change(id, sch, settings, flag) => w.(table := w.table[id := Rec(sch, settings, flag, w.clock)])
    case Poll(all, n, _) =>
      if n <= |all| then w.(list := Upsert(w.list, all[..n]), g := Watermark(w.g, all[..n])) else w
    case Reload(all, n, _) =>
      if n <= |all| then w.(list := Loaded(w.list, all[..n]), g := Watermark(w.g, all[..n])) else w
  }

  // ---- Fetched rows ----

  lemma {:induction false} NamedAll(rows: seq<Row>)
    requires forall i :: 0 <= i < |rows| ==> rows[i].id != 0
    ensures Named(rows) == rows
    decreases |rows|
  {
    if rows != [] {
      NamedAll(rows[..|rows| - 1]);
    }
  }

  /** The first n rows of an answer. */
  lemma Fetched(w: World, all: seq<Row>, n: nat)
    requires 0 !in w.table && Reads(w, all) && n <= |all|
    ensures Reads(w, all[..n]) && Named(all[..n]) == all[..n]
    ensures Watermark(w.g, all[..n]) == if n == 0 then w.g else w.clock
    ensures forall id :: Mentions(all[..n], id) ==> id in w.table
  {
    var rows := all[..n];
    forall i | 0 <= i < n ensures IsCurrent(w, rows[i]) && rows[i].id != 0 {
      assert IsCurrent(w, all[i]);
    }
    NamedAll(rows);
  }

  /** An answer's row is among the first n or among the others, not both. */
  lemma MentionsSplit(all: seq<Row>, n: nat, id: int)
    requires DistinctRows(all) && n <= |all|
    ensures Mentions(all, id) <==> Mentions(all[..n], id) || exists i :: n <= i < |all| && all[i].id == id
    ensures Mentions(all[..n], id) ==> forall i :: n <= i < |all| ==> all[i].id != id
  {
    forall i | 0 <= i < n ensures all[..n][i] == all[i] {}
  }

  // ---- One poll ----

  /** What an id finds after rows of the table have been fetched: the row as it is now, or
      what it found before. */
  lemma FoundAfter(w: World, rows: seq<Row>, id: int)
    requires 0 !in w.table && Reads(w, rows)
    ensures Mentions(rows, id) ==> id in w.table
    ensures Lookup(Upsert(w.list, rows), id) ==
            if Mentions(rows, id) then Some(TaskAt(w, id)) else Lookup(w.list, id)
  {
    hide Lookup, Upsert, TaskAt;
    UpsertLookup(w.list, rows, id);
    if Mentions(rows, id) {
      var i :| 0 <= i < |rows| && rows[i] == LastRow(rows, id);
      assert IsCurrent(w, rows[i]);
    }
  }

  /** After a poll, complete or not, a row it fetched agrees, and any other does if it did. */
  lemma AgreesAfter(w: World, e: Event, id: int)
    requires Base(w) && e.Poll? && Legal(w, e) && id in w.table
    ensures Agrees(Do(w, e), id) <==> Mentions(e.all[..e.n], id) || Agrees(w, id)
  {
    assert Reads(w, e.all);
    hide Lookup, Upsert, Watermark, Reads, Mentions, AnswersRefresh;
    Fetched(w, e.all, e.n);
    FoundAfter(w, e.all[..e.n], id);
  }

  lemma {:induction false} UpsertIds(w: World, list: seq<Task>, rows: seq<Row>)
    requires forall i :: 0 <= i < |list| ==> list[i].id in w.table
    requires forall i :: 0 <= i < |rows| ==> rows[i].id in w.table
    ensures |Upsert(list, rows)| >= |list|
    ensures forall i :: 0 <= i < |Upsert(list, rows)| ==> Upsert(list, rows)[i].id in w.table
    decreases |rows|
  {
    if rows != [] { UpsertIds(w, list, rows[..|rows| - 1]); }
  }

  lemma PollBase(w: World, e: Event)
    requires Base(w) && e.Poll? && Legal(w, e)
    ensures Base(Do(w, e)) && Do(w, e).g == if e.n == 0 then w.g else w.clock
  {
    Fetched(w, e.all, e.n);
    var rows := e.all[..e.n];
    forall i | 0 <= i < |rows| ensures rows[i].id in w.table { assert IsCurrent(w, rows[i]); }
    UpsertIds(w, w.list, rows);
  }

  lemma EventBase(w: World, e: Event)
    requires Base(w) && Legal(w, e) && !e.Reload?
    ensures Base(Do(w, e)) && w.g <= Do(w, e).g
  {
    if e.Poll? { PollBase(w, e); }
  }

  /** A poll that reaches the end brings the list into agreement with the whole table
      exactly when every row agreed before or was due. */
  lemma CompletePoll(w: World, e: Event)
    requires Base(w) && e.Poll? && Legal(w, e) && e.code == 1403
    ensures AllAgree(Do(w, e)) <==> Coherent(w)
    ensures Base(Do(w, e))
  {
    PollBase(w, e);
    assert e.all[..e.n] == e.all;
    forall id | id in w.table ensures Agrees(Do(w, e), id) <==> Agrees(w, id) || Due(w, id) {
      AgreesAfter(w, e, id);
    }
  }

  /** A poll that stops after n rows leaves everything to the next one exactly when it got
      no row at all, or every row it did not get agrees with the list as it was or has
      been changed at this very tick of the clock. */
  lemma InterruptedPoll(w: World, e: Event)
    requires Coherent(w) && e.Poll? && Legal(w, e)
    ensures Coherent(Do(w, e)) <==>
              e.n == 0 || forall i :: e.n <= i < |e.all| ==> Agrees(w, e.all[i].id) || ChangedNow(w, e.all[i].id)
  {
    PollBase(w, e);
    assert DistinctRows(e.all);
    hide Agrees, Base, Do, Reads;
    BaseTimes(w);
    SameTable(w, e);
    var w' := Do(w, e);
    forall id | id in w.table
      ensures Agrees(w', id) || Due(w', id) <==>
              Mentions(e.all[..e.n], id) || Agrees(w, id) || (if e.n == 0 then Due(w, id) else ChangedNow(w, id))
    {
      AgreesAfter(w, e, id);
    }
    forall i | e.n <= i < |e.all| ensures Due(w, e.all[i].id) && !Mentions(e.all[..e.n], e.all[i].id) {
      assert Mentions(e.all, e.all[i].id);
      MentionsSplit(e.all, e.n, e.all[i].id);
    }
    forall id | id in w.table && Due(w, id) ensures Mentions(e.all[..e.n], id) ||
        exists i :: e.n <= i < |e.all| && e.all[i].id == id
    {
      MentionsSplit(e.all, e.n, id);
    }
  }

  lemma BaseTimes(w: World)
    requires Base(w)
    ensures forall id :: id in w.table ==> w.table[id].optTime <= w.clock
  {
  }

  lemma SameTable(w: World, e: Event)
    requires e.Poll? || e.Reload?
    ensures Do(w, e).table == w.table && Do(w, e).clock == w.clock
  {
  }

  // ---- A row that is missed ----

  /** The row has been changed unnoticed: the list is wrong about it, and it is not due. */
  ghost predicate Stale(w: World, id: int) {
    id in w.table && !Agrees(w, id) && !Due(w, id)
  }

  /** Nothing but another change of the row itself, or a reload, makes it right again: no
      passing of time, no change of other rows and no poll, complete or not. */
  lemma StaleStays(w: World, e: Event, id: int)
    requires Base(w) && Legal(w, e) && Stale(w, id) && !e.Reload? && !(e.Change? && e.id == id)
    ensures Stale(Do(w, e), id)
  {
    EventBase(w, e);
    if e.Poll? {
      AgreesAfter(w, e, id);
      MentionsSplit(e.all, e.n, id);
    }
  }

  /** The error that does it: two rows have changed, the second is not fetched, and the
      watermark has moved past it. */
  lemma ErrorCanLoseAChange() returns (w: World, e: Event)
    ensures Coherent(w) && e.Poll? && Legal(w, e) && e.code != 1403
    ensures exists id :: Stale(Do(w, e), id)
  {
    var one, two := Row(1, [], ["new"], 1, 20), Row(2, [], ["new"], 1, 20);
    var t1, t2 := Task(1, [], ["old"], 1), Task(2, [], ["old"], 1);
    w := World(map[1 := Rec([], ["new"], 1, 10), 2 := Rec([], ["new"], 1, 10)], 20, [t1, t2], 5);
    e := Poll([one, two], 1, -3113);
    assert Mentions(e.all, 1) by { assert e.all[0].id == 1; }
    assert Mentions(e.all, 2) by { assert e.all[1].id == 2; }
    assert AnswersRefresh(w, e.all);
    Fetched(w, e.all, 1);
    AgreesAfter(w, e, 2);
    LookupCons(t1, [t2], 2);
    assert [t1] + [t2] == w.list && t2 != TaskAt(w, 2);
    PollBase(w, e);
    assert Stale(Do(w, e), 2);
  }

  // ---- The first load ----

  /** The world before the first load. */
  ghost predicate Unloaded(w: World) {
    w.list == [] && 0 !in w.table && forall id :: id in w.table ==> w.table[id].optTime <= w.clock
  }

  /** The world after a first load that got the first n rows of its answer. */
  function AfterLoad(w: World, rows: seq<Row>, n: nat): World
    requires n <= |rows|
  {
    w.(list := Loaded([], rows[..n]), g := Watermark(w.g, rows[..n]))
  }

  lemma TasksOfIds(w: World, rows: seq<Row>)
    requires Reads(w, rows)
    ensures forall i :: 0 <= i < |rows| ==> TasksOf(rows)[i].id in w.table
    ensures |TasksOf(rows)| == |rows|
  {
    forall i | 0 <= i < |rows| ensures TasksOf(rows)[i].id in w.table { assert IsCurrent(w, rows[i]); }
  }

  /** What an id finds among the tasks of rows of the table. */
  lemma FoundInTasks(w: World, rows: seq<Row>, id: int)
    requires Reads(w, rows)
    ensures Mentions(rows, id) ==> id in w.table
    ensures Lookup(TasksOf(rows), id) == if Mentions(rows, id) then Some(TaskAt(w, id)) else None
  {
    var l := TasksOf(rows);
    var k := Find(l, id);
    if Mentions(rows, id) {
      var i :| 0 <= i < |rows| && rows[i].id == id;
      assert l[i].id == id && IsCurrent(w, rows[k]);
    }
  }

  lemma LoadBase(w: World, rows: seq<Row>, n: nat)
    requires Unloaded(w) && AnswersLoad(w, rows) && n <= |rows|
    ensures var w' := AfterLoad(w, rows, n);
            && w'.table == w.table && w'.clock == w.clock && (Base(w') <==> n > 0)
            && w'.list == TasksOf(rows[..n]) && (n > 0 ==> w'.g == w.clock)
  {
    Fetched(w, rows, n);
    TasksOfIds(w, rows[..n]);
  }

  /** After such a load a row agrees unless it is in use and was not got. */
  lemma AgreesAfterLoad(w: World, rows: seq<Row>, n: nat, id: int)
    requires Unloaded(w) && AnswersLoad(w, rows) && n <= |rows| && id in w.table
    ensures Agrees(AfterLoad(w, rows, n), id) <==> !exists i :: n <= i < |rows| && rows[i].id == id
  {
    LoadBase(w, rows, n);
    Fetched(w, rows, n);
    FoundInTasks(w, rows[..n], id);
    MentionsSplit(rows, n, id);
  }

  /** The first load leaves everything to the polls exactly when it got a row and every row
      in use that it did not get has been changed at this very tick of the clock. */
  lemma InterruptedLoad(w: World, rows: seq<Row>, n: nat)
    requires Unloaded(w) && AnswersLoad(w, rows) && n <= |rows|
    ensures Coherent(AfterLoad(w, rows, n)) <==> n > 0 && forall i :: n <= i < |rows| ==> ChangedNow(w, rows[i].id)
  {
    LoadBase(w, rows, n);
    InTable(w, rows);
    assert forall id :: id in w.table ==> w.table[id].optTime <= w.clock;
    hide Agrees, Base, AnswersLoad, Unloaded, AfterLoad;
    if n > 0 {
      forall id | id in w.table ensures Agrees(AfterLoad(w, rows, n), id) <==>
          !exists i :: n <= i < |rows| && rows[i].id == id
      {
        AgreesAfterLoad(w, rows, n, id);
      }
    }
  }

  lemma InTable(w: World, rows: seq<Row>)
    requires AnswersLoad(w, rows)
    ensures forall i :: 0 <= i < |rows| ==> rows[i].id in w.table
  {
    forall i | 0 <= i < |rows| ensures rows[i].id in w.table { assert IsCurrent(w, rows[i]); }
  }

  /** The first load, into an empty list, that finds a row and reaches the end. */
  lemma FirstLoad(w: World, rows: seq<Row>)
    requires Unloaded(w) && AnswersLoad(w, rows) && rows != []
    ensures Coherent(AfterLoad(w, rows, |rows|)) && AllAgree(AfterLoad(w, rows, |rows|))
  {
    InterruptedLoad(w, rows, |rows|);
    forall id | id in w.table ensures Agrees(AfterLoad(w, rows, |rows|), id) {
      AgreesAfterLoad(w, rows, |rows|, id);
    }
  }

  // ---- Loading again ----

  /** The world after a reload that got rows: the first task and then theirs. */
  lemma ReloadBase(w: World, e: Event)
    requires Base(w) && e.Reload? && Legal(w, e) && e.n > 0
    ensures var w' := Do(w, e);
            && Base(w') && w'.table == w.table && w'.clock == w'.g == w.clock
            && w'.list == [w.list[0]] + TasksOf(e.all[..e.n])
    ensures w.list[0].id in w.table
  {
    Fetched(w, e.all, e.n);
    TasksOfIds(w, e.all[..e.n]);
  }

  /** After it, the first task's row agrees if it did, also when it was got again; any
      other agrees unless it is in use and was not got. */
  lemma AgreesAfterReload(w: World, e: Event, id: int)
    requires Base(w) && e.Reload? && Legal(w, e) && e.n > 0 && id in w.table
    ensures Agrees(Do(w, e), id) <==>
            if id == w.list[0].id then Agrees(w, id) else !exists i :: e.n <= i < |e.all| && e.all[i].id == id
  {
    ReloadBase(w, e);
    Fetched(w, e.all, e.n);
    FoundInTasks(w, e.all[..e.n], id);
    MentionsSplit(e.all, e.n, id);
    LookupCons(w.list[0], TasksOf(e.all[..e.n]), id);
    LookupCons(w.list[0], w.list[1..], id);
    assert [w.list[0]] + w.list[1..] == w.list;
  }

  lemma LookupCons(t: Task, l: seq<Task>, id: int)
    ensures Lookup([t] + l, id) == if t.id == id then Some(t) else Lookup(l, id)
  {
    assert ([t] + l)[1..] == l;
  }

  /** A reload that got rows leaves everything to the polls exactly when the first task
      agreed or its row changed at this very tick, and so did every other row in use that
      it did not get. */
  lemma InterruptedReload(w: World, e: Event)
    requires Base(w) && e.Reload? && Legal(w, e) && e.n > 0
    ensures var h := w.list[0].id;
            Coherent(Do(w, e)) <==>
              && (Agrees(w, h) || ChangedNow(w, h))
              && forall i :: e.n <= i < |e.all| && e.all[i].id != h ==> ChangedNow(w, e.all[i].id)
  {
    ReloadBase(w, e);
    BaseTimes(w);
    InTable(w, e.all);
    hide Agrees, Base, AnswersLoad, Do;
    var w', h := Do(w, e), w.list[0].id;
    forall id | id in w.table
      ensures Agrees(w', id) <==>
          if id == h then Agrees(w, id) else !exists i :: e.n <= i < |e.all| && e.all[i].id == id
    {
      AgreesAfterReload(w, e, id);
    }
  }

  /** A reload that reaches the end leaves everything to the polls exactly when, having found
      a row, it left the first task right or its row changed at this very tick; in use or
      not makes no difference.  Having found none, it changes nothing. */
  lemma CompleteReload(w: World, e: Event)
    requires Base(w) && e.Reload? && Legal(w, e) && e.code == 1403
    ensures Coherent(Do(w, e)) <==>
            if e.all == [] then Coherent(w) else Agrees(w, w.list[0].id) || ChangedNow(w, w.list[0].id)
  {
    assert e.all[..e.n] == e.all;
    if e.all != [] {
      InterruptedReload(w, e);
    }
  }

  /** Such a reload makes every row right but the first task's, which stays as it was. */
  lemma ReloadMends(w: World, e: Event, id: int)
    requires Base(w) && e.Reload? && Legal(w, e) && e.code == 1403 && e.all != [] && id in w.table
    ensures Agrees(Do(w, e), id) <==> id != w.list[0].id || Agrees(w, id)
  {
    AgreesAfterReload(w, e, id);
  }

  // ---- Runs ----

  function DoAll(w: World, events: seq<Event>): World
    decreases |events|
  {
    if events == [] then w else DoAll(Do(w, events[0]), events[1..])
  }

  ghost predicate LegalRun(w: World, events: seq<Event>)
    decreases |events|
  {
    events == [] || (Legal(w, events[0]) && LegalRun(Do(w, events[0]), events[1..]))
  }

  /** A poll or reload that got no row changes nothing.  Otherwise the rows it did not get
      must be right without it or still be due, and a reload must find the first task so. */
  ghost predicate Harmless(w: World, e: Event) {
    match e
    case Poll(all, n, _) =>
      n == 0 || forall i :: n <= i < |all| ==> Agrees(w, all[i].id) || ChangedNow(w, all[i].id)
    case Reload(all, n, _) =>
      n == 0 || (w.list != [] && var h := w.list[0].id;
                 && (Agrees(w, h) || ChangedNow(w, h))
                 && forall i :: n <= i < |all| && all[i].id != h ==> ChangedNow(w, all[i].id))
    case _ => true
  }

  ghost predicate HarmlessRun(w: World, events: seq<Event>)
    decreases |events|
  {
    events == [] || (Harmless(w, events[0]) && HarmlessRun(Do(w, events[0]), events[1..]))
  }

  /** Every state of the run is coherent. */
  ghost predicate CoherentThroughout(w: World, events: seq<Event>)
    decreases |events|
  {
    Coherent(w) && (events != [] ==> CoherentThroughout(Do(w, events[0]), events[1..]))
  }

  lemma EventCoherent(w: World, e: Event)
    requires Coherent(w) && Legal(w, e)
    ensures Coherent(Do(w, e)) <==> Harmless(w, e)
  {
    hide Agrees, Upsert, Loaded, Watermark, Reads;
    match e
    case Tick(_) =>
      TimeCoherent(w, e);
    case Change(_, _, _, _) =>
      TimeCoherent(w, e);
    case Poll(_, _, _) =>
      InterruptedPoll(w, e);
    case Reload(all, n, _) =>
      if n == 0 {
        NothingGot(w, e);
      } else {
        InterruptedReload(w, e);
      }
  }

  lemma NothingGot(w: World, e: Event)
    requires e.Reload? && e.n == 0
    ensures Do(w, e) == w
  {
    assert e.all[..0] == [];
  }

  lemma TimeCoherent(w: World, e: Event)
    requires Coherent(w) && Legal(w, e) && (e.Tick? || e.Change?)
    ensures Coherent(Do(w, e))
  {
    EventBase(w, e);
    var w' := Do(w, e);
    forall id | id in w'.table ensures Agrees(w', id) || Due(w', id) {
      if !(e.Change? && e.id == id) { assert Agrees(w, id) || Due(w, id); }
    }
  }

  /** From the first load on, with whatever changes, polls and reloads, complete or not, in
      between: in every state every row agrees with the list or is due exactly when every
      event was harmless; and then right after a poll that reaches the end every row
      agrees. */
  lemma {:induction false} PollingKeepsUp(w: World, events: seq<Event>)
    requires Coherent(w) && LegalRun(w, events)
    ensures CoherentThroughout(w, events) <==> HarmlessRun(w, events)
    ensures HarmlessRun(w, events) && events != [] && events[|events| - 1].Poll? && events[|events| - 1].code == 1403
            ==> AllAgree(DoAll(w, events))
    decreases |events|
  {
    if events != [] {
      EventCoherent(w, events[0]);
      if Harmless(w, events[0]) {
        if events[0].Poll? && events[0].code == 1403 { CompletePoll(w, events[0]); }
        PollingKeepsUp(Do(w, events[0]), events[1..]);
      }
    }
  }

  ghost predicate NoReload(events: seq<Event>) {
    forall i :: 0 <= i < |events| ==> !events[i].Reload?
  }

  /** A missed change stays missed over every run that neither changes the row again nor
      loads the list anew. */
  lemma {:induction false} MissedForGood(w: World, events: seq<Event>, id: int)
    requires Base(w) && Stale(w, id) && LegalRun(w, events) && NoReload(events)
    requires forall i :: 0 <= i < |events| ==> !(events[i].Change? && events[i].id == id)
    ensures Stale(DoAll(w, events), id)
    decreases |events|
  {
    if events != [] {
      EventBase(w, events[0]);
      StaleStays(w, events[0], id);
      MissedForGood(Do(w, events[0]), events[1..], id);
    }
  }

  lemma {:induction false} ShadowedForGood(w: World, events: seq<Event>, i: nat, j: nat)
    requires NoReload(events) && i < j < |w.list| && w.list[i].id == w.list[j].id
    ensures j < |DoAll(w, events).list| && DoAll(w, events).list[j] == w.list[j]
    decreases |events|
  {
    if events != [] {
      var e := events[0];
      if e.Poll? && e.n <= |e.all| {
        ShadowedStays(w.list, e.all[..e.n], i, j);
      }
      ShadowedForGood(Do(w, e), events[1..], i, j);
    }
  }

  /** When a reload gets the first task again, a second copy of it stands in the list as
      the table had it then, and stays so, whatever changes and polls come, until the next
      reload: a refresh finds the first copy.  No lookup sees it, but a scan of the whole
      list does. */
  lemma SecondCopyIsFrozen(w: World, e: Event, events: seq<Event>)
    requires Base(w) && e.Reload? && Legal(w, e) && Mentions(e.all[..e.n], w.list[0].id) && NoReload(events)
    ensures var l, h := DoAll(Do(w, e), events).list, w.list[0].id;
            exists j :: 0 < j < |l| && h in w.table && IsRow(l[j], w, h)
  {
    var w', got, h := Do(w, e), e.all[..e.n], w.list[0].id;
    assert e.n > 0;
    ReloadBase(w, e);
    var i :| 0 <= i < |got| && got[i].id == h;
    assert IsCurrent(w, e.all[i]);
    assert w'.list[0] == w.list[0] && w'.list[i + 1] == TaskOf(got[i]) == TaskAt(w, h);
    ShadowedForGood(w', events, 0, i + 1);
  }
}
