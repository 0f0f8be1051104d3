/** The list of tasks of src/dbprocess.pc as a sequence: what a refresh and the first load
    make of the rows of a cursor. */
module TaskList {
  import opened Counting
  import opened Sequences

  /** A node of the list: the id and the rest of its schedule, and its other settings. */
  datatype Task = Task(id: int, sch: seq<string>, settings: seq<string>, flag: int)

  /** A fetched row, with the database's time of the fetch. */
  datatype Row = Row(id: int, sch: seq<string>, settings: seq<string>, flag: int, dbTime: int)

  function TaskOf(row: Row): Task {
    Task(row.id, row.sch, row.settings, row.flag)
  }

  /** The first position with the id, or the length of the list. */
  function Find(list: seq<Task>, id: int): (k: nat)
    ensures k <= |list|
    ensures forall i :: 0 <= i < k ==> list[i].id != id
    ensures k < |list| ==> list[k].id == id
  {
    if list == [] || list[0].id == id then 0 else 1 + Find(list[1..], id)
  }

  datatype Option<T> = None | Some(value: T)

  /** The task with the id, as get_task_item_by_id finds it: the first of them. */
  function Lookup(list: seq<Task>, id: int): Option<Task> {
    var k := Find(list, id);
    if k < |list| then Some(list[k]) else None
  }

  // ---- create_task_item_list_by_db_updated ----

  /** One row: overwritten in place or appended; of id 0 it only blanks the schedule of a
      node of that id, should there be one. */
  function ApplyRow(list: seq<Task>, row: Row): seq<Task> {
    var k := Find(list, row.id);
    if row.id == 0 then (if k < |list| then list[k := list[k].(sch := [])] else list)
    else if k < |list| then list[k := TaskOf(row)]
    else list + [TaskOf(row)]
  }

  function Upsert(list: seq<Task>, rows: seq<Row>): seq<Task> {
    if rows == [] then list
    else ApplyRow(Upsert(list, rows[..|rows| - 1]), rows[|rows| - 1])
  }

  /** The rows that name a task. */
  function Named(rows: seq<Row>): seq<Row> {
    if rows == [] then []
    else if rows[|rows| - 1].id == 0 then Named(rows[..|rows| - 1])
    else Named(rows[..|rows| - 1]) + [rows[|rows| - 1]]
  }

  /** The new watermark: the time of the last row that names a task. */
  function Watermark(g: int, rows: seq<Row>): int {
    var n := Named(rows);
    if n == [] then g else n[|n| - 1].dbTime
  }

  // ---- create_task_item_list_by_db ----

  function TasksOf(rows: seq<Row>): (r: seq<Task>)
    ensures |r| == |rows|
  {
    seq(|rows|, i requires 0 <= i < |rows| => TaskOf(rows[i]))
  }

  /** The first load appends the rows behind the first node, whatever is behind that. */
  function Loaded(list: seq<Task>, rows: seq<Row>): seq<Task> {
    var n := Named(rows);
    if n == [] then list else (if list == [] then [] else [list[0]]) + TasksOf(n)
  }

  // ---- The list as an ordered map ----

  function Ids(list: seq<Task>): (r: seq<int>)
    ensures |r| == |list| && forall i :: 0 <= i < |list| ==> r[i] == list[i].id
  {
    seq(|list|, i requires 0 <= i < |list| => list[i].id)
  }

  /** A list as the program makes them: no id twice, and no id 0. */
  ghost predicate Proper(list: seq<Task>) {
    NoDup(Ids(list)) && 0 !in Ids(list)
  }

  /** The task of every id. */
  function AsMap(list: seq<Task>): map<int, Task> {
    if list == [] then map[] else AsMap(list[..|list| - 1])[list[|list| - 1].id := list[|list| - 1]]
  }

  function Updates(m: map<int, Task>, rows: seq<Row>): map<int, Task> {
    if rows == [] then m
    else
      var r := rows[|rows| - 1];
      var m' := Updates(m, rows[..|rows| - 1]);
      if r.id == 0 then m' else m'[r.id := TaskOf(r)]
  }

  /** The ids that come to be listed, in the order of their first rows. */
  function NewIds(ids: seq<int>, rows: seq<Row>): seq<int> {
    if rows == [] then []
    else
      var r := rows[|rows| - 1];
      var before := NewIds(ids, rows[..|rows| - 1]);
      if r.id == 0 || r.id in ids || r.id in before then before else before + [r.id]
  }

  lemma FindInIds(list: seq<Task>, id: int)
    ensures id in Ids(list) <==> Find(list, id) < |list|
  {
    var k := Find(list, id);
    if k < |list| { assert Ids(list)[k] == id; }
  }

  lemma {:induction false} AsMapFacts(list: seq<Task>)
    requires NoDup(Ids(list))
    ensures forall i :: 0 <= i < |list| ==> list[i].id in AsMap(list) && AsMap(list)[list[i].id] == list[i]
    ensures forall id :: id in AsMap(list) <==> id in Ids(list)
    decreases |list|
  {
    if list != [] {
      var n := |list| - 1;
      var before := list[..n];
      assert Ids(before) == Ids(list)[..n] && Ids(list) == Ids(before) + [list[n].id];
      AsMapFacts(before);
      forall i | 0 <= i < n ensures list[i].id in AsMap(list) && AsMap(list)[list[i].id] == list[i] {
        assert before[i] == list[i] && Ids(list)[i] != Ids(list)[n];
      }
    }
  }

  // ---- One row ----

  lemma ApplyRowIds(list: seq<Task>, row: Row)
    requires Proper(list)
    ensures Proper(ApplyRow(list, row))
    ensures Ids(ApplyRow(list, row)) == if row.id == 0 || row.id in Ids(list) then Ids(list) else Ids(list) + [row.id]
  {
    FindInIds(list, row.id);
    if row.id !in Ids(list) { AppendNoDup(Ids(list), row.id); }
  }

  lemma OverwriteMap(list: seq<Task>, k: nat, t: Task)
    requires NoDup(Ids(list)) && k < |list| && list[k].id == t.id
    ensures Ids(list[k := t]) == Ids(list)
    ensures AsMap(list[k := t]) == AsMap(list)[t.id := t]
  {
    var l', m' := list[k := t], AsMap(list)[t.id := t];
    assert Ids(l') == Ids(list);
    AsMapFacts(list);
    AsMapFacts(l');
    assert Ids(list)[k] == t.id && t.id in AsMap(list);
    forall id ensures id in AsMap(l') <==> id in m' {
      assert id in AsMap(l') <==> id in Ids(l');
    }
    forall id | id in m' ensures id in AsMap(l') && AsMap(l')[id] == m'[id] {
      var i :| 0 <= i < |list| && Ids(list)[i] == id;
      assert l'[i].id == id && (i == k <==> id == t.id);
    }
  }

  lemma ApplyRowMap(list: seq<Task>, row: Row)
    requires Proper(list)
    ensures AsMap(ApplyRow(list, row)) == if row.id == 0 then AsMap(list) else AsMap(list)[row.id := TaskOf(row)]
  {
    FindInIds(list, row.id);
    var k := Find(list, row.id);
    if row.id != 0 && k < |list| {
      OverwriteMap(list, k, TaskOf(row));
    } else if row.id != 0 {
      assert (list + [TaskOf(row)])[..|list|] == list;
    }
  }

  // ---- A refresh ----

  /** From a proper list, any rows: the list stays proper, keeps its order, gets its new
      ids at the end in the order they come, and as a map is updated by the rows that name
      a task, in order. */
  lemma {:induction false} UpsertIsMapUpdate(list: seq<Task>, rows: seq<Row>)
    requires Proper(list)
    ensures Proper(Upsert(list, rows))
    ensures Ids(Upsert(list, rows)) == Ids(list) + NewIds(Ids(list), rows)
    ensures AsMap(Upsert(list, rows)) == Updates(AsMap(list), rows)
    decreases |rows|
  {
    if rows == [] {
      assert Ids(list) + [] == Ids(list);
    } else {
      var before, r := rows[..|rows| - 1], rows[|rows| - 1];
      UpsertIsMapUpdate(list, before);
      ApplyRowIds(Upsert(list, before), r);
      ApplyRowMap(Upsert(list, before), r);
      assert Ids(Upsert(list, before)) == Ids(list) + NewIds(Ids(list), before);
      assert (Ids(list) + NewIds(Ids(list), before)) + [r.id] == Ids(list) + (NewIds(Ids(list), before) + [r.id]);
    }
  }

  // ---- A refresh of any list, its ids distinct or not ----

  ghost predicate Mentions(rows: seq<Row>, id: int) {
    exists i :: 0 <= i < |rows| && rows[i].id == id
  }

  ghost function LastRow(rows: seq<Row>, id: int): (r: Row)
    requires Mentions(rows, id)
    ensures r in rows && r.id == id
  {
    var n := |rows| - 1;
    if rows[n].id == id then rows[n] else assert Mentions(rows[..n], id); LastRow(rows[..n], id)
  }

  /** What becomes of the task found under an id: it is the last row's with that id, if
      there is one; rows of id 0 only blank its schedule. */
  ghost function After(found: Option<Task>, rows: seq<Row>, id: int): Option<Task> {
    if !Mentions(rows, id) then found
    else if id != 0 then Some(TaskOf(LastRow(rows, id)))
    else if found.None? then None
    else Some(found.value.(sch := []))
  }

  lemma AfterOneMore(found: Option<Task>, rows: seq<Row>, row: Row, id: int)
    ensures After(found, rows + [row], id) ==
            if row.id != id then After(found, rows, id) else After(After(found, rows, id), [row], id)
  {
    var all := rows + [row];
    assert all[..|rows|] == rows && all[|rows|] == row && [row][0] == row;
    if row.id == id {
      assert Mentions(all, id) && Mentions([row], id);
    } else if Mentions(rows, id) {
      var i :| 0 <= i < |rows| && rows[i].id == id;
      assert all[i].id == id;
    }
  }

  /** An overwritten task keeps its id, and nothing else moves. */
  lemma ApplyRowPlace(list: seq<Task>, row: Row, j: nat)
    requires j < |list|
    ensures var l' := ApplyRow(list, row);
            && j < |l'| && l'[j].id == list[j].id && Find(l', list[j].id) == Find(list, list[j].id)
            && (j != Find(list, row.id) ==> l'[j] == list[j])
    ensures |ApplyRow(list, row)| >= |list|
  {
    SameFind(list, ApplyRow(list, row), list[j].id);
  }

  lemma SameFind(a: seq<Task>, b: seq<Task>, id: int)
    requires |a| <= |b| && forall i :: 0 <= i < |a| ==> a[i].id == b[i].id
    requires forall i :: |a| <= i < |b| ==> Find(a, id) < |a| || b[i].id != id
    ensures Find(b, id) == if Find(a, id) < |a| then Find(a, id) else |b|
  {
  }

  lemma LookupAfterRow(list: seq<Task>, row: Row, id: int)
    ensures Lookup(ApplyRow(list, row), id) ==
            if row.id != id then Lookup(list, id) else After(Lookup(list, id), [row], id)
  {
    assert [row][0] == row;
    var l' := ApplyRow(list, row);
    if row.id != id || Find(list, id) < |list| || id == 0 {
      SameFind(list, l', id);
    } else {
      assert l'[|list|].id == id && Find(l', id) == |list|;
    }
  }

  /** From any list, any rows, whichever id is looked up. */
  lemma {:induction false} UpsertLookup(list: seq<Task>, rows: seq<Row>, id: int)
    ensures Lookup(Upsert(list, rows), id) == After(Lookup(list, id), rows, id)
    decreases |rows|
  {
    if rows != [] {
      var before, r := rows[..|rows| - 1], rows[|rows| - 1];
      assert rows == before + [r];
      UpsertLookup(list, before, id);
      LookupAfterRow(Upsert(list, before), r, id);
      AfterOneMore(Lookup(list, id), before, r, id);
    }
  }

  // ---- The same field by field ----

  /** The row names a task, and no later one names it too. */
  predicate IsLatest(rows: seq<Row>, k: nat) {
    k < |rows| && rows[k].id != 0 && forall j :: k < j < |rows| ==> rows[j].id != rows[k].id
  }

  lemma {:induction false} LatestRow(rows: seq<Row>, k: nat)
    requires IsLatest(rows, k)
    ensures Mentions(rows, rows[k].id) && LastRow(rows, rows[k].id) == rows[k]
    decreases |rows|
  {
    if k < |rows| - 1 {
      LatestRow(rows[..|rows| - 1], k);
    }
  }

  /** After a refresh of any list, the id of a row that names a task finds, field for field,
      what the last row with that id holds. */
  lemma UpsertFields(list: seq<Task>, rows: seq<Row>, k: nat)
    requires IsLatest(rows, k)
    ensures var found := Lookup(Upsert(list, rows), rows[k].id);
            && found.Some? && found.value.id == rows[k].id && found.value.sch == rows[k].sch
            && found.value.settings == rows[k].settings && found.value.flag == rows[k].flag
  {
    UpsertLookup(list, rows, rows[k].id);
    LatestRow(rows, k);
  }

  /** An id that no row has finds what it found before.  Rows of id 0 list nothing, and of a
      task of that id, should there be one, they only blank the schedule. */
  lemma UpsertLeaves(list: seq<Task>, rows: seq<Row>, id: int)
    ensures (forall i :: 0 <= i < |rows| ==> rows[i].id != id) ==> Lookup(Upsert(list, rows), id) == Lookup(list, id)
    ensures var found, found' := Lookup(list, 0), Lookup(Upsert(list, rows), 0);
            && (found.None? <==> found'.None?)
            && (found.Some? ==> && found'.value.id == 0 && found'.value.settings == found.value.settings
                                && found'.value.flag == found.value.flag
                                && ((exists i :: 0 <= i < |rows| && rows[i].id == 0) ==> found'.value.sch == []))
  {
    UpsertLookup(list, rows, id);
    UpsertLookup(list, rows, 0);
  }

  predicate Names(r: Row) { r.id != 0 }

  /** How many of the first k rows name a task. */
  function NamedBefore(rows: seq<Row>, k: nat): nat
    requires k <= |rows|
  {
    Count(rows[..k], Names)
  }

  /** The rows that name a task are those, in their order. */
  lemma {:induction false} NamedAt(rows: seq<Row>)
    ensures |Named(rows)| == NamedBefore(rows, |rows|)
    ensures forall k :: 0 <= k < |rows| && rows[k].id != 0 ==>
              NamedBefore(rows, k) < |Named(rows)| && Named(rows)[NamedBefore(rows, k)] == rows[k]
    decreases |rows|
  {
    assert rows[..|rows|] == rows;
    if rows != [] {
      var before := rows[..|rows| - 1];
      NamedAt(before);
      CountLast(rows, Names);
      assert before[..|before|] == before;
      forall k | 0 <= k < |before| ensures before[..k] == rows[..k] && before[k] == rows[k] {}
    }
  }

  lemma {:induction false} NamedRows(rows: seq<Row>)
    ensures forall r :: r in Named(rows) <==> r in rows && r.id != 0
    decreases |rows|
  {
    if rows != [] {
      var n := |rows| - 1;
      NamedRows(rows[..n]);
      assert rows == rows[..n] + [rows[n]];
    }
  }

  /** The new watermark is the time of the last row that names a task; without one it stays. */
  lemma WatermarkIs(g: int, rows: seq<Row>)
    ensures forall k :: 0 <= k < |rows| && rows[k].id != 0 && (forall j :: k < j < |rows| ==> rows[j].id == 0) ==>
              Watermark(g, rows) == rows[k].dbTime
    ensures (forall k :: 0 <= k < |rows| ==> rows[k].id == 0) ==> Watermark(g, rows) == g
  {
    NamedAt(rows);
    NamedRows(rows);
    forall k | 0 <= k < |rows| && rows[k].id != 0 && (forall j :: k < j < |rows| ==> rows[j].id == 0)
      ensures NamedBefore(rows, k) == |Named(rows)| - 1
    {
      assert rows == rows[..k + 1] + rows[k + 1..] && rows[..|rows|] == rows;
      CountAppend(rows[..k + 1], rows[k + 1..], Names);
      CountZero(rows[k + 1..], Names);
      CountLast(rows[..k + 1], Names);
      assert rows[..k + 1][..k] == rows[..k];
    }
  }

  /** What a load leaves: the first task there was, and behind it, in their order and field
      for field, the rows that name a task. */
  lemma LoadedFields(list: seq<Task>, rows: seq<Row>, k: nat)
    requires k < |rows| && rows[k].id != 0
    ensures var l, first := Loaded(list, rows), if list == [] then 0 else 1;
            var i := first + NamedBefore(rows, k);
            && (list != [] ==> l != [] && l[0] == list[0])
            && |l| == first + NamedBefore(rows, |rows|)
            && i < |l| && l[i].id == rows[k].id && l[i].sch == rows[k].sch
            && l[i].settings == rows[k].settings && l[i].flag == rows[k].flag
  {
    NamedAt(rows);
    var n := Named(rows);
    hide Named, NamedBefore, TasksOf;
    assert n != [];
    TasksAt(n, NamedBefore(rows, k));
  }

  lemma TasksAt(n: seq<Row>, i: nat)
    requires i < |n|
    ensures |TasksOf(n)| == |n|
    ensures var t := TasksOf(n)[i];
            t.id == n[i].id && t.sch == n[i].sch && t.settings == n[i].settings && t.flag == n[i].flag
  {
  }

  lemma LoadedNothing(list: seq<Task>, rows: seq<Row>)
    requires forall k :: 0 <= k < |rows| ==> rows[k].id == 0
    ensures Loaded(list, rows) == list
  {
    NamedAt(rows);
    CountZero(rows, Names);
    assert rows[..|rows|] == rows;
  }

  /** A refresh moves no task, and does not touch one that has another with its id before it. */
  lemma {:induction false} UpsertPlace(list: seq<Task>, rows: seq<Row>, j: nat)
    requires j < |list|
    ensures var l' := Upsert(list, rows);
            && j < |l'| && l'[j].id == list[j].id && Find(l', list[j].id) == Find(list, list[j].id)
            && (j != Find(list, list[j].id) ==> l'[j] == list[j])
    ensures |Upsert(list, rows)| >= |list|
    decreases |rows|
  {
    if rows != [] {
      var before, r := rows[..|rows| - 1], rows[|rows| - 1];
      UpsertPlace(list, before, j);
      hide Find, ApplyRow;
      ApplyRowPlace(Upsert(list, before), r, j);
    }
  }

  /** Rows of tasks that are listed add none. */
  lemma {:induction false} KnownRows(list: seq<Task>, rows: seq<Row>)
    requires forall i :: 0 <= i < |rows| ==> rows[i].id == 0 || Find(list, rows[i].id) < |list|
    ensures |Upsert(list, rows)| == |list|
    decreases |rows|
  {
    if rows != [] {
      var before, r := rows[..|rows| - 1], rows[|rows| - 1];
      KnownRows(list, before);
      if r.id != 0 { UpsertPlace(list, before, Find(list, r.id)); }
    }
  }

  /** Polling again what has just been polled changes nothing, whatever the list and the
      rows, ids that come twice included. */
  lemma UpsertTwice(list: seq<Task>, rows: seq<Row>)
    ensures Upsert(Upsert(list, rows), rows) == Upsert(list, rows)
  {
    hide Upsert;
    var once := Upsert(list, rows);
    var twice := Upsert(once, rows);
    forall i | 0 <= i < |rows| ensures rows[i].id == 0 || Find(once, rows[i].id) < |once| {
      UpsertLookup(list, rows, rows[i].id);
    }
    KnownRows(once, rows);
    forall j | 0 <= j < |once| ensures twice[j] == once[j] {
      var id := once[j].id;
      UpsertPlace(once, rows, j);
      UpsertLookup(list, rows, id);
      UpsertLookup(once, rows, id);
    }
  }

  /** A task behind another one with its id is out of a refresh's reach, whatever the rows. */
  lemma ShadowedStays(list: seq<Task>, rows: seq<Row>, i: nat, j: nat)
    requires i < j < |list| && list[i].id == list[j].id
    ensures |Upsert(list, rows)| >= |list| && Upsert(list, rows)[j] == list[j]
    ensures Upsert(list, rows)[i].id == list[i].id
  {
    UpsertPlace(list, rows, i);
    UpsertPlace(list, rows, j);
  }

  /** On a list without repetitions the first task with an id is the map's. */
  lemma LookupIsMap(list: seq<Task>, id: int)
    requires NoDup(Ids(list))
    ensures Lookup(list, id) == if id in AsMap(list) then Some(AsMap(list)[id]) else None
  {
    AsMapFacts(list);
    FindInIds(list, id);
  }

  ghost predicate DistinctRows(rows: seq<Row>) {
    forall i, j :: 0 <= i < j < |rows| ==> rows[i].id != rows[j].id
  }

  // ---- The first load ----

  lemma AppendDistinctRow(rows: seq<Row>, r: Row)
    requires DistinctRows(rows) && forall i :: 0 <= i < |rows| ==> rows[i].id != r.id
    ensures DistinctRows(rows + [r])
  {
  }

  lemma {:induction false} NamedDistinct(rows: seq<Row>)
    requires DistinctRows(rows)
    ensures DistinctRows(Named(rows))
    decreases |rows|
  {
    if rows != [] {
      var n := |rows| - 1;
      NamedDistinct(rows[..n]);
      NamedRows(rows[..n]);
      var before := Named(rows[..n]);
      forall i | 0 <= i < |before| ensures before[i].id != rows[n].id {
        assert before[i] in rows[..n];
      }
      AppendDistinctRow(before, rows[n]);
    }
  }

  /** Loading into a list that has tasks already cuts off every task behind the first that
      is not loaded anew, and leaves a proper list exactly when no loaded row has the
      first task's id. */
  lemma LoadAgain(list: seq<Task>, rows: seq<Row>)
    requires Proper(list) && DistinctRows(rows) && list != [] && Named(rows) != []
    ensures Proper(Loaded(list, rows)) <==> forall r :: r in rows ==> r.id != list[0].id
    ensures forall i :: 1 <= i < |list| ==>
              (list[i].id in Ids(Loaded(list, rows)) <==> exists r :: r in rows && r.id == list[i].id)
  {
    NamedRows(rows);
    NamedDistinct(rows);
    var n, l := Named(rows), Loaded(list, rows);
    ConsIds(list[0], n);
    assert Ids(list)[0] == list[0].id && list[0].id in Ids(list);
    forall i | 1 <= i < |list| ensures list[i].id in Ids(l) <==> exists r :: r in rows && r.id == list[i].id {
      assert Ids(list)[i] == list[i].id && list[i].id in Ids(list) && Ids(list)[0] != Ids(list)[i];
    }
  }

  /** The ids of a task and then the tasks of rows. */
  lemma ConsIdsAre(t: Task, n: seq<Row>)
    ensures Ids([t] + TasksOf(n)) == [t.id] + seq(|n|, i requires 0 <= i < |n| => n[i].id)
  {
  }

  lemma ConsIds(t: Task, n: seq<Row>)
    requires DistinctRows(n)
    ensures var ids := Ids([t] + TasksOf(n));
            && (forall id :: id in ids <==> id == t.id || exists r :: r in n && r.id == id)
            && (NoDup(ids) <==> forall r :: r in n ==> r.id != t.id)
  {
    ConsIdsAre(t, n);
    hide Ids, TasksOf;
    var tail := seq(|n|, i requires 0 <= i < |n| => n[i].id);
    forall id ensures id in tail <==> exists r :: r in n && r.id == id {
      if r :| r in n && r.id == id {
        var i :| 0 <= i < |n| && n[i] == r;
        assert tail[i] == id;
      }
    }
    ConsNoDup(t.id, tail);
  }

  lemma ConsNoDup(x: int, l: seq<int>)
    requires NoDup(l)
    ensures NoDup([x] + l) <==> x !in l
  {
    var r := [x] + l;
    if i :| 0 <= i < |l| && l[i] == x {
      assert r[i + 1] == r[0];
    }
  }

  lemma AppendRow(before: seq<Row>, r: Row)
    requires r.id != 0 && forall i :: 0 <= i < |before| ==> before[i].id != r.id
    ensures TasksOf(before + [r]) == TasksOf(before) + [TaskOf(r)]
    ensures ApplyRow(TasksOf(before), r) == TasksOf(before) + [TaskOf(r)]
  {
    var l := TasksOf(before);
    assert Find(l, r.id) == |l|;
  }

  /** Loading into an empty list is refreshing it, and gives a proper list. */
  lemma {:induction false} LoadIntoEmpty(rows: seq<Row>)
    requires DistinctRows(rows)
    ensures Loaded([], rows) == TasksOf(Named(rows)) == Upsert([], rows)
    ensures Proper(Loaded([], rows))
    decreases |rows|
  {
    UpsertIsMapUpdate([], rows);
    if rows != [] {
      var n, r := |rows| - 1, rows[|rows| - 1];
      LoadIntoEmpty(rows[..n]);
      NamedRows(rows[..n]);
      var before := Named(rows[..n]);
      if r.id != 0 {
        forall i | 0 <= i < |before| ensures before[i].id != r.id { assert before[i] in rows[..n]; }
        AppendRow(before, r);
      } else {
        FindInIds(TasksOf(before), 0);
      }
    }
  }
}
