/** The task list of src/dbprocess.pc as linked nodes: the two routines that read a cursor,
    row by row, tied to what they make of the list as a sequence. */
module TaskListClass {
  import opened TaskList

  /** struct TASK_ITEM. */
  class TaskItem {
    var id: int
    var sch: seq<string>
    var settings: seq<string>
    var flag: int
    var next: TaskItem?

    /** As pcalloc gives it. */
    constructor ()
      ensures Value() == Task(0, [], [], 0) && next == null
    {
      id, sch, settings, flag, next := 0, [], [], 0, null;
    }

    ghost function Value(): Task
      reads this
    {
      Task(id, sch, settings, flag)
    }
  }

  /** The node's fields are the row's, one by one. */
  ghost predicate Carries(x: TaskItem, row: Row)
    reads x
  {
    x.id == row.id && x.sch == row.sch && x.settings == row.settings && x.flag == row.flag
  }

  ghost function At(items: seq<TaskItem>, i: nat): TaskItem? {
    if i < |items| then items[i] else null
  }

  /** The variables the routines share. */
  class TaskStore {
    var taskList: TaskItem?
    /** g_db_time. */
    var dbTime: int
    /** The nodes from first to last, and what they hold. */
    ghost var items: seq<TaskItem>
    ghost var view: seq<Task>

    ghost predicate NodeOk(i: nat)
      requires |view| == |items|
      reads this`items, this`view, items
    {
      i < |items| ==> items[i].Value() == view[i] && items[i].next == At(items, i + 1)
    }

    ghost predicate Apart()
      reads this`items
    {
      forall i, j :: 0 <= i < j < |items| ==> items[i] != items[j]
    }

    /** The list has no cycle and is what the ghost fields say. */
    ghost predicate Valid()
      reads this`items, this`view, this`taskList, items
    {
      |view| == |items| && taskList == At(items, 0) && Apart() && forall i: nat {:trigger NodeOk(i)} :: NodeOk(i)
    }

    constructor ()
      ensures Valid() && view == []
    {
      taskList, dbTime, items, view := null, 0, [], [];
    }

    ghost function Nodes(): set<TaskItem>
      reads this`items
    {
      set x | x in items
    }

    lemma Node(k: nat)
      requires Valid() && k < |items|
      ensures |view| == |items| && items[k].Value() == view[k] && items[k].next == At(items, k + 1)
    {
      assert NodeOk(k);
    }

    /** The first node with the row's id carries the row. */
    ghost predicate FirstCarries(row: Row)
      reads this`items, items
    {
      exists i :: 0 <= i < |items| && Carries(items[i], row) && forall j :: 0 <= j < i ==> items[j].id != row.id
    }

    /** Then a lookup in what the nodes hold finds the row's fields, and the other way round. */
    lemma CarriedIsFound(row: Row)
      requires Valid()
      ensures |view| == |items|
      ensures FirstCarries(row) <==>
                var found := Lookup(view, row.id);
                && found.Some? && found.value.sch == row.sch
                && found.value.settings == row.settings && found.value.flag == row.flag
    {
      forall i | 0 <= i < |items| ensures items[i].Value() == view[i] { Node(i); }
      var k := Find(view, row.id);
      if k < |items| && FirstCarries(row) {
        var i :| 0 <= i < |items| && Carries(items[i], row) && forall j :: 0 <= j < i ==> items[j].id != row.id;
        assert view[i].id == row.id && i == k;
      }
      if FirstCarries(row) {
        var i :| 0 <= i < |items| && Carries(items[i], row);
        assert view[i].id == row.id;
      }
    }

    /** The last node; NULL stands for the variable nothing has been assigned to. */
    method FindTail() returns (tail: TaskItem?)
      requires Valid()
      ensures TailIs(tail)
    {
      tail := null;
      var cur := taskList;
      ghost var k := 0;
      while cur != null
        invariant 0 <= k <= |items| && cur == At(items, k)
        invariant tail == if k == 0 then null else items[k - 1]
        decreases |items| - k
      {
        Node(k);
        tail := cur;
        cur := cur.next;
        k := k + 1;
      }
    }

    ghost predicate TailIs(tail: TaskItem?)
      reads this`items
    {
      tail == if items == [] then null else items[|items| - 1]
    }

    /** The first node with the id, or NULL. */
    method FindItem(id: int) returns (task: TaskItem?, ghost k: nat)
      requires Valid()
      ensures |view| == |items| && k == Find(view, id) && task == At(items, k) && (task != null ==> task.id == id)
    {
      task, k := taskList, 0;
      while task != null && task.id != id
        invariant 0 <= k <= |items| && task == At(items, k)
        invariant forall i :: 0 <= i < k ==> view[i].id != id
        decreases |items| - k
      {
        Node(k);
        task := task.next;
        k := k + 1;
      }
      if k < |items| { Node(k); }
    }

    /** The fields of a row go into a node, all but its id. */
    method Fill(task: TaskItem, row: Row)
      modifies task`sch, task`settings, task`flag
      ensures task.sch == row.sch && task.settings == row.settings && task.flag == row.flag
    {
      task.sch, task.settings, task.flag := row.sch, row.settings, row.flag;
    }

    /** A row whose id is in the list: the node is blanked and, if the id is not 0, filled. */
    method Overwrite(task: TaskItem, row: Row, ghost k: nat)
      requires Valid() && k < |items| && task == items[k] && task.id == row.id
      modifies this`dbTime, this`view, task`id, task`sch, task`settings, task`flag
      ensures Valid() && |old(view)| == |items|
      ensures view == old(view)[k := if row.id == 0 then old(view)[k].(sch := []) else TaskOf(row)]
      ensures dbTime == if row.id == 0 then old(dbTime) else row.dbTime
    {
      Node(k);
      task.id, task.sch := 0, [];
      task.id := row.id;
      if task.id != 0 {
        Fill(task, row);
        dbTime := row.dbTime;
      }
      view := view[k := task.Value()];
      forall i: nat ensures NodeOk(i) { assert old(NodeOk(i)); }
    }

    /** The new last node of the list. */
    method Append(tail: TaskItem, task: TaskItem)
      requires Valid() && items != [] && tail == items[|items| - 1] && task !in items
      modifies this`items, this`view, tail`next, task`next
      ensures Valid() && items == old(items) + [task] && view == old(view) + [old(task.Value())]
    {
      tail.next := task;
      task.next := null;
      items, view := items + [task], view + [task.Value()];
      forall i: nat ensures NodeOk(i) { assert old(NodeOk(i)); }
    }

    /** One turn of the refresh's loop, given the last node. */
    method ApplyFetched(row: Row, tail: TaskItem?) returns (last: TaskItem?)
      requires Valid() && TailIs(tail) && (items == [] ==> row.id == 0)
      modifies this`dbTime, this`items, this`view, Nodes()
      ensures Valid() && TailIs(last) && Kept(old(items))
      ensures forall x :: x in Nodes() ==> x in old(Nodes()) || fresh(x)
      ensures view == ApplyRow(old(view), row) && dbTime == if row.id == 0 then old(dbTime) else row.dbTime
      ensures row.id != 0 ==> FirstCarries(row)
    {
      hide Valid, NodeOk, Apart, FirstCarries;
      last := tail;
      if row.id != 0 { RowApplied(view, row); }
      var task;
      ghost var k;
      task, k := FindItem(row.id);
      if task != null {
        Overwrite(task, row, k);
        CarriedIsFound(row);
        return;
      }
      task := new TaskItem();
      task.id := row.id;
      if task.id == 0 {
        return;
      }
      Fill(task, row);
      dbTime := row.dbTime;
      Append(tail, task);
      last := task;
      CarriedIsFound(row);
    }

    /** The nodes that were in the list are still the first ones, in their order. */
    ghost predicate Kept(before: seq<TaskItem>)
      reads this`items
    {
      before <= items
    }

    /** create_task_item_list_by_db_updated on a cursor that gives the rows and then the
        code, 1403 for the end or an error.  With an empty list _tail is never assigned,
        so there must be a node if a row names a task. */
    method Refresh(rows: seq<Row>, code: int) returns (nCount: nat, logged: bool)
      requires Valid() && code != 0 && (items == [] ==> Named(rows) == [])
      modifies this`dbTime, this`items, this`view, Nodes()
      ensures Valid() && Kept(old(items))
      ensures view == Upsert(old(view), rows)
      ensures dbTime == Watermark(old(dbTime), rows)
      ensures nCount == |Named(rows)| == NamedBefore(rows, |rows|) && logged == (code != 1403)
      ensures forall k :: 0 <= k < |rows| && IsLatest(rows, k) ==> FirstCarries(rows[k])
    {
      hide Valid, NodeOk, Apart, TailIs, Upsert, Named, NamedBefore, Watermark, ApplyRow, IsLatest, FirstCarries;
      nCount := 0;
      var tail := FindTail();
      var i := 0;
      NamedRows(rows);
      NoRows(view, dbTime, rows);
      while i < |rows|
        invariant 0 <= i <= |rows| && Valid() && TailIs(tail) && Kept(old(items))
        invariant (forall x :: x in Nodes() ==> x in old(Nodes()) || fresh(x))
        invariant items == [] ==> old(items) == []
        invariant view == Upsert(old(view), rows[..i]) && dbTime == Watermark(old(dbTime), rows[..i])
        invariant nCount == |Named(rows[..i])|
      {
        OneMore(old(view), old(dbTime), rows, i);
        tail := ApplyFetched(rows[i], tail);
        if rows[i].id != 0 {
          nCount := nCount + 1;
        }
        i := i + 1;
      }
      assert rows[..i] == rows;
      logged := code != 1403;
      NamedAt(rows);
      forall k | 0 <= k < |rows| && IsLatest(rows, k) ensures FirstCarries(rows[k]) {
        UpsertFields(old(view), rows, k);
        CarriedIsFound(rows[k]);
      }
    }

    /** Makes a node the last one, behind the node at position k (or first, in an empty
        list); whatever was behind that node is cut off. */
    method LinkBehind(cur: TaskItem?, task: TaskItem, ghost k: nat)
      requires Valid() && cur == At(items, k) && task !in items && (items != [] ==> k < |items|)
      modifies this`taskList, this`items, this`view, task`next, (if cur == null then {} else {cur})`next
      ensures Valid() && |old(view)| == |old(items)|
      ensures items == (if cur == null then [] else old(items)[..k + 1]) + [task]
      ensures view == (if cur == null then [] else old(view)[..k + 1]) + [old(task.Value())]
    {
      if cur != null {
        Node(k);
        cur.next := task;
        items, view := items[..k + 1] + [task], view[..k + 1] + [task.Value()];
      } else {
        taskList := task;
        items, view := [task], [task.Value()];
      }
      task.next := null;
      forall i: nat ensures NodeOk(i) { assert old(NodeOk(i)); }
    }

    /** Where the next loaded node goes: behind the first node before any has been loaded,
        then behind the last. */
    ghost predicate Place(cur: TaskItem?, k: nat, any: bool)
      reads this`items
    {
      cur == At(items, k) && (if any then items != [] && k == |items| - 1 else k == 0)
    }

    /** One turn of the first load's loop for a row that names a task. */
    method LoadFetched(row: Row, cur: TaskItem?, ghost k: nat) returns (task: TaskItem)
      requires Valid() && row.id != 0 && cur == At(items, k) && (items != [] ==> k < |items|)
      modifies this`taskList, this`dbTime, this`items, this`view, (if cur == null then {} else {cur})`next
      ensures Valid() && |old(view)| == |old(items)| && fresh(task)
      ensures items == (if cur == null then [] else old(items)[..k + 1]) + [task]
      ensures view == (if cur == null then [] else old(view)[..k + 1]) + [TaskOf(row)]
      ensures dbTime == row.dbTime && Carries(task, row)
    {
      hide Valid, NodeOk, Apart;
      task := new TaskItem();
      task.id := row.id;
      Fill(task, row);
      dbTime := row.dbTime;
      LinkBehind(cur, task, k);
    }

    /** The list and the place of the next node after i rows have been loaded into list0. */
    ghost predicate LoadedTo(list0: seq<Task>, rows: seq<Row>, i: nat, cur: TaskItem?, k: nat)
      reads this`items, this`view
    {
      && i <= |rows| && |view| == |items| && view == Loaded(list0, rows[..i])
      && Place(cur, k, Named(rows[..i]) != [])
    }

    /** One turn of the first load's loop. */
    method LoadTurn(rows: seq<Row>, i: nat, cur: TaskItem?, ghost k: nat, ghost list0: seq<Task>)
      returns (last: TaskItem?, ghost k': nat)
      requires Valid() && i < |rows| && LoadedTo(list0, rows, i, cur, k)
      modifies this`taskList, this`dbTime, this`items, this`view, Nodes()
      ensures Valid() && LoadedTo(list0, rows, i + 1, last, k')
      ensures forall x :: x in Nodes() ==> x in old(Nodes()) || fresh(x)
      ensures dbTime == if rows[i].id == 0 then old(dbTime) else rows[i].dbTime
    {
      hide Valid, NodeOk, Apart, LoadedTo, Place, At, Loaded, Named, TaskOf;
      last, k' := cur, k;
      NextLoad(rows, i, cur, k, list0);
      if rows[i].id != 0 {
        last := LoadFetched(rows[i], cur, k);
        k' := |items| - 1;
        IsLoaded(list0, rows, i + 1, last);
      }
    }

    /** What one more row makes of what has been loaded. */
    lemma NextLoad(rows: seq<Row>, i: nat, cur: TaskItem?, k: nat, list0: seq<Task>)
      requires i < |rows| && LoadedTo(list0, rows, i, cur, k)
      ensures |view| == |items| && cur == At(items, k) && (items != [] ==> k < |items|)
      ensures cur != null ==> k < |items| && cur == items[k]
      ensures rows[i].id == 0 ==> LoadedTo(list0, rows, i + 1, cur, k)
      ensures rows[i].id != 0 ==> Named(rows[..i + 1]) != []
      ensures rows[i].id != 0 ==>
              Loaded(list0, rows[..i + 1]) == (if cur == null then [] else view[..k + 1]) + [TaskOf(rows[i])]
    {
      OneMoreLoaded(list0, rows, i);
      OneMore(list0, 0, rows, i);
      hide Named, TasksOf, TaskOf, Loaded;
      assert cur != null && k == |view| - 1 ==> view[..k + 1] == view;
      assert cur != null && k == 0 ==> view[..k + 1] == [view[0]];
    }

    lemma IsLoaded(list0: seq<Task>, rows: seq<Row>, i: nat, last: TaskItem)
      requires i <= |rows| && items != [] && last == items[|items| - 1] && |view| == |items|
      requires view == Loaded(list0, rows[..i]) && Named(rows[..i]) != []
      ensures LoadedTo(list0, rows, i, last, |items| - 1)
    {
    }

    /** create_task_item_list_by_db. */
    method Load(rows: seq<Row>, code: int) returns (nCount: nat, logged: bool)
      requires Valid() && code != 0
      modifies this`taskList, this`dbTime, this`items, this`view, Nodes()
      ensures Valid() && view == Loaded(old(view), rows)
      ensures dbTime == Watermark(old(dbTime), rows)
      ensures nCount == |Named(rows)| == NamedBefore(rows, |rows|) && logged == (code != 1403)
      ensures forall k :: 0 <= k < |rows| && rows[k].id != 0 ==> CarriesAt(rows, k, |old(items)|)
    {
      nCount := 0;
      var cur := taskList;
      ghost var k: nat := 0;
      var i := 0;
      assert rows[..0] == [];
      assert LoadedTo(view, rows, 0, cur, k);
      hide Valid, NodeOk, Apart, Named, Watermark, LoadedTo;
      while i < |rows|
        invariant 0 <= i <= |rows| && Valid() && (forall x :: x in Nodes() ==> x in old(Nodes()) || fresh(x))
        invariant LoadedTo(old(view), rows, i, cur, k)
        invariant dbTime == Watermark(old(dbTime), rows[..i]) && nCount == |Named(rows[..i])|
      {
        OneMore(old(view), old(dbTime), rows, i);
        cur, k := LoadTurn(rows, i, cur, k, old(view));
        if rows[i].id != 0 {
          nCount := nCount + 1;
        }
        i := i + 1;
      }
      AllLoaded(old(view), rows, cur, k);
      assert rows[..i] == rows;
      logged := code != 1403;
      LoadedCarries(rows, old(view));
    }

    /** Behind the first node there was, if any, the loaded rows stand in their order. */
    ghost predicate CarriesAt(rows: seq<Row>, k: nat, before: nat)
      requires k < |rows|
      reads this`items, items
    {
      var i := (if before == 0 then 0 else 1) + NamedBefore(rows, k);
      i < |items| && Carries(items[i], rows[k])
    }

    lemma LoadedCarries(rows: seq<Row>, list0: seq<Task>)
      requires Valid() && view == Loaded(list0, rows)
      ensures |Named(rows)| == NamedBefore(rows, |rows|)
      ensures forall k :: 0 <= k < |rows| && rows[k].id != 0 ==> CarriesAt(rows, k, |list0|)
    {
      NamedAt(rows);
      forall k | 0 <= k < |rows| && rows[k].id != 0 ensures CarriesAt(rows, k, |list0|) {
        LoadedFields(list0, rows, k);
        Node((if list0 == [] then 0 else 1) + NamedBefore(rows, k));
      }
    }

    lemma AllLoaded(list0: seq<Task>, rows: seq<Row>, cur: TaskItem?, k: nat)
      requires LoadedTo(list0, rows, |rows|, cur, k)
      ensures view == Loaded(list0, rows)
    {
      assert rows[..|rows|] == rows;
    }
  }

  /** What a row of a task is found as once it has been applied. */
  lemma RowApplied(list: seq<Task>, row: Row)
    requires row.id != 0
    ensures var found := Lookup(ApplyRow(list, row), row.id);
            && found.Some? && found.value.sch == row.sch
            && found.value.settings == row.settings && found.value.flag == row.flag
  {
    UpsertFields(list, [row], 0);
    assert [row][..0] == [];
  }

  lemma TasksSnoc(n: seq<Row>, r: Row)
    ensures TasksOf(n + [r]) == TasksOf(n) + [TaskOf(r)]
  {
  }

  lemma OneMoreLoaded(list: seq<Task>, rows: seq<Row>, i: nat)
    requires i < |rows|
    ensures var before, after := Loaded(list, rows[..i]), Loaded(list, rows[..i + 1]);
            if rows[i].id == 0 then after == before
            else after == (if Named(rows[..i]) != [] || list == [] then before else [list[0]]) + [TaskOf(rows[i])]
    ensures Named(rows[..i]) == [] ==> Loaded(list, rows[..i]) == list
  {
    hide Named, TasksOf, TaskOf, Upsert, Watermark, ApplyRow;
    OneMore(list, 0, rows, i);
    var n := Named(rows[..i]);
    assert n + [] == n;
    TasksSnoc(n, rows[i]);
    var head := if list == [] then [] else [list[0]];
    assert head + (TasksOf(n) + [TaskOf(rows[i])]) == (head + TasksOf(n)) + [TaskOf(rows[i])];
    assert n == [] ==> TasksOf(n) == [];
  }

  lemma NoRows(list: seq<Task>, g: int, rows: seq<Row>)
    ensures Upsert(list, rows[..0]) == list && Watermark(g, rows[..0]) == g && Named(rows[..0]) == []
    ensures Loaded(list, rows[..0]) == list
  {
  }

  lemma OneMore(list: seq<Task>, g: int, rows: seq<Row>, i: nat)
    requires i < |rows|
    ensures Upsert(list, rows[..i + 1]) == ApplyRow(Upsert(list, rows[..i]), rows[i])
    ensures Named(rows[..i + 1]) == Named(rows[..i]) + if rows[i].id == 0 then [] else [rows[i]]
    ensures Watermark(g, rows[..i + 1]) == if rows[i].id == 0 then Watermark(g, rows[..i]) else rows[i].dbTime
  {
    assert rows[..i + 1][..i] == rows[..i];
  }
}
