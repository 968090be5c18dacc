/**
 * The task routes: the pure queries over the stored tasks (filtering, the
 * category list, the board) and the order of checks in the handlers that
 * read or change the store. A handler's outcome is Ok, NotFound or
 * BadRequest rather than an HTTP response.
 */
module TaskRoutes {
  import opened Wrappers
  import opened Models
  import opened Storage
  import Config
  import StringOrder

  datatype Reply<T> = Ok(body: T) | NotFound | BadRequest

  // ---------------------------------------------------------------------
  // get_tasks

  /** A query parameter filters only when it is given and non-empty (Python truthiness). */
  predicate Supplied(q: Option<string>) {
    q.Some? && q.value != ""
  }

  /** The task agrees with every supplied filter. */
  predicate Matches(t: Task, column: Option<string>, priority: Option<string>, category: Option<string>) {
    && (Supplied(column) ==> t.column == column.value)
    && (Supplied(priority) ==> PriorityName(t.priority) == priority.value)
    && (Supplied(category) ==> t.category == Some(category.value))
  }

  /** get_tasks: the stored tasks narrowed by column, then priority, then category. */
  function FilterTasks(ts: seq<Task>, column: Option<string>, priority: Option<string>, category: Option<string>): seq<Task> {
    var byColumn := if Supplied(column) then Select(ts, ColumnIs(column.value)) else ts;
    var byPriority := if Supplied(priority) then Select(byColumn, PriorityIs(priority.value)) else byColumn;
    if Supplied(category) then Select(byPriority, CategoryIs(category.value)) else byPriority
  }

  /** A task is listed iff it is stored and matches every supplied filter; no filter lists everything. */
  lemma FilterTasksSpec(ts: seq<Task>, column: Option<string>, priority: Option<string>, category: Option<string>)
    ensures forall t :: t in FilterTasks(ts, column, priority, category) <==> t in ts && Matches(t, column, priority, category)
    ensures !Supplied(column) && !Supplied(priority) && !Supplied(category) ==> FilterTasks(ts, column, priority, category) == ts
  {
  }

  /** The listing keeps the stored order: it distributes over concatenation. */
  lemma FilterTasksAppend(a: seq<Task>, b: seq<Task>, column: Option<string>, priority: Option<string>, category: Option<string>)
    ensures FilterTasks(a + b, column, priority, category) == FilterTasks(a, column, priority, category) + FilterTasks(b, column, priority, category)
  {
    var ca := if Supplied(column) then Select(a, ColumnIs(column.value)) else a;
    var cb := if Supplied(column) then Select(b, ColumnIs(column.value)) else b;
    if Supplied(column) {
      SelectAppend(a, b, ColumnIs(column.value));
    }
    var pa := if Supplied(priority) then Select(ca, PriorityIs(priority.value)) else ca;
    var pb := if Supplied(priority) then Select(cb, PriorityIs(priority.value)) else cb;
    if Supplied(priority) {
      SelectAppend(ca, cb, PriorityIs(priority.value));
    }
    if Supplied(category) {
      SelectAppend(pa, pb, CategoryIs(category.value));
    }
  }

  /** A single task is listed exactly when it matches; with the lemma above this fixes the whole listing. */
  lemma FilterTasksSingle(t: Task, column: Option<string>, priority: Option<string>, category: Option<string>)
    ensures FilterTasks([t], column, priority, category) == if Matches(t, column, priority, category) then [t] else []
  {
    if Supplied(column) {
      SelectSingle(t, ColumnIs(column.value));
    }
    if Supplied(priority) {
      SelectSingle(t, PriorityIs(priority.value));
    }
    if Supplied(category) {
      SelectSingle(t, CategoryIs(category.value));
    }
  }

  // ---------------------------------------------------------------------
  // get_categories

  /** `c` is the non-empty category of some stored task. */
  predicate UsedCategory(ts: seq<Task>, c: string) {
    c != "" && exists t :: t in ts && t.category == Some(c)
  }

  /** get_categories: `sorted(set(t.category for t in tasks if t.category))`. */
  function Categories(ts: seq<Task>): seq<string> {
    if ts == [] then []
    else
      var rest := Categories(ts[1..]);
      var c := ts[0].category;
      if c.Some? && c.value != "" then StringOrder.Insert(rest, c.value) else rest
  }

  /** The category list is strictly ascending and holds exactly the non-empty categories in use. */
  lemma {:induction false} CategoriesSpec(ts: seq<Task>)
    ensures StringOrder.StrictlyAscending(Categories(ts))
    ensures forall c :: c in Categories(ts) <==> UsedCategory(ts, c)
  {
    if ts != [] {
      CategoriesSpec(ts[1..]);
      var rest := Categories(ts[1..]);
      var head := ts[0].category;
      if head.Some? && head.value != "" {
        StringOrder.InsertSpec(rest, head.value);
      }
      forall c ensures UsedCategory(ts, c) <==> UsedCategory(ts[1..], c) || (c != "" && head == Some(c)) {
        assert ts == [ts[0]] + ts[1..];
        if UsedCategory(ts, c) {
          var t :| t in ts && t.category == Some(c);
          if t != ts[0] {
            assert t in ts[1..];
          }
        }
      }
    }
  }

  /** Sorting a set has one answer: any strictly ascending list of the categories in use is this one. */
  lemma CategoriesUnique(ts: seq<Task>, r: seq<string>)
    requires StringOrder.StrictlyAscending(r)
    requires forall c :: c in r <==> UsedCategory(ts, c)
    ensures r == Categories(ts)
  {
    CategoriesSpec(ts);
    StringOrder.AscendingUnique(r, Categories(ts));
  }

  // ---------------------------------------------------------------------
  // get_board

  /** get_board: one list per configured column, each holding that column's tasks in stored order. */
  method GetBoard(ts: seq<Task>) returns (board: map<string, seq<Task>>)
    ensures forall c :: c in board <==> c in Config.Columns
    ensures forall c :: c in board ==> board[c] == Select(ts, ColumnIs(c))
    ensures forall c, t :: c in board && t in board[c] ==> t in ts && t.column == c
    ensures forall t :: t in ts && t.column in Config.Columns ==> t in board[t.column]
  {
    board := map c | c in Config.Columns :: [];
    for i := 0 to |ts|
      invariant forall c :: c in board <==> c in Config.Columns
      invariant forall c :: c in board ==> board[c] == Select(ts[..i], ColumnIs(c))
    {
      var t := ts[i];
      assert ts[..i + 1] == ts[..i] + [t];
      assert ts[..i + 1][..i] == ts[..i];
      if t.column in board {
        board := board[t.column := board[t.column] + [t]];
      }
    }
    assert ts[..|ts|] == ts;
  }

  // ---------------------------------------------------------------------
  // Handlers

  /** get_task: the stored task with the id, or NotFound exactly when the store has none. */
  method GetTask(store: TaskStorage, id: string) returns (r: Reply<Task>)
    ensures r.NotFound? <==> id !in Ids(store.GetAll())
    ensures r.Ok? ==> FindById(store.GetAll(), id) == Some(r.body) && r.body.id == id
    ensures !r.BadRequest?
  {
    var task := store.GetById(id);
    if task.None? {
      return NotFound;
    }
    return Ok(task.value);
  }

  /** create_task: a column off the board is refused before the store is touched. */
  method CreateTask(store: TaskStorage, data: TaskCreate, id: string, now: Timestamp) returns (r: Reply<Task>)
    modifies store.json
    ensures data.column !in Config.Columns ==> r == BadRequest && store.json.state == old(store.json.state)
    ensures data.column in Config.Columns ==>
      && r == Ok(NewTask(data, id, now))
      && store.json.state == Stored(old(store.GetAll()) + [NewTask(data, id, now)])
  {
    if data.column !in Config.Columns {
      return BadRequest;
    }
    var task := NewTask(data, id, now);
    var created := store.Create(task);
    return Ok(created);
  }

  /** The column check of update_task: a supplied, non-empty column off the board is refused. */
  predicate ColumnRejected(column: Option<string>) {
    Supplied(column) && column.value !in Config.Columns
  }

  /**
   * update_task: NotFound comes before the column check; a refused column
   * leaves the store alone; otherwise the update goes to the store as given.
   */
  method UpdateTask(store: TaskStorage, id: string, data: TaskUpdate, now: Timestamp) returns (r: Reply<Task>)
    modifies store.json
    ensures id !in Ids(old(store.GetAll())) ==> r == NotFound && store.json.state == old(store.json.state)
    ensures id in Ids(old(store.GetAll())) && ColumnRejected(data.column) ==>
      r == BadRequest && store.json.state == old(store.json.state)
    ensures id in Ids(old(store.GetAll())) && !ColumnRejected(data.column) ==>
      var written := ApplyUpdate(old(store.GetAll()), id, data, now);
      && written.Some?
      && store.json.state == Stored(written.value)
      && r.Ok? && FindById(written.value, id) == Some(r.body)
  {
    var existing := store.GetById(id);
    if existing.None? {
      return NotFound;
    }
    if ColumnRejected(data.column) {
      return BadRequest;
    }
    var updated := store.Update(id, data, now);
    return Ok(updated.value);
  }

  /** move_task: NotFound comes before the column check, so a missing id with a bad column is NotFound. */
  method MoveTask(store: TaskStorage, id: string, move: TaskMove, now: Timestamp) returns (r: Reply<Task>)
    modifies store.json
    ensures id !in Ids(old(store.GetAll())) ==> r == NotFound && store.json.state == old(store.json.state)
    ensures id in Ids(old(store.GetAll())) && move.column !in Config.Columns ==>
      r == BadRequest && store.json.state == old(store.json.state)
    ensures id in Ids(old(store.GetAll())) && move.column in Config.Columns ==>
      var written := ApplyUpdate(old(store.GetAll()), id, ColumnOnly(move.column), now);
      && written.Some?
      && store.json.state == Stored(written.value)
      && r.Ok? && FindById(written.value, id) == Some(r.body) && r.body.column == move.column
  {
    var existing := store.GetById(id);
    if existing.None? {
      return NotFound;
    }
    if move.column !in Config.Columns {
      return BadRequest;
    }
    ghost var before := store.GetAll();
    var moved := store.Move(id, move.column, move.position, now);
    ApplyUpdateSpec(before, id, ColumnOnly(move.column), now);
    return Ok(moved.value);
  }

  /** delete_task: NotFound exactly when the store reports that nothing was removed. */
  method DeleteTask(store: TaskStorage, id: string) returns (r: Reply<()>)
    modifies store.json
    ensures !r.BadRequest?
    ensures r.NotFound? <==> id !in Ids(old(store.GetAll()))
    ensures r.NotFound? ==> store.json.state == old(store.json.state)
    ensures r.Ok? ==> store.json.state == Stored(Select(old(store.GetAll()), IdIsNot(id)))
  {
    var removed := store.Delete(id);
    if !removed {
      return NotFound;
    }
    return Ok(());
  }

  // ---------------------------------------------------------------------
  // Which handlers keep every stored task on the board

  /** Every task sits in one of the configured columns. */
  predicate OnBoard(ts: seq<Task>) {
    forall t :: t in ts ==> t.column in Config.Columns
  }

  /** A create that passes the column check keeps every task on the board. */
  lemma CreateKeepsOnBoard(ts: seq<Task>, data: TaskCreate, id: string, now: Timestamp)
    requires OnBoard(ts) && data.column in Config.Columns
    ensures OnBoard(ts + [NewTask(data, id, now)])
  {
  }

  /** An update whose column is absent or on the board keeps every task on the board; so does a move. */
  lemma UpdateKeepsOnBoard(ts: seq<Task>, id: string, p: TaskUpdate, now: Timestamp)
    requires OnBoard(ts) && (p.column.Some? ==> p.column.value in Config.Columns)
    requires ApplyUpdate(ts, id, p, now).Some?
    ensures OnBoard(ApplyUpdate(ts, id, p, now).value)
  {
    var i := FirstIndex(Ids(ts), id).value;
    var written := ApplyUpdate(ts, id, p, now).value;
    forall t | t in written ensures t.column in Config.Columns {
      var k :| 0 <= k < |written| && written[k] == t;
      if k != i {
        assert ts[k] in ts;
      } else {
        assert ts[i] in ts;
      }
    }
  }

  /**
   * The column check of update_task lets the empty column through (it is
   * falsy), and the store then writes it: the task drops off the board.
   */
  lemma UpdateEmptyColumnLeavesBoard(ts: seq<Task>, id: string, p: TaskUpdate, now: Timestamp)
    requires id in Ids(ts) && p.column == Some("")
    ensures !ColumnRejected(p.column)
    ensures ApplyUpdate(ts, id, p, now).Some?
    ensures FindById(ApplyUpdate(ts, id, p, now).value, id).Some?
    ensures FindById(ApplyUpdate(ts, id, p, now).value, id).value.column !in Config.Columns
  {
    ApplyUpdateSpec(ts, id, p, now);
  }
}
