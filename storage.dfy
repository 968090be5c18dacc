/**
 * The JSON-file record store behind the board.
 *
 * The file is abstracted as a value that is missing, present but not valid
 * JSON text, or a list of records (FileState); JsonFile is the shared file object, and
 * TaskStorage and UserStorage are the typed stores built on it. Every
 * store method reads the whole list, scans or rebuilds it, and writes the
 * whole list back. Each is specified by a pure function on the list it
 * read (FindById, Select, ApplyUpdate, ...), and the properties of those
 * functions are proved as lemmas.
 */
module Storage {
  import opened Wrappers
  import opened Models

  // ---------------------------------------------------------------------
  // The file

  /** The storage file: absent, present but not valid JSON text, or a decoded list. */
  datatype FileState<T> = Missing | Corrupt | Stored(records: seq<T>)

  /** What a read yields: the stored records, or the empty list when the file is missing or not valid JSON text. */
  function Decode<T>(f: FileState<T>): seq<T> {
    if f.Stored? then f.records else []
  }

  /** The file after initialisation: an absent file is created holding `[]`; any other is untouched. */
  function Ensure<T>(f: FileState<T>): FileState<T> {
    if f.Missing? then Stored([]) else f
  }

  /**
   * Initialisation leaves no file missing, never changes an existing file
   * (a corrupt one stays corrupt), is idempotent, and does not change what
   * a read yields. (After a write the file is `Stored(data)`, which reads
   * back as `data`.)
   */
  lemma EnsureSpec<T>(f: FileState<T>)
    ensures !Ensure(f).Missing?
    ensures !f.Missing? ==> Ensure(f) == f
    ensures Ensure(Ensure(f)) == Ensure(f)
    ensures Decode(Ensure(f)) == Decode(f)
  {
  }

  /** The file shared by a store: every write replaces its whole content. */
  class JsonFile<T> {
    var state: FileState<T>

    constructor (disk: FileState<T>)
      ensures state == Ensure(disk)
    {
      state := disk;
      new;
      if state.Missing? {
        WriteData([]);
      }
    }

    function ReadData(): seq<T>
      reads this
    {
      Decode(state)
    }

    method WriteData(data: seq<T>)
      modifies this
      ensures state == Stored(data)
    {
      state := Stored(data);
    }
  }

  // ---------------------------------------------------------------------
  // Lookup by key

  /** The position of the first occurrence of `k` in `keys`, if there is one. */
  function FirstIndex<K(==)>(keys: seq<K>, k: K): (r: Option<nat>)
    ensures r.None? <==> k !in keys
    ensures r.Some? ==> r.value < |keys| && keys[r.value] == k && k !in keys[..r.value]
  {
    if keys == [] then None
    else if keys[0] == k then Some(0)
    else
      assert keys == [keys[0]] + keys[1..];
      match FirstIndex(keys[1..], k)
      case None => None
      case Some(i) =>
        assert keys[..i + 1] == [keys[0]] + keys[1..][..i];
        Some(i + 1)
  }

  /** A position holding `k` with no `k` before it is the first index of `k`. */
  lemma FirstIndexAt<K>(keys: seq<K>, k: K, i: nat)
    requires i < |keys| && keys[i] == k
    requires forall j :: 0 <= j < i ==> keys[j] != k
    ensures FirstIndex(keys, k) == Some(i)
  {
    assert keys[i] in keys;
    var n := FirstIndex(keys, k).value;
    assert forall j :: 0 <= j < n ==> keys[..n][j] == keys[j];
  }

  /** Appending one key never moves an earlier first occurrence. */
  lemma FirstIndexAppend<K>(keys: seq<K>, last: K, k: K)
    ensures FirstIndex(keys + [last], k) ==
      if k in keys then FirstIndex(keys, k)
      else if last == k then Some(|keys|)
      else None
  {
    var all := keys + [last];
    if k in keys {
      var i := FirstIndex(keys, k).value;
      forall j | 0 <= j < i ensures all[j] != k {
        assert keys[..i][j] == keys[j];
      }
      FirstIndexAt(all, k, i);
    } else if last == k {
      forall j | 0 <= j < |keys| ensures all[j] != k {
        assert keys[j] in keys;
      }
      FirstIndexAt(all, k, |keys|);
    }
  }

  function Ids(ts: seq<Task>): seq<string> {
    seq(|ts|, i requires 0 <= i < |ts| => ts[i].id)
  }

  function Usernames(us: seq<User>): seq<string> {
    seq(|us|, i requires 0 <= i < |us| => us[i].username)
  }

  /** The first task with the given id, if any. */
  function FindById(ts: seq<Task>, id: string): Option<Task> {
    match FirstIndex(Ids(ts), id)
    case None => None
    case Some(i) => Some(ts[i])
  }

  /** The first user with the given name, if any. */
  function FindByUsername(us: seq<User>, username: string): Option<User> {
    match FirstIndex(Usernames(us), username)
    case None => None
    case Some(i) => Some(us[i])
  }

  lemma IdsMembership(ts: seq<Task>, id: string)
    ensures id in Ids(ts) <==> exists t :: t in ts && t.id == id
  {
    if id in Ids(ts) {
      var i :| 0 <= i < |ts| && Ids(ts)[i] == id;
      assert ts[i] in ts;
    }
    if exists t :: t in ts && t.id == id {
      var t :| t in ts && t.id == id;
      var k :| 0 <= k < |ts| && ts[k] == t;
      assert Ids(ts)[k] == id;
    }
  }

  /** Ids are unique in a list of tasks (the source never checks this). */
  predicate UniqueIds(ts: seq<Task>) {
    forall i, j :: 0 <= i < j < |ts| ==> ts[i].id != ts[j].id
  }

  // ---------------------------------------------------------------------
  // Filtering

  /** The conditions the source's list comprehensions filter tasks by. */
  datatype Criterion =
    | ColumnIs(column: string)
    | PriorityIs(priority: string)
    | CategoryIs(category: string)
    | IdIsNot(id: string)

  predicate Holds(c: Criterion, t: Task) {
    match c
    case ColumnIs(column) => t.column == column
    case PriorityIs(priority) => PriorityName(t.priority) == priority
    case CategoryIs(category) => t.category == Some(category)
    case IdIsNot(id) => t.id != id
  }

  /** `[t for t in ts if c(t)]`: the tasks satisfying `c`, in their stored order. */
  function Select(ts: seq<Task>, c: Criterion): (r: seq<Task>)
    ensures |r| <= |ts|
    ensures |r| == |ts| <==> forall t :: t in ts ==> Holds(c, t)
    ensures forall t :: t in r <==> t in ts && Holds(c, t)
  {
    if ts == [] then []
    else
      var last := ts[|ts| - 1];
      assert ts == ts[..|ts| - 1] + [last];
      Select(ts[..|ts| - 1], c) + (if Holds(c, last) then [last] else [])
  }

  /** Filtering a list with one more task at the end adds that task iff it satisfies the condition. */
  lemma SelectSnoc(s: seq<Task>, x: Task, c: Criterion)
    ensures Select(s + [x], c) == Select(s, c) + (if Holds(c, x) then [x] else [])
  {
    assert (s + [x])[..|s|] == s;
  }

  /** Filtering distributes over concatenation: it keeps the stored order. */
  lemma {:induction false} SelectAppend(a: seq<Task>, b: seq<Task>, c: Criterion)
    ensures Select(a + b, c) == Select(a, c) + Select(b, c)
  {
    if b == [] {
      assert a + b == a;
    } else {
      var front, last := b[..|b| - 1], b[|b| - 1];
      var tail := if Holds(c, last) then [last] else [];
      assert b == front + [last];
      assert a + b == (a + front) + [last];
      calc {
        Select(a + b, c);
        { SelectSnoc(a + front, last, c); }
        Select(a + front, c) + tail;
        { SelectAppend(a, front, c); }
        (Select(a, c) + Select(front, c)) + tail;
        Select(a, c) + (Select(front, c) + tail);
        { SelectSnoc(front, last, c); }
        Select(a, c) + Select(b, c);
      }
    }
  }

  /** A one-task list is kept exactly when the task satisfies the condition. */
  lemma SelectSingle(t: Task, c: Criterion)
    ensures Select([t], c) == if Holds(c, t) then [t] else []
  {
    assert [t][..0] == [];
  }

  // ---------------------------------------------------------------------
  // Update

  /** The record after an update: each supplied field overwrites, and `updated_at` becomes `now`. */
  function Merge(t: Task, p: TaskUpdate, now: Timestamp): Task {
    t.(title := if p.title.Some? then p.title.value else t.title,
       description := if p.description.Some? then p.description else t.description,
       priority := if p.priority.Some? then p.priority.value else t.priority,
       category := if p.category.Some? then p.category else t.category,
       dueDate := if p.dueDate.Some? then p.dueDate else t.dueDate,
       column := if p.column.Some? then p.column.value else t.column,
       updatedAt := now)
  }

  /** The update that `move` performs: only the column is supplied. */
  function ColumnOnly(column: string): TaskUpdate {
    TaskUpdate(None, None, None, None, None, Some(column))
  }

  /** The update that supplies nothing. */
  function NoChanges(): TaskUpdate {
    TaskUpdate(None, None, None, None, None, None)
  }

  /**
   * Partial-update semantics: a supplied field takes the supplied value, an
   * omitted one keeps its value, the id and creation time never change, and
   * merging the same update twice is the same as merging it once.
   */
  lemma MergeSpec(t: Task, p: TaskUpdate, now: Timestamp)
    ensures var m := Merge(t, p, now);
      && m.id == t.id && m.createdAt == t.createdAt && m.updatedAt == now
      && (p.title.Some? ==> m.title == p.title.value) && (p.title.None? ==> m.title == t.title)
      && (p.description.Some? ==> m.description == p.description) && (p.description.None? ==> m.description == t.description)
      && (p.priority.Some? ==> m.priority == p.priority.value) && (p.priority.None? ==> m.priority == t.priority)
      && (p.category.Some? ==> m.category == p.category) && (p.category.None? ==> m.category == t.category)
      && (p.dueDate.Some? ==> m.dueDate == p.dueDate) && (p.dueDate.None? ==> m.dueDate == t.dueDate)
      && (p.column.Some? ==> m.column == p.column.value) && (p.column.None? ==> m.column == t.column)
    ensures Merge(Merge(t, p, now), p, now) == Merge(t, p, now)
    ensures Merge(t, NoChanges(), now) == t.(updatedAt := now)
  {
  }

  /** Moving changes the column and the update time and nothing else. */
  lemma MoveMerge(t: Task, column: string, now: Timestamp)
    ensures Merge(t, ColumnOnly(column), now) == t.(column := column, updatedAt := now)
  {
  }

  /** A valid update applied to a valid task gives a valid task. */
  lemma MergeKeepsValid(t: Task, p: TaskUpdate, now: Timestamp)
    requires ValidTask(t) && ValidTaskUpdate(p)
    ensures ValidTask(Merge(t, p, now))
  {
  }

  /**
   * The list an update writes: the first record with the id merged, or
   * nothing to write when no record has the id.
   */
  function ApplyUpdate(ts: seq<Task>, id: string, p: TaskUpdate, now: Timestamp): Option<seq<Task>> {
    match FirstIndex(Ids(ts), id)
    case None => None
    case Some(i) => Some(ts[i := Merge(ts[i], p, now)])
  }

  /**
   * An update on an absent id writes nothing. On a present id it keeps the
   * length and every id, changes only the first record with that id, and a
   * lookup afterwards returns the old record merged with the update.
   */
  lemma ApplyUpdateSpec(ts: seq<Task>, id: string, p: TaskUpdate, now: Timestamp)
    ensures ApplyUpdate(ts, id, p, now).None? <==> id !in Ids(ts)
    ensures ApplyUpdate(ts, id, p, now).Some? ==>
      var written := ApplyUpdate(ts, id, p, now).value;
      && |written| == |ts|
      && Ids(written) == Ids(ts)
      && FindById(ts, id).Some?
      && FindById(written, id) == Some(Merge(FindById(ts, id).value, p, now))
      && FirstIndex(Ids(ts), id).Some?
      && forall j :: 0 <= j < |ts| && j != FirstIndex(Ids(ts), id).value ==> written[j] == ts[j]
  {
    match FirstIndex(Ids(ts), id)
    case None =>
    case Some(i) =>
      var written := ts[i := Merge(ts[i], p, now)];
      assert Ids(written) == Ids(ts);
  }

  /** The ids an update leaves behind are those it found, so unique ids stay unique. */
  lemma UpdateKeepsIdsUnique(ts: seq<Task>, id: string, p: TaskUpdate, now: Timestamp)
    requires UniqueIds(ts) && ApplyUpdate(ts, id, p, now).Some?
    ensures UniqueIds(ApplyUpdate(ts, id, p, now).value)
  {
    ApplyUpdateSpec(ts, id, p, now);
    var written := ApplyUpdate(ts, id, p, now).value;
    forall i, j | 0 <= i < j < |written| ensures written[i].id != written[j].id {
      assert Ids(written)[i] == Ids(ts)[i] && Ids(written)[j] == Ids(ts)[j];
    }
  }

  // ---------------------------------------------------------------------
  // Create and delete on the list

  /**
   * Lookup after appending: a record with an id not stored before is found;
   * an id already stored keeps finding the earlier record, which shadows
   * the appended duplicate.
   */
  lemma CreateThenGet(ts: seq<Task>, t: Task, id: string)
    ensures FindById(ts + [t], id) ==
      if id in Ids(ts) then FindById(ts, id)
      else if t.id == id then Some(t)
      else None
  {
    assert Ids(ts + [t]) == Ids(ts) + [t.id];
    FirstIndexAppend(Ids(ts), t.id, id);
  }

  /** Appending a record whose id is not yet stored keeps ids unique. */
  lemma CreateKeepsIdsUnique(ts: seq<Task>, t: Task)
    requires UniqueIds(ts) && t.id !in Ids(ts)
    ensures UniqueIds(ts + [t])
  {
    var all := ts + [t];
    forall i, j | 0 <= i < j < |all| ensures all[i].id != all[j].id {
      if j == |ts| {
        assert Ids(ts)[i] == all[i].id;
      }
    }
  }

  /** After a delete no record has the id, so deleting it again reports false. */
  lemma DeleteRemovesEvery(ts: seq<Task>, id: string)
    ensures id !in Ids(Select(ts, IdIsNot(id)))
  {
    IdsMembership(Select(ts, IdIsNot(id)), id);
  }

  /** With unique ids, deleting a present id removes exactly one record. */
  lemma {:induction false} DeleteRemovesOne(ts: seq<Task>, id: string)
    requires UniqueIds(ts) && id in Ids(ts)
    ensures |Select(ts, IdIsNot(id))| == |ts| - 1
  {
    var front, last := ts[..|ts| - 1], ts[|ts| - 1];
    assert ts == front + [last];
    assert Ids(ts) == Ids(front) + [last.id];
    if last.id == id {
      forall t | t in front ensures t.id != id {
        var k :| 0 <= k < |front| && front[k] == t;
      }
    } else {
      DeleteRemovesOne(front, id);
    }
  }

  /** Deleting keeps unique ids unique. */
  lemma {:induction false} DeleteKeepsIdsUnique(ts: seq<Task>, id: string)
    requires UniqueIds(ts)
    ensures UniqueIds(Select(ts, IdIsNot(id)))
  {
    if ts != [] {
      var front, last := ts[..|ts| - 1], ts[|ts| - 1];
      assert ts == front + [last];
      DeleteKeepsIdsUnique(front, id);
      var r := Select(ts, IdIsNot(id));
      var rf := Select(front, IdIsNot(id));
      forall i, j | 0 <= i < j < |r| ensures r[i].id != r[j].id {
        if j == |rf| {
          assert r[i] in rf;
          var k :| 0 <= k < |front| && front[k] == r[i];
          assert ts[k] == r[i] && ts[|ts| - 1] == last;
        } else {
          assert r[i] == rf[i] && r[j] == rf[j];
        }
      }
    }
  }

  /** Lookup after appending a user: a new name finds the new user, a taken name the earlier one. */
  lemma CreateUserThenGet(us: seq<User>, u: User, username: string)
    ensures FindByUsername(us + [u], username) ==
      if username in Usernames(us) then FindByUsername(us, username)
      else if u.username == username then Some(u)
      else None
  {
    assert Usernames(us + [u]) == Usernames(us) + [u.username];
    FirstIndexAppend(Usernames(us), u.username, username);
  }

  // ---------------------------------------------------------------------
  // The stores

  /** The task store: a typed view of one JSON file. */
  class TaskStorage {
    const json: JsonFile<Task>

    constructor (disk: FileState<Task>)
      ensures fresh(json) && json.state == Ensure(disk)
    {
      json := new JsonFile(disk);
    }

    /** get_all: the tasks the file holds, or the empty list when it is missing or not valid JSON text. */
    function GetAll(): seq<Task>
      reads json
    {
      json.ReadData()
    }

    /** get_by_id: the first stored task with the id, by a linear scan. */
    method GetById(id: string) returns (r: Option<Task>)
      ensures r == FindById(GetAll(), id)
      ensures r.None? <==> id !in Ids(GetAll())
    {
      var tasks := json.ReadData();
      for i := 0 to |tasks|
        invariant forall j :: 0 <= j < i ==> tasks[j].id != id
      {
        if tasks[i].id == id {
          FirstIndexAt(Ids(tasks), id, i);
          return Some(tasks[i]);
        }
      }
      assert id !in Ids(tasks);
      return None;
    }

    /** get_by_column: the stored tasks in the column, in stored order. */
    function GetByColumn(column: string): (r: seq<Task>)
      reads json
      ensures forall t :: t in r <==> t in GetAll() && t.column == column
    {
      Select(GetAll(), ColumnIs(column))
    }

    /** create: appends the task as given; no id is checked for duplicates. */
    method Create(task: Task) returns (r: Task)
      modifies json
      ensures r == task
      ensures json.state == Stored(old(GetAll()) + [task])
    {
      var data := json.ReadData();
      data := data + [task];
      json.WriteData(data);
      return task;
    }

    /**
     * update: merges the update into the first task with the id and writes
     * the list back; when no task has the id nothing is written. What it
     * returns is what a lookup of the id gives afterwards.
     */
    method Update(id: string, updates: TaskUpdate, now: Timestamp) returns (r: Option<Task>)
      modifies json
      ensures match ApplyUpdate(old(GetAll()), id, updates, now)
        case None => r.None? && json.state == old(json.state)
        case Some(written) => json.state == Stored(written) && r == FindById(written, id) && r.Some?
    {
      var data := json.ReadData();
      for i := 0 to |data|
        invariant forall j :: 0 <= j < i ==> data[j].id != id
      {
        if data[i].id == id {
          FirstIndexAt(Ids(data), id, i);
          ApplyUpdateSpec(data, id, updates, now);
          var item := Merge(data[i], updates, now);
          data := data[i := item];
          json.WriteData(data);
          return Some(item);
        }
      }
      assert id !in Ids(data);
      return None;
    }

    /** delete: rewrites the list without every task with the id, and reports whether one was there. */
    method Delete(id: string) returns (removed: bool)
      modifies json
      ensures removed <==> id in Ids(old(GetAll()))
      ensures removed ==> json.state == Stored(Select(old(GetAll()), IdIsNot(id)))
      ensures !removed ==> json.state == old(json.state)
    {
      var data := json.ReadData();
      var kept := Select(data, IdIsNot(id));
      IdsMembership(data, id);
      if |kept| < |data| {
        json.WriteData(kept);
        return true;
      }
      return false;
    }

    /** move: an update of the column alone; `position` has no effect. */
    method Move(id: string, column: string, position: Option<int>, now: Timestamp) returns (r: Option<Task>)
      modifies json
      ensures match ApplyUpdate(old(GetAll()), id, ColumnOnly(column), now)
        case None => r.None? && json.state == old(json.state)
        case Some(written) => json.state == Stored(written) && r == FindById(written, id) && r.Some?
    {
      r := Update(id, ColumnOnly(column), now);
    }
  }

  /** The user store: a typed view of another JSON file. */
  class UserStorage {
    const json: JsonFile<User>

    constructor (disk: FileState<User>)
      ensures fresh(json) && json.state == Ensure(disk)
    {
      json := new JsonFile(disk);
    }

    /** The users the file holds, or the empty list when it is missing or not valid JSON text. */
    function Users(): seq<User>
      reads json
    {
      json.ReadData()
    }

    /** get_by_username: the first stored user with the name, by a linear scan. */
    method GetByUsername(username: string) returns (r: Option<User>)
      ensures r == FindByUsername(Users(), username)
      ensures r.Some? ==> r.value.username == username
    {
      var users := json.ReadData();
      for i := 0 to |users|
        invariant forall j :: 0 <= j < i ==> users[j].username != username
      {
        if users[i].username == username {
          FirstIndexAt(Usernames(users), username, i);
          return Some(users[i]);
        }
      }
      assert username !in Usernames(users);
      return None;
    }

    /** create: appends the user; uniqueness of the name is left to the caller. */
    method Create(user: User) returns (r: User)
      modifies json
      ensures r == user
      ensures json.state == Stored(old(Users()) + [user])
    {
      var data := json.ReadData();
      data := data + [user];
      json.WriteData(data);
      return user;
    }

    /** exists: whether a lookup of the name finds a user, i.e. whether some stored user has it. */
    method Exists(username: string) returns (b: bool)
      ensures b <==> FindByUsername(Users(), username).Some?
      ensures b <==> username in Usernames(Users())
    {
      var u := GetByUsername(username);
      return u.Some?;
    }
  }
}
