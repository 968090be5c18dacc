/**
 * Record shapes of the board, their field bounds and defaults, and the
 * validation a JSON request body goes through before a handler sees it.
 *
 * Each record is a datatype; each bounded field has a validity predicate;
 * each request record has a Parse function from its JSON body (missing
 * fields take their defaults, null is accepted only where the field is
 * optional) whose contract says which bodies are accepted and which field
 * values come out. For the task create and update records, a Body function
 * writes a record back as JSON: parsing yields only valid records, and every
 * valid record is parsed back unchanged from its own body.
 */
module Models {
  import opened Wrappers
  import Config

  /** Timestamps are opaque ISO-8601 texts; the model never inspects them. */
  type Timestamp = string

  const MaxTitleLength := 200
  const MaxDescriptionLength := 2000
  const MaxCategoryLength := 50
  const MinUsernameLength := 3
  const MaxUsernameLength := 50
  const MinPasswordLength := 6
  const MinNewPasswordLength := 8

  datatype Priority = High | Medium | Low

  const DefaultPriority := Medium
  const DefaultColumn := "Backlog"

  function PriorityName(p: Priority): string {
    match p
    case High => "High"
    case Medium => "Medium"
    case Low => "Low"
  }

  /** The pattern `^(High|Medium|Low)$`: it accepts exactly the configured priority names. */
  function ParsePriority(s: string): (r: Option<Priority>)
    ensures r.Some? <==> s in Config.Priorities
    ensures r.Some? ==> PriorityName(r.value) == s
  {
    if s == "High" then Some(High)
    else if s == "Medium" then Some(Medium)
    else if s == "Low" then Some(Low)
    else None
  }

  /** Every priority has a configured name, and parsing that name gives it back. */
  lemma PriorityRoundTrip(p: Priority)
    ensures PriorityName(p) in Config.Priorities
    ensures ParsePriority(PriorityName(p)) == Some(p)
  {
  }

  predicate ValidTitle(s: string) { 1 <= |s| <= MaxTitleLength }

  predicate ValidDescription(d: Option<string>) { d.Some? ==> |d.value| <= MaxDescriptionLength }

  predicate ValidCategory(c: Option<string>) { c.Some? ==> |c.value| <= MaxCategoryLength }

  /** A validated request to create a task (TaskBase plus a column). */
  datatype TaskCreate = TaskCreate(
    title: string,
    description: Option<string>,
    priority: Priority,
    category: Option<string>,
    dueDate: Option<Timestamp>,
    column: string)

  predicate ValidTaskCreate(c: TaskCreate) {
    ValidTitle(c.title) && ValidDescription(c.description) && ValidCategory(c.category)
  }

  /** A stored task. */
  datatype Task = Task(
    id: string,
    title: string,
    description: Option<string>,
    priority: Priority,
    category: Option<string>,
    dueDate: Option<Timestamp>,
    column: string,
    createdAt: Timestamp,
    updatedAt: Timestamp)

  predicate ValidTask(t: Task) {
    ValidTitle(t.title) && ValidDescription(t.description) && ValidCategory(t.category)
  }

  /** A validated partial update: `None` means "leave this field as it is". */
  datatype TaskUpdate = TaskUpdate(
    title: Option<string>,
    description: Option<string>,
    priority: Option<Priority>,
    category: Option<string>,
    dueDate: Option<Timestamp>,
    column: Option<string>)

  /** A present field obeys the bounds of a stored task; `column` is unconstrained. */
  predicate ValidTaskUpdate(u: TaskUpdate) {
    (u.title.Some? ==> ValidTitle(u.title.value)) && ValidDescription(u.description) && ValidCategory(u.category)
  }

  /** A validated request to move a task; `position` is accepted and never used. */
  datatype TaskMove = TaskMove(column: string, position: Option<int>)

  datatype User = User(username: string, hashedPassword: string, disabled: bool, isAdmin: bool)

  datatype UserCreate = UserCreate(username: string, password: string)

  predicate ValidUserCreate(u: UserCreate) {
    MinUsernameLength <= |u.username| <= MaxUsernameLength && |u.password| >= MinPasswordLength
  }

  datatype PasswordChange = PasswordChange(currentPassword: string, newPassword: string)

  predicate ValidPasswordChange(p: PasswordChange) { |p.newPassword| >= MinNewPasswordLength }

  /** The task a create request becomes, given its fresh id and the creation time. */
  function NewTask(c: TaskCreate, id: string, now: Timestamp): Task {
    Task(id, c.title, c.description, c.priority, c.category, c.dueDate, c.column, now, now)
  }

  /** A created task carries the request's fields unchanged and is itself valid. */
  lemma NewTaskFromRequest(c: TaskCreate, id: string, now: Timestamp)
    requires ValidTaskCreate(c)
    ensures var t := NewTask(c, id, now);
      && ValidTask(t)
      && t.id == id && t.createdAt == now && t.updatedAt == now
      && TaskCreate(t.title, t.description, t.priority, t.category, t.dueDate, t.column) == c
  {
  }

  // ---------------------------------------------------------------------
  // JSON request bodies and their validation

  /** One field of a JSON request body: missing, explicitly null, or present. */
  datatype Field<T> = Absent | Null | Present(value: T)

  /** A non-optional field with a default: missing takes the default, null is refused. */
  function WithDefault<T>(f: Field<T>, default: T): (r: Option<T>)
    ensures r.None? <==> f.Null?
  {
    match f
    case Absent => Some(default)
    case Null => None
    case Present(v) => Some(v)
  }

  /** An `Optional[...] = None` field: missing and null both read as `None`. */
  function Nullable<T>(f: Field<T>): Option<T> {
    if f.Present? then Some(f.value) else None
  }

  /** The body field that writes an optional value back: `None` as null. */
  function FieldOf<T>(o: Option<T>): Field<T> {
    if o.Some? then Present(o.value) else Null
  }

  datatype TaskCreateBody = TaskCreateBody(
    title: Field<string>,
    description: Field<string>,
    priority: Field<string>,
    category: Field<string>,
    dueDate: Field<Timestamp>,
    column: Field<string>)

  /** TaskCreate validation: title required, priority defaults to Medium, column to Backlog. */
  function ParseTaskCreate(b: TaskCreateBody): (r: Option<TaskCreate>)
    ensures r.Some? <==>
      && b.title.Present? && 1 <= |b.title.value| <= 200
      && (b.description.Present? ==> |b.description.value| <= 2000)
      && (b.category.Present? ==> |b.category.value| <= 50)
      && !b.priority.Null? && (b.priority.Present? ==> b.priority.value in Config.Priorities)
      && !b.column.Null?
    ensures r.Some? ==> ValidTaskCreate(r.value) && r.value.title == b.title.value
    ensures r.Some? && b.priority.Absent? ==> r.value.priority == Medium
    ensures r.Some? && b.column.Absent? ==> r.value.column == "Backlog"
    ensures r.Some? && b.priority.Present? ==> PriorityName(r.value.priority) == b.priority.value
    ensures r.Some? && b.column.Present? ==> r.value.column == b.column.value
    ensures r.Some? ==>
      && r.value.description == Nullable(b.description)
      && r.value.category == Nullable(b.category)
      && r.value.dueDate == Nullable(b.dueDate)
  {
    var description := Nullable(b.description);
    var category := Nullable(b.category);
    var priority := WithDefault(b.priority, PriorityName(DefaultPriority));
    var column := WithDefault(b.column, DefaultColumn);
    if !b.title.Present? || !ValidTitle(b.title.value) then None
    else if !ValidDescription(description) || !ValidCategory(category) then None
    else if priority.None? || column.None? then None
    else match ParsePriority(priority.value)
      case None => None
      case Some(p) => Some(TaskCreate(b.title.value, description, p, category, Nullable(b.dueDate), column.value))
  }

  function TaskCreateBodyOf(c: TaskCreate): TaskCreateBody {
    TaskCreateBody(Present(c.title), FieldOf(c.description), Present(PriorityName(c.priority)),
                   FieldOf(c.category), FieldOf(c.dueDate), Present(c.column))
  }

  /** Validation accepts the body of every valid create request and gives it back unchanged. */
  lemma TaskCreateRoundTrip(c: TaskCreate)
    requires ValidTaskCreate(c)
    ensures ParseTaskCreate(TaskCreateBodyOf(c)) == Some(c)
  {
    PriorityRoundTrip(c.priority);
  }

  datatype TaskUpdateBody = TaskUpdateBody(
    title: Field<string>,
    description: Field<string>,
    priority: Field<string>,
    category: Field<string>,
    dueDate: Field<Timestamp>,
    column: Field<string>)

  /** TaskUpdate validation: every field optional, a present one bounded as in a task. */
  function ParseTaskUpdate(b: TaskUpdateBody): (r: Option<TaskUpdate>)
    ensures r.Some? <==>
      && (b.title.Present? ==> 1 <= |b.title.value| <= 200)
      && (b.description.Present? ==> |b.description.value| <= 2000)
      && (b.category.Present? ==> |b.category.value| <= 50)
      && (b.priority.Present? ==> b.priority.value in Config.Priorities)
    ensures r.Some? ==> ValidTaskUpdate(r.value) && r.value.column == Nullable(b.column)
    ensures r.Some? ==>
      && r.value.title == Nullable(b.title)
      && r.value.description == Nullable(b.description)
      && r.value.category == Nullable(b.category)
      && r.value.dueDate == Nullable(b.dueDate)
    ensures r.Some? ==> (r.value.priority.Some? <==> b.priority.Present?)
    ensures r.Some? && b.priority.Present? ==> PriorityName(r.value.priority.value) == b.priority.value
  {
    var title := Nullable(b.title);
    var description := Nullable(b.description);
    var category := Nullable(b.category);
    if title.Some? && !ValidTitle(title.value) then None
    else if !ValidDescription(description) || !ValidCategory(category) then None
    else if b.priority.Present? && ParsePriority(b.priority.value).None? then None
    else
      var priority := if b.priority.Present? then ParsePriority(b.priority.value) else None;
      Some(TaskUpdate(title, description, priority, category, Nullable(b.dueDate), Nullable(b.column)))
  }

  function TaskUpdateBodyOf(u: TaskUpdate): TaskUpdateBody {
    TaskUpdateBody(FieldOf(u.title), FieldOf(u.description),
                   if u.priority.Some? then Present(PriorityName(u.priority.value)) else Absent,
                   FieldOf(u.category), FieldOf(u.dueDate), FieldOf(u.column))
  }

  /** Validation accepts the body of every valid update and gives it back unchanged. */
  lemma TaskUpdateRoundTrip(u: TaskUpdate)
    requires ValidTaskUpdate(u)
    ensures ParseTaskUpdate(TaskUpdateBodyOf(u)) == Some(u)
  {
    if u.priority.Some? {
      PriorityRoundTrip(u.priority.value);
    }
  }

  datatype TaskMoveBody = TaskMoveBody(column: Field<string>, position: Field<int>)

  /** TaskMove validation: the column is required, the position defaults to none. */
  function ParseTaskMove(b: TaskMoveBody): (r: Option<TaskMove>)
    ensures r.Some? <==> b.column.Present?
    ensures r.Some? ==> r.value.column == b.column.value
    ensures r.Some? && !b.position.Present? ==> r.value.position.None?
    ensures r.Some? ==> r.value.position == Nullable(b.position)
  {
    if b.column.Present? then Some(TaskMove(b.column.value, Nullable(b.position))) else None
  }

  datatype UserBody = UserBody(username: Field<string>, hashedPassword: Field<string>,
                               disabled: Field<bool>, isAdmin: Field<bool>)

  /** User: name and hash required, `disabled` and `is_admin` default to false. */
  function ParseUser(b: UserBody): (r: Option<User>)
    ensures r.Some? <==> b.username.Present? && b.hashedPassword.Present? && !b.disabled.Null? && !b.isAdmin.Null?
    ensures r.Some? && b.disabled.Absent? ==> !r.value.disabled
    ensures r.Some? && b.isAdmin.Absent? ==> !r.value.isAdmin
    ensures r.Some? ==> r.value.username == b.username.value && r.value.hashedPassword == b.hashedPassword.value
    ensures r.Some? && b.disabled.Present? ==> r.value.disabled == b.disabled.value
    ensures r.Some? && b.isAdmin.Present? ==> r.value.isAdmin == b.isAdmin.value
  {
    var disabled := WithDefault(b.disabled, false);
    var isAdmin := WithDefault(b.isAdmin, false);
    if b.username.Present? && b.hashedPassword.Present? && disabled.Some? && isAdmin.Some? then
      Some(User(b.username.value, b.hashedPassword.value, disabled.value, isAdmin.value))
    else None
  }

  datatype UserCreateBody = UserCreateBody(username: Field<string>, password: Field<string>)

  /** UserCreate validation: a username of 3 to 50 characters and a password of at least 6. */
  function ParseUserCreate(b: UserCreateBody): (r: Option<UserCreate>)
    ensures r.Some? <==>
      && b.username.Present? && 3 <= |b.username.value| <= 50
      && b.password.Present? && |b.password.value| >= 6
    ensures r.Some? ==> ValidUserCreate(r.value) && r.value == UserCreate(b.username.value, b.password.value)
  {
    if b.username.Present? && b.password.Present?
       && ValidUserCreate(UserCreate(b.username.value, b.password.value))
    then Some(UserCreate(b.username.value, b.password.value))
    else None
  }

  datatype PasswordChangeBody = PasswordChangeBody(currentPassword: Field<string>, newPassword: Field<string>)

  /** PasswordChange validation: both fields required, the new password at least 8 characters. */
  function ParsePasswordChange(b: PasswordChangeBody): (r: Option<PasswordChange>)
    ensures r.Some? <==>
      b.currentPassword.Present? && b.newPassword.Present? && |b.newPassword.value| >= 8
    ensures r.Some? ==> ValidPasswordChange(r.value)
    ensures r.Some? ==> r.value == PasswordChange(b.currentPassword.value, b.newPassword.value)
  {
    if b.currentPassword.Present? && b.newPassword.Present?
       && ValidPasswordChange(PasswordChange(b.currentPassword.value, b.newPassword.value))
    then Some(PasswordChange(b.currentPassword.value, b.newPassword.value))
    else None
  }
}
