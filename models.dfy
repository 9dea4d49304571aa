/**
 * The entities of the task manager: tasks, status-change records, per-user
 * report configurations and notifications, with their defaults and the
 * record's string form.
 */
module Models {
  import opened Wrappers
  import opened Strings

  type TaskId = nat
  type UserId = nat

  /** The length of a day in seconds. */
  const Day: int := 86400

  /** Seconds since midnight; a `TimeField` value. */
  type TimeOfDay = t: nat | t < Day

  /** The four `STATUS_CHOICES`. */
  datatype Status = Pending | InProgress | Completed | Cancelled

  /** `STATUS_CHOICES[0][0]`, the default of `Task.status`. */
  const DefaultStatus: Status := Pending

  /** The stored (and displayed) value of each choice. */
  function StatusName(s: Status): string {
    match s
    case Pending => "PENDING"
    case InProgress => "IN_PROGRESS"
    case Completed => "COMPLETED"
    case Cancelled => "CANCELLED"
  }

  function ParseStatus(name: string): (r: Option<Status>)
    ensures r.Some? ==> StatusName(r.value) == name
    ensures r.None? ==> forall s: Status :: StatusName(s) != name
  {
    if name == "PENDING" then Some(Pending)
    else if name == "IN_PROGRESS" then Some(InProgress)
    else if name == "COMPLETED" then Some(Completed)
    else if name == "CANCELLED" then Some(Cancelled)
    else None
  }

  predicate IsNameChar(c: char) {
    'A' <= c <= 'Z' || c == '_'
  }

  lemma StatusNameChars(s: Status)
    ensures |StatusName(s)| > 0
    ensures forall i :: 0 <= i < |StatusName(s)| ==> IsNameChar(StatusName(s)[i])
  {
  }

  /**
   * A row of the task table; its id is the key it is stored under. `owner`
   * is the nullable `user` foreign key.
   */
  datatype Task = Task(
    title: string,
    description: string,
    completed: bool,
    createdDate: int,
    deleted: bool,
    owner: Option<UserId>,
    priority: nat,
    status: Status)

  /** A task takes part in priority ordering while neither deleted nor completed. */
  predicate IsActive(t: Task) {
    !t.deleted && !t.completed
  }

  predicate ActiveOf(t: Task, u: UserId) {
    IsActive(t) && t.owner == Some(u)
  }

  /** The user's active tasks: `filter(user=u, deleted=False, completed=False)`. */
  function ActiveIds(rows: TaskTable, u: UserId): set<TaskId> {
    set id | id in rows && ActiveOf(rows[id], u)
  }

  /** A task built with every defaulted field left at its default. */
  function DefaultTask(title: string, description: string, createdDate: int): (t: Task)
    ensures IsActive(t) && t.owner == None
    ensures t.priority == 1 && t.status == DefaultStatus
    ensures t.title == title && t.description == description && t.createdDate == createdDate
  {
    Task(title, description, false, createdDate, false, None, 1, DefaultStatus)
  }

  /** A `TaskStatusChange` row. */
  datatype StatusChange = StatusChange(oldStatus: Status, newStatus: Status, timestamp: int, task: TaskId)

  /** `TaskStatusChange.__str__`: the task id, then the old and the new status names. */
  function StatusChangeText(c: StatusChange): (s: string)
    ensures |s| > 5 && s[..5] == "Task "
    ensures |s| >= |StatusName(c.newStatus)| && s[|s| - |StatusName(c.newStatus)|..] == StatusName(c.newStatus)
  {
    "Task " + NatToString(c.task) + " : " + StatusName(c.oldStatus) + " -> " + StatusName(c.newStatus)
  }

  predicate NotSpace(c: char) {
    c != ' '
  }

  lemma ParseStatusName(s: Status)
    ensures ParseStatus(StatusName(s)) == Some(s)
  {
  }

  /** Reads back `"{old} -> {new}"`. */
  function ParseTransition(r: string): Option<(Status, Status)> {
    var k := RunLength(r, NotSpace);
    var rest := r[k..];
    if |rest| < 4 || rest[..4] != " -> " then None
    else
      match (ParseStatus(r[..k]), ParseStatus(rest[4..]))
      case (Some(a), Some(b)) => Some((a, b))
      case _ => None
  }

  /** Reads back the task id and the two statuses from a record's text. */
  function ParseStatusChangeText(s: string): Option<(TaskId, Status, Status)> {
    if |s| < 5 || s[..5] != "Task " then None
    else
      var r1 := s[5..];
      var n := RunLength(r1, IsDigit);
      var r2 := r1[n..];
      if n == 0 || |r2| < 3 || r2[..3] != " : " then None
      else
        match ParseTransition(r2[3..])
        case Some((a, b)) => Some((ParseNat(r1[..n]), a, b))
        case None => None
  }

  lemma {:induction false} ParseTransitionRoundTrip(x: Status, y: Status)
    ensures ParseTransition(StatusName(x) + " -> " + StatusName(y)) == Some((x, y))
  {
    var a, b := StatusName(x), StatusName(y);
    var r := a + (" -> " + b);
    assert r == a + " -> " + b;
    StatusNameChars(x);
    RunLengthOfConcat(a, " -> " + b, NotSpace);
    assert r[..|a|] == a;
    assert r[|a|..] == " -> " + b;
    assert r[|a|..][4..] == b;
    ParseStatusName(x);
    ParseStatusName(y);
  }

  lemma {:induction false} ParseRecordHead(d: string, t: string)
    requires |d| >= 1 && AllDigits(d)
    ensures ParseStatusChangeText("Task " + d + " : " + t) ==
      match ParseTransition(t)
      case Some((a, b)) => Some((ParseNat(d), a, b))
      case None => None
  {
    var s := "Task " + d + " : " + t;
    assert s[..5] == "Task ";
    var r1 := s[5..];
    assert r1 == d + (" : " + t);
    RunLengthOfConcat(d, " : " + t, IsDigit);
    assert r1[..|d|] == d;
    assert r1[|d|..] == " : " + t;
    assert r1[|d|..][3..] == t;
  }

  lemma {:induction false} StatusChangeTextRoundTrip(c: StatusChange)
    ensures ParseStatusChangeText(StatusChangeText(c)) == Some((c.task, c.oldStatus, c.newStatus))
  {
    var d := NatToString(c.task);
    var t := StatusName(c.oldStatus) + " -> " + StatusName(c.newStatus);
    assert StatusChangeText(c) == "Task " + d + " : " + t;
    ParseRecordHead(d, t);
    ParseTransitionRoundTrip(c.oldStatus, c.newStatus);
    ParseNatToString(c.task);
  }

  type TaskTable = map<TaskId, Task>

  /** A registered user, as far as the core reads one. */
  datatype User = User(id: UserId, username: string, email: string)

  /** `datetime.time(22, 00)`, the default report time. */
  const DefaultReportTime: TimeOfDay := 22 * 3600

  /** A `ReportConfig` row; `lastSentTime` is an instant in seconds, null until the first send. */
  datatype ReportConfig = ReportConfig(user: Option<UserId>, time: TimeOfDay, lastSentTime: Option<int>)

  function DefaultReportConfig(user: Option<UserId>): (c: ReportConfig)
    ensures c.user == user && c.time == 22 * 3600 && c.lastSentTime == None
  {
    ReportConfig(user, DefaultReportTime, None)
  }

  /** The one-to-one `user` field: no two configurations name the same user. */
  predicate OnePerUser(cs: seq<ReportConfig>) {
    forall i, j :: 0 <= i < j < |cs| && cs[i].user.Some? ==> cs[i].user != cs[j].user
  }

  /** A `Notification` row. */
  datatype Notification = Notification(user: Option<UserId>, content: string, timestamp: int)
}
