/**
 * The periodic jobs: the daily per-user task summary with its scheduling
 * rule, and the pending-task reminder. Sending an e-mail is an output event.
 */
module Reports {
  import opened Wrappers
  import opened Strings
  import opened Models
  import Listing

  /** `datetime.time()` of an instant, as seconds since midnight. */
  function TimeOfDayOf(instant: int): TimeOfDay {
    instant % Day
  }

  /**
   * A configuration is processed when it was never sent or more than a day
   * has passed since the last send, and the time of day is past its `time`.
   */
  predicate Due(c: ReportConfig, now: int)
    ensures Due(c, now) ==> c.lastSentTime.None? || c.lastSentTime.value < now
    ensures Due(c, now) ==> c.time < Day - 1
  {
    (c.lastSentTime.None? || now > c.lastSentTime.value + Day) && TimeOfDayOf(now) > c.time
  }

  /** After a send at `t` a configuration is not due again until more than a day later. */
  lemma NotDueWithinADayOfSend(c: ReportConfig, t: int, later: int)
    requires Due(c.(lastSentTime := Some(t)), later)
    ensures later > t + Day
  {
  }

  datatype Mail = Mail(subject: string, body: string, sender: string, recipients: seq<string>)

  const Sender := "tasks@taskmanager.com"
  const SummarySubject := "Task Summary"
  const ReminderSubject := "Pending Tasks from Task Manager"

  /** Strict lexicographic order on strings, the order of `order_by` on a text column. */
  predicate StrLess(a: string, b: string) {
    if a == [] then b != []
    else if b == [] then false
    else a[0] < b[0] || (a[0] == b[0] && StrLess(a[1..], b[1..]))
  }

  /** The statuses in the order of `order_by('status')`: ascending by stored name. */
  const SummaryOrder: seq<Status> := [Cancelled, Completed, InProgress, Pending]

  lemma SummaryOrderIsByName()
    ensures forall s: Status :: s in SummaryOrder
    ensures forall i, j :: 0 <= i < j < |SummaryOrder| ==> StrLess(StatusName(SummaryOrder[i]), StatusName(SummaryOrder[j]))
  {
    forall s: Status
      ensures s in SummaryOrder
    {
      match s
      case Cancelled => assert SummaryOrder[0] == s;
      case Completed => assert SummaryOrder[1] == s;
      case InProgress => assert SummaryOrder[2] == s;
      case Pending => assert SummaryOrder[3] == s;
    }
  }

  /** The user's non-deleted tasks with status `s`: one row of the grouped count. */
  function StatusCount(tasks: TaskTable, u: UserId, s: Status): nat {
    |WithStatus(tasks, u, s)|
  }

  function WithStatus(tasks: TaskTable, u: UserId, s: Status): set<TaskId> {
    set id: TaskId | id in tasks && tasks[id].owner == Some(u) && !tasks[id].deleted && tasks[id].status == s
  }

  /** The line for status `s`; a status with no tasks has no group and no line. */
  function SummaryLine(tasks: TaskTable, u: UserId, s: Status): string {
    var n := StatusCount(tasks, u, s);
    if n > 0 then StatusName(s) + " : " + NatToString(n) + "\n" else ""
  }

  function SummaryLines(tasks: TaskTable, u: UserId, order: seq<Status>): string {
    if order == [] then ""
    else SummaryLines(tasks, u, order[..|order| - 1]) + SummaryLine(tasks, u, order[|order| - 1])
  }

  function SummaryHeader(username: string): string {
    "Hi " + username + "\nPlease find the below task summary :\n"
  }

  /**
   * The whole e-mail body (and notification content) for one user: the
   * header, then one line per status in the order of `SummaryOrder`.
   */
  function SummaryBody(username: string, tasks: TaskTable, u: UserId): (s: string)
    ensures |s| >= |SummaryHeader(username)| && s[..|SummaryHeader(username)|] == SummaryHeader(username)
  {
    SummaryHeader(username) + SummaryLine(tasks, u, Cancelled) + SummaryLine(tasks, u, Completed) +
      SummaryLine(tasks, u, InProgress) + SummaryLine(tasks, u, Pending)
  }

  /** The body is the header followed by the lines of `SummaryOrder`, in that order. */
  lemma SummaryBodyLines(username: string, tasks: TaskTable, u: UserId)
    ensures SummaryBody(username, tasks, u) == SummaryHeader(username) + SummaryLines(tasks, u, SummaryOrder)
  {
    var o := SummaryOrder;
    var h := SummaryHeader(username);
    var l1, l2 := SummaryLine(tasks, u, Cancelled), SummaryLine(tasks, u, Completed);
    var l3, l4 := SummaryLine(tasks, u, InProgress), SummaryLine(tasks, u, Pending);
    var p1, p2, p3 := [Cancelled], [Cancelled, Completed], [Cancelled, Completed, InProgress];
    assert o[..|o| - 1] == p3 && p3[..|p3| - 1] == p2 && p2[..|p2| - 1] == p1 && p1[..|p1| - 1] == [];
    assert SummaryLines(tasks, u, p1) == "" + l1 == l1;
    assert SummaryLines(tasks, u, p2) == l1 + l2;
    assert SummaryLines(tasks, u, p3) == (l1 + l2) + l3;
    assert SummaryLines(tasks, u, o) == ((l1 + l2) + l3) + l4;
    Concat3(h, l1 + l2 + l3, l4);
    Concat3(h, l1 + l2, l3);
    Concat3(h, l1, l2);
  }

  /** The body is built line by line, as the job appends to it. */
  method BuildSummary(username: string, tasks: TaskTable, u: UserId) returns (content: string)
    ensures content == SummaryBody(username, tasks, u)
  {
    content := SummaryHeader(username);
    content := AppendLines(content, tasks, u, SummaryOrder);
    SummaryBodyLines(username, tasks, u);
  }

  /** Appends a line for each status of `order` that has tasks: the loop over the grouped query. */
  method AppendLines(start: string, tasks: TaskTable, u: UserId, order: seq<Status>) returns (content: string)
    ensures content == start + SummaryLines(tasks, u, order)
  {
    content := start;
    for k := 0 to |order|
      invariant content == start + SummaryLines(tasks, u, order[..k])
    {
      // One row of the grouped query per status that has tasks; SummaryLine is empty otherwise.
      var line := SummaryLine(tasks, u, order[k]);
      LinesStep(tasks, u, order, k, start, content, line);
      content := content + line;
    }
    assert order[..|order|] == order;
  }

  lemma LinesStep(tasks: TaskTable, u: UserId, order: seq<Status>, k: nat, start: string, content: string, line: string)
    requires k < |order|
    requires content == start + SummaryLines(tasks, u, order[..k])
    requires line == SummaryLine(tasks, u, order[k])
    ensures content + line == start + SummaryLines(tasks, u, order[..k + 1])
  {
    var init := order[..k + 1];
    assert init[..|init| - 1] == order[..k];
    assert init[|init| - 1] == order[k];
    Concat3(start, SummaryLines(tasks, u, order[..k]), line);
  }

  lemma Concat3<T>(a: seq<T>, b: seq<T>, c: seq<T>)
    ensures (a + b) + c == a + (b + c)
  {
  }

  ghost function WithStatusIn(tasks: TaskTable, u: UserId, order: seq<Status>): set<TaskId> {
    set id: TaskId | id in tasks && tasks[id].owner == Some(u) && !tasks[id].deleted && tasks[id].status in order
  }

  function CountTotal(tasks: TaskTable, u: UserId, order: seq<Status>): nat {
    if order == [] then 0
    else CountTotal(tasks, u, order[..|order| - 1]) + StatusCount(tasks, u, order[|order| - 1])
  }

  lemma {:induction false} CountTotalIsCardinality(tasks: TaskTable, u: UserId, order: seq<Status>)
    requires forall i, j :: 0 <= i < j < |order| ==> order[i] != order[j]
    ensures CountTotal(tasks, u, order) == |WithStatusIn(tasks, u, order)|
  {
    if order != [] {
      var init, s := order[..|order| - 1], order[|order| - 1];
      CountTotalIsCardinality(tasks, u, init);
      assert order == init + [s];
      assert s !in init;
      WithStatusSplit(tasks, u, init, s);
    }
  }

  /** Adding a status not yet listed adds its tasks, which are disjoint from the others. */
  lemma WithStatusSplit(tasks: TaskTable, u: UserId, init: seq<Status>, s: Status)
    requires s !in init
    ensures |WithStatusIn(tasks, u, init + [s])| == |WithStatusIn(tasks, u, init)| + |WithStatus(tasks, u, s)|
  {
    var a, b := WithStatusIn(tasks, u, init), WithStatus(tasks, u, s);
    assert forall x :: x in init + [s] <==> x in init || x == s;
    assert WithStatusIn(tasks, u, init + [s]) == a + b;
    assert a * b == {};
  }

  /** The counts in a summary add up to the number of the user's non-deleted tasks. */
  lemma SummaryCountsCoverTasks(tasks: TaskTable, u: UserId)
    ensures CountTotal(tasks, u, SummaryOrder) == |Listing.NotDeleted(tasks, u)|
  {
    CountTotalIsCardinality(tasks, u, SummaryOrder);
    SummaryOrderIsByName();
    assert WithStatusIn(tasks, u, SummaryOrder) == Listing.NotDeleted(tasks, u);
  }

  /** `filter(user=user, deleted=False, completed=False).count()`. */
  function PendingCount(tasks: TaskTable, u: UserId): nat {
    |ActiveIds(tasks, u)|
  }

  /** The pending count is the length of the user's active-task listing. */
  lemma PendingCountIsListingLength(tasks: TaskTable, u: UserId)
    ensures PendingCount(tasks, u) == |Listing.ActiveListing(tasks, u, None)|
  {
    var r := Listing.ActiveListing(tasks, u, None);
    Listing.SetOfListing(r, ActiveIds(tasks, u));
  }

  /** The reminder body: "You have ", the pending count in decimal, " pending tasks.". */
  function ReminderText(tasks: TaskTable, u: UserId): (s: string)
    ensures |s| > 24 && s[..9] == "You have " && s[|s| - 15..] == " pending tasks."
  {
    "You have " + NatToString(PendingCount(tasks, u)) + " pending tasks."
  }

  /** Reads the count back out of a reminder. */
  function ParseReminder(s: string): Option<nat> {
    var pre, post := "You have ", " pending tasks.";
    if |s| < |pre| + |post| || s[..|pre|] != pre || s[|s| - |post|..] != post then None
    else
      var digits := s[|pre|..|s| - |post|];
      if digits != [] && AllDigits(digits) then Some(ParseNat(digits)) else None
  }

  lemma ReminderRoundTrip(tasks: TaskTable, u: UserId)
    ensures ParseReminder(ReminderText(tasks, u)) == Some(PendingCount(tasks, u))
  {
    var d := NatToString(PendingCount(tasks, u));
    var s := ReminderText(tasks, u);
    assert s[..9] == "You have ";
    assert s[|s| - 15..] == " pending tasks.";
    assert s[9..|s| - 15] == d;
    ParseNatToString(PendingCount(tasks, u));
  }

  /** `send_email_reminder`: one reminder per user, in the order users are listed. */
  method SendEmailReminder(tasks: TaskTable, users: seq<User>) returns (mails: seq<Mail>)
    ensures |mails| == |users|
    ensures forall k :: 0 <= k < |users| ==>
      mails[k] == Mail(ReminderSubject, ReminderText(tasks, users[k].id), Sender, [users[k].email])
  {
    mails := [];
    for k := 0 to |users|
      invariant |mails| == k
      invariant forall j :: 0 <= j < k ==>
        mails[j] == Mail(ReminderSubject, ReminderText(tasks, users[j].id), Sender, [users[j].email])
    {
      var content := "You have " + NatToString(PendingCount(tasks, users[k].id)) + " pending tasks.";
      mails := mails + [Mail(ReminderSubject, content, Sender, [users[k].email])];
    }
  }

  /** Every configuration's user is a known account (the foreign key holds). */
  predicate UsersKnown(cs: seq<ReportConfig>, users: map<UserId, User>) {
    forall k :: 0 <= k < |cs| && cs[k].user.Some? ==> cs[k].user.value in users
  }

  /**
   * The effect of one run of the summary job over the configurations `cs`:
   * the configurations as saved, the notifications and e-mails produced, the
   * addresses collected, and whether the job stopped with an error.
   */
  datatype Run = Run(configs: seq<ReportConfig>, notifications: seq<Notification>,
                     mails: seq<Mail>, sentTo: seq<string>, raised: bool)

  /**
   * `send_task_summary` over the configurations in iteration order. A due
   * configuration without a user makes the job fail on `user.username`; the
   * iterations before it have been committed, the ones after it never run.
   */
  function SummaryRun(cs: seq<ReportConfig>, tasks: TaskTable, users: map<UserId, User>, now: int): (r: Run)
    requires UsersKnown(cs, users)
    ensures |r.configs| == |cs| && |r.notifications| == |r.mails| == |r.sentTo|
  {
    if cs == [] then Run([], [], [], [], false)
    else RunStep(SummaryRun(cs[..|cs| - 1], tasks, users, now), cs[|cs| - 1], tasks, users, now)
  }

  /** One iteration of the job's loop, for configuration `c`, after the iterations `prev`. */
  function RunStep(prev: Run, c: ReportConfig, tasks: TaskTable, users: map<UserId, User>, now: int): (r: Run)
    requires c.user.Some? ==> c.user.value in users
    ensures |r.configs| == |prev.configs| + 1
    ensures r.configs[|prev.configs|].user == c.user && r.configs[|prev.configs|].time == c.time
    ensures |r.notifications| - |prev.notifications| == |r.mails| - |prev.mails| == |r.sentTo| - |prev.sentTo| <= 1
    ensures prev.raised ==> r.raised && r.notifications == prev.notifications && r.mails == prev.mails
  {
    if prev.raised || !Due(c, now) then prev.(configs := prev.configs + [c])
    else if c.user.None? then prev.(configs := prev.configs + [c], raised := true)
    else
      var account := users[c.user.value];
      var body := SummaryBody(account.username, tasks, c.user.value);
      Run(prev.configs + [c.(lastSentTime := Some(now))],
          prev.notifications + [Notification(c.user, body, now)],
          prev.mails + [Mail(SummarySubject, body, Sender, [account.email])],
          prev.sentTo + [account.email],
          false)
  }

  /**
   * A run keeps one configuration row per input row, with its user and time;
   * each mail goes to the address collected with it, and each notification
   * holds the body of its mail.
   */
  predicate WellShaped(r: Run, cs: seq<ReportConfig>, now: int) {
    |r.configs| == |cs| && |r.notifications| == |r.mails| == |r.sentTo| &&
    (forall k :: 0 <= k < |cs| ==> r.configs[k].user == cs[k].user && r.configs[k].time == cs[k].time) &&
    (forall k :: 0 <= k < |r.mails| ==>
      r.mails[k].subject == SummarySubject && r.mails[k].sender == Sender &&
      r.mails[k].recipients == [r.sentTo[k]] &&
      r.notifications[k].content == r.mails[k].body && r.notifications[k].timestamp == now)
  }

  /** One step keeps a run well shaped. */
  lemma StepShape(prev: Run, init: seq<ReportConfig>, c: ReportConfig, tasks: TaskTable,
                  users: map<UserId, User>, now: int)
    requires c.user.Some? ==> c.user.value in users
    requires WellShaped(prev, init, now)
    ensures WellShaped(RunStep(prev, c, tasks, users, now), init + [c], now)
  {
    var r := RunStep(prev, c, tasks, users, now);
    assert forall k :: 0 <= k < |init| ==> (init + [c])[k] == init[k] && r.configs[k] == prev.configs[k];
  }

  lemma {:induction false} RunShape(cs: seq<ReportConfig>, tasks: TaskTable, users: map<UserId, User>, now: int)
    requires UsersKnown(cs, users)
    ensures WellShaped(SummaryRun(cs, tasks, users, now), cs, now)
  {
    if cs != [] {
      var init := cs[..|cs| - 1];
      RunShape(init, tasks, users, now);
      StepShape(SummaryRun(init, tasks, users, now), init, cs[|cs| - 1], tasks, users, now);
      assert init + [cs[|cs| - 1]] == cs;
    }
  }

  /**
   * Notification `k` of run `r` and its mail carry configuration `c`'s user,
   * that user's address and that user's summary.
   */
  ghost predicate Summarizes(r: Run, k: nat, c: ReportConfig, tasks: TaskTable, users: map<UserId, User>)
    requires k < |r.notifications| && k < |r.mails| && k < |r.sentTo|
  {
    c.user.Some? && c.user.value in users &&
    var account := users[c.user.value];
    r.notifications[k].user == c.user && r.sentTo[k] == account.email &&
    r.mails[k].body == r.notifications[k].content == SummaryBody(account.username, tasks, c.user.value)
  }

  /** Notification `k` answers some due configuration of `cs`, with that configuration's summary. */
  ghost predicate Answers(r: Run, k: nat, cs: seq<ReportConfig>, tasks: TaskTable, users: map<UserId, User>, now: int)
    requires k < |r.notifications| && k < |r.mails| && k < |r.sentTo|
  {
    exists j :: 0 <= j < |cs| && Due(cs[j], now) && Summarizes(r, k, cs[j], tasks, users)
  }

  /** Every notification of the run answers a due configuration of `cs`. */
  ghost predicate SentSummaries(r: Run, cs: seq<ReportConfig>, tasks: TaskTable, users: map<UserId, User>, now: int) {
    |r.notifications| == |r.mails| == |r.sentTo| &&
    forall k :: 0 <= k < |r.notifications| ==> Answers(r, k, cs, tasks, users, now)
  }

  /** One step keeps every notification tied to its configuration. */
  lemma StepSummaries(prev: Run, init: seq<ReportConfig>, c: ReportConfig, tasks: TaskTable,
                      users: map<UserId, User>, now: int)
    requires c.user.Some? ==> c.user.value in users
    requires SentSummaries(prev, init, tasks, users, now)
    ensures SentSummaries(RunStep(prev, c, tasks, users, now), init + [c], tasks, users, now)
  {
    var r := RunStep(prev, c, tasks, users, now);
    var cs := init + [c];
    forall k | 0 <= k < |r.notifications|
      ensures Answers(r, k, cs, tasks, users, now)
    {
      if k < |prev.notifications| {
        assert Answers(prev, k, init, tasks, users, now);
        var j :| 0 <= j < |init| && Due(init[j], now) && Summarizes(prev, k, init[j], tasks, users);
        assert cs[j] == init[j];
        assert Summarizes(r, k, cs[j], tasks, users);
      } else {
        assert cs[|init|] == c;
        assert Summarizes(r, k, cs[|init|], tasks, users);
      }
    }
  }

  /**
   * Each notification of a run, and the mail sent with it, goes to the user
   * of some due configuration and holds that user's own summary.
   */
  lemma {:induction false} RunSummaries(cs: seq<ReportConfig>, tasks: TaskTable, users: map<UserId, User>, now: int)
    requires UsersKnown(cs, users)
    ensures SentSummaries(SummaryRun(cs, tasks, users, now), cs, tasks, users, now)
  {
    if cs != [] {
      var init := cs[..|cs| - 1];
      RunSummaries(init, tasks, users, now);
      StepSummaries(SummaryRun(init, tasks, users, now), init, cs[|cs| - 1], tasks, users, now);
      assert init + [cs[|cs| - 1]] == cs;
    }
  }

  /** The run over one more configuration is one more step. */
  lemma RunExtends(cs: seq<ReportConfig>, tasks: TaskTable, users: map<UserId, User>, now: int, k: nat)
    requires UsersKnown(cs, users)
    requires k < |cs|
    ensures UsersKnown(cs[..k], users) && UsersKnown(cs[..k + 1], users)
    ensures SummaryRun(cs[..k + 1], tasks, users, now) ==
      RunStep(SummaryRun(cs[..k], tasks, users, now), cs[k], tasks, users, now)
  {
    assert cs[..k + 1][..k] == cs[..k];
  }

  /** Some configuration of `cs` is due and has no user: the job fails on it. */
  ghost predicate Fails(cs: seq<ReportConfig>, now: int) {
    exists j :: 0 <= j < |cs| && Due(cs[j], now) && cs[j].user.None?
  }

  /** A configuration as the job leaves it, given whether the job has already failed. */
  function Processed(failed: bool, c: ReportConfig, now: int): ReportConfig {
    if !failed && Due(c, now) && c.user.Some? then c.(lastSentTime := Some(now)) else c
  }

  /** What one step does to the rows and to the failure flag. */
  lemma StepConfigs(prev: Run, c: ReportConfig, tasks: TaskTable, users: map<UserId, User>, now: int)
    requires c.user.Some? ==> c.user.value in users
    ensures RunStep(prev, c, tasks, users, now).configs == prev.configs + [Processed(prev.raised, c, now)]
    ensures RunStep(prev, c, tasks, users, now).raised == (prev.raised || (Due(c, now) && c.user.None?))
  {
  }

  lemma FailsSnoc(init: seq<ReportConfig>, c: ReportConfig, now: int)
    ensures Fails(init + [c], now) <==> Fails(init, now) || (Due(c, now) && c.user.None?)
  {
    var cs := init + [c];
    if Fails(init, now) {
      var j :| 0 <= j < |init| && Due(init[j], now) && init[j].user.None?;
      assert cs[j] == init[j];
    }
    if Due(c, now) && c.user.None? {
      assert cs[|init|] == c;
    }
    if Fails(cs, now) && !Fails(init, now) {
      var j :| 0 <= j < |cs| && Due(cs[j], now) && cs[j].user.None?;
      if j < |init| {
        assert cs[j] == init[j];
      }
    }
  }

  /**
   * What a run leaves in each configuration: a due configuration reached
   * before any failure is stamped with `now`; every other one is unchanged.
   * The job fails exactly when some due configuration has no user.
   */
  lemma {:induction false} RunConfigs(cs: seq<ReportConfig>, tasks: TaskTable, users: map<UserId, User>, now: int)
    requires UsersKnown(cs, users)
    ensures SummaryRun(cs, tasks, users, now).raised <==> Fails(cs, now)
    ensures forall k :: 0 <= k < |cs| ==>
      SummaryRun(cs, tasks, users, now).configs[k] == Processed(Fails(cs[..k], now), cs[k], now)
  {
    if cs != [] {
      var n := |cs| - 1;
      var init, c := cs[..n], cs[n];
      RunConfigs(init, tasks, users, now);
      var prev := SummaryRun(init, tasks, users, now);
      StepConfigs(prev, c, tasks, users, now);
      assert cs == init + [c];
      FailsSnoc(init, c, now);
      forall k | 0 <= k < |cs|
        ensures SummaryRun(cs, tasks, users, now).configs[k] == Processed(Fails(cs[..k], now), cs[k], now)
      {
        if k < n {
          assert cs[..k] == init[..k];
          assert cs[k] == init[k];
        } else {
          assert cs[..k] == init;
        }
      }
    }
  }

  /** The addresses of the due configurations, in iteration order. */
  function DueEmails(cs: seq<ReportConfig>, users: map<UserId, User>, now: int): seq<string>
    requires UsersKnown(cs, users)
  {
    if cs == [] then []
    else
      var c := cs[|cs| - 1];
      DueEmails(cs[..|cs| - 1], users, now) +
        (if Due(c, now) && c.user.Some? then [users[c.user.value].email] else [])
  }

  /** A run that completes returns the address of each due configuration's user, in iteration order. */
  lemma {:induction false} RunSendsToDue(cs: seq<ReportConfig>, tasks: TaskTable, users: map<UserId, User>, now: int)
    requires UsersKnown(cs, users)
    requires !SummaryRun(cs, tasks, users, now).raised
    ensures SummaryRun(cs, tasks, users, now).sentTo == DueEmails(cs, users, now)
  {
    if cs != [] {
      RunSendsToDue(cs[..|cs| - 1], tasks, users, now);
    }
  }

  /** The notification of each due configuration with a user, in iteration order. */
  function DueNotes(cs: seq<ReportConfig>, tasks: TaskTable, users: map<UserId, User>, now: int): seq<Notification>
    requires UsersKnown(cs, users)
  {
    if cs == [] then []
    else
      var c := cs[|cs| - 1];
      DueNotes(cs[..|cs| - 1], tasks, users, now) +
        (if Due(c, now) && c.user.Some?
         then [Notification(c.user, SummaryBody(users[c.user.value].username, tasks, c.user.value), now)]
         else [])
  }

  /** A run that completes notifies each due configuration's user with that user's summary, in iteration order. */
  lemma {:induction false} RunNotifiesDue(cs: seq<ReportConfig>, tasks: TaskTable, users: map<UserId, User>, now: int)
    requires UsersKnown(cs, users)
    requires !SummaryRun(cs, tasks, users, now).raised
    ensures SummaryRun(cs, tasks, users, now).notifications == DueNotes(cs, tasks, users, now)
  {
    if cs != [] {
      RunNotifiesDue(cs[..|cs| - 1], tasks, users, now);
    }
  }

  /** A step after the failure only appends its row. */
  lemma FailedStep(x: Run, before: Run, front: seq<ReportConfig>, c: ReportConfig, tasks: TaskTable,
                   users: map<UserId, User>, now: int)
    requires c.user.Some? ==> c.user.value in users
    requires x.raised && before == x.(configs := x.configs + front)
    ensures RunStep(before, c, tasks, users, now) == x.(configs := x.configs + (front + [c]))
  {
    assert x.configs + (front + [c]) == (x.configs + front) + [c];
  }

  /** Once a run has failed, the remaining configurations are left as they are and nothing more is sent. */
  lemma {:induction false} RunAfterFailure(init: seq<ReportConfig>, rest: seq<ReportConfig>, tasks: TaskTable,
                                           users: map<UserId, User>, now: int)
    requires UsersKnown(init + rest, users) && UsersKnown(init, users)
    requires SummaryRun(init, tasks, users, now).raised
    ensures SummaryRun(init + rest, tasks, users, now) ==
      SummaryRun(init, tasks, users, now).(configs := SummaryRun(init, tasks, users, now).configs + rest)
    decreases |rest|
  {
    if rest == [] {
      assert init + rest == init;
    } else {
      var front, c := rest[..|rest| - 1], rest[|rest| - 1];
      var all := init + rest;
      assert all[..|all| - 1] == init + front;
      assert forall k :: 0 <= k < |init + front| ==> (init + front)[k] == all[k];
      assert c == all[|all| - 1];
      var x, before := SummaryRun(init, tasks, users, now), SummaryRun(init + front, tasks, users, now);
      RunAfterFailure(init, front, tasks, users, now);
      assert SummaryRun(all, tasks, users, now) == RunStep(before, c, tasks, users, now);
      assert rest == front + [c];
      FailedStep(x, before, front, c, tasks, users, now);
    }
  }

  /**
   * A run that completes leaves no configuration due at the same instant:
   * running the job again at once sends nothing.
   */
  lemma SecondRunSendsNothing(cs: seq<ReportConfig>, tasks: TaskTable, users: map<UserId, User>, now: int)
    requires UsersKnown(cs, users)
    requires !SummaryRun(cs, tasks, users, now).raised
    ensures UsersKnown(SummaryRun(cs, tasks, users, now).configs, users)
    ensures SummaryRun(SummaryRun(cs, tasks, users, now).configs, tasks, users, now).mails == []
  {
    var r := SummaryRun(cs, tasks, users, now);
    RunConfigs(cs, tasks, users, now);
    forall k | 0 <= k < |cs|
      ensures !Due(r.configs[k], now)
    {
      FailsPrefix(cs, k, now);
    }
    NothingDueSendsNothing(r.configs, tasks, users, now);
  }

  lemma FailsPrefix(cs: seq<ReportConfig>, k: nat, now: int)
    requires k <= |cs|
    ensures Fails(cs[..k], now) ==> Fails(cs, now)
  {
    if Fails(cs[..k], now) {
      var j :| 0 <= j < k && Due(cs[..k][j], now) && cs[..k][j].user.None?;
      assert cs[j] == cs[..k][j];
    }
  }

  lemma {:induction false} NothingDueSendsNothing(cs: seq<ReportConfig>, tasks: TaskTable, users: map<UserId, User>, now: int)
    requires UsersKnown(cs, users)
    requires forall k :: 0 <= k < |cs| ==> !Due(cs[k], now)
    ensures SummaryRun(cs, tasks, users, now).mails == []
    ensures !SummaryRun(cs, tasks, users, now).raised
  {
    if cs != [] {
      NothingDueSendsNothing(cs[..|cs| - 1], tasks, users, now);
    }
  }

  /** Row `k` of the partly processed table is the next one to process. */
  lemma RowAt(done: seq<ReportConfig>, cs: seq<ReportConfig>, k: nat)
    requires |done| == k < |cs|
    ensures (done + cs[k..])[k] == cs[k]
    ensures forall x :: (done + cs[k..])[k := x] == done + [x] + cs[k + 1..]
    ensures done + cs[k..] == done + [cs[k]] + cs[k + 1..]
  {
    assert cs[k..] == [cs[k]] + cs[k + 1..];
  }

  /** A due configuration without a user ends the run: the rest of the rows are as they were. */
  lemma FailureIsFinal(cs: seq<ReportConfig>, tasks: TaskTable, users: map<UserId, User>, now: int, k: nat)
    requires UsersKnown(cs, users)
    requires k < |cs| && Due(cs[k], now) && cs[k].user.None?
    requires !SummaryRun(cs[..k], tasks, users, now).raised
    ensures var prev := SummaryRun(cs[..k], tasks, users, now);
      SummaryRun(cs, tasks, users, now) == prev.(configs := prev.configs + cs[k..], raised := true)
  {
    var prev := SummaryRun(cs[..k], tasks, users, now);
    RunExtends(cs, tasks, users, now, k);
    var failed := SummaryRun(cs[..k + 1], tasks, users, now);
    assert failed == prev.(configs := prev.configs + [cs[k]], raised := true);
    assert cs == cs[..k + 1] + cs[k + 1..];
    RunAfterFailure(cs[..k + 1], cs[k + 1..], tasks, users, now);
    assert cs[k..] == [cs[k]] + cs[k + 1..];
    assert prev.configs + cs[k..] == (prev.configs + [cs[k]]) + cs[k + 1..];
  }

  /** The configuration rows, updated in place by the job, and the notification rows it adds. */
  class ReportStore {
    var configs: seq<ReportConfig>
    var notifications: seq<Notification>

    constructor (cs: seq<ReportConfig>)
      ensures configs == cs && notifications == []
    {
      configs := cs;
      notifications := [];
    }

    /**
     * The body of the loop for a due configuration with a user: builds the
     * summary, stamps row `k` with the send time and adds the notification;
     * the mail is returned to be sent.
     */
    method Deliver(k: nat, account: User, tasks: TaskTable, now: int) returns (mail: Mail)
      requires k < |configs| && configs[k].user.Some?
      modifies this
      ensures var body := SummaryBody(account.username, tasks, old(configs)[k].user.value);
        configs == old(configs)[k := old(configs)[k].(lastSentTime := Some(now))] &&
        notifications == old(notifications) + [Notification(old(configs)[k].user, body, now)] &&
        mail == Mail(SummarySubject, body, Sender, [account.email])
    {
      var c := configs[k];
      var content := BuildSummary(account.username, tasks, c.user.value);
      mail := Mail(SummarySubject, content, Sender, [account.email]);
      notifications := notifications + [Notification(c.user, content, now)];
      configs := configs[k := c.(lastSentTime := Some(now))];
    }
  }

  /** The step of a due configuration with a user, written out. */
  lemma DeliveredStep(prev: Run, c: ReportConfig, tasks: TaskTable, users: map<UserId, User>, now: int)
    requires c.user.Some? && c.user.value in users && Due(c, now) && !prev.raised
    ensures var account := users[c.user.value];
      var body := SummaryBody(account.username, tasks, c.user.value);
      RunStep(prev, c, tasks, users, now) ==
        Run(prev.configs + [c.(lastSentTime := Some(now))],
            prev.notifications + [Notification(c.user, body, now)],
            prev.mails + [Mail(SummarySubject, body, Sender, [account.email])],
            prev.sentTo + [account.email],
            false)
  {
  }

  /**
   * `send_task_summary`: returns the addresses mailed, or None when the job
   * fails; the e-mails sent before that are returned as events either way.
   */
  method SendTaskSummary(store: ReportStore, tasks: TaskTable, users: map<UserId, User>, now: int)
      returns (result: Option<seq<string>>, mails: seq<Mail>)
    requires UsersKnown(store.configs, users)
    modifies store
    ensures var r := SummaryRun(old(store.configs), tasks, users, now);
      store.configs == r.configs &&
      store.notifications == old(store.notifications) + r.notifications &&
      mails == r.mails &&
      result == (if r.raised then None else Some(r.sentTo))
  {
    ghost var cs := store.configs;
    ghost var notes := store.notifications;
    ghost var run := Run([], [], [], [], false);
    var sentTo := [];
    mails := [];
    var k := 0;
    while k < |store.configs|
      invariant k <= |cs| && UsersKnown(cs, users)
      invariant run == SummaryRun(cs[..k], tasks, users, now) && !run.raised
      invariant store.configs == run.configs + cs[k..]
      invariant store.notifications == notes + run.notifications
      invariant mails == run.mails && sentTo == run.sentTo
      decreases |cs| - k
    {
      RunExtends(cs, tasks, users, now, k);
      RowAt(run.configs, cs, k);
      var c := store.configs[k];
      ghost var next := RunStep(run, c, tasks, users, now);
      if Due(c, now) {
        if c.user.None? {
          FailureIsFinal(cs, tasks, users, now, k);
          ghost var whole := SummaryRun(cs, tasks, users, now);
          assert whole == run.(configs := run.configs + cs[k..], raised := true);
          assert store.configs == whole.configs && store.notifications == notes + whole.notifications;
          result := None;
          return;
        }
        var account := users[c.user.value];
        ghost var note := Notification(c.user, SummaryBody(account.username, tasks, c.user.value), now);
        var mail := store.Deliver(k, account, tasks, now);
        DeliveredStep(run, c, tasks, users, now);
        assert store.configs == next.configs + cs[k + 1..];
        Concat3(notes, run.notifications, [note]);
        assert store.notifications == notes + next.notifications;
        mails := mails + [mail];
        sentTo := sentTo + [account.email];
      } else {
        assert store.configs == next.configs + cs[k + 1..];
      }
      run := next;
      k := k + 1;
    }
    assert cs[..k] == cs;
    result := Some(sentTo);
  }
}
