/** backend/services/deadline_tracker.py over an in-memory deadlines table:
    inserting a deadline, marking one completed, the upcoming query and the
    reminders with their urgency. Due dates and the clock are whole seconds
    (`due`, `now`); SQLite's text comparison of '%Y-%m-%d %H:%M:%S' stamps
    orders them the same way. */
module DeadlineTracker {
  import opened Strings
  import opened Sorting

  /** A row of the `deadlines` table as far as the tracker reads it. */
  datatype Row = Row(id: int, userId: int, title: string, due: int, priority: string,
                     category: string, status: string)

  const Day := 86400

  function Due(r: Row): int { r.due }

  /** The rows `mark_completed` updates. */
  predicate Matches(r: Row, deadlineId: int, userId: int) {
    r.id == deadlineId && r.userId == userId
  }

  /** The table after `UPDATE ... SET status = 'completed' WHERE id = ? AND user_id = ?`. */
  function Completed(rows: seq<Row>, deadlineId: int, userId: int): seq<Row> {
    seq(|rows|, i requires 0 <= i < |rows| =>
      if Matches(rows[i], deadlineId, userId) then rows[i].(status := "completed") else rows[i])
  }

  /** The rows `get_upcoming_deadlines` selects, before ordering. */
  predicate IsUpcoming(r: Row, userId: int, end: int) {
    r.userId == userId && r.due <= end && r.status != "completed"
  }

  function Selected(rows: seq<Row>, userId: int, end: int): seq<Row> {
    if rows == [] then []
    else
      var last := rows[|rows| - 1];
      Selected(rows[..|rows| - 1], userId, end) + (if IsUpcoming(last, userId, end) then [last] else [])
  }

  /** The query's answer: the selected rows in ascending due order. */
  function Upcoming(rows: seq<Row>, userId: int, end: int): seq<Row> {
    SortByKey(Selected(rows, userId, end), Due)
  }

  /** The table. Ids are handed out by AUTOINCREMENT: increasing in insertion
      order and never reused. */
  class DeadlineTable {
    var rows: seq<Row>
    var nextId: int

    ghost predicate Valid()
      reads this
    {
      && (forall i :: 0 <= i < |rows| ==> rows[i].id < nextId)
      && (forall i, j :: 0 <= i < j < |rows| ==> rows[i].id < rows[j].id)
    }

    constructor ()
      ensures Valid() && rows == [] && nextId == 1
    {
      rows, nextId := [], 1;
    }

    /** `add_deadline`: one new row with the given fields, 'medium' and
        'assignment' when priority and category are not given, and the
        column default 'pending' as status; its new id is returned. */
    method AddDeadline(userId: int, title: string, due: int, priority: Option<string>, category: Option<string>)
      returns (id: int)
      requires Valid()
      modifies this
      ensures Valid()
      ensures rows == old(rows) + [Row(id, userId, title, due,
        if priority.Some? then priority.value else "medium",
        if category.Some? then category.value else "assignment", "pending")]
      ensures forall i :: 0 <= i < |old(rows)| ==> old(rows)[i].id != id
    {
      id := nextId;
      var row := Row(id, userId, title, due,
        if priority.Some? then priority.value else "medium",
        if category.Some? then category.value else "assignment", "pending");
      rows := rows + [row];
      nextId := nextId + 1;
    }

    /** `mark_completed`: every row with this id and user becomes completed;
        the result says whether there was one. */
    method MarkCompleted(deadlineId: int, userId: int) returns (success: bool)
      requires Valid()
      modifies this
      ensures Valid() && nextId == old(nextId)
      ensures rows == Completed(old(rows), deadlineId, userId)
      ensures success <==> exists i :: 0 <= i < |old(rows)| && Matches(old(rows)[i], deadlineId, userId)
    {
      var updated := 0;
      var i := 0;
      while i < |rows|
        invariant 0 <= i <= |rows| == |old(rows)|
        invariant rows[..i] == Completed(old(rows)[..i], deadlineId, userId)
        invariant rows[i..] == old(rows)[i..]
        invariant updated > 0 <==> exists j :: 0 <= j < i && Matches(old(rows)[j], deadlineId, userId)
        invariant nextId == old(nextId)
      {
        assert rows[i] == old(rows)[i] by { assert rows[i..][0] == old(rows)[i..][0]; }
        if Matches(rows[i], deadlineId, userId) {
          rows := rows[i := rows[i].(status := "completed")];
          updated := updated + 1;
        }
        assert rows[i + 1..] == old(rows)[i + 1..] by {
          forall k | i + 1 <= k < |rows| ensures rows[k] == old(rows)[k] {
            assert rows[k] == old(rows)[i..][k - i];
          }
        }
        i := i + 1;
      }
      assert rows == rows[..i];
      assert old(rows) == old(rows)[..i];
      success := updated > 0;
    }

    /** `get_upcoming_deadlines` with the end of the window `end`
        (`now` plus `days_ahead` days). */
    method GetUpcomingDeadlines(userId: int, end: int) returns (result: seq<Row>)
      ensures result == Upcoming(rows, userId, end)
    {
      var selected := [];
      for i := 0 to |rows|
        invariant selected == Selected(rows[..i], userId, end)
      {
        assert rows[..i + 1][..i] == rows[..i];
        if IsUpcoming(rows[i], userId, end) {
          selected := selected + [rows[i]];
        }
      }
      assert rows[..|rows|] == rows;
      result := SortByKey(selected, Due);
    }

    /** `get_deadline_reminders`: one reminder per deadline due within three
        days, in the query's order. */
    method GetDeadlineReminders(userId: int, now: int) returns (reminders: seq<Reminder>)
      ensures reminders == Reminders(Upcoming(rows, userId, now + 3 * Day), now)
    {
      var upcoming := GetUpcomingDeadlines(userId, now + 3 * Day);
      reminders := [];
      for i := 0 to |upcoming|
        invariant reminders == Reminders(upcoming[..i], now)
      {
        RemindersStep(upcoming, i, now);
        var d := upcoming[i];
        var days := (d.due - now) / Day;
        var urgency;
        if days <= 1 && d.priority == "high" {
          urgency := "urgent";
        } else if days <= 2 {
          urgency := "important";
        } else {
          urgency := "normal";
        }
        assert days == DaysRemaining(d.due, now) && urgency == Urgency(days, d.priority);
        reminders := reminders + [Reminder(d.id, d.title, d.due, days, urgency, d.category)];
      }
      assert upcoming[..|upcoming|] == upcoming;
    }
  }

  // --------------------------------------------------------- mark completed

  /** Marking changes only the status of matching rows, and nothing else. */
  lemma CompletedChangesOnlyMatches(rows: seq<Row>, deadlineId: int, userId: int)
    ensures |Completed(rows, deadlineId, userId)| == |rows|
    ensures forall i :: 0 <= i < |rows| ==>
      var r := Completed(rows, deadlineId, userId)[i];
      && r.id == rows[i].id && r.userId == rows[i].userId && r.title == rows[i].title
      && r.due == rows[i].due && r.priority == rows[i].priority && r.category == rows[i].category
      && (Matches(rows[i], deadlineId, userId) ==> r.status == "completed")
      && (!Matches(rows[i], deadlineId, userId) ==> r == rows[i])
  {
  }

  /** Marking the same deadline twice is the same as marking it once. */
  lemma CompletedIdempotent(rows: seq<Row>, deadlineId: int, userId: int)
    ensures Completed(Completed(rows, deadlineId, userId), deadlineId, userId)
         == Completed(rows, deadlineId, userId)
  {
  }

  /** With unique ids at most one row changes: the one with that id, when it
      belongs to that user. */
  lemma CompletedAtMostOne(rows: seq<Row>, deadlineId: int, userId: int)
    requires forall a, b :: 0 <= a < b < |rows| ==> rows[a].id < rows[b].id
    ensures forall i, j :: 0 <= i < |rows| && 0 <= j < |rows| ==>
      (Completed(rows, deadlineId, userId)[i] != rows[i] && Completed(rows, deadlineId, userId)[j] != rows[j] ==> i == j)
  {
  }

  // --------------------------------------------------------------- upcoming

  /** The selection keeps exactly the qualifying rows, in table order. */
  lemma {:induction false} SelectedMembers(rows: seq<Row>, userId: int, end: int)
    ensures forall r :: r in Selected(rows, userId, end) <==> r in rows && IsUpcoming(r, userId, end)
  {
    if rows != [] {
      var init := rows[..|rows| - 1];
      SelectedMembers(init, userId, end);
      assert rows == init + [rows[|rows| - 1]];
    }
  }

  /** The upcoming deadlines are exactly the user's open rows due by `end`,
      each as often as in the table, in ascending due order. */
  lemma UpcomingIsSortedSelection(rows: seq<Row>, userId: int, end: int)
    ensures SortedBy(Upcoming(rows, userId, end), Due)
    ensures multiset(Upcoming(rows, userId, end)) == multiset(Selected(rows, userId, end))
    ensures forall r :: r in Upcoming(rows, userId, end) <==> r in rows && IsUpcoming(r, userId, end)
  {
    SortSortsAndPermutes(Selected(rows, userId, end), Due);
    SelectedMembers(rows, userId, end);
    var u := Upcoming(rows, userId, end);
    var s := Selected(rows, userId, end);
    forall r ensures r in u <==> r in s {
      assert r in u <==> r in multiset(u);
      assert r in s <==> r in multiset(s);
    }
  }

  /** Completing a deadline removes it from every upcoming list of its user. */
  lemma CompletedNotUpcoming(rows: seq<Row>, deadlineId: int, userId: int, end: int)
    ensures forall r :: r in Upcoming(Completed(rows, deadlineId, userId), userId, end) ==> r.id != deadlineId
  {
    var c := Completed(rows, deadlineId, userId);
    UpcomingIsSortedSelection(c, userId, end);
    forall r | r in Upcoming(c, userId, end) ensures r.id != deadlineId {
      var i :| 0 <= i < |c| && c[i] == r;
    }
  }

  // -------------------------------------------------------------- reminders

  datatype Reminder = Reminder(deadlineId: int, title: string, due: int, daysRemaining: int,
                               urgency: string, category: string)

  /** The urgency rule: urgent for a high-priority deadline at most a day
      away, important at most two days away, else normal. */
  function Urgency(daysRemaining: int, priority: string): (r: string)
    ensures r == "urgent" <==> daysRemaining <= 1 && priority == "high"
    ensures r == "important" <==> daysRemaining <= 2 && !(daysRemaining <= 1 && priority == "high")
    ensures r == "normal" <==> daysRemaining > 2
  {
    if daysRemaining <= 1 && priority == "high" then "urgent"
    else if daysRemaining <= 2 then "important" else "normal"
  }

  /** `(due_date - now).days`: whole days, rounded down as a timedelta's days are. */
  function DaysRemaining(due: int, now: int): (days: int)
    ensures days * Day <= due - now < (days + 1) * Day
  {
    (due - now) / Day
  }

  function ReminderOf(d: Row, now: int): Reminder {
    var days := DaysRemaining(d.due, now);
    Reminder(d.id, d.title, d.due, days, Urgency(days, d.priority), d.category)
  }

  function Reminders(upcoming: seq<Row>, now: int): (r: seq<Reminder>)
    ensures |r| == |upcoming|
  {
    if upcoming == [] then []
    else Reminders(upcoming[..|upcoming| - 1], now) + [ReminderOf(upcoming[|upcoming| - 1], now)]
  }

  /** One more deadline: the reminders so far, then its own. */
  lemma RemindersStep(upcoming: seq<Row>, i: nat, now: int)
    requires i < |upcoming|
    ensures Reminders(upcoming[..i + 1], now) == Reminders(upcoming[..i], now) + [ReminderOf(upcoming[i], now)]
  {
    assert upcoming[..i + 1][..i] == upcoming[..i];
  }

  /** One reminder per deadline in the same order, copying its id, title,
      due date and category. */
  lemma {:induction false} RemindersFollowDeadlines(upcoming: seq<Row>, now: int)
    ensures forall i :: 0 <= i < |upcoming| ==> Reminders(upcoming, now)[i] == ReminderOf(upcoming[i], now)
  {
    if upcoming != [] {
      RemindersFollowDeadlines(upcoming[..|upcoming| - 1], now);
    }
  }

  /** Every reminder is for a deadline at most three days away, and it is
      urgent only for a high-priority one. */
  lemma RemindersWithinWindow(table: seq<Row>, userId: int, now: int)
    ensures var rs := Reminders(Upcoming(table, userId, now + 3 * Day), now);
      forall i :: 0 <= i < |rs| ==>
        (rs[i].daysRemaining <= 3 && (rs[i].urgency == "urgent" ==> rs[i].daysRemaining <= 1))
  {
    var up := Upcoming(table, userId, now + 3 * Day);
    RemindersFollowDeadlines(up, now);
    UpcomingIsSortedSelection(table, userId, now + 3 * Day);
    forall i | 0 <= i < |up| ensures DaysRemaining(up[i].due, now) <= 3 {
      assert up[i] in up;
    }
  }
}
