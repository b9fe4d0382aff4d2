/** The pure parts of backend/models/database.py around its SQL: the name
    split of `create_user`, the record `get_user_by_email` shapes from a row,
    the statement `update_user` builds and the query `get_user_deadlines`
    runs. The database is not modelled: rows are inputs, statements outputs. */
module Database {
  import opened Strings

  // ------------------------------------------------------------------- names

  datatype Name = Name(first: string, last: string)

  /** `full_name.split(' ', 1)`: the text before the first space, and the
      rest after it ('' when there is no space). */
  function SplitName(fullName: string): (n: Name)
    ensures ' ' !in n.first
    ensures ' ' !in fullName ==> n == Name(fullName, "")
    ensures ' ' in fullName ==> fullName == n.first + " " + n.last
  {
    if ' ' in fullName then
      var i := FirstIndex(fullName, ' ');
      assert fullName == fullName[..i] + " " + fullName[i + 1..];
      Name(fullName[..i], fullName[i + 1..])
    else Name(fullName, "")
  }

  /** `f"{first_name} {last_name}"`. */
  function JoinName(n: Name): string {
    n.first + " " + n.last
  }

  /** A name with a space reads back as written; a one-word name reads back
      with a trailing space. */
  lemma NameRoundTrip(fullName: string)
    ensures ' ' in fullName ==> JoinName(SplitName(fullName)) == fullName
    ensures ' ' !in fullName ==> JoinName(SplitName(fullName)) == fullName + " "
  {
  }

  /** Splitting a stored first and last name, joined, gives them back when
      the first name has no space. */
  lemma SplitJoinName(n: Name)
    requires ' ' !in n.first
    ensures SplitName(JoinName(n)) == n
  {
    var s := JoinName(n);
    assert s[|n.first|] == ' ';
    var i := FirstIndex(s, ' ');
    assert forall k :: 0 <= k < |n.first| ==> s[k] == n.first[k];
    assert i >= |n.first|;
    assert i <= |n.first| by {
      assert forall k :: 0 <= k < i ==> s[k] != ' ' by {
        forall k | 0 <= k < i ensures s[k] != ' ' {
          assert s[..i][k] == s[k];
        }
      }
    }
    assert s[..i] == n.first;
    assert s[i + 1..] == n.last;
  }

  // ----------------------------------------------------------------- records

  /** A `users` row as `get_user_by_email` selects it; NULL is None. */
  datatype UserRow = UserRow(id: int, email: string, passwordHash: string, firstName: string,
                             lastName: string, studentId: Option<string>, course: Option<string>,
                             year: Option<int>, specialization: Option<string>, createdAt: string)

  /** The dictionary `get_user_by_email` returns: the row's columns, with
      `course` replaced and `full_name` and `semester` added. */
  datatype UserRecord = UserRecord(id: int, email: string, passwordHash: string, firstName: string,
                                   lastName: string, studentId: Option<string>, course: string,
                                   year: Option<int>, specialization: Option<string>, createdAt: string,
                                   fullName: string, semester: Option<int>)

  /** `get_user_by_email` after the lookup: no row gives no user. */
  function ShapeUser(row: Option<UserRow>): (r: Option<UserRecord>)
    ensures r.None? <==> row.None?
    ensures r.Some? ==> var u := r.value; var w := row.value;
      && u.id == w.id && u.email == w.email && u.passwordHash == w.passwordHash
      && u.firstName == w.firstName && u.lastName == w.lastName && u.studentId == w.studentId
      && u.year == w.year && u.specialization == w.specialization && u.createdAt == w.createdAt
      && u.semester == w.year
      && (w.course.None? ==> u.course == "")
      && (w.course.Some? ==> u.course == w.course.value)
  {
    match row
    case None => None
    case Some(w) =>
      Some(UserRecord(w.id, w.email, w.passwordHash, w.firstName, w.lastName, w.studentId,
        if w.course.None? || w.course.value == "" then "" else w.course.value,
        w.year, w.specialization, w.createdAt, JoinName(Name(w.firstName, w.lastName)), w.year))
  }

  /** The row the second `create_user` inserts; the id and the creation time
      are the database's. */
  function InsertedRow(id: int, email: string, passwordHash: string, fullName: string, studentId: string,
                       course: string, semester: int, createdAt: string): UserRow {
    var n := SplitName(fullName);
    UserRow(id, email, passwordHash, n.first, n.last, Some(studentId), Some(course), Some(semester),
      None, createdAt)
  }

  /** A created user reads back with the email, hash, course and semester it
      was created with, and its full name as written when it has a space,
      with a trailing space otherwise. */
  lemma CreatedUserReadsBack(id: int, email: string, passwordHash: string, fullName: string,
                             studentId: string, course: string, semester: int, createdAt: string)
    ensures var u := ShapeUser(Some(InsertedRow(id, email, passwordHash, fullName, studentId, course,
                                                semester, createdAt))).value;
      && u.email == email && u.passwordHash == passwordHash && u.studentId == Some(studentId)
      && u.course == course && u.semester == Some(semester)
      && (' ' in fullName ==> u.fullName == fullName)
      && (' ' !in fullName ==> u.fullName == fullName + " ")
  {
    NameRoundTrip(fullName);
  }

  // --------------------------------------------------------------- update

  /** A statement parameter: a text value or the user's id. */
  datatype Param = Text(text: string) | Key(id: int)

  datatype Statement = Statement(query: string, params: seq<Param>)

  /** The columns one entry of `update_data` sets, with their values. */
  function Assign(field: string, value: string): seq<(string, string)> {
    if field == "full_name" then
      var n := SplitName(value);
      [("first_name", n.first), ("last_name", n.last)]
    else if field == "semester" then [("year", value)]
    else [(field, value)]
  }

  /** The assignments of all entries, in input order. */
  function Assignments(d: seq<(string, string)>): (a: seq<(string, string)>)
    ensures |a| >= |d|
  {
    if d == [] then []
    else Assignments(d[..|d| - 1]) + Assign(d[|d| - 1].0, d[|d| - 1].1)
  }

  /** `f'{column} = ?'`. */
  function Clause(column: string): string {
    column + " = ?"
  }

  function Clauses(a: seq<(string, string)>): (r: seq<string>)
    ensures |r| == |a|
  {
    seq(|a|, k requires 0 <= k < |a| => Clause(a[k].0))
  }

  function Values(a: seq<(string, string)>): (r: seq<Param>)
    ensures |r| == |a|
  {
    seq(|a|, k requires 0 <= k < |a| => Text(a[k].1))
  }

  const UpdatedAt := "updated_at = CURRENT_TIMESTAMP"
  const UpdateHead := "UPDATE users SET "
  const WhereId := " WHERE id = "
  const UpdateTail := WhereId + "?"

  /** The statement `update_user` executes, or None when it returns False
      without one. */
  function UpdateStatement(userId: int, d: seq<(string, string)>): Option<Statement> {
    var a := Assignments(d);
    if a == [] then None
    else Some(Statement(UpdateQuery(a), Values(a) + [Key(userId)]))
  }

  lemma ClausesAppend(a: seq<(string, string)>, b: seq<(string, string)>)
    ensures Clauses(a + b) == Clauses(a) + Clauses(b)
    ensures Values(a + b) == Values(a) + Values(b)
  {
  }

  /** `update_user` up to the execution: one or two clauses and values per
      entry of `d`, in order, then the timestamp clause and the id. */
  method BuildUpdate(userId: int, d: seq<(string, string)>) returns (r: Option<Statement>)
    ensures r == UpdateStatement(userId, d)
  {
    var setClauses: seq<string> := [];
    var values: seq<Param> := [];
    for i := 0 to |d|
      invariant setClauses == Clauses(Assignments(d[..i]))
      invariant values == Values(Assignments(d[..i]))
    {
      assert d[..i + 1][..i] == d[..i];
      var field := d[i].0;
      var value := d[i].1;
      assert Assignments(d[..i + 1]) == Assignments(d[..i]) + Assign(field, value);
      ClausesAppend(Assignments(d[..i]), Assign(field, value));
      if field == "full_name" {
        var n := SplitName(value);
        assert Clauses(Assign(field, value)) == [Clause("first_name"), Clause("last_name")];
        assert Values(Assign(field, value)) == [Text(n.first), Text(n.last)];
        setClauses := setClauses + [Clause("first_name"), Clause("last_name")];
        values := values + [Text(n.first), Text(n.last)];
      } else if field == "semester" {
        assert Clauses(Assign(field, value)) == [Clause("year")];
        assert Values(Assign(field, value)) == [Text(value)];
        setClauses := setClauses + [Clause("year")];
        values := values + [Text(value)];
      } else {
        assert Clauses(Assign(field, value)) == [Clause(field)];
        assert Values(Assign(field, value)) == [Text(value)];
        setClauses := setClauses + [Clause(field)];
        values := values + [Text(value)];
      }
    }
    assert d[..|d|] == d;
    if setClauses == [] {
      return None;
    }
    setClauses := setClauses + [UpdatedAt];
    values := values + [Key(userId)];
    return Some(Statement(UpdateHead + Join(setClauses, ", ") + UpdateTail, values));
  }

  /** Nothing to update is reported as failure without a statement; any
      entry gives a statement. */
  lemma UpdateNeedsData(userId: int, d: seq<(string, string)>)
    ensures UpdateStatement(userId, d).None? <==> d == []
  {
  }

  /** Every assignment comes from an entry, and every entry's assignments
      are there: the statement sets exactly what `d` asks for. */
  lemma {:induction false} AssignmentsOfEntries(d: seq<(string, string)>)
    ensures forall e :: e in Assignments(d) <==> exists i :: 0 <= i < |d| && e in Assign(d[i].0, d[i].1)
  {
    if d != [] {
      var init := d[..|d| - 1];
      AssignmentsOfEntries(init);
      forall e | e in Assignments(d)
        ensures exists i :: 0 <= i < |d| && e in Assign(d[i].0, d[i].1)
      {
        if e in Assignments(init) {
          var i :| 0 <= i < |init| && e in Assign(init[i].0, init[i].1);
          assert d[i] == init[i];
        } else {
          assert e in Assign(d[|d| - 1].0, d[|d| - 1].1);
        }
      }
      forall e, i | 0 <= i < |d| && e in Assign(d[i].0, d[i].1)
        ensures e in Assignments(d)
      {
        if i < |d| - 1 {
          assert d[i] == init[i];
        }
      }
    }
  }

  /** A full name sets the first and the last name, which read back as the
      full name when it has a space; a semester sets the year; any other
      field sets its own column. */
  lemma AssignMeaning(field: string, value: string)
    ensures field == "full_name" ==> (|Assign(field, value)| == 2
      && Assign(field, value)[0].0 == "first_name" && Assign(field, value)[1].0 == "last_name"
      && (' ' in value ==> JoinName(Name(Assign(field, value)[0].1, Assign(field, value)[1].1)) == value))
    ensures field == "semester" ==> Assign(field, value) == [("year", value)]
    ensures field != "full_name" && field != "semester" ==> Assign(field, value) == [(field, value)]
  {
    NameRoundTrip(value);
  }

  /** Joining counts the character of every part but the last, which has
      none, when the separator does not hold it. */
  lemma {:induction false} JoinCount(parts: seq<string>, sep: string, c: char)
    requires |parts| >= 1 && c !in sep && c !in parts[|parts| - 1]
    requires forall k :: 0 <= k < |parts| - 1 ==> multiset(parts[k])[c] == 1
    ensures multiset(Join(parts, sep))[c] == |parts| - 1
  {
    if |parts| > 1 {
      JoinCount(parts[1..], sep, c);
      assert multiset(sep)[c] == 0;
      assert multiset(parts[0])[c] == 1;
    } else {
      assert multiset(parts[0])[c] == 0;
    }
  }

  /** Joining a list with one more part appends the separator and that part. */
  lemma {:induction false} JoinAppend(parts: seq<string>, x: string, sep: string)
    requires parts != []
    ensures Join(parts + [x], sep) == Join(parts, sep) + sep + x
  {
    if |parts| > 1 {
      assert (parts + [x])[1..] == parts[1..] + [x];
      JoinAppend(parts[1..], x, sep);
    } else {
      assert parts + [x] == [parts[0], x];
      assert [parts[0], x][1..] == [x];
    }
  }

  lemma {:induction false} AssignmentColumns(d: seq<(string, string)>)
    requires forall i :: 0 <= i < |d| ==> '?' !in d[i].0
    ensures forall k :: 0 <= k < |Assignments(d)| ==> '?' !in Assignments(d)[k].0
  {
    if d != [] {
      AssignmentColumns(d[..|d| - 1]);
    }
  }

  /** The statement's text for the assignments `a`. */
  function UpdateQuery(a: seq<(string, string)>): string {
    UpdateHead + Join(Clauses(a) + [UpdatedAt], ", ") + UpdateTail
  }

  lemma TailHasOnePlaceholder()
    ensures multiset(UpdateTail)['?'] == 1
  {
    assert multiset(WhereId)['?'] == 0;
  }

  lemma HeadHasNoPlaceholder()
    ensures multiset(UpdateHead)['?'] == 0
  {
    HeadWithoutPlaceholder();
  }

  lemma HeadWithoutPlaceholder()
    ensures '?' !in UpdateHead
  {
  }

  lemma TimestampHasNoPlaceholder()
    ensures '?' !in UpdatedAt
  {
  }

  /** With columns free of '?', the text holds one '?' per assignment and
      one for the id. */
  lemma QueryPlaceholders(a: seq<(string, string)>)
    requires forall k :: 0 <= k < |a| ==> '?' !in a[k].0
    ensures multiset(UpdateQuery(a))['?'] == |a| + 1
  {
    var parts := Clauses(a) + [UpdatedAt];
    TailHasOnePlaceholder();
    HeadHasNoPlaceholder();
    TimestampHasNoPlaceholder();
    forall k | 0 <= k < |parts| - 1 ensures multiset(parts[k])['?'] == 1 {
      assert parts[k] == a[k].0 + " = ?";
      assert multiset(" = ?")['?'] == 1;
      assert multiset(a[k].0)['?'] == 0;
    }
    JoinCount(parts, ", ", '?');
  }

  /** The text ends with the timestamp clause and the id condition. */
  lemma QueryEnd(a: seq<(string, string)>)
    requires a != []
    ensures EndsWith(UpdateQuery(a), UpdatedAt + UpdateTail)
  {
    JoinAppend(Clauses(a), UpdatedAt, ", ");
    var q := UpdateQuery(a);
    assert q == (UpdateHead + Join(Clauses(a), ", ") + ", ") + (UpdatedAt + UpdateTail);
  }

  /** With field names free of '?', the statement has exactly one '?' per
      parameter, the timestamp clause last and the user's id as the last
      parameter, for the `WHERE id = ?`. */
  lemma UpdatePlaceholders(userId: int, d: seq<(string, string)>)
    requires forall i :: 0 <= i < |d| ==> '?' !in d[i].0
    ensures match UpdateStatement(userId, d)
      case None => true
      case Some(st) =>
        && multiset(st.query)['?'] == |st.params|
        && st.params[|st.params| - 1] == Key(userId)
        && EndsWith(st.query, UpdatedAt + UpdateTail)
  {
    var a := Assignments(d);
    if a != [] {
      AssignmentColumns(d);
      QueryPlaceholders(a);
      QueryEnd(a);
    }
  }

  // -------------------------------------------------------------- deadlines

  const DeadlinesBase := "\n        SELECT title, due_date as deadline, status, category, created_at\n        FROM deadlines \n        WHERE user_id = ?\n    "
  const UpcomingFilter := " AND due_date > datetime(\"now\") AND status != \"completed\""
  const OrderByDue := " ORDER BY due_date ASC"

  /** The query `get_user_deadlines` runs. */
  function DeadlinesQuery(upcomingOnly: bool): string {
    (if upcomingOnly then DeadlinesBase + UpcomingFilter else DeadlinesBase) + OrderByDue
  }

  /** The filter on upcoming, unfinished deadlines follows the selection
      exactly when `upcoming_only` is set, and the query always ends ordering
      by due date, ascending. */
  lemma DeadlinesQueryShape(upcomingOnly: bool)
    ensures var q := DeadlinesQuery(upcomingOnly);
      && StartsWith(q, DeadlinesBase)
      && (upcomingOnly <==> OccursAt(q, UpcomingFilter, |DeadlinesBase|))
      && q[|q| - |OrderByDue|..] == OrderByDue
  {
    var q := DeadlinesQuery(upcomingOnly);
    if upcomingOnly {
      ConcatParts(DeadlinesBase, UpcomingFilter, OrderByDue);
    } else {
      assert q[|DeadlinesBase|..] == OrderByDue;
    }
  }
}
