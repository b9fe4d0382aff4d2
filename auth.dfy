/** The request checks of backend/routes/auth_routes.py: registration, login,
    profile update and password change. The JSON body is a map from field
    names to text; the database reads, the password hash check and the
    database update's success are inputs. */
module Auth {
  import opened Strings

  /** What a route answers. */
  datatype Outcome =
    | Fail(status: int, error: string)
    | Created(email: string, fullName: string, studentId: string, course: string)
    | LoggedIn(userId: int)
    | Done(message: string)

  /** `data.get(field)` is truthy: present and not empty. */
  predicate Given(data: map<string, string>, field: string) {
    field in data && data[field] != ""
  }

  // ------------------------------------------------------------ email format

  predicate LocalChar(c: char) {
    IsAsciiLetter(c) || IsDigit(c) || c == '.' || c == '_' || c == '%' || c == '+' || c == '-'
  }

  predicate DomainChar(c: char) {
    IsAsciiLetter(c) || IsDigit(c) || c == '.' || c == '-'
  }

  /** The text `^[a-zA-Z0-9._%+-]+@[a-zA-Z0-9.-]+\.[a-zA-Z]{2,}$` describes, with
      the '@' at `a` and the last '.' at `d`. */
  predicate EmailAt(s: string, a: int, d: int) {
    && 1 <= a && a + 2 <= d && d + 3 <= |s|
    && s[a] == '@' && s[d] == '.'
    && (forall k :: 0 <= k < a ==> LocalChar(s[k]))
    && (forall k :: a < k < d ==> DomainChar(s[k]))
    && (forall k :: d < k < |s| ==> IsAsciiLetter(s[k]))
  }

  /** The whole of `s` is an address of the pattern. */
  predicate EmailPattern(s: string) {
    exists a, d | 0 <= a < d < |s| :: EmailAt(s, a, d)
  }

  /** `re.match` with that pattern, as written: `$` also matches just before
      a final newline, so an address followed by "\n" passes. */
  predicate RegexMatch(s: string) {
    EmailPattern(s) || (|s| > 0 && s[|s| - 1] == '\n' && EmailPattern(s[..|s| - 1]))
  }

  /** The recogniser: split at the first '@', check the local part, then
      split the rest at its last '.'. */
  function IsEmail(s: string): bool {
    if '@' !in s then false
    else
      var a := FirstIndex(s, '@');
      var rest := s[a + 1..];
      && a >= 1
      && (forall k :: 0 <= k < a ==> LocalChar(s[k]))
      && (forall k :: 0 <= k < |rest| ==> DomainChar(rest[k]))
      && '.' in rest
      && var p := LastIndex(rest, '.');
         p >= 1 && |rest| - p - 1 >= 2 && (forall k :: p < k < |rest| ==> IsAsciiLetter(rest[k]))
  }

  /** The recogniser accepts exactly the addresses of the pattern. */
  lemma IsEmailCorrect(s: string)
    ensures IsEmail(s) <==> EmailPattern(s)
  {
    if IsEmail(s) {
      var a := FirstIndex(s, '@');
      var rest := s[a + 1..];
      var p := LastIndex(rest, '.');
      var d := a + 1 + p;
      forall k | a < k < d ensures DomainChar(s[k]) {
        assert s[k] == rest[k - a - 1];
      }
      forall k | d < k < |s| ensures IsAsciiLetter(s[k]) {
        assert s[k] == rest[k - a - 1];
      }
      assert s[d] == rest[p];
      assert EmailAt(s, a, d);
    }
    if EmailPattern(s) {
      var a, d :| 0 <= a < d < |s| && EmailAt(s, a, d);
      EmailAtIsEmail(s, a, d);
    }
  }

  lemma EmailAtIsEmail(s: string, a: int, d: int)
    requires 0 <= a < d < |s| && EmailAt(s, a, d)
    ensures IsEmail(s)
  {
    assert '@' in s;
    var a' := FirstIndex(s, '@');
    assert !LocalChar('@');
    assert a' >= a;
    assert a' <= a by {
      assert forall j :: 0 <= j < a' ==> s[j] != '@' by {
        forall j | 0 <= j < a' ensures s[j] != '@' {
          assert s[..a'][j] == s[j];
        }
      }
    }
    var rest := s[a + 1..];
    forall k | 0 <= k < |rest| ensures DomainChar(rest[k]) {
      assert rest[k] == s[a + 1 + k];
    }
    assert rest[d - a - 1] == '.';
    var p := LastIndex(rest, '.');
    assert !IsAsciiLetter('.');
    assert rest[p] == s[a + 1 + p];
    assert p == d - a - 1;
    forall k | p < k < |rest| ensures IsAsciiLetter(rest[k]) {
      assert rest[k] == s[a + 1 + k];
    }
  }

  /** An accepted address has exactly one '@', a non-empty local part, and
      ends in '.' followed by at least two ASCII letters. */
  lemma EmailShape(s: string)
    requires IsEmail(s)
    ensures exists a :: 1 <= a < |s| && s[a] == '@' && forall k :: 0 <= k < |s| && s[k] == '@' ==> k == a
    ensures exists d :: 0 <= d <= |s| - 3 && s[d] == '.' && forall k :: d < k < |s| ==> IsAsciiLetter(s[k])
  {
    IsEmailCorrect(s);
    var a, d :| 0 <= a < d < |s| && EmailAt(s, a, d);
    assert forall k :: 0 <= k < |s| && k != a ==> s[k] != '@';
  }

  /** The pattern as written accepts an address followed by a newline, which
      the intended whole-string match rejects. */
  lemma TrailingNewlineAccepted()
    ensures RegexMatch("a@b.co\n")
    ensures !IsEmail("a@b.co\n")
  {
    var s := "a@b.co\n";
    assert s[..|s| - 1] == "a@b.co";
    assert EmailAt("a@b.co", 1, 3);
    assert !IsAsciiLetter(s[6]);
    IsEmailCorrect(s);
  }

  /** The two readings differ only there: without a final newline they agree. */
  lemma RegexMatchWithoutNewline(s: string)
    requires |s| == 0 || s[|s| - 1] != '\n'
    ensures RegexMatch(s) <==> IsEmail(s)
  {
    IsEmailCorrect(s);
  }

  // ---------------------------------------------------------------- register

  const RequiredFields: seq<string> := ["email", "password", "full_name", "student_id"]

  /** Every required field is given. */
  predicate AllRequired(data: map<string, string>) {
    Given(data, "email") && Given(data, "password") && Given(data, "full_name") && Given(data, "student_id")
  }

  /** The first of `fields` not given. */
  function FirstMissing(data: map<string, string>, fields: seq<string>): (r: Option<string>)
    ensures r.Some? ==> r.value in fields && !Given(data, r.value)
    ensures r.None? <==> forall i :: 0 <= i < |fields| ==> Given(data, fields[i])
  {
    if fields == [] then None
    else if !Given(data, fields[0]) then Some(fields[0])
    else FirstMissing(data, fields[1..])
  }

  /** The answer of `register` to `data`, when `registered` holds the emails
      already in use. */
  function RegisterOutcome(data: map<string, string>, registered: set<string>): Outcome {
    match FirstMissing(data, RequiredFields)
    case Some(field) => Fail(400, field + " is required")
    case None =>
      assert Given(data, RequiredFields[0]) && Given(data, RequiredFields[1]);
      assert Given(data, RequiredFields[2]) && Given(data, RequiredFields[3]);
      var email := data["email"];
      if !RegexMatch(email) then Fail(400, "Invalid email format")
      else if |data["password"]| < 6 then Fail(400, "Password must be at least 6 characters long")
      else if email in registered then Fail(400, "User with this email already exists")
      else Created(email, data["full_name"], data["student_id"], if "course" in data then data["course"] else "")
  }

  /** `register`: the required fields in order, then the email format, the
      password length and the duplicate check. */
  method Register(data: map<string, string>, registered: set<string>) returns (r: Outcome)
    ensures r == RegisterOutcome(data, registered)
  {
    for i := 0 to |RequiredFields|
      invariant forall j :: 0 <= j < i ==> Given(data, RequiredFields[j])
      invariant FirstMissing(data, RequiredFields) == FirstMissing(data, RequiredFields[i..])
    {
      assert RequiredFields[i..][1..] == RequiredFields[i + 1..];
      var field := RequiredFields[i];
      if !(field in data && data[field] != "") {
        return Fail(400, field + " is required");
      }
    }
    assert Given(data, RequiredFields[0]) && Given(data, RequiredFields[1]);
    assert Given(data, RequiredFields[2]) && Given(data, RequiredFields[3]);
    var email := data["email"];
    if !RegexMatch(email) {
      return Fail(400, "Invalid email format");
    }
    if |data["password"]| < 6 {
      return Fail(400, "Password must be at least 6 characters long");
    }
    if email in registered {
      return Fail(400, "User with this email already exists");
    }
    var course := if "course" in data then data["course"] else "";
    return Created(email, data["full_name"], data["student_id"], course);
  }

  /** A registration succeeds exactly when every required field is given, the
      email passes the pattern as written, the password has at least 6 characters and the
      email is not yet registered; it then creates that user. */
  lemma RegisterAccepts(data: map<string, string>, registered: set<string>)
    ensures RegisterOutcome(data, registered).Created? <==>
      (AllRequired(data) && RegexMatch(data["email"]) && |data["password"]| >= 6 && data["email"] !in registered)
    ensures RegisterOutcome(data, registered).Created? ==>
      AllRequired(data) && RegisterOutcome(data, registered).email == data["email"]
  {
    MissingNone(data);
  }

  /** No required field is reported missing exactly when all are given. */
  lemma MissingNone(data: map<string, string>)
    ensures FirstMissing(data, RequiredFields).None? <==> AllRequired(data)
  {
    if FirstMissing(data, RequiredFields).None? {
      assert Given(data, RequiredFields[0]) && Given(data, RequiredFields[1]);
      assert Given(data, RequiredFields[2]) && Given(data, RequiredFields[3]);
    }
  }

  /** The password length is judged only for a well-formed email, and the
      duplicate check only for a long enough password. */
  lemma RegisterCheckOrder(data: map<string, string>, registered: set<string>)
    requires AllRequired(data)
    ensures !RegexMatch(data["email"]) ==> RegisterOutcome(data, registered) == Fail(400, "Invalid email format")
    ensures RegexMatch(data["email"]) && |data["password"]| < 6 ==>
      RegisterOutcome(data, registered) == Fail(400, "Password must be at least 6 characters long")
  {
    MissingNone(data);
  }

  /** For an email without a final newline the format check is the
      whole-string recogniser; with one, an address followed by "\n" is
      registered as it stands. */
  lemma RegisterEmailCheck(data: map<string, string>, registered: set<string>)
    requires AllRequired(data) && |data["password"]| >= 6 && data["email"] !in registered
    ensures data["email"][|data["email"]| - 1] != '\n' ==>
      (RegisterOutcome(data, registered).Created? <==> IsEmail(data["email"]))
    ensures data["email"] == "a@b.co\n" ==> RegisterOutcome(data, registered).Created?
  {
    RegisterAccepts(data, registered);
    if data["email"][|data["email"]| - 1] != '\n' {
      RegexMatchWithoutNewline(data["email"]);
    }
    if data["email"] == "a@b.co\n" {
      TrailingNewlineAccepted();
    }
  }

  /** A missing field is reported before anything else, and it is the first
      missing one in the order email, password, full_name, student_id. */
  lemma RegisterReportsFirstMissing(data: map<string, string>, registered: set<string>, i: int)
    requires 0 <= i < |RequiredFields| && !Given(data, RequiredFields[i])
    requires forall j :: 0 <= j < i ==> Given(data, RequiredFields[j])
    ensures RegisterOutcome(data, registered) == Fail(400, RequiredFields[i] + " is required")
  {
    FirstMissingIsFirst(data, RequiredFields, i);
  }

  lemma {:induction false} FirstMissingIsFirst(data: map<string, string>, fields: seq<string>, i: int)
    requires 0 <= i < |fields| && !Given(data, fields[i])
    requires forall j :: 0 <= j < i ==> Given(data, fields[j])
    ensures FirstMissing(data, fields) == Some(fields[i])
  {
    if i > 0 {
      FirstMissingIsFirst(data, fields[1..], i - 1);
    }
  }

  // ------------------------------------------------------------------- login

  /** A stored user as `get_user_by_email` returns it. */
  datatype StoredUser = StoredUser(id: int, passwordHash: string)

  /** `login`. `user` is the user found by email and `passwordMatches` the
      hash check, an opaque function of the stored hash and the password. */
  function Login(data: map<string, string>, user: Option<StoredUser>,
                 passwordMatches: (string, string) -> bool): (r: Outcome)
    ensures !Given(data, "email") || !Given(data, "password") ==>
      r == Fail(400, "Email and password are required")
    ensures r.LoggedIn? <==> (Given(data, "email") && Given(data, "password") && user.Some?
      && passwordMatches(user.value.passwordHash, data["password"]))
    ensures r.LoggedIn? ==> r.userId == user.value.id
    ensures r.Fail? && r.status == 401 ==> r.error == "Invalid email or password"
  {
    if !Given(data, "email") || !Given(data, "password") then Fail(400, "Email and password are required")
    else if user.None? || !passwordMatches(user.value.passwordHash, data["password"]) then
      Fail(401, "Invalid email or password")
    else LoggedIn(user.value.id)
  }

  /** An unknown email and a wrong password get the same answer. */
  lemma LoginHidesWhichFailed(data: map<string, string>, hash: string, id: int,
                              passwordMatches: (string, string) -> bool)
    requires Given(data, "email") && Given(data, "password")
    requires !passwordMatches(hash, data["password"])
    ensures Login(data, None, passwordMatches) == Login(data, Some(StoredUser(id, hash)), passwordMatches)
    ensures Login(data, None, passwordMatches).Fail?
  {
  }

  // ---------------------------------------------------------- update profile

  const UpdatableFields: seq<string> := ["full_name", "course", "semester"]

  /** The given fields among `fields`, in that order, with their values; a
      present field counts even when its value is empty. */
  function Whitelist(data: map<string, string>, fields: seq<string>): seq<(string, string)> {
    if fields == [] then []
    else
      var rest := Whitelist(data, fields[..|fields| - 1]);
      var f := fields[|fields| - 1];
      if f in data then rest + [(f, data[f])] else rest
  }

  /** `update_profile` up to the database update: the update data, or the
      rejection when no updatable field is present. */
  method UpdateProfile(data: map<string, string>) returns (r: Result)
    ensures Whitelist(data, UpdatableFields) == [] ==> r == Rejected(Fail(400, "No valid fields to update"))
    ensures Whitelist(data, UpdatableFields) != [] ==> r == Update(Whitelist(data, UpdatableFields))
  {
    var updateData: seq<(string, string)> := [];
    for i := 0 to |UpdatableFields|
      invariant updateData == Whitelist(data, UpdatableFields[..i])
    {
      assert UpdatableFields[..i + 1][..i] == UpdatableFields[..i];
      var field := UpdatableFields[i];
      if field in data {
        updateData := updateData + [(field, data[field])];
      }
    }
    assert UpdatableFields[..|UpdatableFields|] == UpdatableFields;
    if updateData == [] {
      return Rejected(Fail(400, "No valid fields to update"));
    }
    return Update(updateData);
  }

  datatype Result = Rejected(outcome: Outcome) | Update(fields: seq<(string, string)>)

  /** The update data holds exactly the updatable fields present in the
      request, with their values, each once; nothing else is copied. */
  lemma {:induction false} WhitelistKeeps(data: map<string, string>, fields: seq<string>)
    requires forall i, j :: 0 <= i < j < |fields| ==> fields[i] != fields[j]
    ensures forall e :: e in Whitelist(data, fields) <==> e.0 in fields && e.0 in data && e.1 == data[e.0]
    ensures forall i, j :: 0 <= i < j < |Whitelist(data, fields)| ==>
      Whitelist(data, fields)[i].0 != Whitelist(data, fields)[j].0
  {
    if fields != [] {
      var init := fields[..|fields| - 1];
      WhitelistKeeps(data, init);
      assert forall f :: f in fields <==> f in init || f == fields[|fields| - 1];
    }
  }

  /** A request without any updatable field is rejected; one with any is not. */
  lemma UpdateProfileRejects(data: map<string, string>)
    ensures Whitelist(data, UpdatableFields) == [] <==>
      "full_name" !in data && "course" !in data && "semester" !in data
  {
    WhitelistKeeps(data, UpdatableFields);
    var w := Whitelist(data, UpdatableFields);
    if w != [] {
      assert w[0] in w;
      assert w[0].0 in UpdatableFields && w[0].0 in data;
    }
    if "full_name" in data {
      assert ("full_name", data["full_name"]) in Whitelist(data, UpdatableFields);
    }
    if "course" in data {
      assert ("course", data["course"]) in Whitelist(data, UpdatableFields);
    }
    if "semester" in data {
      assert ("semester", data["semester"]) in Whitelist(data, UpdatableFields);
    }
  }

  /** The answer after the database update, whose success is `updated`. */
  function ProfileOutcome(r: Result, updated: bool): (o: Outcome)
    ensures r.Update? ==> (o == Done("Profile updated successfully") <==> updated)
    ensures r.Update? && !updated ==> o == Fail(500, "Failed to update profile")
    ensures r.Rejected? ==> o == r.outcome
  {
    match r
    case Rejected(o) => o
    case Update(_) => if updated then Done("Profile updated successfully") else Fail(500, "Failed to update profile")
  }

  // --------------------------------------------------------- change password

  /** `change_password`. `user` is the stored user, `passwordMatches` the
      hash check and `updated` the database update's success. */
  function ChangePassword(data: map<string, string>, user: Option<StoredUser>,
                          passwordMatches: (string, string) -> bool, updated: bool): (r: Outcome)
    ensures r.Done? <==> (Given(data, "current_password") && Given(data, "new_password")
      && |data["new_password"]| >= 6 && user.Some?
      && passwordMatches(user.value.passwordHash, data["current_password"]) && updated)
    ensures Given(data, "current_password") && Given(data, "new_password") && |data["new_password"]| < 6 ==>
      r == Fail(400, "New password must be at least 6 characters long")
  {
    if !Given(data, "current_password") || !Given(data, "new_password") then
      Fail(400, "Current password and new password are required")
    else if |data["new_password"]| < 6 then Fail(400, "New password must be at least 6 characters long")
    else if user.None? || !passwordMatches(user.value.passwordHash, data["current_password"]) then
      Fail(401, "Current password is incorrect")
    else if updated then Done("Password changed successfully")
    else Fail(500, "Failed to change password")
  }
}
