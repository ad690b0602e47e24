/**
  The test-users report: a header line, then one `id,email` line for every
  active user whose email ends in ".test", in input order.
*/
module TestReport {
  import opened Wrappers
  import opened Text
  import opened Users

  const Header := "id,email"
  const TestSuffix := ".test"

  /** Both stream filters: status "active" ignoring case, lower-cased email ending in ".test". */
  predicate IsTestUser(u: User)
    ensures IsTestUser(u) <==> ToLower(u.status) == "active" && EndsWith(ToLower(u.email), TestSuffix)
  {
    EqualsIgnoreCaseIffSameLower("active", u.status);
    assert ToLower("active") == "active" by {
      assert IsLowerCase("active");
    }
    EqualsIgnoreCase("active", u.status) && EndsWith(ToLower(u.email), TestSuffix)
  }

  /** The users that pass both filters, in the order of `users`. */
  function TestUsers(users: seq<User>): (r: seq<User>)
    ensures |r| <= |users|
    ensures forall i :: 0 <= i < |r| ==> IsTestUser(r[i])
  {
    if users == [] then []
    else (if IsTestUser(users[0]) then [users[0]] else []) + TestUsers(users[1..])
  }

  /** The filter runs record by record: filtering a concatenation concatenates the filtered parts. */
  lemma {:induction false} TestUsersAppend(a: seq<User>, b: seq<User>)
    ensures TestUsers(a + b) == TestUsers(a) + TestUsers(b)
  {
    if a != [] {
      assert (a + b)[1..] == a[1..] + b;
      TestUsersAppend(a[1..], b);
    } else {
      assert a + b == b;
    }
  }

  /**
    No deduplication and nothing invented: each record occurs in the result as
    often as in the input when it passes the filters, and not at all otherwise.
  */
  lemma {:induction false} TestUsersOccurrences(users: seq<User>, u: User)
    ensures multiset(TestUsers(users))[u] == if IsTestUser(u) then multiset(users)[u] else 0
  {
    if users != [] {
      assert users == [users[0]] + users[1..];
      TestUsersOccurrences(users[1..], u);
    }
  }

  /** Statuses that differ only in case, and emails that differ only in case, are treated alike. */
  lemma IsTestUserIgnoresCase(u: User, v: User)
    requires ToLower(u.status) == ToLower(v.status)
    requires ToLower(u.email) == ToLower(v.email)
    ensures IsTestUser(u) <==> IsTestUser(v)
  {
    EqualsIgnoreCaseIffSameLower("active", u.status);
    EqualsIgnoreCaseIffSameLower("active", v.status);
  }

  /** `%d,%s`: the id in decimal, a comma, and the email exactly as received. */
  function FormatLine(u: User): (line: string)
    ensures var d := IntToDecimal(u.id);
            IndexOf(line, ',') == |d| && line[..|d|] == d && line[|d| + 1..] == u.email
  {
    var d := IntToDecimal(u.id);
    var line := d + "," + u.email;
    assert line[..|d|] == d && line[|d|] == ',';
    assert line[|d| + 1..] == u.email;
    line
  }

  /** Splits a report line at its first comma into the id and the email. */
  function ParseLine(line: string): Option<(int, string)> {
    var comma := IndexOf(line, ',');
    if comma < 0 then None
    else match ParseDecimal(line[..comma])
      case None => None
      case Some(id) => Some((id, line[comma + 1..]))
  }

  /** Every line reads back as the user's id and original email, whatever the email contains. */
  lemma FormatLineRoundTrip(u: User)
    ensures ParseLine(FormatLine(u)) == Some((u.id as int, u.email))
  {
    IntToDecimalRoundTrip(u.id);
  }

  /** One `%d,%s` line per user, in order: each is that user's line and reads back as its id and email. */
  function FormatLines(us: seq<User>): (body: seq<string>)
    ensures |body| == |us|
    ensures forall i :: 0 <= i < |us| ==> body[i] == FormatLine(us[i])
    ensures forall i :: 0 <= i < |us| ==> ParseLine(body[i]) == Some((us[i].id as int, us[i].email))
  {
    var body := seq(|us|, i requires 0 <= i < |us| => FormatLine(us[i]));
    forall i | 0 <= i < |us|
      ensures ParseLine(body[i]) == Some((us[i].id as int, us[i].email))
    {
      FormatLineRoundTrip(us[i]);
    }
    body
  }

  /** `generateTestUsersReport`: the lines it prints. */
  function TestUsersReport(users: seq<User>): (lines: seq<string>)
    ensures |lines| == 1 + |TestUsers(users)| && lines[0] == Header
    ensures forall i :: 0 <= i < |TestUsers(users)| ==>
      ParseLine(lines[i + 1]) == Some((TestUsers(users)[i].id as int, TestUsers(users)[i].email))
    ensures forall i :: 0 <= i < |TestUsers(users)| ==> lines[i + 1] == FormatLine(TestUsers(users)[i])
  {
    var matches := TestUsers(users);
    var body := FormatLines(matches);
    var lines := [Header] + body;
    assert forall i :: 0 <= i < |matches| ==> lines[i + 1] == body[i];
    lines
  }
}
