/**
  Worked scenarios, proved: pagination over pages of 100, 100, 37 and 0 users, a failure on page 2, the three-user test
  report, and the five-email suffix count.
*/
module Scenarios {
  import opened Wrappers
  import opened Text
  import opened Users
  import opened Counting
  import opened DomainReport
  import opened Fetcher
  import opened TestReport

  lemma SuffixOfLowerEmail(e: string, s: string)
    requires IsLowerCase(e) && IsSuffixOf(s, e)
    ensures ExtractSuffix(e) == Some(s)
  {
    assert ToLower(e) == e;
    ExtractSuffixSpec(e, s);
  }

  lemma NoSuffixWithoutAnyDot(e: string)
    requires IsLowerCase(e) && '.' !in e
    ensures ExtractSuffix(e) == None
  {
    assert ToLower(e) == e;
    if ExtractSuffix(e).Some? {
      ExtractSuffixSpec(e, ExtractSuffix(e).value);
    }
  }

  lemma SuffixListOf(users: seq<User>, ks: seq<Option<string>>)
    requires |users| == |ks|
    requires forall i :: 0 <= i < |users| ==> ExtractSuffix(users[i].email) == ks[i]
    ensures SuffixList(users) == ks
  {
  }

  const ExampleUsers := [User(1, "x@a.test", "active"), User(2, "y@b.test", "active"),
    User(3, "z@c.com", "active"), User(4, "bad-email", "active"), User(5, "w@nodot", "active")]

  const ExampleSuffixes := [Some("test"), Some("test"), Some("com"), None, None]

  /** A lower-case `name@host.s` with `s` free of '.' and '@' has suffix `s`. */
  lemma SuffixOfPlainEmail(e: string, name: string, host: string, s: string)
    requires e == name + "@" + host + "." + s && IsLowerCase(e)
    requires s != [] && '.' !in s && '@' !in s
    ensures ExtractSuffix(e) == Some(s)
  {
    var n := |e| - |s| - 1;
    assert e[n] == '.' && e[n + 1..] == s;
    assert e[..n][|name|] == '@';
    SuffixOfLowerEmail(e, s);
  }

  /** The first three example emails are well formed. */
  lemma ExampleKept(users: seq<User>, i: nat)
    requires users == ExampleUsers && i < 3
    ensures ExtractSuffix(users[i].email) == ExampleSuffixes[i]
  {
    var e := users[i].email;
    if i == 0 {
      SuffixOfPlainEmail(e, "x", "a", "test");
    } else if i == 1 {
      SuffixOfPlainEmail(e, "y", "b", "test");
    } else {
      SuffixOfPlainEmail(e, "z", "c", "com");
    }
  }

  /** The last two example emails are skipped. */
  lemma ExampleSkipped(users: seq<User>, i: nat)
    requires users == ExampleUsers && 3 <= i < 5
    ensures ExtractSuffix(users[i].email) == ExampleSuffixes[i]
  {
    NoSuffixWithoutAnyDot(users[i].email);
  }

  lemma ExampleSuffixList()
    ensures SuffixList(ExampleUsers) == ExampleSuffixes
  {
    forall i | 0 <= i < 5
      ensures ExtractSuffix(ExampleUsers[i].email) == ExampleSuffixes[i]
    {
      if i < 3 {
        ExampleKept(ExampleUsers, i);
      } else {
        ExampleSkipped(ExampleUsers, i);
      }
    }
    SuffixListOf(ExampleUsers, ExampleSuffixes);
  }

  /** Merging the first key twice and the second once. */
  lemma MergeTwiceOnce<K>(a: K, b: K)
    requires a != b
    ensures MergeOne(MergeOne(MergeOne(map[], a), a), b) == map[a := 2, b := 1]
  {
    assert MergeOne(map[], a) == map[a := 1];
    assert MergeOne(map[a := 1], a) == map[a := 2];
  }

  /** Two keys, the first twice, then two skipped records. */
  lemma TallyTwiceOnce<K>(a: K, b: K)
    requires a != b
    ensures Tally([Some(a), Some(a), Some(b), None, None]) == map[a := 2, b := 1]
  {
    var k1 := [] + [Some(a)];
    var k2 := k1 + [Some(a)];
    var k3 := k2 + [Some(b)];
    var k4 := k3 + [None];
    TallyStep([], Some(a));
    TallyStep(k1, Some(a));
    TallyStep(k2, Some(b));
    TallyStep(k3, None);
    TallyStep(k4, None);
    assert k4 + [None] == [Some(a), Some(a), Some(b), None, None];
    assert Tally<K>([]) == map[];
    MergeTwiceOnce(a, b);
  }

  lemma ExampleTally()
    ensures Tally(ExampleSuffixes) == map["test" := 2, "com" := 1]
  {
    assert "test" != "com" by {
      assert "test"[0] != "com"[0];
    }
    TallyTwiceOnce("test", "com");
  }

  /** "x@a.test", "y@b.test", "z@c.com", "bad-email", "w@nodot" count as test: 2, com: 1. */
  lemma DomainCountExample()
    ensures SuffixCounts(ExampleUsers) == map["test" := 2, "com" := 1]
  {
    ExampleSuffixList();
    ExampleTally();
  }

  method PaginationExample() returns (fetched: nat, requests: nat)
    ensures fetched == 237 && requests == 4
  {
    var u := User(7, "u@x.test", "active");
    var full := seq(100, _ => u);
    var last := seq(37, _ => u);
    var source := [Delivered(200, Some(full)), Delivered(200, Some(full)), Delivered(200, Some(last)), Delivered(200, Some([]))];
    assert !Continues(source[3]);
    assert FirstStop(source) == 3 by {
      assert Continues(source[0]) && Continues(source[1]) && Continues(source[2]);
    }
    var result, page := FetchAllUsers(source);
    assert Concat(source[..1]) == full by {
      assert source[..1][..0] == [];
    }
    assert Concat(source[..2]) == full + full by {
      assert source[..2][..1] == source[..1];
    }
    assert Concat(source[..3]) == full + full + last by {
      assert source[..3][..2] == source[..2];
    }
    assert result.Success?;
    fetched, requests := |result.value|, page;
  }

  method FailureExample() returns (err: FetchError, requests: nat)
    ensures err == HttpStatus(500) && requests == 2
  {
    var full := seq(100, _ => User(7, "u@x.test", "active"));
    var source := [Delivered(200, Some(full)), Delivered(500, None)];
    assert !Continues(source[1]) && Continues(source[0]);
    assert FirstStop(source) == 1;
    var result, page := FetchAllUsers(source);
    err, requests := result.error, page;
  }

  /** Only the first of the three report example users passes both filters. */
  lemma ExampleTestUsers(us: seq<User>)
    requires us == [User(1, "a@b.test", "Active"), User(2, "c@d.com", "active"), User(3, "e@f.test", "inactive")]
    ensures IsTestUser(us[0]) && !IsTestUser(us[1]) && !IsTestUser(us[2])
  {
    assert IsTestUser(us[0]) by {
      assert ToLower("Active") == "active";
      assert ToLower("a@b.test") == "a@b.test";
      assert "a@b.test"[3..] == ".test";
    }
    assert !IsTestUser(us[1]) by {
      assert ToLower("c@d.com") == "c@d.com";
      assert "c@d.com"[2..] != ".test";
    }
    assert |ToLower("inactive")| != |"active"|;
  }

  lemma TestReportExample()
    ensures TestUsers([User(1, "a@b.test", "Active"), User(2, "c@d.com", "active"), User(3, "e@f.test", "inactive")])
      == [User(1, "a@b.test", "Active")]
  {
    var us := [User(1, "a@b.test", "Active"), User(2, "c@d.com", "active"), User(3, "e@f.test", "inactive")];
    ExampleTestUsers(us);
    assert TestUsers(us[2..]) == [] by {
      assert us[2..][1..] == [];
    }
    assert TestUsers(us[1..]) == [] by {
      assert us[1..][1..] == us[2..];
    }
  }

  /** When exactly one user passes, the report is the header and that user's line. */
  lemma ReportOfOne(users: seq<User>, u: User)
    requires TestUsers(users) == [u]
    ensures TestUsersReport(users) == [Header, FormatLine(u)]
  {
    var lines := TestUsersReport(users);
    assert lines[1] == FormatLine(u);
  }

  /** User 1's line is "1,a@b.test". */
  lemma FormatLineExample(u: User)
    requires u == User(1, "a@b.test", "Active")
    ensures FormatLine(u) == "1,a@b.test"
  {
    assert IntToDecimal(1) == "1" by {
      assert NatToDecimal(1) == [DigitChar(1)];
    }
  }

  /** The printed test report for those three users: the header, then user 1's line. */
  lemma TestReportLinesExample()
    ensures TestUsersReport([User(1, "a@b.test", "Active"), User(2, "c@d.com", "active"), User(3, "e@f.test", "inactive")])
      == [Header, "1,a@b.test"]
  {
    var us := [User(1, "a@b.test", "Active"), User(2, "c@d.com", "active"), User(3, "e@f.test", "inactive")];
    TestReportExample();
    ReportOfOne(us, us[0]);
    FormatLineExample(us[0]);
  }
}
