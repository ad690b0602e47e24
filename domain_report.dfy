/**
  The domain-suffix report: every user's email is lower-cased and reduced to
  the final dot-separated segment of the text after its last '@'; records where
  either step finds nothing are skipped, and the others are counted per suffix.
*/
module DomainReport {
  import opened Wrappers
  import opened Text
  import opened Users
  import opened Counting

  /**
    The suffix of the text after the last '@', as the second half of the loop
    body computes it: the text after its last '.', or `None` when there is no
    '.' or the '.' is the final character.
  */
  function SuffixOfDomain(domain: string): (r: Option<string>)
    ensures r.Some? ==> r.value != [] && '.' !in r.value
    ensures r.Some? ==> |r.value| < |domain| && r.value == domain[|domain| - |r.value|..]
    ensures '.' !in domain ==> r.None?
    ensures domain != [] && domain[|domain| - 1] == '.' ==> r.None?
  {
    var dot := LastIndexOf(domain, '.');
    if dot < 0 || dot == |domain| - 1 then None
    else Some(domain[dot + 1..])
  }

  /**
    The suffix of an already lower-cased email as the loop body computes it, or
    `None` for a record it skips: no '@', a final '@', no '.' after the last
    '@', or a final '.'.
  */
  function SuffixOfLower(lower: string): (r: Option<string>)
    ensures r.Some? ==> r.value != [] && '.' !in r.value && '@' !in r.value
    ensures r.Some? ==> |r.value| < |lower| && r.value == lower[|lower| - |r.value|..]
    ensures '@' !in lower ==> r.None?
    ensures lower != [] && lower[|lower| - 1] == '@' ==> r.None?
  {
    var at := LastIndexOf(lower, '@');
    if at < 0 || at == |lower| - 1 then None
    else SuffixOfDomain(lower[at + 1..])
  }

  /** The suffix of a lower-case text is lower-case. */
  lemma SuffixOfLowerIsLower(lower: string)
    requires IsLowerCase(lower)
    ensures SuffixOfLower(lower).Some? ==> IsLowerCase(SuffixOfLower(lower).value)
  {
    var r := SuffixOfLower(lower);
    if r.Some? {
      LowerCaseDrop(lower, |lower| - |r.value|);
    }
  }

  /** The suffix of an email: that of its lower-cased form. */
  function ExtractSuffix(email: string): (r: Option<string>)
    ensures r.Some? ==> r.value != [] && '.' !in r.value && '@' !in r.value
    ensures r.Some? ==> IsLowerCase(r.value)
    ensures '@' !in ToLower(email) ==> r.None?
    ensures email != [] && email[|email| - 1] == '@' ==> r.None?
  {
    SuffixOfLowerIsLower(ToLower(email));
    ToLowerLast(email);
    SuffixOfLower(ToLower(email))
  }

  /**
    A domain (the text after the last '@' of the lower-cased email, as
    `SuffixOfLower` passes it on) with no '.', or whose last '.' is its final
    character, yields no suffix.
  */
  lemma NoSuffixWithoutDot(email: string)
    requires var lower := ToLower(email);
             var domain := lower[LastIndexOf(lower, '@') + 1..];
             '.' !in domain || (domain != [] && domain[|domain| - 1] == '.')
    ensures ExtractSuffix(email) == None
  {
  }

  /**
    The suffix read off its definition rather than off index arithmetic:
    `lower` is some text holding an '@', then '.', then `s`, where `s` is
    non-empty and holds neither '.' nor '@'.
  */
  predicate IsSuffixOf(s: string, lower: string) {
    var n := |lower| - |s| - 1;
    && s != [] && '.' !in s && '@' !in s
    && 0 <= n && lower[n] == '.' && lower[n + 1..] == s
    && '@' in lower[..n]
  }

  lemma SuffixOfLowerSound(lower: string)
    requires SuffixOfLower(lower).Some?
    ensures IsSuffixOf(SuffixOfLower(lower).value, lower)
  {
    var s := SuffixOfLower(lower).value;
    var at := LastIndexOf(lower, '@');
    var domain := lower[at + 1..];
    var dot := LastIndexOf(domain, '.');
    var n := at + 1 + dot;
    assert lower[n + 1..] == s;
    assert lower[..n][at] == '@';
  }

  /** A '.' with no '.' after it and something after it fixes the domain's suffix. */
  lemma SuffixOfDomainAt(domain: string, dot: nat)
    requires dot < |domain| - 1 && domain[dot] == '.' && '.' !in domain[dot + 1..]
    ensures SuffixOfDomain(domain) == Some(domain[dot + 1..])
  {
    LastIndexOfAt(domain, '.', dot);
  }

  /** Past a usable last '@', the extractor is the domain's suffix. */
  lemma SuffixOfLowerAt(lower: string, at: nat)
    requires at < |lower| - 1 && lower[at] == '@' && '@' !in lower[at + 1..]
    ensures SuffixOfLower(lower) == SuffixOfDomain(lower[at + 1..])
  {
    LastIndexOfAt(lower, '@', at);
  }

  lemma SuffixOfLowerComplete(lower: string, s: string)
    requires IsSuffixOf(s, lower)
    ensures SuffixOfLower(lower) == Some(s)
  {
    var n := |lower| - |s| - 1;
    assert lower[n..] == ['.'] + s;
    LastIndexOfBefore(lower, '@', n);
    var at := LastIndexOf(lower, '@');
    var domain := lower[at + 1..];
    assert domain[n - at - 1] == '.' && domain[n - at..] == s;
    SuffixOfDomainAt(domain, n - at - 1);
    SuffixOfLowerAt(lower, at);
  }

  /** `ExtractSuffix` finds exactly the suffix of that definition, and none when there is none. */
  lemma ExtractSuffixSpec(email: string, s: string)
    ensures ExtractSuffix(email) == Some(s) <==> IsSuffixOf(s, ToLower(email))
  {
    var lower := ToLower(email);
    if SuffixOfLower(lower).Some? {
      SuffixOfLowerSound(lower);
    }
    if IsSuffixOf(s, lower) {
      SuffixOfLowerComplete(lower, s);
    }
  }

  /** Emails that differ only in case have the same suffix, or are both skipped. */
  lemma ExtractSuffixIgnoresCase(e1: string, e2: string)
    requires EqualsIgnoreCase(e1, e2)
    ensures ExtractSuffix(e1) == ExtractSuffix(e2)
  {
    EqualsIgnoreCaseIffSameLower(e1, e2);
  }

  /** The suffix of every record in order, `None` for the records the loop skips. */
  function SuffixList(users: seq<User>): (ks: seq<Option<string>>)
    ensures |ks| == |users|
    ensures forall i :: 0 <= i < |users| ==> ks[i] == ExtractSuffix(users[i].email)
  {
    seq(|users|, i requires 0 <= i < |users| => ExtractSuffix(users[i].email))
  }

  /** What the counting loop must leave behind: every observed suffix with its number of records. */
  function SuffixCounts(users: seq<User>): map<string, int> {
    Tally(SuffixList(users))
  }

  lemma SuffixListAppend(users: seq<User>, u: User)
    ensures SuffixList(users + [u]) == SuffixList(users) + [ExtractSuffix(u.email)]
  {
  }

  /** One more record merges its suffix into the counts, or leaves them as they are when it is skipped. */
  lemma SuffixCountsStep(users: seq<User>, i: nat)
    requires i < |users|
    ensures var suffix := ExtractSuffix(users[i].email);
            SuffixCounts(users[..i + 1]) ==
              if suffix.Some? then MergeOne(SuffixCounts(users[..i]), suffix.value) else SuffixCounts(users[..i])
  {
    assert users[..i + 1] == users[..i] + [users[i]];
    SuffixListAppend(users[..i], users[i]);
    TallyStep(SuffixList(users[..i]), ExtractSuffix(users[i].email));
  }

  /**
    `generateDomainCountReport`, up to printing: the for-loop over the users,
    skipping malformed emails and merging 1 into the suffix's count.
  */
  method CountSuffixes(users: seq<User>) returns (counts: map<string, int>)
    ensures counts == SuffixCounts(users)
  {
    counts := map[];
    for i := 0 to |users|
      invariant counts == SuffixCounts(users[..i])
    {
      SuffixCountsStep(users, i);
      var suffix := ExtractSuffix(users[i].email);
      if suffix.None? {
        continue;
      }
      counts := MergeOne(counts, suffix.value);
    }
    assert users[..|users|] == users;
  }

  /**
    A suffix is a key exactly when some record has it, and its count is the
    number of such records: at least one, and at most the number of records,
    so a Java `int` never wraps.
  */
  lemma CountsAreRecordCounts(users: seq<User>, s: string)
    ensures s in SuffixCounts(users) <==> exists i :: 0 <= i < |users| && SuffixList(users)[i] == Some(s)
    ensures s in SuffixCounts(users) ==>
      SuffixCounts(users)[s] == |set i | 0 <= i < |users| && SuffixList(users)[i] == Some(s)| &&
      1 <= SuffixCounts(users)[s] <= |users|
  {
    var ks := SuffixList(users);
    if s in SuffixCounts(users) {
      TallyInRange(ks, s);
      OccurrencesCountsIndices(ks, s);
    }
  }

  /** Keys are lower-case non-empty segments with neither '.' nor '@'. */
  lemma CountsKeysAreSuffixes(users: seq<User>, s: string)
    requires s in SuffixCounts(users)
    ensures s != [] && IsLowerCase(s) && '.' !in s && '@' !in s
  {
    var i := TallyKeyWitness(SuffixList(users), s);
    assert ExtractSuffix(users[i].email) == Some(s);
  }

  /** Only the lower-cased emails matter: users whose emails differ only in case give the same counts. */
  lemma CountsIgnoreCase(a: seq<User>, b: seq<User>)
    requires |a| == |b|
    requires forall i :: 0 <= i < |a| ==> EqualsIgnoreCase(a[i].email, b[i].email)
    ensures SuffixCounts(a) == SuffixCounts(b)
  {
    forall i | 0 <= i < |a|
      ensures SuffixList(a)[i] == SuffixList(b)[i]
    {
      ExtractSuffixIgnoresCase(a[i].email, b[i].email);
    }
    assert SuffixList(a) == SuffixList(b);
  }

  /** The counts add up to the number of records the loop does not skip. */
  lemma CountsSumToWellFormed(users: seq<User>)
    ensures SumValues(SuffixCounts(users)) == Defined(SuffixList(users))
    ensures SumValues(SuffixCounts(users)) == |set i | 0 <= i < |users| && ExtractSuffix(users[i].email).Some?|
  {
    var ks := SuffixList(users);
    TallySum(ks);
    DefinedCountsIndices(ks);
    assert DefinedIndices(ks) == set i | 0 <= i < |users| && ExtractSuffix(users[i].email).Some?;
  }
}
