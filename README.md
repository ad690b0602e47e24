# User report generator, modelled in Dafny

A model of `UserReportGenerator`. That program pages through the GoRest
`/users` API until a page comes back empty. It then prints two CSV reports over
the users it collected:

- the active users whose email ends in `.test`;
- the number of users per email domain suffix (the final dot-separated segment
  of the text after the last `@`).

The model has one module per part of the program:

- `Users`: the `User` record (`id` is a Java `long`, modelled as the subset type `Long`).
- `Fetcher`: `fetchAllUsers` is a `while` loop over a finite page oracle. The
  oracle is `source: seq<Reply>`, and `source[p - 1]` is what the request for
  page `p` yields. A `Reply` is a delivered response (HTTP status, plus the bound
  user list, or `None` when the body does not bind) or a request that threw. The
  method returns a `Result` and the final page counter.
- `TestReport`: the stream filter of `generateTestUsersReport`, as a
  sequence filter. Its output is the list of lines it prints.
- `DomainReport`: the suffix extraction of `generateDomainCountReport`, as a
  pure function. Its counting `for` loop is a method that skips malformed
  emails with `continue` and merges 1 into a `map<string, int>`.
- `Counting`: `HashMap.merge(k, 1, Integer::sum)` and a reference tally
  (every key that occurs, with its number of occurrences), generic in the key
  type. `DomainReport` uses it.
- `Text`: the `String` and `Character` operations the program calls
  (`toLowerCase(Locale.ROOT)`, `lastIndexOf`, `endsWith`, `equalsIgnoreCase`,
  `%d`), with ASCII case folding.
- `Scenarios`: worked cases proved against the model. They cover pages of
  100, 100, 37 and 0 users; a 500 on page 2; the three-user test report, line for line; and
  the five-email suffix count.

Each part is proved against a specification:

- The fetch result is the concatenation, in page order, of every page before
  the first that stops the loop. Every such page is a 200 with a non-empty list.
  The page counter ends one past them, and a failing page aborts with its own
  error and no list.
- The test report is a header followed by exactly the passing records. They keep
  input order, each occurs as often as in the input, and each line reads back as
  the record's id and original email.
- A suffix is the extractor's result exactly when the lower-cased email is
  some text holding an `@`, then `.`, then the suffix, and the suffix is
  non-empty with neither `.` nor `@` in it. The counting loop leaves a map whose
  keys are exactly the suffixes that occur. Each value is the number of records
  with that suffix, between 1 and the number of records. The values sum to the
  number of records that are not skipped. Keys are lower-case, and emails that
  differ only in case give the same counts.

## Model

| member | source | states |
|---|---|---|
| `Text.LowerChar` | src/main/java/com/moveworks/UserReportGenerator.java:90 | lower-casing a character: the result is never an upper-case letter; it differs from the input exactly when the input is an upper-case letter |
| `Text.UpperChar` | src/main/java/com/moveworks/UserReportGenerator.java:77 | upper-casing a character, used by `equalsIgnoreCase`: the result is never a lower-case letter; other characters are unchanged |
| `Text.ToLower` | src/main/java/com/moveworks/UserReportGenerator.java:90 | `toLowerCase(Locale.ROOT)`: keeps the length, leaves no upper-case letter, leaves every non-letter unchanged, and each changed letter upper-cases back to the original |
| `Text.ToLowerLast` | src/main/java/com/moveworks/UserReportGenerator.java:90-92 | lower-casing keeps a final character that is not an upper-case letter, such as a final "@" |
| `Text.LowerCaseDrop` | src/main/java/com/moveworks/UserReportGenerator.java:95-100 | every tail of a lower-case string is lower-case |
| `Text.LastBelow` | src/main/java/com/moveworks/UserReportGenerator.java:91 | the backward scan below a bound: an index holding the character with none between it and the bound, or -1 when none holds it |
| `Text.LastIndexOf` | src/main/java/com/moveworks/UserReportGenerator.java:91 | `lastIndexOf`: -1 exactly when the character is absent; otherwise an index holding it with no occurrence after it |
| `Text.EndsWith` | src/main/java/com/moveworks/UserReportGenerator.java:78 | `endsWith`: a string that ends with a suffix is some text followed by that suffix |
| `Text.EndsWithAppend` | src/main/java/com/moveworks/UserReportGenerator.java:78 | conversely, any text followed by a suffix ends with it |
| `Text.EqualsIgnoreCase` | src/main/java/com/moveworks/UserReportGenerator.java:77 | `equalsIgnoreCase` as Java compares, position by position: any string equals itself ignoring case, and strings equal ignoring case have the same length |
| `Text.EqualsIgnoreCaseIffSameLower` | src/main/java/com/moveworks/UserReportGenerator.java:77 | `equalsIgnoreCase`, written as Java's per-character comparison, holds exactly when the two lower-cased strings are equal |
| `Text.NatToDecimal` | src/main/java/com/moveworks/UserReportGenerator.java:79 | the digits `%d` prints: non-empty, all decimal digits, no leading zero |
| `Text.NatToDecimalRoundTrip` | src/main/java/com/moveworks/UserReportGenerator.java:79 | reading the printed digits back gives the number |
| `Text.IntToDecimal` | src/main/java/com/moveworks/UserReportGenerator.java:79 | `%d` of a `long`: non-empty and free of commas, so the `id,email` line is split unambiguously at its first comma |
| `Text.IntToDecimalRoundTrip` | src/main/java/com/moveworks/UserReportGenerator.java:79 | parsing the printed id, negative ones included, gives the id back |
| `Text.LastIndexOfAt` | src/main/java/com/moveworks/UserReportGenerator.java:91 | an occurrence with no occurrence after it is what `lastIndexOf` returns |
| `Text.LastIndexOfBefore` | src/main/java/com/moveworks/UserReportGenerator.java:91 | an occurrence before a position, and none from it on, puts the last occurrence before that position |
| `Text.FirstFrom` | src/main/java/com/moveworks/UserReportGenerator.java:79 | the forward scan from a position: the first index from there holding the character, or -1 when none does |
| `Text.IndexOf` | src/main/java/com/moveworks/UserReportGenerator.java:79 | first occurrence of a character, -1 exactly when absent; used to read a report line back |
| `Fetcher.Continues` | src/main/java/com/moveworks/UserReportGenerator.java:53-65 | the reply after which the loop requests the next page, a 200 whose body binds to a non-empty list; such a reply is never the last page |
| `Fetcher.IsLastPage` | src/main/java/com/moveworks/UserReportGenerator.java:62-63 | the reply that ends the loop normally, a 200 whose body binds to an empty list; it is neither a failed request, nor a non-200 status, nor an unbindable body |
| `Fetcher.ErrorOf` | src/main/java/com/moveworks/UserReportGenerator.java:52-60 | a non-200 status fails with that status code, a request that threw fails as a transport error, and an unbindable 200 body fails as a parse error |
| `Fetcher.FirstStop` | src/main/java/com/moveworks/UserReportGenerator.java:45-68 | the first page that stops the loop: it is in the oracle, it stops the loop, and every earlier page is a 200 with a non-empty list |
| `Fetcher.FetchAllUsers` | src/main/java/com/moveworks/UserReportGenerator.java:38-71 | requests exactly `FirstStop + 1` pages, starting at page 1 and adding one per non-empty page. It succeeds exactly when that last page is a 200 with an empty list, and then returns the concatenation of all earlier pages in order. Otherwise it returns that page's error and no list |
| `Fetcher.ConcatAppend` | src/main/java/com/moveworks/UserReportGenerator.java:66 | `addAll` page by page: the users of two runs of pages are those of the first run, then those of the second |
| `Fetcher.Concat` | src/main/java/com/moveworks/UserReportGenerator.java:66 | the `addAll` accumulation, page after page: its length is the sum of the page sizes |
| `Fetcher.ConcatHoldsPages` | src/main/java/com/moveworks/UserReportGenerator.java:66 | nothing is lost: every user of every page occurs in the accumulated list at least as often as in its page; with `Fetcher.PageInPlace` and the length of `Fetcher.Concat`, nothing is dropped, duplicated or reordered |
| `Fetcher.PageInPlace` | src/main/java/com/moveworks/UserReportGenerator.java:62-67 | the i-th user of page p is in the result at (number of users on pages before p) + i |
| `TestReport.IsTestUser` | src/main/java/com/moveworks/UserReportGenerator.java:77-78 | both stream filters: a user passes exactly when the lower-cased status is "active" and the lower-cased email ends in ".test" |
| `TestReport.TestUsers` | src/main/java/com/moveworks/UserReportGenerator.java:76-78 | the filtered users are no more than the input, and every one is active ignoring case with a lower-cased email ending in ".test" |
| `TestReport.TestUsersAppend` | src/main/java/com/moveworks/UserReportGenerator.java:76-78 | the filter keeps input order: filtering a concatenation concatenates the filtered parts |
| `TestReport.TestUsersOccurrences` | src/main/java/com/moveworks/UserReportGenerator.java:76-78 | no deduplication: a passing record occurs as often as in the input, and a failing one not at all |
| `TestReport.IsTestUserIgnoresCase` | src/main/java/com/moveworks/UserReportGenerator.java:77-78 | records whose status and email differ only in case pass or fail together |
| `TestReport.FormatLine` | src/main/java/com/moveworks/UserReportGenerator.java:79 | `%d,%s`: the first comma of the line ends the id's digits, and the text after it is the email exactly as received |
| `TestReport.FormatLineRoundTrip` | src/main/java/com/moveworks/UserReportGenerator.java:79 | an `id,email` line splits at its first comma back into the id and the original, not lower-cased, email |
| `TestReport.FormatLines` | src/main/java/com/moveworks/UserReportGenerator.java:79 | one line per user, in order: each is exactly that user's `%d,%s` line and reads back as the user's id and email |
| `TestReport.TestUsersReport` | src/main/java/com/moveworks/UserReportGenerator.java:74-80 | the first line is the header "id,email"; after it, one line per filtered user in order, each exactly that user's `%d,%s` line and reading back as the user's id and original email |
| `Counting.MergeOne` | src/main/java/com/moveworks/UserReportGenerator.java:101 | `merge(k, 1, Integer::sum)`: adds the key with 1 or increments it, and leaves all other keys unchanged |
| `Counting.Occurrences` | src/main/java/com/moveworks/UserReportGenerator.java:101 | the number of records with a given key never exceeds the number of records |
| `Counting.Defined` | src/main/java/com/moveworks/UserReportGenerator.java:89-98 | the number of records that are not skipped never exceeds the number of records |
| `Counting.PresentIffOccurs` | src/main/java/com/moveworks/UserReportGenerator.java:101 | a key is in the tally exactly when at least one record has it |
| `Counting.TallyStep` | src/main/java/com/moveworks/UserReportGenerator.java:92-101 | one more record merges its key into the tally; a skipped record leaves the tally unchanged |
| `Counting.TallyKeyWitness` | src/main/java/com/moveworks/UserReportGenerator.java:101 | every key in the tally is the key of some record, whose position is returned |
| `Counting.TallyInRange` | src/main/java/com/moveworks/UserReportGenerator.java:101 | every stored count is at least 1 and at most the number of records |
| `Counting.SumValuesRemove` | src/main/java/com/moveworks/UserReportGenerator.java:101 | the sum of a map's values can take any key out first |
| `Counting.MergeOneSum` | src/main/java/com/moveworks/UserReportGenerator.java:101 | each merge adds exactly one to the sum of the counts |
| `Counting.TallySum` | src/main/java/com/moveworks/UserReportGenerator.java:89-102 | the counts sum to the number of records that are not skipped |
| `Counting.DefinedCountsIndices` | src/main/java/com/moveworks/UserReportGenerator.java:89-98 | the number of records that are not skipped is the size of the set of their positions |
| `Counting.OccurrencesCountsIndices` | src/main/java/com/moveworks/UserReportGenerator.java:101 | the number of occurrences of a key is the size of the set of positions holding it |
| `DomainReport.SuffixOfDomain` | src/main/java/com/moveworks/UserReportGenerator.java:95-100 | on the text after the last "@": a result is a non-empty tail holding no "."; no ".", or a final ".", gives none |
| `DomainReport.SuffixOfLower` | src/main/java/com/moveworks/UserReportGenerator.java:91-100 | on a lower-cased email: a result is non-empty and holds neither "." nor "@"; no "@", or a final "@", gives none |
| `DomainReport.SuffixOfLowerIsLower` | src/main/java/com/moveworks/UserReportGenerator.java:90-100 | the suffix of a lower-case email is lower-case |
| `DomainReport.ExtractSuffix` | src/main/java/com/moveworks/UserReportGenerator.java:90-100 | the suffix of an email is non-empty, lower-case, and holds neither "." nor "@"; an email without "@", or ending in "@", has none |
| `DomainReport.NoSuffixWithoutDot` | src/main/java/com/moveworks/UserReportGenerator.java:95-98 | when the text after the last "@" of the lower-cased email has no ".", or ends in ".", the email yields no suffix |
| `DomainReport.SuffixOfLowerSound` | src/main/java/com/moveworks/UserReportGenerator.java:91-100 | what the index arithmetic extracts is a suffix by the declarative definition |
| `DomainReport.SuffixOfDomainAt` | src/main/java/com/moveworks/UserReportGenerator.java:96-100 | a "." with something, and no further ".", after it fixes the suffix of the domain as the text after it |
| `DomainReport.SuffixOfLowerAt` | src/main/java/com/moveworks/UserReportGenerator.java:91-95 | past a last "@" that is not the final character, the email's suffix is that of the text after the "@" |
| `DomainReport.SuffixOfLowerComplete` | src/main/java/com/moveworks/UserReportGenerator.java:91-100 | every suffix by the declarative definition is what the index arithmetic extracts |
| `DomainReport.ExtractSuffixSpec` | src/main/java/com/moveworks/UserReportGenerator.java:90-100 | both directions: the extractor returns s exactly when the lower-cased email is some text with an "@", then ".", then s, where s is non-empty without "." or "@" |
| `DomainReport.ExtractSuffixIgnoresCase` | src/main/java/com/moveworks/UserReportGenerator.java:90 | emails equal ignoring case have the same suffix, or are both skipped |
| `DomainReport.SuffixList` | src/main/java/com/moveworks/UserReportGenerator.java:89-100 | one entry per record, in order: the record's suffix, or none when the loop skips it |
| `DomainReport.SuffixListAppend` | src/main/java/com/moveworks/UserReportGenerator.java:89 | one more record adds its own entry at the end |
| `DomainReport.SuffixCountsStep` | src/main/java/com/moveworks/UserReportGenerator.java:89-101 | one more record merges its suffix into the counts with `merge`, or leaves them unchanged when the loop skips it |
| `DomainReport.CountSuffixes` | src/main/java/com/moveworks/UserReportGenerator.java:86-102 | the counting loop leaves exactly the reference tally of the records' suffixes |
| `DomainReport.CountsAreRecordCounts` | src/main/java/com/moveworks/UserReportGenerator.java:89-102 | a suffix is a key exactly when some record has it; its count is the number of records with that suffix, from 1 up to the number of records |
| `DomainReport.CountsKeysAreSuffixes` | src/main/java/com/moveworks/UserReportGenerator.java:90-100 | every key is non-empty, lower-case, and holds neither "." nor "@" |
| `DomainReport.CountsIgnoreCase` | src/main/java/com/moveworks/UserReportGenerator.java:90 | two user lists whose emails differ only in case give the same counts |
| `DomainReport.CountsSumToWellFormed` | src/main/java/com/moveworks/UserReportGenerator.java:89-102 | the counts sum to the number of records with a well-formed email |
| `Scenarios.SuffixOfLowerEmail` | src/main/java/com/moveworks/UserReportGenerator.java:90-100 | a lower-case email with a suffix by definition yields it |
| `Scenarios.NoSuffixWithoutAnyDot` | src/main/java/com/moveworks/UserReportGenerator.java:95-98 | a lower-case email without any "." yields no suffix |
| `Scenarios.SuffixOfPlainEmail` | src/main/java/com/moveworks/UserReportGenerator.java:90-100 | a lower-case `name@host.s`, with `s` non-empty and free of "." and "@", has suffix `s` |
| `Scenarios.SuffixListOf` | src/main/java/com/moveworks/UserReportGenerator.java:89-100 | the suffix list is fixed by the suffix of each record |
| `Scenarios.ExampleKept` | src/main/java/com/moveworks/UserReportGenerator.java:90-101 | "x@a.test", "y@b.test" and "z@c.com" give "test", "test" and "com" |
| `Scenarios.ExampleSkipped` | src/main/java/com/moveworks/UserReportGenerator.java:92-98 | "bad-email" and "w@nodot" are skipped |
| `Scenarios.ExampleSuffixList` | src/main/java/com/moveworks/UserReportGenerator.java:90-100 | "x@a.test", "y@b.test" and "z@c.com" give "test", "test" and "com"; "bad-email" and "w@nodot" are skipped |
| `Scenarios.MergeTwiceOnce` | src/main/java/com/moveworks/UserReportGenerator.java:101 | merging one key twice and another once gives counts 2 and 1 |
| `Scenarios.TallyTwiceOnce` | src/main/java/com/moveworks/UserReportGenerator.java:89-101 | two records with one key, one with another, and two skipped records tally to 2 and 1 |
| `Scenarios.ExampleTally` | src/main/java/com/moveworks/UserReportGenerator.java:101 | the keys test, test, com, skip, skip tally to test: 2, com: 1 |
| `Scenarios.DomainCountExample` | src/main/java/com/moveworks/UserReportGenerator.java:86-102 | those five emails count as exactly test: 2 and com: 1 |
| `Scenarios.PaginationExample` | src/main/java/com/moveworks/UserReportGenerator.java:43-70 | pages of 100, 100, 37 and 0 users give 237 users after 4 requests |
| `Scenarios.FailureExample` | src/main/java/com/moveworks/UserReportGenerator.java:53-54 | a 500 on page 2 fails with status 500 after 2 requests |
| `Scenarios.ExampleTestUsers` | src/main/java/com/moveworks/UserReportGenerator.java:77-78 | (1, a@b.test, Active) passes both filters; (2, c@d.com, active) fails the email filter and (3, e@f.test, inactive) the status filter |
| `Scenarios.TestReportExample` | src/main/java/com/moveworks/UserReportGenerator.java:76-78 | of (1, a@b.test, Active), (2, c@d.com, active) and (3, e@f.test, inactive), only user 1 passes |
| `Scenarios.ReportOfOne` | src/main/java/com/moveworks/UserReportGenerator.java:74-80 | when exactly one user passes the filters, the report is the header and that user's line |
| `Scenarios.FormatLineExample` | src/main/java/com/moveworks/UserReportGenerator.java:79 | user 1 with email a@b.test prints as "1,a@b.test" |
| `Scenarios.TestReportLinesExample` | src/main/java/com/moveworks/UserReportGenerator.java:74-80 | the report for those three users is exactly "id,email", then "1,a@b.test" |

## Left out

- HTTP: building the client, formatting the URL with `page` and `per_page=100`, and `client.send` are network I/O. They are replaced by the page oracle; a request that throws is `SendFailed`.
- JSON binding: Jackson's `readValue` and its permissive binding (unknown fields dropped, missing fields defaulted) are a foreign library. Each reply carries the list the binding would produce, or `None` when binding throws.
- `FetchAllUsers`: requires an oracle in which some page stops the loop. The source loops forever when the API never returns an empty page or an error; that case is excluded rather than modelled.
- `FetchAllUsers`: the accumulated list is an unbounded `seq`. In Java every page before the last adds at least one user to an `ArrayList`, which holds at most about 2^31 - 1 elements, so a long enough run ends in an `OutOfMemoryError` (well before the `int` page counter could wrap). The model returns `Success` for any total size.
- Printing: `System.out.println` and `printf` are console I/O. The test report is modelled as its list of lines. The domain report is modelled as the map it prints; its "Domain,count" header and its lines (in `HashMap` iteration order, which is unspecified) are not modelled.
- `main` only sequences the fetch and the two reports and prints two headings; it is not modelled.
- Strings: a Dafny `string` is a sequence of Unicode scalar values, while a Java String is a sequence of UTF-16 code units. For text with characters outside the Basic Multilingual Plane, Java's lengths and indices count two units per such character where the model counts one, and a lone surrogate, which a Java String may hold, cannot be represented. The suffixes and the filter verdicts do not depend on this ("@" and "." are single units either way), but `lastIndexOf` positions do.
- `Text.ToLower`: Java's full Unicode case folding under `Locale.ROOT` (including mappings that change a string's length) is modelled with ASCII letters only. The same goes for `Text.UpperChar` and `Text.LowerChar` in `equalsIgnoreCase`.
- `Text.IntToDecimal`: assumes the default locale prints ASCII digits for `%d`.
- Null `email` or `status` fields (possible with permissive binding) are not modelled; the model's strings are never null. In Java, a null email raises a `NullPointerException` in the domain report for every record, and in the test report only for a record whose status passes the first filter, since the stream filters run element by element. A null status never raises: `"active".equalsIgnoreCase(null)` is false, so the test report silently drops that record.
- A JSON `null` body that binds to a null list (and then throws on `isEmpty`) is not modelled separately from the other parse failures.
- Suffix counts are Java `int`s. `Counting.TallyInRange` proves each is at most the number of records, and an `ArrayList` holds fewer than 2^31 elements, so `Integer::sum` never wraps and counts can be unbounded integers.
