# rm2gh — a Dafny model of the Redmine-to-GitHub issue migrator

`rm2gh.py` copies the issues of one Redmine project into a GitHub
repository through GitHub's issue-import API. For each Redmine issue it:

- builds an import payload with `create_issue`. The payload has the subject as
  title, a body that links back to the Redmine issue and names the author and
  creation time, and one comment per journal entry. Each comment links to
  `#note-1`, `#note-2`, … and carries the journal's creation time.
- submits the payload.
- polls the import job's status until it reports a non-zero GitHub issue number.
  `get_imported_issue_id` reads that number off the last `/` segment of
  `issue_url` when the status is `imported`, and reads it as 0 otherwise.
- stops once `MAX_ISSUES` issues have been migrated.

The model has these modules:

| module | file | models |
|---|---|---|
| `Options` | options.dfy | the optional-value type used for error paths |
| `Decimal` | decimal.dfy | `str()` of a natural number and `int()` of a digit string |
| `StrSplit` | split.dfy | `str.split` on a one-character separator, and its inverse `Join` |
| `StrFormat` | format.dfy | `str.format` for templates whose fields are all `{}` |
| `Redmine` | redmine.dfy | the Redmine records the migrator reads: issues, journals, users, times; and the configuration (`REDMINE_URL`, `MAX_ISSUES`) |
| `Payload` | payload.dfy | `create_issue`: the GitHub import payload |
| `ImportStatus` | import_status.dfy | the pure tail of `get_imported_issue_id` |
| `Migration` | migration.dfy | the issue loop of `main` and its poll-until-non-zero loop |

The calls the migrator makes to the outside are replaced by what they return:

- the Redmine project's issue list is an input sequence;
- each import job's status responses are an input sequence per issue;
- `str()` of a Redmine user and of a datetime, and `ghutils.timestamp_parameter`,
  are functions passed in a `Payload.Show` value.

The model proves that the bodies are exactly the templates filled in, and that
the note numbers read back out of the comment bodies are 1 … n. It proves that
`int(url.split('/')[-1])` recovers the number a URL ends with. It proves that
polling stops at the first decisive status response and never yields 0. It
proves that a run of `main` that completes migrates `min(MAX_ISSUES, |issues|)`
issues when `MAX_ISSUES` is non-negative, and all of them otherwise, each with a
non-zero GitHub number; a run that stops does so on the first job that did not
settle, because `int` raised on its URL or because it still reads as 0.

`rm2gh.py` polls with a fixed one-second sleep, leaves milestones and labels at
`None`, and keeps no record between runs.

## Model

| member | source | states |
|---|---|---|
| Decimal.NatToString | rm2gh.py:19-21 | `str()` of a non-negative integer such as the issue id: a non-empty decimal numeral that starts with `0` only when it is `"0"` |
| Decimal.ParseNat | rm2gh.py:61 | `int()` of a string succeeds exactly when the string is a non-empty run of decimal digits |
| Decimal.ParseNatToString | rm2gh.py:61 | `int(str(n)) == n` for every non-negative `n` |
| Decimal.CanonicalDigitsRoundTrip | rm2gh.py:61 | a digit string without leading zeros is `str()` of the number `int()` reads from it |
| Decimal.LeadingDigits | rm2gh.py:28 | the longest run of digits at the head of a string: it is a prefix, all digits, and the next character (if any) is not a digit |
| Decimal.LeadingDigitsOfNumeral | rm2gh.py:28 | a numeral followed by text starting with a non-digit is exactly what the leading-digits scan reads back |
| StrSplit.Split | rm2gh.py:61 | `str.split(sep)` gives at least one part; no part contains `sep`; joining the parts with `sep` gives back the string |
| StrSplit.SplitAround | rm2gh.py:61 | splitting `a + sep + b` is splitting `a` followed by splitting `b` |
| StrSplit.SplitJoin | rm2gh.py:61 | `sep.join(parts).split(sep) == parts` when no part contains `sep` |
| StrSplit.LastAfterSeparator | rm2gh.py:61 | `[-1]` of a split is the text after the last separator |
| StrFormat.Format | rm2gh.py:18-22 | `str.format` with `{}` fields fails exactly when the template has more fields than arguments |
| StrFormat.FormatLiteralPrefix | rm2gh.py:18-22 | literal text before the first field is copied through unchanged |
| StrFormat.FormatField | rm2gh.py:18-22 | a literal followed by `{}` becomes the literal followed by the next argument, and the rest of the template takes the remaining arguments |
| StrFormat.FormatLastField | rm2gh.py:18-22 | a template ending in its only field formats to the literal followed by the one argument |
| Payload.IssueFormat | rm2gh.py:18-22 | the issue template filled with the five arguments is the Redmine link, the byline and the description, in that order |
| Payload.CommentFormat | rm2gh.py:27-31 | the comment template filled with the six arguments is the note link, the byline and the journal notes, in that order |
| Payload.IssueBody | rm2gh.py:18-22 | the issue body is `***Issue migrated from Redmine: <url>/issues/<id>***\n`, then `*Originally created by <author> at <created_on> UTC.*\n\n`, then the description |
| Payload.CommentBody | rm2gh.py:27-31 | a comment body is `***Comment migrated from Redmine: <url>/issues/<id>#note-<note>***\n`, then the journal's byline, then its notes |
| Payload.Comments | rm2gh.py:24-35 | one comment per journal, in order; the `k`-th is numbered `note + k` and timestamped with the journal's `timestamp_parameter` |
| Payload.CreateIssue | rm2gh.py:17-48 | the payload's title is the subject and its `created_at` the creation time; assignee, milestone and labels are `None`; the body is the issue body; comment `k` carries note number `k + 1` and journal `k`'s timestamp |
| Payload.NoteNumberOfComment | rm2gh.py:27-31 | the note number can be read back out of a comment body |
| Payload.NotesNumberedOneToN | rm2gh.py:25-35 | comment `k` (counting from 0) of a payload links to `#note-<k+1>`, so the comments link to `#note-1` … `#note-n` in order |
| ImportStatus.ImportedIssueId | rm2gh.py:60-63 | a status other than `imported` reads as 0; an `imported` one reads as a number exactly when the URL's last `/` segment is a non-empty digit string, and otherwise `int` raises |
| ImportStatus.ImportedUrlRoundTrip | rm2gh.py:60-61 | an `imported` status whose URL is `<anything>/<n>` reads as `n` |
| Migration.Await | rm2gh.py:90-93 | polling never settles on issue number 0 |
| Migration.AwaitNewIssue | rm2gh.py:90-93 | when polling settles, the deciding response is the last one requested and every earlier one read as 0 |
| Migration.AwaitRaised | rm2gh.py:90-93 | when polling raises, it is on the last response requested, and every earlier one read as 0 |
| Migration.AwaitStillPolling | rm2gh.py:91-93 | the loop is still polling exactly when every response so far read as 0 |
| Migration.AwaitFirstDecisive | rm2gh.py:90-93 | the first response that does not read as 0 decides the outcome |
| Migration.FailedKeepsPolling | rm2gh.py:60-63 | a job that only ever reports `failed` is polled without end |
| Migration.PollUntilNonZero | rm2gh.py:90-93 | the imperative poll loop computes the outcome `Await` describes, and never exits with 0 |
| Migration.IssueLimit | rm2gh.py:78-81 | the number of issues a completed run migrates: at most the available issues, at most `MAX_ISSUES` when that is non-negative, and every issue when it is negative |
| Migration.PayloadsAt | rm2gh.py:79-84 | the `k`-th submitted payload is `create_issue` of the `k`-th Redmine issue |
| Migration.ImportIssue | rm2gh.py:84-93 | one iteration submits the next issue's payload and polls its job to the outcome `Await` describes |
| Migration.Migrate | rm2gh.py:78-100 | the issue loop: `issue_count` never exceeds a non-negative `MAX_ISSUES`; a completed run migrates exactly the limit; a stopped run stopped on the job `Await` says did not settle; the payloads are `create_issue` of the issues in order; every migrated issue got a non-zero GitHub number from its own job |

## Left out

- `redirects.py` is not part of this model. It is a separate helper script that the migration loop never calls.
- The network calls are left out: logging in to Redmine and GitHub, fetching the project, `repository.import_issue`, `github.issue`, the HTTP request and JSON decoding in `get_imported_issue_id`. Their results become inputs.
- `time.sleep(1)` and the progress `print` calls are left out. They have no effect on the values computed.
- Loading `config.py`, and exiting when it is missing, is left out. `REDMINE_URL` and `MAX_ISSUES` are fields of `Redmine.Config`.
- `str()` of a Redmine user and of a datetime, and `ghutils.timestamp_parameter`, are left uninterpreted. Their formats belong to the libraries.
- Decimal.ParseNat: accepts only unsigned ASCII digit strings. Python's `int()` also accepts surrounding whitespace, a sign, `_` separators and non-ASCII digits; GitHub's issue URLs contain none of these.
- ImportStatus.ImportedIssueId: a status record without `issue_url` (a `KeyError` in Python) is not modelled; the record always carries one.
- Payload.CreateIssue: Redmine `None` values for `description` or `notes` are not modelled (Python would render them as `None`); texts are always strings.
- StrFormat.Format: only `{}` fields are modelled. Numbered or named fields, format specs and `{{`/`}}` escapes are not modelled; the templates use none.
- Migration.PollUntilNonZero: the source loop may never end. The model reads a finite sequence of responses and reports `StillPolling` when they run out. It does not model non-termination.
- Migration.Migrate: the `print` of the new GitHub issue's URL after each import is left out, along with the `github.issue` lookup that supplies it.
- The payload dictionary lists the key `assignee` twice. Both entries are `None`, so the model has one field.
