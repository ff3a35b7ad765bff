/** `create_issue`: the GitHub issue-import payload built from one Redmine
    issue. */
module Payload {
  import opened Options
  import opened Redmine
  import Decimal
  import StrFormat

  /** The renderings the script takes from outside: Python's `str()` of a
      Redmine user and of a datetime, and `github3.utils.timestamp_parameter`.
      Their definitions are not part of this model. */
  datatype Show = Show(
    user: User -> string,
    time: DateTime -> string,
    timestampParameter: DateTime -> string)

  datatype Comment = Comment(body: string, createdAt: string)

  /** The keyword arguments handed to `import_issue`. */
  datatype GitHubIssue = GitHubIssue(
    title: string,
    body: string,
    createdAt: DateTime,
    assignee: Option<string>,
    milestone: Option<nat>,
    labels: Option<seq<string>>,
    comments: seq<Comment>)

  // The literal text of the two templates, between their `{}` fields.
  const IssueBanner: string := "***Issue migrated from Redmine: "
  const CommentBanner: string := "***Comment migrated from Redmine: "
  const IssuesPath: string := "/issues/"
  const NoteAnchor: string := "#note-"
  const LineEnd: string := "***\n"
  const BylineStart: string := "*Originally created by "
  const BylineAt: string := " at "
  const BylineEnd: string := " UTC.*\n\n"

  /** The issue template: the issue banner, then fields for the Redmine URL,
      the issue id, the author, the creation time and the description. */
  const IssueTemplate: string :=
    IssueBanner + StrFormat.Field + (IssuesPath + StrFormat.Field + (LineEnd + BylineStart + StrFormat.Field
      + (BylineAt + StrFormat.Field + (BylineEnd + StrFormat.Field))))

  /** The comment template: fields for the Redmine URL, the issue id, the
      note number, the journal's user, its time and its notes. */
  const CommentTemplate: string :=
    CommentBanner + StrFormat.Field + (IssuesPath + StrFormat.Field + (NoteAnchor + StrFormat.Field
      + (LineEnd + BylineStart + StrFormat.Field + (BylineAt + StrFormat.Field + (BylineEnd + StrFormat.Field)))))

  /** The second header line shared by issue and comment bodies, with the
      blank line after it: who wrote the original and when. */
  function Byline(user: string, time: string): string {
    BylineStart + user + BylineAt + time + BylineEnd
  }

  /** The first line of the issue body: a link to the Redmine issue. */
  function IssueLink(redmineUrl: string, issueId: nat): string {
    IssueBanner + redmineUrl + IssuesPath + Decimal.NatToString(issueId) + LineEnd
  }

  /** The start of a comment's first line, up to the note number. */
  function NotePrefix(redmineUrl: string, issueId: nat): string {
    CommentBanner + redmineUrl + IssuesPath + Decimal.NatToString(issueId) + NoteAnchor
  }

  /** The first line of a comment: a link to note `note` of the Redmine issue. */
  function NoteLink(redmineUrl: string, issueId: nat, note: nat): string {
    NotePrefix(redmineUrl, issueId) + Decimal.NatToString(note) + LineEnd
  }

  /** The issue template filled in field by field nests to the right; the same
      text read as link line, byline and description. */
  lemma IssuePiecesAsLines(s0: string, s1: string, s2: string, s3: string, s4: string, s5: string,
                  s6: string, s7: string, s8: string, s9: string, s10: string)
    ensures s0 + s1 + (s2 + s3 + (s4 + s5 + s6 + (s7 + s8 + (s9 + s10))))
         == (s0 + s1 + s2 + s3 + s4) + (s5 + s6 + s7 + s8 + s9) + s10
  {
  }

  /** The comment template filled in field by field nests to the right; the
      same text read as note link line, byline and notes. */
  lemma CommentPiecesAsLines(s0: string, s1: string, s2: string, s3: string, s4: string, s5: string, s6: string,
                  s7: string, s8: string, s9: string, s10: string, s11: string, s12: string)
    ensures s0 + s1 + (s2 + s3 + (s4 + s5 + (s6 + s7 + s8 + (s9 + s10 + (s11 + s12)))))
         == (s0 + s1 + s2 + s3 + s4 + s5 + s6) + (s7 + s8 + s9 + s10 + s11) + s12
  {
  }

  /** Formatting the issue template never raises and yields the link line,
      the byline and the description. */
  lemma IssueFormat(url: string, id: nat, user: string, time: string, description: string)
    ensures StrFormat.Format(IssueTemplate, [url, Decimal.NatToString(id), user, time, description]) ==
      Some(IssueLink(url, id) + Byline(user, time) + description)
  {
    var a := [url, Decimal.NatToString(id), user, time, description];
    var t4 := BylineEnd + StrFormat.Field;
    var t3 := BylineAt + StrFormat.Field + t4;
    var t2 := LineEnd + BylineStart + StrFormat.Field + t3;
    var t1 := IssuesPath + StrFormat.Field + t2;
    StrFormat.FormatLastField(BylineEnd, a[4..]);
    var r4 := BylineEnd + description;
    assert StrFormat.Format(t4, a[4..]) == Some(r4);
    StrFormat.FormatField(BylineAt, t4, a[3..]);
    assert a[3..][1..] == a[4..];
    var r3 := BylineAt + time + r4;
    assert StrFormat.Format(t3, a[3..]) == Some(r3);
    StrFormat.FormatField(LineEnd + BylineStart, t3, a[2..]);
    assert a[2..][1..] == a[3..];
    var r2 := LineEnd + BylineStart + user + r3;
    assert StrFormat.Format(t2, a[2..]) == Some(r2);
    StrFormat.FormatField(IssuesPath, t2, a[1..]);
    assert a[1..][1..] == a[2..];
    var r1 := IssuesPath + a[1] + r2;
    assert StrFormat.Format(t1, a[1..]) == Some(r1);
    StrFormat.FormatField(IssueBanner, t1, a);
    assert StrFormat.Format(IssueTemplate, a) == Some(IssueBanner + url + r1);
    IssuePiecesAsLines(IssueBanner, url, IssuesPath, a[1], LineEnd, BylineStart, user, BylineAt, time, BylineEnd, description);
  }

  /** Formatting the comment template never raises and yields the note link
      line, the byline and the notes. */
  lemma CommentFormat(url: string, id: nat, note: nat, user: string, time: string, notes: string)
    ensures StrFormat.Format(CommentTemplate, [url, Decimal.NatToString(id), Decimal.NatToString(note), user, time, notes]) ==
      Some(NoteLink(url, id, note) + Byline(user, time) + notes)
  {
    var a := [url, Decimal.NatToString(id), Decimal.NatToString(note), user, time, notes];
    var t5 := BylineEnd + StrFormat.Field;
    var t4 := BylineAt + StrFormat.Field + t5;
    var t3 := LineEnd + BylineStart + StrFormat.Field + t4;
    var t2 := NoteAnchor + StrFormat.Field + t3;
    var t1 := IssuesPath + StrFormat.Field + t2;
    StrFormat.FormatLastField(BylineEnd, a[5..]);
    var r5 := BylineEnd + notes;
    assert StrFormat.Format(t5, a[5..]) == Some(r5);
    StrFormat.FormatField(BylineAt, t5, a[4..]);
    assert a[4..][1..] == a[5..];
    var r4 := BylineAt + time + r5;
    assert StrFormat.Format(t4, a[4..]) == Some(r4);
    StrFormat.FormatField(LineEnd + BylineStart, t4, a[3..]);
    assert a[3..][1..] == a[4..];
    var r3 := LineEnd + BylineStart + user + r4;
    assert StrFormat.Format(t3, a[3..]) == Some(r3);
    StrFormat.FormatField(NoteAnchor, t3, a[2..]);
    assert a[2..][1..] == a[3..];
    var r2 := NoteAnchor + a[2] + r3;
    assert StrFormat.Format(t2, a[2..]) == Some(r2);
    StrFormat.FormatField(IssuesPath, t2, a[1..]);
    assert a[1..][1..] == a[2..];
    var r1 := IssuesPath + a[1] + r2;
    assert StrFormat.Format(t1, a[1..]) == Some(r1);
    StrFormat.FormatField(CommentBanner, t1, a);
    assert StrFormat.Format(CommentTemplate, a) == Some(CommentBanner + url + r1);
    CommentPiecesAsLines(CommentBanner, url, IssuesPath, a[1], NoteAnchor, a[2], LineEnd, BylineStart, user, BylineAt, time,
              BylineEnd, notes);
  }

  /** The formatted issue body: a link to the Redmine issue, the byline of
      its author and creation time, a blank line, and the description. */
  function IssueBody(cfg: Config, show: Show, issue: Issue): (body: string)
    ensures body == IssueLink(cfg.redmineUrl, issue.id) + Byline(show.user(issue.author), show.time(issue.createdOn))
      + issue.description
  {
    var args := [cfg.redmineUrl, Decimal.NatToString(issue.id), show.user(issue.author),
                 show.time(issue.createdOn), issue.description];
    IssueFormat(cfg.redmineUrl, issue.id, args[2], args[3], args[4]);
    StrFormat.Format(IssueTemplate, args).value
  }

  /** The formatted comment: a link to note `note` of the issue, the byline
      of the journal's author and time, a blank line, and its notes. */
  function CommentBody(cfg: Config, show: Show, issueId: nat, note: nat, journal: Journal): (body: string)
    ensures body == NoteLink(cfg.redmineUrl, issueId, note) + Byline(show.user(journal.user), show.time(journal.createdOn))
      + journal.notes
  {
    var args := [cfg.redmineUrl, Decimal.NatToString(issueId), Decimal.NatToString(note),
                 show.user(journal.user), show.time(journal.createdOn), journal.notes];
    CommentFormat(cfg.redmineUrl, issueId, note, args[3], args[4], args[5]);
    StrFormat.Format(CommentTemplate, args).value
  }

  function MakeComment(cfg: Config, show: Show, issueId: nat, note: nat, journal: Journal): Comment {
    Comment(CommentBody(cfg, show, issueId, note, journal), show.timestampParameter(journal.createdOn))
  }

  /** The comment loop, entered with the note counter at `note`. */
  function Comments(cfg: Config, show: Show, issueId: nat, journals: seq<Journal>, note: nat): (cs: seq<Comment>)
    ensures |cs| == |journals|
    ensures forall k :: 0 <= k < |journals| ==> cs[k] == MakeComment(cfg, show, issueId, note + k, journals[k])
    decreases |journals|
  {
    if |journals| == 0 then []
    else [MakeComment(cfg, show, issueId, note, journals[0])] + Comments(cfg, show, issueId, journals[1..], note + 1)
  }

  function CreateIssue(cfg: Config, show: Show, issue: Issue): (gh: GitHubIssue)
    ensures gh.title == issue.subject && gh.createdAt == issue.createdOn
    ensures gh.assignee.None? && gh.milestone.None? && gh.labels.None?
    ensures gh.body == IssueBody(cfg, show, issue)
    ensures |gh.comments| == |issue.journals|
    ensures forall k :: 0 <= k < |issue.journals| ==>
      gh.comments[k].createdAt == show.timestampParameter(issue.journals[k].createdOn)
      && gh.comments[k].body == CommentBody(cfg, show, issue.id, k + 1, issue.journals[k])
  {
    GitHubIssue(
      title := issue.subject,
      body := IssueBody(cfg, show, issue),
      createdAt := issue.createdOn,
      assignee := None,
      milestone := None,
      labels := None,
      comments := Comments(cfg, show, issue.id, issue.journals, 1))
  }

  /** Reads the note number back out of a comment header of the given issue:
      the digits after the `#note-` anchor. */
  function NoteNumber(redmineUrl: string, issueId: nat, body: string): Option<nat> {
    var prefix := NotePrefix(redmineUrl, issueId);
    if prefix <= body then Decimal.ParseNat(Decimal.LeadingDigits(body[|prefix|..])) else None
  }

  /** The anchor of a formatted comment names the note it was formatted with. */
  lemma NoteNumberOfComment(cfg: Config, show: Show, issueId: nat, note: nat, journal: Journal)
    ensures NoteNumber(cfg.redmineUrl, issueId, CommentBody(cfg, show, issueId, note, journal)) == Some(note)
  {
    var prefix := NotePrefix(cfg.redmineUrl, issueId);
    var digits := Decimal.NatToString(note);
    var rest := LineEnd + Byline(show.user(journal.user), show.time(journal.createdOn)) + journal.notes;
    var body := CommentBody(cfg, show, issueId, note, journal);
    assert body == prefix + (digits + rest);
    assert prefix <= body && body[|prefix|..] == digits + rest;
    assert rest[0] == '*';
    Decimal.LeadingDigitsOfNumeral(digits, rest);
    Decimal.ParseNatToString(note);
  }

  /** The comments of a payload carry the notes `#note-1` .. `#note-N`: the
      k-th comment (0-based) holds note k + 1, so there is no gap or repeat. */
  lemma NotesNumberedOneToN(cfg: Config, show: Show, issue: Issue, k: nat)
    requires k < |issue.journals|
    ensures NoteNumber(cfg.redmineUrl, issue.id, CreateIssue(cfg, show, issue).comments[k].body) == Some(k + 1)
  {
    NoteNumberOfComment(cfg, show, issue.id, k + 1, issue.journals[k]);
  }
}
