/** The control skeleton of `main`: the issue loop capped by `MAX_ISSUES`
    and, per issue, polling the import job until it yields a non-zero
    issue number. The Redmine and GitHub calls are replaced by their
    observable results: the issue list and, per issue, the sequence of
    status records successive polls return. */
module Migration {
  import opened Options
  import opened Redmine
  import opened ImportStatus
  import Payload

  /** How polling one import job ends, within the responses observed.
      `polls` counts the status requests made. */
  datatype PollOutcome =
    | NewIssue(id: nat, polls: nat)  // a poll returned a non-zero issue number
    | Raised(polls: nat)             // `int` raised on the imported issue URL
    | StillPolling                   // every observed response read as 0: the loop is still running

  /** The first `n` responses all read as 0, the value that keeps the loop
      polling. */
  ghost predicate ZeroBefore(responses: seq<StatusRecord>, n: nat)
    requires n <= |responses|
  {
    forall j :: 0 <= j < n ==> ImportedIssueId(responses[j]) == Some(0)
  }

  /** The same outcome reached after `k` earlier polls. */
  function Delay(o: PollOutcome, k: nat): PollOutcome {
    match o
    case NewIssue(id, polls) => NewIssue(id, polls + k)
    case Raised(polls) => Raised(polls + k)
    case StillPolling => StillPolling
  }

  /** The outcome of polling, read off the responses: the first response that
      does not read as 0 decides it. */
  function Await(responses: seq<StatusRecord>): (o: PollOutcome)
    ensures o.NewIssue? ==> o.id != 0
    decreases |responses|
  {
    if |responses| == 0 then StillPolling
    else match ImportedIssueId(responses[0])
      case None => Raised(1)
      case Some(id) => if id != 0 then NewIssue(id, 1) else Delay(Await(responses[1..]), 1)
  }

  /** A shift of the responses by one zero reading. */
  lemma ZeroBeforeShift(responses: seq<StatusRecord>, n: nat)
    requires 0 < |responses| && n < |responses|
    requires ImportedIssueId(responses[0]) == Some(0)
    requires ZeroBefore(responses[1..], n)
    ensures ZeroBefore(responses, n + 1)
  {
    forall j | 0 < j < n + 1
      ensures ImportedIssueId(responses[j]) == Some(0)
    {
      assert responses[j] == responses[1..][j - 1];
    }
  }

  /** A settled job: the deciding response is the `polls`-th, it carries the
      issue number, and every response before it read as 0. */
  lemma {:induction false} AwaitNewIssue(responses: seq<StatusRecord>)
    requires Await(responses).NewIssue?
    ensures var o := Await(responses);
      && 1 <= o.polls <= |responses|
      && ImportedIssueId(responses[o.polls - 1]) == Some(o.id)
      && ZeroBefore(responses, o.polls - 1)
    decreases |responses|
  {
    if ImportedIssueId(responses[0]) == Some(0) {
      AwaitNewIssue(responses[1..]);
      ZeroBeforeShift(responses, Await(responses[1..]).polls - 1);
    }
  }

  /** A raising job: the `polls`-th response is the one `int` rejects, and
      every response before it read as 0. */
  lemma {:induction false} AwaitRaised(responses: seq<StatusRecord>)
    requires Await(responses).Raised?
    ensures var o := Await(responses);
      && 1 <= o.polls <= |responses|
      && ImportedIssueId(responses[o.polls - 1]).None?
      && ZeroBefore(responses, o.polls - 1)
    decreases |responses|
  {
    if ImportedIssueId(responses[0]) == Some(0) {
      AwaitRaised(responses[1..]);
      ZeroBeforeShift(responses, Await(responses[1..]).polls - 1);
    }
  }

  /** The loop is still polling exactly when every response read as 0. */
  lemma {:induction false} AwaitStillPolling(responses: seq<StatusRecord>)
    ensures Await(responses).StillPolling? <==> ZeroBefore(responses, |responses|)
    decreases |responses|
  {
    if |responses| > 0 && ImportedIssueId(responses[0]) == Some(0) {
      AwaitStillPolling(responses[1..]);
      if ZeroBefore(responses[1..], |responses| - 1) {
        ZeroBeforeShift(responses, |responses| - 1);
      }
      assert ZeroBefore(responses, |responses|) ==> ZeroBefore(responses[1..], |responses| - 1) by {
        if ZeroBefore(responses, |responses|) {
          forall j | 0 <= j < |responses| - 1
            ensures ImportedIssueId(responses[1..][j]) == Some(0)
          {
            assert responses[1..][j] == responses[j + 1];
          }
        }
      }
    }
  }

  /** `Await` stops at the first response that does not read as 0: the
      responses before it all read as 0, and the loop is still polling
      exactly when every response does. */
  lemma {:induction false} AwaitFirstDecisive(responses: seq<StatusRecord>)
    ensures var o := Await(responses);
      && (o.NewIssue? ==>
        && 1 <= o.polls <= |responses|
        && ImportedIssueId(responses[o.polls - 1]) == Some(o.id)
        && ZeroBefore(responses, o.polls - 1))
      && (o.Raised? ==>
        && 1 <= o.polls <= |responses|
        && ImportedIssueId(responses[o.polls - 1]).None?
        && ZeroBefore(responses, o.polls - 1))
      && (o.StillPolling? <==> ZeroBefore(responses, |responses|))
  {
    if Await(responses).NewIssue? { AwaitNewIssue(responses); }
    if Await(responses).Raised? { AwaitRaised(responses); }
    AwaitStillPolling(responses);
  }

  /** A job that only ever reports `failed` is polled without end: the
      status is read as 0 like any other status but `imported`. The proof is
      the characterisation of a still-running loop, not an induction of its
      own, hence no automatic induction. */
  lemma {:induction false} FailedKeepsPolling(responses: seq<StatusRecord>)
    requires forall j :: 0 <= j < |responses| ==> responses[j].status == "failed"
    ensures Await(responses) == StillPolling
  {
    AwaitStillPolling(responses);
  }

  /** The inner `while new_issue_id == 0` loop: one poll, then re-poll while
      the result is 0. On exit the issue number is non-zero. */
  method PollUntilNonZero(responses: seq<StatusRecord>) returns (o: PollOutcome)
    ensures o == Await(responses)
    ensures o.NewIssue? ==> o.id != 0
  {
    if |responses| == 0 {
      return StillPolling;
    }
    var polls := 1;
    var newIssueId := ImportedIssueId(responses[0]);
    while newIssueId == Some(0)
      invariant 1 <= polls <= |responses|
      invariant newIssueId == ImportedIssueId(responses[polls - 1])
      invariant Await(responses) == Delay(Await(responses[polls - 1..]), polls - 1)
      decreases |responses| - polls
    {
      if polls == |responses| {
        return StillPolling;
      }
      assert responses[polls - 1..][1..] == responses[polls..];
      newIssueId := ImportedIssueId(responses[polls]);
      polls := polls + 1;
    }
    o := if newIssueId.None? then Raised(polls) else NewIssue(newIssueId.value, polls);
  }

  /** How many issues a run that completes migrates: `MAX_ISSUES` of them when
      it is between 0 and the number available, all of them otherwise (a
      negative `MAX_ISSUES` never equals the counter, so it caps nothing). */
  function IssueLimit(maxIssues: int, available: nat): (n: nat)
    ensures n <= available
    ensures 0 <= maxIssues ==> n <= maxIssues
    ensures n == available || n == maxIssues
    ensures maxIssues < 0 ==> n == available
  {
    if 0 <= maxIssues < available then maxIssues else available
  }

  /** The payloads built for `issues`, in order. */
  function Payloads(cfg: Config, show: Payload.Show, issues: seq<Issue>): (ps: seq<Payload.GitHubIssue>)
    ensures |ps| == |issues|
    decreases |issues|
  {
    if |issues| == 0 then []
    else Payloads(cfg, show, issues[..|issues| - 1]) + [Payload.CreateIssue(cfg, show, issues[|issues| - 1])]
  }

  lemma {:induction false} PayloadsAt(cfg: Config, show: Payload.Show, issues: seq<Issue>, k: nat)
    requires k < |issues|
    ensures Payloads(cfg, show, issues)[k] == Payload.CreateIssue(cfg, show, issues[k])
    decreases |issues|
  {
    if k < |issues| - 1 {
      PayloadsAt(cfg, show, issues[..|issues| - 1], k);
    }
  }

  /** `ids` are the issue numbers the import jobs of the first `|ids|`
      issues settled on. */
  ghost predicate SettledOn(polls: seq<seq<StatusRecord>>, ids: seq<nat>) {
    && |ids| <= |polls|
    && forall k :: 0 <= k < |ids| ==> Await(polls[k]).NewIssue? && Await(polls[k]).id == ids[k] != 0
  }

  lemma SettledOnNext(polls: seq<seq<StatusRecord>>, ids: seq<nat>, o: PollOutcome)
    requires SettledOn(polls, ids) && |ids| < |polls|
    requires o == Await(polls[|ids|]) && o.NewIssue?
    ensures SettledOn(polls, ids + [o.id])
  {
  }

  /** The body of the issue loop up to the counter update: build the payload
      of `issues[i]`, hand it to `import_issue` (appending it to the payloads
      submitted so far) and poll the import job until it settles. */
  method ImportIssue(cfg: Config, show: Payload.Show, issues: seq<Issue>, i: nat,
                     submitted: seq<Payload.GitHubIssue>, responses: seq<StatusRecord>)
    returns (submitted': seq<Payload.GitHubIssue>, outcome: PollOutcome)
    requires i < |issues| && submitted == Payloads(cfg, show, issues[..i])
    ensures submitted' == Payloads(cfg, show, issues[..i + 1])
    ensures outcome == Await(responses)
    ensures outcome.NewIssue? ==> outcome.id != 0
  {
    var ghIssue := Payload.CreateIssue(cfg, show, issues[i]);
    submitted' := submitted + [ghIssue];
    assert issues[..i + 1][..i] == issues[..i];
    outcome := PollUntilNonZero(responses);
  }

  /** How a run ends: the issue loop finished ("Migrated N issues." is
      printed), or the run stopped while settling an import job, because
      `int` raised or because the job has not yet left the 0 readings. */
  datatype RunEnd = Completed | Stopped(outcome: PollOutcome)

  /** The issue loop of `main`. `polls[i]` is what successive status requests
      for the import job of `issues[i]` return. The results are the final
      `issue_count`, the payloads handed to `import_issue` in order, and the
      GitHub issue numbers the migrated issues received. */
  method Migrate(cfg: Config, show: Payload.Show, issues: seq<Issue>, polls: seq<seq<StatusRecord>>)
    returns (issueCount: nat, submitted: seq<Payload.GitHubIssue>, newIds: seq<nat>, end: RunEnd)
    requires |polls| == |issues|
    ensures 0 <= cfg.maxIssues ==> issueCount <= cfg.maxIssues
    ensures end.Completed? ==> issueCount == IssueLimit(cfg.maxIssues, |issues|)
    ensures end.Stopped? ==> issueCount < |issues| && issueCount != cfg.maxIssues
    ensures end.Stopped? ==> end.outcome == Await(polls[issueCount]) && !end.outcome.NewIssue?
    ensures |submitted| == (if end.Completed? then issueCount else issueCount + 1)
    ensures submitted == Payloads(cfg, show, issues[..|submitted|])
    ensures |newIds| == issueCount && SettledOn(polls, newIds)
  {
    issueCount := 0;
    submitted := [];
    newIds := [];
    end := Completed;
    // `main` checks the cap at the top of each iteration, before taking the
    // next issue: the loop condition does the same.
    while issueCount < |issues| && issueCount != cfg.maxIssues
      invariant issueCount <= |issues| && end == Completed
      invariant 0 <= cfg.maxIssues ==> issueCount <= cfg.maxIssues
      invariant |newIds| == issueCount
      invariant submitted == Payloads(cfg, show, issues[..issueCount])
      invariant SettledOn(polls, newIds)
    {
      var outcome;
      submitted, outcome := ImportIssue(cfg, show, issues, issueCount, submitted, polls[issueCount]);
      if !outcome.NewIssue? {
        end := Stopped(outcome);
        return;
      }
      SettledOnNext(polls, newIds, outcome);
      newIds := newIds + [outcome.id];
      issueCount := issueCount + 1;
    }
  }
}
