/** The pure tail of `get_imported_issue_id`: interpreting the decoded
    status record of a GitHub issue-import job. */
module ImportStatus {
  import opened Options
  import Decimal
  import StrSplit

  /** The two fields read from the decoded JSON status record. */
  datatype StatusRecord = StatusRecord(status: string, issueUrl: string)

  const Imported: string := "imported"

  /** The public number of the imported issue, or 0 while the job has not
      reached the `imported` status (pending or failed alike). `None` stands
      for `int` raising on a last URL segment that is not a number. */
  function ImportedIssueId(rec: StatusRecord): (r: Option<nat>)
    ensures rec.status != Imported ==> r == Some(0)
    ensures rec.status == Imported ==>
      (r.Some? <==> var last := StrSplit.Last(StrSplit.Split(rec.issueUrl, '/')); |last| > 0 && Decimal.IsDigits(last))
  {
    if rec.status == Imported then Decimal.ParseNat(StrSplit.Last(StrSplit.Split(rec.issueUrl, '/')))
    else Some(0)
  }

  /** An imported job whose issue URL ends in `/<n>` yields `n`, whatever the
      rest of the URL looks like. */
  lemma ImportedUrlRoundTrip(base: string, n: nat)
    ensures ImportedIssueId(StatusRecord(Imported, base + "/" + Decimal.NatToString(n))) == Some(n)
  {
    var digits := Decimal.NatToString(n);
    assert '/' !in digits;
    assert base + "/" + digits == base + ['/'] + digits;
    StrSplit.LastAfterSeparator(base, '/', digits);
    Decimal.ParseNatToString(n);
  }
}
