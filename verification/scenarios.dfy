/** Concrete invocations of the handler, end to end. */
module Scenarios {
  import opened Options
  import opened Events
  import opened Handler
  import FindingFormat
  import Decimal
  import Subject

  const Configured := Env(Some("alerts@example.com"), Some("ops@example.com"))

  const TwoFindings := [Finding("CVE-1", "HIGH", "u1"), Finding("CVE-2", "LOW", "u2")]

  lemma NumeralTwo()
    ensures Decimal.FromNat(2) == "2"
  {
  }

  lemma SummaryForTwoFindingsUnfolds()
    ensures Subject.Summary(2, "svc-a", "2023-01-01T00:00:00Z")
         == "Got " + "2" + " security findings for " + "svc-a" + " at " + "2023-01-01T00:00:00Z"
  {
    NumeralTwo();
  }

  // Merges the literals two at a time: one comparison of the whole text is unstable for the solver.
  lemma SubjectTextForTwoFindings()
    ensures "Got " + "2" + " security findings for " + "svc-a" + " at " + "2023-01-01T00:00:00Z"
         == "Got 2 security findings for svc-a at 2023-01-01T00:00:00Z"
  {
    calc {
      "Got " + "2" + " security findings for " + "svc-a" + " at " + "2023-01-01T00:00:00Z";
      { assert "Got " + "2" == "Got 2"; }
      "Got 2" + " security findings for " + "svc-a" + " at " + "2023-01-01T00:00:00Z";
      { assert "Got 2" + " security findings for " == "Got 2 security findings for "; }
      "Got 2 security findings for " + "svc-a" + " at " + "2023-01-01T00:00:00Z";
      { assert "Got 2 security findings for " + "svc-a" == "Got 2 security findings for svc-a"; }
      "Got 2 security findings for svc-a" + " at " + "2023-01-01T00:00:00Z";
      { assert "Got 2 security findings for svc-a" + " at " == "Got 2 security findings for svc-a at "; }
      "Got 2 security findings for svc-a at " + "2023-01-01T00:00:00Z";
    }
  }

  /** The subject for two findings in "svc-a". */
  lemma SubjectForTwoFindings()
    ensures Subject.Summary(2, "svc-a", "2023-01-01T00:00:00Z")
         == "Got 2 security findings for svc-a at 2023-01-01T00:00:00Z"
  {
    SummaryForTwoFindingsUnfolds();
    SubjectTextForTwoFindings();
  }

  /** The body for two findings: their lines, in order, around one blank line. */
  lemma BodyForTwoFindings()
    ensures Body(TwoFindings) == "CVE-1 (HIGH): u1\n\nCVE-2 (LOW): u2"
  {
    var lines := FindingFormat.Lines(TwoFindings);
    assert lines[0] == "CVE-1 (HIGH): u1";
    assert lines[1] == "CVE-2 (LOW): u2";
    assert lines[..1] == ["CVE-1 (HIGH): u1"];
  }

  /** Two findings for repository "svc-a": one email, to the one configured
      recipient, with the count in the subject and both lines in ECR's order. */
  lemma TwoFindingsSendOneEmail()
    ensures
      var scan := ImageScanFindings("2023-01-01T00:00:00Z", Some(TwoFindings));
      var ecr := (q: DescribeRequest) => Described(Some(q.repositoryName), Some(scan));
      Handle(SnsEvent([SnsRecord(Some("svc-a"))]), ecr, Configured)
      == Send(EmailRequest("alerts@example.com", ["ops@example.com"],
                           "Got 2 security findings for svc-a at 2023-01-01T00:00:00Z",
                           "CVE-1 (HIGH): u1\n\nCVE-2 (LOW): u2"))
  {
    SubjectForTwoFindings();
    BodyForTwoFindings();
  }

  /** An empty findings list for "svc-b": the invocation succeeds and sends nothing,
      even with no addresses configured. */
  lemma EmptyFindingsSendNothing()
    ensures
      var ecr := (q: DescribeRequest) => Described(Some(q.repositoryName), Some(ImageScanFindings("t", Some([]))));
      Handle(SnsEvent([SnsRecord(Some("svc-b"))]), ecr, Env(None, None)) == NoEmail
  {
  }

  /** ECR reports an error: the invocation fails and no email is built. */
  lemma QueryErrorFails()
    ensures
      var ecr := (q: DescribeRequest) => ResponseError("AccessDenied");
      Handle(SnsEvent([SnsRecord(Some("svc-c"))]), ecr, Configured)
      == Fail(ScanUnavailable(Some("AccessDenied")))
  {
  }

  /** An empty batch fails before ECR is asked anything. */
  lemma EmptyBatchFails(ecr: DescribeRequest -> DescribeResponse)
    ensures Handle(SnsEvent([]), ecr, Configured) == Fail(MalformedEvent)
  {
  }

  /** An empty FROM_ADDRESS counts as missing, and is reported before TO_ADDRESS. */
  lemma EmptySenderReportedFirst()
    ensures
      var ecr := (q: DescribeRequest) =>
        Described(None, Some(ImageScanFindings("t", Some([Finding("CVE-3", "MEDIUM", "u3")]))));
      Handle(SnsEvent([SnsRecord(Some("svc-d"))]), ecr, Env(Some(""), None))
      == Fail(MissingConfig("Missing FROM_ADDRESS"))
  {
  }
}
