/** The Lambda handler: read the repository name from the first SNS record, ask
    ECR for the scan findings of its "latest" image, and, when there are findings,
    send one email whose subject counts them and whose body lists them. The ECR
    call is a parameter of the model; the SES call is represented by the request
    it would be given. */
module Handler {
  import opened Options
  import opened Events
  import Notifier
  import FindingFormat
  import Subject
  import Join

  /** The image tag every query asks about. */
  const LatestTag := "latest"

  /** What separates two finding lines in the body: one blank line. */
  const Separator := "\n\n"

  /** The ECR query for an event: the repository name of the FIRST record and
      the tag "latest". Later records are never looked at. */
  function ScanQuery(event: SnsEvent): (r: Result<DescribeRequest, Failure>)
    ensures r.Ok? <==> |event.records| > 0 && event.records[0].repositoryName.Some?
    ensures r.Ok? ==> r.value.repositoryName == event.records[0].repositoryName.value
    ensures r.Ok? ==> r.value.imageTag == LatestTag
    ensures r.Err? ==> r.error == MalformedEvent
  {
    if |event.records| == 0 then Err(MalformedEvent)
    else match event.records[0].repositoryName
      case None => Err(MalformedEvent)
      case Some(repo) => Ok(DescribeRequest(repo, LatestTag))
  }

  /** ECR answered with an error, or without a findings container. */
  predicate ScanMissing(response: DescribeResponse) {
    response.ResponseError? || response.imageScanFindings.None?
  }

  /** The findings ECR listed; an absent list reads as none. */
  function ListedFindings(response: DescribeResponse): seq<Finding>
    requires !ScanMissing(response)
  {
    match response.imageScanFindings.value.findings
    case None => []
    case Some(fs) => fs
  }

  /** The email body: the finding lines joined by the separator. */
  function Body(fs: seq<Finding>): (body: string)
    requires |fs| > 0
    ensures |body| == Join.TotalLength(FindingFormat.Lines(fs)) + (|fs| - 1) * |Separator|
    ensures FindingFormat.FormatFinding(fs[0]) <= body
  {
    Join.Fold(FindingFormat.Lines(fs), Separator)
  }

  /** What the handler does once it holds ECR's response for `repo`. */
  function Decide(repo: string, response: DescribeResponse, env: Env): (o: Outcome)
    ensures o != Fail(MalformedEvent)
    ensures o.Fail? && o.reason.ScanUnavailable? <==> ScanMissing(response)
    ensures response.ResponseError? ==> o == Fail(ScanUnavailable(Some(response.error)))
    ensures response.Described? && response.imageScanFindings.None? ==> o == Fail(ScanUnavailable(None))
    ensures o.NoEmail? <==> !ScanMissing(response) && |ListedFindings(response)| == 0
    ensures o == Fail(MissingConfig(Notifier.MissingFromAddress)) <==>
      && !ScanMissing(response) && |ListedFindings(response)| > 0
      && !Notifier.IsSet(env.fromAddress)
    ensures o == Fail(MissingConfig(Notifier.MissingToAddress)) <==>
      && !ScanMissing(response) && |ListedFindings(response)| > 0
      && Notifier.IsSet(env.fromAddress) && !Notifier.IsSet(env.toAddress)
    ensures o.Send? <==>
      && !ScanMissing(response) && |ListedFindings(response)| > 0
      && Notifier.IsSet(env.fromAddress) && Notifier.IsSet(env.toAddress)
    ensures o.Send? ==>
      && o.request.source == env.fromAddress.value
      && o.request.toAddresses == [env.toAddress.value]
      && o.request.subject == Subject.Summary(|ListedFindings(response)|, repo,
                                              response.imageScanFindings.value.completedAt)
      && o.request.body == Body(ListedFindings(response))
  {
    match response
    case ResponseError(e) => Fail(ScanUnavailable(Some(e)))
    case Described(_, None) => Fail(ScanUnavailable(None))
    case Described(_, Some(scan)) =>
      match scan.findings
      case None => NoEmail
      case Some(fs) =>
        if |fs| == 0 then NoEmail
        else
          var subject := Subject.Summary(|fs|, repo, scan.completedAt);
          match Notifier.BuildEmail(env, subject, Body(fs))
          case Err(f) => Fail(f)
          case Ok(request) => Send(request)
  }

  /** One invocation: `ecr` stands for describeImageScanFindings. The outcome is
      the decision on ECR's answer to the query for the first record's
      repository and tag "latest"; without such a record the invocation fails
      before any query. */
  function Handle(event: SnsEvent, ecr: DescribeRequest -> DescribeResponse, env: Env): (o: Outcome)
    ensures o == Fail(MalformedEvent) <==>
      !(|event.records| > 0 && event.records[0].repositoryName.Some?)
    ensures |event.records| > 0 && event.records[0].repositoryName.Some? ==>
      var repo := event.records[0].repositoryName.value;
      o == Decide(repo, ecr(DescribeRequest(repo, LatestTag)), env)
  {
    match ScanQuery(event)
    case Err(f) => Fail(f)
    case Ok(query) => Decide(query.repositoryName, ecr(query), env)
  }

  /** Only the first record of a batch decides the outcome. */
  lemma OnlyFirstRecordMatters(first: SnsRecord, rest1: seq<SnsRecord>, rest2: seq<SnsRecord>,
                               ecr: DescribeRequest -> DescribeResponse, env: Env)
    ensures Handle(SnsEvent([first] + rest1), ecr, env) == Handle(SnsEvent([first] + rest2), ecr, env)
  {
  }

  /** ECR is consulted at one point only: the event's repository with tag
      "latest". Two ECRs that agree there give the same outcome. */
  lemma QueryIsRepositoryAtLatest(event: SnsEvent, ecr1: DescribeRequest -> DescribeResponse,
                                  ecr2: DescribeRequest -> DescribeResponse, env: Env)
    requires |event.records| > 0 && event.records[0].repositoryName.Some?
    requires ecr1(DescribeRequest(event.records[0].repositoryName.value, LatestTag))
          == ecr2(DescribeRequest(event.records[0].repositoryName.value, LatestTag))
    ensures Handle(event, ecr1, env) == Handle(event, ecr2, env)
  {
  }

  /** The repository name ECR echoes back never reaches the email: the subject
      names the repository from the event. */
  lemma ResponseRepositoryIgnored(repo: string, name1: Option<string>, name2: Option<string>,
                                  scan: Option<ImageScanFindings>, env: Env)
    ensures Decide(repo, Described(name1, scan), env) == Decide(repo, Described(name2, scan), env)
  {
  }

  /** One finding: the body is exactly its line. */
  lemma BodySingleFinding(f: Finding)
    ensures Body([f]) == FindingFormat.FormatFinding(f)
  {
  }

  /** Finding i's line appears verbatim in the body at its offset, after the
      lines of the earlier findings. */
  lemma BodyLineAt(fs: seq<Finding>, i: nat)
    requires i < |fs|
    ensures var lines := FindingFormat.Lines(fs);
      && Join.Offset(lines, Separator, i) + |lines[i]| <= |Body(fs)|
      && Body(fs)[Join.Offset(lines, Separator, i)..Join.Offset(lines, Separator, i) + |lines[i]|]
         == FindingFormat.FormatFinding(fs[i])
  {
    Join.FoldLineAt(FindingFormat.Lines(fs), Separator, i);
  }

  /** A blank line, and nothing else, separates the lines of findings i and i + 1. */
  lemma BodySeparatorAt(fs: seq<Finding>, i: nat)
    requires i + 1 < |fs|
    ensures var lines := FindingFormat.Lines(fs);
      && Join.Offset(lines, Separator, i + 1) <= |Body(fs)|
      && Body(fs)[Join.Offset(lines, Separator, i) + |lines[i]|..Join.Offset(lines, Separator, i + 1)]
         == "\n\n"
  {
    Join.FoldSeparatorAt(FindingFormat.Lines(fs), Separator, i);
  }

  /** When no field holds a newline, splitting the body at blank lines gives
      back one line per finding, in ECR's order. */
  lemma BodySplitsIntoLines(fs: seq<Finding>)
    requires |fs| > 0
    requires forall i :: 0 <= i < |fs| ==>
      '\n' !in fs[i].name && '\n' !in fs[i].severity && '\n' !in fs[i].uri
    ensures Join.Split(Body(fs), Separator) == FindingFormat.Lines(fs)
  {
    var lines := FindingFormat.Lines(fs);
    forall i | 0 <= i < |lines| ensures Separator[0] !in lines[i] {
      assert lines[i] == fs[i].name + " (" + fs[i].severity + "): " + fs[i].uri;
    }
    Join.SplitFold(lines, Separator);
  }

  /** The subject of the one email reports how many findings ECR listed, and
      names the repository from the event. */
  lemma SubjectReportsCount(repo: string, response: DescribeResponse, env: Env)
    requires Decide(repo, response, env).Send?
    ensures var subject := Decide(repo, response, env).request.subject;
      && Subject.CountOf(subject) == Some(|ListedFindings(response)|)
      && Subject.RepoStart(|ListedFindings(response)|) + |repo| <= |subject|
      && subject[Subject.RepoStart(|ListedFindings(response)|)..
                 Subject.RepoStart(|ListedFindings(response)|) + |repo|] == repo
  {
    var at := response.imageScanFindings.value.completedAt;
    Subject.SummaryCount(|ListedFindings(response)|, repo, at);
    Subject.SummaryRepository(|ListedFindings(response)|, repo, at);
  }
}
