/** The values the scan-result handler consumes and produces: the parsed SNS
    notification, the ECR `describeImageScanFindings` request and response, the
    process environment, the SES email request, and the invocation's outcome. */
module Events {
  import opened Options

  /** One SNS record of the notification. Its message is the JSON text of an ECR
      scan-completed event; the model holds it already parsed, as the event's
      `detail['repository-name']`, or None when the message is not JSON or has
      no such field. */
  datatype SnsRecord = SnsRecord(repositoryName: Option<string>)

  /** The SNS event delivered to the function: a batch of records. */
  datatype SnsEvent = SnsEvent(records: seq<SnsRecord>)

  /** One vulnerability reported by the scan. */
  datatype Finding = Finding(name: string, severity: string, uri: string)

  /** The `imageScanFindings` container of an ECR response. `findings` is None
      when ECR leaves the list out altogether. */
  datatype ImageScanFindings = ImageScanFindings(completedAt: string, findings: Option<seq<Finding>>)

  /** The request sent to ECR's `describeImageScanFindings`. */
  datatype DescribeRequest = DescribeRequest(repositoryName: string, imageTag: string)

  /** What ECR answers: either a response carrying an error, or a response with
      the repository name it reports and, possibly, a findings container. */
  datatype DescribeResponse =
    | ResponseError(error: string)
    | Described(repositoryName: Option<string>, imageScanFindings: Option<ImageScanFindings>)

  /** The process environment variables the handler reads. */
  datatype Env = Env(fromAddress: Option<string>, toAddress: Option<string>)

  /** The SES `sendEmail` request: sender, recipients, subject and text body. */
  datatype EmailRequest = EmailRequest(source: string, toAddresses: seq<string>, subject: string, body: string)

  /** Why an invocation throws. */
  datatype Failure =
    | MalformedEvent                      // no first record, or its message lacks a repository name
    | ScanUnavailable(error: Option<string>) // ECR reported an error, or no findings container
    | MissingConfig(message: string)      // an email address is not configured

  /** What one invocation does: throw, return without sending, or send one email. */
  datatype Outcome = Fail(reason: Failure) | NoEmail | Send(request: EmailRequest)
}
