# ECR image scan result handler, modelled in Dafny

This project models the Lambda function that ECR scan-completed notifications
trigger. The function reads the repository name from the first SNS record and
asks ECR's `describeImageScanFindings` for the findings of the `latest` image.
When findings exist, it formats them and sends one email through SES.

The model is a set of pure functions:

- `Handler.Handle(event, ecr, env)` stands for one invocation. `ecr` is a
  total function from the query to ECR's response, standing in for the SDK
  call. `env` holds the two environment variables `FROM_ADDRESS` and
  `TO_ADDRESS`.
- The result is an `Outcome`, one of:
  - `Fail(reason)`: the invocation throws;
  - `NoEmail`: it returns without sending;
  - `Send(request)`: it sends exactly one SES request, which is this value.

The modules follow the code:

- `Events`: the data model (SNS records, ECR request and response, environment, SES request, outcome).
- `Handler`: the body of `exports.handler` (query, three-way decision on the response, email).
- `Notifier`: `sendEmail`'s configuration checks and request shape.
- `FindingFormat`: the `name (severity): uri` line of one finding, and a parser for it.
- `Subject`: the summary line that becomes the subject, and a reader for its count.
- `Join`: `reduce` with no initial value and a `"\n\n"` separator, with a
  reference join, the layout of lines and separators, and a split that recovers the lines.
- `Decimal`: how `${n}` renders the count, and the parser that inverts it.
- `Scenarios`: concrete end-to-end invocations.

These four computations are each paired with a partner and a lemma that connects the two:

- the fold with a front-to-back join and a split;
- the line format with a parser;
- the decimal rendering with a parser, proved in both directions;
- the subject with a reader that recovers the count.

## Model

| member | source | states |
|---|---|---|
| `Handler.ScanQuery` | lambda-handler/handler.ts:33-41 | The ECR query exists exactly when the batch has a first record that carries a repository name. Its repository is that record's name and its tag is always `latest`. Otherwise the invocation fails as a malformed event. |
| `Handler.Handle` | lambda-handler/handler.ts:30-63 | An invocation fails as a malformed event exactly when the first record or its repository name is missing. Otherwise its outcome is the decision on what ECR answers for that repository at tag `latest`. |
| `Handler.OnlyFirstRecordMatters` | lambda-handler/handler.ts:33 | Two batches that share their first record have the same outcome, so later records are ignored. |
| `Handler.QueryIsRepositoryAtLatest` | lambda-handler/handler.ts:36-43 | ECR is consulted only for the event's repository at tag `latest`. Two ECRs that agree on that one query give the same outcome. |
| `Handler.Decide` | lambda-handler/handler.ts:43-62 | Complete decision table. An ECR error gives a scan failure that carries the error text. A missing findings container gives a scan failure with no error text. An absent or empty findings list gives no email, whatever the configuration. One or more findings give exactly one email when both addresses are set. That email goes from FROM_ADDRESS to the single recipient TO_ADDRESS. Its subject is the summary for the finding count, the event's repository and the completion time. Its body is the joined finding lines. Otherwise the outcome is the configuration failure, FROM_ADDRESS first. The outcome is never a malformed-event failure. |
| `Handler.ResponseRepositoryIgnored` | lambda-handler/handler.ts:35-54 | The repository name that ECR echoes back does not change the outcome. The subject uses the name from the event. |
| `Handler.Body` | lambda-handler/handler.ts:56-58 | The body starts with the first finding's line. Its length is the sum of the line lengths plus one two-character separator between each pair of consecutive lines. |
| `Handler.BodySingleFinding` | lambda-handler/handler.ts:58 | With one finding, the body is exactly that finding's line. |
| `Handler.BodyLineAt` | lambda-handler/handler.ts:56-58 | The line of finding i appears verbatim in the body at its offset. The offset comes after every earlier finding's line and its separator, so the input order is kept. |
| `Handler.BodySeparatorAt` | lambda-handler/handler.ts:58 | Exactly `"\n\n"` lies between the lines of findings i and i + 1. |
| `Handler.BodySplitsIntoLines` | lambda-handler/handler.ts:56-58 | If no field contains a newline, splitting the body at `"\n\n"` gives back one line per finding, in ECR's order. |
| `Handler.SubjectReportsCount` | lambda-handler/handler.ts:53-54 | The subject of the email reads back as the number of findings ECR listed. The event's repository name appears verbatim at the offset that `Subject.Summary` places right after `Got <n> security findings for `. |
| `Notifier.BuildEmail` | lambda-handler/handler.ts:6-25 | It fails with `Missing FROM_ADDRESS` exactly when FROM_ADDRESS is unset or empty. It fails with `Missing TO_ADDRESS` exactly when FROM_ADDRESS is set and TO_ADDRESS is unset or empty. Otherwise the request has FROM_ADDRESS as its source and TO_ADDRESS as its only recipient, and carries the given subject and body. |
| `FindingFormat.FormatFinding` | lambda-handler/handler.ts:56-57 | For every finding, the line is the name, then ` (`, then the severity, then `): `, then the URI, each at its fixed position. Its length is five characters more than the three fields together. |
| `FindingFormat.Lines` | lambda-handler/handler.ts:56-57 | There is one line per finding, and line i is the formatted finding i. |
| `FindingFormat.ParseFormatted` | lambda-handler/handler.ts:56-57 | The name, severity and URI can be read back from the line when the name contains no `(` and the severity no `)`. |
| `Join.Fold` | lambda-handler/handler.ts:58 | The left fold without an initial value needs at least one line. Its result starts with the first line. Its length is the total length of the lines plus n - 1 separators. |
| `Join.FoldIsJoined` | lambda-handler/handler.ts:58 | The fold equals the front-to-back join, so the lines are not reversed. |
| `Join.FoldLineAt` | lambda-handler/handler.ts:58 | Every line appears verbatim at its offset in the fold. |
| `Join.FoldSeparatorAt` | lambda-handler/handler.ts:58 | Exactly one separator lies between consecutive lines in the fold. |
| `Join.SplitFold` | lambda-handler/handler.ts:58 | If no line contains the separator's first character, splitting the fold at the separator gives back the lines. |
| `Subject.Summary` | lambda-handler/handler.ts:54 | For every count, repository and time, the summary is, piece by piece at fixed positions: `Got `, the decimal count, ` security findings for `, the repository, ` at `, and the completion time. Its length is the sum of those pieces. |
| `Subject.SummaryCount` | lambda-handler/handler.ts:53-54 | The number written after `Got ` reads back as the finding count. |
| `Subject.SummaryRepository` | lambda-handler/handler.ts:54 | The repository name appears verbatim at its offset. `Subject.Summary`'s contract places that offset right after `Got <n> security findings for `. |
| `Decimal.FromNat` | lambda-handler/handler.ts:54 | Interpolating the count gives a canonical numeral: one or more decimal digits, with a leading zero only for the number 0. |
| `Decimal.ValueOfFromNat` | lambda-handler/handler.ts:54 | Reading the rendered numeral back gives the count. |
| `Decimal.FromNatOfValue` | lambda-handler/handler.ts:54 | Every canonical numeral is the rendering of the number it denotes, so rendering is a bijection. |
| `Scenarios.TwoFindingsSendOneEmail` | lambda-handler/handler.ts:53-61 | With findings CVE-1/HIGH/u1 and CVE-2/LOW/u2 for `svc-a`, one email is sent. Its subject is `Got 2 security findings for svc-a at 2023-01-01T00:00:00Z` and its body is `CVE-1 (HIGH): u1\n\nCVE-2 (LOW): u2`. |
| `Scenarios.EmptyFindingsSendNothing` | lambda-handler/handler.ts:53-55 | An empty findings list gives no email, even with neither address configured. |
| `Scenarios.QueryErrorFails` | lambda-handler/handler.ts:44-46 | An ECR error fails the invocation and carries the error text. |
| `Scenarios.EmptyBatchFails` | lambda-handler/handler.ts:33 | An SNS event with no records fails before any query. |
| `Scenarios.EmptySenderReportedFirst` | lambda-handler/handler.ts:7-14 | An empty FROM_ADDRESS counts as missing and is reported before a missing TO_ADDRESS. |

## Left out

- `cdk/index.ts`: the infrastructure stack is declarative provisioning, with no runtime decisions to model.
- `JSON.parse` of the SNS message: a record holds the event's `detail['repository-name']` as already parsed. It is `None` when the message is not JSON, or when `detail` or the name is missing.
- Missing repository name: when `detail` exists but has no `repository-name`, the code passes `undefined` to the ECR SDK, which rejects the request. The model reports every such event as `MalformedEvent` before a query. In both cases the invocation throws.
- The ECR call: it is the parameter `ecr`. A rejected SDK promise throws at line 43 with the SDK's own error. A resolved response that carries `$response.error` throws at line 45 with the error's JSON text. The model keeps either one as an opaque string in `ResponseError`.
- Paging: the handler makes one `describeImageScanFindings` call and never follows its `nextToken`. A `Described` response is that single page of findings, so the proved count is the count on that page, not necessarily the scan's total.
- The SES call and its failures: `Send(request)` is the request handed to SES. A delivery failure would make the invocation throw, and is not modelled.
- `console.log` output, `async`/`await` sequencing, and the SES response that is printed after sending: these are I/O with no effect on the outcome.
- `imageScanCompletedAt` is an opaque string; how JavaScript renders a `Date` is not modelled.
- Absent fields: the SDK types make a finding's `name`, `severity` and `uri`, and the completion time, optional. The template would render a missing one as `undefined`. The model treats them as strings.
- `Handler.BodySplitsIntoLines`: stated only for findings whose fields contain no newline, a simple sufficient condition. The round trip breaks only when a field contains `"\n\n"`, or has a `"\n"` at its edge next to a separator.
- `FindingFormat.ParseFormatted`: stated only for names without `(` and severities without `)`, a simple sufficient condition. The parser takes the name up to the first `(`. Some other lines still read back correctly, but a name containing ` (` can make a line genuinely ambiguous. For example, `a (b (c): u` is the line of both (`a (b`, `c`, `u`) and (`a`, `b (c`, `u`).
- The email text is sent exactly as built. The model does not cover SES's handling of character sets or length limits.
