/** The `sendEmail` step: check the configured addresses, then build the one SES
    request. The network call itself is not modelled; the request is the result. */
module Notifier {
  import opened Options
  import opened Events

  const MissingFromAddress := "Missing FROM_ADDRESS"
  const MissingToAddress := "Missing TO_ADDRESS"

  /** JavaScript truthiness of an environment variable: defined and not empty. */
  predicate IsSet(v: Option<string>) {
    v.Some? && |v.value| > 0
  }

  /** The request `sendEmail(subject, content)` would send, or the error it throws.
      FROM_ADDRESS is checked first, then TO_ADDRESS; both before any request exists. */
  function BuildEmail(env: Env, subject: string, content: string): (r: Result<EmailRequest, Failure>)
    ensures r == Err(MissingConfig(MissingFromAddress)) <==> !IsSet(env.fromAddress)
    ensures r == Err(MissingConfig(MissingToAddress)) <==> IsSet(env.fromAddress) && !IsSet(env.toAddress)
    ensures r.Ok? <==> IsSet(env.fromAddress) && IsSet(env.toAddress)
    ensures r.Ok? ==>
      && r.value.source == env.fromAddress.value
      && r.value.toAddresses == [env.toAddress.value]
      && r.value.subject == subject
      && r.value.body == content
  {
    if !IsSet(env.fromAddress) then Err(MissingConfig(MissingFromAddress))
    else if !IsSet(env.toAddress) then Err(MissingConfig(MissingToAddress))
    else Ok(EmailRequest(env.fromAddress.value, [env.toAddress.value], subject, content))
  }
}
