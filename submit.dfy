/**
  The submit flow's decisions: a missing token disables submission; a
  response is classified as success or failure, which fixes the banner,
  whether the submit control is usable again and whether the form is
  replaced by the confirmation.
 */
module SubmitFlow {
  import opened Wrappers
  import opened Digits

  const MissingTokenMessage: string := "Missing token. Please use the secure link from your email."
  const SuccessMessage: string := "Submitted successfully. You may close this page."
  const NetworkFailureMessage: string :=
    "Unable to submit due to a network/CORS issue. Please try again. If it continues, contact support."
  const HttpFailurePrefix: string := "Submission failed (HTTP "
  const HttpFailureSuffix: string := "). Please try again or contact support."

  /** The fixed failure text naming the HTTP status. */
  function HttpFailureMessage(status: nat): (m: string)
    ensures |HttpFailurePrefix| + |HttpFailureSuffix| < |m|
    ensures m[..|HttpFailurePrefix|] == HttpFailurePrefix
    ensures m[|m| - |HttpFailureSuffix|..] == HttpFailureSuffix
  {
    HttpFailurePrefix + NatToString(status) + HttpFailureSuffix
  }

  datatype Banner = OkBanner(text: string) | ErrBanner(text: string)

  /**
    The parsed JSON body: whether `data.success` is truthy and `data.message`
    (None when absent).
   */
  datatype ResponseBody = ResponseBody(success: bool, message: Option<string>)

  /** The HTTP response; `body` is None when `resp.json()` failed and `data` stayed `null`. */
  datatype Response = Response(ok: bool, status: nat, body: Option<ResponseBody>)

  /** What `fetch` produced: a response, or a thrown network/CORS error. */
  datatype FetchResult = Received(resp: Response) | NetworkError

  /** The page after load: submission disabled with a banner, or armed with the token. */
  datatype Setup = Disabled(banner: Banner) | Armed(token: string)

  /** The page after one submission attempt. */
  datatype Outcome = Outcome(banner: Banner, submitEnabled: bool, confirmationShown: bool)

  /** The load handler: an empty token (falsy) disables submission with the fixed message. */
  function OnLoad(token: string): (s: Setup)
    ensures s.Disabled? <==> token == ""
    ensures s.Disabled? ==> s.banner == ErrBanner(MissingTokenMessage)
    ensures s.Armed? ==> s.token == token
  {
    if token == "" then Disabled(ErrBanner(MissingTokenMessage)) else Armed(token)
  }

  /** `data?.message`, when it is a non-empty (truthy) string. */
  function ServerMessage(resp: Response): (m: Option<string>)
    ensures m.Some? ==> m.value != "" && resp.body.Some? && resp.body.value.message == m
    ensures m.None? ==> resp.body.None? || resp.body.value.message.None? || resp.body.value.message == Some("")
  {
    if resp.body.Some? && resp.body.value.message.Some? && resp.body.value.message.value != ""
    then resp.body.value.message
    else None
  }

  /** `!resp.ok || !data?.success`. */
  predicate Failed(resp: Response) {
    !resp.ok || resp.body.None? || !resp.body.value.success
  }

  /** The submit handler after `fetch` settled. */
  function SubmitOutcome(r: FetchResult): (o: Outcome)
    ensures o.banner.ErrBanner? <==> r.NetworkError? || !r.resp.ok || r.resp.body.None? || !r.resp.body.value.success
    ensures o.submitEnabled <==> o.banner.ErrBanner?
    ensures o.confirmationShown <==> o.banner.OkBanner?
    ensures o.banner.text != ""
    ensures r.NetworkError? ==> o.banner.text == NetworkFailureMessage
    ensures r.Received? && ServerMessage(r.resp).Some? ==> o.banner.text == ServerMessage(r.resp).value
    ensures r.Received? && ServerMessage(r.resp).None? ==>
              o.banner.text == if Failed(r.resp) then HttpFailureMessage(r.resp.status) else SuccessMessage
  {
    match r
    case NetworkError => Outcome(ErrBanner(NetworkFailureMessage), true, false)
    case Received(resp) =>
      var message := ServerMessage(resp);
      if Failed(resp) then
        Outcome(ErrBanner(if message.Some? then message.value else HttpFailureMessage(resp.status)), true, false)
      else
        Outcome(OkBanner(if message.Some? then message.value else SuccessMessage), false, true)
  }

  /**
    Whether the submit control is usable once the page has loaded and, when
    armed, one attempt has settled.
   */
  function ControlEnabledAfter(token: string, r: FetchResult): (enabled: bool)
    ensures !enabled <==> token == "" || SubmitOutcome(r).confirmationShown
  {
    match OnLoad(token)
    case Disabled(_) => false
    case Armed(_) => SubmitOutcome(r).submitEnabled
  }

  /** The status can be read back from the fixed failure text. */
  lemma StatusReadBack(status: nat)
    ensures var m := HttpFailureMessage(status);
            |HttpFailurePrefix| + |HttpFailureSuffix| < |m|
            && AllDigits(m[|HttpFailurePrefix|..|m| - |HttpFailureSuffix|])
            && DigitsValue(m[|HttpFailurePrefix|..|m| - |HttpFailureSuffix|]) == status
  {
    var m := HttpFailureMessage(status);
    assert m[|HttpFailurePrefix|..|m| - |HttpFailureSuffix|] == NatToString(status);
    NatToStringRoundTrip(status);
  }

  /** Different statuses give different failure texts. */
  lemma HttpFailureMessageInjective(s1: nat, s2: nat)
    requires HttpFailureMessage(s1) == HttpFailureMessage(s2)
    ensures s1 == s2
  {
    StatusReadBack(s1);
    StatusReadBack(s2);
  }
}
