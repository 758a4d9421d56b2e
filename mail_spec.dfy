/**
 * What `sendMailWithSMTP` computes, stated as functions: the message one
 * personalization block yields (or the error that stops the call), the sends
 * that follow it, and the result of running the blocks in order.
 */
module MailSpec {
  import opened Wrappers
  import Base64
  import Decimal
  import Replacer
  import opened Mail

  /** The rendered addresses, in input order. */
  function FormatAll(addrs: seq<Address>): (r: seq<string>)
    ensures |r| == |addrs|
    ensures forall i :: 0 <= i < |addrs| ==> r[i] == EmailWithName(addrs[i])
  {
    if addrs == [] then [] else FormatAll(addrs[..|addrs| - 1]) + [EmailWithName(addrs[|addrs| - 1])]
  }

  /** The subject a block uses: its own if non-empty, else the request's, else none. */
  function ResolveSubject(own: string, fallback: string): Option<string> {
    if own != "" then Some(own) else if fallback != "" then Some(fallback) else None
  }

  predicate IsHtml(c: Content) {
    c.contentType == "text/html"
  }

  /** Block i is the last block of its kind (HTML or not) in `content`. */
  predicate LastOfKind(content: seq<Content>, i: int, html: bool) {
    0 <= i < |content| && IsHtml(content[i]) == html &&
    forall j :: i < j < |content| ==> IsHtml(content[j]) != html
  }

  datatype Bodies = Bodies(html: Option<string>, text: Option<string>)

  /**
   * The bodies after the content loop: each block, substituted, overwrites the
   * HTML body if its type is exactly "text/html" and the text body otherwise.
   */
  function RouteContent(content: seq<Content>, pairs: seq<Replacer.Pair>): Bodies {
    if content == [] then Bodies(None, None)
    else
      var prev := RouteContent(content[..|content| - 1], pairs);
      var last := content[|content| - 1];
      if IsHtml(last) then prev.(html := Some(Replacer.Replace(pairs, last.value)))
      else prev.(text := Some(Replacer.Replace(pairs, last.value)))
  }

  /** The position of the last block of the given kind, if there is one. */
  function LastIndexOfKind(content: seq<Content>, html: bool): (r: Option<nat>)
    ensures r.Some? ==> LastOfKind(content, r.value, html)
    ensures r.None? ==> forall i :: 0 <= i < |content| ==> IsHtml(content[i]) != html
  {
    if content == [] then None
    else if IsHtml(content[|content| - 1]) == html then Some(|content| - 1)
    else
      var init := content[..|content| - 1];
      assert forall j :: 0 <= j < |init| ==> init[j] == content[j];
      LastIndexOfKind(init, html)
  }

  /** The body of one kind: HTML when `html` holds, text otherwise. */
  function BodyOf(b: Bodies, html: bool): Option<string> {
    if html then b.html else b.text
  }

  /**
   * Each body is set exactly when some block of its kind exists, and then holds
   * the substituted value of the LAST such block: later blocks overwrite earlier ones.
   */
  lemma {:induction false} RouteContentLastWins(content: seq<Content>, pairs: seq<Replacer.Pair>, html: bool)
    ensures BodyOf(RouteContent(content, pairs), html) ==
      match LastIndexOfKind(content, html)
      case None => None
      case Some(i) => Some(Replacer.Replace(pairs, content[i].value))
  {
    if content != [] {
      var init := content[..|content| - 1];
      RouteContentLastWins(init, pairs, html);
      assert forall j :: 0 <= j < |init| ==> init[j] == content[j];
    }
  }

  /** The field an attachment error points at: "attachments.<i>.content". */
  function AttachmentField(i: nat): string {
    "attachments." + Decimal.Itoa(i) + ".content"
  }

  const AttachmentHelp: string := HelpBase + "#message.attachments.content"

  datatype AttachOutcome = Attached(parts: seq<Attachment>) | AttachFailed(status: int, resp: ErrorResponse)

  /** Does attachment `a` decode and attach without error? */
  predicate AttachOk(a: AttachmentSpec, fault: AttachFault) {
    match Base64.Decode(a.content)
    case None => false
    case Some(data) => fault(data, a.filename, a.contentType).None?
  }

  /** The part a good attachment becomes. */
  function PartOf(a: AttachmentSpec): Attachment
    requires Base64.Decode(a.content).Some?
  {
    Attachment(a.filename, a.contentType, Base64.Decode(a.content).value)
  }

  /** The error a failing attachment at counter value i stops the call with. */
  function AttachError(a: AttachmentSpec, i: nat, fault: AttachFault): (r: AttachOutcome)
    requires !AttachOk(a, fault)
    ensures r.AttachFailed? && |r.resp.errors| == 1
    ensures r.resp.errors[0].field == Str(AttachmentField(i)) && r.resp.errors[0].help == Str(AttachmentHelp)
    ensures r.status == StatusBadRequest <==> Base64.Decode(a.content).None?
    ensures r.status == StatusBadRequest ==> r.resp.errors[0].message == AttachmentContentMessage
    ensures r.status != StatusBadRequest ==> r.status == StatusInternalServerError
    ensures r.status == StatusInternalServerError ==>
      r.resp.errors[0].message == fault(Base64.Decode(a.content).value, a.filename, a.contentType).value
  {
    match Base64.Decode(a.content)
    case None =>
      AttachFailed(StatusBadRequest, GetErrorResponse(AttachmentContentMessage, Str(AttachmentField(i)), Str(AttachmentHelp)))
    case Some(data) =>
      AttachFailed(StatusInternalServerError,
        GetErrorResponse(fault(data, a.filename, a.contentType).value, Str(AttachmentField(i)), Str(AttachmentHelp)))
  }

  /**
   * The attachment loop: decode and attach each in order, stopping at the first
   * that fails; the error names that attachment's zero-based position.
   */
  function AttachAll(atts: seq<AttachmentSpec>, fault: AttachFault): (r: AttachOutcome)
    ensures r.Attached? <==> forall i :: 0 <= i < |atts| ==> AttachOk(atts[i], fault)
    ensures r.Attached? ==> |r.parts| == |atts| && forall i :: 0 <= i < |atts| ==> r.parts[i] == PartOf(atts[i])
  {
    if atts == [] then Attached([])
    else
      var n := |atts| - 1;
      assert forall j :: 0 <= j < n ==> atts[..n][j] == atts[j];
      match AttachAll(atts[..n], fault)
      case AttachFailed(st, resp) => AttachFailed(st, resp)
      case Attached(parts) =>
        if AttachOk(atts[n], fault) then Attached(parts + [PartOf(atts[n])])
        else AttachError(atts[n], n, fault)
  }

  /** Attachment i is the first that fails. */
  predicate FirstFailure(atts: seq<AttachmentSpec>, i: int, fault: AttachFault) {
    0 <= i < |atts| && !AttachOk(atts[i], fault) && forall j :: 0 <= j < i ==> AttachOk(atts[j], fault)
  }

  /**
   * A failed attachment loop reports the first attachment that fails, under
   * its zero-based position.
   */
  lemma {:induction false} AttachAllFirstFailure(atts: seq<AttachmentSpec>, fault: AttachFault)
    requires AttachAll(atts, fault).AttachFailed?
    ensures exists i :: FirstFailure(atts, i, fault) && AttachAll(atts, fault) == AttachError(atts[i], i, fault)
  {
    var n := |atts| - 1;
    var init := atts[..n];
    assert forall j :: 0 <= j < n ==> init[j] == atts[j];
    if AttachAll(init, fault).AttachFailed? {
      AttachAllFirstFailure(init, fault);
      var i :| FirstFailure(init, i, fault) && AttachAll(init, fault) == AttachError(init[i], i, fault);
      assert FirstFailure(atts, i, fault);
    } else {
      assert FirstFailure(atts, n, fault);
    }
  }

  /** Once an attachment has failed, the later ones are never looked at. */
  lemma {:induction false} AttachAllStopped(atts: seq<AttachmentSpec>, n: nat, fault: AttachFault)
    requires n <= |atts| && AttachAll(atts[..n], fault).AttachFailed?
    ensures AttachAll(atts, fault) == AttachAll(atts[..n], fault)
    decreases |atts| - n
  {
    if n == |atts| {
      assert atts[..n] == atts;
    } else {
      var init := atts[..|atts| - 1];
      assert init[..n] == atts[..n];
      AttachAllStopped(init, n, fault);
    }
  }

  /** The result of processing one personalization block. */
  datatype Built = Built(msg: Message) | Rejected(status: int, resp: ErrorResponse)

  /** Template rendering is requested: a template id and non-empty dynamic data. */
  predicate TemplateRequested(req: PostRequest, p: Personalization) {
    req.templateId != "" && p.dynamicTemplateDataLen > 0
  }

  /** The message one personalization block builds, or the error that stops the call. */
  function BuildMessage(req: PostRequest, p: Personalization, fault: AttachFault): Built {
    var pairs := Replacer.Replacements(p.substitutions);
    match ResolveSubject(p.subject, req.subject)
    case None => Rejected(StatusBadRequest, SubjectError())
    case Some(subject) =>
      var bodies := if TemplateRequested(req, p) then Bodies(None, None) else RouteContent(req.content, pairs);
      match AttachAll(req.attachments, fault)
      case AttachFailed(st, resp) => Rejected(st, resp)
      case Attached(parts) =>
        Built(Message(EmailWithName(req.from), FormatAll(p.to), FormatAll(p.cc), FormatAll(p.bcc),
                      Replacer.Replace(pairs, subject), bodies.html, bodies.text, parts))
  }

  /**
   * The sends for one built message: none in test mode ("1"); otherwise an
   * authenticated send when a username is configured, then always an anonymous one.
   */
  function Dispatch(cfg: Config, m: Message): (r: seq<Send>)
    ensures cfg.test == "1" ==> r == []
    ensures cfg.test != "1" ==> |r| == (if |cfg.username| > 0 then 2 else 1)
    ensures forall i :: 0 <= i < |r| ==> r[i].server == cfg.server && r[i].message == m
    ensures cfg.test != "1" ==> r[|r| - 1].auth == None
    ensures cfg.test != "1" && |cfg.username| > 0 ==>
      r[0].auth == Some(PlainAuth("", cfg.username, cfg.password, HostOf(cfg.server)))
  {
    if cfg.test == "1" then []
    else
      (if |cfg.username| > 0 then [Send(cfg.server, Some(PlainAuth("", cfg.username, cfg.password, HostOf(cfg.server))), m)] else [])
      + [Send(cfg.server, None, m)]
  }

  /**
   * What each personalization block yields, in order. Building a block reads
   * nothing that an earlier block changes, so the blocks can be described
   * independently of the loop that builds them one at a time.
   */
  function Blocks(req: PostRequest, fault: AttachFault): (r: seq<Built>)
    ensures |r| == |req.personalizations|
    ensures forall i :: 0 <= i < |r| ==> r[i] == BuildMessage(req, req.personalizations[i], fault)
  {
    seq(|req.personalizations|, i requires 0 <= i < |req.personalizations| => BuildMessage(req, req.personalizations[i], fault))
  }

  /** How far the loop over blocks has got: still running, or stopped by an error. */
  datatype Progress = Running(sends: seq<Send>) | Stopped(status: int, resp: ErrorResponse, sends: seq<Send>)

  /**
   * The loop over blocks: each built block is dispatched; the first rejected
   * block stops the loop, and nothing after it is looked at.
   */
  function Run(cfg: Config, blocks: seq<Built>): Progress {
    if blocks == [] then Running([])
    else
      match Run(cfg, blocks[..|blocks| - 1])
      case Stopped(st, resp, sends) => Stopped(st, resp, sends)
      case Running(sends) =>
        match blocks[|blocks| - 1]
        case Rejected(st, resp) => Stopped(st, resp, sends)
        case Built(m) => Running(sends + Dispatch(cfg, m))
  }

  /** A call's result: status, body, and the sends made before returning. */
  datatype Outcome = Outcome(status: int, resp: ErrorResponse, sends: seq<Send>)

  /** `sendMailWithSMTP`: run every block; 202 unless some block stopped the call. */
  function SendMail(req: PostRequest, cfg: Config, fault: AttachFault): Outcome {
    match Run(cfg, Blocks(req, fault))
    case Running(sends) => Outcome(StatusAccepted, AcceptedResponse(), sends)
    case Stopped(st, resp, sends) => Outcome(st, resp, sends)
  }

  /** Once stopped, later blocks change nothing. */
  lemma {:induction false} RunStaysStopped(cfg: Config, blocks: seq<Built>, n: nat)
    requires n <= |blocks| && Run(cfg, blocks[..n]).Stopped?
    ensures Run(cfg, blocks) == Run(cfg, blocks[..n])
  {
    if n < |blocks| {
      var init := blocks[..|blocks| - 1];
      assert init[..n] == blocks[..n];
      RunStaysStopped(cfg, init, n);
    } else {
      assert blocks[..n] == blocks;
    }
  }

  /** The field declarations tagged `required`, as the validator reports them. */
  datatype FieldError = FieldError(tag: string, structField: string)

  /** Is `e` a required-field error that the handler turns into a response? */
  predicate Recognised(e: FieldError) {
    e.tag == "required" && (e.structField == "Personalizations" || e.structField == "Email" || e.structField == "Content")
  }

  /** The validator's errors for the request, in field declaration order. */
  function RequiredFailures(req: PostRequest): seq<FieldError> {
    (if req.required.personalizations then [] else [FieldError("required", "Personalizations")]) +
    (if req.required.fromEmail then [] else [FieldError("required", "Email")]) +
    (if req.required.content then [] else [FieldError("required", "Content")])
  }

  /** The response for a recognised required-field error, as the handler's switch maps it. */
  function RequiredError(e: FieldError): (r: Option<ErrorResponse>)
    ensures r.Some? <==> Recognised(e)
  {
    if e.tag != "required" then None
    else if e.structField == "Personalizations" then Some(PersonalizationsError())
    else if e.structField == "Email" then Some(FromEmailError())
    else if e.structField == "Content" then Some(ContentError())
    else None
  }

  /** The response for the first recognised error in the list, if any. */
  function FirstRecognised(errs: seq<FieldError>): Option<ErrorResponse> {
    if errs == [] then None
    else if Recognised(errs[0]) then RequiredError(errs[0])
    else FirstRecognised(errs[1..])
  }

  /** `Validate`: 400 with the first recognised required-field error, else the send. */
  function Validate(req: PostRequest, cfg: Config, fault: AttachFault): Outcome {
    match FirstRecognised(RequiredFailures(req))
    case Some(resp) => Outcome(StatusBadRequest, resp, [])
    case None => SendMail(req, cfg, fault)
  }

  /**
   * The required checks run in declaration order: a missing `personalizations`
   * is reported before a missing `from.email`, which comes before a missing
   * `content`; with all three present the result is that of the send.
   */
  lemma ValidatePrecedence(req: PostRequest, cfg: Config, fault: AttachFault)
    ensures !req.required.personalizations ==>
      Validate(req, cfg, fault) == Outcome(StatusBadRequest, PersonalizationsError(), [])
    ensures req.required.personalizations && !req.required.fromEmail ==>
      Validate(req, cfg, fault) == Outcome(StatusBadRequest, FromEmailError(), [])
    ensures req.required.personalizations && req.required.fromEmail && !req.required.content ==>
      Validate(req, cfg, fault) == Outcome(StatusBadRequest, ContentError(), [])
    ensures req.required.personalizations && req.required.fromEmail && req.required.content ==>
      Validate(req, cfg, fault) == SendMail(req, cfg, fault)
  {
    var errs := RequiredFailures(req);
    if errs != [] {
      assert Recognised(errs[0]);
    }
  }

  /** One more block that builds: its sends are appended. */
  lemma RunBuilt(cfg: Config, blocks: seq<Built>, b: nat, sends: seq<Send>, m: Message)
    requires b < |blocks| && Run(cfg, blocks[..b]) == Running(sends) && blocks[b] == Built(m)
    ensures Run(cfg, blocks[..b + 1]) == Running(sends + Dispatch(cfg, m))
  {
    assert blocks[..b + 1][..b] == blocks[..b];
  }

  /** One more block that is rejected: the run stops with its error, keeping the sends. */
  lemma RunRejectedNext(cfg: Config, blocks: seq<Built>, b: nat, sends: seq<Send>, st: int, resp: ErrorResponse)
    requires b < |blocks| && Run(cfg, blocks[..b]) == Running(sends) && blocks[b] == Rejected(st, resp)
    ensures Run(cfg, blocks[..b + 1]) == Stopped(st, resp, sends)
  {
    assert blocks[..b + 1][..b] == blocks[..b];
  }

  /** Every block built: the call answers 202 with the sends collected. */
  lemma RunFinished(req: PostRequest, cfg: Config, fault: AttachFault, sends: seq<Send>)
    requires Run(cfg, Blocks(req, fault)) == Running(sends)
    ensures SendMail(req, cfg, fault) == Outcome(StatusAccepted, AcceptedResponse(), sends)
  {
  }

  /** Block `b` rejected: the call answers with that block's error and the earlier sends. */
  lemma RunRejected(req: PostRequest, cfg: Config, fault: AttachFault, b: nat, sends: seq<Send>, st: int, resp: ErrorResponse)
    requires b < |req.personalizations|
    requires Run(cfg, Blocks(req, fault)[..b]) == Running(sends)
    requires BuildMessage(req, req.personalizations[b], fault) == Rejected(st, resp)
    ensures SendMail(req, cfg, fault) == Outcome(st, resp, sends)
  {
    var blocks := Blocks(req, fault);
    RunRejectedNext(cfg, blocks, b, sends, st, resp);
    RunStaysStopped(cfg, blocks, b + 1);
  }
}
