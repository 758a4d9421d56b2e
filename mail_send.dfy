/**
 * The two entry points of the handler as they run: `Validate`, which walks the
 * validator's errors and returns on the first required field it recognises,
 * and `sendMailWithSMTP`, which fills one message object per personalization
 * block and sends it. The sends made are returned as a log.
 */
module MailSend {
  import opened Wrappers
  import Base64
  import Replacer
  import opened Mail
  import opened MailSpec

  /** A to/cc/bcc loop: the rendered addresses, appended one by one in input order. */
  method RenderAll(addrs: seq<Address>) returns (rendered: seq<string>)
    ensures rendered == FormatAll(addrs)
  {
    rendered := [];
    for k := 0 to |addrs|
      invariant rendered == FormatAll(addrs[..k])
    {
      assert addrs[..k + 1][..k] == addrs[..k];
      rendered := rendered + [EmailWithName(addrs[k])];
    }
    assert addrs[..|addrs|] == addrs;
  }

  /** `e.From` and the to/cc/bcc loops: a fresh message holding the rendered addresses. */
  method Address(req: PostRequest, p: Personalization) returns (e: Email)
    ensures fresh(e)
    ensures e.from == EmailWithName(req.from) && e.to == FormatAll(p.to) && e.cc == FormatAll(p.cc) && e.bcc == FormatAll(p.bcc)
    ensures e.subject == "" && e.html == None && e.text == None && e.attachments == []
  {
    var to := RenderAll(p.to);
    var cc := RenderAll(p.cc);
    var bcc := RenderAll(p.bcc);
    e := new Email();
    e.from, e.to, e.cc, e.bcc := EmailWithName(req.from), to, cc, bcc;
  }

  /**
   * The replacer's argument list: `make([]string, n*2)` starts it with n pairs
   * ("", ""), then each map entry is appended in iteration order.
   */
  method BuildReplacements(subs: seq<Replacer.Pair>) returns (replacements: seq<Replacer.Pair>)
    ensures replacements == Replacer.Replacements(subs)
    ensures |replacements| == 2 * |subs| && replacements[|subs|..] == subs
  {
    replacements := Replacer.Padding(|subs|);
    for k := 0 to |subs|
      invariant replacements == Replacer.Padding(|subs|) + subs[..k]
    {
      assert subs[..k + 1] == subs[..k] + [subs[k]];
      replacements := replacements + [subs[k]];
    }
    assert subs[..|subs|] == subs;
  }

  /** The content loop: each block, substituted, overwrites the HTML or the text body. */
  method SetBodies(e: Email, content: seq<Content>, replacements: seq<Replacer.Pair>)
    requires e.html == None && e.text == None
    modifies e
    ensures e.Snapshot() == old(e.Snapshot()).(html := RouteContent(content, replacements).html,
                                               text := RouteContent(content, replacements).text)
  {
    ghost var start := e.Snapshot();
    for k := 0 to |content|
      invariant e.Snapshot() == start.(html := RouteContent(content[..k], replacements).html,
                                       text := RouteContent(content[..k], replacements).text)
    {
      assert content[..k + 1][..k] == content[..k];
      var c := content[k];
      if c.contentType == "text/html" {
        e.html := Some(Replacer.Replace(replacements, c.value));
      } else {
        e.text := Some(Replacer.Replace(replacements, c.value));
      }
    }
    assert content[..|content|] == content;
  }

  /**
   * The attachment loop: decode each attachment and attach it; the first
   * failure is returned with the counter `i`, which only advances after a
   * successful attach and so equals the attachment's position.
   */
  method AttachEach(e: Email, atts: seq<AttachmentSpec>, fault: AttachFault)
    returns (failure: Option<(int, ErrorResponse)>)
    requires e.attachments == []
    modifies e
    ensures failure.None? <==> AttachAll(atts, fault).Attached?
    ensures failure.None? ==> e.Snapshot() == old(e.Snapshot()).(attachments := AttachAll(atts, fault).parts)
    ensures failure.Some? ==> AttachAll(atts, fault) == AttachFailed(failure.value.0, failure.value.1)
  {
    ghost var start := e.Snapshot();
    var i := 0;
    for k := 0 to |atts|
      invariant i == k
      invariant AttachAll(atts[..k], fault) == Attached(e.attachments)
      invariant e.Snapshot() == start.(attachments := e.attachments)
    {
      assert atts[..k + 1][..k] == atts[..k];
      var attachment := atts[k];
      var data := Base64.Decode(attachment.content);
      if data.None? {
        AttachAllStopped(atts, k + 1, fault);
        return Some((StatusBadRequest,
          GetErrorResponse(AttachmentContentMessage, Str(AttachmentField(i)), Str(AttachmentHelp))));
      }
      // the buffer write and the library's Attach, either of which may fail
      var err := fault(data.value, attachment.filename, attachment.contentType);
      if err.Some? {
        AttachAllStopped(atts, k + 1, fault);
        return Some((StatusInternalServerError,
          GetErrorResponse(err.value, Str(AttachmentField(i)), Str(AttachmentHelp))));
      }
      e.Attach(data.value, attachment.filename, attachment.contentType);
      i := i + 1;
    }
    assert atts[..|atts|] == atts;
    failure := None;
  }

  /** The body of the loop up to the sends: the message for one block, or the error that stops the call. */
  method BuildBlock(req: PostRequest, p: Personalization, fault: AttachFault) returns (r: Built)
    ensures r == BuildMessage(req, p, fault)
  {
    var e := Address(req, p);
    var replacements := BuildReplacements(p.substitutions);

    if p.subject != "" {
      e.subject := Replacer.Replace(replacements, p.subject);
    } else if req.subject != "" {
      e.subject := Replacer.Replace(replacements, req.subject);
    } else {
      return Rejected(StatusBadRequest, SubjectError());
    }

    if req.templateId != "" && p.dynamicTemplateDataLen > 0 {
      // template rendering is not implemented: neither body is set
    } else {
      SetBodies(e, req.content, replacements);
    }

    var failure := AttachEach(e, req.attachments, fault);
    if failure.Some? {
      return Rejected(failure.value.0, failure.value.1);
    }
    r := Built(e.Snapshot());
  }

  /**
   * `sendMailWithSMTP`: blocks in order, each building a fresh message; the
   * first error returns at once, leaving the sends already made in the log.
   */
  method SendMailWithSmtp(req: PostRequest, cfg: Config, fault: AttachFault)
    returns (status: int, resp: ErrorResponse, sends: seq<Send>)
    ensures Outcome(status, resp, sends) == SendMail(req, cfg, fault)
  {
    sends := [];
    for b := 0 to |req.personalizations|
      invariant Run(cfg, Blocks(req, fault)[..b]) == Running(sends)
    {
      var built := BuildBlock(req, req.personalizations[b], fault);
      if built.Rejected? {
        RunRejected(req, cfg, fault, b, sends, built.status, built.resp);
        return built.status, built.resp, sends;
      }
      // test mode, then the optional authenticated send and the anonymous one;
      // send errors are ignored
      RunBuilt(cfg, Blocks(req, fault), b, sends, built.msg);
      sends := sends + Dispatch(cfg, built.msg);
    }
    assert Blocks(req, fault)[..|req.personalizations|] == Blocks(req, fault);
    RunFinished(req, cfg, fault, sends);
    status, resp := StatusAccepted, AcceptedResponse();
  }

  /**
   * `Validate`: walk the validator's errors and return 400 on the first
   * recognised required field; when there is none the result is exactly that
   * of `sendMailWithSMTP`. Fields are checked in declaration order.
   */
  method Validate(req: PostRequest, cfg: Config, fault: AttachFault)
    returns (status: int, resp: ErrorResponse, sends: seq<Send>)
    ensures Outcome(status, resp, sends) == MailSpec.Validate(req, cfg, fault)
  {
    var errs := RequiredFailures(req);
    for k := 0 to |errs|
      invariant FirstRecognised(errs[k..]) == FirstRecognised(errs)
    {
      assert errs[k..][1..] == errs[k + 1..];
      var err := errs[k];
      if err.tag == "required" {
        if err.structField == "Personalizations" {
          return StatusBadRequest, PersonalizationsError(), [];
        } else if err.structField == "Email" {
          return StatusBadRequest, FromEmailError(), [];
        } else if err.structField == "Content" {
          return StatusBadRequest, ContentError(), [];
        }
      }
    }
    status, resp, sends := SendMailWithSmtp(req, cfg, fault);
  }
}
