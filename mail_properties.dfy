/**
 * Properties of the mail-send handler that relate several blocks, several
 * calls, or a call and its parts: how an error stops the call and what it
 * leaves behind, what a built message holds, and the shape of every response.
 */
module MailProperties {
  import opened Wrappers
  import Decimal
  import Replacer
  import opened Mail
  import opened MailSpec

  /** The sends that a run of built messages makes, in order. */
  function SendsOf(cfg: Config, msgs: seq<Message>): seq<Send> {
    if msgs == [] then []
    else SendsOf(cfg, msgs[..|msgs| - 1]) + Dispatch(cfg, msgs[|msgs| - 1])
  }

  /** Every message is sent once per send that Dispatch makes for it, and not at all in test mode. */
  lemma {:induction false} SendsOfCount(cfg: Config, msgs: seq<Message>)
    ensures cfg.test == "1" ==> SendsOf(cfg, msgs) == []
    ensures cfg.test != "1" ==> |SendsOf(cfg, msgs)| == |msgs| * (if |cfg.username| > 0 then 2 else 1)
  {
    if msgs != [] {
      SendsOfCount(cfg, msgs[..|msgs| - 1]);
    }
  }

  /** The first |msgs| blocks all built, into the messages `msgs`. */
  predicate BuiltPrefix(blocks: seq<Built>, msgs: seq<Message>) {
    |msgs| <= |blocks| && forall i :: 0 <= i < |msgs| ==> blocks[i] == Built(msgs[i])
  }

  /** While every block so far has built, the run has made exactly their sends. */
  lemma {:induction false} RunPrefix(cfg: Config, blocks: seq<Built>, msgs: seq<Message>)
    requires BuiltPrefix(blocks, msgs)
    ensures Run(cfg, blocks[..|msgs|]) == Running(SendsOf(cfg, msgs))
  {
    if msgs != [] {
      var n := |msgs| - 1;
      assert BuiltPrefix(blocks, msgs[..n]);
      RunPrefix(cfg, blocks, msgs[..n]);
      RunBuilt(cfg, blocks, n, SendsOf(cfg, msgs[..n]), msgs[n]);
    }
  }

  /**
   * A block that is rejected ends the call with its own error, and the sends of
   * the blocks before it stay made: an abort does not undo earlier deliveries.
   */
  lemma AbortKeepsEarlierSends(req: PostRequest, cfg: Config, fault: AttachFault, msgs: seq<Message>, st: int, resp: ErrorResponse)
    requires |msgs| < |req.personalizations|
    requires forall i :: 0 <= i < |msgs| ==> BuildMessage(req, req.personalizations[i], fault) == Built(msgs[i])
    requires BuildMessage(req, req.personalizations[|msgs|], fault) == Rejected(st, resp)
    ensures SendMail(req, cfg, fault) == Outcome(st, resp, SendsOf(cfg, msgs))
  {
    RunPrefix(cfg, Blocks(req, fault), msgs);
    RunRejected(req, cfg, fault, |msgs|, SendsOf(cfg, msgs), st, resp);
  }

  /** When every block builds, the call answers 202 and has sent every block's message. */
  lemma AllBuiltAccepted(req: PostRequest, cfg: Config, fault: AttachFault, msgs: seq<Message>)
    requires |msgs| == |req.personalizations|
    requires forall i :: 0 <= i < |msgs| ==> BuildMessage(req, req.personalizations[i], fault) == Built(msgs[i])
    ensures SendMail(req, cfg, fault) == Outcome(StatusAccepted, AcceptedResponse(), SendsOf(cfg, msgs))
  {
    var blocks := Blocks(req, fault);
    RunPrefix(cfg, blocks, msgs);
    assert blocks[..|msgs|] == blocks;
  }

  /**
   * `required` only rejects a missing list: a present but empty personalizations
   * list passes validation, and the call answers 202 without sending anything.
   */
  lemma EmptyPersonalizationsAccepted(req: PostRequest, cfg: Config, fault: AttachFault)
    requires req.required.personalizations && req.required.fromEmail && req.required.content
    requires req.personalizations == []
    ensures Validate(req, cfg, fault) == Outcome(StatusAccepted, AcceptedResponse(), [])
  {
    ValidatePrecedence(req, cfg, fault);
    assert Blocks(req, fault) == [];
  }

  /**
   * After the blocks, the run's sends are those of the built prefix `msgs`,
   * and if the run is still going that prefix is every block.
   */
  predicate SentBy(cfg: Config, blocks: seq<Built>, msgs: seq<Message>) {
    BuiltPrefix(blocks, msgs) && Run(cfg, blocks).sends == SendsOf(cfg, msgs) &&
    (Run(cfg, blocks).Running? ==> |msgs| == |blocks|)
  }

  /** Whatever state the run is in, its sends are those of a prefix of blocks that all built. */
  lemma {:induction false} RunSends(cfg: Config, blocks: seq<Built>)
    ensures exists msgs :: SentBy(cfg, blocks, msgs)
  {
    if blocks == [] {
      assert SentBy(cfg, blocks, []);
    } else {
      var init := blocks[..|blocks| - 1];
      RunSends(cfg, init);
      var msgs :| SentBy(cfg, init, msgs);
      var more := RunSendsStep(cfg, blocks, msgs);
    }
  }

  /** Helper for RunSends: the last block extends the built prefix or leaves it as it is. */
  lemma RunSendsStep(cfg: Config, blocks: seq<Built>, msgs: seq<Message>) returns (more: seq<Message>)
    requires blocks != [] && SentBy(cfg, blocks[..|blocks| - 1], msgs)
    ensures SentBy(cfg, blocks, more)
  {
    var init := blocks[..|blocks| - 1];
    var last := blocks[|blocks| - 1];
    assert BuiltPrefix(blocks, msgs) by {
      assert forall i :: 0 <= i < |init| ==> init[i] == blocks[i];
    }
    match Run(cfg, init)
    case Stopped(_, _, _) =>
      more := msgs;
    case Running(sends) =>
      if last.Rejected? {
        more := msgs;
      } else {
        more := msgs + [last.msg];
        assert more[..|msgs|] == msgs;
      }
  }

  /** With SENDGRID_DEV_TEST set to "1" no block is ever sent, whatever the outcome. */
  lemma DryRunSendsNothing(req: PostRequest, cfg: Config, fault: AttachFault)
    requires cfg.test == "1"
    ensures SendMail(req, cfg, fault).sends == []
  {
    RunSends(cfg, Blocks(req, fault));
    var msgs :| SentBy(cfg, Blocks(req, fault), msgs);
    SendsOfCount(cfg, msgs);
  }

  /**
   * Outside test mode an accepted call has made two sends per block when a
   * username is configured (authenticated, then anonymous) and one otherwise.
   */
  lemma AcceptedSendCount(req: PostRequest, cfg: Config, fault: AttachFault)
    requires cfg.test != "1"
    requires SendMail(req, cfg, fault).status == StatusAccepted
    ensures |SendMail(req, cfg, fault).sends| == |req.personalizations| * (if |cfg.username| > 0 then 2 else 1)
  {
    var blocks := Blocks(req, fault);
    RunStatus(req, cfg, fault);
    RunSends(cfg, blocks);
    var msgs :| SentBy(cfg, blocks, msgs);
    SendsOfCount(cfg, msgs);
  }

  /** A rejection is a 400 or a 500 whose single entry names a field. */
  predicate WellFormedRejection(b: Built) {
    b.Rejected? ==>
      (b.status == StatusBadRequest || b.status == StatusInternalServerError) &&
      |b.resp.errors| == 1 && b.resp.errors[0].field.Str?
  }

  /** Every rejection a block produces is a 400 or a 500 naming a field. */
  lemma RejectionShape(req: PostRequest, p: Personalization, fault: AttachFault)
    ensures WellFormedRejection(BuildMessage(req, p, fault))
  {
    if AttachAll(req.attachments, fault).AttachFailed? {
      AttachAllFirstFailure(req.attachments, fault);
    }
  }

  /** A stopped run stopped with one of its blocks' rejections. */
  lemma {:induction false} RunStoppedShape(cfg: Config, blocks: seq<Built>)
    requires forall i :: 0 <= i < |blocks| ==> WellFormedRejection(blocks[i])
    ensures Run(cfg, blocks).Stopped? ==>
      WellFormedRejection(Rejected(Run(cfg, blocks).status, Run(cfg, blocks).resp))
  {
    if blocks != [] {
      RunStoppedShape(cfg, blocks[..|blocks| - 1]);
      assert WellFormedRejection(blocks[|blocks| - 1]);
    }
  }

  /** The call answers 202 exactly when no block stopped it; otherwise a well-formed rejection. */
  lemma RunStatus(req: PostRequest, cfg: Config, fault: AttachFault)
    ensures SendMail(req, cfg, fault).status == StatusAccepted <==> Run(cfg, Blocks(req, fault)).Running?
    ensures Run(cfg, Blocks(req, fault)).Stopped? ==>
      WellFormedRejection(Rejected(SendMail(req, cfg, fault).status, SendMail(req, cfg, fault).resp))
  {
    var blocks := Blocks(req, fault);
    forall i | 0 <= i < |blocks|
      ensures WellFormedRejection(blocks[i])
    {
      RejectionShape(req, req.personalizations[i], fault);
    }
    RunStoppedShape(cfg, blocks);
  }

  /**
   * Every response of the handler holds exactly one error entry; the status is
   * 202, 400 or 500, and it is 202 exactly when the entry's field is null (the
   * success body is one entry with an empty message, not an empty list).
   */
  lemma ResponseShape(req: PostRequest, cfg: Config, fault: AttachFault)
    ensures var o := Validate(req, cfg, fault);
      |o.resp.errors| == 1 &&
      (o.status == StatusAccepted || o.status == StatusBadRequest || o.status == StatusInternalServerError) &&
      (o.status == StatusAccepted <==> o.resp.errors[0].field == Null) &&
      (o.status == StatusAccepted ==> o.resp == AcceptedResponse())
  {
    ValidatePrecedence(req, cfg, fault);
    RunStatus(req, cfg, fault);
  }

  /** A block is rejected for its subject exactly when it and the request both lack one. */
  lemma SubjectRequired(req: PostRequest, p: Personalization, fault: AttachFault)
    ensures BuildMessage(req, p, fault) == Rejected(StatusBadRequest, SubjectError()) <==>
            p.subject == "" && req.subject == ""
  {
    if p.subject != "" || req.subject != "" {
      var r := AttachAll(req.attachments, fault);
      if r.AttachFailed? {
        AttachAllFirstFailure(req.attachments, fault);
        var i :| FirstFailure(req.attachments, i, fault) && r == AttachError(req.attachments[i], i, fault);
        assert r.resp.errors[0].field == Str(AttachmentField(i));
        assert |AttachmentField(i)| > |"subject"|;
      }
    }
  }

  /**
   * Attachments belong to the request, not to a block: once the first block has
   * built, every later rejection is the subject error.
   */
  lemma LaterRejectionIsSubject(req: PostRequest, fault: AttachFault, j: nat)
    requires j < |req.personalizations|
    requires BuildMessage(req, req.personalizations[0], fault).Built?
    requires BuildMessage(req, req.personalizations[j], fault).Rejected?
    ensures BuildMessage(req, req.personalizations[j], fault) == Rejected(StatusBadRequest, SubjectError())
    ensures req.personalizations[j].subject == "" && req.subject == ""
  {
    SubjectRequired(req, req.personalizations[j], fault);
  }

  /** The substituted text of the subject a block chooses: its own, else the request's. */
  lemma SubjectPrecedence(req: PostRequest, p: Personalization, fault: AttachFault)
    requires BuildMessage(req, p, fault).Built?
    ensures var m := BuildMessage(req, p, fault).msg;
      var pairs := Replacer.Replacements(p.substitutions);
      m.subject == Replacer.Replace(pairs, if p.subject != "" then p.subject else req.subject) &&
      m.subject == Replacer.Replace(p.substitutions, if p.subject != "" then p.subject else req.subject)
  {
    Replacer.ReplacePaddingInvisible(p.substitutions, if p.subject != "" then p.subject else req.subject);
  }

  /**
   * What a built message holds: the rendered sender; the recipients rendered
   * one by one in input order; every attachment decoded, in order; and the
   * bodies: none when a template is requested, otherwise for each kind the
   * substituted value of the last block of that kind, if there is one.
   */
  lemma BuiltMessage(req: PostRequest, p: Personalization, fault: AttachFault)
    requires BuildMessage(req, p, fault).Built?
    ensures var m := BuildMessage(req, p, fault).msg;
      m.from == EmailWithName(req.from) &&
      |m.to| == |p.to| && |m.cc| == |p.cc| && |m.bcc| == |p.bcc| &&
      (forall i :: 0 <= i < |p.to| ==> m.to[i] == EmailWithName(p.to[i])) &&
      (forall i :: 0 <= i < |p.cc| ==> m.cc[i] == EmailWithName(p.cc[i])) &&
      (forall i :: 0 <= i < |p.bcc| ==> m.bcc[i] == EmailWithName(p.bcc[i])) &&
      |m.attachments| == |req.attachments| &&
      (forall i :: 0 <= i < |req.attachments| ==> AttachOk(req.attachments[i], fault) && m.attachments[i] == PartOf(req.attachments[i]))
    ensures var m := BuildMessage(req, p, fault).msg;
      TemplateRequested(req, p) ==> m.html == None && m.text == None
    ensures var m := BuildMessage(req, p, fault).msg;
      !TemplateRequested(req, p) ==>
        m.html == SubstitutedLast(req.content, p.substitutions, true) &&
        m.text == SubstitutedLast(req.content, p.substitutions, false)
  {
    var pairs := Replacer.Replacements(p.substitutions);
    RouteContentLastWins(req.content, pairs, true);
    RouteContentLastWins(req.content, pairs, false);
    forall i | 0 <= i < |req.content|
      ensures Replacer.Replace(pairs, req.content[i].value) == Replacer.Replace(p.substitutions, req.content[i].value)
    {
      Replacer.ReplacePaddingInvisible(p.substitutions, req.content[i].value);
    }
  }

  /** The last block of one kind, substituted with the block's pairs alone (no padding). */
  function SubstitutedLast(content: seq<Content>, subs: seq<Replacer.Pair>, html: bool): Option<string> {
    match LastIndexOfKind(content, html)
    case None => None
    case Some(i) => Some(Replacer.Replace(subs, content[i].value))
  }

  /** With no substitutions the subject and the bodies come out exactly as given. */
  lemma NoSubstitutionsIdentity(req: PostRequest, p: Personalization, fault: AttachFault)
    requires p.substitutions == [] && BuildMessage(req, p, fault).Built?
    ensures var m := BuildMessage(req, p, fault).msg;
      m.subject == (if p.subject != "" then p.subject else req.subject)
    ensures var m := BuildMessage(req, p, fault).msg;
      !TemplateRequested(req, p) ==>
        m.html == (match LastIndexOfKind(req.content, true) case None => None case Some(i) => Some(req.content[i].value)) &&
        m.text == (match LastIndexOfKind(req.content, false) case None => None case Some(i) => Some(req.content[i].value))
  {
    var pairs := Replacer.Replacements([]);
    Replacer.ReplaceEmptyIdentity(if p.subject != "" then p.subject else req.subject);
    RouteContentLastWins(req.content, pairs, true);
    RouteContentLastWins(req.content, pairs, false);
    forall i | 0 <= i < |req.content|
      ensures Replacer.Replace(pairs, req.content[i].value) == req.content[i].value
    {
      Replacer.ReplaceEmptyIdentity(req.content[i].value);
    }
  }

  /** Distinct attachment positions are reported under distinct fields. */
  lemma AttachmentFieldsDistinct(i: nat, j: nat)
    requires i != j
    ensures AttachmentField(i) != AttachmentField(j)
  {
    var fi, fj := AttachmentField(i), AttachmentField(j);
    if fi == fj {
      var a, b := Decimal.Itoa(i), Decimal.Itoa(j);
      AttachmentFieldDigits(i);
      AttachmentFieldDigits(j);
      assert |a| == |b|;
      assert a == fi[12..12 + |a|] == fj[12..12 + |b|] == b;
      Decimal.ItoaInjective(i, j);
    }
  }

  /** Helper for AttachmentFieldsDistinct: where the digits sit in the field name. */
  lemma AttachmentFieldDigits(i: nat)
    ensures var f := AttachmentField(i);
      |f| == |Decimal.Itoa(i)| + 20 && f[12..12 + |Decimal.Itoa(i)|] == Decimal.Itoa(i)
  {
  }
}
