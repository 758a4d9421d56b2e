# Mail send handler of the SendGrid development server, in Dafny

This project models the request pipeline of the local SendGrid v3 mail-send
emulator (`model/v3/mail/send.go`). The pipeline starts from a decoded request
(`PostRequest`) and answers with an HTTP status and an `ErrorResponse` body. On
the way it builds one outbound e-mail per personalization block and hands it to
SMTP.

- `Validate` walks the validator's errors for the three fields tagged
  `required`. Those fields are `personalizations`, `from.email` and `content`,
  checked in declaration order. The first error it recognises gives a 400.
  Otherwise the result is that of `sendMailWithSMTP`.
- `sendMailWithSMTP` handles the personalization blocks in order. For each
  block it:
  - fills a fresh message: the sender, and the to/cc/bcc lists rendered by
    `getEmailwithName`;
  - builds a literal `strings.NewReplacer` from the block's substitutions;
  - picks the block's subject, else the request's subject, else fails with 400;
  - routes each content block to the HTML body (type exactly `text/html`) or the
    text body, unless a template with dynamic data is requested;
  - decodes and attaches every attachment. Bad base64 gives 400, and a failing
    buffer write or attach gives 500, both naming `attachments.<i>.content`;
  - sends the message: nothing in test mode (`SENDGRID_DEV_TEST=1`), otherwise
    an authenticated send when a username is set, then always an anonymous one.

  The first error returns at once. Sends already made stay made. When no block
  fails, the answer is 202 with a one-entry body whose message is empty and
  whose field and help are null.

Modules, one file each:

- `Wrappers` (`wrappers.dfy`): `Option`.
- `Base64` (`base64.dfy`): `base64.StdEncoding.DecodeString` as Go implements
  it, plus the matching encoder. Go skips `\r` and `\n`. It requires padding,
  and padding may only appear as `xx==` or `xxx=` in the final quantum. It does
  not check the unused low bits of a padded quantum.
- `Decimal` (`decimal.dfy`): `strconv.Itoa` for the attachment counter.
- `Replacer` (`replacer.dfy`): Go's generic `strings.NewReplacer`.
  - It scans left to right. At each position the earliest listed pair whose key
    matches wins, and replaced text is never rescanned.
  - The handler's argument list starts with n pairs `("", "")`, because
    `make([]string, n*2)` is followed by `append`. The pairs given first win,
    so the empty key can only ever insert `""`. The model therefore lets empty
    keys never match, and `ReplacePaddingInvisible` proves that the padding
    changes nothing.
- `Mail` (`mail.dfy`):
  - the request, response and message shapes;
  - `GetErrorResponse` and `getEmailwithName`;
  - the server host taken from `SENDGRID_DEV_SMTP_SERVER`;
  - the mail library's message object, as a class whose fields are assigned
    in place.
- `MailSpec` (`mail_spec.dfy`): what the handler computes, as functions:
  - the message or rejection of one block (`BuildMessage`);
  - the sends of one message (`Dispatch`);
  - the loop over blocks (`Run`, `SendMail`);
  - the handler as a whole (`Validate`).
- `MailSend` (`mail_send.dfy`): the handler's imperative code. Its loops are
  proved against `MailSpec`:
  - the recipient loops, the replacer's argument list, the content loop and the
    attachment loop with its counter `i`;
  - the loop over personalizations, which collects the sends in a log;
  - `Validate`'s error loop.
- `MailProperties` (`mail_properties.dfy`): properties that relate blocks,
  sends and responses.

The environment variables become a `Config` value that is fixed for the whole
call. Each `e.Send(server, auth)` becomes an entry in a log of sends, recording
the server, the optional `PlainAuth` and the message as it stood. The failures
of the buffer write and of the library's `Attach` become a parameter, `fault`.
It maps the decoded bytes, the file name and the type to `None` (success) or to
the error's text.

Three consequences of the code are worth stating, because they are easy to
expect otherwise:

- Go's `StdEncoding` decoder is not strict. It ignores the unused low bits of a
  padded quantum and drops line breaks, so decoding loses information and
  encoding the result need not give back the input: `"QR=="` and `"QQ==\n"`
  both decode to the byte that encodes as `"QQ=="` (`Base64.ReencodeNotIdentity`).
  The other direction holds: decoding an encoding gives back the bytes
  (`Base64.DecodeEncode`).
- The attachments belong to the request, not to a block, so every block decodes
  the same list with the same outcome. Once the first block has built, a later
  block can only be rejected for a missing subject
  (`MailProperties.LaterRejectionIsSubject`). A call in which the first block
  succeeds and a later one fails on an attachment cannot happen.
- The validator's `required` tag only rejects a missing (nil) list. A present
  but empty `personalizations` list passes validation. The loop then runs no
  block, and the call answers 202 without sending anything
  (`MailProperties.EmptyPersonalizationsAccepted`).

## Model

| member | source | states |
|---|---|---|
| Mail.GetErrorResponse | model/v3/mail/send.go:107-121 | the body holds exactly one entry, carrying the given message, field and help |
| Mail.EmailWithNameParts | model/v3/mail/send.go:226-231 | the rendered address is the name, then " <", then the email, then ">" (the space is kept for an empty name), of length name + email + 3 |
| Mail.EmailWithNameSplits | model/v3/mail/send.go:226-231 | when the name has no '<', the address can be read back from its rendering, so rendering loses nothing |
| Mail.HostOf | model/v3/mail/send.go:208 | `strings.Split(server, ":")[0]`: the longest prefix of the server without ':', ending where the first ':' stands |
| Mail.Email.constructor | model/v3/mail/send.go:126 | a new message has every field empty |
| Mail.Email.Attach | model/v3/mail/send.go:192 | a successful attach appends one part (file name, type, bytes) and changes nothing else |
| MailSpec.FormatAll | model/v3/mail/send.go:130-140 | a recipient list keeps the input's length and order, with each entry rendered by `getEmailwithName` |
| MailSpec.RouteContentLastWins | model/v3/mail/send.go:160-170 | each body is set exactly when some content block of its kind exists (HTML means type exactly "text/html"), and then holds the substituted value of the last such block |
| MailSpec.AttachError | model/v3/mail/send.go:174-199 | a failing attachment gives one entry naming `attachments.<i>.content` and the attachments help page; the status is 400 with the base64 message exactly when decoding fails, and otherwise 500 with the library's error text as the message |
| MailSpec.AttachAll | model/v3/mail/send.go:172-201 | the attachment loop succeeds exactly when every attachment decodes and attaches; the parts are then every decoded attachment, in order |
| MailSpec.AttachAllFirstFailure | model/v3/mail/send.go:172-201 | a failed attachment loop reports the first attachment that fails, under its zero-based position |
| MailSpec.AttachAllStopped | model/v3/mail/send.go:175-199 | once an attachment has failed, the later attachments do not affect the result |
| MailSpec.Dispatch | model/v3/mail/send.go:203-220 | in test mode "1" no send; otherwise one send per configured username (authenticated, identity "", host without port) followed by an anonymous one, all to the server and all carrying the message |
| MailSpec.RunStaysStopped | model/v3/mail/send.go:153-199 | once a block has stopped the call, later blocks change neither the response nor the sends |
| MailSpec.RequiredError | model/v3/mail/send.go:75-99 | a response is produced exactly for a `required` error on Personalizations, Email or Content |
| MailSpec.ValidatePrecedence | model/v3/mail/send.go:71-105 | missing personalizations gives the 400 for "personalizations"; else missing from.email gives "from.email"; else missing content gives "content"; with all present the result is exactly that of the send, and no send happens on a 400 |
| MailSend.RenderAll | model/v3/mail/send.go:130-140 | the to/cc/bcc loops produce the rendered list of the recipients |
| MailSend.Address | model/v3/mail/send.go:126-140 | a fresh message holding the rendered sender and recipient lists, with subject, bodies and attachments empty |
| MailSend.BuildReplacements | model/v3/mail/send.go:142-145 | the replacer's argument list is n pairs ("", "") followed by the n substitutions in iteration order |
| MailSend.SetBodies | model/v3/mail/send.go:163-169 | the content loop leaves the bodies that `RouteContent` gives and changes no other field |
| MailSend.AttachEach | model/v3/mail/send.go:172-201 | the attachment loop with its counter succeeds exactly when `AttachAll` does, then holds its parts; otherwise it returns `AttachAll`'s error |
| MailSend.BuildBlock | model/v3/mail/send.go:126-201 | one block's processing up to the sends yields `BuildMessage`: the message, or the error that stops the call |
| MailSend.SendMailWithSmtp | model/v3/mail/send.go:124-223 | the loop over personalizations, appending each built block's `Dispatch` sends to the log, returns the status, body and sends of `SendMail` |
| MailSend.Validate | model/v3/mail/send.go:71-105 | the error loop and switch followed by the send give exactly `MailSpec.Validate`'s outcome |
| MailProperties.SendsOfCount | model/v3/mail/send.go:203-220 | sending k messages makes no sends in test mode, and otherwise 2k sends with a username and k without |
| MailProperties.AbortKeepsEarlierSends | model/v3/mail/send.go:124-223 | when block k is rejected after blocks 0..k-1 built, the call answers with block k's error and keeps exactly the sends of those earlier blocks |
| MailProperties.EmptyPersonalizationsAccepted | model/v3/mail/send.go:124-223 | with every required field present and an empty personalizations list, the call answers 202 with the accepted body and sends nothing |
| MailProperties.AllBuiltAccepted | model/v3/mail/send.go:124-223 | when every block builds, the call answers 202 with the accepted body, having sent every block's message in order |
| MailProperties.RunSends | model/v3/mail/send.go:124-221 | whatever the outcome, the sends made are those of a prefix of blocks that all built, and that prefix is every block when the call is accepted |
| MailProperties.DryRunSendsNothing | model/v3/mail/send.go:203-205 | in test mode "1" no send is ever made, whatever the outcome |
| MailProperties.AcceptedSendCount | model/v3/mail/send.go:203-221 | outside test mode an accepted call made two sends per block with a username and one per block without |
| MailProperties.RejectionShape | model/v3/mail/send.go:148-201 | every block rejection is a 400 or a 500 with one entry that names a field |
| MailProperties.RunStatus | model/v3/mail/send.go:124-223 | the call answers 202 exactly when no block stopped it; otherwise with a well-formed block rejection |
| MailProperties.ResponseShape | model/v3/mail/send.go:71-223 | every response holds exactly one error entry; the status is 202, 400 or 500; it is 202 exactly when the entry's field is null, and the 202 body is the entry with empty message and null field and help |
| MailProperties.SubjectRequired | model/v3/mail/send.go:148-159 | a block is rejected with the 400 for "subject" exactly when both its own subject and the request's are empty |
| MailProperties.LaterRejectionIsSubject | model/v3/mail/send.go:148-201 | once the first block has built, any later rejected block is rejected for its subject, and both subjects are empty |
| MailProperties.SubjectPrecedence | model/v3/mail/send.go:148-151 | the subject is the block's own if non-empty, else the request's, with the block's substitutions applied (with or without the padding pairs) |
| MailProperties.BuiltMessage | model/v3/mail/send.go:126-201 | a built message has the rendered sender, recipients in input order and length, every attachment decoded in order, no bodies when a template with data is requested, and otherwise the substituted last block of each kind |
| MailProperties.NoSubstitutionsIdentity | model/v3/mail/send.go:142-169 | with no substitutions the subject and bodies come out exactly as given |
| MailProperties.AttachmentFieldsDistinct | model/v3/mail/send.go:179 | distinct attachment positions are reported under distinct field paths |
| Base64.Decode | model/v3/mail/send.go:174 | a successful decode read whole 4-character quanta after line breaks are dropped, and yields at most 3 bytes per 4 characters |
| Base64.DecodeEncode | model/v3/mail/send.go:174 | decoding the standard encoding of any bytes gives the bytes back |
| Base64.DecodeRejectsForeign | model/v3/mail/send.go:174 | a character outside the alphabet, '=', '\r' and '\n' anywhere makes decoding fail |
| Base64.DecodeRejectsMisplacedPad | model/v3/mail/send.go:174 | a '=' followed by a further quantum, among the first two characters of its quantum, or third in a quantum that does not end in '=' makes decoding fail |
| Base64.MisplacedPadExamples | model/v3/mail/send.go:174 | "Q===", "QQ=A" and "QQ==QQ==" are rejected |
| Base64.ReencodeNotIdentity | model/v3/mail/send.go:174 | decoding is not injective: "QR==" and "QQ==\n" decode to the byte that encodes as "QQ==" |
| Decimal.Itoa | model/v3/mail/send.go:179 | the counter is rendered as non-empty decimal digits, without a leading zero unless it is 0 |
| Decimal.ItoaValue | model/v3/mail/send.go:179 | the digits denote the counter |
| Decimal.ItoaInjective | model/v3/mail/send.go:179 | distinct counters have distinct renderings |
| Replacer.Padding | model/v3/mail/send.go:142 | `make([]string, n*2)` is n pairs ("", "") |
| Replacer.FirstMatchEarliest | model/v3/mail/send.go:146 | at each position the winning pair is the earliest listed pair whose key matches there, and there is a winner exactly when some key matches |
| Replacer.ReplacePaddingInvisible | model/v3/mail/send.go:142-146 | the leading ("", "") pairs never change the replacer's output |
| Replacer.ReplaceEmptyIdentity | model/v3/mail/send.go:142-151 | with an empty substitutions map the replacer returns its input |
| Replacer.ReplaceUntouched | model/v3/mail/send.go:149 | text in which no key occurs comes out unchanged |
| Replacer.ReplaceIdempotent | model/v3/mail/send.go:149 | when no key is left in the output, replacing again changes nothing |
| Replacer.ReplaceOrderIrrelevant | model/v3/mail/send.go:143-146 | when no key is a prefix of another, every iteration order of the substitutions gives the same output |
| Replacer.ReplaceExample | model/v3/mail/send.go:142-149 | "hi {{name}}" with {{name}} -> Bob, behind its padding pair, becomes "hi Bob" |

## Left out

- `SetPostRequest` (model/v3/mail/send.go:67-69): JSON decoding is not modelled. The model starts from the decoded request.
- The go-playground validator (model/v3/mail/send.go:72-74) is not part of this model. A `required` field is a presence flag, and the validator's errors are listed in field declaration order. The flag does not mean "non-empty": for slices the validator checks for nil.
- The mail library, `smtp.PlainAuth` and the network are not part of this model. A send is a log entry, and the errors `e.Send` returns are ignored, as in the code. The buffer write and `e.Attach` failures (model/v3/mail/send.go:183-199) come from the `fault` parameter. It is a function of the decoded bytes, the file name and the type alone, so an attachment fails or succeeds alike in every block. That matches the library: writing to a `bytes.Buffer`, and copying from one, do not fail.
- `os.Getenv` is read once into `Config`. A change to the environment during a call is not modelled.
- `main.go` and `route/route.go`: process start, health checks and HTTP routing are framework plumbing with no logic of their own.
- `ReplyTo`, `Disposition` and `ContentId` are never read by the handler and are not in the model. Of `DynamicTemplateData` only the number of entries is kept, since the code only tests whether it is empty.
- Strings are sequences of characters. The code converts bodies to bytes with `[]byte(...)`, which the model does not do, so multi-byte UTF-8 encoding is not modelled.
- The substitutions map is a sequence in Go's iteration order, which Go leaves unspecified. `Replacer.ReplaceOrderIrrelevant` shows the order does not matter when no key is a prefix of another. With overlapping keys the output depends on that order.
- Go's replacer has special algorithms for single-byte keys and for a single key, and those are not modelled. Once a substitution is given, the padding pairs make the handler's argument list take the generic path, which is modelled. With no substitutions Go builds an empty byte replacer, which returns its input, as `Replace` does with no pairs.
- Base64.Decode: its contract states only the shape of a successful decode. Which bytes a decode yields is stated by `Base64.DecodeEncode`, and which inputs it rejects by `Base64.DecodeRejectsForeign` (characters outside the alphabet), `Base64.DecodeRejectsMisplacedPad` (misplaced '=') and its own contract (a partial final quantum).
