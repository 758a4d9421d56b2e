/**
 * The request, response and message shapes of the mail-send handler
 * (model/v3/mail/send.go), the two small pure helpers it defines
 * (`GetErrorResponse`, `getEmailwithName`), and the outbound message object
 * that the handler fills in field by field.
 */
module Mail {
  import opened Wrappers
  import Base64

  const StatusAccepted: int := 202
  const StatusBadRequest: int := 400
  const StatusInternalServerError: int := 500

  /** `{email, name}`: a sender or recipient. */
  datatype Address = Address(email: string, name: string)

  /**
   * One personalization block. `substitutions` is the decoded JSON object listed
   * in the order Go's map iteration happens to visit it (an unspecified order);
   * of `dynamic_template_data` only its number of entries matters.
   */
  datatype Personalization = Personalization(
    to: seq<Address>,
    cc: seq<Address>,
    bcc: seq<Address>,
    substitutions: seq<(string, string)>,
    subject: string,
    dynamicTemplateDataLen: nat)

  /** A content block: a MIME type and its text. */
  datatype Content = Content(contentType: string, value: string)

  /** An attachment as sent: base64 text, MIME type and file name. */
  datatype AttachmentSpec = AttachmentSpec(content: string, contentType: string, filename: string)

  /**
   * Which of the fields tagged `validate:"required"` the validator finds present,
   * in declaration order: `personalizations`, `from.email`, `content`.
   */
  datatype Required = Required(personalizations: bool, fromEmail: bool, content: bool)

  /** The decoded request body (`PostRequest`). */
  datatype PostRequest = PostRequest(
    required: Required,
    personalizations: seq<Personalization>,
    from: Address,
    subject: string,
    content: seq<Content>,
    attachments: seq<AttachmentSpec>,
    templateId: string)

  /** A JSON `interface{}` as the handler uses it: a string or null. */
  datatype Json = Null | Str(s: string)

  datatype ErrorEntry = ErrorEntry(message: string, field: Json, help: Json)

  /** The response body: `{"errors": [...]}`. */
  datatype ErrorResponse = ErrorResponse(errors: seq<ErrorEntry>)

  /** `GetErrorResponse`: a body holding exactly the one given entry. */
  function GetErrorResponse(message: string, field: Json, help: Json): (r: ErrorResponse)
    ensures |r.errors| == 1
    ensures r.errors[0].message == message && r.errors[0].field == field && r.errors[0].help == help
  {
    ErrorResponse([ErrorEntry(message, field, help)])
  }

  const HelpBase: string := "http://sendgrid.com/docs/API_Reference/Web_API_v3/Mail/errors.html"

  const PersonalizationsMessage: string :=
    "The personalizations field is required and must have at least one personalization."
  const FromEmailMessage: string :=
    "The from object must be provided for every email send. It is an object that requires the email parameter, but may also contain a name parameter.  e.g. {\"email\" : \"example@example.com\"}  or {\"email\" : \"example@example.com\", \"name\" : \"Example Recipient\"}."
  const ContentMessage: string :=
    "Unless a valid template_id is provided, the content parameter is required. There must be at least one defined content block. We typically suggest both text/plain and text/html blocks are included, but only one block is required."
  const SubjectMessage: string :=
    "The subject is required. You can get around this requirement if you use a template with a subject defined or if every personalization has a subject defined."
  const AttachmentContentMessage: string := "The attachment content must be base64 encoded."

  function PersonalizationsError(): ErrorResponse {
    GetErrorResponse(PersonalizationsMessage, Str("personalizations"), Str(HelpBase + "#-Personalizations-Errors"))
  }

  function FromEmailError(): ErrorResponse {
    GetErrorResponse(FromEmailMessage, Str("from.email"), Str(HelpBase + "#message.from"))
  }

  function ContentError(): ErrorResponse {
    GetErrorResponse(ContentMessage, Str("content"), Str(HelpBase + "#message.content"))
  }

  function SubjectError(): ErrorResponse {
    GetErrorResponse(SubjectMessage, Str("subject"), Str(HelpBase + "#message.subject"))
  }

  /** The body of a 202: one entry with an empty message and null field and help. */
  function AcceptedResponse(): ErrorResponse {
    GetErrorResponse("", Null, Null)
  }

  /** `getEmailwithName`: `name <email>`, keeping the space when the name is empty. */
  function EmailWithName(a: Address): string {
    a.name + " <" + a.email + ">"
  }

  /** The rendering is the name, then " <", then the email, then '>'. */
  lemma EmailWithNameParts(a: Address)
    ensures var r := EmailWithName(a);
      |r| == |a.name| + |a.email| + 3 &&
      r[..|a.name|] == a.name && r[|a.name|..|a.name| + 2] == " <" &&
      r[|a.name| + 2..|r| - 1] == a.email && r[|r| - 1] == '>'
  {
  }

  /** The position of the first `c` in `s`, if any. */
  function IndexOf(s: string, c: char): (r: Option<nat>)
    ensures r.Some? ==> r.value < |s| && s[r.value] == c && c !in s[..r.value]
    ensures r.None? ==> c !in s
  {
    if s == [] then None
    else if s[0] == c then Some(0)
    else match IndexOf(s[1..], c)
      case None => None
      case Some(i) =>
        assert s[..i + 1] == [s[0]] + s[1..][..i];
        Some(i + 1)
  }

  /** Reads a rendered `name <email>` back: the name ends before " <", the email before the final '>'. */
  function SplitAddress(r: string): Option<Address> {
    match IndexOf(r, '<')
    case None => None
    case Some(i) =>
      if 1 <= i && r[i - 1] == ' ' && i + 2 <= |r| && r[|r| - 1] == '>' then
        Some(Address(r[i + 1..|r| - 1], r[..i - 1]))
      else None
  }

  /**
   * Rendering loses nothing when the name has no '<': the address can be read
   * back, so two such addresses render alike only if they are equal.
   */
  lemma EmailWithNameSplits(a: Address)
    requires '<' !in a.name
    ensures SplitAddress(EmailWithName(a)) == Some(a)
  {
    var r := EmailWithName(a);
    EmailWithNameParts(a);
    var k := |a.name| + 1;
    assert r[k] == r[|a.name|..|a.name| + 2][1] == '<';
    assert r[..k] == a.name + " ";
    assert IndexOf(r, '<') == Some(k);
  }

  /**
   * The process environment the handler reads (SENDGRID_DEV_TEST,
   * SENDGRID_DEV_SMTP_USERNAME, SENDGRID_DEV_SMTP_PASSWORD and
   * SENDGRID_DEV_SMTP_SERVER), fixed for the whole call.
   */
  datatype Config = Config(test: string, username: string, password: string, server: string)

  /** `strings.Split(server, ":")[0]`: the text before the first ':'. */
  function HostOf(server: string): (host: string)
    ensures |host| <= |server| && server[..|host|] == host
    ensures ':' !in host
    ensures |host| < |server| ==> server[|host|] == ':'
  {
    if server == [] || server[0] == ':' then []
    else [server[0]] + HostOf(server[1..])
  }

  /** A decoded attachment in the outbound message. */
  datatype Attachment = Attachment(filename: string, contentType: string, data: seq<Base64.byte>)

  /** The value of an outbound message at one moment (what one send transmits). */
  datatype Message = Message(
    from: string,
    to: seq<string>,
    cc: seq<string>,
    bcc: seq<string>,
    subject: string,
    html: Option<string>,
    text: Option<string>,
    attachments: seq<Attachment>)

  /** `smtp.PlainAuth(identity, username, password, host)`. */
  datatype PlainAuth = PlainAuth(identity: string, username: string, password: string, host: string)

  /** One `e.Send(server, auth)` call: where, with which credentials, and what. */
  datatype Send = Send(server: string, auth: Option<PlainAuth>, message: Message)

  /**
   * The outcome the mail library gives for buffering and attaching decoded
   * bytes under a file name and type: None for success, Some(text) for an
   * error whose `Error()` is text. The library is not part of this model.
   */
  type AttachFault = (seq<Base64.byte>, string, string) -> Option<string>

  /** The mail library's message object, whose fields the handler assigns one by one. */
  class Email {
    var from: string
    var to: seq<string>
    var cc: seq<string>
    var bcc: seq<string>
    var subject: string
    var html: Option<string>
    var text: Option<string>
    var attachments: seq<Attachment>

    /** `email.NewEmail()`: everything empty. */
    constructor ()
      ensures Snapshot() == Message("", [], [], [], "", None, None, [])
    {
      from, to, cc, bcc, subject := "", [], [], [], "";
      html, text, attachments := None, None, [];
    }

    /** The current value of the message. */
    function Snapshot(): Message
      reads this
    {
      Message(from, to, cc, bcc, subject, html, text, attachments)
    }

    /** `e.Attach(buf, filename, type)` once it has succeeded: one more part at the end. */
    method Attach(data: seq<Base64.byte>, filename: string, contentType: string)
      modifies this
      ensures Snapshot() == old(Snapshot()).(attachments := old(attachments) + [Attachment(filename, contentType, data)])
    {
      attachments := attachments + [Attachment(filename, contentType, data)];
    }
  }
}
