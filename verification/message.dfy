/** The outbound e-mail message: sender, recipients, subject, bodies, tag, custom
    headers and attachments, with the update operations the Java class offers. The
    mutable Java object becomes an immutable value; every operation returns the
    updated message. */
module Message {

  import opened Wrappers
  import opened Recipients

  /** A custom header, kept as the (name, value) pair it is sent as. */
  datatype Header = Header(name: string, value: string)

  /** An attachment descriptor: the string-to-string map the message stores, normally
      holding the keys `Name`, `Content` and `ContentType`. */
  type Attachment = map<string, string>

  /** The nine text fields of the message. */
  datatype Field = From | To | Cc | Bcc | ReplyTo | Subject | HtmlBody | TextBody | Tag

  /** `None` is a field that was never set (a Java `null`). `headers` starts absent;
      `attachments` starts empty but can be made absent by assigning `null`. */
  datatype Message = Message(
    from: Option<string>,
    to: Option<string>,
    cc: Option<string>,
    bcc: Option<string>,
    replyTo: Option<string>,
    subject: Option<string>,
    htmlBody: Option<string>,
    textBody: Option<string>,
    tag: Option<string>,
    headers: Option<seq<Header>>,
    attachments: Option<seq<Attachment>>)

  /** The value of text field `f`. */
  function Get(m: Message, f: Field): Option<string>
  {
    match f
    case From => m.from
    case To => m.to
    case Cc => m.cc
    case Bcc => m.bcc
    case ReplyTo => m.replyTo
    case Subject => m.subject
    case HtmlBody => m.htmlBody
    case TextBody => m.textBody
    case Tag => m.tag
  }

  /** `r` agrees with `m` on every text field. */
  predicate TextUnchanged(m: Message, r: Message)
  {
    forall g :: Get(r, g) == Get(m, g)
  }

  /** `r` differs from `m` at most in text field `f`. */
  predicate OnlyChanged(m: Message, r: Message, f: Field)
  {
    && (forall g :: g != f ==> Get(r, g) == Get(m, g))
    && r.headers == m.headers
    && r.attachments == m.attachments
  }

  /** The headers added so far; an absent list counts as none. */
  function HeadersOf(m: Message): seq<Header>
  {
    m.headers.GetOr([])
  }

  /** The attachments added so far; an absent list counts as none. */
  function AttachmentsOf(m: Message): seq<Attachment>
  {
    m.attachments.GetOr([])
  }

  // ---------------------------------------------------------------------------
  // Construction

  /** The no-argument constructor: nothing set, no headers, an empty attachment list. */
  function Create(): (m: Message)
    ensures forall f :: Get(m, f) == None
    ensures m.headers == None
    ensures m.attachments == Some([])
  {
    Message(None, None, None, None, None, None, None, None, None, None, Some([]))
  }

  /** The constructor taking sender, recipient, subject and HTML body. */
  function CreateHtml(from: string, to: string, subject: string, htmlBody: string): (m: Message)
    ensures Get(m, From) == Some(from) && Get(m, To) == Some(to)
    ensures Get(m, Subject) == Some(subject) && Get(m, HtmlBody) == Some(htmlBody)
    ensures forall f :: f !in {From, To, Subject, HtmlBody} ==> Get(m, f) == None
    ensures m.headers == None
    ensures m.attachments == Some([])
  {
    Message(Some(from), Some(to), None, None, None, Some(subject), Some(htmlBody), None, None, None, Some([]))
  }

  /** The constructor that also takes a plain-text body. */
  function CreateHtmlAndText(from: string, to: string, subject: string, htmlBody: string, textBody: string): (m: Message)
    ensures Get(m, From) == Some(from) && Get(m, To) == Some(to)
    ensures Get(m, Subject) == Some(subject) && Get(m, HtmlBody) == Some(htmlBody)
    ensures Get(m, TextBody) == Some(textBody)
    ensures forall f :: f !in {From, To, Subject, HtmlBody, TextBody} ==> Get(m, f) == None
    ensures m.headers == None
    ensures m.attachments == Some([])
  {
    Message(Some(from), Some(to), None, None, None, Some(subject), Some(htmlBody), Some(textBody), None, None, Some([]))
  }

  // ---------------------------------------------------------------------------
  // Text fields

  /** The plain string setters: field `f` takes the given value verbatim. */
  function Set(m: Message, f: Field, value: string): (r: Message)
    ensures Get(r, f) == Some(value)
    ensures OnlyChanged(m, r, f)
  {
    match f
    case From => m.(from := Some(value))
    case To => m.(to := Some(value))
    case Cc => m.(cc := Some(value))
    case Bcc => m.(bcc := Some(value))
    case ReplyTo => m.(replyTo := Some(value))
    case Subject => m.(subject := Some(value))
    case HtmlBody => m.(htmlBody := Some(value))
    case TextBody => m.(textBody := Some(value))
    case Tag => m.(tag := Some(value))
  }

  /** `setTo` with a name-to-address map. */
  function SetToNamed(m: Message, recipients: seq<NamedAddress>): (r: Message)
    ensures Get(r, To) == Some(FormatNamed(recipients))
    ensures OnlyChanged(m, r, To)
  {
    Set(m, To, FormatNamed(recipients))
  }

  /** `setTo` with a list of addresses. */
  function SetToAddresses(m: Message, recipients: seq<string>): (r: Message)
    ensures Get(r, To) == Some(FormatAddresses(recipients))
    ensures OnlyChanged(m, r, To)
  {
    Set(m, To, FormatAddresses(recipients))
  }

  /** `setCc` with a name-to-address map. */
  function SetCcNamed(m: Message, recipients: seq<NamedAddress>): (r: Message)
    ensures Get(r, Cc) == Some(FormatNamed(recipients))
    ensures OnlyChanged(m, r, Cc)
  {
    Set(m, Cc, FormatNamed(recipients))
  }

  /** `setCc` with a list of addresses. */
  function SetCcAddresses(m: Message, recipients: seq<string>): (r: Message)
    ensures Get(r, Cc) == Some(FormatAddresses(recipients))
    ensures OnlyChanged(m, r, Cc)
  {
    Set(m, Cc, FormatAddresses(recipients))
  }

  /** `setBcc` with a name-to-address map. */
  function SetBccNamed(m: Message, recipients: seq<NamedAddress>): (r: Message)
    ensures Get(r, Bcc) == Some(FormatNamed(recipients))
    ensures OnlyChanged(m, r, Bcc)
  {
    Set(m, Bcc, FormatNamed(recipients))
  }

  /** `setBcc` with a list of addresses. */
  function SetBccAddresses(m: Message, recipients: seq<string>): (r: Message)
    ensures Get(r, Bcc) == Some(FormatAddresses(recipients))
    ensures OnlyChanged(m, r, Bcc)
  {
    Set(m, Bcc, FormatAddresses(recipients))
  }

  // ---------------------------------------------------------------------------
  // Headers

  /** Appends one header, creating the list first when it is absent. */
  function AddHeader(m: Message, name: string, value: string): (r: Message)
    ensures r.headers.Some?
    ensures |r.headers.value| == |HeadersOf(m)| + 1
    ensures r.headers.value[..|HeadersOf(m)|] == HeadersOf(m)
    ensures r.headers.value[|HeadersOf(m)|] == Header(name, value)
    ensures TextUnchanged(m, r) && r.attachments == m.attachments
  {
    var existing := if m.headers == None then [] else m.headers.value;
    m.(headers := Some(existing + [Header(name, value)]))
  }

  /** Empties a present header list; an absent one stays absent. */
  function ClearHeaders(m: Message): (r: Message)
    ensures m.headers == None ==> r.headers == None
    ensures m.headers != None ==> r.headers == Some([])
    ensures TextUnchanged(m, r) && r.attachments == m.attachments
  {
    if m.headers == None then m else m.(headers := Some([]))
  }

  // ---------------------------------------------------------------------------
  // Attachments

  /** Appends one descriptor, creating the list first when it is absent. */
  function AddAttachment(m: Message, attachment: Attachment): (r: Message)
    ensures r.attachments.Some?
    ensures |r.attachments.value| == |AttachmentsOf(m)| + 1
    ensures r.attachments.value[..|AttachmentsOf(m)|] == AttachmentsOf(m)
    ensures r.attachments.value[|AttachmentsOf(m)|] == attachment
    ensures TextUnchanged(m, r) && r.headers == m.headers
  {
    var existing := if m.attachments == None then [] else m.attachments.value;
    m.(attachments := Some(existing + [attachment]))
  }

  /** Adds each descriptor in turn. An empty list adds nothing, so it does not create
      an absent attachment list either. */
  function AddAttachments(m: Message, attachments: seq<Attachment>): (r: Message)
    ensures |attachments| == 0 ==> r == m
    ensures |attachments| > 0 ==> r.attachments == Some(AttachmentsOf(m) + attachments)
    ensures TextUnchanged(m, r) && r.headers == m.headers
    decreases |attachments|
  {
    if |attachments| == 0 then m
    else
      var next := AddAttachment(m, attachments[0]);
      assert next.attachments == Some(AttachmentsOf(next));
      assert AttachmentsOf(next) == AttachmentsOf(m) + [attachments[0]];
      assert AttachmentsOf(m) + attachments == AttachmentsOf(next) + attachments[1..] by {
        assert attachments == [attachments[0]] + attachments[1..];
      }
      assert |attachments| == 1 ==> AttachmentsOf(next) + attachments[1..] == AttachmentsOf(next);
      AddAttachments(next, attachments[1..])
  }

  /** The descriptor built for a file: its base name, its content as Base64 text and
      the detected MIME type, under the keys the wire format uses. */
  function FileAttachment(name: string, content: string, contentType: string): (a: Attachment)
    ensures a.Keys == {"Name", "Content", "ContentType"}
    ensures a["Name"] == name && a["Content"] == content && a["ContentType"] == contentType
  {
    map["Name" := name, "Content" := content, "ContentType" := contentType]
  }

  /** Attaching a file once its name, encoded content and content type are known. */
  function AddFileAttachment(m: Message, name: string, content: string, contentType: string): (r: Message)
    ensures r.attachments.Some?
    ensures r.attachments.value == AttachmentsOf(m) + [FileAttachment(name, content, contentType)]
    ensures TextUnchanged(m, r) && r.headers == m.headers
  {
    AddAttachment(m, FileAttachment(name, content, contentType))
  }
}
