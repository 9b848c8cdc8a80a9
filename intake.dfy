/**
 * The two submission handlers: the quote form, which only validates, and
 * the contact form, which validates, logs one row, mails a notification and
 * reports the outcome. Per submission:
 * received -> rejected | stored -> notified | notify_failed.
 */
module Intake {
  import opened Wrappers
  import opened Text
  import Template
  import opened Notifier
  import opened LeadStore

  /** A submitted form: field name to submitted value. */
  type Form = map<string, string>

  /** Reading a field with default '' and stripping it: the value has no
      whitespace at either end, and a missing field reads as ''. */
  function Field(form: Form, key: string): (r: string)
    ensures Stripped(r)
    ensures key !in form ==> r == ""
    ensures key in form ==> |r| <= |form[key]|
  {
    Strip(if key in form then form[key] else "")
  }

  /** The form holds a value for `key` that is not all whitespace. */
  predicate HasText(form: Form, key: string) {
    key in form && !AllSpace(form[key])
  }

  /** A field reads as empty exactly when it is missing or all whitespace. */
  lemma FieldEmptyIff(form: Form, key: string)
    ensures Field(form, key) == "" <==> !HasText(form, key)
  {
    if key in form { StripEmptyIff(form[key]); }
  }

  // ---------------------------------------------------------------- outcomes

  /** What the handler shows the submitter; the kind is the terminal state
      of the submission and decides the flash category. `Aborted` is an
      exception that escapes the handler: nothing is flashed and the request
      fails. */
  datatype Outcome =
    | Rejected(message: string)
    | Received(message: string)
    | SavedNotSent(message: string)
    | Aborted(error: string)
  {
    /** The flash category: 'danger' for a rejection, 'success' for thanks,
        'warning' for a row kept without a mail, and none when aborted. */
    function Category(): (r: Option<string>)
      ensures r == None <==> Aborted?
      ensures Rejected? ==> r == Some("danger")
      ensures Received? ==> r == Some("success")
      ensures SavedNotSent? ==> r == Some("warning")
    {
      match this
      case Rejected(_) => Some("danger")
      case Received(_) => Some("success")
      case SavedNotSent(_) => Some("warning")
      case Aborted(_) => None
    }
  }

  const MissingQuoteFields := "Please provide Name and Email."
  const QuoteThanks := "Thank you! Your quote request has been received."
  const MissingContactFields := "Please provide Name, Email, and Phone."
  const EnquiryThanks := "Thank you! Your enquiry has been received."
  const SendFailedPrefix := "Message saved, but failed to send email. Check SMTP settings. Error: "

  // ------------------------------------------------------------- quote path

  datatype QuoteForm = QuoteForm(name: string, email: string, message: string)

  /** The three quote fields, each read and stripped. */
  function ReadQuote(form: Form): (q: QuoteForm)
    ensures Stripped(q.name) && Stripped(q.email) && Stripped(q.message)
    ensures q.name == Field(form, "name") && q.email == Field(form, "email")
    ensures q.message == Field(form, "message")
    ensures q.name == "" <==> !HasText(form, "name")
    ensures q.email == "" <==> !HasText(form, "email")
  {
    FieldEmptyIff(form, "name");
    FieldEmptyIff(form, "email");
    QuoteForm(Field(form, "name"), Field(form, "email"), Field(form, "message"))
  }

  /** The quote handler: it checks name and email and does nothing else; it
      has no access to the log or the notifier. */
  function Quote(form: Form): (o: Outcome)
    ensures o.Rejected? <==> (ReadQuote(form).name == "" || ReadQuote(form).email == "")
    ensures o.Rejected? ==> o == Rejected(MissingQuoteFields)
    ensures !o.Rejected? ==> o == Received(QuoteThanks)
    ensures o.Category().Some?
  {
    var q := ReadQuote(form);
    if !(q.name != "" && q.email != "") then Rejected(MissingQuoteFields)
    else Received(QuoteThanks)
  }

  /** A quote request is turned away exactly when the name or the email is
      missing or all whitespace. */
  lemma QuoteRejectedIff(form: Form)
    ensures Quote(form).Rejected? <==> !(HasText(form, "name") && HasText(form, "email"))
  {
    FieldEmptyIff(form, "name");
    FieldEmptyIff(form, "email");
  }

  /** The quote message is read but has no effect on the outcome. */
  lemma QuoteIgnoresMessage(form: Form, m: string)
    ensures Quote(form["message" := m]) == Quote(form)
  {
  }

  // ----------------------------------------------------------- contact path

  datatype ContactForm = ContactForm(
    name: string, email: string, phone: string, company: string,
    city: string, service: string, subject: string, message: string)

  /** The eight contact fields, each read and stripped, so none has
      whitespace at either end. */
  function ReadContact(form: Form): (c: ContactForm)
    ensures Stripped(c.name) && Stripped(c.email) && Stripped(c.phone)
    ensures Stripped(c.company) && Stripped(c.city) && Stripped(c.service)
    ensures Stripped(c.subject) && Stripped(c.message)
    ensures c.name == Field(form, "name") && c.email == Field(form, "email")
    ensures c.phone == Field(form, "phone") && c.company == Field(form, "company")
    ensures c.city == Field(form, "city") && c.service == Field(form, "service")
    ensures c.subject == Field(form, "subject") && c.message == Field(form, "message")
  {
    ContactForm(
      Field(form, "name"), Field(form, "email"), Field(form, "phone"),
      Field(form, "company"), Field(form, "city"), Field(form, "service"),
      Field(form, "subject"), Field(form, "message"))
  }

  /** `if not name or not email or not phone` fails. */
  predicate ContactComplete(c: ContactForm) {
    c.name != "" && c.email != "" && c.phone != ""
  }

  /** A contact submission is accepted exactly when name, email and phone
      each hold some non-whitespace text. */
  lemma ContactAcceptedIff(form: Form)
    ensures ContactComplete(ReadContact(form)) <==>
      HasText(form, "name") && HasText(form, "email") && HasText(form, "phone")
  {
    FieldEmptyIff(form, "name");
    FieldEmptyIff(form, "email");
    FieldEmptyIff(form, "phone");
  }

  /** The value of a named column for a submission, looked up by the
      header's name rather than by position. */
  function Column(c: ContactForm, timestamp: string, column: string): string {
    match column
    case "timestamp" => timestamp
    case "name" => c.name
    case "company" => c.company
    case "email" => c.email
    case "phone" => c.phone
    case "city" => c.city
    case "service" => c.service
    case "message" => c.message
    case _ => ""
  }

  /** The logged row: one field per header column, in the header's order. */
  function LeadRow(c: ContactForm, timestamp: string): (r: Row)
    ensures |r| == |Header|
    ensures forall k :: 0 <= k < |Header| ==> r[k] == Column(c, timestamp, Header[k])
  {
    [timestamp, c.name, c.company, c.email, c.phone, c.city, c.service, c.message]
  }

  /** The subject line is not logged. */
  lemma LeadRowOmitsSubject(c: ContactForm, timestamp: string, subject: string)
    ensures LeadRow(c.(subject := subject), timestamp) == LeadRow(c, timestamp)
  {
  }

  /** A form carrying only name, email and phone is logged with empty
      company, city, service and message, and mailed under the default
      subject. */
  lemma OnlyRequiredFields(form: Form, timestamp: string)
    requires form.Keys == {"name", "email", "phone"}
    ensures var c := ReadContact(form);
      && LeadRow(c, timestamp) == [timestamp, c.name, "", c.email, c.phone, "", "", ""]
      && SubjectLabel(c.subject) == DefaultSubject
  {
    var c := ReadContact(form);
    assert "company" !in form && "city" !in form && "service" !in form;
    assert "subject" !in form && "message" !in form;
    assert c.company == "" && c.city == "" && c.service == "";
    assert c.subject == "" && c.message == "";
  }

  const SubjectPrefix := "New enquiry from "
  const DefaultSubject := "General Contact"

  /** `subject or "General Contact"`. */
  function SubjectLabel(subject: string): (r: string)
    ensures r != ""
    ensures subject != "" ==> r == subject
    ensures subject == "" ==> r == DefaultSubject
  {
    if subject != "" then subject else DefaultSubject
  }

  /** The subject line names the sender after the fixed prefix and ends
      with the form's subject, or "General Contact" when it is empty. */
  function EnquirySubject(c: ContactForm): (r: string)
    ensures var n := |SubjectPrefix| + |c.name|;
      var topic := if c.subject == "" then DefaultSubject else c.subject;
      && |r| == n + 3 + |topic|
      && r[..|SubjectPrefix|] == SubjectPrefix
      && r[|SubjectPrefix|..n] == c.name
      && r[n..n + 3] == " - "
      && r[n + 3..] == topic
  {
    SubjectPrefix + c.name + " - " + SubjectLabel(c.subject)
  }

  /** The mail library accepts the subject line exactly when neither the
      name nor the form's subject contains a line boundary. A stripped
      subject cannot end in one, so a boundary anywhere in either value
      leaves more text after it. */
  lemma SubjectHeaderSafeIff(c: ContactForm)
    requires Stripped(c.subject)
    ensures HeaderSafe(EnquirySubject(c)) <==> NoLineBreak(c.name) && NoLineBreak(c.subject)
  {
    var topic := SubjectLabel(c.subject);
    assert EnquirySubject(c) == SubjectPrefix + c.name + " - " + topic;
    assert !IsSpace(topic[|topic| - 1]);
    LineBreakIsSpace(topic[|topic| - 1]);
    OneLineIffNoBreak(EnquirySubject(c));
    NoLineBreakConcat(SubjectPrefix + c.name + " - ", topic);
    NoLineBreakConcat(SubjectPrefix + c.name, " - ");
    NoLineBreakConcat(SubjectPrefix, c.name);
    FixedSubjectTextsOneLine();
  }

  /** The fixed parts of the subject line hold no line boundary. */
  lemma FixedSubjectTextsOneLine()
    ensures NoLineBreak(SubjectPrefix) && NoLineBreak(" - ") && NoLineBreak(DefaultSubject)
  {
    forall i | 0 <= i < |SubjectPrefix| ensures !IsLineBreak(SubjectPrefix[i]) {
      assert SubjectPrefix[i] in "New enquiry from ";
    }
  }

  /** `value if value else 'N/A'`: the value itself unless it is empty. */
  function OrNA(v: string): (r: string)
    ensures r != ""
    ensures v != "" ==> r == v
    ensures v == "" ==> r == "N/A"
  {
    if v != "" then v else "N/A"
  }

  /** The nine values shown in the notification body, in order: name,
      company, email, phone, city, service, subject, message, timestamp. */
  function Displayed(c: ContactForm, timestamp: string): (r: seq<string>)
    ensures |r| == 9
    ensures r[0] == c.name && r[2] == c.email && r[3] == c.phone
    ensures r[7] == c.message && r[8] == timestamp
    ensures c.company == "" ==> r[1] == "N/A"
    ensures c.company != "" ==> r[1] == c.company
    ensures c.city == "" ==> r[4] == "N/A"
    ensures c.city != "" ==> r[4] == c.city
    ensures c.service == "" ==> r[5] == "N/A"
    ensures c.service != "" ==> r[5] == c.service
    ensures c.subject == "" ==> r[6] == "N/A"
    ensures c.subject != "" ==> r[6] == c.subject
  {
    [c.name, OrNA(c.company), c.email, c.phone, OrNA(c.city),
     OrNA(c.service), OrNA(c.subject), c.message, timestamp]
  }

  /** The optional fields never show as blank lines. */
  lemma DisplayedOptionalNonEmpty(c: ContactForm, timestamp: string)
    ensures var r := Displayed(c, timestamp);
      r[1] != "" && r[4] != "" && r[5] != "" && r[6] != ""
  {
  }

  /** The literal text of the HTML body around the nine values. */
  const BodyPieces: seq<string> := [
    "\n        <h2>New Contact Enquiry Received</h2>\n        <p><b>Name:</b> ",
    "</p>\n        <p><b>Company:</b> ",
    "</p>\n        <p><b>Email:</b> ",
    "</p>\n        <p><b>Phone:</b> ",
    "</p>\n        <p><b>City:</b> ",
    "</p>\n        <p><b>Service Requested:</b> ",
    "</p>\n        <p><b>Subject:</b> ",
    "</p>\n        <p><b>Message:</b><br>",
    "</p>\n        <p><em>Received at UTC ",
    "</em></p>\n        "
  ]

  /** The literal pieces are told apart from the values by their opening
      '<'. */
  lemma BodyPiecesDelimited()
    ensures Template.Delimited(BodyPieces)
  {
    forall k | 1 <= k < |BodyPieces|
      ensures BodyPieces[k] != [] && BodyPieces[k][0] == '<'
    {
      assert k in {1, 2, 3, 4, 5, 6, 7, 8, 9};
    }
  }

  /** The notification's HTML body: the literal pieces filled with the
      shown values. They are inserted without HTML escaping; as long as none
      contains '<', each one can be read back from the body in its place. */
  function Body(c: ContactForm, timestamp: string): (r: string)
    ensures BodyPieces[0] <= r
    ensures Template.AllPlain(Displayed(c, timestamp)) ==>
      Template.Split(BodyPieces, r) == Some(Displayed(c, timestamp))
  {
    var shown := Displayed(c, timestamp);
    var r := Template.Fill(BodyPieces, shown);
    if Template.AllPlain(shown) then
      BodyPiecesDelimited();
      Template.SplitFill(BodyPieces, shown);
      r
    else r
  }

  /** The outcome of a contact submission that got past validation: the
      thanks message exactly when the mail went out, a warning that carries
      the notifier's text verbatim when it returned a failure, and the
      notifier's exception when it raised one. */
  function ContactOutcome(d: SendResult): (o: Outcome)
    ensures !o.Rejected?
    ensures o.Received? <==> d.Sent()
    ensures o.Aborted? <==> d.Raised?
    ensures d.Sent() ==> o == Received(EnquiryThanks)
    ensures d.Raised? ==> o == Aborted(d.error)
    ensures d.Returned? && !d.sent ==>
      && o.SavedNotSent?
      && |o.message| == |SendFailedPrefix| + |d.info|
      && o.message[..|SendFailedPrefix|] == SendFailedPrefix
      && o.message[|SendFailedPrefix|..] == d.info
  {
    match d
    case Raised(e) => Aborted(e)
    case Returned(sent, info) =>
      if sent then Received(EnquiryThanks)
      else SavedNotSent(SendFailedPrefix + info)
  }

  /** End to end: the submitter is thanked exactly when the configuration is
      complete, the headers are single lines and the transport delivered; an
      incomplete configuration shows the notifier's fixed text, a multi-line
      header aborts the request, and a transport failure shows its error
      text. */
  lemma ContactOutcomeOfSend(cfg: Config, subject: string, html: string, transport: Transport)
    ensures var o := ContactOutcome(SendEmail(cfg, subject, html, transport));
      && (o.Received? <==>
            ConfigComplete(cfg) && HeadersSafe(cfg, subject)
            && transport(EnvelopeFor(cfg, subject, html)).Delivered?)
      && (o.Aborted? <==> ConfigComplete(cfg) && !HeadersSafe(cfg, subject))
      && (!ConfigComplete(cfg) ==> o == SavedNotSent(SendFailedPrefix + NotConfigured))
      && (ConfigComplete(cfg) && !HeadersSafe(cfg, subject) ==> o == Aborted(MultiLineHeader))
      && (ConfigComplete(cfg) && HeadersSafe(cfg, subject)
          && transport(EnvelopeFor(cfg, subject, html)).Failed? ==>
            o == SavedNotSent(SendFailedPrefix + transport(EnvelopeFor(cfg, subject, html)).error))
  {
  }

  /** With a complete configuration whose addresses are single lines, a line
      boundary in the submitted name or subject aborts the request after the
      row has been written. */
  lemma LineBreakInFormAborts(cfg: Config, form: Form, timestamp: string, transport: Transport)
    requires ConfigComplete(cfg) && HeaderSafe(cfg.sender.value) && HeaderSafe(cfg.recipient.value)
    ensures var c := ReadContact(form);
      var o := ContactOutcome(SendEmail(cfg, EnquirySubject(c), Body(c, timestamp), transport));
      o.Aborted? <==> !(NoLineBreak(c.name) && NoLineBreak(c.subject))
  {
    var c := ReadContact(form);
    SubjectHeaderSafeIff(c);
  }

  /** The arguments the contact handler passes to `send_email`. */
  datatype Notification = Notification(subject: string, html: string)

  /** The contact handler. A rejected submission touches neither the log nor
      the notifier. An accepted one is logged first, as one row at the end;
      the notifier is then called once, and whatever it reports, even an
      exception, the row stays. */
  method Contact(log: LeadLog, cfg: Config, form: Form, timestamp: string, transport: Transport)
    returns (outcome: Outcome, notification: Option<Notification>)
    requires log.Valid()
    modifies log
    ensures log.Valid()
    ensures var c := ReadContact(form);
      if !ContactComplete(c) then
        && outcome == Rejected(MissingContactFields)
        && notification == None
        && log.State() == old(log.State())
      else
        var subject := EnquirySubject(c);
        var html := Body(c, timestamp);
        && log.State() == AppendRow(old(log.State()), LeadRow(c, timestamp))
        && notification == Some(Notification(subject, html))
        && outcome == ContactOutcome(SendEmail(cfg, subject, html, transport))
    ensures outcome.Rejected? <==> !ContactComplete(ReadContact(form))
    ensures outcome.Aborted? <==>
      ContactComplete(ReadContact(form)) && ConfigComplete(cfg)
      && !HeadersSafe(cfg, EnquirySubject(ReadContact(form)))
    ensures !outcome.Rejected? ==>
      && |log.rows| == |old(log.rows)| + 1
      && log.rows[..|old(log.rows)|] == old(log.rows)
  {
    var c := ReadContact(form);
    if !ContactComplete(c) {
      return Rejected(MissingContactFields), None;
    }
    log.Append(LeadRow(c, timestamp));
    var subject := EnquirySubject(c);
    var html := Body(c, timestamp);
    var delivery := SendEmail(cfg, subject, html, transport);
    RaisedIff(cfg, subject, html, transport);
    notification := Some(Notification(subject, html));
    outcome := ContactOutcome(delivery);
  }
}
