/**
 * The mail notifier `send_email`: a gate on the configuration, the message
 * headers, then one attempt to submit the message over an authenticated,
 * encrypted connection. The connection itself (smtplib with STARTTLS, login
 * and send) is a parameter, `transport`, that stands for that exchange.
 */
module Notifier {
  import opened Wrappers
  import opened Text

  /** The mail settings as read from the environment: a variable that is
      not set is None; SMTP_PORT has already been converted to an int. */
  datatype Config = Config(
    host: Option<string>,
    port: int,
    username: Option<string>,
    password: Option<string>,
    sender: Option<string>,
    recipient: Option<string>)

  /** A value in the list handed to Python's `all(...)`. */
  datatype Setting = Str(text: Option<string>) | Number(number: int)

  /** Python truthiness: None and '' are false, and so is the int 0. */
  predicate Truthy(v: Setting) {
    match v
    case Str(t) => t.Some? && t.value != ""
    case Number(n) => n != 0
  }

  /** Python's `all(vs)`. */
  predicate All(vs: seq<Setting>)
    decreases |vs|
  {
    vs == [] || (Truthy(vs[0]) && All(vs[1..]))
  }

  lemma {:induction false} AllIff(vs: seq<Setting>)
    ensures All(vs) <==> forall k :: 0 <= k < |vs| ==> Truthy(vs[k])
    decreases |vs|
  {
    if vs != [] {
      AllIff(vs[1..]);
      assert forall k :: 1 <= k < |vs| ==> vs[k] == vs[1..][k - 1];
    }
  }

  /** `all(...)` of a six-element list, spelled out. */
  lemma AllOfSix(vs: seq<Setting>)
    requires |vs| == 6
    ensures All(vs) <==>
      Truthy(vs[0]) && Truthy(vs[1]) && Truthy(vs[2]) && Truthy(vs[3]) && Truthy(vs[4]) && Truthy(vs[5])
  {
    AllIff(vs);
    if Truthy(vs[0]) && Truthy(vs[1]) && Truthy(vs[2]) && Truthy(vs[3]) && Truthy(vs[4]) && Truthy(vs[5]) {
      forall k | 0 <= k < |vs| ensures Truthy(vs[k]) {
        assert k == 0 || k == 1 || k == 2 || k == 3 || k == 4 || k == 5;
      }
    }
  }

  /** The list the gate checks, in the source's order. */
  function Settings(cfg: Config): seq<Setting> {
    [Str(cfg.host), Number(cfg.port), Str(cfg.username),
     Str(cfg.password), Str(cfg.sender), Str(cfg.recipient)]
  }

  predicate Given(v: Option<string>) {
    v.Some? && v.value != ""
  }

  /** The gate `all([host, port, user, password, sender, recipient])`: it
      passes exactly when every string setting is present and non-empty and
      the port is not 0. */
  predicate ConfigComplete(cfg: Config): (b: bool)
    ensures b <==>
      && Given(cfg.host) && cfg.port != 0 && Given(cfg.username)
      && Given(cfg.password) && Given(cfg.sender) && Given(cfg.recipient)
  {
    AllOfSix(Settings(cfg));
    All(Settings(cfg))
  }

  /** The message as handed to the mail server. */
  datatype Message = Message(subject: string, from: string, to: string, html: string)

  /** Everything the connection is opened with. */
  datatype Envelope = Envelope(
    host: string, port: int, username: string, password: string, message: Message)

  /** What one attempt comes to: delivered, or the text of the exception
      raised by connecting, STARTTLS, login or sending (all inside the
      `try`). */
  datatype TransportResult = Delivered | Failed(error: string)

  type Transport = Envelope -> TransportResult

  /** What a call of `send_email` comes to: the pair `(sent, info)` it
      returns, or the exception it lets escape. */
  datatype SendResult = Returned(sent: bool, info: string) | Raised(error: string)
  {
    predicate Sent() {
      Returned? && sent
    }
  }

  const NotConfigured := "SMTP not configured properly."
  const SentMessage := "Email sent successfully."
  /** The ValueError the mail library raises for a multi-line header value. */
  const MultiLineHeader := "Header values may not contain linefeed or carriage return characters"

  /** A header value the mail library accepts: `splitlines()` yields at
      most one line. */
  predicate HeaderSafe(v: string): (b: bool)
    ensures b <==> OneLine(v)
  {
    SingleLineIff(v);
    LineCount(v) <= 1
  }

  /** The three headers set before the `try`: Subject, From and To. */
  predicate HeadersSafe(cfg: Config, subject: string)
    requires ConfigComplete(cfg)
  {
    HeaderSafe(subject) && HeaderSafe(cfg.sender.value) && HeaderSafe(cfg.recipient.value)
  }

  /** The connection parameters and the message built from the settings. */
  function EnvelopeFor(cfg: Config, subject: string, html: string): (e: Envelope)
    requires ConfigComplete(cfg)
    ensures Some(e.host) == cfg.host && e.port == cfg.port
    ensures Some(e.username) == cfg.username && Some(e.password) == cfg.password
    ensures Some(e.message.from) == cfg.sender && Some(e.message.to) == cfg.recipient
    ensures e.message.subject == subject && e.message.html == html
  {
    Envelope(cfg.host.value, cfg.port, cfg.username.value, cfg.password.value,
             Message(subject, cfg.sender.value, cfg.recipient.value, html))
  }

  /** The notifier. An incomplete configuration returns a fixed failure. A
      multi-line Subject, From or To raises before any connection. Otherwise
      the transport decides, and its error text is returned. */
  function SendEmail(cfg: Config, subject: string, html: string, transport: Transport): (d: SendResult)
    ensures !ConfigComplete(cfg) ==> d == Returned(false, NotConfigured)
    ensures ConfigComplete(cfg) && !HeadersSafe(cfg, subject) ==> d == Raised(MultiLineHeader)
    ensures ConfigComplete(cfg) && HeadersSafe(cfg, subject) ==>
      d == match transport(EnvelopeFor(cfg, subject, html))
           case Delivered => Returned(true, SentMessage)
           case Failed(e) => Returned(false, e)
  {
    if !ConfigComplete(cfg) then Returned(false, NotConfigured)
    else if !HeadersSafe(cfg, subject) then Raised(MultiLineHeader)
    else
      match transport(EnvelopeFor(cfg, subject, html))
      case Delivered => Returned(true, SentMessage)
      case Failed(e) => Returned(false, e)
  }

  /** With an incomplete configuration no connection is made: the result is
      the same whatever the transport would have done. */
  lemma UnconfiguredIgnoresTransport(cfg: Config, subject: string, html: string, t1: Transport, t2: Transport)
    requires !ConfigComplete(cfg)
    ensures SendEmail(cfg, subject, html, t1) == SendEmail(cfg, subject, html, t2)
    ensures !SendEmail(cfg, subject, html, t1).Sent()
  {
  }

  /** A multi-line header also stops the call before any connection. */
  lemma BadHeaderIgnoresTransport(cfg: Config, subject: string, html: string, t1: Transport, t2: Transport)
    requires ConfigComplete(cfg) && !HeadersSafe(cfg, subject)
    ensures SendEmail(cfg, subject, html, t1) == SendEmail(cfg, subject, html, t2)
    ensures SendEmail(cfg, subject, html, t1).Raised?
  {
  }

  /** `send_email` raises exactly when the configuration is complete and one
      of the three headers spans several lines. */
  lemma RaisedIff(cfg: Config, subject: string, html: string, transport: Transport)
    ensures SendEmail(cfg, subject, html, transport).Raised? <==>
      ConfigComplete(cfg) && !HeadersSafe(cfg, subject)
  {
  }

  /** A delivery is reported exactly when the configuration is complete, the
      headers are single lines and the transport delivered. */
  lemma SentIff(cfg: Config, subject: string, html: string, transport: Transport)
    ensures SendEmail(cfg, subject, html, transport).Sent() <==>
      ConfigComplete(cfg) && HeadersSafe(cfg, subject)
      && transport(EnvelopeFor(cfg, subject, html)).Delivered?
  {
  }
}
