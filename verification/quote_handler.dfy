/**
 * The `POST /api/quote` handler as a decision function: from the request body,
 * the two mail settings and what the mail relay did, it yields the HTTP
 * response and the mail that went out, if any. The checks run in a fixed
 * order: honeypot, required fields, email shape, configured destination.
 */
module QuoteHandler {
  import opened JsText
  import opened Wrappers
  import opened Sanitization
  import EmailAddress

  /** The destructured `req.body`; a missing body or property is `Undefined`. */
  datatype QuoteRequest = QuoteRequest(name: JsValue, email: JsValue, phone: JsValue, message: JsValue, honeypot: JsValue)

  /** The `QUOTE_DEST` and `FROM_EMAIL` settings, `None` when unset. */
  datatype MailConfig = MailConfig(quoteDest: Option<string>, fromEmail: Option<string>)

  datatype Mail = Mail(from: string, to: string, subject: string, replyTo: string, text: string, html: string)

  /** `{ok:true}`, `{ok:true, skipped:true}` or `{ok:false, error}`. */
  datatype ResponseBody = Accepted | Skipped | Failure(error: string)

  datatype Response = Response(status: int, body: ResponseBody)

  /** What became of the mail handed to the relay: creating the transport, verifying it or sending may fail. */
  datatype Delivery = Delivered | DeliveryFailed

  /** The response, and the mail the relay accepted (at most one per request). */
  datatype Outcome = Outcome(response: Response, sent: Option<Mail>)

  /** The four sanitized fields. */
  datatype CleanFields = CleanFields(name: string, email: string, phone: string, message: string)

  /** The four values a reader of a mail body finds after its labels. */
  datatype MailFields = MailFields(name: string, email: string, phone: string, message: string)

  const MissingFields: string := "Missing required fields."
  const InvalidEmail: string := "Invalid email address."
  const NotConfigured: string := "Server not configured for email (QUOTE_DEST missing)."
  const SendFailed: string := "Failed to send email."

  /** The indentation that the HTML template literal carries before each later paragraph. */
  const Indent: string := "             "

  /** The opening of each paragraph of the HTML body, and the closing they share. */
  const NameOpen: string := "<p><strong>Name:</strong> "
  const EmailOpen: string := "<p><strong>Email:</strong> "
  const PhoneOpen: string := "<p><strong>Phone:</strong> "
  const MessageOpen: string := "<p><strong>Message:</strong><br/>"
  const Close: string := "</p>"

  /** An environment setting is truthy: present and not empty. */
  predicate IsSet(o: Option<string>) {
    o.Some? && o.value != ""
  }

  /** The `clean` object: each field sanitized, so each is within 2000 characters and on one line. */
  function CleanRequest(req: QuoteRequest): (c: CleanFields)
    ensures c.name == "" <==> Blank(req.name)
    ensures c.email == "" <==> Blank(req.email)
    ensures c.phone == "" <==> Blank(req.phone)
    ensures c.message == "" <==> Blank(req.message)
    ensures OnOneLine(c)
    ensures |c.name| <= MaxLength && |c.email| <= MaxLength && |c.phone| <= MaxLength && |c.message| <= MaxLength
  {
    CleanFields(Sanitize(req.name), Sanitize(req.email), Sanitize(req.phone), Sanitize(req.message))
  }

  /** Every sanitized field is free of line breaks. */
  predicate OnOneLine(c: CleanFields) {
    FreeOfLineBreaks(c.name) && FreeOfLineBreaks(c.email) && FreeOfLineBreaks(c.phone) && FreeOfLineBreaks(c.message)
  }

  /** `process.env.FROM_EMAIL || dest`. */
  function FromAddress(config: MailConfig): (from: string)
    requires IsSet(config.quoteDest)
    ensures from != ""
    ensures from == config.quoteDest.value || (IsSet(config.fromEmail) && from == config.fromEmail.value)
    ensures IsSet(config.fromEmail) ==> from == config.fromEmail.value
  {
    if IsSet(config.fromEmail) then config.fromEmail.value else config.quoteDest.value
  }

  /** `clean.phone || 'N/A'`. */
  function PhoneOrNA(phone: string): (r: string)
    ensures r != ""
    ensures phone != "" ==> r == phone
    ensures phone == "" ==> r == "N/A"
  {
    if phone != "" then phone else "N/A"
  }

  /**
   * `message.replace(/</g, '&lt;')`: no `<` is left, a message without `<` is
   * kept, and no line feed is introduced.
   */
  function HtmlMessage(message: string): (r: string)
    ensures '<' !in r
    ensures '<' !in message ==> r == message
    ensures '\n' !in message ==> '\n' !in r
  {
    ReplaceAll(message, '<', "&lt;")
  }

  /** Each `<` becomes `&lt;` and the text around it is handled on its own. */
  lemma HtmlMessageAtLt(a: string, b: string)
    ensures HtmlMessage(a + "<" + b) == HtmlMessage(a) + "&lt;" + HtmlMessage(b)
  {
    ReplaceAllConcat(a + "<", b, '<', "&lt;");
    ReplaceAllConcat(a, "<", '<', "&lt;");
  }

  /** The text body, `Name: …\nEmail: …\nPhone: …\n\nMessage:\n…`: one line per field, the phone as "N/A" when empty. */
  function MailText(c: CleanFields): string {
    JoinLines(["Name: " + c.name, "Email: " + c.email, "Phone: " + PhoneOrNA(c.phone), "", "Message:", c.message])
  }

  /**
   * The HTML body: one paragraph per line and per field, the later ones
   * indented. Name, address and phone are inserted as they are; only the
   * message has its `<` replaced.
   */
  function MailHtml(c: CleanFields): string {
    JoinLines([
      NameOpen + c.name + Close,
      Indent + EmailOpen + c.email + Close,
      Indent + PhoneOpen + PhoneOrNA(c.phone) + Close,
      Indent + MessageOpen + HtmlMessage(c.message) + Close])
  }

  /** The text between `open` and `close`, when `line` is `open`, then some text, then `close`. */
  function Unwrap(line: string, open: string, close: string): (r: Option<string>)
    ensures r.Some? ==> line == open + r.value + close
  {
    if |open| + |close| <= |line| && open <= line && line[|line| - |close|..] == close then
      var v := line[|open|..|line| - |close|];
      assert line == line[..|open|] + v + line[|line| - |close|..];
      Some(v)
    else
      None
  }

  /** Text wrapped between `open` and `close` is unwrapped back to itself. */
  lemma UnwrapWrapped(open: string, v: string, close: string)
    ensures Unwrap(open + v + close, open, close) == Some(v)
  {
    var line := open + v + close;
    assert line[..|open|] == open;
    assert line[|line| - |close|..] == close;
    assert line[|open|..|line| - |close|] == v;
  }

  /** How a reader takes the fields back out of the text body: six lines, each with its label. */
  function ReadMailText(text: string): Option<MailFields> {
    var lines := SplitLines(text);
    if |lines| != 6 || lines[3] != "" || lines[4] != "Message:" then None
    else
      var name := Unwrap(lines[0], "Name: ", "");
      var email := Unwrap(lines[1], "Email: ", "");
      var phone := Unwrap(lines[2], "Phone: ", "");
      if name.Some? && email.Some? && phone.Some? then Some(MailFields(name.value, email.value, phone.value, lines[5]))
      else None
  }

  /** How a reader takes the fields back out of the HTML body: four lines, each one labelled paragraph. */
  function ReadMailHtml(html: string): Option<MailFields> {
    var lines := SplitLines(html);
    if |lines| != 4 then None
    else
      var name := Unwrap(lines[0], NameOpen, Close);
      var email := Unwrap(lines[1], Indent + EmailOpen, Close);
      var phone := Unwrap(lines[2], Indent + PhoneOpen, Close);
      var message := Unwrap(lines[3], Indent + MessageOpen, Close);
      if name.Some? && email.Some? && phone.Some? && message.Some? then
        Some(MailFields(name.value, email.value, phone.value, message.value))
      else None
  }

  lemma NoLineFeed(s: string)
    requires FreeOfLineBreaks(s)
    ensures '\n' !in s
  {
    assert forall i :: 0 <= i < |s| ==> s[i] != '\n';
  }

  /** The text body gives every field back to its reader: the sanitized fields, with "N/A" for an empty phone. */
  lemma MailTextReadsBack(c: CleanFields)
    requires OnOneLine(c)
    ensures ReadMailText(MailText(c)) == Some(MailFields(c.name, c.email, PhoneOrNA(c.phone), c.message))
  {
    NoLineFeed(c.name);
    NoLineFeed(c.email);
    NoLineFeed(c.phone);
    NoLineFeed(c.message);
    var lines := ["Name: " + c.name, "Email: " + c.email, "Phone: " + PhoneOrNA(c.phone), "", "Message:", c.message];
    SplitJoinLines(lines);
    UnwrapWrapped("Name: ", c.name, "");
    UnwrapWrapped("Email: ", c.email, "");
    UnwrapWrapped("Phone: ", PhoneOrNA(c.phone), "");
    assert "Name: " + c.name + "" == lines[0];
    assert "Email: " + c.email + "" == lines[1];
    assert "Phone: " + PhoneOrNA(c.phone) + "" == lines[2];
  }

  /** The HTML body gives every field back to its reader, the message with each `<` as `&lt;`. */
  lemma MailHtmlReadsBack(c: CleanFields)
    requires OnOneLine(c)
    ensures ReadMailHtml(MailHtml(c)) == Some(MailFields(c.name, c.email, PhoneOrNA(c.phone), HtmlMessage(c.message)))
  {
    NoLineFeed(c.name);
    NoLineFeed(c.email);
    NoLineFeed(c.phone);
    NoLineFeed(c.message);
    Paragraph(NameOpen, c.name);
    Paragraph(Indent + EmailOpen, c.email);
    Paragraph(Indent + PhoneOpen, PhoneOrNA(c.phone));
    Paragraph(Indent + MessageOpen, HtmlMessage(c.message));
    SplitJoinLines([
      NameOpen + c.name + Close,
      Indent + EmailOpen + c.email + Close,
      Indent + PhoneOpen + PhoneOrNA(c.phone) + Close,
      Indent + MessageOpen + HtmlMessage(c.message) + Close]);
  }

  /** One paragraph line of the HTML body: without line feeds, and unwrapped back to its value. */
  lemma Paragraph(open: string, v: string)
    requires '\n' !in open && '\n' !in v
    ensures '\n' !in open + v + Close
    ensures Unwrap(open + v + Close, open, Close) == Some(v)
  {
    UnwrapWrapped(open, v, Close);
  }

  /**
   * Only `<` is replaced, not `&`, so two different messages can give the same
   * HTML: a typed `&lt;` and a typed `<` both appear as `&lt;`.
   */
  lemma HtmlMessageMergesEntities()
    ensures HtmlMessage("<") == HtmlMessage("&lt;") == "&lt;"
  {
    assert ReplaceAll("<"[1..], '<', "&lt;") == [];
    assert '<' !in "&lt;";
  }

  /**
   * The mail object: sent to the destination, from the given sender, with
   * replies going to the sender's address and a subject naming the sender.
   */
  function ComposeMail(c: CleanFields, dest: string, from: string): (m: Mail)
    ensures m.to == dest && m.from == from && m.replyTo == c.email
    ensures Unwrap(m.subject, "Quote Request from ", "") == Some(c.name)
    ensures OnOneLine(c) ==> FreeOfLineBreaks(m.subject)
    ensures OnOneLine(c) ==> ReadMailText(m.text) == Some(MailFields(c.name, c.email, PhoneOrNA(c.phone), c.message))
    ensures OnOneLine(c) ==> ReadMailHtml(m.html) == Some(MailFields(c.name, c.email, PhoneOrNA(c.phone), HtmlMessage(c.message)))
  {
    UnwrapWrapped("Quote Request from ", c.name, "");
    assert "Quote Request from " + c.name + "" == "Quote Request from " + c.name;
    MailReadsBack(c);
    Mail(from, dest, "Quote Request from " + c.name, c.email, MailText(c), MailHtml(c))
  }

  /**
   * The handler. Whatever it decides, the status and the body agree (200 with
   * `ok: true`, 400 or 500 with an error), and a mail went out exactly when the
   * answer is a plain 200 `{ok:true}`. A truthy honeypot short-circuits every
   * other check, and only a truthy honeypot gives the "skipped" answer. A mail
   * that went out has a reply-to address of the validated shape and a
   * one-line subject.
   */
  function HandleQuote(req: QuoteRequest, config: MailConfig, delivery: Delivery): (o: Outcome)
    ensures o.response.status == 200 || o.response.status == 400 || o.response.status == 500
    ensures o.response.status == 200 <==> !o.response.body.Failure?
    ensures o.sent.Some? <==> o.response == Response(200, Accepted)
    ensures Truthy(req.honeypot) ==> o == Outcome(Response(200, Skipped), None)
    ensures o.response.body == Skipped <==> Truthy(req.honeypot)
    ensures o.sent.Some? ==> EmailAddress.MatchesPattern(o.sent.value.replyTo)
    ensures o.sent.Some? ==> FreeOfLineBreaks(o.sent.value.subject) && FreeOfLineBreaks(o.sent.value.replyTo)
  {
    if Truthy(req.honeypot) then
      Outcome(Response(200, Skipped), None)
    else
      Decide(CleanRequest(req), config, delivery)
  }

  /**
   * The checks after the honeypot, on the sanitized fields: required fields,
   * then the address shape, then the destination; only then is the mail
   * composed and handed to the relay.
   */
  function Decide(c: CleanFields, config: MailConfig, delivery: Delivery): (o: Outcome)
    requires FreeOfLineBreaks(c.name) && FreeOfLineBreaks(c.email)
    ensures o.response.status == 200 || o.response.status == 400 || o.response.status == 500
    ensures o.response.status == 200 <==> !o.response.body.Failure?
    ensures o.response.body != Skipped
    ensures o.sent.Some? <==> o.response == Response(200, Accepted)
    ensures o.sent.Some? ==> EmailAddress.MatchesPattern(o.sent.value.replyTo)
    ensures o.sent.Some? ==> FreeOfLineBreaks(o.sent.value.subject) && FreeOfLineBreaks(o.sent.value.replyTo)
    ensures o.sent.Some? ==> delivery == Delivered && IsSet(config.quoteDest)
                             && o.sent.value == ComposeMail(c, config.quoteDest.value, FromAddress(config))
  {
    if c.name == "" || c.email == "" || c.message == "" then
      Outcome(Response(400, Failure(MissingFields)), None)
    else if !EmailAddress.ValidateEmail(c.email) then
      Outcome(Response(400, Failure(InvalidEmail)), None)
    else if !IsSet(config.quoteDest) then
      Outcome(Response(500, Failure(NotConfigured)), None)
    else
      EmailAddress.ValidateEmailMatchesPattern(c.email);
      SubjectOnOneLine(c.name);
      match delivery
      case Delivered => Outcome(Response(200, Accepted), Some(ComposeMail(c, config.quoteDest.value, FromAddress(config))))
      case DeliveryFailed => Outcome(Response(500, Failure(SendFailed)), None)
  }

  /** With every field on one line, the subject stays on one line and both bodies read back. */
  lemma MailReadsBack(c: CleanFields)
    ensures OnOneLine(c) ==>
      && FreeOfLineBreaks("Quote Request from " + c.name)
      && ReadMailText(MailText(c)) == Some(MailFields(c.name, c.email, PhoneOrNA(c.phone), c.message))
      && ReadMailHtml(MailHtml(c)) == Some(MailFields(c.name, c.email, PhoneOrNA(c.phone), HtmlMessage(c.message)))
  {
    if OnOneLine(c) {
      SubjectOnOneLine(c.name);
      MailTextReadsBack(c);
      MailHtmlReadsBack(c);
    }
  }

  lemma SubjectOnOneLine(name: string)
    requires FreeOfLineBreaks(name)
    ensures FreeOfLineBreaks("Quote Request from " + name)
  {
    var s := "Quote Request from " + name;
    forall i | 0 <= i < |s| ensures !IsLineBreak(s[i]) {
      if i >= 19 {
        assert s[i] == name[i - 19];
      }
    }
  }

  /**
   * The order of the checks, stated on the raw request: with no honeypot, a
   * missing or blank required field gives 400; otherwise an address that does
   * not have the `local@domain.tld` shape gives 400; otherwise an unset
   * destination gives 500; otherwise the mail is composed and handed to the
   * relay, and its fate decides between 200 and the generic 500.
   */
  lemma DecisionOrder(req: QuoteRequest, config: MailConfig, delivery: Delivery)
    requires !Truthy(req.honeypot)
    ensures var o := HandleQuote(req, config, delivery);
            var c := CleanRequest(req);
      && (Blank(req.name) || Blank(req.email) || Blank(req.message) ==>
            o == Outcome(Response(400, Failure(MissingFields)), None))
      && (!Blank(req.name) && !Blank(req.email) && !Blank(req.message) ==>
            && (!EmailAddress.MatchesPattern(c.email) ==>
                  o == Outcome(Response(400, Failure(InvalidEmail)), None))
            && (EmailAddress.MatchesPattern(c.email) && !IsSet(config.quoteDest) ==>
                  o == Outcome(Response(500, Failure(NotConfigured)), None))
            && (EmailAddress.MatchesPattern(c.email) && IsSet(config.quoteDest) ==>
                  o == (if delivery == Delivered
                        then Outcome(Response(200, Accepted),
                                     Some(ComposeMail(c, config.quoteDest.value, FromAddress(config))))
                        else Outcome(Response(500, Failure(SendFailed)), None))))
  {
    EmailAddress.ValidateEmailMatchesPattern(CleanRequest(req).email);
  }

  /**
   * The mail that goes out: to `QUOTE_DEST`, from `FROM_EMAIL` when set and
   * `QUOTE_DEST` otherwise, replies to the sanitized address, subject
   * "Quote Request from " and the sanitized name; both bodies hold the
   * sanitized fields, the phone as "N/A" when it was missing or blank, and
   * the HTML body the message with each `<` replaced.
   */
  lemma SentMail(req: QuoteRequest, config: MailConfig, delivery: Delivery)
    ensures var o := HandleQuote(req, config, delivery);
      o.sent.Some? ==>
      var m := o.sent.value;
      && delivery == Delivered
      && IsSet(config.quoteDest) && m.to == config.quoteDest.value
      && m.from == (if IsSet(config.fromEmail) then config.fromEmail.value else config.quoteDest.value)
      && m.replyTo == Sanitize(req.email)
      && m.subject == "Quote Request from " + Sanitize(req.name)
      && var phone := if Blank(req.phone) then "N/A" else Sanitize(req.phone);
         && ReadMailText(m.text)
              == Some(MailFields(Sanitize(req.name), Sanitize(req.email), phone, Sanitize(req.message)))
         && ReadMailHtml(m.html)
              == Some(MailFields(Sanitize(req.name), Sanitize(req.email), phone, HtmlMessage(Sanitize(req.message))))
  {
    var c := CleanRequest(req);
    if HandleQuote(req, config, delivery).sent.Some? {
      assert !Truthy(req.honeypot);
      assert HandleQuote(req, config, delivery).sent == Decide(c, config, delivery).sent;
    }
  }
}
