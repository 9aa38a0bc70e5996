/**
 * The page and the server together: what the page's own check guarantees the
 * handler, how the two treat the honeypot, and what the visitor sees for each
 * of the handler's answers.
 */
module Submission {
  import opened JsText
  import opened Wrappers
  import opened ContactForm
  import opened QuoteHandler
  import Sanitization

  /** The request body the handler receives for a payload the page posted: every field a string. */
  function RequestOf(p: Payload): (req: QuoteRequest)
    ensures req.honeypot.Str? && req.honeypot.s == p.honeypot
  {
    QuoteRequest(Str(p.name), Str(p.email), Str(p.phone), Str(p.message), Str(p.honeypot))
  }

  /** What the page reads from the handler's response: `res.ok` is a 2xx status, `data.ok` is the body's flag. */
  function ReplyOf(r: Response): (reply: Reply)
    ensures reply.JsonReply?
  {
    JsonReply(200 <= r.status < 300, r.body.Accepted? || r.body.Skipped?)
  }

  /** A payload the page posts always passes the handler's required-field check. */
  lemma PostedPayloadHasRequiredFields(form: FormFields, config: MailConfig, delivery: Delivery)
    requires Filled(form.name) && Filled(form.email) && Filled(form.message)
    ensures PrepareSubmit(form).Post?
    ensures HandleQuote(RequestOf(PrepareSubmit(form).payload), config, delivery).response
            != Response(400, Failure(MissingFields))
  {
    var p := PrepareSubmit(form).payload;
    var req := RequestOf(p);
    assert !Sanitization.Blank(req.name) by { BlankOfNonEmptyTrimmed(p.name); }
    assert !Sanitization.Blank(req.email) by { BlankOfNonEmptyTrimmed(p.email); }
    assert !Sanitization.Blank(req.message) by { BlankOfNonEmptyTrimmed(p.message); }
    if !Truthy(req.honeypot) {
      DecisionOrder(req, config, delivery);
    }
  }

  lemma BlankOfNonEmptyTrimmed(s: string)
    requires s != [] && IsTrimmed(s)
    ensures !AllWhitespace(s)
  {
    assert !IsWhitespace(s[0]);
  }

  /**
   * The handler does not sanitize the honeypot, so a whitespace-only honeypot
   * posted directly is treated as spam; through the page it is trimmed to `''`
   * first and the submission goes on to the other checks.
   */
  lemma WhitespaceHoneypot(form: FormFields, h: string, config: MailConfig, delivery: Delivery)
    requires h != [] && AllWhitespace(h)
    requires form.honeypot == Some(h)
    requires Filled(form.name) && Filled(form.email) && Filled(form.message)
    ensures PrepareSubmit(form).Post?
    ensures var p := PrepareSubmit(form).payload;
      && HandleQuote(RequestOf(p).(honeypot := Str(h)), config, delivery) == Outcome(Response(200, Skipped), None)
      && HandleQuote(RequestOf(p), config, delivery).response.body != Skipped
  {
    var p := PrepareSubmit(form).payload;
    assert p.honeypot == "";
    assert !Truthy(RequestOf(p).honeypot);
  }

  /** A submission dropped as spam reads, on the page, exactly like one that was sent. */
  lemma SpamLooksSent(req: QuoteRequest, config: MailConfig, delivery: Delivery)
    requires Truthy(req.honeypot)
    ensures StatusAfterReply(ReplyOf(HandleQuote(req, config, delivery).response)) == ThankYou
    ensures HandleQuote(req, config, delivery).sent.None?
  {
  }

  /** Without a honeypot, the page thanks the visitor exactly when the mail went out. */
  lemma ThanksIffSent(req: QuoteRequest, config: MailConfig, delivery: Delivery)
    requires !Truthy(req.honeypot)
    ensures var o := HandleQuote(req, config, delivery);
      StatusAfterReply(ReplyOf(o.response)) == ThankYou <==> o.sent.Some?
  {
  }

  /** Sample submissions, with `QUOTE_DEST` set and the relay delivering: a honeypot of `x`, then an empty name. */
  lemma HoneypotExample()
    ensures HandleQuote(QuoteRequest(Str("A"), Str("a@b.com"), Undefined, Str("hi"), Str("x")),
                        MailConfig(Some("owner@site.example"), None), Delivered)
            == Outcome(Response(200, Skipped), None)
  {
  }

  lemma EmptyNameExample()
    ensures HandleQuote(QuoteRequest(Str(""), Str("a@b.com"), Undefined, Str("hi"), Undefined),
                        MailConfig(Some("owner@site.example"), None), Delivered).response
            == Response(400, Failure(MissingFields))
  {
  }
}
