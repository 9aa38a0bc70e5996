/**
 * The contact form's submit handler on the page: every field is read and
 * trimmed, the request is posted only when name, email and message are all
 * non-empty, and the reply decides the status line.
 */
module ContactForm {
  import opened JsText
  import opened Wrappers

  /** The form's fields as `FormData.get` returns them; `None` stands for `null`, a field the form lacks. */
  datatype FormFields = FormFields(
    name: Option<string>,
    email: Option<string>,
    phone: Option<string>,
    message: Option<string>,
    honeypot: Option<string>)

  /** The JSON object the page posts. */
  datatype Payload = Payload(name: string, email: string, phone: string, message: string, honeypot: string)

  /** The handler's first step: either it stops with a status line, or it posts a payload. */
  datatype SubmitStep = Blocked(status: string) | Post(payload: Payload)

  /** What the page learns from the reply: a JSON body, with `res.ok` and `data.ok`; or nothing readable. */
  datatype Reply = JsonReply(httpOk: bool, dataOk: bool) | Unreadable

  const FillRequired: string := "Please fill required fields."
  const ThankYou: string := "Thank you \U{2014} your request has been sent."
  const SendError: string := "Error sending request. Please try again later."

  /**
   * `String(formData.get(field) || '').trim()`: the field's own text with only
   * its leading and trailing whitespace cut off, and `''` for a missing field.
   */
  function FieldValue(v: Option<string>): (r: string)
    ensures v.Some? ==> exists a :: SplitsAround(v.value, r, a)
    ensures v.None? ==> r == ""
    ensures IsTrimmed(r)
    ensures r == "" <==> v.None? || AllWhitespace(v.value)
  {
    Trim(v.GetOr(""))
  }

  /** A required field counts as filled when it is present and not all whitespace. */
  predicate Filled(v: Option<string>) {
    v.Some? && !AllWhitespace(v.value)
  }

  /** A field value is non-empty exactly when the field counts as filled. */
  lemma FieldValueFilled(v: Option<string>)
    ensures FieldValue(v) != "" <==> Filled(v)
  {
  }

  /** The five fields as read from the form, each trimmed. */
  function ReadPayload(form: FormFields): (p: Payload)
    ensures p == Payload(FieldValue(form.name), FieldValue(form.email), FieldValue(form.phone),
                         FieldValue(form.message), FieldValue(form.honeypot))
    ensures IsTrimmed(p.name) && IsTrimmed(p.email) && IsTrimmed(p.phone)
    ensures IsTrimmed(p.message) && IsTrimmed(p.honeypot)
    ensures p.name != "" <==> Filled(form.name)
    ensures p.email != "" <==> Filled(form.email)
    ensures p.message != "" <==> Filled(form.message)
    ensures p.honeypot == "" <==> form.honeypot.None? || AllWhitespace(form.honeypot.value)
  {
    FieldValueFilled(form.name);
    FieldValueFilled(form.email);
    FieldValueFilled(form.message);
    Payload(
      FieldValue(form.name), FieldValue(form.email), FieldValue(form.phone),
      FieldValue(form.message), FieldValue(form.honeypot))
  }

  /**
   * The check before posting: blocked with "Please fill required fields." when
   * name, email or message is missing or blank; otherwise post the five
   * trimmed fields.
   */
  function PrepareSubmit(form: FormFields): (step: SubmitStep)
    ensures step.Post? <==> Filled(form.name) && Filled(form.email) && Filled(form.message)
    ensures step.Blocked? ==> step.status == FillRequired
    ensures step.Post? ==>
      step.payload == Payload(FieldValue(form.name), FieldValue(form.email), FieldValue(form.phone),
                              FieldValue(form.message), FieldValue(form.honeypot))
    ensures step.Post? ==>
      && IsTrimmed(step.payload.name) && IsTrimmed(step.payload.email) && IsTrimmed(step.payload.phone)
      && IsTrimmed(step.payload.message) && IsTrimmed(step.payload.honeypot)
      && step.payload.name != "" && step.payload.email != "" && step.payload.message != ""
    ensures step.Post? ==> (step.payload.honeypot == "" <==> form.honeypot.None? || AllWhitespace(form.honeypot.value))
  {
    var payload := ReadPayload(form);
    if payload.name == "" || payload.email == "" || payload.message == "" then
      Blocked(FillRequired)
    else
      Post(payload)
  }

  /** The status line after the reply: thanks only for a 2xx reply whose body says `ok`. */
  function StatusAfterReply(reply: Reply): (status: string)
    ensures status == ThankYou <==> reply.JsonReply? && reply.httpOk && reply.dataOk
    ensures status == ThankYou || status == SendError
  {
    if reply.JsonReply? && reply.httpOk && reply.dataOk then ThankYou else SendError
  }
}
