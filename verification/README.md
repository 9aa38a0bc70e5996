# STB site core in Dafny

A model of the logic in a small trades-business website, with proofs about it.
The site has two halves. The page script builds a filterable work gallery from
site data and merges the business record into the page's schema.org
`LocalBusiness` structured data. It escapes every data value it puts into the
markup, and it checks the quote form before posting it. The server has one
endpoint, `POST /api/quote`, which:

- drops honeypot spam;
- sanitizes the fields;
- checks the required fields and the address shape;
- sends the request to the business owner as an email.

The modules follow that structure:

- `Wrappers`: `Option`.
- `JsText`: JavaScript values as they reach this code (`undefined`, `null` or a string), truthiness, `||`, `String()`, ECMAScript whitespace, `trim`, a global one-character replace, and splitting and joining at line feeds.
- `Escape`: `escapeHtml` and `escapeAttr`, with an entity decoder as their inverse, and the HTML parser's handling of CR and NUL in markup set through `innerHTML`.
- `Gallery`: the category list, the filter bar, button clicks, the item filter and one rendered figure.
- `Schema`: `updateSchema` merging the business record into the structured data.
- `ContactForm`: the page's submit handler, covering the trimmed payload, the required-field check and the status line after the reply.
- `Sanitization`: `sanitize` on the server.
- `EmailAddress`: `validateEmail`, with the regular expression `^[^\s@]+@[^\s@]+\.[^\s@]+$` restated as a predicate.
- `QuoteHandler`: the `/api/quote` handler as a function from request, configuration and relay outcome to response and sent mail, with readers that take the fields back out of both mail bodies.
- `Submission`: the page and the handler together.

Behaviour of the code that the model keeps as written:

- The handler tests the honeypot for truthiness before anything is sanitized. A honeypot of spaces posted directly counts as spam. The page trims it to `''` first.
- `sanitize` turns each run of CR/LF characters into a single space. It does this after trimming and before the cut at 2000 characters. Because the cut comes last, the result can end in a space, so `sanitize` is not idempotent at the limit.
- A missing `SMTP_HOST`, a failed transport check and a failed send all end in the same catch block. Each gives the generic 500 "Failed to send email.". The model folds them into one `DeliveryFailed` outcome.
- When the business record has an address, `updateSchema` overwrites each of the schema's address subfields. An absent subfield becomes `''`. If the schema has no `address` object, or the record has a `geo` and the schema does not, the assignment throws. So does reading `days` of a `null` entry in the opening-hours array. The catch block then leaves the structured data as it was.
- `escapeAttr`'s second replace finds nothing, because `escapeHtml` has already replaced every `"`.
- The HTML mail inserts the name, address and phone without escaping. In the message it replaces only `<`. So a typed `&lt;` and a typed `<` look the same in the mail.
- A gallery category named `all` produces a button that shows every item.
- The browser's HTML parser turns CR LF and a lone CR into LF in the markup given to `innerHTML`. In an attribute it turns NUL into U+FFFD. So a category holding CR or NUL reads back from its button as a different string, never `all`. The button then shows the items whose category is that normalized string, and never an item of the category it was made from. When no item has the normalized string, the grid comes up empty. For example, the category `"a\r\nb"` reads back as `"a\nb"`.

## Model

| member | source | states |
|---|---|---|
| JsText.Or | assets/js/script.js:108 | `a \|\| b` yields `a` when it is truthy and exactly `b` when it is not, even when both are falsy; the result is truthy iff either operand is |
| JsText.Trim | server.js:41 | the result is the input with a whitespace-only prefix and suffix removed, it neither starts nor ends with whitespace, and it is empty iff the input is all whitespace |
| JsText.TrimIdempotent | server.js:41 | trimming a trimmed string changes nothing |
| JsText.ReplaceAll | server.js:102 | a global replace of one character: the character alone becomes the replacement, any other single character stays; no occurrence survives when the replacement lacks it, every other character survives, and nothing appears that came from neither the input nor the replacement |
| JsText.ReplaceAllConcat | server.js:102 | the replace works character by character: replacing in a concatenation concatenates the replacements, so with the one-character cases every occurrence becomes the replacement |
| JsText.SplitJoinLines | server.js:98-102 | lines without line feeds, joined with line feeds, split back into the same lines |
| Escape.EscapeHtml | assets/js/script.js:133-135 | the escaped text contains none of `<`, `>`, `'`, `"` and is at least as long as the input |
| Escape.EscapeHtmlAmpersands | assets/js/script.js:134 | every `&` in escaped text starts one of the five entities, so no stray `&` survives |
| Escape.EscapeHtmlConcat | assets/js/script.js:134 | escaping is character by character: escaping a concatenation concatenates the escapes |
| Escape.EscapeHtmlPlain | assets/js/script.js:134 | text without `&<>'"` is left unchanged |
| Escape.EscapeRoundTrip | assets/js/script.js:134 | decoding the five entities recovers the original text exactly |
| Escape.EscapeHtmlInjective | assets/js/script.js:134 | two different texts never escape to the same markup |
| Escape.EscapeValue | assets/js/script.js:133-134 | `escapeHtml` on any value applies `String()` first; the output is markup-free and decodes to `String(value)` |
| Escape.EscapeAttr | assets/js/script.js:136 | the second replace is a no-op: the result equals `escapeHtml` and holds no `"` |
| Escape.PreprocessPlain | assets/js/script.js:71-84 | the parser leaves text without CR and NUL unchanged |
| Escape.PreprocessNormalizes | assets/js/script.js:71-77 | an attribute value as the parser stores it holds no CR and no NUL, and a value that held one holds the LF or U+FFFD that replaced it |
| Escape.PreprocessEscaped | assets/js/script.js:71-84 | escaping and the parser's CR and NUL handling commute |
| Escape.ReadBackEscaped | assets/js/script.js:71-84 | escaped markup reads back as the original text after the parser's CR and NUL handling |
| Gallery.DeriveCategories | assets/js/script.js:70 | the categories are exactly the truthy item categories, without duplicates, in order of first appearance |
| Gallery.CategoriesCoverItems | assets/js/script.js:70 | every item with a truthy category has its category in the list |
| Gallery.FilterBar | assets/js/script.js:71 | one "all" button first and active, then one button per category in order, whose `data-filter` reads back as the category after the parser's CR and NUL handling; exactly one button is active |
| Gallery.CategoryButtons | assets/js/script.js:71 | one inactive button per category, in order, whose escaped `data-filter` reads back as the category after the parser's CR and NUL handling |
| Gallery.PlainCategoryReadsBack | assets/js/script.js:71-77 | a category without CR and NUL reads back from its button exactly |
| Gallery.CarriageReturnCategoryShowsNothing | assets/js/script.js:71-84 | the category `"a\r\nb"` reads back as `"a\nb"`, and filtering a list holding only an item of that category by it shows nothing |
| Gallery.NormalizedCategoryMissesItsItems | assets/js/script.js:71-84 | a category holding CR or NUL gives a button whose value is neither the category nor "all"; it shows only items of the normalized category, never one of its own, and nothing when no item has the normalized category |
| Gallery.Click | assets/js/script.js:75-76 | after a click on a button, that button and only that one is active; filters and labels are untouched; a click outside the buttons changes nothing |
| Gallery.FilterItems | assets/js/script.js:84 | the shown items are a subsequence of the items, and each item appears as often as in the input when it matches the filter and not at all otherwise |
| Gallery.FilterAllIsIdentity | assets/js/script.js:84 | the "all" filter shows every item in order |
| Gallery.FilterConcat | assets/js/script.js:84 | filtering distributes over concatenation of item lists |
| Gallery.BuildGallery | assets/js/script.js:68-81 | initially every item is shown and "all" is the only active button; the category list holds each truthy category once, in order of first appearance, and button i+1 reads back as category i after the parser's CR and NUL handling; categories without CR and NUL give buttons with distinct values |
| Gallery.OnFilterClick | assets/js/script.js:72-79 | after clicking button k, exactly that button is active, every button keeps its filter and label, and the grid shows the items the button's value matches, in order and with their multiplicity; a click outside the bar changes nothing |
| Gallery.CategoryNamedAllShowsEverything | assets/js/script.js:70-84 | a category literally named "all" gets a button that shows every item, not only that category |
| Gallery.RenderFigure | assets/js/script.js:85-88 | attribute values hold no `"` and read back as the item's values after the parser's CR and NUL handling; alt falls back to the caption, then to "Work sample", so it is never empty; `data-caption` decodes to the caption or `''`; a caption element exists iff the caption is truthy and reads back as the caption |
| Gallery.AttributeOf | assets/js/script.js:86 | an `escapeAttr` value cannot close its double quotes, its entities decode to the original, and it reads back as the original after the parser's handling |
| Gallery.AltText | assets/js/script.js:86 | `alt \|\| caption \|\| 'Work sample'` is never empty and picks the first truthy of the three |
| Schema.UpdateSchema | assets/js/script.js:103-131 | without a business record, or when the update throws, the schema is unchanged; unrelated properties are always kept, at the top level and inside `address` and `geo`; a falsy name, telephone or url keeps the old value; no address leaves address and geo alone; no hours list leaves the hours alone |
| Schema.UpdateWritesPresentFields | assets/js/script.js:107-127 | when the update does not throw, each present field is written: truthy name/telephone/url, address subfields with `''` for falsy ones, geo only alongside an address, and the hours list mapped entry by entry |
| Schema.NullHoursDiscardUpdate | assets/js/script.js:120-130 | a `null` or `undefined` opening-hours entry makes the update throw, so the structured data stays as it was |
| Schema.UpdateSchemaIdempotent | assets/js/script.js:103-131 | applying the same business record twice gives the same structured data as once |
| ContactForm.FieldValue | assets/js/script.js:144-148 | a field value is the field's own text with only leading and trailing whitespace removed, `''` for a missing field; it is empty iff the field is missing or all whitespace |
| ContactForm.ReadPayload | assets/js/script.js:143-149 | each of the five payload fields is the trimmed value of its form field; name, email and message are non-empty iff filled; the honeypot is empty iff missing or blank |
| ContactForm.PrepareSubmit | assets/js/script.js:143-154 | the form is posted iff name, email and message are each present and not blank; otherwise the status reads "Please fill required fields."; the posted fields are the trimmed form values |
| ContactForm.StatusAfterReply | assets/js/script.js:164-174 | the thank-you line appears iff the reply is 2xx with `ok` set; every other outcome shows the error line |
| Sanitization.CollapseShape | server.js:41 | after the line-break replacement no CR or LF is left, the text never grows, it is empty iff the input was, and a first character that is not a line break is kept |
| Sanitization.CollapseRun | server.js:41 | a non-empty run made only of CR and LF becomes a single space |
| Sanitization.CollapseConcat | server.js:41 | the replacement distributes over a concatenation unless a line break meets a line break at the seam |
| Sanitization.CollapseRunBetween | server.js:41 | between text that does not end in a break and text that does not start with one, a run of breaks of any length becomes exactly one space |
| Sanitization.CollapseKeepsLast | server.js:41 | a last character that is not a line break is kept as the last character |
| Sanitization.CollapseWithoutBreaks | server.js:41 | text without line breaks comes through the replacement unchanged |
| Sanitization.CollapseAndCut | server.js:41 | after the replacement, the cut keeps the first min(n, 2000) characters of the n replaced ones: no line break, empty iff the trimmed text was, and still trimmed unless cut |
| Sanitization.SanitizeText | server.js:41 | the result is the first min(n, 2000) characters of the trimmed text after its line-break runs are collapsed, n being the collapsed length; it is at most 2000 characters, on one line, never starts with whitespace, is empty iff the input is all whitespace, and is fully trimmed when under the limit |
| Sanitization.Sanitize | server.js:40-41 | `sanitize(undefined)` is `''`, `sanitize(null)` is `"null"`, a string is sanitized as text; the result is empty iff the value is undefined or blank |
| Sanitization.SanitizeClean | server.js:41 | a trimmed string without line breaks and within 2000 characters is returned unchanged |
| Sanitization.SanitizeStableBelowLimit | server.js:41 | below 2000 characters, sanitizing a sanitized value changes nothing |
| Sanitization.SanitizeCutLeavesTrailingSpace | server.js:41 | at the limit, the cut can leave a trailing space, and a second pass removes it, so `sanitize` is not idempotent |
| EmailAddress.ValidateEmail | server.js:44-46 | an accepted address contains exactly one `@` |
| EmailAddress.ValidateEmailMatchesPattern | server.js:45 | the check accepts exactly the strings of the form local@domain.tld with each part non-empty and free of whitespace and `@` |
| EmailAddress.AcceptsPlainAddress | server.js:45 | "a@b.com" is accepted |
| EmailAddress.RejectsMalformedAddresses | server.js:45 | "bad" (no `@`), "a@b" (no dot in the domain) and "a b@c.de" (a space) are rejected |
| QuoteHandler.CleanRequest | server.js:72-77 | each sanitized field is empty iff the raw field is missing or blank; name and email are on one line; all fit the 2000-character bound |
| QuoteHandler.FromAddress | server.js:91 | the sender is `FROM_EMAIL` when it is set and `QUOTE_DEST` otherwise, never empty |
| QuoteHandler.PhoneOrNA | server.js:98 | a phone shown in the mail is never empty: a non-empty phone is shown as it is, and exactly "N/A" stands in for an empty one |
| QuoteHandler.HtmlMessage | server.js:102 | no `<` is left in the message's HTML; a message without `<` is unchanged; no line feed is introduced |
| QuoteHandler.HtmlMessageAtLt | server.js:102 | each `<` becomes `&lt;` and the text on either side is handled on its own |
| QuoteHandler.HtmlMessageMergesEntities | server.js:102 | a typed `<` and a typed `&lt;` give the same HTML, because `&` is not escaped |
| QuoteHandler.ComposeMail | server.js:93-103 | the mail goes to the destination from the sender and replies to the visitor's address; the name is read back from the subject; with every field on one line the subject stays on one line and both bodies read back to the fields, the phone as "N/A" when empty and the HTML message with `<` replaced |
| QuoteHandler.Unwrap | server.js:96-102 | a value taken out of a labelled line is exactly what sits between the label and the closing text |
| QuoteHandler.UnwrapWrapped | server.js:96-102 | a value written between a label and a closing text is taken back out unchanged |
| QuoteHandler.MailTextReadsBack | server.js:98 | the text body's six lines give back the name, the address, the phone or "N/A", and the message |
| QuoteHandler.MailHtmlReadsBack | server.js:99-102 | the HTML body's four paragraph lines give back the name, the address, the phone or "N/A", and the message with `<` replaced |
| QuoteHandler.MailReadsBack | server.js:96-102 | with every field on one line, the subject has no line break and both bodies read back to the fields |
| QuoteHandler.HandleQuote | server.js:64-112 | the status is 200, 400 or 500 and is 200 iff the answer is not an error; a mail goes out iff the answer is a plain `{ok:true}`; a truthy honeypot and only that gives `{ok:true, skipped:true}` with no mail; a sent mail replies to a valid-shaped address under a one-line subject |
| QuoteHandler.Decide | server.js:79-108 | the checks after the honeypot: never "skipped", and a mail goes out only when delivered to a set destination, composed from the sanitized fields |
| QuoteHandler.DecisionOrder | server.js:68-111 | with no honeypot, a blank required field gives 400 "Missing required fields."; then a malformed address gives 400 "Invalid email address."; then an unset destination gives 500; then the relay decides between 200 and 500 "Failed to send email." |
| QuoteHandler.SentMail | server.js:72-106 | a sent mail was delivered to `QUOTE_DEST`, from `FROM_EMAIL` or else `QUOTE_DEST`, with the sanitized address as reply-to and the sanitized name in the subject; both bodies read back to the sanitized fields, the phone as "N/A" when missing or blank, the HTML message with `<` replaced |
| Submission.PostedPayloadHasRequiredFields | assets/js/script.js:143-161 | a payload the page posts never gets the server's missing-fields answer |
| Submission.WhitespaceHoneypot | server.js:68-70 | a honeypot of spaces posted directly is treated as spam, while through the page it is trimmed away and not |
| Submission.SpamLooksSent | server.js:68-70 | a request dropped as spam sends no mail, yet the page shows the thank-you line |
| Submission.ThanksIffSent | assets/js/script.js:164-174 | without a honeypot the page thanks the visitor exactly when the mail went out |
| Submission.HoneypotExample | server.js:68-70 | a request with honeypot "x" is answered 200 skipped with no mail |
| Submission.EmptyNameExample | server.js:79-81 | a request with an empty name is answered 400 "Missing required fields." |

## Left out

- Express wiring is not modelled: CORS, static file serving, JSON body parsing, `listen` and the health route with its uptime are framework or I/O code with no decision logic of their own.
- The rate limiter on `/api/` is not modelled. It depends on a clock and on per-client state inside a library.
- The mail relay is represented by the `Delivery` parameter. This covers nodemailer, the transport's settings and caching, `verify` and `sendMail`. A missing `SMTP_HOST` is one of the ways to get `DeliveryFailed`. Console logging is left out.
- The environment variables `QUOTE_DEST` and `FROM_EMAIL` are a parameter (`MailConfig`). The model does not read them.
- On the page, the following are left out: loading the site data, the hero, about, services and contact sections, the year, the navigation toggle, the lightbox and its focus trap, the interim "Sending…" text, the status colours and `form.reset()`. These are DOM output without decisions the core depends on.
- `JSON.parse` and `JSON.stringify` of the structured-data script tag are left out, and so is a missing tag. `UpdateSchema` works on the parsed object.
- Regular expressions are restated as predicates (`IsWhitespace`, `IsLineBreak`, `MatchesPattern`). No regex engine is modelled.
- The HTML parser is modelled only as far as the escaped values meet it: CR and CR LF become LF, NUL becomes U+FFFD in an attribute and is dropped in text, and the five entities `escapeHtml` writes are decoded. The markup around the values is not parsed, and the other character references are not decoded, because `escapeHtml` never writes them.
- The mail bodies' "contains every field" property is stated by readers (`ReadMailText`, `ReadMailHtml`) that take the fields back out. This holds only when each field is on one line, which `sanitize` guarantees. The HTML body's newline and indentation between paragraphs are a constant prefix, not a rendering.
- Only `undefined`, `null` and strings are modelled for JSON values in string positions. Numbers, booleans, arrays and objects are not, which includes numeric `lat`/`lng`.
- Characters are Unicode scalar values. JavaScript counts UTF-16 code units, so for text with characters outside the Basic Multilingual Plane, `slice(0, 2000)` cuts at a different place than `SanitizeText` does.
- `buildGallery` adds a click listener each time it runs. The model treats one gallery built once.
- `buildGallery`'s early return when the gallery is missing or its `items` is not an array is not modelled: it renders nothing and has no logic to state. The model starts from the item list.
- Gallery items that are `null` or `undefined` are not modelled: `i.category` throws for them while the category list is derived. The error reaches `loadData`'s catch block, which replaces the about section with an error line and skips the contact section and the schema update. That page-loading path is outside the model, so every `Item` is an object whose absent properties are `Undefined`. A string or number entry has no such properties and reads as an `Item` with every field `Undefined`.
- A throw inside `updateSchema` is modelled only as the whole update being discarded. The partially mutated copy is never written back, so no intermediate state is observable.
- Sanitization.SanitizeText: states the trimming property only below the 2000-character limit, because at the limit the cut can leave a trailing space (see SanitizeCutLeavesTrailingSpace).
- EmailAddress.ValidateEmail: its own contract states only the single `@`. The full shape is stated by ValidateEmailMatchesPattern.
