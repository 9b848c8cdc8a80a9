# AYLB lead intake, modelled in Dafny

The AYLB logistics site has two forms. A quote request is validated and then
acknowledged. A contact enquiry goes through four stages:

1. Validation: name, email and phone must be non-empty after trimming.
2. Logging: one row is written to the end of the append-only file `contacts.csv`.
3. Notification: one mail is sent through an authenticated, encrypted SMTP connection.
4. Outcome: the submitter sees which of these happened.

Each contact submission moves `received -> rejected | stored -> notified | notify_failed`.
This project models that workflow and proves its contracts.

Modules (one file each):

- `Wrappers` (`wrappers.dfy`): the `Option` type.
- `Text` (`text.dfy`): Python's `str.strip()` with no argument. It uses the
  exact `str.isspace()` set of code points. The module also gives a reference
  definition of stripping and proves that `Strip` meets it, is the only result
  that does, and is idempotent. It also counts the lines `str.splitlines()`
  yields. The mail library uses that count to refuse a header value that
  spans several lines.
- `Template` (`template.dfy`): filling a literal template with values, and
  splitting the values back out. This is used to state what the HTML body shows.
- `Notifier` (`notifier.dfy`): `send_email`. It has the configuration record,
  the Python-truthiness gate `all([host, port, user, password, sender, recipient])`,
  the header check, and the result: either the `(sent, info)` pair or the
  exception that escapes. The SMTP exchange (connect, STARTTLS, login, send) is
  the parameter `transport`, a function from the envelope to `Delivered` or
  `Failed(errorText)`.
- `LeadStore` (`lead_store.dfy`): the log file. `LeadLog` is a class with
  fields `present` and `rows`, updated in place by `EnsureInitialized` and
  `Append`. Each method is tied to a pure function on a `LogFile` value, and the
  lemmas are stated about those functions.
- `Intake` (`intake.dfy`): form reading, the quote handler, the logged row, the
  subject line, the HTML body, the outcome messages, and the `Contact` handler
  method.

The model follows the code's own literal texts. The notifier's failure text is
`'SMTP not configured properly.'` and its success text is
`'Email sent successfully.'`, not a paraphrase. The quote handler neither
stores nor sends anything, exactly as the code does.

Appending to a log file that does not exist creates it without a header,
because Python's `open(..., 'a')` does that. The header is written only at
start-up (app.py:13-16).

The Subject, From and To headers are set at app.py:30-32, before the `try`.
Python's mail library refuses a header value that `splitlines()` breaks into
more than one line, and raises `ValueError`. Nothing catches it. So, with a
configuration that passes the gate at app.py:26, an accepted enquiry whose
name or subject holds a line break (for example "Asha\nK") aborts after its
row has been written: no message is flashed and the request fails. With
incomplete settings `send_email` returns before the headers are set, and the
submitter sees the usual warning. The model has this as the `Raised` result of `SendEmail` and the
`Aborted` outcome of `Contact`.

## Model

| member | source | states |
|---|---|---|
| Text.TrimStart | app.py:102-113 | leading part of `strip()`: the result is no longer than the input and does not start with whitespace |
| Text.TrimEnd | app.py:102-113 | trailing part of `strip()`: the result is no longer than the input and does not end with whitespace |
| Text.TrimStartDrops | app.py:102-113 | what is left is a suffix of the input, and everything dropped is whitespace |
| Text.TrimEndDrops | app.py:102-113 | what is left is a prefix of the input, and everything dropped is whitespace |
| Text.Strip | app.py:102-113 | `strip()` gives a value no longer than the input, with no whitespace at either end |
| Text.StripIsStrippedAt | app.py:102-113 | `strip()` cuts the input at positions meeting the reference definition: whitespace outside, none at either end inside |
| Text.StrippedAtUnique | app.py:102-113 | any cut meeting the reference definition yields exactly what `strip()` returns |
| Text.StripEmptyIff | app.py:102-113 | a stripped field is empty exactly when the raw value was all whitespace |
| Text.StripIdempotent | app.py:102-113 | stripping twice equals stripping once |
| Text.LineBreakIsSpace | app.py:30-32 | every `splitlines()` boundary is whitespace to `strip()`, so a stripped value neither starts nor ends with one |
| Text.LineCount | app.py:30-32 | `len(splitlines())` is 0 exactly for the empty text |
| Text.SingleLineIff | app.py:30-32 | `splitlines()` yields at most one line exactly when the only line boundary is a final one (a final '\r\n' counts as one) |
| Text.NoLineBreakOneLine | app.py:30-32 | text without any line boundary is one line |
| Text.OneLineIffNoBreak | app.py:30-32 | text that does not end in a line boundary is one line exactly when it has no boundary |
| Text.NoLineBreakConcat | app.py:130 | a concatenation has no line boundary exactly when neither part has one |
| Template.SplitFill | app.py:132-143 | values without '<' are read back from the filled template exactly as filled in |
| Template.FillSplit | app.py:132-143 | whatever is read back refills the template to the same text, one value per gap |
| Notifier.Truthy | app.py:26 | Python truthiness of a setting: None and '' are false, and so is the port 0 |
| Notifier.All | app.py:26 | Python's `all(...)` over the settings, element by element; AllIff states its meaning |
| Notifier.AllIff | app.py:26 | Python's `all(...)` is true exactly when every listed setting is truthy |
| Notifier.AllOfSix | app.py:26 | `all(...)` of the six settings is true exactly when each of the six is truthy |
| Notifier.ConfigComplete | app.py:19-27 | the gate passes exactly when host, username, password, from and to are all present and non-empty and the port is not 0 |
| Notifier.HeaderSafe | app.py:30-32 | the mail library accepts a header value exactly when it is one line by the reference definition, i.e. `splitlines()` yields at most one line |
| Notifier.HeadersSafe | app.py:30-32 | all three headers set before the `try` (Subject, From, To) are accepted |
| Notifier.EnvelopeFor | app.py:19-44 | the transport receives host, port, username and password from the settings, and a message from EMAIL_FROM to EMAIL_TO with the given subject and HTML |
| Notifier.SendEmail | app.py:18-47 | incomplete configuration gives `(False, 'SMTP not configured properly.')`; a multi-line Subject, From or To raises the mail library's `ValueError` before any connection; otherwise delivery gives `(True, 'Email sent successfully.')` and a transport failure gives `(False, errorText)` |
| Notifier.UnconfiguredIgnoresTransport | app.py:26-27 | with incomplete configuration no connection is made: the result is the same for every transport, and is a failure |
| Notifier.BadHeaderIgnoresTransport | app.py:29-32 | a multi-line header raises before any connection: the result is the same for every transport, and is an exception |
| Notifier.RaisedIff | app.py:26-40 | `send_email` raises exactly when the configuration is complete and one of Subject, From, To spans several lines |
| Notifier.SentIff | app.py:26-47 | `sent` is true exactly when the configuration is complete, the headers are single lines and the transport delivered |
| LeadStore.Initialize | app.py:13-16 | start-up leaves an existing file unchanged, and creates an absent one holding only the header row (the constant `Header`, the eight column names of app.py:16) |
| LeadStore.AppendRow | app.py:122-125 | append mode leaves the file existing, keeps the earlier rows and adds the row at the end; an absent file gets just that row, with no header |
| LeadStore.InitializeIdempotent | app.py:13-16 | initializing twice is the same as initializing once |
| LeadStore.AppendAllRows | app.py:122-125 | appending rows puts them at the end in order and leaves the earlier rows unchanged; the file then exists |
| LeadStore.FreshLogAfterSubmissions | app.py:12-16 | after start-up on an absent file and N submissions, the file has N + 1 rows: the header first, then the submissions in order |
| LeadStore.NoStartupNoHeader | app.py:122-125 | submissions to an absent file without start-up leave exactly those rows and no header |
| LeadStore.InitializeAfterAppend | app.py:13-16 | once rows have been appended the file exists, so start-up changes nothing |
| LeadStore.LeadLog.constructor | app.py:12 | the log object starts as the file found on disk |
| LeadStore.LeadLog.EnsureInitialized | app.py:13-16 | in place: an existing file's rows are untouched; an absent file becomes exactly `[Header]` |
| LeadStore.LeadLog.Append | app.py:122-125 | in place: the file exists and its rows are the old rows plus the new one at the end; an absent file holds just the new row |
| Intake.Field | app.py:102-113 | `request.form.get(key, '').strip()`: no whitespace at either end, '' for a missing field, never longer than the submitted value |
| Intake.FieldEmptyIff | app.py:102-113 | a field read with default `''` and stripped is empty exactly when it is missing or all whitespace |
| Intake.Outcome.Category | app.py:77-150 | the flash category is 'danger' for a rejection, 'success' for thanks, 'warning' for a row kept without a mail, and there is none when an exception aborts the request |
| Intake.ReadQuote | app.py:72-74 | each quote field is the stripped form field of the same name; name and email read as empty exactly when missing or all whitespace |
| Intake.Quote | app.py:69-82 | rejects with 'Please provide Name and Email.' exactly when the stripped name or email is empty, and thanks the submitter otherwise; it always flashes, and has no access to the log or the notifier |
| Intake.QuoteRejectedIff | app.py:72-78 | a quote request is rejected exactly when name or email is missing or all whitespace |
| Intake.QuoteIgnoresMessage | app.py:74-82 | the quote message is read but never changes the outcome |
| Intake.ReadContact | app.py:102-113 | each of the eight contact fields is the stripped form field of the same name, so none has whitespace at either end |
| Intake.ContactComplete | app.py:115 | the validation `name and email and phone` on the stripped fields; see ContactAcceptedIff for what it means for the raw form |
| Intake.ContactAcceptedIff | app.py:102-117 | a contact submission passes validation exactly when name, email and phone each hold non-whitespace text |
| Intake.LeadRow | app.py:122-125 | the logged row has one field per header column, and the field at each position is the value of the column the header names there |
| Intake.LeadRowOmitsSubject | app.py:112-125 | the form's subject is not logged: the row does not depend on it |
| Intake.OnlyRequiredFields | app.py:106-130 | a form with only name, email and phone is logged with empty company, city, service and message, and mailed under 'General Contact' |
| Intake.SubjectLabel | app.py:130 | the subject label is the form's subject when it is non-empty and 'General Contact' otherwise, so it is never empty |
| Intake.EnquirySubject | app.py:130 | the mail subject is 'New enquiry from ', then the name, then ' - ', then the subject label |
| Intake.SubjectHeaderSafeIff | app.py:130 | for a stripped form subject, the mail library accepts the subject line exactly when neither the name nor the subject holds a line boundary |
| Intake.OrNA | app.py:135-140 | `value if value else 'N/A'` is the value when non-empty and 'N/A' otherwise, so never empty |
| Intake.Displayed | app.py:134-142 | the body shows name, email, phone, message and timestamp as given; it shows company, city, service and subject as given when non-empty and as 'N/A' when empty |
| Intake.DisplayedOptionalNonEmpty | app.py:135-140 | the optional lines of the body are never blank |
| Intake.Body | app.py:132-143 | the body is the literal text of the f-string (the constant `BodyPieces`) filled with the shown values; it starts with the fixed heading, and when no shown value contains '<' the nine shown values can be read back from it in order |
| Intake.ContactOutcome | app.py:145-150 | the thanks message is shown exactly when the mail was sent; a returned failure shows the warning ending with the notifier's text verbatim; an exception from the notifier aborts the request |
| Intake.ContactOutcomeOfSend | app.py:145-150 | the submitter is thanked exactly when the configuration is complete, the headers are single lines and the transport delivered; an incomplete configuration shows 'SMTP not configured properly.' in the warning; a multi-line header aborts; a transport failure shows its error text |
| Intake.LineBreakInFormAborts | app.py:30-32 | with mail settings that pass the gate and single-line addresses, an accepted contact request aborts exactly when the stripped name or subject holds a line boundary |
| Intake.Contact | app.py:98-154 | a rejected submission leaves the log unchanged and calls no notifier. An accepted one appends exactly one row at the end, keeps the earlier rows, and calls the notifier once with the subject and body. The row stays whatever the notifier reports, even when its exception aborts the request, which happens exactly when the configuration passes the gate and a header spans several lines |

## Left out

- Flask plumbing: routing, `render_template`, the static page routes, `flash`,
  `redirect`, `url_for`, `app.run` and the GET branch of `/contact`. The flash
  message and category become the `Outcome` value.
- The static `network` location list: display data with no behaviour.
- The SMTP exchange: `smtplib.SMTP`, the 10-second timeout, `starttls`,
  `login` and `send_message`. They are foreign library calls inside the `try`,
  and the `transport` parameter stands for their combined effect. An exception
  raised while closing the connection is one more `Failed` result.
- The mail library outside the `try`. Of `EmailMessage`, the header
  assignments, `set_content` and `ssl.create_default_context`, only the
  multi-line header `ValueError` is modelled. Any other exception these may
  raise (an address header the parser cannot handle, a missing certificate
  store) is not, because it depends on library internals.
- The `plain_text` branch of `send_email`. The contact handler never passes it,
  and it is MIME library behaviour.
- The environment and the clock: `load_dotenv`, `os.getenv`, the `SMTP_PORT`
  default of 587, its `int()` conversion (and the exception on a bad value), and
  `datetime.utcnow().isoformat()`. The configuration and the timestamp are
  parameters.
- CSV encoding by Python's `csv` module. A stored row is its list of fields;
  quoting on disk is library behaviour.
- A failure while writing the log (disk full, no permission). The code does not
  handle it, so the exception aborts the request before any mail is sent. The
  model has no error path for it.
- Several values for one form field. The form is a map from field name to the
  first submitted value.
- Concurrent submissions appending to the same file.
- `static/js/main.js`: page animation, scroll events and timers, with no part
  in the intake workflow.
- Intake.Body: the read-back is stated only for values without '<'. The code does not
  escape HTML, so a value containing markup cannot always be told apart from
  the template.
