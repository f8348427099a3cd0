# EmailSenderAPI email service, modelled in Dafny

This project models `EmailService`, the delivery component of a small contact-form API. For every submission the service does two things:

- It sends an acknowledgement to the submitter.
- It sends a copy of the submission to the business mailbox.

Each message goes over its own SMTP session.

The model covers:

- **Construction.** Both the configuration and the logger must be present (`Delivery.NewEmailService`).
- **Composition** (module `Compose`).
  - The acknowledgement is sent from the configured user name to the submitter. It has a fixed subject and a fixed HTML body.
  - The business copy is sent from and to the configured user name. Its subject is "New message from <contact name>".
  - The body of the business copy is an HTML template that carries the contact's name, the contact's address and the message text. None of them is escaped.
  - Addresses go through an address parser. The parser is a parameter that may reject any text with an exception of its own choosing.
- **Configuration checks** (module `Validation`). These are made before every send, in this order:
  1. `EmailHost` must not be null or white space.
  2. `Port` must parse as a 32-bit integer and be positive.
  3. `EmailUsername` must not be null or white space.
  4. `EmailPassword` must not be null or white space.

  Each failing check throws `InvalidOperationException` with its own message. White space follows `char.IsWhiteSpace`. The port is read by a model of `int.TryParse` (module `Int32Text`), and a decimal rendering of integers serves as its round-trip partner. White space around the port is U+0009–U+000D and U+0020, as `NumberStyles.Integer` allows.
- **The SMTP session** (`Delivery.Session`): Connect (STARTTLS), then Authenticate, then Send inside a `try`/`finally` that always calls Disconnect(quit = true). The relay is an oracle. It is given every event so far and the next call, and it answers "returns" or "throws".
- **`SendEmail`**:
  - A null request throws `ArgumentNullException` before anything else happens.
  - Otherwise the acknowledgement is composed and sent, and then the business copy is composed and sent.
  - The first exception is logged once, with the submitter's address, and rethrown unchanged.

Construction, composition and the configuration checks return a value or an exception (`Result`), and the port parser returns an optional value (`Option`). The sending operations (`Session`, `SendMessage`, `Sequence`, `Deliver`, `SendEmail`) are pure functions that return a trace of events and an outcome. The module `DeliveryTraces` proves properties of whole traces:

- Every Send sits inside a complete Connect, Authenticate, Send, Disconnect bracket.
- The business copy is composed if and only if the acknowledgement's `SendEmailMessage` returned normally, meaning Connect, Authenticate, Send and Disconnect all returned. A Disconnect failure after an accepted Send stops the copy, even though the acknowledgement has already gone out.
- A successful call hands the relay exactly the two messages, in order.
- An invalid configuration never reaches the relay.
- The user name is parsed as an address before it is checked.
- Lemmas built on the unit tests' configuration and submission (host smtp.test.com, port 587, recipient user@test.com) show which two messages go out when the relay accepts every call.

One ordering consequence is worth stating. `CreateConfirmationEmail` parses `EmailUsername` as an address before `SendEmailMessage` checks it. So when the address parser rejects a blank user name, as MimeKit's parser does, the parser's exception is what surfaces. "EmailUsername configuration is missing" never does (`DeliveryTraces.UsernameParsedBeforeChecked`).

Closing the connection can hide a send error. `Disconnect(true)` runs in a `finally` block (`EmailService.cs`, lines 101-104), so an exception it throws replaces the one from `Send`. `Delivery.Session` states this.

## Model

| member | source | states |
|---|---|---|
| Delivery.NewEmailService | Services/EmailService/EmailService.cs:10-13 | a missing configuration throws `ArgumentNullException("config")`, and a present configuration with a missing logger throws `ArgumentNullException("logger")`; construction succeeds exactly when both are present, and the service keeps the configuration it was given |
| Compose.ConfirmationEmail | Services/EmailService/EmailService.cs:38-52 | the user name is parsed first and its rejection is the error; then the submitter's address, whose rejection is the error; success exactly when both parse; the sender is the parsed user name, the recipient the parsed submitter address, the subject "Thank you for your message", and the body is the fixed acknowledgement paragraph, which contains "Thank you for your email" |
| Compose.BusinessEmail | Services/EmailService/EmailService.cs:55-73 | composition fails exactly when the user name does not parse, with the parser's error; on success the sender and recipient are both the parsed user name, the subject is "New message from " followed by the contact name, and the body is the filled template, which contains the heading, the contact name, the submitter's address and the message text |
| Compose.BusinessBodyContents | Services/EmailService/EmailService.cs:65-69 | the business HTML contains "New contact form submission", the contact name, the submitter's address and the message text verbatim, and it ends with the message text followed by `</p>` |
| Validation.ValidateSettings | Services/EmailService/EmailService.cs:80-92 | each of the four messages is produced if and only if its check is the first to fail (host blank; host fine but port rejected; host and port fine but user name blank; all before fine but password blank); success exactly when all pass, and the settings then carry the configured host, user name and password and the parsed port, which is positive |
| Validation.PortAcceptedRender | Services/EmailService/EmailService.cs:87-88 | a port written as a decimal integer is accepted exactly when it lies in 1 .. 2^31-1, so zero, negatives and values that do not fit an `int` are all "Invalid Port configuration" |
| Validation.ValidateMatchesTable | Services/EmailService/EmailService.cs:85-92 | validation agrees with the table of checks taken in the order `SendEmailMessage` makes them: it succeeds exactly when no check fails, and otherwise fails with the message of the first failing check |
| Validation.FirstFailureDecides | Services/EmailService/EmailService.cs:85-92 | the first failing check alone decides the outcome: any configuration that agrees on the keys up to that check fails the same way, whatever its later keys hold |
| Int32Text.ParseInt32 | Services/EmailService/EmailService.cs:87 | `int.TryParse` fails on null text, and any value it yields fits in a signed 32-bit integer |
| Int32Text.ParseRender | Services/EmailService/EmailService.cs:87 | parsing the decimal rendering of any integer gives the integer back exactly when it fits in 32 bits, and fails otherwise (no wrap-around) |
| Int32Text.ParsePaddingInsensitive | Services/EmailService/EmailService.cs:87 | white space before and after the port text does not change what `int.TryParse` reads |
| Int32Text.ParseSignedDigits | Services/EmailService/EmailService.cs:87 | any text made of white space, an optional `+` or `-`, one or more decimal digits and white space is read as the signed value of the digits when that fits in 32 bits, and rejected otherwise |
| Int32Text.ParseInt32Accepted | Services/EmailService/EmailService.cs:87 | conversely, every text `int.TryParse` accepts is exactly leading white space, an optional sign, one or more digits and trailing white space, and the value read is the signed value of those digits; so text with any other character, or with no digit, is "Invalid Port configuration" |
| Int32Text.ParseInt32AcceptedShape | Services/EmailService/EmailService.cs:87 | the same for a text alone: every text `int.TryParse` accepts splits at some positions into white space, a sign that is empty, "+" or "-", one or more digits and white space, and the value read is the signed value of those digits |
| Delivery.Session | Services/EmailService/EmailService.cs:94-104 | the calls follow Connect, Authenticate, Send, Disconnect and stop after Connect or Authenticate if that call throws (whose exception is the outcome); once Connect and Authenticate return, both Send and Disconnect are issued, and the outcome is Disconnect's exception if it throws and otherwise Send's answer |
| Delivery.SendMessage | Services/EmailService/EmailService.cs:76-104 | an invalid configuration throws its validation message with no SMTP call; a valid one runs the session with the validated settings |
| Delivery.AttemptIsSendMessage | Services/EmailService/EmailService.cs:24-28 | each send the `try` block makes, run by `Sequence` over the validated settings, is exactly `SendEmailMessage` on the service's configuration |
| Delivery.Sequence | Services/EmailService/EmailService.cs:20-29 | the trace of the `try` block starts by composing the acknowledgement and contains no log entry |
| Delivery.Deliver | Services/EmailService/EmailService.cs:20-29 | the `try` block is `Sequence` applied to `ConfirmationEmail`, `BusinessEmail` and `ValidateSettings` over one configuration: its trace starts by composing the acknowledgement and logs nothing; a failure to compose the acknowledgement, or else an invalid configuration, ends it right after that first event with that exception; and it returns normally only with a valid configuration and a composable business copy |
| Delivery.SendEmail | Services/EmailService/EmailService.cs:16-35 | a null request throws `ArgumentNullException("request")` with an empty trace; otherwise the exception of the `try` block is rethrown unchanged (and a normal return stays normal), and the trace is the block's trace followed, on failure only, by one log entry carrying the submitter's address and that exception |
| Delivery.LoggedOnlyOnFailure | Services/EmailService/EmailService.cs:30-34 | a failed call's last event is the log entry for the submitter with the rethrown exception and no earlier event is a log entry; a call that returns normally logs nothing |
| DeliveryTraces.AttemptSends | Services/EmailService/EmailService.cs:94-104 | a send attempt hands its message to the relay exactly when the session runs to the end, and hands over nothing else |
| DeliveryTraces.SendEmailBracketed | Services/EmailService/EmailService.cs:94-104 | across a whole `SendEmail` call, every Authenticate directly follows a Connect, every Send directly follows Connect and Authenticate and is directly followed by Disconnect, and every Disconnect directly follows a Send |
| DeliveryTraces.SequenceOrder | Services/EmailService/EmailService.cs:22-28 | the business copy is composed if and only if the acknowledgement was composed and its `SendEmailMessage` returned normally, with Connect, Authenticate, Send and Disconnect all returning; in that case the first session is complete before the copy is composed; otherwise the block fails having handed the relay nothing or only the acknowledgement |
| DeliveryTraces.DisconnectFailureStopsCopy | Services/EmailService/EmailService.cs:94-104 | when the relay accepts Connect, Authenticate and Send for the acknowledgement but throws on Disconnect, the acknowledgement has been handed over, yet the `finally` rethrows the Disconnect error, so the business copy (lines 24-27) is never composed and the block fails with that error |
| DeliveryTraces.SequenceSuccess | Services/EmailService/EmailService.cs:22-28 | a block that returns normally ran two complete sessions, the acknowledgement's and then the copy's, and handed the relay exactly those two messages in that order |
| DeliveryTraces.LoggingAddsNoTraffic | Services/EmailService/EmailService.cs:30-34 | the `try` block's trace is a prefix of the call's trace, everything after it is a log entry, and the same messages reach the relay |
| DeliveryTraces.BusinessCopyOnlyAfterConfirmation | Services/EmailService/EmailService.cs:16-34 | the `SequenceOrder` properties hold for the whole `SendEmail` call, including its catch-and-log |
| DeliveryTraces.SuccessSendsBothInOrder | Services/EmailService/EmailService.cs:16-29 | a `SendEmail` call that returns normally had a valid configuration and both messages composed, and its trace is exactly the two complete sessions, acknowledgement first |
| DeliveryTraces.InvalidConfigurationNeverConnects | Services/EmailService/EmailService.cs:85-94 | with an invalid configuration no SMTP call is ever made; if the acknowledgement can be composed, the validation exception is logged for the submitter and thrown |
| DeliveryTraces.UsernameParsedBeforeChecked | Services/EmailService/EmailService.cs:42 | when the address parser rejects the configured user name, its exception is logged and thrown before any configuration check or SMTP call |
| DeliveryTraces.MissingHostReported | Tests/Services/EmailService/EmailServiceTests.cs:38-52 | with a blank host and addresses the parser accepts, `SendEmail` logs and throws "EmailHost configuration is missing" after composing only the acknowledgement |
| DeliveryTraces.AcceptingRelayDeliversBoth | Services/EmailService/EmailService.cs:16-29 | with a valid configuration, addresses the parser accepts and a relay that accepts every call, `SendEmail` returns normally after handing over the acknowledgement and then the business copy |
| DeliveryTraces.TestConfigValid | Tests/Services/EmailService/EmailServiceTests.cs:19-25 | the unit tests' configuration (host smtp.test.com, port 587, user test@test.com, password) passes every check |
| DeliveryTraces.TestConfirmation | Tests/Services/EmailService/EmailServiceTests.cs:94-116 | the acknowledgement for the test submission is addressed to user@test.com and has the subject "Thank you for your message" |
| DeliveryTraces.TestBusinessCopy | Tests/Services/EmailService/EmailServiceTests.cs:118-137 | the business copy for the test submission goes to test@test.com, has the subject "New message from User" and contains "Hello" in its body |
| DeliveryTraces.UnitTestScenario | Tests/Services/EmailService/EmailServiceTests.cs:19-44 | the test configuration and submission, against a relay that accepts everything, send exactly two messages: the acknowledgement to user@test.com, then the copy to test@test.com with subject "New message from User" and "Hello" in its body |

## Left out

- MailKit's `SmtpClient` is left out: its network I/O, the TLS negotiation and its timeouts. The relay is an oracle parameter that answers each call.
- Disposal of the client by `using var smtp` is not an event of the trace. It makes no protocol call beyond the Disconnect that is modelled.
- MimeKit's address grammar is left out. `MailboxAddress.Parse` is a parameter that may accept or reject any text. `DeliveryTraces.LenientParser` is only a stand-in for the scenario lemmas.
- MIME encoding of the composed message is left out: headers, `TextPart` and transfer encoding. A message is its sender, recipient, subject and HTML text.
- The logger's message formatting and the exception object it is handed are left out. A log entry records the recipient and the error.
- `SendEmailMessage` reads the configuration on every send, so a provider that changes between the two sends of one submission could give different answers. The model reads one configuration per service.
- Delivery.Sequence: its contract states only how the trace starts and that it logs nothing. The order of the two sends is stated by `DeliveryTraces.SequenceOrder` and `DeliveryTraces.SequenceSuccess`.
- Int32Text.ParseInt32: its contract states only the null case and the 32-bit range. What it reads is stated by two lemmas that together characterise it. `Int32Text.ParseSignedDigits` shows that white space, an optional sign, digits and white space are read as their signed value when it fits. `Int32Text.ParseInt32Accepted` shows that every accepted text has exactly that form.
- `int.TryParse` culture details are left out:
  - Signs are the invariant culture's `+` and `-`.
  - Trailing NUL characters are not accepted.
  - Culture-specific sign strings are not modelled.
- The business template's line breaks are LF and its indentation is 20 spaces, as written in `EmailService.cs`. A checkout with CRLF endings would embed CRLF instead.
- `Program.cs` (host setup), `EmailController` (the HTTP endpoint) and the `[Required]` attributes on `EmailDto` are left out. They lie outside the service.
- The unit test that calls `SendEmailMessage` through reflection with a blank host is covered by `Validation.ValidateSettings` and `Delivery.SendMessage` rather than by a lemma of its own.
