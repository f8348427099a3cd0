/** The values the email service works on: its configuration, the contact
    form request, composed messages and the exceptions it can raise. */
module EmailModel {
  import opened Wrappers

  /** The four configuration keys the service reads, each `None` when the
      `IConfiguration` indexer returns null: `EmailHost`, `Port`,
      `EmailUsername` and `EmailPassword`. */
  datatype Config = Config(
    host: Option<string>,
    port: Option<string>,
    username: Option<string>,
    password: Option<string>)

  /** The contact form submission (`EmailDto`). */
  datatype EmailRequest = EmailRequest(to: string, contactName: string, body: string)

  /** A mailbox address as the address parser returns it. */
  datatype Mailbox = Mailbox(name: string, address: string)

  /** A composed MIME message with a single sender, a single recipient and
      an HTML body part. */
  datatype Message = Message(from: Mailbox, to: Mailbox, subject: string, htmlBody: string)

  /** Exceptions that reach the caller.  `LibraryError` stands for whatever
      the address parser or the SMTP client throws. */
  datatype Error =
    | ArgumentNull(paramName: string)
    | InvalidOperation(message: string)
    | LibraryError(exceptionType: string, message: string)

  /** `MailboxAddress.Parse`, left abstract: it may accept any text, and it
      throws an exception of its own choosing when it rejects one. */
  type AddressParser = Option<string> -> Result<Mailbox, Error>
}
