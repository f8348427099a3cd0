/** The two messages the service builds for each submission: the
    acknowledgement to the submitter and the copy for the business mailbox. */
module Compose {
  import opened Wrappers
  import opened Text
  import opened EmailModel

  const ConfirmationSubject := "Thank you for your message"
  const Acknowledgement := "Thank you for your email"
  const ConfirmationBody := "<p>" + Acknowledgement + ". We will get in touch with you shortly.</p>"
  const BusinessSubjectPrefix := "New message from "
  const Heading := "New contact form submission"

  /** A line break followed by the 20 spaces of indentation that the
      verbatim template string carries on each of its lines. */
  const Indent := "\n                    "

  /** The fixed text between the holes of the business template. */
  const BeforeHeading := Indent + "<h2>"
  const BeforeName := "</h2>" + Indent + "<p><strong>From:</strong> "
  const BeforeAddress := " ("
  const BeforeText := ")</p>" + Indent + "<p><strong>Message:</strong></p>" + Indent + "<p>"
  const AfterText := "</p>"

  /** The HTML of the business copy; names and text are inserted without
      any escaping. */
  function BusinessBody(req: EmailRequest): string {
    BeforeHeading + Heading + BeforeName + req.contactName + BeforeAddress + req.to + BeforeText + req.body + AfterText
  }

  /** Every hole of a template made of fixed pieces `a`..`e` around the
      holes `h`, `n`, `t`, `m` shows up verbatim in the filled template, and
      the last hole with its closing piece ends it. */
  lemma TemplateHoles(a: string, h: string, b: string, n: string, c: string,
                      t: string, d: string, m: string, e: string)
    ensures var s := a + h + b + n + c + t + d + m + e;
            && IsInfix(h, s) && IsInfix(n, s) && IsInfix(t, s) && IsInfix(m, s)
            && |m + e| <= |s| && s[|s| - |m + e|..] == m + e
  {
    var front := a + h + b + n + c;
    var back := t + d + m + e;
    assert a + h + b + n + c + t + d + m + e == front + back;
    FrontHoles(a, h, b, n, c, back);
    BackHoles(front, t, d, m, e);
  }

  lemma FrontHoles(a: string, h: string, b: string, n: string, c: string, rest: string)
    ensures IsInfix(h, a + h + b + n + c + rest) && IsInfix(n, a + h + b + n + c + rest)
  {
    assert a + h + b + n + c + rest == a + h + (b + n + c + rest);
    InfixOfConcat(a, h, b + n + c + rest);
    assert a + h + b + n + c + rest == (a + h + b) + n + (c + rest);
    InfixOfConcat(a + h + b, n, c + rest);
  }

  lemma BackHoles(front: string, t: string, d: string, m: string, e: string)
    ensures var s := front + (t + d + m + e);
            && IsInfix(t, s) && IsInfix(m, s)
            && |m + e| <= |s| && s[|s| - |m + e|..] == m + e
  {
    var s := front + (t + d + m + e);
    assert s == front + t + (d + m + e);
    InfixOfConcat(front, t, d + m + e);
    assert s == (front + t + d) + m + e;
    InfixOfConcat(front + t + d, m, e);
    assert s == (front + t + d) + (m + e);
  }

  /** The business copy names the submission, the contact and the
      submitter's address, and ends with the message text unchanged. */
  lemma BusinessBodyContents(req: EmailRequest)
    ensures IsInfix("New contact form submission", BusinessBody(req))
    ensures IsInfix(req.contactName, BusinessBody(req))
    ensures IsInfix(req.to, BusinessBody(req))
    ensures IsInfix(req.body, BusinessBody(req))
    ensures var b := BusinessBody(req); var tail := req.body + "</p>";
            |tail| <= |b| && b[|b| - |tail|..] == tail
  {
    TemplateHoles(BeforeHeading, Heading, BeforeName, req.contactName, BeforeAddress,
                  req.to, BeforeText, req.body, AfterText);
  }

  /** `CreateConfirmationEmail`: the sender is the configured user name and
      the recipient the submitter, each through the address parser, sender
      first. */
  function ConfirmationEmail(c: Config, req: EmailRequest, parse: AddressParser): (r: Result<Message, Error>)
    ensures parse(c.username).Failure? ==> r == Failure(parse(c.username).error)
    ensures parse(c.username).Success? && parse(Some(req.to)).Failure?
            ==> r == Failure(parse(Some(req.to)).error)
    ensures r.Success? <==> parse(c.username).Success? && parse(Some(req.to)).Success?
    ensures r.Success? ==>
              && r.value.from == parse(c.username).value
              && r.value.to == parse(Some(req.to)).value
              && r.value.subject == "Thank you for your message"
              && r.value.htmlBody == ConfirmationBody
              && IsInfix("Thank you for your email", r.value.htmlBody)
  {
    var from :- parse(c.username);
    var to :- parse(Some(req.to));
    InfixOfConcat("<p>", Acknowledgement, ". We will get in touch with you shortly.</p>");
    Success(Message(from, to, ConfirmationSubject, ConfirmationBody))
  }

  /** `CreateBusinessEmail`: sent from and to the configured user name,
      with the contact's name in the subject and the whole submission in
      the body. */
  function BusinessEmail(c: Config, req: EmailRequest, parse: AddressParser): (r: Result<Message, Error>)
    ensures r.Success? <==> parse(c.username).Success?
    ensures r.Failure? ==> r.error == parse(c.username).error
    ensures r.Success? ==>
              && r.value.from == parse(c.username).value
              && r.value.to == r.value.from
              && |BusinessSubjectPrefix| <= |r.value.subject|
              && r.value.subject[..|BusinessSubjectPrefix|] == "New message from "
              && r.value.subject[|BusinessSubjectPrefix|..] == req.contactName
              && r.value.htmlBody == BusinessBody(req)
              && IsInfix("New contact form submission", r.value.htmlBody)
              && IsInfix(req.contactName, r.value.htmlBody)
              && IsInfix(req.to, r.value.htmlBody)
              && IsInfix(req.body, r.value.htmlBody)
  {
    // `CreateBusinessEmail` parses the user name once for the sender and once
    // for the recipient; the parser is a function, so both calls give one
    // mailbox.
    var mailbox :- parse(c.username);
    BusinessBodyContents(req);
    Success(Message(mailbox, mailbox, BusinessSubjectPrefix + req.contactName, BusinessBody(req)))
  }
}
