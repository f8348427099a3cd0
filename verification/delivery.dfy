/** `EmailService` itself: construction, the SMTP session that sends one
    message (`SendEmailMessage`) and the delivery of a submission as an
    acknowledgement followed by a business copy (`SendEmail`).  Construction
    returns a `Result`; every sending operation is a pure function that
    returns the trace of what happened and how it ended.  The SMTP relay is
    an oracle that answers each call given everything that happened before
    it. */
module Delivery {
  import opened Wrappers
  import opened EmailModel
  import opened Validation
  import opened Compose

  datatype MessageKind = Confirmation | Business

  /** The SMTP client calls of one session. `Connect` negotiates STARTTLS. */
  datatype SmtpCall =
    | Connect(host: string, port: int)
    | Authenticate(username: string, password: string)
    | Send(message: Message)
    | Disconnect(quit: bool)

  /** What the service does, in order: start composing a message, issue an
      SMTP call (whatever its answer), or log an error for a recipient. */
  datatype Event =
    | Composing(kind: MessageKind)
    | Smtp(call: SmtpCall)
    | Logged(recipient: string, error: Error)

  /** The relay: given the events so far and the next call, whether the call
      returns normally or throws. */
  type Network = (seq<Event>, SmtpCall) -> Outcome<Error>

  /** The events an operation produced and how it ended. */
  datatype Run = Run(events: seq<Event>, outcome: Outcome<Error>)

  datatype Logger = Logger

  /** A constructed service; it keeps the configuration it reads on every
      send.  Logging is recorded in the trace. */
  datatype EmailService = EmailService(config: Config)

  /** The primary constructor: both collaborators must be present. */
  function NewEmailService(config: Option<Config>, logger: Option<Logger>): (r: Result<EmailService, Error>)
    ensures config.None? ==> r == Failure(ArgumentNull("config"))
    ensures config.Some? && logger.None? ==> r == Failure(ArgumentNull("logger"))
    ensures r.Success? <==> config.Some? && logger.Some?
    ensures r.Success? ==> r.value.config == config.value
  {
    if config.None? then Failure(ArgumentNull("config"))
    else if logger.None? then Failure(ArgumentNull("logger"))
    else Success(EmailService(config.value))
  }

  predicate IsConnect(e: Event) {
    e.Smtp? && e.call.Connect?
  }

  predicate IsAuthenticate(e: Event) {
    e.Smtp? && e.call.Authenticate?
  }

  predicate IsSend(e: Event) {
    e.Smtp? && e.call.Send?
  }

  predicate IsDisconnect(e: Event) {
    e.Smtp? && e.call.Disconnect?
  }

  /** The complete conversation with the relay for one message. */
  function Script(st: Settings, msg: Message): seq<Event> {
    [Smtp(Connect(st.host, st.port)), Smtp(Authenticate(st.username, st.password)),
     Smtp(Send(msg)), Smtp(Disconnect(true))]
  }

  /** The relay's answer to the `i`-th call of a session that began after
      `history`. */
  function Answer(net: Network, history: seq<Event>, events: seq<Event>, i: nat): Outcome<Error>
    requires i < |events| && events[i].Smtp?
  {
    net(history + events[..i], events[i].call)
  }

  /** The connection phase of `SendEmailMessage`, once the settings are
      valid: a prefix of `Script` that stops at the first of Connect or
      Authenticate that throws, and never separates Send from Disconnect. */
  function Session(st: Settings, msg: Message, net: Network, history: seq<Event>): (r: Run)
    ensures |r.events| == 1 || |r.events| == 2 || |r.events| == 4
    ensures r.events == Script(st, msg)[..|r.events|]
    ensures |r.events| >= 2 ==> Answer(net, history, r.events, 0).Pass?
    ensures |r.events| == 4 ==> Answer(net, history, r.events, 1).Pass?
    ensures |r.events| < 4 ==> r.outcome.Fail? && r.outcome == Answer(net, history, r.events, |r.events| - 1)
    ensures |r.events| == 4 ==>
              r.outcome == if Answer(net, history, r.events, 3).Fail? then Answer(net, history, r.events, 3)
                           else Answer(net, history, r.events, 2)
  {
    var script := Script(st, msg);
    var connected := net(history, script[0].call);
    assert history + script[..0] == history;
    if connected.Fail? then Run(script[..1], connected)
    else
      var authenticated := net(history + script[..1], script[1].call);
      assert script[..2][..1] == script[..1];
      if authenticated.Fail? then Run(script[..2], authenticated)
      else
        var sent := net(history + script[..2], script[2].call);
        // `finally` disconnects whether or not Send threw; an exception
        // thrown by Disconnect replaces the one from Send.
        var closed := net(history + script[..3], script[3].call);
        assert script[..4] == script && script[..2] == script[..4][..2] && script[..3] == script[..4][..3];
        Run(script, if closed.Fail? then closed else sent)
  }

  /** A send attempt given the outcome of the configuration checks: their
      exception ends it before any SMTP call; valid settings run a session. */
  function Attempt(settings: Result<Settings, Error>, msg: Message, net: Network, history: seq<Event>): Run {
    match settings
    case Failure(e) => Run([], Fail(e))
    case Success(st) => Session(st, msg, net, history)
  }

  /** `SendEmailMessage`: the configuration is checked first, and an invalid
      one throws its validation message with no SMTP call made. */
  function SendMessage(c: Config, msg: Message, net: Network, history: seq<Event>): (r: Run)
    ensures ValidateSettings(c).Failure? ==> r == Run([], Fail(ValidateSettings(c).error))
    ensures ValidateSettings(c).Success? ==> r == Session(ValidateSettings(c).value, msg, net, history)
  {
    Attempt(ValidateSettings(c), msg, net, history)
  }

  /** Each send `Sequence` makes over the validated settings is exactly
      `SendEmailMessage` on the service's configuration. */
  lemma AttemptIsSendMessage(c: Config, msg: Message, net: Network, history: seq<Event>)
    ensures Attempt(ValidateSettings(c), msg, net, history) == SendMessage(c, msg, net, history)
  {
  }

  /** No event of the trace is a log entry. */
  predicate Unlogged(events: seq<Event>) {
    forall i :: 0 <= i < |events| ==> !events[i].Logged?
  }

  lemma AttemptUnlogged(settings: Result<Settings, Error>, msg: Message, net: Network, history: seq<Event>)
    ensures Unlogged(Attempt(settings, msg, net, history).events)
  {
    if settings.Success? {
      var events := Session(settings.value, msg, net, history).events;
      forall i | 0 <= i < |events|
        ensures !events[i].Logged?
      {
        assert events[i] == Script(settings.value, msg)[i];
      }
    }
  }

  lemma UnloggedConcat(a: seq<Event>, b: seq<Event>)
    requires Unlogged(a) && Unlogged(b)
    ensures Unlogged(a + b)
  {
    forall i | 0 <= i < |a + b|
      ensures !(a + b)[i].Logged?
    {
      if i >= |a| {
        assert (a + b)[i] == b[i - |a|];
      }
    }
  }

  /** The two sends of `SendEmail`, given the two composed messages and the
      outcome of the configuration checks (the configuration is the same
      for both sends).  The business copy is looked at, and its composition
      recorded, only once the acknowledgement has gone out; the first
      exception ends the sequence.  Nothing in it logs. */
  function Sequence(confirmation: Result<Message, Error>, copy: Result<Message, Error>,
                    settings: Result<Settings, Error>, net: Network): (r: Run)
    ensures |r.events| > 0 && r.events[0] == Composing(Confirmation)
    ensures Unlogged(r.events)
  {
    var composing := [Composing(Confirmation)];
    match confirmation
    case Failure(e) => Run(composing, Fail(e))
    case Success(m) =>
      var first := Attempt(settings, m, net, composing);
      var afterFirst := composing + first.events;
      AttemptUnlogged(settings, m, net, composing);
      UnloggedConcat(composing, first.events);
      if first.outcome.Fail? then Run(afterFirst, first.outcome)
      else
        var composingCopy := afterFirst + [Composing(Business)];
        UnloggedConcat(afterFirst, [Composing(Business)]);
        match copy
        case Failure(e) => Run(composingCopy, Fail(e))
        case Success(m') =>
          var second := Attempt(settings, m', net, composingCopy);
          AttemptUnlogged(settings, m', net, composingCopy);
          UnloggedConcat(composingCopy, second.events);
          Run(composingCopy + second.events, second.outcome)
  }

  /** The body of the `try` block of `SendEmail`: compose and send the
      acknowledgement, then compose and send the business copy.  Composing
      is pure, so building the business copy up front changes nothing:
      `Sequence` only uses it after the acknowledgement has been sent. */
  function Deliver(c: Config, req: EmailRequest, parse: AddressParser, net: Network): (r: Run)
    ensures |r.events| > 0 && r.events[0] == Composing(Confirmation) && Unlogged(r.events)
    ensures ConfirmationEmail(c, req, parse).Failure? ==>
              r == Run([Composing(Confirmation)], Fail(ConfirmationEmail(c, req, parse).error))
    ensures ConfirmationEmail(c, req, parse).Success? && ValidateSettings(c).Failure? ==>
              r == Run([Composing(Confirmation)], Fail(ValidateSettings(c).error))
    ensures r.outcome.Pass? ==> ValidateSettings(c).Success? && BusinessEmail(c, req, parse).Success?
  {
    Sequence(ConfirmationEmail(c, req, parse), BusinessEmail(c, req, parse), ValidateSettings(c), net)
  }

  /** `SendEmail`.  A null request throws before anything else happens;
      any later exception is logged once, with the submitter's address, as
      the last event, and re-thrown unchanged. */
  function SendEmail(svc: EmailService, request: Option<EmailRequest>, parse: AddressParser, net: Network): (r: Run)
    ensures request.None? ==> r == Run([], Fail(ArgumentNull("request")))
    ensures request.Some? ==>
              var d := Deliver(svc.config, request.value, parse, net);
              && r.outcome == d.outcome
              && r.events == d.events + (if d.outcome.Fail? then [Logged(request.value.to, d.outcome.error)] else [])
  {
    match request
    case None => Run([], Fail(ArgumentNull("request")))
    case Some(req) =>
      var attempt := Deliver(svc.config, req, parse, net);
      if attempt.outcome.Fail? then Run(attempt.events + [Logged(req.to, attempt.outcome.error)], attempt.outcome)
      else attempt
  }

  /** The catch block logs exactly once and only on failure: a failed call's
      last event is the log entry for the submitter with the rethrown
      exception and no earlier event is a log entry; a call that returns
      normally logs nothing. */
  lemma LoggedOnlyOnFailure(svc: EmailService, req: EmailRequest, parse: AddressParser, net: Network)
    ensures var r := SendEmail(svc, Some(req), parse, net);
            && (r.outcome.Fail? ==>
                  && |r.events| > 0 && r.events[|r.events| - 1] == Logged(req.to, r.outcome.error)
                  && Unlogged(r.events[..|r.events| - 1]))
            && (r.outcome.Pass? ==> Unlogged(r.events))
  {
    var d := Deliver(svc.config, req, parse, net);
    if d.outcome.Fail? {
      assert (d.events + [Logged(req.to, d.outcome.error)])[..|d.events|] == d.events;
    }
  }
}

/** Properties of whole `SendEmail` traces: how SMTP sessions are bracketed,
    which messages reach the relay and in what order, and what an early
    failure leaves out. */
module DeliveryTraces {
  import opened Wrappers
  import opened Text
  import opened EmailModel
  import opened Validation
  import opened Compose
  import opened Delivery
  import Int32Text

  /** Every Authenticate directly follows a Connect, every Send directly
      follows Connect and Authenticate and is directly followed by a
      Disconnect, and every Disconnect directly follows a Send. */
  predicate Bracketed(events: seq<Event>) {
    forall i :: 0 <= i < |events| ==> BracketedAt(events, i)
  }

  /** The neighbours the `i`-th event needs are in place. */
  predicate BracketedAt(events: seq<Event>, i: int)
    requires 0 <= i < |events|
  {
    && (IsAuthenticate(events[i]) ==> 1 <= i && IsConnect(events[i - 1]))
    && (IsSend(events[i]) ==>
          && 2 <= i < |events| - 1
          && IsConnect(events[i - 2]) && IsAuthenticate(events[i - 1]) && IsDisconnect(events[i + 1]))
    && (IsDisconnect(events[i]) ==> 1 <= i && IsSend(events[i - 1]))
  }

  lemma BracketedConcat(a: seq<Event>, b: seq<Event>)
    requires Bracketed(a) && Bracketed(b)
    ensures Bracketed(a + b)
  {
    var s := a + b;
    forall i | 0 <= i < |s|
      ensures BracketedAt(s, i)
    {
      if i >= |a| {
        var j := i - |a|;
        assert BracketedAt(b, j);
        assert s[i] == b[j];
        if j >= 1 {
          assert s[i - 1] == b[j - 1];
        }
        if j >= 2 {
          assert s[i - 2] == b[j - 2];
        }
        if j + 1 < |b| {
          assert s[i + 1] == b[j + 1];
        }
      } else {
        assert BracketedAt(a, i);
        assert s[i] == a[i];
        if i >= 1 {
          assert s[i - 1] == a[i - 1];
        }
        if i >= 2 {
          assert s[i - 2] == a[i - 2];
        }
        if i + 1 < |a| {
          assert s[i + 1] == a[i + 1];
        }
      }
    }
  }

  lemma AttemptBracketed(settings: Result<Settings, Error>, msg: Message, net: Network, history: seq<Event>)
    ensures Bracketed(Attempt(settings, msg, net, history).events)
  {
    if settings.Success? {
      var events := Session(settings.value, msg, net, history).events;
      var script := Script(settings.value, msg);
      forall i | 0 <= i < |events|
        ensures BracketedAt(events, i)
      {
        assert events[i] == script[i];
        if i == 2 {
          assert |events| == 4;
          assert events[3] == script[3] && events[1] == script[1] && events[0] == script[0];
        } else if i == 3 {
          assert events[2] == script[2];
        } else if i == 1 {
          assert events[0] == script[0];
        }
      }
    }
  }

  lemma SingletonBracketed(e: Event)
    requires !e.Smtp?
    ensures Bracketed([e])
  {
  }

  lemma SequenceBracketed(confirmation: Result<Message, Error>, copy: Result<Message, Error>,
                          settings: Result<Settings, Error>, net: Network)
    ensures Bracketed(Sequence(confirmation, copy, settings, net).events)
  {
    var composing := [Composing(Confirmation)];
    var r := Sequence(confirmation, copy, settings, net);
    SingletonBracketed(Composing(Confirmation));
    if confirmation.Success? {
      var first := Attempt(settings, confirmation.value, net, composing);
      AttemptBracketed(settings, confirmation.value, net, composing);
      BracketedConcat(composing, first.events);
      if first.outcome.Pass? {
        var composingCopy := composing + first.events + [Composing(Business)];
        SingletonBracketed(Composing(Business));
        BracketedConcat(composing + first.events, [Composing(Business)]);
        if copy.Success? {
          var second := Attempt(settings, copy.value, net, composingCopy);
          AttemptBracketed(settings, copy.value, net, composingCopy);
          BracketedConcat(composingCopy, second.events);
          assert r.events == composingCopy + second.events;
        } else {
          assert r.events == composingCopy;
        }
      } else {
        assert r.events == composing + first.events;
      }
    } else {
      assert r.events == composing;
    }
  }

  /** Across a whole `SendEmail` call, Disconnect wraps exactly the Sends,
      and a Send only ever happens on a connected, authenticated client. */
  lemma SendEmailBracketed(svc: EmailService, request: Option<EmailRequest>, parse: AddressParser, net: Network)
    ensures Bracketed(SendEmail(svc, request, parse, net).events)
  {
    if request.Some? {
      var c := svc.config;
      var req := request.value;
      var d := Deliver(c, req, parse, net);
      SequenceBracketed(ConfirmationEmail(c, req, parse), BusinessEmail(c, req, parse), ValidateSettings(c), net);
      if d.outcome.Fail? {
        SingletonBracketed(Logged(req.to, d.outcome.error));
        BracketedConcat(d.events, [Logged(req.to, d.outcome.error)]);
      }
    }
  }

  /** The messages handed to the relay, in the order they were sent. */
  function SentMessages(events: seq<Event>): seq<Message> {
    if |events| == 0 then []
    else SentBy(events[0]) + SentMessages(events[1..])
  }

  /** The message a single event hands to the relay, if any. */
  function SentBy(e: Event): seq<Message> {
    if IsSend(e) then [e.call.message] else []
  }

  lemma {:induction false} SentMessagesConcat(a: seq<Event>, b: seq<Event>)
    ensures SentMessages(a + b) == SentMessages(a) + SentMessages(b)
  {
    if |a| == 0 {
      assert a + b == b;
    } else {
      assert (a + b)[0] == a[0];
      assert (a + b)[1..] == a[1..] + b;
      SentMessagesConcat(a[1..], b);
      calc {
        SentMessages(a + b);
        SentBy(a[0]) + SentMessages(a[1..] + b);
        SentBy(a[0]) + (SentMessages(a[1..]) + SentMessages(b));
        (SentBy(a[0]) + SentMessages(a[1..])) + SentMessages(b);
        SentMessages(a) + SentMessages(b);
      }
    }
  }

  lemma SentSingle(e: Event)
    ensures SentMessages([e]) == SentBy(e)
  {
    assert [e][1..] == [];
  }

  /** A send attempt hands its message to the relay exactly when its
      session runs to the end, and never anything else. */
  lemma AttemptSends(settings: Result<Settings, Error>, msg: Message, net: Network, history: seq<Event>)
    ensures var r := Attempt(settings, msg, net, history);
            SentMessages(r.events) == if |r.events| == 4 then [msg] else []
  {
    if settings.Success? {
      var events := Session(settings.value, msg, net, history).events;
      var script := Script(settings.value, msg);
      SentSingle(script[0]);
      SentSingle(script[1]);
      SentSingle(script[2]);
      SentSingle(script[3]);
      if |events| == 1 {
        assert events == [script[0]];
      } else if |events| == 2 {
        assert events == [script[0]] + [script[1]];
        SentMessagesConcat([script[0]], [script[1]]);
      } else {
        assert events == [script[0]] + [script[1]] + [script[2]] + [script[3]];
        SentMessagesConcat([script[0]], [script[1]]);
        SentMessagesConcat([script[0]] + [script[1]], [script[2]]);
        SentMessagesConcat([script[0]] + [script[1]] + [script[2]], [script[3]]);
      }
    }
  }

  /** The acknowledgement was composed and its `SendEmailMessage` returned
      normally: Connect, Authenticate, Send and Disconnect all returned.  A
      Disconnect that throws after an accepted Send does not count, although
      the relay already has the acknowledgement. */
  predicate FirstSendReturned(confirmation: Result<Message, Error>, settings: Result<Settings, Error>, net: Network) {
    && confirmation.Success?
    && Attempt(settings, confirmation.value, net, [Composing(Confirmation)]).outcome.Pass?
  }

  /** The business copy is composed if and only if the acknowledgement's
      send returned normally, and then only after its whole session;
      otherwise the sequence fails having handed at most the acknowledgement
      to the relay. */
  lemma SequenceOrder(confirmation: Result<Message, Error>, copy: Result<Message, Error>,
                      settings: Result<Settings, Error>, net: Network)
    ensures var r := Sequence(confirmation, copy, settings, net);
            Composing(Business) in r.events <==> FirstSendReturned(confirmation, settings, net)
    ensures var r := Sequence(confirmation, copy, settings, net);
            FirstSendReturned(confirmation, settings, net) ==>
              && settings.Success?
              && |r.events| >= 6
              && r.events[..6] == [Composing(Confirmation)] + Script(settings.value, confirmation.value)
                                 + [Composing(Business)]
    ensures var r := Sequence(confirmation, copy, settings, net);
            !FirstSendReturned(confirmation, settings, net) ==>
              && r.outcome.Fail?
              && (|SentMessages(r.events)| == 0
                  || (confirmation.Success? && SentMessages(r.events) == [confirmation.value]))
  {
    var composing := [Composing(Confirmation)];
    var r := Sequence(confirmation, copy, settings, net);
    assert SentMessages(composing) == [] by { SentSingle(Composing(Confirmation)); }
    if confirmation.Failure? {
      assert r.events == composing;
    } else {
      var m := confirmation.value;
      var first := Attempt(settings, m, net, composing);
      assert forall i :: 0 <= i < |first.events| ==> first.events[i].Smtp? by {
        if settings.Success? {
          assert first.events == Script(settings.value, m)[..|first.events|];
        }
      }
      if first.outcome.Fail? {
        assert r.events == composing + first.events;
        assert Composing(Business) !in r.events;
        AttemptSends(settings, m, net, composing);
        SentMessagesConcat(composing, first.events);
      } else {
        var prefix := composing + first.events + [Composing(Business)];
        assert first.events == Script(settings.value, m);
        assert |prefix| == 6 && prefix[5] == Composing(Business);
        assert r.events[..6] == prefix;
      }
    }
  }

  /** A fully successful sequence follows the script for both messages and
      hands the relay exactly two messages: the acknowledgement, then the
      business copy. */
  lemma SequenceSuccess(confirmation: Result<Message, Error>, copy: Result<Message, Error>,
                        settings: Result<Settings, Error>, net: Network)
    requires Sequence(confirmation, copy, settings, net).outcome.Pass?
    ensures && confirmation.Success? && copy.Success? && settings.Success?
            && var events := Sequence(confirmation, copy, settings, net).events;
               && events == [Composing(Confirmation)] + Script(settings.value, confirmation.value)
                            + [Composing(Business)] + Script(settings.value, copy.value)
               && SentMessages(events) == [confirmation.value, copy.value]
  {
    var composing := [Composing(Confirmation)];
    var first := Attempt(settings, confirmation.value, net, composing);
    var composingCopy := composing + first.events + [Composing(Business)];
    var second := Attempt(settings, copy.value, net, composingCopy);
    AttemptSends(settings, confirmation.value, net, composing);
    AttemptSends(settings, copy.value, net, composingCopy);
    SentSingle(Composing(Confirmation));
    SentSingle(Composing(Business));
    SentMessagesConcat(composing, first.events);
    SentMessagesConcat(composing + first.events, [Composing(Business)]);
    SentMessagesConcat(composingCopy, second.events);
  }

  /** A relay that accepts the acknowledgement but fails its Disconnect: the
      acknowledgement has been handed over, yet `finally` rethrows the
      Disconnect failure, so the business copy is never composed and the
      sequence fails with that error. */
  lemma DisconnectFailureStopsCopy(m: Message, copy: Result<Message, Error>, st: Settings, net: Network)
    requires var h := [Composing(Confirmation)];
             var script := Script(st, m);
             && net(h, script[0].call).Pass?
             && net(h + script[..1], script[1].call).Pass?
             && net(h + script[..2], script[2].call).Pass?
             && net(h + script[..3], script[3].call).Fail?
    ensures var r := Sequence(Success(m), copy, Success(st), net);
            var h := [Composing(Confirmation)];
            var script := Script(st, m);
            && SentMessages(r.events) == [m]
            && Composing(Business) !in r.events
            && r.outcome == net(h + script[..3], script[3].call)
  {
    var h := [Composing(Confirmation)];
    var first := Attempt(Success(st), m, net, h);
    assert first.events == Script(st, m);
    assert !FirstSendReturned(Success(m), Success(st), net);
    SequenceOrder(Success(m), copy, Success(st), net);
    AttemptSends(Success(st), m, net, h);
    SentSingle(Composing(Confirmation));
    SentMessagesConcat(h, first.events);
  }

  /** Through `SendEmail`: the business copy is composed if and only if the
      acknowledgement was composed and its send returned normally, and only
      after its whole session; otherwise the call fails having handed at
      most the acknowledgement to the relay. */
  lemma BusinessCopyOnlyAfterConfirmation(svc: EmailService, req: EmailRequest, parse: AddressParser, net: Network)
    ensures var c := svc.config;
            var confirmation := ConfirmationEmail(c, req, parse);
            var r := SendEmail(svc, Some(req), parse, net);
            && (Composing(Business) in r.events <==> FirstSendReturned(confirmation, ValidateSettings(c), net))
            && (FirstSendReturned(confirmation, ValidateSettings(c), net) ==>
                  r.events[..6] == [Composing(Confirmation)] + Script(ValidateSettings(c).value, confirmation.value)
                                   + [Composing(Business)])
            && (!FirstSendReturned(confirmation, ValidateSettings(c), net) ==>
                  && r.outcome.Fail?
                  && (|SentMessages(r.events)| == 0
                      || (confirmation.Success? && SentMessages(r.events) == [confirmation.value])))
  {
    var c := svc.config;
    var confirmation := ConfirmationEmail(c, req, parse);
    SequenceOrder(confirmation, BusinessEmail(c, req, parse), ValidateSettings(c), net);
    LoggingAddsNoTraffic(svc, req, parse, net);
  }

  /** The log entry `SendEmail` adds after the `try` block is neither a
      composition nor a send: the trace of the block is a prefix of the
      whole trace and the same messages reach the relay. */
  lemma LoggingAddsNoTraffic(svc: EmailService, req: EmailRequest, parse: AddressParser, net: Network)
    ensures var d := Deliver(svc.config, req, parse, net);
            var r := SendEmail(svc, Some(req), parse, net);
            && |d.events| <= |r.events| && r.events[..|d.events|] == d.events
            && (forall i :: |d.events| <= i < |r.events| ==> r.events[i].Logged?)
            && SentMessages(r.events) == SentMessages(d.events)
  {
    var d := Deliver(svc.config, req, parse, net);
    var r := SendEmail(svc, Some(req), parse, net);
    if d.outcome.Fail? {
      var log := Logged(req.to, d.outcome.error);
      assert r.events == d.events + [log];
      SentSingle(log);
      SentMessagesConcat(d.events, [log]);
    }
  }

  /** Through `SendEmail`: a fully successful call hands the relay exactly
      two messages, the acknowledgement and then the business copy, each
      in a complete connect, authenticate, send, disconnect session. */
  lemma SuccessSendsBothInOrder(svc: EmailService, req: EmailRequest, parse: AddressParser, net: Network)
    ensures var c := svc.config;
            SendEmail(svc, Some(req), parse, net).outcome.Pass? ==>
            && ValidateSettings(c).Success?
            && ConfirmationEmail(c, req, parse).Success?
            && BusinessEmail(c, req, parse).Success?
            && var st := ValidateSettings(c).value;
               var confirmation := ConfirmationEmail(c, req, parse).value;
               var copy := BusinessEmail(c, req, parse).value;
               var events := SendEmail(svc, Some(req), parse, net).events;
               && events == [Composing(Confirmation)] + Script(st, confirmation)
                            + [Composing(Business)] + Script(st, copy)
               && SentMessages(events) == [confirmation, copy]
  {
    var c := svc.config;
    if SendEmail(svc, Some(req), parse, net).outcome.Pass? {
      SequenceSuccess(ConfirmationEmail(c, req, parse), BusinessEmail(c, req, parse), ValidateSettings(c), net);
    }
  }

  /** An invalid configuration never reaches the relay: the trace holds no
      SMTP call at all, and once the acknowledgement is composed, the
      validation message is what is logged and thrown. */
  lemma InvalidConfigurationNeverConnects(svc: EmailService, req: EmailRequest, parse: AddressParser, net: Network)
    requires ValidateSettings(svc.config).Failure?
    ensures var r := SendEmail(svc, Some(req), parse, net);
            forall i :: 0 <= i < |r.events| ==> !r.events[i].Smtp?
    ensures var r := SendEmail(svc, Some(req), parse, net);
            var e := ValidateSettings(svc.config).error;
            ConfirmationEmail(svc.config, req, parse).Success? ==>
              r == Run([Composing(Confirmation), Logged(req.to, e)], Fail(e))
  {
  }

  /** The missing-host case the unit tests exercise: with addresses the
      parser accepts, a blank `EmailHost` is logged for the submitter and
      surfaces as "EmailHost configuration is missing". */
  lemma MissingHostReported(svc: EmailService, req: EmailRequest, parse: AddressParser, net: Network)
    requires IsNullOrWhiteSpace(svc.config.host)
    requires parse(svc.config.username).Success? && parse(Some(req.to)).Success?
    ensures var e := InvalidOperation("EmailHost configuration is missing");
            SendEmail(svc, Some(req), parse, net) == Run([Composing(Confirmation), Logged(req.to, e)], Fail(e))
  {
    InvalidConfigurationNeverConnects(svc, req, parse, net);
  }

  /** The user name goes through the address parser before it is checked:
      when the parser rejects it, its exception is what is logged and
      thrown, before any configuration check or SMTP call. */
  lemma UsernameParsedBeforeChecked(svc: EmailService, req: EmailRequest, parse: AddressParser, net: Network)
    requires parse(svc.config.username).Failure?
    ensures var e := parse(svc.config.username).error;
            SendEmail(svc, Some(req), parse, net) == Run([Composing(Confirmation), Logged(req.to, e)], Fail(e))
  {
  }

  /** An address parser that accepts any non-blank text as a bare address. */
  function LenientParser(s: Option<string>): Result<Mailbox, Error> {
    match s
    case None => Failure(ArgumentNull("text"))
    case Some(t) =>
      if IsNullOrWhiteSpace(s) then Failure(LibraryError("ParseException", "No address found"))
      else Success(Mailbox("", t))
  }

  lemma LenientAccepts(t: string)
    requires |t| > 0 && !IsWhiteSpace(t[0])
    ensures LenientParser(Some(t)) == Success(Mailbox("", t))
  {
  }

  /** A relay that accepts every call. */
  function AcceptingRelay(history: seq<Event>, call: SmtpCall): Outcome<Error> {
    Pass
  }

  /** With a valid configuration, addresses the parser accepts and a relay
      that accepts every call, `SendEmail` succeeds and hands the relay the
      acknowledgement and then the business copy. */
  lemma AcceptingRelayDeliversBoth(svc: EmailService, req: EmailRequest, parse: AddressParser)
    requires ValidateSettings(svc.config).Success?
    requires parse(svc.config.username).Success? && parse(Some(req.to)).Success?
    ensures var r := SendEmail(svc, Some(req), parse, AcceptingRelay);
            && r.outcome.Pass?
            && SentMessages(r.events) == [ConfirmationEmail(svc.config, req, parse).value,
                                          BusinessEmail(svc.config, req, parse).value]
  {
    var cfg := svc.config;
    var settings := ValidateSettings(cfg);
    var confirmation := ConfirmationEmail(cfg, req, parse);
    var copy := BusinessEmail(cfg, req, parse);
    var composing := [Composing(Confirmation)];
    var first := Attempt(settings, confirmation.value, AcceptingRelay, composing);
    assert first.outcome.Pass?;
    var second := Attempt(settings, copy.value, AcceptingRelay, composing + first.events + [Composing(Business)]);
    assert second.outcome.Pass?;
    assert Sequence(confirmation, copy, settings, AcceptingRelay).outcome.Pass?;
    SuccessSendsBothInOrder(svc, req, parse, AcceptingRelay);
  }

  const TestConfig := Config(Some("smtp.test.com"), Some("587"), Some("test@test.com"), Some("password"))
  const TestRequest := EmailRequest("user@test.com", "User", "Hello")

  lemma TestConfigValid(cfg: Config)
    requires cfg == TestConfig
    ensures ValidateSettings(cfg).Success?
  {
    VisibleStart(cfg.host.value);
    VisibleStart(cfg.username.value);
    VisibleStart(cfg.password.value);
    TestPortAccepted(cfg.port);
  }

  lemma VisibleStart(t: string)
    requires |t| > 0 && !IsWhiteSpace(t[0])
    ensures !IsNullOrWhiteSpace(Some(t))
  {
  }

  lemma TestPortAccepted(port: Option<string>)
    requires port == Some("587")
    ensures PortAccepted(port)
  {
    assert Int32Text.Decimal(5) == "5";
    assert Int32Text.Decimal(58) == Int32Text.Decimal(5) + "8" == "58";
    assert Int32Text.Decimal(587) == Int32Text.Decimal(58) + "7" == "587";
    assert Int32Text.Render(587) == "587";
    PortAcceptedRender(587);
  }

  /** The acknowledgement composed for the unit tests' submission. */
  lemma TestConfirmation(c: Config, req: EmailRequest)
    requires c == TestConfig && req == TestRequest
    ensures var confirmation := ConfirmationEmail(c, req, LenientParser);
            && confirmation.Success?
            && confirmation.value.to == Mailbox("", "user@test.com")
            && confirmation.value.subject == "Thank you for your message"
  {
    LenientAccepts(c.username.value);
    LenientAccepts(req.to);
  }

  /** The business copy composed for the unit tests' submission. */
  lemma TestBusinessCopy(c: Config, req: EmailRequest)
    requires c == TestConfig && req == TestRequest
    ensures var copy := BusinessEmail(c, req, LenientParser);
            && copy.Success?
            && copy.value.to == Mailbox("", "test@test.com")
            && copy.value.subject == "New message from User"
            && IsInfix("Hello", copy.value.htmlBody)
  {
    LenientAccepts(c.username.value);
    assert BusinessEmail(c, req, LenientParser).value.subject == "New message from " + "User";
  }

  /** The submission and configuration of the unit tests, against a relay
      that accepts everything: two messages go out, the acknowledgement to
      the submitter and then the business copy to the configured mailbox. */
  lemma UnitTestScenario(svc: EmailService, req: EmailRequest)
    requires svc.config == TestConfig && req == TestRequest
    ensures var r := SendEmail(svc, Some(req), LenientParser, AcceptingRelay);
            var sent := SentMessages(r.events);
            && r.outcome.Pass?
            && |sent| == 2
            && sent[0].to == Mailbox("", "user@test.com")
            && sent[0].subject == "Thank you for your message"
            && sent[1].to == Mailbox("", "test@test.com")
            && sent[1].subject == "New message from User"
            && IsInfix("Hello", sent[1].htmlBody)
  {
    TestConfigValid(svc.config);
    TestConfirmation(svc.config, req);
    TestBusinessCopy(svc.config, req);
    AcceptingRelayDeliversBoth(svc, req, LenientParser);
  }
}
