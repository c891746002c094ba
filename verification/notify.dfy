/** Receivers and senders of scheduler/src/jobs/notify.py. SMTP and HTTP
  are an effect log; how a session or a request ends is an input. */
module Notify {
  import opened Wrappers
  import opened Seqs

  datatype Receiver = Receiver(email: Option<string>, phoneNumber: Option<string>, httpServer: Option<string>)

  datatype Sender =
    | EmailSender(smtpServer: string, port: int, address: string, password: string)
    | HttpRequestSender

  /** The class attribute `type` of each sender. */
  function TypeName(s: Sender): string {
    if s.EmailSender? then "email" else "http_server"
  }

  /** `getattr(receiver, name)` for the receiver's three fields. */
  function Attribute(r: Receiver, name: string): Option<string> {
    if name == "email" then r.email
    else if name == "phone_number" then r.phoneNumber
    else if name == "http_server" then r.httpServer
    else None
  }

  /** A field is usable when it is set and truthy (not the empty string). */
  predicate Present(field: Option<string>) {
    field.Some? && field.value != ""
  }

  /** `Receiver.validate_necessary_info(sender)`. */
  function Validate(r: Receiver, s: Sender): (res: Result<Unit>)
    ensures res.Ok? <==> Present(if s.EmailSender? then r.email else r.httpServer)
    ensures res.Raise? ==> res.exc == Exc("ValueError", TypeName(s) + " 정보가 없습니다.")
  {
    if Present(Attribute(r, TypeName(s))) then Ok(Unit)
    else ValueError(TypeName(s) + " 정보가 없습니다.")
  }

  /** A message: a dict of strings, or `None`. */
  type Message = Option<map<string, string>>

  /** The MIME message built for one email. */
  datatype Mail = Mail(subject: string, from: string, to: string, content: string)

  datatype Effect =
    | Connect(host: string, port: int)
    | StartTls
    | Login(user: string, password: string)
    | SendMail(from: string, to: string, mail: Mail)
    | Quit
    | Post(url: string, params: Message)

  /** How the SMTP session ends: all steps done, or an exception after the
      given number of completed steps of connect, STARTTLS, login, `sendmail`
      and the closing `QUIT`. */
  datatype SmtpSession = Completes | FailsAfter(steps: nat, exc: Exc)

  /** The session got past `sendmail`: the mail is out, whatever `QUIT`
      answers. */
  predicate Delivers(smtp: SmtpSession) {
    smtp.Completes? || smtp.steps >= 4
  }

  /** How the POST ends: a response with a status, or a transport failure. */
  datatype HttpOutcome = Responds(status: int) | RequestFails(reason: string)

  /** A send's value or exception, and the effects it had. */
  datatype Sent<T> = Sent(result: Result<T>, log: seq<Effect>)

  predicate IsSendMail(e: Effect) { e.SendMail? }

  /** The `sendmail` calls in a log. */
  function Mails(log: seq<Effect>): seq<Effect> {
    Filter(log, IsSendMail)
  }

  /** `EmailSender.send`: validate, read content and subject, then one SMTP
      session of connect, STARTTLS, login and a single `sendmail`. Leaving
      the `with` block sends `QUIT` once connected, on success and failure
      alike, and a `QUIT` answered with anything but 221 raises after the
      mail has gone out. */
  function EmailSend(s: Sender, message: Message, r: Receiver, smtp: SmtpSession): (out: Sent<Unit>)
    requires s.EmailSender?
    ensures !Present(r.email) ==> out.result == Validate(r, s) && out.log == []
    ensures out.result.Ok? <==>
      Present(r.email) && message.Some? && "content" in message.value && "subject" in message.value && smtp.Completes?
    ensures Present(r.email) && message.Some? && "content" in message.value && "subject" in message.value ==>
      (Delivers(smtp) <==> Mails(out.log) == [SendMail(s.address, r.email.value,
        Mail(message.value["subject"], s.address, r.email.value, message.value["content"]))])
      && (smtp.FailsAfter? ==> out.result == Raise(smtp.exc))
      && ((smtp.FailsAfter? && smtp.steps > 0) || smtp.Completes? ==> out.log != [] && out.log[|out.log| - 1] == Quit)
    ensures !Delivers(smtp) ==> Mails(out.log) == []
  {
    var v := Validate(r, s);
    if v.Raise? then Sent(Raise(v.exc), [])
    else if message.None? then Sent(TypeError("'NoneType' object is not subscriptable"), [])
    else if "content" !in message.value then Sent(KeyError("content"), [])
    else if "subject" !in message.value then Sent(KeyError("subject"), [])
    else
      var to := r.email.value;
      var mail := Mail(message.value["subject"], s.address, to, message.value["content"]);
      var session := [Connect(s.smtpServer, s.port), StartTls, Login(s.address, s.password), SendMail(s.address, to, mail)];
      MailsOfSession(session);
      match smtp
      case Completes => Sent(Ok(Unit), session + [Quit])
      case FailsAfter(n, e) =>
        if n == 0 then Sent(Raise(e), [])
        else
          var done := if n < 4 then n else 4;
          assert session[..4] == session;
          Sent(Raise(e), session[..done] + [Quit])
  }

  lemma MailsCons(e: Effect, rest: seq<Effect>)
    ensures Mails([e] + rest) == (if e.SendMail? then [e] else []) + Mails(rest)
  {
    assert ([e] + rest)[0] == e;
    assert ([e] + rest)[1..] == rest;
  }

  /** Only the last step before `QUIT` sends mail. */
  lemma MailsOfSession(session: seq<Effect>)
    requires |session| == 4 && !session[0].SendMail? && !session[1].SendMail? && !session[2].SendMail? && session[3].SendMail?
    ensures Mails(session + [Quit]) == [session[3]]
    ensures forall n | 0 <= n <= 3 :: Mails(session[..n] + [Quit]) == []
  {
    forall n | 0 <= n <= 3 ensures Mails(session[..n] + [Quit]) == [] {
      FilterEmpty(session[..n] + [Quit], IsSendMail);
    }
    assert session + [Quit] == session[..3] + [session[3], Quit];
    FilterConcat(session[..3], [session[3], Quit], IsSendMail);
    FilterEmpty(session[..3], IsSendMail);
    MailsCons(session[3], [Quit]);
    MailsCons(Quit, []);
  }

  /** `requests.Response.raise_for_status` raises for client and server
      error statuses. */
  predicate ErrorStatus(status: int) {
    400 <= status < 600
  }

  /** `HttpRequestSender.send`: validation raises; afterwards one POST, and
      every request failure is turned into `None`. */
  function HttpSend(message: Message, r: Receiver, http: HttpOutcome): (out: Sent<Option<int>>)
    ensures !Present(r.httpServer) <==> out.result.Raise?
    ensures out.result.Raise? ==> out.result.exc == Validate(r, HttpRequestSender).exc && out.log == []
    ensures out.result.Ok? ==> out.log == [Post(r.httpServer.value, message)]
    ensures out.result.Ok? ==> (out.result.value.Some? <==> http.Responds? && !ErrorStatus(http.status))
    ensures out.result.Ok? && out.result.value.Some? ==> out.result.value.value == http.status
  {
    var v := Validate(r, HttpRequestSender);
    if v.Raise? then Sent(Raise(v.exc), [])
    else
      var log := [Post(r.httpServer.value, message)];
      match http
      case Responds(status) => Sent(Ok(if ErrorStatus(status) then None else Some(status)), log)
      case RequestFails(_) => Sent(Ok(None), log)
  }

  /** `Notifier.send`: one call of the sender's own `send` with the message
      and receiver unchanged; its return value is dropped. */
  function NotifierSend(s: Sender, message: Message, r: Receiver, smtp: SmtpSession, http: HttpOutcome): (out: Sent<Unit>)
    ensures Validate(r, s).Raise? ==> out == Sent(Validate(r, s), [])
    ensures s.HttpRequestSender? ==> (out.result.Ok? <==> Validate(r, s).Ok?)
    ensures s.HttpRequestSender? && out.result.Ok? ==> out.log == [Post(r.httpServer.value, message)]
    ensures s.EmailSender? ==> out == EmailSend(s, message, r, smtp)
    ensures forall e | e in out.log && e.SendMail? :: s.EmailSender? && e.to == r.email.value
  {
    match s
    case EmailSender(_, _, _, _) => EmailSend(s, message, r, smtp)
    case HttpRequestSender =>
      var sent := HttpSend(message, r, http);
      Sent(if sent.result.Raise? then Raise(sent.result.exc) else Ok(Unit), sent.log)
  }
}
