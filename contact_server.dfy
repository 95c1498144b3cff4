/**
 * The mail relay behind the contact form: the SMTP transport created once at
 * start-up from environment values, the health probe that reports whether
 * it exists, and the `POST /api/contact` handler.
 *
 * The environment is a map from names to values (a name that is not a key is
 * unset). Creating the transport, verifying it and sending mail are calls
 * into the mail library; they are inputs here: whether creation and
 * verification succeed, and what a send returns.
 */
module ContactServer {
  import opened JsText

  type Env = map<string, string>

  datatype Result<T> = Ok(value: T) | Err(message: string)

  /** `process.env[k]` */
  function EnvValue(env: Env, k: string): Option<string> {
    if k in env then Some(env[k]) else None
  }

  /** `must(k)`: the value of a set, non-empty variable, else an error that names it. */
  function Must(env: Env, k: string): (r: Result<string>)
    ensures r.Ok? <==> k in env && env[k] != ""
    ensures r.Ok? ==> r.value == env[k]
    ensures r.Err? ==> r.message == "Missing required env: " + k
  {
    var v := EnvValue(env, k);
    if !Truthy(v) then Err("Missing required env: " + k) else Ok(v.value)
  }

  /** The options handed to `createTransport`. `port` is the text before `Number(...)`. */
  datatype TransportOptions = TransportOptions(host: string, port: string, secure: bool, user: string, pass: string)

  /** The variables `must` is called on, in the order the options object evaluates them. */
  const RequiredKeys: seq<string> := ["SMTP_HOST", "SMTP_PORT", "SMTP_SECURE", "SMTP_USER", "SMTP_PASS"]

  predicate Missing(env: Env, k: string) {
    k !in env || env[k] == ""
  }

  /** The options object: each `must` in turn, the first failure ending the construction. */
  function TransportOptionsFrom(env: Env): Result<TransportOptions> {
    match Must(env, "SMTP_HOST")
    case Err(m) => Err(m)
    case Ok(host) =>
      match Must(env, "SMTP_PORT")
      case Err(m) => Err(m)
      case Ok(port) =>
        match Must(env, "SMTP_SECURE")
        case Err(m) => Err(m)
        case Ok(secure) =>
          match Must(env, "SMTP_USER")
          case Err(m) => Err(m)
          case Ok(user) =>
            match Must(env, "SMTP_PASS")
            case Err(m) => Err(m)
            case Ok(pass) => Ok(TransportOptions(host, port, secure == "true", user, pass))
  }

  /**
   * The options are built exactly when every required variable is set and
   * non-empty; otherwise the error names the first missing one. `secure` is
   * true exactly when `SMTP_SECURE` is the string `true`, and the other
   * options are the variables' values.
   */
  lemma TransportOptionsSpec(env: Env)
    ensures TransportOptionsFrom(env).Ok? <==> forall i :: 0 <= i < |RequiredKeys| ==> !Missing(env, RequiredKeys[i])
    ensures TransportOptionsFrom(env).Err? ==>
              exists i :: 0 <= i < |RequiredKeys| && Missing(env, RequiredKeys[i])
                && (forall j :: 0 <= j < i ==> !Missing(env, RequiredKeys[j]))
                && TransportOptionsFrom(env).message == "Missing required env: " + RequiredKeys[i]
    ensures TransportOptionsFrom(env).Ok? ==>
              var o := TransportOptionsFrom(env).value;
              o.host == env["SMTP_HOST"] && o.port == env["SMTP_PORT"] && o.user == env["SMTP_USER"]
              && o.pass == env["SMTP_PASS"] && (o.secure <==> env["SMTP_SECURE"] == "true")
  {
    var r := TransportOptionsFrom(env);
    if Missing(env, "SMTP_HOST") {
      assert Missing(env, RequiredKeys[0]);
    } else if Missing(env, "SMTP_PORT") {
      assert Missing(env, RequiredKeys[1]) && !Missing(env, RequiredKeys[0]);
    } else if Missing(env, "SMTP_SECURE") {
      assert Missing(env, RequiredKeys[2]);
      assert forall j :: 0 <= j < 2 ==> !Missing(env, RequiredKeys[j]);
    } else if Missing(env, "SMTP_USER") {
      assert Missing(env, RequiredKeys[3]);
      assert forall j :: 0 <= j < 3 ==> !Missing(env, RequiredKeys[j]);
    } else if Missing(env, "SMTP_PASS") {
      assert Missing(env, RequiredKeys[4]);
      assert forall j :: 0 <= j < 4 ==> !Missing(env, RequiredKeys[j]);
    } else {
      assert forall i :: 0 <= i < |RequiredKeys| ==> !Missing(env, RequiredKeys[i]);
    }
  }

  /** The mail library's transport object, identified by the options it was created with. */
  datatype Transport = Transport(options: TransportOptions)

  /** What the start-up `catch` block caught, if anything. */
  datatype SetupFailure = MissingEnv(message: string) | CreateFailed | VerifyFailed

  /** One submission: each field is absent or a string. */
  datatype ContactBody = ContactBody(name: Option<string>, email: Option<string>, subject: Option<string>, message: Option<string>)

  /** What `sendMail` does with the message: delivers it under an id, or throws. */
  datatype SendResult = Delivered(messageId: string) | SendFailed

  datatype MailMessage = MailMessage(from: Option<string>, to: Option<string>, replyTo: string, subject: string, text: string)

  datatype ReplyBody = Sent(id: string) | Failure(error: string)

  datatype Reply = Reply(status: nat, body: ReplyBody)

  /** The response, and the message handed to `sendMail` if the handler got that far. */
  datatype Exchange = Exchange(reply: Reply, mail: Option<MailMessage>)

  /** `!name || !email || !subject || !message` is false, on `req.body || {}`. */
  predicate HasAllFields(body: Option<ContactBody>) {
    body.Some? && Truthy(body.value.name) && Truthy(body.value.email)
    && Truthy(body.value.subject) && Truthy(body.value.message)
  }

  /** The plain-text body of the relayed mail. */
  function MailText(name: string, email: string, message: string): string {
    "Name: " + name + "\nEmail: " + email + "\n\n" + message
  }

  /** The message the handler sends for a complete submission. */
  function ContactMail(env: Env, b: ContactBody): MailMessage
    requires Truthy(b.name) && Truthy(b.email) && Truthy(b.message)
  {
    MailMessage(
      OrElseOpt(EnvValue(env, "SMTP_FROM"), EnvValue(env, "SMTP_USER")),
      OrElseOpt(EnvValue(env, "CONTACT_RECIPIENT"), EnvValue(env, "SMTP_USER")),
      b.email.value,
      OrElse(b.subject, "New message from " + b.name.value),
      MailText(b.name.value, b.email.value, b.message.value))
  }

  /**
   * The `POST /api/contact` handler: missing fields are rejected with 400
   * before readiness is looked at, a missing transport gives 503 before any
   * send, and the send decides between 200 and 500.
   */
  function HandleContact(body: Option<ContactBody>, ready: bool, env: Env, send: SendResult): (x: Exchange)
    ensures x.mail.Some? <==> HasAllFields(body) && ready
    ensures x.reply.status == 400 <==> !HasAllFields(body)
    ensures x.reply.status == 400 ==> x.reply.body == Failure("Missing required fields")
    ensures x.reply.status == 503 <==> HasAllFields(body) && !ready
    ensures x.reply.status == 503 ==> x.reply.body == Failure("Mail transport not ready")
    ensures x.reply.status == 200 <==> HasAllFields(body) && ready && send.Delivered?
    ensures x.reply.status == 200 ==> x.reply.body == Sent(send.messageId)
    ensures x.reply.status == 500 <==> HasAllFields(body) && ready && send.SendFailed?
    ensures x.reply.status == 500 ==> x.reply.body == Failure("Failed to send email")
    ensures x.reply.status in {200, 400, 500, 503}
  {
    if !HasAllFields(body) then
      Exchange(Reply(400, Failure("Missing required fields")), None)
    else if !ready then
      Exchange(Reply(503, Failure("Mail transport not ready")), None)
    else
      var mail := ContactMail(env, body.value);
      match send
      case Delivered(id) => Exchange(Reply(200, Sent(id)), Some(mail))
      case SendFailed => Exchange(Reply(500, Failure("Failed to send email")), Some(mail))
  }

  /**
   * A sent message replies to the submitter, carries the submitted subject
   * (the fallback subject can never be chosen, as the subject is required),
   * and its text is the name, the address and the message in the fixed layout.
   * The sender is `SMTP_FROM` unless that is unset or empty, then `SMTP_USER`;
   * the recipient likewise falls back from `CONTACT_RECIPIENT` to `SMTP_USER`.
   */
  lemma SentMailContents(body: Option<ContactBody>, ready: bool, env: Env, send: SendResult)
    requires HandleContact(body, ready, env, send).mail.Some?
    ensures var m := HandleContact(body, ready, env, send).mail.value;
            var b := body.value;
            m.replyTo == b.email.value && m.subject == b.subject.value
            && m.text == "Name: " + b.name.value + "\nEmail: " + b.email.value + "\n\n" + b.message.value
            && m.from == (if Truthy(EnvValue(env, "SMTP_FROM")) then EnvValue(env, "SMTP_FROM") else EnvValue(env, "SMTP_USER"))
            && m.to == (if Truthy(EnvValue(env, "CONTACT_RECIPIENT")) then EnvValue(env, "CONTACT_RECIPIENT") else EnvValue(env, "SMTP_USER"))
  {
  }

  /** The first position of `c` in `s`. */
  function IndexOf(s: string, c: char): (r: Option<nat>)
    ensures r.Some? ==> r.value < |s| && s[r.value] == c && c !in s[..r.value]
    ensures r.None? ==> c !in s
  {
    if s == [] then None
    else if s[0] == c then Some(0)
    else match IndexOf(s[1..], c)
      case None => None
      case Some(i) => (assert s[..i + 1] == [s[0]] + s[1..][..i]; Some(i + 1))
  }

  lemma IndexOfAfter(a: string, c: char, b: string)
    requires c !in a
    ensures IndexOf(a + [c] + b, c) == Some(|a|)
  {
    assert (a + [c] + b)[|a|] == c;
  }

  /** Reads `heading`, then a line up to the next line break; gives the line and what follows the break. */
  function ReadLine(heading: string, s: string): Option<(string, string)> {
    if !StartsWith(s, heading) then None
    else
      var after := s[|heading|..];
      match IndexOf(after, '\n')
      case None => None
      case Some(i) => Some((after[..i], after[i + 1..]))
  }

  lemma ReadLineOf(heading: string, line: string, rest: string)
    requires '\n' !in line
    ensures ReadLine(heading, heading + line + "\n" + rest) == Some((line, rest))
  {
    var s := heading + line + "\n" + rest;
    assert s[..|heading|] == heading;
    var after := s[|heading|..];
    assert after == line + ['\n'] + rest;
    IndexOfAfter(line, '\n', rest);
    assert after[..|line|] == line && after[|line| + 1..] == rest;
  }

  /** Reads name, address and message back out of a mail text. */
  function ParseMailText(text: string): Option<(string, string, string)> {
    match ReadLine("Name: ", text)
    case None => None
    case Some((name, afterName)) =>
      match ReadLine("Email: ", afterName)
      case None => None
      case Some((email, afterEmail)) =>
        if !StartsWith(afterEmail, "\n") then None else Some((name, email, afterEmail[1..]))
  }

  /**
   * When the name and address hold no line break, the mail text determines
   * all three fields: the recipient can always tell them apart.
   */
  lemma ParseMailTextInverse(name: string, email: string, message: string)
    requires '\n' !in name && '\n' !in email
    ensures ParseMailText(MailText(name, email, message)) == Some((name, email, message))
  {
    var afterEmail := "\n" + message;
    var afterName := "Email: " + email + "\n" + afterEmail;
    assert MailText(name, email, message) == "Name: " + name + "\n" + afterName;
    ReadLineOf("Name: ", name, afterName);
    ReadLineOf("Email: ", email, afterEmail);
    assert afterEmail[1..] == message;
  }

  /** The server process: the transport variable set at start-up, and the environment. */
  class MailServer {
    const env: Env
    var transporter: Option<Transport>
    var setupFailure: Option<SetupFailure>

    /** The transport is set exactly when start-up failed at no step, or only at verification. */
    predicate Valid()
      reads this
    {
      transporter.Some? <==> setupFailure.None? || setupFailure == Some(VerifyFailed)
    }

    /**
     * Start-up: the options are built, the transport is created and stored,
     * then verified. A failure in `must` or in `createTransport` leaves the
     * transport unset; a failed verification is caught after the transport
     * is stored, so it stays set.
     */
    constructor (env: Env, createSucceeds: bool, verifySucceeds: bool)
      ensures Valid() && this.env == env
      ensures transporter.Some? <==> TransportOptionsFrom(env).Ok? && createSucceeds
      ensures transporter.Some? ==> transporter.value.options == TransportOptionsFrom(env).value
      ensures setupFailure == (
                if TransportOptionsFrom(env).Err? then Some(MissingEnv(TransportOptionsFrom(env).message))
                else if !createSucceeds then Some(CreateFailed)
                else if !verifySucceeds then Some(VerifyFailed)
                else None)
    {
      this.env := env;
      transporter := None;
      setupFailure := None;
      var options := TransportOptionsFrom(env);
      if options.Err? {
        setupFailure := Some(MissingEnv(options.message));
      } else if !createSucceeds {
        setupFailure := Some(CreateFailed);
      } else {
        transporter := Some(Transport(options.value));
        if !verifySucceeds {
          setupFailure := Some(VerifyFailed);
        }
      }
    }

    /** `GET /health`: `smtpReady` is whether the transport is set. */
    method Health() returns (smtpReady: bool)
      requires Valid()
      ensures smtpReady <==> transporter.Some?
      ensures setupFailure == Some(VerifyFailed) ==> smtpReady
      ensures setupFailure.Some? && setupFailure != Some(VerifyFailed) ==> !smtpReady
    {
      smtpReady := transporter.Some?;
    }

    /** `POST /api/contact` against this server's transport and environment. */
    method Contact(body: Option<ContactBody>, send: SendResult) returns (x: Exchange)
      ensures x == HandleContact(body, transporter.Some?, env, send)
    {
      x := HandleContact(body, transporter.Some?, env, send);
    }
  }
}
