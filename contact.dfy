/**
 * The contact-form endpoint (`POST /api/contact`): an ordered chain of
 * guard clauses over the JSON body, then composition of one e-mail and
 * classification of a failed send.
 *
 * The handler's effects are inputs here: the parsed body (or the error
 * `request.json()` threw), the two mail credentials read from the
 * environment, and what `sendMail` did with the composed message.
 */
module Contact {
  import opened Wrappers
  import opened Strings

  const Recipient := "dan.koryat@gmail.com"
  const SubjectPrefix := "Portfolio Contact: "

  const FieldsRequired := "All fields are required"
  const InvalidEmailFormat := "Invalid email format"
  const NotConfigured := "Email service not configured"
  const SentOk := "Message sent successfully!"
  const AuthFailed := "Email service authentication failed"
  const InvalidEmailAddress := "Invalid email address"
  const SendFailed := "Failed to send message. Please try again."

  /** The four fields of the JSON body; `None` is a missing (undefined or null) field. */
  datatype Submission = Submission(
    name: Option<string>,
    email: Option<string>,
    subject: Option<string>,
    message: Option<string>)

  /**
   * The body as the handler reads it: the four fields, or the message of the
   * `Error` thrown before the field checks, either by `request.json()` on a
   * body that is not JSON, or by the destructuring of a body that parsed to
   * `null` (a `TypeError`).
   */
  datatype Request = Json(body: Submission) | Malformed(failure: string)

  /** `EMAIL_USER` and `EMAIL_PASS` from the environment. */
  datatype MailConfig = MailConfig(user: Option<string>, pass: Option<string>)

  /** A value caught by the handler: an `Error` with its message, or anything else. */
  datatype Thrown = ErrorObject(message: string) | OtherValue

  /** What `sendMail` did with the composed message. */
  datatype Delivery = Delivered | Threw(thrown: Thrown)

  /** The `mailOptions` object handed to `sendMail`. */
  datatype Mail = Mail(from: string, to: string, subject: string, html: string)

  /** The JSON body of a reply: `{ error }` or `{ message }`. */
  datatype Payload = ErrorBody(error: string) | MessageBody(message: string)

  datatype Reply = Reply(status: int, payload: Payload)

  /** The reply, and the mail handed to `sendMail` if the handler got that far. */
  datatype Outcome = Outcome(reply: Reply, sent: Option<Mail>)

  /** JavaScript truthiness of a string field: present and non-empty. */
  predicate Present(field: Option<string>) {
    field.Some? && field.value != ""
  }

  predicate AllPresent(b: Submission) {
    Present(b.name) && Present(b.email) && Present(b.subject) && Present(b.message)
  }

  predicate Configured(config: MailConfig) {
    Present(config.user) && Present(config.pass)
  }

  // ---------------------------------------------------------------------
  // The e-mail pattern /^[^\s@]+@[^\s@]+\.[^\s@]+$/
  // ---------------------------------------------------------------------

  /** The characters the ECMAScript class `\s` matches (WhiteSpace and LineTerminator). */
  predicate IsSpace(c: char) {
    || c == '\t' || c == '\n' || c == '\U{000B}' || c == '\U{000C}' || c == '\r'
    || c == ' ' || c == '\U{00A0}' || c == '\U{1680}'
    || ('\U{2000}' <= c <= '\U{200A}')
    || c == '\U{2028}' || c == '\U{2029}' || c == '\U{202F}' || c == '\U{205F}'
    || c == '\U{3000}' || c == '\U{FEFF}'
  }

  /** The class `[^\s@]`. */
  predicate Plain(c: char) {
    !IsSpace(c) && c != '@'
  }

  ghost predicate AllPlain(s: string) {
    forall i :: 0 <= i < |s| ==> Plain(s[i])
  }

  /** `s` splits as `a + "@" + b + "." + c` with `a`, `b`, `c` non-empty runs of `[^\s@]`. */
  ghost predicate EmailSplit(s: string, at: int, dot: int) {
    && 0 < at && at + 1 < dot && dot + 1 < |s|
    && s[at] == '@' && s[dot] == '.'
    && AllPlain(s[..at]) && AllPlain(s[at + 1..dot]) && AllPlain(s[dot + 1..])
  }

  /** The regular expression's language, as the set of strings that have such a split. */
  ghost predicate MatchesEmailPattern(s: string) {
    exists at, dot :: EmailSplit(s, at, dot)
  }

  /**
   * The character-level test the handler applies: exactly one `@`, not
   * first, no whitespace anywhere, and a `.` after the `@` with at least
   * one character on either side of it.
   */
  function IsValidEmail(s: string): bool {
    var at := IndexOf(s, '@');
    && 0 < at < |s|
    && (forall i | 0 <= i < at :: !IsSpace(s[i]))
    && (forall i | at < i < |s| :: Plain(s[i]))
    && (exists d | at + 1 < d < |s| - 1 :: s[d] == '.')
  }

  /** A slice is a run of `[^\s@]` exactly when each of its characters in `s` is. */
  lemma AllPlainSlice(s: string, lo: int, hi: int)
    requires 0 <= lo <= hi <= |s|
    ensures AllPlain(s[lo..hi]) <==> forall i | lo <= i < hi :: Plain(s[i])
  {
    if AllPlain(s[lo..hi]) {
      forall i | lo <= i < hi ensures Plain(s[i]) {
        assert s[lo..hi][i - lo] == s[i];
      }
    }
  }

  /** The character-level test accepts exactly the strings the pattern matches. */
  lemma EmailTestMatchesPattern(s: string)
    ensures IsValidEmail(s) <==> MatchesEmailPattern(s)
  {
    if IsValidEmail(s) {
      EmailTestSound(s);
    }
    if MatchesEmailPattern(s) {
      EmailTestComplete(s);
    }
  }

  lemma EmailTestSound(s: string)
    requires IsValidEmail(s)
    ensures MatchesEmailPattern(s)
  {
    var at := IndexOf(s, '@');
    var d :| at + 1 < d < |s| - 1 && s[d] == '.';
    AllPlainSlice(s, 0, at);
    AllPlainSlice(s, at + 1, d);
    AllPlainSlice(s, d + 1, |s|);
    assert s[..at] == s[0..at] && s[d + 1..] == s[d + 1..|s|];
    assert EmailSplit(s, at, d);
  }

  lemma EmailTestComplete(s: string)
    requires MatchesEmailPattern(s)
    ensures IsValidEmail(s)
  {
    var a, d :| EmailSplit(s, a, d);
    assert s[..a] == s[0..a] && s[d + 1..] == s[d + 1..|s|];
    AllPlainSlice(s, 0, a);
    AllPlainSlice(s, a + 1, d);
    AllPlainSlice(s, d + 1, |s|);
    assert IndexOf(s, '@') == a;
    assert forall i | a < i < |s| :: Plain(s[i]) by {
      forall i | a < i < |s| ensures Plain(s[i]) {
        if i == d {
          assert s[i] == '.';
        }
      }
    }
  }

  // ---------------------------------------------------------------------
  // Composition of the outgoing message
  // ---------------------------------------------------------------------

  /** `message.replace(/\n/g, "<br>")`. */
  function BreakLines(message: string): string {
    if |message| == 0 then ""
    else (if message[0] == '\n' then "<br>" else [message[0]]) + BreakLines(message[1..])
  }

  /** No newline of the message survives into the HTML. */
  lemma {:induction false} BreakLinesNoNewline(message: string)
    ensures '\n' !in BreakLines(message)
  {
    if |message| > 0 {
      BreakLinesNoNewline(message[1..]);
    }
  }

  /** The replacement is global: it acts on each part of a concatenation separately. */
  lemma {:induction false} BreakLinesAppend(a: string, b: string)
    ensures BreakLines(a + b) == BreakLines(a) + BreakLines(b)
  {
    if |a| > 0 {
      assert (a + b)[1..] == a[1..] + b;
      BreakLinesAppend(a[1..], b);
    } else {
      assert a + b == b;
    }
  }

  /** Text without a newline is carried over unchanged. */
  lemma {:induction false} BreakLinesKeepsText(s: string)
    requires '\n' !in s
    ensures BreakLines(s) == s
  {
    if |s| > 0 {
      assert s[0] != '\n';
      BreakLinesKeepsText(s[1..]);
    }
  }

  /** Each newline becomes exactly one `<br>`. */
  lemma BreakLinesAtNewline(a: string, b: string)
    ensures BreakLines(a + "\n" + b) == BreakLines(a) + "<br>" + BreakLines(b)
  {
    BreakLinesAppend(a + "\n", b);
    BreakLinesAppend(a, "\n");
  }

  /** The HTML grows by three characters per newline. */
  lemma {:induction false} BreakLinesLength(message: string)
    ensures |BreakLines(message)| == |message| + 3 * Count(message, '\n')
  {
    if |message| > 0 {
      BreakLinesLength(message[1..]);
    }
  }

  /** The template before the name. */
  const HtmlHead := "\n        <h2>New Contact Form Submission</h2>\n        <p><strong>Name:</strong> "
  const HtmlEmail := "</p>\n        <p><strong>Email:</strong> "
  const HtmlSubject := "</p>\n        <p><strong>Subject:</strong> "
  const HtmlMessage := "</p>\n        <p><strong>Message:</strong></p>\n        <p>"
  const HtmlTail := "</p>\n      "

  /** The `html` template literal with the four fields interpolated. */
  function RenderHtml(name: string, email: string, subject: string, message: string): string {
    HtmlHead + name + HtmlEmail + email + HtmlSubject + subject + HtmlMessage + BreakLines(message) + HtmlTail
  }

  /** `mailOptions`: from the configured user, to the fixed recipient. */
  function Compose(user: string, name: string, email: string, subject: string, message: string): Mail {
    Mail(user, Recipient, SubjectPrefix + subject, RenderHtml(name, email, subject, message))
  }

  /**
   * The HTML carries name, email and subject unchanged at their places in
   * the template, and the message with every newline turned into `<br>`.
   */
  lemma RenderHtmlFields(name: string, email: string, subject: string, message: string)
    ensures var html := RenderHtml(name, email, subject, message);
      var n := |HtmlHead|;
      var e := n + |name| + |HtmlEmail|;
      var s := e + |email| + |HtmlSubject|;
      var m := s + |subject| + |HtmlMessage|;
      && OccursAt(html, name, n)
      && OccursAt(html, email, e)
      && OccursAt(html, subject, s)
      && OccursAt(html, BreakLines(message), m)
      && StartsWith(html, HtmlHead)
      && EndsWith(html, HtmlTail)
      && '\n' !in html[m..m + |BreakLines(message)|]
  {
    TemplatePlaces(HtmlHead, name, HtmlEmail, email, HtmlSubject, subject, HtmlMessage, BreakLines(message), HtmlTail);
    BreakLinesNoNewline(message);
  }

  /** The places of the four fields in any five-piece template. */
  lemma TemplatePlaces(t1: string, name: string, t2: string, email: string, t3: string,
                       subject: string, t4: string, body: string, t5: string)
    ensures var html := t1 + name + t2 + email + t3 + subject + t4 + body + t5;
      var e := |t1| + |name| + |t2|;
      var s := e + |email| + |t3|;
      var m := s + |subject| + |t4|;
      && OccursAt(html, name, |t1|)
      && OccursAt(html, email, e)
      && OccursAt(html, subject, s)
      && OccursAt(html, body, m)
      && StartsWith(html, t1)
      && EndsWith(html, t5)
  {
    var head2 := t1 + name + t2;
    var head3 := head2 + email + t3;
    var head4 := head3 + subject + t4;
    OccursBetween(t1, name, t2 + email + t3 + subject + t4 + body + t5);
    OccursBetween(head2, email, t3 + subject + t4 + body + t5);
    OccursBetween(head3, subject, t4 + body + t5);
    OccursBetween(head4, body, t5);
  }

  /** `x` occurs in `pre + x + post` right after `pre`. */
  lemma OccursBetween(pre: string, x: string, post: string)
    ensures OccursAt(pre + x + post, x, |pre|)
  {
    assert (pre + x + post)[|pre|..|pre| + |x|] == x;
  }

  // ---------------------------------------------------------------------
  // The handler
  // ---------------------------------------------------------------------

  /** The `catch` block: a thrown `Error` is classified by its message, "Invalid login" first. */
  function ClassifyThrown(t: Thrown): Reply {
    match t
    case ErrorObject(m) =>
      if Includes(m, "Invalid login") then Reply(500, ErrorBody(AuthFailed))
      else if Includes(m, "Invalid email") then Reply(400, ErrorBody(InvalidEmailAddress))
      else Reply(500, ErrorBody(SendFailed))
    case OtherValue => Reply(500, ErrorBody(SendFailed))
  }

  /** `POST /api/contact`. */
  function Post(request: Request, config: MailConfig, delivery: Delivery): Outcome {
    match request
    case Malformed(e) => Outcome(ClassifyThrown(ErrorObject(e)), None)
    case Json(b) =>
      if !AllPresent(b) then
        Outcome(Reply(400, ErrorBody(FieldsRequired)), None)
      else if !IsValidEmail(b.email.value) then
        Outcome(Reply(400, ErrorBody(InvalidEmailFormat)), None)
      else if !Configured(config) then
        Outcome(Reply(500, ErrorBody(NotConfigured)), None)
      else
        var mail := Compose(config.user.value, b.name.value, b.email.value, b.subject.value, b.message.value);
        var reply := match delivery
          case Delivered => Reply(200, MessageBody(SentOk))
          case Threw(t) => ClassifyThrown(t);
        Outcome(reply, Some(mail))
  }

  // ---------------------------------------------------------------------
  // Properties of the handler
  // ---------------------------------------------------------------------

  /** A missing or empty field, and only that, gives 400 "All fields are required", with nothing sent. */
  lemma MissingFieldRejected(b: Submission, config: MailConfig, delivery: Delivery)
    ensures var o := Post(Json(b), config, delivery);
      && (o.reply == Reply(400, ErrorBody(FieldsRequired)) <==> !AllPresent(b))
      && (!AllPresent(b) ==> o.sent == None)
  {
  }

  /**
   * With every field present, the e-mail is refused with 400 "Invalid email
   * format" exactly when it does not match the pattern; then nothing is sent.
   */
  lemma EmailFormatChecked(b: Submission, config: MailConfig, delivery: Delivery)
    requires AllPresent(b)
    ensures var o := Post(Json(b), config, delivery);
      && (o.reply == Reply(400, ErrorBody(InvalidEmailFormat)) <==> !MatchesEmailPattern(b.email.value))
      && (!MatchesEmailPattern(b.email.value) ==> o.sent == None)
  {
    EmailTestMatchesPattern(b.email.value);
  }

  /**
   * Once both field checks pass, a missing credential, and only that, gives
   * 500 "Email service not configured", with nothing sent.
   */
  lemma ConfigurationChecked(b: Submission, config: MailConfig, delivery: Delivery)
    requires AllPresent(b) && MatchesEmailPattern(b.email.value)
    ensures var o := Post(Json(b), config, delivery);
      && (o.reply == Reply(500, ErrorBody(NotConfigured)) <==> !Configured(config))
      && (!Configured(config) ==> o.sent == None)
  {
    EmailTestMatchesPattern(b.email.value);
  }

  /** A failed field check decides the reply: the credentials and the send outcome play no part. */
  lemma FieldChecksComeFirst(b: Submission, c1: MailConfig, c2: MailConfig, d1: Delivery, d2: Delivery)
    requires !AllPresent(b) || !MatchesEmailPattern(b.email.value)
    ensures Post(Json(b), c1, d1) == Post(Json(b), c2, d2)
  {
    if AllPresent(b) {
      EmailTestMatchesPattern(b.email.value);
    }
  }

  /** A mail is handed to `sendMail` exactly when every check passed. */
  lemma SentIffChecksPass(request: Request, config: MailConfig, delivery: Delivery)
    ensures Post(request, config, delivery).sent.Some? <==>
      && request.Json?
      && AllPresent(request.body)
      && MatchesEmailPattern(request.body.email.value)
      && Configured(config)
  {
    if request.Json? && AllPresent(request.body) {
      EmailTestMatchesPattern(request.body.email.value);
    }
  }

  /**
   * The mail handed to `sendMail`: from EMAIL_USER, to the fixed recipient,
   * subject "Portfolio Contact: " + subject, and an HTML body carrying the
   * fields with the message's newlines turned into `<br>`.
   */
  lemma ComposedMail(b: Submission, config: MailConfig, delivery: Delivery)
    requires Post(Json(b), config, delivery).sent.Some?
    ensures var mail := Post(Json(b), config, delivery).sent.value;
      && mail.from == config.user.value
      && mail.to == Recipient
      && mail.subject == SubjectPrefix + b.subject.value
      && StartsWith(mail.subject, SubjectPrefix)
      && mail.html == RenderHtml(b.name.value, b.email.value, b.subject.value, b.message.value)
      && OccursAt(mail.html, BreakLines(b.message.value), |HtmlHead| + |b.name.value| + |HtmlEmail| + |b.email.value| + |HtmlSubject| + |b.subject.value| + |HtmlMessage|)
  {
    RenderHtmlFields(b.name.value, b.email.value, b.subject.value, b.message.value);
  }

  /** Status 200 "Message sent successfully!" exactly when a mail was handed over and delivered. */
  lemma SuccessIffDelivered(request: Request, config: MailConfig, delivery: Delivery)
    ensures var o := Post(request, config, delivery);
      o.reply == Reply(200, MessageBody(SentOk)) <==> o.sent.Some? && delivery == Delivered
  {
  }

  /**
   * A send failure is classified by substring, "Invalid login" before
   * "Invalid email"; anything else, including a thrown non-`Error`, is a
   * generic 500.
   */
  lemma SendFailureClassified(request: Request, config: MailConfig, t: Thrown)
    requires Post(request, config, Threw(t)).sent.Some?
    ensures var r := Post(request, config, Threw(t)).reply;
      match t
      case ErrorObject(m) =>
        if exists i :: OccursAt(m, "Invalid login", i) then r == Reply(500, ErrorBody(AuthFailed))
        else if exists i :: OccursAt(m, "Invalid email", i) then r == Reply(400, ErrorBody(InvalidEmailAddress))
        else r == Reply(500, ErrorBody(SendFailed))
      case OtherValue => r == Reply(500, ErrorBody(SendFailed))
  {
    if t.ErrorObject? {
      IncludesOccurs(t.message, "Invalid login");
      IncludesOccurs(t.message, "Invalid email");
    }
  }

  /** Every reply's status is 200, 400 or 500, and 200 carries a message while the others carry an error. */
  lemma StatusClasses(request: Request, config: MailConfig, delivery: Delivery)
    ensures var r := Post(request, config, delivery).reply;
      && r.status in {200, 400, 500}
      && (r.status == 200 <==> r.payload.MessageBody?)
  {
  }

  /**
   * Status 400 arises from exactly four causes: a body that could not be
   * read failing with an error naming "Invalid email" but not "Invalid
   * login", a missing field, an e-mail outside the pattern, or a send error
   * naming "Invalid email" but not "Invalid login".
   */
  lemma BadRequestCauses(request: Request, config: MailConfig, delivery: Delivery)
    ensures var o := Post(request, config, delivery);
      o.reply.status == 400 <==>
        || (request.Malformed? && NamesInvalidEmail(request.failure))
        || (request.Json? && !AllPresent(request.body))
        || (request.Json? && AllPresent(request.body) && !MatchesEmailPattern(request.body.email.value))
        || (o.sent.Some? && delivery.Threw? && delivery.thrown.ErrorObject? && NamesInvalidEmail(delivery.thrown.message))
  {
    if request.Json? && AllPresent(request.body) {
      EmailTestMatchesPattern(request.body.email.value);
    }
  }

  /** An error message the catch block maps to 400 "Invalid email address". */
  predicate NamesInvalidEmail(m: string) {
    Includes(m, "Invalid email") && !Includes(m, "Invalid login")
  }
}
