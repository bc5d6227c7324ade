/** The contact-form handler `POST /api/send-email`: two ordered guards with
    early returns, a composed diagnostic text, and one of three responses. */
module SendEmail {
  import opened Payload
  import EmailPattern

  const AllFieldsRequired: string := "All fields are required"
  const InvalidEmailFormat: string := "Invalid email format"
  const EmailSentSuccessfully: string := "Email sent successfully!"
  const FailedToSendEmail: string := "Failed to send email"

  /** The response: its status and the properties of its JSON body. */
  datatype Outcome =
    | Rejected(status: nat, error: string)
    | Accepted(status: nat, success: bool, message: string)
    | Failed(status: nat, error: string)

  /** The handler. A body that does not parse, or `null` whose destructuring
      throws, lands in the `catch`; otherwise the required-field guard runs,
      then the address guard, and only then the fixed success reply. */
  function Post(body: Body): (r: Outcome)
    ensures r.Rejected? ==> r.status == 400 && (r.error == AllFieldsRequired || r.error == InvalidEmailFormat)
    ensures r.Accepted? ==> r == Accepted(200, true, EmailSentSuccessfully)
    ensures r.Failed? ==> r == Failed(500, FailedToSendEmail)
  {
    match body
    case Unparseable => Failed(500, FailedToSendEmail)
    case JsonNull => Failed(500, FailedToSendEmail)
    case JsonValue(f) =>
      if !AllPresent(f) then Rejected(400, AllFieldsRequired)
      else if !EmailPattern.Matches(f.email.value) then Rejected(400, InvalidEmailFormat)
      else Accepted(200, true, EmailSentSuccessfully)
  }

  const Header: string := "New Contact Form Submission"
  const Footer: string := "Sent from Portfolio Website"

  /** The template literal of the handler, line breaks and the six-space
      indentation of its source lines included. */
  function EmailContent(name: string, email: string, subject: string, message: string): (c: string)
    ensures |c| == 169 + |name| + |email| + |subject| + |message|
    ensures "\n      " + Header <= c
  {
    "\n      " + Header
    + "\n      \n      Name: " + name
    + "\n      Email: " + email
    + "\n      Subject: " + subject
    + "\n      \n      Message:\n      " + message
    + "\n      \n      ---\n      " + Footer
    + "\n    "
  }

  // Responses

  /** "All fields are required" is the answer exactly when some field is
      missing or empty, whatever the address looks like. */
  lemma RequiredFieldsRule(f: Fields)
    ensures Post(JsonValue(f)) == Rejected(400, AllFieldsRequired) <==> !AllPresent(f)
  {
  }

  /** Which field is missing makes no difference to the answer. */
  lemma AnyMissingFieldRejected(f: Fields, k: nat)
    requires k < 4 && !Truthy(FieldAt(f, k))
    ensures Post(JsonValue(f)) == Rejected(400, AllFieldsRequired)
  {
    AllPresentIffEveryField(f);
  }

  /** "Invalid email format" is the answer exactly when every field is
      present and the address fails the pattern; so the required-field guard
      comes first. */
  lemma InvalidEmailRule(f: Fields)
    ensures Post(JsonValue(f)) == Rejected(400, InvalidEmailFormat)
        <==> AllPresent(f) && !EmailPattern.Matches(f.email.value)
  {
  }

  /** A parsed body is accepted exactly when all four fields are present and
      the address has no whitespace, one `@` with something before it, and a
      `.` strictly inside the part after it. */
  lemma AcceptedRule(body: Body)
    ensures Post(body).Accepted?
        <==> body.JsonValue? && AllPresent(body.fields)
             && EmailPattern.PlainShape(body.fields.email.value)
  {
    if body.JsonValue? && AllPresent(body.fields) {
      EmailPattern.Characterisation(body.fields.email.value);
    }
  }

  /** The generic failure is the answer exactly for a body that does not
      parse or parses to `null`. */
  lemma FailureRule(body: Body)
    ensures Post(body) == Failed(500, FailedToSendEmail)
        <==> body == Unparseable || body == JsonNull
  {
  }

  /** The success reply echoes nothing: any two accepted bodies get the same
      response. */
  lemma AcceptedEchoesNothing(b1: Body, b2: Body)
    requires Post(b1).Accepted? && Post(b2).Accepted?
    ensures Post(b1) == Post(b2)
  {
  }

  /** No trimming: name, subject and message matter only through being
      present and non-empty, so a field of blanks counts as given. */
  lemma OnlyPresenceMatters(f: Fields, g: Fields)
    requires f.email == g.email
    requires Truthy(f.name) == Truthy(g.name)
    requires Truthy(f.subject) == Truthy(g.subject)
    requires Truthy(f.message) == Truthy(g.message)
    ensures Post(JsonValue(f)) == Post(JsonValue(g))
  {
  }

  /** An address with whitespace anywhere in it, leading and trailing blanks
      included, passes the required-field guard but fails the pattern. */
  lemma WhitespaceEmailRejected(f: Fields, k: nat)
    requires AllPresent(f)
    requires k < |f.email.value| && EmailPattern.IsWhitespace(f.email.value[k])
    ensures Post(JsonValue(f)) == Rejected(400, InvalidEmailFormat)
  {
  }

  // Composed text

  /** The composed text opens with the header and closes with the footer, and
      between them holds name, email, subject and message, in that order, at
      fixed distances from each other. */
  lemma ContentLayout(name: string, email: string, subject: string, message: string)
    ensures var c := EmailContent(name, email, subject, message);
      var n := 54;
      var e := n + |name| + 14;
      var s := e + |email| + 16;
      var m := s + |subject| + 29;
      var t := m + |message| + 24;
      && |c| == t + 32
      && c[..7] == "\n      "
      && c[7..34] == Header
      && c[n..n + |name|] == name
      && c[e..e + |email|] == email
      && c[s..s + |subject|] == subject
      && c[m..m + |message|] == message
      && c[t..t + 27] == Footer
      && c[t + 27..] == "\n    "
  {
    var p0 := "\n      " + Header + "\n      \n      Name: ";
    var p1 := p0 + name + "\n      Email: ";
    var p2 := p1 + email + "\n      Subject: ";
    var p3 := p2 + subject + "\n      \n      Message:\n      ";
    var p4 := p3 + message + "\n      \n      ---\n      ";
    var c := p4 + Footer + "\n    ";
    assert c == EmailContent(name, email, subject, message);
    assert |p0| == 54;
    assert c[7..34] == p0[7..34];
    assert c[54..54 + |name|] == p1[54..54 + |name|];
    assert c[|p1|..|p1| + |email|] == p2[|p1|..|p1| + |email|];
    assert c[|p2|..|p2| + |subject|] == p3[|p2|..|p2| + |subject|];
    assert c[|p3|..|p3| + |message|] == p4[|p3|..|p3| + |message|];
  }

  // Worked examples

  /** A typical submission is accepted. */
  lemma ExampleAccepted()
    ensures Post(JsonValue(Fields(Some("Ann"), Some("ann@example.com"), Some("Hi"), Some("Hello there"))))
         == Accepted(200, true, EmailSentSuccessfully)
  {
    var a := "ann@example.com";
    assert a[3] == '@' && a[11] == '.';
    assert EmailPattern.AllAtoms(a[..3]);
    assert EmailPattern.AllAtoms(a[4..11]);
    assert EmailPattern.AllAtoms(a[12..]);
  }

  /** Fields of blanks pass the required-field guard. */
  lemma BlankFieldsAccepted()
    ensures Post(JsonValue(Fields(Some("   "), Some("ann@example.com"), Some(" "), Some(" "))))
         == Accepted(200, true, EmailSentSuccessfully)
  {
    ExampleAccepted();
  }

  /** An address without a `.` after its `@` fails the pattern. */
  lemma ExampleNoDotRejected()
    ensures Post(JsonValue(Fields(Some("Ann"), Some("ann@example"), Some("Hi"), Some("Hello there"))))
         == Rejected(400, InvalidEmailFormat)
  {
    var a := "ann@example";
    assert forall j | 0 <= j < |a| :: a[j] != '.';
  }

  /** A missing field wins over a malformed address. */
  lemma ExampleMissingBeforeMalformed()
    ensures Post(JsonValue(Fields(None, Some("not an address"), Some("Hi"), Some("Hello there"))))
         == Rejected(400, AllFieldsRequired)
  {
  }
}
