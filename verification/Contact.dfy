/** internal/contact/contact.go: what a submission has to satisfy before it becomes a message. */
module Contact {
  import opened Wrappers
  import opened Text
  import opened Wording
  import Utf8

  const MAX_NAME_LEN := 100
  const MAX_EMAIL_LEN := 254
  const MAX_MESSAGE_LEN := 5000
  const MIN_MESSAGE_LEN := 10
  const DEFAULT_SUBJECT := "Contact form: {{ .Name }}"

  /** As posted. `website` is the honeypot. */
  datatype Submission = Submission(name: string, email: string, message: string, website: string)

  datatype Message = Message(name: string, email: string, subject: string, body: string)

  /** The closed set of reasons a submission is turned down. */
  datatype Rejection = Spam | Invalid(field: Field, reason: Why)

  /** net/mail's address parser: the address part of what it was given, or nothing. */
  type AddressParser = string -> Option<string>

  /** A subject template once parsed: name, email and form id to text, or a rendering failure. */
  type Template = (string, string, string) -> Option<string>

  /** len(email): bytes, not characters. */
  function ByteLength(s: string): nat {
    |Utf8.Bytes(s)|
  }

  /** A submission with its fields trimmed; `automated` when the honeypot was filled. */
  datatype Fields = Fields(automated: bool, name: string, email: string, body: string)

  function Trimming(s: Submission): Fields {
    Fields(!Blank(s.website), TrimSpace(s.name), TrimSpace(s.email), TrimSpace(s.message))
  }

  /** Bounds apply to what is left after trimming. */
  function Validate(parse: AddressParser, s: Submission): Result<Message, Rejection> {
    Measure(parse, Trimming(s))
  }

  function Measure(parse: AddressParser, f: Fields): Result<Message, Rejection> {
    if f.automated then Err(Spam)
    else if f.name == "" then Err(Invalid(NameField, Required))
    else if |f.name| > MAX_NAME_LEN then Err(Invalid(NameField, TooLong))
    else if f.email == "" then Err(Invalid(EmailField, Required))
    else if ByteLength(f.email) > MAX_EMAIL_LEN then Err(Invalid(EmailField, TooLong))
    else if f.body == "" then Err(Invalid(MessageField, Required))
    else if |f.body| < MIN_MESSAGE_LEN then Err(Invalid(MessageField, TooShort))
    else if |f.body| > MAX_MESSAGE_LEN then Err(Invalid(MessageField, TooLong))
    else
      match parse(f.email)
      case None => Err(Invalid(EmailField, NotAnAddress))
      case Some(address) =>
        if address != f.email then Err(Invalid(EmailField, NotAnAddress))
        else Ok(Message(f.name, address, "", f.body))
  }

  // ---- the rules, stated one by one ----

  datatype Rule =
    | NotAutomated
    | NameGiven | NameShort
    | EmailGiven | EmailShort
    | BodyGiven | BodyLongEnough | BodyShort
    | EmailBare

  /** The order the rules are reported in. */
  function Rank(rule: Rule): nat {
    match rule
    case NotAutomated => 0
    case NameGiven => 1
    case NameShort => 2
    case EmailGiven => 3
    case EmailShort => 4
    case BodyGiven => 5
    case BodyLongEnough => 6
    case BodyShort => 7
    case EmailBare => 8
  }

  /** What breaking a rule is answered with. */
  function Complaint(rule: Rule): Rejection {
    match rule
    case NotAutomated => Spam
    case NameGiven => Invalid(NameField, Required)
    case NameShort => Invalid(NameField, TooLong)
    case EmailGiven => Invalid(EmailField, Required)
    case EmailShort => Invalid(EmailField, TooLong)
    case BodyGiven => Invalid(MessageField, Required)
    case BodyLongEnough => Invalid(MessageField, TooShort)
    case BodyShort => Invalid(MessageField, TooLong)
    case EmailBare => Invalid(EmailField, NotAnAddress)
  }

  /** Whether the trimmed fields meet one rule, whatever they do about the others. */
  predicate Meets(parse: AddressParser, f: Fields, rule: Rule) {
    match rule
    case NotAutomated => !f.automated
    case NameGiven => f.name != ""
    case NameShort => |f.name| <= MAX_NAME_LEN
    case EmailGiven => f.email != ""
    case EmailShort => ByteLength(f.email) <= MAX_EMAIL_LEN
    case BodyGiven => f.body != ""
    case BodyLongEnough => |f.body| >= MIN_MESSAGE_LEN
    case BodyShort => |f.body| <= MAX_MESSAGE_LEN
    case EmailBare => parse(f.email) == Some(f.email)
  }

  ghost predicate FirstBroken(parse: AddressParser, f: Fields, rule: Rule) {
    !Meets(parse, f, rule) && forall r: Rule :: Rank(r) < Rank(rule) ==> Meets(parse, f, r)
  }

  lemma {:induction false} MeasureReports(parse: AddressParser, f: Fields)
    ensures if Measure(parse, f).Ok? then forall r: Rule :: Meets(parse, f, r)
            else exists rule :: FirstBroken(parse, f, rule) && Measure(parse, f).error == Complaint(rule)
  {
    if Measure(parse, f).Err? {
      var rule :=
        if f.automated then NotAutomated
        else if f.name == "" then NameGiven
        else if |f.name| > MAX_NAME_LEN then NameShort
        else if f.email == "" then EmailGiven
        else if ByteLength(f.email) > MAX_EMAIL_LEN then EmailShort
        else if f.body == "" then BodyGiven
        else if |f.body| < MIN_MESSAGE_LEN then BodyLongEnough
        else if |f.body| > MAX_MESSAGE_LEN then BodyShort
        else EmailBare;
      assert FirstBroken(parse, f, rule) && Measure(parse, f).error == Complaint(rule);
    }
  }

  /** A submission is accepted exactly when it meets every rule; otherwise it is told about the first
      rule, in the stated order, that it breaks. */
  lemma ReportsFirstBroken(parse: AddressParser, s: Submission)
    ensures Validate(parse, s).Ok? <==> forall r: Rule :: Meets(parse, Trimming(s), r)
    ensures forall rule :: Validate(parse, s).Err? && FirstBroken(parse, Trimming(s), rule) ==>
              Validate(parse, s) == Err(Complaint(rule))
  {
    MeasureReports(parse, Trimming(s));
    FirstBrokenIsUnique(parse, Trimming(s));
  }

  lemma FirstBrokenIsUnique(parse: AddressParser, f: Fields)
    ensures forall a, b :: FirstBroken(parse, f, a) && FirstBroken(parse, f, b) ==> a == b
  {
    forall a, b | FirstBroken(parse, f, a) && FirstBroken(parse, f, b)
      ensures a == b
    {
      assert Rank(a) == Rank(b);
    }
  }

  /** What is wrong with the trimmed fields, in the visitor's terms. */
  predicate Blames(parse: AddressParser, f: Fields, field: Field, why: Why) {
    match (field, why)
    case (NameField, Required) => f.name == ""
    case (NameField, TooLong) => |f.name| > 100
    case (EmailField, Required) => f.email == ""
    case (EmailField, TooLong) => |Utf8.Bytes(f.email)| > 254
    case (EmailField, NotAnAddress) => parse(f.email) != Some(f.email)
    case (MessageField, Required) => f.body == ""
    case (MessageField, TooShort) => |f.body| < 10
    case (MessageField, TooLong) => |f.body| > 5000
    case _ => false
  }

  lemma MeasureBlames(parse: AddressParser, f: Fields, field: Field, why: Why)
    requires Measure(parse, f) == Err(Invalid(field, why))
    ensures !f.automated && Blames(parse, f, field, why)
  {
  }

  /** A visitor is only told what is so, of the field as trimmed; and the honeypot alone says nothing. */
  lemma RejectionsAreTrue(parse: AddressParser, s: Submission)
    ensures Validate(parse, s) == Err(Spam) <==> !Blank(s.website)
    ensures Validate(parse, s).Err? && Validate(parse, s).error.Invalid? ==>
              Blames(parse, Fields(false, TrimSpace(s.name), TrimSpace(s.email), TrimSpace(s.message)),
                     Validate(parse, s).error.field, Validate(parse, s).error.reason)
  {
    var f := Trimming(s);
    SpamIff(parse, f);
    if Measure(parse, f).Err? && Measure(parse, f).error.Invalid? {
      MeasureBlames(parse, f, Measure(parse, f).error.field, Measure(parse, f).error.reason);
    }
  }

  lemma SpamIff(parse: AddressParser, f: Fields)
    ensures Measure(parse, f) == Err(Spam) <==> f.automated
  {
  }

  // ---- the messages that can come out ----

  /** Within every bound, trimmed, and with a bare address. */
  predicate Deliverable(parse: AddressParser, m: Message) {
    && m.subject == ""
    && Trimmed(m.name) && 1 <= |m.name| <= MAX_NAME_LEN
    && Trimmed(m.email) && m.email != "" && ByteLength(m.email) <= MAX_EMAIL_LEN
    && parse(m.email) == Some(m.email)
    && Trimmed(m.body) && MIN_MESSAGE_LEN <= |m.body| <= MAX_MESSAGE_LEN
  }

  lemma MeasureAccepts(parse: AddressParser, f: Fields)
    requires !f.automated && Trimmed(f.name) && Trimmed(f.email) && Trimmed(f.body)
    ensures var m := Message(f.name, f.email, "", f.body);
            Measure(parse, f) == Ok(m) <==> Deliverable(parse, m)
    ensures Measure(parse, f).Ok? ==> Measure(parse, f).value == Message(f.name, f.email, "", f.body)
  {
  }

  function Resubmit(m: Message, website: string): Submission {
    Submission(m.name, m.email, m.body, website)
  }

  /** Every accepted message is deliverable and is the trimmed submission. */
  lemma AcceptedIsDeliverable(parse: AddressParser, s: Submission)
    requires Validate(parse, s).Ok?
    ensures var m := Validate(parse, s).value;
            && Deliverable(parse, m)
            && m == Message(TrimSpace(s.name), TrimSpace(s.email), "", TrimSpace(s.message))
  {
    TrimSpaceIsIdempotent(s.name);
    TrimSpaceIsIdempotent(s.email);
    TrimSpaceIsIdempotent(s.message);
    MeasureAccepts(parse, Trimming(s));
  }

  /** Every deliverable message is what validating it again returns, so `Validate` accepts exactly
      the submissions it maps to deliverable messages and is the identity on those. */
  lemma DeliverableIsAccepted(parse: AddressParser, m: Message, website: string)
    requires Deliverable(parse, m) && Blank(website)
    ensures Validate(parse, Resubmit(m, website)) == Ok(m)
  {
    TrimmedIsFixed(m.name);
    TrimmedIsFixed(m.email);
    TrimmedIsFixed(m.body);
    MeasureAccepts(parse, Fields(false, m.name, m.email, m.body));
  }

  lemma ValidateIsAFixpoint(parse: AddressParser, s: Submission)
    requires Validate(parse, s).Ok?
    ensures Validate(parse, Resubmit(Validate(parse, s).value, s.website)) == Validate(parse, s)
  {
    AcceptedIsDeliverable(parse, s);
    DeliverableIsAccepted(parse, Validate(parse, s).value, s.website);
  }
}
