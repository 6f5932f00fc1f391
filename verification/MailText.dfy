/** `compose` in internal/mail/smtp/smtp.go, and a parser of section 2.1 of RFC 5322 that reads back
    what it printed. */
module MailText {
  import opened Wrappers
  import opened Text
  import opened LineEndings
  import opened Contact

  type Header = (string, string)

  /** The fields written, in order. */
  datatype Field = From | To | ReplyTo | Subject | Date | MimeVersion | ContentType | TransferEncoding

  function Spelling(f: Field): string {
    match f
    case From => "From"
    case To => "To"
    case ReplyTo => "Reply-To"
    case Subject => "Subject"
    case Date => "Date"
    case MimeVersion => "MIME-Version"
    case ContentType => "Content-Type"
    case TransferEncoding => "Content-Transfer-Encoding"
  }

  /** What compose is given besides the message: the configured addresses, the Q-encoder, the clock. */
  datatype Envelope = Envelope(from: string, to: string, encode: string -> string, date: string)

  function Value(e: Envelope, m: Message, f: Field): string {
    match f
    case From => e.from
    case To => e.to
    case ReplyTo => StripBreaks(m.email)
    case Subject => e.encode(StripBreaks(m.subject))
    case Date => e.date
    case MimeVersion => "1.0"
    case ContentType => "text/plain; charset=utf-8"
    case TransferEncoding => "8bit"
  }

  const ORDER := [From, To, ReplyTo, Subject, Date, MimeVersion, ContentType, TransferEncoding]

  function HeadersOf(e: Envelope, m: Message, fields: seq<Field>): (hs: seq<Header>)
    ensures |hs| == |fields|
    ensures forall i :: 0 <= i < |fields| ==> hs[i] == (Spelling(fields[i]), Value(e, m, fields[i]))
  {
    seq(|fields|, i requires 0 <= i < |fields| => (Spelling(fields[i]), Value(e, m, fields[i])))
  }

  function BodyOf(m: Message): string {
    ("Name:  " + m.name + CRLF) + ("Email: " + m.email + CRLF) + CRLF + Normalised(m.body) + CRLF
  }

  function Line(h: Header): string {
    h.0 + ": " + h.1
  }

  function HeaderBlock(hs: seq<Header>): string {
    if hs == [] then "" else Line(hs[0]) + CRLF + HeaderBlock(hs[1..])
  }

  function Printed(hs: seq<Header>, body: string): string {
    HeaderBlock(hs) + CRLF + body
  }

  lemma {:induction false} HeaderBlockSnoc(hs: seq<Header>, h: Header)
    ensures HeaderBlock(hs + [h]) == HeaderBlock(hs) + Line(h) + CRLF
  {
    if hs == [] {
      assert [h][1..] == [];
    } else {
      assert (hs + [h])[1..] == hs[1..] + [h];
      HeaderBlockSnoc(hs[1..], h);
    }
  }

  /** One `b.WriteString` of a header line; `written` are the fields so far. */
  method WriteHeader(b: string, e: Envelope, m: Message, f: Field, value: string, ghost written: seq<Field>)
    returns (out: string, ghost now: seq<Field>)
    requires b == HeaderBlock(HeadersOf(e, m, written)) && value == Value(e, m, f)
    ensures now == written + [f] && out == HeaderBlock(HeadersOf(e, m, now))
  {
    out := b + (Spelling(f) + ": " + value + CRLF);
    now := written + [f];
    HeaderBlockSnoc(HeadersOf(e, m, written), (Spelling(f), value));
    assert HeadersOf(e, m, now) == HeadersOf(e, m, written) + [(Spelling(f), value)];
  }

  /** The fields that differ from message to message, or from form to form. */
  const VARIABLE := [From, To, ReplyTo, Subject]
  const FIXED := [Date, MimeVersion, ContentType, TransferEncoding]

  method WriteVariable(e: Envelope, m: Message) returns (b: string)
    ensures b == HeaderBlock(HeadersOf(e, m, VARIABLE))
  {
    ghost var written: seq<Field> := [];
    b := "";
    b, written := WriteHeader(b, e, m, From, e.from, written);
    b, written := WriteHeader(b, e, m, To, e.to, written);
    b, written := WriteHeader(b, e, m, ReplyTo, StripBreaks(m.email), written);
    b, written := WriteHeader(b, e, m, Subject, e.encode(StripBreaks(m.subject)), written);
    assert written == VARIABLE;
  }

  method WriteFixed(b: string, e: Envelope, m: Message) returns (out: string)
    requires b == HeaderBlock(HeadersOf(e, m, VARIABLE))
    ensures out == HeaderBlock(HeadersOf(e, m, VARIABLE + FIXED))
  {
    ghost var written := VARIABLE;
    out, written := WriteHeader(b, e, m, Date, e.date, written);
    out, written := WriteHeader(out, e, m, MimeVersion, "1.0", written);
    out, written := WriteHeader(out, e, m, ContentType, "text/plain; charset=utf-8", written);
    out, written := WriteHeader(out, e, m, TransferEncoding, "8bit", written);
    assert written == VARIABLE + FIXED;
  }

  method Compose(e: Envelope, m: Message) returns (b: string)
    ensures b == Printed(HeadersOf(e, m, ORDER), BodyOf(m))
  {
    b := WriteVariable(e, m);
    b := WriteFixed(b, e, m);
    assert VARIABLE + FIXED == ORDER;
    b := b + CRLF;
    var text := WriteBody(m);
    b := b + text;
  }

  method WriteBody(m: Message) returns (b: string)
    ensures b == BodyOf(m)
  {
    b := "Name:  " + m.name + CRLF;
    b := b + ("Email: " + m.email + CRLF);
    b := b + CRLF;
    b := b + Normalised(m.body);
    b := b + CRLF;
  }

  // ---- reading it back ----

  predicate NoCRLF(s: string) {
    forall i :: 0 <= i < |s| - 1 ==> !(s[i] == CR && s[i + 1] == LF)
  }

  /** The text before the first CRLF, and what follows it. */
  function TakeLine(s: string): (r: Option<(string, string)>)
    ensures r.Some? ==> |r.value.1| < |s| && NoCRLF(r.value.0)
  {
    if s == "" then None
    else if CRLF <= s then Some(("", s[2..]))
    else
      match TakeLine(s[1..])
      case None => None
      case Some((line, rest)) => Some(([s[0]] + line, rest))
  }

  /** A header line: its name up to the first colon, then a colon, a space and its value. */
  function ParseLine(line: string): Option<Header> {
    if line == "" then None
    else if line[0] == ':' then (if |line| > 1 && line[1] == ' ' then Some(("", line[2..])) else None)
    else
      match ParseLine(line[1..])
      case None => None
      case Some((name, value)) => Some(([line[0]] + name, value))
  }

  /** Header lines up to the first empty one; the rest is the body. */
  function Parse(s: string): (r: Option<(seq<Header>, string)>)
    decreases |s|
  {
    match TakeLine(s)
    case None => None
    case Some((line, rest)) =>
      if line == "" then Some(([], rest))
      else
        match ParseLine(line)
        case None => None
        case Some(h) =>
          match Parse(rest)
          case None => None
          case Some((hs, body)) => Some(([h] + hs, body))
  }

  predicate IsName(name: string) {
    name != "" && BreakFree(name) && ':' !in name
  }

  /** Headers a line each can carry. */
  predicate Printable(hs: seq<Header>) {
    forall h :: h in hs ==> IsName(h.0) && NoCRLF(h.1)
  }

  lemma {:induction false} TakeLineOf(line: string, rest: string)
    requires NoCRLF(line)
    ensures TakeLine(line + CRLF + rest) == Some((line, rest))
  {
    var s := line + CRLF + rest;
    if line == "" {
      assert s[2..] == rest;
    } else {
      assert s[1..] == line[1..] + CRLF + rest;
      assert NoCRLF(line[1..]) by {
        assert forall i :: 0 <= i < |line[1..]| ==> line[1..][i] == line[i + 1];
      }
      TakeLineOf(line[1..], rest);
      assert s[1] == if |line| > 1 then line[1] else CR;
      assert s[0] == line[0] && !(CRLF <= s);
      assert [line[0]] + line[1..] == line;
    }
  }

  lemma {:induction false} ParseLineOf(name: string, value: string)
    requires ':' !in name
    ensures ParseLine(name + ": " + value) == Some((name, value))
  {
    var line := name + ": " + value;
    if name == "" {
      assert line[2..] == value;
    } else {
      assert line[1..] == name[1..] + ": " + value;
      assert line[0] == name[0] && name[0] in name;
      ParseLineOf(name[1..], value);
      assert [name[0]] + name[1..] == name;
    }
  }

  lemma LineHasNoCRLF(h: Header)
    requires BreakFree(h.0) && NoCRLF(h.1)
    ensures NoCRLF(Line(h))
  {
    var line := Line(h);
    forall i | 0 <= i < |line| - 1
      ensures !(line[i] == CR && line[i + 1] == LF)
    {
      if i < |h.0| {
        assert line[i] in h.0;
      } else if i >= |h.0| + 2 {
        assert line[i] == h.1[i - |h.0| - 2] && line[i + 1] == h.1[i - |h.0| - 1];
      }
    }
  }

  /** Parsing undoes printing for every list of headers a line each can carry and every body. */
  lemma {:induction false} ParseUndoesPrint(hs: seq<Header>, body: string)
    requires Printable(hs)
    ensures Parse(Printed(hs, body)) == Some((hs, body))
  {
    if hs == [] {
      assert CRLF + body == "" + CRLF + body;
      TakeLineOf("", body);
    } else {
      var h, rest := hs[0], Printed(hs[1..], body);
      assert Printed(hs, body) == Line(h) + CRLF + rest;
      LineHasNoCRLF(h);
      TakeLineOf(Line(h), rest);
      ParseLineOf(h.0, h.1);
      ParseUndoesPrint(hs[1..], body);
      assert [h] + hs[1..] == hs;
    }
  }

  lemma {:induction false} ParsedLineHasNoCRLF(line: string)
    requires NoCRLF(line) && ParseLine(line).Some?
    ensures NoCRLF(ParseLine(line).value.1)
  {
    if line[0] == ':' {
      assert forall i :: 0 <= i < |line| - 2 ==> line[2..][i] == line[i + 2];
    } else {
      assert forall i :: 0 <= i < |line| - 1 ==> line[1..][i] == line[i + 1];
      ParsedLineHasNoCRLF(line[1..]);
    }
  }

  /** No parser of lines returns a value with a line break in it. */
  lemma {:induction false} ParsedHeadersHaveNoCRLF(s: string)
    requires Parse(s).Some?
    ensures forall h :: h in Parse(s).value.0 ==> NoCRLF(h.1)
    decreases |s|
  {
    var (line, rest) := TakeLine(s).value;
    if line != "" {
      ParsedLineHasNoCRLF(line);
      ParsedHeadersHaveNoCRLF(rest);
    }
  }

  // ---- what it means for the service ----

  /** What the standard library promises: the encoder and the clock add no line breaks. */
  predicate LibraryIsBreakFree(e: Envelope, m: Message) {
    BreakFree(e.encode(StripBreaks(m.subject))) && BreakFree(e.date)
  }

  lemma BreakFreeHasNoCRLF(s: string)
    requires BreakFree(s)
    ensures NoCRLF(s)
  {
    assert forall i :: 0 <= i < |s| ==> s[i] in s;
  }

  lemma SpellingIsName(f: Field)
    ensures IsName(Spelling(f))
  {
  }

  lemma ValueIsBreakFree(e: Envelope, m: Message, f: Field)
    requires LibraryIsBreakFree(e, m) && f != From && f != To
    ensures BreakFree(Value(e, m, f))
  {
  }

  lemma HeadersArePrintable(e: Envelope, m: Message)
    requires LibraryIsBreakFree(e, m) && NoCRLF(e.from) && NoCRLF(e.to)
    ensures Printable(HeadersOf(e, m, ORDER))
  {
    var hs := HeadersOf(e, m, ORDER);
    forall i | 0 <= i < |hs|
      ensures IsName(hs[i].0) && NoCRLF(hs[i].1)
    {
      SpellingIsName(ORDER[i]);
      if ORDER[i] != From && ORDER[i] != To {
        ValueIsBreakFree(e, m, ORDER[i]);
        BreakFreeHasNoCRLF(hs[i].1);
      }
    }
  }

  /** Whatever the visitor typed, the composed message parses into exactly the eight headers, in order
      and with the values meant, and the body; this holds precisely when the configured From and To
      have no CRLF of their own. */
  lemma ComposedParsesBack(e: Envelope, m: Message)
    requires LibraryIsBreakFree(e, m)
    ensures var hs := HeadersOf(e, m, ORDER);
            Parse(Printed(hs, BodyOf(m))) == Some((hs, BodyOf(m))) <==> NoCRLF(e.from) && NoCRLF(e.to)
  {
    var hs := HeadersOf(e, m, ORDER);
    if NoCRLF(e.from) && NoCRLF(e.to) {
      HeadersArePrintable(e, m);
      ParseUndoesPrint(hs, BodyOf(m));
    }
    if Parse(Printed(hs, BodyOf(m))) == Some((hs, BodyOf(m))) {
      ParsedHeadersHaveNoCRLF(Printed(hs, BodyOf(m)));
      assert hs[0] in hs && hs[1] in hs;
      assert ORDER[0] == From && ORDER[1] == To;
    }
  }

  lemma HeadersSpelledOut(e: Envelope, m: Message)
    ensures HeadersOf(e, m, ORDER) == [
              ("From", e.from),
              ("To", e.to),
              ("Reply-To", StripBreaks(m.email)),
              ("Subject", e.encode(StripBreaks(m.subject))),
              ("Date", e.date),
              ("MIME-Version", "1.0"),
              ("Content-Type", "text/plain; charset=utf-8"),
              ("Content-Transfer-Encoding", "8bit")
            ]
  {
  }

  /** What a reader of the composed message sees, header by header: replying reaches the visitor, and the
      mail is from the service and to its owner. */
  lemma ReaderSees(e: Envelope, m: Message)
    requires BreakFree(e.encode(StripBreaks(m.subject))) && BreakFree(e.date) && NoCRLF(e.from) && NoCRLF(e.to)
    ensures Parse(Printed(HeadersOf(e, m, ORDER), BodyOf(m))) == Some(([
              ("From", e.from),
              ("To", e.to),
              ("Reply-To", StripBreaks(m.email)),
              ("Subject", e.encode(StripBreaks(m.subject))),
              ("Date", e.date),
              ("MIME-Version", "1.0"),
              ("Content-Type", "text/plain; charset=utf-8"),
              ("Content-Transfer-Encoding", "8bit")
            ], BodyOf(m)))
  {
    ComposedParsesBack(e, m);
    HeadersSpelledOut(e, m);
  }

  /** Every CR is half of a CRLF and so is every LF. */
  predicate OnlyCRLF(s: string) {
    NoBareLF(s) && NoLoneCR(s)
  }

  lemma {:induction false} HeaderBlockHasOnlyCRLF(hs: seq<Header>)
    requires forall h :: h in hs ==> BreakFree(h.0) && BreakFree(h.1)
    ensures OnlyCRLF(HeaderBlock(hs))
  {
    if hs != [] {
      HeaderBlockHasOnlyCRLF(hs[1..]);
      var line, rest := Line(hs[0]), HeaderBlock(hs[1..]);
      assert hs[0] in hs;
      assert BreakFree(line);
      var s := line + CRLF + rest;
      assert forall i :: 0 <= i < |line| ==> s[i] == line[i] && line[i] in line;
      assert s[|line|] == CR && s[|line| + 1] == LF;
      assert forall i :: 0 <= i < |rest| ==> s[i + |line| + 2] == rest[i];
      forall i | 0 <= i < |s|
        ensures s[i] == LF ==> i > 0 && s[i - 1] == CR
        ensures s[i] == CR ==> i + 1 < |s| && s[i + 1] == LF
      {
        if i >= |line| + 2 {
          assert s[i] == rest[i - |line| - 2];
        }
      }
    }
  }

  /** With break-free addresses configured, the header block holds no stray CR or LF at all, so a
      reader that breaks lines at either one alone finds the same headers. */
  lemma ComposedHeadersAreClean(e: Envelope, m: Message)
    requires LibraryIsBreakFree(e, m) && BreakFree(e.from) && BreakFree(e.to)
    ensures OnlyCRLF(HeaderBlock(HeadersOf(e, m, ORDER)))
  {
    var hs := HeadersOf(e, m, ORDER);
    forall i | 0 <= i < |hs|
      ensures BreakFree(hs[i].0) && BreakFree(hs[i].1)
    {
      SpellingIsName(ORDER[i]);
      if ORDER[i] != From && ORDER[i] != To {
        ValueIsBreakFree(e, m, ORDER[i]);
      }
    }
    HeaderBlockHasOnlyCRLF(hs);
  }

  lemma LabelledLine(tag: string, v: string)
    requires BreakFree(tag) && tag != ""
    ensures NoBareLF(tag + v + CRLF) <==> NoBareLF(v)
  {
    var s := tag + v;
    assert forall i :: 0 <= i < |tag| ==> s[i] == tag[i] && tag[i] in tag;
    assert forall i :: 0 <= i < |v| ==> s[i + |tag|] == v[i];
    assert s[|tag| - 1] != CR;
    if NoBareLF(v) {
      assert NoBareLF(s);
    }
    if NoBareLF(s) {
      forall i | 0 <= i < |v| && v[i] == LF
        ensures i > 0 && v[i - 1] == CR
      {
        assert s[i + |tag|] == LF;
      }
    }
    NoBareLFConcat(s, CRLF);
  }

  /** The value on a labelled line, and what follows the line. */
  function TakeLabelled(tag: string, s: string): Option<(string, string)> {
    match TakeLine(s)
    case None => None
    case Some((line, rest)) => if tag <= line then Some((line[|tag|..], rest)) else None
  }

  /** Reads the body back: the name, the address and the text. */
  function ReadBody(s: string): Option<(string, string, string)> {
    match TakeLabelled("Name:  ", s)
    case None => None
    case Some((name, afterName)) =>
      match TakeLabelled("Email: ", afterName)
      case None => None
      case Some((email, afterEmail)) => if CRLF <= afterEmail then Some((name, email, afterEmail[2..])) else None
  }

  lemma LabelledValueHasNoCRLF(tag: string, s: string)
    ensures TakeLabelled(tag, s).Some? ==> NoCRLF(TakeLabelled(tag, s).value.0)
  {
    if TakeLabelled(tag, s).Some? {
      var line := TakeLine(s).value.0;
      assert forall i :: |tag| <= i < |line| ==> line[|tag|..][i - |tag|] == line[i];
      assert forall i :: 0 <= i < |line| - |tag| ==> line[|tag|..][i] == line[i + |tag|];
    }
  }

  /** A labelled line gives its value back exactly when the value fits on a line. */
  lemma TakesLabelled(tag: string, v: string, rest: string)
    requires BreakFree(tag)
    ensures TakeLabelled(tag, tag + v + CRLF + rest) == Some((v, rest)) <==> NoCRLF(v)
  {
    var line := tag + v;
    assert line[|tag|..] == v;
    assert forall i :: 0 <= i < |tag| ==> line[i] == tag[i] && tag[i] in tag;
    assert forall i :: 0 <= i < |v| ==> line[i + |tag|] == v[i];
    LabelledValueHasNoCRLF(tag, line + CRLF + rest);
    if NoCRLF(v) {
      assert NoCRLF(line);
      TakeLineOf(line, rest);
    }
  }

  lemma BodyShape(m: Message)
    ensures BodyOf(m) == "Name:  " + m.name + CRLF + ("Email: " + m.email + CRLF + (CRLF + Normalised(m.body) + CRLF))
  {
  }

  /** Reading the body gives back the name, the address and the normalised text, exactly when the name and
      the address fit on a line each. */
  lemma BodyReadsBack(m: Message)
    ensures ReadBody(BodyOf(m)) == Some((m.name, m.email, Normalised(m.body) + CRLF)) <==>
              NoCRLF(m.name) && NoCRLF(m.email)
  {
    var text := CRLF + Normalised(m.body) + CRLF;
    var afterName := "Email: " + m.email + CRLF + text;
    BodyShape(m);
    TakesLabelled("Name:  ", m.name, afterName);
    TakesLabelled("Email: ", m.email, text);
    assert text[2..] == Normalised(m.body) + CRLF;
  }

  lemma LabelledLineKeepsCR(tag: string, v: string)
    requires BreakFree(tag)
    ensures NoLoneCR(tag + v + CRLF) <==> NoLoneCR(v)
  {
    var s := tag + v;
    assert forall i :: 0 <= i < |tag| ==> s[i] == tag[i] && tag[i] in tag;
    NoLoneCRFrom(s, |tag|);
    assert s[|tag|..] == v;
    NoLoneCRConcat(s, CRLF);
  }

  /** A lone CR is repaired nowhere: the composed text has one in its body exactly when the name, the
      address or the text submitted has one. */
  lemma BodyKeepsLoneCR(m: Message)
    ensures NoLoneCR(BodyOf(m)) <==> NoLoneCR(m.name) && NoLoneCR(m.email) && NoLoneCR(m.body)
  {
    var name, email := "Name:  " + m.name + CRLF, "Email: " + m.email + CRLF;
    var text := Normalised(m.body);
    NormalisingIsIdempotent(m.body);
    LoneCRSurvives(m.body);
    LabelledLineKeepsCR("Name:  ", m.name);
    LabelledLineKeepsCR("Email: ", m.email);
    NoLoneCRConcat(name, email);
    NoLoneCRConcat(name + email, CRLF);
    NoLoneCRConcat(name + email + CRLF, text);
    NoLoneCRConcat(name + email + CRLF + text, CRLF);
  }

  /** A text with a lone CR inside passes every rule too. */
  lemma AcceptedTextKeepsLoneCR(parse: AddressParser) returns (m: Message)
    requires parse("a@b") == Some("a@b")
    ensures Deliverable(parse, m) && !NoLoneCR(BodyOf(m))
  {
    var text := "01234\r56789";
    SplitTextIsFine(text);
    m := PlainMessage(parse, text);
    BodyKeepsLoneCR(m);
  }

  lemma PlainMessage(parse: AddressParser, text: string) returns (m: Message)
    requires parse("a@b") == Some("a@b")
    requires Trimmed(text) && MIN_MESSAGE_LEN <= |text| <= MAX_MESSAGE_LEN
    ensures Deliverable(parse, m) && m.body == text
  {
    m := Message("A", "a@b", "", text);
    BytesAreFew("a@b");
  }

  lemma SplitTextIsFine(text: string)
    requires text == "01234\r56789"
    ensures Trimmed(text) && MIN_MESSAGE_LEN <= |text| <= MAX_MESSAGE_LEN && !NoLoneCR(text)
  {
    assert text[5] == CR && text[6] != LF;
  }

  /** A name with a bare LF inside passes every rule, whatever the address parser as long as it takes a
      bare address, and reaches the body as it is. */
  lemma AcceptedNameBreaksBody(parse: AddressParser) returns (m: Message)
    requires parse("a@b") == Some("a@b")
    ensures Deliverable(parse, m) && !NoBareLF(BodyOf(m))
  {
    m := Message("A\nB", "a@b", "", "0123456789");
    assert m.name[1] == LF;
    assert ByteLength("a@b") <= 12 by {
      BytesAreFew("a@b");
    }
    BodyIsCleanIffNameIs(m);
  }

  lemma {:induction false} BytesAreFew(s: string)
    ensures ByteLength(s) <= 4 * |s|
  {
    if s != "" {
      BytesAreFew(s[1..]);
    }
  }

  /** The submitted text never carries a bare LF, but the name above it is written as it is: the body
      as a whole is free of bare LF exactly when the name and the address are. */
  lemma BodyIsCleanIffNameIs(m: Message)
    ensures NoBareLF(BodyOf(m)) <==> NoBareLF(m.name) && NoBareLF(m.email)
  {
    var name, email := "Name:  " + m.name + CRLF, "Email: " + m.email + CRLF;
    var text := Normalised(m.body);
    NormalisingIsIdempotent(m.body);
    LabelledLine("Name:  ", m.name);
    LabelledLine("Email: ", m.email);
    NoBareLFConcat(name, email);
    NoBareLFConcat(name + email, CRLF);
    NoBareLFConcat(text, CRLF);
    NoBareLFConcat(name + email + CRLF, text);
    NoBareLFConcat(name + email + CRLF + text, CRLF);
  }
}
