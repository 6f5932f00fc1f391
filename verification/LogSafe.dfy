/** internal/logsafe/logsafe.go: what is left of a value somebody else chose before it is logged.
    Works on bytes, because such values come straight off the wire. */
module LogSafe {
  import opened Utf8
  import Text

  const MAX: nat := 200
  const TRUNCATED := "\U{2026}"
  const LF: byte := 0x0A
  const CR: byte := 0x0D

  /** unicode.IsControl: the C0 range, DEL and the C1 range. */
  predicate IsControl(c: char) {
    c < ' ' || '\U{007F}' <= c < '\U{00A0}'
  }

  predicate Loggable(c: char) {
    c != RUNE_ERROR && !IsControl(c)
  }

  function Filter(t: string): (f: string)
    ensures |f| <= |t|
    ensures forall c :: c in f ==> Loggable(c)
  {
    if t == "" then ""
    else if Loggable(t[0]) then [t[0]] + Filter(t[1..])
    else Filter(t[1..])
  }

  function WithoutBreaks(v: seq<byte>): seq<byte> {
    Text.ReplaceAll(Text.ReplaceAll(v, [LF], []), [CR], [])
  }

  /** The characters of `v` that may be logged, before any cut. */
  function Kept(v: seq<byte>): string {
    Filter(Runes(WithoutBreaks(v)))
  }

  function Cut(t: string): string {
    if |t| <= MAX then t else t[..MAX] + TRUNCATED
  }

  function Cleaned(v: seq<byte>): seq<byte> {
    Bytes(Cut(Kept(v)))
  }

  lemma BytesSnoc(t: string, i: nat)
    requires i < |t|
    ensures Bytes(t[..i + 1]) == Bytes(t[..i]) + Encode(t[i])
  {
    assert t[..i + 1] == t[..i] + [t[i]];
    BytesConcat(t[..i], [t[i]]);
    assert [t[i]][1..] == "";
  }

  method String(v: seq<byte>) returns (r: seq<byte>)
    ensures r == Cleaned(v)
  {
    if v == [] {
      return [];
    }
    var w := Text.ReplaceAll(v, [LF], []);
    w := Text.ReplaceAll(w, [CR], []);

    var cleaned := Bytes(Filter(Runes(w)));
    RunesOfBytes(Filter(Runes(w)));

    var runes := Runes(cleaned);
    if |runes| <= MAX {
      return cleaned;
    }
    var b: seq<byte> := [];
    var i := 0;
    while i < |runes|
      invariant i <= MAX < |runes|
      invariant b == Bytes(runes[..i])
    {
      if i >= MAX {
        break;
      }
      BytesSnoc(runes, i);
      b := b + Encode(runes[i]);
      i := i + 1;
    }
    BytesConcat(runes[..MAX], TRUNCATED);
    r := b + Bytes(TRUNCATED);
  }

  // ---- what the cleaned value is ----

  /** For every input the output is well-formed UTF-8 that decodes to the kept characters, cut. */
  lemma OutputIsWellFormed(v: seq<byte>)
    ensures WellFormed(Cleaned(v))
    ensures Runes(Cleaned(v)) == Cut(Kept(v))
  {
    RunesOfBytes(Cut(Kept(v)));
  }

  /** No control character and no replacement character, whatever the input. */
  lemma OutputIsSafe(v: seq<byte>)
    ensures forall c :: c in Runes(Cleaned(v)) ==> Loggable(c)
    ensures LF !in Cleaned(v) && CR !in Cleaned(v)
  {
    OutputIsWellFormed(v);
    LoggableBytes(Cut(Kept(v)));
  }

  lemma {:induction false} LoggableBytes(t: string)
    requires forall c :: c in t ==> Loggable(c)
    ensures LF !in Bytes(t) && CR !in Bytes(t)
  {
    if t != "" {
      LoggableBytes(t[1..]);
      assert Loggable(t[0]);
    }
  }

  /** At most MAX + 1 characters come out, exactly MAX + 1 when and only when something was cut,
      and what was not cut away is the front of what was kept. */
  lemma OutputIsBounded(v: seq<byte>)
    ensures |Runes(Cleaned(v))| <= MAX + 1
    ensures |Runes(Cleaned(v))| == MAX + 1 <==> |Kept(v)| > MAX
    ensures |Kept(v)| <= MAX ==> Runes(Cleaned(v)) == Kept(v)
    ensures |Kept(v)| > MAX ==> Runes(Cleaned(v))[..MAX] == Kept(v)[..MAX] && Runes(Cleaned(v))[MAX..] == TRUNCATED
  {
    OutputIsWellFormed(v);
  }

  lemma Idempotent(v: seq<byte>)
    ensures Cleaned(Cleaned(v)) == Cleaned(v)
  {
    var t := Cut(Kept(v));
    OutputIsWellFormed(v);
    OutputIsSafe(v);
    NothingToReplace(Cleaned(v), LF);
    NothingToReplace(Cleaned(v), CR);
    NothingToFilter(t);
    if |t| > MAX {
      assert t[..MAX] + TRUNCATED == t;
    }
  }

  /** Printable, and not what stands for a byte that is none. */
  predicate Harmless(c: char) {
    (' ' <= c <= '~' || c >= '\U{00A0}') && c != '\U{FFFD}'
  }

  lemma HarmlessIsLoggable(t: string)
    ensures (forall c :: c in t ==> Harmless(c)) <==> (forall c :: c in t ==> Loggable(c))
  {
    assert forall c :: c in t ==> (Harmless(c) <==> Loggable(c));
  }

  lemma LoggableIsKept(t: string)
    requires forall c :: c in t ==> Loggable(c)
    ensures Kept(Bytes(t)) == t
  {
    RunesOfBytes(t);
    LoggableBytes(t);
    NothingToReplace(Bytes(t), LF);
    NothingToReplace(Bytes(t), CR);
    NothingToFilter(t);
  }

  lemma CleanedTextIsItself(t: string)
    requires Cleaned(Bytes(t)) == Bytes(t)
    ensures (forall c :: c in t ==> Loggable(c)) && Cut(Kept(Bytes(t))) == t
  {
    RunesOfBytes(t);
    OutputIsSafe(Bytes(t));
    OutputIsWellFormed(Bytes(t));
  }

  /** A text is logged as it is exactly when every character of it is harmless and it is no longer than
      200 characters or already carries the mark of a cut. */
  lemma UntouchedIff(t: string)
    ensures Cleaned(Bytes(t)) == Bytes(t) <==>
              (forall c :: c in t ==> Harmless(c)) && (|t| <= 200 || (|t| == 201 && t[200..] == "\U{2026}"))
  {
    HarmlessIsLoggable(t);
    CutKeeps(t);
    if forall c :: c in t ==> Loggable(c) {
      LoggableIsKept(t);
    }
    if Cleaned(Bytes(t)) == Bytes(t) {
      CleanedTextIsItself(t);
    }
  }

  lemma CutKeeps(t: string)
    ensures Cut(t) == t <==> |t| <= MAX || (|t| == MAX + 1 && t[MAX..] == TRUNCATED)
  {
    if |t| == MAX + 1 && t[MAX..] == TRUNCATED {
      assert t == t[..MAX] + t[MAX..];
    }
  }

  lemma {:induction false} NothingToFilter(t: string)
    requires forall c :: c in t ==> Loggable(c)
    ensures Filter(t) == t
  {
    if t != "" {
      NothingToFilter(t[1..]);
    }
  }

  lemma {:induction false} NothingToReplace(s: seq<byte>, b: byte)
    requires b !in s
    ensures Text.ReplaceAll(s, [b], []) == s
  {
    if s != [] {
      assert s[0] in s;
      NothingToReplace(s[1..], b);
    }
  }

  lemma FilterHeadOf(c: char, t: string)
    ensures Filter([c] + t) == (if Loggable(c) then [c] else "") + Filter(t)
  {
    assert ([c] + t)[1..] == t;
  }

  lemma {:induction false} FilterConcat(a: string, b: string)
    ensures Filter(a + b) == Filter(a) + Filter(b)
  {
    if a == "" {
      assert a + b == b;
    } else {
      var rest := a[1..];
      FilterConcat(rest, b);
      FilterHeadOf(a[0], rest);
      FilterHeadOf(a[0], rest + b);
      assert [a[0]] + rest == a && [a[0]] + (rest + b) == a + b;
      Text.Regroup(if Loggable(a[0]) then [a[0]] else "", Filter(rest), Filter(b));
    }
  }

  /** A character that is not harmless goes, and what stands around it stays. */
  lemma OnlyHarmfulGoes(a: string, c: char, b: string)
    ensures Filter(a + [c] + b) == Filter(a) + (if Harmless(c) then [c] else "") + Filter(b)
  {
    FilterConcat(a + [c], b);
    FilterConcat(a, [c]);
    FilterHeadOf(c, "");
    assert [c] + "" == [c];
  }

  // ---- what the two ReplaceAll calls do ----

  predicate IsBreakByte(b: byte) {
    b == LF || b == CR
  }

  function RemoveBreakBytes(v: seq<byte>): seq<byte> {
    if v == [] then []
    else if IsBreakByte(v[0]) then RemoveBreakBytes(v[1..])
    else [v[0]] + RemoveBreakBytes(v[1..])
  }

  lemma {:induction false} WithoutBreaksRemoves(v: seq<byte>)
    ensures WithoutBreaks(v) == RemoveBreakBytes(v)
  {
    if v != [] {
      WithoutBreaksRemoves(v[1..]);
      ReplaceHead(v, LF);
      var w := Text.ReplaceAll(v, [LF], []);
      if v[0] != LF {
        ReplaceHead(w, CR);
        assert w[1..] == Text.ReplaceAll(v[1..], [LF], []);
      }
    }
  }

  lemma ReplaceHead(v: seq<byte>, b: byte)
    requires v != []
    ensures var rest := Text.ReplaceAll(v[1..], [b], []);
            Text.ReplaceAll(v, [b], []) == if v[0] == b then rest else [v[0]] + rest
  {
    assert [b] <= v <==> v[0] == b;
  }

  lemma {:induction false} RemoveBreakBytesConcat(a: seq<byte>, b: seq<byte>)
    ensures RemoveBreakBytes(a + b) == RemoveBreakBytes(a) + RemoveBreakBytes(b)
  {
    if a == [] {
      assert a + b == b;
    } else {
      assert (a + b)[1..] == a[1..] + b;
      RemoveBreakBytesConcat(a[1..], b);
    }
  }

  lemma {:induction false} NoBreakBytes(a: seq<byte>)
    requires LF !in a && CR !in a
    ensures RemoveBreakBytes(a) == a
  {
    if a != [] {
      assert a[0] in a;
      NoBreakBytes(a[1..]);
    }
  }
}
