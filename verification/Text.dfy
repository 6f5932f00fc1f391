/** The parts of Go's `strings` and `unicode` packages the service leans on.
    A `string` is a sequence of Unicode scalar values, which is what JSON decoding hands over. */
module Text {
  const CR := '\r'
  const LF := '\n'
  const CRLF := "\r\n"

  /** unicode.IsSpace: the White_Space property. */
  predicate IsSpace(c: char) {
    || '\t' <= c <= '\r'
    || c == ' '
    || c == '\U{0085}'
    || c == '\U{00A0}'
    || c == '\U{1680}'
    || '\U{2000}' <= c <= '\U{200A}'
    || c == '\U{2028}'
    || c == '\U{2029}'
    || c == '\U{202F}'
    || c == '\U{205F}'
    || c == '\U{3000}'
  }

  // ---- trimming ----

  function TrimLeft(s: string, drop: char -> bool): (t: string)
    ensures |t| <= |s| && t == s[|s| - |t|..]
    ensures t != [] ==> !drop(t[0])
    ensures forall i :: 0 <= i < |s| - |t| ==> drop(s[i])
  {
    if s != [] && drop(s[0]) then TrimLeft(s[1..], drop) else s
  }

  function TrimRight(s: string, drop: char -> bool): (t: string)
    ensures |t| <= |s| && t == s[..|t|]
    ensures t != [] ==> !drop(t[|t| - 1])
    ensures forall i :: |t| <= i < |s| ==> drop(s[i])
  {
    if s != [] && drop(s[|s| - 1]) then TrimRight(s[..|s| - 1], drop) else s
  }

  function Trim(s: string, drop: char -> bool): string {
    TrimRight(TrimLeft(s, drop), drop)
  }

  function TrimSpace(s: string): string {
    Trim(s, IsSpace)
  }

  predicate Blank(s: string) {
    TrimSpace(s) == ""
  }

  /** Nothing to trim at either end. */
  predicate Trimmed(s: string) {
    s != "" ==> !IsSpace(s[0]) && !IsSpace(s[|s| - 1])
  }

  lemma TrimmedIsFixed(s: string)
    requires Trimmed(s)
    ensures TrimSpace(s) == s
  {
  }

  /** Trimming twice is trimming once, and only a blank string trims to nothing. */
  lemma TrimSpaceIsIdempotent(s: string)
    ensures Trimmed(TrimSpace(s))
    ensures TrimSpace(TrimSpace(s)) == TrimSpace(s)
    ensures Blank(s) <==> forall i :: 0 <= i < |s| ==> IsSpace(s[i])
  {
    var left := TrimLeft(s, IsSpace);
    var t := TrimSpace(s);
    if t != "" {
      assert t[0] == left[0];
      assert left[|t| - 1] == s[|s| - |left| + |t| - 1];
    }
    TrimmedIsFixed(t);
  }

  lemma {:induction false} TrimLeftPadded(l: string, s: string, drop: char -> bool)
    requires forall c :: c in l ==> drop(c)
    ensures TrimLeft(l + s, drop) == TrimLeft(s, drop)
  {
    if l == "" {
      assert l + s == s;
    } else {
      assert (l + s)[1..] == l[1..] + s && l[0] in l;
      TrimLeftPadded(l[1..], s, drop);
    }
  }

  lemma {:induction false} TrimRightPadded(s: string, r: string, drop: char -> bool)
    requires forall c :: c in r ==> drop(c)
    ensures TrimRight(s + r, drop) == TrimRight(s, drop)
  {
    if r == "" {
      assert s + r == s;
    } else {
      var n := |r| - 1;
      assert (s + r)[..|s + r| - 1] == s + r[..n] && r[n] in r;
      TrimRightPadded(s, r[..n], drop);
    }
  }

  lemma TrimRightOfSolid(t: string, r: string, drop: char -> bool)
    requires forall c :: c in r ==> drop(c)
    requires t != "" && !drop(t[0]) && !drop(t[|t| - 1])
    ensures Trim(t + r, drop) == t
  {
    assert (t + r)[0] == t[0];
    assert TrimLeft(t + r, drop) == t + r;
    TrimRightPadded(t, r, drop);
  }

  lemma TrimOfDropped(r: string, drop: char -> bool)
    requires forall c :: c in r ==> drop(c)
    ensures Trim(r, drop) == ""
  {
    assert r == r + "";
    TrimLeftPadded(r, "", drop);
  }

  lemma Regroup(l: string, t: string, r: string)
    ensures l + t + r == l + (t + r) && "" + r == r
  {
  }

  /** Trimming takes off exactly what surrounds a text that begins and ends with something to keep. */
  lemma TrimTakesPadding(l: string, t: string, r: string, drop: char -> bool)
    requires forall c :: c in l || c in r ==> drop(c)
    requires t != "" ==> !drop(t[0]) && !drop(t[|t| - 1])
    ensures Trim(l + t + r, drop) == t
  {
    Regroup(l, t, r);
    TrimLeftPadded(l, t + r, drop);
    if t == "" {
      TrimOfDropped(r, drop);
    } else {
      TrimRightOfSolid(t, r, drop);
    }
  }

  lemma TrimmedParts(s: string) returns (a: string, b: string)
    ensures s == a + TrimSpace(s) + b
    ensures forall c :: c in a || c in b ==> IsSpace(c)
  {
    var left := TrimLeft(s, IsSpace);
    a, b := s[..|s| - |left|], left[|TrimSpace(s)|..];
  }

  lemma Nested(l: string, a: string, t: string, b: string, r: string)
    ensures l + (a + t + b) + r == (l + a) + t + (b + r)
  {
  }

  /** So every string is its trimmed text between blanks, and blanks around it change nothing. */
  lemma TrimSpaceIgnoresPadding(l: string, s: string, r: string)
    requires forall c :: c in l || c in r ==> IsSpace(c)
    ensures TrimSpace(l + s + r) == TrimSpace(s)
  {
    var t := TrimSpace(s);
    var a, b := TrimmedParts(s);
    TrimSpaceIsIdempotent(s);
    Nested(l, a, t, b, r);
    TrimTakesPadding(l + a, t, b + r, IsSpace);
  }

  // ---- dropping line breaks ----

  predicate IsBreak(c: char) {
    c == CR || c == LF
  }

  predicate BreakFree(s: string) {
    forall c :: c in s ==> !IsBreak(c)
  }

  /** What both `stripBreaks` and `sanitiseHeader` compute. */
  function StripBreaks(s: string): (t: string)
    ensures BreakFree(t)
    ensures BreakFree(s) ==> t == s
  {
    if s == "" then ""
    else if IsBreak(s[0]) then StripBreaks(s[1..])
    else [s[0]] + StripBreaks(s[1..])
  }

  lemma {:induction false} StripBreaksConcat(a: string, b: string)
    ensures StripBreaks(a + b) == StripBreaks(a) + StripBreaks(b)
  {
    if a == "" {
      assert a + b == b;
    } else {
      assert (a + b)[1..] == a[1..] + b;
      StripBreaksConcat(a[1..], b);
    }
  }

  /** Wherever a character stands, it is kept in its place unless it is a CR or an LF. */
  lemma StripBreaksDropsOnlyBreaks(a: string, c: char, b: string)
    ensures StripBreaks(a + [c] + b) ==
            StripBreaks(a) + (if c == '\r' || c == '\n' then "" else [c]) + StripBreaks(b)
  {
    StripBreaksConcat(a + [c], b);
    StripBreaksConcat(a, [c]);
    assert [c][1..] == "";
  }

  // ---- replacing ----

  /** strings.ReplaceAll for a non-empty `old`: non-overlapping matches, left to right. */
  function ReplaceAll<T(==)>(s: seq<T>, old': seq<T>, new': seq<T>): seq<T>
    requires old' != []
  {
    if s == [] then []
    else if old' <= s then new' + ReplaceAll(s[|old'|..], old', new')
    else [s[0]] + ReplaceAll(s[1..], old', new')
  }

  // ---- splitting ----

  /** strings.Split on a single character. */
  function Split(s: string, sep: char): (parts: seq<string>)
    ensures parts != []
  {
    if s == "" then [""]
    else
      var rest := Split(s[1..], sep);
      if s[0] == sep then [""] + rest
      else [[s[0]] + rest[0]] + rest[1..]
  }

  /** Splitting distributes over joining with the separator. */
  lemma SplitConcat(a: string, sep: char, b: string)
    ensures Split(a + [sep] + b, sep) == Split(a, sep) + Split(b, sep)
  {
    if a == "" {
      assert a + [sep] + b == [sep] + b;
    } else {
      assert (a + [sep] + b)[1..] == a[1..] + [sep] + b;
      SplitConcat(a[1..], sep, b);
    }
  }

  lemma {:induction false} OnePart(s: string, sep: char)
    requires sep !in s
    ensures Split(s, sep) == [s]
  {
    if s != "" {
      OnePart(s[1..], sep);
      assert [s[0]] + s[1..] == s;
    }
  }

  // ---- sequences ----

  lemma TakeSnoc<T>(s: seq<T>, i: nat)
    requires i < |s|
    ensures s[..i + 1] == s[..i] + [s[i]]
  {
  }

  lemma TakeAll<T>(s: seq<T>)
    ensures s[..|s|] == s
  {
  }
}
