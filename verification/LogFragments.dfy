/** Whether the two ReplaceAll calls of internal/logsafe/logsafe.go do any work: exactly when taking out a
    line break joins two fragments into a character. */
module LogFragments {
  import opened LogSafe
  import opened Utf8

  /** Bytes of one character that may be logged. */
  predicate OneLoggable(e: seq<byte>) {
    e != [] && Lead(e) == |e| && Loggable(Scalar(e) as char)
  }

  /** The bytes from `i` up to `j` are fragments around line breaks, and what is left of them without the
      breaks is one loggable character. */
  predicate JoinAt(v: seq<byte>, i: nat, j: nat) {
    && i < j <= |v|
    && !IsBreakByte(v[i]) && !IsBreakByte(v[j - 1])
    && (exists b :: i < b < j && IsBreakByte(v[b]))
    && OneLoggable(RemoveBreakBytes(v[i..j]))
  }

  predicate Joins(v: seq<byte>) {
    exists i: nat, j: nat :: i < j <= |v| && JoinAt(v, i, j)
  }

  /** What filtering alone would keep. */
  function Plain(v: seq<byte>): string {
    Filter(Runes(v))
  }

  /** What is kept once the breaks are out. */
  function Stripped(v: seq<byte>): string {
    Filter(Runes(RemoveBreakBytes(v)))
  }

  // ---- taking a byte string apart ----

  lemma RemoveHead(v: seq<byte>, q: nat)
    requires q < |v|
    ensures v[q + 1..] == v[1..][q..]
    ensures RemoveBreakBytes(v[..q + 1]) ==
            (if IsBreakByte(v[0]) then [] else [v[0]]) + RemoveBreakBytes(v[1..][..q])
  {
    assert v[..q + 1][1..] == v[1..][..q];
  }

  /** The position after the first n bytes that are no break. */
  lemma {:induction false} Position(v: seq<byte>, n: nat) returns (p: nat)
    requires n <= |RemoveBreakBytes(v)|
    ensures p <= |v| && (n > 0 <==> p > 0) && (n > 0 ==> !IsBreakByte(v[p - 1]))
    ensures RemoveBreakBytes(v[..p]) == RemoveBreakBytes(v)[..n]
    ensures RemoveBreakBytes(v[p..]) == RemoveBreakBytes(v)[n..]
    decreases |v|
  {
    if n == 0 {
      p := 0;
    } else {
      var q := Position(v[1..], if IsBreakByte(v[0]) then n else n - 1);
      RemoveHead(v, q);
      p := q + 1;
    }
  }

  /** A prefix of the bytes leaves a prefix of what is left. */
  lemma RemovePrefix(v: seq<byte>, j: nat)
    requires j <= |v|
    ensures RemoveBreakBytes(v[..j]) <= RemoveBreakBytes(v)
  {
    assert v == v[..j] + v[j..];
    RemoveBreakBytesConcat(v[..j], v[j..]);
  }

  /** Only one length of prefix can be a whole character. */
  lemma OneLead(e: seq<byte>, s: seq<byte>)
    requires e != [] && Lead(e) == |e| && e <= s
    ensures Lead(s) == |e|
  {
    LeadIsLocal(e, s[|e|..]);
    assert s == e + s[|e|..];
  }

  // ---- joins, seen from the front ----

  predicate JoinsFrom(v: seq<byte>, k: nat) {
    exists i: nat, j: nat :: i < k && i < j <= |v| && JoinAt(v, i, j)
  }

  lemma JoinShifts(v: seq<byte>, k: nat, i: nat, j: nat)
    requires k <= i < j <= |v|
    ensures JoinAt(v, i, j) <==> JoinAt(v[k..], i - k, j - k)
  {
    var w := v[k..];
    assert w[i - k..j - k] == v[i..j];
    assert forall b :: i < b < j ==> v[b] == w[b - k];
    if JoinAt(v, i, j) {
      var b :| i < b < j && IsBreakByte(v[b]);
      assert IsBreakByte(w[b - k]);
    }
    if JoinAt(w, i - k, j - k) {
      var b :| i - k < b < j - k && IsBreakByte(w[b]);
      assert IsBreakByte(v[b + k]);
    }
  }

  lemma JoinsBySteps(v: seq<byte>, k: nat)
    requires k <= |v|
    ensures Joins(v) <==> JoinsFrom(v, k) || Joins(v[k..])
  {
    if Joins(v) && !JoinsFrom(v, k) {
      var i: nat, j: nat :| i < j <= |v| && JoinAt(v, i, j);
      JoinShifts(v, k, i, j);
    }
    if Joins(v[k..]) {
      var i: nat, j: nat :| i < j <= |v[k..]| && JoinAt(v[k..], i, j);
      JoinShifts(v, k, i + k, j + k);
    }
  }

  /** A join starts where its character starts: not at a byte that cannot lead. */
  lemma JoinStarts(v: seq<byte>, i: nat, j: nat)
    requires i < j <= |v| && JoinAt(v, i, j)
    ensures !Tail(v[i])
    ensures Lead(RemoveBreakBytes(v[i..])) == |RemoveBreakBytes(v[i..j])|
  {
    assert v[i..][..j - i] == v[i..j];
    RemovePrefix(v[i..], j - i);
    OneLead(RemoveBreakBytes(v[i..j]), RemoveBreakBytes(v[i..]));
    assert RemoveBreakBytes(v[i..j])[0] == v[i];
  }

  // ---- one step of both decoders ----

  lemma BreakStep(v: seq<byte>)
    requires v != [] && IsBreakByte(v[0])
    ensures Plain(v) == Plain(v[1..]) && Stripped(v) == Stripped(v[1..])
    ensures Joins(v) <==> Joins(v[1..])
  {
    JoinsBySteps(v, 1);
    assert v[..1] == [v[0]];
    assert !Loggable(v[0] as char);
  }

  lemma LeadBytes(s: seq<byte>)
    requires Lead(s) > 0
    ensures Lead(s[..Lead(s)]) == Lead(s)
    ensures forall k :: 0 < k < Lead(s) ==> Tail(s[k])
    ensures Lead(s) > 1 ==> !IsBreakByte(s[0])
  {
  }

  /** A whole character at the front stands in both, and nothing joins across it. */
  lemma WholeStep(v: seq<byte>)
    requires v != [] && !IsBreakByte(v[0]) && Lead(v) > 0
    ensures var n, c := Lead(v), Filter([DecodeFirst(v).0]);
            && Plain(v) == c + Plain(v[n..]) && Stripped(v) == c + Stripped(v[n..])
            && (Joins(v) <==> Joins(v[n..]))
  {
    var n := Lead(v);
    LeadBytes(v);
    WholeIsKept(v);
    FilterHead(DecodeFirst(v).0, Runes(v[n..]));
    FilterHead(DecodeFirst(v).0, Runes(RemoveBreakBytes(v[n..])));
    NothingJoinsWhole(v);
    JoinsBySteps(v, n);
  }

  lemma WholeIsKept(v: seq<byte>)
    requires v != [] && !IsBreakByte(v[0]) && Lead(v) > 0
    ensures var n, rest := Lead(v), RemoveBreakBytes(v[Lead(v)..]);
            && RemoveBreakBytes(v[..n]) == v[..n]
            && RemoveBreakBytes(v) == v[..n] + rest
            && Runes(RemoveBreakBytes(v)) == [DecodeFirst(v).0] + Runes(rest)
  {
    var n := Lead(v);
    LeadBytes(v);
    NoBreakBytes(v[..n]);
    assert v == v[..n] + v[n..];
    RemoveBreakBytesConcat(v[..n], v[n..]);
    var r := RemoveBreakBytes(v);
    LeadIsLocal(v[..n], RemoveBreakBytes(v[n..]));
    assert r[..n] == v[..n] && r[n..] == RemoveBreakBytes(v[n..]);
  }

  lemma FilterHead(c: char, t: string)
    ensures Filter([c] + t) == Filter([c]) + Filter(t)
  {
    assert ([c] + t)[1..] == t && [c][1..] == "";
  }

  lemma NothingJoinsWhole(v: seq<byte>)
    requires v != [] && !IsBreakByte(v[0]) && Lead(v) > 0
    ensures !JoinsFrom(v, Lead(v))
  {
    var n := Lead(v);
    LeadBytes(v);
    forall i: nat, j: nat | i < n && i < j <= |v|
      ensures !JoinAt(v, i, j)
    {
      if JoinAt(v, i, j) {
        JoinStarts(v, i, j);
        assert i == 0;
        assert v[0..] == v && v[0..j] == v[..j];
        WholeIsKept(v);
        LeadIsLocal(v[..n], RemoveBreakBytes(v[n..]));
        NoJoinInFront(v, n, j);
      }
    }
  }

  lemma NoJoinInFront(v: seq<byte>, n: nat, j: nat)
    requires 0 < n <= |v| && RemoveBreakBytes(v[..n]) == v[..n] && 0 < j <= |v|
    requires |RemoveBreakBytes(v[..j])| == n
    ensures !JoinAt(v, 0, j)
  {
    if j <= n {
      assert v[..n][..j] == v[..j];
      AllKept(v[..n]);
    } else {
      assert v[..j] == v[..n] + v[n..j];
      RemoveBreakBytesConcat(v[..n], v[n..j]);
      if !IsBreakByte(v[j - 1]) {
        NonBreaksStay(v[n..j], |v[n..j]| - 1);
      }
    }
  }

  /** A byte that is no break is still there afterwards. */
  lemma {:induction false} NonBreaksStay(v: seq<byte>, k: nat)
    requires k < |v| && !IsBreakByte(v[k])
    ensures v[k] in RemoveBreakBytes(v)
  {
    if k > 0 {
      NonBreaksStay(v[1..], k - 1);
    }
  }

  lemma {:induction false} RemovingShortens(v: seq<byte>)
    ensures |RemoveBreakBytes(v)| <= |v|
    ensures |RemoveBreakBytes(v)| == |v| ==> forall b :: b in v ==> !IsBreakByte(b)
  {
    if v != [] {
      RemovingShortens(v[1..]);
    }
  }

  lemma AllKept(v: seq<byte>)
    requires RemoveBreakBytes(v) == v
    ensures forall k :: 0 <= k < |v| ==> !IsBreakByte(v[k])
  {
    RemovingShortens(v);
  }

  /** A fragment that stays one. */
  lemma FragmentStep(v: seq<byte>)
    requires v != [] && !IsBreakByte(v[0]) && Lead(v) == 0 && Lead(RemoveBreakBytes(v)) == 0
    ensures Plain(v) == Plain(v[1..]) && Stripped(v) == Stripped(v[1..])
    ensures Joins(v) <==> Joins(v[1..])
  {
    JoinsBySteps(v, 1);
    assert v[0..] == v;
    forall j: nat | 0 < j <= |v|
      ensures !JoinAt(v, 0, j)
    {
      if JoinAt(v, 0, j) {
        JoinStarts(v, 0, j);
      }
    }
    assert RemoveBreakBytes(v)[1..] == RemoveBreakBytes(v[1..]);
  }

  /** Bytes that start no character leave nothing behind. */
  lemma {:induction false} DebrisIsDropped(v: seq<byte>, j: nat)
    requires j <= |v| && forall k :: 0 <= k < j ==> IsBreakByte(v[k]) || Tail(v[k])
    ensures Plain(v) == Plain(v[j..])
  {
    if j == 0 {
      assert v[0..] == v;
    } else {
      DebrisIsDropped(v[1..], j - 1);
      assert v[1..][j - 1..] == v[j..];
      assert v[..1] == [v[0]];
    }
  }

  /** A fragment that the missing breaks complete: the bytes up to the end of the new character, which
      alone would have been dropped. */
  lemma CompletedStep(v: seq<byte>) returns (j: nat)
    requires v != [] && !IsBreakByte(v[0]) && Lead(v) == 0 && Lead(RemoveBreakBytes(v)) > 0
    ensures 0 < j <= |v|
    ensures var r := RemoveBreakBytes(v);
            && Plain(v) == Plain(v[j..])
            && Stripped(v) == Filter([DecodeFirst(r).0]) + Stripped(v[j..])
            && (OneLoggable(r[..Lead(r)]) <==> Loggable(DecodeFirst(r).0))
            && (OneLoggable(r[..Lead(r)]) <==> JoinsFrom(v, j))
  {
    var r := RemoveBreakBytes(v);
    var m := Lead(r);
    j := Position(v, m);
    LeadBytes(r);
    CompletedHead(r);
    CompletedIsDebris(v, j);
    DebrisIsDropped(v[1..], j - 1);
    assert v[1..][j - 1..] == v[j..];
    CompletedHasBreak(v, j);
    CompletedJoins(v, j);
  }

  lemma CompletedHead(r: seq<byte>)
    requires Lead(r) > 0
    ensures Filter(Runes(r)) == Filter([DecodeFirst(r).0]) + Filter(Runes(r[Lead(r)..]))
    ensures OneLoggable(r[..Lead(r)]) <==> Loggable(DecodeFirst(r).0)
  {
    LeadBytes(r);
    FilterHead(DecodeFirst(r).0, Runes(r[Lead(r)..]));
  }

  lemma CompletedIsDebris(v: seq<byte>, j: nat)
    requires v != [] && !IsBreakByte(v[0]) && 0 < j <= |v|
    requires var r := RemoveBreakBytes(v); Lead(r) > 0 && RemoveBreakBytes(v[..j]) == r[..Lead(r)]
    ensures forall k :: 0 < k < j ==> IsBreakByte(v[k]) || Tail(v[k])
  {
    var r := RemoveBreakBytes(v);
    LeadBytes(r);
    var w := v[..j];
    assert RemoveBreakBytes(w)[1..] == RemoveBreakBytes(w[1..]);
    forall k | 0 < k < j && !IsBreakByte(v[k])
      ensures Tail(v[k])
    {
      NonBreaksStay(w[1..], k - 1);
    }
  }

  lemma CompletedHasBreak(v: seq<byte>, j: nat)
    requires v != [] && !IsBreakByte(v[0]) && Lead(v) == 0 && 0 < j <= |v| && !IsBreakByte(v[j - 1])
    requires var r := RemoveBreakBytes(v); Lead(r) > 0 && RemoveBreakBytes(v[..j]) == r[..Lead(r)]
    ensures exists b :: 0 < b < j && IsBreakByte(v[b])
  {
    var r := RemoveBreakBytes(v);
    if forall b :: 0 < b < j ==> !IsBreakByte(v[b]) {
      NoBreakBytes(v[..j]);
      LeadBytes(r);
      OneLead(v[..j], v);
      assert false;
    }
  }

  lemma CompletedJoins(v: seq<byte>, j: nat)
    requires v != [] && !IsBreakByte(v[0]) && Lead(v) == 0 && 0 < j <= |v| && !IsBreakByte(v[j - 1])
    requires var r := RemoveBreakBytes(v); Lead(r) > 0 && RemoveBreakBytes(v[..j]) == r[..Lead(r)]
    requires exists b :: 0 < b < j && IsBreakByte(v[b])
    requires forall k :: 0 < k < j ==> IsBreakByte(v[k]) || Tail(v[k])
    ensures var r := RemoveBreakBytes(v); OneLoggable(r[..Lead(r)]) <==> JoinsFrom(v, j)
  {
    var r := RemoveBreakBytes(v);
    if OneLoggable(r[..Lead(r)]) {
      assert v[0..j] == v[..j];
      assert JoinAt(v, 0, j);
    }
    if JoinsFrom(v, j) {
      var i: nat, l: nat :| i < j && i < l <= |v| && JoinAt(v, i, l);
      JoinStarts(v, i, l);
      assert i == 0;
      JoinInFront(v, l);
    }
  }

  /** A join at the front makes the character the breaks were hiding. */
  lemma JoinInFront(v: seq<byte>, l: nat)
    requires 0 < l <= |v| && JoinAt(v, 0, l)
    ensures var r := RemoveBreakBytes(v); Lead(r) > 0 && OneLoggable(r[..Lead(r)])
  {
    assert v[0..l] == v[..l];
    RemovePrefix(v, l);
    LoggableInFront(RemoveBreakBytes(v[..l]), RemoveBreakBytes(v));
  }

  lemma LoggableInFront(e: seq<byte>, s: seq<byte>)
    requires OneLoggable(e) && e <= s
    ensures Lead(s) > 0 && OneLoggable(s[..Lead(s)])
  {
    OneLead(e, s);
    assert s[..|e|] == e;
  }

  // ---- the exact condition ----

  lemma SameHead(c: string, s: string, p: string)
    ensures c + s == c + p <==> s == p
  {
    assert (c + s)[|c|..] == s && (c + p)[|c|..] == p;
  }

  lemma HeadGains(head: string, s: string, p: string)
    requires |s| >= |p|
    ensures |head + s| >= |p| && (head + s == p <==> head == "" && s == p)
  {
    if head == "" {
      assert head + s == s;
    }
  }

  /** Taking the breaks out never loses a character, and gains one exactly where it joins fragments. */
  lemma {:induction false} RemovingBreaksGains(v: seq<byte>)
    ensures |Stripped(v)| >= |Plain(v)|
    ensures Stripped(v) == Plain(v) <==> !Joins(v)
    decreases |v|
  {
    if v == [] {
    } else if IsBreakByte(v[0]) {
      BreakStep(v);
      RemovingBreaksGains(v[1..]);
    } else if Lead(v) > 0 {
      WholeStep(v);
      RemovingBreaksGains(v[Lead(v)..]);
      SameHead(Filter([DecodeFirst(v).0]), Stripped(v[Lead(v)..]), Plain(v[Lead(v)..]));
    } else if Lead(RemoveBreakBytes(v)) == 0 {
      FragmentStep(v);
      RemovingBreaksGains(v[1..]);
    } else {
      var j := CompletedStep(v);
      JoinsBySteps(v, j);
      RemovingBreaksGains(v[j..]);
      HeadGains(Filter([DecodeFirst(RemoveBreakBytes(v)).0]), Stripped(v[j..]), Plain(v[j..]));
    }
  }

  /** The two ReplaceAll calls are redundant exactly when no break stands inside a split character. */
  lemma BreaksAreRedundantIff(v: seq<byte>)
    ensures Kept(v) == Filter(Runes(v)) <==> !Joins(v)
    ensures |Kept(v)| >= |Filter(Runes(v))|
  {
    WithoutBreaksRemoves(v);
    RemovingBreaksGains(v);
  }

  lemma {:induction false} WellFormedNeverJoins(v: seq<byte>)
    requires WellFormed(v)
    ensures !Joins(v)
    decreases |v|
  {
    if v == [] {
    } else if IsBreakByte(v[0]) {
      BreakStep(v);
      WellFormedNeverJoins(v[1..]);
    } else {
      WholeStep(v);
      WellFormedNeverJoins(v[Lead(v)..]);
    }
  }

  /** In particular they are on well-formed UTF-8: filtering alone keeps the same characters. */
  lemma BreaksAreRedundantWhenWellFormed(v: seq<byte>)
    requires WellFormed(v)
    ensures Kept(v) == Filter(Runes(v))
  {
    WellFormedNeverJoins(v);
    BreaksAreRedundantIff(v);
  }

  /** Being malformed is not enough for them to matter. */
  lemma MalformedNeedNotJoin()
    ensures !WellFormed([0xFF]) && !Joins([0xFF])
    ensures Kept([0xFF]) == Filter(Runes([0xFF]))
  {
    BreaksAreRedundantIff([0xFF]);
  }

  /** Here they do: a fragment, a break and another fragment become one character. */
  lemma BreaksCanJoinFragments()
    ensures !WellFormed([0xC3, LF, 0xA9])
    ensures Kept([0xC3, LF, 0xA9]) == "\U{00E9}"
    ensures Filter(Runes([0xC3, LF, 0xA9])) == ""
  {
    var v: seq<byte> := [0xC3, LF, 0xA9];
    JoinedFragments();
    assert v[1..] == [LF, 0xA9] && v[1..][1..] == [0xA9] && v[1..][1..][1..] == [];
    assert Runes(v[1..][1..]) == [RUNE_ERROR] + Runes([]);
    assert Runes(v[1..]) == ['\n'] + Runes(v[1..][1..]);
    assert Runes(v) == [RUNE_ERROR] + Runes(v[1..]);
    assert Filter(Runes(v)) == Filter(Runes(v)[1..]);
    assert Filter(Runes(v[1..])) == Filter(Runes(v[1..])[1..]);
  }

  lemma JoinedFragments()
    ensures Kept([0xC3, LF, 0xA9]) == "\U{00E9}"
  {
    var v: seq<byte> := [0xC3, LF, 0xA9];
    WithoutBreaksRemoves(v);
    assert v[1..] == [LF, 0xA9] && v[1..][1..] == [0xA9] && v[1..][1..][1..] == [];
    assert RemoveBreakBytes(v[1..][1..]) == [0xA9];
    assert RemoveBreakBytes(v[1..]) == [0xA9];
    assert WithoutBreaks(v) == [0xC3, 0xA9];
    assert Bytes("\U{00E9}") == [0xC3, 0xA9] by {
      assert Bytes("\U{00E9}"[1..]) == [];
    }
    RunesOfBytes("\U{00E9}");
    assert Runes([0xC3, 0xA9]) == "\U{00E9}";
    assert "\U{00E9}"[1..] == "";
  }
}
