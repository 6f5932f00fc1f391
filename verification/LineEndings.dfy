/** CRLF and LF: strings.ReplaceAll in both directions, and what normalising a body does. */
module LineEndings {
  import opened Text

  function ToLF(s: string): string {
    ReplaceAll(s, CRLF, [LF])
  }

  function ToCRLF(s: string): string {
    ReplaceAll(s, [LF], CRLF)
  }

  /** What `compose` does to a body. */
  function Normalised(s: string): string {
    ToCRLF(ToLF(s))
  }

  /** Every LF has a CR right before it. */
  predicate NoBareLF(s: string) {
    forall i :: 0 <= i < |s| && s[i] == LF ==> i > 0 && s[i - 1] == CR
  }

  lemma ToCRLFStep(s: string)
    requires s != ""
    ensures ToCRLF(s) == (if s[0] == LF then CRLF else [s[0]]) + ToCRLF(s[1..])
  {
    assert [LF] <= s <==> s[0] == LF;
  }

  lemma {:induction false} ToCRLFHasNoBareLF(s: string)
    ensures NoBareLF(ToCRLF(s))
  {
    if s != "" {
      ToCRLFHasNoBareLF(s[1..]);
      ToCRLFStep(s);
      var head, rest := if s[0] == LF then CRLF else [s[0]], ToCRLF(s[1..]);
      assert forall i :: |head| <= i < |head + rest| ==> (head + rest)[i] == rest[i - |head|];
    }
  }

  /** Turning every LF into CRLF is undone by turning every CRLF into LF, for every string. */
  lemma {:induction false} ToLFUndoesToCRLF(s: string)
    ensures ToLF(ToCRLF(s)) == s
  {
    if s != "" {
      ToLFUndoesToCRLF(s[1..]);
      ToCRLFStep(s);
      var rest := ToCRLF(s[1..]);
      if s[0] == LF {
        assert (CRLF + rest)[2..] == rest;
      } else {
        var t := [s[0]] + rest;
        assert t[1..] == rest;
        if CRLF <= t {
          assert rest[0] == t[1] == LF;
          ToCRLFHasNoBareLF(s[1..]);
        }
      }
    }
  }

  /** The other way round it gives back exactly the strings in which no LF is bare. */
  lemma {:induction false} ToCRLFUndoesToLF(s: string)
    ensures Normalised(s) == s <==> NoBareLF(s)
  {
    ToCRLFHasNoBareLF(ToLF(s));
    if NoBareLF(s) {
      UndoneWithoutBareLF(s);
    }
  }

  lemma NoBareLFTail(s: string, k: nat)
    requires NoBareLF(s) && k <= |s| && (k < |s| ==> s[k] != LF)
    ensures NoBareLF(s[k..])
  {
    forall i | 0 <= i < |s[k..]| && s[k..][i] == LF
      ensures i > 0 && s[k..][i - 1] == CR
    {
      assert s[i + k] == LF;
    }
  }

  lemma {:induction false} UndoneWithoutBareLF(s: string)
    requires NoBareLF(s)
    ensures ToCRLF(ToLF(s)) == s
  {
    if s == "" {
    } else if CRLF <= s {
      assert s[1] == LF;
      NoBareLFTail(s, 2);
      UndoneWithoutBareLF(s[2..]);
      ToCRLFStep([LF] + ToLF(s[2..]));
      assert ([LF] + ToLF(s[2..]))[1..] == ToLF(s[2..]);
    } else {
      NoBareLFTail(s, 1);
      UndoneWithoutBareLF(s[1..]);
      ToCRLFStep([s[0]] + ToLF(s[1..]));
      assert ([s[0]] + ToLF(s[1..]))[1..] == ToLF(s[1..]);
    }
  }

  /** Normalising leaves no bare LF, twice is once, and the text apart from its line endings is kept. */
  lemma NormalisingIsIdempotent(s: string)
    ensures NoBareLF(Normalised(s))
    ensures Normalised(Normalised(s)) == Normalised(s)
    ensures ToLF(Normalised(s)) == ToLF(s)
  {
    ToCRLFHasNoBareLF(ToLF(s));
    ToLFUndoesToCRLF(ToLF(s));
  }

  /** Every CR has an LF right after it. */
  predicate NoLoneCR(s: string) {
    forall i :: 0 <= i < |s| && s[i] == CR ==> i + 1 < |s| && s[i + 1] == LF
  }

  lemma NoLoneCRFrom(s: string, k: nat)
    requires k <= |s| && forall i :: 0 <= i < k && s[i] == CR ==> i + 1 < |s| && s[i + 1] == LF
    ensures NoLoneCR(s) <==> NoLoneCR(s[k..])
  {
    var t := s[k..];
    assert forall i :: k <= i < |s| ==> s[i] == t[i - k];
    if NoLoneCR(s) {
      forall i | 0 <= i < |t| && t[i] == CR ensures i + 1 < |t| && t[i + 1] == LF {
        assert s[i + k] == CR;
      }
    }
  }

  lemma {:induction false} ToLFDropsPairedCR(s: string)
    ensures CR !in ToLF(s) <==> NoLoneCR(s)
  {
    if s == "" {
    } else if CRLF <= s {
      assert s[0] == CR && s[1] == LF;
      ToLFDropsPairedCR(s[2..]);
      NoLoneCRFrom(s, 2);
    } else {
      assert s[0] == CR && |s| > 1 && s[1] == LF ==> CRLF <= s;
      ToLFDropsPairedCR(s[1..]);
      if s[0] != CR {
        NoLoneCRFrom(s, 1);
      }
    }
  }

  lemma {:induction false} ToCRLFKeepsCR(s: string)
    ensures NoLoneCR(ToCRLF(s)) <==> CR !in s
  {
    if s != "" {
      ToCRLFStep(s);
      ToCRLFKeepsCR(s[1..]);
      var rest := ToCRLF(s[1..]);
      if s[0] == LF {
        assert (CRLF + rest)[2..] == rest;
        NoLoneCRFrom(CRLF + rest, 2);
      } else {
        var t := [s[0]] + rest;
        assert t[1..] == rest;
        if s[0] == CR {
          ToCRLFHasNoBareLF(s[1..]);
          assert rest == "" || rest[0] != LF;
          assert !NoLoneCR(t) by {
            assert t[0] == CR && (|t| > 1 ==> t[1] == rest[0]);
          }
        } else {
          NoLoneCRFrom(t, 1);
        }
      }
    }
  }

  /** Normalising repairs every LF but no lone CR: the result has one exactly when the input did. */
  lemma LoneCRSurvives(s: string)
    ensures NoLoneCR(Normalised(s)) <==> NoLoneCR(s)
  {
    ToLFDropsPairedCR(s);
    ToCRLFKeepsCR(ToLF(s));
  }

  lemma NoBareLFConcat(a: string, b: string)
    requires b == "" || b[0] != LF
    ensures NoBareLF(a + b) <==> NoBareLF(a) && NoBareLF(b)
  {
    var s := a + b;
    assert forall i :: 0 <= i < |a| ==> s[i] == a[i];
    assert forall i :: 0 <= i < |b| ==> s[i + |a|] == b[i];
    if NoBareLF(s) {
      forall i | 0 <= i < |a| && a[i] == LF ensures i > 0 && a[i - 1] == CR {
        assert s[i] == LF;
      }
      forall i | 0 <= i < |b| && b[i] == LF ensures i > 0 && b[i - 1] == CR {
        assert s[i + |a|] == LF;
      }
    }
  }

  lemma NoLoneCRConcat(a: string, b: string)
    requires b == "" || b[0] != LF
    ensures NoLoneCR(a + b) <==> NoLoneCR(a) && NoLoneCR(b)
  {
    var s := a + b;
    assert forall i :: 0 <= i < |a| ==> s[i] == a[i];
    assert forall i :: 0 <= i < |b| ==> s[i + |a|] == b[i];
    if NoLoneCR(s) {
      forall i | 0 <= i < |a| && a[i] == CR ensures i + 1 < |a| && a[i + 1] == LF {
        assert s[i] == CR;
      }
      forall i | 0 <= i < |b| && b[i] == CR ensures i + 1 < |b| && b[i + 1] == LF {
        assert s[i + |a|] == CR;
      }
    }
  }
}
