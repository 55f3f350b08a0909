/**
 * The name under which a converted upload is stored:
 * the upload's name with every `.pdf` replaced by `.xlsx` (app.py line 104).
 */
module OutputNames {
  const PdfSuffix: string := ".pdf"
  const XlsxSuffix: string := ".xlsx"

  /** `s` has `p` at position `k`. */
  predicate At(s: string, p: string, k: nat) {
    k + |p| <= |s| && s[k..k + |p|] == p
  }

  /** `p` occurs somewhere in `s` (Python's `p in s`). */
  predicate Occurs(s: string, p: string) {
    exists k :: 0 <= k <= |s| && At(s, p, k)
  }

  /**
   * Python's `s.replace(pat, rep)` for a non-empty `pat`: scanning from the
   * left, every occurrence of `pat` that does not overlap an earlier
   * replaced one becomes `rep`; matching is exact, so case matters.
   */
  function ReplaceAll(s: string, pat: string, rep: string): string
    requires |pat| > 0
    decreases |s|
  {
    if |s| < |pat| then s
    else if s[..|pat|] == pat then rep + ReplaceAll(s[|pat|..], pat, rep)
    else [s[0]] + ReplaceAll(s[1..], pat, rep)
  }

  /** The key of a converted upload in the result map. */
  function OutputName(name: string): string {
    ReplaceAll(name, PdfSuffix, XlsxSuffix)
  }

  /** An occurrence at a position past the first character is an occurrence in the tail. */
  lemma AtTail(s: string, p: string, k: nat, d: nat)
    requires d <= k && d <= |s|
    ensures At(s, p, k) <==> At(s[d..], p, k - d)
  {
    if k + |p| <= |s| {
      assert s[k..k + |p|] == s[d..][k - d..k - d + |p|];
    }
  }

  /** A name without `.pdf` is its own output name: `X.PDF` stays `X.PDF`. */
  lemma {:induction false} NoPdfUnchanged(name: string)
    requires !Occurs(name, PdfSuffix)
    ensures OutputName(name) == name
  {
    if |name| >= |PdfSuffix| {
      assert !At(name, PdfSuffix, 0);
      forall k: nat
        ensures !At(name[1..], PdfSuffix, k)
      {
        AtTail(name, PdfSuffix, k + 1, 1);
      }
      NoPdfUnchanged(name[1..]);
    }
  }

  /** Replacing makes the name at least as long, and strictly longer when `.pdf` occurs. */
  lemma {:induction false} OutputNameGrows(name: string)
    ensures |OutputName(name)| >= |name|
    ensures Occurs(name, PdfSuffix) ==> |OutputName(name)| > |name|
  {
    if |name| < |PdfSuffix| {
    } else if name[..|PdfSuffix|] == PdfSuffix {
      OutputNameGrows(name[|PdfSuffix|..]);
    } else {
      OutputNameGrows(name[1..]);
      if Occurs(name, PdfSuffix) {
        var k: nat :| At(name, PdfSuffix, k);
        assert k != 0;
        AtTail(name, PdfSuffix, k, 1);
      }
    }
  }

  /** The output name equals the upload name exactly when the upload name holds no `.pdf`. */
  lemma OutputNameUnchangedIff(name: string)
    ensures OutputName(name) == name <==> !Occurs(name, PdfSuffix)
  {
    if !Occurs(name, PdfSuffix) {
      NoPdfUnchanged(name);
    } else {
      OutputNameGrows(name);
    }
  }

  /** An output name starts with a dot when the upload name starts with `.pdf`. */
  lemma OutputNameHead(name: string)
    ensures At(name, PdfSuffix, 0) ==> |OutputName(name)| > 0 && OutputName(name)[0] == '.'
  {
  }

  /** A prefix without a dot of an output name was already a prefix of the upload name. */
  lemma {:induction false} DotlessPrefix(name: string, w: string)
    requires forall k :: 0 <= k < |w| ==> w[k] != '.'
    requires |w| <= |OutputName(name)| && OutputName(name)[..|w|] == w
    ensures |w| <= |name| && name[..|w|] == w
  {
    OutputNameHead(name);
    if w != [] {
      var o := OutputName(name);
      assert o[..|w|][0] == o[0];
      assert w[0] == o[0] && w[0] != '.';
      assert !At(name, PdfSuffix, 0);
    }
    if |name| >= |PdfSuffix| && w != [] {
      var rest := OutputName(name[1..]);
      assert OutputName(name) == [name[0]] + rest;
      assert w[1..] == rest[..|w| - 1];
      DotlessPrefix(name[1..], w[1..]);
      assert name[..|w|] == [name[0]] + name[1..][..|w| - 1];
    }
  }

  /** No `.pdf` survives in an output name: a replacement never creates a new occurrence. */
  lemma {:induction false} NoPdfInOutputName(name: string)
    ensures !Occurs(OutputName(name), PdfSuffix)
  {
    var r := OutputName(name);
    if |name| < |PdfSuffix| {
    } else if name[..|PdfSuffix|] == PdfSuffix {
      var rest := OutputName(name[|PdfSuffix|..]);
      NoPdfInOutputName(name[|PdfSuffix|..]);
      assert r == XlsxSuffix + rest;
      forall k: nat
        ensures !At(r, PdfSuffix, k)
      {
        if k >= |XlsxSuffix| {
          AtTail(r, PdfSuffix, k, |XlsxSuffix|);
          assert r[|XlsxSuffix|..] == rest;
        } else if k + |PdfSuffix| <= |r| {
          assert r[k] == XlsxSuffix[k];
          assert r[k + 1] == if k + 1 < |XlsxSuffix| then XlsxSuffix[k + 1] else rest[0];
          if k + 1 == |XlsxSuffix| {
            assert r[k] == 'x';
          } else {
            assert r[k] != '.' || r[k + 1] != 'p';
          }
          assert r[k..k + |PdfSuffix|][0] == r[k];
          assert r[k..k + |PdfSuffix|][1] == r[k + 1];
        }
      }
    } else {
      var rest := OutputName(name[1..]);
      NoPdfInOutputName(name[1..]);
      assert r == [name[0]] + rest;
      assert !At(r, PdfSuffix, 0) by {
        if At(r, PdfSuffix, 0) {
          var w := r[..|PdfSuffix|];
          assert name[0] == r[0] == w[0];
          assert rest[..3] == r[1..4] == w[1..];
          DotlessPrefix(name[1..], "pdf");
        }
      }
      forall k: nat | k >= 1
        ensures !At(r, PdfSuffix, k)
      {
        AtTail(r, PdfSuffix, k, 1);
        assert r[1..] == rest;
      }
    }
  }

  /** A name ending in `.pdf` gets the output name of its stem followed by `.xlsx`. */
  lemma {:induction false} PdfSuffixBecomesXlsx(stem: string)
    ensures OutputName(stem + PdfSuffix) == OutputName(stem) + XlsxSuffix
  {
    ReplaceAround(stem, []);
    assert stem + PdfSuffix + [] == stem + PdfSuffix;
  }

  /**
   * An occurrence of `.pdf` becomes `.xlsx` wherever it stands, and the text
   * on either side is rewritten on its own: no match can straddle the
   * occurrence, since `.` appears in `.pdf` only as its first character.
   * With `NoPdfUnchanged` this determines the output name of every name.
   */
  lemma {:induction false} ReplaceAround(a: string, b: string)
    ensures OutputName(a + PdfSuffix + b) == OutputName(a) + XlsxSuffix + OutputName(b)
    decreases |a|
  {
    var s := a + PdfSuffix + b;
    var p := |PdfSuffix|;
    if a == [] {
      assert s[..p] == PdfSuffix && s[p..] == b;
      assert OutputName(s) == XlsxSuffix + OutputName(b);
    } else if |a| >= p && a[..p] == PdfSuffix {
      assert s[..p] == PdfSuffix;
      assert s[p..] == a[p..] + PdfSuffix + b;
      assert OutputName(s) == XlsxSuffix + OutputName(s[p..]);
      ReplaceAround(a[p..], b);
    } else {
      if |a| >= p {
        assert s[..p] == a[..p];
        assert OutputName(a) == [a[0]] + OutputName(a[1..]);
      } else {
        StraddleIsNoMatch(a, b);
        NoPdfUnchanged(a);
        NoPdfUnchanged(a[1..]);
      }
      assert OutputName(s) == [s[0]] + OutputName(s[1..]);
      assert s[1..] == a[1..] + PdfSuffix + b;
      ReplaceAround(a[1..], b);
    }
  }

  /** A match cannot start inside a name shorter than `.pdf` and run into a following `.pdf`. */
  lemma StraddleIsNoMatch(a: string, b: string)
    requires 0 < |a| < |PdfSuffix|
    ensures (a + PdfSuffix + b)[..|PdfSuffix|] != PdfSuffix
  {
    var s := a + PdfSuffix + b;
    assert s[|a|] == '.';
    assert s[..|PdfSuffix|][|a|] != PdfSuffix[|a|];
  }

  /** Two different uploads can share an output name; the later one then replaces the earlier. */
  lemma OutputNamesCollide()
    ensures OutputName("a.pdf") == OutputName("a.xlsx") == "a.xlsx"
  {
    PdfSuffixBecomesXlsx("a");
    assert "a.pdf" == "a" + PdfSuffix;
    assert OutputName("lsx") == "lsx";
    assert OutputName("xlsx") == "x" + OutputName("lsx");
    assert OutputName(".xlsx") == "." + OutputName("xlsx");
    assert OutputName("a.xlsx") == "a" + OutputName(".xlsx");
  }
}
