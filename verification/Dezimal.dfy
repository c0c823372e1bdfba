/** Decimal numerals: `str(n)`, `f"{n:06d}"`, `int(s)`, and the order of strings. */
module Dezimal {

  predicate IstZiffer(c: char) {
    '0' <= c <= '9'
  }

  predicate NurZiffern(s: string) {
    forall i :: 0 <= i < |s| ==> IstZiffer(s[i])
  }

  function Ziffer(d: nat): (c: char)
    requires d < 10
    ensures IstZiffer(c) && c as int - '0' as int == d
  {
    ('0' as int + d) as char
  }

  /** `str(n)` */
  function Ziffern(n: nat): (s: string)
    ensures s != "" && NurZiffern(s)
  {
    if n < 10 then [Ziffer(n)] else Ziffern(n / 10) + [Ziffer(n % 10)]
  }

  /** `int(s)`; the empty string counts as 0. */
  function Zahl(s: string): nat
    requires NurZiffern(s)
  {
    if s == "" then 0 else 10 * Zahl(s[..|s| - 1]) + (s[|s| - 1] as int - '0' as int)
  }

  /** `s.rjust(k, "0")` */
  function Aufgefuellt(s: string, k: nat): (r: string)
    ensures |r| == if |s| < k then k else |s|
    ensures NurZiffern(s) ==> NurZiffern(r)
    decreases k - |s|
  {
    if |s| >= k then s else Aufgefuellt("0" + s, k)
  }

  lemma {:induction false} ZahlVonZiffern(n: nat)
    ensures Zahl(Ziffern(n)) == n
  {
    if n >= 10 {
      ZahlVonZiffern(n / 10);
      var s := Ziffern(n);
      assert s[..|s| - 1] == Ziffern(n / 10);
    }
  }

  lemma {:induction false} FuehrendeNull(s: string)
    requires NurZiffern(s)
    ensures Zahl("0" + s) == Zahl(s)
    decreases |s|
  {
    if s == "" {
      assert ("0" + s)[..0] == "";
    } else {
      FuehrendeNull(s[..|s| - 1]);
      assert ("0" + s)[..|s|] == "0" + s[..|s| - 1];
    }
  }

  lemma {:induction false} ZahlVonAufgefuellt(s: string, k: nat)
    requires NurZiffern(s)
    ensures Zahl(Aufgefuellt(s, k)) == Zahl(s)
    decreases k - |s|
  {
    if |s| < k {
      ZahlVonAufgefuellt("0" + s, k);
      FuehrendeNull(s);
    }
  }

  // ---------------------------------------------------------------- order

  /** Strict lexicographic order of strings. */
  predicate Vor(a: string, b: string) {
    b != "" && (a == "" || a[0] < b[0] || (a[0] == b[0] && Vor(a[1..], b[1..])))
  }

  /** A common prefix decides nothing. */
  lemma {:induction false} GemeinsamerAnfang(p: string, a: string, b: string)
    ensures Vor(p + a, p + b) <==> Vor(a, b)
    decreases |p|
  {
    if p == "" {
      assert p + a == a && p + b == b;
    } else {
      GemeinsamerAnfang(p[1..], a, b);
      assert (p + a)[1..] == p[1..] + a && (p + b)[1..] == p[1..] + b;
    }
  }

  /** The first difference of strings of one length decides, whatever follows. */
  lemma {:induction false} FolgeEgal(a: string, x: string, b: string, y: string)
    requires |a| == |b| && a != b
    ensures Vor(a + x, b + y) <==> Vor(a, b)
    decreases |a|
  {
    if a != "" {
      assert (a + x)[1..] == a[1..] + x && (b + y)[1..] == b[1..] + y;
      if a[0] == b[0] {
        assert a == [a[0]] + a[1..] && b == [b[0]] + b[1..];
        FolgeEgal(a[1..], x, b[1..], y);
      }
    }
  }

  /** On numerals of one length lexicographic order is numeric order. */
  lemma {:induction false} GleichLangeZahlen(a: string, b: string)
    requires NurZiffern(a) && NurZiffern(b) && |a| == |b|
    ensures Vor(a, b) <==> Zahl(a) < Zahl(b)
    ensures Zahl(a) == Zahl(b) ==> a == b
    decreases |a|
  {
    if a != "" {
      var n := |a| - 1;
      GleichLangeZahlen(a[..n], b[..n]);
      assert a == a[..n] + [a[n]] && b == b[..n] + [b[n]];
      if a[..n] == b[..n] {
        GemeinsamerAnfang(a[..n], [a[n]], [b[n]]);
      } else {
        FolgeEgal(a[..n], [a[n]], b[..n], [b[n]]);
      }
    }
  }

  /** One more digit appears only after a row of nines. */
  lemma {:induction false} LaengeBeimZaehlen(n: nat)
    ensures |Ziffern(n + 1)| == |Ziffern(n)| || |Ziffern(n + 1)| == |Ziffern(n)| + 1
    ensures |Ziffern(n + 1)| > |Ziffern(n)| ==> Ziffern(n)[0] == '9' && Ziffern(n + 1)[0] == '1'
  {
    if n >= 10 {
      if n % 10 == 9 {
        LaengeBeimZaehlen(n / 10);
        assert (n + 1) / 10 == n / 10 + 1;
      } else {
        assert (n + 1) / 10 == n / 10;
      }
    }
  }

  lemma {:induction false} LaengeWaechst(m: nat, n: nat)
    requires m <= n
    ensures |Ziffern(m)| <= |Ziffern(n)|
  {
    if m < n {
      LaengeWaechst(m, n - 1);
      LaengeBeimZaehlen(n - 1);
    }
  }
}
