/**
 * `_slug` and `_pdf_praefix` of alembic/versions/0186_bma_scraper_entfernen.py and
 * 0188_objekt_kontakt_dedupe_unique.py.
 */
module NamensSlug {
  import opened Grundlagen

  const MAX_SLUG := 60

  predicate Alphanumerisch(c: char) {
    'a' <= c <= 'z' || '0' <= c <= '9'
  }

  /** `[a-z0-9]`, character by character. */
  lemma AlphanumerischGenau(c: char)
    ensures Alphanumerisch(c) <==>
            c in ['0', '1', '2', '3', '4', '5', '6', '7', '8', '9', 'a', 'b', 'c', 'd', 'e', 'f', 'g', 'h', 'i', 'j',
                  'k',
              'l', 'm', 'n', 'o', 'p', 'q', 'r', 's', 't', 'u', 'v', 'w', 'x', 'y', 'z']
  {
  }

  predicate SlugAlphabet(s: string) {
    forall i :: 0 <= i < |s| ==> Alphanumerisch(s[i]) || s[i] == '-'
  }

  predicate OhneDoppelstrich(s: string) {
    forall i {:trigger s[i]} :: 0 < i < |s| && s[i] == '-' ==> s[i - 1] != '-'
  }

  /** `s` without the leading characters that a slug does not keep. */
  function OhneAnfang(s: string): (r: string)
    ensures |r| <= |s| && (r != "" ==> Alphanumerisch(r[0]))
  {
    if s == "" || Alphanumerisch(s[0]) then s else OhneAnfang(s[1..])
  }

  /** `re.sub(r"[^a-z0-9]+", "-", s)` */
  function Ersetze(s: string): (r: string)
    ensures SlugAlphabet(r) && OhneDoppelstrich(r)
    ensures r != "" && r[0] == '-' ==> s != "" && !Alphanumerisch(s[0])
    decreases |s|
  {
    if s == "" then ""
    else if Alphanumerisch(s[0]) then [s[0]] + Ersetze(s[1..])
    else "-" + Ersetze(OhneAnfang(s[1..]))
  }

  /** `s.strip("-")` */
  function OhneRandstriche(s: string): (r: string)
    ensures r != "" ==> r[0] != '-' && r[|r| - 1] != '-'
    ensures SlugAlphabet(s) ==> SlugAlphabet(r)
    ensures OhneDoppelstrich(s) ==> OhneDoppelstrich(r)
    decreases |s|
  {
    if s == "" then ""
    else if s[0] == '-' then OhneRandstriche(s[1..])
    else if s[|s| - 1] == '-' then OhneRandstriche(s[..|s| - 1])
    else s
  }

  /** `_slug`; `falte` is the transliteration, NFKD folding to ASCII and lower-casing done before the substitution. */
  function Slug(falte: string -> string, name: Option<string>): (r: string)
    ensures 0 < |r| <= MAX_SLUG && SlugAlphabet(r) && OhneDoppelstrich(r) && r[0] != '-'
  {
    var voll := OhneRandstriche(Ersetze(falte(if name.Some? then name.value else "")));
    var kurz := if |voll| > MAX_SLUG then voll[..MAX_SLUG] else voll;
    if kurz == "" then "unbenannt" else kurz
  }

  // ---------------------------------------------------------------- a slug is the words of a name

  /** How many characters at the start of `s` are kept. */
  function Wortlaenge(s: string): (n: nat)
    ensures n <= |s| && (forall i :: 0 <= i < n ==> Alphanumerisch(s[i])) && (n < |s| ==> !Alphanumerisch(s[n]))
  {
    if s == "" || !Alphanumerisch(s[0]) then 0 else 1 + Wortlaenge(s[1..])
  }

  predicate IstWort(w: string) {
    w != "" && forall i :: 0 <= i < |w| ==> Alphanumerisch(w[i])
  }

  /** The longest runs of letters and digits, in order. */
  function Worte(s: string): (ws: seq<string>)
    ensures forall i :: 0 <= i < |ws| ==> IstWort(ws[i])
    decreases |s|
  {
    if s == "" then []
    else if !Alphanumerisch(s[0]) then Worte(s[1..])
    else
      assert s[..Wortlaenge(s)][0] == s[0];
      [s[..Wortlaenge(s)]] + Worte(s[Wortlaenge(s)..])
  }

  function MitStrichen(ws: seq<string>): string {
    if ws == [] then "" else if |ws| == 1 then ws[0] else ws[0] + "-" + MitStrichen(ws[1..])
  }

  lemma {:induction false} StricheInnen(ws: seq<string>)
    requires ws != [] && forall i :: 0 <= i < |ws| ==> IstWort(ws[i])
    ensures var j := MitStrichen(ws); j != "" && Alphanumerisch(j[0]) && Alphanumerisch(j[|j| - 1])
  {
    assert IstWort(ws[0]);
    if |ws| > 1 { StricheInnen(ws[1..]); }
  }

  lemma {:induction false} WorteNachAnfang(s: string)
    ensures Worte(OhneAnfang(s)) == Worte(s)
  {
    if s != "" && !Alphanumerisch(s[0]) { WorteNachAnfang(s[1..]); }
  }

  lemma {:induction false} ErsetzeNachWort(s: string, n: nat)
    requires n <= |s| && forall i :: 0 <= i < n ==> Alphanumerisch(s[i])
    ensures Ersetze(s) == s[..n] + Ersetze(s[n..])
  {
    if n > 0 {
      ErsetzeNachWort(s[1..], n - 1);
      assert s[..n] == [s[0]] + s[1..][..n - 1] && s[n..] == s[1..][n - 1..];
    } else {
      assert s[n..] == s;
    }
  }

  function Strich(wenn: bool): string {
    if wenn then "-" else ""
  }

  /** What the substitution makes: the words with hyphens between them, perhaps one in front and one behind. */
  lemma {:induction false} ErsetztIstWorte(s: string) returns (hinten: bool)
    ensures Ersetze(s) == Strich(s != "" && !Alphanumerisch(s[0])) + (MitStrichen(Worte(s)) + Strich(hinten))
    ensures Worte(s) == [] ==> !hinten
    decreases |s|
  {
    if s == "" {
      hinten := false;
    } else if !Alphanumerisch(s[0]) {
      hinten := MitTrennerVorn(s);
    } else {
      hinten := MitWortVorn(s);
    }
  }

  lemma {:induction false} MitTrennerVorn(s: string) returns (hinten: bool)
    requires s != "" && !Alphanumerisch(s[0])
    ensures Ersetze(s) == Strich(true) + (MitStrichen(Worte(s)) + Strich(hinten)) && (Worte(s) == [] ==> !hinten)
    decreases |s|, 0
  {
    var t := OhneAnfang(s[1..]);
    hinten := ErsetztIstWorte(t);
    WorteNachAnfang(s[1..]);
    assert Ersetze(s) == "-" + Ersetze(t) && Worte(s) == Worte(t);
    hide Ersetze, Worte, MitStrichen, OhneAnfang, Alphanumerisch;
    assert Strich(false) + (MitStrichen(Worte(t)) + Strich(hinten)) == MitStrichen(Worte(t)) + Strich(hinten);
  }

  lemma {:induction false} MitWortVorn(s: string) returns (hinten: bool)
    requires s != "" && Alphanumerisch(s[0])
    ensures Ersetze(s) == Strich(false) + (MitStrichen(Worte(s)) + Strich(hinten)) && (Worte(s) == [] ==> !hinten)
    decreases |s|, 0
  {
    var n := Wortlaenge(s);
    var rest := s[n..];
    hinten := ErsetztIstWorte(rest);
    ErsetzeNachWort(s, n);
    assert Worte(s) == [s[..n]] + Worte(rest);
    assert rest != "" && Worte(rest) != [] ==> !Alphanumerisch(rest[0]);
    hide Ersetze, Worte, OhneAnfang, Alphanumerisch, MitStrichen, Wortlaenge, Strich;
    WortVorn(s[..n], Worte(rest), rest != "", hinten);
    if Worte(rest) == [] { hinten := rest != ""; }
    LeerVorn(MitStrichen(Worte(s)) + Strich(hinten));
  }

  lemma LeerVorn(x: string)
    ensures Strich(false) + x == x
  {
  }

  lemma WortVorn(w: string, ws: seq<string>, rest: bool, hinten: bool)
    requires ws != [] ==> rest
    requires ws == [] ==> !hinten
    ensures w + (Strich(rest) + (MitStrichen(ws) + Strich(hinten))) ==
            MitStrichen([w] + ws) + Strich(if ws == [] then rest else hinten)
  {
    var j, b := MitStrichen(ws), Strich(hinten);
    if ws == [] {
      assert j == "" && b == "" && MitStrichen([w] + ws) == w;
      assert Strich(rest) + (j + b) == Strich(rest);
    } else {
      assert ([w] + ws)[1..] == ws;
      hide MitStrichen;
      Umgeklammert4(w, "-", j, b);
      assert MitStrichen([w] + ws) == w + "-" + j by { Gestrichen(w, ws); }
    }
  }

  lemma Gestrichen(w: string, ws: seq<string>)
    requires ws != []
    ensures MitStrichen([w] + ws) == w + "-" + MitStrichen(ws)
  {
    assert ([w] + ws)[1..] == ws;
  }

  lemma Umgeklammert4(a: string, b: string, c: string, d: string)
    ensures a + (b + (c + d)) == a + b + c + d
  {
  }

  lemma OhneRand(j: string, vorn: bool, hinten: bool)
    requires j != "" ==> j[0] != '-' && j[|j| - 1] != '-'
    requires j == "" ==> !hinten
    ensures OhneRandstriche(Strich(vorn) + (j + Strich(hinten))) == j
  {
    var s := j + Strich(hinten);
    OhneRandHinten(j, hinten);
    var t := Strich(vorn) + s;
    if vorn {
      assert t[0] == '-' && t[1..] == s;
    } else {
      assert t == s;
    }
  }

  lemma OhneRandHinten(j: string, hinten: bool)
    requires j != "" ==> j[0] != '-' && j[|j| - 1] != '-'
    requires j == "" ==> !hinten
    ensures OhneRandstriche(j + Strich(hinten)) == j
  {
    assert OhneRandstriche(j) == j;
    var s := j + Strich(hinten);
    if hinten {
      assert s[0] == j[0] && s[|s| - 1] == '-' && s[..|s| - 1] == j;
    } else {
      assert s == j;
    }
  }

  /**
   * The slug is the words of the folded name with hyphens between them, cut at 60, and a stopgap when there are none.
   */
  lemma SlugIstWorte(falte: string -> string, name: Option<string>)
    ensures var j := MitStrichen(Worte(falte(if name.Some? then name.value else "")));
            Slug(falte, name) == if j == "" then "unbenannt" else if |j| > 60 then j[..60] else j
  {
    var t := falte(if name.Some? then name.value else "");
    var hinten := ErsetztIstWorte(t);
    var j := MitStrichen(Worte(t));
    if Worte(t) != [] { StricheInnen(Worte(t)); }
    OhneRand(j, t != "" && !Alphanumerisch(t[0]), hinten);
  }

  // ---------------------------------------------------------------- str.split

  function Index(s: string, c: char): (i: nat)
    ensures i <= |s| && (i < |s| ==> s[i] == c) && forall j :: 0 <= j < i ==> s[j] != c
  {
    if s == "" || s[0] == c then 0 else 1 + Index(s[1..], c)
  }

  /** `s.split(c, schnitte)` */
  function Split(s: string, c: char, schnitte: nat): (teile: seq<string>)
    ensures 1 <= |teile| <= schnitte + 1
    ensures c in s && schnitte > 0 ==> |teile| > 1
    decreases schnitte
  {
    var i := Index(s, c);
    if i == |s| || schnitte == 0 then [s] else [s[..i]] + Split(s[i + 1..], c, schnitte - 1)
  }

  predicate BeginntMit(s: string, anfang: string) {
    |anfang| <= |s| && s[..|anfang|] == anfang
  }

  /** `_pdf_praefix`: `pdf:<data sheet>` of an external id. */
  function PdfPraefix(externId: Option<string>): (r: Option<string>)
    ensures r.Some? <==> externId.Some? && BeginntMit(externId.value, "pdf:")
  {
    if !Gefuellt(externId) || !BeginntMit(externId.value, "pdf:") then
      None
    else
      var teile := Split(externId.value, ':', 2);
      assert externId.value[3] == "pdf:"[3];
      if |teile| >= 2 then Some(teile[0] + ":" + teile[1]) else None
  }

  lemma {:induction false} IndexVon(a: string, c: char, rest: string)
    requires c !in a
    ensures Index(a + [c] + rest, c) == |a|
    decreases |a|
  {
    if a != "" {
      assert (a + [c] + rest)[1..] == a[1..] + [c] + rest;
      IndexVon(a[1..], c, rest);
    } else {
      assert (a + [c] + rest)[0] == c;
    }
  }

  /**
   * A data sheet number is the prefix of the ids built on it exactly when it holds no colon; otherwise it is cut off
   * there.
   */
  lemma PraefixDesDatenblatts(nummer: string, rest: string)
    ensures PdfPraefix(Some("pdf:" + (nummer + ":" + rest))) == Some("pdf:" + nummer[..Index(nummer, ':')])
    ensures PdfPraefix(Some("pdf:" + (nummer + ":" + rest))) == Some("pdf:" + nummer) <==> ':' !in nummer
  {
    var i := Index(nummer, ':');
    GleicheBlaetter(nummer[..i], nummer);
    if i == |nummer| {
      assert nummer[..i] == nummer;
      hide PdfPraefix;
      PraefixOhneDoppelpunkt(nummer, rest);
    } else {
      Umgeklammert(nummer, i, rest);
      hide PdfPraefix;
      PraefixOhneDoppelpunkt(nummer[..i], nummer[i + 1..] + ":" + rest);
    }
  }

  lemma Umgeklammert(nummer: string, i: nat, rest: string)
    requires i < |nummer| && nummer[i] == ':'
    ensures nummer + ":" + rest == nummer[..i] + ":" + (nummer[i + 1..] + ":" + rest)
    ensures nummer[..i] != nummer
  {
    assert nummer == nummer[..i] + ":" + nummer[i + 1..];
  }

  lemma GleicheBlaetter(a: string, b: string)
    ensures "pdf:" + a == "pdf:" + b <==> a == b
  {
    assert ("pdf:" + a)[4..] == a && ("pdf:" + b)[4..] == b;
  }

  lemma PraefixOhneDoppelpunkt(nummer: string, rest: string)
    requires ':' !in nummer
    ensures PdfPraefix(Some("pdf:" + (nummer + ":" + rest))) == Some("pdf:" + nummer)
  {
    var innen := nummer + ":" + rest;
    var s := "pdf:" + innen;
    assert s == "pdf" + [':'] + innen;
    assert innen == nummer + [':'] + rest;
    IndexVon("pdf", ':', innen);
    IndexVon(nummer, ':', rest);
    assert s[4..] == innen && s[..3] == "pdf";
    assert innen[|nummer| + 1..] == rest && innen[..|nummer|] == nummer;
    var rechts := Split(innen, ':', 1);
    assert rechts == [nummer, rest];
    assert Split(s, ':', 2) == ["pdf"] + rechts;
    assert s[..4] == "pdf:";
    assert "pdf" + ":" + nummer == "pdf:" + nummer;
  }
}
