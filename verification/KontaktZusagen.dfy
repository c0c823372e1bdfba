/** What 0188 promises of the contact table, said on its columns alone. */
module KontaktZusagen {
  import opened Grundlagen
  import opened Huelle
  import opened NamensSlug
  import opened KontaktBestand

  type Kontakte = map<nat, Kontakt>

  /** The same role and name, compared as slugs, at the same object. */
  predicate DieselbePerson(k: Kontakt, m: Kontakt, slug: Option<string> -> string) {
    && k.orgId == m.orgId && k.objektId == m.objektId && slug(k.name) == slug(m.name)
    && (if k.art.Some? && k.art.value != "" then k.art.value else "sonstig")
       == (if m.art.Some? && m.art.value != "" then m.art.value else "sonstig")
  }

  predicate Importiert(k: Kontakt) {
    k.quelle == Some("dibos_bma") && k.externId.Some? && k.externId.value != ""
  }

  /** The person of `k` is kept by hand in one row and imported in another, from one data sheet at most. */
  ghost predicate WirdAdoptiert(t: Kontakte, slug: Option<string> -> string, k: Kontakt) {
    && (exists h :: h in t && DieselbePerson(k, t[h], slug) && t[h].quelle.None?)
    && (exists i :: i in t && DieselbePerson(k, t[i], slug) && Importiert(t[i]))
    && (forall i, j :: ImportDerPerson(t, slug, k, i) && ImportDerPerson(t, slug, k, j) ==>
          PdfPraefix(t[i].externId) == PdfPraefix(t[j].externId))
  }

  /** An imported row of the person of `k` that a data sheet manages. */
  ghost predicate ImportDerPerson(t: Kontakte, slug: Option<string> -> string, k: Kontakt, i: nat) {
    i in t && DieselbePerson(k, t[i], slug) && Importiert(t[i]) && PdfPraefix(t[i].externId).Some?
  }

  /** Two rows are one contact: the same external key, or the same adopted person. */
  ghost predicate GehoertZusammen(t: Kontakte, slug: Option<string> -> string, k: Kontakt, m: Kontakt) {
    || (k.orgId == m.orgId && k.objektId == m.objektId && k.quelle == m.quelle && k.externId.Some? &&
        k.externId == m.externId)
    || (DieselbePerson(k, m, slug) && WirdAdoptiert(t, slug, k))
  }

  ghost function Verknuepft(t: Kontakte, slug: Option<string> -> string): (nat, nat) -> bool {
    (x: nat, y: nat) => x == y || (x in t && y in t && GehoertZusammen(t, slug, t[x], t[y]))
  }

  /** `x` and `y` are linked directly or over other contacts. */
  ghost predicate EinKontakt(t: Kontakte, slug: Option<string> -> string, x: nat, y: nat) {
    x in t && y in t && Verbunden(Verknuepft(t, slug), x, y)
  }

  /** `x` is the row of smallest id among the contacts linked to `r` that satisfy `p`. */
  ghost predicate ErsteVon(t: Kontakte, slug: Option<string> -> string, r: nat, p: Kontakt -> bool, x: nat) {
    EinKontakt(t, slug, r, x) && p(t[x]) && forall y :: EinKontakt(t, slug, r, y) && p(t[y]) ==> x <= y
  }

  /** The surviving row of `r` afterwards: everything but three columns as before. */
  ghost predicate ZeileZusammengefuehrt(t: Kontakte, slug: Option<string> -> string, r: nat, n: Kontakt)
    requires r in t
  {
    var k := t[r];
    && n.id == k.id && n.orgId == k.orgId && n.objektId == k.objektId && n.art == k.art && n.name == k.name
    && (if WirdAdoptiert(t, slug, k)
        then exists x :: ErsteVon(t, slug, r, Importiert, x) && n.quelle == t[x].quelle && n.externId == t[x].externId
        else n.quelle == k.quelle && n.externId == k.externId)
    && (if exists x :: EinKontakt(t, slug, r, x) && HatErreichbarkeit(t[x])
        then exists x :: ErsteVon(t, slug, r, HatErreichbarkeit, x) && n.erreichbarkeit == t[x].erreichbarkeit
        else n.erreichbarkeit.None?)
  }

  predicate HatErreichbarkeit(k: Kontakt) {
    k.erreichbarkeit.Some? && k.erreichbarkeit.value != ""
  }

  /** Of linked rows exactly the one of smallest id is left. */
  ghost predicate Zusammengefuehrt(t: Kontakte, slug: Option<string> -> string, u: Kontakte) {
    && (forall r :: r in u <==> r in t && forall y :: EinKontakt(t, slug, r, y) ==> r <= y)
    && (forall r :: r in u ==> ZeileZusammengefuehrt(t, slug, r, u[r]))
  }

  /** No two rows agree on organisation, object, source and a non-null external id; two NULL sources agree. */
  ghost predicate OhneDubletten(u: Kontakte) {
    forall i, j :: i in u && j in u && i != j && u[i].externId.Some? ==>
      !(u[i].orgId == u[j].orgId && u[i].objektId == u[j].objektId && u[i].quelle == u[j].quelle &&
        u[i].externId == u[j].externId)
  }

  lemma DublettenGenauDann(u: Kontakte)
    ensures KeineDubletten(u) <==> OhneDubletten(u)
  {
    forall i, j | i in u && j in u && i != j && u[i].externId.Some?
      ensures ExternVon(u[i]) == ExternVon(u[j]) <==>
              (u[i].orgId == u[j].orgId && u[i].objektId == u[j].objektId && u[i].quelle == u[j].quelle &&
               u[i].externId == u[j].externId)
    {
    }
  }

  /** Every reference to a contact goes to the row left of it, every other reference stays. */
  ghost predicate VerweiseMitgefuehrt(t: Kontakte, slug: Option<string> -> string, u: Kontakte,
                                      alt: map<nat, Option<nat>>, neu: map<nat, Option<nat>>) {
    && neu.Keys == alt.Keys
    && (forall w {:trigger neu[w]} :: w in alt && alt[w].Some? && alt[w].value in t ==>
          neu[w].Some? && neu[w].value in u && EinKontakt(t, slug, alt[w].value, neu[w].value))
    && (forall w {:trigger neu[w]} :: w in alt && (alt[w].None? || alt[w].value !in t) ==> neu[w] == alt[w])
  }

  // ---------------------------------------------------------------- the specification means just that

  lemma PersonGenauDann(b: Bestand, k: Kontakt, m: Kontakt)
    ensures b.Person(k) == b.Person(m) <==> DieselbePerson(k, m, b.slug)
  {
  }

  lemma GruppeGenau(b: Bestand, k: Kontakt, g: set<Kontakt>)
    requires g == b.Personengruppe(b.Person(k))
    ensures forall x :: x in b.kontakte ==> (b.kontakte[x] in g <==> DieselbePerson(k, b.kontakte[x], b.slug))
    ensures forall m :: m in g ==> exists x :: x in b.kontakte && b.kontakte[x] == m
  {
    forall x | x in b.kontakte
      ensures b.kontakte[x] in g <==> DieselbePerson(k, b.kontakte[x], b.slug)
    {
      PersonGenauDann(b, k, b.kontakte[x]);
      hide DieselbePerson;
    }
  }

  lemma AdoptionGenauDann(b: Bestand, k: Kontakt)
    ensures b.Adoptiert(b.Person(k)) <==> WirdAdoptiert(b.kontakte, b.slug, k)
  {
    var t, g := b.kontakte, b.Personengruppe(b.Person(k));
    GruppeGenau(b, k, g);
    EinPraefixGenauDann(g);
    EinBlattGenauDann(b, k, g);
    assert b.Adoptiert(b.Person(k)) <==> Adoptierbar(g);
    GleicheTests();
    hide DieselbePerson, Bestand.Personengruppe, Bestand.Person, Bestand.Adoptiert, Praefixe, EinBlatt, Importiert,
      IstImport, ImportDerPerson;
    if x :| x in t && DieselbePerson(k, t[x], b.slug) && t[x].quelle.None? { assert t[x] in g; }
    if x :| x in t && DieselbePerson(k, t[x], b.slug) && Importiert(t[x]) { assert t[x] in g; }
  }

  /** No two rows of `g` are managed by different data sheets. */
  ghost predicate EinBlatt(g: set<Kontakt>) {
    forall a, c :: a in g && c in g && MitBlatt(a) && MitBlatt(c) ==> PdfPraefix(a.externId) == PdfPraefix(c.externId)
  }

  lemma EinBlattGenauDann(b: Bestand, k: Kontakt, g: set<Kontakt>)
    requires g == b.Personengruppe(b.Person(k))
    ensures var t := b.kontakte;
            EinBlatt(g) <==>
            forall i, j :: ImportDerPerson(t, b.slug, k, i) && ImportDerPerson(t, b.slug, k, j) ==>
              PdfPraefix(t[i].externId) == PdfPraefix(t[j].externId)
  {
    var t := b.kontakte;
    GruppeGenau(b, k, g);
    hide DieselbePerson, Bestand.Personengruppe, Bestand.Person, PdfPraefix, Importiert;
    forall i | i in t
      ensures ImportDerPerson(t, b.slug, k, i) <==> t[i] in g && MitBlatt(t[i])
    {
    }
    hide ImportDerPerson, MitBlatt;
    if !EinBlatt(g) {
      var a, c :| a in g && c in g && MitBlatt(a) && MitBlatt(c) && PdfPraefix(a.externId) != PdfPraefix(c.externId);
      var x :| x in t && t[x] == a;
      var y :| y in t && t[y] == c;
      assert ImportDerPerson(t, b.slug, k, x) && ImportDerPerson(t, b.slug, k, y);
    }
  }

  predicate MitBlatt(k: Kontakt) {
    Importiert(k) && PdfPraefix(k.externId).Some?
  }

  lemma EinPraefixGenauDann(g: set<Kontakt>)
    ensures |Praefixe(g)| <= 1 <==> EinBlatt(g)
  {
    hide PdfPraefix;
    var ps := Praefixe(g);
    if |ps| <= 1 {
      forall a, c | a in g && c in g && MitBlatt(a) && MitBlatt(c)
        ensures PdfPraefix(a.externId) == PdfPraefix(c.externId)
      {
        HoechstensEines(ps, PdfPraefix(a.externId).value, PdfPraefix(c.externId).value);
      }
    }
    if |ps| > 1 {
      var p :| p in ps;
      assert ps - {p} != {} by { assert |ps - {p}| == |ps| - 1; }
      var q :| q in ps - {p};
      var a :| a in g && IstImport(a) && PdfPraefix(a.externId).Some? && PdfPraefix(a.externId).value == p;
      var c :| c in g && IstImport(c) && PdfPraefix(c.externId).Some? && PdfPraefix(c.externId).value == q;
      assert MitBlatt(a) && MitBlatt(c);
    }
  }

  lemma VerknuepfungGenauDann(b: Bestand, x: nat, y: nat)
    ensures b.Verknuepfung()(x, y) <==> Verknuepft(b.kontakte, b.slug)(x, y)
  {
    if x in b.kontakte && y in b.kontakte {
      PersonGenauDann(b, b.kontakte[x], b.kontakte[y]);
      AdoptionGenauDann(b, b.kontakte[x]);
    }
    hide WirdAdoptiert, DieselbePerson, Bestand.Adoptiert, Bestand.Person;
  }

  /** The classes of the specification are the contacts linked directly or over others. */
  lemma KlasseGenauDann(b: Bestand, x: nat, y: nat)
    requires x in b.kontakte
    ensures y in b.Klasse(x) <==> EinKontakt(b.kontakte, b.slug, x, y)
  {
    var k, l := b.Verknuepfung(), Verknuepft(b.kontakte, b.slug);
    forall u, v
      ensures k(u, v) == l(u, v)
    {
      VerknuepfungGenauDann(b, u, v);
    }
    hide Verbunden, Bestand.Verknuepfung, Verknuepft;
    if Verbunden(k, x, y) { VerbundenMonoton(k, l, x, y); }
    if Verbunden(l, x, y) { VerbundenMonoton(l, k, x, y); }
  }

  lemma ErsteZeileGenauDann(b: Bestand, r: nat, p: Kontakt -> bool)
    requires r in b.kontakte
    ensures b.ErsteZeile(r, p).None? <==> forall y :: EinKontakt(b.kontakte, b.slug, r, y) ==> !p(b.kontakte[y])
    ensures b.ErsteZeile(r, p).Some? ==>
              exists x :: ErsteVon(b.kontakte, b.slug, r, p, x) && b.ErsteZeile(r, p) == Some(b.kontakte[x])
  {
    forall y
      ensures y in b.Klasse(r) <==> EinKontakt(b.kontakte, b.slug, r, y)
    {
      KlasseGenauDann(b, r, y);
    }
    hide EinKontakt, Bestand.Klasse;
    forall y
      ensures y in b.Treffer(r, p) <==> EinKontakt(b.kontakte, b.slug, r, y) && p(b.kontakte[y])
    {
    }
    if b.Treffer(r, p) != {} {
      assert ErsteVon(b.kontakte, b.slug, r, p, Minimum(b.Treffer(r, p)));
    }
  }

  lemma ZeileGenau(b: Bestand, r: nat)
    requires r in b.kontakte
    ensures ZeileZusammengefuehrt(b.kontakte, b.slug, r, b.Nachher(r))
  {
    AdoptionGenauDann(b, b.kontakte[r]);
    if b.Adoptiert(b.Person(b.kontakte[r])) { ImportzeileVorhanden(b, r); }
    GleicheTests();
    hide WirdAdoptiert, EinKontakt, Bestand.Adoptiert, Bestand.Person, Bestand.ErsteZeile, HatErreichbarkeit,
      Importiert, IstImport, Erreichbar, ErsteVon;
    ErsteGenau(b, r, Erreichbar, HatErreichbarkeit);
    ErsteGenau(b, r, IstImport, Importiert);
  }

  /** The first row by one test is the first by any test that agrees with it. */
  lemma ErsteGenau(b: Bestand, r: nat, p: Kontakt -> bool, q: Kontakt -> bool)
    requires r in b.kontakte && forall k :: p(k) == q(k)
    ensures b.ErsteZeile(r, p).None? <==> forall y :: EinKontakt(b.kontakte, b.slug, r, y) ==> !q(b.kontakte[y])
    ensures b.ErsteZeile(r, p).Some? ==>
              exists x :: ErsteVon(b.kontakte, b.slug, r, q, x) && b.ErsteZeile(r, p) == Some(b.kontakte[x])
  {
    ErsteZeileGenauDann(b, r, p);
    hide EinKontakt, Bestand.ErsteZeile;
    if x :| ErsteVon(b.kontakte, b.slug, r, p, x) && b.ErsteZeile(r, p) == Some(b.kontakte[x]) {
      assert ErsteVon(b.kontakte, b.slug, r, q, x);
    }
  }

  lemma GleicheTests()
    ensures forall k :: IstImport(k) == Importiert(k)
    ensures forall k :: Erreichbar(k) == HatErreichbarkeit(k)
  {
  }

  /** The table the migration is proved to reach keeps what is promised of it. */
  lemma BereinigtIstZusammengefuehrt(b: Bestand)
    requires b.Gueltig()
    ensures Zusammengefuehrt(b.kontakte, b.slug, b.Bereinigt()) && OhneDubletten(b.Bereinigt())
  {
    BereinigtIstEindeutig(b);
    DublettenGenauDann(b.Bereinigt());
    forall r
      ensures r in b.Bereinigt() <==> r in b.kontakte && forall y :: EinKontakt(b.kontakte, b.slug, r, y) ==> r <= y
    {
      if r in b.kontakte { UeberlebenderGenauDann(b, r); }
    }
    forall r | r in b.Bereinigt()
      ensures ZeileZusammengefuehrt(b.kontakte, b.slug, r, b.Bereinigt()[r])
    {
      ZeileGenau(b, r);
      hide ZeileZusammengefuehrt;
    }
    hide *;
    assert Zusammengefuehrt(b.kontakte, b.slug, b.Bereinigt());
  }

  lemma UeberlebenderGenauDann(b: Bestand, r: nat)
    requires r in b.kontakte
    ensures b.Ueberlebender(r) == r <==> forall y :: EinKontakt(b.kontakte, b.slug, r, y) ==> r <= y
    ensures EinKontakt(b.kontakte, b.slug, r, b.Ueberlebender(r))
  {
    forall y
      ensures y in b.Klasse(r) <==> EinKontakt(b.kontakte, b.slug, r, y)
    {
      KlasseGenauDann(b, r, y);
    }
    VerbundenReflexiv(b.Verknuepfung(), r);
    assert r in b.Klasse(r);
    hide EinKontakt, Bestand.Klasse;
  }

  lemma VerweiseGenau(b: Bestand, alt: map<nat, Option<nat>>, neu: map<nat, Option<nat>>)
    requires neu == map w | w in alt :: b.Umgehaengt(alt[w])
    ensures VerweiseMitgefuehrt(b.kontakte, b.slug, b.Bereinigt(), alt, neu)
  {
    forall w | w in alt && alt[w].Some? && alt[w].value in b.kontakte
      ensures neu[w].Some? && neu[w].value in b.Bereinigt() &&
              EinKontakt(b.kontakte, b.slug, alt[w].value, neu[w].value)
    {
      UeberlebenderUeberlebt(b, alt[w].value);
      UeberlebenderGenauDann(b, alt[w].value);
      hide EinKontakt;
    }
    hide EinKontakt, Bestand.Bereinigt;
  }
}
