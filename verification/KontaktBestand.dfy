/** What alembic/versions/0188_objekt_kontakt_dedupe_unique.py is meant to compute, stated on the table alone. */
module KontaktBestand {
  import opened Grundlagen
  import opened Huelle
  import opened NamensSlug

  const BMA_QUELLE := "dibos_bma"

  /** The columns of `objekt_kontakt` that the migration reads or writes. */
  datatype Kontakt = Kontakt(id: nat, orgId: int, objektId: int, art: Option<string>, name: Option<string>,
                             erreichbarkeit: Option<string>, quelle: Option<string>, externId: Option<string>)

  datatype ExternSchluessel = ExternSchluessel(orgId: int, objektId: int, quelle: Option<string>, externId: string)
  datatype PersonSchluessel = PersonSchluessel(orgId: int, objektId: int, art: string, slug: string)

  /** The key of the exact pass; rows without an external id take no part. */
  function ExternVon(k: Kontakt): Option<ExternSchluessel> {
    if k.externId.None? then None else Some(ExternSchluessel(k.orgId, k.objektId, k.quelle, k.externId.value))
  }

  predicate IstImport(k: Kontakt) {
    k.quelle == Some(BMA_QUELLE) && Gefuellt(k.externId)
  }

  predicate Erreichbar(k: Kontakt) {
    Gefuellt(k.erreichbarkeit)
  }

  /** The data sheets that manage imported rows of a person group. */
  function Praefixe(gruppe: set<Kontakt>): set<string> {
    set k | k in gruppe && IstImport(k) && PdfPraefix(k.externId).Some? :: PdfPraefix(k.externId).value
  }

  /** A person group may be merged when it mixes hand-kept and imported rows of at most one data sheet. */
  predicate Adoptierbar(gruppe: set<Kontakt>) {
    && (exists k :: k in gruppe && k.quelle.None?)
    && (exists k :: k in gruppe && IstImport(k))
    && |Praefixe(gruppe)| <= 1
  }

  /** No two rows share a non-null external id within (org, object, source); NULL sources count as equal. */
  ghost predicate KeineDubletten(t: map<nat, Kontakt>) {
    forall i, j :: i in t && j in t && i != j && ExternVon(t[i]).Some? ==> ExternVon(t[i]) != ExternVon(t[j])
  }

  /** The table before the migration, with the slug function in use: nothing below depends on what a slug is. */
  datatype Bestand = Bestand(kontakte: map<nat, Kontakt>, slug: Option<string> -> string) {

    ghost predicate Gueltig() {
      forall i :: i in kontakte ==> kontakte[i].id == i
    }

    /** The key of the person groups: org, object, role and name slug. */
    function Person(k: Kontakt): PersonSchluessel {
      PersonSchluessel(k.orgId, k.objektId, if Gefuellt(k.art) then k.art.value else "sonstig", slug(k.name))
    }

    /** The rows of one person. */
    ghost function Personengruppe(p: PersonSchluessel): set<Kontakt> {
      set x | x in kontakte && Person(kontakte[x]) == p :: kontakte[x]
    }

    ghost predicate Adoptiert(p: PersonSchluessel) {
      Adoptierbar(Personengruppe(p))
    }

    ghost predicate ZeilenVerknuepft(k: Kontakt, m: Kontakt) {
      || (ExternVon(k).Some? && ExternVon(k) == ExternVon(m))
      || (Person(k) == Person(m) && Adoptiert(Person(k)))
    }

    /** Two ids are linked by the same external key or by the same adopted person group. */
    ghost function Verknuepfung(): (nat, nat) -> bool {
      (x, y) => x == y || (x in kontakte && y in kontakte && ZeilenVerknuepft(kontakte[x], kontakte[y]))
    }

    /** The ids in the class of `x`: the reflexive-transitive closure of the links. */
    ghost function Klasse(x: nat): set<nat> {
      set y | y in kontakte && Verbunden(Verknuepfung(), x, y)
    }

    /** The survivor of the class of `x`: its smallest id. */
    ghost function Ueberlebender(x: nat): (r: nat)
      requires x in kontakte
      ensures r in Klasse(x) && forall y :: y in Klasse(x) ==> r <= y
    {
      VerbundenReflexiv(Verknuepfung(), x);
      assert x in Klasse(x);
      Minimum(Klasse(x))
    }

    /** Every contact with its survivor. */
    ghost function Karte(): map<nat, nat> {
      map x | x in kontakte :: Ueberlebender(x)
    }

    ghost function Treffer(r: nat, p: Kontakt -> bool): set<nat> {
      set y | y in Klasse(r) && p(kontakte[y])
    }

    /** The row of smallest id in the class of `r` that satisfies `p`. */
    ghost function ErsteZeile(r: nat, p: Kontakt -> bool): (e: Option<Kontakt>)
      ensures e.Some? <==> Treffer(r, p) != {}
    {
      if Treffer(r, p) == {} then None else Some(kontakte[Minimum(Treffer(r, p))])
    }

    /** The survivor's row after the migration. */
    ghost function Nachher(r: nat): Kontakt
      requires r in kontakte
    {
      var k := kontakte[r];
      var kontaktzeile := ErsteZeile(r, Erreichbar);
      var importzeile := ErsteZeile(r, IstImport);
      var identitaet := if Adoptiert(Person(k)) && importzeile.Some? then importzeile.value else k;
      k.(erreichbarkeit := if kontaktzeile.Some? then kontaktzeile.value.erreichbarkeit else None,
         quelle := identitaet.quelle, externId := identitaet.externId)
    }

    /** The whole table after the migration. */
    ghost function Bereinigt(): map<nat, Kontakt> {
      map r | r in kontakte && Ueberlebender(r) == r :: Nachher(r)
    }

    /** Where a reference to a contact points after the migration. */
    ghost function Umgehaengt(verweis: Option<nat>): Option<nat> {
      if verweis.Some? && verweis.value in kontakte then Some(Ueberlebender(verweis.value)) else verweis
    }
  }

  // ---------------------------------------------------------------- classes

  lemma VerknuepfungSymmetrisch(b: Bestand)
    ensures Symmetrisch(b.Verknuepfung())
  {
  }

  lemma KlasseGleich(b: Bestand, x: nat, y: nat)
    requires x in b.kontakte && y in b.Klasse(x)
    ensures b.Klasse(x) == b.Klasse(y) && b.Ueberlebender(x) == b.Ueberlebender(y)
  {
    var k := b.Verknuepfung();
    VerknuepfungSymmetrisch(b);
    VerbundenSymmetrisch(k, x, y);
    forall z | z in b.kontakte
      ensures z in b.Klasse(x) <==> z in b.Klasse(y)
    {
      if Verbunden(k, x, z) { VerbundenTransitiv(k, y, x, z); }
      if Verbunden(k, y, z) { VerbundenTransitiv(k, x, y, z); }
    }
    assert b.Klasse(x) == b.Klasse(y);
  }

  /** Linked rows are in one class. */
  lemma VerknuepfteInEinerKlasse(b: Bestand, x: nat, y: nat)
    requires x in b.kontakte && y in b.kontakte && b.ZeilenVerknuepft(b.kontakte[x], b.kontakte[y])
    ensures y in b.Klasse(x) && b.Ueberlebender(x) == b.Ueberlebender(y)
  {
    KanteVerbindet(b.Verknuepfung(), x, y);
    KlasseGleich(b, x, y);
  }

  /** A survivor is its own survivor. */
  lemma UeberlebenderUeberlebt(b: Bestand, x: nat)
    requires x in b.kontakte
    ensures b.Ueberlebender(b.Ueberlebender(x)) == b.Ueberlebender(x)
  {
    KlasseGleich(b, x, b.Ueberlebender(x));
  }

  // ---------------------------------------------------------------- the promises of the migration

  /** A class never leaves its organisation or object. */
  lemma KlasseBleibtImObjekt(b: Bestand, x: nat, y: nat)
    requires x in b.kontakte && y in b.Klasse(x)
    ensures b.kontakte[x].orgId == b.kontakte[y].orgId && b.kontakte[x].objektId == b.kontakte[y].objektId
  {
    var weg :| Weg(b.Verknuepfung(), x, weg, y);
    WegBleibtImObjekt(b, x, weg, y);
  }

  lemma {:induction false} WegBleibtImObjekt(b: Bestand, x: nat, weg: seq<nat>, y: nat)
    requires x in b.kontakte && y in b.kontakte && Weg(b.Verknuepfung(), x, weg, y)
    ensures b.kontakte[x].orgId == b.kontakte[y].orgId && b.kontakte[x].objektId == b.kontakte[y].objektId
    decreases |weg|
  {
    if weg != [] { WegBleibtImObjekt(b, weg[0], weg[1..], y); }
  }

  lemma PersonInGruppe(b: Bestand, p: PersonSchluessel, m: Kontakt) returns (x: nat)
    requires m in b.Personengruppe(p)
    ensures x in b.kontakte && b.kontakte[x] == m && b.Person(m) == p
  {
    x :| x in b.kontakte && b.Person(b.kontakte[x]) == p && b.kontakte[x] == m;
  }

  /** A survivor of an adopted person group always has an import row in its class: `next(...)` never runs dry. */
  lemma ImportzeileVorhanden(b: Bestand, r: nat)
    requires r in b.kontakte && b.Adoptiert(b.Person(b.kontakte[r]))
    ensures b.ErsteZeile(r, IstImport).Some?
    ensures IstImport(b.ErsteZeile(r, IstImport).value)
  {
    var p := b.Person(b.kontakte[r]);
    var m :| m in b.Personengruppe(p) && IstImport(m);
    var x := PersonInGruppe(b, p, m);
    VerknuepfteInEinerKlasse(b, r, x);
    assert x in b.Treffer(r, IstImport);
  }

  /** The identity a survivor ends with was the identity of a row of its class. */
  lemma IdentitaetAusKlasse(b: Bestand, r: nat) returns (x: nat)
    requires b.Gueltig() && r in b.kontakte
    ensures x in b.Klasse(r) && b.Nachher(r).quelle == b.kontakte[x].quelle &&
            b.Nachher(r).externId == b.kontakte[x].externId
    ensures ExternVon(b.Nachher(r)) == ExternVon(b.kontakte[x])
  {
    VerbundenReflexiv(b.Verknuepfung(), r);
    x := r;
    if b.Adoptiert(b.Person(b.kontakte[r])) {
      ImportzeileVorhanden(b, r);
      x := Minimum(b.Treffer(r, IstImport));
    }
    KlasseBleibtImObjekt(b, r, x);
  }

  /** Survivors only, each still as it was or already updated: the table at any moment after the deletes. */
  ghost predicate Zwischenstand(b: Bestand, t: map<nat, Kontakt>) {
    forall r :: r in t ==> r in b.kontakte && b.Ueberlebender(r) == r && (t[r] == b.kontakte[r] || t[r] == b.Nachher(r))
  }

  /** The unique key over (org, object, source, external id) holds after every single UPDATE, not only at the end. */
  lemma ZwischenstandIstEindeutig(b: Bestand, t: map<nat, Kontakt>)
    requires b.Gueltig() && Zwischenstand(b, t)
    ensures KeineDubletten(t)
  {
    forall i, j | i in t && j in t && i != j && ExternVon(t[i]).Some?
      ensures ExternVon(t[i]) != ExternVon(t[j])
    {
      var x := IdentitaetAusKlasse(b, i);
      var y := IdentitaetAusKlasse(b, j);
      VerbundenReflexiv(b.Verknuepfung(), i);
      VerbundenReflexiv(b.Verknuepfung(), j);
      VerschiedeneKlassenVerschiedeneSchluessel(b, i, if t[i] == b.kontakte[i] then i else x,
                                                   j, if t[j] == b.kontakte[j] then j else y);
    }
  }

  lemma VerschiedeneKlassenVerschiedeneSchluessel(b: Bestand, i: nat, x: nat, j: nat, y: nat)
    requires i in b.kontakte && j in b.kontakte && b.Ueberlebender(i) != b.Ueberlebender(j)
    requires x in b.Klasse(i) && y in b.Klasse(j) && ExternVon(b.kontakte[x]).Some?
    ensures ExternVon(b.kontakte[x]) != ExternVon(b.kontakte[y])
  {
    KlasseGleich(b, i, x);
    KlasseGleich(b, j, y);
    if ExternVon(b.kontakte[x]) == ExternVon(b.kontakte[y]) {
      VerknuepfteInEinerKlasse(b, x, y);
    }
  }

  /** After the migration the unique key holds. */
  lemma BereinigtIstEindeutig(b: Bestand)
    requires b.Gueltig()
    ensures KeineDubletten(b.Bereinigt())
  {
    ZwischenstandIstEindeutig(b, b.Bereinigt());
  }

  /** A contact path anywhere in a class survives in the class's survivor. */
  lemma ErreichbarkeitBleibt(b: Bestand, x: nat)
    requires x in b.kontakte && Erreichbar(b.kontakte[x])
    ensures b.Ueberlebender(x) in b.Bereinigt() && Erreichbar(b.Bereinigt()[b.Ueberlebender(x)])
  {
    var r := b.Ueberlebender(x);
    KlasseGleich(b, x, r);
    VerbundenReflexiv(b.Verknuepfung(), x);
    assert x in b.Treffer(r, Erreichbar);
  }

  /** A reference stays set and points to an existing row, in the class it pointed to. */
  lemma VerweisBleibt(b: Bestand, verweis: Option<nat>)
    requires verweis.Some? ==> verweis.value in b.kontakte
    ensures verweis.Some? <==> b.Umgehaengt(verweis).Some?
    ensures verweis.Some? ==>
      b.Umgehaengt(verweis).value in b.Bereinigt() && b.Umgehaengt(verweis).value in b.Klasse(verweis.value)
  {
    if verweis.Some? { UeberlebenderUeberlebt(b, verweis.value); }
  }

  // ---------------------------------------------------------------- data sheets stay apart

  /** What 0186 leaves behind: rows are hand-kept without an external id, or imported under a `pdf:` id. */
  ghost predicate NurDatenblaetter(b: Bestand) {
    forall x :: x in b.kontakte ==>
      var k := b.kontakte[x];
      (k.quelle.None? && k.externId.None?) ||
      (k.quelle == Some(BMA_QUELLE) && (k.externId.Some? ==> BeginntMit(k.externId.value, "pdf:")))
  }

  /** The data sheet a row is tied to: its own prefix, or that of the adopted group it can only be linked through. */
  ghost predicate GehoertZu(b: Bestand, x: nat, praefix: string)
    requires x in b.kontakte
  {
    var k := b.kontakte[x];
    if k.externId.Some? then PdfPraefix(k.externId) == Some(praefix)
    else b.Adoptiert(b.Person(k)) ==> praefix in Praefixe(b.Personengruppe(b.Person(k)))
  }

  lemma HoechstensEines<T>(s: set<T>, x: T, y: T)
    requires |s| <= 1 && x in s && y in s
    ensures x == y
  {
    assert |s - {x}| == |s| - 1;
    assert s - {x} == {};
    assert y !in s - {x};
  }

  lemma SchrittBleibtImDatenblatt(b: Bestand, x: nat, y: nat, praefix: string)
    requires NurDatenblaetter(b) && x in b.kontakte && y in b.kontakte
    requires b.ZeilenVerknuepft(b.kontakte[x], b.kontakte[y]) && GehoertZu(b, x, praefix)
    ensures GehoertZu(b, y, praefix)
  {
    var k, m := b.kontakte[x], b.kontakte[y];
    if !(ExternVon(k).Some? && ExternVon(k) == ExternVon(m)) {
      var p := b.Person(k);
      var g := b.Personengruppe(p);
      assert k in g && m in g;
      assert praefix in Praefixe(g);
      if m.externId.Some? { HoechstensEines(Praefixe(g), praefix, PdfPraefix(m.externId).value); }
    }
  }

  lemma {:induction false} WegBleibtImDatenblatt(b: Bestand, x: nat, weg: seq<nat>, y: nat, praefix: string)
    requires NurDatenblaetter(b) && x in b.kontakte && y in b.kontakte
    requires Weg(b.Verknuepfung(), x, weg, y) && GehoertZu(b, x, praefix)
    ensures GehoertZu(b, y, praefix)
    decreases |weg|
  {
    if weg != [] {
      if weg[0] != x { SchrittBleibtImDatenblatt(b, x, weg[0], praefix); }
      WegBleibtImDatenblatt(b, weg[0], weg[1..], y, praefix);
    }
  }

  /** No class mixes two data sheets, even through chains of exact and adoption links. */
  lemma DatenblaetterBleibenGetrennt(b: Bestand, x: nat, y: nat)
    requires NurDatenblaetter(b) && x in b.kontakte && y in b.Klasse(x)
    requires PdfPraefix(b.kontakte[x].externId).Some? && PdfPraefix(b.kontakte[y].externId).Some?
    ensures PdfPraefix(b.kontakte[x].externId) == PdfPraefix(b.kontakte[y].externId)
  {
    var weg :| Weg(b.Verknuepfung(), x, weg, y);
    WegBleibtImDatenblatt(b, x, weg, y, PdfPraefix(b.kontakte[x].externId).value);
  }
}
