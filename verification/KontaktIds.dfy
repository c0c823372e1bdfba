/** The stabilised external ids of alembic/versions/0186_bma_scraper_entfernen.py. */
module KontaktIds {
  import opened Grundlagen
  import opened NamensSlug
  import opened Dezimal
  import opened KontaktBestand

  /** A row of `bma_import_satz` with an object. */
  datatype Satz = Satz(orgId: int, objektId: int, externId: string, bmaNummer: Option<string>)

  function PdfSaetze(saetze: seq<Satz>): (r: seq<Satz>)
    ensures forall s :: s in r <==> s in saetze && BeginntMit(s.externId, "pdf:")
  {
    if saetze == [] then []
    else if BeginntMit(saetze[0].externId, "pdf:") then [saetze[0]] + PdfSaetze(saetze[1..])
    else PdfSaetze(saetze[1..])
  }

  function MitNummer(saetze: seq<Satz>): (r: seq<Satz>)
    ensures forall s :: s in r <==> s in saetze && Gefuellt(s.bmaNummer)
  {
    if saetze == [] then []
    else if Gefuellt(saetze[0].bmaNummer) then [saetze[0]] + MitNummer(saetze[1..])
    else MitNummer(saetze[1..])
  }

  function FuerObjekt(saetze: seq<Satz>, orgId: int, objektId: int): seq<Satz> {
    if saetze == [] then []
    else if saetze[0].orgId == orgId && saetze[0].objektId == objektId then
      [saetze[0]] + FuerObjekt(saetze[1..], orgId, objektId)
    else FuerObjekt(saetze[1..], orgId, objektId)
  }

  /** The data sheet of an object: its only `pdf:` row, or the number of a scraped row when there is no `pdf:` row. */
  function Basis(kandidaten: seq<Satz>): (b: Option<string>)
    ensures b.Some? ==> BeginntMit(b.value, "pdf:")
  {
    var pdf := PdfSaetze(kandidaten);
    if |pdf| == 1 then assert pdf[0] in pdf; Some(pdf[0].externId)
    else if pdf == [] then
      var scraper := MitNummer(kandidaten);
      if scraper != [] then Some("pdf:" + Anzeige(scraper[0].bmaNummer)) else None
    else None
  }

  function Kopf(basis: string, art: Option<string>): string {
    basis + ":" + Anzeige(art) + ":"
  }

  /** The id before a collision number is added. */
  function Kern(basis: string, art: Option<string>, slug: string): string {
    Kopf(basis, art) + slug
  }

  /** The suffix for the `nr`-th contact with one id: nothing for the first, `#nr` from the second on. */
  function Suffix(nr: nat): string {
    if nr > 1 then "#" + Ziffern(nr) else ""
  }

  // ---------------------------------------------------------------- reading an id apart

  /** Of two splits of one string, what lies between the cuts is in the rest of the earlier one. */
  lemma LiegtImRest(a: string, x: string, b: string, y: string, i: int)
    requires a + x == b + y && |a| <= i < |b|
    ensures |x| > i - |a| && x[i - |a|] == b[i]
  {
    assert (a + x)[i] == (b + y)[i];
  }

  /** A string splits in one way only into a part that ends with `c` and a part without `c`. */
  lemma LetzteTrennung(a: string, x: string, b: string, y: string, c: char)
    requires a + x == b + y && a != "" && b != "" && a[|a| - 1] == c && b[|b| - 1] == c && c !in x && c !in y
    ensures a == b && x == y
  {
    if |a| < |b| {
      LiegtImRest(a, x, b, y, |b| - 1);
    } else if |b| < |a| {
      LiegtImRest(b, y, a, x, |a| - 1);
    }
    assert a == (a + x)[..|a|] && b == (b + y)[..|b|];
    assert x == (a + x)[|a|..] && y == (b + y)[|b|..];
  }

  /** A string splits in one way only into a part without `c` and a part that is empty or starts with `c`. */
  lemma ErsteTrennung(a: string, x: string, b: string, y: string, c: char)
    requires a + x == b + y && c !in a && c !in b && (x != "" ==> x[0] == c) && (y != "" ==> y[0] == c)
    ensures a == b && x == y
  {
    if |a| < |b| {
      LiegtImRest(a, x, b, y, |a|);
    } else if |b| < |a| {
      LiegtImRest(b, y, a, x, |b|);
    }
    assert a == (a + x)[..|a|] && b == (b + y)[..|b|];
    assert x == (a + x)[|a|..] && y == (b + y)[|b|..];
  }

  lemma SlugOhneTrenner(s: string)
    requires SlugAlphabet(s)
    ensures ':' !in s && '#' !in s
  {
  }

  lemma KopfEndet(basis: string, art: Option<string>)
    ensures var a := Kopf(basis, art); a != "" && a[|a| - 1] == ':'
  {
  }

  lemma SuffixOhneDoppelpunkt(nr: nat)
    ensures ':' !in Suffix(nr) && (Suffix(nr) != "" ==> Suffix(nr)[0] == '#')
  {
    assert forall c :: c in Ziffern(nr) ==> IstZiffer(c);
  }

  lemma SuffixEindeutig(m: nat, n: nat)
    requires m > 0 && n > 0 && Suffix(m) == Suffix(n)
    ensures m == n
  {
    if m > 1 && n > 1 {
      assert Suffix(m)[1..] == Ziffern(m) && Suffix(n)[1..] == Ziffern(n);
      ZahlVonZiffern(m);
      ZahlVonZiffern(n);
    }
  }

  /**
   * Two ids are equal only with equal cores and equal collision numbers, whatever the bases, roles and names contain.
   */
  lemma IdsSindEindeutigLesbar(basis: string, art: Option<string>, slug: string, nr: nat,
                               basis': string, art': Option<string>, slug': string, nr': nat)
    requires SlugAlphabet(slug) && SlugAlphabet(slug') && nr > 0 && nr' > 0
    requires Kern(basis, art, slug) + Suffix(nr) == Kern(basis', art', slug') + Suffix(nr')
    ensures Kern(basis, art, slug) == Kern(basis', art', slug') && nr == nr' && slug == slug'
  {
    var a, a' := Kopf(basis, art), Kopf(basis', art');
    SlugOhneTrenner(slug);
    SlugOhneTrenner(slug');
    SuffixOhneDoppelpunkt(nr);
    SuffixOhneDoppelpunkt(nr');
    KopfEndet(basis, art);
    KopfEndet(basis', art');
    hide Kopf, Suffix, SlugAlphabet;
    assert Kern(basis, art, slug) + Suffix(nr) == a + (slug + Suffix(nr));
    assert Kern(basis', art', slug') + Suffix(nr') == a' + (slug' + Suffix(nr'));
    LetzteTrennung(a, slug + Suffix(nr), a', slug' + Suffix(nr'), ':');
    ErsteTrennung(slug, Suffix(nr), slug', Suffix(nr'), '#');
    SuffixEindeutig(nr, nr');
  }

  // ---------------------------------------------------------------- the ids of a whole run

  datatype Zaehlschluessel = Zaehlschluessel(orgId: int, objektId: int, kern: string)

  /** The import rows and the slug folding the migration works with. */
  datatype Lage = Lage(saetze: seq<Satz>, falte: string -> string) {
    function BasisVon(k: Kontakt): Option<string> {
      Basis(FuerObjekt(saetze, k.orgId, k.objektId))
    }

    function Schluessel(k: Kontakt): Option<Zaehlschluessel> {
      if BasisVon(k).None? then None
      else Some(Zaehlschluessel(k.orgId, k.objektId, Kern(BasisVon(k).value, k.art, Slug(falte, k.name))))
    }

    /** How many of the first `n` contacts have the key `s`. */
    ghost function Anzahl(zeilen: seq<Kontakt>, n: nat, s: Zaehlschluessel): nat
      requires n <= |zeilen|
    {
      if n == 0 then 0 else Anzahl(zeilen, n - 1, s) + if Schluessel(zeilen[n - 1]) == Some(s) then 1 else 0
    }

    /** The row of the `i`-th contact afterwards. */
    ghost function Danach(zeilen: seq<Kontakt>, i: nat): Kontakt
      requires i < |zeilen|
    {
      var k := zeilen[i];
      match Schluessel(k)
      case None => k.(quelle := None, externId := None)
      case Some(s) => k.(externId := Some(s.kern + Suffix(Anzahl(zeilen, i + 1, s))))
    }
  }

  lemma {:induction false} AnzahlWaechst(l: Lage, zeilen: seq<Kontakt>, m: nat, n: nat, s: Zaehlschluessel)
    requires m <= n <= |zeilen|
    ensures l.Anzahl(zeilen, m, s) <= l.Anzahl(zeilen, n, s)
    decreases n
  {
    hide Lage.Schluessel;
    if m < n { AnzahlWaechst(l, zeilen, m, n - 1, s); }
  }

  /** Contacts of one object that stay imported end with pairwise different ids. */
  lemma IdsSindVerschieden(l: Lage, zeilen: seq<Kontakt>, i: nat, j: nat)
    requires i < j < |zeilen| && zeilen[i].orgId == zeilen[j].orgId && zeilen[i].objektId == zeilen[j].objektId
    requires l.Schluessel(zeilen[i]).Some? && l.Schluessel(zeilen[j]).Some?
    ensures l.Danach(zeilen, i).externId != l.Danach(zeilen, j).externId
  {
    var k, m := zeilen[i], zeilen[j];
    var s, t := l.Schluessel(k).value, l.Schluessel(m).value;
    var nr, nr' := l.Anzahl(zeilen, i + 1, s), l.Anzahl(zeilen, j + 1, t);
    AnzahlWaechst(l, zeilen, 0, i, s);
    AnzahlWaechst(l, zeilen, 0, j, t);
    if s.kern + Suffix(nr) == t.kern + Suffix(nr') {
      IdsSindEindeutigLesbar(l.BasisVon(k).value, k.art, Slug(l.falte, k.name), nr,
                             l.BasisVon(m).value, m.art, Slug(l.falte, m.name), nr');
      assert s == t;
      AnzahlWaechst(l, zeilen, i + 1, j, s);
    }
  }

  /** Every generated id starts with `pdf:`, and a contact without a data sheet loses its import identity. */
  lemma IdsSindDatenblaetter(l: Lage, zeilen: seq<Kontakt>, i: nat)
    requires i < |zeilen| && zeilen[i].quelle == Some(BMA_QUELLE)
    ensures var k := l.Danach(zeilen, i);
            (k.quelle.None? && k.externId.None?) ||
            (k.quelle == Some(BMA_QUELLE) && k.externId.Some? && BeginntMit(k.externId.value, "pdf:"))
  {
    var k := zeilen[i];
    if l.Schluessel(k).Some? {
      var basis := l.BasisVon(k).value;
      assert l.Danach(zeilen, i).externId.value[..4] == basis[..4];
    }
  }

  // ---------------------------------------------------------------- the ids in terms of the columns

  /** Import row `a` belongs to the object and is a data sheet. */
  predicate IstBlattzeile(saetze: seq<Satz>, orgId: int, objektId: int, a: nat) {
    a < |saetze| && saetze[a].orgId == orgId && saetze[a].objektId == objektId && BeginntMit(saetze[a].externId, "pdf:")
  }

  /** Import row `a` belongs to the object and has a number. */
  predicate IstNummernzeile(saetze: seq<Satz>, orgId: int, objektId: int, a: nat) {
    a < |saetze| && saetze[a].orgId == orgId && saetze[a].objektId == objektId && saetze[a].bmaNummer.Some? &&
      saetze[a].bmaNummer.value != ""
  }

  ghost predicate HatZweiBlaetter(saetze: seq<Satz>, orgId: int, objektId: int) {
    exists a: nat, c: nat :: a != c && IstBlattzeile(saetze, orgId, objektId, a) &&
      IstBlattzeile(saetze, orgId, objektId, c)
  }

  /** The data sheet of an object: its only one, or without any the first number; nothing when there are several. */
  ghost predicate IstDatenblatt(saetze: seq<Satz>, orgId: int, objektId: int, b: Option<string>) {
    if HatZweiBlaetter(saetze, orgId, objektId) then b.None?
    else if exists a: nat :: IstBlattzeile(saetze, orgId, objektId, a)
    then exists a: nat :: IstBlattzeile(saetze, orgId, objektId, a) && b == Some(saetze[a].externId)
    else if exists a: nat :: IstNummernzeile(saetze, orgId, objektId, a)
    then (exists a: nat :: IstErsteNummernzeile(saetze, orgId, objektId, a) &&
                           b == Some("pdf:" + saetze[a].bmaNummer.value))
    else b.None?
  }

  ghost predicate IstErsteNummernzeile(saetze: seq<Satz>, orgId: int, objektId: int, a: nat) {
    IstNummernzeile(saetze, orgId, objektId, a) && forall c: nat :: IstNummernzeile(saetze, orgId, objektId, c) ==>
      a <= c
  }

  function Gefiltert(saetze: seq<Satz>, p: Satz -> bool): seq<Satz> {
    if saetze == [] then []
    else if p(saetze[0]) then [saetze[0]] + Gefiltert(saetze[1..], p)
    else Gefiltert(saetze[1..], p)
  }

  /** The first element of a filtered list, and whether it is the only one. */
  lemma {:induction false} ErsteGefilterte(saetze: seq<Satz>, p: Satz -> bool) returns (a: nat)
    ensures Gefiltert(saetze, p) == [] <==> forall c :: 0 <= c < |saetze| ==> !p(saetze[c])
    ensures Gefiltert(saetze, p) != [] ==>
              a < |saetze| && p(saetze[a]) && Gefiltert(saetze, p)[0] == saetze[a] && forall c :: 0 <= c < a ==>
                !p(saetze[c])
    ensures |Gefiltert(saetze, p)| == 1 <==>
              Gefiltert(saetze, p) != [] && forall c :: 0 <= c < |saetze| && p(saetze[c]) ==> c == a
  {
    a := 0;
    if saetze != [] {
      var b := ErsteGefilterte(saetze[1..], p);
      assert forall c :: 1 <= c < |saetze| ==> saetze[c] == saetze[1..][c - 1];
      assert forall c :: 0 <= c < |saetze| - 1 ==> saetze[1..][c] == saetze[c + 1];
      if !p(saetze[0]) { a := b + 1; }
    }
  }

  lemma {:induction false} NurDasObjekt(saetze: seq<Satz>, orgId: int, objektId: int)
    ensures PdfSaetze(FuerObjekt(saetze, orgId, objektId)) == Gefiltert(saetze, Blattzeile(orgId, objektId))
    ensures MitNummer(FuerObjekt(saetze, orgId, objektId)) == Gefiltert(saetze, Nummernzeile(orgId, objektId))
  {
    if saetze != [] {
      NurDasObjekt(saetze[1..], orgId, objektId);
      var f := FuerObjekt(saetze[1..], orgId, objektId);
      assert ([saetze[0]] + f)[1..] == f;
    }
  }

  function Blattzeile(orgId: int, objektId: int): Satz -> bool {
    (s: Satz) => s.orgId == orgId && s.objektId == objektId && BeginntMit(s.externId, "pdf:")
  }

  function Nummernzeile(orgId: int, objektId: int): Satz -> bool {
    (s: Satz) => s.orgId == orgId && s.objektId == objektId && s.bmaNummer.Some? && s.bmaNummer.value != ""
  }

  lemma DatenblattGenau(saetze: seq<Satz>, orgId: int, objektId: int)
    ensures IstDatenblatt(saetze, orgId, objektId, Basis(FuerObjekt(saetze, orgId, objektId)))
  {
    var a := ErsteGefilterte(saetze, Blattzeile(orgId, objektId));
    var c := ErsteGefilterte(saetze, Nummernzeile(orgId, objektId));
    NurDasObjekt(saetze, orgId, objektId);
    assert forall x: nat :: IstBlattzeile(saetze, orgId, objektId, x) <==>
      x < |saetze| && Blattzeile(orgId, objektId)(saetze[x]);
    assert forall x: nat :: IstNummernzeile(saetze, orgId, objektId, x) <==>
      x < |saetze| && Nummernzeile(orgId, objektId)(saetze[x]);
    hide FuerObjekt, PdfSaetze, MitNummer, Gefiltert, IstBlattzeile, IstNummernzeile, Blattzeile, Nummernzeile;
    if MitNummer(FuerObjekt(saetze, orgId, objektId)) != [] {
      assert IstNummernzeile(saetze, orgId, objektId, c) ==> IstErsteNummernzeile(saetze, orgId, objektId, c);
    }
  }

  /** The id before its collision number. */
  function Kernname(basis: string, k: Kontakt, falte: string -> string): string {
    basis + ":" + (if k.art.Some? then k.art.value else "None") + ":" + Slug(falte, k.name)
  }

  /** An earlier contact `j` of the same object has the same id without its number. */
  ghost predicate GleicherKern(l: Lage, zeilen: seq<Kontakt>, i: nat, j: nat)
    requires i < |zeilen| && j < |zeilen|
  {
    && zeilen[j].orgId == zeilen[i].orgId && zeilen[j].objektId == zeilen[i].objektId
    && exists b :: IstDatenblatt(l.saetze, zeilen[i].orgId, zeilen[i].objektId, Some(b)) &&
                   Kernname(b, zeilen[j], l.falte) == Kernname(b, zeilen[i], l.falte)
  }

  ghost function FruehereGleiche(l: Lage, zeilen: seq<Kontakt>, i: nat, n: nat): set<nat>
    requires n <= i < |zeilen|
  {
    set j: nat | 0 <= j < n && GleicherKern(l, zeilen, i, j)
  }

  /**
   * The row of the `i`-th contact: without a data sheet no import identity, else its id, numbered from the second on.
   */
  ghost predicate IdRichtig(l: Lage, zeilen: seq<Kontakt>, i: nat, n: Kontakt)
    requires i < |zeilen|
  {
    var k := zeilen[i];
    if IstDatenblatt(l.saetze, k.orgId, k.objektId, None) then n == k.(quelle := None, externId := None)
    else
      var frueher := |FruehereGleiche(l, zeilen, i, i)|;
      exists b :: IstDatenblatt(l.saetze, k.orgId, k.objektId, Some(b)) &&
        n == k.(externId := Some(Kernname(b, k, l.falte) + if frueher == 0 then "" else "#" + Ziffern(frueher + 1)))
  }

  lemma DatenblattEindeutig(saetze: seq<Satz>, orgId: int, objektId: int, b: Option<string>, c: Option<string>)
    requires IstDatenblatt(saetze, orgId, objektId, b) && IstDatenblatt(saetze, orgId, objektId, c)
    ensures b == c
  {
    hide IstBlattzeile, IstNummernzeile;
  }

  lemma KernGenauDann(l: Lage, zeilen: seq<Kontakt>, i: nat, j: nat)
    requires i < |zeilen| && j < |zeilen| && l.Schluessel(zeilen[i]).Some?
    ensures l.Schluessel(zeilen[j]) == l.Schluessel(zeilen[i]) <==> GleicherKern(l, zeilen, i, j)
  {
    var k := zeilen[i];
    DatenblattGenau(l.saetze, k.orgId, k.objektId);
    var b := l.BasisVon(k);
    forall c | IstDatenblatt(l.saetze, k.orgId, k.objektId, Some(c))
      ensures Some(c) == b
    {
      DatenblattEindeutig(l.saetze, k.orgId, k.objektId, Some(c), b);
    }
    hide IstDatenblatt, Basis, FuerObjekt, Slug;
  }

  lemma {:induction false} AnzahlGenau(l: Lage, zeilen: seq<Kontakt>, i: nat, n: nat, s: Zaehlschluessel)
    requires n <= i < |zeilen| && l.Schluessel(zeilen[i]) == Some(s)
    ensures l.Anzahl(zeilen, n, s) == |FruehereGleiche(l, zeilen, i, n)|
    decreases n
  {
    if n == 0 {
      assert FruehereGleiche(l, zeilen, i, 0) == {};
    } else {
      hide GleicherKern, Lage.Schluessel, FruehereGleiche;
      AnzahlGenau(l, zeilen, i, n - 1, s);
      KernGenauDann(l, zeilen, i, n - 1);
      EinerFrueher(l, zeilen, i, n);
    }
  }

  lemma EinerFrueher(l: Lage, zeilen: seq<Kontakt>, i: nat, n: nat)
    requires 0 < n <= i < |zeilen|
    ensures |FruehereGleiche(l, zeilen, i, n)| ==
            |FruehereGleiche(l, zeilen, i, n - 1)| + if GleicherKern(l, zeilen, i, n - 1) then 1 else 0
  {
    hide GleicherKern;
    var v := FruehereGleiche(l, zeilen, i, n - 1);
    assert FruehereGleiche(l, zeilen, i, n) == if GleicherKern(l, zeilen, i, n - 1) then v + {n - 1} else v;
  }

  lemma IdGenau(l: Lage, zeilen: seq<Kontakt>, i: nat)
    requires i < |zeilen|
    ensures IdRichtig(l, zeilen, i, l.Danach(zeilen, i))
  {
    var k := zeilen[i];
    DatenblattGenau(l.saetze, k.orgId, k.objektId);
    var b := l.BasisVon(k);
    if IstDatenblatt(l.saetze, k.orgId, k.objektId, None) {
      DatenblattEindeutig(l.saetze, k.orgId, k.objektId, None, b);
    }
    if b.Some? {
      AnzahlGenau(l, zeilen, i, i, l.Schluessel(k).value);
      assert Kern(b.value, k.art, Slug(l.falte, k.name)) == Kernname(b.value, k, l.falte);
      assert l.Anzahl(zeilen, i + 1, l.Schluessel(k).value) == l.Anzahl(zeilen, i, l.Schluessel(k).value) + 1;
    }
    hide IstDatenblatt, Basis, FuerObjekt, Slug, GleicherKern, Kern, Kernname;
  }

  // ---------------------------------------------------------------- the loop

  /** `zeilen` lists the imported rows of the table once each, in any order. */
  ghost predicate ListetImporte(t: map<nat, Kontakt>, zeilen: seq<Kontakt>) {
    && (forall i :: i in t ==> t[i].id == i)
    && (forall i :: 0 <= i < |zeilen| ==>
        zeilen[i].id in t && t[zeilen[i].id] == zeilen[i] && zeilen[i].quelle == Some(BMA_QUELLE))
    && (forall i, j :: 0 <= i < j < |zeilen| ==> zeilen[i].id != zeilen[j].id)
    && (forall x :: x in t && t[x].quelle == Some(BMA_QUELLE) ==> t[x] in zeilen)
  }

  /** The table after the first `n` contacts. */
  ghost predicate DanachBis(l: Lage, t: map<nat, Kontakt>, zeilen: seq<Kontakt>, n: nat, u: map<nat, Kontakt>)
    requires n <= |zeilen|
  {
    && u.Keys == t.Keys
    && (forall i :: 0 <= i < n && zeilen[i].id in u ==> u[zeilen[i].id] == l.Danach(zeilen, i))
    && (forall x :: x in t && (forall i :: 0 <= i < n ==> zeilen[i].id != x) ==> u[x] == t[x])
  }

  /** The counters hold how often each key has occurred. */
  ghost predicate ZaehltBis(l: Lage, zeilen: seq<Kontakt>, n: nat, zaehler: map<Zaehlschluessel, nat>)
    requires n <= |zeilen|
  {
    forall s {:trigger l.Anzahl(zeilen, n, s)} {:trigger s in zaehler} ::
      (if s in zaehler then zaehler[s] else 0) == l.Anzahl(zeilen, n, s)
  }

  lemma NochUnveraendert(l: Lage, t: map<nat, Kontakt>, zeilen: seq<Kontakt>, i: nat, u: map<nat, Kontakt>)
    requires ListetImporte(t, zeilen) && i < |zeilen| && DanachBis(l, t, zeilen, i, u)
    ensures zeilen[i].id in u && u[zeilen[i].id] == zeilen[i]
  {
    hide Lage.Danach;
  }

  lemma EinerMehr(l: Lage, t: map<nat, Kontakt>, zeilen: seq<Kontakt>, i: nat, u: map<nat, Kontakt>)
    requires ListetImporte(t, zeilen) && i < |zeilen| && DanachBis(l, t, zeilen, i, u)
    ensures DanachBis(l, t, zeilen, i + 1, u[zeilen[i].id := l.Danach(zeilen, i)])
  {
    hide Lage.Danach;
  }

  /** Every imported row has its id, and every other row is as it was. */
  ghost predicate AlleIdsRichtig(l: Lage, t: map<nat, Kontakt>, zeilen: seq<Kontakt>, u: map<nat, Kontakt>) {
    && u.Keys == t.Keys
    && (forall i :: 0 <= i < |zeilen| ==> zeilen[i].id in u && IdRichtig(l, zeilen, i, u[zeilen[i].id]))
    && (forall x :: x in t && t[x].quelle != Some("dibos_bma") ==> u[x] == t[x])
  }

  lemma AlleIdsGenau(l: Lage, t: map<nat, Kontakt>, zeilen: seq<Kontakt>, u: map<nat, Kontakt>)
    requires ListetImporte(t, zeilen) && DanachBis(l, t, zeilen, |zeilen|, u)
    ensures AlleIdsRichtig(l, t, zeilen, u)
  {
    forall i | 0 <= i < |zeilen|
      ensures IdRichtig(l, zeilen, i, u[zeilen[i].id])
    {
      IdGenau(l, zeilen, i);
      hide IdRichtig, Lage.Danach;
    }
    hide IdRichtig, Lage.Danach;
  }

  class KontaktTabelle {
    var kontakte: map<nat, Kontakt>

    /** The loop body for one contact. */
    method VergebeId(l: Lage, ghost t: map<nat, Kontakt>, ghost zeilen: seq<Kontakt>, ghost i: nat, k: Kontakt,
                     zaehler: map<Zaehlschluessel, nat>) returns (kollisionszaehler: map<Zaehlschluessel, nat>)
      requires ListetImporte(t, zeilen) && i < |zeilen| && k == zeilen[i] && DanachBis(l, t, zeilen, i, kontakte)
      requires ZaehltBis(l, zeilen, i, zaehler)
      modifies this
      ensures DanachBis(l, t, zeilen, i + 1, kontakte) && ZaehltBis(l, zeilen, i + 1, kollisionszaehler)
    {
      ghost var vorher := kontakte;
      kollisionszaehler := zaehler;
      NochUnveraendert(l, t, zeilen, i, kontakte);
      hide DanachBis, ListetImporte, Kern, Suffix, Lage.Schluessel;
      match l.Schluessel(k) {
        case None =>
          kontakte := kontakte[k.id := kontakte[k.id].(quelle := None, externId := None)];
        case Some(s) =>
          kollisionszaehler := zaehler[s := (if s in zaehler then zaehler[s] else 0) + 1];
          var nr := kollisionszaehler[s];
          assert nr == l.Anzahl(zeilen, i + 1, s);
          kontakte := kontakte[k.id := kontakte[k.id].(externId := Some(s.kern + Suffix(nr)))];
      }
      assert kontakte == vorher[k.id := l.Danach(zeilen, i)];
      EinerMehr(l, t, zeilen, i, vorher);
    }

    /** The id-building loop of `upgrade`. */
    method VergebeIds(l: Lage, zeilen: seq<Kontakt>)
      requires ListetImporte(kontakte, zeilen)
      modifies this
      ensures DanachBis(l, old(kontakte), zeilen, |zeilen|, kontakte) &&
              AlleIdsRichtig(l, old(kontakte), zeilen, kontakte)
    {
      ghost var t := kontakte;
      var kollisionszaehler: map<Zaehlschluessel, nat> := map[];
      for i := 0 to |zeilen|
        invariant DanachBis(l, t, zeilen, i, kontakte) && ZaehltBis(l, zeilen, i, kollisionszaehler)
      {
        kollisionszaehler := VergebeId(l, t, zeilen, i, zeilen[i], kollisionszaehler);
      }
      AlleIdsGenau(l, t, zeilen, kontakte);
    }
  }

  /** What 0188 relies on: after this migration only data-sheet ids are left, and imported ids are unique per object. */
  lemma DatenblaetterDanach(l: Lage, t: map<nat, Kontakt>, zeilen: seq<Kontakt>, u: map<nat, Kontakt>,
                            slug: Option<string> -> string)
    requires ListetImporte(t, zeilen) && DanachBis(l, t, zeilen, |zeilen|, u)
    requires forall x :: x in t ==> t[x].quelle == Some(BMA_QUELLE) || (t[x].quelle.None? && t[x].externId.None?)
    ensures NurDatenblaetter(Bestand(u, slug)) && KeineDubletten(u)
  {
    forall x | x in u
      ensures u[x].id == x && NurDatenblatt(u[x])
    {
      var _ := StelleVon(l, t, zeilen, u, x);
    }
    forall x, y | x in u && y in u && x != y && ExternVon(u[x]).Some?
      ensures ExternVon(u[x]) != ExternVon(u[y])
    {
      if ExternVon(u[x]) == ExternVon(u[y]) {
        ZweiVerschieden(l, t, zeilen, u, x, y);
      }
    }
  }

  ghost predicate NurDatenblatt(k: Kontakt) {
    (k.quelle.None? && k.externId.None?) ||
      (k.quelle == Some(BMA_QUELLE) && (k.externId.Some? ==> BeginntMit(k.externId.value, "pdf:")))
  }

  /** A row afterwards is untouched and hand-kept, or the result for one listed contact. */
  lemma StelleVon(l: Lage, t: map<nat, Kontakt>, zeilen: seq<Kontakt>, u: map<nat, Kontakt>, x: nat) returns (i: nat)
    requires ListetImporte(t, zeilen) && DanachBis(l, t, zeilen, |zeilen|, u) && x in u
    requires t[x].quelle == Some(BMA_QUELLE) || (t[x].quelle.None? && t[x].externId.None?)
    ensures i <= |zeilen| && u[x].id == x && NurDatenblatt(u[x])
    ensures i == |zeilen| ==> u[x] == t[x] && u[x].externId.None?
    ensures i < |zeilen| ==> zeilen[i] == t[x] && u[x] == l.Danach(zeilen, i)
  {
    if t[x].quelle == Some(BMA_QUELLE) {
      i :| 0 <= i < |zeilen| && zeilen[i] == t[x];
      IdsSindDatenblaetter(l, zeilen, i);
    } else {
      i := |zeilen|;
      assert forall j :: 0 <= j < |zeilen| ==> zeilen[j].id != x;
    }
  }

  lemma ZweiVerschieden(l: Lage, t: map<nat, Kontakt>, zeilen: seq<Kontakt>, u: map<nat, Kontakt>, x: nat, y: nat)
    requires ListetImporte(t, zeilen) && DanachBis(l, t, zeilen, |zeilen|, u) && x in u && y in u && x != y
    requires forall x :: x in t ==> t[x].quelle == Some(BMA_QUELLE) || (t[x].quelle.None? && t[x].externId.None?)
    requires u[x].orgId == u[y].orgId && u[x].objektId == u[y].objektId && u[x].externId.Some?
    ensures u[x].externId != u[y].externId
  {
    var i := StelleVon(l, t, zeilen, u, x);
    var j := StelleVon(l, t, zeilen, u, y);
    hide ListetImporte, DanachBis, NurDatenblatt;
    if i < |zeilen| && j < |zeilen| && u[y].externId.Some? {
      IdsSindVerschieden(l, zeilen, if i < j then i else j, if i < j then j else i);
    }
  }
}
