/** `upgrade` of alembic/versions/0188_objekt_kontakt_dedupe_unique.py, statement by statement. */
module KontaktDedupe {
  import opened Grundlagen
  import opened VereinigungsSuche
  import opened Huelle
  import opened KontaktBestand
  import Z = KontaktZusagen

  // ---------------------------------------------------------------- the result set and its groups

  /** `zeilen` is the table in the order of `ORDER BY id`. */
  ghost predicate Listet(b: Bestand, zeilen: seq<Kontakt>) {
    && b.Gueltig()
    && (forall k {:trigger k in zeilen} :: k in zeilen <==> k.id in b.kontakte && b.kontakte[k.id] == k)
    && (forall i, j :: 0 <= i < j < |zeilen| ==> zeilen[i].id < zeilen[j].id)
  }

  function IdsVon(zeilen: seq<Kontakt>): (ids: seq<nat>)
    ensures |ids| == |zeilen|
    ensures forall i :: 0 <= i < |ids| ==> ids[i] == zeilen[i].id
  {
    seq(|zeilen|, i requires 0 <= i < |zeilen| => zeilen[i].id)
  }

  lemma IdsVonEnthaelt(zeilen: seq<Kontakt>, x: nat)
    ensures x in IdsVon(zeilen) <==> exists k :: k in zeilen && k.id == x
  {
    if x in IdsVon(zeilen) {
      var i :| 0 <= i < |zeilen| && IdsVon(zeilen)[i] == x;
      assert zeilen[i] in zeilen;
    }
    if k :| k in zeilen && k.id == x {
      var i :| 0 <= i < |zeilen| && zeilen[i] == k;
      assert IdsVon(zeilen)[i] == x;
    }
  }

  /** The links made while the groups of the external keys `es` and of the persons `ps` have been united. */
  ghost function KanteBis(b: Bestand, es: set<ExternSchluessel>, ps: set<PersonSchluessel>): (nat, nat) -> bool {
    (x, y) => x == y || (x in b.kontakte && y in b.kontakte && TeiltGruppe(b, b.kontakte[x], b.kontakte[y], es, ps))
  }

  ghost predicate TeiltGruppe(b: Bestand, k: Kontakt, m: Kontakt, es: set<ExternSchluessel>,
                              ps: set<PersonSchluessel>) {
    || (ExternVon(k).Some? && ExternVon(k) == ExternVon(m) && ExternVon(k).value in es)
    || (b.Person(k) == b.Person(m) && b.Person(k) in ps)
  }

  ghost predicate BeideIn(b: Bestand, gruppe: seq<Kontakt>, x: nat, y: nat) {
    x in b.kontakte && y in b.kontakte && b.kontakte[x] in gruppe && b.kontakte[y] in gruppe
  }

  /** `l` is `k` with the rows of `gruppe` linked to each other. */
  ghost predicate UmGruppeErweitert(b: Bestand, k: (nat, nat) -> bool, gruppe: seq<Kontakt>, l: (nat, nat) -> bool) {
    && (forall x, y :: k(x, y) ==> x == y || (x in b.kontakte && y in b.kontakte))
    && (forall x, y :: l(x, y) <==> (k(x, y) || BeideIn(b, gruppe, x, y)))
  }

  /** `vereinige` over the ids of a non-empty group. */
  method VereinigeGruppe(ghost b: Bestand, zeilen: seq<Kontakt>, gruppe: seq<Kontakt>, uf: UnionFind,
                         ghost k: (nat, nat) -> bool, ghost l: (nat, nat) -> bool)
    requires Listet(b, zeilen) && gruppe != [] && forall m :: m in gruppe ==> m in zeilen
    requires uf.Valid() && uf.parent.Keys == b.kontakte.Keys
    requires Darstellt(uf.parent, k) && UmGruppeErweitert(b, k, gruppe, l)
    modifies uf
    ensures uf.Valid() && uf.parent.Keys == b.kontakte.Keys && Darstellt(uf.parent, l)
  {
    var ids := IdsVon(gruppe);
    forall x
      ensures x in ids <==> x in b.kontakte && b.kontakte[x] in gruppe
    {
      IdsVonEnthaelt(gruppe, x);
    }
    ghost var p := uf.parent;
    ghost var w := uf.Vereinige(ids);
    VereinigeErweitert(p, k, ids, l, w, uf.parent);
  }

  // ---------------------------------------------------------------- the two passes

  ghost function AlleExternen(b: Bestand): set<ExternSchluessel> {
    set x | x in b.kontakte && ExternVon(b.kontakte[x]).Some? :: ExternVon(b.kontakte[x]).value
  }

  /** The exact pass. */
  method VereinigeExakte(ghost b: Bestand, zeilen: seq<Kontakt>, uf: UnionFind)
    requires Listet(b, zeilen) && uf.Valid() && uf.parent.Keys == b.kontakte.Keys
    requires forall x :: x in uf.parent ==> Wurzel(uf.parent, x) == x
    modifies uf
    ensures uf.Valid() && uf.parent.Keys == b.kontakte.Keys
    ensures Darstellt(uf.parent, KanteBis(b, AlleExternen(b), {}))
  {
    var exakt := Gruppiere(zeilen, ExternVon);
    var rest := exakt.Keys;
    assert exakt.Keys - rest == {};
    AnfangDarstellt(uf.parent, KanteBis(b, {}, {}));
    while rest != {}
      invariant rest <= exakt.Keys
      invariant uf.Valid() && uf.parent.Keys == b.kontakte.Keys
      invariant Darstellt(uf.parent, KanteBis(b, exakt.Keys - rest, {}))
      decreases rest
    {
      var schluessel :| schluessel in rest;
      ghost var es := exakt.Keys - rest;
      VereinigeExakteGruppe(b, zeilen, exakt[schluessel], uf, es, schluessel);
      rest := rest - {schluessel};
      assert exakt.Keys - rest == es + {schluessel};
    }
    assert exakt.Keys - rest == AlleExternen(b);
  }

  /** `if len(ids) > 1: vereinige(ids)` */
  method VereinigeExakteGruppe(ghost b: Bestand, zeilen: seq<Kontakt>, gruppe: seq<Kontakt>, uf: UnionFind,
                               ghost es: set<ExternSchluessel>, ghost e: ExternSchluessel)
    requires Listet(b, zeilen) && gruppe == Gruppe(zeilen, ExternVon, e)
    requires uf.Valid() && uf.parent.Keys == b.kontakte.Keys && Darstellt(uf.parent, KanteBis(b, es, {}))
    modifies uf
    ensures uf.Valid() && uf.parent.Keys == b.kontakte.Keys && Darstellt(uf.parent, KanteBis(b, es + {e}, {}))
  {
    ghost var k, l := KanteBis(b, es, {}), KanteBis(b, es + {e}, {});
    NeuerExterner(b, zeilen, es, e);
    if |gruppe| > 1 {
      VereinigeGruppe(b, zeilen, gruppe, uf, k, l);
    } else {
      EinzelneVerbindetNichts(b, zeilen, gruppe, k, l);
      DarstelltGleich(uf.parent, k, l);
    }
  }

  lemma EinzelneVerbindetNichts(b: Bestand, zeilen: seq<Kontakt>, gruppe: seq<Kontakt>, k: (nat, nat) -> bool,
                                l: (nat, nat) -> bool)
    requires Listet(b, zeilen) && |gruppe| <= 1 && UmGruppeErweitert(b, k, gruppe, l) && forall x :: k(x, x)
    ensures forall x, y :: k(x, y) <==> l(x, y)
  {
    forall x, y | BeideIn(b, gruppe, x, y)
      ensures x == y
    {
      assert b.kontakte[x] == gruppe[0] == b.kontakte[y];
    }
  }

  lemma NeuerExterner(b: Bestand, zeilen: seq<Kontakt>, es: set<ExternSchluessel>, e: ExternSchluessel)
    requires Listet(b, zeilen)
    ensures UmGruppeErweitert(b, KanteBis(b, es, {}), Gruppe(zeilen, ExternVon, e), KanteBis(b, es + {e}, {}))
  {
    assert forall x :: x in b.kontakte ==> b.kontakte[x] in zeilen;
  }

  /** `adoptiert` holds the keys of the adopted groups among the keys that occur. */
  ghost predicate IstAdoptiert(b: Bestand, adoptiert: set<PersonSchluessel>) {
    forall x :: x in b.kontakte ==> (b.Person(b.kontakte[x]) in adoptiert <==> b.Adoptiert(b.Person(b.kontakte[x])))
  }

  /** The adoption pass over the person groups; returns `adoptierte_gruppen`. */
  method Adoptiere(b: Bestand, zeilen: seq<Kontakt>, uf: UnionFind) returns (adoptiert: set<PersonSchluessel>)
    requires Listet(b, zeilen) && uf.Valid() && uf.parent.Keys == b.kontakte.Keys
    requires Darstellt(uf.parent, KanteBis(b, AlleExternen(b), {}))
    modifies uf
    ensures uf.Valid() && uf.parent.Keys == b.kontakte.Keys
    ensures Darstellt(uf.parent, b.Verknuepfung())
    ensures IstAdoptiert(b, adoptiert)
  {
    var personen := Gruppiere(zeilen, k => Some(b.Person(k)));
    hide *;
    var rest := personen.Keys;
    ghost var erledigt: set<PersonSchluessel> := {};
    adoptiert := {};
    NichtsAdoptiert(b);
    while rest != {}
      invariant erledigt + rest == personen.Keys && erledigt !! rest
      invariant uf.Valid() && uf.parent.Keys == b.kontakte.Keys
      invariant AdoptiertBis(b, adoptiert, erledigt)
      invariant Darstellt(uf.parent, KanteBis(b, AlleExternen(b), adoptiert))
      decreases rest
    {
      var schluessel :| schluessel in rest;
      adoptiert := AdoptiereGruppe(b, zeilen, personen[schluessel], uf, adoptiert, schluessel, erledigt);
      rest, erledigt := rest - {schluessel}, erledigt + {schluessel};
    }
    AllePersonenErledigt(b, zeilen, adoptiert, erledigt);
    AlleVerknuepft(b, adoptiert);
    DarstelltGleich(uf.parent, KanteBis(b, AlleExternen(b), adoptiert), b.Verknuepfung());
  }

  ghost predicate AdoptiertBis(b: Bestand, adoptiert: set<PersonSchluessel>, erledigt: set<PersonSchluessel>) {
    && adoptiert <= erledigt
    && forall p {:trigger p in adoptiert} {:trigger p in erledigt} :: p in erledigt ==>
      (p in adoptiert <==> b.Adoptiert(p))
  }

  lemma NichtsAdoptiert(b: Bestand)
    ensures AdoptiertBis(b, {}, {})
  {
  }

  lemma AllePersonenErledigt(b: Bestand, zeilen: seq<Kontakt>, adoptiert: set<PersonSchluessel>,
                             erledigt: set<PersonSchluessel>)
    requires Listet(b, zeilen) && AdoptiertBis(b, adoptiert, erledigt)
    requires forall k :: k in zeilen ==> b.Person(k) in erledigt
    ensures IstAdoptiert(b, adoptiert)
  {
    forall x | x in b.kontakte
      ensures b.Person(b.kontakte[x]) in adoptiert <==> b.Adoptiert(b.Person(b.kontakte[x]))
    {
      assert b.kontakte[x] in zeilen;
    }
  }

  lemma AlleVerknuepft(b: Bestand, adoptiert: set<PersonSchluessel>)
    requires IstAdoptiert(b, adoptiert)
    ensures forall x, y :: KanteBis(b, AlleExternen(b), adoptiert)(x, y) <==> b.Verknuepfung()(x, y)
  {
    forall x, y | x in b.kontakte && y in b.kontakte
      ensures TeiltGruppe(b, b.kontakte[x], b.kontakte[y], AlleExternen(b), adoptiert) <==>
              b.ZeilenVerknuepft(b.kontakte[x], b.kontakte[y])
    {
    }
  }

  /** The adoption test and `vereinige` for one person group. */
  method AdoptiereGruppe(b: Bestand, zeilen: seq<Kontakt>, gruppe: seq<Kontakt>, uf: UnionFind,
                         ps: set<PersonSchluessel>, p: PersonSchluessel, ghost erledigt: set<PersonSchluessel>)
      returns (adoptiert: set<PersonSchluessel>)
    requires Listet(b, zeilen) && forall k :: k in gruppe <==> k in zeilen && b.Person(k) == p
    requires uf.Valid() && uf.parent.Keys == b.kontakte.Keys && Darstellt(uf.parent, KanteBis(b, AlleExternen(b), ps))
    requires AdoptiertBis(b, ps, erledigt) && p !in erledigt
    modifies uf
    ensures AdoptiertBis(b, adoptiert, erledigt + {p})
    ensures adoptiert == if b.Adoptiert(p) then ps + {p} else ps
    ensures uf.Valid() && uf.parent.Keys == b.kontakte.Keys
    ensures Darstellt(uf.parent, KanteBis(b, AlleExternen(b), adoptiert))
  {
    GruppeIstPerson(b, zeilen, gruppe, p);
    adoptiert := ps;
    if Adoptierbar(set k | k in gruppe) {
      NeuePerson(b, zeilen, gruppe, ps, p);
      VereinigeGruppe(b, zeilen, gruppe, uf, KanteBis(b, AlleExternen(b), ps), KanteBis(b, AlleExternen(b), ps + {p}));
      adoptiert := ps + {p};
    }
  }

  lemma GruppeIstPerson(b: Bestand, zeilen: seq<Kontakt>, gruppe: seq<Kontakt>, p: PersonSchluessel)
    requires Listet(b, zeilen) && forall k :: k in gruppe <==> k in zeilen && b.Person(k) == p
    ensures (set k | k in gruppe) == b.Personengruppe(p)
  {
  }

  lemma NeuePerson(b: Bestand, zeilen: seq<Kontakt>, gruppe: seq<Kontakt>, ps: set<PersonSchluessel>,
                   p: PersonSchluessel)
    requires Listet(b, zeilen) && forall k :: k in gruppe <==> k in zeilen && b.Person(k) == p
    ensures UmGruppeErweitert(b, KanteBis(b, AlleExternen(b), ps), gruppe, KanteBis(b, AlleExternen(b), ps + {p}))
  {
    assert forall x :: x in b.kontakte ==> b.kontakte[x] in zeilen;
  }

  // ---------------------------------------------------------------- classes

  lemma WurzelIstUeberlebender(b: Bestand, p: map<nat, nat>, x: nat)
    requires Darstellt(p, b.Verknuepfung()) && p.Keys == b.kontakte.Keys && x in p
    ensures Wurzel(p, x) == b.Ueberlebender(x)
  {
    VerbundenReflexiv(b.Verknuepfung(), x);
    WurzelIstKleinste(p, b.Verknuepfung(), x, x);
    assert Wurzel(p, x) in b.Klasse(x);
    WurzelIstKleinste(p, b.Verknuepfung(), x, b.Ueberlebender(x));
  }

  /** `gruppe` lists the rows with the ids `klasse` in id order. */
  ghost predicate ListetKlasse(kontakte: map<nat, Kontakt>, klasse: set<nat>, gruppe: seq<Kontakt>) {
    && (forall k {:trigger k in gruppe} :: k in gruppe <==> k.id in klasse && k.id in kontakte && kontakte[k.id] == k)
    && (forall i, j :: 0 <= i < j < |gruppe| ==> gruppe[i].id < gruppe[j].id)
  }

  /** `gruppen` holds the rows of `zeilen` under their survivors `w`, each group in id order. */
  ghost predicate GruppenBis(zeilen: seq<Kontakt>, w: map<nat, nat>, gruppen: map<nat, seq<Kontakt>>) {
    && (forall k :: k in zeilen ==> k.id in w && w[k.id] in gruppen)
    && (forall r :: r in gruppen ==> gruppen[r] != [])
    && (forall r, k :: r in gruppen ==> (k in gruppen[r] <==> k in zeilen && k.id in w && w[k.id] == r))
    && (forall r, i, j :: r in gruppen && 0 <= i < j < |gruppen[r]| ==> gruppen[r][i].id < gruppen[r][j].id)
  }

  lemma GruppenSchritt(vorn: seq<Kontakt>, w: map<nat, nat>, gruppen: map<nat, seq<Kontakt>>, k: Kontakt)
    requires GruppenBis(vorn, w, gruppen) && k.id in w && forall m :: m in vorn ==> m.id < k.id
    ensures var r := w[k.id];
            GruppenBis(vorn + [k], w, gruppen[r := (if r in gruppen then gruppen[r] else []) + [k]])
  {
    var r := w[k.id];
    var alt := if r in gruppen then gruppen[r] else [];
    forall i | 0 <= i < |alt|
      ensures alt[i].id < k.id
    {
      assert alt[i] in alt;
    }
  }

  /** `gruppen[find(k.id)].append(k)` */
  method BildeGruppen(zeilen: seq<Kontakt>, uf: UnionFind,
                      ghost w: map<nat, nat>) returns (gruppen: map<nat, seq<Kontakt>>)
    requires uf.Valid() && uf.parent.Keys == w.Keys && forall k :: k in zeilen ==> k.id in w
    requires forall i, j :: 0 <= i < j < |zeilen| ==> zeilen[i].id < zeilen[j].id
    requires forall x {:trigger Wurzel(uf.parent, x)} :: x in w ==> Wurzel(uf.parent, x) == w[x]
    modifies uf
    ensures GruppenBis(zeilen, w, gruppen)
  {
    ghost var p := uf.parent;
    gruppen := map[];
    for i := 0 to |zeilen|
      invariant uf.Valid() && GleicheWurzeln(p, uf.parent)
      invariant GruppenBis(zeilen[..i], w, gruppen)
    {
      var k := zeilen[i];
      assert k in zeilen && Wurzel(p, k.id) == w[k.id];
      var r := uf.Find(k.id);
      assert zeilen[..i + 1] == zeilen[..i] + [k];
      GruppenSchritt(zeilen[..i], w, gruppen, k);
      gruppen := gruppen[r := (if r in gruppen then gruppen[r] else []) + [k]];
    }
    assert zeilen[..|zeilen|] == zeilen;
  }

  lemma GruppeListetKlasse(b: Bestand, zeilen: seq<Kontakt>, gruppen: map<nat, seq<Kontakt>>, r: nat)
    requires Listet(b, zeilen) && GruppenBis(zeilen, b.Karte(), gruppen) && r in gruppen
    ensures r in b.kontakte && b.Ueberlebender(r) == r && ListetKlasse(b.kontakte, b.Klasse(r), gruppen[r])
  {
    hide *;
    var x := GruppeNichtLeer(zeilen, b.Karte(), gruppen, r);
    WertDerKarte(b, x);
    KlasseNachKarte(b, r);
    GruppeListet(b, zeilen, b.Karte(), gruppen, r, b.Klasse(r));
  }

  lemma GruppeNichtLeer(zeilen: seq<Kontakt>, w: map<nat, nat>, gruppen: map<nat, seq<Kontakt>>,
                        r: nat) returns (x: nat)
    requires GruppenBis(zeilen, w, gruppen) && r in gruppen
    ensures x in w && w[x] == r
  {
    assert gruppen[r][0] in gruppen[r];
    x := gruppen[r][0].id;
  }

  lemma WertDerKarte(b: Bestand, x: nat)
    requires x in b.Karte()
    ensures b.Karte().Keys == b.kontakte.Keys
    ensures b.Karte()[x] in b.kontakte && b.Ueberlebender(b.Karte()[x]) == b.Karte()[x]
  {
    UeberlebenderUeberlebt(b, x);
  }

  lemma GruppeListet(b: Bestand, zeilen: seq<Kontakt>, w: map<nat, nat>, gruppen: map<nat, seq<Kontakt>>, r: nat,
                     klasse: set<nat>)
    requires Listet(b, zeilen) && GruppenBis(zeilen, w, gruppen) && r in gruppen && w.Keys == b.kontakte.Keys
    requires klasse == set x | x in w && w[x] == r
    ensures ListetKlasse(b.kontakte, klasse, gruppen[r])
  {
  }

  lemma KlasseNachKarte(b: Bestand, r: nat)
    requires r in b.kontakte && b.Ueberlebender(r) == r
    ensures b.Klasse(r) == set x | x in b.Karte() && b.Karte()[x] == r
  {
    forall x
      ensures x in b.Klasse(r) <==> x in b.Karte() && b.Karte()[x] == r
    {
      InKlasse(b, r, x);
    }
  }

  lemma InKlasse(b: Bestand, r: nat, x: nat)
    requires r in b.kontakte && b.Ueberlebender(r) == r
    ensures x in b.Klasse(r) <==> x in b.kontakte && b.Ueberlebender(x) == r
  {
    if x in b.Klasse(r) { KlasseGleich(b, r, x); }
    if x in b.kontakte && b.Ueberlebender(x) == r {
      KlasseGleich(b, x, r);
      VerbundenReflexiv(b.Verknuepfung(), x);
    }
  }

  lemma UeberlebendeHabenGruppe(b: Bestand, zeilen: seq<Kontakt>, gruppen: map<nat, seq<Kontakt>>)
    requires Listet(b, zeilen) && GruppenBis(zeilen, b.Karte(), gruppen)
    ensures gruppen.Keys == b.Bereinigt().Keys
  {
    forall r
      ensures r in gruppen <==> r in b.Bereinigt()
    {
      if r in gruppen { GruppeListetKlasse(b, zeilen, gruppen, r); }
      if r in b.Bereinigt() { assert b.kontakte[r] in zeilen && b.Karte()[r] == r; }
    }
  }

  /** `next((k for k in gruppe if p(k)), None)` */
  function Naechste(gruppe: seq<Kontakt>, p: Kontakt -> bool): Option<Kontakt> {
    if gruppe == [] then None else if p(gruppe[0]) then Some(gruppe[0]) else Naechste(gruppe[1..], p)
  }

  lemma {:induction false} NaechsteStelle(gruppe: seq<Kontakt>, p: Kontakt -> bool) returns (i: nat)
    ensures i <= |gruppe| && (forall j :: 0 <= j < i ==> !p(gruppe[j]))
    ensures if i == |gruppe| then Naechste(gruppe, p) == None
            else p(gruppe[i]) && Naechste(gruppe, p) == Some(gruppe[i])
  {
    if gruppe == [] || p(gruppe[0]) {
      i := 0;
    } else {
      i := NaechsteStelle(gruppe[1..], p);
      i := i + 1;
    }
  }

  lemma NaechsteIstErste(b: Bestand, r: nat, gruppe: seq<Kontakt>, p: Kontakt -> bool)
    requires b.Gueltig() && ListetKlasse(b.kontakte, b.Klasse(r), gruppe)
    ensures Naechste(gruppe, p) == b.ErsteZeile(r, p)
  {
    var i := NaechsteStelle(gruppe, p);
    var treffer := b.Treffer(r, p);
    forall y | y in treffer
      ensures i < |gruppe| && gruppe[i].id <= y
    {
      assert b.kontakte[y] in gruppe;
    }
    if i < |gruppe| {
      assert gruppe[i] in gruppe;
      assert gruppe[i].id in treffer;
    }
  }

  // ---------------------------------------------------------------- updates and losers

  datatype Aenderung = Aenderung(id: nat, erreichbarkeit: Option<string>, quelle: Option<string>,
                                 externId: Option<string>)

  function Geaendert(k: Kontakt, u: Aenderung): Kontakt {
    k.(erreichbarkeit := u.erreichbarkeit, quelle := u.quelle, externId := u.externId)
  }

  /** `verlierer` pairs ids with their survivors, and has every loser whose survivor is in `erledigt`. */
  ghost predicate VerliererVon(w: map<nat, nat>, verlierer: seq<(nat, nat)>, erledigt: set<nat>) {
    && (forall v :: v in verlierer ==> v.0 in w && v.0 != v.1 && w[v.0] == v.1)
    && (forall x :: x in w && w[x] != x && w[x] in erledigt ==> (x, w[x]) in verlierer)
  }

  /** Every update makes a survivor's row what it should become, and every survivor in `erledigt` has one. */
  ghost predicate AenderungenVon(kontakte: map<nat, Kontakt>, ziel: map<nat, Kontakt>, updates: seq<Aenderung>,
                                 erledigt: set<nat>) {
    && (forall u :: u in updates ==> u.id in kontakte && u.id in ziel && Geaendert(kontakte[u.id], u) == ziel[u.id])
    && (forall r :: r in erledigt ==> exists u :: u in updates && u.id == r)
  }

  /** The loop over the classes that collects `updates` and `verlierer`. */
  method BaueAenderungen(b: Bestand, ghost zeilen: seq<Kontakt>, gruppen: map<nat, seq<Kontakt>>,
                         adoptiert: set<PersonSchluessel>)
      returns (updates: seq<Aenderung>, verlierer: seq<(nat, nat)>)
    requires Listet(b, zeilen) && GruppenBis(zeilen, b.Karte(), gruppen)
    requires IstAdoptiert(b, adoptiert)
    ensures Gesammelt(b, updates, verlierer, b.Bereinigt().Keys)
  {
    hide *;
    updates, verlierer := [], [];
    var rest := gruppen.Keys;
    ghost var erledigt: set<nat> := {};
    NichtsGesammelt(b);
    while rest != {}
      invariant erledigt + rest == gruppen.Keys
      invariant Gesammelt(b, updates, verlierer, erledigt)
      decreases rest
    {
      var wurzel :| wurzel in rest;
      updates, verlierer := SammleKlasse(b, zeilen, gruppen, adoptiert, wurzel, updates, verlierer, erledigt);
      rest, erledigt := rest - {wurzel}, erledigt + {wurzel};
    }
    UeberlebendeHabenGruppe(b, zeilen, gruppen);
  }

  ghost predicate Gesammelt(b: Bestand, updates: seq<Aenderung>, verlierer: seq<(nat, nat)>, erledigt: set<nat>) {
    VerliererVon(b.Karte(), verlierer, erledigt) && AenderungenVon(b.kontakte, b.Bereinigt(), updates, erledigt)
  }

  lemma NichtsGesammelt(b: Bestand)
    ensures Gesammelt(b, [], [], {})
  {
  }

  /** The loop body for the class of `wurzel`. */
  method SammleKlasse(b: Bestand, ghost zeilen: seq<Kontakt>, gruppen: map<nat, seq<Kontakt>>,
                      adoptiert: set<PersonSchluessel>,
                      wurzel: nat, updates0: seq<Aenderung>, verlierer0: seq<(nat, nat)>, ghost erledigt: set<nat>)
      returns (updates: seq<Aenderung>, verlierer: seq<(nat, nat)>)
    requires Listet(b, zeilen) && GruppenBis(zeilen, b.Karte(), gruppen) && wurzel in gruppen &&
             IstAdoptiert(b, adoptiert)
    requires Gesammelt(b, updates0, verlierer0, erledigt)
    ensures Gesammelt(b, updates, verlierer, erledigt + {wurzel})
  {
    GruppeListetKlasse(b, zeilen, gruppen, wurzel);
    var u, neue := AenderungEinerKlasse(b, wurzel, gruppen[wurzel], adoptiert);
    KlasseErledigt(b.kontakte, b.Karte(), b.Bereinigt(), erledigt, wurzel, updates0, verlierer0, u, neue);
    updates, verlierer := updates0 + [u], verlierer0 + neue;
  }

  lemma KlasseErledigt(kontakte: map<nat, Kontakt>, w: map<nat, nat>, ziel: map<nat, Kontakt>, erledigt: set<nat>,
                       wurzel: nat,
                       updates: seq<Aenderung>, verlierer: seq<(nat, nat)>, u: Aenderung, neue: seq<(nat, nat)>)
    requires VerliererVon(w, verlierer, erledigt) && AenderungenVon(kontakte, ziel, updates, erledigt)
    requires VerliererVon(w, neue, {wurzel}) && AenderungenVon(kontakte, ziel, [u], {wurzel})
    ensures VerliererVon(w, verlierer + neue, erledigt + {wurzel})
    ensures AenderungenVon(kontakte, ziel, updates + [u], erledigt + {wurzel})
  {
    forall r | r in erledigt + {wurzel}
      ensures exists a :: a in updates + [u] && a.id == r
    {
      if r == wurzel {
        assert u in updates + [u];
      } else {
        var a :| a in updates && a.id == r;
        assert a in updates + [u];
      }
    }
  }

  /** `min(gruppe, key=lambda k: k["id"])` */
  method KleinsteZeile(gruppe: seq<Kontakt>) returns (m: Kontakt)
    requires gruppe != []
    ensures m in gruppe && forall k :: k in gruppe ==> m.id <= k.id
  {
    m := gruppe[0];
    for i := 1 to |gruppe|
      invariant m in gruppe && forall j :: 0 <= j < i ==> m.id <= gruppe[j].id
    {
      if gruppe[i].id < m.id { m := gruppe[i]; }
    }
  }

  /** One class: the survivor's new values, and everyone else as a loser. */
  method AenderungEinerKlasse(b: Bestand, ghost wurzel: nat, gruppe: seq<Kontakt>, adoptiert: set<PersonSchluessel>)
      returns (u: Aenderung, verlierer: seq<(nat, nat)>)
    requires b.Gueltig() && wurzel in b.kontakte && b.Ueberlebender(wurzel) == wurzel &&
             ListetKlasse(b.kontakte, b.Klasse(wurzel), gruppe)
    requires IstAdoptiert(b, adoptiert)
    ensures VerliererVon(b.Karte(), verlierer, {wurzel})
    ensures AenderungenVon(b.kontakte, b.Bereinigt(), [u], {wurzel})
  {
    VerbundenReflexiv(b.Verknuepfung(), wurzel);
    assert b.kontakte[wurzel] in gruppe;
    var ueberlebender := KleinsteZeile(gruppe);
    assert ueberlebender.id == wurzel;
    verlierer := Verlierer(b, wurzel, gruppe, ueberlebender);
    NaechsteIstErste(b, wurzel, gruppe, Erreichbar);
    NaechsteIstErste(b, wurzel, gruppe, IstImport);
    var kontaktzeile := Naechste(gruppe, Erreichbar);
    var identitaet := ueberlebender;
    if b.Person(ueberlebender) in adoptiert {
      ImportzeileVorhanden(b, wurzel);
      identitaet := Naechste(gruppe, IstImport).value;
    }
    u := Aenderung(ueberlebender.id, if kontaktzeile.Some? then kontaktzeile.value.erreichbarkeit else None,
                   identitaet.quelle, identitaet.externId);
    assert [u][0] == u;
    assert Geaendert(b.kontakte[wurzel], u) == b.Nachher(wurzel);
  }

  /** `(k["id"], ueberlebender["id"]) for k in gruppe if k["id"] != ueberlebender["id"]` */
  method Verlierer(ghost b: Bestand, ghost wurzel: nat, gruppe: seq<Kontakt>,
                   ueberlebender: Kontakt) returns (verlierer: seq<(nat, nat)>)
    requires b.Gueltig() && wurzel in b.kontakte && b.Ueberlebender(wurzel) == wurzel &&
             ListetKlasse(b.kontakte, b.Klasse(wurzel), gruppe)
    requires ueberlebender.id == wurzel
    ensures VerliererVon(b.Karte(), verlierer, {wurzel})
  {
    verlierer := [];
    for i := 0 to |gruppe|
      invariant forall v :: v in verlierer ==> v.0 in b.Klasse(wurzel) && v.0 != v.1 && v.1 == wurzel
      invariant forall j :: 0 <= j < i && gruppe[j].id != wurzel ==> (gruppe[j].id, wurzel) in verlierer
    {
      assert gruppe[i] in gruppe;
      if gruppe[i].id != ueberlebender.id { verlierer := verlierer + [(gruppe[i].id, ueberlebender.id)]; }
    }
    forall v | v in verlierer
      ensures b.Karte()[v.0] == wurzel
    {
      InKlasse(b, wurzel, v.0);
    }
    forall x | x in b.kontakte && b.Karte()[x] == wurzel && x != wurzel
      ensures (x, wurzel) in verlierer
    {
      InKlasse(b, wurzel, x);
      assert b.kontakte[x] in gruppe;
    }
  }

  // ---------------------------------------------------------------- the database

  datatype Ausgang = Fertig | RestDubletten | SqlFehler

  /** The unique key as MariaDB enforces it: rows with a NULL in the key never collide. */
  ghost predicate UniqueErfuellt(t: map<nat, Kontakt>) {
    forall i, j :: i in t && j in t && i != j && t[i].quelle.Some? && ExternVon(t[i]).Some? ==>
      ExternVon(t[i]) != ExternVon(t[j])
  }

  /** `objekt_kontakt`, the references `objekt_wohnanlage.hausverwaltung_kontakt_id`, and the unique key. */
  class Datenbank {
    var kontakte: map<nat, Kontakt>
    var wohnanlagen: map<nat, Option<nat>>
    var uqExtern: bool

    ghost predicate Valid()
      reads this
    {
      && (forall i :: i in kontakte ==> kontakte[i].id == i)
      && (forall w :: w in wohnanlagen && wohnanlagen[w].Some? ==> wohnanlagen[w].value in kontakte)
      && (uqExtern ==> UniqueErfuellt(kontakte))
    }

    /** `UPDATE objekt_wohnanlage SET hausverwaltung_kontakt_id=:neu WHERE hausverwaltung_kontakt_id=:alt` */
    method HaengeUm(alt: nat, neu: nat)
      modifies this`wohnanlagen
      ensures wohnanlagen == map w | w in old(wohnanlagen) ::
        if old(wohnanlagen[w]) == Some(alt) then Some(neu) else old(wohnanlagen[w])
    {
      wohnanlagen := map w | w in wohnanlagen :: if wohnanlagen[w] == Some(alt) then Some(neu) else wohnanlagen[w];
    }

    /** `DELETE FROM objekt_kontakt WHERE id=:id`; the foreign key is ON DELETE SET NULL. */
    method LoescheKontakt(id: nat)
      modifies this`kontakte, this`wohnanlagen
      ensures kontakte == old(kontakte) - {id}
      ensures wohnanlagen == map w | w in old(wohnanlagen) ::
        if old(wohnanlagen[w]) == Some(id) then None else old(wohnanlagen[w])
    {
      kontakte := kontakte - {id};
      wohnanlagen := map w | w in wohnanlagen :: if wohnanlagen[w] == Some(id) then None else wohnanlagen[w];
    }

    /** `UPDATE objekt_kontakt SET ... WHERE id=:id`; refused when the unique key exists and would break. */
    method SetzeKontakt(u: Aenderung) returns (ok: bool)
      requires u.id in kontakte
      modifies this`kontakte
      ensures ok <==> !uqExtern || UniqueErfuellt(old(kontakte)[u.id := Geaendert(old(kontakte[u.id]), u)])
      ensures kontakte == if ok then old(kontakte)[u.id := Geaendert(old(kontakte[u.id]), u)] else old(kontakte)
    {
      var neu := kontakte[u.id := Geaendert(kontakte[u.id], u)];
      ok := !uqExtern ||
        !(exists i, j :: i in neu && j in neu && i != j && neu[i].quelle.Some? && ExternVon(neu[i]).Some? &&
                                          ExternVon(neu[i]) == ExternVon(neu[j]));
      if ok { kontakte := neu; }
    }

    /** `GROUP BY org_id,objekt_id,extern_quelle,extern_id HAVING COUNT(*) > 1`; NULL sources form one group. */
    method HatDubletten() returns (rest: bool)
      ensures rest <==> !KeineDubletten(kontakte)
    {
      rest := exists i, j :: i in kontakte && j in kontakte && i != j && ExternVon(kontakte[i]).Some? &&
                             ExternVon(kontakte[i]) == ExternVon(kontakte[j]);
    }

    /** `SELECT ... FROM objekt_kontakt ORDER BY id` */
    method LiesKontakte(ghost b: Bestand) returns (zeilen: seq<Kontakt>)
      requires Valid() && b.kontakte == kontakte
      ensures Listet(b, zeilen)
    {
      var ids := OrderById(kontakte);
      zeilen := [];
      for i := 0 to |ids|
        invariant |zeilen| == i && forall j :: 0 <= j < i ==> ids[j] in kontakte && zeilen[j] == kontakte[ids[j]]
      {
        assert ids[i] in ids;
        zeilen := zeilen + [kontakte[ids[i]]];
      }
      forall k: Kontakt | k.id in kontakte && kontakte[k.id] == k
        ensures k in zeilen
      {
        var i :| 0 <= i < |ids| && ids[i] == k.id;
        assert zeilen[i] == k;
      }
    }

    /**
     * The redirect loop: the UPDATEs one after the other equal one simultaneous substitution, as no survivor is a
     * loser.
     */
    method HaengeVerweiseUm(ghost w: map<nat, nat>, verlierer: seq<(nat, nat)>)
      requires VerliererVon(w, verlierer, w.Values) && forall x :: x in w ==> w[x] in w && w[w[x]] == w[x]
      modifies this`wohnanlagen
      ensures wohnanlagen == map a | a in old(wohnanlagen) :: Ersetzt(w, old(wohnanlagen[a]))
    {
      ghost var alt := wohnanlagen;
      for i := 0 to |verlierer|
        invariant wohnanlagen.Keys == alt.Keys
        invariant forall a :: a in alt ==> wohnanlagen[a] == TeilErsetzt(w, verlierer[..i], alt[a])
      {
        assert verlierer[i] in verlierer;
        assert verlierer[..i + 1] == verlierer[..i] + [verlierer[i]];
        HaengeUm(verlierer[i].0, verlierer[i].1);
      }
      assert verlierer[..|verlierer|] == verlierer;
    }

    /** The delete loop; no reference points to a loser any more, so ON DELETE SET NULL changes nothing. */
    method LoescheVerlierer(ghost w: map<nat, nat>, verlierer: seq<(nat, nat)>)
      requires VerliererVon(w, verlierer, w.Values)
      requires forall a :: a in wohnanlagen && wohnanlagen[a].Some? && wohnanlagen[a].value in w ==>
        w[wohnanlagen[a].value] == wohnanlagen[a].value
      modifies this`kontakte, this`wohnanlagen
      ensures wohnanlagen == old(wohnanlagen)
      ensures kontakte == map x | x in old(kontakte) && (x in w ==> w[x] == x) :: old(kontakte[x])
    {
      ghost var alt := kontakte;
      for i := 0 to |verlierer|
        invariant wohnanlagen == old(wohnanlagen)
        invariant forall x :: x in kontakte <==> x in alt && !IstVerlierer(verlierer[..i], x)
        invariant forall x :: x in kontakte ==> kontakte[x] == alt[x]
      {
        assert verlierer[i] in verlierer;
        assert verlierer[..i + 1] == verlierer[..i] + [verlierer[i]];
        LoescheKontakt(verlierer[i].0);
      }
      assert verlierer[..|verlierer|] == verlierer;
      assert forall x :: x in w ==> (IstVerlierer(verlierer, x) <==> w[x] != x);
    }

    /** The update loop; the unique key, when it already exists, refuses none of them. */
    method SetzeAenderungen(ghost alt: map<nat, Kontakt>, ghost ziel: map<nat, Kontakt>,
                            updates: seq<Aenderung>) returns (ok: bool)
      requires AenderungenVon(alt, ziel, updates, ziel.Keys) && Gemischt(alt, ziel, kontakte) &&
               kontakte.Keys == ziel.Keys
      requires GemischteSindEindeutig(alt, ziel)
      modifies this`kontakte
      ensures ok && kontakte == ziel
    {
      hide UniqueErfuellt;
      for i := 0 to |updates|
        invariant kontakte.Keys == ziel.Keys && Gemischt(alt, ziel, kontakte)
        invariant forall j :: 0 <= j < i ==> updates[j].id in ziel && kontakte[updates[j].id] == ziel[updates[j].id]
      {
        var u := updates[i];
        assert u in updates;
        assert Geaendert(kontakte[u.id], u) == ziel[u.id];
        assert Gemischt(alt, ziel, kontakte[u.id := Geaendert(kontakte[u.id], u)]);
        ok := SetzeKontakt(u);
        if !ok { return; }
      }
      ok := true;
      forall r | r in ziel
        ensures kontakte[r] == ziel[r]
      {
        var u :| u in updates && u.id == r;
        var j :| 0 <= j < |updates| && updates[j] == u;
      }
    }

    /** `upgrade`. The outcome is always `Fertig`: neither the RuntimeError nor a refused statement can occur. */
    method Upgrade(dialekt: string, falte: string -> string) returns (a: Ausgang)
      requires Valid()
      modifies this
      ensures a == Fertig && Valid()
      ensures dialekt != "mysql" ==>
        kontakte == old(kontakte) && wohnanlagen == old(wohnanlagen) && uqExtern == old(uqExtern)
      ensures dialekt == "mysql" ==>
        var b := Bestand(old(kontakte), SlugMit(falte));
        uqExtern && kontakte == b.Bereinigt() &&
        wohnanlagen == map w | w in old(wohnanlagen) :: b.Umgehaengt(old(wohnanlagen[w]))
      ensures dialekt == "mysql" ==>
        Z.Zusammengefuehrt(old(kontakte), SlugMit(falte), kontakte) && Z.OhneDubletten(kontakte) &&
        Z.VerweiseMitgefuehrt(old(kontakte), SlugMit(falte), kontakte, old(wohnanlagen), wohnanlagen)
    {
      if dialekt != "mysql" { return Fertig; }
      ghost var b := Bestand(kontakte, SlugMit(falte));
      ghost var vorher := wohnanlagen;
      assert b.Gueltig();
      Z.BereinigtIstZusammengefuehrt(b);
      hide *;
      a := Bereinige(falte);
      Z.VerweiseGenau(b, vorher, wohnanlagen);
    }

    /** What `upgrade` does on MySQL. */
    method Bereinige(falte: string -> string) returns (a: Ausgang)
      requires Valid()
      modifies this
      ensures a == Fertig && Valid()
      ensures var b := Bestand(old(kontakte), SlugMit(falte));
        uqExtern && kontakte == b.Bereinigt() &&
        wohnanlagen == map w | w in old(wohnanlagen) :: b.Umgehaengt(old(wohnanlagen[w]))
    {
      var b := Bestand(kontakte, SlugMit(falte));
      ghost var vorher := wohnanlagen;
      var updates, verlierer := Plane(b);
      KarteIstIdempotent(b);
      VerliererDerKarte(b, verlierer);
      HaengeVerweiseUm(b.Karte(), verlierer);
      LoescheVerlierer(b.Karte(), verlierer);
      NurUeberlebende(b, kontakte);
      var ok := SetzeAenderungen(b.kontakte, b.Bereinigt(), updates);
      if !ok { return SqlFehler; }
      NachherGueltig(b, vorher, wohnanlagen);
      var rest := HatDubletten();
      if rest { return RestDubletten; }
      if !uqExtern { uqExtern := true; }
      a := Fertig;
    }

    /** Everything `upgrade` computes before it writes. */
    method Plane(b: Bestand) returns (updates: seq<Aenderung>, verlierer: seq<(nat, nat)>)
      requires Valid() && b.kontakte == kontakte
      ensures Gesammelt(b, updates, verlierer, b.Bereinigt().Keys)
    {
      var zeilen := LiesKontakte(b);
      var uf := new UnionFind(IdsVon(zeilen));
      forall x
        ensures x in uf.parent <==> x in b.kontakte
      {
        IdsVonEnthaelt(zeilen, x);
        if x in b.kontakte { assert b.kontakte[x] in zeilen; }
      }
      assert uf.parent.Keys == b.kontakte.Keys;
      VereinigeExakte(b, zeilen, uf);
      var adoptiert := Adoptiere(b, zeilen, uf);
      KarteAusWurzeln(b, uf.parent);
      var gruppen := BildeGruppen(zeilen, uf, b.Karte());
      updates, verlierer := BaueAenderungen(b, zeilen, gruppen, adoptiert);
    }
  }

  function SlugMit(falte: string -> string): Option<string> -> string {
    name => NamensSlug.Slug(falte, name)
  }

  lemma KarteAusWurzeln(b: Bestand, p: map<nat, nat>)
    requires Darstellt(p, b.Verknuepfung()) && p.Keys == b.kontakte.Keys
    ensures b.Karte().Keys == p.Keys
    ensures forall x {:trigger Wurzel(p, x)} :: x in p ==> Wurzel(p, x) == b.Karte()[x]
  {
    forall x {:trigger Wurzel(p, x)} | x in p
      ensures Wurzel(p, x) == b.Karte()[x]
    {
      WurzelIstUeberlebender(b, p, x);
    }
  }

  lemma KarteIstIdempotent(b: Bestand)
    ensures forall x :: x in b.Karte() ==> b.Karte()[x] in b.Karte() && b.Karte()[b.Karte()[x]] == b.Karte()[x]
    ensures b.Karte().Values == b.Bereinigt().Keys
  {
    forall x | x in b.Karte()
      ensures b.Karte()[x] in b.Karte() && b.Karte()[b.Karte()[x]] == b.Karte()[x]
    {
      WertDerKarte(b, x);
    }
    forall r
      ensures r in b.Karte().Values <==> r in b.Bereinigt()
    {
      if r in b.Karte().Values {
        var x :| x in b.Karte() && b.Karte()[x] == r;
        WertDerKarte(b, x);
      }
      if r in b.Bereinigt() { assert b.Karte()[r] == r; }
    }
  }

  lemma VerliererDerKarte(b: Bestand, verlierer: seq<(nat, nat)>)
    requires VerliererVon(b.Karte(), verlierer, b.Bereinigt().Keys)
    ensures VerliererVon(b.Karte(), verlierer, b.Karte().Values)
  {
    KarteIstIdempotent(b);
  }

  /** After the deletes exactly the survivors are left, and no mixture of old and new survivor rows breaks the key. */
  lemma NurUeberlebende(b: Bestand, t: map<nat, Kontakt>)
    requires b.Gueltig()
    requires t == map x | x in b.kontakte && (x in b.Karte() ==> b.Karte()[x] == x) :: b.kontakte[x]
    ensures t.Keys == b.Bereinigt().Keys && Gemischt(b.kontakte, b.Bereinigt(), t)
    ensures GemischteSindEindeutig(b.kontakte, b.Bereinigt())
  {
    forall neu {:trigger Gemischt(b.kontakte, b.Bereinigt(), neu)} | Gemischt(b.kontakte, b.Bereinigt(), neu)
      ensures UniqueErfuellt(neu)
    {
      ZwischenstandIstEindeutig(b, neu);
    }
  }

  lemma NachherGueltig(b: Bestand, vorher: map<nat, Option<nat>>, nachher: map<nat, Option<nat>>)
    requires b.Gueltig() && forall w :: w in vorher && vorher[w].Some? ==> vorher[w].value in b.kontakte
    requires nachher == map w | w in vorher :: Ersetzt(b.Karte(), vorher[w])
    ensures nachher == map w | w in vorher :: b.Umgehaengt(vorher[w])
    ensures forall w :: w in nachher && nachher[w].Some? ==> nachher[w].value in b.Bereinigt()
    ensures KeineDubletten(b.Bereinigt()) && UniqueErfuellt(b.Bereinigt())
    ensures forall i :: i in b.Bereinigt() ==> b.Bereinigt()[i].id == i
  {
    BereinigtIstEindeutig(b);
    forall w | w in vorher
      ensures Ersetzt(b.Karte(), vorher[w]) == b.Umgehaengt(vorher[w])
      ensures vorher[w].Some? ==> b.Umgehaengt(vorher[w]).value in b.Bereinigt()
    {
      VerweisBleibt(b, vorher[w]);
    }
  }

  /** Every row of `t` is as in `alt` or as in `ziel`. */
  ghost predicate Gemischt(alt: map<nat, Kontakt>, ziel: map<nat, Kontakt>, t: map<nat, Kontakt>) {
    forall r {:trigger t[r]} {:trigger ziel[r]} :: r in t ==>
      r in alt && r in ziel && (t[r] == alt[r] || t[r] == ziel[r])
  }

  ghost predicate GemischteSindEindeutig(alt: map<nat, Kontakt>, ziel: map<nat, Kontakt>) {
    forall t {:trigger Gemischt(alt, ziel, t)} :: Gemischt(alt, ziel, t) ==> UniqueErfuellt(t)
  }

  ghost function Ersetzt(w: map<nat, nat>, verweis: Option<nat>): Option<nat> {
    if verweis.Some? && verweis.value in w then Some(w[verweis.value]) else verweis
  }

  ghost predicate IstVerlierer(verlierer: seq<(nat, nat)>, x: nat) {
    exists v :: v in verlierer && v.0 == x
  }

  ghost function TeilErsetzt(w: map<nat, nat>, verlierer: seq<(nat, nat)>, verweis: Option<nat>): Option<nat> {
    if verweis.Some? && IstVerlierer(verlierer, verweis.value) then Ersetzt(w, verweis) else verweis
  }
}
