/**
 * `_entferne_kollisionen`, `_haenge_referenzen_um` and `_merge_members` of
 * alembic/versions/0231_fahrtenbuch_member_dedup.py.
 */
module MemberMerge {
  import opened Grundlagen
  import opened Tabellen
  import opened Loeschungen
  import opened Mitgliedsdaten

  const REFERENZEN: seq<(string, string)> := [
    ("api_message_recipient", "member_id"),
    ("member_qualification", "member_id"),
    ("atemschutz_pruefung", "traeger_member_id"),
    ("member_tag_assignment", "member_id"),
    ("fahrt", "maschinist_member_id"),
    ("pressure_log", "member_id"),
    ("fahrt", "maschinist2_member_id"),
    ("site_resource_assignment", "member_id"),
    ("fahrt", "seilwinde_bediener_member_id"),
    ("sms_einsatzinfo_recipient", "member_id"),
    ("fahrt", "ausbildner_member_id"),
    ("sms_forward_rule_member", "member_id"),
    ("fahrt", "gruppenkommandant_member_id"),
    ("sms_group_member", "member_id"),
    ("fahrt", "einsatzleiter_member_id"),
    ("sms_log_recipient", "member_id"),
    ("gsl_staff_assignment", "member_id"),
    ("staff_assignment", "member_id"),
    ("incident", "incident_leader_member_id"),
    ("teilnahme", "mitglied_id"),
    ("incident_column", "section_leader_member_id"),
    ("troop_member", "member_id"),
    ("incident_vehicle", "commander_member_id"),
    ("uas_pilot", "person_id"),
    ("incident_vehicle", "fahrer_member_id"),
    ("incident_vehicle", "fahrer2_member_id"),
    ("lage_einheit_leader", "member_id")]

  type Schema = map<string, Tabelle>

  ghost predicate SchemaGueltig(s: Schema) {
    && (forall n :: n in s ==> s[n].Gueltig())
    && (forall r :: r in REFERENZEN && r.0 in s && r.1 in s[r.0].spalten ==> KeineEinzelschluessel(s[r.0], r.1))
  }

  /** The reference columns that `refs` lists for a table. */
  ghost function Spalten(refs: seq<(string, string)>, name: string): set<string> {
    set r | r in refs && r.0 == name :: r.1
  }

  ghost predicate GleicheForm(t: Tabelle, u: Tabelle) {
    t.spalten == u.spalten && t.pk == u.pk && t.eindeutig == u.eindeutig
  }

  /** Every surviving row of `u` is the row of `t` with the ids in the reference columns `spalten` replaced. */
  ghost predicate TabelleErsetzt(t: Tabelle, u: Tabelle, spalten: set<string>, ersatz: map<int, int>) {
    && GleicheForm(t, u)
    && forall i :: i in u.zeilen ==> i in t.zeilen && u.zeilen[i] == Ersetzt(t.zeilen[i], spalten, ersatz)
  }

  ghost predicate SchemaErsetzt(s: Schema, u: Schema, refs: seq<(string, string)>, ersatz: map<int, int>) {
    s.Keys == u.Keys && forall n :: n in u ==> TabelleErsetzt(s[n], u[n], Spalten(refs, n), ersatz)
  }

  /** No reference column names one of `ids` any more. */
  ghost predicate OhneVerweise(s: Schema, ids: set<int>) {
    forall r, i :: r in REFERENZEN && r.0 in s && i in s[r.0].zeilen && r.1 in s[r.0].zeilen[i] ==>
      !(s[r.0].zeilen[i][r.1].Zahl? && s[r.0].zeilen[i][r.1].n in ids)
  }

  // ---------------------------------------------------------------- deleted rows

  /** In every table each row that is missing in `u` is kept there by a counterpart. */
  ghost predicate AllesErklaert(s: Schema, u: Schema, refs: seq<(string, string)>, ersatz: map<int, int>) {
    forall n :: n in s && n in u ==> Erklaert(s[n], u[n], Spalten(refs, n), ersatz)
  }

  // ---------------------------------------------------------------- redirecting one pair

  /** `_eindeutige_spaltengruppen` */
  function GepruefteGruppen(gruppen: seq<seq<string>>, spalte: string): (r: seq<seq<string>>)
    ensures forall g :: g in r <==> g in gruppen && spalte in g && |g| > 1
  {
    if gruppen == [] then []
    else if spalte in gruppen[0] && |gruppen[0]| > 1 then [gruppen[0]] + GepruefteGruppen(gruppen[1..], spalte)
    else GepruefteGruppen(gruppen[1..], spalte)
  }

  /** Row `i` collides in one of the first groups. */
  ghost predicate KollidiertIn(t: Tabelle, spalte: string, alt: int, neu: int, gruppen: seq<seq<string>>, i: nat) {
    exists g, j :: g in gruppen && KollidiertMit(t, spalte, alt, neu, g, i, j)
  }

  /** `DELETE` by primary key removes the one row it was read from. */
  lemma SchluesselTrifftEine(t: Tabelle, i: nat, k: nat)
    requires t.Gueltig() && i in t.zeilen && k in t.zeilen && StimmenUeberein(t.pk, t.zeilen[k], t.zeilen[i])
    ensures k == i
  {
    assert t.Gruppen()[0] == t.pk;
    assert t.pk in t.Gruppen();
    if k != i { assert Dublette(t.pk, t.zeilen[k], t.zeilen[i]); }
  }

  lemma TeiltabelleGueltig(t: Tabelle, u: Tabelle)
    requires t.Gueltig() && GleicheForm(t, u)
    requires forall i :: i in u.zeilen ==> i in t.zeilen && u.zeilen[i] == t.zeilen[i]
    ensures u.Gueltig()
  {
    assert t.Gruppen() == u.Gruppen();
  }

  /** What is left after the first groups have been checked. */
  ghost predicate BereinigtBis(t: Tabelle, u: Tabelle, spalte: string, alt: int, neu: int, gruppen: seq<seq<string>>) {
    && GleicheForm(t, u)
    && (forall i :: i in u.zeilen <==> i in t.zeilen && !KollidiertIn(t, spalte, alt, neu, gruppen, i))
    && (forall i :: i in u.zeilen ==> u.zeilen[i] == t.zeilen[i])
  }

  /** One unique group: every loser row with a matching winner row is deleted by its primary key. */
  method EntferneInGruppe(ghost t: Tabelle, u0: Tabelle, spalte: string, alt: int, neu: int,
                          ghost fertig: seq<seq<string>>, g: seq<string>) returns (u: Tabelle)
    requires t.Gueltig() && alt != neu && spalte in t.spalten
    requires BereinigtBis(t, u0, spalte, alt, neu, fertig)
    ensures BereinigtBis(t, u, spalte, alt, neu, fertig + [g])
  {
    TeiltabelleGueltig(t, u0);
    var loserRows := set i | i in u0.zeilen && u0.zeilen[i][spalte] == Zahl(alt);
    u := PruefeZeilen(u0, spalte, alt, neu, g, loserRows);
    GruppeFertig(t, u0, u, spalte, alt, neu, fertig, g, loserRows);
  }

  /** `for row in loser_rows` */
  method PruefeZeilen(u0: Tabelle, spalte: string, alt: int, neu: int, g: seq<string>,
                      loserRows: set<nat>) returns (u: Tabelle)
    requires u0.Gueltig() && alt != neu && loserRows <= u0.zeilen.Keys
    ensures GruppeBis(u0, u, spalte, alt, neu, g, loserRows)
  {
    hide *;
    u := u0;
    var rest := loserRows;
    ghost var erledigt: set<nat> := {};
    NochNichtsGeprueft(u0, spalte, alt, neu, g);
    while rest != {}
      invariant erledigt + rest == loserRows && erledigt !! rest
      invariant GruppeBis(u0, u, spalte, alt, neu, g, erledigt)
      decreases rest
    {
      var i :| i in rest;
      u := PruefeZeile(u0, u, spalte, alt, neu, g, erledigt, i);
      rest, erledigt := rest - {i}, erledigt + {i};
    }
  }

  lemma NochNichtsGeprueft(u0: Tabelle, spalte: string, alt: int, neu: int, g: seq<string>)
    ensures GruppeBis(u0, u0, spalte, alt, neu, g, {})
  {
  }

  ghost predicate HatGegenzeile(t: Tabelle, spalte: string, alt: int, neu: int, g: seq<string>, i: nat) {
    exists j :: KollidiertMit(t, spalte, alt, neu, g, i, j)
  }

  /** `u` is `u0` without the rows of `erledigt` that have a counterpart under `g`. */
  ghost predicate GruppeBis(u0: Tabelle, u: Tabelle, spalte: string, alt: int, neu: int, g: seq<string>,
                            erledigt: set<nat>) {
    && GleicheForm(u0, u)
    && (forall i :: i in u.zeilen <==> i in u0.zeilen && !(i in erledigt && HatGegenzeile(u0, spalte, alt, neu, g, i)))
    && (forall i :: i in u.zeilen ==> u.zeilen[i] == u0.zeilen[i])
  }

  /** One loser row: delete it when a winner row agrees on the rest of the group. */
  method PruefeZeile(ghost u0: Tabelle, v: Tabelle, spalte: string, alt: int, neu: int, g: seq<string>,
                     ghost erledigt: set<nat>, i: nat) returns (u: Tabelle)
    requires u0.Gueltig() && alt != neu && i !in erledigt && GruppeBis(u0, v, spalte, alt, neu, g, erledigt)
    requires i in u0.zeilen
    ensures GruppeBis(u0, u, spalte, alt, neu, g, erledigt + {i})
  {
    hide Tabelle.Wohlgeformt, Tabelle.Eindeutig, Dublette;
    TeiltabelleGueltig(u0, v);
    forall k | k in u0.zeilen && k !in v.zeilen
      ensures spalte in u0.zeilen[k] && u0.zeilen[k][spalte] == Zahl(alt)
    {
      var j :| KollidiertMit(u0, spalte, alt, neu, g, k, j);
    }
    GegenstueckBleibt(u0, v, spalte, alt, neu, g, i);
    u := v;
    if exists j :: j in v.zeilen && KollidiertMit(v, spalte, alt, neu, g, i, j) {
      u := v.(zeilen := map k | k in v.zeilen && !StimmenUeberein(v.pk, v.zeilen[k], v.zeilen[i]) :: v.zeilen[k]);
      NurEineGeloescht(v, i, u);
      assert HatGegenzeile(u0, spalte, alt, neu, g, i);
    } else {
      assert !HatGegenzeile(v, spalte, alt, neu, g, i);
    }
  }

  lemma NurEineGeloescht(v: Tabelle, i: nat, u: Tabelle)
    requires v.Gueltig() && i in v.zeilen
    requires u == v.(zeilen := map k | k in v.zeilen && !StimmenUeberein(v.pk, v.zeilen[k], v.zeilen[i]) :: v.zeilen[k])
    ensures u.zeilen == v.zeilen - {i}
  {
    assert v.Gruppen()[0] == v.pk;
    forall k | k in v.zeilen && StimmenUeberein(v.pk, v.zeilen[k], v.zeilen[i])
      ensures k == i
    {
      SchluesselTrifftEine(v, i, k);
    }
    assert StimmenUeberein(v.pk, v.zeilen[i], v.zeilen[i]);
  }

  /** Winner rows are never deleted, so the check finds the same counterparts at any moment. */
  lemma GegenstueckBleibt(u0: Tabelle, v: Tabelle, spalte: string, alt: int, neu: int, g: seq<string>, i: nat)
    requires alt != neu && i in v.zeilen
    requires forall k :: k in v.zeilen ==> k in u0.zeilen && v.zeilen[k] == u0.zeilen[k]
    requires forall k :: k in u0.zeilen && k !in v.zeilen ==>
      spalte in u0.zeilen[k] && u0.zeilen[k][spalte] == Zahl(alt)
    ensures HatGegenzeile(v, spalte, alt, neu, g, i) <==> HatGegenzeile(u0, spalte, alt, neu, g, i)
  {
    if j :| KollidiertMit(v, spalte, alt, neu, g, i, j) { assert KollidiertMit(u0, spalte, alt, neu, g, i, j); }
    if j :| KollidiertMit(u0, spalte, alt, neu, g, i, j) { assert KollidiertMit(v, spalte, alt, neu, g, i, j); }
  }

  lemma GruppeFertig(t: Tabelle, u0: Tabelle, u: Tabelle, spalte: string, alt: int, neu: int, fertig: seq<seq<string>>,
                     g: seq<string>,
                     erledigt: set<nat>)
    requires alt != neu && BereinigtBis(t, u0, spalte, alt, neu, fertig)
    requires GruppeBis(u0, u, spalte, alt, neu, g, erledigt)
    requires forall i :: i in u0.zeilen && spalte in u0.zeilen[i] && u0.zeilen[i][spalte] == Zahl(alt) ==> i in erledigt
    ensures BereinigtBis(t, u, spalte, alt, neu, fertig + [g])
  {
    forall i | i in t.zeilen
      ensures i in u.zeilen <==> !KollidiertIn(t, spalte, alt, neu, fertig + [g], i)
    {
      if KollidiertIn(t, spalte, alt, neu, fertig, i) {
        var h, j :| h in fertig && KollidiertMit(t, spalte, alt, neu, h, i, j);
        assert h in fertig + [g];
      } else {
        forall k | k in t.zeilen && k !in u0.zeilen
          ensures spalte in t.zeilen[k] && t.zeilen[k][spalte] == Zahl(alt)
        {
          var h, j :| h in fertig && KollidiertMit(t, spalte, alt, neu, h, k, j);
        }
        GegenstueckBleibt(t, u0, spalte, alt, neu, g, i);
        if j :| KollidiertMit(t, spalte, alt, neu, g, i, j) { assert g in fertig + [g]; }
      }
    }
  }

  /** `_entferne_kollisionen` */
  method EntferneKollisionen(t: Tabelle, spalte: string, alt: int, neu: int) returns (u: Tabelle)
    requires t.Gueltig() && alt != neu && spalte in t.spalten
    ensures u == OhneKollisionen(t, spalte, alt, neu)
  {
    var gruppen := GepruefteGruppen(t.Gruppen(), spalte);
    u := t;
    for n := 0 to |gruppen|
      invariant BereinigtBis(t, u, spalte, alt, neu, gruppen[..n])
    {
      u := EntferneInGruppe(t, u, spalte, alt, neu, gruppen[..n], gruppen[n]);
      assert gruppen[..n + 1] == gruppen[..n] + [gruppen[n]];
    }
    assert gruppen[..|gruppen|] == gruppen;
    AlleGruppenGeprueft(t, spalte, alt, neu, gruppen, u);
  }

  lemma AlleGruppenGeprueft(t: Tabelle, spalte: string, alt: int, neu: int, gruppen: seq<seq<string>>, u: Tabelle)
    requires gruppen == GepruefteGruppen(t.Gruppen(), spalte) && BereinigtBis(t, u, spalte, alt, neu, gruppen)
    ensures u == OhneKollisionen(t, spalte, alt, neu)
  {
    forall i
      ensures KollidiertIn(t, spalte, alt, neu, gruppen, i) <==> Kollidiert(t, spalte, alt, neu, i)
    {
      KollidiertInAllen(t, spalte, alt, neu, gruppen, i);
    }
    hide KollidiertIn, Kollidiert, GepruefteGruppen;
    assert u.zeilen == OhneKollisionen(t, spalte, alt, neu).zeilen;
  }

  lemma KollidiertInAllen(t: Tabelle, spalte: string, alt: int, neu: int, gruppen: seq<seq<string>>, i: nat)
    requires gruppen == GepruefteGruppen(t.Gruppen(), spalte)
    ensures KollidiertIn(t, spalte, alt, neu, gruppen, i) <==> Kollidiert(t, spalte, alt, neu, i)
  {
    hide KollidiertMit, GepruefteGruppen;
    if g, j :| g in gruppen && KollidiertMit(t, spalte, alt, neu, g, i, j) { assert Geprueft(t, spalte, g); }
    if g, j :| Geprueft(t, spalte, g) && KollidiertMit(t, spalte, alt, neu, g, i, j) { assert g in gruppen; }
  }

  /** The state between two schemas of a run: rows substituted, deletions explained, all keys intact. */
  ghost predicate Zwischenstand(s: Schema, u: Schema, refs: seq<(string, string)>, ersatz: map<int, int>) {
    SchemaErsetzt(s, u, refs, ersatz) && AllesErklaert(s, u, refs, ersatz) && SchemaGueltig(u)
  }

  ghost function NachSchritt(u: Schema, r: (string, string), alt: int, neu: int): Schema
    requires r.0 in u
  {
    u[r.0 := Umgehaengt(OhneKollisionen(u[r.0], r.1, alt, neu), r.1, alt, neu)]
  }

  lemma SchrittGueltig(u: Schema, r: (string, string), alt: int, neu: int)
    requires SchemaGueltig(u) && r in REFERENZEN && r.0 in u && r.1 in u[r.0].spalten && alt != neu
    ensures SchemaGueltig(NachSchritt(u, r, alt, neu))
  {
    SchrittErhaeltGueltigkeit(u[r.0], r.1, alt, neu);
    SchemaMitTabelle(u, r.0, Umgehaengt(OhneKollisionen(u[r.0], r.1, alt, neu), r.1, alt, neu));
  }

  lemma SchemaMitTabelle(u: Schema, n: string, t: Tabelle)
    requires SchemaGueltig(u) && n in u && t.Gueltig() && GleicheForm(u[n], t)
    ensures SchemaGueltig(u[n := t])
  {
    hide Tabelle.Gueltig, KeineEinzelschluessel, REFERENZEN;
    forall q | q in REFERENZEN && q.0 in u && q.1 in u[n := t][q.0].spalten
      ensures KeineEinzelschluessel(u[n := t][q.0], q.1)
    {
      if q.0 == n { SchluesselBeiGleicherForm(u[n], t, q.1); }
    }
  }

  lemma SchluesselBeiGleicherForm(t: Tabelle, u: Tabelle, spalte: string)
    requires GleicheForm(t, u)
    ensures KeineEinzelschluessel(t, spalte) == KeineEinzelschluessel(u, spalte)
  {
    assert t.Gruppen() == u.Gruppen();
  }

  lemma SpaltenWachsen(refs: seq<(string, string)>, r: (string, string), name: string)
    ensures Spalten(refs + [r], name) == if r.0 == name then Spalten(refs, name) + {r.1} else Spalten(refs, name)
  {
    assert forall q :: q in refs + [r] <==> q in refs || q == r;
  }

  lemma SchrittErsetzt(s: Schema, u: Schema, refs: seq<(string, string)>, r: (string, string), alt: int, neu: int)
    requires SchemaErsetzt(s, u, refs, map[alt := neu]) && r.0 in u && alt != neu
    ensures SchemaErsetzt(s, NachSchritt(u, r, alt, neu), refs + [r], map[alt := neu])
  {
    var v := NachSchritt(u, r, alt, neu);
    forall n | n in v
      ensures TabelleErsetzt(s[n], v[n], Spalten(refs + [r], n), map[alt := neu])
    {
      SpaltenWachsen(refs, r, n);
      if n == r.0 {
        forall i | i in v[n].zeilen
          ensures i in s[n].zeilen && v[n].zeilen[i] == Ersetzt(s[n].zeilen[i], Spalten(refs + [r], n), map[alt := neu])
        {
          hide Kollidiert, Ersetzt;
          ErsetztSpalten(s[n].zeilen[i], Spalten(refs, n), r.1, map[alt := neu]);
        }
      }
    }
  }

  /** A reference column that the table does not have needs no redirect. */
  lemma FehlendeSpalte(s: Schema, u: Schema, refs: seq<(string, string)>, r: (string, string), ersatz: map<int, int>)
    requires SchemaErsetzt(s, u, refs, ersatz) && SchemaGueltig(s) && (r.0 in s ==> r.1 !in s[r.0].spalten)
    ensures SchemaErsetzt(s, u, refs + [r], ersatz)
  {
    forall n | n in u
      ensures TabelleErsetzt(s[n], u[n], Spalten(refs + [r], n), ersatz)
    {
      SpaltenWachsen(refs, r, n);
      assert s[n].Gueltig();
      hide SchemaGueltig, Tabelle.Gueltig, Spalten, Ersetzt, REFERENZEN;
      if n == r.0 {
        forall i | i in u[n].zeilen
          ensures Ersetzt(s[n].zeilen[i], Spalten(refs + [r], n), ersatz) ==
            Ersetzt(s[n].zeilen[i], Spalten(refs, n), ersatz)
        {
          FehlendeInZeile(s[n], i, Spalten(refs, n), r.1, ersatz);
        }
      }
    }
  }

  lemma FehlendeInZeile(t: Tabelle, i: nat, spalten: set<string>, c: string, ersatz: map<int, int>)
    requires t.Gueltig() && i in t.zeilen && c !in t.spalten
    ensures Ersetzt(t.zeilen[i], spalten + {c}, ersatz) == Ersetzt(t.zeilen[i], spalten, ersatz)
  {
    assert t.zeilen[i].Keys == t.spalten;
    hide Tabelle.Gueltig;
  }

  lemma SchrittErklaert(s: Schema, u: Schema, refs: seq<(string, string)>, r: (string, string), alt: int, neu: int)
    requires SchemaErsetzt(s, u, refs, map[alt := neu]) && AllesErklaert(s, u, refs, map[alt := neu]) && r.0 in u &&
             alt != neu
    ensures AllesErklaert(s, NachSchritt(u, r, alt, neu), refs + [r], map[alt := neu])
  {
    var v := NachSchritt(u, r, alt, neu);
    hide Erklaert, OhneKollisionen;
    forall n | n in s && n in v
      ensures Erklaert(s[n], v[n], Spalten(refs + [r], n), map[alt := neu])
    {
      SpaltenWachsen(refs, r, n);
      if n == r.0 {
        assert TeilErsetzt(s[n], u[n], Spalten(refs, n), map[alt := neu]);
        SpalteErklaert(s[n], u[n], Spalten(refs, n), r.1, alt, neu);
        NurDieIdsZaehlen(s[n], OhneKollisionen(u[n], r.1, alt, neu), v[n], Spalten(refs + [r], n), map[alt := neu]);
      }
    }
  }

  /** What is explained depends on which rows are left, not on their contents. */
  lemma NurDieIdsZaehlen(t: Tabelle, u: Tabelle, v: Tabelle, spalten: set<string>, ersatz: map<int, int>)
    requires Erklaert(t, u, spalten, ersatz) && u.zeilen.Keys == v.zeilen.Keys
    ensures Erklaert(t, v, spalten, ersatz)
  {
    forall i | i in t.zeilen && i !in v.zeilen
      ensures Aufgehoben(t, v, spalten, ersatz, i)
    {
      assert Aufgehoben(t, u, spalten, ersatz, i);
    }
  }

  lemma FehlendeErklaert(s: Schema, u: Schema, refs: seq<(string, string)>, r: (string, string), ersatz: map<int, int>)
    requires AllesErklaert(s, u, refs, ersatz)
    ensures AllesErklaert(s, u, refs + [r], ersatz)
  {
    forall n | n in s && n in u
      ensures Erklaert(s[n], u[n], Spalten(refs + [r], n), ersatz)
    {
      SpaltenWachsen(refs, r, n);
      assert Erklaert(s[n], u[n], Spalten(refs, n), ersatz);
      if n == r.0 { MehrSpaltenErklaeren(s[n], u[n], Spalten(refs, n), r.1, ersatz); }
    }
  }

  /** One pair after the other: the substitutions compose, as no winner is a loser. */
  lemma PaareErsetzt(s: Schema, u: Schema, v: Schema, ersatz: map<int, int>, alt: int, neu: int)
    requires SchemaErsetzt(s, u, REFERENZEN, ersatz) && SchemaErsetzt(u, v, REFERENZEN, map[alt := neu])
    requires alt !in ersatz && alt !in ersatz.Values
    ensures SchemaErsetzt(s, v, REFERENZEN, ersatz[alt := neu])
  {
    forall n | n in v
      ensures TabelleErsetzt(s[n], v[n], Spalten(REFERENZEN, n), ersatz[alt := neu])
    {
      forall i | i in v[n].zeilen
        ensures v[n].zeilen[i] == Ersetzt(s[n].zeilen[i], Spalten(REFERENZEN, n), ersatz[alt := neu])
      {
        hide Ersetzt, Spalten, REFERENZEN;
        ErsetztPaare(s[n].zeilen[i], Spalten(REFERENZEN, n), ersatz, alt, neu);
      }
    }
  }

  /** Explanations add up over the pairs, as no winner is a loser and no winner is shared. */
  lemma PaareErklaert(s: Schema, u: Schema, v: Schema, ersatz: map<int, int>, alt: int, neu: int)
    requires SchemaErsetzt(s, u, REFERENZEN, ersatz) && s.Keys == u.Keys == v.Keys
    requires AllesErklaert(s, u, REFERENZEN, ersatz) && AllesErklaert(u, v, REFERENZEN, map[alt := neu])
    requires alt !in ersatz && alt !in ersatz.Values && neu !in ersatz.Values
    ensures AllesErklaert(s, v, REFERENZEN, ersatz[alt := neu])
  {
    hide REFERENZEN, Spalten, Erklaert;
    forall n | n in s
      ensures Erklaert(s[n], v[n], Spalten(REFERENZEN, n), ersatz[alt := neu])
    {
      assert TabelleErsetzt(s[n], u[n], Spalten(REFERENZEN, n), ersatz);
      assert TeilErsetzt(s[n], u[n], Spalten(REFERENZEN, n), ersatz);
      PaarErklaert(s[n], u[n], v[n], Spalten(REFERENZEN, n), ersatz, alt, neu);
    }
  }

  /** What a merge may do to the rows of a table: only rows that name a loser go or change. */
  lemma NurBetroffeneZeilen(s: Schema, u: Schema, ersatz: map<int, int>, n: string, i: nat)
    requires Zwischenstand(s, u, REFERENZEN, ersatz) && (forall a :: a in ersatz ==> ersatz[a] !in ersatz)
    requires n in s && i in s[n].zeilen && !NenntVerlierer(s[n].zeilen[i], Spalten(REFERENZEN, n), ersatz)
    ensures n in u && i in u[n].zeilen && u[n].zeilen[i] == s[n].zeilen[i]
  {
    hide REFERENZEN, SchemaGueltig, Erklaert, Spalten;
    UnbeteiligteBleiben(s[n], u[n], Spalten(REFERENZEN, n), ersatz, i);
    assert TabelleErsetzt(s[n], u[n], Spalten(REFERENZEN, n), ersatz);
    assert u[n].zeilen[i] == Ersetzt(s[n].zeilen[i], Spalten(REFERENZEN, n), ersatz);
  }

  /** After a simultaneous substitution whose new ids are not replaced themselves, no replaced id is referenced. */
  lemma ErsetztOhneVerweise(s: Schema, u: Schema, ersatz: map<int, int>)
    requires SchemaErsetzt(s, u, REFERENZEN, ersatz) && forall a :: a in ersatz ==> ersatz[a] !in ersatz
    ensures OhneVerweise(u, ersatz.Keys)
  {
    forall r, i | r in REFERENZEN && r.0 in u && i in u[r.0].zeilen && r.1 in u[r.0].zeilen[i]
      ensures !(u[r.0].zeilen[i][r.1].Zahl? && u[r.0].zeilen[i][r.1].n in ersatz)
    {
      assert r.1 in Spalten(REFERENZEN, r.0);
      assert u[r.0].zeilen[i] == Ersetzt(s[r.0].zeilen[i], Spalten(REFERENZEN, r.0), ersatz);
    }
  }

  predicate VerweistNoch(s: Schema, refs: seq<(string, string)>, id: int) {
    refs != [] && ((refs[0].0 in s && ZeigtAuf(s[refs[0].0], refs[0].1, id)) || VerweistNoch(s, refs[1..], id))
  }

  lemma {:induction false} NichtsVerweist(s: Schema, refs: seq<(string, string)>, id: int)
    requires OhneVerweise(s, {id}) && forall r :: r in refs ==> r in REFERENZEN
    ensures !VerweistNoch(s, refs, id)
  {
    if refs != [] {
      assert refs[0] in refs;
      NichtsVerweist(s, refs[1..], id);
    }
  }

  predicate ZeigtAuf(t: Tabelle, spalte: string, id: int) {
    exists i :: i in t.zeilen && spalte in t.zeilen[i] && t.zeilen[i][spalte] == Zahl(id)
  }

  // ---------------------------------------------------------------- members and the pairs to merge

  type NamensSchluessel = (string, string)

  predicate Alt(m: Member) {
    m.orgId.None? && m.sybosId.None?
  }

  predicate Neu(m: Member) {
    m.orgId.Some? && m.sybosId.Some?
  }

  /** The member table with the stripping and case folding of names in use. */
  datatype Mitglieder = Mitglieder(zeilen: map<nat, Member>, falte: Option<string> -> string) {

    ghost predicate Gueltig() {
      forall i :: i in zeilen ==> zeilen[i].id == i
    }

    function Schluessel(m: Member): NamensSchluessel {
      (falte(m.lastname), falte(m.firstname))
    }

    function SchluesselVon(): Member -> Option<NamensSchluessel> {
      r => Some(Schluessel(r))
    }

    /** `l` and `w` are the only old and the only new member of their name. */
    ghost predicate IstPaar(l: int, w: int) {
      && l in zeilen && w in zeilen && Alt(zeilen[l]) && Neu(zeilen[w]) &&
        Schluessel(zeilen[l]) == Schluessel(zeilen[w])
      && forall x :: x in zeilen && Schluessel(zeilen[x]) == Schluessel(zeilen[l]) ==>
           (Alt(zeilen[x]) ==> x == l) && (Neu(zeilen[x]) ==> x == w)
    }

    /** Losers with their winners. */
    ghost function Ersatz(): (e: map<int, int>)
      ensures e.Keys <= zeilen.Keys
    {
      map l | l in zeilen && (exists w :: IstPaar(l, w)) :: Gewinner(l)
    }

    ghost function Gewinner(l: int): (w: int)
      requires exists w :: IstPaar(l, w)
      ensures IstPaar(l, w)
    {
      var w :| IstPaar(l, w);
      w
    }
  }

  /** No winner is a loser, and no two losers share a winner. */
  lemma GewinnerSindKeineVerlierer(m: Mitglieder)
    ensures forall l :: l in m.Ersatz() ==> m.IstPaar(l, m.Ersatz()[l]) && m.Ersatz()[l] !in m.Ersatz()
    ensures forall l, k :: l in m.Ersatz() && k in m.Ersatz() && m.Ersatz()[l] == m.Ersatz()[k] ==> l == k
  {
  }

  /** Missing contact data of the winner is taken over from the loser. */
  function Ergaenzt(w: Member, l: Member): Member {
    w.(phone := if !Gefuellt(w.phone) && Gefuellt(l.phone) then l.phone else w.phone,
       email := if !Gefuellt(w.email) && Gefuellt(l.email) then l.email else w.email)
  }

  ghost function VerliererVon(ersatz: map<int, int>, w: int): int
    requires exists l :: l in ersatz && ersatz[l] == w
  {
    var l :| l in ersatz && ersatz[l] == w;
    l
  }

  /** The member table once the losers in `ersatz` are merged. */
  ghost function MemberOhne(zeilen: map<nat, Member>, ersatz: map<int, int>): map<nat, Member>
    requires ersatz.Keys <= zeilen.Keys
  {
    map x | x in zeilen && x !in ersatz ::
      if exists l :: l in ersatz && ersatz[l] == x then Ergaenzt(zeilen[x], zeilen[VerliererVon(ersatz, x)])
      else zeilen[x]
  }

  lemma EinPaarMehr(zeilen: map<nat, Member>, ersatz: map<int, int>, l: int, w: int)
    requires ersatz.Keys <= zeilen.Keys && l in zeilen && w in zeilen && l != w
    requires l !in ersatz && w !in ersatz && w !in ersatz.Values && l !in ersatz.Values
    requires forall a, b :: a in ersatz && b in ersatz && ersatz[a] == ersatz[b] ==> a == b
    ensures MemberOhne(zeilen, ersatz[l := w]) ==
      (MemberOhne(zeilen, ersatz)[w := Ergaenzt(zeilen[w], zeilen[l])] - {l})
  {
    var e := ersatz[l := w];
    var t := MemberOhne(zeilen, ersatz)[w := Ergaenzt(zeilen[w], zeilen[l])] - {l};
    forall x | x in t
      ensures x in MemberOhne(zeilen, e) && MemberOhne(zeilen, e)[x] == t[x]
    {
      if x == w {
        assert e[l] == w;
        assert forall a :: a in ersatz ==> ersatz[a] in ersatz.Values;
        assert VerliererVon(e, w) == l;
      } else {
        if k :| k in e && e[k] == x { assert ersatz[k] == x; }
        if k :| k in ersatz && ersatz[k] == x {
          assert k != l && e[k] == x;
          var v := VerliererVon(e, x);
          assert ersatz[v] == x;
        }
      }
    }
  }

  /** `gruppen` holds the members of every name under it. */
  ghost predicate IstNamensgruppe(m: Mitglieder, gruppe: seq<Member>, schluessel: NamensSchluessel) {
    forall r {:trigger r in gruppe} :: r in gruppe <==> r in m.zeilen.Values && m.Schluessel(r) == schluessel
  }

  ghost predicate Namensgruppen(m: Mitglieder, gruppen: map<NamensSchluessel, seq<Member>>) {
    && (forall k :: k in gruppen ==> IstNamensgruppe(m, gruppen[k], k))
    && (forall l :: l in m.zeilen ==> m.Schluessel(m.zeilen[l]) in gruppen)
  }

  /** The member rows, read once each in any order and grouped by name. */
  method GruppiereNamen(m: Mitglieder) returns (gruppen: map<NamensSchluessel, seq<Member>>)
    ensures Namensgruppen(m, gruppen)
  {
    var rows := AlleZeilen(m.zeilen.Values);
    gruppen := Gruppiere(rows, m.SchluesselVon());
    forall l | l in m.zeilen
      ensures m.Schluessel(m.zeilen[l]) in gruppen
    {
      assert m.zeilen[l] in rows && m.SchluesselVon()(m.zeilen[l]) == Some(m.Schluessel(m.zeilen[l]));
    }
  }

  /** `bind.execute(sa.select(member))` */
  method AlleZeilen(zeilen: set<Member>) returns (rows: seq<Member>)
    ensures forall r :: r in rows <==> r in zeilen
  {
    rows := [];
    var rest := zeilen;
    while rest != {}
      invariant rest <= zeilen && forall r :: r in rows <==> r in zeilen && r !in rest
      decreases rest
    {
      var r :| r in rest;
      rows, rest := rows + [r], rest - {r};
    }
  }

  // ---------------------------------------------------------------- the database

  class Datenbank {
    var tabellen: Schema
    var member: map<nat, Member>

    ghost predicate Valid()
      reads this
    {
      SchemaGueltig(tabellen) && forall i :: i in member ==> member[i].id == i
    }

    /** `_merge_members`; false stands for the RuntimeError of the redirect. */
    method MergeMembers(falte: Option<string> -> string) returns (ok: bool)
      requires Valid()
      modifies this
      ensures ok && Valid()
      ensures var ersatz := Mitglieder(old(member), falte).Ersatz();
              member == MemberOhne(old(member), ersatz) && OhneVerweise(tabellen, ersatz.Keys) &&
              Zwischenstand(old(tabellen), tabellen, REFERENZEN, ersatz)
      ensures MitgliederNachMerge(old(member), falte, member)
      ensures ZeilenNachMerge(old(member), falte, old(tabellen), tabellen)
    {
      hide *;
      ghost var m, s := Mitglieder(member, falte), tabellen;
      ok := MergeAlle(falte);
      MitgliederGenau(m);
      NurErsetzt(s, tabellen, m.Ersatz());
      ZeilenGenau(m, s, tabellen);
    }

    /** The loop over the names. */
    method MergeAlle(falte: Option<string> -> string) returns (ok: bool)
      requires Valid()
      modifies this
      ensures ok && Valid()
      ensures var ersatz := Mitglieder(old(member), falte).Ersatz();
              member == MemberOhne(old(member), ersatz) && OhneVerweise(tabellen, ersatz.Keys) &&
              Zwischenstand(old(tabellen), tabellen, REFERENZEN, ersatz)
    {
      hide *;
      var m := Mitglieder(member, falte);
      ghost var s := tabellen;
      var gruppen := GruppiereNamen(m);
      var rest := gruppen.Keys;
      ghost var erledigt: set<NamensSchluessel> := {};
      NochKeinPaar(m, s, this);
      while rest != {}
        invariant erledigt + rest == gruppen.Keys && erledigt !! rest
        invariant BisHier(m, s, this, erledigt)
        decreases rest
      {
        var schluessel :| schluessel in rest;
        GruppeIstNamensgruppe(m, gruppen, schluessel);
        ok := MergeGruppe(m, s, gruppen[schluessel], schluessel, erledigt);
        if !ok { return; }
        rest, erledigt := rest - {schluessel}, erledigt + {schluessel};
      }
      ok := true;
      AllePaareErledigt(m, s, this, gruppen, erledigt);
    }

    /** The loop body for one name. */
    method MergeGruppe(m: Mitglieder, ghost s: Schema, gruppe: seq<Member>, ghost schluessel: NamensSchluessel,
                       ghost erledigt: set<NamensSchluessel>) returns (ok: bool)
      requires BisHier(m, s, this, erledigt) && schluessel !in erledigt && IstNamensgruppe(m, gruppe, schluessel)
      modifies this
      ensures ok && BisHier(m, s, this, erledigt + {schluessel})
    {
      hide *;
      var alte := set r | r in gruppe && Alt(r);
      var neue := set r | r in gruppe && Neu(r);
      if |alte| != 1 || |neue| != 1 {
        KeinPaar(m, s, this, gruppe, schluessel, erledigt, alte, neue);
        return true;
      }
      var loser :| loser in alte;
      var winner :| winner in neue;
      IstEinPaar(m, s, this, gruppe, schluessel, erledigt, alte, neue, loser, winner);
      ghost var vorher, u := member, tabellen;
      if Ergaenzt(winner, loser) != winner { member := member[winner.id := Ergaenzt(winner, loser)]; }
      assert member == vorher[winner.id := Ergaenzt(winner, loser)];
      ok := HaengeReferenzenUm(loser.id, winner.id);
      if !ok { return; }
      member := member - {loser.id};
      PaarErledigt(m, s, u, this, schluessel, erledigt, loser.id, winner.id);
    }

    /** `_haenge_referenzen_um`; false stands for its RuntimeError. */
    method HaengeReferenzenUm(alt: int, neu: int) returns (ok: bool)
      requires SchemaGueltig(tabellen) && alt != neu
      modifies this`tabellen
      ensures ok && Zwischenstand(old(tabellen), tabellen, REFERENZEN, map[alt := neu])
    {
      hide *;
      HaengeSpaltenUm(alt, neu);
      OhneVerweiseAuf(old(tabellen), tabellen, alt, neu);
      var uebrig := HatVerweise(alt);
      ok := !uebrig;
    }

    /** The redirect loop. */
    method HaengeSpaltenUm(alt: int, neu: int)
      requires SchemaGueltig(tabellen) && alt != neu
      modifies this`tabellen
      ensures Zwischenstand(old(tabellen), tabellen, REFERENZEN, map[alt := neu])
    {
      hide *;
      ghost var s := tabellen;
      NochNichtsErsetzt(s, alt, neu);
      for n := 0 to |REFERENZEN|
        invariant Zwischenstand(s, tabellen, REFERENZEN[..n], map[alt := neu])
      {
        HaengeSpalteUm(s, REFERENZEN[..n], REFERENZEN[n], alt, neu);
        assert REFERENZEN[..n + 1] == REFERENZEN[..n] + [REFERENZEN[n]];
      }
      assert REFERENZEN[..|REFERENZEN|] == REFERENZEN;
    }

    /** The count of what still references `alt`. */
    method HatVerweise(alt: int) returns (uebrig: bool)
      ensures OhneVerweise(tabellen, {alt}) ==> !uebrig
    {
      uebrig := VerweistNoch(tabellen, REFERENZEN, alt);
      if OhneVerweise(tabellen, {alt}) { NichtsVerweist(tabellen, REFERENZEN, alt); }
    }

    /** One entry of REFERENZEN: skipped when absent, otherwise collisions removed and the column redirected. */
    method HaengeSpalteUm(ghost s: Schema, ghost refs: seq<(string, string)>, r: (string, string), alt: int, neu: int)
      requires Zwischenstand(s, tabellen, refs, map[alt := neu]) && SchemaGueltig(s) && r in REFERENZEN && alt != neu
      modifies this`tabellen
      ensures Zwischenstand(s, tabellen, refs + [r], map[alt := neu])
    {
      hide *;
      if r.0 !in tabellen || r.1 !in tabellen[r.0].spalten {
        OhneSpalte(s, tabellen, refs, r, map[alt := neu]);
        return;
      }
      var t := tabellen[r.0];
      TabelleGueltig(s, tabellen, refs, map[alt := neu], r.0);
      var u := EntferneKollisionen(t, r.1, alt, neu);
      MitSpalte(s, tabellen, refs, r, alt, neu);
      tabellen := tabellen[r.0 := Umgehaengt(u, r.1, alt, neu)];
    }
  }

  lemma NurErsetzt(s: Schema, u: Schema, ersatz: map<int, int>)
    requires Zwischenstand(s, u, REFERENZEN, ersatz)
    ensures SchemaErsetzt(s, u, REFERENZEN, ersatz)
  {
  }

  lemma TabelleGueltig(s: Schema, u: Schema, refs: seq<(string, string)>, ersatz: map<int, int>, n: string)
    requires Zwischenstand(s, u, refs, ersatz) && n in u
    ensures u[n].Gueltig()
  {
  }

  lemma OhneSpalte(s: Schema, u: Schema, refs: seq<(string, string)>, r: (string, string), ersatz: map<int, int>)
    requires Zwischenstand(s, u, refs, ersatz) && SchemaGueltig(s) && (r.0 in u ==> r.1 !in u[r.0].spalten)
    ensures Zwischenstand(s, u, refs + [r], ersatz)
  {
    hide AllesErklaert;
    FehlendeSpalte(s, u, refs, r, ersatz);
    FehlendeErklaert(s, u, refs, r, ersatz);
  }

  lemma MitSpalte(s: Schema, u: Schema, refs: seq<(string, string)>, r: (string, string), alt: int, neu: int)
    requires Zwischenstand(s, u, refs, map[alt := neu]) && r in REFERENZEN && alt != neu
    requires r.0 in u && r.1 in u[r.0].spalten
    ensures Zwischenstand(s, u[r.0 := Umgehaengt(OhneKollisionen(u[r.0], r.1, alt, neu), r.1, alt, neu)], refs + [r],
                          map[alt := neu])
  {
    hide AllesErklaert;
    SchrittGueltig(u, r, alt, neu);
    SchrittErsetzt(s, u, refs, r, alt, neu);
    SchrittErklaert(s, u, refs, r, alt, neu);
  }

  lemma OhneVerweiseAuf(s: Schema, u: Schema, alt: int, neu: int)
    requires Zwischenstand(s, u, REFERENZEN, map[alt := neu]) && alt != neu
    ensures OhneVerweise(u, {alt})
  {
    hide SchemaErsetzt, AllesErklaert, SchemaGueltig, OhneVerweise, REFERENZEN;
    ErsetztOhneVerweise(s, u, map[alt := neu]);
    assert map[alt := neu].Keys == {alt};
  }

  // ---------------------------------------------------------------- the loop over the names

  ghost function ErsatzBis(m: Mitglieder, erledigt: set<NamensSchluessel>): (e: map<int, int>)
    ensures e.Keys <= m.zeilen.Keys
  {
    map l | l in m.Ersatz() && m.Schluessel(m.zeilen[l]) in erledigt :: m.Ersatz()[l]
  }

  /** The database after the pairs of the names in `erledigt` have been merged. */
  ghost predicate BisHier(m: Mitglieder, s: Schema, db: Datenbank, erledigt: set<NamensSchluessel>)
    reads db
  {
    && m.Gueltig()
    && db.member == MemberOhne(m.zeilen, ErsatzBis(m, erledigt))
    && Zwischenstand(s, db.tabellen, REFERENZEN, ErsatzBis(m, erledigt))
  }

  lemma NochKeinPaar(m: Mitglieder, s: Schema, db: Datenbank)
    requires db.Valid() && db.member == m.zeilen && s == db.tabellen
    ensures BisHier(m, s, db, {})
  {
    LeererErsatz(s);
    NochNiemandErsetzt(m);
    hide Zwischenstand, SchemaGueltig, MemberOhne, ErsatzBis, Mitglieder.Ersatz;
  }

  lemma NochNiemandErsetzt(m: Mitglieder)
    ensures ErsatzBis(m, {}) == map[] && MemberOhne(m.zeilen, map[]) == m.zeilen
  {
  }

  lemma LeererErsatz(s: Schema)
    requires SchemaGueltig(s)
    ensures Zwischenstand(s, s, REFERENZEN, map[])
  {
    hide REFERENZEN, SchemaGueltig;
    forall n, i | n in s && i in s[n].zeilen
      ensures s[n].zeilen[i] == Ersetzt(s[n].zeilen[i], Spalten(REFERENZEN, n), map[])
    {
    }
  }

  lemma GruppeIstNamensgruppe(m: Mitglieder, gruppen: map<NamensSchluessel, seq<Member>>, schluessel: NamensSchluessel)
    requires Namensgruppen(m, gruppen) && schluessel in gruppen
    ensures IstNamensgruppe(m, gruppen[schluessel], schluessel)
  {
  }

  lemma Einziges<T>(s: set<T>, x: T)
    requires |s| == 1 && x in s
    ensures s == {x}
  {
    assert |s - {x}| == 0;
  }

  /** A name without exactly one old and one new member adds no pair. */
  lemma KeinPaar(m: Mitglieder, s: Schema, db: Datenbank, gruppe: seq<Member>, schluessel: NamensSchluessel,
                 erledigt: set<NamensSchluessel>, alte: set<Member>, neue: set<Member>)
    requires BisHier(m, s, db, erledigt) && IstNamensgruppe(m, gruppe, schluessel)
    requires alte == (set r | r in gruppe && Alt(r)) && neue == (set r | r in gruppe && Neu(r))
    requires |alte| != 1 || |neue| != 1
    ensures BisHier(m, s, db, erledigt + {schluessel})
  {
    hide Zwischenstand, MemberOhne, ErsatzBis, IstNamensgruppe, Mitglieder.Ersatz;
    forall l | l in m.Ersatz()
      ensures m.Schluessel(m.zeilen[l]) != schluessel
    {
      if m.Schluessel(m.zeilen[l]) == schluessel { NameMitPaar(m, gruppe, schluessel, alte, neue, l); }
    }
    KeinPaarDazu(m, schluessel, erledigt);
  }

  lemma KeinPaarDazu(m: Mitglieder, schluessel: NamensSchluessel, erledigt: set<NamensSchluessel>)
    requires forall l :: l in m.Ersatz() ==> l in m.zeilen && m.Schluessel(m.zeilen[l]) != schluessel
    ensures ErsatzBis(m, erledigt + {schluessel}) == ErsatzBis(m, erledigt)
  {
  }

  lemma ZeileHatId(m: Mitglieder, r: Member)
    requires m.Gueltig() && r in m.zeilen.Values
    ensures r.id in m.zeilen && m.zeilen[r.id] == r
  {
    var x :| x in m.zeilen && m.zeilen[x] == r;
  }

  lemma NameMitPaar(m: Mitglieder, gruppe: seq<Member>, schluessel: NamensSchluessel, alte: set<Member>,
                    neue: set<Member>, l: int)
    requires m.Gueltig() && IstNamensgruppe(m, gruppe, schluessel)
    requires l in m.Ersatz() && m.Schluessel(m.zeilen[l]) == schluessel
    requires alte == (set r | r in gruppe && Alt(r)) && neue == (set r | r in gruppe && Neu(r))
    ensures |alte| == 1 && |neue| == 1
  {
    var w := m.Gewinner(l);
    assert m.zeilen[l] in gruppe && m.zeilen[w] in gruppe;
    forall r | r in gruppe
      ensures (Alt(r) ==> r == m.zeilen[l]) && (Neu(r) ==> r == m.zeilen[w])
    {
      ZeileHatId(m, r);
    }
    assert alte == {m.zeilen[l]};
    assert neue == {m.zeilen[w]};
  }

  lemma IstEinPaar(m: Mitglieder, s: Schema, db: Datenbank, gruppe: seq<Member>, schluessel: NamensSchluessel,
                   erledigt: set<NamensSchluessel>, alte: set<Member>, neue: set<Member>, loser: Member, winner: Member)
    requires BisHier(m, s, db, erledigt) && IstNamensgruppe(m, gruppe, schluessel)
    requires alte == (set r | r in gruppe && Alt(r)) && neue == (set r | r in gruppe && Neu(r))
    requires |alte| == 1 && |neue| == 1 && loser in alte && winner in neue && schluessel !in erledigt
    ensures m.IstPaar(loser.id, winner.id) && m.Schluessel(m.zeilen[loser.id]) == schluessel && loser.id != winner.id
    ensures m.zeilen[loser.id] == loser && m.zeilen[winner.id] == winner
    ensures winner.id in db.member && db.member[winner.id] == winner && SchemaGueltig(db.tabellen)
    ensures m.Gueltig() && db.member == MemberOhne(m.zeilen, ErsatzBis(m, erledigt))
    ensures Zwischenstand(s, db.tabellen, REFERENZEN, ErsatzBis(m, erledigt))
  {
    hide SchemaErsetzt, AllesErklaert, SchemaGueltig, REFERENZEN, ErsatzBis, MemberOhne, Mitglieder.Ersatz;
    EinzigesPaar(m, gruppe, schluessel, alte, neue, loser, winner);
    GewinnerNochDa(m, schluessel, erledigt, loser.id, winner.id);
  }

  lemma EinzigesPaar(m: Mitglieder, gruppe: seq<Member>, schluessel: NamensSchluessel, alte: set<Member>,
                     neue: set<Member>, loser: Member, winner: Member)
    requires m.Gueltig() && IstNamensgruppe(m, gruppe, schluessel)
    requires alte == (set r | r in gruppe && Alt(r)) && neue == (set r | r in gruppe && Neu(r))
    requires |alte| == 1 && |neue| == 1 && loser in alte && winner in neue
    ensures m.IstPaar(loser.id, winner.id) && m.Schluessel(m.zeilen[loser.id]) == schluessel && loser.id != winner.id
    ensures m.zeilen[loser.id] == loser && m.zeilen[winner.id] == winner
  {
    Einziges(alte, loser);
    Einziges(neue, winner);
    forall x | x in m.zeilen && m.Schluessel(m.zeilen[x]) == schluessel
      ensures (Alt(m.zeilen[x]) ==> x == loser.id) && (Neu(m.zeilen[x]) ==> x == winner.id)
    {
      assert m.zeilen[x] in gruppe;
      assert Alt(m.zeilen[x]) ==> m.zeilen[x] in alte;
      assert Neu(m.zeilen[x]) ==> m.zeilen[x] in neue;
    }
    ZeileHatId(m, loser);
    ZeileHatId(m, winner);
  }

  /** The winner of a name not handled yet is still there as it was. */
  lemma GewinnerNochDa(m: Mitglieder, schluessel: NamensSchluessel, erledigt: set<NamensSchluessel>, l: int, w: int)
    requires m.IstPaar(l, w) && m.Schluessel(m.zeilen[l]) == schluessel && schluessel !in erledigt
    ensures w in MemberOhne(m.zeilen, ErsatzBis(m, erledigt)) &&
            MemberOhne(m.zeilen, ErsatzBis(m, erledigt))[w] == m.zeilen[w]
  {
    PaarWaechst(m, schluessel, erledigt, l, w);
    hide ErsatzBis, Mitglieder.IstPaar;
    var e := ErsatzBis(m, erledigt);
    assert forall k :: k in e ==> e[k] in e.Values;
  }

  lemma PaarWaechst(m: Mitglieder, schluessel: NamensSchluessel, erledigt: set<NamensSchluessel>, l: int, w: int)
    requires m.IstPaar(l, w) && m.Schluessel(m.zeilen[l]) == schluessel && schluessel !in erledigt
    ensures l !in ErsatzBis(m, erledigt) && l !in ErsatzBis(m, erledigt).Values
    ensures w !in ErsatzBis(m, erledigt) && w !in ErsatzBis(m, erledigt).Values
    ensures ErsatzBis(m, erledigt + {schluessel}) == ErsatzBis(m, erledigt)[l := w]
    ensures forall a, b {:trigger ErsatzBis(m, erledigt)[a], ErsatzBis(m, erledigt)[b]} ::
      (&& a in ErsatzBis(m, erledigt) && b in ErsatzBis(m, erledigt)
       && ErsatzBis(m, erledigt)[a] == ErsatzBis(m, erledigt)[b]) ==> a == b
  {
    GewinnerSindKeineVerlierer(m);
    assert m.Ersatz()[l] == w;
    forall k | k in m.Ersatz() && m.Schluessel(m.zeilen[k]) == schluessel
      ensures k == l
    {
    }
    var e := ErsatzBis(m, erledigt);
    forall v | v in e.Values
      ensures v != l && v != w
    {
      var k :| k in e && e[k] == v;
    }
  }

  lemma PaarErledigt(m: Mitglieder, s: Schema, u: Schema, db: Datenbank, schluessel: NamensSchluessel,
                     erledigt: set<NamensSchluessel>,
                     l: int, w: int)
    requires m.Gueltig() && m.IstPaar(l, w) && m.Schluessel(m.zeilen[l]) == schluessel && schluessel !in erledigt &&
             l != w
    requires Zwischenstand(s, u, REFERENZEN, ErsatzBis(m, erledigt))
    requires Zwischenstand(u, db.tabellen, REFERENZEN, map[l := w])
    requires db.member == MemberOhne(m.zeilen, ErsatzBis(m, erledigt))[w := Ergaenzt(m.zeilen[w], m.zeilen[l])] - {l}
    ensures BisHier(m, s, db, erledigt + {schluessel})
  {
    PaarWaechst(m, schluessel, erledigt, l, w);
    hide ErsatzBis, Mitglieder.IstPaar;
    EinPaarMehr(m.zeilen, ErsatzBis(m, erledigt), l, w);
    PaareErsetzt(s, u, db.tabellen, ErsatzBis(m, erledigt), l, w);
    PaareErklaert(s, u, db.tabellen, ErsatzBis(m, erledigt), l, w);
  }

  lemma AllePaareErledigt(m: Mitglieder, s: Schema, db: Datenbank, gruppen: map<NamensSchluessel, seq<Member>>,
                          erledigt: set<NamensSchluessel>)
    requires BisHier(m, s, db, erledigt) && erledigt == gruppen.Keys
    requires Namensgruppen(m, gruppen)
    ensures db.member == MemberOhne(m.zeilen, m.Ersatz()) && OhneVerweise(db.tabellen, m.Ersatz().Keys)
    ensures Zwischenstand(s, db.tabellen, REFERENZEN, m.Ersatz()) && db.Valid()
  {
    hide Mitglieder.IstPaar, MemberOhne, Mitglieder.Ersatz, SchemaErsetzt, AllesErklaert, SchemaGueltig, OhneVerweise,
      REFERENZEN;
    AlleErsetzt(m, gruppen, erledigt);
    hide ErsatzBis, Namensgruppen;
    GewinnerSindKeineVerlierer(m);
    ErsetztOhneVerweise(s, db.tabellen, m.Ersatz());
    MemberOhneGueltig(m.zeilen, m.Ersatz());
  }

  lemma AlleErsetzt(m: Mitglieder, gruppen: map<NamensSchluessel, seq<Member>>, erledigt: set<NamensSchluessel>)
    requires erledigt == gruppen.Keys && Namensgruppen(m, gruppen)
    ensures ErsatzBis(m, erledigt) == m.Ersatz()
  {
    hide Mitglieder.Ersatz, IstNamensgruppe;
  }

  lemma MemberOhneGueltig(zeilen: map<nat, Member>, ersatz: map<int, int>)
    requires ersatz.Keys <= zeilen.Keys && forall i :: i in zeilen ==> zeilen[i].id == i
    ensures forall i :: i in MemberOhne(zeilen, ersatz) ==> MemberOhne(zeilen, ersatz)[i].id == i
  {
  }

  lemma NochNichtsErsetzt(s: Schema, alt: int, neu: int)
    requires SchemaGueltig(s)
    ensures Zwischenstand(s, s, [], map[alt := neu])
  {
    hide REFERENZEN, SchemaGueltig;
    forall n, i | n in s && i in s[n].zeilen
      ensures s[n].zeilen[i] == Ersetzt(s[n].zeilen[i], Spalten([], n), map[alt := neu])
    {
    }
  }

  // ---------------------------------------------------------------- running the merge again

  lemma ZeileNachMerge(m: Mitglieder, x: nat)
    requires x in MemberOhne(m.zeilen, m.Ersatz())
    ensures x in m.zeilen && x !in m.Ersatz()
    ensures var z := MemberOhne(m.zeilen, m.Ersatz())[x];
            Alt(z) == Alt(m.zeilen[x]) && Neu(z) == Neu(m.zeilen[x]) && m.Schluessel(z) == m.Schluessel(m.zeilen[x])
  {
    hide Mitglieder.Ersatz;
  }

  /** A merge leaves no pair behind: the loser of a name was its only old member. */
  lemma ZweiterLaufFindetKeinPaar(m: Mitglieder)
    ensures m.(zeilen := MemberOhne(m.zeilen, m.Ersatz())).Ersatz() == map[]
  {
    var n := m.(zeilen := MemberOhne(m.zeilen, m.Ersatz()));
    forall l, w
      ensures !n.IstPaar(l, w)
    {
      KeinPaarMehr(m, n, l, w);
    }
  }

  /** A remaining old member shares its name with no loser. */
  lemma NameOhneVerlierer(m: Mitglieder, l: int, x: int)
    requires l in m.zeilen && Alt(m.zeilen[l]) && l !in m.Ersatz()
    requires x in m.zeilen && m.Schluessel(m.zeilen[x]) == m.Schluessel(m.zeilen[l])
    ensures x !in m.Ersatz()
  {
    GewinnerSindKeineVerlierer(m);
    hide Mitglieder.Ersatz;
    assert x in m.Ersatz() ==> m.IstPaar(x, m.Ersatz()[x]);
  }

  lemma KeinPaarMehr(m: Mitglieder, n: Mitglieder, l: int, w: int)
    requires n == m.(zeilen := MemberOhne(m.zeilen, m.Ersatz()))
    ensures !n.IstPaar(l, w)
  {
    if l in n.zeilen && w in n.zeilen && Alt(n.zeilen[l]) && Neu(n.zeilen[w]) &&
       m.Schluessel(n.zeilen[l]) == m.Schluessel(n.zeilen[w]) {
      ZeileNachMerge(m, l);
      ZeileNachMerge(m, w);
      assert !m.IstPaar(l, w);
      hide MemberOhne, Mitglieder.Schluessel, Mitglieder.Ersatz, Alt, Neu;
      var x :| x in m.zeilen && m.Schluessel(m.zeilen[x]) == m.Schluessel(m.zeilen[l]) &&
               !((Alt(m.zeilen[x]) ==> x == l) && (Neu(m.zeilen[x]) ==> x == w));
      NameOhneVerlierer(m, l, x);
      if x !in n.zeilen { NurVerliererFehlen(m, x); }
      ZeileNachMerge(m, x);
    }
  }

  lemma NurVerliererFehlen(m: Mitglieder, x: nat)
    requires x in m.zeilen && x !in MemberOhne(m.zeilen, m.Ersatz())
    ensures x in m.Ersatz()
  {
    hide Mitglieder.Ersatz;
  }

  /** Without pairs the pass changes no table. */
  lemma OhnePaareBleibtAlles(s: Schema, u: Schema)
    requires Zwischenstand(s, u, REFERENZEN, map[])
    ensures u == s
  {
    hide REFERENZEN, Spalten, SchemaGueltig, AllesErklaert, TabelleErsetzt;
    forall n | n in s
      ensures u[n] == s[n]
    {
      TabelleBleibt(s, u, n);
    }
  }

  lemma TabelleBleibt(s: Schema, u: Schema, n: string)
    requires Zwischenstand(s, u, REFERENZEN, map[]) && n in s && n in u
    ensures u[n] == s[n]
  {
    assert TabelleErsetzt(s[n], u[n], Spalten(REFERENZEN, n), map[]);
    hide REFERENZEN, Spalten, SchemaErsetzt, Zwischenstand;
    forall i | i in s[n].zeilen
      ensures i in u[n].zeilen && u[n].zeilen[i] == s[n].zeilen[i]
    {
      NurBetroffeneZeilen(s, u, map[], n, i);
    }
    assert u[n].zeilen == s[n].zeilen;
  }

  // ---------------------------------------------------------------- the specification in terms of the columns

  lemma PaarGenauDann(m: Mitglieder, l: int, w: int)
    ensures m.IstPaar(l, w) <==> IstMergePaar(m.zeilen, m.falte, l, w)
  {
  }

  lemma ErsatzGenauDann(m: Mitglieder, l: int, w: int)
    ensures l in m.Ersatz() && m.Ersatz()[l] == w <==> IstMergePaar(m.zeilen, m.falte, l, w)
  {
    PaarGenauDann(m, l, w);
    if l in m.Ersatz() { PaarGenauDann(m, l, m.Ersatz()[l]); }
    hide IstMergePaar;
  }

  lemma MitgliederGenau(m: Mitglieder)
    ensures MitgliederNachMerge(m.zeilen, m.falte, MemberOhne(m.zeilen, m.Ersatz()))
  {
    var e, u := m.Ersatz(), MemberOhne(m.zeilen, m.Ersatz());
    forall l, w
      ensures l in e && e[l] == w <==> IstMergePaar(m.zeilen, m.falte, l, w)
    {
      ErsatzGenauDann(m, l, w);
    }
    GewinnerSindKeineVerlierer(m);
    hide IstMergePaar, Mitglieder.Ersatz, Mitglieder.IstPaar;
    forall x | x in m.zeilen
      ensures x !in e <==> forall w :: !IstMergePaar(m.zeilen, m.falte, x, w)
    {
      if x in e { assert IstMergePaar(m.zeilen, m.falte, x, e[x]); }
    }
    forall x {:trigger u[x]} | x in u
      ensures u[x] == m.zeilen[x].(phone := u[x].phone, email := u[x].email)
      ensures FeldNachMerge(m.zeilen, m.falte, x, (y: Member) => y.phone, u[x].phone)
      ensures FeldNachMerge(m.zeilen, m.falte, x, (y: Member) => y.email, u[x].email)
    {
      MitgliedGenau(m, x);
    }
  }

  lemma MitgliedGenau(m: Mitglieder, x: nat)
    requires x in MemberOhne(m.zeilen, m.Ersatz())
    ensures var z := MemberOhne(m.zeilen, m.Ersatz())[x];
            z == m.zeilen[x].(phone := z.phone, email := z.email) &&
            FeldNachMerge(m.zeilen, m.falte, x, (y: Member) => y.phone, z.phone) &&
            FeldNachMerge(m.zeilen, m.falte, x, (y: Member) => y.email, z.email)
  {
    var e := m.Ersatz();
    forall l
      ensures l in e && e[l] == x <==> IstMergePaar(m.zeilen, m.falte, l, x)
    {
      ErsatzGenauDann(m, l, x);
    }
    GewinnerSindKeineVerlierer(m);
    hide IstMergePaar, Mitglieder.Ersatz, Mitglieder.IstPaar, FeldNachMerge;
    var z := MemberOhne(m.zeilen, e)[x];
    if exists l :: l in e && e[l] == x {
      var l := VerliererVon(e, x);
      assert z == Ergaenzt(m.zeilen[x], m.zeilen[l]);
      hide MemberOhne, Ergaenzt;
      FelderMitVerlierer(m, x, l);
    } else {
      assert z == m.zeilen[x];
      hide MemberOhne, Ergaenzt;
      FelderOhneVerlierer(m, x);
    }
  }

  lemma FelderMitVerlierer(m: Mitglieder, x: nat, l: int)
    requires x in m.zeilen && l in m.zeilen && IstMergePaar(m.zeilen, m.falte, l, x)
    requires forall k :: IstMergePaar(m.zeilen, m.falte, k, x) ==> k == l
    ensures var z := Ergaenzt(m.zeilen[x], m.zeilen[l]);
            z == m.zeilen[x].(phone := z.phone, email := z.email) &&
            FeldNachMerge(m.zeilen, m.falte, x, (y: Member) => y.phone, z.phone) &&
            FeldNachMerge(m.zeilen, m.falte, x, (y: Member) => y.email, z.email)
  {
    hide IstMergePaar;
  }

  lemma FelderOhneVerlierer(m: Mitglieder, x: nat)
    requires x in m.zeilen && forall k :: !IstMergePaar(m.zeilen, m.falte, k, x)
    ensures FeldNachMerge(m.zeilen, m.falte, x, (y: Member) => y.phone, m.zeilen[x].phone)
    ensures FeldNachMerge(m.zeilen, m.falte, x, (y: Member) => y.email, m.zeilen[x].email)
  {
    hide IstMergePaar;
  }

  /** A value after the merge: a loser in one of the 27 columns has become its winner, everything else is as it was. */
  ghost predicate WertNachMerge(t: map<nat, Member>, falte: Option<string> -> string, n: string, c: string, alt: Wert,
                                neu: Wert) {
    if (n, c) in REFERENZEN && alt.Zahl? && exists w :: IstMergePaar(t, falte, alt.n, w)
    then neu.Zahl? && IstMergePaar(t, falte, alt.n, neu.n)
    else neu == alt
  }

  /** Every row left in a table is a row from before, value by value. */
  ghost predicate ZeilenNachMerge(t: map<nat, Member>, falte: Option<string> -> string, s: Schema, u: Schema) {
    s.Keys == u.Keys && forall n, i :: n in u && i in u[n].zeilen ==>
      && i in s[n].zeilen && u[n].zeilen[i].Keys == s[n].zeilen[i].Keys
      && forall c :: c in s[n].zeilen[i] ==> WertNachMerge(t, falte, n, c, s[n].zeilen[i][c], u[n].zeilen[i][c])
  }

  lemma ZeilenGenau(m: Mitglieder, s: Schema, u: Schema)
    requires SchemaErsetzt(s, u, REFERENZEN, m.Ersatz())
    ensures ZeilenNachMerge(m.zeilen, m.falte, s, u)
  {
    forall n, i | n in u && i in u[n].zeilen
      ensures i in s[n].zeilen && u[n].zeilen[i].Keys == s[n].zeilen[i].Keys
      ensures forall c :: c in s[n].zeilen[i] ==>
        WertNachMerge(m.zeilen, m.falte, n, c, s[n].zeilen[i][c], u[n].zeilen[i][c])
    {
      hide REFERENZEN;
      assert TabelleErsetzt(s[n], u[n], Spalten(REFERENZEN, n), m.Ersatz());
      hide SchemaErsetzt;
      forall c | c in s[n].zeilen[i]
        ensures WertNachMerge(m.zeilen, m.falte, n, c, s[n].zeilen[i][c], u[n].zeilen[i][c])
      {
        WertGenau(m, s[n].zeilen[i], n, c);
        hide WertNachMerge;
      }
    }
  }

  lemma WertGenau(m: Mitglieder, z: Zeile, n: string, c: string)
    requires c in z
    ensures c in Ersetzt(z, Spalten(REFERENZEN, n), m.Ersatz())
    ensures WertNachMerge(m.zeilen, m.falte, n, c, z[c], Ersetzt(z, Spalten(REFERENZEN, n), m.Ersatz())[c])
  {
    hide REFERENZEN;
    assert c in Spalten(REFERENZEN, n) <==> (n, c) in REFERENZEN;
    if z[c].Zahl? {
      forall w
        ensures z[c].n in m.Ersatz() && m.Ersatz()[z[c].n] == w <==> IstMergePaar(m.zeilen, m.falte, z[c].n, w)
      {
        ErsatzGenauDann(m, z[c].n, w);
      }
      hide IstMergePaar, Mitglieder.Ersatz, Spalten;
      if z[c].n in m.Ersatz() { assert IstMergePaar(m.zeilen, m.falte, z[c].n, m.Ersatz()[z[c].n]); }
    }
  }
}
