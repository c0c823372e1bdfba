/** `_storniere_doppelfahrten` of alembic/versions/0231_fahrtenbuch_member_dedup.py. */
module DoppelFahrten {
  import opened Grundlagen
  import opened Fahrtdaten
  import opened FahrtNamen

  const GRUND := "Doppelerfassung (Datenbereinigung)"

  /** The compared columns: everything but id, further roles, status and creation time. */
  datatype Vergleich = Vergleich(orgId: Option<nat>, maschinist: seq<Rolle>, fahrzeugId: Option<nat>,
                                 messwerte: Messwerte, umstaende: Umstaende)

  function VergleichVon(f: Fahrt): Vergleich {
    Vergleich(f.orgId, if f.rollen == [] then [] else [f.rollen[0]], f.fahrzeugId, f.messwerte, f.umstaende)
  }

  ghost predicate Gueltig(t: Fahrten) {
    forall i :: i in t ==> t[i].id == i
  }

  /** The active trips with one comparison key. */
  ghost function Aktive(t: Fahrten, v: Vergleich): set<nat> {
    set i | i in t && t[i].status.Aktiv? && VergleichVon(t[i]) == v
  }

  /** `(created_at or datetime.min, id)` of `f` is less than that of `g`. */
  predicate Frueher(f: Fahrt, g: Fahrt) {
    var a, b := if f.createdAt.Some? then f.createdAt.value else 0, if g.createdAt.Some? then g.createdAt.value else 0;
    a < b || (a == b && f.id < g.id)
  }

  /** `i` is the later trip of a group of exactly two identical active trips. */
  ghost predicate SpaetereVonZweien(t: Fahrten, i: nat) {
    && i in t && t[i].status.Aktiv? && |Aktive(t, VergleichVon(t[i]))| == 2
    && exists j :: j in Aktive(t, VergleichVon(t[i])) && Frueher(t[j], t[i])
  }

  ghost function Bereinigt(t: Fahrten): Fahrten {
    map i | i in t :: if SpaetereVonZweien(t, i) then t[i].(status := Storniert(GRUND)) else t[i]
  }

  // ---------------------------------------------------------------- what the cancellation keeps

  lemma PaarZerlegen(s: set<nat>, i: nat) returns (j: nat)
    requires |s| == 2 && i in s
    ensures j != i && s == {i, j}
  {
    assert |s - {i}| == 1;
    j :| j in s - {i};
    assert |s - {i} - {j}| == 0;
    assert s - {i} - {j} == {};
  }

  /** Of a group of two exactly the earlier trip stays active; every other group keeps all its trips. */
  lemma GruppenNachher(t: Fahrten, v: Vergleich)
    requires Gueltig(t)
    ensures |Aktive(t, v)| != 2 ==> Aktive(Bereinigt(t), v) == Aktive(t, v)
    ensures |Aktive(t, v)| == 2 ==>
      exists i, j :: Aktive(t, v) == {i, j} && Frueher(t[i], t[j]) && Aktive(Bereinigt(t), v) == {i}
  {
    var a := Aktive(t, v);
    if |a| == 2 {
      var i :| i in a;
      var j := PaarZerlegen(a, i);
      assert j in a;
      var frueher, spaeter := if Frueher(t[i], t[j]) then i else j, if Frueher(t[i], t[j]) then j else i;
      assert a == {frueher, spaeter} && Frueher(t[frueher], t[spaeter]);
      hide Aktive, Frueher, Bereinigt, Gueltig;
      ZweierGruppeNachher(t, v, frueher, spaeter);
    } else {
      AndereGruppeNachher(t, v);
    }
  }

  lemma ZweierGruppeNachher(t: Fahrten, v: Vergleich, frueher: nat, spaeter: nat)
    requires Gueltig(t) && Aktive(t, v) == {frueher, spaeter} && frueher != spaeter && Frueher(t[frueher], t[spaeter])
    ensures Aktive(Bereinigt(t), v) == {frueher}
  {
    assert frueher in Aktive(t, v) && spaeter in Aktive(t, v);
    assert SpaetereVonZweien(t, spaeter) && !SpaetereVonZweien(t, frueher);
    assert forall i :: i in t && i != frueher && i != spaeter ==> i !in Aktive(t, v);
  }

  lemma AndereGruppeNachher(t: Fahrten, v: Vergleich)
    requires |Aktive(t, v)| != 2
    ensures Aktive(Bereinigt(t), v) == Aktive(t, v)
  {
    assert forall i :: i in Aktive(t, v) ==> !SpaetereVonZweien(t, i);
    assert forall i :: i in Aktive(Bereinigt(t), v) ==> i in t && VergleichVon(t[i]) == v && t[i].status.Aktiv?;
  }

  /** The set of comparison keys among the active trips does not change. */
  lemma SchluesselBleiben(t: Fahrten, v: Vergleich)
    requires Gueltig(t)
    ensures Aktive(t, v) != {} <==> Aktive(Bereinigt(t), v) != {}
  {
    GruppenNachher(t, v);
  }

  /** A second run cancels nothing and so touches no vehicle. */
  lemma ZweiterLaufLeer(t: Fahrten, i: nat)
    requires Gueltig(t)
    ensures !SpaetereVonZweien(Bereinigt(t), i)
    ensures Bereinigt(Bereinigt(t)) == Bereinigt(t)
  {
    forall k
      ensures !SpaetereVonZweien(Bereinigt(t), k)
    {
      if k in t { GruppenNachher(t, VergleichVon(Bereinigt(t)[k])); }
    }
  }

  // ---------------------------------------------------------------- all passes over the trips

  /** The trips after correction, normalisation and cancellation. */
  ghost function NachAllen(reg: Register, t: Fahrten): Fahrten {
    Bereinigt(NachBeiden(reg, t))
  }

  /** Cancelling a trip changes none of its roles. */
  lemma RollenBleiben(t: Fahrten)
    ensures Bereinigt(t).Keys == t.Keys
    ensures forall i :: i in t ==> Bereinigt(t)[i] == t[i].(status := Bereinigt(t)[i].status)
  {
  }

  lemma PaesseLesenKeinenStatus(reg: Register, f: Fahrt, status: Status)
    ensures reg.Normalisiert(reg.Korrigiert(f.(status := status))) ==
      reg.Normalisiert(reg.Korrigiert(f)).(status := status)
  {
  }

  /** Running the three passes again changes no trip and cancels none. */
  lemma NochmalAllePaesse(reg: Register, t: Fahrten)
    requires Gueltig(t)
    ensures NachAllen(reg, NachAllen(reg, t)) == NachAllen(reg, t)
    ensures AlleHeissenWieIhrMitglied(reg, NachAllen(reg, t))
    ensures forall i :: !SpaetereVonZweien(NachBeiden(reg, NachAllen(reg, t)), i)
  {
    var u := NachBeiden(reg, t);
    var v := Bereinigt(u);
    RollenBleiben(u);
    assert Gueltig(u);
    forall i | i in v
      ensures reg.Normalisiert(reg.Korrigiert(v[i])) == v[i]
    {
      PaesseLesenKeinenStatus(reg, u[i], v[i].status);
      FahrtNamen.ZweiterLaufLeer(reg, t[i]);
    }
    hide SpaetereVonZweien, Bereinigt, Register.Normalisiert, Register.Korrigiert;
    assert NachBeiden(reg, v) == v;
    forall i
      ensures !SpaetereVonZweien(v, i)
    {
      ZweiterLaufLeer(u, i);
    }
    ZweiterLaufLeer(u, 0);
    BeidePaesse(reg, t);
    assert forall i, j :: i in v && 0 <= j < |v[i].rollen| ==> v[i].rollen[j] == u[i].rollen[j];
  }

  // ---------------------------------------------------------------- vehicle counters

  datatype Zaehler = Km | Betriebsstunden | Seilwinde

  function Wert(m: Messwerte, z: Zaehler): Option<real> {
    match z
    case Km => m.kmStand
    case Betriebsstunden => m.betriebsstunden
    case Seilwinde => m.seilwindeBh
  }

  predicate Zaehlt(f: Fahrt, fahrzeug: nat, z: Zaehler) {
    f.fahrzeugId == Some(fahrzeug) && f.status.Aktiv? && Wert(f.messwerte, z).Some?
  }

  /** `MAX(...)` over the active trips of a vehicle; NULL readings are ignored. */
  ghost predicate IstMaximum(t: Fahrten, fahrzeug: nat, z: Zaehler, m: Option<real>) {
    if m.None? then forall i :: i in t ==> !Zaehlt(t[i], fahrzeug, z)
    else
      && (exists i :: i in t && Zaehlt(t[i], fahrzeug, z) && Wert(t[i].messwerte, z) == m)
      && (forall i :: i in t && Zaehlt(t[i], fahrzeug, z) ==> Wert(t[i].messwerte, z).value <= m.value)
  }

  /** Every reading of an active trip is still there on an active trip of the same vehicle. */
  lemma MesswertBleibt(t: Fahrten, i: nat) returns (j: nat)
    requires Gueltig(t) && i in t && t[i].status.Aktiv?
    ensures j in t && Bereinigt(t)[j].status.Aktiv?
    ensures Bereinigt(t)[j].fahrzeugId == t[i].fahrzeugId && Bereinigt(t)[j].messwerte == t[i].messwerte
  {
    var v := VergleichVon(t[i]);
    assert i in Aktive(t, v);
    SchluesselBleiben(t, v);
    j :| j in Aktive(Bereinigt(t), v);
    assert VergleichVon(Bereinigt(t)[j]) == v;
  }

  /** The per-vehicle maxima do not change, whichever vehicle and counter. */
  lemma MaximaBleiben(t: Fahrten, fahrzeug: nat, z: Zaehler, m: Option<real>)
    requires Gueltig(t)
    ensures IstMaximum(t, fahrzeug, z, m) <==> IstMaximum(Bereinigt(t), fahrzeug, z, m)
  {
    var u := Bereinigt(t);
    forall i | i in t && Zaehlt(t[i], fahrzeug, z)
      ensures HatWert(u, fahrzeug, z, Wert(t[i].messwerte, z))
    {
      var j := MesswertBleibt(t, i);
      assert Zaehlt(u[j], fahrzeug, z);
    }
    forall j | j in u && Zaehlt(u[j], fahrzeug, z)
      ensures HatWert(t, fahrzeug, z, Wert(u[j].messwerte, z))
    {
      assert Zaehlt(t[j], fahrzeug, z);
    }
    hide Bereinigt, HatWert, IstMaximum, Gueltig;
    MaximumUebertragen(t, u, fahrzeug, z, m);
    MaximumUebertragen(u, t, fahrzeug, z, m);
  }

  ghost predicate HatWert(t: Fahrten, fahrzeug: nat, z: Zaehler, w: Option<real>) {
    exists i :: i in t && Zaehlt(t[i], fahrzeug, z) && Wert(t[i].messwerte, z) == w
  }

  lemma MaximumUebertragen(t: Fahrten, u: Fahrten, fahrzeug: nat, z: Zaehler, m: Option<real>)
    requires forall i :: i in t && Zaehlt(t[i], fahrzeug, z) ==> HatWert(u, fahrzeug, z, Wert(t[i].messwerte, z))
    requires forall j :: j in u && Zaehlt(u[j], fahrzeug, z) ==> HatWert(t, fahrzeug, z, Wert(u[j].messwerte, z))
    ensures IstMaximum(t, fahrzeug, z, m) ==> IstMaximum(u, fahrzeug, z, m)
  {
  }

  // ---------------------------------------------------------------- the specification in terms of the columns

  lemma VergleichGenauDann(f: Fahrt, g: Fahrt)
    ensures VergleichVon(f) == VergleichVon(g) <==> GleicheFahrt(f, g)
    ensures Frueher(f, g) <==> FrueherAngelegt(f, g)
  {
    if f.rollen != [] && g.rollen != [] {
      assert [f.rollen[0]] == [g.rollen[0]] <==> f.rollen[0] == g.rollen[0];
    }
  }

  lemma SpaetereGenauDann(t: Fahrten, i: nat)
    requires Gueltig(t)
    ensures SpaetereVonZweien(t, i) <==> WirdStorniert(t, i)
  {
    forall j, k | j in t && k in t
      ensures VergleichVon(t[j]) == VergleichVon(t[k]) <==> GleicheFahrt(t[j], t[k])
      ensures Frueher(t[j], t[k]) <==> FrueherAngelegt(t[j], t[k])
    {
      VergleichGenauDann(t[j], t[k]);
    }
    hide VergleichVon, GleicheFahrt, Frueher, FrueherAngelegt;
    if i in t && t[i].status.Aktiv? {
      var a := Aktive(t, VergleichVon(t[i]));
      forall k
        ensures k in a <==> k in t && t[k].status.Aktiv? && GleicheFahrt(t[i], t[k])
      {
      }
      ZweiGenauDann(t, i, a);
    }
  }

  lemma ZweiGenauDann(t: Fahrten, i: nat, a: set<nat>)
    requires i in t && t[i].status.Aktiv? && i in a
    requires forall k :: k in a <==> k in t && t[k].status.Aktiv? && GleicheFahrt(t[i], t[k])
    ensures forall j :: j != i ==> (|a| == 2 && j in a <==> SindDoppelt(t, i, j))
    ensures !FrueherAngelegt(t[i], t[i])
  {
    forall j | j != i
      ensures |a| == 2 && j in a <==> SindDoppelt(t, i, j)
    {
      if |a| == 2 && j in a { var k := PaarZerlegen(a, i); }
      if SindDoppelt(t, i, j) { assert a == {i, j}; }
    }
  }

  lemma StornierungGenau(t: Fahrten)
    requires Gueltig(t)
    ensures NurDoppelteStorniert(t, Bereinigt(t))
  {
    forall i | i in t
      ensures SpaetereVonZweien(t, i) <==> WirdStorniert(t, i)
    {
      SpaetereGenauDann(t, i);
    }
    hide SpaetereVonZweien, WirdStorniert, Gueltig;
  }

  lemma StandGenau(t: Fahrten, fahrzeug: nat, alt: Messwerte, neu: Messwerte)
    requires Gueltig(t) && StandNachgefuehrt(t, fahrzeug, alt, neu)
    ensures StandRichtig(Bereinigt(t), fahrzeug, (m: Messwerte) => m.kmStand, alt.kmStand, neu.kmStand)
    ensures StandRichtig(Bereinigt(t), fahrzeug, (m: Messwerte) => m.betriebsstunden, alt.betriebsstunden,
                         neu.betriebsstunden)
    ensures StandRichtig(Bereinigt(t), fahrzeug, (m: Messwerte) => m.seilwindeBh, alt.seilwindeBh, neu.seilwindeBh)
  {
    EinStandGenau(t, fahrzeug, Km, (m: Messwerte) => m.kmStand, alt, neu);
    EinStandGenau(t, fahrzeug, Betriebsstunden, (m: Messwerte) => m.betriebsstunden, alt, neu);
    EinStandGenau(t, fahrzeug, Seilwinde, (m: Messwerte) => m.seilwindeBh, alt, neu);
  }

  lemma EinStandGenau(t: Fahrten, fahrzeug: nat, z: Zaehler, wert: Messwerte -> Option<real>, alt: Messwerte,
                      neu: Messwerte)
    requires Gueltig(t) && StandNachgefuehrt(t, fahrzeug, alt, neu) && forall m :: wert(m) == Wert(m, z)
    ensures StandRichtig(Bereinigt(t), fahrzeug, wert, wert(alt), wert(neu))
  {
    assert Nachgefuehrt(t, fahrzeug, z, Wert(alt, z), Wert(neu, z));
    var m :| IstMaximum(t, fahrzeug, z, m) && Wert(neu, z) == if m.Some? then m else Wert(alt, z);
    MaximaBleiben(t, fahrzeug, z, m);
    var u := Bereinigt(t);
    forall i
      ensures HatStand(u, fahrzeug, wert, i) <==> i in u && Zaehlt(u[i], fahrzeug, z)
    {
    }
    hide Bereinigt, HatStand, Zaehlt, Wert, StandNachgefuehrt, Nachgefuehrt;
  }

  lemma FahrzeugeGenau(t: Fahrten, alt: map<nat, Messwerte>, neu: map<nat, Messwerte>)
    requires Gueltig(t) && neu.Keys == alt.Keys
    requires forall v :: v in neu ==>
      if Beruehrt(t, v) then StandNachgefuehrt(t, v, alt[v], neu[v]) else neu[v] == alt[v]
    ensures FahrzeugeNachgefuehrt(t, Bereinigt(t), alt, neu)
  {
    forall i
      ensures SpaetereVonZweien(t, i) <==> WirdStorniert(t, i)
    {
      SpaetereGenauDann(t, i);
    }
    hide SpaetereVonZweien, WirdStorniert, Gueltig, StandNachgefuehrt, StandRichtig, Bereinigt;
    forall v {:trigger neu[v]} | v in alt && Beruehrt(t, v)
      ensures StandRichtig(Bereinigt(t), v, (m: Messwerte) => m.kmStand, alt[v].kmStand, neu[v].kmStand)
      ensures StandRichtig(Bereinigt(t), v, (m: Messwerte) => m.betriebsstunden, alt[v].betriebsstunden,
                           neu[v].betriebsstunden)
      ensures StandRichtig(Bereinigt(t), v, (m: Messwerte) => m.seilwindeBh, alt[v].seilwindeBh, neu[v].seilwindeBh)
    {
      StandGenau(t, v, alt[v], neu[v]);
    }
  }

  // ---------------------------------------------------------------- the pass over the tables

  /** A vehicle is recomputed when one of its trips was cancelled. */
  ghost predicate Beruehrt(t: Fahrten, fahrzeug: nat) {
    exists i :: SpaetereVonZweien(t, i) && t[i].fahrzeugId == Some(fahrzeug)
  }

  /** The counter takes the maximum, or keeps its value when no active trip has a reading. */
  ghost predicate Nachgefuehrt(t: Fahrten, fahrzeug: nat, z: Zaehler, alt: Option<real>, neu: Option<real>) {
    exists m :: IstMaximum(t, fahrzeug, z, m) && neu == if m.Some? then m else alt
  }

  ghost predicate StandNachgefuehrt(t: Fahrten, fahrzeug: nat, alt: Messwerte, neu: Messwerte) {
    forall z: Zaehler {:trigger Wert(neu, z)} :: Nachgefuehrt(t, fahrzeug, z, Wert(alt, z), Wert(neu, z))
  }

  /** The table after the groups of the keys in `erledigt`. */
  ghost predicate BereinigtBis(t: Fahrten, u: Fahrten, erledigt: set<Vergleich>) {
    && u.Keys == t.Keys
    && forall i :: i in t ==>
      u[i] == if SpaetereVonZweien(t, i) && VergleichVon(t[i]) in erledigt then t[i].(status := Storniert(GRUND))
              else t[i]
  }

  /** The vehicles of the trips cancelled so far; a trip without a vehicle touches none. */
  ghost predicate BeruehrtBis(t: Fahrten, fahrzeuge: set<nat>, erledigt: set<Vergleich>) {
    forall v :: v in fahrzeuge <==>
      exists i :: SpaetereVonZweien(t, i) && VergleichVon(t[i]) in erledigt && t[i].fahrzeugId == Some(v)
  }

  /** `gruppe` lists the active trips with key `v`. */
  ghost predicate IstGruppe(t: Fahrten, gruppe: seq<Fahrt>, v: Vergleich) {
    forall f {:trigger f in gruppe} :: f in gruppe <==> f.id in Aktive(t, v) && t[f.id] == f
  }

  lemma GruppeZaehlt(t: Fahrten, gruppe: seq<Fahrt>, v: Vergleich, menge: set<Fahrt>)
    requires Gueltig(t) && IstGruppe(t, gruppe, v) && menge == set f | f in gruppe
    ensures |menge| == |Aktive(t, v)| && forall f :: f in menge ==> f.id in Aktive(t, v) && t[f.id] == f
  {
    var a := Aktive(t, v);
    forall i | i in a
      ensures t[i] in gruppe
    {
    }
    assert menge == set i | i in a :: t[i];
    GleichVieleZeilen(a, t);
  }

  /** The later of a group of exactly two, if it is one. */
  method Spaetere(ghost t: Fahrten, gruppe: seq<Fahrt>, ghost v: Vergleich) returns (s: Option<Fahrt>)
    requires Gueltig(t) && IstGruppe(t, gruppe, v)
    ensures IstSpaetere(t, v, s)
  {
    var menge := set f | f in gruppe;
    ghost var a := Aktive(t, v);
    GruppeZaehlt(t, gruppe, v, menge);
    hide IstGruppe;
    if |menge| != 2 { return None; }
    var f :| f in menge;
    var g :| g in menge - {f} by {
      assert |menge - {f}| == 1;
    }
    ghost var j := PaarZerlegen(a, f.id);
    assert g.id in a && g.id == j;
    s := Some(if Frueher(f, g) then g else f);
  }

  class Fahrzeugpark {
    var fahrten: Fahrten
    var fahrzeuge: map<nat, Messwerte>

    /** `_storniere_doppelfahrten` */
    method StorniereDoppelfahrten()
      requires Gueltig(fahrten)
      modifies this
      ensures fahrten == Bereinigt(old(fahrten))
      ensures fahrzeuge.Keys == old(fahrzeuge).Keys
      ensures forall v :: v in fahrzeuge ==>
        if Beruehrt(old(fahrten), v) then StandNachgefuehrt(old(fahrten), v, old(fahrzeuge)[v], fahrzeuge[v])
        else fahrzeuge[v] == old(fahrzeuge)[v]
      ensures NurDoppelteStorniert(old(fahrten), fahrten)
      ensures FahrzeugeNachgefuehrt(old(fahrten), fahrten, old(fahrzeuge), fahrzeuge)
    {
      ghost var t := fahrten;
      var fahrzeugIds := Storniere();
      FuehreNach(fahrzeugIds);
      forall v | v in fahrzeuge && Beruehrt(t, v)
        ensures StandNachgefuehrt(t, v, old(fahrzeuge)[v], fahrzeuge[v])
      {
        MaximumWarDasselbe(t, v, old(fahrzeuge)[v], fahrzeuge[v]);
      }
      FahrzeugeGenau(t, old(fahrzeuge), fahrzeuge);
    }

    /** The passes of `upgrade` over the trips, in order. */
    method BereinigeFahrten(reg: Register)
      requires Gueltig(fahrten) && forall i :: i in reg.members ==> reg.members[i].id == i
      modifies this
      ensures fahrten == NachAllen(reg, old(fahrten)) && AlleHeissenWieIhrMitglied(reg, fahrten)
      ensures fahrzeuge.Keys == old(fahrzeuge).Keys
      ensures forall v :: v in fahrzeuge ==>
        if Beruehrt(NachBeiden(reg, old(fahrten)), v)
        then StandNachgefuehrt(NachBeiden(reg, old(fahrten)), v, old(fahrzeuge)[v], fahrzeuge[v])
        else fahrzeuge[v] == old(fahrzeuge)[v]
      ensures NurDoppelteStorniert(NachBeiden(reg, old(fahrten)), fahrten)
      ensures FahrzeugeNachgefuehrt(NachBeiden(reg, old(fahrten)), fahrten, old(fahrzeuge), fahrzeuge)
    {
      NochmalAllePaesse(reg, fahrten);
      var buch := new Fahrtenbuch(fahrten);
      buch.BereinigeNamen(reg);
      fahrten := buch.fahrten;
      StorniereDoppelfahrten();
    }

    /** The loop over the groups; returns `fahrzeug_ids`. */
    method Storniere() returns (fahrzeugIds: set<nat>)
      requires Gueltig(fahrten)
      modifies this`fahrten
      ensures fahrten == Bereinigt(old(fahrten)) && NurDoppelteStorniert(old(fahrten), fahrten)
      ensures forall v :: v in fahrzeugIds <==> Beruehrt(old(fahrten), v)
    {
      StornierungGenau(fahrten);
      ghost var t := fahrten;
      var gruppen := GruppiereAktive(fahrten);
      var rest := gruppen.Keys;
      ghost var erledigt: set<Vergleich> := {};
      fahrzeugIds := {};
      while rest != {}
        invariant erledigt + rest == gruppen.Keys && erledigt !! rest
        invariant BereinigtBis(t, fahrten, erledigt) && BeruehrtBis(t, fahrzeugIds, erledigt)
        decreases rest
      {
        var v :| v in rest;
        var s := Spaetere(t, gruppen[v], v);
        EineGruppeMehr(t, fahrten, erledigt, v, s);
        FahrzeugDazu(t, fahrzeugIds, erledigt, v, s);
        if s.Some? {
          fahrten := fahrten[s.value.id := fahrten[s.value.id].(status := Storniert(GRUND))];
          if s.value.fahrzeugId.Some? { fahrzeugIds := fahrzeugIds + {s.value.fahrzeugId.value}; }
        }
        rest, erledigt := rest - {v}, erledigt + {v};
      }
      AlleGruppen(t, fahrten, fahrzeugIds, gruppen, erledigt);
    }

    /** The recomputation of the touched vehicles. */
    method FuehreNach(fahrzeugIds: set<nat>)
      modifies this`fahrzeuge
      ensures fahrzeuge.Keys == old(fahrzeuge).Keys
      ensures forall v :: v in fahrzeuge ==>
        if v in fahrzeugIds then StandNachgefuehrt(fahrten, v, old(fahrzeuge)[v], fahrzeuge[v])
        else fahrzeuge[v] == old(fahrzeuge)[v]
    {
      var rest := fahrzeugIds;
      while rest != {}
        invariant rest <= fahrzeugIds && fahrzeuge.Keys == old(fahrzeuge).Keys
        invariant forall v :: v in fahrzeuge ==>
          if v in fahrzeugIds - rest then StandNachgefuehrt(fahrten, v, old(fahrzeuge)[v], fahrzeuge[v])
          else fahrzeuge[v] == old(fahrzeuge)[v]
        decreases rest
      {
        var v :| v in rest;
        if v in fahrzeuge {
          var km := Maximum(fahrten, v, Km);
          var bh := Maximum(fahrten, v, Betriebsstunden);
          var sw := Maximum(fahrten, v, Seilwinde);
          var alt := fahrzeuge[v];
          var neu := Messwerte(if km.Some? then km else alt.kmStand, if bh.Some? then bh else alt.betriebsstunden,
                               if sw.Some? then sw else alt.seilwindeBh);
          forall z: Zaehler
            ensures Nachgefuehrt(fahrten, v, z, Wert(alt, z), Wert(neu, z))
          {
            assert IstMaximum(fahrten, v, z, match z case Km => km case Betriebsstunden => bh case Seilwinde => sw);
          }
          fahrzeuge := fahrzeuge[v := neu];
        }
        rest := rest - {v};
      }
    }
  }

  /** `SELECT MAX(...) FROM fahrt WHERE fahrzeug_id = ... AND status = 'aktiv'` */
  method Maximum(t: Fahrten, fahrzeug: nat, z: Zaehler) returns (m: Option<real>)
    ensures IstMaximum(t, fahrzeug, z, m)
  {
    m := None;
    var rest := t.Keys;
    ghost var gesehen: Fahrten := map[];
    while rest != {}
      invariant rest <= t.Keys && gesehen == t - rest
      invariant IstMaximum(gesehen, fahrzeug, z, m)
      decreases rest
    {
      var i :| i in rest;
      ghost var vorher := gesehen;
      gesehen := t - (rest - {i});
      assert gesehen == vorher[i := t[i]];
      if Zaehlt(t[i], fahrzeug, z) && (m.None? || m.value < Wert(t[i].messwerte, z).value) {
        m := Wert(t[i].messwerte, z);
        assert i in gesehen && gesehen[i] == t[i];
      } else if m.Some? {
        ghost var k :| k in vorher && Zaehlt(vorher[k], fahrzeug, z) && Wert(vorher[k].messwerte, z) == m;
        assert k in gesehen && gesehen[k] == vorher[k];
      }
      rest := rest - {i};
    }
    assert gesehen == t;
  }

  /** `SELECT ... WHERE status = 'aktiv'`, grouped by the compared columns. */
  method GruppiereAktive(t: Fahrten) returns (gruppen: map<Vergleich, seq<Fahrt>>)
    requires Gueltig(t)
    ensures forall v :: v in gruppen ==> IstGruppe(t, gruppen[v], v)
    ensures forall i :: i in t && t[i].status.Aktiv? ==> VergleichVon(t[i]) in gruppen
  {
    var rows: seq<Fahrt> := [];
    var rest := t.Keys;
    while rest != {}
      invariant rest <= t.Keys
      invariant forall f {:trigger f in rows} :: f in rows <==>
        f.id in t && f.id !in rest && t[f.id] == f && f.status.Aktiv?
      decreases rest
    {
      var i :| i in rest;
      if t[i].status.Aktiv? { rows := rows + [t[i]]; }
      rest := rest - {i};
    }
    gruppen := Gruppiere(rows, VergleichSchluessel());
    forall i | i in t && t[i].status.Aktiv?
      ensures VergleichVon(t[i]) in gruppen
    {
      assert t[i] in rows && VergleichSchluessel()(t[i]) == Some(VergleichVon(t[i]));
    }
  }

  function VergleichSchluessel(): Fahrt -> Option<Vergleich> {
    (f: Fahrt) => Some(VergleichVon(f))
  }

  /** Within the group of `v` exactly the row `s`, if any, is the later of two. */
  ghost predicate IstSpaetere(t: Fahrten, v: Vergleich, s: Option<Fahrt>) {
    && (forall i :: i in t && VergleichVon(t[i]) == v ==> (SpaetereVonZweien(t, i) <==> s == Some(t[i])))
    && (s.Some? ==> s.value.id in t && t[s.value.id] == s.value && VergleichVon(s.value) == v)
  }

  lemma EineGruppeMehr(t: Fahrten, u: Fahrten, erledigt: set<Vergleich>, v: Vergleich, s: Option<Fahrt>)
    requires Gueltig(t) && BereinigtBis(t, u, erledigt) && v !in erledigt && IstSpaetere(t, v, s)
    ensures s.None? ==> BereinigtBis(t, u, erledigt + {v})
    ensures s.Some? ==> BereinigtBis(t, u[s.value.id := u[s.value.id].(status := Storniert(GRUND))], erledigt + {v})
  {
    hide SpaetereVonZweien, VergleichVon;
  }

  lemma FahrzeugDazu(t: Fahrten, fahrzeuge: set<nat>, erledigt: set<Vergleich>, v: Vergleich, s: Option<Fahrt>)
    requires Gueltig(t) && BeruehrtBis(t, fahrzeuge, erledigt) && IstSpaetere(t, v, s)
    ensures var dazu := if s.Some? && s.value.fahrzeugId.Some? then {s.value.fahrzeugId.value} else {};
            BeruehrtBis(t, fahrzeuge + dazu, erledigt + {v})
  {
    assert forall i :: SpaetereVonZweien(t, i) ==> i in t;
    hide SpaetereVonZweien, VergleichVon;
    var neu := if s.Some? && s.value.fahrzeugId.Some? then fahrzeuge + {s.value.fahrzeugId.value} else fahrzeuge;
    forall w | w in neu
      ensures exists i :: SpaetereVonZweien(t, i) && VergleichVon(t[i]) in erledigt + {v} && t[i].fahrzeugId == Some(w)
    {
      if w in fahrzeuge {
        var i :| SpaetereVonZweien(t, i) && VergleichVon(t[i]) in erledigt && t[i].fahrzeugId == Some(w);
      } else {
        assert SpaetereVonZweien(t, s.value.id);
      }
    }
  }

  lemma AlleGruppen(t: Fahrten, u: Fahrten, fahrzeuge: set<nat>, gruppen: map<Vergleich, seq<Fahrt>>,
                    erledigt: set<Vergleich>)
    requires BereinigtBis(t, u, erledigt) && BeruehrtBis(t, fahrzeuge, erledigt) && erledigt == gruppen.Keys
    requires forall i :: i in t && t[i].status.Aktiv? ==> VergleichVon(t[i]) in gruppen
    ensures u == Bereinigt(t) && forall v :: v in fahrzeuge <==> Beruehrt(t, v)
  {
  }

  lemma MaximumWarDasselbe(t: Fahrten, v: nat, alt: Messwerte, neu: Messwerte)
    requires Gueltig(t) && StandNachgefuehrt(Bereinigt(t), v, alt, neu)
    ensures StandNachgefuehrt(t, v, alt, neu)
  {
    hide Bereinigt, IstMaximum;
    forall z: Zaehler {:trigger Wert(neu, z)}
      ensures Nachgefuehrt(t, v, z, Wert(alt, z), Wert(neu, z))
    {
      assert Nachgefuehrt(Bereinigt(t), v, z, Wert(alt, z), Wert(neu, z));
      var m :| IstMaximum(Bereinigt(t), v, z, m) && Wert(neu, z) == if m.Some? then m else Wert(alt, z);
      MaximaBleiben(t, v, z, m);
    }
  }
}
