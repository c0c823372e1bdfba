/** Trips, and what the passes of 0231 promise of them, said on their columns alone. */
module Fahrtdaten {
  import opened Grundlagen
  import opened Mitgliedsdaten

  /** One `(id_col, name_col)` pair of ROLLEN that the table has. */
  datatype Rolle = Rolle(mitglied: Option<nat>, name: Option<string>)

  /** The readings a trip leaves on its vehicle. */
  datatype Messwerte = Messwerte(kmStand: Option<real>, betriebsstunden: Option<real>, seilwindeBh: Option<real>)

  datatype Umstaende = Umstaende(zeitpunkt: nat, zweckId: Option<nat>, fahrttyp: Option<string>,
                                 incidentId: Option<nat>,
                                 erfasstVia: Option<string>, tokenLabel: Option<string>)

  datatype Status = Aktiv | Storniert(grund: string)

  /** A row of `fahrt`; `rollen` starts with the machinist. */
  datatype Fahrt = Fahrt(id: nat, orgId: Option<nat>, rollen: seq<Rolle>, fahrzeugId: Option<nat>, messwerte: Messwerte,
                         umstaende: Umstaende, status: Status, createdAt: Option<nat>)

  // ---------------------------------------------------------------- names

  type Mitgliederliste = map<nat, Member>

  function Name(m: Member): string {
    (if m.lastname.Some? then m.lastname.value else "None") + " " +
    (if m.firstname.Some? then m.firstname.value else "None")
  }

  /** Member `i` is active in organisation `org`, and its name normalises to `schluessel`. */
  predicate Trifft(ms: Mitgliederliste, norm: string -> string, org: Option<nat>, schluessel: string, i: nat) {
    i in ms && ms[i].active && org.Some? && ms[i].orgId == org && norm(Name(ms[i])) == schluessel
  }

  ghost predicate IstEinziger(ms: Mitgliederliste, norm: string -> string, org: Option<nat>, schluessel: string,
                              i: nat) {
    Trifft(ms, norm, org, schluessel, i) && forall j :: Trifft(ms, norm, org, schluessel, j) ==> j == i
  }

  /** Four spellings stand for a member by hand. */
  function Gemeint(norm: string -> string, schluessel: string): string {
    if schluessel == norm("Hanspeter Abler") then norm("Abler Hans-Peter")
    else if schluessel == norm("Christian schertler") then norm("Schertler Christian")
    else if schluessel == norm("Berger oli") then norm("Berger Oliver")
    else if schluessel == norm("horwart Thomas") then norm("Horwath Thomas")
    else schluessel
  }

  predicate IstVerknuepft(ms: Mitgliederliste, r: Rolle) {
    r.mitglied.Some? && r.mitglied.value in ms
  }

  predicate HatText(r: Rolle) {
    r.name.Some? && r.name.value != ""
  }

  /** The captured name does not fit the member and means exactly one other. */
  ghost predicate FalschVerknuepft(ms: Mitgliederliste, norm: string -> string, org: Option<nat>, r: Rolle) {
    && IstVerknuepft(ms, r) && HatText(r) && norm(r.name.value) != norm(Name(ms[r.mitglied.value]))
    && exists i :: IstEinziger(ms, norm, org, norm(r.name.value), i)
  }

  /** A text without a member means exactly one. */
  ghost predicate Verknuepfbar(ms: Mitgliederliste, norm: string -> string, org: Option<nat>, r: Rolle) {
    r.mitglied.None? && HatText(r) && exists i :: IstEinziger(ms, norm, org, Gemeint(norm, norm(r.name.value)), i)
  }

  /** The correction: a wrong link goes to the one meant, nothing else changes. */
  ghost predicate RolleKorrigiert(ms: Mitgliederliste, norm: string -> string, org: Option<nat>, r: Rolle, n: Rolle) {
    && n.name == r.name
    && if FalschVerknuepft(ms, norm, org, r)
       then n.mitglied.Some? && IstEinziger(ms, norm, org, norm(r.name.value), n.mitglied.value)
       else n.mitglied == r.mitglied
  }

  /** The normalisation: linked roles get their member's name, texts that mean one member its id and name. */
  ghost predicate RolleNormalisiert(ms: Mitgliederliste, norm: string -> string, org: Option<nat>, r: Rolle, n: Rolle) {
    if IstVerknuepft(ms, r) then n == Rolle(r.mitglied, Some(Name(ms[r.mitglied.value])))
    else if Verknuepfbar(ms, norm, org, r) then
      && n.mitglied.Some? && IstEinziger(ms, norm, org, Gemeint(norm, norm(r.name.value)), n.mitglied.value)
      && n.name == Some(Name(ms[n.mitglied.value]))
    else n == r
  }

  /** Both in a row. */
  ghost predicate RolleBereinigt(ms: Mitgliederliste, norm: string -> string, org: Option<nat>, r: Rolle, n: Rolle) {
    if IstVerknuepft(ms, r) then
      && IstVerknuepft(ms, n) && n.name == Some(Name(ms[n.mitglied.value]))
      && (if FalschVerknuepft(ms, norm, org, r) then IstEinziger(ms, norm, org, norm(r.name.value), n.mitglied.value)
          else n.mitglied == r.mitglied)
    else if Verknuepfbar(ms, norm, org, r) then
      && n.mitglied.Some? && IstEinziger(ms, norm, org, Gemeint(norm, norm(r.name.value)), n.mitglied.value)
      && n.name == Some(Name(ms[n.mitglied.value]))
    else n == r
  }

  /** Trips keep everything but their roles, and every role keeps `p`. */
  ghost predicate AlleRollen(t: map<nat, Fahrt>, u: map<nat, Fahrt>, p: (Option<nat>, Rolle, Rolle) -> bool)
  {
    && u.Keys == t.Keys
    && forall i {:trigger u[i]} :: i in t ==>
         && u[i] == t[i].(rollen := u[i].rollen) && |u[i].rollen| == |t[i].rollen|
         && forall j :: 0 <= j < |t[i].rollen| ==> p(t[i].orgId, t[i].rollen[j], u[i].rollen[j])
  }

  // ---------------------------------------------------------------- duplicates

  type Fahrten = map<nat, Fahrt>

  /** The two trips agree on all thirteen compared columns. */
  predicate GleicheFahrt(f: Fahrt, g: Fahrt) {
    && f.orgId == g.orgId && f.umstaende.zeitpunkt == g.umstaende.zeitpunkt && f.fahrzeugId == g.fahrzeugId
    && (f.rollen == [] <==> g.rollen == [])
    && (f.rollen != [] && g.rollen != [] ==>
        f.rollen[0].mitglied == g.rollen[0].mitglied && f.rollen[0].name == g.rollen[0].name)
    && f.messwerte.kmStand == g.messwerte.kmStand && f.messwerte.betriebsstunden == g.messwerte.betriebsstunden
    && f.messwerte.seilwindeBh == g.messwerte.seilwindeBh && f.umstaende.zweckId == g.umstaende.zweckId
    && f.umstaende.fahrttyp == g.umstaende.fahrttyp && f.umstaende.incidentId == g.umstaende.incidentId
    && f.umstaende.erfasstVia == g.umstaende.erfasstVia && f.umstaende.tokenLabel == g.umstaende.tokenLabel
  }

  /** Created earlier; a missing time is the earliest, and equal times are ordered by id. */
  predicate FrueherAngelegt(f: Fahrt, g: Fahrt) {
    match (f.createdAt, g.createdAt)
    case (Some(a), Some(b)) => a < b || (a == b && f.id < g.id)
    case (None, Some(b)) => 0 < b || f.id < g.id
    case (Some(a), None) => a == 0 && f.id < g.id
    case (None, None) => f.id < g.id
  }

  /** `i` and `j` are active, agree on the compared columns, and are the only two that do. */
  ghost predicate SindDoppelt(t: Fahrten, i: nat, j: nat) {
    && i in t && j in t && i != j && t[i].status.Aktiv? && t[j].status.Aktiv? && GleicheFahrt(t[i], t[j])
    && forall k :: k in t && t[k].status.Aktiv? && GleicheFahrt(t[i], t[k]) ==> k == i || k == j
  }

  ghost predicate WirdStorniert(t: Fahrten, i: nat) {
    exists j :: SindDoppelt(t, i, j) && FrueherAngelegt(t[j], t[i])
  }

  /** Exactly the later trips of pairs are cancelled; nothing else changes. */
  ghost predicate NurDoppelteStorniert(t: Fahrten, u: Fahrten) {
    && u.Keys == t.Keys
    && forall i {:trigger u[i]} :: i in t ==>
         u[i] == if WirdStorniert(t, i) then t[i].(status := Storniert("Doppelerfassung (Datenbereinigung)")) else t[i]
  }

  // ---------------------------------------------------------------- vehicle counters

  predicate HatStand(u: Fahrten, fahrzeug: nat, wert: Messwerte -> Option<real>, i: nat) {
    i in u && u[i].status.Aktiv? && u[i].fahrzeugId == Some(fahrzeug) && wert(u[i].messwerte).Some?
  }

  /** A counter is the greatest reading of the active trips of its vehicle, or stays when there is none. */
  ghost predicate StandRichtig(u: Fahrten, fahrzeug: nat, wert: Messwerte -> Option<real>, alt: Option<real>,
                               neu: Option<real>) {
    && ((forall i :: !HatStand(u, fahrzeug, wert, i)) ==> neu == alt)
    && ((exists i :: HatStand(u, fahrzeug, wert, i)) ==>
          && (exists i :: HatStand(u, fahrzeug, wert, i) && wert(u[i].messwerte) == neu)
          && forall i :: HatStand(u, fahrzeug, wert, i) ==> neu.Some? && wert(u[i].messwerte).value <= neu.value)
  }

  /** `u` are the trips after the cancellation; only vehicles of cancelled trips are recomputed. */
  ghost predicate FahrzeugeNachgefuehrt(t: Fahrten, u: Fahrten, alt: map<nat, Messwerte>, neu: map<nat, Messwerte>) {
    && neu.Keys == alt.Keys
    && forall v {:trigger neu[v]} :: v in alt ==>
         if exists i :: WirdStorniert(t, i) && t[i].fahrzeugId == Some(v)
         then (&& StandRichtig(u, v, (m: Messwerte) => m.kmStand, alt[v].kmStand, neu[v].kmStand)
               && StandRichtig(u, v, (m: Messwerte) => m.betriebsstunden, alt[v].betriebsstunden,
                               neu[v].betriebsstunden)
               && StandRichtig(u, v, (m: Messwerte) => m.seilwindeBh, alt[v].seilwindeBh, neu[v].seilwindeBh))
         else neu[v] == alt[v]
  }
}
