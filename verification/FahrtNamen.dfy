/**
 * `_korrigiere_falsche_member_ids` and `_normalisiere_fahrten` of alembic/versions/0231_fahrtenbuch_member_dedup.py.
 */
module FahrtNamen {
  import opened Grundlagen
  import opened MemberMerge
  import opened Fahrtdaten
  import opened Mitgliedsdaten

  function VollerName(m: Member): (name: string)
    ensures name != ""
  {
    Anzeige(m.lastname) + " " + Anzeige(m.firstname)
  }

  /** The spellings that `_normalisiere_fahrten` maps to a member by hand. */
  function Explizit(norm: string -> string): map<string, string> {
    map[norm("horwart Thomas") := norm("Horwath Thomas"),
        norm("Berger oli") := norm("Berger Oliver"),
        norm("Christian schertler") := norm("Schertler Christian"),
        norm("Hanspeter Abler") := norm("Abler Hans-Peter")]
  }

  /** The member table and the name normaliser; nothing below depends on how names are normalised. */
  datatype Register = Register(members: map<nat, Member>, norm: string -> string) {

    /** The ids in `aktive_by_org[org].get(schluessel, [])`. */
    ghost function Kandidaten(org: Option<nat>, schluessel: string): set<nat> {
      set i | i in members && members[i].active && members[i].orgId.Some? && members[i].orgId == org
              && norm(VollerName(members[i])) == schluessel
    }

    ghost predicate Eindeutig(org: Option<nat>, schluessel: string) {
      |Kandidaten(org, schluessel)| == 1
    }

    ghost function Kandidat(org: Option<nat>, schluessel: string): (i: nat)
      requires Eindeutig(org, schluessel)
      ensures i in Kandidaten(org, schluessel)
    {
      var i :| i in Kandidaten(org, schluessel);
      i
    }

    predicate Verknuepft(r: Rolle) {
      r.mitglied.Some? && r.mitglied.value in members
    }

    ghost function KorrigierteRolle(org: Option<nat>, r: Rolle): Rolle {
      if !Verknuepft(r) || !Gefuellt(r.name) then r
      else if norm(r.name.value) == norm(VollerName(members[r.mitglied.value])) then r
      else if Eindeutig(org, norm(r.name.value)) then r.(mitglied := Some(Kandidat(org, norm(r.name.value))))
      else r
    }

    function Alias(schluessel: string): string {
      if schluessel in Explizit(norm) then Explizit(norm)[schluessel] else schluessel
    }

    ghost function NormalisierteRolle(org: Option<nat>, r: Rolle): Rolle {
      if Verknuepft(r) then r.(name := Some(VollerName(members[r.mitglied.value])))
      else if r.mitglied.None? && Gefuellt(r.name) && Eindeutig(org, Alias(norm(r.name.value))) then
        var k := Kandidat(org, Alias(norm(r.name.value)));
        Rolle(Some(k), Some(VollerName(members[k])))
      else r
    }

    ghost function Korrigiert(f: Fahrt): Fahrt {
      f.(rollen := seq(|f.rollen|, j requires 0 <= j < |f.rollen| => KorrigierteRolle(f.orgId, f.rollen[j])))
    }

    ghost function Normalisiert(f: Fahrt): Fahrt {
      f.(rollen := seq(|f.rollen|, j requires 0 <= j < |f.rollen| => NormalisierteRolle(f.orgId, f.rollen[j])))
    }
  }

  // ---------------------------------------------------------------- the promises of the two passes

  /** After both passes every role linked to an existing member carries exactly that member's name. */
  lemma VerknuepfteRollenHeissenWieIhrMitglied(reg: Register, f: Fahrt, j: nat)
    requires j < |f.rollen| && reg.Verknuepft(reg.Normalisiert(reg.Korrigiert(f)).rollen[j])
    ensures var r := reg.Normalisiert(reg.Korrigiert(f)).rollen[j];
            r.name == Some(VollerName(reg.members[r.mitglied.value]))
  {
    var k := reg.Korrigiert(f).rollen[j];
    assert reg.Normalisiert(reg.Korrigiert(f)).rollen[j] == reg.NormalisierteRolle(f.orgId, k);
  }

  /**
   * A captured name keeps its normalised form on a linked role exactly when it fits the member, or one active member
   * only.
   */
  lemma ErfassterNameBleibtGenauDann(reg: Register, org: Option<nat>, r: Rolle)
    requires reg.Verknuepft(r) && Gefuellt(r.name)
    ensures var nachher := reg.NormalisierteRolle(org, reg.KorrigierteRolle(org, r));
            var erfasst := reg.norm(r.name.value);
            reg.Verknuepft(nachher) && nachher.name.Some? &&
            (reg.norm(nachher.name.value) == erfasst <==>
              reg.norm(VollerName(reg.members[r.mitglied.value])) == erfasst ||
              exists i :: IstEinziger(reg.members, reg.norm, org, erfasst, i))
  {
    EindeutigGenauDann(reg, org, reg.norm(r.name.value));
    hide IstEinziger;
  }

  /**
   * A free-text name is linked exactly when its key, by hand or as it is, belongs to one active member of the
   * organisation.
   */
  lemma FreitextWirdVerknuepftGenauDann(reg: Register, org: Option<nat>, r: Rolle)
    requires r.mitglied.None? && Gefuellt(r.name)
    ensures var nachher := reg.NormalisierteRolle(org, reg.KorrigierteRolle(org, r));
            var schluessel := reg.Alias(reg.norm(r.name.value));
            (reg.Verknuepft(nachher) <==> exists i :: IstEinziger(reg.members, reg.norm, org, schluessel, i)) &&
            (if reg.Verknuepft(nachher)
             then (&& reg.norm(nachher.name.value) == schluessel
                   && IstEinziger(reg.members, reg.norm, org, schluessel, nachher.mitglied.value))
             else nachher == r)
  {
    EindeutigGenauDann(reg, org, reg.Alias(reg.norm(r.name.value)));
  }

  lemma NormalisierenIdempotent(reg: Register, f: Fahrt)
    ensures reg.Normalisiert(reg.Normalisiert(f)) == reg.Normalisiert(f)
  {
    var g := reg.Normalisiert(f);
    forall j | 0 <= j < |f.rollen|
      ensures reg.NormalisierteRolle(f.orgId, g.rollen[j]) == g.rollen[j]
    {
      assert g.rollen[j] == reg.NormalisierteRolle(f.orgId, f.rollen[j]);
    }
    assert reg.Normalisiert(g).rollen == g.rollen;
  }

  /** On normalised data the correction finds nothing to do. */
  lemma KorrekturAufNormalisiertemLeer(reg: Register, f: Fahrt)
    ensures reg.Korrigiert(reg.Normalisiert(f)) == reg.Normalisiert(f)
  {
    var g := reg.Normalisiert(f);
    forall j | 0 <= j < |f.rollen|
      ensures reg.KorrigierteRolle(f.orgId, g.rollen[j]) == g.rollen[j]
    {
      assert g.rollen[j] == reg.NormalisierteRolle(f.orgId, f.rollen[j]);
    }
    assert reg.Korrigiert(g).rollen == g.rollen;
  }

  /** Running both passes again changes nothing. */
  lemma ZweiterLaufLeer(reg: Register, f: Fahrt)
    ensures var g := reg.Normalisiert(reg.Korrigiert(f));
            reg.Normalisiert(reg.Korrigiert(g)) == g
  {
    KorrekturAufNormalisiertemLeer(reg, reg.Korrigiert(f));
    NormalisierenIdempotent(reg, reg.Korrigiert(f));
  }

  /** Why the correction must come first: in the other order a wrongly linked role keeps its wrong member for good. */
  lemma FalscheReihenfolgeVerliertDenNamen(reg: Register, org: Option<nat>, r: Rolle)
    requires reg.Verknuepft(r) && Gefuellt(r.name)
    requires reg.norm(r.name.value) != reg.norm(VollerName(reg.members[r.mitglied.value])) &&
             exists i :: IstEinziger(reg.members, reg.norm, org, reg.norm(r.name.value), i)
    ensures reg.KorrigierteRolle(org, reg.NormalisierteRolle(org, r)).mitglied == r.mitglied
    ensures reg.norm(reg.KorrigierteRolle(org, reg.NormalisierteRolle(org, r)).name.value) != reg.norm(r.name.value)
    ensures reg.NormalisierteRolle(org, reg.KorrigierteRolle(org, r)).mitglied != r.mitglied
  {
    EindeutigGenauDann(reg, org, reg.norm(r.name.value));
  }

  // ---------------------------------------------------------------- the specification in terms of the columns

  lemma EindeutigGenauDann(reg: Register, org: Option<nat>, schluessel: string)
    ensures reg.Eindeutig(org, schluessel) <==> exists i :: IstEinziger(reg.members, reg.norm, org, schluessel, i)
    ensures reg.Eindeutig(org, schluessel) ==>
      IstEinziger(reg.members, reg.norm, org, schluessel, reg.Kandidat(org, schluessel))
  {
    var k := reg.Kandidaten(org, schluessel);
    forall i
      ensures i in k <==> Trifft(reg.members, reg.norm, org, schluessel, i)
    {
    }
    hide Trifft, Register.Kandidaten;
    if |k| == 1 {
      var i := reg.Kandidat(org, schluessel);
      Einziges(k, i);
      assert IstEinziger(reg.members, reg.norm, org, schluessel, i);
    }
    if i: nat :| IstEinziger(reg.members, reg.norm, org, schluessel, i) {
      assert k == {i};
      assert |k| == 1;
    }
  }

  lemma AliasGenau(reg: Register, schluessel: string)
    ensures reg.Alias(schluessel) == Gemeint(reg.norm, schluessel)
  {
  }

  lemma KorrekturGenau(reg: Register, org: Option<nat>, r: Rolle)
    ensures RolleKorrigiert(reg.members, reg.norm, org, r, reg.KorrigierteRolle(org, r))
  {
    if Gefuellt(r.name) { EindeutigGenauDann(reg, org, reg.norm(r.name.value)); }
    hide IstEinziger, Register.Eindeutig;
  }

  lemma NormalisierungGenau(reg: Register, org: Option<nat>, r: Rolle)
    ensures RolleNormalisiert(reg.members, reg.norm, org, r, reg.NormalisierteRolle(org, r))
  {
    if Gefuellt(r.name) {
      EindeutigGenauDann(reg, org, reg.Alias(reg.norm(r.name.value)));
      AliasGenau(reg, reg.norm(r.name.value));
    }
    hide Register.Eindeutig, Register.Alias, Gemeint;
  }

  lemma BeidesGenau(reg: Register, org: Option<nat>, r: Rolle)
    ensures RolleBereinigt(reg.members, reg.norm, org, r, reg.NormalisierteRolle(org, reg.KorrigierteRolle(org, r)))
  {
    KorrekturGenau(reg, org, r);
    NormalisierungGenau(reg, org, reg.KorrigierteRolle(org, r));
    hide Gemeint, Register.KorrigierteRolle, Register.NormalisierteRolle;
  }

  /** The same over a whole table. */
  lemma TabellenGenau(reg: Register, t: map<nat, Fahrt>)
    ensures AlleRollen(t, NachKorrektur(reg, t), (org, r, n) => RolleKorrigiert(reg.members, reg.norm, org, r, n))
    ensures AlleRollen(t, NachNormalisierung(reg, t),
                       (org, r, n) => RolleNormalisiert(reg.members, reg.norm, org, r, n))
    ensures AlleRollen(t, NachBeiden(reg, t), (org, r, n) => RolleBereinigt(reg.members, reg.norm, org, r, n))
  {
    hide RolleKorrigiert, RolleNormalisiert, RolleBereinigt, Register.KorrigierteRolle, Register.NormalisierteRolle;
    forall i, j | i in t && 0 <= j < |t[i].rollen|
      ensures RolleKorrigiert(reg.members, reg.norm, t[i].orgId, t[i].rollen[j], reg.Korrigiert(t[i]).rollen[j])
    {
      KorrekturGenau(reg, t[i].orgId, t[i].rollen[j]);
    }
    forall i, j | i in t && 0 <= j < |t[i].rollen|
      ensures RolleNormalisiert(reg.members, reg.norm, t[i].orgId, t[i].rollen[j], reg.Normalisiert(t[i]).rollen[j])
    {
      NormalisierungGenau(reg, t[i].orgId, t[i].rollen[j]);
    }
    forall i, j | i in t && 0 <= j < |t[i].rollen|
      ensures RolleBereinigt(reg.members, reg.norm, t[i].orgId, t[i].rollen[j],
                             reg.Normalisiert(reg.Korrigiert(t[i])).rollen[j])
    {
      BeidesGenau(reg, t[i].orgId, t[i].rollen[j]);
    }
  }

  // ---------------------------------------------------------------- the passes over the table

  /** `aktive_by_org`: the active members of each organisation by normalised name. */
  method AktiveByOrg(reg: Register) returns (aktive: map<(nat, string), seq<Member>>)
    ensures IstIndex(reg, aktive)
  {
    var rows := AlleZeilen(reg.members.Values);
    aktive := Gruppiere(rows, IndexSchluessel(reg));
    IndexStimmt(reg, rows, aktive);
  }

  function IndexSchluessel(reg: Register): Member -> Option<(nat, string)> {
    (m: Member) => if m.active && m.orgId.Some? then Some((m.orgId.value, reg.norm(VollerName(m)))) else None
  }

  ghost predicate IstIndex(reg: Register, aktive: map<(nat, string), seq<Member>>) {
    forall org: nat, k: string, m: Member {:trigger m in Liste(aktive, Some(org), k)} ::
      m in Liste(aktive, Some(org), k) <==> m in reg.members.Values && IndexSchluessel(reg)(m) == Some((org, k))
  }

  function Liste(aktive: map<(nat, string), seq<Member>>, org: Option<nat>, schluessel: string): seq<Member> {
    if org.Some? && (org.value, schluessel) in aktive then aktive[(org.value, schluessel)] else []
  }

  lemma IndexStimmt(reg: Register, rows: seq<Member>, aktive: map<(nat, string), seq<Member>>)
    requires forall r :: r in rows <==> r in reg.members.Values
    requires forall k :: k in aktive <==> exists r :: r in rows && IndexSchluessel(reg)(r) == Some(k)
    requires forall k :: k in aktive ==> aktive[k] == Gruppe(rows, IndexSchluessel(reg), k)
    ensures IstIndex(reg, aktive)
  {
    forall org: nat, k: string, m: Member {:trigger m in Liste(aktive, Some(org), k)}
      ensures m in Liste(aktive, Some(org), k) <==> m in reg.members.Values && IndexSchluessel(reg)(m) == Some((org, k))
    {
      if m in rows && IndexSchluessel(reg)(m) == Some((org, k)) { assert (org, k) in aktive; }
    }
  }

  /** A row is listed exactly when its id is a candidate. */
  lemma ListeSindKandidaten(reg: Register, aktive: map<(nat, string), seq<Member>>, org: Option<nat>,
                            schluessel: string, m: Member)
    requires IstIndex(reg, aktive) && forall i :: i in reg.members ==> reg.members[i].id == i
    ensures m in Liste(aktive, org, schluessel) <==> m.id in reg.Kandidaten(org, schluessel) && reg.members[m.id] == m
  {
    if org.Some? {
      assert m in Liste(aktive, Some(org.value), schluessel) <==>
             m in reg.members.Values && IndexSchluessel(reg)(m) == Some((org.value, schluessel));
      if m in reg.members.Values { WertHatId(reg.members, m); }
    }
  }

  lemma WertHatId(t: map<nat, Member>, m: Member)
    requires m in t.Values && forall i :: i in t ==> t[i].id == i
    ensures m.id in t && t[m.id] == m
  {
    var i :| i in t && t[i] == m;
  }

  /** `len(kandidaten) == 1`, and then `kandidaten[0]`. */
  lemma EinKandidat(reg: Register, aktive: map<(nat, string), seq<Member>>, org: Option<nat>, schluessel: string)
    requires IstIndex(reg, aktive) && forall i :: i in reg.members ==> reg.members[i].id == i
    ensures |set m | m in Liste(aktive, org, schluessel)| == 1 <==> reg.Eindeutig(org, schluessel)
    ensures reg.Eindeutig(org, schluessel) ==>
      forall m :: m in Liste(aktive, org, schluessel) ==>
        m.id == reg.Kandidat(org, schluessel) && reg.members[m.id] == m
  {
    var k := reg.Kandidaten(org, schluessel);
    var l := set m | m in Liste(aktive, org, schluessel);
    forall m | m in l
      ensures m.id in k && reg.members[m.id] == m
    {
      ListeSindKandidaten(reg, aktive, org, schluessel, m);
    }
    forall i | i in k
      ensures reg.members[i] in l
    {
      ListeSindKandidaten(reg, aktive, org, schluessel, reg.members[i]);
    }
    GleichVieleZeilen(k, reg.members);
    assert l == set i | i in k :: reg.members[i];
    if |k| == 1 { Einziges(k, reg.Kandidat(org, schluessel)); }
  }

  ghost function NachKorrektur(reg: Register, t: map<nat, Fahrt>): map<nat, Fahrt> {
    map i | i in t :: reg.Korrigiert(t[i])
  }

  ghost function NachNormalisierung(reg: Register, t: map<nat, Fahrt>): map<nat, Fahrt> {
    map i | i in t :: reg.Normalisiert(t[i])
  }

  /** The table after correction and normalisation. */
  ghost function NachBeiden(reg: Register, t: map<nat, Fahrt>): map<nat, Fahrt> {
    map i | i in t :: reg.Normalisiert(reg.Korrigiert(t[i]))
  }

  /** Every role that is linked to an existing member carries exactly that member's name. */
  ghost predicate AlleHeissenWieIhrMitglied(reg: Register, t: map<nat, Fahrt>) {
    forall i, j :: i in t && 0 <= j < |t[i].rollen| && reg.Verknuepft(t[i].rollen[j]) ==>
      t[i].rollen[j].name == Some(VollerName(reg.members[t[i].rollen[j].mitglied.value]))
  }

  /** Every captured name of a linked role is kept in normalised form exactly when it can be told whom it means. */
  ghost predicate ErfassteNamenBleiben(reg: Register, t: map<nat, Fahrt>, u: map<nat, Fahrt>) {
    u.Keys == t.Keys && forall i, j {:trigger t[i].rollen[j]} :: i in t && 0 <= j < |t[i].rollen| ==>
      |u[i].rollen| == |t[i].rollen| && ErfassterNameBleibt(reg, t[i].orgId, t[i].rollen[j], u[i].rollen[j])
  }

  ghost predicate ErfassterNameBleibt(reg: Register, org: Option<nat>, r: Rolle, nachher: Rolle) {
    reg.Verknuepft(r) && Gefuellt(r.name) ==>
      var erfasst := reg.norm(r.name.value);
      reg.Verknuepft(nachher) && nachher.name.Some? &&
      (reg.norm(nachher.name.value) == erfasst <==>
        reg.norm(VollerName(reg.members[r.mitglied.value])) == erfasst ||
        exists i :: IstEinziger(reg.members, reg.norm, org, erfasst, i))
  }

  /** The two passes on the whole table. */
  lemma BeidePaesse(reg: Register, t: map<nat, Fahrt>)
    ensures AlleHeissenWieIhrMitglied(reg, NachBeiden(reg, t)) && ErfassteNamenBleiben(reg, t, NachBeiden(reg, t))
  {
    var u := NachBeiden(reg, t);
    forall i, j | i in t && 0 <= j < |t[i].rollen|
      ensures |u[i].rollen| == |t[i].rollen| && ErfassterNameBleibt(reg, t[i].orgId, t[i].rollen[j], u[i].rollen[j])
      ensures reg.Verknuepft(u[i].rollen[j]) ==>
        u[i].rollen[j].name == Some(VollerName(reg.members[u[i].rollen[j].mitglied.value]))
    {
      var r := t[i].rollen[j];
      assert u[i].rollen[j] == reg.NormalisierteRolle(t[i].orgId, reg.KorrigierteRolle(t[i].orgId, r));
      if reg.Verknuepft(u[i].rollen[j]) { VerknuepfteRollenHeissenWieIhrMitglied(reg, t[i], j); }
      if reg.Verknuepft(r) && Gefuellt(r.name) { ErfassterNameBleibtGenauDann(reg, t[i].orgId, r); }
    }
  }

  /** `fahrt`, and the member table read at the start of each pass. */
  class Fahrtenbuch {
    var fahrten: map<nat, Fahrt>

    constructor (fahrten: map<nat, Fahrt>)
      ensures this.fahrten == fahrten
    {
      this.fahrten := fahrten;
    }

    /** Both passes, in the order of `upgrade`. */
    method BereinigeNamen(reg: Register)
      requires forall i :: i in reg.members ==> reg.members[i].id == i
      modifies this
      ensures fahrten == NachBeiden(reg, old(fahrten))
      ensures AlleHeissenWieIhrMitglied(reg, fahrten) && ErfassteNamenBleiben(reg, old(fahrten), fahrten)
      ensures AlleRollen(old(fahrten), fahrten, (org, r, n) => RolleBereinigt(reg.members, reg.norm, org, r, n))
    {
      BeidePaesse(reg, fahrten);
      TabellenGenau(reg, fahrten);
      hide AlleRollen, AlleHeissenWieIhrMitglied, ErfassteNamenBleiben;
      KorrigiereFalscheMemberIds(reg);
      NormalisiereFahrten(reg);
    }

    /** `_korrigiere_falsche_member_ids` */
    method KorrigiereFalscheMemberIds(reg: Register)
      requires forall i :: i in reg.members ==> reg.members[i].id == i
      modifies this
      ensures fahrten == NachKorrektur(reg, old(fahrten))
      ensures AlleRollen(old(fahrten), fahrten, (org, r, n) => RolleKorrigiert(reg.members, reg.norm, org, r, n))
    {
      TabellenGenau(reg, fahrten);
      hide AlleRollen;
      var aktive := AktiveByOrg(reg);
      ghost var vorher := fahrten;
      var rest := fahrten.Keys;
      while rest != {}
        invariant rest <= vorher.Keys && fahrten.Keys == vorher.Keys
        invariant forall i :: i in vorher ==> fahrten[i] == if i in rest then vorher[i] else reg.Korrigiert(vorher[i])
        decreases rest
      {
        var i :| i in rest;
        var rollen := KorrigiereRollen(reg, aktive, fahrten[i]);
        fahrten := fahrten[i := fahrten[i].(rollen := rollen)];
        rest := rest - {i};
      }
      assert fahrten == NachKorrektur(reg, vorher);
    }

    /** `_normalisiere_fahrten` */
    method NormalisiereFahrten(reg: Register)
      requires forall i :: i in reg.members ==> reg.members[i].id == i
      modifies this
      ensures fahrten == NachNormalisierung(reg, old(fahrten))
      ensures AlleRollen(old(fahrten), fahrten, (org, r, n) => RolleNormalisiert(reg.members, reg.norm, org, r, n))
    {
      TabellenGenau(reg, fahrten);
      hide AlleRollen;
      var aktive := AktiveByOrg(reg);
      ghost var vorher := fahrten;
      var rest := fahrten.Keys;
      while rest != {}
        invariant rest <= vorher.Keys && fahrten.Keys == vorher.Keys
        invariant forall i :: i in vorher ==> fahrten[i] == if i in rest then vorher[i] else reg.Normalisiert(vorher[i])
        decreases rest
      {
        var i :| i in rest;
        var rollen := NormalisiereRollen(reg, aktive, fahrten[i]);
        fahrten := fahrten[i := fahrten[i].(rollen := rollen)];
        rest := rest - {i};
      }
      assert fahrten == NachNormalisierung(reg, vorher);
    }
  }

  /** `for id_col, name_col in ROLLEN` of the correction. */
  method KorrigiereRollen(reg: Register, aktive: map<(nat, string), seq<Member>>, f: Fahrt) returns (rollen: seq<Rolle>)
    requires IstIndex(reg, aktive) && forall i :: i in reg.members ==> reg.members[i].id == i
    ensures rollen == reg.Korrigiert(f).rollen
  {
    rollen := f.rollen;
    for j := 0 to |f.rollen|
      invariant |rollen| == |f.rollen|
      invariant forall k :: 0 <= k < |rollen| ==>
        rollen[k] == if k < j then reg.KorrigierteRolle(f.orgId, f.rollen[k]) else f.rollen[k]
    {
      var r := f.rollen[j];
      if reg.Verknuepft(r) && Gefuellt(r.name) {
        var erfasst := reg.norm(r.name.value);
        if erfasst != reg.norm(VollerName(reg.members[r.mitglied.value])) {
          EinKandidat(reg, aktive, f.orgId, erfasst);
          var kandidaten := set m | m in Liste(aktive, f.orgId, erfasst);
          if |kandidaten| == 1 {
            var kandidat :| kandidat in kandidaten;
            rollen := rollen[j := r.(mitglied := Some(kandidat.id))];
          }
        }
      }
    }
  }

  /** `for id_col, name_col in ROLLEN` of the normalisation. */
  method NormalisiereRollen(reg: Register, aktive: map<(nat, string), seq<Member>>,
                            f: Fahrt) returns (rollen: seq<Rolle>)
    requires IstIndex(reg, aktive) && forall i :: i in reg.members ==> reg.members[i].id == i
    ensures rollen == reg.Normalisiert(f).rollen
  {
    var explizit := Explizit(reg.norm);
    rollen := f.rollen;
    for j := 0 to |f.rollen|
      invariant |rollen| == |f.rollen|
      invariant forall k :: 0 <= k < |rollen| ==>
        rollen[k] == if k < j then reg.NormalisierteRolle(f.orgId, f.rollen[k]) else f.rollen[k]
    {
      var r := f.rollen[j];
      if reg.Verknuepft(r) {
        rollen := rollen[j := r.(name := Some(VollerName(reg.members[r.mitglied.value])))];
      } else if r.mitglied.None? && Gefuellt(r.name) {
        var key := reg.norm(r.name.value);
        key := if key in explizit then explizit[key] else key;
        EinKandidat(reg, aktive, f.orgId, key);
        var kandidaten := set m | m in Liste(aktive, f.orgId, key);
        if |kandidaten| == 1 {
          var kandidat :| kandidat in kandidaten;
          rollen := rollen[j := Rolle(Some(kandidat.id), Some(VollerName(kandidat)))];
        }
      }
    }
  }
}
