/** alembic/versions/0226_verleih_autodruck_zu_druckregel.py. */
module Druckregel {
  import opened Grundlagen
  import opened Dezimal

  const AUSLOESER := "verleih_created"
  const SCHEIN := "verleih_schein"
  const BASIS := "Verleihschein automatisch"

  /** A row of `print_rule`; JSON columns are decoded, undecodable ones to the empty list. */
  datatype Regel = Regel(orgId: nat, name: string, aktiv: bool, ausloeser: string, documents: seq<string>,
                         printerIds: seq<nat>,
                         duplex: string, sortOrder: int)

  datatype Gateway = Gateway(id: nat, orgId: nat, gekoppelt: bool)

  /** A printer; `rolle` and `duplex` come from its decoded defaults. */
  datatype Drucker = Drucker(id: nat, gatewayId: nat, aktiv: bool, rolle: Option<string>, duplex: Option<string>)

  predicate IstWirksam(r: Regel, org: nat) {
    r.orgId == org && r.ausloeser == AUSLOESER && r.aktiv && SCHEIN in r.documents && r.printerIds != []
  }

  /** `_hat_wirksame_regel` */
  predicate HatWirksameRegel(regeln: seq<Regel>, org: nat) {
    exists r :: r in regeln && IstWirksam(r, org)
  }

  // ---------------------------------------------------------------- the printer

  /** `SELECT id FROM gateway WHERE org_id=... AND device_token_hash IS NOT NULL ORDER BY id`, first row. */
  function GatewayVon(gateways: seq<Gateway>, org: nat): (g: Option<nat>)
    ensures g.None? <==> forall x :: x in gateways ==> !(x.orgId == org && x.gekoppelt)
    ensures g.Some? ==> exists x :: x in gateways && x.orgId == org && x.gekoppelt && x.id == g.value
    ensures g.Some? ==> forall x :: x in gateways && x.orgId == org && x.gekoppelt ==> g.value <= x.id
  {
    if gateways == [] then None else
    assert gateways == [gateways[0]] + gateways[1..];
    var rest := GatewayVon(gateways[1..], org);
    var g := gateways[0];
    if !(g.orgId == org && g.gekoppelt) then rest
    else if rest.Some? && rest.value < g.id then rest
    else Some(g.id)
  }

  /** The active printers of a gateway, in the order of the table (`ORDER BY name`). */
  function AktiveDrucker(drucker: seq<Drucker>, gateway: nat): (r: seq<Drucker>)
    ensures forall d :: d in r <==> d in drucker && d.gatewayId == gateway && d.aktiv
  {
    if drucker == [] then []
    else if drucker[0].gatewayId == gateway && drucker[0].aktiv then [drucker[0]] + AktiveDrucker(drucker[1..], gateway)
    else AktiveDrucker(drucker[1..], gateway)
  }

  /** `next(... role == "standard", drucker[0])` */
  function Standarddrucker(drucker: seq<Drucker>, ersatz: Drucker): (d: Drucker)
    ensures d in drucker || d == ersatz
    ensures (exists x :: x in drucker && x.rolle == Some("standard")) ==> d in drucker && d.rolle == Some("standard")
  {
    if drucker == [] then ersatz
    else if drucker[0].rolle == Some("standard") then drucker[0]
    else Standarddrucker(drucker[1..], ersatz)
  }

  /** `_drucker` */
  function DruckerVon(gateways: seq<Gateway>, drucker: seq<Drucker>, org: nat): Option<Drucker> {
    var g := GatewayVon(gateways, org);
    if g.None? then None else
    var aktive := AktiveDrucker(drucker, g.value);
    if aktive == [] then None else Some(Standarddrucker(aktive, aktive[0]))
  }

  /** A printer is found exactly when the first coupled gateway has an active one, and then it is such a one. */
  lemma DruckerGefundenGenauDann(gateways: seq<Gateway>, drucker: seq<Drucker>, org: nat)
    ensures var g, d := GatewayVon(gateways, org), DruckerVon(gateways, drucker, org);
            (d.Some? <==> g.Some? && exists x :: x in drucker && x.gatewayId == g.value && x.aktiv) &&
            (d.Some? ==> d.value in drucker && d.value.gatewayId == g.value && d.value.aktiv)
  {
    var g := GatewayVon(gateways, org);
    if g.Some? {
      var aktive := AktiveDrucker(drucker, g.value);
      if aktive != [] { assert aktive[0] in aktive; }
    }
  }

  // ---------------------------------------------------------------- a free name

  function NameMit(nummer: nat): string {
    BASIS + " (" + Ziffern(nummer) + ")"
  }

  lemma NameMitEindeutig(m: nat, n: nat)
    requires NameMit(m) == NameMit(n)
    ensures m == n
  {
    var k := |BASIS + " ("|;
    assert NameMit(m)[k..] == Ziffern(m) + ")" && NameMit(n)[k..] == Ziffern(n) + ")";
    assert (Ziffern(m) + ")")[..|Ziffern(m)|] == Ziffern(m) && (Ziffern(n) + ")")[..|Ziffern(n)|] == Ziffern(n);
    ZahlVonZiffern(m);
    ZahlVonZiffern(n);
  }

  /** `name` is the first unused name in the order basis, (2), (3), ... */
  ghost predicate ErsterFreier(namen: set<string>, name: string) {
    && name !in namen
    && (name == BASIS ||
        (BASIS in namen && exists n :: n >= 2 && name == NameMit(n) && forall k :: 2 <= k < n ==> NameMit(k) in namen))
  }

  /** `_regelname`: an unused name, and the first in the order basis, (2), (3), ... */
  method Regelname(namen: set<string>) returns (name: string)
    ensures ErsterFreier(namen, name)
  {
    if BASIS !in namen { return BASIS; }
    var nummer := 2;
    ghost var frei := namen;  // the taken names not yet seen by the search
    while NameMit(nummer) in namen
      invariant nummer >= 2 && frei <= namen
      invariant forall k :: 2 <= k < nummer ==> NameMit(k) in namen
      invariant forall k :: nummer <= k && NameMit(k) in namen ==> NameMit(k) in frei
      decreases |frei|
    {
      forall k | nummer < k && NameMit(k) in namen
        ensures NameMit(k) in frei - {NameMit(nummer)}
      {
        if NameMit(k) == NameMit(nummer) { NameMitEindeutig(k, nummer); }
      }
      frei := frei - {NameMit(nummer)};
      nummer := nummer + 1;
    }
    name := NameMit(nummer);
  }

  // ---------------------------------------------------------------- the loop over the organisations

  ghost predicate NamenEindeutig(regeln: seq<Regel>) {
    forall i, j :: 0 <= i < j < |regeln| && regeln[i].orgId == regeln[j].orgId ==> regeln[i].name != regeln[j].name
  }

  function NamenVon(regeln: seq<Regel>, org: nat): set<string> {
    set q | q in regeln && q.orgId == org :: q.name
  }

  /** `r` sorts directly behind every rule of its organisation in `regeln` and has the first name they leave free. */
  ghost predicate Folgt(regeln: seq<Regel>, r: Regel) {
    && (forall q :: q in regeln && q.orgId == r.orgId ==> q.sortOrder < r.sortOrder)
    && r.sortOrder == HoechsteSortierung(regeln, r.orgId) + 1
    && ErsterFreier(NamenVon(regeln, r.orgId), r.name)
  }

  /** The toggled organisations without an effective rule, in order. */
  ghost function OhneRegel(regeln: seq<Regel>, orgIds: seq<nat>): seq<nat> {
    if orgIds == [] then []
    else
      var vorn := OhneRegel(regeln, orgIds[..|orgIds| - 1]);
      if HatWirksameRegel(regeln, orgIds[|orgIds| - 1]) then vorn else vorn + [orgIds[|orgIds| - 1]]
  }

  lemma {:induction false} OhneRegelEnthaelt(regeln: seq<Regel>, orgIds: seq<nat>, org: nat)
    ensures org in OhneRegel(regeln, orgIds) <==> org in orgIds && !HatWirksameRegel(regeln, org)
  {
    if orgIds != [] {
      var n := |orgIds| - 1;
      OhneRegelEnthaelt(regeln, orgIds[..n], org);
      assert orgIds == orgIds[..n] + [orgIds[n]];
    }
  }

  ghost function OrgsVon(regeln: seq<Regel>): (orgs: seq<nat>)
    ensures |orgs| == |regeln| && forall i :: 0 <= i < |orgs| ==> orgs[i] == regeln[i].orgId
  {
    seq(|regeln|, i requires 0 <= i < |regeln| => regeln[i].orgId)
  }

  /** The rule the migration inserts: effective exactly with a printer. */
  ghost predicate IstUebernommen(r: Regel, d: Option<Drucker>) {
    && r.ausloeser == AUSLOESER && r.documents == [SCHEIN] && r.aktiv == d.Some?
    && r.printerIds == (if d.Some? then [d.value.id] else [])
    && r.duplex == (if d.Some? && Gefuellt(d.value.duplex) then d.value.duplex.value else "off")
  }

  /**
   * The rules inserted after `alt`: one per organisation in `orgs`, in order, each behind and named apart from all
   * before it.
   */
  ghost predicate Angehaengt(alt: seq<Regel>, neue: seq<Regel>, orgs: seq<nat>, gateways: seq<Gateway>,
                             drucker: seq<Drucker>) {
    && OrgsVon(neue) == orgs
    && (forall i :: 0 <= i < |neue| ==> IstUebernommen(neue[i], DruckerVon(gateways, drucker, neue[i].orgId)))
    && (forall i :: 0 <= i < |neue| ==> Folgt(alt + neue[..i], neue[i]))
  }

  class Druckregeln {
    var regeln: seq<Regel>
    var spalteVorhanden: bool

    /** `upgrade`; `orgIds` are the organisations with the old toggle on, each once. */
    method Upgrade(orgIds: seq<nat>, gateways: seq<Gateway>, drucker: seq<Drucker>)
      requires NamenEindeutig(regeln) && forall i, j :: 0 <= i < j < |orgIds| ==> orgIds[i] != orgIds[j]
      modifies this
      ensures NamenEindeutig(regeln) && !spalteVorhanden
      ensures !old(spalteVorhanden) ==> regeln == old(regeln)
      ensures old(spalteVorhanden) ==>
        |regeln| >= |old(regeln)| && regeln[..|old(regeln)|] == old(regeln) &&
        Angehaengt(old(regeln), regeln[|old(regeln)|..], OhneRegel(old(regeln), orgIds), gateways, drucker)
      ensures old(spalteVorhanden) ==>
        |regeln| >= |old(regeln)| && NeueRegelnRichtig(old(regeln), regeln[|old(regeln)|..], orgIds, gateways, drucker)
    {
      ghost var alt, vorhanden := regeln, spalteVorhanden;
      Uebernehme(orgIds, gateways, drucker);
      if vorhanden {
        hide Angehaengt, OhneRegel, NeueRegelnRichtig;
        RegelnGenau(alt, regeln[|alt|..], orgIds, gateways, drucker);
      }
    }

    /** The loop over the organisations. */
    method Uebernehme(orgIds: seq<nat>, gateways: seq<Gateway>, drucker: seq<Drucker>)
      requires NamenEindeutig(regeln) && forall i, j :: 0 <= i < j < |orgIds| ==> orgIds[i] != orgIds[j]
      modifies this
      ensures NamenEindeutig(regeln) && !spalteVorhanden
      ensures !old(spalteVorhanden) ==> regeln == old(regeln)
      ensures old(spalteVorhanden) ==>
        |regeln| >= |old(regeln)| && regeln[..|old(regeln)|] == old(regeln) &&
        Angehaengt(old(regeln), regeln[|old(regeln)|..], OhneRegel(old(regeln), orgIds), gateways, drucker)
    {
      if !spalteVorhanden { return; }
      ghost var alt := regeln;
      ghost var neue: seq<Regel> := [];
      for n := 0 to |orgIds|
        invariant NamenEindeutig(regeln) && regeln == alt + neue && spalteVorhanden
        invariant Angehaengt(alt, neue, OhneRegel(alt, orgIds[..n]), gateways, drucker)
      {
        hide *;
        neue := UebernehmeEine(orgIds, n, gateways, drucker, alt, neue);
      }
      assert orgIds[..|orgIds|] == orgIds;
      assert regeln[|alt|..] == neue;
      hide Angehaengt, OhneRegel;
      spalteVorhanden := false;
    }

    /** The loop body for one organisation. */
    method UebernehmeEine(orgIds: seq<nat>, n: nat, gateways: seq<Gateway>, drucker: seq<Drucker>,
                          ghost alt: seq<Regel>, ghost neue0: seq<Regel>) returns (ghost neue: seq<Regel>)
      requires n < |orgIds| && forall i, j :: 0 <= i < j < |orgIds| ==> orgIds[i] != orgIds[j]
      requires NamenEindeutig(regeln) && regeln == alt + neue0
      requires Angehaengt(alt, neue0, OhneRegel(alt, orgIds[..n]), gateways, drucker)
      modifies this`regeln
      ensures NamenEindeutig(regeln) && regeln == alt + neue
      ensures Angehaengt(alt, neue, OhneRegel(alt, orgIds[..n + 1]), gateways, drucker)
    {
      neue := neue0;
      assert orgIds[..n + 1][..n] == orgIds[..n];
      hide Folgt, IstUebernommen, HatWirksameRegel, IstWirksam, Angehaengt, DruckerVon, NamenEindeutig;
      NochOhneNeueRegel(alt, neue, orgIds, n, gateways, drucker);
      if !HatWirksameRegel(regeln, orgIds[n]) {
        var r := NeueRegel(orgIds[n], DruckerVon(gateways, drucker, orgIds[n]));
        RegelDazu(alt, neue, OhneRegel(alt, orgIds[..n]), r, gateways, drucker);
        regeln := regeln + [r];
        neue := neue + [r];
      }
    }

    /** The row inserted for one organisation. */
    method NeueRegel(org: nat, d: Option<Drucker>) returns (r: Regel)
      requires NamenEindeutig(regeln)
      ensures r.orgId == org && IstUebernommen(r, d) && Folgt(regeln, r) && NamenEindeutig(regeln + [r])
    {
      var namen := NamenVon(regeln, org);
      var name := Regelname(namen);
      var sort := HoechsteSortierung(regeln, org);
      r := Regel(org, name, d.Some?, AUSLOESER, [SCHEIN], if d.Some? then [d.value.id] else [],
                 if d.Some? && Gefuellt(d.value.duplex) then d.value.duplex.value else "off", sort + 1);
      forall i | 0 <= i < |regeln| && regeln[i].orgId == org
        ensures regeln[i].name != name
      {
        assert regeln[i] in regeln && regeln[i].name in namen;
      }
    }
  }

  /** `COALESCE(MAX(sort_order), 0)` */
  function HoechsteSortierung(regeln: seq<Regel>, org: nat): (m: int)
    ensures forall r :: r in regeln && r.orgId == org ==> r.sortOrder <= m
    ensures (forall r :: r in regeln ==> r.orgId != org) ==> m == 0
    ensures (exists r :: r in regeln && r.orgId == org) ==>
      exists r :: r in regeln && r.orgId == org && r.sortOrder == m
  {
    if regeln == [] then 0 else
    assert regeln == [regeln[0]] + regeln[1..];
    var rest := HoechsteSortierung(regeln[1..], org);
    if regeln[0].orgId != org then rest
    else if (exists r :: r in regeln[1..] && r.orgId == org) && rest > regeln[0].sortOrder then rest
    else regeln[0].sortOrder
  }

  /** Rules for other organisations do not make an organisation's rule effective. */
  lemma NochOhneNeueRegel(alt: seq<Regel>, neue: seq<Regel>, orgIds: seq<nat>, n: nat, gateways: seq<Gateway>,
                          drucker: seq<Drucker>)
    requires n < |orgIds| && Angehaengt(alt, neue, OhneRegel(alt, orgIds[..n]), gateways, drucker)
    requires forall i, j :: 0 <= i < j < |orgIds| ==> orgIds[i] != orgIds[j]
    ensures HatWirksameRegel(alt + neue, orgIds[n]) <==> HatWirksameRegel(alt, orgIds[n])
  {
    hide IstUebernommen, Folgt;
    forall r | r in neue
      ensures r.orgId != orgIds[n]
    {
      var i :| 0 <= i < |neue| && neue[i] == r;
      assert OrgsVon(neue)[i] in OhneRegel(alt, orgIds[..n]);
      OhneRegelEnthaelt(alt, orgIds[..n], r.orgId);
    }
    if r :| r in alt && IstWirksam(r, orgIds[n]) { assert r in alt + neue; }
  }

  lemma RegelDazu(alt: seq<Regel>, neue: seq<Regel>, orgs: seq<nat>, r: Regel, gateways: seq<Gateway>,
                  drucker: seq<Drucker>)
    requires Angehaengt(alt, neue, orgs, gateways, drucker) && Folgt(alt + neue, r)
    requires IstUebernommen(r, DruckerVon(gateways, drucker, r.orgId))
    ensures Angehaengt(alt, neue + [r], orgs + [r.orgId], gateways, drucker)
  {
    hide IstUebernommen, Folgt;
    forall i | 0 <= i < |neue + [r]|
      ensures Folgt(alt + (neue + [r])[..i], (neue + [r])[i])
    {
      assert (neue + [r])[..i] == neue[..i];
      if i == |neue| { assert neue[..i] == neue; }
    }
  }

  /** Every toggled organisation with a usable printer ends with an effective rule; nobody else's rules change. */
  lemma JedeOrgMitDruckerDruckt(alt: seq<Regel>, neue: seq<Regel>, orgIds: seq<nat>, gateways: seq<Gateway>,
                                drucker: seq<Drucker>, org: nat)
    requires Angehaengt(alt, neue, OhneRegel(alt, orgIds), gateways, drucker)
    ensures org in orgIds && DruckerVon(gateways, drucker, org).Some? ==> HatWirksameRegel(alt + neue, org)
    ensures org !in orgIds || HatWirksameRegel(alt, org) ==> forall r :: r in neue ==> r.orgId != org
  {
    OhneRegelEnthaelt(alt, orgIds, org);
    forall r | r in neue && r.orgId == org
      ensures org in OhneRegel(alt, orgIds)
    {
      var i :| 0 <= i < |neue| && neue[i] == r;
      assert OrgsVon(neue)[i] == org;
    }
    if org in orgIds && HatWirksameRegel(alt, org) {
      var r :| r in alt && IstWirksam(r, org);
      assert r in alt + neue;
    } else if org in orgIds && DruckerVon(gateways, drucker, org).Some? {
      var i :| 0 <= i < |neue| && OrgsVon(neue)[i] == org;
      assert neue[i] in alt + neue && IstWirksam(neue[i], org);
    }
  }

  // ---------------------------------------------------------------- the promise in terms of the columns

  /** An active rule of the organisation prints the lending slip, on some printer, when a lending is created. */
  predicate DrucktSchein(r: Regel, org: nat) {
    r.orgId == org && r.ausloeser == "verleih_created" && r.aktiv && "verleih_schein" in r.documents &&
      |r.printerIds| > 0
  }

  /** `g` is the coupled gateway of smallest id of the organisation. */
  ghost predicate IstGateway(gateways: seq<Gateway>, org: nat, g: nat) {
    && (exists x :: x in gateways && x.orgId == org && x.gekoppelt && x.id == g)
    && (forall x :: x in gateways && x.orgId == org && x.gekoppelt ==> g <= x.id)
  }

  /** Printer `i` of the list is an active one of that gateway. */
  ghost predicate IstDrucker(gateways: seq<Gateway>, drucker: seq<Drucker>, org: nat, i: nat) {
    i < |drucker| && drucker[i].aktiv && IstGateway(gateways, org, drucker[i].gatewayId)
  }

  /** Printer `i` is taken: the first standard printer, or the first one when none is standard. */
  ghost predicate WirdGenommen(gateways: seq<Gateway>, drucker: seq<Drucker>, org: nat, i: nat) {
    && IstDrucker(gateways, drucker, org, i)
    && if exists j: nat :: IstDrucker(gateways, drucker, org, j) && drucker[j].rolle == Some("standard")
       then drucker[i].rolle == Some("standard") &&
            forall j :: 0 <= j < i && IstDrucker(gateways, drucker, org, j) ==> drucker[j].rolle != Some("standard")
       else forall j :: 0 <= j < i ==> !IstDrucker(gateways, drucker, org, j)
  }

  /**
   * The new rule of an organisation: on the printer taken, one- or two-sided as that one is set; without one it is
   * inactive.
   */
  ghost predicate NeueRegelRichtig(r: Regel, gateways: seq<Gateway>, drucker: seq<Drucker>) {
    && r.ausloeser == "verleih_created" && r.documents == ["verleih_schein"]
    && if exists i: nat :: IstDrucker(gateways, drucker, r.orgId, i)
       then exists i: nat :: WirdGenommen(gateways, drucker, r.orgId, i) && DrucktAuf(r, drucker[i])
       else !r.aktiv && r.printerIds == [] && r.duplex == "off"
  }

  predicate DrucktAuf(r: Regel, d: Drucker) {
    r.aktiv && r.printerIds == [d.id] && r.duplex == DuplexVon(d)
  }

  function DuplexVon(d: Drucker): string {
    if d.duplex.Some? && d.duplex.value != "" then d.duplex.value else "off"
  }

  /** An organisation has a new rule exactly when it is toggled and nobody printed its slips. */
  ghost predicate NurWennUnversorgt(alt: seq<Regel>, neue: seq<Regel>, orgIds: seq<nat>, org: nat) {
    (exists r :: r in neue && r.orgId == org) <==> org in orgIds && forall q :: q in alt ==> !DrucktSchein(q, org)
  }

  /** The new rules are for the toggled organisations whose slips nobody printed, once each and in order. */
  ghost predicate NeueRegelnRichtig(alt: seq<Regel>, neue: seq<Regel>, orgIds: seq<nat>, gateways: seq<Gateway>,
                                    drucker: seq<Drucker>) {
    && (forall r :: r in neue ==> NeueRegelRichtig(r, gateways, drucker))
    && (forall org: nat :: NurWennUnversorgt(alt, neue, orgIds, org))
    && (forall i, j :: 0 <= i < j < |neue| ==> neue[i].orgId != neue[j].orgId)
  }

  lemma WirksamGenauDann(regeln: seq<Regel>, org: nat)
    ensures HatWirksameRegel(regeln, org) <==> exists q :: q in regeln && DrucktSchein(q, org)
  {
    forall r | r in regeln
      ensures IstWirksam(r, org) <==> DrucktSchein(r, org)
    {
    }
    hide IstWirksam, DrucktSchein;
  }

  /** The printers of a gateway keep the order of the list. */
  lemma {:induction false} ErsterAktiver(drucker: seq<Drucker>, g: nat) returns (i: nat)
    ensures AktiveDrucker(drucker, g) == [] <==> forall j :: 0 <= j < |drucker| ==>
      !(drucker[j].gatewayId == g && drucker[j].aktiv)
    ensures AktiveDrucker(drucker, g) != [] ==>
              i < |drucker| && drucker[i].gatewayId == g && drucker[i].aktiv &&
                AktiveDrucker(drucker, g)[0] == drucker[i] &&
              forall j :: 0 <= j < i ==> !(drucker[j].gatewayId == g && drucker[j].aktiv)
  {
    i := 0;
    if drucker != [] && !(drucker[0].gatewayId == g && drucker[0].aktiv) {
      i := ErsterAktiver(drucker[1..], g);
      assert forall j :: 1 <= j < |drucker| ==> drucker[j] == drucker[1..][j - 1];
      i := i + 1;
    }
  }

  predicate IstStandard(d: Drucker, g: nat) {
    d.gatewayId == g && d.aktiv && d.rolle == Some("standard")
  }

  lemma {:induction false} ErsterStandard(drucker: seq<Drucker>, g: nat, ersatz: Drucker) returns (i: nat)
    ensures i <= |drucker| && forall j :: 0 <= j < i ==> !IstStandard(drucker[j], g)
    ensures if i < |drucker|
            then IstStandard(drucker[i], g) && Standarddrucker(AktiveDrucker(drucker, g), ersatz) == drucker[i]
            else Standarddrucker(AktiveDrucker(drucker, g), ersatz) == ersatz
  {
    i := 0;
    if drucker != [] && !IstStandard(drucker[0], g) {
      i := ErsterStandard(drucker[1..], g, ersatz);
      assert forall j :: 1 <= j < |drucker| ==> drucker[j] == drucker[1..][j - 1];
      if drucker[0].gatewayId == g && drucker[0].aktiv {
        assert AktiveDrucker(drucker, g)[1..] == AktiveDrucker(drucker[1..], g);
      }
      i := i + 1;
    }
  }

  lemma DruckerGenau(gateways: seq<Gateway>, drucker: seq<Drucker>, org: nat)
    ensures var d := DruckerVon(gateways, drucker, org);
            if exists i: nat :: IstDrucker(gateways, drucker, org, i)
            then exists i: nat :: WirdGenommen(gateways, drucker, org, i) && d == Some(drucker[i])
            else d.None?
  {
    var g := GatewayVon(gateways, org);
    forall x: nat
      ensures IstGateway(gateways, org, x) <==> g == Some(x)
    {
    }
    hide IstGateway, GatewayVon;
    if g.Some? {
      var i := ErsterAktiver(drucker, g.value);
      if AktiveDrucker(drucker, g.value) != [] {
        var k := ErsterStandard(drucker, g.value, drucker[i]);
        hide AktiveDrucker, Standarddrucker;
        assert forall j: nat :: IstDrucker(gateways, drucker, org, j) <==>
          j < |drucker| && drucker[j].gatewayId == g.value && drucker[j].aktiv;
        hide IstDrucker;
        assert IstDrucker(gateways, drucker, org, i);
        if k < |drucker| {
          assert IstDrucker(gateways, drucker, org, k);
          assert WirdGenommen(gateways, drucker, org, k);
        } else {
          assert WirdGenommen(gateways, drucker, org, i);
        }
      }
    }
  }

  lemma NeueRegelGenau(r: Regel, gateways: seq<Gateway>, drucker: seq<Drucker>)
    requires IstUebernommen(r, DruckerVon(gateways, drucker, r.orgId))
    ensures NeueRegelRichtig(r, gateways, drucker)
  {
    DruckerGenau(gateways, drucker, r.orgId);
    hide WirdGenommen, IstDrucker, DruckerVon;
  }

  ghost predicate Verschieden(ids: seq<nat>) {
    forall i, j :: 0 <= i < j < |ids| ==> ids[i] != ids[j]
  }

  lemma {:induction false} OhneRegelVerschieden(regeln: seq<Regel>, orgIds: seq<nat>)
    requires Verschieden(orgIds)
    ensures Verschieden(OhneRegel(regeln, orgIds))
  {
    if orgIds != [] {
      var n := |orgIds| - 1;
      var vorn := OhneRegel(regeln, orgIds[..n]);
      OhneRegelVerschieden(regeln, orgIds[..n]);
      OhneRegelEnthaelt(regeln, orgIds[..n], orgIds[n]);
      assert orgIds[n] !in orgIds[..n];
      assert forall i :: 0 <= i < |vorn| ==> vorn[i] in vorn;
    }
  }

  /** New rules are there for just the organisations that had none. */
  lemma NurFuerUnversorgte(alt: seq<Regel>, neue: seq<Regel>, orgIds: seq<nat>, org: nat)
    requires OrgsVon(neue) == OhneRegel(alt, orgIds)
    ensures NurWennUnversorgt(alt, neue, orgIds, org)
  {
    var o := OhneRegel(alt, orgIds);
    OhneRegelEnthaelt(alt, orgIds, org);
    WirksamGenauDann(alt, org);
    hide OhneRegel, HatWirksameRegel, DrucktSchein;
    if r :| r in neue && r.orgId == org {
      var i :| 0 <= i < |neue| && neue[i] == r;
      assert OrgsVon(neue)[i] == org;
    }
    if org in o {
      var i :| 0 <= i < |o| && o[i] == org;
      assert neue[i] in neue;
    }
  }

  lemma AlleNeuenGenau(alt: seq<Regel>, neue: seq<Regel>, orgs: seq<nat>, gateways: seq<Gateway>, drucker: seq<Drucker>)
    requires Angehaengt(alt, neue, orgs, gateways, drucker)
    ensures forall r :: r in neue ==> NeueRegelRichtig(r, gateways, drucker)
    ensures OrgsVon(neue) == orgs
  {
    hide NeueRegelRichtig, IstUebernommen, Folgt, DruckerVon;
    forall r | r in neue
      ensures NeueRegelRichtig(r, gateways, drucker)
    {
      var i :| 0 <= i < |neue| && neue[i] == r;
      NeueRegelGenau(r, gateways, drucker);
    }
  }

  lemma OrgsVerschieden(neue: seq<Regel>)
    requires Verschieden(OrgsVon(neue))
    ensures forall i, j :: 0 <= i < j < |neue| ==> neue[i].orgId != neue[j].orgId
  {
    forall i, j | 0 <= i < j < |neue|
      ensures neue[i].orgId != neue[j].orgId
    {
      assert OrgsVon(neue)[i] != OrgsVon(neue)[j];
    }
  }

  lemma RegelnGenau(alt: seq<Regel>, neue: seq<Regel>, orgIds: seq<nat>, gateways: seq<Gateway>, drucker: seq<Drucker>)
    requires Angehaengt(alt, neue, OhneRegel(alt, orgIds), gateways, drucker)
    requires Verschieden(orgIds)
    ensures NeueRegelnRichtig(alt, neue, orgIds, gateways, drucker)
  {
    hide *;
    AlleNeuenGenau(alt, neue, OhneRegel(alt, orgIds), gateways, drucker);
    OhneRegelVerschieden(alt, orgIds);
    OrgsVerschieden(neue);
    forall org: nat
      ensures NurWennUnversorgt(alt, neue, orgIds, org)
    {
      NurFuerUnversorgte(alt, neue, orgIds, org);
    }
    Zusammengenommen(alt, neue, orgIds, gateways, drucker);
  }

  lemma Zusammengenommen(alt: seq<Regel>, neue: seq<Regel>, orgIds: seq<nat>, gateways: seq<Gateway>,
                         drucker: seq<Drucker>)
    requires forall r :: r in neue ==> NeueRegelRichtig(r, gateways, drucker)
    requires forall org: nat :: NurWennUnversorgt(alt, neue, orgIds, org)
    requires forall i, j :: 0 <= i < j < |neue| ==> neue[i].orgId != neue[j].orgId
    ensures NeueRegelnRichtig(alt, neue, orgIds, gateways, drucker)
  {
    hide NurWennUnversorgt, NeueRegelRichtig;
  }
}
