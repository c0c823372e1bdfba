/** The pressure replay of alembic/versions/0201_breathing_phase1_safety.py. */
module Druckprotokoll {
  import opened Grundlagen

  /** A row of `troop_member`. */
  datatype Mitglied = Mitglied(trupp: nat, memberId: Option<nat>, startdruck: Option<real>, druck: Option<real>)

  /** A row of `pressure_log`; `ziel` is the new column `troop_member_id`. */
  datatype Eintrag = Eintrag(trupp: nat, memberId: Option<nat>, ts: int, bar: real, ziel: Option<nat>)

  // ---------------------------------------------------------------- what the replay promises

  ghost function Trupp(ms: map<nat, Mitglied>, trupp: nat): set<nat> {
    set m | m in ms && ms[m].trupp == trupp
  }

  ghost function Passend(ms: map<nat, Mitglied>, e: Eintrag): set<nat> {
    set m | m in ms && ms[m].trupp == e.trupp && ms[m].memberId == e.memberId
  }

  /** The member an entry goes to: the first of its troop with the entry's `member_id`, else the first of the troop. */
  ghost function Ziel(ms: map<nat, Mitglied>, e: Eintrag): Option<nat> {
    if Passend(ms, e) != {} then Some(Minimum(Passend(ms, e)))
    else if Trupp(ms, e.trupp) != {} then Some(Minimum(Trupp(ms, e.trupp)))
    else None
  }

  /** `ORDER BY ts, id` */
  predicate Frueher(es: map<nat, Eintrag>, a: nat, b: nat)
    requires a in es && b in es
  {
    es[a].ts < es[b].ts || (es[a].ts == es[b].ts && a < b)
  }

  ghost predicate GehtAn(ms: map<nat, Mitglied>, es: map<nat, Eintrag>, l: nat, m: nat) {
    l in es && Ziel(ms, es[l]) == Some(m)
  }

  /** No entry of `ls` that goes to `m` is later than `l`. */
  ghost predicate IstLetzter(ms: map<nat, Mitglied>, es: map<nat, Eintrag>, ls: set<nat>, m: nat, l: nat)
    requires ls <= es.Keys && l in es
  {
    forall k :: k in ls && k != l && GehtAn(ms, es, k, m) ==> Frueher(es, k, l)
  }

  /** `p` is the pressure of the last of the entries `ls` that go to `m`, or its start pressure. */
  ghost predicate LetzterDruck(ms: map<nat, Mitglied>, es: map<nat, Eintrag>, ls: set<nat>, m: nat, p: Option<real>)
    requires m in ms && ls <= es.Keys
  {
    (p == ms[m].startdruck && forall l :: l in ls ==> !GehtAn(ms, es, l, m)) ||
    (exists l :: l in ls && GehtAn(ms, es, l, m) && p == Some(es[l].bar) && IstLetzter(ms, es, ls, m, l))
  }

  /**
   * An entry stays in its troop and with its own `member_id` whenever somebody there has it; it is unassigned only if
   * the troop is empty.
   */
  lemma ZielImEigenenTrupp(ms: map<nat, Mitglied>, e: Eintrag)
    ensures Ziel(ms, e).Some? <==> exists m :: m in ms && ms[m].trupp == e.trupp
    ensures Ziel(ms, e).Some? ==> Ziel(ms, e).value in ms && ms[Ziel(ms, e).value].trupp == e.trupp
    ensures (exists m :: m in ms && ms[m].trupp == e.trupp && ms[m].memberId == e.memberId) ==>
              Ziel(ms, e).Some? && ms[Ziel(ms, e).value].memberId == e.memberId
  {
    if m :| m in ms && ms[m].trupp == e.trupp { assert m in Trupp(ms, e.trupp); }
    if m :| m in ms && ms[m].trupp == e.trupp && ms[m].memberId == e.memberId { assert m in Passend(ms, e); }
  }

  /** The promise leaves no choice: two pressures that meet it are equal. */
  lemma LetzterDruckEindeutig(ms: map<nat, Mitglied>, es: map<nat, Eintrag>, ls: set<nat>, m: nat, p: Option<real>,
                              q: Option<real>)
    requires m in ms && ls <= es.Keys && LetzterDruck(ms, es, ls, m, p) && LetzterDruck(ms, es, ls, m, q)
    ensures p == q
  {
  }

  /** One more entry, later than all before it: only its own member's pressure moves. */
  lemma EinEintragMehr(ms: map<nat, Mitglied>, es: map<nat, Eintrag>, ls: set<nat>, l: nat, m: nat, p: Option<real>)
    requires m in ms && ls <= es.Keys && l in es && (forall k :: k in ls ==> Frueher(es, k, l)) &&
             LetzterDruck(ms, es, ls, m, p)
    ensures LetzterDruck(ms, es, ls + {l}, m, if GehtAn(ms, es, l, m) then Some(es[l].bar) else p)
  {
    hide Ziel, Frueher;
    if GehtAn(ms, es, l, m) {
      assert forall k :: k in ls + {l} && k != l ==> k in ls;
      assert l in ls + {l};
    } else if k :| k in ls && GehtAn(ms, es, k, m) && p == Some(es[k].bar) && IstLetzter(ms, es, ls, m, k) {
      assert k in ls + {l};
      assert forall j :: j in ls + {l} && j != k && GehtAn(ms, es, j, m) ==> j in ls;
    }
  }

  // ---------------------------------------------------------------- the choice of the member

  /** `[m for m in candidates if m["member_id"] == log["member_id"]]`, first element, else the first candidate. */
  method WaehleZiel(ms: map<nat, Mitglied>, kandidaten: seq<nat>, e: Eintrag) returns (ziel: Option<nat>)
    requires Aufsteigend(kandidaten) && forall m :: m in kandidaten <==> m in ms && ms[m].trupp == e.trupp
    ensures ziel == Ziel(ms, e)
  {
    ziel := None;
    for i := 0 to |kandidaten|
      invariant ziel.None? ==> forall j :: 0 <= j < i ==> ms[kandidaten[j]].memberId != e.memberId
      invariant ziel.Some? ==> ziel.value in kandidaten && ms[ziel.value].memberId == e.memberId
      invariant ziel.Some? ==> forall j :: 0 <= j < |kandidaten| && ms[kandidaten[j]].memberId == e.memberId ==>
        ziel.value <= kandidaten[j]
    {
      assert kandidaten[i] in kandidaten;
      if ziel.None? && ms[kandidaten[i]].memberId == e.memberId { ziel := Some(kandidaten[i]); }
    }
    if ziel.Some? {
      assert ziel.value in Passend(ms, e);
      assert Minimum(Passend(ms, e)) in kandidaten;
    } else {
      assert Passend(ms, e) == {};
      if kandidaten != [] {
        ziel := Some(kandidaten[0]);
        assert kandidaten[0] in kandidaten && kandidaten[0] in Trupp(ms, e.trupp);
        assert Minimum(Trupp(ms, e.trupp)) in kandidaten;
      } else {
        assert Trupp(ms, e.trupp) == {};
      }
    }
  }

  /** The entries in the order of `ORDER BY ts, id`. */
  method OrderByTs(es: map<nat, Eintrag>) returns (ids: seq<nat>)
    ensures forall l :: l in ids <==> l in es
    ensures forall i, j :: 0 <= i < j < |ids| ==> Frueher(es, ids[i], ids[j])
  {
    ids := [];
    var rest := es.Keys;
    while rest != {}
      invariant rest <= es.Keys
      invariant forall l :: l in ids <==> l in es && l !in rest
      invariant forall i, j :: 0 <= i < j < |ids| ==> Frueher(es, ids[i], ids[j])
      invariant forall k, l :: k in ids && l in rest ==> Frueher(es, k, l)
      decreases rest
    {
      var erster := ErsterEintrag(es, rest);
      assert forall i :: 0 <= i < |ids| ==> ids[i] in ids;
      ids := ids + [erster];
      rest := rest - {erster};
    }
  }

  method ErsterEintrag(es: map<nat, Eintrag>, s: set<nat>) returns (erster: nat)
    requires s != {} && s <= es.Keys
    ensures erster in s && forall l :: l in s && l != erster ==> Frueher(es, erster, l)
  {
    erster :| erster in s;
    var rest := s - {erster};
    while rest != {}
      invariant rest <= s && erster in s && erster !in rest
      invariant forall l :: l in s && l !in rest && l != erster ==> Frueher(es, erster, l)
      decreases rest
    {
      var l :| l in rest;
      if Frueher(es, l, erster) { erster := l; }
      rest := rest - {l};
    }
  }

  // ---------------------------------------------------------------- the tables

  function MitStartdruck(ms: map<nat, Mitglied>): map<nat, Mitglied> {
    map m | m in ms :: ms[m].(druck := ms[m].startdruck)
  }

  /** The replay has reached exactly the entries `ls`. */
  ghost predicate Nachgespielt(ms: map<nat, Mitglied>, es: map<nat, Eintrag>, ls: set<nat>, ms': map<nat, Mitglied>,
                               es': map<nat, Eintrag>)
    requires ls <= es.Keys
  {
    && ms'.Keys == ms.Keys && es'.Keys == es.Keys
    && (forall m {:trigger ms'[m]} :: m in ms ==>
        ms'[m] == ms[m].(druck := ms'[m].druck) && LetzterDruck(ms, es, ls, m, ms'[m].druck))
    && (forall l {:trigger es'[l]} :: l in es ==> es'[l] == if l in ls then es[l].(ziel := Ziel(ms, es[l])) else es[l])
  }

  ghost predicate IstListe(ms: map<nat, Mitglied>, t: nat, ids: seq<nat>) {
    Aufsteigend(ids) && forall m :: m in ids <==> m in ms && ms[m].trupp == t
  }

  ghost predicate IstNachTrupp(ms: map<nat, Mitglied>, trupps: map<nat, seq<nat>>) {
    && (forall m {:trigger ms[m]} :: m in ms ==> ms[m].trupp in trupps)
    && (forall t {:trigger trupps[t]} :: t in trupps ==> IstListe(ms, t, trupps[t]))
  }

  /** `by_troop`: the members of each troop that has any, in id order. */
  method NachTrupp(ms: map<nat, Mitglied>) returns (trupps: map<nat, seq<nat>>)
    ensures IstNachTrupp(ms, trupps)
  {
    var ids := OrderById(ms);
    trupps := Gruppiere(ids, TruppVon(ms));
    forall t | t in trupps
      ensures IstListe(ms, t, trupps[t])
    {
      GruppeAufsteigend(ids, TruppVon(ms), t);
      hide Gruppe, Aufsteigend;
    }
    forall m | m in ms
      ensures ms[m].trupp in trupps
    {
      assert m in ids && TruppVon(ms)(m) == Some(ms[m].trupp);
      hide *;
    }
    hide *;
    assert IstNachTrupp(ms, trupps);
  }

  function TruppVon(ms: map<nat, Mitglied>): nat -> Option<nat> {
    (m: nat) => if m in ms then Some(ms[m].trupp) else None
  }

  lemma {:induction false} GruppeAufsteigend(ids: seq<nat>, schluessel: nat -> Option<nat>, k: nat)
    requires Aufsteigend(ids)
    ensures Aufsteigend(Gruppe(ids, schluessel, k))
  {
    if ids != [] {
      var vorn := Gruppe(ids[..|ids| - 1], schluessel, k);
      GruppeAufsteigend(ids[..|ids| - 1], schluessel, k);
      assert forall i :: 0 <= i < |vorn| ==> vorn[i] in vorn;
    }
  }

  /** Everything the code looks up, in the order it does. */
  ghost predicate IstReihenfolge(es: map<nat, Eintrag>, ids: seq<nat>) {
    (forall l :: l in ids <==> l in es) && forall i, j :: 0 <= i < j < |ids| ==> Frueher(es, ids[i], ids[j])
  }

  /** What one round does to the replay. */
  lemma EintragNachgespielt(ms: map<nat, Mitglied>, es: map<nat, Eintrag>, ls: set<nat>, ms': map<nat, Mitglied>,
                            es': map<nat, Eintrag>, l: nat, z: nat)
    requires ls <= es.Keys && l in es && l !in ls && (forall k :: k in ls ==> Frueher(es, k, l))
    requires Nachgespielt(ms, es, ls, ms', es') && Ziel(ms, es[l]) == Some(z)
    ensures z in ms' && l in es' && es'[l] == es[l]
    ensures Nachgespielt(ms, es, ls + {l}, ms'[z := ms'[z].(druck := Some(es[l].bar))],
                         es'[l := es[l].(ziel := Some(z))])
  {
    ZielImEigenenTrupp(ms, es[l]);
    var ms2 := ms'[z := ms'[z].(druck := Some(es[l].bar))];
    hide Ziel, Frueher, LetzterDruck;
    forall m | m in ms
      ensures LetzterDruck(ms, es, ls + {l}, m, ms2[m].druck)
    {
      EinEintragMehr(ms, es, ls, l, m, ms'[m].druck);
    }
  }

  lemma GleicheTrupps(ms: map<nat, Mitglied>, trupps: map<nat, seq<nat>>, z: nat, p: Option<real>)
    requires z in ms && IstNachTrupp(ms, trupps)
    ensures IstNachTrupp(ms[z := ms[z].(druck := p)], trupps)
  {
    var ms' := ms[z := ms[z].(druck := p)];
    forall t | t in trupps
      ensures IstListe(ms', t, trupps[t])
    {
      assert IstListe(ms, t, trupps[t]);
    }
    hide IstListe;
    assert forall m :: m in ms' ==> ms'[m].trupp == ms[m].trupp;
  }

  // ---------------------------------------------------------------- the promise in terms of the columns

  /** Every entry has a member of its troop: the first with its `member_id`, or the first when none has it. */
  ghost predicate EintraegeVerteilt(ms: map<nat, Mitglied>, es: map<nat, Eintrag>, es': map<nat, Eintrag>) {
    && es'.Keys == es.Keys
    && forall l {:trigger es'[l]} :: l in es ==>
         es'[l] == es[l].(ziel := es'[l].ziel) && es'[l].ziel.Some? && ZielGenau(ms, es[l], es'[l].ziel.value)
  }

  /** Each member's pressure is that of its last entry by time and id, or its start pressure; nothing else changes. */
  ghost predicate DrueckeRichtig(ms: map<nat, Mitglied>, es': map<nat, Eintrag>, ms': map<nat, Mitglied>) {
    && ms'.Keys == ms.Keys
    && forall m {:trigger ms'[m]} :: m in ms ==>
         ms'[m] == ms[m].(druck := ms'[m].druck) && MitgliedRichtig(ms, es', ms', m)
  }

  ghost predicate MitgliedRichtig(ms: map<nat, Mitglied>, es': map<nat, Eintrag>, ms': map<nat, Mitglied>, m: nat)
    requires m in ms && m in ms'
  {
    && ((forall l :: l in es' ==> es'[l].ziel != Some(m)) ==> ms'[m].druck == ms[m].startdruck)
    && ((exists l :: l in es' && es'[l].ziel == Some(m)) ==>
        exists l :: IstLetzterVon(es', m, l) && ms'[m].druck == Some(es'[l].bar))
  }

  ghost predicate IstLetzterVon(es': map<nat, Eintrag>, m: nat, l: nat) {
    && l in es' && es'[l].ziel == Some(m)
    && forall k :: k in es' && es'[k].ziel == Some(m) && k != l ==>
      es'[k].ts < es'[l].ts || (es'[k].ts == es'[l].ts && k < l)
  }

  lemma ReplayGenau(ms: map<nat, Mitglied>, es: map<nat, Eintrag>, ms': map<nat, Mitglied>, es': map<nat, Eintrag>)
    requires Nachgespielt(ms, es, es.Keys, ms', es') && forall l :: l in es ==> Ziel(ms, es[l]).Some?
    ensures EintraegeVerteilt(ms, es, es') && DrueckeRichtig(ms, es', ms')
  {
    VerteilungGenau(ms, es, ms', es');
    forall m | m in ms
      ensures MitgliedRichtig(ms, es', ms', m)
    {
      DruckGenau(ms, es, ms', es', m);
      hide MitgliedRichtig, Ziel;
    }
    hide MitgliedRichtig, Ziel, EintraegeVerteilt;
  }

  lemma VerteilungGenau(ms: map<nat, Mitglied>, es: map<nat, Eintrag>, ms': map<nat, Mitglied>, es': map<nat, Eintrag>)
    requires Nachgespielt(ms, es, es.Keys, ms', es') && forall l :: l in es ==> Ziel(ms, es[l]).Some?
    ensures EintraegeVerteilt(ms, es, es')
  {
    forall l {:trigger es'[l]} | l in es
      ensures es'[l] == es[l].(ziel := es'[l].ziel) && es'[l].ziel.Some? && ZielGenau(ms, es[l], es'[l].ziel.value)
    {
      ZielIstErstes(ms, es[l]);
      hide ZielGenau, Ziel;
    }
    hide Nachgespielt, Ziel;
  }

  ghost predicate ZielGenau(ms: map<nat, Mitglied>, e: Eintrag, z: nat) {
    && z in ms && ms[z].trupp == e.trupp
    && (if exists m :: m in ms && ms[m].trupp == e.trupp && ms[m].memberId == e.memberId
        then (&& ms[z].memberId == e.memberId
              && forall m :: m in ms && ms[m].trupp == e.trupp && ms[m].memberId == e.memberId ==> z <= m)
        else forall m :: m in ms && ms[m].trupp == e.trupp ==> z <= m)
  }

  lemma ZielIstErstes(ms: map<nat, Mitglied>, e: Eintrag)
    requires Ziel(ms, e).Some?
    ensures ZielGenau(ms, e, Ziel(ms, e).value)
  {
    forall m | m in ms && ms[m].trupp == e.trupp
      ensures m in Trupp(ms, e.trupp) && (ms[m].memberId == e.memberId ==> m in Passend(ms, e))
    {
    }
  }

  lemma DruckGenau(ms: map<nat, Mitglied>, es: map<nat, Eintrag>, ms': map<nat, Mitglied>, es': map<nat, Eintrag>,
                   m: nat)
    requires Nachgespielt(ms, es, es.Keys, ms', es') && m in ms
    ensures MitgliedRichtig(ms, es', ms', m)
  {
    assert LetzterDruck(ms, es, es.Keys, m, ms'[m].druck);
    hide Ziel;
    forall l
      ensures GehtAn(ms, es, l, m) <==> l in es' && es'[l].ziel == Some(m)
    {
    }
    if l :| l in es && GehtAn(ms, es, l, m) && ms'[m].druck == Some(es[l].bar) && IstLetzter(ms, es, es.Keys, m, l) {
      assert IstLetzterVon(es', m, l);
    }
  }

  class Atemschutz {
    var mitglieder: map<nat, Mitglied>
    var protokoll: map<nat, Eintrag>

    /** `upgrade`; the result names the entry of the RuntimeError, which rolls the replay back. */
    method Upgrade() returns (fehler: Option<nat>)
      modifies this
      ensures fehler.None? <==> forall l :: l in old(protokoll) ==> Ziel(old(mitglieder), old(protokoll)[l]).Some?
      ensures fehler.None? ==> Nachgespielt(old(mitglieder), old(protokoll), old(protokoll).Keys, mitglieder, protokoll)
      ensures fehler.None? ==> EintraegeVerteilt(old(mitglieder), old(protokoll), protokoll)
      ensures fehler.None? ==> DrueckeRichtig(old(mitglieder), protokoll, mitglieder)
      ensures fehler.Some? ==> mitglieder == MitStartdruck(old(mitglieder)) && protokoll == old(protokoll)
      ensures fehler.Some? ==>
        fehler.value in old(protokoll) && Ziel(old(mitglieder), old(protokoll)[fehler.value]).None?
      ensures fehler.Some? ==> forall l :: l in old(protokoll) && Frueher(old(protokoll), l, fehler.value) ==>
        Ziel(old(mitglieder), old(protokoll)[l]).Some?
    {
      ghost var ms, es := mitglieder, protokoll;
      mitglieder := MitStartdruck(mitglieder);
      var gesichert, eintraege := mitglieder, protokoll;
      var trupps := NachTrupp(mitglieder);
      var ids := OrderByTs(protokoll);
      fehler := SpieleNach(ids, trupps, ms, protokoll);
      if fehler.Some? {
        mitglieder, protokoll := gesichert, eintraege;
      } else {
        ReplayGenau(ms, es, mitglieder, protokoll);
      }
    }

    /** The loop over the entries; stops at the first one without a member. */
    method SpieleNach(ids: seq<nat>, trupps: map<nat, seq<nat>>, ghost ms: map<nat, Mitglied>,
                      ghost es: map<nat, Eintrag>) returns (fehler: Option<nat>)
      requires IstReihenfolge(es, ids) && IstNachTrupp(mitglieder, trupps) &&
               Nachgespielt(ms, es, {}, mitglieder, protokoll)
      modifies this
      ensures fehler.None? ==> Nachgespielt(ms, es, es.Keys, mitglieder, protokoll)
      ensures fehler.None? ==> forall l :: l in es ==> Ziel(ms, es[l]).Some?
      ensures fehler.Some? ==> fehler.value in es && Ziel(ms, es[fehler.value]).None?
      ensures fehler.Some? ==> forall l :: l in es && Frueher(es, l, fehler.value) ==> Ziel(ms, es[l]).Some?
    {
      ghost var ls: set<nat> := {};
      hide Ziel, Nachgespielt, IstNachTrupp;
      for i := 0 to |ids|
        invariant ls == set j | 0 <= j < i :: ids[j]
        invariant ls <= es.Keys && Nachgespielt(ms, es, ls, mitglieder, protokoll) && IstNachTrupp(mitglieder, trupps)
        invariant forall l :: l in ls ==> Ziel(ms, es[l]).Some?
      {
        assert ids[i] in ids;
        var getroffen := Trage(ids[i], trupps, ms, es, ls);
        if !getroffen {
          assert forall l :: l in es && Frueher(es, l, ids[i]) ==> l in ls by {
            forall l | l in es && Frueher(es, l, ids[i])
              ensures l in ls
            {
              assert l in ids;
            }
          }
          return Some(ids[i]);
        }
        ls := ls + {ids[i]};
      }
      assert forall l :: l in es ==> l in ids;
      assert ls == es.Keys;
      fehler := None;
    }

    /** One round of the loop. */
    method Trage(l: nat, trupps: map<nat, seq<nat>>, ghost ms: map<nat, Mitglied>, ghost es: map<nat, Eintrag>,
                 ghost ls: set<nat>) returns (getroffen: bool)
      requires ls <= es.Keys && l in es && l !in ls && (forall k :: k in ls ==> Frueher(es, k, l))
      requires Nachgespielt(ms, es, ls, mitglieder, protokoll) && IstNachTrupp(mitglieder, trupps)
      modifies this
      ensures getroffen == Ziel(ms, es[l]).Some?
      ensures getroffen ==> Nachgespielt(ms, es, ls + {l}, mitglieder, protokoll) && IstNachTrupp(mitglieder, trupps)
    {
      var e := protokoll[l];
      assert e == es[l];
      var kandidaten := if e.trupp in trupps then trupps[e.trupp] else [];
      var ziel := WaehleZiel(mitglieder, kandidaten, e);
      GleichesZiel(ms, mitglieder, e);
      if ziel.None? { return false; }
      EintragNachgespielt(ms, es, ls, mitglieder, protokoll, l, ziel.value);
      GleicheTrupps(mitglieder, trupps, ziel.value, Some(e.bar));
      hide *;
      protokoll := protokoll[l := e.(ziel := ziel)];
      mitglieder := mitglieder[ziel.value := mitglieder[ziel.value].(druck := Some(e.bar))];
      getroffen := true;
    }
  }

  /** The choice reads only the troop and the `member_id` of the members. */
  lemma GleichesZiel(ms: map<nat, Mitglied>, ms': map<nat, Mitglied>, e: Eintrag)
    requires ms.Keys == ms'.Keys && forall m {:trigger ms'[m]} :: m in ms ==> ms'[m] == ms[m].(druck := ms'[m].druck)
    ensures Ziel(ms, e) == Ziel(ms', e)
  {
    assert Passend(ms, e) == Passend(ms', e);
    assert Trupp(ms, e.trupp) == Trupp(ms', e.trupp);
  }
}
