/** The two concrete upgrades as plans of check-then-alter steps, in the order of the code. */
module Schemaplaene {
  import opened Schemalauf

  /** The columns of an existing table, one by one. */
  function Spalten(t: string, cs: seq<string>): (plan: seq<Schritt>)
    ensures |plan| == |cs| && forall i :: 0 <= i < |plan| ==> plan[i] == Spalte(t, cs[i])
  {
    if cs == [] then [] else [Spalte(t, cs[0])] + Spalten(t, cs[1..])
  }

  /** `_tabelle_und_spalten`: create the table whole, or add what it lacks. */
  function TabelleUndSpalten(t: string, cs: seq<string>): seq<Schritt> {
    [Anlegen(t, cs)] + Spalten(t, cs)
  }

  const STATUS_SPALTEN: seq<string> := [
    "id", "org_id", "key", "state", "since", "down_since", "last_ok_at", "last_error", "fail_cycles", "ok_cycles",
    "last_probe_at", "last_probe_ok", "last_probe_error", "outage_notified_at", "last_repeat_at"]
  const LOG_SPALTEN: seq<string> := [
    "id", "org_id", "key", "state", "kanal", "empfaenger", "betreff", "status", "fehlertext", "payload_excerpt",
    "gesendet_am"]
  const TOKEN_SPALTEN: seq<string> := [
    "id", "token_hash", "label", "org_id", "created_at", "last_used_at", "expires_at", "revoked_at"]
  const ORG_SPALTEN: seq<string> := [
    "dienst_monitor_enabled", "dienst_monitor_mail", "dienst_monitor_teams_webhook_url", "dienst_monitor_sms", KARENZ,
    "dienst_monitor_wiederholung_min"]

  function Indizes0228(): seq<Schritt> {
    [Indizieren("dienst_status", "ix_dienst_status_org_id", Index(["org_id"], false)),
     Indizieren("dienst_status", "uq_dienst_status_org_key", Index(["org_id", "key"], true)),
     Indizieren("dienst_monitor_log", "ix_dienst_monitor_log_org_id", Index(["org_id"], false)),
     Indizieren("dienst_monitor_log", "ix_dienst_monitor_log_org_gesendet", Index(["org_id", "gesendet_am"], false)),
     Indizieren("dienst_monitor_token", "uq_dienst_monitor_token_hash", Index(["token_hash"], true))]
  }

  /** The steps between the new tables and the two old columns. */
  function Neues0228(): seq<Schritt> {
    Indizes0228() + Spalten("org_settings", ORG_SPALTEN) + [Spalte("sms_gateway_token", "last_heartbeat_at")]
  }

  function Rest0228(): seq<Schritt> {
    Neues0228() + [Uebernehmen("org_settings", ALARM), Weg("gateway", "offline_alerted_at")]
  }

  function Plan0228(): seq<Schritt> {
    TabelleUndSpalten("dienst_status", STATUS_SPALTEN) +
    (TabelleUndSpalten("dienst_monitor_log", LOG_SPALTEN) +
     (TabelleUndSpalten("dienst_monitor_token", TOKEN_SPALTEN) + Rest0228()))
  }

  const MESSAGE_SPALTEN: seq<string> := [
    "id", "org_id", "api_key_id", "external_key", "kanal", "betreff", "body_text", "body_html", "status",
    "recipient_count", "success_count", "failed_count", "created_at", "started_at", "completed_at", "error_message",
    "sms_log_id"]
  const RECIPIENT_SPALTEN: seq<string> := [
    "id", "org_id", "message_id", "ziel", "name", "member_id", "status", "provider", "error_message", "attempt_count",
    "max_attempts", "next_attempt_at", "sent_at"]

  function Indizes0229(): seq<Schritt> {
    [Indizieren("api_message", "uq_api_message_org_kanal_key", Index(["org_id", "kanal", "external_key"], true)),
     Indizieren("api_message", "ix_api_message_org_status_id", Index(["org_id", "status", "id"], false)),
     Indizieren("api_message_recipient", "ix_api_message_recipient_message_id", Index(["message_id"], false)),
     Indizieren("api_message_recipient", "ix_api_message_recipient_dispatch",
                Index(["status", "next_attempt_at"], false))]
  }

  function Plan0229(): seq<Schritt> {
    [Spalte("api_key", "scopes")] +
    (TabelleUndSpalten("api_message", MESSAGE_SPALTEN) +
     (TabelleUndSpalten("api_message_recipient", RECIPIENT_SPALTEN) + Indizes0229()))
  }

  // ---------------------------------------------------------------- the plans are sound

  /** Only these two columns are ever dropped; a plan that adds neither is consistent. */
  ghost predicate Harmlos(a: Schritt) {
    && !Fuegt(a, "org_settings", ALARM) && !Fuegt(a, "gateway", "offline_alerted_at")
    && (a.Uebernehmen? ==> a == Uebernehmen("org_settings", ALARM))
    && (a.Weg? ==> a == Weg("gateway", "offline_alerted_at"))
  }

  lemma HarmloseVertragenSich(plan: seq<Schritt>)
    requires forall a :: a in plan ==> Harmlos(a)
    ensures Vertraeglich(plan)
  {
  }

  lemma TabelleHarmlos(t: string, cs: seq<string>)
    requires t != "org_settings" && t != "gateway"
    ensures forall a :: a in TabelleUndSpalten(t, cs) ==> Harmlos(a)
  {
  }

  lemma OrgSpaltenHarmlos()
    ensures forall a :: a in Spalten("org_settings", ORG_SPALTEN) ==> Harmlos(a)
  {
    forall c | c in ORG_SPALTEN
      ensures c != "gateway_offline_alert_min"
    {
      assert c[0] == 'd' by {
        var i :| 0 <= i < |ORG_SPALTEN| && ORG_SPALTEN[i] == c;
      }
      assert "gateway_offline_alert_min"[0] == 'g';
    }
  }

  lemma {:induction false} GeordnetVerkettet(p: seq<Schritt>, q: seq<Schritt>, vorhanden: set<string>)
    requires Geordnet(p, vorhanden) && Geordnet(q, vorhanden + set a | a in p :: a.tab)
    ensures Geordnet(p + q, vorhanden)
    decreases |p|
  {
    if p == [] {
      assert p + q == q && vorhanden + (set a | a in p :: a.tab) == vorhanden;
    } else {
      assert p == [p[0]] + p[1..] && (p + q)[1..] == p[1..] + q;
      assert vorhanden + {p[0].tab} + (set a | a in p[1..] :: a.tab) == vorhanden + set a | a in p :: a.tab;
      GeordnetVerkettet(p[1..], q, vorhanden + {p[0].tab});
    }
  }

  /** Steps on tables that are all there are in order. */
  lemma {:induction false} AufVorhandenen(plan: seq<Schritt>, vorhanden: set<string>)
    requires forall a :: a in plan ==> a.tab in vorhanden
    ensures Geordnet(plan, vorhanden)
    decreases |plan|
  {
    if plan != [] {
      assert plan[0] in plan;
      AufVorhandenen(plan[1..], vorhanden + {plan[0].tab});
    }
  }

  lemma TabelleGeordnet(t: string, cs: seq<string>, vorhanden: set<string>)
    ensures Geordnet(TabelleUndSpalten(t, cs), vorhanden)
    ensures (set a | a in TabelleUndSpalten(t, cs) :: a.tab) == {t}
  {
    var p := TabelleUndSpalten(t, cs);
    assert p[1..] == Spalten(t, cs) && p[0] in p;
    AufVorhandenen(Spalten(t, cs), vorhanden + {t});
  }

  /** A table with its columns in front of steps that are in order once it exists. */
  lemma TabelleVorn(t: string, cs: seq<string>, rest: seq<Schritt>, vorhanden: set<string>)
    requires t != "org_settings" && t != "gateway"
    requires Geordnet(rest, vorhanden + {t}) && forall a :: a in rest ==> Harmlos(a)
    ensures Geordnet(TabelleUndSpalten(t, cs) + rest, vorhanden)
    ensures forall a :: a in TabelleUndSpalten(t, cs) + rest ==> Harmlos(a)
  {
    TabelleHarmlos(t, cs);
    TabelleGeordnet(t, cs, vorhanden);
    hide Geordnet, Harmlos, TabelleUndSpalten;
    GeordnetVerkettet(TabelleUndSpalten(t, cs), rest, vorhanden);
  }

  lemma Rest0228Gut(vorhanden: set<string>)
    requires {"org_settings", "sms_gateway_token", "gateway", "dienst_status", "dienst_monitor_log",
              "dienst_monitor_token"} <= vorhanden
    ensures Geordnet(Rest0228(), vorhanden) && forall s :: s in Rest0228() ==> Harmlos(s)
  {
    OrgSpaltenHarmlos();
    AufVorhandenen(Rest0228(), vorhanden);
  }

  lemma Plan0228Gut(vorhanden: set<string>)
    requires {"org_settings", "sms_gateway_token", "gateway"} <= vorhanden
    ensures Vertraeglich(Plan0228()) && Geordnet(Plan0228(), vorhanden)
  {
    var v1 := vorhanden + {"dienst_status"};
    var v2 := v1 + {"dienst_monitor_log"};
    var v3 := v2 + {"dienst_monitor_token"};
    Rest0228Gut(v3);
    hide Geordnet, Harmlos, TabelleUndSpalten, Rest0228, Vertraeglich;
    TabelleVorn("dienst_monitor_token", TOKEN_SPALTEN, Rest0228(), v2);
    var ab2 := TabelleUndSpalten("dienst_monitor_token", TOKEN_SPALTEN) + Rest0228();
    TabelleVorn("dienst_monitor_log", LOG_SPALTEN, ab2, v1);
    TabelleVorn("dienst_status", STATUS_SPALTEN, TabelleUndSpalten("dienst_monitor_log", LOG_SPALTEN) + ab2, vorhanden);
    HarmloseVertragenSich(Plan0228());
  }

  lemma Rest0229Gut(vorhanden: set<string>)
    requires {"api_message", "api_message_recipient"} <= vorhanden
    ensures Geordnet(Indizes0229(), vorhanden) && forall s :: s in Indizes0229() ==> Harmlos(s)
  {
    AufVorhandenen(Indizes0229(), vorhanden);
  }

  lemma KopfGut(vorhanden: set<string>)
    requires "api_key" in vorhanden
    ensures Geordnet([Spalte("api_key", "scopes")], vorhanden) && Harmlos(Spalte("api_key", "scopes"))
    ensures vorhanden + (set s | s in [Spalte("api_key", "scopes")] :: s.tab) == vorhanden
  {
    AufVorhandenen([Spalte("api_key", "scopes")], vorhanden);
  }

  lemma Plan0229Gut(vorhanden: set<string>)
    requires "api_key" in vorhanden
    ensures Vertraeglich(Plan0229()) && Geordnet(Plan0229(), vorhanden)
  {
    var kopf := Spalte("api_key", "scopes");
    var v1 := vorhanden + {"api_message"};
    var v2 := v1 + {"api_message_recipient"};
    Rest0229Gut(v2);
    KopfGut(vorhanden);
    hide Geordnet, Harmlos, TabelleUndSpalten, Indizes0229, Vertraeglich;
    var ab2 := TabelleUndSpalten("api_message_recipient", RECIPIENT_SPALTEN) + Indizes0229();
    TabelleVorn("api_message_recipient", RECIPIENT_SPALTEN, Indizes0229(), v1);
    TabelleVorn("api_message", MESSAGE_SPALTEN, ab2, vorhanden);
    GeordnetVerkettet([kopf], TabelleUndSpalten("api_message", MESSAGE_SPALTEN) + ab2, vorhanden);
    HarmloseVertragenSich(Plan0229());
  }

  // ---------------------------------------------------------------- 0228 and 0229 resume

  /**
   * 0228 cut off after any DDL statement and run again: the same tables, columns, indexes and grace periods; a third
   * run is empty.
   */
  lemma DienstMonitorWiederaufsetzbar(s: Schema, n: nat, halb: bool, m: nat)
    requires {"org_settings", "sms_gateway_token", "gateway"} <= s.tabellen.Keys
    ensures Geordnet(Plan0228(), s.tabellen.Keys) && Geordnet(Plan0228(), Lauf(s, Plan0228(), n, halb).tabellen.Keys)
    ensures Ganz(Lauf(s, Plan0228(), n, halb), Plan0228()) == Ganz(s, Plan0228())
    ensures Geordnet(Plan0228(), Ganz(s, Plan0228()).tabellen.Keys) &&
            Lauf(Ganz(s, Plan0228()), Plan0228(), m, halb) == Ganz(s, Plan0228())
  {
    hide Plan0228, Geordnet, Vertraeglich;
    Plan0228Gut(s.tabellen.Keys);
    WiederaufsetzbarUeberall(s, Plan0228(), n, halb);
    NochmalIstLeer(s, Plan0228(), m, halb);
  }

  /** 0229 likewise. */
  lemma NachrichtenApiWiederaufsetzbar(s: Schema, n: nat, halb: bool, m: nat)
    requires "api_key" in s.tabellen
    ensures Geordnet(Plan0229(), s.tabellen.Keys) && Geordnet(Plan0229(), Lauf(s, Plan0229(), n, halb).tabellen.Keys)
    ensures Ganz(Lauf(s, Plan0229(), n, halb), Plan0229()) == Ganz(s, Plan0229())
    ensures Geordnet(Plan0229(), Ganz(s, Plan0229()).tabellen.Keys) &&
            Lauf(Ganz(s, Plan0229()), Plan0229(), m, halb) == Ganz(s, Plan0229())
  {
    hide Plan0229, Geordnet, Vertraeglich;
    Plan0229Gut(s.tabellen.Keys);
    WiederaufsetzbarUeberall(s, Plan0229(), n, halb);
    NochmalIstLeer(s, Plan0229(), m, halb);
  }

  // ---------------------------------------------------------------- the grace periods after 0228

  lemma FerneTabelle(t: string, cs: seq<string>)
    requires t != "org_settings" && forall c :: c in cs ==> |c| < |KARENZ|
    ensures forall a :: a in TabelleUndSpalten(t, cs) ==> FernVonKarenz(a)
  {
  }

  /**
   * 0228 cut off after any DDL statement and run again leaves in every `org_settings` row the grace period `Karenz`
   * names.
   */
  lemma KarenzUebernommen(s: Schema, n: nat, halb: bool)
    requires {"org_settings", "sms_gateway_token", "gateway"} <= s.tabellen.Keys
    ensures Geordnet(Plan0228(), s.tabellen.Keys) && Geordnet(Plan0228(), Lauf(s, Plan0228(), n, halb).tabellen.Keys)
    ensures var r := Ganz(Lauf(s, Plan0228(), n, halb), Plan0228());
      r.karenz.Keys == s.karenz.Keys && HatSpalte(r, KARENZ) && !HatSpalte(r, ALARM) &&
      forall i :: i in s.karenz ==> r.karenz[i] == Karenz(s, i)
  {
    DienstMonitorWiederaufsetzbar(s, n, halb, n);
    Zerlegt0228();
    hide *;
    KarenzRichtig(s, Vor0228(), Mitte0228(), [Weg("gateway", "offline_alerted_at")]);
  }

  function Vor0228(): seq<Schritt> {
    TabelleUndSpalten("dienst_status", STATUS_SPALTEN) + TabelleUndSpalten("dienst_monitor_log", LOG_SPALTEN) +
    TabelleUndSpalten("dienst_monitor_token", TOKEN_SPALTEN) + Indizes0228() + Spalten("org_settings", ORG_SPALTEN[..4])
  }

  function Mitte0228(): seq<Schritt> {
    [Spalte("org_settings", ORG_SPALTEN[5]), Spalte("sms_gateway_token", "last_heartbeat_at")]
  }

  lemma Zerlegt0228()
    ensures Plan0228() ==
            Vor0228() + ([Spalte("org_settings", KARENZ)] +
                         (Mitte0228() +
                          ([Uebernehmen("org_settings", ALARM)] + [Weg("gateway", "offline_alerted_at")])))
    ensures forall a :: a in Vor0228() || a in Mitte0228() || a in [Weg("gateway", "offline_alerted_at")] ==>
      FernVonKarenz(a)
  {
    OrgSpaltenZerlegt();
    FerneIndizes();
    FerneSpalten();
    FerneStatus();
    FernesLog();
    FerneTokens();
    hide TabelleUndSpalten, Indizes0228, FernVonKarenz, Spalten;
  }

  lemma FerneStatus()
    ensures forall a :: a in TabelleUndSpalten("dienst_status", STATUS_SPALTEN) ==> FernVonKarenz(a)
  {
    FerneTabelle("dienst_status", STATUS_SPALTEN);
  }

  lemma FernesLog()
    ensures forall a :: a in TabelleUndSpalten("dienst_monitor_log", LOG_SPALTEN) ==> FernVonKarenz(a)
  {
    FerneTabelle("dienst_monitor_log", LOG_SPALTEN);
  }

  lemma FerneTokens()
    ensures forall a :: a in TabelleUndSpalten("dienst_monitor_token", TOKEN_SPALTEN) ==> FernVonKarenz(a)
  {
    FerneTabelle("dienst_monitor_token", TOKEN_SPALTEN);
  }

  lemma OrgSpaltenZerlegt()
    ensures Spalten("org_settings", ORG_SPALTEN) ==
            Spalten("org_settings", ORG_SPALTEN[..4]) +
            [Spalte("org_settings", KARENZ), Spalte("org_settings", ORG_SPALTEN[5])]
  {
  }

  lemma FerneIndizes()
    ensures forall a :: a in Indizes0228() ==> FernVonKarenz(a)
  {
  }

  lemma FerneSpalten()
    ensures forall a :: a in Spalten("org_settings", ORG_SPALTEN[..4]) || a in Mitte0228() ==> FernVonKarenz(a)
    ensures FernVonKarenz(Weg("gateway", "offline_alerted_at"))
  {
  }

  // ---------------------------------------------------------------- the finished schemas

  function Menge(cs: seq<string>): set<string> {
    set c | c in cs
  }

  /** The steps of a plan on table `t` are those of `TabelleUndSpalten`, and index steps. */
  ghost predicate NurDieseTabelle(plan: seq<Schritt>, t: string, cs: seq<string>) {
    && (forall a :: a in TabelleUndSpalten(t, cs) ==> a in plan)
    && (forall a :: a in plan && a.tab == t ==> a in TabelleUndSpalten(t, cs) || a.Indizieren?)
  }

  lemma NeueTabelle(s: Schema, plan: seq<Schritt>, t: string, cs: seq<string>)
    requires Vertraeglich(plan) && Geordnet(plan, s.tabellen.Keys) && NurDieseTabelle(plan, t, cs)
    ensures SpaltenGenau(s, Ganz(s, plan), t, Menge(cs), {})
  {
    var tus := TabelleUndSpalten(t, cs);
    hide Geordnet, Ganz, SpaltenGenau;
    assert tus[0] in tus && tus[0] == Anlegen(t, cs);
    assert WirdAngelegt(plan, t);
    forall c
      ensures c in Menge(cs) <==> WirdHinzugefuegt(plan, t, c)
      ensures c in Menge(cs) ==> Spalte(t, c) in plan
    {
      if c in cs {
        var i :| 0 <= i < |cs| && cs[i] == c;
        assert tus[i + 1] == Spalte(t, c) && tus[i + 1] in tus;
        assert Fuegt(Spalte(t, c), t, c);
      }
      if WirdHinzugefuegt(plan, t, c) {
        var a :| a in plan && Fuegt(a, t, c);
        assert a in tus;
      }
    }
    hide Vertraeglich, NurDieseTabelle, WirdHinzugefuegt;
    forall c
      ensures !WirdEntfernt(plan, t, c)
    {
      NichtsWeg(plan, t, cs, c);
    }
    SpaltenNachher(s, plan, t, Menge(cs), {});
  }

  lemma NichtsWeg(plan: seq<Schritt>, t: string, cs: seq<string>, c: string)
    requires NurDieseTabelle(plan, t, cs)
    ensures !WirdEntfernt(plan, t, c)
  {
    forall a | a in plan && a.tab == t
      ensures a.Anlegen? || a.Spalte? || a.Indizieren?
    {
    }
  }

  /** The steps of a plan on table `t` are columns to add and columns to drop. */
  ghost predicate NurDieseSpalten(plan: seq<Schritt>, t: string, neu: set<string>, weg: set<string>) {
    && (forall c :: c in neu ==> Spalte(t, c) in plan)
    && (forall c :: c in weg ==> Weg(t, c) in plan || Uebernehmen(t, c) in plan)
    && (forall a :: a in plan && a.tab == t ==>
          (a.Spalte? && a.spalte in neu) || ((a.Weg? || a.Uebernehmen?) && a.spalte in weg))
  }

  lemma GeaenderteTabelle(s: Schema, plan: seq<Schritt>, t: string, neu: set<string>, weg: set<string>)
    requires Vertraeglich(plan) && Geordnet(plan, s.tabellen.Keys) && NurDieseSpalten(plan, t, neu, weg) &&
             t in s.tabellen
    ensures SpaltenGenau(s, Ganz(s, plan), t, neu, weg) && IndizesGenau(s, Ganz(s, plan), t, map[])
  {
    hide Geordnet, Ganz, SpaltenGenau, IndizesGenau, Vertraeglich;
    forall c
      ensures c in neu <==> WirdHinzugefuegt(plan, t, c)
      ensures c in weg <==> WirdEntfernt(plan, t, c)
    {
      if c in neu { assert Fuegt(Spalte(t, c), t, c); }
      if c in weg {
        assert Entfernt(Weg(t, c), t, c) && Entfernt(Uebernehmen(t, c), t, c);
      }
    }
    SpaltenNachher(s, plan, t, neu, weg);
    IndizesNachher(s, plan, t, map[]);
  }

  /** A table no step names is as it was. */
  lemma AndereTabelle(s: Schema, plan: seq<Schritt>, t: string)
    requires Vertraeglich(plan) && Geordnet(plan, s.tabellen.Keys) && t in s.tabellen && forall a :: a in plan ==>
      a.tab != t
    ensures t in Ganz(s, plan).tabellen && Ganz(s, plan).tabellen[t] == s.tabellen[t]
  {
    assert NurDieseSpalten(plan, t, {}, {});
    GeaenderteTabelle(s, plan, t, {}, {});
    hide Geordnet, Ganz, Vertraeglich;
  }

  /** The table names, told apart by their lengths. */
  lemma NamenVerschieden()
    ensures |"dienst_status"| == 13 && |"dienst_monitor_log"| == 18 && |"dienst_monitor_token"| == 20
    ensures |"org_settings"| == 12 && |"sms_gateway_token"| == 17 && |"gateway"| == 7
    ensures |"api_key"| == 7 && |"api_message"| == 11 && |"api_message_recipient"| == 21
  {
  }

  lemma TabelleDerSchritte(t: string, cs: seq<string>, a: Schritt)
    requires a in TabelleUndSpalten(t, cs)
    ensures a.tab == t
  {
  }

  ghost predicate AnTabelle(a: Schritt, t: string, cs: seq<string>) {
    a.tab == t && (a in TabelleUndSpalten(t, cs) || a.Indizieren?)
  }

  predicate AnOrg(a: Schritt) {
    a.tab == "org_settings" && ((a.Spalte? && a.spalte in ORG_SPALTEN) || a == Uebernehmen("org_settings", ALARM))
  }

  lemma IndexVon0228(a: Schritt)
    requires a in Indizes0228()
    ensures a.Indizieren? &&
            (a.tab == "dienst_status" || a.tab == "dienst_monitor_log" || a.tab == "dienst_monitor_token")
  {
    var i :| 0 <= i < |Indizes0228()| && Indizes0228()[i] == a;
  }

  lemma OrgSchritt(a: Schritt)
    requires a in Spalten("org_settings", ORG_SPALTEN)
    ensures AnOrg(a)
  {
    var i :| 0 <= i < |Spalten("org_settings", ORG_SPALTEN)| && Spalten("org_settings", ORG_SPALTEN)[i] == a;
    assert ORG_SPALTEN[i] in ORG_SPALTEN;
  }

  lemma SchrittVon0228(a: Schritt)
    requires a in Plan0228()
    ensures || AnTabelle(a, "dienst_status", STATUS_SPALTEN) || AnTabelle(a, "dienst_monitor_log", LOG_SPALTEN)
            || AnTabelle(a, "dienst_monitor_token", TOKEN_SPALTEN) || AnOrg(a)
            || a == Spalte("sms_gateway_token", "last_heartbeat_at") || a == Weg("gateway", "offline_alerted_at")
  {
    hide TabelleUndSpalten, Indizes0228, Spalten, STATUS_SPALTEN, LOG_SPALTEN, TOKEN_SPALTEN, ORG_SPALTEN;
    if a in TabelleUndSpalten("dienst_status", STATUS_SPALTEN) {
      TabelleDerSchritte("dienst_status", STATUS_SPALTEN, a);
    } else if a in TabelleUndSpalten("dienst_monitor_log", LOG_SPALTEN) {
      TabelleDerSchritte("dienst_monitor_log", LOG_SPALTEN, a);
    } else if a in TabelleUndSpalten("dienst_monitor_token", TOKEN_SPALTEN) {
      TabelleDerSchritte("dienst_monitor_token", TOKEN_SPALTEN, a);
    } else if a in Indizes0228() {
      IndexVon0228(a);
    } else if a in Spalten("org_settings", ORG_SPALTEN) {
      OrgSchritt(a);
    }
  }

  lemma InPlan0228(a: Schritt)
    requires || a in TabelleUndSpalten("dienst_status", STATUS_SPALTEN) ||
             a in TabelleUndSpalten("dienst_monitor_log", LOG_SPALTEN)
             || a in TabelleUndSpalten("dienst_monitor_token", TOKEN_SPALTEN) || a in Indizes0228()
             || a in Spalten("org_settings", ORG_SPALTEN) || a == Spalte("sms_gateway_token", "last_heartbeat_at")
             || a == Uebernehmen("org_settings", ALARM) || a == Weg("gateway", "offline_alerted_at")
    ensures a in Plan0228()
  {
    hide TabelleUndSpalten, Indizes0228, Spalten;
  }

  lemma TabelleIn0228(t: string, cs: seq<string>)
    requires || (t == "dienst_status" && cs == STATUS_SPALTEN) || (t == "dienst_monitor_log" && cs == LOG_SPALTEN)
             || (t == "dienst_monitor_token" && cs == TOKEN_SPALTEN)
    ensures NurDieseTabelle(Plan0228(), t, cs)
  {
    hide Plan0228, TabelleUndSpalten, Indizes0228, Spalten;
    NamenVerschieden();
    forall a | a in TabelleUndSpalten(t, cs)
      ensures a in Plan0228()
    {
      InPlan0228(a);
    }
    forall a | a in Plan0228() && a.tab == t
      ensures a in TabelleUndSpalten(t, cs) || a.Indizieren?
    {
      SchrittVon0228(a);
    }
  }

  lemma OrgIn0228()
    ensures NurDieseSpalten(Plan0228(), "org_settings", Menge(ORG_SPALTEN), {ALARM})
    ensures NurDieseSpalten(Plan0228(), "sms_gateway_token", {"last_heartbeat_at"}, {})
    ensures NurDieseSpalten(Plan0228(), "gateway", {}, {"offline_alerted_at"})
  {
    NamenVerschieden();
    hide Plan0228, TabelleUndSpalten, Indizes0228;
    forall c | c in ORG_SPALTEN
      ensures Spalte("org_settings", c) in Plan0228()
    {
      var i :| 0 <= i < |ORG_SPALTEN| && ORG_SPALTEN[i] == c;
      assert Spalten("org_settings", ORG_SPALTEN)[i] == Spalte("org_settings", c);
      InPlan0228(Spalte("org_settings", c));
    }
    hide Spalten, ORG_SPALTEN;
    InPlan0228(Spalte("sms_gateway_token", "last_heartbeat_at"));
    InPlan0228(Uebernehmen("org_settings", ALARM));
    InPlan0228(Weg("gateway", "offline_alerted_at"));
    forall a | a in Plan0228()
      ensures a.tab == "org_settings" ==>
        (a.Spalte? && a.spalte in ORG_SPALTEN) || a == Uebernehmen("org_settings", ALARM)
      ensures a.tab == "sms_gateway_token" ==> a == Spalte("sms_gateway_token", "last_heartbeat_at")
      ensures a.tab == "gateway" ==> a == Weg("gateway", "offline_alerted_at")
    {
      SchrittVon0228(a);
    }
  }

  lemma AusPlan0228(a: Schritt)
    requires a in Plan0228()
    ensures || a in TabelleUndSpalten("dienst_status", STATUS_SPALTEN) ||
            a in TabelleUndSpalten("dienst_monitor_log", LOG_SPALTEN)
            || a in TabelleUndSpalten("dienst_monitor_token", TOKEN_SPALTEN) || a in Indizes0228()
            || a in Spalten("org_settings", ORG_SPALTEN) || a == Spalte("sms_gateway_token", "last_heartbeat_at")
            || a == Uebernehmen("org_settings", ALARM) || a == Weg("gateway", "offline_alerted_at")
  {
    hide TabelleUndSpalten, Indizes0228, Spalten;
  }

  lemma NurIndizesIndizieren(t: string, name: string, index: Index)
    ensures Indizieren(t, name, index) in Plan0228() <==> Indizieren(t, name, index) in Indizes0228()
  {
    hide Plan0228, TabelleUndSpalten, Indizes0228, Spalten, STATUS_SPALTEN, LOG_SPALTEN, TOKEN_SPALTEN, ORG_SPALTEN;
    var a := Indizieren(t, name, index);
    if a in Indizes0228() { InPlan0228(a); }
    if a in Plan0228() {
      AusPlan0228(a);
      if a in TabelleUndSpalten("dienst_status", STATUS_SPALTEN) {
        KeinIndex("dienst_status", STATUS_SPALTEN, a);
      } else if a in TabelleUndSpalten("dienst_monitor_log", LOG_SPALTEN) {
        KeinIndex("dienst_monitor_log", LOG_SPALTEN, a);
      } else if a in TabelleUndSpalten("dienst_monitor_token", TOKEN_SPALTEN) {
        KeinIndex("dienst_monitor_token", TOKEN_SPALTEN, a);
      } else if a in Spalten("org_settings", ORG_SPALTEN) {
        OrgSchritt(a);
      }
    }
  }

  lemma KeinIndex(t: string, cs: seq<string>, a: Schritt)
    requires a in TabelleUndSpalten(t, cs)
    ensures !a.Indizieren?
  {
  }

  function StatusIndizes(): map<string, Index> {
    map["ix_dienst_status_org_id" := Index(["org_id"], false),
        "uq_dienst_status_org_key" := Index(["org_id", "key"], true)]
  }

  function LogIndizes(): map<string, Index> {
    map["ix_dienst_monitor_log_org_id" := Index(["org_id"], false),
        "ix_dienst_monitor_log_org_gesendet" := Index(["org_id", "gesendet_am"], false)]
  }

  function TokenIndizes(): map<string, Index> {
    map["uq_dienst_monitor_token_hash" := Index(["token_hash"], true)]
  }

  lemma IndizesIn0228(name: string, index: Index)
    ensures Indizieren("dienst_status", name, index) in Indizes0228() <==>
      name in StatusIndizes() && StatusIndizes()[name] == index
    ensures Indizieren("dienst_monitor_log", name, index) in Indizes0228() <==>
      name in LogIndizes() && LogIndizes()[name] == index
    ensures Indizieren("dienst_monitor_token", name, index) in Indizes0228() <==>
      name in TokenIndizes() && TokenIndizes()[name] == index
  {
    NamenVerschieden();
    assert |"ix_dienst_status_org_id"| == 23 && |"uq_dienst_status_org_key"| == 24;
    assert |"ix_dienst_monitor_log_org_id"| == 28 && |"ix_dienst_monitor_log_org_gesendet"| == 34;
  }

  lemma NeueTabelle0228(s: Schema, t: string, cs: seq<string>, indizes: map<string, Index>)
    requires {"org_settings", "sms_gateway_token", "gateway"} <= s.tabellen.Keys
    requires || (t == "dienst_status" && cs == STATUS_SPALTEN && indizes == StatusIndizes())
             || (t == "dienst_monitor_log" && cs == LOG_SPALTEN && indizes == LogIndizes())
             || (t == "dienst_monitor_token" && cs == TOKEN_SPALTEN && indizes == TokenIndizes())
    ensures Geordnet(Plan0228(), s.tabellen.Keys)
    ensures SpaltenGenau(s, Ganz(s, Plan0228()), t, Menge(cs), {}) && IndizesGenau(s, Ganz(s, Plan0228()), t, indizes)
  {
    hide Plan0228, Geordnet, Ganz, SpaltenGenau, IndizesGenau, Vertraeglich, STATUS_SPALTEN, LOG_SPALTEN, TOKEN_SPALTEN;
    NamenVerschieden();
    Plan0228Gut(s.tabellen.Keys);
    TabelleIn0228(t, cs);
    NeueTabelle(s, Plan0228(), t, cs);
    forall name, index
      ensures Indizieren(t, name, index) in Plan0228() <==> name in indizes && indizes[name] == index
    {
      NurIndizesIndizieren(t, name, index);
      IndizesIn0228(name, index);
      hide Indizes0228, StatusIndizes, LogIndizes, TokenIndizes;
    }
    AngelegtVon(Plan0228(), t, cs);
    IndizesNachher(s, Plan0228(), t, indizes);
  }

  lemma AngelegtVon(plan: seq<Schritt>, t: string, cs: seq<string>)
    requires NurDieseTabelle(plan, t, cs)
    ensures WirdAngelegt(plan, t)
  {
    assert TabelleUndSpalten(t, cs)[0] in TabelleUndSpalten(t, cs);
    assert Anlegen(t, cs) in plan;
  }

  /**
   * The schema after 0228, from any schema that has the three tables it changes: the columns and named indexes listed
   * here are there, two columns are gone, and nothing else has changed.
   */
  lemma FertigesSchema0228(s: Schema)
    requires {"org_settings", "sms_gateway_token", "gateway"} <= s.tabellen.Keys
    ensures Geordnet(Plan0228(), s.tabellen.Keys)
    ensures var r := Ganz(s, Plan0228());
      && SpaltenGenau(s, r, "dienst_status", Menge(["id", "org_id", "key", "state", "since", "down_since", "last_ok_at",
           "last_error", "fail_cycles", "ok_cycles", "last_probe_at", "last_probe_ok", "last_probe_error",
           "outage_notified_at", "last_repeat_at"]), {})
      && IndizesGenau(s, r, "dienst_status", map["ix_dienst_status_org_id" := Index(["org_id"], false),
           "uq_dienst_status_org_key" := Index(["org_id", "key"], true)])
      && SpaltenGenau(s, r, "dienst_monitor_log",
                      Menge(["id", "org_id", "key", "state", "kanal", "empfaenger", "betreff",
           "status", "fehlertext", "payload_excerpt", "gesendet_am"]), {})
      && IndizesGenau(s, r, "dienst_monitor_log", map["ix_dienst_monitor_log_org_id" := Index(["org_id"], false),
           "ix_dienst_monitor_log_org_gesendet" := Index(["org_id", "gesendet_am"], false)])
      && SpaltenGenau(s, r, "dienst_monitor_token", Menge(["id", "token_hash", "label", "org_id", "created_at",
           "last_used_at", "expires_at", "revoked_at"]), {})
      && IndizesGenau(s, r, "dienst_monitor_token", map["uq_dienst_monitor_token_hash" := Index(["token_hash"], true)])
    ensures var r := Ganz(s, Plan0228());
      && SpaltenGenau(s, r, "org_settings", Menge(["dienst_monitor_enabled", "dienst_monitor_mail",
           "dienst_monitor_teams_webhook_url", "dienst_monitor_sms", "dienst_monitor_karenz_min",
           "dienst_monitor_wiederholung_min"]), {"gateway_offline_alert_min"})
      && SpaltenGenau(s, r, "sms_gateway_token", {"last_heartbeat_at"}, {})
      && SpaltenGenau(s, r, "gateway", {}, {"offline_alerted_at"})
  {
    NeueTabelle0228(s, "dienst_status", STATUS_SPALTEN, StatusIndizes());
    NeueTabelle0228(s, "dienst_monitor_log", LOG_SPALTEN, LogIndizes());
    NeueTabelle0228(s, "dienst_monitor_token", TOKEN_SPALTEN, TokenIndizes());
    GeaenderteTabellen0228(s);
    hide Plan0228, Ganz, Geordnet, SpaltenGenau, IndizesGenau, Menge;
  }

  lemma GeaenderteTabellen0228(s: Schema)
    requires {"org_settings", "sms_gateway_token", "gateway"} <= s.tabellen.Keys
    ensures Geordnet(Plan0228(), s.tabellen.Keys)
    ensures SpaltenGenau(s, Ganz(s, Plan0228()), "org_settings", Menge(ORG_SPALTEN), {ALARM})
    ensures SpaltenGenau(s, Ganz(s, Plan0228()), "sms_gateway_token", {"last_heartbeat_at"}, {})
    ensures SpaltenGenau(s, Ganz(s, Plan0228()), "gateway", {}, {"offline_alerted_at"})
  {
    hide Plan0228, Ganz, Geordnet, Vertraeglich, SpaltenGenau, IndizesGenau, NurDieseSpalten, ORG_SPALTEN;
    Plan0228Gut(s.tabellen.Keys);
    OrgIn0228();
    GeaenderteTabelle(s, Plan0228(), "org_settings", Menge(ORG_SPALTEN), {ALARM});
    GeaenderteTabelle(s, Plan0228(), "sms_gateway_token", {"last_heartbeat_at"}, {});
    GeaenderteTabelle(s, Plan0228(), "gateway", {}, {"offline_alerted_at"});
  }

  /** Every table that 0228 does not name is as it was. */
  lemma AndereTabellen0228(s: Schema, t: string)
    requires {"org_settings", "sms_gateway_token", "gateway"} <= s.tabellen.Keys && t in s.tabellen
    requires t !in {"dienst_status", "dienst_monitor_log", "dienst_monitor_token", "org_settings", "sms_gateway_token",
                    "gateway"}
    ensures Geordnet(Plan0228(), s.tabellen.Keys)
    ensures t in Ganz(s, Plan0228()).tabellen && Ganz(s, Plan0228()).tabellen[t] == s.tabellen[t]
  {
    hide Plan0228, Ganz, Geordnet, Vertraeglich;
    Plan0228Gut(s.tabellen.Keys);
    forall a | a in Plan0228()
      ensures a.tab != t
    {
      SchrittVon0228(a);
      hide TabelleUndSpalten, STATUS_SPALTEN, LOG_SPALTEN, TOKEN_SPALTEN, ORG_SPALTEN;
    }
    AndereTabelle(s, Plan0228(), t);
  }

  // ---------------------------------------------------------------- 0229

  lemma AusPlan0229(a: Schritt)
    ensures a in Plan0229() <==>
            (|| a == Spalte("api_key", "scopes") || a in TabelleUndSpalten("api_message", MESSAGE_SPALTEN)
             || a in TabelleUndSpalten("api_message_recipient", RECIPIENT_SPALTEN) || a in Indizes0229())
  {
    hide TabelleUndSpalten, Indizes0229;
  }

  lemma IndexVon0229(a: Schritt)
    requires a in Indizes0229()
    ensures a.Indizieren? && (a.tab == "api_message" || a.tab == "api_message_recipient")
  {
    var i :| 0 <= i < |Indizes0229()| && Indizes0229()[i] == a;
  }

  lemma SchrittVon0229(a: Schritt)
    requires a in Plan0229()
    ensures || AnTabelle(a, "api_message", MESSAGE_SPALTEN) || AnTabelle(a, "api_message_recipient", RECIPIENT_SPALTEN)
            || a == Spalte("api_key", "scopes")
  {
    hide Plan0229, TabelleUndSpalten, Indizes0229, MESSAGE_SPALTEN, RECIPIENT_SPALTEN;
    AusPlan0229(a);
    if a in TabelleUndSpalten("api_message", MESSAGE_SPALTEN) {
      TabelleDerSchritte("api_message", MESSAGE_SPALTEN, a);
    } else if a in TabelleUndSpalten("api_message_recipient", RECIPIENT_SPALTEN) {
      TabelleDerSchritte("api_message_recipient", RECIPIENT_SPALTEN, a);
    } else if a in Indizes0229() {
      IndexVon0229(a);
    }
  }

  lemma TabelleIn0229(t: string, cs: seq<string>)
    requires (t == "api_message" && cs == MESSAGE_SPALTEN) || (t == "api_message_recipient" && cs == RECIPIENT_SPALTEN)
    ensures NurDieseTabelle(Plan0229(), t, cs)
  {
    hide Plan0229, TabelleUndSpalten, Indizes0229, MESSAGE_SPALTEN, RECIPIENT_SPALTEN;
    NamenVerschieden();
    forall a | a in TabelleUndSpalten(t, cs)
      ensures a in Plan0229()
    {
      AusPlan0229(a);
    }
    forall a | a in Plan0229() && a.tab == t
      ensures a in TabelleUndSpalten(t, cs) || a.Indizieren?
    {
      SchrittVon0229(a);
    }
  }

  function MessageIndizes(): map<string, Index> {
    map["uq_api_message_org_kanal_key" := Index(["org_id", "kanal", "external_key"], true),
        "ix_api_message_org_status_id" := Index(["org_id", "status", "id"], false)]
  }

  function RecipientIndizes(): map<string, Index> {
    map["ix_api_message_recipient_message_id" := Index(["message_id"], false),
        "ix_api_message_recipient_dispatch" := Index(["status", "next_attempt_at"], false)]
  }

  lemma IndizesIn0229(name: string, index: Index)
    ensures Indizieren("api_message", name, index) in Indizes0229() <==>
      name in MessageIndizes() && MessageIndizes()[name] == index
    ensures Indizieren("api_message_recipient", name, index) in Indizes0229() <==>
            name in RecipientIndizes() && RecipientIndizes()[name] == index
  {
    NamenVerschieden();
    assert "uq_api_message_org_kanal_key"[0] == 'u' && "ix_api_message_org_status_id"[0] == 'i';
    assert |"ix_api_message_recipient_message_id"| == 35 && |"ix_api_message_recipient_dispatch"| == 33;
  }

  lemma NurIndizesIndizieren0229(t: string, name: string, index: Index)
    ensures Indizieren(t, name, index) in Plan0229() <==> Indizieren(t, name, index) in Indizes0229()
  {
    hide Plan0229, TabelleUndSpalten, Indizes0229, MESSAGE_SPALTEN, RECIPIENT_SPALTEN;
    var a := Indizieren(t, name, index);
    AusPlan0229(a);
    if a in TabelleUndSpalten("api_message", MESSAGE_SPALTEN) {
      KeinIndex("api_message", MESSAGE_SPALTEN, a);
    } else if a in TabelleUndSpalten("api_message_recipient", RECIPIENT_SPALTEN) {
      KeinIndex("api_message_recipient", RECIPIENT_SPALTEN, a);
    }
  }

  lemma NeueTabelle0229(s: Schema, t: string, cs: seq<string>, indizes: map<string, Index>)
    requires "api_key" in s.tabellen
    requires || (t == "api_message" && cs == MESSAGE_SPALTEN && indizes == MessageIndizes())
             || (t == "api_message_recipient" && cs == RECIPIENT_SPALTEN && indizes == RecipientIndizes())
    ensures Geordnet(Plan0229(), s.tabellen.Keys)
    ensures SpaltenGenau(s, Ganz(s, Plan0229()), t, Menge(cs), {}) && IndizesGenau(s, Ganz(s, Plan0229()), t, indizes)
  {
    hide Plan0229, Geordnet, Ganz, SpaltenGenau, IndizesGenau, Vertraeglich, MESSAGE_SPALTEN, RECIPIENT_SPALTEN;
    NamenVerschieden();
    Plan0229Gut(s.tabellen.Keys);
    TabelleIn0229(t, cs);
    NeueTabelle(s, Plan0229(), t, cs);
    forall name, index
      ensures Indizieren(t, name, index) in Plan0229() <==> name in indizes && indizes[name] == index
    {
      NurIndizesIndizieren0229(t, name, index);
      IndizesIn0229(name, index);
      hide Indizes0229, MessageIndizes, RecipientIndizes;
    }
    AngelegtVon(Plan0229(), t, cs);
    IndizesNachher(s, Plan0229(), t, indizes);
  }

  /** The schema after 0229, likewise. */
  lemma FertigesSchema0229(s: Schema)
    requires "api_key" in s.tabellen
    ensures Geordnet(Plan0229(), s.tabellen.Keys)
    ensures var r := Ganz(s, Plan0229());
      && SpaltenGenau(s, r, "api_key", {"scopes"}, {})
      && SpaltenGenau(s, r, "api_message", Menge(["id", "org_id", "api_key_id", "external_key", "kanal", "betreff",
           "body_text", "body_html", "status", "recipient_count", "success_count", "failed_count", "created_at",
           "started_at", "completed_at", "error_message", "sms_log_id"]), {})
      && IndizesGenau(s, r, "api_message", map["uq_api_message_org_kanal_key" :=
           Index(["org_id", "kanal", "external_key"], true),
           "ix_api_message_org_status_id" := Index(["org_id", "status", "id"], false)])
      && SpaltenGenau(s, r, "api_message_recipient", Menge(["id", "org_id", "message_id", "ziel", "name", "member_id",
           "status", "provider", "error_message", "attempt_count", "max_attempts", "next_attempt_at", "sent_at"]), {})
      && IndizesGenau(s, r, "api_message_recipient", map["ix_api_message_recipient_message_id" :=
           Index(["message_id"], false),
           "ix_api_message_recipient_dispatch" := Index(["status", "next_attempt_at"], false)])
  {
    NeueTabelle0229(s, "api_message", MESSAGE_SPALTEN, MessageIndizes());
    NeueTabelle0229(s, "api_message_recipient", RECIPIENT_SPALTEN, RecipientIndizes());
    Schluesseltabelle0229(s);
    hide Plan0229, Ganz, Geordnet, SpaltenGenau, IndizesGenau, Menge;
  }

  lemma Schluesseltabelle0229(s: Schema)
    requires "api_key" in s.tabellen
    ensures Geordnet(Plan0229(), s.tabellen.Keys) && SpaltenGenau(s, Ganz(s, Plan0229()), "api_key", {"scopes"}, {})
  {
    hide Plan0229, Ganz, Geordnet, Vertraeglich, SpaltenGenau, IndizesGenau, TabelleUndSpalten, Indizes0229;
    NamenVerschieden();
    Plan0229Gut(s.tabellen.Keys);
    AusPlan0229(Spalte("api_key", "scopes"));
    forall a | a in Plan0229() && a.tab == "api_key"
      ensures a == Spalte("api_key", "scopes")
    {
      SchrittVon0229(a);
    }
    assert NurDieseSpalten(Plan0229(), "api_key", {"scopes"}, {});
    GeaenderteTabelle(s, Plan0229(), "api_key", {"scopes"}, {});
  }

  /** Every table that 0229 does not name is as it was. */
  lemma AndereTabellen0229(s: Schema, t: string)
    requires "api_key" in s.tabellen && t in s.tabellen && t !in {"api_key", "api_message", "api_message_recipient"}
    ensures Geordnet(Plan0229(), s.tabellen.Keys)
    ensures t in Ganz(s, Plan0229()).tabellen && Ganz(s, Plan0229()).tabellen[t] == s.tabellen[t]
  {
    hide Plan0229, Ganz, Geordnet, Vertraeglich;
    Plan0229Gut(s.tabellen.Keys);
    forall a | a in Plan0229()
      ensures a.tab != t
    {
      SchrittVon0229(a);
      hide TabelleUndSpalten, MESSAGE_SPALTEN, RECIPIENT_SPALTEN;
    }
    AndereTabelle(s, Plan0229(), t);
  }
}
