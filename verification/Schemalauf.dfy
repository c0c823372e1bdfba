/** The resumable upgrades of alembic/versions/0228_dienst_monitor.py and 0229_nachrichten_api.py. */
module Schemalauf {

  datatype Index = Index(spalten: seq<string>, eindeutig: bool)

  datatype Tabelle = Tabelle(spalten: set<string>, indizes: map<string, Index>)

  /** Tables, and per `org_settings` row the grace period and the old alert delay. */
  datatype Schema = Schema(tabellen: map<string, Tabelle>, karenz: map<nat, int>, alarm: map<nat, int>)

  /** One check-then-alter step; every step needs at most one DDL statement. */
  datatype Schritt =
    | Anlegen(tab: string, spalten: seq<string>)                        // CREATE TABLE unless it exists
    | Spalte(tab: string, spalte: string)                               // ADD COLUMN unless it exists
    | Indizieren(tab: string, name: string, index: Index)               // CREATE INDEX unless the name exists
    | Uebernehmen(tab: string, spalte: string)                          // copy the delays, DROP COLUMN, if it exists
    | Weg(tab: string, spalte: string)                                  // DROP COLUMN if it exists

  const KARENZ := "dienst_monitor_karenz_min"
  const ALARM := "gateway_offline_alert_min"
  const KARENZ_VORGABE := 5
  const ALARM_VORGABE := 15

  // ---------------------------------------------------------------- one step

  /** The check that comes before the statement. */
  predicate Erledigt(a: Schritt, s: Schema) {
    match a
    case Anlegen(t, _) => t in s.tabellen
    case Spalte(t, c) => t in s.tabellen && c in s.tabellen[t].spalten
    case Indizieren(t, name, _) => t in s.tabellen && name in s.tabellen[t].indizes
    case Uebernehmen(t, c) => t in s.tabellen && c !in s.tabellen[t].spalten
    case Weg(t, c) => t in s.tabellen && c !in s.tabellen[t].spalten
  }

  function MitTabelle(s: Schema, t: string, neu: Tabelle): Schema {
    s.(tabellen := s.tabellen[t := neu])
  }

  /** The statement with whatever was pending before it: both are committed together. */
  function Ausgefuehrt(a: Schritt, s: Schema): Schema
    requires a.Anlegen? || a.tab in s.tabellen
  {
    match a
    case Anlegen(t, cs) => MitTabelle(s, t, Tabelle(set c | c in cs, map[]))
    case Spalte(t, c) =>
      var u := MitTabelle(s, t, s.tabellen[t].(spalten := s.tabellen[t].spalten + {c}));
      if c == KARENZ then u.(karenz := map i | i in s.karenz :: KARENZ_VORGABE) else u
    case Indizieren(t, name, index) => MitTabelle(s, t, s.tabellen[t].(indizes := s.tabellen[t].indizes[name := index]))
    case Uebernehmen(t, c) =>
      var u := MitTabelle(s, t, s.tabellen[t].(spalten := s.tabellen[t].spalten - {c}));
      u.(karenz := Uebernommen(s))
    case Weg(t, c) => MitTabelle(s, t, s.tabellen[t].(spalten := s.tabellen[t].spalten - {c}))
  }

  /** UPDATE … SET karenz = alarm WHERE alarm <> 15. */
  function Uebernommen(s: Schema): map<nat, int> {
    map i | i in s.karenz :: if i in s.alarm && s.alarm[i] != ALARM_VORGABE then s.alarm[i] else s.karenz[i]
  }

  /** A statement cut off after the commit it begins with: what was pending is kept, the table is as before. */
  function Halb(a: Schritt, s: Schema): Schema {
    if a.Uebernehmen? then s.(karenz := Uebernommen(s)) else s
  }

  // ---------------------------------------------------------------- a run

  /** Every step but a CREATE TABLE finds its table there, or created by an earlier step. */
  predicate Geordnet(plan: seq<Schritt>, vorhanden: set<string>) {
    plan == [] ||
    ((plan[0].Anlegen? || plan[0].tab in vorhanden) && Geordnet(plan[1..], vorhanden + {plan[0].tab}))
  }

  /**
   * What is committed when the connection survives `n` DDL statements of the plan, and of the next one perhaps its
   * first commit.
   */
  function Lauf(s: Schema, plan: seq<Schritt>, n: nat, halb: bool): (r: Schema)
    requires Geordnet(plan, s.tabellen.Keys)
    ensures s.tabellen.Keys <= r.tabellen.Keys
    decreases |plan|
  {
    if plan == [] then s
    else if Erledigt(plan[0], s) then
      assert s.tabellen.Keys + {plan[0].tab} == s.tabellen.Keys;
      Lauf(s, plan[1..], n, halb)
    else if n == 0 then if halb then Halb(plan[0], s) else s
    else
      assert Ausgefuehrt(plan[0], s).tabellen.Keys == s.tabellen.Keys + {plan[0].tab};
      Lauf(Ausgefuehrt(plan[0], s), plan[1..], n - 1, halb)
  }

  /** An uninterrupted run: no plan needs more DDL statements than it has steps. */
  function Ganz(s: Schema, plan: seq<Schritt>): Schema
    requires Geordnet(plan, s.tabellen.Keys)
  {
    Lauf(s, plan, |plan|, false)
  }

  /** The loop itself, on a connection that survives `n` DDL statements. */
  method FuehreAus(s: Schema, plan: seq<Schritt>, n: nat, halb: bool) returns (r: Schema)
    requires Geordnet(plan, s.tabellen.Keys)
    ensures r == Lauf(s, plan, n, halb)
  {
    r := s;
    var rest := n;
    for i := 0 to |plan|
      invariant Geordnet(plan[i..], r.tabellen.Keys)
      invariant Lauf(r, plan[i..], rest, halb) == Lauf(s, plan, n, halb)
    {
      assert plan[i..][1..] == plan[i + 1..];
      if Erledigt(plan[i], r) {
        assert r.tabellen.Keys + {plan[i].tab} == r.tabellen.Keys;
      } else if rest == 0 {
        if halb { r := Halb(plan[i], r); }
        return;
      } else {
        assert Ausgefuehrt(plan[i], r).tabellen.Keys == r.tabellen.Keys + {plan[i].tab};
        r, rest := Ausgefuehrt(plan[i], r), rest - 1;
      }
    }
  }

  // ---------------------------------------------------------------- resuming

  /** The columns a step adds. */
  predicate Fuegt(a: Schritt, t: string, c: string) {
    (a.Anlegen? && a.tab == t && c in a.spalten) || (a.Spalte? && a.tab == t && a.spalte == c)
  }

  predicate Entfernt(a: Schritt, t: string, c: string) {
    (a.Uebernehmen? || a.Weg?) && a.tab == t && a.spalte == c
  }

  /** No step of the plan adds a column that another one drops. */
  ghost predicate Vertraeglich(plan: seq<Schritt>) {
    forall a, b, t, c {:trigger Fuegt(a, t, c), Entfernt(b, t, c)} :: a in plan && b in plan && Fuegt(a, t, c) ==>
      !Entfernt(b, t, c)
  }

  ghost predicate AlleErledigt(plan: seq<Schritt>, s: Schema) {
    forall a :: a in plan ==> Erledigt(a, s)
  }

  /** A step once done stays done, whichever step of the plan comes next. */
  lemma BleibtErledigt(a: Schritt, b: Schritt, s: Schema, plan: seq<Schritt>)
    requires Vertraeglich(plan) && a in plan && b in plan && Erledigt(a, s)
    requires !Erledigt(b, s) && (b.Anlegen? || b.tab in s.tabellen)
    ensures Erledigt(a, Ausgefuehrt(b, s))
  {
    if (a.Weg? || a.Uebernehmen?) && b.Spalte? && a.tab == b.tab {
      assert Fuegt(b, b.tab, b.spalte);
      assert Entfernt(a, a.tab, a.spalte);
    }
    if a.Spalte? && (b.Weg? || b.Uebernehmen?) && a.tab == b.tab {
      assert Fuegt(a, a.tab, a.spalte);
      assert Entfernt(b, b.tab, b.spalte);
    }
  }

  /** Skipping steps that are done already. */
  lemma {:induction false} ErledigtesUebersprungen(s: Schema, p: seq<Schritt>, q: seq<Schritt>, n: nat, halb: bool)
    requires Geordnet(p + q, s.tabellen.Keys) && AlleErledigt(p, s)
    ensures Geordnet(q, s.tabellen.Keys) && Lauf(s, p + q, n, halb) == Lauf(s, q, n, halb)
    decreases |p|
  {
    if p == [] {
      assert p + q == q;
    } else {
      assert (p + q)[1..] == p[1..] + q && (p + q)[0] == p[0] && p[0] in p;
      assert s.tabellen.Keys + {p[0].tab} == s.tabellen.Keys;
      ErledigtesUebersprungen(s, p[1..], q, n, halb);
    }
  }

  /** A larger budget than there are steps left changes nothing. */
  lemma {:induction false} BudgetEgal(s: Schema, q: seq<Schritt>, m: nat, n: nat, halb: bool)
    requires Geordnet(q, s.tabellen.Keys) && m >= |q| && n >= |q|
    ensures Lauf(s, q, m, halb) == Lauf(s, q, n, false)
    decreases |q|
  {
    if q != [] {
      if Erledigt(q[0], s) {
        assert s.tabellen.Keys + {q[0].tab} == s.tabellen.Keys;
        BudgetEgal(s, q[1..], m, n, halb);
      } else {
        assert Ausgefuehrt(q[0], s).tabellen.Keys == s.tabellen.Keys + {q[0].tab};
        BudgetEgal(Ausgefuehrt(q[0], s), q[1..], m - 1, n - 1, halb);
      }
    }
  }

  /** The run stops here: nothing left to do, or the next statement is cut off. */
  lemma AbbruchHier(s: Schema, p: seq<Schritt>, q: seq<Schritt>, plan: seq<Schritt>, halb: bool)
    requires plan == p + q && AlleErledigt(p, s) && Geordnet(q, s.tabellen.Keys) && Geordnet(plan, s.tabellen.Keys)
    requires q == [] || !Erledigt(q[0], s)
    ensures Lauf(s, q, 0, halb).tabellen == s.tabellen
    ensures Ganz(Lauf(s, q, 0, halb), plan) == Lauf(s, q, |q|, false)
    ensures q == [] ==> AlleErledigt(plan, Lauf(s, q, 0, halb)) && forall n: nat :: Lauf(s, q, n, halb) == s
  {
    var t := Lauf(s, q, 0, halb);
    assert t.tabellen == s.tabellen;
    assert forall a :: Erledigt(a, t) == Erledigt(a, s);
    if q == [] {
      assert p == plan && t == s;
      assert plan + [] == plan;
      ErledigtesUebersprungen(s, plan, [], |plan|, false);
    } else {
      assert Ausgefuehrt(q[0], t) == Ausgefuehrt(q[0], s) by {
        hide Lauf;
        if q[0].Uebernehmen? {
          assert Uebernommen(Halb(q[0], s)) == Uebernommen(s);
        }
      }
      GleicherSchrittGleicherLauf(s, t, q);
      hide Lauf;
      ErledigtesUebersprungen(t, p, q, |plan|, false);
      BudgetEgal(t, q, |plan|, |q|, false);
    }
  }

  lemma GleicherSchrittGleicherLauf(s: Schema, t: Schema, q: seq<Schritt>)
    requires q != [] && s.tabellen == t.tabellen && !Erledigt(q[0], s) && Geordnet(q, s.tabellen.Keys)
    requires Ausgefuehrt(q[0], s) == Ausgefuehrt(q[0], t)
    ensures Lauf(s, q, |q|, false) == Lauf(t, q, |q|, false)
  {
  }

  /**
   * Where a cut-off run stops: the steps `p` before are done, `q` is still ahead; running all of `p + q` from what is
   * committed gives what running on would have given.
   */
  lemma {:induction false} WeiterNachAbbruch(s: Schema, p: seq<Schritt>, q: seq<Schritt>, plan: seq<Schritt>, n: nat,
                                             halb: bool)
    requires plan == p + q && Vertraeglich(plan) && AlleErledigt(p, s) && Geordnet(q, s.tabellen.Keys) &&
             Geordnet(plan, s.tabellen.Keys)
    ensures Geordnet(plan, Lauf(s, q, n, halb).tabellen.Keys)
    ensures Ganz(Lauf(s, q, n, halb), plan) == Lauf(s, q, |q|, false)
    ensures n >= |q| ==> AlleErledigt(plan, Lauf(s, q, n, halb))
    decreases |q|
  {
    if q == [] || (n == 0 && !Erledigt(q[0], s)) {
      AbbruchHier(s, p, q, plan, halb);
    } else {
      hide Vertraeglich, Ganz, Erledigt, AlleErledigt;
      var a, rest := q[0], q[1..];
      assert plan == (p + [a]) + rest && a in plan;
      if Erledigt(a, s) {
        assert s.tabellen.Keys + {a.tab} == s.tabellen.Keys;
        WeiterNachAbbruch(s, p + [a], rest, plan, n, halb);
        BudgetEgal(s, rest, |q|, |rest|, false);
      } else {
        var t := Ausgefuehrt(a, s);
        assert t.tabellen.Keys == s.tabellen.Keys + {a.tab};
        NochEinerErledigt(s, p, a, plan);
        GeordnetMitMehr(plan, s.tabellen.Keys, t.tabellen.Keys);
        WeiterNachAbbruch(t, p + [a], rest, plan, n - 1, halb);
      }
    }
  }

  lemma NochEinerErledigt(s: Schema, p: seq<Schritt>, a: Schritt, plan: seq<Schritt>)
    requires Vertraeglich(plan) && AlleErledigt(p, s) && p <= plan && a in plan && !Erledigt(a, s) &&
             (a.Anlegen? || a.tab in s.tabellen)
    ensures AlleErledigt(p + [a], Ausgefuehrt(a, s))
  {
    forall b | b in p + [a]
      ensures Erledigt(b, Ausgefuehrt(a, s))
    {
      if b in p {
        assert b in plan;
        BleibtErledigt(b, a, s, plan);
      }
    }
  }

  lemma {:induction false} GeordnetMitMehr(plan: seq<Schritt>, a: set<string>, b: set<string>)
    requires Geordnet(plan, a) && a <= b
    ensures Geordnet(plan, b)
    decreases |plan|
  {
    if plan != [] { GeordnetMitMehr(plan[1..], a + {plan[0].tab}, b + {plan[0].tab}); }
  }

  /**
   * From the state left by a crash after any DDL statement, a second run reaches exactly what an uninterrupted run
   * reaches.
   */
  lemma WiederaufsetzbarUeberall(s: Schema, plan: seq<Schritt>, n: nat, halb: bool)
    requires Vertraeglich(plan) && Geordnet(plan, s.tabellen.Keys)
    ensures Geordnet(plan, Lauf(s, plan, n, halb).tabellen.Keys)
    ensures Ganz(Lauf(s, plan, n, halb), plan) == Ganz(s, plan)
  {
    assert plan == [] + plan;
    WeiterNachAbbruch(s, [], plan, plan, n, halb);
  }

  /** Running a finished upgrade again issues no statement at all. */
  lemma NochmalIstLeer(s: Schema, plan: seq<Schritt>, n: nat, halb: bool)
    requires Vertraeglich(plan) && Geordnet(plan, s.tabellen.Keys)
    ensures AlleErledigt(plan, Ganz(s, plan))
    ensures Geordnet(plan, Ganz(s, plan).tabellen.Keys) && Lauf(Ganz(s, plan), plan, n, halb) == Ganz(s, plan)
  {
    assert plan == [] + plan;
    WeiterNachAbbruch(s, [], plan, plan, |plan|, false);
    assert plan + [] == plan;
    ErledigtesUebersprungen(Ganz(s, plan), plan, [], n, halb);
  }

  // ---------------------------------------------------------------- the finished schema

  predicate HatSpalteIn(s: Schema, t: string, c: string) {
    t in s.tabellen && c in s.tabellen[t].spalten
  }

  ghost predicate WirdAngelegt(plan: seq<Schritt>, t: string) {
    exists a :: a in plan && a.Anlegen? && a.tab == t
  }

  ghost predicate WirdHinzugefuegt(plan: seq<Schritt>, t: string, c: string) {
    exists a :: a in plan && Fuegt(a, t, c)
  }

  ghost predicate WirdEntfernt(plan: seq<Schritt>, t: string, c: string) {
    exists a :: a in plan && Entfernt(a, t, c)
  }

  ghost predicate WirdIndiziert(plan: seq<Schritt>, t: string, name: string, index: Index) {
    Indizieren(t, name, index) in plan
  }

  /** Between `s` and `u` only what `plan` names has come or gone. */
  ghost predicate NurGeplantes(s: Schema, u: Schema, plan: seq<Schritt>) {
    && (forall t :: t in s.tabellen ==> t in u.tabellen)
    && (forall t :: t in u.tabellen ==> t in s.tabellen || WirdAngelegt(plan, t))
    && (forall t, c :: HatSpalteIn(u, t, c) ==> HatSpalteIn(s, t, c) || WirdHinzugefuegt(plan, t, c))
    && (forall t, c :: HatSpalteIn(s, t, c) ==> HatSpalteIn(u, t, c) || WirdEntfernt(plan, t, c))
    && (forall t, name :: t in s.tabellen && name in s.tabellen[t].indizes ==>
          name in u.tabellen[t].indizes && u.tabellen[t].indizes[name] == s.tabellen[t].indizes[name])
    && (forall t, name :: t in u.tabellen && name in u.tabellen[t].indizes ==>
          (t in s.tabellen && name in s.tabellen[t].indizes) ||
            WirdIndiziert(plan, t, name, u.tabellen[t].indizes[name]))
  }

  lemma SchrittNurGeplantes(s: Schema, a: Schritt, plan: seq<Schritt>)
    requires a in plan && !Erledigt(a, s) && (a.Anlegen? || a.tab in s.tabellen)
    ensures NurGeplantes(s, Ausgefuehrt(a, s), plan)
  {
    var u := Ausgefuehrt(a, s);
    forall t, c | HatSpalteIn(u, t, c) && !HatSpalteIn(s, t, c)
      ensures WirdHinzugefuegt(plan, t, c)
    {
      assert Fuegt(a, t, c);
    }
    forall t, c | HatSpalteIn(s, t, c) && !HatSpalteIn(u, t, c)
      ensures WirdEntfernt(plan, t, c)
    {
      assert Entfernt(a, t, c);
    }
  }

  lemma NurGeplantesVerkettet(s: Schema, t: Schema, u: Schema, plan: seq<Schritt>)
    requires NurGeplantes(s, t, plan) && NurGeplantes(t, u, plan)
    ensures NurGeplantes(s, u, plan)
  {
  }

  lemma {:induction false} LaufNurGeplantes(s: Schema, q: seq<Schritt>, n: nat, plan: seq<Schritt>)
    requires Geordnet(q, s.tabellen.Keys) && forall a :: a in q ==> a in plan
    ensures NurGeplantes(s, Lauf(s, q, n, false), plan)
    decreases |q|
  {
    if q != [] && (Erledigt(q[0], s) || n > 0) {
      assert q[0] in q;
      if Erledigt(q[0], s) {
        assert s.tabellen.Keys + {q[0].tab} == s.tabellen.Keys;
        LaufNurGeplantes(s, q[1..], n, plan);
      } else {
        var t := Ausgefuehrt(q[0], s);
        assert t.tabellen.Keys == s.tabellen.Keys + {q[0].tab};
        SchrittNurGeplantes(s, q[0], plan);
        LaufNurGeplantes(t, q[1..], n - 1, plan);
        NurGeplantesVerkettet(s, t, Lauf(t, q[1..], n - 1, false), plan);
      }
    }
  }

  /** Table `t` has its old columns and those of `neu`, without those of `weg`. */
  predicate SpaltenGenau(s: Schema, u: Schema, t: string, neu: set<string>, weg: set<string>) {
    t in u.tabellen && u.tabellen[t].spalten == (if t in s.tabellen then s.tabellen[t].spalten else {}) + neu - weg
  }

  /** Table `t` has its old indexes as they were, and the others of `neu`. */
  predicate IndizesGenau(s: Schema, u: Schema, t: string, neu: map<string, Index>) {
    t in u.tabellen && u.tabellen[t].indizes == neu + (if t in s.tabellen then s.tabellen[t].indizes else map[])
  }

  lemma SpaltenNachher(s: Schema, plan: seq<Schritt>, t: string, neu: set<string>, weg: set<string>)
    requires Vertraeglich(plan) && Geordnet(plan, s.tabellen.Keys) && (t in s.tabellen || WirdAngelegt(plan, t))
    requires forall c :: c in neu <==> WirdHinzugefuegt(plan, t, c)
    requires forall c :: c in neu ==> Spalte(t, c) in plan
    requires forall c :: c in weg <==> WirdEntfernt(plan, t, c)
    ensures SpaltenGenau(s, Ganz(s, plan), t, neu, weg)
  {
    var u := Ganz(s, plan);
    LaufNurGeplantes(s, plan, |plan|, plan);
    NochmalIstLeer(s, plan, 0, false);
    hide Ganz, Lauf, Geordnet, Vertraeglich, WirdHinzugefuegt;
    if t !in s.tabellen {
      var a :| a in plan && a.Anlegen? && a.tab == t;
      assert Erledigt(a, u);
    }
    hide WirdAngelegt;
    forall c
      ensures c in u.tabellen[t].spalten <==> (HatSpalteIn(s, t, c) || c in neu) && c !in weg
    {
      if c in neu { assert Erledigt(Spalte(t, c), u); }
      if c in weg {
        var a :| a in plan && Entfernt(a, t, c);
        assert Erledigt(a, u);
      }
      if HatSpalteIn(u, t, c) { assert HatSpalteIn(s, t, c) || WirdHinzugefuegt(plan, t, c); }
    }
  }

  lemma IndizesNachher(s: Schema, plan: seq<Schritt>, t: string, neu: map<string, Index>)
    requires Vertraeglich(plan) && Geordnet(plan, s.tabellen.Keys) && (t in s.tabellen || WirdAngelegt(plan, t))
    requires forall name, index :: Indizieren(t, name, index) in plan <==> name in neu && neu[name] == index
    ensures IndizesGenau(s, Ganz(s, plan), t, neu)
  {
    var u := Ganz(s, plan);
    LaufNurGeplantes(s, plan, |plan|, plan);
    NochmalIstLeer(s, plan, 0, false);
    hide Ganz, Lauf, Geordnet, Vertraeglich;
    if t !in s.tabellen {
      var a :| a in plan && a.Anlegen? && a.tab == t;
      assert Erledigt(a, u);
    }
    hide WirdAngelegt;
    forall name | name in neu
      ensures name in u.tabellen[t].indizes
    {
      assert Erledigt(Indizieren(t, name, neu[name]), u);
    }
    forall name | name in u.tabellen[t].indizes && !(t in s.tabellen && name in s.tabellen[t].indizes)
      ensures name in neu && neu[name] == u.tabellen[t].indizes[name]
    {
      assert WirdIndiziert(plan, t, name, u.tabellen[t].indizes[name]);
    }
  }

  // ---------------------------------------------------------------- the copied grace periods

  /** A whole run over two plans is a run over the first, then over the second. */
  lemma {:induction false} GanzVerkettet(s: Schema, p: seq<Schritt>, q: seq<Schritt>)
    requires Geordnet(p + q, s.tabellen.Keys)
    ensures Geordnet(p, s.tabellen.Keys) && Geordnet(q, Ganz(s, p).tabellen.Keys)
    ensures Ganz(s, p + q) == Ganz(Ganz(s, p), q)
    decreases |p|
  {
    if p == [] {
      assert p + q == q;
    } else {
      assert (p + q)[1..] == p[1..] + q && (p + q)[0] == p[0];
      var t := if Erledigt(p[0], s) then s else Ausgefuehrt(p[0], s);
      assert t.tabellen.Keys == s.tabellen.Keys + {p[0].tab};
      GanzVerkettet(t, p[1..], q);
      assert Ganz(s, p + q) == Ganz(t, p[1..] + q) && Ganz(s, p) == Ganz(t, p[1..]) by {
        hide Geordnet;
        if Erledigt(p[0], s) {
          BudgetEgal(s, p[1..] + q, |p + q|, |p[1..] + q|, false);
          BudgetEgal(s, p[1..], |p|, |p[1..]|, false);
        }
      }
    }
  }

  /** Steps that touch neither the grace periods nor the two columns they depend on. */
  ghost predicate FernVonKarenz(a: Schritt) {
    !a.Uebernehmen? && !(a.Spalte? && a.spalte == KARENZ) &&
      forall c | c in {KARENZ, ALARM} :: !Fuegt(a, "org_settings", c) && !Entfernt(a, "org_settings", c)
  }

  predicate HatSpalte(s: Schema, c: string) {
    "org_settings" in s.tabellen && c in s.tabellen["org_settings"].spalten
  }

  lemma FernerSchritt(s: Schema, a: Schritt)
    requires "org_settings" in s.tabellen && FernVonKarenz(a) && !Erledigt(a, s) && (a.Anlegen? || a.tab in s.tabellen)
    ensures var t := Ausgefuehrt(a, s); t.karenz == s.karenz && t.alarm == s.alarm && "org_settings" in t.tabellen
    ensures HatSpalte(Ausgefuehrt(a, s), KARENZ) == HatSpalte(s, KARENZ) &&
            HatSpalte(Ausgefuehrt(a, s), ALARM) == HatSpalte(s, ALARM)
  {
    forall c | c in {KARENZ, ALARM}
      ensures HatSpalte(Ausgefuehrt(a, s), c) == HatSpalte(s, c)
    {
      assert !Fuegt(a, "org_settings", c) && !Entfernt(a, "org_settings", c);
    }
    assert KARENZ in {KARENZ, ALARM} && ALARM in {KARENZ, ALARM};
  }

  lemma {:induction false} FernLaesstKarenz(s: Schema, p: seq<Schritt>, n: nat)
    requires Geordnet(p, s.tabellen.Keys) && "org_settings" in s.tabellen && forall a :: a in p ==> FernVonKarenz(a)
    ensures var r := Lauf(s, p, n, false); r.karenz == s.karenz && r.alarm == s.alarm && "org_settings" in r.tabellen
    ensures HatSpalte(Lauf(s, p, n, false), KARENZ) == HatSpalte(s, KARENZ) &&
            HatSpalte(Lauf(s, p, n, false), ALARM) == HatSpalte(s, ALARM)
    decreases |p|
  {
    if p != [] && (Erledigt(p[0], s) || n > 0) {
      assert p[0] in p && FernVonKarenz(p[0]);
      if Erledigt(p[0], s) {
        assert s.tabellen.Keys + {p[0].tab} == s.tabellen.Keys;
        FernLaesstKarenz(s, p[1..], n);
      } else {
        var t := Ausgefuehrt(p[0], s);
        assert t.tabellen.Keys == s.tabellen.Keys + {p[0].tab};
        FernerSchritt(s, p[0]);
        FernLaesstKarenz(t, p[1..], n - 1);
      }
    }
  }

  /**
   * The grace period of row `i` after the upgrade: the old delay unless it was the default, else what the column held
   * or starts with.
   */
  function Karenz(s: Schema, i: nat): int
    requires i in s.karenz
  {
    if HatSpalte(s, ALARM) && i in s.alarm && s.alarm[i] != ALARM_VORGABE then s.alarm[i]
    else if HatSpalte(s, KARENZ) then s.karenz[i] else KARENZ_VORGABE
  }

  /**
   * In a plan that adds the grace period first and takes over the old delays later, every row ends with the right
   * value.
   */
  lemma KarenzRichtig(s: Schema, p: seq<Schritt>, q: seq<Schritt>, r: seq<Schritt>)
    requires "org_settings" in s.tabellen && forall a :: a in p || a in q || a in r ==> FernVonKarenz(a)
    requires Geordnet(p + ([Spalte("org_settings", KARENZ)] + (q + ([Uebernehmen("org_settings", ALARM)] + r))),
                      s.tabellen.Keys)
    ensures var t := Ganz(s, p + ([Spalte("org_settings", KARENZ)] + (q + ([Uebernehmen("org_settings", ALARM)] + r))));
      t.karenz.Keys == s.karenz.Keys && HatSpalte(t, KARENZ) && !HatSpalte(t, ALARM) &&
      forall i :: i in s.karenz ==> t.karenz[i] == Karenz(s, i)
  {
    var neu, alt := [Spalte("org_settings", KARENZ)], [Uebernehmen("org_settings", ALARM)];
    GanzVerkettet(s, p, neu + (q + (alt + r)));
    var s1 := Ganz(s, p);
    GanzVerkettet(s1, neu, q + (alt + r));
    var s2 := Ganz(s1, neu);
    GanzVerkettet(s2, q, alt + r);
    var s3 := Ganz(s2, q);
    GanzVerkettet(s3, alt, r);
    var s4 := Ganz(s3, alt);
    FernLaesstKarenz(s, p, |p|);
    FernLaesstKarenz(s2, q, |q|);
    FernLaesstKarenz(s4, r, |r|);
    EinSchritt(s1, neu);
    EinSchritt(s3, alt);
    assert KARENZ != ALARM by { assert KARENZ[0] != ALARM[0]; }
    hide Lauf, Ganz, Geordnet, FernVonKarenz;
  }

  lemma EinSchritt(s: Schema, plan: seq<Schritt>)
    requires |plan| == 1 && plan[0].tab in s.tabellen
    ensures Geordnet(plan, s.tabellen.Keys)
    ensures Ganz(s, plan) == if Erledigt(plan[0], s) then s else Ausgefuehrt(plan[0], s)
  {
    assert plan[1..] == [];
    assert Geordnet(plan[1..], s.tabellen.Keys + {plan[0].tab});
    var t := if Erledigt(plan[0], s) then s else Ausgefuehrt(plan[0], s);
    assert t.tabellen.Keys == s.tabellen.Keys + {plan[0].tab};
    assert Lauf(t, plan[1..], 0, false) == t == Lauf(t, plan[1..], 1, false);
  }
}
