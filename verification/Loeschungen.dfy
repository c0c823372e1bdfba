/**
 * Which rows a member merge may delete: only rows whose substitute is already there, along chains that end at a row
 * that stays.
 */
module Loeschungen {
  import opened Huelle
  import opened Tabellen

  /**
   * Row `i` names a loser in column `c`, row `j` names its winner there, and with all ids of `ersatz` replaced the two
   * agree on the rest of the unique group `g` as well.
   */
  predicate GegenstueckIn(t: Tabelle, spalten: set<string>, ersatz: map<int, int>, c: string, g: seq<string>, i: nat,
                          j: nat) {
    && i in t.zeilen && j in t.zeilen && c in spalten && Geprueft(t, c, g)
    && c in t.zeilen[i] && c in t.zeilen[j] && t.zeilen[i][c].Zahl? && t.zeilen[i][c].n in ersatz
    && t.zeilen[j][c] == Zahl(ersatz[t.zeilen[i][c].n])
    && StimmenUeberein(Rest(g, c), Ersetzt(t.zeilen[i], spalten, ersatz), Ersetzt(t.zeilen[j], spalten, ersatz))
  }

  ghost predicate HatGegenstueck(t: Tabelle, spalten: set<string>, ersatz: map<int, int>, i: nat, j: nat) {
    exists c, g :: GegenstueckIn(t, spalten, ersatz, c, g, i, j)
  }

  ghost function Gegenstuecke(t: Tabelle, spalten: set<string>, ersatz: map<int, int>): (nat, nat) -> bool {
    (i: nat, j: nat) => HatGegenstueck(t, spalten, ersatz, i, j)
  }

  /** Row `i` of `t` has a row of `u` to fall back on: its counterpart, or the counterpart's counterpart, and so on. */
  ghost predicate Aufgehoben(t: Tabelle, u: Tabelle, spalten: set<string>, ersatz: map<int, int>, i: nat) {
    exists j :: j in u.zeilen && Verbunden(Gegenstuecke(t, spalten, ersatz), i, j)
  }

  /** Every row of `t` that is missing in `u` is kept there by a counterpart. */
  ghost predicate Erklaert(t: Tabelle, u: Tabelle, spalten: set<string>, ersatz: map<int, int>) {
    forall i :: i in t.zeilen && i !in u.zeilen ==> Aufgehoben(t, u, spalten, ersatz, i)
  }

  predicate NenntVerlierer(z: Zeile, spalten: set<string>, ersatz: map<int, int>) {
    exists c :: c in spalten && c in z && z[c].Zahl? && z[c].n in ersatz
  }

  // ---------------------------------------------------------------- what an explained deletion means

  /** A missing row names a loser, and another row named the winner in its place and agreed on a whole unique group. */
  lemma GeloeschteWarDoppelt(t: Tabelle, u: Tabelle, spalten: set<string>, ersatz: map<int, int>, i: nat)
      returns (c: string, g: seq<string>, j: nat)
    requires Erklaert(t, u, spalten, ersatz) && i in t.zeilen && i !in u.zeilen
    requires forall a :: a in ersatz ==> ersatz[a] !in ersatz
    ensures GegenstueckIn(t, spalten, ersatz, c, g, i, j) && j != i
    ensures StimmenUeberein(g, Ersetzt(t.zeilen[i], spalten, ersatz), Ersetzt(t.zeilen[j], spalten, ersatz))
  {
    assert Aufgehoben(t, u, spalten, ersatz, i);
    var k :| k in u.zeilen && Verbunden(Gegenstuecke(t, spalten, ersatz), i, k);
    var weg :| Weg(Gegenstuecke(t, spalten, ersatz), i, weg, k);
    j := weg[0];
    assert HatGegenstueck(t, spalten, ersatz, i, j);
    c, g :| GegenstueckIn(t, spalten, ersatz, c, g, i, j);
  }

  /** Rows that name no loser are never deleted. */
  lemma UnbeteiligteBleiben(t: Tabelle, u: Tabelle, spalten: set<string>, ersatz: map<int, int>, i: nat)
    requires Erklaert(t, u, spalten, ersatz) && (forall a :: a in ersatz ==> ersatz[a] !in ersatz)
    requires i in t.zeilen && !NenntVerlierer(t.zeilen[i], spalten, ersatz)
    ensures i in u.zeilen
  {
    if i !in u.zeilen {
      var c, g, j := GeloeschteWarDoppelt(t, u, spalten, ersatz, i);
    }
  }

  /** Losing rows can empty no table. */
  lemma TabelleWirdNichtLeer(t: Tabelle, u: Tabelle, spalten: set<string>, ersatz: map<int, int>)
    requires Erklaert(t, u, spalten, ersatz) && t.zeilen != map[]
    ensures u.zeilen != map[]
  {
    var i :| i in t.zeilen;
    if i !in u.zeilen { assert Aufgehoben(t, u, spalten, ersatz, i); }
  }

  // ---------------------------------------------------------------- counterparts stay counterparts

  lemma EinigBeiMehrSpalten(h: seq<string>, z: Zeile, y: Zeile, s: set<string>, c: string, ersatz: map<int, int>)
    requires StimmenUeberein(h, Ersetzt(z, s, ersatz), Ersetzt(y, s, ersatz))
    ensures StimmenUeberein(h, Ersetzt(z, s + {c}, ersatz), Ersetzt(y, s + {c}, ersatz))
  {
    forall d | d in h
      ensures d in z && d in y && Ersetzt(z, s + {c}, ersatz)[d] == Ersetzt(y, s + {c}, ersatz)[d]
    {
      assert Ersetzt(z, s, ersatz)[d] == Ersetzt(y, s, ersatz)[d];
    }
  }

  lemma EinigNachErsatz(h: seq<string>, z: Zeile, y: Zeile, s: set<string>, ersatz: map<int, int>)
    requires StimmenUeberein(h, z, y)
    ensures StimmenUeberein(h, Ersetzt(z, s, ersatz), Ersetzt(y, s, ersatz))
  {
  }

  /** Redirecting one more column. */
  lemma GegenstueckBeiMehrSpalten(t: Tabelle, s: set<string>, c: string, ersatz: map<int, int>, i: nat, j: nat)
    requires HatGegenstueck(t, s, ersatz, i, j)
    ensures HatGegenstueck(t, s + {c}, ersatz, i, j)
  {
    var d, g :| GegenstueckIn(t, s, ersatz, d, g, i, j);
    hide StimmenUeberein, Ersetzt, Geprueft;
    EinigBeiMehrSpalten(Rest(g, d), t.zeilen[i], t.zeilen[j], s, c, ersatz);
    assert GegenstueckIn(t, s + {c}, ersatz, d, g, i, j);
  }

  /** Redirecting one more member. */
  lemma GegenstueckBeiMehrPaaren(t: Tabelle, s: set<string>, ersatz: map<int, int>, alt: int, neu: int, i: nat, j: nat)
    requires HatGegenstueck(t, s, ersatz, i, j) && alt !in ersatz && alt !in ersatz.Values
    ensures HatGegenstueck(t, s, ersatz[alt := neu], i, j)
  {
    var c, g :| GegenstueckIn(t, s, ersatz, c, g, i, j);
    var z, y := t.zeilen[i], t.zeilen[j];
    hide StimmenUeberein, Ersetzt, Geprueft;
    ErsetztPaare(z, s, ersatz, alt, neu);
    ErsetztPaare(y, s, ersatz, alt, neu);
    EinigNachErsatz(Rest(g, c), Ersetzt(z, s, ersatz), Ersetzt(y, s, ersatz), s, map[alt := neu]);
    assert GegenstueckIn(t, s, ersatz[alt := neu], c, g, i, j);
  }

  /** `u` holds rows of `t` with the ids in `spalten` replaced. */
  ghost predicate TeilErsetzt(t: Tabelle, u: Tabelle, spalten: set<string>, ersatz: map<int, int>) {
    && t.pk == u.pk && t.eindeutig == u.eindeutig
    && forall i :: i in u.zeilen ==> i in t.zeilen && u.zeilen[i] == Ersetzt(t.zeilen[i], spalten, ersatz)
  }

  /** A collision found while column `c` is redirected is a counterpart in the table the run started from. */
  lemma KollisionIstGegenstueck(t: Tabelle, u: Tabelle, s: set<string>, c: string, alt: int, neu: int, g: seq<string>,
                                i: nat, j: nat)
    requires TeilErsetzt(t, u, s, map[alt := neu]) && alt != neu && Geprueft(u, c, g) &&
             KollidiertMit(u, c, alt, neu, g, i, j)
    ensures HatGegenstueck(t, s + {c}, map[alt := neu], i, j)
  {
    var z, y, e := t.zeilen[i], t.zeilen[j], map[alt := neu];
    assert t.Gruppen() == u.Gruppen();
    assert z[c] == Zahl(alt) && y[c] == Zahl(neu);
    hide StimmenUeberein, Ersetzt;
    EinigBeiMehrSpalten(Rest(g, c), z, y, s, c, e);
    assert GegenstueckIn(t, s + {c}, e, c, g, i, j);
  }

  /** A counterpart found for a later pair is a counterpart in the table the run started from. */
  lemma SpaeteresGegenstueck(t: Tabelle, u: Tabelle, s: set<string>, ersatz: map<int, int>, alt: int, neu: int, i: nat,
                             j: nat)
    requires TeilErsetzt(t, u, s, ersatz) && HatGegenstueck(u, s, map[alt := neu], i, j)
    requires alt !in ersatz && alt !in ersatz.Values && neu !in ersatz.Values
    ensures HatGegenstueck(t, s, ersatz[alt := neu], i, j)
  {
    var c, g :| GegenstueckIn(u, s, map[alt := neu], c, g, i, j);
    var z, y := t.zeilen[i], t.zeilen[j];
    assert t.Gruppen() == u.Gruppen();
    assert forall a :: a in ersatz ==> ersatz[a] in ersatz.Values;
    assert z[c] == Zahl(alt) && y[c] == Zahl(neu);
    hide StimmenUeberein, Ersetzt;
    ErsetztPaare(z, s, ersatz, alt, neu);
    ErsetztPaare(y, s, ersatz, alt, neu);
    assert GegenstueckIn(t, s, ersatz[alt := neu], c, g, i, j);
  }

  // ---------------------------------------------------------------- explanations add up

  /** One more column: what is deleted now has a counterpart that stays, and older chains are prolonged by it. */
  lemma SpalteErklaert(t: Tabelle, u: Tabelle, s: set<string>, c: string, alt: int, neu: int)
    requires TeilErsetzt(t, u, s, map[alt := neu]) && Erklaert(t, u, s, map[alt := neu]) && alt != neu
    ensures Erklaert(t, OhneKollisionen(u, c, alt, neu), s + {c}, map[alt := neu])
  {
    var e, v := map[alt := neu], OhneKollisionen(u, c, alt, neu);
    forall i | i in t.zeilen && i !in v.zeilen
      ensures Aufgehoben(t, v, s + {c}, e, i)
    {
      if i in u.zeilen {
        EbenGeloescht(t, u, s, c, alt, neu, i);
      } else {
        assert Aufgehoben(t, u, s, e, i);
        var j :| j in u.zeilen && Verbunden(Gegenstuecke(t, s, e), i, j);
        hide Verbunden, OhneKollisionen;
        MehrSpaltenMonoton(t, s, c, e, i, j);
        if j !in v.zeilen {
          EbenGeloescht(t, u, s, c, alt, neu, j);
          var k :| k in v.zeilen && Verbunden(Gegenstuecke(t, s + {c}, e), j, k);
          VerbundenTransitiv(Gegenstuecke(t, s + {c}, e), i, j, k);
        }
      }
    }
  }

  lemma MehrSpaltenMonoton(t: Tabelle, s: set<string>, c: string, ersatz: map<int, int>, i: nat, j: nat)
    requires Verbunden(Gegenstuecke(t, s, ersatz), i, j)
    ensures Verbunden(Gegenstuecke(t, s + {c}, ersatz), i, j)
  {
    forall a, b | Gegenstuecke(t, s, ersatz)(a, b)
      ensures Gegenstuecke(t, s + {c}, ersatz)(a, b)
    {
      GegenstueckBeiMehrSpalten(t, s, c, ersatz, a, b);
    }
    VerbundenMonoton(Gegenstuecke(t, s, ersatz), Gegenstuecke(t, s + {c}, ersatz), i, j);
  }

  lemma MehrSpaltenErklaeren(t: Tabelle, u: Tabelle, s: set<string>, c: string, ersatz: map<int, int>)
    requires Erklaert(t, u, s, ersatz)
    ensures Erklaert(t, u, s + {c}, ersatz)
  {
    forall i | i in t.zeilen && i !in u.zeilen
      ensures Aufgehoben(t, u, s + {c}, ersatz, i)
    {
      assert Aufgehoben(t, u, s, ersatz, i);
      var j :| j in u.zeilen && Verbunden(Gegenstuecke(t, s, ersatz), i, j);
      MehrSpaltenMonoton(t, s, c, ersatz, i, j);
    }
  }

  lemma EbenGeloescht(t: Tabelle, u: Tabelle, s: set<string>, c: string, alt: int, neu: int, i: nat)
    requires TeilErsetzt(t, u, s, map[alt := neu]) && alt != neu
    requires i in u.zeilen && i !in OhneKollisionen(u, c, alt, neu).zeilen
    ensures Aufgehoben(t, OhneKollisionen(u, c, alt, neu), s + {c}, map[alt := neu], i)
  {
    var g, j := GeloeschtHatGegenstueck(u, c, alt, neu, i);
    KollisionIstGegenstueck(t, u, s, c, alt, neu, g, i, j);
    KanteVerbindet(Gegenstuecke(t, s + {c}, map[alt := neu]), i, j);
  }

  /** One pair after the other. */
  lemma PaarErklaert(t: Tabelle, u: Tabelle, v: Tabelle, s: set<string>, ersatz: map<int, int>, alt: int, neu: int)
    requires TeilErsetzt(t, u, s, ersatz) && Erklaert(t, u, s, ersatz) && Erklaert(u, v, s, map[alt := neu])
    requires alt !in ersatz && alt !in ersatz.Values && neu !in ersatz.Values
    ensures Erklaert(t, v, s, ersatz[alt := neu])
  {
    var e := ersatz[alt := neu];
    forall i | i in t.zeilen && i !in v.zeilen
      ensures Aufgehoben(t, v, s, e, i)
    {
      if i in u.zeilen {
        SpaeterGeloescht(t, u, v, s, ersatz, alt, neu, i);
      } else {
        assert Aufgehoben(t, u, s, ersatz, i);
        var j :| j in u.zeilen && Verbunden(Gegenstuecke(t, s, ersatz), i, j);
        hide Verbunden;
        MehrPaareMonoton(t, s, ersatz, alt, neu, i, j);
        if j !in v.zeilen {
          SpaeterGeloescht(t, u, v, s, ersatz, alt, neu, j);
          var k :| k in v.zeilen && Verbunden(Gegenstuecke(t, s, e), j, k);
          VerbundenTransitiv(Gegenstuecke(t, s, e), i, j, k);
        }
      }
    }
  }

  lemma MehrPaareMonoton(t: Tabelle, s: set<string>, ersatz: map<int, int>, alt: int, neu: int, i: nat, j: nat)
    requires Verbunden(Gegenstuecke(t, s, ersatz), i, j) && alt !in ersatz && alt !in ersatz.Values
    ensures Verbunden(Gegenstuecke(t, s, ersatz[alt := neu]), i, j)
  {
    forall a, b | Gegenstuecke(t, s, ersatz)(a, b)
      ensures Gegenstuecke(t, s, ersatz[alt := neu])(a, b)
    {
      GegenstueckBeiMehrPaaren(t, s, ersatz, alt, neu, a, b);
    }
    VerbundenMonoton(Gegenstuecke(t, s, ersatz), Gegenstuecke(t, s, ersatz[alt := neu]), i, j);
  }

  lemma SpaeterGeloescht(t: Tabelle, u: Tabelle, v: Tabelle, s: set<string>, ersatz: map<int, int>, alt: int, neu: int,
                         i: nat)
    requires TeilErsetzt(t, u, s, ersatz) && Erklaert(u, v, s, map[alt := neu]) && i in u.zeilen && i !in v.zeilen
    requires alt !in ersatz && alt !in ersatz.Values && neu !in ersatz.Values
    ensures Aufgehoben(t, v, s, ersatz[alt := neu], i)
  {
    assert Aufgehoben(u, v, s, map[alt := neu], i);
    var j :| j in v.zeilen && Verbunden(Gegenstuecke(u, s, map[alt := neu]), i, j);
    forall a, b | Gegenstuecke(u, s, map[alt := neu])(a, b)
      ensures Gegenstuecke(t, s, ersatz[alt := neu])(a, b)
    {
      SpaeteresGegenstueck(t, u, s, ersatz, alt, neu, a, b);
    }
    hide TeilErsetzt, Erklaert, Gegenstuecke;
    VerbundenMonoton(Gegenstuecke(u, s, map[alt := neu]), Gegenstuecke(t, s, ersatz[alt := neu]), i, j);
  }
}
