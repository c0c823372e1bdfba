/** Tables with unique column groups, and one step of redirecting a reference column. */
module Tabellen {

  datatype Wert = Null | Zahl(n: int) | Text(s: string)

  type Zeile = map<string, Wert>

  /** A table: its columns, primary key, further unique groups, and rows under a hidden row number. */
  datatype Tabelle = Tabelle(spalten: set<string>, pk: seq<string>, eindeutig: seq<seq<string>>,
                             zeilen: map<nat, Zeile>) {

    function Gruppen(): seq<seq<string>> {
      [pk] + eindeutig
    }

    /** Every row has exactly the table's columns, there is a primary key, and it is never NULL. */
    ghost predicate Wohlgeformt() {
      && pk != []
      && (forall g, c :: g in Gruppen() && c in g ==> c in spalten)
      && (forall i :: i in zeilen ==> zeilen[i].Keys == spalten)
      && (forall i, c :: i in zeilen && c in pk ==> zeilen[i][c] != Null)
    }

    /** Every unique group, the primary key included, is free of duplicates. */
    ghost predicate Eindeutig()
      requires Wohlgeformt()
    {
      forall g, i, j :: g in Gruppen() && i in zeilen && j in zeilen && i != j ==> !Dublette(g, zeilen[i], zeilen[j])
    }

    ghost predicate Gueltig() {
      Wohlgeformt() && Eindeutig()
    }
  }

  predicate StimmenUeberein(spalten: seq<string>, z: Zeile, y: Zeile) {
    forall c :: c in spalten ==> c in z && c in y && z[c] == y[c]
  }

  /** Two rows violate a unique group when they agree on it and nothing in it is NULL. */
  ghost predicate Dublette(g: seq<string>, z: Zeile, y: Zeile) {
    StimmenUeberein(g, z, y) && forall c :: c in g ==> z[c] != Null
  }

  /** `[name for name in gruppe if name != member_col]` */
  function Rest(g: seq<string>, spalte: string): (r: seq<string>)
    ensures forall c :: c in r <==> c in g && c != spalte
  {
    if g == [] then []
    else if g[0] == spalte then Rest(g[1..], spalte)
    else [g[0]] + Rest(g[1..], spalte)
  }

  // ---------------------------------------------------------------- substitution

  /** The reference columns `spalten` of a row with every id in `ersatz` replaced. */
  function Ersetzt(z: Zeile, spalten: set<string>, ersatz: map<int, int>): Zeile {
    map c | c in z :: if c in spalten && z[c].Zahl? && z[c].n in ersatz then Zahl(ersatz[z[c].n]) else z[c]
  }

  /** Redirecting one more column. */
  lemma ErsetztSpalten(z: Zeile, s: set<string>, c: string, ersatz: map<int, int>)
    requires forall a :: a in ersatz ==> ersatz[a] !in ersatz
    ensures Ersetzt(Ersetzt(z, s, ersatz), {c}, ersatz) == Ersetzt(z, s + {c}, ersatz)
  {
  }

  /** Redirecting one more id: sequential and simultaneous substitution agree while no winner is a loser. */
  lemma ErsetztPaare(z: Zeile, s: set<string>, ersatz: map<int, int>, alt: int, neu: int)
    requires alt !in ersatz.Values && alt !in ersatz
    ensures Ersetzt(Ersetzt(z, s, ersatz), s, map[alt := neu]) == Ersetzt(z, s, ersatz[alt := neu])
  {
    forall c | c in z && c in s && z[c].Zahl? && z[c].n in ersatz
      ensures ersatz[z[c].n] != alt
    {
      assert ersatz[z[c].n] in ersatz.Values;
    }
  }

  // ---------------------------------------------------------------- one column, one pair of ids

  /** `g` is a unique group the collision check looks at for `spalte`. */
  predicate Geprueft(t: Tabelle, spalte: string, g: seq<string>) {
    g in t.Gruppen() && spalte in g && |g| > 1
  }

  /** Row `i` of the loser agrees with row `j` of the winner on the rest of the unique group `g`. */
  predicate KollidiertMit(t: Tabelle, spalte: string, alt: int, neu: int, g: seq<string>, i: nat, j: nat) {
    && i in t.zeilen && j in t.zeilen && spalte in t.zeilen[i] && spalte in t.zeilen[j]
    && t.zeilen[i][spalte] == Zahl(alt) && t.zeilen[j][spalte] == Zahl(neu)
    && StimmenUeberein(Rest(g, spalte), t.zeilen[i], t.zeilen[j])
  }

  ghost predicate Kollidiert(t: Tabelle, spalte: string, alt: int, neu: int, i: nat) {
    exists g, j :: Geprueft(t, spalte, g) && KollidiertMit(t, spalte, alt, neu, g, i, j)
  }

  /** The table without the loser rows that collide. */
  ghost function OhneKollisionen(t: Tabelle, spalte: string, alt: int, neu: int): Tabelle {
    t.(zeilen := map i | i in t.zeilen && !Kollidiert(t, spalte, alt, neu, i) :: t.zeilen[i])
  }

  /** `UPDATE ... SET spalte=neu WHERE spalte=alt` */
  function Umgehaengt(t: Tabelle, spalte: string, alt: int, neu: int): Tabelle {
    t.(zeilen := map i | i in t.zeilen :: Ersetzt(t.zeilen[i], {spalte}, map[alt := neu]))
  }

  /**
   * A deleted row was redundant at that moment: a surviving winner row agreed with it on the rest of a unique group.
   */
  lemma GeloeschtHatGegenstueck(t: Tabelle, spalte: string, alt: int, neu: int, i: nat) returns (g: seq<string>, j: nat)
    requires alt != neu && i in t.zeilen && i !in OhneKollisionen(t, spalte, alt, neu).zeilen
    ensures Geprueft(t, spalte, g) && KollidiertMit(t, spalte, alt, neu, g, i, j)
    ensures j in OhneKollisionen(t, spalte, alt, neu).zeilen
  {
    g, j :| Geprueft(t, spalte, g) && KollidiertMit(t, spalte, alt, neu, g, i, j);
  }

  /**
   * The deleted row would have broken the key exactly when nothing in the rest of it is NULL; the check looks at NULLs
   * as equal.
   */
  lemma LoeschenNoetigGenauDann(t: Tabelle, spalte: string, alt: int, neu: int, g: seq<string>, i: nat, j: nat)
    requires Geprueft(t, spalte, g) && KollidiertMit(t, spalte, alt, neu, g, i, j)
    ensures Dublette(g, Ersetzt(t.zeilen[i], {spalte}, map[alt := neu]),
                     Ersetzt(t.zeilen[j], {spalte}, map[alt := neu])) <==>
            forall c :: c in Rest(g, spalte) ==> t.zeilen[i][c] != Null
  {
    var z, y := t.zeilen[i], t.zeilen[j];
    hide Ersetzt;
    EineSpalteErsetzt(z, spalte, alt, neu);
    EineSpalteErsetzt(y, spalte, alt, neu);
    forall c | c in g
      ensures c in z && c in y && (c != spalte ==> c in Rest(g, spalte) && z[c] == y[c])
    {
    }
  }

  /** Two rows that become duplicates by the redirect are a loser row and a winner row that agree on the rest. */
  lemma NeueDublette(g: seq<string>, z: Zeile, y: Zeile, spalte: string, alt: int, neu: int)
    requires z.Keys == y.Keys && spalte in z && !Dublette(g, z, y)
    requires Dublette(g, Ersetzt(z, {spalte}, map[alt := neu]), Ersetzt(y, {spalte}, map[alt := neu]))
    ensures spalte in g && StimmenUeberein(Rest(g, spalte), z, y) && StimmenUeberein(Rest(g, spalte), y, z)
    ensures (z[spalte] == Zahl(alt) && y[spalte] == Zahl(neu)) || (z[spalte] == Zahl(neu) && y[spalte] == Zahl(alt))
  {
    hide Ersetzt;
    EineSpalteErsetzt(z, spalte, alt, neu);
    EineSpalteErsetzt(y, spalte, alt, neu);
  }

  lemma EineSpalteErsetzt(z: Zeile, spalte: string, alt: int, neu: int)
    ensures Ersetzt(z, {spalte}, map[alt := neu]).Keys == z.Keys
    ensures forall c {:trigger Ersetzt(z, {spalte}, map[alt := neu])[c]} :: c in z ==>
      Ersetzt(z, {spalte}, map[alt := neu])[c] == if c == spalte && z[c] == Zahl(alt) then Zahl(neu) else z[c]
  {
  }

  lemma NeueKollision(t: Tabelle, spalte: string, alt: int, neu: int, g: seq<string>, i: nat, j: nat)
    requires t.Gueltig() && spalte in t.spalten && g in t.Gruppen()
    requires i in t.zeilen && j in t.zeilen && i != j && !Kollidiert(t, spalte, alt, neu, i) &&
             !Kollidiert(t, spalte, alt, neu, j)
    requires Dublette(g, Ersetzt(t.zeilen[i], {spalte}, map[alt := neu]),
                      Ersetzt(t.zeilen[j], {spalte}, map[alt := neu]))
    ensures EinzelschluesselBelegt(t, spalte, alt, neu)
  {
    hide Kollidiert, Ersetzt, Dublette, EinzelschluesselBelegt;
    NochKeineDublette(t, g, i, j, spalte);
    NeueDublette(g, t.zeilen[i], t.zeilen[j], spalte, alt, neu);
    if t.zeilen[i][spalte] == Zahl(alt) && t.zeilen[j][spalte] == Zahl(neu) {
      if |g| > 1 { IstKollision(t, spalte, alt, neu, g, i, j); } else { IstBelegt(t, spalte, alt, neu, g, i, j); }
    } else {
      if |g| > 1 { IstKollision(t, spalte, alt, neu, g, j, i); } else { IstBelegt(t, spalte, alt, neu, g, j, i); }
    }
  }

  /** A one-column unique key on the reference holds both a loser row that stays and a winner row. */
  ghost predicate EinzelschluesselBelegt(t: Tabelle, spalte: string, alt: int, neu: int) {
    exists g, i, j :: EinzelnBelegt(t, spalte, alt, neu, g, i, j)
  }

  ghost predicate EinzelnBelegt(t: Tabelle, spalte: string, alt: int, neu: int, g: seq<string>, i: nat, j: nat) {
    && g in t.Gruppen() && |g| <= 1 && spalte in g && i in t.zeilen && j in t.zeilen
    && spalte in t.zeilen[i] && spalte in t.zeilen[j] && t.zeilen[i][spalte] == Zahl(alt) &&
      t.zeilen[j][spalte] == Zahl(neu)
    && !Kollidiert(t, spalte, alt, neu, i)
  }

  lemma IstBelegt(t: Tabelle, spalte: string, alt: int, neu: int, g: seq<string>, i: nat, j: nat)
    requires EinzelnBelegt(t, spalte, alt, neu, g, i, j)
    ensures EinzelschluesselBelegt(t, spalte, alt, neu)
  {
  }

  lemma NochKeineDublette(t: Tabelle, g: seq<string>, i: nat, j: nat, spalte: string)
    requires t.Gueltig() && spalte in t.spalten && g in t.Gruppen() && i in t.zeilen && j in t.zeilen && i != j
    ensures !Dublette(g, t.zeilen[i], t.zeilen[j])
    ensures t.zeilen[i].Keys == t.zeilen[j].Keys && spalte in t.zeilen[i]
  {
  }

  lemma IstKollision(t: Tabelle, spalte: string, alt: int, neu: int, g: seq<string>, i: nat, j: nat)
    requires g in t.Gruppen() && spalte in g && |g| > 1
    requires i in t.zeilen && j in t.zeilen && spalte in t.zeilen[i] && spalte in t.zeilen[j]
    requires t.zeilen[i][spalte] == Zahl(alt) && t.zeilen[j][spalte] == Zahl(neu)
    requires StimmenUeberein(Rest(g, spalte), t.zeilen[i], t.zeilen[j])
    ensures Kollidiert(t, spalte, alt, neu, i)
  {
    assert Geprueft(t, spalte, g) && KollidiertMit(t, spalte, alt, neu, g, i, j);
  }

  /** No reference column is a unique group of its own. */
  ghost predicate KeineEinzelschluessel(t: Tabelle, spalte: string) {
    forall g :: g in t.Gruppen() && spalte in g ==> |g| > 1
  }

  /** Removing the collisions and redirecting keeps every unique group exactly when no one-column key is taken twice. */
  lemma SchrittGenauDannGueltig(t: Tabelle, spalte: string, alt: int, neu: int)
    requires t.Gueltig() && spalte in t.spalten && alt != neu
    ensures Umgehaengt(OhneKollisionen(t, spalte, alt, neu), spalte, alt, neu).Gueltig() <==>
            !EinzelschluesselBelegt(t, spalte, alt, neu)
  {
    var v := Umgehaengt(OhneKollisionen(t, spalte, alt, neu), spalte, alt, neu);
    SchrittErhaeltForm(t, spalte, alt, neu);
    forall g, i, j | g in v.Gruppen() && i in v.zeilen && j in v.zeilen && i != j
      ensures Dublette(g, v.zeilen[i], v.zeilen[j]) ==> EinzelschluesselBelegt(t, spalte, alt, neu)
    {
      hide Kollidiert, Dublette, Ersetzt, EinzelschluesselBelegt;
      if Dublette(g, v.zeilen[i], v.zeilen[j]) { NeueKollision(t, spalte, alt, neu, g, i, j); }
    }
    if EinzelschluesselBelegt(t, spalte, alt, neu) {
      var g, i, j :| EinzelnBelegt(t, spalte, alt, neu, g, i, j);
      BelegtGibtDublette(t, spalte, alt, neu, g, i, j);
    }
  }

  lemma BelegtGibtDublette(t: Tabelle, spalte: string, alt: int, neu: int, g: seq<string>, i: nat, j: nat)
    requires t.Gueltig() && spalte in t.spalten && alt != neu && EinzelnBelegt(t, spalte, alt, neu, g, i, j)
    ensures !Umgehaengt(OhneKollisionen(t, spalte, alt, neu), spalte, alt, neu).Gueltig()
  {
    var v := Umgehaengt(OhneKollisionen(t, spalte, alt, neu), spalte, alt, neu);
    assert v.Gruppen() == t.Gruppen() && i in v.zeilen && j in v.zeilen && i != j;
    hide Ersetzt, Kollidiert, Dublette;
    BeideGleich(g, t.zeilen[i], t.zeilen[j], spalte, alt, neu);
  }

  lemma BeideGleich(g: seq<string>, z: Zeile, y: Zeile, spalte: string, alt: int, neu: int)
    requires |g| <= 1 && spalte in g && spalte in z && spalte in y && z[spalte] == Zahl(alt) && y[spalte] == Zahl(neu)
    ensures Dublette(g, Ersetzt(z, {spalte}, map[alt := neu]), Ersetzt(y, {spalte}, map[alt := neu]))
  {
    assert forall c :: c in g ==> c == spalte;
  }

  lemma SchrittErhaeltGueltigkeit(t: Tabelle, spalte: string, alt: int, neu: int)
    requires t.Gueltig() && spalte in t.spalten && KeineEinzelschluessel(t, spalte) && alt != neu
    ensures Umgehaengt(OhneKollisionen(t, spalte, alt, neu), spalte, alt, neu).Gueltig()
  {
    hide Tabelle.Gueltig;
    SchrittGenauDannGueltig(t, spalte, alt, neu);
  }

  lemma SchrittErhaeltForm(t: Tabelle, spalte: string, alt: int, neu: int)
    requires t.Wohlgeformt() && spalte in t.spalten
    ensures Umgehaengt(OhneKollisionen(t, spalte, alt, neu), spalte, alt, neu).Wohlgeformt()
  {
    var v := Umgehaengt(OhneKollisionen(t, spalte, alt, neu), spalte, alt, neu);
    assert v.Gruppen() == t.Gruppen();
    assert t.pk in t.Gruppen();
  }
}
