/**
 * `upgrade` of alembic/versions/0224_objekt_kontakt_telefon_freigabe.py as a run of statements that may be cut off at
 * any of them: before the commit a DDL statement begins with, or right after it.
 */
module UniqueTausch {
  import opened Grundlagen
  import opened Tabellen
  import T = Telefone

  const UQ := "uq_objekt_kontakt_benachrichtigung"
  const HILFSINDEX := "ix_okb_incident_migration"
  const UQ_NEU: seq<string> := ["incident_id", "objekt_kontakt_id", "kanal", "empfaenger"]
  const UQ_ALT: seq<string> := ["incident_id", "objekt_kontakt_id", "kanal"]
  const SMS := "benachrichtigung_sms"
  const TELEFON := "benachrichtigung_telefon"
  const INFO := "kontakt_info_enabled"

  datatype Index = Index(spalten: seq<string>, eindeutig: bool)

  /** Columns of `objekt_kontakt` and `objekt`, the contacts, and the notification table with its indexes. */
  datatype Stand = Stand(kontaktSpalten: set<string>, objektSpalten: set<string>, kontakte: map<nat, T.Zeile>,
                         indizes: map<string, Index>, benachrichtigungen: map<nat, Zeile>)

  datatype Lauf = Laeuft | Abgebrochen | Fehler(text: string)

  /**
   * A connection: what it sees, what is committed, how many more DDL statements it survives, and whether the one it
   * does not survive has committed what was pending.
   */
  datatype Sitzung = Sitzung(sicht: Stand, fest: Stand, rest: nat, halb: bool, lauf: Lauf)

  // ---------------------------------------------------------------- statements

  function Abbruch(s: Sitzung): Sitzung {
    s.(fest := if s.halb then s.sicht else s.fest, lauf := Abgebrochen)
  }

  /** DDL commits what is pending, then itself. */
  function Ddl(s: Sitzung, neu: Stand): Sitzung {
    if !s.lauf.Laeuft? then s
    else if s.rest == 0 then Abbruch(s)
    else s.(sicht := neu, fest := neu, rest := s.rest - 1)
  }

  /** A refused DDL statement has committed what was pending, too. */
  function Scheitert(s: Sitzung, text: string): Sitzung {
    if !s.lauf.Laeuft? then s
    else if s.rest == 0 then Abbruch(s)
    else s.(fest := s.sicht, lauf := Fehler(text))
  }

  predicate DecktFremdschluessel(i: Index) {
    i.spalten != [] && i.spalten[0] == "incident_id"
  }

  /** Some index leads with `incident_id`: InnoDB insists on one for the foreign key. */
  ghost predicate Gedeckt(indizes: map<string, Index>) {
    exists n :: n in indizes && DecktFremdschluessel(indizes[n])
  }

  lemma GedecktGenauDann(indizes: map<string, Index>)
    ensures Gedeckt(indizes) <==>
      exists n :: n in indizes && |indizes[n].spalten| > 0 && indizes[n].spalten[0] == "incident_id"
  {
    forall n | n in indizes
      ensures DecktFremdschluessel(indizes[n]) <==>
        |indizes[n].spalten| > 0 && indizes[n].spalten[0] == "incident_id"
    {
    }
  }

  ghost predicate EindeutigAuf(zeilen: map<nat, Zeile>, spalten: seq<string>) {
    forall i, j :: i in zeilen && j in zeilen && i != j ==> !Dublette(spalten, zeilen[i], zeilen[j])
  }

  ghost function ErstelleIndex(s: Sitzung, name: string, index: Index): Sitzung {
    if name in s.sicht.indizes then Scheitert(s, "1061 Duplicate key name")
    else if index.eindeutig && !EindeutigAuf(s.sicht.benachrichtigungen, index.spalten) then
      Scheitert(s, "1062 Duplicate entry")
    else Ddl(s, s.sicht.(indizes := s.sicht.indizes[name := index]))
  }

  ghost function LoescheIndex(s: Sitzung, name: string): Sitzung {
    if name !in s.sicht.indizes then Scheitert(s, "1091 Can't DROP")
    else if Gedeckt(s.sicht.indizes) && !Gedeckt(s.sicht.indizes - {name}) then
      Scheitert(s, "1553 needed in a foreign key constraint")
    else Ddl(s, s.sicht.(indizes := s.sicht.indizes - {name}))
  }

  /** Index `n` leads with `incident_id`. */
  predicate FuehrtMitEinsatz(indizes: map<string, Index>, n: string) {
    n in indizes && |indizes[n].spalten| > 0 && indizes[n].spalten[0] == "incident_id"
  }

  /** Dropping the only index that leads with `incident_id` is refused, as the helper index is there to prevent. */
  lemma LoeschenVerweigertGenauDann(s: Sitzung, name: string)
    requires s.lauf.Laeuft? && s.rest > 0
    ensures LoescheIndex(s, name).lauf.Fehler? <==>
            name !in s.sicht.indizes ||
            (FuehrtMitEinsatz(s.sicht.indizes, name) && forall n :: FuehrtMitEinsatz(s.sicht.indizes, n) ==> n == name)
    ensures !LoescheIndex(s, name).lauf.Fehler? ==> LoescheIndex(s, name).fest.indizes == s.sicht.indizes - {name}
  {
    var i := s.sicht.indizes;
    forall n
      ensures n in i && DecktFremdschluessel(i[n]) <==> FuehrtMitEinsatz(i, n)
    {
    }
    hide DecktFremdschluessel, FuehrtMitEinsatz;
    if n :| n in i && n != name && DecktFremdschluessel(i[n]) { assert n in i - {name}; }
  }

  /**
   * Creating an index is refused when its name is taken, and when it is unique and two rows agree on it without NULLs.
   */
  lemma AnlegenVerweigertGenauDann(s: Sitzung, name: string, index: Index)
    requires s.lauf.Laeuft? && s.rest > 0
    ensures ErstelleIndex(s, name, index).lauf.Fehler? <==>
            name in s.sicht.indizes ||
            (index.eindeutig && exists i, j :: DoppeltAuf(s.sicht.benachrichtigungen, index.spalten, i, j))
    ensures !ErstelleIndex(s, name, index).lauf.Fehler? ==>
              ErstelleIndex(s, name, index).fest.indizes == s.sicht.indizes[name := index]
  {
    if i, j :| DoppeltAuf(s.sicht.benachrichtigungen, index.spalten, i, j) {
      assert Dublette(index.spalten, s.sicht.benachrichtigungen[i], s.sicht.benachrichtigungen[j]);
    }
    if !EindeutigAuf(s.sicht.benachrichtigungen, index.spalten) {
      var z := s.sicht.benachrichtigungen;
      var i, j :| i in z && j in z && i != j && Dublette(index.spalten, z[i], z[j]);
      assert DoppeltAuf(z, index.spalten, i, j);
    }
  }

  /** Two rows have the same values, none of them NULL, in all of these columns. */
  ghost predicate DoppeltAuf(zeilen: map<nat, Zeile>, spalten: seq<string>, i: nat, j: nat) {
    && i in zeilen && j in zeilen && i != j
    && forall c :: c in spalten ==>
      c in zeilen[i] && c in zeilen[j] && zeilen[i][c] == zeilen[j][c] && zeilen[i][c] != Null
  }

  function LoescheKontaktSpalte(s: Sitzung, name: string): Sitzung {
    Ddl(s, s.sicht.(kontaktSpalten := s.sicht.kontaktSpalten - {name}))
  }

  // ---------------------------------------------------------------- the migration

  /** Data only while both old columns are there. */
  function Datenschritt(s: Sitzung): Sitzung {
    if s.lauf.Laeuft? && SMS in s.sicht.kontaktSpalten && TELEFON in s.sicht.kontaktSpalten
    then s.(sicht := s.sicht.(kontakte := T.Konvertiert(s.sicht.kontakte)))
    else s
  }

  function SpaltenWeg(s: Sitzung): Sitzung {
    var t := if TELEFON in s.sicht.kontaktSpalten then LoescheKontaktSpalte(s, TELEFON) else s;
    if SMS in s.sicht.kontaktSpalten then LoescheKontaktSpalte(t, SMS) else t
  }

  function InfoWeg(s: Sitzung): Sitzung {
    if INFO in s.sicht.objektSpalten then Ddl(s, s.sicht.(objektSpalten := s.sicht.objektSpalten - {INFO})) else s
  }

  /** `_unique_spalten` */
  function UniqueSpalten(indizes: map<string, Index>, name: string): Option<seq<string>> {
    if name in indizes && indizes[name].eindeutig then Some(indizes[name].spalten) else None
  }

  /** A unique index of that name on just these columns. */
  lemma UniqueSpaltenGenau(indizes: map<string, Index>, name: string, spalten: seq<string>)
    ensures UniqueSpalten(indizes, name) == Some(spalten) <==> name in indizes && indizes[name] == Index(spalten, true)
  {
  }

  /** `_tausche_unique` on MySQL. */
  ghost function TauscheUnique(s: Sitzung, ziel: seq<string>): Sitzung {
    if UniqueSpalten(s.sicht.indizes, UQ) == Some(ziel) then s else
    var a := ErstelleIndex(s, HILFSINDEX, Index(["incident_id"], false));
    var b := LoescheIndex(a, UQ);
    var c := ErstelleIndex(b, UQ, Index(ziel, true));
    LoescheIndex(c, HILFSINDEX)
  }

  ghost function Upgrade(s: Sitzung): Sitzung {
    TauscheUnique(InfoWeg(SpaltenWeg(Datenschritt(s))), UQ_NEU)
  }

  /** A fresh connection that survives `n` DDL statements, and of the next one perhaps the commit it begins with. */
  function Verbindung(stand: Stand, n: nat, halb: bool): Sitzung {
    Sitzung(stand, stand, n, halb, Laeuft)
  }

  /** What is in the database once the connection is gone: pending rows are lost unless the run came to its end. */
  function Danach(s: Sitzung): Stand {
    if s.lauf.Laeuft? then s.sicht else s.fest
  }

  const GENUG := 8

  /** Where a run is cut off. */
  datatype Bruch = Bruch(n: nat, halb: bool)

  /** The database after one run that is cut off. */
  ghost function NachLauf(st: Stand, b: Bruch): Stand {
    Danach(Upgrade(Verbindung(st, b.n, b.halb)))
  }

  /** The database after any number of runs, each of them cut off or not. */
  ghost function NachLaeufen(st: Stand, brueche: seq<Bruch>): Stand
    decreases |brueche|
  {
    if brueche == [] then st else NachLaeufen(NachLauf(st, brueche[0]), brueche[1..])
  }

  ghost function Ganz(st: Stand): Sitzung {
    Upgrade(Verbindung(st, GENUG, false))
  }

  /** The run is cut off right after the converted rows are committed, before a column is gone. */
  predicate BrichtNachDaten(st: Stand, b: Bruch) {
    BeideSpalten(st) && b == Bruch(0, true)
  }

  ghost function DatenBrueche(st: Stand, brueche: seq<Bruch>): nat
    decreases |brueche|
  {
    if brueche == [] then 0
    else (if BrichtNachDaten(st, brueche[0]) then 1 else 0) + DatenBrueche(NachLauf(st, brueche[0]), brueche[1..])
  }

  // ---------------------------------------------------------------- states a first run starts from

  /** The schema of revision 0223: old unique key, no helper index, rows that obey the old key. */
  ghost predicate Stand0223(st: Stand) {
    && UQ in st.indizes && st.indizes[UQ] == Index(UQ_ALT, true) && HILFSINDEX !in st.indizes
    && EindeutigAuf(st.benachrichtigungen, UQ_ALT)
    && (SMS in st.kontaktSpalten <==> TELEFON in st.kontaktSpalten)
  }

  /** More columns in a unique key forbid less. */
  lemma MehrSpaltenVerbietenWeniger(zeilen: map<nat, Zeile>, alt: seq<string>, neu: seq<string>)
    requires EindeutigAuf(zeilen, alt) && forall c :: c in alt ==> c in neu
    ensures EindeutigAuf(zeilen, neu)
  {
    forall i, j | i in zeilen && j in zeilen && i != j
      ensures !Dublette(neu, zeilen[i], zeilen[j])
    {
      assert !Dublette(alt, zeilen[i], zeilen[j]);
    }
  }

  lemma AltInNeu(st: Stand)
    requires EindeutigAuf(st.benachrichtigungen, UQ_ALT)
    ensures EindeutigAuf(st.benachrichtigungen, UQ_NEU)
  {
    forall c | c in UQ_ALT
      ensures c in UQ_NEU
    {
      var i :| 0 <= i < |UQ_ALT| && UQ_ALT[i] == c;
      assert UQ_NEU[i] == c;
    }
    MehrSpaltenVerbietenWeniger(st.benachrichtigungen, UQ_ALT, UQ_NEU);
  }

  // ---------------------------------------------------------------- the swap

  ghost function MitIndizes(st: Stand, indizes: map<string, Index>): Stand {
    st.(indizes := indizes)
  }

  ghost function Swap(i: map<string, Index>, schritt: nat): map<string, Index>
    requires schritt <= 4
  {
    var hilfe := Index(["incident_id"], false);
    if schritt == 0 then i
    else if schritt == 1 then i[HILFSINDEX := hilfe]
    else if schritt == 2 then i[HILFSINDEX := hilfe] - {UQ}
    else if schritt == 3 then (i[HILFSINDEX := hilfe] - {UQ})[UQ := Index(UQ_NEU, true)]
    else (i[HILFSINDEX := hilfe] - {UQ})[UQ := Index(UQ_NEU, true)] - {HILFSINDEX}
  }

  lemma TauschIstGedeckt(i: map<string, Index>, schritt: nat)
    requires schritt <= 4 && UQ in i && i[UQ] == Index(UQ_ALT, true) && HILFSINDEX !in i
    ensures Gedeckt(Swap(i, schritt))
  {
    var j := Swap(i, schritt);
    assert UQ != HILFSINDEX by { assert UQ[0] == 'u' && HILFSINDEX[0] == 'i'; }
    if schritt == 0 || schritt >= 3 {
      assert DecktFremdschluessel(j[UQ]);
    } else {
      assert DecktFremdschluessel(j[HILFSINDEX]);
    }
  }

  /** With nothing pending it does not matter where inside a statement the run is cut off. */
  lemma DdlOhneAusstehendes(s: Sitzung, neu: Stand)
    requires s.lauf.Laeuft? && s.sicht == s.fest
    ensures Ddl(s, neu) ==
            if s.rest == 0 then s.(lauf := Abgebrochen)
            else s.(sicht := neu, fest := neu, rest := s.rest - 1)
  {
  }

  lemma StehtStill(s: Sitzung, name: string, index: Index)
    requires !s.lauf.Laeuft?
    ensures ErstelleIndex(s, name, index) == s && LoescheIndex(s, name) == s
  {
    hide EindeutigAuf, Gedeckt;
  }

  lemma Angelegt(s: Sitzung, name: string, index: Index)
    requires s.lauf.Laeuft? && s.sicht == s.fest && name !in s.sicht.indizes
    requires index.eindeutig ==> EindeutigAuf(s.sicht.benachrichtigungen, index.spalten)
    ensures ErstelleIndex(s, name, index) ==
            if s.rest == 0 then s.(lauf := Abgebrochen)
            else NachDdl(s, s.sicht.indizes[name := index])
  {
    hide EindeutigAuf;
    DdlOhneAusstehendes(s, s.sicht.(indizes := s.sicht.indizes[name := index]));
  }

  lemma Abgelegt(s: Sitzung, name: string)
    requires s.lauf.Laeuft? && s.sicht == s.fest && name in s.sicht.indizes && Gedeckt(s.sicht.indizes - {name})
    ensures LoescheIndex(s, name) ==
            if s.rest == 0 then s.(lauf := Abgebrochen)
            else NachDdl(s, s.sicht.indizes - {name})
  {
    hide Gedeckt;
    DdlOhneAusstehendes(s, s.sicht.(indizes := s.sicht.indizes - {name}));
  }

  function NachDdl(s: Sitzung, indizes: map<string, Index>): Sitzung
    requires s.rest > 0
  {
    var neu := s.sicht.(indizes := indizes);
    s.(sicht := neu, fest := neu, rest := s.rest - 1)
  }

  /** The swap from the old key, cut off after `s.rest` statements: no statement is refused. */
  lemma TauschVonAlt(s: Sitzung)
    requires s.lauf.Laeuft? && UQ in s.sicht.indizes && s.sicht.indizes[UQ] == Index(UQ_ALT, true)
    requires HILFSINDEX !in s.sicht.indizes && EindeutigAuf(s.sicht.benachrichtigungen, UQ_ALT) && s.sicht == s.fest
    ensures var t := TauscheUnique(s, UQ_NEU);
            var k := if s.rest < 4 then s.rest else 4;
            t.lauf == (if s.rest < 4 then Abgebrochen else Laeuft)
            && t.fest == t.sicht == MitIndizes(s.sicht, Swap(s.sicht.indizes, k))
  {
    var i := s.sicht.indizes;
    AltInNeu(s.sicht);
    TauschIstGedeckt(i, 2);
    TauschIstGedeckt(i, 4);
    SwapSchritte(i);
    SwapNull(i);
    hide EindeutigAuf, Gedeckt, Swap, ErstelleIndex, LoescheIndex;
    var hilfe, neu := Index(["incident_id"], false), Index(UQ_NEU, true);
    var a := ErstelleIndex(s, HILFSINDEX, hilfe);
    Angelegt(s, HILFSINDEX, hilfe);
    var b := LoescheIndex(a, UQ);
    if s.rest > 0 { Abgelegt(a, UQ); } else { StehtStill(a, UQ, neu); }
    var c := ErstelleIndex(b, UQ, neu);
    if s.rest > 1 { Angelegt(b, UQ, neu); } else { StehtStill(b, UQ, neu); }
    var d := LoescheIndex(c, HILFSINDEX);
    if s.rest > 2 { Abgelegt(c, HILFSINDEX); } else { StehtStill(c, HILFSINDEX, hilfe); }
  }

  /** The four steps of the swap, one from the other. */
  lemma SwapSchritte(i: map<string, Index>)
    requires UQ in i && i[UQ] == Index(UQ_ALT, true) && HILFSINDEX !in i
    ensures Swap(i, 1) == i[HILFSINDEX := Index(["incident_id"], false)] && UQ in Swap(i, 1)
    ensures Swap(i, 2) == Swap(i, 1) - {UQ} && UQ !in Swap(i, 2)
    ensures Swap(i, 3) == Swap(i, 2)[UQ := Index(UQ_NEU, true)] && HILFSINDEX in Swap(i, 3)
    ensures Swap(i, 4) == Swap(i, 3) - {HILFSINDEX} && UniqueSpalten(i, UQ) != Some(UQ_NEU)
  {
    assert UQ != HILFSINDEX by { assert UQ[0] == 'u' && HILFSINDEX[0] == 'i'; }
    assert |UQ_ALT| != |UQ_NEU|;
  }

  // ---------------------------------------------------------------- before the swap

  ghost function Vorphase(s: Sitzung): Sitzung {
    InfoWeg(SpaltenWeg(Datenschritt(s)))
  }

  predicate BeideSpalten(st: Stand) {
    SMS in st.kontaktSpalten && TELEFON in st.kontaktSpalten
  }

  /** Rows converted once, old columns gone. */
  function Bereit(st: Stand): Stand {
    st.(kontaktSpalten := st.kontaktSpalten - {SMS, TELEFON}, objektSpalten := st.objektSpalten - {INFO},
        kontakte := if BeideSpalten(st) then T.Konvertiert(st.kontakte) else st.kontakte)
  }

  /** The same stage with the rows converted once more. */
  function NochmalKonvertiert(st: Stand): Stand {
    st.(kontakte := T.Konvertiert(st.kontakte))
  }

  /**
   * What a run that is cut off makes of the stage: converted rows are kept exactly when the cut comes right after their
   * commit.
   */
  function Stufe(st: Stand, b: Bruch): Stand {
    if BrichtNachDaten(st, b) then NochmalKonvertiert(st) else st
  }

  /** `u` is what a run leaves that is cut off while it converts the rows and drops the columns. */
  ghost predicate Abgeschnitten(st: Stand, b: Bruch, u: Sitzung) {
    && u.lauf == Abgebrochen && b.n < 3 && Bereit(st) != st && Bereit(u.fest) == Bereit(Stufe(st, b))
    && u.fest.indizes == st.indizes && u.fest.benachrichtigungen == st.benachrichtigungen
    && (BeideSpalten(u.fest) ==> u.fest == Stufe(st, b))
  }

  /** The two contact columns, gone with the rows converted. */
  function OhneSpalten(st: Stand): Stand {
    st.(kontaktSpalten := st.kontaktSpalten - {SMS, TELEFON},
        kontakte := if BeideSpalten(st) then T.Konvertiert(st.kontakte) else st.kontakte)
  }

  lemma SpaltenErgebnis(st: Stand, b: Bruch)
    ensures var u := SpaltenWeg(Datenschritt(Verbindung(st, b.n, b.halb)));
            if u.lauf.Laeuft? then
              u.sicht == u.fest == OhneSpalten(st) && b.n <= u.rest + 2 && (BeideSpalten(st) ==> u.rest + 2 == b.n) &&
                !BrichtNachDaten(st, b)
            else Abgeschnitten(st, b, u)
  {
    hide T.Konvertiert;
    assert SMS != TELEFON by { assert |SMS| != |TELEFON|; }
    var a := Datenschritt(Verbindung(st, b.n, b.halb));
    var u := SpaltenWeg(a);
    if TELEFON in st.kontaktSpalten && SMS in st.kontaktSpalten {
      if b.n >= 2 { assert u.sicht.kontaktSpalten == st.kontaktSpalten - {SMS, TELEFON}; }
    } else {
      assert a.sicht == a.fest == st;
      if u.lauf.Laeuft? { assert u.sicht.kontaktSpalten == st.kontaktSpalten - {SMS, TELEFON}; }
    }
  }

  /**
   * Cut off before the swap, a second run still comes to the same columns; to the same rows unless it converts them
   * again.
   */
  lemma VorphaseErgebnis(st: Stand, b: Bruch)
    ensures var t := Vorphase(Verbindung(st, b.n, b.halb));
            if t.lauf.Laeuft? then
              t.sicht == t.fest == Bereit(st) && b.n <= t.rest + 3 && (BeideSpalten(st) ==> t.rest + 2 <= b.n) &&
                !BrichtNachDaten(st, b)
            else Abgeschnitten(st, b, t)
  {
    SpaltenErgebnis(st, b);
    var u := SpaltenWeg(Datenschritt(Verbindung(st, b.n, b.halb)));
    hide T.Konvertiert, Datenschritt, SpaltenWeg;
    if u.lauf.Laeuft? {
      assert Bereit(st) == OhneSpalten(st).(objektSpalten := st.objektSpalten - {INFO});
      if INFO in st.objektSpalten {
        DdlOhneAusstehendes(u, u.sicht.(objektSpalten := u.sicht.objektSpalten - {INFO}));
        assert Bereit(OhneSpalten(st)) == Bereit(st);
      } else {
        assert st.objektSpalten - {INFO} == st.objektSpalten;
      }
    }
  }

  lemma AbgebrochenBleibt(s: Sitzung, ziel: seq<string>)
    requires !s.lauf.Laeuft?
    ensures TauscheUnique(s, ziel) == s
  {
  }

  // ---------------------------------------------------------------- one run from any state a run can leave

  /**
   * Indexes as `i0` of revision 0223, with `k` of the four statements of the swap done; the columns go before the swap.
   */
  ghost predicate Erreicht(i0: map<string, Index>, st: Stand, k: nat) {
    && UQ in i0 && i0[UQ] == Index(UQ_ALT, true) && HILFSINDEX !in i0 && k <= 4
    && st.indizes == Swap(i0, k) && EindeutigAuf(st.benachrichtigungen, UQ_ALT) && (k > 0 ==> Bereit(st) == st)
  }

  predicate Mitten(k: nat) {
    0 < k < 3
  }

  /** How far the swap is after one more run. */
  function Weiter(k: nat, rest: nat): nat {
    if k > 0 then k else if rest < 4 then rest else 4
  }

  lemma SwapVonBereit(i0: map<string, Index>, s: Sitzung, k: nat)
    requires s.lauf.Laeuft? && s.sicht == s.fest && Erreicht(i0, s.sicht, k)
    ensures var t := TauscheUnique(s, UQ_NEU);
            t.fest == t.sicht == MitIndizes(s.sicht, Swap(i0, Weiter(k, s.rest))) &&
            (t.lauf.Laeuft? <==> !Mitten(k) && (k == 0 ==> s.rest >= 4)) &&
              (t.lauf.Fehler? <==> Mitten(k) && s.rest > 0)
  {
    SwapFelder(i0, k);
    if k == 0 {
      SwapNull(i0);
      TauschVonAlt(s);
    } else if Mitten(k) {
      HilfsindexSchonDa(s);
    } else {
      hide Swap;
    }
  }

  /** One run, cut off anywhere: how far it gets, what it leaves, and when it is refused. */
  lemma EinLauf(i0: map<string, Index>, st: Stand, k: nat, b: Bruch) returns (k': nat)
    requires Erreicht(i0, st, k)
    ensures k <= k' <= 4 && (Mitten(k) ==> k' == k) && (k == 0 && b.n >= 7 ==> k' == 4)
    ensures k == 0 && BeideSpalten(st) && b.n == 4 ==> Mitten(k')
    ensures Erreicht(i0, NachLauf(st, b), k')
    ensures Bereit(NachLauf(st, b)) == MitIndizes(Bereit(Stufe(st, b)), Swap(i0, k'))
    ensures BeideSpalten(NachLauf(st, b)) ==> NachLauf(st, b) == Stufe(st, b)
    ensures var lauf := Upgrade(Verbindung(st, b.n, b.halb)).lauf;
            (lauf.Fehler? ==> Mitten(k)) && (b.n >= 7 ==> if Mitten(k) then lauf.Fehler? else lauf.Laeuft?)
  {
    VorphaseErgebnis(st, b);
    var t := Vorphase(Verbindung(st, b.n, b.halb));
    UpgradeIstTausch(st, b);
    hide Upgrade, Vorphase, Swap, EindeutigAuf, T.Konvertiert;
    if t.lauf.Laeuft? {
      assert Bereit(t.sicht) == t.sicht;
      assert Erreicht(i0, t.sicht, k);
      SwapVonBereit(i0, t, k);
      k' := Weiter(k, t.rest);
      assert NachLauf(st, b) == MitIndizes(Bereit(st), Swap(i0, k'));
    } else {
      AbgebrochenBleibt(t, UQ_NEU);
      assert k == 0;
      k' := 0;
      assert NachLauf(st, b) == t.fest;
    }
  }

  lemma UpgradeIstTausch(st: Stand, b: Bruch)
    ensures Upgrade(Verbindung(st, b.n, b.halb)) == TauscheUnique(Vorphase(Verbindung(st, b.n, b.halb)), UQ_NEU)
  {
    hide TauscheUnique;
  }

  // ---------------------------------------------------------------- any number of runs

  /** The rows converted `n` times. */
  ghost function KonvertiertMal(kontakte: map<nat, T.Zeile>, n: nat): map<nat, T.Zeile> {
    if n == 0 then kontakte else KonvertiertMal(T.Konvertiert(kontakte), n - 1)
  }

  /** Whatever the breaks: the stage reached depends only on how often the converted rows were committed early. */
  lemma {:induction false} VieleLaeufe(i0: map<string, Index>, st: Stand, k: nat, brueche: seq<Bruch>) returns (k': nat)
    requires Erreicht(i0, st, k)
    ensures k' <= 4 && Erreicht(i0, NachLaeufen(st, brueche), k')
    ensures DatenBrueche(st, brueche) > 0 ==> BeideSpalten(st)
    ensures Bereit(NachLaeufen(st, brueche)) ==
            MitIndizes(Bereit(st.(kontakte := KonvertiertMal(st.kontakte, DatenBrueche(st, brueche)))), Swap(i0, k'))
    decreases |brueche|
  {
    hide T.Konvertiert, Swap, EindeutigAuf, NachLauf, Bereit, Erreicht;
    if brueche == [] {
      k' := k;
      assert st.(kontakte := st.kontakte) == st;
      StandErreicht(i0, st, k);
    } else {
      var b := brueche[0];
      var f := NachLauf(st, b);
      var k1 := EinLauf(i0, st, k, b);
      k' := VieleLaeufe(i0, f, k1, brueche[1..]);
      EinLaufMehr(st, b, f, Swap(i0, k1), DatenBrueche(f, brueche[1..]), Swap(i0, k'));
    }
  }

  lemma StandErreicht(i0: map<string, Index>, st: Stand, k: nat)
    requires Erreicht(i0, st, k)
    ensures k <= 4 && Bereit(st) == MitIndizes(Bereit(st), Swap(i0, k))
  {
    hide Swap;
  }

  lemma EinLaufMehr(st: Stand, b: Bruch, f: Stand, i1: map<string, Index>, d: nat, i2: map<string, Index>)
    requires Bereit(f) == MitIndizes(Bereit(Stufe(st, b)), i1) && (BeideSpalten(f) ==> f == Stufe(st, b)) &&
             (d > 0 ==> BeideSpalten(f))
    ensures var e := if BrichtNachDaten(st, b) then 1 else 0;
            MitIndizes(Bereit(f.(kontakte := KonvertiertMal(f.kontakte, d))), i2) ==
            MitIndizes(Bereit(st.(kontakte := KonvertiertMal(st.kontakte, e + d))), i2)
  {
    hide T.Konvertiert;
    if d == 0 {
      assert f.(kontakte := KonvertiertMal(f.kontakte, 0)) == f;
      assert KonvertiertMal(st.kontakte, 1) == T.Konvertiert(st.kontakte);
    } else {
      assert BrichtNachDaten(st, b) ==>
        KonvertiertMal(st.kontakte, 1 + d) == KonvertiertMal(T.Konvertiert(st.kontakte), d);
    }
  }

  predicate AlleOhneBlank(kontakte: map<nat, T.Zeile>) {
    forall i :: i in kontakte ==> T.OhneBlank(kontakte[i].telefone)
  }

  lemma ZweimalKonvertiert(kontakte: map<nat, T.Zeile>)
    ensures T.Konvertiert(T.Konvertiert(kontakte)) == T.Konvertiert(kontakte) <==> AlleOhneBlank(kontakte)
    ensures AlleOhneBlank(T.Konvertiert(kontakte))
  {
    hide T.KonvertierteListe, T.OhneBlank;
    var einmal := T.Konvertiert(kontakte);
    forall i | i in kontakte
      ensures T.Konvertiert(einmal)[i] == einmal[i] <==> T.OhneBlank(kontakte[i].telefone)
      ensures T.OhneBlank(einmal[i].telefone)
    {
      T.ZweimalKonvertiertGenauDann(kontakte[i]);
      T.KonvertierteOhneBlank(kontakte[i]);
    }
  }

  lemma {:induction false} WeitereMaleEgal(kontakte: map<nat, T.Zeile>, n: nat)
    requires AlleOhneBlank(kontakte)
    ensures T.Konvertiert(KonvertiertMal(kontakte, n)) == T.Konvertiert(kontakte)
  {
    if n > 0 {
      ZweimalKonvertiert(kontakte);
      hide T.Konvertiert, AlleOhneBlank;
      WeitereMaleEgal(T.Konvertiert(kontakte), n - 1);
    }
  }

  /** Rows converted early, however often, end as converted once exactly when no list held a blank string. */
  lemma MehrfachGenauDann(kontakte: map<nat, T.Zeile>, n: nat)
    ensures T.Konvertiert(KonvertiertMal(kontakte, n)) == T.Konvertiert(kontakte) <==> n == 0 || AlleOhneBlank(kontakte)
  {
    ZweimalKonvertiert(kontakte);
    hide T.Konvertiert, AlleOhneBlank;
    if n > 0 { WeitereMaleEgal(T.Konvertiert(kontakte), n - 1); }
  }

  /**
   * Whatever runs are cut off wherever, some index leads with `incident_id`; a first run is never refused a statement.
   */
  lemma ImmerGedeckt(st: Stand, brueche: seq<Bruch>, b: Bruch)
    requires Stand0223(st)
    ensures Gedeckt(NachLaeufen(st, brueche).indizes)
    ensures var indizes := NachLaeufen(st, brueche).indizes;
            exists n :: n in indizes && |indizes[n].spalten| > 0 && indizes[n].spalten[0] == "incident_id"
    ensures !Upgrade(Verbindung(st, b.n, b.halb)).lauf.Fehler?
  {
    SwapNull(st.indizes);
    var k := VieleLaeufe(st.indizes, st, 0, brueche);
    TauschIstGedeckt(st.indizes, k);
    GedecktGenauDann(NachLaeufen(st, brueche).indizes);
    hide Gedeckt;
    var _ := EinLauf(st.indizes, st, 0, b);
  }

  ghost predicate GleichBisAufHilfsindex(f: Stand, g: Stand) {
    f.(indizes := f.indizes - {HILFSINDEX}) == g.(indizes := g.indizes - {HILFSINDEX})
  }

  /** The helper index is there and the new unique key is not. */
  predicate MittenImTausch(st: Stand) {
    HILFSINDEX in st.indizes && UniqueSpalten(st.indizes, UQ) != Some(UQ_NEU)
  }

  /**
   * After any number of runs, each cut off anywhere, one more run succeeds with the columns, rows and unique key of a
   * single uninterrupted run exactly when the swap was not left half done, and either no run was cut off right after it
   * committed the converted rows or no list held a blank string. A half done swap makes every further run fail.
   */
  lemma WiederaufsetzenGenauDann(st: Stand, brueche: seq<Bruch>)
    requires Stand0223(st)
    ensures var f := NachLaeufen(st, brueche);
            (if MittenImTausch(f) then Ganz(f).lauf.Fehler? else Ganz(f).lauf.Laeuft?) &&
            (Ganz(f).lauf.Laeuft? && GleichBisAufHilfsindex(Danach(Ganz(f)), Danach(Ganz(st))) <==>
             !MittenImTausch(f) && (DatenBrueche(st, brueche) == 0 || AlleOhneBlank(st.kontakte)))
  {
    var i0 := st.indizes;
    SwapNull(i0);
    var f, d := NachLaeufen(st, brueche), DatenBrueche(st, brueche);
    var k := VieleLaeufe(i0, st, 0, brueche);
    var genug := Bruch(GENUG, false);
    var zuletzt := EinLauf(i0, f, k, genug);
    var gleich := EinLauf(i0, st, 0, genug);
    SwapFelder(i0, k);
    SwapFertig(i0);
    MehrfachGenauDann(st.kontakte, d);
    hide Upgrade, Swap, T.Konvertiert, EindeutigAuf, AlleOhneBlank, NachLaeufen, DatenBrueche, KonvertiertMal;
    assert MittenImTausch(f) <==> Mitten(k);
    if !Mitten(k) {
      FertigIstBereit(f, genug);
      FertigIstBereit(st, genug);
      Verglichen(st, f, d, Danach(Ganz(f)), Danach(Ganz(st)), Swap(i0, k), Swap(i0, zuletzt), Swap(i0, 4));
    }
  }

  lemma Verglichen(st: Stand, f: Stand, d: nat, z: Stand, g: Stand, i1: map<string, Index>, i2: map<string, Index>,
                   i3: map<string, Index>)
    requires Bereit(f) == MitIndizes(Bereit(st.(kontakte := KonvertiertMal(st.kontakte, d))), i1) &&
             (d > 0 ==> BeideSpalten(st))
    requires z == MitIndizes(Bereit(f), i2) && g == MitIndizes(Bereit(st), i3) && i2 - {HILFSINDEX} == i3 - {HILFSINDEX}
    ensures GleichBisAufHilfsindex(z, g) <==>
      d == 0 || T.Konvertiert(KonvertiertMal(st.kontakte, d)) == T.Konvertiert(st.kontakte)
  {
    hide T.Konvertiert;
    if d == 0 { assert st.(kontakte := KonvertiertMal(st.kontakte, 0)) == st; }
    assert z.(indizes := map[]) == Bereit(st.(kontakte := KonvertiertMal(st.kontakte, d))).(indizes := map[]);
  }

  /** A run that comes to its end leaves the old columns behind. */
  lemma FertigIstBereit(st: Stand, b: Bruch)
    requires Upgrade(Verbindung(st, b.n, b.halb)).lauf.Laeuft?
    ensures Bereit(NachLauf(st, b)) == NachLauf(st, b)
  {
    VorphaseErgebnis(st, b);
    UpgradeIstTausch(st, b);
    var t := Vorphase(Verbindung(st, b.n, b.halb));
    if !t.lauf.Laeuft? { AbgebrochenBleibt(t, UQ_NEU); }
    hide Upgrade, Vorphase, T.Konvertiert;
    TauschLaesstSpalten(t);
  }

  lemma NurIndizes(s: Sitzung, name: string, index: Index)
    ensures ErstelleIndex(s, name, index).sicht == MitIndizes(s.sicht, ErstelleIndex(s, name, index).sicht.indizes)
    ensures LoescheIndex(s, name).sicht == MitIndizes(s.sicht, LoescheIndex(s, name).sicht.indizes)
  {
    hide Gedeckt, EindeutigAuf;
  }

  /** The swap touches indexes only. */
  lemma TauschLaesstSpalten(s: Sitzung)
    ensures var t := TauscheUnique(s, UQ_NEU); t.sicht == MitIndizes(s.sicht, t.sicht.indizes)
  {
    var hilfe, neu := Index(["incident_id"], false), Index(UQ_NEU, true);
    hide ErstelleIndex, LoescheIndex;
    NurIndizes(s, HILFSINDEX, hilfe);
    var a := ErstelleIndex(s, HILFSINDEX, hilfe);
    NurIndizes(a, UQ, neu);
    var b := LoescheIndex(a, UQ);
    NurIndizes(b, UQ, neu);
    NurIndizes(ErstelleIndex(b, UQ, neu), HILFSINDEX, hilfe);
  }

  lemma SwapNull(i: map<string, Index>)
    ensures Swap(i, 0) == i
  {
  }

  lemma SwapFelder(i: map<string, Index>, k: nat)
    requires k <= 4 && UQ in i && i[UQ] == Index(UQ_ALT, true) && HILFSINDEX !in i
    ensures HILFSINDEX in Swap(i, k) <==> 0 < k < 4
    ensures UniqueSpalten(Swap(i, k), UQ) == Some(UQ_NEU) <==> k >= 3
  {
    assert UQ != HILFSINDEX by { assert UQ[0] == 'u' && HILFSINDEX[0] == 'i'; }
    assert |UQ_ALT| != |UQ_NEU|;
  }

  lemma SwapFertig(i: map<string, Index>)
    ensures Swap(i, 3) - {HILFSINDEX} == Swap(i, 4) - {HILFSINDEX}
  {
  }

  lemma HilfsindexSchonDa(s: Sitzung)
    requires s.lauf.Laeuft? && s.sicht == s.fest
    requires HILFSINDEX in s.sicht.indizes && UniqueSpalten(s.sicht.indizes, UQ) != Some(UQ_NEU)
    ensures var t := TauscheUnique(s, UQ_NEU);
            t.fest == t.sicht == s.sicht && !t.lauf.Laeuft? && (t.lauf.Fehler? <==> s.rest > 0)
  {
    var hilfe, neu := Index(["incident_id"], false), Index(UQ_NEU, true);
    var a := ErstelleIndex(s, HILFSINDEX, hilfe);
    assert !a.lauf.Laeuft? && a.fest == a.sicht == s.sicht;
    hide ErstelleIndex, LoescheIndex, UniqueSpalten;
    StehtStill(a, UQ, neu);
    StehtStill(a, HILFSINDEX, hilfe);
  }

  /**
   * An uninterrupted run: three columns gone, the rows converted, the key on four columns, everything else as it was.
   */
  lemma GanzerLauf(st: Stand)
    requires Stand0223(st)
    ensures var f := Danach(Ganz(st));
            && Ganz(st).lauf.Laeuft?
            && f.kontaktSpalten == st.kontaktSpalten - {"benachrichtigung_sms", "benachrichtigung_telefon"}
            && f.objektSpalten == st.objektSpalten - {"kontakt_info_enabled"} &&
              f.benachrichtigungen == st.benachrichtigungen
            && f.indizes == st.indizes["uq_objekt_kontakt_benachrichtigung" :=
                              Index(["incident_id", "objekt_kontakt_id", "kanal", "empfaenger"], true)]
            && f.kontakte == (if "benachrichtigung_sms" in st.kontaktSpalten then T.Konvertiert(st.kontakte)
                              else st.kontakte)
  {
    var b := Bruch(GENUG, false);
    SwapNull(st.indizes);
    var k := EinLauf(st.indizes, st, 0, b);
    FertigIstBereit(st, b);
    SwapZuletzt(st.indizes);
    hide Upgrade, Swap, T.Konvertiert, EindeutigAuf;
  }

  lemma SwapZuletzt(i: map<string, Index>)
    requires HILFSINDEX !in i
    ensures Swap(i, 4) == i[UQ := Index(UQ_NEU, true)]
  {
    assert UQ != HILFSINDEX by { assert UQ[0] == 'u' && HILFSINDEX[0] == 'i'; }
  }

  // ---------------------------------------------------------------- both conditions are needed

  /** One broken run right after the converted rows are committed. */
  lemma AbbruchNachDatenschrittGenauDann(st: Stand)
    requires Stand0223(st) && BeideSpalten(st)
    ensures var f := NachLauf(st, Bruch(0, true));
            Ganz(f).lauf.Laeuft? &&
              (GleichBisAufHilfsindex(Danach(Ganz(f)), Danach(Ganz(st))) <==> AlleOhneBlank(st.kontakte))
  {
    var b := Bruch(0, true);
    WiederaufsetzenGenauDann(st, [b]);
    hide Upgrade, AlleOhneBlank;
    assert [b][1..] == [];
    SwapNull(st.indizes);
    var k := EinLauf(st.indizes, st, 0, b);
    assert NachLauf(st, b) == Stufe(st, b) by { NachDatenNochBeide(st); }
  }

  lemma NachDatenNochBeide(st: Stand)
    requires BeideSpalten(st)
    ensures NachLauf(st, Bruch(0, true)) == NochmalKonvertiert(st)
  {
    hide T.Konvertiert, EindeutigAuf, Gedeckt;
  }

  /**
   * The half done swap is reached: cut off after the fourth statement, the next run fails, and so does every later one.
   */
  lemma MittenErreichbar(st: Stand, halb: bool, b: Bruch)
    requires Stand0223(st) && BeideSpalten(st) && b.n >= 7
    ensures MittenImTausch(NachLauf(st, Bruch(4, halb)))
    ensures Upgrade(Verbindung(NachLauf(st, Bruch(4, halb)), b.n, b.halb)).lauf.Fehler?
    ensures MittenImTausch(NachLauf(NachLauf(st, Bruch(4, halb)), b))
  {
    var i0 := st.indizes;
    SwapNull(i0);
    var k := EinLauf(i0, st, 0, Bruch(4, halb));
    var k' := EinLauf(i0, NachLauf(st, Bruch(4, halb)), k, b);
    SwapFelder(i0, k);
    hide Upgrade, Swap;
  }

  /** A database of revision 0223 with one notification, and one contact whose phone list holds a blank string. */
  function Beispiel(): Stand {
    Stand({SMS, TELEFON}, {INFO}, map[1 := T.Zeile(T.Liste([T.ElText("")]), false, None)],
          map[UQ := Index(UQ_ALT, true)],
          map[7 := map["incident_id" := Zahl(1), "objekt_kontakt_id" := Zahl(1), "kanal" := Text("sms"),
                       "empfaenger" := Text("1")]])
  }

  /** On it both ways of failing occur. */
  lemma BeispielScheitert()
    ensures Stand0223(Beispiel()) && BeideSpalten(Beispiel()) && INFO in Beispiel().objektSpalten
    ensures Ganz(NachLauf(Beispiel(), Bruch(4, false))).lauf.Fehler?
    ensures !GleichBisAufHilfsindex(Danach(Ganz(NachLauf(Beispiel(), Bruch(0, true)))), Danach(Ganz(Beispiel())))
  {
    var st := Beispiel();
    assert UQ != HILFSINDEX by { assert UQ[0] == 'u' && HILFSINDEX[0] == 'i'; }
    assert !AlleOhneBlank(st.kontakte) by {
      assert T.Blank(T.ElText("")) && 1 in st.kontakte;
      assert T.ElText("") in st.kontakte[1].telefone.werte;
    }
    hide Upgrade, AlleOhneBlank, GleichBisAufHilfsindex;
    MittenErreichbar(st, false, Bruch(GENUG, false));
    AbbruchNachDatenschrittGenauDann(st);
  }
}
