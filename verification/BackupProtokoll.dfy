/**
 * `run_backup`, `_run_backup_locked`, `_dump_db` and `_tar_medien` of app/cli.py as steps of any number of processes
 * on one directory, with crashes and power failures at every point.
 */
module BackupProtokoll {
  import opened Grundlagen
  import opened BackupNamen

  const HALTBARKEIT := 86400

  /**
   * A file: its bytes, the bytes its producer would emit in full, how many are on disk for good, its writer, its mtime.
   */
  datatype Datei = Datei(inhalt: seq<nat>, quelle: seq<nat>, gesichert: nat, besitzer: nat, mtime: nat)

  ghost predicate Vollstaendig(d: Datei) {
    d.inhalt == d.quelle && d.gesichert == |d.inhalt|
  }

  datatype Art = Dump | Medien

  function Endung(art: Art): (e: string)
    ensures IstEndung(e)
  {
    match art case Dump => ".sql.gz" case Medien => ".tar.gz"
  }

  /** How the producing subprocess ended. */
  datatype Ende = Laeuft | Gut | Schlecht

  /** Where a process stands; all but `Ruhe` are inside the lock. */
  datatype Pc =
    | Ruhe
    | Aufraeumen
    | Bereit
    | Gewaehlt(ziel: string, art: Art)
    | Schreibt(ziel: string, art: Art, ende: Ende, synchron: bool, geprueft: bool)
    | Abschluss(ziel: string)

  datatype Zustand = Zustand(dateien: map<string, Datei>, sperre: Option<nat>, pc: map<nat, Pc>, jetzt: nat) {
    function PcVon(p: nat): Pc {
      if p in pc then pc[p] else Ruhe
    }
  }

  predicate IstPartial(name: string) {
    EndetMit(name, PARTIAL)
  }

  function Partial(ziel: string): string {
    ziel + PARTIAL
  }

  datatype Schritt =
    | Sperren(p: nat)                                        // flock(LOCK_EX | LOCK_NB) succeeds
    | Abgewiesen(p: nat)                                     // BlockingIOError: "Backup laeuft bereits"
    | Putzen(p: nat, name: string)                           // unlink of a stale *.partial
    | PutzenFertig(p: nat)
    | Waehlen(p: nat, liste: seq<string>, stem: string, art: Art)
    | Verzichten(p: nat)                                     // not enough free space: raised before anything is created
    | Anlegen(p: nat, quelle: seq<nat>)                      // os.open(O_CREAT | O_EXCL)
    | Schreiben(p: nat, bytes: nat)
    | Produzent(p: nat, gut: bool)                           // the subprocess ends, or is killed at the time limit
    | Sichern(p: nat)                                        // flush and fsync
    | Pruefen(p: nat)                                        // exit code and time limit
    | Veroeffentlichen(p: nat)                               // os.replace
    | Scheitern(p: nat)                                      // any exception while the partial file is open
    | Wegraeumen(p: nat)                                     // finally: partial.unlink(missing_ok=True)
    | Freigeben(p: nat)
    | Absturz(p: nat)                                        // the process dies, the kernel drops its lock
    | Nachzuegler(name: string, bytes: nat)                  // a tar that outlived its parent writes to its own file
    | Stromausfall(neu: map<string, Datei>)
    | Beschneiden(name: string)                              // pruning, by anyone at any time
    | Uhr(sekunden: nat)

  // ---------------------------------------------------------------- the steps

  /** After a power failure a file holds some prefix no shorter than what was synced. */
  ghost predicate Gekuerzt(d: Datei, e: Datei) {
    d.gesichert <= |e.inhalt| <= |d.inhalt| && e == d.(inhalt := d.inhalt[..|e.inhalt|])
  }

  /** Files may be cut back to synced bytes, a rename may be undone, and names may be lost. */
  ghost predicate NachStromausfall(alt: map<string, Datei>, neu: map<string, Datei>) {
    forall n :: n in neu ==>
      || (n in alt && Gekuerzt(alt[n], neu[n]))
      || (IstPartial(n) && exists z :: z in alt && n == Partial(z) && Gekuerzt(alt[z], neu[n]))
  }

  ghost predicate Erlaubt(s: Zustand, a: Schritt) {
    match a
    case Sperren(p) => s.PcVon(p).Ruhe? && s.sperre.None?
    case Abgewiesen(p) => s.PcVon(p).Ruhe? && s.sperre.Some?
    case Putzen(p, name) =>
      s.PcVon(p).Aufraeumen? && name in s.dateien && IstPartial(name) && s.jetzt - s.dateien[name].mtime > HALTBARKEIT
    case PutzenFertig(p) => s.PcVon(p).Aufraeumen?
    case Waehlen(p, liste, stem, art) => s.PcVon(p).Bereit? && forall n :: n in liste <==> n in s.dateien
    case Verzichten(p) => s.PcVon(p).Gewaehlt?
    case Anlegen(p, quelle) => s.PcVon(p).Gewaehlt?
    case Schreiben(p, bytes) =>
      var c := s.PcVon(p);
      c.Schreibt? && c.ende.Laeuft? && (Partial(c.ziel) in s.dateien ==>
        |s.dateien[Partial(c.ziel)].inhalt| + bytes <= |s.dateien[Partial(c.ziel)].quelle|)
    case Produzent(p, gut) =>
      var c := s.PcVon(p);
      c.Schreibt? && c.ende.Laeuft? && (gut ==> Partial(c.ziel) in s.dateien ==>
        s.dateien[Partial(c.ziel)].inhalt == s.dateien[Partial(c.ziel)].quelle)
    case Sichern(p) =>
      var c := s.PcVon(p);
      c.Schreibt? && !c.ende.Laeuft? && !c.synchron && (c.art.Medien? ==> c.geprueft)
    case Pruefen(p) =>
      var c := s.PcVon(p);
      c.Schreibt? && c.ende.Gut? && !c.geprueft && (c.art.Dump? ==> c.synchron)
    case Veroeffentlichen(p) => s.PcVon(p).Schreibt? && s.PcVon(p).synchron && s.PcVon(p).geprueft
    case Scheitern(p) => s.PcVon(p).Schreibt?
    case Wegraeumen(p) => s.PcVon(p).Abschluss?
    case Freigeben(p) => s.PcVon(p).Aufraeumen? || s.PcVon(p).Bereit?
    case Absturz(p) => !s.PcVon(p).Ruhe?
    case Nachzuegler(name, bytes) =>
      && name in s.dateien && IstPartial(name) && |s.dateien[name].inhalt| + bytes <= |s.dateien[name].quelle|
      && forall p :: p in s.pc && s.pc[p].Schreibt? ==> Partial(s.pc[p].ziel) != name
    case Stromausfall(neu) => NachStromausfall(s.dateien, neu)
    case Beschneiden(name) => name in s.dateien && !IstPartial(name)
    case Uhr(_) => true
  }

  function Weiter(s: Zustand, p: nat, c: Pc): Zustand {
    s.(pc := s.pc[p := c])
  }

  function Verlaengert(d: Datei, bytes: nat, jetzt: nat): Datei
    requires |d.inhalt| + bytes <= |d.quelle|
  {
    d.(inhalt := d.quelle[..|d.inhalt| + bytes], mtime := jetzt)
  }

  ghost function Nach(s: Zustand, a: Schritt): Zustand
    requires Erlaubt(s, a)
  {
    match a
    case Sperren(p) => Weiter(s.(sperre := Some(p)), p, Aufraeumen)
    case Abgewiesen(p) => s
    case Putzen(p, name) => s.(dateien := s.dateien - {name})
    case PutzenFertig(p) => Weiter(s, p, Bereit)
    case Waehlen(p, liste, stem, art) => Weiter(s, p, Gewaehlt(FreierName(liste, stem, Endung(art)), art))
    case Verzichten(p) => Weiter(s, p, Bereit)
    case Anlegen(p, quelle) =>
      var c := s.PcVon(p);
      if Partial(c.ziel) in s.dateien then Weiter(s, p, Abschluss(c.ziel))
      else Weiter(s.(dateien := s.dateien[Partial(c.ziel) := Datei([], quelle, 0, p, s.jetzt)]), p,
                  Schreibt(c.ziel, c.art, Laeuft, false, false))
    case Schreiben(p, bytes) =>
      var name := Partial(s.PcVon(p).ziel);  // a write to an unlinked file changes no name
      if name in s.dateien then s.(dateien := s.dateien[name := Verlaengert(s.dateien[name], bytes, s.jetzt)]) else s
    case Produzent(p, gut) => Weiter(s, p, s.PcVon(p).(ende := if gut then Gut else Schlecht))
    case Sichern(p) =>
      var c := s.PcVon(p);
      var name := Partial(c.ziel);
      var dateien :=
        if name in s.dateien then s.dateien[name := s.dateien[name].(gesichert := |s.dateien[name].inhalt|)]
        else s.dateien;
      Weiter(s.(dateien := dateien), p, c.(synchron := true))
    case Pruefen(p) => Weiter(s, p, s.PcVon(p).(geprueft := true))
    case Veroeffentlichen(p) =>
      var z := s.PcVon(p).ziel;
      if Partial(z) in s.dateien
      then Weiter(s.(dateien := (s.dateien - {Partial(z)})[z := s.dateien[Partial(z)]]), p, Abschluss(z))
      else Weiter(s, p, Abschluss(z))
    case Scheitern(p) => Weiter(s, p, Abschluss(s.PcVon(p).ziel))
    case Wegraeumen(p) => Weiter(s.(dateien := s.dateien - {Partial(s.PcVon(p).ziel)}), p, Bereit)
    case Freigeben(p) => Weiter(s.(sperre := None), p, Ruhe)
    case Absturz(p) => Weiter(s.(sperre := if s.sperre == Some(p) then None else s.sperre), p, Ruhe)
    case Nachzuegler(name, bytes) => s.(dateien := s.dateien[name := Verlaengert(s.dateien[name], bytes, s.jetzt)])
    case Stromausfall(neu) => s.(dateien := neu, sperre := None, pc := map[])
    case Beschneiden(name) => s.(dateien := s.dateien - {name})
    case Uhr(sekunden) => s.(jetzt := s.jetzt + sekunden)
  }

  // ---------------------------------------------------------------- the invariant

  ghost predicate DateiGueltig(name: string, d: Datei) {
    && d.gesichert <= |d.inhalt| <= |d.quelle| && d.inhalt == d.quelle[..|d.inhalt|]
    && (!IstPartial(name) ==> Vollstaendig(d))
  }

  /** What the process inside the lock can rely on. */
  ghost predicate PcGueltig(s: Zustand, p: nat) {
    match s.PcVon(p)
    case Ruhe => false
    case Aufraeumen => true
    case Bereit => true
    case Gewaehlt(z, art) => EndetMit(z, Endung(art)) && !IstPartial(z) && z !in s.dateien && Partial(z) !in s.dateien
    case Schreibt(z, art, ende, synchron, geprueft) =>
      && EndetMit(z, Endung(art)) && !IstPartial(z) && z !in s.dateien && Partial(z) in s.dateien &&
        s.dateien[Partial(z)].besitzer == p
      && (ende.Gut? ==> s.dateien[Partial(z)].inhalt == s.dateien[Partial(z)].quelle)
      && (synchron ==> !ende.Laeuft? && s.dateien[Partial(z)].gesichert == |s.dateien[Partial(z)].inhalt|)
      && (geprueft ==> ende.Gut?)
    case Abschluss(z) => !IstPartial(z) && (Partial(z) in s.dateien ==> s.dateien[Partial(z)].besitzer == p)
  }

  /** Every published file is complete; exactly the lock holder is at work. */
  ghost predicate Inv(s: Zustand) {
    && (forall n :: n in s.dateien ==> DateiGueltig(n, s.dateien[n]))
    && (forall p: nat :: !s.PcVon(p).Ruhe? ==> s.sperre == Some(p))
    && (s.sperre.Some? ==> PcGueltig(s, s.sperre.value))
  }

  lemma PartialVonZiel(z: string)
    ensures IstPartial(Partial(z)) && Partial(z) != z
  {
    assert Partial(z)[|z|..] == PARTIAL;
  }

  /** A chosen name is never itself a `.partial` name. */
  lemma ZielIstNichtPartial(liste: seq<string>, stem: string, endung: string)
    requires IstEndung(endung)
    ensures !IstPartial(FreierName(liste, stem, endung)) && EndetMit(FreierName(liste, stem, endung), endung)
  {
    var h := HoechsteNummer(liste, stem, endung);
    var k := if h.None? then 0 else h.value + 1;
    var vorn := stem + (if k == 0 then "" else "_" + Dezimal.Aufgefuellt(Dezimal.Ziffern(k), 6));
    assert FreierName(liste, stem, endung) == vorn + endung;
    EndungIstNichtPartial(vorn, endung);
  }

  lemma EndungIstNichtPartial(vorn: string, endung: string)
    requires IstEndung(endung)
    ensures !IstPartial(vorn + endung)
  {
    var s := vorn + endung;
    if |PARTIAL| <= |s| {
      var t := s[|s| - |PARTIAL|..];
      if |endung| < |PARTIAL| {
        assert t[|PARTIAL| - |endung|] == '.';
      } else {
        assert t == endung[|endung| - |PARTIAL|..];
      }
      assert t != PARTIAL;
    }
  }

  lemma StromausfallErhaelt(s: Zustand, neu: map<string, Datei>)
    requires Inv(s) && NachStromausfall(s.dateien, neu)
    ensures Inv(Nach(s, Stromausfall(neu)))
    ensures forall n :: n in s.dateien && n in neu && !IstPartial(n) ==> neu[n] == s.dateien[n]
  {
    forall n | n in neu
      ensures DateiGueltig(n, neu[n])
      ensures !IstPartial(n) ==> n in s.dateien && neu[n] == s.dateien[n]
    {
      hide IstPartial;
      if n in s.dateien && Gekuerzt(s.dateien[n], neu[n]) {
        assert DateiGueltig(n, s.dateien[n]);
      } else {
        var z :| z in s.dateien && n == Partial(z) && Gekuerzt(s.dateien[z], neu[n]);
        assert DateiGueltig(z, s.dateien[z]);
      }
    }
  }

  /** The invariant survives when `p`, the only process at work, moves on and its own condition holds again. */
  lemma WeiterErhaelt(s: Zustand, p: nat, c: Pc, dateien: map<string, Datei>)
    requires Inv(s) && !s.PcVon(p).Ruhe? && !c.Ruhe?
    requires forall n :: n in dateien ==> DateiGueltig(n, dateien[n])
    requires PcGueltig(Weiter(s.(dateien := dateien), p, c), p)
    ensures Inv(Weiter(s.(dateien := dateien), p, c))
  {
    hide DateiGueltig, PcGueltig;
    var t := Weiter(s.(dateien := dateien), p, c);
    assert s.sperre == Some(p);
    forall q: nat | !t.PcVon(q).Ruhe?
      ensures t.sperre == Some(q)
    {
      assert q == p || !s.PcVon(q).Ruhe?;
    }
  }

  lemma NimmtSperre(s: Zustand, p: nat)
    requires Inv(s) && Erlaubt(s, Sperren(p))
    ensures Inv(Nach(s, Sperren(p)))
  {
    hide DateiGueltig;
    assert forall q: nat :: s.PcVon(q).Ruhe?;
  }

  lemma VerlaesstSperre(s: Zustand, a: Schritt)
    requires Inv(s) && Erlaubt(s, a) && (a.Freigeben? || a.Absturz?)
    ensures Inv(Nach(s, a))
  {
    hide DateiGueltig;
    assert s.sperre == Some(a.p);
    assert forall q: nat :: q != a.p ==> s.PcVon(q).Ruhe?;
  }

  lemma DateiSchritt(s: Zustand, a: Schritt)
    requires Inv(s) && Erlaubt(s, a) &&
             (a.Anlegen? || a.Schreiben? || a.Sichern? || a.Veroeffentlichen? || a.Wegraeumen?)
    ensures Inv(Nach(s, a))
  {
    hide IstPartial;
    var c := s.PcVon(a.p);
    PartialVonZiel(c.ziel);
    var t := Nach(s, a);
    assert s.sperre == Some(a.p) && PcGueltig(s, a.p);
    forall n | n in t.dateien
      ensures DateiGueltig(n, t.dateien[n])
    {
      assert n in s.dateien ==> DateiGueltig(n, s.dateien[n]);
      assert Partial(c.ziel) in s.dateien ==> DateiGueltig(Partial(c.ziel), s.dateien[Partial(c.ziel)]);
    }
    assert PcGueltig(t, a.p);
    if a.Schreiben? {
      assert t.pc == s.pc && t.sperre == s.sperre;
    } else {
      WeiterErhaelt(s, a.p, t.PcVon(a.p), t.dateien);
      assert t == Weiter(s.(dateien := t.dateien), a.p, t.PcVon(a.p));
    }
  }

  lemma PcSchritt(s: Zustand, a: Schritt)
    requires Inv(s) && Erlaubt(s, a)
    requires a.PutzenFertig? || a.Waehlen? || a.Verzichten? || a.Produzent? || a.Pruefen? || a.Scheitern?
    ensures Inv(Nach(s, a))
  {
    hide IstPartial, FreierName, DateiGueltig;
    if a.Waehlen? {
      FreierNameIstFrei(a.liste, a.stem, Endung(a.art));
      ZielIstNichtPartial(a.liste, a.stem, Endung(a.art));
    }
    var t := Nach(s, a);
    assert s.sperre == Some(a.p) && PcGueltig(s, a.p);
    assert PcGueltig(t, a.p);
    WeiterErhaelt(s, a.p, t.PcVon(a.p), s.dateien);
    assert t == Weiter(s.(dateien := s.dateien), a.p, t.PcVon(a.p));
  }

  lemma LoeschenErhaelt(s: Zustand, a: Schritt)
    requires Inv(s) && Erlaubt(s, a) && (a.Putzen? || a.Beschneiden?)
    ensures Inv(Nach(s, a))
  {
    hide DateiGueltig;
    if a.Beschneiden? && s.sperre.Some? && (s.PcVon(s.sperre.value).Schreibt? || s.PcVon(s.sperre.value).Abschluss?) {
      PartialVonZiel(s.PcVon(s.sperre.value).ziel);
    }
  }

  lemma NachzueglerErhaelt(s: Zustand, name: string, bytes: nat)
    requires Inv(s) && Erlaubt(s, Nachzuegler(name, bytes))
    ensures Inv(Nach(s, Nachzuegler(name, bytes)))
  {
    hide IstPartial;
    var t := Nach(s, Nachzuegler(name, bytes));
    assert DateiGueltig(name, s.dateien[name]);
    if s.sperre.Some? {
      var p := s.sperre.value;
      assert t.PcVon(p) == s.PcVon(p);
      if s.PcVon(p).Gewaehlt? || s.PcVon(p).Schreibt? || s.PcVon(p).Abschluss? { PartialVonZiel(s.PcVon(p).ziel); }
    }
  }

  /** Every step of every process keeps the invariant. */
  lemma SchrittErhaelt(s: Zustand, a: Schritt)
    requires Inv(s) && Erlaubt(s, a)
    ensures Inv(Nach(s, a))
  {
    match a
    case Sperren(p) => NimmtSperre(s, p);
    case Freigeben(_) => VerlaesstSperre(s, a);
    case Absturz(_) => VerlaesstSperre(s, a);
    case Nachzuegler(name, bytes) => NachzueglerErhaelt(s, name, bytes);
    case Stromausfall(neu) => StromausfallErhaelt(s, neu);
    case Putzen(_, _) => LoeschenErhaelt(s, a);
    case Beschneiden(_) => LoeschenErhaelt(s, a);
    case Anlegen(_, _) => DateiSchritt(s, a);
    case Schreiben(_, _) => DateiSchritt(s, a);
    case Sichern(_) => DateiSchritt(s, a);
    case Veroeffentlichen(_) => DateiSchritt(s, a);
    case Wegraeumen(_) => DateiSchritt(s, a);
    case PutzenFertig(_) => PcSchritt(s, a);
    case Waehlen(_, _, _, _) => PcSchritt(s, a);
    case Verzichten(_) => PcSchritt(s, a);
    case Produzent(_, _) => PcSchritt(s, a);
    case Pruefen(_) => PcSchritt(s, a);
    case Scheitern(_) => PcSchritt(s, a);
    case Abgewiesen(_) =>
    case Uhr(_) =>
  }

  // ---------------------------------------------------------------- whole runs

  /** At the start nobody is at work and what is published is complete; leftovers may lie around. */
  ghost predicate Start(s: Zustand) {
    && s.sperre.None? && (forall p: nat :: s.PcVon(p).Ruhe?)
    && forall n :: n in s.dateien ==> DateiGueltig(n, s.dateien[n])
  }

  /** `zustaende` are the states of a run that takes the steps `schritte`. */
  ghost predicate Lauf(zustaende: seq<Zustand>, schritte: seq<Schritt>) {
    && |zustaende| == |schritte| + 1 && Start(zustaende[0])
    && forall i :: 0 <= i < |schritte| ==>
      Erlaubt(zustaende[i], schritte[i]) && zustaende[i + 1] == Nach(zustaende[i], schritte[i])
  }

  lemma {:induction false} LaufHaeltInvariante(zustaende: seq<Zustand>, schritte: seq<Schritt>, i: nat)
    requires Lauf(zustaende, schritte) && i < |zustaende|
    ensures Inv(zustaende[i])
  {
    if i > 0 {
      LaufHaeltInvariante(zustaende, schritte, i - 1);
      SchrittErhaelt(zustaende[i - 1], schritte[i - 1]);
    }
  }

  /** In every state of every run a file without the `.partial` suffix is complete and on disk. */
  lemma VeroeffentlichtesIstVollstaendig(zustaende: seq<Zustand>, schritte: seq<Schritt>, i: nat, name: string)
    requires Lauf(zustaende, schritte) && i < |zustaende| && name in zustaende[i].dateien && !IstPartial(name)
    ensures Vollstaendig(zustaende[i].dateien[name])
  {
    LaufHaeltInvariante(zustaende, schritte, i);
  }

  /** A rename finds its partial file and never overwrites a published one. */
  lemma UmbenennenUeberschreibtNichts(zustaende: seq<Zustand>, schritte: seq<Schritt>, i: nat)
    requires Lauf(zustaende, schritte) && i < |schritte| && schritte[i].Veroeffentlichen?
    ensures var z := zustaende[i].PcVon(schritte[i].p).ziel;
            z !in zustaende[i].dateien && Partial(z) in zustaende[i].dateien &&
              Vollstaendig(zustaende[i].dateien[Partial(z)])
  {
    LaufHaeltInvariante(zustaende, schritte, i);
  }

  /** The exclusive create never meets a leftover. */
  lemma AnlegenTrifftNichts(zustaende: seq<Zustand>, schritte: seq<Schritt>, i: nat)
    requires Lauf(zustaende, schritte) && i < |schritte| && schritte[i].Anlegen?
    ensures Partial(zustaende[i].PcVon(schritte[i].p).ziel) !in zustaende[i].dateien
  {
    LaufHaeltInvariante(zustaende, schritte, i);
  }

  /** While stale files are cleaned up nobody is writing, so no live writer loses its file. */
  lemma PutzenTrifftKeinenSchreiber(zustaende: seq<Zustand>, schritte: seq<Schritt>, i: nat, q: nat)
    requires Lauf(zustaende, schritte) && i < |schritte| && schritte[i].Putzen?
    ensures !zustaende[i].PcVon(q).Schreibt? && !zustaende[i].PcVon(q).Gewaehlt?
  {
    LaufHaeltInvariante(zustaende, schritte, i);
    assert zustaende[i].sperre == Some(schritte[i].p);
  }

  /** The final `unlink` removes at most a file this process created. */
  lemma WegraeumenNurEigenes(zustaende: seq<Zustand>, schritte: seq<Schritt>, i: nat)
    requires Lauf(zustaende, schritte) && i < |schritte| && schritte[i].Wegraeumen?
    ensures var name := Partial(zustaende[i].PcVon(schritte[i].p).ziel);
            IstPartial(name) && (name in zustaende[i].dateien ==> zustaende[i].dateien[name].besitzer == schritte[i].p)
  {
    LaufHaeltInvariante(zustaende, schritte, i);
    PartialVonZiel(zustaende[i].PcVon(schritte[i].p).ziel);
  }

  /** A published file never changes while it exists; only pruning and a power failure take one away. */
  lemma VeroeffentlichtesBleibt(zustaende: seq<Zustand>, schritte: seq<Schritt>, i: nat, name: string)
    requires Lauf(zustaende, schritte) && i < |schritte| && name in zustaende[i].dateien && !IstPartial(name)
    ensures name in zustaende[i + 1].dateien ==> zustaende[i + 1].dateien[name] == zustaende[i].dateien[name]
    ensures name !in zustaende[i + 1].dateien ==> schritte[i].Stromausfall? || schritte[i] == Beschneiden(name)
  {
    LaufHaeltInvariante(zustaende, schritte, i);
    var s, a := zustaende[i], schritte[i];
    hide IstPartial, DateiGueltig, FreierName;
    match a
    case Stromausfall(neu) => StromausfallErhaelt(s, neu);
    case Anlegen(_, _) => PartialVonZiel(s.PcVon(a.p).ziel);
    case Schreiben(_, _) => PartialVonZiel(s.PcVon(a.p).ziel);
    case Sichern(_) => PartialVonZiel(s.PcVon(a.p).ziel);
    case Veroeffentlichen(_) =>
      PartialVonZiel(s.PcVon(a.p).ziel);
      UmbenennenUeberschreibtNichts(zustaende, schritte, i);
    case Wegraeumen(_) => PartialVonZiel(s.PcVon(a.p).ziel);
    case _ =>
  }
}
