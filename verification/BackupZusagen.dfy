/** What the steps of a backup bring about: a successful dump is published, and stays. */
module BackupZusagen {
  import opened Grundlagen
  import opened BackupNamen
  import opened BackupProtokoll

  // ---------------------------------------------------------------- publishing

  /** The rename puts the finished file, complete and unchanged, under its target name, and touches no other name. */
  lemma VeroeffentlichenWirkt(zustaende: seq<Zustand>, schritte: seq<Schritt>, i: nat)
    requires Lauf(zustaende, schritte) && i < |schritte| && schritte[i].Veroeffentlichen?
    ensures var p := schritte[i].p;
            var z := zustaende[i].PcVon(p).ziel;
            && Partial(z) in zustaende[i].dateien && z in zustaende[i + 1].dateien
            && zustaende[i + 1].dateien[z] == zustaende[i].dateien[Partial(z)]
            && zustaende[i + 1].dateien[z].inhalt == zustaende[i + 1].dateien[z].quelle
            && zustaende[i + 1].dateien[z].gesichert == |zustaende[i + 1].dateien[z].quelle|
            && zustaende[i + 1].dateien[z].besitzer == p && Partial(z) !in zustaende[i + 1].dateien
            && zustaende[i + 1].dateien - {z} == zustaende[i].dateien - {Partial(z)}
  {
    LaufHaeltInvariante(zustaende, schritte, i);
    UmbenennenUeberschreibtNichts(zustaende, schritte, i);
    PartialVonZiel(zustaende[i].PcVon(schritte[i].p).ziel);
    hide IstPartial, EndetMit;
  }

  /** Between creating its file and publishing it a process is not interrupted. */
  ghost predicate Ungestoert(schritte: seq<Schritt>, p: nat, von: nat, bis: nat)
    requires bis <= |schritte|
  {
    forall i :: von <= i < bis ==>
      !schritte[i].Stromausfall? && schritte[i] != Scheitern(p) && schritte[i] != Absturz(p) &&
        schritte[i] != Veroeffentlichen(p)
  }

  /** While it writes, the file under its partial name is its own and the one it was created for. */
  lemma {:induction false} InArbeit(zustaende: seq<Zustand>, schritte: seq<Schritt>, a: nat, quelle: seq<nat>, i: nat)
    requires Lauf(zustaende, schritte) && a < i <= |schritte| && schritte[a].Anlegen? && schritte[a].quelle == quelle
    requires Ungestoert(schritte, schritte[a].p, a + 1, i)
    ensures var z := zustaende[a].PcVon(schritte[a].p).ziel;
            && zustaende[i].PcVon(schritte[a].p).Schreibt? && zustaende[i].PcVon(schritte[a].p).ziel == z
            && Partial(z) in zustaende[i].dateien && zustaende[i].dateien[Partial(z)].quelle == quelle
    decreases i
  {
    var p := schritte[a].p;
    var z := zustaende[a].PcVon(p).ziel;
    LaufHaeltInvariante(zustaende, schritte, i - 1);
    if i == a + 1 {
      AnlegenTrifftNichts(zustaende, schritte, a);
      hide Inv, FreierName;
    } else {
      hide Inv, Nach, Erlaubt;
      InArbeit(zustaende, schritte, a, quelle, i - 1);
      SchrittLaesstArbeit(zustaende[i - 1], schritte[i - 1], p);
    }
  }

  lemma SchrittLaesstArbeit(s: Zustand, a: Schritt, p: nat)
    requires Inv(s) && Erlaubt(s, a) && s.PcVon(p).Schreibt? && Partial(s.PcVon(p).ziel) in s.dateien
    requires !a.Stromausfall? && a != Scheitern(p) && a != Absturz(p) && a != Veroeffentlichen(p)
    ensures var t := Nach(s, a);
            && t.PcVon(p).Schreibt? && t.PcVon(p).ziel == s.PcVon(p).ziel
            && Partial(s.PcVon(p).ziel) in t.dateien
            && t.dateien[Partial(s.PcVon(p).ziel)].quelle == s.dateien[Partial(s.PcVon(p).ziel)].quelle
  {
    PartialVonZiel(s.PcVon(p).ziel);
    assert s.sperre == Some(p);
    hide IstPartial, EndetMit, FreierName, DateiGueltig, PcGueltig;
  }

  /** Create, write, synchronise, check, publish: the target then holds every byte the producer had to give. */
  lemma DumpWirdVeroeffentlicht(zustaende: seq<Zustand>, schritte: seq<Schritt>, a: nat, c: nat)
    requires Lauf(zustaende, schritte) && a < c < |schritte| && schritte[a].Anlegen?
    requires schritte[c] == Veroeffentlichen(schritte[a].p) && Ungestoert(schritte, schritte[a].p, a + 1, c)
    ensures var z := zustaende[a].PcVon(schritte[a].p).ziel;
            && z !in zustaende[c].dateien && z in zustaende[c + 1].dateien
            && zustaende[c + 1].dateien[z].inhalt == schritte[a].quelle
            && Partial(z) !in zustaende[c + 1].dateien
  {
    InArbeit(zustaende, schritte, a, schritte[a].quelle, c);
    VeroeffentlichenWirkt(zustaende, schritte, c);
    UmbenennenUeberschreibtNichts(zustaende, schritte, c);
    hide Nach, Erlaubt, Lauf;
  }

  /** No step prunes `z`, and the power stays on. */
  ghost predicate Unangetastet(schritte: seq<Schritt>, z: string, von: nat, bis: nat)
    requires bis <= |schritte|
  {
    forall i :: von <= i < bis ==> !schritte[i].Stromausfall? && schritte[i] != Beschneiden(z)
  }

  /** A published dump is there, byte for byte, in every later state until it is pruned or the power fails. */
  lemma {:induction false} DumpBleibt(zustaende: seq<Zustand>, schritte: seq<Schritt>, a: nat, c: nat, k: nat)
    requires Lauf(zustaende, schritte) && a < c < k <= |schritte| && schritte[a].Anlegen?
    requires schritte[c] == Veroeffentlichen(schritte[a].p) && Ungestoert(schritte, schritte[a].p, a + 1, c)
    requires Unangetastet(schritte, zustaende[a].PcVon(schritte[a].p).ziel, c + 1, k)
    ensures var z := zustaende[a].PcVon(schritte[a].p).ziel;
            !IstPartial(z) && z in zustaende[k].dateien && zustaende[k].dateien[z].inhalt == schritte[a].quelle
    decreases k
  {
    var z := zustaende[a].PcVon(schritte[a].p).ziel;
    if k == c + 1 {
      DumpWirdVeroeffentlicht(zustaende, schritte, a, c);
      LaufHaeltInvariante(zustaende, schritte, a);
    } else {
      DumpBleibt(zustaende, schritte, a, c, k - 1);
      VeroeffentlichtesBleibt(zustaende, schritte, k - 1, z);
    }
  }

  /** Even a power failure takes at most the name; what is left under it is the whole dump. */
  lemma NachStromausfallGanzOderWeg(zustaende: seq<Zustand>, schritte: seq<Schritt>, i: nat, z: string, p: nat)
    requires Lauf(zustaende, schritte) && i < |schritte| && schritte[i].Stromausfall?
    requires z in zustaende[i].dateien && !IstPartial(z)
    ensures z in zustaende[i + 1].dateien ==> zustaende[i + 1].dateien[z] == zustaende[i].dateien[z]
    ensures zustaende[i + 1].sperre.None? && zustaende[i + 1].PcVon(p).Ruhe?
  {
    VeroeffentlichtesBleibt(zustaende, schritte, i, z);
  }

  /** What is published has the ending of its kind. */
  lemma EndungDerArt(zustaende: seq<Zustand>, schritte: seq<Schritt>, i: nat)
    requires Lauf(zustaende, schritte) && i < |schritte| && schritte[i].Veroeffentlichen?
    ensures var c := zustaende[i].PcVon(schritte[i].p);
            EndetMit(c.ziel, if c.art.Dump? then ".sql.gz" else ".tar.gz")
  {
    LaufHaeltInvariante(zustaende, schritte, i);
  }

  // ---------------------------------------------------------------- cleaning up

  /** A partial file is only cleaned away a day after it was last written to; nothing else goes with it. */
  lemma PutzenNurAltes(zustaende: seq<Zustand>, schritte: seq<Schritt>, i: nat)
    requires Lauf(zustaende, schritte) && i < |schritte| && schritte[i].Putzen?
    ensures var name := schritte[i].name;
            && EndetMit(name, ".partial") && name in zustaende[i].dateien
            && zustaende[i].dateien[name].mtime + 86400 < zustaende[i].jetzt
            && zustaende[i + 1].dateien == zustaende[i].dateien - {name}
  {
  }

  /** Writing moves the time and adds the next bytes of the producer, whoever writes. */
  lemma SchreibenWirkt(zustaende: seq<Zustand>, schritte: seq<Schritt>, i: nat)
    requires Lauf(zustaende, schritte) && i < |schritte| && (schritte[i].Schreiben? || schritte[i].Nachzuegler?)
    ensures var name := if schritte[i].Schreiben? then Partial(zustaende[i].PcVon(schritte[i].p).ziel)
      else schritte[i].name;
            && name in zustaende[i].dateien && name in zustaende[i + 1].dateien && IstPartial(name)
            && zustaende[i + 1].dateien - {name} == zustaende[i].dateien - {name}
            && var d, e := zustaende[i].dateien[name], zustaende[i + 1].dateien[name];
               && e == d.(inhalt := e.inhalt, mtime := zustaende[i].jetzt) &&
                 |e.inhalt| == |d.inhalt| + schritte[i].bytes
               && e.inhalt == d.quelle[..|e.inhalt|] && d.inhalt <= e.inhalt
  {
    LaufHaeltInvariante(zustaende, schritte, i);
    if schritte[i].Schreiben? { PartialVonZiel(zustaende[i].PcVon(schritte[i].p).ziel); }
    hide IstPartial, EndetMit, PcGueltig;
    if schritte[i].Schreiben? { IstAmSchreiben(zustaende[i], schritte[i].p); }
    var name := if schritte[i].Schreiben? then Partial(zustaende[i].PcVon(schritte[i].p).ziel) else schritte[i].name;
    assert DateiGueltig(name, zustaende[i].dateien[name]);
  }

  lemma IstAmSchreiben(s: Zustand, p: nat)
    requires Inv(s) && s.PcVon(p).Schreibt?
    ensures Partial(s.PcVon(p).ziel) in s.dateien
  {
    assert s.sperre == Some(p);
  }

  /** However a backup ends, its own partial file is gone after the final `unlink`, and nothing else. */
  lemma WegraeumenWirkt(zustaende: seq<Zustand>, schritte: seq<Schritt>, i: nat)
    requires Lauf(zustaende, schritte) && i < |schritte| && schritte[i].Wegraeumen?
    ensures var name := zustaende[i].PcVon(schritte[i].p).ziel + ".partial";
            zustaende[i + 1].dateien == zustaende[i].dateien - {name}
  {
  }

  // ---------------------------------------------------------------- the lock

  /** Two processes are never at work at once. */
  lemma HoechstensEinerArbeitet(zustaende: seq<Zustand>, schritte: seq<Schritt>, i: nat, p: nat, q: nat)
    requires Lauf(zustaende, schritte) && i < |zustaende| && !zustaende[i].PcVon(p).Ruhe? &&
             !zustaende[i].PcVon(q).Ruhe?
    ensures p == q
  {
    LaufHaeltInvariante(zustaende, schritte, i);
  }

  /** A process is turned away only while another one is at work or holds the lock, and changes nothing. */
  lemma AbgewiesenOhneWirkung(zustaende: seq<Zustand>, schritte: seq<Schritt>, i: nat)
    requires Lauf(zustaende, schritte) && i < |schritte| && schritte[i].Abgewiesen?
    ensures zustaende[i + 1] == zustaende[i] && exists q :: q != schritte[i].p && !zustaende[i].PcVon(q).Ruhe?
  {
    LaufHaeltInvariante(zustaende, schritte, i);
    var q := zustaende[i].sperre.value;
    assert PcGueltig(zustaende[i], q);
    assert !zustaende[i].PcVon(q).Ruhe?;
  }

  /** Leaving, by itself or by dying, frees the lock and touches no file, so the next process can start. */
  lemma VerlassenGibtFrei(zustaende: seq<Zustand>, schritte: seq<Schritt>, i: nat, q: nat)
    requires Lauf(zustaende, schritte) && i < |schritte| && (schritte[i].Freigeben? || schritte[i].Absturz?)
    ensures zustaende[i + 1].dateien == zustaende[i].dateien && Erlaubt(zustaende[i + 1], Sperren(q))
  {
    LaufHaeltInvariante(zustaende, schritte, i);
    assert zustaende[i].sperre == Some(schritte[i].p);
    assert zustaende[i + 1].sperre.None?;
    LaufHaeltInvariante(zustaende, schritte, i + 1);
  }

  // ---------------------------------------------------------------- what can happen does happen in the model

  /** The steps `schritte` lead from `s` to `t`. */
  ghost predicate Fuehrt(s: Zustand, schritte: seq<Schritt>, t: Zustand)
    decreases |schritte|
  {
    if schritte == [] then s == t
    else Erlaubt(s, schritte[0]) && Fuehrt(Nach(s, schritte[0]), schritte[1..], t)
  }

  lemma {:induction false} FuehrtWeiter(s: Zustand, schritte: seq<Schritt>, t: Zustand, a: Schritt)
    requires Fuehrt(s, schritte, t) && Erlaubt(t, a)
    ensures Fuehrt(s, schritte + [a], Nach(t, a))
    decreases |schritte|
  {
    hide Erlaubt, Nach;
    if schritte == [] {
      assert (schritte + [a])[1..] == [];
    } else {
      assert (schritte + [a])[1..] == schritte[1..] + [a];
      FuehrtWeiter(Nach(s, schritte[0]), schritte[1..], t, a);
    }
  }

  /**
   * From any state between two backups a dump of any bytes can be taken; it ends under the free name and harms nothing.
   */
  lemma ErfolgMoeglich(s: Zustand, p: nat, liste: seq<string>, stem: string, art: Art, quelle: seq<nat>)
      returns (schritte: seq<Schritt>, t: Zustand)
    requires Inv(s) && s.sperre.None? && forall n :: n in liste <==> n in s.dateien
    ensures Fuehrt(s, schritte, t)
    ensures var z := FreierName(liste, stem, Endung(art));
            && z !in s.dateien && t.dateien.Keys == s.dateien.Keys + {z} && t.dateien[z].inhalt == quelle
            && forall n :: n in s.dateien ==> t.dateien[n] == s.dateien[n]
  {
    var z := FreierName(liste, stem, Endung(art));
    FreierNameIstFrei(liste, stem, Endung(art));
    PartialVonZiel(z);
    schritte, t := BisZumSchreiben(s, p, liste, stem, art);
    hide FreierName, IstPartial, Endung, Fuehrt, Inv;
    schritte, t := BisZumEnde(s, schritte, t, p, z, art, quelle);
    schritte, t := GesichertUndGeprueft(s, schritte, t, p, z, art);
    FuehrtWeiter(s, schritte, t, Veroeffentlichen(p));
    schritte, t := schritte + [Veroeffentlichen(p)], Nach(t, Veroeffentlichen(p));
  }

  lemma BisZumSchreiben(s: Zustand, p: nat, liste: seq<string>, stem: string, art: Art) returns (schritte: seq<Schritt>,
                                                                                                 t: Zustand)
    requires Inv(s) && s.sperre.None? && forall n :: n in liste <==> n in s.dateien
    ensures Fuehrt(s, schritte, t) && t.dateien == s.dateien &&
            t.PcVon(p) == Gewaehlt(FreierName(liste, stem, Endung(art)), art)
  {
    hide FreierName, IstPartial, Endung, DateiGueltig;
    schritte, t := [], s;
    FuehrtWeiter(s, schritte, t, Sperren(p));
    schritte, t := schritte + [Sperren(p)], Nach(t, Sperren(p));
    FuehrtWeiter(s, schritte, t, PutzenFertig(p));
    schritte, t := schritte + [PutzenFertig(p)], Nach(t, PutzenFertig(p));
    FuehrtWeiter(s, schritte, t, Waehlen(p, liste, stem, art));
    schritte, t := schritte + [Waehlen(p, liste, stem, art)], Nach(t, Waehlen(p, liste, stem, art));
  }

  /** The file is created, written in full, and the producer ends well. */
  lemma BisZumEnde(s: Zustand, schritte0: seq<Schritt>, t0: Zustand, p: nat, z: string, art: Art, quelle: seq<nat>)
      returns (schritte: seq<Schritt>, t: Zustand)
    requires Fuehrt(s, schritte0, t0) && t0.PcVon(p) == Gewaehlt(z, art) && Partial(z) !in t0.dateien
    ensures Fuehrt(s, schritte, t) && t.PcVon(p) == Schreibt(z, art, Gut, false, false)
    ensures t.dateien.Keys == t0.dateien.Keys + {Partial(z)} && t.dateien[Partial(z)].inhalt == quelle
    ensures forall n :: n in t0.dateien ==> t.dateien[n] == t0.dateien[n]
  {
    hide Fuehrt, IstPartial;
    FuehrtWeiter(s, schritte0, t0, Anlegen(p, quelle));
    schritte, t := schritte0 + [Anlegen(p, quelle)], Nach(t0, Anlegen(p, quelle));
    FuehrtWeiter(s, schritte, t, Schreiben(p, |quelle|));
    schritte, t := schritte + [Schreiben(p, |quelle|)], Nach(t, Schreiben(p, |quelle|));
    assert t.dateien[Partial(z)].inhalt == quelle;
    FuehrtWeiter(s, schritte, t, Produzent(p, true));
    schritte, t := schritte + [Produzent(p, true)], Nach(t, Produzent(p, true));
  }

  /** Dumps are synchronised before the exit code is looked at, media archives after. */
  lemma GesichertUndGeprueft(s: Zustand, schritte0: seq<Schritt>, t0: Zustand, p: nat, z: string, art: Art)
      returns (schritte: seq<Schritt>, t: Zustand)
    requires Fuehrt(s, schritte0, t0) && t0.PcVon(p) == Schreibt(z, art, Gut, false, false) && Partial(z) in t0.dateien
    ensures Fuehrt(s, schritte, t) && t.PcVon(p) == Schreibt(z, art, Gut, true, true)
    ensures t.dateien.Keys == t0.dateien.Keys && t.dateien[Partial(z)].inhalt == t0.dateien[Partial(z)].inhalt
    ensures forall n :: n in t0.dateien && n != Partial(z) ==> t.dateien[n] == t0.dateien[n]
  {
    hide Fuehrt, IstPartial;
    var erst, dann := if art.Dump? then Sichern(p) else Pruefen(p), if art.Dump? then Pruefen(p) else Sichern(p);
    FuehrtWeiter(s, schritte0, t0, erst);
    schritte, t := schritte0 + [erst], Nach(t0, erst);
    FuehrtWeiter(s, schritte, t, dann);
    schritte, t := schritte + [dann], Nach(t, dann);
  }

  /** `e` is `d` cut back to some length no shorter than what was synchronised. */
  predicate KannVerlieren(d: Datei, e: Datei) {
    e.inhalt <= d.inhalt && d.gesichert <= |e.inhalt| && e == d.(inhalt := e.inhalt)
  }

  /**
   * Disturbances are possible in every state: a crash of whoever works, pruning, and every loss a power failure may
   * cause.
   */
  lemma StoerungenMoeglich(s: Zustand, p: nat, name: string, neu: map<string, Datei>)
    ensures !s.PcVon(p).Ruhe? ==> Erlaubt(s, Absturz(p))
    ensures name in s.dateien && !EndetMit(name, ".partial") ==> Erlaubt(s, Beschneiden(name))
    ensures (forall n :: n in neu ==> n in s.dateien && KannVerlieren(s.dateien[n], neu[n])) ==>
      Erlaubt(s, Stromausfall(neu))
    ensures s.PcVon(p).Schreibt? ==> Erlaubt(s, Scheitern(p))
    ensures s.PcVon(p).Ruhe? && s.sperre.Some? ==> Erlaubt(s, Abgewiesen(p))
    ensures s.PcVon(p).Aufraeumen? && name in s.dateien && EndetMit(name, ".partial") &&
            s.dateien[name].mtime + 86400 < s.jetzt ==>
              Erlaubt(s, Putzen(p, name))
  {
  }

  /** And they have their effect: what is pruned is gone, what a power failure leaves is what is there, time passes. */
  lemma StoerungenWirken(zustaende: seq<Zustand>, schritte: seq<Schritt>, i: nat)
    requires Lauf(zustaende, schritte) && i < |schritte|
    ensures schritte[i].Beschneiden? ==>
      zustaende[i + 1] == zustaende[i].(dateien := zustaende[i].dateien - {schritte[i].name})
    ensures schritte[i].Stromausfall? ==> zustaende[i + 1].dateien == schritte[i].neu
    ensures schritte[i].Uhr? ==> zustaende[i + 1] == zustaende[i].(jetzt := zustaende[i].jetzt + schritte[i].sekunden)
  {
  }

  /** Giving up before the file is created, or failing while it is written, changes no file; the next steps are open. */
  lemma AufgebenUndScheitern(zustaende: seq<Zustand>, schritte: seq<Schritt>, i: nat)
    requires Lauf(zustaende, schritte) && i < |schritte| && (schritte[i].Verzichten? || schritte[i].Scheitern?)
    ensures zustaende[i + 1].dateien == zustaende[i].dateien
    ensures schritte[i].Verzichten? ==> Erlaubt(zustaende[i + 1], Freigeben(schritte[i].p))
    ensures schritte[i].Scheitern? ==> Erlaubt(zustaende[i + 1], Wegraeumen(schritte[i].p))
    ensures schritte[i].Scheitern? ==>
      zustaende[i + 1].PcVon(schritte[i].p).ziel == zustaende[i].PcVon(schritte[i].p).ziel
  {
  }
}
