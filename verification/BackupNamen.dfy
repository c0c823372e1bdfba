/** `_freier_backup_pfad` of app/cli.py. */
module BackupNamen {
  import opened Grundlagen
  import opened NamensSlug
  import opened Dezimal

  const PARTIAL := ".partial"

  predicate EndetMit(s: string, ende: string) {
    |ende| <= |s| && s[|s| - |ende|..] == ende
  }

  /** The endings in use start with a dot. */
  predicate IstEndung(endung: string) {
    endung != "" && endung[0] == '.' && !EndetMit(endung, PARTIAL)
  }

  /** `(?:_(\d{6,}))?` between stem and ending: the number, 0 when it is absent. */
  function Mitte(m: string): Option<nat> {
    if m == "" then Some(0)
    else if |m| >= 7 && m[0] == '_' && NurZiffern(m[1..]) then Some(Zahl(m[1..]))
    else None
  }

  function OhneEnde(s: string, ende: string): Option<string> {
    if EndetMit(s, ende) then Some(s[..|s| - |ende|]) else None
  }

  /** The number in `stem(_number)?ending(.partial)?`, None when the name does not match. */
  function Nummer(name: string, stem: string, endung: string): Option<nat> {
    if !BeginntMit(name, stem) then None else
    var rest := name[|stem|..];
    var fertig := OhneEnde(rest, endung);
    var teil := OhneEnde(rest, endung + PARTIAL);
    if fertig.Some? && Mitte(fertig.value).Some? then Mitte(fertig.value)
    else if teil.Some? then Mitte(teil.value)
    else None
  }

  /** The greatest number among the matching names of a listing. */
  function HoechsteNummer(liste: seq<string>, stem: string, endung: string): (h: Option<nat>)
    ensures h.None? <==> forall n :: n in liste ==> Nummer(n, stem, endung).None?
    ensures h.Some? ==> exists n :: n in liste && Nummer(n, stem, endung) == h
    ensures h.Some? ==> forall n :: n in liste && Nummer(n, stem, endung).Some? ==>
      Nummer(n, stem, endung).value <= h.value
  {
    if liste == [] then None else
    assert liste == [liste[0]] + liste[1..];
    var rest := HoechsteNummer(liste[1..], stem, endung);
    var n := Nummer(liste[0], stem, endung);
    if n.None? then rest
    else if rest.None? || rest.value < n.value then n
    else rest
  }

  /** `stem.ending` for number 0, otherwise `stem_000001.ending` and so on. */
  function NameMit(stem: string, k: nat, endung: string): string {
    stem + (if k == 0 then "" else "_" + Aufgefuellt(Ziffern(k), 6)) + endung
  }

  function FreierName(liste: seq<string>, stem: string, endung: string): string {
    var h := HoechsteNummer(liste, stem, endung);
    NameMit(stem, if h.None? then 0 else h.value + 1, endung)
  }

  // ---------------------------------------------------------------- freshness

  lemma MitteVonNummer(k: nat)
    requires k > 0
    ensures Mitte("_" + Aufgefuellt(Ziffern(k), 6)) == Some(k)
  {
    var m := "_" + Aufgefuellt(Ziffern(k), 6);
    assert m[1..] == Aufgefuellt(Ziffern(k), 6);
    ZahlVonAufgefuellt(Ziffern(k), 6);
    ZahlVonZiffern(k);
  }

  /** Building a name and reading its number back. */
  lemma NummerVonName(stem: string, k: nat, endung: string)
    requires IstEndung(endung)
    ensures Nummer(NameMit(stem, k, endung), stem, endung) == Some(k)
    ensures Nummer(NameMit(stem, k, endung) + PARTIAL, stem, endung) == Some(k)
  {
    var m := if k == 0 then "" else "_" + Aufgefuellt(Ziffern(k), 6);
    if k > 0 { MitteVonNummer(k); }
    assert NameMit(stem, k, endung) == stem + (m + endung);
    assert NameMit(stem, k, endung) + PARTIAL == stem + (m + (endung + PARTIAL));
    NummerVonTeilen(stem, m, endung);
  }

  lemma NummerVonTeilen(stem: string, m: string, endung: string)
    requires IstEndung(endung) && Mitte(m).Some?
    ensures Nummer(stem + (m + endung), stem, endung) == Mitte(m)
    ensures Nummer(stem + (m + (endung + PARTIAL)), stem, endung) == Mitte(m)
  {
    hide Mitte;
    EndeAbtrennen(m, endung);
    EndeAbtrennen(m, endung + PARTIAL);
    NichtFertig(m, endung);
    hide OhneEnde;
    assert (stem + (m + endung))[|stem|..] == m + endung;
    assert (stem + (m + (endung + PARTIAL)))[|stem|..] == m + (endung + PARTIAL);
    assert BeginntMit(stem + (m + endung), stem) && BeginntMit(stem + (m + (endung + PARTIAL)), stem);
  }

  lemma EndeAbtrennen(m: string, ende: string)
    ensures OhneEnde(m + ende, ende) == Some(m)
  {
    assert (m + ende)[|m|..] == ende && (m + ende)[..|m|] == m;
  }

  /** A name with `.partial` never ends with the plain ending. */
  lemma NichtFertig(m: string, endung: string)
    requires IstEndung(endung)
    ensures OhneEnde(m + (endung + PARTIAL), endung).None?
  {
    var s := m + (endung + PARTIAL);
    if |endung| <= |s| {
      var t := s[|s| - |endung|..];
      if |endung| < |PARTIAL| {
        assert t[0] == PARTIAL[|PARTIAL| - |endung|] != '.';
      } else {
        assert t[|t| - |PARTIAL|..] == PARTIAL;
        assert EndetMit(t, PARTIAL);
      }
      assert t != endung;
    }
  }

  /** The chosen name is free, and so is its `.partial`: the exclusive create and the rename hit nothing. */
  lemma FreierNameIstFrei(liste: seq<string>, stem: string, endung: string)
    requires IstEndung(endung)
    ensures FreierName(liste, stem, endung) !in liste
    ensures FreierName(liste, stem, endung) + PARTIAL !in liste
  {
    var h := HoechsteNummer(liste, stem, endung);
    NummerVonName(stem, if h.None? then 0 else h.value + 1, endung);
  }

  // ---------------------------------------------------------------- what is counted, what comes next

  /** Nothing, or an underscore and at least six digits. */
  predicate IstMitte(m: string) {
    m == "" || (|m| >= 7 && m[0] == '_' && forall i :: 1 <= i < |m| ==> '0' <= m[i] <= '9')
  }

  /** `name` is `stem`, `m` and the ending, published or still partial. */
  ghost predicate PasstMit(name: string, stem: string, endung: string, m: string) {
    IstMitte(m) && (name == stem + m + endung || name == stem + m + endung + ".partial")
  }

  lemma MitteGenauDann(m: string)
    ensures Mitte(m).Some? <==> IstMitte(m)
    ensures IstMitte(m) ==> Mitte(m).value == if m == "" then 0 else Zahl(m[1..])
  {
    if |m| >= 7 {
      assert NurZiffern(m[1..]) <==> forall i :: 1 <= i < |m| ==> '0' <= m[i] <= '9' by {
        assert forall i :: 1 <= i < |m| ==> m[i] == m[1..][i - 1];
        assert forall i :: 0 <= i < |m| - 1 ==> m[1..][i] == m[i + 1];
      }
    }
  }

  /** `name` has this form and carries the number `k`; without a number it counts as 0. */
  ghost predicate TraegtNummer(name: string, stem: string, endung: string, k: nat) {
    exists m :: PasstMit(name, stem, endung, m) && k == if m == "" then 0 else Zahl(m[1..])
  }

  /** Exactly the names of this form count, with the number they carry. */
  lemma NummerGenauDann(name: string, stem: string, endung: string, k: nat)
    requires IstEndung(endung)
    ensures Nummer(name, stem, endung) == Some(k) <==> TraegtNummer(name, stem, endung, k)
  {
    if m :| PasstMit(name, stem, endung, m) && k == if m == "" then 0 else Zahl(m[1..]) {
      NummerVonPassend(name, stem, endung, m);
    }
    if Nummer(name, stem, endung) == Some(k) {
      var m := TeilVon(name, stem, endung);
    }
  }

  lemma NummerVonPassend(name: string, stem: string, endung: string, m: string)
    requires IstEndung(endung) && PasstMit(name, stem, endung, m)
    ensures Nummer(name, stem, endung) == Some(if m == "" then 0 else Zahl(m[1..]))
  {
    MitteGenauDann(m);
    hide Nummer, Mitte, IstEndung;
    NummerVonTeilen(stem, m, endung);
    assert stem + m + endung == stem + (m + endung);
    assert stem + m + endung + ".partial" == stem + (m + (endung + ".partial"));
  }

  lemma TeilVon(name: string, stem: string, endung: string) returns (m: string)
    requires Nummer(name, stem, endung).Some?
    ensures PasstMit(name, stem, endung, m)
    ensures Nummer(name, stem, endung).value == if m == "" then 0 else Zahl(m[1..])
  {
    var rest := name[|stem|..];
    var fertig := OhneEnde(rest, endung);
    if fertig.Some? && Mitte(fertig.value).Some? {
      m := fertig.value;
      MitteGenauDann(m);
      assert Nummer(name, stem, endung) == Mitte(m);
      OhneEndeGenau(rest, endung, m);
      hide *;
      assert name == stem + rest;
      Fertig(name, stem, endung, m, rest);
    } else {
      m := OhneEnde(rest, endung + PARTIAL).value;
      MitteGenauDann(m);
      assert Nummer(name, stem, endung) == Mitte(m);
      OhneEndeGenau(rest, endung + PARTIAL, m);
      hide *;
      assert name == stem + rest;
      Partiell(name, stem, endung, m, rest);
    }
  }

  lemma OhneEndeGenau(s: string, ende: string, m: string)
    requires OhneEnde(s, ende) == Some(m)
    ensures s == m + ende
  {
  }

  lemma Fertig(name: string, stem: string, endung: string, m: string, rest: string)
    requires IstMitte(m) && name == stem + rest && rest == m + endung
    ensures PasstMit(name, stem, endung, m)
  {
    assert stem + m + endung == stem + (m + endung);
  }

  lemma Partiell(name: string, stem: string, endung: string, m: string, rest: string)
    requires IstMitte(m) && name == stem + rest && rest == m + (endung + PARTIAL)
    ensures PasstMit(name, stem, endung, m)
  {
    assert stem + m + endung + ".partial" == stem + (m + (endung + ".partial"));
  }

  /** A number in at least six digits, padded with zeros only up to six. */
  predicate IstNummer(z: string) {
    |z| >= 6 && NurZiffern(z) && (|z| > 6 ==> z[0] != '0')
  }

  /** The first name of a stem is the plain one; every later one carries the number after the greatest in use. */
  lemma FreierNameGenau(liste: seq<string>, stem: string, endung: string)
    requires IstEndung(endung)
    ensures (forall n, k: nat :: n in liste ==> !TraegtNummer(n, stem, endung, k)) ==>
              FreierName(liste, stem, endung) == stem + endung
    ensures (exists n, k: nat :: n in liste && TraegtNummer(n, stem, endung, k)) ==>
              exists k: nat :: GroessteNummer(liste, stem, endung, k) &&
                               IstNameNach(FreierName(liste, stem, endung), stem, endung, k)
  {
    var h := HoechsteNummer(liste, stem, endung);
    HoechsteGenau(liste, stem, endung, h);
    if h.Some? {
      NaechsterName(stem, endung, h.value);
    } else {
      assert stem + "" + endung == stem + endung;
    }
    hide TraegtNummer, GroessteNummer, IstNameNach, HoechsteNummer, NameMit, IstEndung;
  }

  lemma HoechsteGenau(liste: seq<string>, stem: string, endung: string, h: Option<nat>)
    requires IstEndung(endung) && h == HoechsteNummer(liste, stem, endung)
    ensures h.None? <==> forall n, k: nat :: n in liste ==> !TraegtNummer(n, stem, endung, k)
    ensures h.Some? ==> GroessteNummer(liste, stem, endung, h.value)
  {
    forall n, k: nat
      ensures Nummer(n, stem, endung) == Some(k) <==> TraegtNummer(n, stem, endung, k)
    {
      NummerGenauDann(n, stem, endung, k);
    }
    hide Nummer, TraegtNummer, IstEndung;
    if n, k: nat :| n in liste && TraegtNummer(n, stem, endung, k) { assert Nummer(n, stem, endung) == Some(k); }
    if h.Some? {
      var n :| n in liste && Nummer(n, stem, endung) == h;
      assert TraegtNummer(n, stem, endung, h.value);
      forall x, k: nat | x in liste && TraegtNummer(x, stem, endung, k)
        ensures k <= h.value
      {
        assert Nummer(x, stem, endung) == Some(k);
      }
    }
  }

  ghost predicate GroessteNummer(liste: seq<string>, stem: string, endung: string, k: nat) {
    && (exists n :: n in liste && TraegtNummer(n, stem, endung, k))
    && (forall n, j: nat :: n in liste && TraegtNummer(n, stem, endung, j) ==> j <= k)
  }

  ghost predicate IstNameNach(name: string, stem: string, endung: string, k: nat) {
    exists z :: IstNummer(z) && Zahl(z) == k + 1 && name == stem + "_" + z + endung
  }

  lemma NaechsterName(stem: string, endung: string, k: nat)
    ensures IstNameNach(NameMit(stem, k + 1, endung), stem, endung, k)
  {
    var z := Aufgefuellt(Ziffern(k + 1), 6);
    ZahlVonAufgefuellt(Ziffern(k + 1), 6);
    ZahlVonZiffern(k + 1);
    OhneNullVorn(k + 1);
    assert stem + ("_" + z) + endung == stem + "_" + z + endung;
    assert IstNummer(z);
  }

  lemma {:induction false} OhneNullVorn(n: nat)
    requires n > 0
    ensures Ziffern(n)[0] != '0'
  {
    if n >= 10 { OhneNullVorn(n / 10); }
  }

  // ---------------------------------------------------------------- order

  /** Consecutive names of one stem sort in order exactly when the numeral does not get longer. */
  lemma NachbarnSortiertGenauDann(stem: string, k: nat, endung: string)
    requires IstEndung(endung)
    ensures Vor(NameMit(stem, k, endung), NameMit(stem, k + 1, endung)) <==>
            k == 0 || |Aufgefuellt(Ziffern(k), 6)| == |Aufgefuellt(Ziffern(k + 1), 6)|
  {
    var a, b := Aufgefuellt(Ziffern(k), 6), Aufgefuellt(Ziffern(k + 1), 6);
    LaengeBeimZaehlen(k);
    if k == 0 {
      NullZuerst(stem, k + 1, endung);
    } else if |a| == |b| {
      NamenSortiert(stem, k, k + 1, endung);
    } else {
      NameZerlegt(stem, k, endung);
      NameZerlegt(stem, k + 1, endung);
      GemeinsamerAnfang(stem + "_", a + endung, b + endung);
    }
  }

  lemma NameZerlegt(stem: string, k: nat, endung: string)
    requires k > 0
    ensures NameMit(stem, k, endung) == (stem + "_") + (Aufgefuellt(Ziffern(k), 6) + endung)
  {
  }

  /** `stem.ending` sorts before every numbered name, because '.' comes before '_'. */
  lemma NullZuerst(stem: string, k: nat, endung: string)
    requires k > 0 && IstEndung(endung)
    ensures Vor(NameMit(stem, 0, endung), NameMit(stem, k, endung))
  {
    var b := "_" + (Aufgefuellt(Ziffern(k), 6) + endung);
    assert NameMit(stem, 0, endung) == stem + endung;
    assert NameMit(stem, k, endung) == stem + b;
    GemeinsamerAnfang(stem, endung, b);
  }

  lemma NamenSortiert(stem: string, k: nat, l: nat, endung: string)
    requires 0 < k < l && |Aufgefuellt(Ziffern(k), 6)| == |Aufgefuellt(Ziffern(l), 6)|
    ensures Vor(NameMit(stem, k, endung), NameMit(stem, l, endung))
  {
    var a, b := Aufgefuellt(Ziffern(k), 6), Aufgefuellt(Ziffern(l), 6);
    ZahlVonAufgefuellt(Ziffern(k), 6);
    ZahlVonZiffern(k);
    ZahlVonAufgefuellt(Ziffern(l), 6);
    ZahlVonZiffern(l);
    GleichLangeZahlen(a, b);
    FolgeEgal(a, endung, b, endung);
    NameZerlegt(stem, k, endung);
    NameZerlegt(stem, l, endung);
    GemeinsamerAnfang(stem + "_", a + endung, b + endung);
  }

  lemma SechsStellen(k: nat)
    requires k <= 999999
    ensures |Aufgefuellt(Ziffern(k), 6)| == 6
  {
    LaengeWaechst(k, 999999);
    assert |Ziffern(999999)| == 6 by {
      assert |Ziffern(9)| == 1 && |Ziffern(99)| == 2 && |Ziffern(999)| == 3;
      assert |Ziffern(9999)| == 4 && |Ziffern(99999)| == 5;
    }
  }

  /**
   * While no file of the stem is removed and the counter stays at or below 999999, a later name sorts after an earlier
   * one.
   */
  lemma SpaetereNamenSortierenSpaeter(liste: seq<string>, stem: string, endung: string, spaeter: seq<string>)
    requires IstEndung(endung) && forall n :: n in liste ==> n in spaeter
    requires FreierName(liste, stem, endung) in spaeter || FreierName(liste, stem, endung) + PARTIAL in spaeter
    requires HoechsteNummer(spaeter, stem, endung).Some? ==> HoechsteNummer(spaeter, stem, endung).value < 999999
    ensures Vor(FreierName(liste, stem, endung), FreierName(spaeter, stem, endung))
  {
    hide Nummer, NameMit, Aufgefuellt, Vor, IstEndung;
    var h := HoechsteNummer(liste, stem, endung);
    var k := if h.None? then 0 else h.value + 1;
    NummerVonName(stem, k, endung);
    var l := HoechsteNummer(spaeter, stem, endung).value + 1;
    assert k < l;
    if k == 0 {
      NullZuerst(stem, l, endung);
    } else {
      SechsStellen(k);
      SechsStellen(l);
      NamenSortiert(stem, k, l, endung);
    }
  }

  /** The bound is tight: name 1000000 sorts before name 999999. */
  lemma GrenzeIstScharf(stem: string, endung: string)
    requires IstEndung(endung)
    ensures !Vor(NameMit(stem, 999999, endung), NameMit(stem, 1000000, endung))
  {
    SechsStellen(999999);
    assert |Ziffern(1000000)| == 7 by {
      assert |Ziffern(1)| == 1 && |Ziffern(10)| == 2 && |Ziffern(100)| == 3 && |Ziffern(1000)| == 4;
      assert |Ziffern(10000)| == 5 && |Ziffern(100000)| == 6;
    }
    NachbarnSortiertGenauDann(stem, 999999, endung);
  }
}
