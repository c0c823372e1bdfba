/** The phone entries of alembic/versions/0224_objekt_kontakt_telefon_freigabe.py. */
module Telefone {
  import opened Grundlagen
  import opened NamensSlug

  const LABELS: seq<string> := ["Telefon beruflich", "Telefon privat", "Mobil beruflich", "Mobil privat", "Pager"]

  datatype Eintrag = Eintrag(nummer: string, bezeichnung: Option<string>, sms: bool)

  /** A JSON value as `or`, `str()` and `is True` see it; a missing key reads as null. */
  datatype Json = JNull | JBool(b: bool) | JText(s: string) | JSonst(wahr: bool, text: string)

  /** An element of the decoded list: a string, an object with three keys of interest, or something else. */
  datatype Element = ElText(s: string) | ElObjekt(nummer: Json, bezeichnung: Json, sms: Json) | ElSonst

  /** The column `telefone_json` after `json.loads`; NULL, '' and undecodable text carry no list. */
  datatype Roh = OhneListe | Liste(werte: seq<Element>)

  // ---------------------------------------------------------------- str.strip

  /** `str.isspace` of one character, also what `\s` matches. */
  predicate Leerraum(c: char) {
    || '\t' <= c <= '\r' || '\U{1c}' <= c <= ' ' || c == '\U{85}' || c == '\U{a0}' || c == '\U{1680}'
    || '\U{2000}' <= c <= '\U{200a}' || c == '\U{2028}' || c == '\U{2029}' || c == '\U{202f}' || c == '\U{205f}' ||
      c == '\U{3000}'
  }

  /** The 29 characters `str.isspace` is true of. */
  lemma LeerraumGenau(c: char)
    ensures Leerraum(c) <==>
            c as int in [0x9, 0xa, 0xb, 0xc, 0xd, 0x1c, 0x1d, 0x1e, 0x1f, 0x20, 0x85, 0xa0, 0x1680, 0x2000, 0x2001,
                         0x2002,
              0x2003, 0x2004, 0x2005, 0x2006, 0x2007, 0x2008, 0x2009, 0x200a, 0x2028, 0x2029, 0x202f, 0x205f, 0x3000]
  {
  }

  predicate Getrimmt(s: string) {
    s == "" || (!Leerraum(s[0]) && !Leerraum(s[|s| - 1]))
  }

  /** `s.strip()` */
  function Strip(s: string): (r: string)
    ensures Getrimmt(r) && (r == s <==> Getrimmt(s))
    decreases |s|
  {
    if s == "" then s
    else if Leerraum(s[0]) then Strip(s[1..])
    else if Leerraum(s[|s| - 1]) then Strip(s[..|s| - 1])
    else s
  }

  // ---------------------------------------------------------------- parsing and printing

  /** `_legacy`: the first label whose prefix fits. */
  function MitLabel(text: string, labels: seq<string>): Eintrag {
    if labels == [] then Eintrag(text, None, false)
    else
      var praefix := labels[0] + ": ";
      if BeginntMit(text, praefix) then Eintrag(Strip(text[|praefix|..]), Some(labels[0]), false)
      else MitLabel(text, labels[1..])
  }

  function Legacy(wert: string): Eintrag {
    MitLabel(Strip(wert), LABELS)
  }

  /** `re.sub(r"[\s\-()/]", "", s)` */
  function OhneTrenner(s: string): string {
    if s == "" then ""
    else if Trenner(s[0]) then OhneTrenner(s[1..])
    else [s[0]] + OhneTrenner(s[1..])
  }

  /** `"+" + text[2:] if text.startswith("00") else text` */
  function Vorwahl(text: string): string {
    if BeginntMit(text, "00") then "+" + text[2..] else text
  }

  /** `_normalisiert` */
  function Normalisiert(wert: Option<string>): string {
    Vorwahl(OhneTrenner(Strip(if wert.Some? then wert.value else "")))
  }

  predicate Wahr(j: Json) {
    match j
    case JNull => false
    case JBool(b) => b
    case JText(s) => s != ""
    case JSonst(wahr, _) => wahr
  }

  function Str(j: Json): string {
    match j
    case JNull => "None"
    case JBool(b) => if b then "True" else "False"
    case JText(s) => s
    case JSonst(_, text) => text
  }

  /** `str(j or "").strip()` */
  function Getrimmter(j: Json): string {
    Strip(if Wahr(j) then Str(j) else "")
  }

  /** One element of the list, None when it is dropped. */
  function EintragVon(w: Element): Option<Eintrag> {
    match w
    case ElText(s) => Some(Legacy(s))
    case ElObjekt(nummer, bezeichnung, sms) =>
      if Getrimmter(nummer) == "" then None
      else
        var name := Getrimmter(bezeichnung);
        Some(Eintrag(Strip(Str(nummer)), if name == "" then None else Some(name), sms == JBool(true)))
    case ElSonst => None
  }

  function Gesammelt(werte: seq<Element>): seq<Eintrag> {
    if werte == [] then [] else
    var rest := Gesammelt(werte[1..]);
    var e := EintragVon(werte[0]);
    if e.Some? then [e.value] + rest else rest
  }

  /** `_eintraege` */
  function Eintraege(roh: Roh): seq<Eintrag> {
    if roh.OhneListe? then [] else Gesammelt(roh.werte)
  }

  /** An entry as `json.dumps` writes it. */
  function AlsObjekt(e: Eintrag): Element {
    ElObjekt(JText(e.nummer), if e.bezeichnung.Some? then JText(e.bezeichnung.value) else JNull, JBool(e.sms))
  }

  function AlsObjekte(es: seq<Eintrag>): (r: seq<Element>)
    ensures |r| == |es|
  {
    if es == [] then [] else [AlsObjekt(es[0])] + AlsObjekte(es[1..])
  }

  /** `f'{label}: {nummer}' if label else nummer` */
  function Drucke(e: Eintrag): string {
    if Gefuellt(e.bezeichnung) then e.bezeichnung.value + ": " + e.nummer else e.nummer
  }

  function AlsTexte(es: seq<Eintrag>): (r: seq<Element>)
    ensures |r| == |es| && forall i :: 0 <= i < |r| ==> r[i] == ElText(Drucke(es[i]))
  {
    if es == [] then [] else [ElText(Drucke(es[0]))] + AlsTexte(es[1..])
  }

  // ---------------------------------------------------------------- comparing numbers

  predicate Trenner(c: char) {
    Leerraum(c) || c == '-' || c == '(' || c == ')' || c == '/'
  }

  lemma {:induction false} OhneTrennerForm(s: string)
    ensures forall c :: c in OhneTrenner(s) ==> !Trenner(c)
    ensures (forall c :: c in s ==> !Trenner(c)) ==> OhneTrenner(s) == s
  {
    if s != "" {
      OhneTrennerForm(s[1..]);
      assert s == [s[0]] + s[1..];
    }
  }

  lemma {:induction false} OhneTrennerVerkettet(a: string, b: string)
    ensures OhneTrenner(a + b) == OhneTrenner(a) + OhneTrenner(b)
  {
    if a == "" {
      assert a + b == b;
    } else {
      assert (a + b)[0] == a[0] && (a + b)[1..] == a[1..] + b;
      OhneTrennerVerkettet(a[1..], b);
    }
  }

  lemma {:induction false} StripEgal(s: string)
    ensures OhneTrenner(Strip(s)) == OhneTrenner(s)
    decreases |s|
  {
    if s != "" {
      if Leerraum(s[0]) {
        StripEgal(s[1..]);
      } else if Leerraum(s[|s| - 1]) {
        StripEgal(s[..|s| - 1]);
        OhneTrennerVerkettet(s[..|s| - 1], [s[|s| - 1]]);
        assert s == s[..|s| - 1] + [s[|s| - 1]];
        assert [s[|s| - 1]][1..] == "";
      }
    }
  }

  lemma NormalisiertOhneStrip(s: string)
    ensures Normalisiert(Some(s)) == Vorwahl(OhneTrenner(s))
  {
    StripEgal(s);
  }

  /** The comparison form is canonical: no separators, no 00 in front, and stable under another pass. */
  lemma NormalisiertKanonisch(s: string)
    ensures var n := Normalisiert(Some(s));
            (forall c :: c in n ==> !Trenner(c)) && !BeginntMit(n, "00") && Normalisiert(Some(n)) == n
  {
    NormalisiertOhneStrip(s);
    OhneTrennerForm(s);
    var text := OhneTrenner(s);
    var n := Vorwahl(text);
    assert !Trenner('+');
    if BeginntMit(text, "00") {
      assert n[0] == '+' && "00"[0] == '0';
      assert !BeginntMit(n, "00");
    }
    hide Trenner, OhneTrenner, Normalisiert;
    OhneTrennerForm(n);
    NormalisiertOhneStrip(n);
  }

  /** A separator anywhere does not change which number is meant. */
  lemma TrennerEgal(a: string, trenner: char, b: string)
    requires Trenner(trenner)
    ensures Normalisiert(Some(a + [trenner] + b)) == Normalisiert(Some(a + b))
  {
    assert OhneTrenner([trenner]) == "" by { assert [trenner][1..] == ""; }
    hide Trenner, OhneTrenner, Normalisiert, Vorwahl;
    NormalisiertOhneStrip(a + [trenner] + b);
    NormalisiertOhneStrip(a + b);
    OhneTrennerVerkettet(a + [trenner], b);
    OhneTrennerVerkettet(a, [trenner]);
    OhneTrennerVerkettet(a, b);
  }

  /** Writing the international prefix as 00 or as + makes no difference. */
  lemma VorwahlEgal(b: string)
    ensures Normalisiert(Some("00" + b)) == Normalisiert(Some("+" + b))
  {
    assert !Trenner('0') && !Trenner('+');
    assert OhneTrenner("00") == "00" by { assert "00"[1..] == "0" && "0"[1..] == ""; }
    assert OhneTrenner("+") == "+" by { assert "+"[1..] == ""; }
    hide Trenner, OhneTrenner, Normalisiert;
    NormalisiertOhneStrip("00" + b);
    NormalisiertOhneStrip("+" + b);
    OhneTrennerVerkettet("00", b);
    OhneTrennerVerkettet("+", b);
    var rest := OhneTrenner(b);
    assert ("00" + rest)[..2] == "00" && ("00" + rest)[2..] == rest;
    assert ("+" + rest)[0] == '+';
  }

  // ---------------------------------------------------------------- the round trip of one entry

  predicate HatLabelPraefix(text: string, labels: seq<string>) {
    exists l :: l in labels && BeginntMit(text, l + ": ")
  }

  lemma {:induction false} MitLabelOhneTreffer(text: string, labels: seq<string>)
    ensures !HatLabelPraefix(text, labels) ==> MitLabel(text, labels) == Eintrag(text, None, false)
    ensures HatLabelPraefix(text, labels) ==>
      MitLabel(text, labels).bezeichnung.Some? && MitLabel(text, labels).bezeichnung.value in labels
    ensures Getrimmt(MitLabel(text, labels).nummer) || !Getrimmt(text)
  {
    if labels != [] && !BeginntMit(text, labels[0] + ": ") {
      MitLabelOhneTreffer(text, labels[1..]);
      assert labels == [labels[0]] + labels[1..];
    }
  }

  /** No label prefix is a prefix of a text that starts with another one. */
  lemma LabelsSchliessenSichAus(l: string, m: string, text: string)
    requires l in LABELS && m in LABELS && BeginntMit(text, l + ": ") && BeginntMit(text, m + ": ")
    ensures l == m
  {
    var a, b := l + ": ", m + ": ";
    var n := if |a| < |b| then |a| else |b|;
    assert a[..n] == text[..n] == b[..n];
    assert a[0] == b[0] && a[6] == b[6] && (n > 8 ==> a[8] == b[8]);
  }

  lemma {:induction false} MitDiesemLabel(text: string, labels: seq<string>, l: string)
    requires (forall m :: m in labels ==> m in LABELS) && l in labels && BeginntMit(text, l + ": ")
    ensures MitLabel(text, labels) == Eintrag(Strip(text[|l| + 2..]), Some(l), false)
  {
    if BeginntMit(text, labels[0] + ": ") {
      LabelsSchliessenSichAus(l, labels[0], text);
    } else {
      assert labels == [labels[0]] + labels[1..];
      MitDiesemLabel(text, labels[1..], l);
    }
  }

  /** What a caller can check before printing: the entry will be read back as it is. */
  predicate Lesbar(e: Eintrag) {
    && Getrimmt(e.nummer)
    && if e.bezeichnung.Some? then e.bezeichnung.value in LABELS && e.nummer != ""
       else !HatLabelPraefix(e.nummer, LABELS)
  }

  lemma LabelsSindGetrimmt(l: string)
    requires l in LABELS
    ensures l != "" && Getrimmt(l) && !Leerraum(l[0])
  {
  }

  lemma RundreiseMitLabel(e: Eintrag)
    requires e.bezeichnung.Some? && e.bezeichnung.value in LABELS
    ensures Legacy(Drucke(e)) == e.(sms := false) <==> Getrimmt(e.nummer) && e.nummer != ""
  {
    var l := e.bezeichnung.value;
    LabelsSindGetrimmt(l);
    var text := Drucke(e);
    assert text == l + ": " + e.nummer;
    MitLabelOhneTreffer(Strip(text), LABELS);
    if e.nummer == "" {
      OhneNummer(l);
    } else if Getrimmt(e.nummer) {
      assert text[|text| - 1] == e.nummer[|e.nummer| - 1];
      assert Strip(text) == text;
      assert text[..|l| + 2] == l + ": " && text[|l| + 2..] == e.nummer;
      MitDiesemLabel(text, LABELS, l);
    }
  }

  /** A label without a number loses its trailing blank and is no longer read as a label. */
  lemma OhneNummer(l: string)
    requires l in LABELS
    ensures Legacy(l + ": " + "").bezeichnung.None?
  {
    LabelsSindGetrimmt(l);
    var text := l + ": " + "";
    assert text[..|text| - 1] == l + ":";
    assert Strip(text) == l + ":" by {
      assert Leerraum(text[|text| - 1]);
      assert Getrimmt(l + ":");
    }
    KeinLabelVorn(l);
    MitLabelOhneTreffer(l + ":", LABELS);
  }

  lemma KeinLabelVorn(l: string)
    requires l in LABELS
    ensures !HatLabelPraefix(l + ":", LABELS)
  {
    forall m | m in LABELS
      ensures !BeginntMit(l + ":", m + ": ")
    {
      if BeginntMit(l + ":", m + ": ") {
        assert BeginntMit(l + ": ", m + ": ") by {
          assert (l + ": ")[..|m| + 2] == (l + ":")[..|m| + 2];
        }
        LabelsSchliessenSichAus(l, m, l + ": ");
      }
    }
  }

  /** Printing and reading back keeps number and label exactly for the readable entries. */
  lemma RundreiseGenauDann(e: Eintrag)
    ensures Legacy(Drucke(e)) == e.(sms := false) <==> Lesbar(e)
  {
    MitLabelOhneTreffer(Strip(Drucke(e)), LABELS);
    if e.bezeichnung.Some? {
      if e.bezeichnung.value in LABELS { RundreiseMitLabel(e); }
    } else {
      assert Drucke(e) == e.nummer;
    }
  }

  // ---------------------------------------------------------------- converting twice

  lemma {:induction false} MitLabelNummer(text: string, labels: seq<string>)
    requires Getrimmt(text)
    ensures MitLabel(text, labels).nummer == "" <==> text == ""
    ensures Getrimmt(MitLabel(text, labels).nummer)
  {
    if labels != [] {
      var praefix := labels[0] + ": ";
      if BeginntMit(text, praefix) {
        assert text[|praefix| - 1] == praefix[|praefix| - 1] == ' ';
        assert |text| > |praefix|;
        NichtNurLeerraum(text[|praefix|..]);
      } else {
        MitLabelNummer(text, labels[1..]);
      }
    }
  }

  lemma {:induction false} NichtNurLeerraum(s: string)
    requires s != "" && !Leerraum(s[|s| - 1])
    ensures Strip(s) != ""
    decreases |s|
  {
    if Leerraum(s[0]) { NichtNurLeerraum(s[1..]); }
  }

  /** A list element that is read as an entry without a number: only a blank string. */
  predicate Blank(w: Element) {
    w.ElText? && Strip(w.s) == ""
  }

  /**
   * What the conversion produces: trimmed numbers, labels trimmed and not empty, and a number unless the text was
   * blank.
   */
  lemma EintragForm(w: Element)
    requires EintragVon(w).Some?
    ensures var e := EintragVon(w).value;
            Getrimmt(e.nummer) && (e.nummer == "" <==> Blank(w)) &&
            (e.bezeichnung.Some? ==> Getrimmt(e.bezeichnung.value) && e.bezeichnung.value != "" && e.nummer != "")
  {
    match w
    case ElText(s) =>
      MitLabelNummer(Strip(s), LABELS);
      MitLabelOhneTreffer(Strip(s), LABELS);
    case ElObjekt(_, _, _) =>
    case ElSonst =>
  }

  /** An entry that has a number is read back unchanged from its object; one without is dropped. */
  lemma ObjektZurueck(w: Element)
    requires EintragVon(w).Some?
    ensures EintragVon(AlsObjekt(EintragVon(w).value)) == if Blank(w) then None else EintragVon(w)
  {
    EintragForm(w);
  }

  lemma {:induction false} KeinBlankGehtVerloren(werte: seq<Element>)
    ensures |Gesammelt(AlsObjekte(Gesammelt(werte)))| <= |Gesammelt(werte)|
    ensures Gesammelt(AlsObjekte(Gesammelt(werte))) == Gesammelt(werte) <==> forall w :: w in werte ==> !Blank(w)
    ensures (exists w :: w in werte && Blank(w)) ==> |Gesammelt(AlsObjekte(Gesammelt(werte)))| < |Gesammelt(werte)|
  {
    if werte != [] {
      var w, rest := werte[0], werte[1..];
      KeinBlankGehtVerloren(rest);
      assert werte == [w] + rest;
      if EintragVon(w).Some? {
        ObjektZurueck(w);
        var e := EintragVon(w).value;
        assert Gesammelt(werte) == [e] + Gesammelt(rest);
        assert AlsObjekte(Gesammelt(werte)) == [AlsObjekt(e)] + AlsObjekte(Gesammelt(rest));
        assert AlsObjekte(Gesammelt(werte))[1..] == AlsObjekte(Gesammelt(rest));
      } else {
        assert !Blank(w);
      }
    }
  }

  /** Converting converted entries changes nothing exactly when the list had no blank string. */
  lemma UmwandelnIdempotentGenauDann(werte: seq<Element>)
    ensures Eintraege(Liste(AlsObjekte(Eintraege(Liste(werte))))) == Eintraege(Liste(werte)) <==>
            forall w :: w in werte ==> !Blank(w)
  {
    KeinBlankGehtVerloren(werte);
  }

  // ---------------------------------------------------------------- one row up and down

  /** The columns of a contact that 0224 rewrites, with the old pair of SMS columns. */
  datatype Zeile = Zeile(telefone: Roh, sms: bool, telefon: Option<string>)

  /** `next((i for ... if ziel and _normalisiert(e.nummer) == ziel), 0)` */
  function Treffer(es: seq<Eintrag>, ziel: string, i: nat): (t: nat)
    requires i <= |es|
    ensures t < |es| || t == 0
    ensures ziel != "" && (exists k :: i <= k < |es| && Normalisiert(Some(es[k].nummer)) == ziel) ==>
      i <= t < |es| && Normalisiert(Some(es[t].nummer)) == ziel &&
      forall k :: i <= k < t ==> Normalisiert(Some(es[k].nummer)) != ziel
    ensures ziel == "" || (forall k :: i <= k < |es| ==> Normalisiert(Some(es[k].nummer)) != ziel) ==> t == 0
    decreases |es| - i
  {
    if i == |es| then 0
    else if ziel != "" && Normalisiert(Some(es[i].nummer)) == ziel then i
    else Treffer(es, ziel, i + 1)
  }

  function Umgestellt(z: Zeile): seq<Eintrag> {
    var es := Eintraege(z.telefone);
    if z.sms && es != [] then
      var t := Treffer(es, Normalisiert(z.telefon), 0);
      es[t := es[t].(sms := true)]
    else es
  }

  /** The first released entry; its index, or the length when there is none. */
  function ErsteFreigabe(es: seq<Eintrag>): (i: nat)
    ensures i <= |es| && (i < |es| ==> es[i].sms) && forall k :: 0 <= k < i ==> !es[k].sms
  {
    if es == [] || es[0].sms then 0 else 1 + ErsteFreigabe(es[1..])
  }

  function Zurueckgestellt(telefone: Roh): Zeile {
    var es := Eintraege(telefone);
    var i := ErsteFreigabe(es);
    Zeile(if es == [] then OhneListe else Liste(AlsTexte(es)), i < |es|, if i < |es| then Some(es[i].nummer) else None)
  }

  lemma {:induction false} TexteGelesen(es: seq<Eintrag>)
    ensures |Gesammelt(AlsTexte(es))| == |es|
    ensures forall i :: 0 <= i < |es| ==> Gesammelt(AlsTexte(es))[i] == Legacy(Drucke(es[i]))
  {
    if es != [] {
      TexteGelesen(es[1..]);
      assert AlsTexte(es) == [ElText(Drucke(es[0]))] + AlsTexte(es[1..]);
      assert AlsTexte(es)[1..] == AlsTexte(es[1..]);
      assert Gesammelt(AlsTexte(es)) == [Legacy(Drucke(es[0]))] + Gesammelt(AlsTexte(es[1..]));
    }
  }

  lemma {:induction false} LegacyOhneFreigabe(text: string, labels: seq<string>)
    ensures !MitLabel(text, labels).sms
  {
    if labels != [] { LegacyOhneFreigabe(text, labels[1..]); }
  }

  ghost predicate NurDieseFreigabe(es: seq<Eintrag>, k: nat) {
    k < |es| && forall i :: 0 <= i < |es| ==> (es[i].sms <==> i == k)
  }

  /** Down and up again keeps as many entries, and of any number of releases exactly one, or none if there was none. */
  lemma NurEineFreigabeBleibt(telefone: Roh)
    ensures var es, nachher := Eintraege(telefone), Umgestellt(Zurueckgestellt(telefone));
            |nachher| == |es| &&
            (if ErsteFreigabe(es) == |es| then forall i :: 0 <= i < |es| ==> !nachher[i].sms
             else exists k :: NurDieseFreigabe(nachher, k))
  {
    var es := Eintraege(telefone);
    TexteGelesen(es);
    forall i | 0 <= i < |es|
      ensures !Legacy(Drucke(es[i])).sms
    {
      LegacyOhneFreigabe(Strip(Drucke(es[i])), LABELS);
    }
    if ErsteFreigabe(es) < |es| {
      var gelesen := Eintraege(Zurueckgestellt(telefone).telefone);
      var t := Treffer(gelesen, Normalisiert(Zurueckgestellt(telefone).telefon), 0);
      assert NurDieseFreigabe(gelesen[t := gelesen[t].(sms := true)], t);
      assert Umgestellt(Zurueckgestellt(telefone)) == gelesen[t := gelesen[t].(sms := true)];
    }
  }

  /** The entry that keeps the release: the first with the number of the first released one, or the first of all. */
  ghost predicate Behaelt(es: seq<Eintrag>, k: nat) {
    var j := ErsteFreigabe(es);
    && k < |es| && j < |es|
    && var ziel := Normalisiert(Some(es[j].nummer));
       if ziel == "" then k == 0
       else (&& Normalisiert(Some(es[k].nummer)) == ziel
             && forall i :: 0 <= i < k ==> Normalisiert(Some(es[i].nummer)) != ziel)
  }

  // ---------------------------------------------------------------- the conversions, entry by entry

  /** A text is read as a label of the catalogue and a number when it starts with one, else as a number. */
  lemma LegacyGenau(text: string)
    ensures !Legacy(text).sms
    ensures forall l :: l in LABELS && BeginntMit(Strip(text), l + ": ") ==>
              Legacy(text) == Eintrag(Strip(Strip(text)[|l| + 2..]), Some(l), false)
    ensures (forall l :: l in LABELS ==> !BeginntMit(Strip(text), l + ": ")) ==>
      Legacy(text) == Eintrag(Strip(text), None, false)
  {
    LegacyOhneFreigabe(Strip(text), LABELS);
    MitLabelOhneTreffer(Strip(text), LABELS);
    forall l | l in LABELS && BeginntMit(Strip(text), l + ": ")
      ensures Legacy(text) == Eintrag(Strip(Strip(text)[|l| + 2..]), Some(l), false)
    {
      MitDiesemLabel(Strip(text), LABELS, l);
    }
  }

  lemma KatalogDerLabels()
    ensures LABELS == ["Telefon beruflich", "Telefon privat", "Mobil beruflich", "Mobil privat", "Pager"]
  {
  }

  /** What a JSON value shows: nothing for null, false and empty values, else its text without blanks around it. */
  function Gezeigt(j: Json): string {
    match j
    case JNull => ""
    case JBool(b) => if b then "True" else ""
    case JText(s) => Strip(s)
    case JSonst(wahr, text) => if wahr then Strip(text) else ""
  }

  /** An object is an entry exactly when it shows a number; only the JSON value true releases it. */
  lemma EintragAusObjekt(nummer: Json, bezeichnung: Json, sms: Json)
    ensures EintragVon(ElObjekt(nummer, bezeichnung, sms)) ==
            if Gezeigt(nummer) == "" then None
            else Some(Eintrag(Gezeigt(nummer), if Gezeigt(bezeichnung) == "" then None else Some(Gezeigt(bezeichnung)),
                              sms.JBool? && sms.b))
    ensures EintragVon(ElSonst).None?
    ensures forall s :: EintragVon(ElText(s)) == Some(Legacy(s))
  {
    assert Getrimmt("True") && Getrimmt("");
    assert Strip("True") == "True" && Strip("") == "";
  }

  /**
   * The conversion releases one entry more: the first with the old number, or the first of all; only for contacts with
   * SMS.
   */
  lemma UmgestelltGenau(z: Zeile, k: nat)
    requires k < |Eintraege(z.telefone)|
    ensures var es, n := Eintraege(z.telefone), Umgestellt(z);
            && |n| == |es| && n[k].nummer == es[k].nummer && n[k].bezeichnung == es[k].bezeichnung
            && (n[k].sms <==> es[k].sms || (z.sms && IstAlteNummer(es, z.telefon, k)))
  {
    hide Normalisiert, Eintraege;
  }

  /** `k` is the first entry with the old number, or 0 when there is no such entry or no old number. */
  ghost predicate IstAlteNummer(es: seq<Eintrag>, telefon: Option<string>, k: nat) {
    var ziel := Normalisiert(telefon);
    if ziel != "" && exists i :: 0 <= i < |es| && Normalisiert(Some(es[i].nummer)) == ziel
    then k < |es| && Normalisiert(Some(es[k].nummer)) == ziel && forall i :: 0 <= i < k ==>
      Normalisiert(Some(es[i].nummer)) != ziel
    else k == 0
  }

  /** The downgrade prints every entry, in order, and keeps the first released number. */
  lemma ZurueckgestelltGenau(telefone: Roh)
    ensures var es, z := Eintraege(telefone), Zurueckgestellt(telefone);
            && (es == [] ==> z.telefone.OhneListe?)
            && (es != [] ==> z.telefone.Liste? && |z.telefone.werte| == |es| && forall i :: 0 <= i < |es| ==>
                  z.telefone.werte[i] == ElText(if es[i].bezeichnung.Some? && es[i].bezeichnung.value != ""
                                                then es[i].bezeichnung.value + ": " + es[i].nummer else es[i].nummer))
            && (z.sms <==> exists i :: 0 <= i < |es| && es[i].sms) && (z.sms <==> z.telefon.Some?)
            && (z.sms ==>
                exists i :: 0 <= i < |es| && es[i].sms && z.telefon == Some(es[i].nummer) && forall k :: 0 <= k < i ==>
                  !es[k].sms)
  {
    hide Eintraege;
    var es := Eintraege(telefone);
    var i := ErsteFreigabe(es);
    ErsteFreigabeVorn(es);
  }

  lemma {:induction false} ErsteFreigabeVorn(es: seq<Eintrag>)
    ensures ErsteFreigabe(es) == |es| <==> forall i :: 0 <= i < |es| ==> !es[i].sms
  {
    if es != [] { ErsteFreigabeVorn(es[1..]); }
  }

  /** `telefone_json` after the data step: the converted entries as objects in order, NULL when there are none. */
  lemma KonvertierteListeGenau(z: Zeile)
    ensures KonvertierteListe(z).OhneListe? <==> Eintraege(z.telefone) == []
    ensures Eintraege(z.telefone) != [] ==> |KonvertierteListe(z).werte| == |Eintraege(z.telefone)|
    ensures Eintraege(z.telefone) != [] ==> forall i :: 0 <= i < |Eintraege(z.telefone)| ==>
              var e := Umgestellt(z)[i];
              KonvertierteListe(z).werte[i] ==
                ElObjekt(JText(e.nummer), if e.bezeichnung.Some? then JText(e.bezeichnung.value) else JNull,
                         JBool(e.sms))
  {
    UmgestellteNummern(z);
    ObjekteDerReihe(Umgestellt(z));
  }

  lemma {:induction false} ObjekteDerReihe(es: seq<Eintrag>)
    ensures forall i :: 0 <= i < |es| ==>
              var name := if es[i].bezeichnung.Some? then JText(es[i].bezeichnung.value) else JNull;
              AlsObjekte(es)[i] == ElObjekt(JText(es[i].nummer), name, JBool(es[i].sms))
  {
    if es != [] { ObjekteDerReihe(es[1..]); }
  }

  // ---------------------------------------------------------------- which entry stays released

  /** The number, in comparison form, that the printed text of an entry is read back as. */
  function GeleseneNummer(e: Eintrag): string {
    Normalisiert(Some(Legacy(Drucke(e)).nummer))
  }

  /** A colon and anything in front of it make a different number. */
  lemma VorwahlLaenger(a: string, n: string)
    ensures Vorwahl(a + ":" + n) != Vorwahl(n)
  {
    var x := a + ":" + n;
    assert |Vorwahl(n)| <= |n| && |Vorwahl(x)| >= |x| - 1;
    if a == "" {
      assert x[0] == ':' && "00"[0] == '0';
      assert !BeginntMit(x, "00");
    }
  }

  lemma VorsatzAendertNummer(vorn: string, nummer: string)
    ensures Normalisiert(Some(vorn + ": " + nummer)) != Normalisiert(Some(nummer))
  {
    assert OhneTrenner(": ") == ":" by {
      assert ": "[1..] == " " && " "[1..] == "";
      assert OhneTrenner(" ") == "";
    }
    NormalisiertOhneStrip(vorn + ": " + nummer);
    NormalisiertOhneStrip(nummer);
    hide Normalisiert, OhneTrenner, Vorwahl;
    OhneTrennerVerkettet(vorn + ": ", nummer);
    OhneTrennerVerkettet(vorn, ": ");
    VorwahlLaenger(OhneTrenner(vorn), OhneTrenner(nummer));
  }

  /** The first label that fits a text is cut off. */
  lemma {:induction false} LabelAbgeschnitten(text: string, labels: seq<string>) returns (l: string)
    requires HatLabelPraefix(text, labels)
    ensures l in labels && BeginntMit(text, l + ": ") && MitLabel(text, labels).nummer == Strip(text[|l| + 2..])
  {
    if BeginntMit(text, labels[0] + ": ") {
      l := labels[0];
    } else {
      assert labels == [labels[0]] + labels[1..];
      l := LabelAbgeschnitten(text, labels[1..]);
    }
  }

  lemma LabelsOhneDoppelpunkt(l: string)
    requires l in LABELS
    ensures ':' !in l
  {
  }

  lemma StripAendertNummerNicht(s: string)
    ensures Normalisiert(Some(Strip(s))) == Normalisiert(Some(s))
  {
    NormalisiertOhneStrip(s);
    NormalisiertOhneStrip(Strip(s));
    StripEgal(s);
  }

  /** A number that looks like a labelled one is read back as what follows the label. */
  lemma LabelartigeNummer(e: Eintrag)
    requires Sauber(e) && e.bezeichnung.None? && HatLabelPraefix(e.nummer, LABELS)
    ensures GeleseneNummer(e) != Normalisiert(Some(e.nummer))
  {
    var l := LabelAbgeschnitten(e.nummer, LABELS);
    var rest := e.nummer[|l| + 2..];
    assert e.nummer == l + ": " + rest;
    hide Normalisiert, MitLabel;
    StripAendertNummerNicht(rest);
    VorsatzAendertNummer(l, rest);
  }

  /** Where a catalogue label can fit in front of another label: inside it. */
  lemma LabelImLabel(l: string, m: string, n: string)
    requires BeginntMit(l + ": " + n, m + ": ") && ':' !in m && l != m
    ensures |l| >= |m| + 2 && (l + ": " + n)[|m| + 2..] == l[|m| + 2..] + ": " + n
  {
    var text := l + ": " + n;
    assert text[..|m| + 2] == m + ": ";
    assert text[|l|] == ':' && text[|l| + 1] == ' ' && text[|m|] == ':' && text[|m| + 1] == ' ';
    assert forall i :: 0 <= i < |m| ==> text[i] == m[i] && m[i] != ':';
    assert text[..|m|] == m && text[..|l|] == l;
  }

  lemma GedrucktOhneRand(e: Eintrag)
    requires Sauber(e) && e.bezeichnung.Some?
    ensures Drucke(e) == e.bezeichnung.value + ": " + e.nummer && Strip(Drucke(e)) == Drucke(e)
  {
    var l, n := e.bezeichnung.value, e.nummer;
    var text := Drucke(e);
    assert text == l + ": " + n && text[0] == l[0] && text[|text| - 1] == n[|n| - 1];
    assert Getrimmt(text);
  }

  /** A number under a free label is read back with that label, or with the end of it, in front. */
  lemma FreiesLabel(e: Eintrag)
    requires Sauber(e) && e.bezeichnung.Some? && e.bezeichnung.value !in LABELS
    ensures GeleseneNummer(e) != Normalisiert(Some(e.nummer))
  {
    var l, n := e.bezeichnung.value, e.nummer;
    var text := l + ": " + n;
    GedrucktOhneRand(e);
    hide Normalisiert, Drucke, Strip, MitLabel, Sauber, BeginntMit;
    if HatLabelPraefix(text, LABELS) {
      var m := LabelAbgeschnitten(text, LABELS);
      LabelsOhneDoppelpunkt(m);
      LabelImLabel(l, m, n);
      hide LABELS, HatLabelPraefix;
      var mitte := l[|m| + 2..];
      StripAendertNummerNicht(mitte + ": " + n);
      VorsatzAendertNummer(mitte, n);
    } else {
      MitLabelOhneTreffer(text, LABELS);
      VorsatzAendertNummer(l, n);
    }
  }

  /** Printing and reading back keeps the number, as far as it is compared, exactly for the readable entries. */
  lemma NummerBleibtGenauDann(e: Eintrag)
    requires Sauber(e)
    ensures GeleseneNummer(e) == Normalisiert(Some(e.nummer)) <==> Lesbar(e)
  {
    RundreiseGenauDann(e);
    hide Normalisiert, Legacy, Drucke, BeginntMit;
    if e.bezeichnung.Some? {
      if e.bezeichnung.value !in LABELS { FreiesLabel(e); }
    } else if HatLabelPraefix(e.nummer, LABELS) {
      LabelartigeNummer(e);
    }
  }

  /** There is always one entry that ought to keep the release. */
  lemma EinerBehaelt(es: seq<Eintrag>)
    requires ErsteFreigabe(es) < |es|
    ensures exists k :: Behaelt(es, k)
  {
    var j := ErsteFreigabe(es);
    var ziel := Normalisiert(Some(es[j].nummer));
    hide Normalisiert;
    assert Behaelt(es, Treffer(es, ziel, 0));
  }

  /**
   * Down and up again leaves the release where it belongs exactly when the number is blank in comparison form, or that
   * entry is readable and no earlier printed text is read back as its number, or it is the first entry and no text is.
   */
  lemma FreigabeBleibtGenauDann(telefone: Roh, k: nat)
    requires Behaelt(Eintraege(telefone), k)
    ensures var es := Eintraege(telefone);
            var ziel := Normalisiert(Some(es[ErsteFreigabe(es)].nummer));
            NurDieseFreigabe(Umgestellt(Zurueckgestellt(telefone)), k) <==>
              (|| ziel == ""
               || (Lesbar(es[k]) && forall i :: 0 <= i < k ==> GeleseneNummer(es[i]) != ziel)
               || (k == 0 && forall i :: 0 <= i < |es| ==> GeleseneNummer(es[i]) != ziel))
  {
    var es := Eintraege(telefone);
    var ziel := Normalisiert(Some(es[ErsteFreigabe(es)].nummer));
    var gelesen := Eintraege(Zurueckgestellt(telefone).telefone);
    GelesenNachDruck(telefone);
    if telefone.Liste? { GesammeltSauber(telefone.werte); }
    UmgestelltNachTreffer(telefone);
    assert es[k] in es;
    NummerBleibtGenauDann(es[k]);
    hide Normalisiert, Legacy, Drucke, Lesbar, Sauber, Zurueckgestellt, Umgestellt, Eintraege;
    GetroffenGenauDann(es, gelesen, ziel, k);
  }

  /** The first entry is hit when none is read back as the number, otherwise the first that is. */
  lemma GetroffenGenauDann(es: seq<Eintrag>, gelesen: seq<Eintrag>, ziel: string, k: nat)
    requires k < |es| == |gelesen| && forall i :: 0 <= i < |es| ==>
      gelesen[i] == Legacy(Drucke(es[i])) && !gelesen[i].sms
    requires ziel == "" ==> k == 0
    ensures var t := Treffer(gelesen, ziel, 0);
            NurDieseFreigabe(gelesen[t := gelesen[t].(sms := true)], k) <==>
              (|| ziel == ""
               || (GeleseneNummer(es[k]) == ziel && forall i :: 0 <= i < k ==> GeleseneNummer(es[i]) != ziel)
               || (k == 0 && forall i :: 0 <= i < |es| ==> GeleseneNummer(es[i]) != ziel))
  {
    var t := Treffer(gelesen, ziel, 0);
    assert forall i :: 0 <= i < |es| ==> Normalisiert(Some(gelesen[i].nummer)) == GeleseneNummer(es[i]);
    hide Normalisiert, Legacy, Drucke, GeleseneNummer;
    var neu := gelesen[t := gelesen[t].(sms := true)];
    assert neu[t].sms && forall i :: 0 <= i < |neu| && i != t ==> !neu[i].sms;
    assert NurDieseFreigabe(neu, k) <==> t == k;
  }

  lemma UmgestelltNachTreffer(telefone: Roh)
    requires ErsteFreigabe(Eintraege(telefone)) < |Eintraege(telefone)|
    ensures var es, gelesen := Eintraege(telefone), Eintraege(Zurueckgestellt(telefone).telefone);
            var t := Treffer(gelesen, Normalisiert(Some(es[ErsteFreigabe(es)].nummer)), 0);
            t < |gelesen| && Umgestellt(Zurueckgestellt(telefone)) == gelesen[t := gelesen[t].(sms := true)]
  {
    GelesenNachDruck(telefone);
  }

  /** What the printed entries are read back as: no releases, and entry by entry what each text is parsed to. */
  lemma GelesenNachDruck(telefone: Roh)
    ensures var es, gelesen := Eintraege(telefone), Eintraege(Zurueckgestellt(telefone).telefone);
            |gelesen| == |es| && forall i :: 0 <= i < |es| ==> gelesen[i] == Legacy(Drucke(es[i])) && !gelesen[i].sms
  {
    var es := Eintraege(telefone);
    TexteGelesen(es);
    forall i | 0 <= i < |es|
      ensures !Legacy(Drucke(es[i])).sms
    {
      LegacyOhneFreigabe(Strip(Drucke(es[i])), LABELS);
    }
  }

  /** Down and up again keeps all numbers and labels exactly when every entry is readable. */
  lemma ZeileBleibtGenauDann(telefone: Roh)
    ensures var es, nachher := Eintraege(telefone), Umgestellt(Zurueckgestellt(telefone));
            |nachher| == |es| &&
            ((forall i :: 0 <= i < |es| ==>
              nachher[i].nummer == es[i].nummer && nachher[i].bezeichnung == es[i].bezeichnung) <==>
             (forall i :: 0 <= i < |es| ==> Lesbar(es[i])))
  {
    var es, nachher := Eintraege(telefone), Umgestellt(Zurueckgestellt(telefone));
    GelesenNachDruck(telefone);
    UmgestellteNummern(Zurueckgestellt(telefone));
    hide Umgestellt, Zurueckgestellt, Eintraege;
    forall i | 0 <= i < |es|
      ensures nachher[i].nummer == es[i].nummer && nachher[i].bezeichnung == es[i].bezeichnung <==> Lesbar(es[i])
    {
      RundreiseGenauDann(es[i]);
      hide Lesbar, Legacy, Drucke;
    }
  }

  lemma ZweiEintraege()
    ensures var telefone := Liste([ElObjekt(JText("1"), JNull, JNull), ElObjekt(JText("2"), JText("H"), JBool(true))]);
            Eintraege(telefone) == [Eintrag("1", None, false), Eintrag("2", Some("H"), true)]
  {
    var a, b := ElObjekt(JText("1"), JNull, JNull), ElObjekt(JText("2"), JText("H"), JBool(true));
    assert Getrimmt("1") && Getrimmt("2") && Getrimmt("H") && Strip("") == "";
    assert EintragVon(a) == Some(Eintrag("1", None, false)) && EintragVon(b) == Some(Eintrag("2", Some("H"), true));
    assert [a, b][1..] == [b] && [b][1..] == [];
    assert Gesammelt([b]) == [Eintrag("2", Some("H"), true)];
  }

  lemma NormalisierteZiffer(c: char)
    requires '0' <= c <= '9'
    ensures Normalisiert(Some([c])) == [c]
  {
    assert [c][1..] == "";
    assert !Trenner(c);
    NormalisiertOhneStrip([c]);
  }

  /** A release under a free label moves to somebody else's number. */
  lemma FreigabeWandert()
    ensures var telefone := Liste([ElObjekt(JText("1"), JNull, JNull), ElObjekt(JText("2"), JText("H"), JBool(true))]);
            var nachher := Umgestellt(Zurueckgestellt(telefone));
            Eintraege(telefone) == [Eintrag("1", None, false), Eintrag("2", Some("H"), true)] &&
            |nachher| == 2 && nachher[0].nummer == "1" && nachher[0].sms && !nachher[1].sms
  {
    var werte := [ElObjekt(JText("1"), JNull, JNull), ElObjekt(JText("2"), JText("H"), JBool(true))];
    var telefone := Liste(werte);
    var es := [Eintrag("1", None, false), Eintrag("2", Some("H"), true)];
    ZweiEintraege();
    assert "H" !in LABELS;
    assert Behaelt(es, 1) by {
      NormalisierteZiffer('1');
      NormalisierteZiffer('2');
    }
    assert !Lesbar(es[1]);
    FreigabeBleibtGenauDann(telefone, 1);
    NurEineFreigabeBleibt(telefone);
    RundreiseGenauDann(es[0]);
  }

  /** On readable entries down and up again keeps every number and label, and says which entry stays released. */
  lemma AbUndAufLesbar(telefone: Roh)
    requires forall e :: e in Eintraege(telefone) ==> Lesbar(e)
    ensures var es, nachher := Eintraege(telefone), Umgestellt(Zurueckgestellt(telefone));
            |nachher| == |es| &&
            (if ErsteFreigabe(es) == |es| then forall i :: 0 <= i < |es| ==> nachher[i] == es[i]
             else exists k :: Behaelt(es, k) && forall i :: 0 <= i < |es| ==> nachher[i] == es[i].(sms := i == k))
  {
    var es := Eintraege(telefone);
    TexteGelesen(es);
    forall i | 0 <= i < |es|
      ensures Legacy(Drucke(es[i])) == es[i].(sms := false)
    {
      assert es[i] in es;
      RundreiseGenauDann(es[i]);
    }
    var gelesen := Eintraege(Zurueckgestellt(telefone).telefone);
    var j := ErsteFreigabe(es);
    if j < |es| {
      GelesenFreigegeben(es, gelesen, j);
    }
  }

  lemma GelesenFreigegeben(es: seq<Eintrag>, gelesen: seq<Eintrag>, j: nat)
    requires j == ErsteFreigabe(es) < |es| == |gelesen| && forall i :: 0 <= i < |es| ==>
      gelesen[i] == es[i].(sms := false)
    ensures var t := Treffer(gelesen, Normalisiert(Some(es[j].nummer)), 0);
            Behaelt(es, t) && forall i :: 0 <= i < |es| ==>
              gelesen[t := gelesen[t].(sms := true)][i] == es[i].(sms := i == t)
  {
    hide Normalisiert;
    var ziel := Normalisiert(Some(es[j].nummer));
    assert forall i :: 0 <= i < |es| ==> gelesen[i].nummer == es[i].nummer;
    assert Normalisiert(Some(gelesen[j].nummer)) == ziel;
  }

  // ---------------------------------------------------------------- the loops over the contacts

  /** `json.dumps(eintraege) if eintraege else None` */
  function KonvertierteListe(z: Zeile): Roh {
    var es := Umgestellt(z);
    if es == [] then OhneListe else Liste(AlsObjekte(es))
  }

  /** The rows after the data step of `upgrade`. */
  function Konvertiert(kontakte: map<nat, Zeile>): map<nat, Zeile> {
    map i | i in kontakte :: kontakte[i].(telefone := KonvertierteListe(kontakte[i]))
  }

  // ---------------------------------------------------------------- rows converted twice

  /** What a released or unreleased converted entry looks like. */
  predicate Sauber(e: Eintrag) {
    Getrimmt(e.nummer) &&
      (e.bezeichnung.Some? ==> Getrimmt(e.bezeichnung.value) && e.bezeichnung.value != "" && e.nummer != "")
  }

  lemma {:induction false} GesammeltSauber(werte: seq<Element>)
    ensures forall e :: e in Gesammelt(werte) ==> Sauber(e)
    ensures (exists e :: e in Gesammelt(werte) && e.nummer == "") <==> (exists w :: w in werte && Blank(w))
  {
    if werte != [] {
      GesammeltSauber(werte[1..]);
      assert werte == [werte[0]] + werte[1..];
      if EintragVon(werte[0]).Some? {
        EintragForm(werte[0]);
        assert EintragVon(werte[0]).value in Gesammelt(werte);
      }
    }
  }

  lemma {:induction false} ObjekteZurueck(es: seq<Eintrag>)
    requires forall e :: e in es ==> Sauber(e)
    ensures |Gesammelt(AlsObjekte(es))| <= |es|
    ensures if exists e :: e in es && e.nummer == "" then |Gesammelt(AlsObjekte(es))| < |es|
            else Gesammelt(AlsObjekte(es)) == es
  {
    if es != [] {
      ObjekteZurueck(es[1..]);
      assert es == [es[0]] + es[1..] && es[0] in es;
      assert AlsObjekte(es)[1..] == AlsObjekte(es[1..]);
    }
  }

  lemma {:induction false} TrefferNurNachNummer(es: seq<Eintrag>, fs: seq<Eintrag>, ziel: string, i: nat)
    requires i <= |es| == |fs| && forall k :: 0 <= k < |es| ==> es[k].nummer == fs[k].nummer
    ensures Treffer(es, ziel, i) == Treffer(fs, ziel, i)
    decreases |es| - i
  {
    if i < |es| { TrefferNurNachNummer(es, fs, ziel, i + 1); }
  }

  /** Releasing changes no number: the same entry would be released again. */
  lemma UmgestellteNummern(z: Zeile)
    ensures |Umgestellt(z)| == |Eintraege(z.telefone)|
    ensures forall k :: 0 <= k < |Umgestellt(z)| ==> Umgestellt(z)[k].nummer == Eintraege(z.telefone)[k].nummer
    ensures forall k :: 0 <= k < |Umgestellt(z)| ==>
      Umgestellt(z)[k].bezeichnung == Eintraege(z.telefone)[k].bezeichnung
  {
  }

  /** No element of the list is a blank string. */
  predicate OhneBlank(telefone: Roh) {
    telefone.Liste? ==> forall w :: w in telefone.werte ==> !Blank(w)
  }

  lemma UmgestellteSauber(z: Zeile)
    ensures forall e :: e in Umgestellt(z) ==> Sauber(e)
    ensures (exists e :: e in Umgestellt(z) && e.nummer == "") <==> !OhneBlank(z.telefone)
  {
    var es, fs := Eintraege(z.telefone), Umgestellt(z);
    UmgestellteNummern(z);
    if z.telefone.Liste? { GesammeltSauber(z.telefone.werte); }
    hide Umgestellt, Eintraege, Sauber, Blank;
    if e :| e in es && e.nummer == "" {
      var k :| 0 <= k < |es| && es[k] == e;
      assert fs[k] in fs;
    }
    if e :| e in fs && e.nummer == "" {
      var k :| 0 <= k < |fs| && fs[k] == e;
      assert es[k] in es;
    }
    forall e | e in fs
      ensures Sauber(e)
    {
      var k :| 0 <= k < |fs| && fs[k] == e;
      assert es[k] in es;
      SauberOhneFreigabe(es[k], e);
    }
  }

  lemma SauberOhneFreigabe(e: Eintrag, f: Eintrag)
    requires Sauber(e) && e.nummer == f.nummer && e.bezeichnung == f.bezeichnung
    ensures Sauber(f)
  {
  }

  /** What the conversion writes are objects, so no blank strings. */
  lemma KonvertierteOhneBlank(z: Zeile)
    ensures OhneBlank(KonvertierteListe(z))
  {
    NurObjekte(Umgestellt(z));
  }

  lemma {:induction false} NurObjekte(es: seq<Eintrag>)
    ensures forall w :: w in AlsObjekte(es) ==> w.ElObjekt?
  {
    if es != [] { NurObjekte(es[1..]); }
  }

  /** A row may be converted a second time, the old columns still there, exactly when its list had no blank string. */
  lemma ZweimalKonvertiertGenauDann(z: Zeile)
    ensures KonvertierteListe(z.(telefone := KonvertierteListe(z))) == KonvertierteListe(z) <==> OhneBlank(z.telefone)
  {
    var es := Umgestellt(z);
    var y := z.(telefone := KonvertierteListe(z));
    UmgestellteSauber(z);
    if es == [] {
      assert Eintraege(z.telefone) == [];
    } else {
      ObjekteZurueck(es);
      UmgestellteNummern(y);
      if OhneBlank(z.telefone) {
        assert Eintraege(y.telefone) == es;
        UmgestellteNummern(z);
        TrefferNurNachNummer(es, Eintraege(z.telefone), Normalisiert(z.telefon), 0);
        assert Umgestellt(y) == es;
      } else {
        assert |Umgestellt(y)| < |es|;
      }
    }
  }

  /** An object is switched on when one of its contacts has a released number or notification mail. */
  ghost predicate ObjektAktiv(kontakte: map<nat, Zeile>, objektVon: map<nat, nat>, mail: set<nat>, objekt: nat) {
    exists i :: i in kontakte && i in objektVon && objektVon[i] == objekt &&
      (Zurueckgestellt(kontakte[i].telefone).sms || i in mail)
  }

  /** `objekt_kontakt` with the object and mail flag of each contact, and `objekt.kontakt_info_enabled`. */
  class KontaktZeilen {
    var kontakte: map<nat, Zeile>
    var info: map<nat, bool>
    const objektVon: map<nat, nat>
    const mail: set<nat>

    constructor (kontakte: map<nat, Zeile>, info: map<nat, bool>, objektVon: map<nat, nat>, mail: set<nat>)
      ensures this.kontakte == kontakte && this.info == info && this.objektVon == objektVon && this.mail == mail
    {
      this.kontakte, this.info, this.objektVon, this.mail := kontakte, info, objektVon, mail;
    }

    /** The data step of `upgrade`. */
    method Konvertiere()
      modifies this`kontakte
      ensures kontakte == Konvertiert(old(kontakte))
    {
      ghost var alt := kontakte;
      var rest := kontakte.Keys;
      while rest != {}
        invariant rest <= alt.Keys && kontakte.Keys == alt.Keys
        invariant forall i :: i in alt ==> kontakte[i] == if i in rest then alt[i] else Konvertiert(alt)[i]
        decreases rest
      {
        var i :| i in rest;
        var z := kontakte[i];
        var eintraege := Eintraege(z.telefone);
        if z.sms && eintraege != [] {
          var treffer := Treffer(eintraege, Normalisiert(z.telefon), 0);
          eintraege := eintraege[treffer := eintraege[treffer].(sms := true)];
        }
        kontakte := kontakte[i := z.(telefone := if eintraege == [] then OhneListe else Liste(AlsObjekte(eintraege)))];
        rest := rest - {i};
      }
    }

    /** The data step of `downgrade`. */
    method StelleZurueck()
      modifies this
      ensures kontakte == map i | i in old(kontakte) :: Zurueckgestellt(old(kontakte)[i].telefone)
      ensures info.Keys == old(info).Keys
      ensures forall o :: o in info ==> (info[o] <==> old(info)[o] || ObjektAktiv(old(kontakte), objektVon, mail, o))
    {
      var aktiveObjekte := StelleZeilenZurueck();
      hide *;
      info := map o | o in info :: if o in aktiveObjekte then true else info[o];
    }

    /** Its loop over the contacts; returns `aktive_objekte`. */
    method StelleZeilenZurueck() returns (aktiveObjekte: set<nat>)
      modifies this`kontakte
      ensures kontakte == map i | i in old(kontakte) :: Zurueckgestellt(old(kontakte)[i].telefone)
      ensures forall o :: o in aktiveObjekte <==> ObjektAktiv(old(kontakte), objektVon, mail, o)
    {
      ghost var alt := kontakte;
      aktiveObjekte := {};
      var rest := kontakte.Keys;
      assert alt - rest == map[];
      assert forall o :: !ObjektAktiv(map[], objektVon, mail, o);
      hide ObjektAktiv, Zurueckgestellt;
      while rest != {}
        invariant rest <= alt.Keys && kontakte.Keys == alt.Keys
        invariant forall i :: i in alt ==> kontakte[i] == if i in rest then alt[i] else Zurueckgestellt(alt[i].telefone)
        invariant forall o :: o in aktiveObjekte <==> ObjektAktiv(alt - rest, objektVon, mail, o)
        decreases rest
      {
        var i :| i in rest;
        var neu := Zurueckgestellt(kontakte[i].telefone);
        ZeileDazu(alt, rest, objektVon, mail, i);
        if (neu.sms || i in mail) && i in objektVon { aktiveObjekte := aktiveObjekte + {objektVon[i]}; }
        kontakte := kontakte[i := neu];
        rest := rest - {i};
      }
      assert alt - rest == alt;
    }
  }

  lemma ZeileDazu(alt: map<nat, Zeile>, rest: set<nat>, objektVon: map<nat, nat>, mail: set<nat>, i: nat)
    requires i in rest && rest <= alt.Keys
    ensures forall o :: ObjektAktiv(alt - (rest - {i}), objektVon, mail, o) <==>
      (ObjektAktiv(alt - rest, objektVon, mail, o) ||
       (i in objektVon && objektVon[i] == o && (Zurueckgestellt(alt[i].telefone).sms || i in mail)))
  {
    hide Zurueckgestellt;
    var t, u := alt - rest, alt - (rest - {i});
    forall o
      ensures ObjektAktiv(u, objektVon, mail, o) <==> (ObjektAktiv(t, objektVon, mail, o) ||
        (i in objektVon && objektVon[i] == o && (Zurueckgestellt(alt[i].telefone).sms || i in mail)))
    {
      if ObjektAktiv(t, objektVon, mail, o) {
        var k :| k in t && k in objektVon && objektVon[k] == o && (Zurueckgestellt(t[k].telefone).sms || k in mail);
        assert k in u && u[k] == t[k];
      }
      if ObjektAktiv(u, objektVon, mail, o) {
        var k :| k in u && k in objektVon && objektVon[k] == o && (Zurueckgestellt(u[k].telefone).sms || k in mail);
        assert k == i || (k in t && t[k] == u[k]);
      }
      assert i in u && u[i] == alt[i];
    }
  }
}
