/**
 * The template chain: alembic/versions/0024_template_matrix.py, 0025_deduplicate_suggestions.py and
 * 0046_multitenancy_pr2_migrate.py, for any one of the three template tables.
 */
module Vorlagen {
  import opened Grundlagen

  /** A template of revision 0023: one text for one alarm code. */
  datatype AlteVorlage = AlteVorlage(text: string, code: string, reihenfolge: int)

  /** A junction row; `typ` is `alarm_type_id`, filled by 0046. */
  datatype Verknuepfung = Verknuepfung(vorlage: nat, code: string, reihenfolge: int, typ: Option<nat>)

  type Texte = map<nat, string>
  type Junction = map<nat, Verknuepfung>

  // ---------------------------------------------------------------- meaning

  /** The (text, code) pairs of the old table. */
  ghost function AlteBedeutung(alt: map<nat, AlteVorlage>): set<(string, string)> {
    set i | i in alt :: (alt[i].text, alt[i].code)
  }

  ghost predicate Meint(t: Texte, v: Junction, j: nat, p: (string, string)) {
    j in v && v[j].vorlage in t && p == (t[v[j].vorlage], v[j].code)
  }

  /** `p` is a (text, code) pair of the split tables. */
  ghost predicate Bedeutet(t: Texte, v: Junction, p: (string, string)) {
    exists j :: Meint(t, v, j, p)
  }

  ghost predicate GleicheBedeutung(t: Texte, v: Junction, t': Texte, v': Junction) {
    forall p :: Bedeutet(t, v, p) <==> Bedeutet(t', v', p)
  }

  ghost predicate NichtsHaengt(t: Texte, v: Junction) {
    forall j :: j in v ==> v[j].vorlage in t
  }

  /** No template has one code twice. */
  ghost predicate CodesEindeutig(v: Junction) {
    forall i, j :: i in v && j in v && i != j && v[i].vorlage == v[j].vorlage ==> v[i].code != v[j].code
  }

  // ---------------------------------------------------------------- 0025: one duplicate into the kept template

  ghost function Codes(v: Junction, vorlage: nat): set<string> {
    set j | j in v && v[j].vorlage == vorlage :: v[j].code
  }

  /** The junction once template `d` is merged into `k`: rows with a code that `k` lacks move, the others go. */
  ghost function Verschmolzen(v: Junction, k: nat, d: nat): Junction {
    map j | j in v &&
      (v[j].vorlage != d || v[j].code !in Codes(v, k)) :: if v[j].vorlage == d then v[j].(vorlage := k) else v[j]
  }

  /** Merging two templates of one text keeps the meaning, the codes apart, and no row dangling. */
  lemma VerschmelzenErhaelt(t: Texte, v: Junction, k: nat, d: nat)
    requires k in t && d in t && k != d && t[k] == t[d] && NichtsHaengt(t, v)
    ensures GleicheBedeutung(t, v, t - {d}, Verschmolzen(v, k, d))
    ensures NichtsHaengt(t - {d}, Verschmolzen(v, k, d))
    ensures CodesEindeutig(v) ==> CodesEindeutig(Verschmolzen(v, k, d))
  {
    var t', v' := t - {d}, Verschmolzen(v, k, d);
    forall p
      ensures Bedeutet(t, v, p) <==> Bedeutet(t', v', p)
    {
      if j :| Meint(t, v, j, p) {
        if j !in v' {
          var i :| i in v && v[i].vorlage == k && v[i].code == v[j].code;
          assert Meint(t', v', i, p);
        } else {
          assert Meint(t', v', j, p);
        }
      }
      if j :| Meint(t', v', j, p) { assert Meint(t, v, j, p); }
    }
    forall i, j | CodesEindeutig(v) && i in v' && j in v' && i != j && v'[i].vorlage == v'[j].vorlage
      ensures v'[i].code != v'[j].code
    {
      assert v[i].vorlage == k ==> v[i].code in Codes(v, k);
      assert v[j].vorlage == k ==> v[j].code in Codes(v, k);
    }
  }

  /** `w` is `v` with the rows of `d` whose code is in `codes` moved to `k`. */
  ghost predicate Verschoben(v: Junction, w: Junction, k: nat, d: nat, codes: set<string>) {
    && w.Keys == v.Keys
    && forall j :: j in v ==> w[j] == if v[j].vorlage == d && v[j].code in codes then v[j].(vorlage := k) else v[j]
  }

  lemma EinCodeMehr(v: Junction, w: Junction, k: nat, d: nat, codes: set<string>, code: string)
    requires Verschoben(v, w, k, d, codes) && k != d
    ensures Verschoben(v, map i | i in w :: if w[i].vorlage == d &&
                       w[i].code == code then w[i].(vorlage := k) else w[i], k, d, codes + {code})
  {
  }

  lemma AlleCodesVerschoben(v: Junction, w: Junction, k: nat, d: nat, codes0: set<string>, kept: set<string>)
    requires codes0 == Codes(v, k) && k != d && kept == codes0 + Codes(v, d) && Verschoben(v, w, k, d, kept - codes0)
    ensures (map j | j in w && w[j].vorlage != d :: w[j]) == Verschmolzen(v, k, d)
  {
    forall j | j in v && v[j].vorlage == d
      ensures v[j].code in kept
    {
      assert v[j].code in Codes(v, d);
    }
  }

  lemma GleicheBedeutungTransitiv(t: Texte, v: Junction, t': Texte, v': Junction, t'': Texte, v'': Junction)
    requires GleicheBedeutung(t, v, t', v') && GleicheBedeutung(t', v', t'', v'')
    ensures GleicheBedeutung(t, v, t'', v'')
  {
  }

  // ---------------------------------------------------------------- 0025: the whole table

  ghost function MitText(t: Texte, text: string): set<nat> {
    set i | i in t && t[i] == text
  }

  /** The id that is kept for the text of template `i`: the smallest one. */
  ghost function Vertreter(t: Texte, i: nat): (k: nat)
    requires i in t
    ensures k in t && t[k] == t[i] && k <= i
  {
    assert i in MitText(t, t[i]);
    Minimum(MitText(t, t[i]))
  }

  /** Where the run stands: only templates with a smaller twin are gone, and their rows point to the kept one. */
  ghost predicate Zwischenstand(t: Texte, v: Junction, t': Texte, v': Junction) {
    && (forall i :: i in t' ==> i in t && t'[i] == t[i])
    && (forall i :: i in t && i !in t' ==> Vertreter(t, i) != i)
    && (forall j :: j in v' ==> j in v && v[j].vorlage in t)
    && (forall j :: j in v && v[j].vorlage in t' ==> j in v')
    && (forall j :: j in v' ==>
        v'[j] == v[j].(vorlage := if v[j].vorlage in t' then v[j].vorlage else Vertreter(t, v[j].vorlage)))
    && NichtsHaengt(t', v') && GleicheBedeutung(t, v, t', v') && (CodesEindeutig(v) ==> CodesEindeutig(v'))
  }

  lemma VertreterBleibt(t: Texte, v: Junction, t': Texte, v': Junction, i: nat)
    requires Zwischenstand(t, v, t', v') && i in t
    ensures Vertreter(t, i) in t'
  {
    var k := Vertreter(t, i);
    assert MitText(t, t[k]) == MitText(t, t[i]);
  }

  lemma SchrittImZwischenstand(t: Texte, v: Junction, t': Texte, v': Junction, d: nat)
    requires Zwischenstand(t, v, t', v') && d in t' && Vertreter(t, d) != d
    ensures Zwischenstand(t, v, t' - {d}, Verschmolzen(v', Vertreter(t, d), d))
  {
    var k := Vertreter(t, d);
    VertreterBleibt(t, v, t', v', d);
    VerschmelzenErhaelt(t', v', k, d);
    GleicheBedeutungTransitiv(t, v, t', v', t' - {d}, Verschmolzen(v', k, d));
    hide GleicheBedeutung, CodesEindeutig, Codes;
    var v'' := Verschmolzen(v', k, d);
    forall j | j in v''
      ensures v''[j] == v[j].(vorlage := if v[j].vorlage in t' - {d} then v[j].vorlage else Vertreter(t, v[j].vorlage))
    {
      if v[j].vorlage !in t' {
        var r := Vertreter(t, v[j].vorlage);
        VertreterBleibt(t, v, t', v', v[j].vorlage);
        assert MitText(t, t[r]) == MitText(t, t[v[j].vorlage]);
        assert r != d;
      }
    }
  }

  class VorlagenTabelle {
    var alt: map<nat, AlteVorlage>      // the rows while `alarm_type_code` is still a column
    var codeSpalte: bool                // whether it is
    var texte: Texte
    var junction: Junction

    /** 0024: one junction row per template, then the column goes. */
    method Aufteilen()
      requires codeSpalte ==> texte == map i | i in alt :: alt[i].text
      modifies this
      ensures texte == old(texte) && !codeSpalte
      ensures !old(codeSpalte) ==> junction == old(junction)
      ensures old(codeSpalte) ==> NichtsHaengt(texte, junction) && CodesEindeutig(junction)
      ensures old(codeSpalte) ==> forall j :: j in junction ==>
        junction[j].vorlage in old(alt) && junction[j].reihenfolge == old(alt)[junction[j].vorlage].reihenfolge &&
          junction[j].typ.None?
      ensures old(codeSpalte) ==> forall p :: p in AlteBedeutung(old(alt)) <==> Bedeutet(texte, junction, p)
    {
      if !codeSpalte { return; }
      junction := map[];
      var rest := alt.Keys;
      var naechste := 0;
      while rest != {}
        invariant rest <= alt.Keys && texte == old(texte) && alt == old(alt)
        invariant forall j :: j in junction ==>
          j < naechste && junction[j].vorlage in alt && junction[j].vorlage !in rest
                                                && junction[j].code == alt[junction[j].vorlage].code
                                                && junction[j].reihenfolge == alt[junction[j].vorlage].reihenfolge &&
                                                  junction[j].typ.None?
        invariant forall i, j :: i in junction && j in junction && i != j ==> junction[i].vorlage != junction[j].vorlage
        invariant forall i :: i in alt && i !in rest ==> exists j :: j in junction && junction[j].vorlage == i
        decreases rest
      {
        var i :| i in rest;
        ghost var vorher := junction;
        junction := junction[naechste := Verknuepfung(i, alt[i].code, alt[i].reihenfolge, None)];
        forall k | k in alt && k !in rest - {i}
          ensures exists j :: j in junction && junction[j].vorlage == k
        {
          if k == i {
            assert naechste in junction;
          } else {
            var j :| j in vorher && vorher[j].vorlage == k;
            assert j in junction && junction[j] == vorher[j];
          }
        }
        naechste := naechste + 1;
        rest := rest - {i};
      }
      codeSpalte := false;
      AufgeteiltMeintDasselbe(alt, texte, junction);
    }

    /** The statements for one duplicate. */
    method Verschmelze(k: nat, d: nat)
      requires k != d
      modifies this`texte, this`junction
      ensures texte == old(texte) - {d} && junction == Verschmolzen(old(junction), k, d)
    {
      ghost var v := junction;
      var keptCodes := set j | j in junction && junction[j].vorlage == k :: junction[j].code;
      var zeilen := set j | j in junction && junction[j].vorlage == d :: junction[j].code;
      var codes := VerschiebeCodes(k, d, keptCodes, zeilen);
      AlleCodesVerschoben(v, junction, k, d, keptCodes, codes);
      junction := map j | j in junction && junction[j].vorlage != d :: junction[j];
      texte := texte - {d};
    }

    /** `if code not in kept_codes: UPDATE ...; kept_codes.add(code)` over the codes of the duplicate. */
    method VerschiebeCodes(k: nat, d: nat, codes0: set<string>, zeilen: set<string>) returns (keptCodes: set<string>)
      requires k != d
      modifies this`junction
      ensures keptCodes == codes0 + zeilen && Verschoben(old(junction), junction, k, d, keptCodes - codes0)
    {
      ghost var v := junction;
      keptCodes := codes0;
      var rest := zeilen;
      assert keptCodes - codes0 == {};
      while rest != {}
        invariant rest <= zeilen && keptCodes == codes0 + (zeilen - rest)
        invariant Verschoben(v, junction, k, d, keptCodes - codes0)
        decreases rest
      {
        hide Verschoben;
        var code :| code in rest;
        if code !in keptCodes {
          EinCodeMehr(v, junction, k, d, keptCodes - codes0, code);
          junction := map i | i in junction :: if junction[i].vorlage == d &&
            junction[i].code == code then junction[i].(vorlage := k) else junction[i];
          assert keptCodes + {code} - codes0 == (keptCodes - codes0) + {code};
          keptCodes := keptCodes + {code};
        }
        rest := rest - {code};
      }
    }

    /** 0025, `_deduplicate`. */
    method Deduplizieren()
      requires NichtsHaengt(texte, junction)
      modifies this`texte, this`junction
      ensures texte == map i | i in old(texte) && Vertreter(old(texte), i) == i :: old(texte)[i]
      ensures Zwischenstand(old(texte), old(junction), texte, junction)
    {
      ghost var t, v := texte, junction;
      NochNichtsVerschmolzen(t, v);
      var dupes := set i | i in texte && |set j | j in texte && texte[j] == texte[i]| > 1 :: texte[i];
      var rest := dupes;
      forall i | i in t && Vertreter(t, i) != i
        ensures t[i] in dupes
      {
        assert (set j | j in texte && texte[j] == texte[i]) == MitText(t, t[i]);
      }
      hide Zwischenstand, Vertreter;
      while rest != {}
        invariant rest <= dupes && Zwischenstand(t, v, texte, junction)
        invariant forall i :: i in t && Vertreter(t, i) != i ==> t[i] in dupes
        invariant forall i :: i in t && Vertreter(t, i) != i && t[i] !in rest ==> i !in texte
        decreases rest
      {
        var text :| text in rest;
        VerschmelzeText(t, v, text);
        rest := rest - {text};
      }
      NurVertreterBleiben(t, v, texte, junction);
    }

    /** One duplicated text: all ids but the smallest are merged into it. */
    method VerschmelzeText(ghost t: Texte, ghost v: Junction, text: string)
      requires Zwischenstand(t, v, texte, junction) && exists i :: i in t && t[i] == text
      modifies this`texte, this`junction
      ensures Zwischenstand(t, v, texte, junction)
      ensures forall i :: i in t && Vertreter(t, i) != i && t[i] == text ==> i !in texte
      ensures forall i :: i in t && i !in old(texte) ==> i !in texte
    {
      ghost var i0 :| i0 in t && t[i0] == text;
      VertreterBleibt(t, v, texte, junction, i0);
      var ids := set i | i in texte && texte[i] == text;
      assert Vertreter(t, i0) in ids;
      var keepId := KleinsteId(ids);
      assert keepId == Vertreter(t, i0) by { AlleGleicherText(t, i0, keepId); }
      var rest := ids - {keepId};
      while rest != {}
        invariant rest <= ids && keepId !in rest && Zwischenstand(t, v, texte, junction)
        invariant keepId in texte && forall i :: i in texte && t[i] == text ==> i == keepId || i in rest
        invariant rest <= texte.Keys && forall i :: i in t && i !in old(texte) ==> i !in texte
        decreases rest
      {
        var dupeId := KleinsteId(rest);
        AlleGleicherText(t, i0, dupeId);
        AlleGleicherText(t, i0, keepId);
        SchrittImZwischenstand(t, v, texte, junction, dupeId);
        Verschmelze(keepId, dupeId);
        rest := rest - {dupeId};
      }
      forall i | i in t && Vertreter(t, i) != i && t[i] == text
        ensures i !in texte
      {
        AlleGleicherText(t, i0, i);
        AlleGleicherText(t, i0, keepId);
      }
    }

    /** 0046: fills `alarm_type_id` by the code. */
    method Umschluesseln(typen: map<nat, string>)
      modifies this`junction
      ensures junction.Keys == old(junction).Keys
      ensures forall j :: j in junction ==> NachCode(typen, old(junction)[j], junction[j])
    {
      ghost var v := junction;
      var rest := junction.Keys;
      while rest != {}
        invariant rest <= v.Keys && junction.Keys == v.Keys
        invariant forall j :: j in v ==> if j in rest then junction[j] == v[j] else NachCode(typen, v[j], junction[j])
        decreases rest
      {
        var j :| j in rest;
        if exists a :: a in typen && typen[a] == junction[j].code {
          var a :| a in typen && typen[a] == junction[j].code;
          junction := junction[j := junction[j].(typ := Some(a))];
        }
        rest := rest - {j};
      }
    }

    /** The three migrations in a row, from the old table to rows with surrogate ids only. */
    method Kette(typen: map<nat, string>)
      requires codeSpalte && texte == map i | i in alt :: alt[i].text
      requires forall i :: i in alt ==> alt[i].code in typen.Values
      modifies this
      ensures forall i, j :: i in texte && j in texte && texte[i] == texte[j] ==> i == j
      ensures forall k :: k in texte ==> k in old(alt) && texte[k] == old(alt)[k].text
      ensures forall i :: i in old(alt) ==> exists k :: k in texte && texte[k] == old(alt)[i].text && k <= i
      ensures NichtsHaengt(texte, junction) && CodesEindeutig(junction)
      ensures forall j :: j in junction ==> junction[j].typ.Some? && junction[j].typ.value in typen
      ensures forall p :: p in AlteBedeutung(old(alt)) <==> exists j :: MeintNachTyp(texte, junction, typen, j, p)
      ensures KeineVerloren(old(alt), texte, junction, typen) && KeineErfunden(old(alt), texte, junction, typen)
    {
      ghost var a0 := alt;
      Aufteilen();
      ghost var t, v := texte, junction;
      Deduplizieren();
      ghost var w := junction;
      Umschluesseln(typen);
      KetteErhaelt(a0, t, v, texte, w, junction, typen);
      BedeutungGenau(a0, texte, junction, typen);
    }
  }

  /** Junction row `j` gives the text of old template `i` its alarm type, through the surrogate id. */
  predicate Traegt(alt: map<nat, AlteVorlage>, t: Texte, v: Junction, typen: map<nat, string>, i: nat, j: nat) {
    && i in alt && j in v && v[j].vorlage in t && t[v[j].vorlage] == alt[i].text
    && v[j].typ.Some? && v[j].typ.value in typen && typen[v[j].typ.value] == alt[i].code
  }

  /** Every old template has its row. */
  ghost predicate KeineVerloren(alt: map<nat, AlteVorlage>, t: Texte, v: Junction, typen: map<nat, string>) {
    forall i :: i in alt ==> exists j :: Traegt(alt, t, v, typen, i, j)
  }

  /** Every row comes from an old template. */
  ghost predicate KeineErfunden(alt: map<nat, AlteVorlage>, t: Texte, v: Junction, typen: map<nat, string>) {
    forall j :: j in v ==> exists i :: Traegt(alt, t, v, typen, i, j)
  }

  lemma BedeutungGenau(alt: map<nat, AlteVorlage>, t: Texte, v: Junction, typen: map<nat, string>)
    requires forall p :: p in AlteBedeutung(alt) <==> exists j :: MeintNachTyp(t, v, typen, j, p)
    requires NichtsHaengt(t, v) && forall j :: j in v ==> v[j].typ.Some? && v[j].typ.value in typen
    ensures KeineVerloren(alt, t, v, typen) && KeineErfunden(alt, t, v, typen)
  {
    forall i | i in alt
      ensures exists j :: Traegt(alt, t, v, typen, i, j)
    {
      var p := (alt[i].text, alt[i].code);
      assert p in AlteBedeutung(alt);
      var j :| MeintNachTyp(t, v, typen, j, p);
      assert Traegt(alt, t, v, typen, i, j);
    }
    forall j | j in v
      ensures exists i :: Traegt(alt, t, v, typen, i, j)
    {
      var p := (t[v[j].vorlage], typen[v[j].typ.value]);
      assert MeintNachTyp(t, v, typen, j, p);
      assert p in AlteBedeutung(alt);
      var i :| i in alt && p == (alt[i].text, alt[i].code);
      assert Traegt(alt, t, v, typen, i, j);
    }
    hide Traegt;
  }

  /** The UPDATE ... JOIN for one row; a code without a type leaves the row alone. */
  ghost predicate NachCode(typen: map<nat, string>, r: Verknuepfung, s: Verknuepfung) {
    && s == r.(typ := s.typ)
    && (if exists a :: a in typen && typen[a] == r.code then s.typ.Some? && s.typ.value in typen &&
        typen[s.typ.value] == r.code else s == r)
  }

  /** A row read through its surrogate id alone. */
  ghost predicate MeintNachTyp(t: Texte, v: Junction, typen: map<nat, string>, j: nat, p: (string, string)) {
    && j in v && v[j].vorlage in t && v[j].typ.Some? && v[j].typ.value in typen
    && p == (t[v[j].vorlage], typen[v[j].typ.value])
  }

  lemma NochNichtsVerschmolzen(t: Texte, v: Junction)
    requires NichtsHaengt(t, v)
    ensures Zwischenstand(t, v, t, v)
    ensures forall i :: i in t && Vertreter(t, i) != i ==> |MitText(t, t[i])| > 1
  {
    forall i | i in t && Vertreter(t, i) != i
      ensures |MitText(t, t[i])| > 1
    {
      assert {i, Vertreter(t, i)} <= MitText(t, t[i]);
      MindestensZwei(MitText(t, t[i]), i, Vertreter(t, i));
    }
  }

  lemma MindestensZwei(s: set<nat>, x: nat, y: nat)
    requires x in s && y in s && x != y
    ensures |s| > 1
  {
    assert |s - {x}| == |s| - 1;
    assert y in s - {x};
  }

  lemma AlleGleicherText(t: Texte, i: nat, k: nat)
    requires i in t && k in t && t[i] == t[k]
    ensures Vertreter(t, i) == Vertreter(t, k) && Vertreter(t, i) <= k
  {
    assert MitText(t, t[i]) == MitText(t, t[k]);
  }

  lemma NurVertreterBleiben(t: Texte, v: Junction, t': Texte, v': Junction)
    requires Zwischenstand(t, v, t', v') && forall i :: i in t && Vertreter(t, i) != i ==> i !in t'
    ensures t' == map i | i in t && Vertreter(t, i) == i :: t[i]
  {
  }

  lemma KetteErhaelt(alt: map<nat, AlteVorlage>, t: Texte, v: Junction, t': Texte, w: Junction, v': Junction,
                     typen: map<nat, string>)
    requires t == map i | i in alt :: alt[i].text
    requires forall i :: i in alt ==> alt[i].code in typen.Values
    requires CodesEindeutig(v) && forall p :: p in AlteBedeutung(alt) <==> Bedeutet(t, v, p)
    requires t' == map i | i in t && Vertreter(t, i) == i :: t[i]
    requires Zwischenstand(t, v, t', w) && v'.Keys == w.Keys && forall j :: j in w ==> NachCode(typen, w[j], v'[j])
    ensures forall i, j :: i in t' && j in t' && t'[i] == t'[j] ==> i == j
    ensures forall k :: k in t' ==> k in alt && t'[k] == alt[k].text
    ensures forall i :: i in alt ==> exists k :: k in t' && t'[k] == alt[i].text && k <= i
    ensures NichtsHaengt(t', v') && CodesEindeutig(v')
    ensures forall j :: j in v' ==> v'[j].typ.Some? && v'[j].typ.value in typen
    ensures forall p :: p in AlteBedeutung(alt) <==> exists j :: MeintNachTyp(t', v', typen, j, p)
  {
    TexteEindeutig(alt, t, t');
    JederCodeHatTyp(alt, t, v, t', w, typen, v');
    hide AlteBedeutung, Vertreter, Bedeutet, CodesEindeutig, MeintNachTyp, NachCode;
    BedeutungNachTyp(t', w, v', typen);
  }

  lemma JederCodeHatTyp(alt: map<nat, AlteVorlage>, t: Texte, v: Junction, t': Texte, w: Junction,
                        typen: map<nat, string>, v': Junction)
    requires t == map i | i in alt :: alt[i].text
    requires forall i :: i in alt ==> alt[i].code in typen.Values
    requires forall p :: p in AlteBedeutung(alt) <==> Bedeutet(t, v, p)
    requires Zwischenstand(t, v, t', w) && v'.Keys == w.Keys && forall j :: j in w ==> NachCode(typen, w[j], v'[j])
    ensures forall j :: j in v' ==> v'[j].typ.Some? && v'[j].typ.value in typen && typen[v'[j].typ.value] == w[j].code
  {
    hide AlteBedeutung, Vertreter, Bedeutet, CodesEindeutig;
    forall j | j in v'
      ensures v'[j].typ.Some? && v'[j].typ.value in typen && typen[v'[j].typ.value] == w[j].code
    {
      CodeHatTyp(alt, t, v, t', w, typen, j);
    }
  }

  lemma BedeutungNachTyp(t: Texte, w: Junction, v: Junction, typen: map<nat, string>)
    requires v.Keys == w.Keys && NichtsHaengt(t, w)
    requires forall j :: j in w ==>
      NachCode(typen, w[j], v[j]) && v[j].typ.Some? && v[j].typ.value in typen && typen[v[j].typ.value] == w[j].code
    ensures forall p :: Bedeutet(t, w, p) <==> exists j :: MeintNachTyp(t, v, typen, j, p)
    ensures NichtsHaengt(t, v) && (CodesEindeutig(w) ==> CodesEindeutig(v))
  {
    forall j | j in w
      ensures v[j].vorlage == w[j].vorlage && v[j].code == w[j].code
    {
    }
    hide NachCode;
    forall p
      ensures Bedeutet(t, w, p) <==> exists j :: MeintNachTyp(t, v, typen, j, p)
    {
      if j :| Meint(t, w, j, p) { assert MeintNachTyp(t, v, typen, j, p); }
      if j :| MeintNachTyp(t, v, typen, j, p) { assert Meint(t, w, j, p); }
    }
  }

  lemma TexteEindeutig(alt: map<nat, AlteVorlage>, t: Texte, t': Texte)
    requires t == map i | i in alt :: alt[i].text
    requires t' == map i | i in t && Vertreter(t, i) == i :: t[i]
    ensures forall i, j :: i in t' && j in t' && t'[i] == t'[j] ==> i == j
    ensures forall k :: k in t' ==> k in alt && t'[k] == alt[k].text
    ensures forall i :: i in alt ==> exists k :: k in t' && t'[k] == alt[i].text && k <= i
  {
    forall i, j | i in t' && j in t' && t'[i] == t'[j]
      ensures i == j
    {
      AlleGleicherText(t, i, j);
    }
    forall i | i in alt
      ensures exists k :: k in t' && t'[k] == alt[i].text && k <= i
    {
      var k := Vertreter(t, i);
      AlleGleicherText(t, i, k);
      assert k in t' && t'[k] == alt[i].text;
    }
  }

  /** Every code in the junction came from the old table, where it referenced an alarm type. */
  lemma CodeHatTyp(alt: map<nat, AlteVorlage>, t: Texte, v: Junction, t': Texte, w: Junction, typen: map<nat, string>,
                   j: nat)
    requires t == map i | i in alt :: alt[i].text
    requires forall i :: i in alt ==> alt[i].code in typen.Values
    requires forall p :: p in AlteBedeutung(alt) <==> Bedeutet(t, v, p)
    requires Zwischenstand(t, v, t', w) && j in w
    ensures exists a :: a in typen && typen[a] == w[j].code
  {
    var p := (t'[w[j].vorlage], w[j].code);
    assert Meint(t', w, j, p) && Bedeutet(t', w, p);
    assert p in AlteBedeutung(alt);
    var i :| i in alt && p == (alt[i].text, alt[i].code);
    assert w[j].code in typen.Values;
  }

  lemma AufgeteiltMeintDasselbe(alt: map<nat, AlteVorlage>, t: Texte, v: Junction)
    requires t == map i | i in alt :: alt[i].text
    requires forall j :: j in v ==> v[j].vorlage in alt && v[j].code == alt[v[j].vorlage].code
    requires forall i :: i in alt ==> exists j :: j in v && v[j].vorlage == i
    ensures forall p :: p in AlteBedeutung(alt) <==> Bedeutet(t, v, p)
  {
    forall p
      ensures p in AlteBedeutung(alt) <==> Bedeutet(t, v, p)
    {
      if p in AlteBedeutung(alt) {
        var i :| i in alt && p == (alt[i].text, alt[i].code);
        var j :| j in v && v[j].vorlage == i;
        assert Meint(t, v, j, p);
      }
    }
  }
}
