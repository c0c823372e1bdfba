/** Shared vocabulary: optional column values, result sets in id order and `defaultdict(list)` groupings. */
module Grundlagen {

  /** A nullable column. */
  datatype Option<+T> = None | Some(value: T)

  /** Python's truth value of a nullable text column: NULL and '' are both false. */
  predicate Gefuellt(text: Option<string>) {
    text.Some? && text.value != ""
  }

  /** A nullable text column inside an f-string. */
  function Anzeige(text: Option<string>): string {
    if text.Some? then text.value else "None"
  }

  /** The elements of `xs` whose key is `k`, in the order of `xs`; elements with key None belong to no group. */
  function Gruppe<T(!new), K(==)>(xs: seq<T>, schluessel: T -> Option<K>, k: K): (g: seq<T>)
    ensures forall x :: x in g <==> x in xs && schluessel(x) == Some(k)
  {
    if xs == [] then
      []
    else
      var n := |xs| - 1;
      var vorn := Gruppe(xs[..n], schluessel, k);
      assert forall x :: x in xs <==> x in xs[..n] || x == xs[n];
      if schluessel(xs[n]) == Some(k) then vorn + [xs[n]] else vorn
  }

  /** One more element joins at most one group. */
  lemma GruppeWaechst<T(!new), K>(xs: seq<T>, schluessel: T -> Option<K>, i: nat, k: K)
    requires i < |xs|
    ensures Gruppe(xs[..i + 1], schluessel, k) ==
            if schluessel(xs[i]) == Some(k) then Gruppe(xs[..i], schluessel, k) + [xs[i]]
            else Gruppe(xs[..i], schluessel, k)
  {
    assert xs[..i + 1][..i] == xs[..i];
  }

  /** `m` groups `xs`: every key that occurs has its group. */
  ghost predicate IstGruppierung<T(!new), K(!new)>(xs: seq<T>, schluessel: T -> Option<K>, m: map<K, seq<T>>) {
    && (forall k :: k in m <==> exists x :: x in xs && schluessel(x) == Some(k))
    && (forall k :: k in m ==> m[k] == Gruppe(xs, schluessel, k))
  }

  lemma LeereGruppe<T(!new), K(!new)>(xs: seq<T>, schluessel: T -> Option<K>, m: map<K, seq<T>>, k: K)
    requires IstGruppierung(xs, schluessel, m)
    ensures Gruppe(xs, schluessel, k) == if k in m then m[k] else []
  {
    var g := Gruppe(xs, schluessel, k);
    assert g != [] ==> g[0] in xs && schluessel(g[0]) == Some(k);
  }

  lemma GruppierungWaechst<T(!new), K(!new)>(xs: seq<T>, schluessel: T -> Option<K>, i: nat, m: map<K, seq<T>>)
    requires i < |xs| && IstGruppierung(xs[..i], schluessel, m)
    ensures schluessel(xs[i]).None? ==> IstGruppierung(xs[..i + 1], schluessel, m)
    ensures schluessel(xs[i]).Some? ==>
              var k := schluessel(xs[i]).value;
              IstGruppierung(xs[..i + 1], schluessel, m[k := (if k in m then m[k] else []) + [xs[i]]])
  {
    var x := xs[i];
    assert forall y :: y in xs[..i + 1] <==> y in xs[..i] || y == x;
    var n := if schluessel(x).None? then m
             else m[schluessel(x).value := (if schluessel(x).value in m then m[schluessel(x).value] else []) + [x]];
    forall k
      ensures k in n <==> exists y :: y in xs[..i + 1] && schluessel(y) == Some(k)
    {
    }
    forall k | k in n
      ensures n[k] == Gruppe(xs[..i + 1], schluessel, k)
    {
      hide Gruppe;
      GruppeWaechst(xs, schluessel, i, k);
      LeereGruppe(xs[..i], schluessel, m, k);
    }
    hide Gruppe;
  }

  /** `for x in xs: m[schluessel(x)].append(x)` */
  method Gruppiere<T(!new), K(!new, ==)>(xs: seq<T>, schluessel: T -> Option<K>) returns (m: map<K, seq<T>>)
    ensures forall k :: k in m <==> exists x :: x in xs && schluessel(x) == Some(k)
    ensures forall k :: k in m ==> m[k] == Gruppe(xs, schluessel, k)
  {
    m := map[];
    for i := 0 to |xs|
      invariant IstGruppierung(xs[..i], schluessel, m)
    {
      hide IstGruppierung, Gruppe;
      GruppierungWaechst(xs, schluessel, i, m);
      match schluessel(xs[i])
      case None =>
      case Some(k) => m := m[k := (if k in m then m[k] else []) + [xs[i]]];
    }
    assert xs[..|xs|] == xs;
  }

  /** The least element of a non-empty set of ids. */
  ghost function Minimum(s: set<nat>): (m: nat)
    requires s != {}
    ensures m in s && forall x :: x in s ==> m <= x
  {
    var x :| x in s;
    if s == {x} then
      x
    else
      var rest := Minimum(s - {x});
      assert s == (s - {x}) + {x};
      if rest < x then rest else x
  }

  ghost predicate Aufsteigend(ids: seq<nat>) {
    forall i, j :: 0 <= i < j < |ids| ==> ids[i] < ids[j]
  }

  /** The ids of a table in the order of `ORDER BY id`. */
  method OrderById<T>(tabelle: map<nat, T>) returns (ids: seq<nat>)
    ensures Aufsteigend(ids)
    ensures forall x :: x in ids <==> x in tabelle
  {
    ids := [];
    var rest := tabelle.Keys;
    while rest != {}
      invariant rest <= tabelle.Keys
      invariant forall x :: x in ids <==> x in tabelle && x !in rest
      invariant Aufsteigend(ids)
      invariant forall x, y :: x in ids && y in rest ==> x < y
      decreases rest
    {
      var kleinste := KleinsteId(rest);
      assert forall i :: 0 <= i < |ids| ==> ids[i] in ids;
      ids := ids + [kleinste];
      rest := rest - {kleinste};
    }
  }

  /** `MIN(id)` over a non-empty set of ids. */
  method KleinsteId(s: set<nat>) returns (m: nat)
    requires s != {}
    ensures m in s && forall x :: x in s ==> m <= x
  {
    m :| m in s;
    var rest := s - {m};
    while rest != {}
      invariant rest <= s && m in s && m !in rest
      invariant forall x :: x in s && x !in rest ==> m <= x
      decreases rest
    {
      var x :| x in rest;
      if x < m { m := x; }
      rest := rest - {x};
    }
  }

  /** Distinct rows under distinct ids: as many rows as ids. */
  lemma {:induction false} GleichVieleZeilen<T>(ids: set<nat>, t: map<nat, T>)
    requires ids <= t.Keys && forall i, j :: i in ids && j in ids && t[i] == t[j] ==> i == j
    ensures |set i | i in ids :: t[i]| == |ids|
    decreases |ids|
  {
    var zeilen := set i | i in ids :: t[i];
    if ids != {} {
      var i :| i in ids;
      GleichVieleZeilen(ids - {i}, t);
      assert zeilen == (set j | j in ids - {i} :: t[j]) + {t[i]};
    }
  }
}
