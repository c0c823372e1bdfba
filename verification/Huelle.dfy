/** Reflexive-transitive closures of link relations, and what it means that a union-find computes one. */
module Huelle {
  import opened VereinigungsSuche

  /** `weg` lists the nodes after `x` on a walk along links from `x` to `y`. */
  ghost predicate Weg(kante: (nat, nat) -> bool, x: nat, weg: seq<nat>, y: nat)
    decreases |weg|
  {
    if weg == [] then x == y else kante(x, weg[0]) && Weg(kante, weg[0], weg[1..], y)
  }

  /** The reflexive-transitive closure of `kante`. */
  ghost predicate Verbunden(kante: (nat, nat) -> bool, x: nat, y: nat) {
    exists weg :: Weg(kante, x, weg, y)
  }

  ghost predicate Symmetrisch(kante: (nat, nat) -> bool) {
    forall x, y :: kante(x, y) ==> kante(y, x)
  }

  lemma {:induction false} WegeVerketten(kante: (nat, nat) -> bool, x: nat, v: seq<nat>, y: nat, w: seq<nat>, z: nat)
    requires Weg(kante, x, v, y) && Weg(kante, y, w, z)
    ensures Weg(kante, x, v + w, z)
    decreases |v|
  {
    if v == [] {
      assert v + w == w;
    } else {
      WegeVerketten(kante, v[0], v[1..], y, w, z);
      assert (v + w)[1..] == v[1..] + w;
    }
  }

  lemma VerbundenTransitiv(kante: (nat, nat) -> bool, x: nat, y: nat, z: nat)
    requires Verbunden(kante, x, y) && Verbunden(kante, y, z)
    ensures Verbunden(kante, x, z)
  {
    var v :| Weg(kante, x, v, y);
    var w :| Weg(kante, y, w, z);
    WegeVerketten(kante, x, v, y, w, z);
  }

  lemma VerbundenReflexiv(kante: (nat, nat) -> bool, x: nat)
    ensures Verbunden(kante, x, x)
  {
    assert Weg(kante, x, [], x);
  }

  lemma KanteVerbindet(kante: (nat, nat) -> bool, x: nat, y: nat)
    requires kante(x, y)
    ensures Verbunden(kante, x, y)
  {
    assert Weg(kante, y, [], y);
    assert [y][1..] == [];
    assert Weg(kante, x, [y], y);
  }

  lemma {:induction false} WegUmkehren(kante: (nat, nat) -> bool, x: nat, weg: seq<nat>, y: nat)
    requires Symmetrisch(kante) && Weg(kante, x, weg, y)
    ensures Verbunden(kante, y, x)
    decreases |weg|
  {
    if weg == [] {
      VerbundenReflexiv(kante, x);
    } else {
      WegUmkehren(kante, weg[0], weg[1..], y);
      KanteVerbindet(kante, weg[0], x);
      VerbundenTransitiv(kante, y, weg[0], x);
    }
  }

  lemma VerbundenSymmetrisch(kante: (nat, nat) -> bool, x: nat, y: nat)
    requires Symmetrisch(kante) && Verbunden(kante, x, y)
    ensures Verbunden(kante, y, x)
  {
    var weg :| Weg(kante, x, weg, y);
    WegUmkehren(kante, x, weg, y);
  }

  lemma {:induction false} WegMonoton(k: (nat, nat) -> bool, l: (nat, nat) -> bool, x: nat, weg: seq<nat>, y: nat)
    requires forall a, b :: k(a, b) ==> l(a, b)
    requires Weg(k, x, weg, y)
    ensures Weg(l, x, weg, y)
    decreases |weg|
  {
    if weg != [] { WegMonoton(k, l, weg[0], weg[1..], y); }
  }

  lemma VerbundenMonoton(k: (nat, nat) -> bool, l: (nat, nat) -> bool, x: nat, y: nat)
    requires forall a, b :: k(a, b) ==> l(a, b)
    requires Verbunden(k, x, y)
    ensures Verbunden(l, x, y)
  {
    var weg :| Weg(k, x, weg, y);
    WegMonoton(k, l, x, weg, y);
  }

  // ---------------------------------------------------------------- what the union-find represents

  /** Sharing a root in `p` is being connected by `kante`. */
  ghost predicate Darstellt(p: map<nat, nat>, kante: (nat, nat) -> bool) {
    && Wald(p)
    && forall x, y {:trigger Verbunden(kante, x, y)} :: x in p && y in p ==>
      (Wurzel(p, x) == Wurzel(p, y) <==> Verbunden(kante, x, y))
  }

  lemma AnfangDarstellt(p: map<nat, nat>, kante: (nat, nat) -> bool)
    requires Wald(p) && forall x :: x in p ==> Wurzel(p, x) == x
    requires forall x, y :: kante(x, y) ==> x == y
    ensures Darstellt(p, kante)
  {
    forall x, y | x in p && y in p
      ensures Wurzel(p, x) == Wurzel(p, y) <==> Verbunden(kante, x, y)
    {
      VerbundenReflexiv(kante, x);
      if Verbunden(kante, x, y) {
        var weg :| Weg(kante, x, weg, y);
        NurSchleifen(kante, x, weg, y);
      }
    }
  }

  lemma {:induction false} NurSchleifen(kante: (nat, nat) -> bool, x: nat, weg: seq<nat>, y: nat)
    requires forall x, y :: kante(x, y) ==> x == y
    requires Weg(kante, x, weg, y)
    ensures x == y
    decreases |weg|
  {
    if weg != [] { NurSchleifen(kante, weg[0], weg[1..], y); }
  }

  /** Only the truth of the links matters, not how they are written. */
  lemma DarstelltGleich(p: map<nat, nat>, k: (nat, nat) -> bool, l: (nat, nat) -> bool)
    requires Darstellt(p, k) && forall x, y :: k(x, y) <==> l(x, y)
    ensures Darstellt(p, l)
  {
    forall x, y | x in p && y in p
      ensures Wurzel(p, x) == Wurzel(p, y) <==> Verbunden(l, x, y)
    {
      assert Verbunden(k, x, y) <==> Wurzel(p, x) == Wurzel(p, y);
      if Verbunden(k, x, y) { VerbundenMonoton(k, l, x, y); }
      if Verbunden(l, x, y) { VerbundenMonoton(l, k, x, y); }
    }
  }

  /** `l` is `k` with all members of `ids` linked; links of `k` stay inside the forest `p`. */
  ghost predicate Erweitert(p: map<nat, nat>, k: (nat, nat) -> bool, ids: seq<nat>, l: (nat, nat) -> bool) {
    && (forall x :: x in ids ==> x in p)
    && (forall x, y :: k(x, y) ==> x == y || (x in p && y in p))
    && (forall x, y :: l(x, y) <==> k(x, y) || (x in ids && y in ids))
  }

  /** `vereinige(ids)` adds exactly the links between the members of `ids`. */
  lemma VereinigeErweitert(p: map<nat, nat>, k: (nat, nat) -> bool, ids: seq<nat>, l: (nat, nat) -> bool,
                           w: nat, q: map<nat, nat>)
    requires Darstellt(p, k) && Erweitert(p, k, ids, l) && Vereinigt(p, ids, w, q)
    ensures Darstellt(q, l)
  {
    forall x, y | x in q && y in q
      ensures Wurzel(q, x) == Wurzel(q, y) <==> Verbunden(l, x, y)
    {
      if Verbunden(l, x, y) {
        var weg :| Weg(l, x, weg, y);
        WegInEinerKlasse(p, k, ids, l, w, q, x, weg, y);
      }
      if Wurzel(q, x) == Wurzel(q, y) {
        GleicheWurzelVerbindet(p, k, ids, l, w, q, x, y);
      }
    }
  }

  lemma {:induction false} WegInEinerKlasse(p: map<nat, nat>, k: (nat, nat) -> bool, ids: seq<nat>,
                                            l: (nat, nat) -> bool,
                                            w: nat, q: map<nat, nat>, x: nat, weg: seq<nat>, y: nat)
    requires Darstellt(p, k) && Erweitert(p, k, ids, l) && Vereinigt(p, ids, w, q)
    requires x in q && y in q && Weg(l, x, weg, y)
    ensures Wurzel(q, x) == Wurzel(q, y)
    decreases |weg|
  {
    if weg != [] {
      var z := weg[0];
      if x != z {
        if k(x, z) {
          KanteVerbindet(k, x, z);
          assert Wurzel(p, x) == Wurzel(p, z);
        }
        assert Wurzel(q, x) == Wurzel(q, z);
      }
      WegInEinerKlasse(p, k, ids, l, w, q, z, weg[1..], y);
    }
  }

  lemma GleicheWurzelVerbindet(p: map<nat, nat>, k: (nat, nat) -> bool, ids: seq<nat>, l: (nat, nat) -> bool,
                               w: nat, q: map<nat, nat>, x: nat, y: nat)
    requires Darstellt(p, k) && Erweitert(p, k, ids, l) && Vereinigt(p, ids, w, q)
    requires x in q && y in q && Wurzel(q, x) == Wurzel(q, y)
    ensures Verbunden(l, x, y)
  {
    if Wurzel(p, x) == Wurzel(p, y) {
      assert Verbunden(k, x, y);
      VerbundenMonoton(k, l, x, y);
    } else {
      assert w in Wurzeln(p, ids) && Wurzel(p, w) == w;
      var i :| i in ids && Wurzel(p, x) == Wurzel(p, i);
      var j :| j in ids && Wurzel(p, y) == Wurzel(p, j);
      assert Verbunden(k, x, i) && Verbunden(k, j, y);
      VerbundenMonoton(k, l, x, i);
      VerbundenMonoton(k, l, j, y);
      KanteVerbindet(l, i, j);
      VerbundenTransitiv(l, x, i, j);
      VerbundenTransitiv(l, x, j, y);
    }
  }

  /** A class is named by its smallest member: parents never exceed their nodes. */
  lemma WurzelIstKleinste(p: map<nat, nat>, kante: (nat, nat) -> bool, x: nat, y: nat)
    requires Darstellt(p, kante) && x in p && y in p && Verbunden(kante, x, y)
    ensures Wurzel(p, x) <= y && Verbunden(kante, x, Wurzel(p, x))
  {
    var r := Wurzel(p, x);
    assert Wurzel(p, r) == r;
    assert Verbunden(kante, x, r) <==> Wurzel(p, x) == Wurzel(p, r);
  }
}
