/** The union-find over `parent` in alembic/versions/0188_objekt_kontakt_dedupe_unique.py, on its own. */
module VereinigungsSuche {

  // ---------------------------------------------------------------- forests

  /** The stored parent of `x` is an entry of the map and at most `x`. */
  ghost predicate ElternKleiner(parent: map<nat, nat>, x: nat) {
    x in parent ==> parent[x] in parent && parent[x] <= x
  }

  /** Every stored parent is an entry of the map and at most its node. */
  ghost predicate Wald(parent: map<nat, nat>) {
    forall x {:trigger ElternKleiner(parent, x)} :: ElternKleiner(parent, x)
  }

  /** The end of the parent chain from `x`: what `find` returns. */
  ghost function Wurzel(parent: map<nat, nat>, x: nat): (r: nat)
    requires Wald(parent) && x in parent
    ensures r in parent && parent[r] == r && r <= x
    decreases x
  {
    assert ElternKleiner(parent, x);
    if parent[x] == x then x else Wurzel(parent, parent[x])
  }

  ghost predicate GleicheWurzeln(p: map<nat, nat>, q: map<nat, nat>) {
    && Wald(p) && Wald(q) && p.Keys == q.Keys
    && forall x {:trigger Wurzel(p, x)} {:trigger Wurzel(q, x)} :: x in p ==> Wurzel(p, x) == Wurzel(q, x)
  }

  lemma AenderungErhaeltWald(p: map<nat, nat>, x: nat, y: nat)
    requires Wald(p) && x in p && y in p && y <= x
    ensures Wald(p[x := y])
  {
    forall z {:trigger ElternKleiner(p[x := y], z)}
      ensures ElternKleiner(p[x := y], z)
    {
      assert ElternKleiner(p, z);
    }
  }

  /** Hanging `x` below any node of its own tree that is not above it changes no root. */
  lemma {:induction false} UmhaengenErhaeltWurzeln(p: map<nat, nat>, x: nat, y: nat, z: nat)
    requires Wald(p) && x in p && y in p && z in p
    requires y <= x && Wurzel(p, y) == Wurzel(p, x)
    requires p[x] != x ==> y < x
    ensures Wald(p[x := y]) && Wurzel(p[x := y], z) == Wurzel(p, z)
    decreases z
  {
    AenderungErhaeltWald(p, x, y);
    assert ElternKleiner(p, z);
    if z == x {
      if y < x { UmhaengenErhaeltWurzeln(p, x, y, y); }
    } else if p[z] != z {
      UmhaengenErhaeltWurzeln(p, x, y, p[z]);
    }
  }

  /** Linking the root `r` to a smaller root `w` moves exactly r's class to `w`. */
  lemma {:induction false} VerbindenVerschiebtKlasse(p: map<nat, nat>, r: nat, w: nat, z: nat)
    requires Wald(p) && r in p && w in p && z in p
    requires p[r] == r && p[w] == w && w <= r
    ensures Wald(p[r := w])
    ensures Wurzel(p[r := w], z) == if Wurzel(p, z) == r then w else Wurzel(p, z)
    decreases z
  {
    AenderungErhaeltWald(p, r, w);
    assert ElternKleiner(p, z);
    if z != r && p[z] != z {
      VerbindenVerschiebtKlasse(p, r, w, p[z]);
    }
  }

  // ---------------------------------------------------------------- the mutable structure

  /** The roots of `ids` in `p`. */
  ghost function Wurzeln(p: map<nat, nat>, ids: seq<nat>): (s: set<nat>)
    requires Wald(p) && forall i :: i in ids ==> i in p
    ensures forall i :: i in ids ==> Wurzel(p, i) in s
  {
    set i | i in ids :: Wurzel(p, i)
  }

  /** `q` is `p` with the classes of the roots in `s` moved to `w`. */
  ghost predicate Verschoben(p: map<nat, nat>, s: set<nat>, w: nat, q: map<nat, nat>) {
    && Wald(p) && Wald(q) && q.Keys == p.Keys
    && forall x {:trigger Wurzel(q, x)} {:trigger Wurzel(p, x)} ::
         x in p ==> Wurzel(q, x) == if Wurzel(p, x) in s then w else Wurzel(p, x)
  }

  /** `w` is the smallest root of `ids`, and `q` is `p` with the classes of all `ids` moved to `w`. */
  ghost predicate Vereinigt(p: map<nat, nat>, ids: seq<nat>, w: nat, q: map<nat, nat>)
    requires Wald(p) && forall i :: i in ids ==> i in p
  {
    && w in Wurzeln(p, ids) && (forall r :: r in Wurzeln(p, ids) ==> w <= r)
    && Verschoben(p, Wurzeln(p, ids), w, q)
  }

  lemma VerschobenSchritt(p: map<nat, nat>, s: set<nat>, w: nat, q: map<nat, nat>, i: nat, q': map<nat, nat>)
    requires Verschoben(p, s, w, q) && i in p && w in p && p[w] == w
    requires Wald(q') && q'.Keys == q.Keys
    requires forall x {:trigger Wurzel(q', x)} ::
      x in q ==> Wurzel(q', x) == if Wurzel(q, x) == Wurzel(q, i) then w else Wurzel(q, x)
    ensures Verschoben(p, s + {Wurzel(p, i)}, w, q')
  {
    assert Wurzel(p, w) == w;
    forall x {:trigger Wurzel(q', x)} | x in p
      ensures Wurzel(q', x) == if Wurzel(p, x) in s + {Wurzel(p, i)} then w else Wurzel(p, x)
    {
    }
  }

  class UnionFind {
    var parent: map<nat, nat>

    ghost predicate Valid()
      reads this
    {
      Wald(parent)
    }

    constructor (ids: seq<nat>)
      ensures Valid() && forall x :: x in parent <==> x in ids
      ensures forall x :: x in parent ==> Wurzel(parent, x) == x
    {
      parent := map x | x in ids :: x;
    }

    /** `find` with path halving; rewrites parents on the way but no root. */
    method Find(kontaktId: nat) returns (r: nat)
      requires Valid() && kontaktId in parent
      modifies this
      ensures Valid() && GleicheWurzeln(old(parent), parent)
      ensures r == Wurzel(old(parent), kontaktId)
    {
      r := kontaktId;
      while parent[r] != r
        invariant Valid() && r in parent && GleicheWurzeln(old(parent), parent)
        invariant Wurzel(parent, r) == Wurzel(old(parent), kontaktId)
        decreases r
      {
        ghost var p := parent;
        assert ElternKleiner(p, r) && ElternKleiner(p, p[r]);
        var grossvater := parent[parent[r]];
        AenderungErhaeltWald(p, r, grossvater);
        forall z | z in p
          ensures Wald(p[r := grossvater]) && Wurzel(p[r := grossvater], z) == Wurzel(p, z)
        {
          UmhaengenErhaeltWurzeln(p, r, grossvater, z);
        }
        parent := parent[r := grossvater];
        r := parent[r];
      }
    }

    /**
     * `vereinige`: all classes of `ids` get the smallest of their roots. `min` of nothing raises, hence `ids != []`.
     */
    method Vereinige(ids: seq<nat>) returns (ghost w: nat)
      requires Valid() && ids != [] && forall i :: i in ids ==> i in parent
      modifies this
      ensures Valid() && Vereinigt(old(parent), ids, w, parent)
    {
      ghost var p := parent;
      var wurzel := KleinsteWurzel(ids);
      w := wurzel;
      ghost var verschoben: set<nat> := {};
      for i := 0 to |ids|
        invariant Valid() && Verschoben(p, verschoben, wurzel, parent)
        invariant verschoben <= Wurzeln(p, ids)
        invariant forall j :: 0 <= j < i ==> Wurzel(p, ids[j]) in verschoben
      {
        ghost var q := parent;
        var r := Find(ids[i]);
        VerbindeWurzel(r, wurzel);
        VerschobenSchritt(p, verschoben, wurzel, q, ids[i], parent);
        verschoben := verschoben + {Wurzel(p, ids[i])};
      }
      assert verschoben == Wurzeln(p, ids);
    }

    /** `min(find(i) for i in ids)` */
    method KleinsteWurzel(ids: seq<nat>) returns (wurzel: nat)
      requires Valid() && ids != [] && forall i :: i in ids ==> i in parent
      modifies this
      ensures Valid() && GleicheWurzeln(old(parent), parent)
      ensures wurzel in Wurzeln(old(parent), ids)
      ensures forall r :: r in Wurzeln(old(parent), ids) ==> wurzel <= r
    {
      ghost var p := parent;
      wurzel := Find(ids[0]);
      for i := 1 to |ids|
        invariant Valid() && GleicheWurzeln(p, parent)
        invariant wurzel in Wurzeln(p, ids)
        invariant forall j :: 0 <= j < i ==> wurzel <= Wurzel(p, ids[j])
      {
        var r := Find(ids[i]);
        if r < wurzel { wurzel := r; }
      }
    }

    /** `parent[r] = w` for two roots. */
    method VerbindeWurzel(r: nat, w: nat)
      requires Valid() && r in parent && w in parent
      requires parent[r] == r && parent[w] == w && w <= r
      modifies this
      ensures Valid() && parent.Keys == old(parent).Keys
      ensures forall x {:trigger Wurzel(parent, x)} {:trigger Wurzel(old(parent), x)} :: x in parent ==>
        Wurzel(parent, x) == if Wurzel(old(parent), x) == r then w else Wurzel(old(parent), x)
    {
      AenderungErhaeltWald(parent, r, w);
      forall z | z in parent
        ensures Wurzel(parent[r := w], z) == if Wurzel(parent, z) == r then w else Wurzel(parent, z)
      {
        VerbindenVerschiebtKlasse(parent, r, w, z);
      }
      parent := parent[r := w];
    }
  }
}
