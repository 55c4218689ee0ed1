/**
 Following replacements to their end: what a value that gave way, possibly more than once, has
 become in the end. The order in which the replacements were made does not show in it.
 */
module Resolution {
  import opened Ir
  import opened Refinement
  import opened Substitution

  /** `v` became `u` by `n` replacements. */
  ghost predicate Reaches(e: Redirect, v: Value, u: Value, n: nat)
    decreases n
  {
    if n == 0 then v == u else v in e && Reaches(e, e[v], u, n - 1)
  }

  /** `g` sends every replaced value to the end of its replacements in `e`. */
  ghost predicate Resolves(e: Redirect, g: Redirect)
  {
    g.Keys == e.Keys && forall v :: v in g ==> g[v] !in g && Ends(e, v, g[v])
  }

  ghost predicate Ends(e: Redirect, v: Value, u: Value)
  {
    exists n :: Reaches(e, v, u, n)
  }

  lemma {:induction false} ReachesUnique(e: Redirect, v: Value, u: Value, n: nat, u': Value, n': nat)
    requires Reaches(e, v, u, n) && Reaches(e, v, u', n') && u !in e && u' !in e
    ensures u == u'
    decreases n
  {
    if n > 0 && n' > 0 {
      ReachesUnique(e, e[v], u, n - 1, u', n' - 1);
    }
  }

  /** The replacements alone decide the end. */
  lemma ResolvesUnique(e: Redirect, g: Redirect, g': Redirect)
    requires Resolves(e, g) && Resolves(e, g')
    ensures g == g'
  {
    forall v | v in g ensures g[v] == g'[v] {
      var n :| Reaches(e, v, g[v], n);
      var n' :| Reaches(e, v, g'[v], n');
      ReachesUnique(e, v, g[v], n, g'[v], n');
    }
  }

  lemma {:induction false} ReachesMore(e: Redirect, e': Redirect, v: Value, u: Value, n: nat)
    requires Reaches(e, v, u, n) && forall x :: x in e ==> x in e' && e'[x] == e[x]
    ensures Reaches(e', v, u, n)
    decreases n
  {
    if n > 0 {
      ReachesMore(e, e', e[v], u, n - 1);
    }
  }

  lemma {:induction false} ReachesJoin(e: Redirect, v: Value, u: Value, n: nat, x: Value, m: nat)
    requires Reaches(e, v, u, n) && Reaches(e, u, x, m)
    ensures Reaches(e, v, x, n + m)
    decreases n
  {
    if n > 0 {
      ReachesJoin(e, e[v], u, n - 1, x, m);
    }
  }

  lemma ResolvesNothing()
    ensures Resolves(map[], map[])
  {
  }

  /** The end of `v`, whether it was replaced or not. */
  lemma EndOf(e: Redirect, g: Redirect, v: Value)
    requires Resolves(e, g)
    ensures Target(g, v) !in g && Ends(e, v, Target(g, v))
  {
    if v !in g {
      assert Reaches(e, v, v, 0);
    }
  }

  /**
   One more operation gives way: `r` says to what, `s` to what that has become by now. No result
   gave way before, and none gives way to a result.
   */
  lemma ResolvesStep(e: Redirect, g: Redirect, r: Redirect, s: Redirect)
    requires Resolves(e, g) && r.Keys == s.Keys && r.Keys !! e.Keys
    requires forall v :: v in r ==> s[v] == Target(g, r[v]) && s[v] !in s
    ensures Resolves(e + r, Compose(g, s))
  {
    var e', g' := e + r, Compose(g, s);
    assert g'.Keys == e'.Keys;
    forall v | v in g' ensures g'[v] !in g' && Ends(e', v, g'[v]) {
      if v in r {
        NewEnd(e, g, r, s, v);
        assert Target(g, v) == v;
      } else {
        OldEnd(e, g, r, s, v);
      }
    }
  }

  lemma NewEnd(e: Redirect, g: Redirect, r: Redirect, s: Redirect, v: Value)
    requires Resolves(e, g) && r.Keys == s.Keys && r.Keys !! e.Keys && v in r
    requires s[v] == Target(g, r[v]) && s[v] !in s
    ensures s[v] !in e + r && Ends(e + r, v, s[v])
  {
    EndOf(e, g, r[v]);
    var m :| Reaches(e, r[v], s[v], m);
    ReachesMore(e, e + r, r[v], s[v], m);
    assert Reaches(e + r, v, r[v], 1) by {
      assert Reaches(e + r, r[v], r[v], 0);
    }
    ReachesJoin(e + r, v, r[v], 1, s[v], m);
  }

  lemma OldEnd(e: Redirect, g: Redirect, r: Redirect, s: Redirect, v: Value)
    requires Resolves(e, g) && r.Keys == s.Keys && r.Keys !! e.Keys && v in g
    requires forall x :: x in r ==> s[x] == Target(g, r[x]) && s[x] !in s
    ensures Target(s, g[v]) !in e + r && Ends(e + r, v, Target(s, g[v]))
  {
    var n :| Reaches(e, v, g[v], n);
    ReachesMore(e, e + r, v, g[v], n);
    if g[v] in s {
      NewEnd(e, g, r, s, g[v]);
      var m :| Reaches(e + r, g[v], s[g[v]], m);
      ReachesJoin(e + r, v, g[v], n, s[g[v]], m);
    }
  }

  lemma SameItems(e: Redirect, e': Redirect)
    requires e.Items == e'.Items
    ensures e == e'
  {
    forall v | v in e ensures v in e' && e'[v] == e[v] {
      assert (v, e[v]) in e'.Items;
    }
    forall v | v in e' ensures v in e {
      assert (v, e'[v]) in e.Items;
    }
  }

  lemma ItemsJoin(e: Redirect, r: Redirect)
    requires e.Keys !! r.Keys
    ensures (e + r).Items == e.Items + r.Items
  {
    forall p | p in (e + r).Items ensures p in e.Items + r.Items {
      assert p.1 == (e + r)[p.0];
    }
    forall p | p in e.Items + r.Items ensures p in (e + r).Items {
      assert p.0 in e + r && (e + r)[p.0] == p.1;
    }
  }
}
