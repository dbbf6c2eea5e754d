/** Languages over an alphabet, as possibly infinite sets of words. */
module Languages {

  ghost function Empty<T>(): iset<seq<T>> {
    iset{}
  }

  ghost function Epsilon<T>(): iset<seq<T>> {
    iset{[]}
  }

  ghost function Letter<T>(t: T): iset<seq<T>> {
    iset{[t]}
  }

  ghost predicate InCat<T(!new)>(a: iset<seq<T>>, b: iset<seq<T>>, w: seq<T>) {
    exists k :: 0 <= k <= |w| && w[..k] in a && w[k..] in b
  }

  /** Concatenation: a word of `a` followed by a word of `b`. */
  ghost function Cat<T(!new)>(a: iset<seq<T>>, b: iset<seq<T>>): iset<seq<T>> {
    iset w | InCat(a, b, w)
  }

  /** Exactly `n` words of `a` in a row. */
  ghost function Power<T(!new)>(a: iset<seq<T>>, n: nat): iset<seq<T>> {
    if n == 0 then Epsilon() else Cat(a, Power(a, n - 1))
  }

  ghost predicate InSomePower<T(!new)>(a: iset<seq<T>>, lo: nat, w: seq<T>) {
    exists n: nat :: lo <= n && w in Power(a, n)
  }

  /** `lo` or more words of `a`. */
  ghost function AtLeast<T(!new)>(a: iset<seq<T>>, lo: nat): iset<seq<T>> {
    iset w | InSomePower(a, lo, w)
  }

  ghost function Iterate<T(!new)>(a: iset<seq<T>>): iset<seq<T>> {
    AtLeast(a, 0)
  }

  lemma {:induction false} CatIntro<T(!new)>(a: iset<seq<T>>, b: iset<seq<T>>, u: seq<T>, v: seq<T>)
    requires u in a && v in b
    ensures u + v in Cat(a, b)
  {
    var w := u + v;
    assert w[..|u|] == u && w[|u|..] == v;
    assert InCat(a, b, w);
  }

  lemma {:induction false} CatElim<T(!new)>(a: iset<seq<T>>, b: iset<seq<T>>, w: seq<T>) returns (u: seq<T>, v: seq<T>)
    requires w in Cat(a, b)
    ensures u in a && v in b && w == u + v
  {
    var k :| 0 <= k <= |w| && w[..k] in a && w[k..] in b;
    u, v := w[..k], w[k..];
  }

  lemma {:induction false} CatMono<T(!new)>(a: iset<seq<T>>, b: iset<seq<T>>, a': iset<seq<T>>, b': iset<seq<T>>)
    requires a <= a' && b <= b'
    ensures Cat(a, b) <= Cat(a', b')
  {
    forall w | w in Cat(a, b)
      ensures w in Cat(a', b')
    {
      var u, v := CatElim(a, b, w);
      CatIntro(a', b', u, v);
    }
  }

  lemma {:induction false} CatAssocLe<T(!new)>(a: iset<seq<T>>, b: iset<seq<T>>, c: iset<seq<T>>)
    ensures Cat(Cat(a, b), c) <= Cat(a, Cat(b, c))
  {
    forall w | w in Cat(Cat(a, b), c)
      ensures w in Cat(a, Cat(b, c))
    {
      var uv, z := CatElim(Cat(a, b), c, w);
      var u, v := CatElim(a, b, uv);
      CatIntro(b, c, v, z);
      CatIntro(a, Cat(b, c), u, v + z);
      assert w == u + (v + z);
    }
  }

  lemma {:induction false} CatAssocGe<T(!new)>(a: iset<seq<T>>, b: iset<seq<T>>, c: iset<seq<T>>)
    ensures Cat(a, Cat(b, c)) <= Cat(Cat(a, b), c)
  {
    forall w | w in Cat(a, Cat(b, c))
      ensures w in Cat(Cat(a, b), c)
    {
      var u, vz := CatElim(a, Cat(b, c), w);
      var v, z := CatElim(b, c, vz);
      CatIntro(a, b, u, v);
      CatIntro(Cat(a, b), c, u + v, z);
      assert w == (u + v) + z;
    }
  }

  lemma {:induction false} CatAssoc<T(!new)>(a: iset<seq<T>>, b: iset<seq<T>>, c: iset<seq<T>>)
    ensures Cat(Cat(a, b), c) == Cat(a, Cat(b, c))
  {
    CatAssocLe(a, b, c);
    CatAssocGe(a, b, c);
  }

  lemma {:induction false} CatEpsilon<T(!new)>(a: iset<seq<T>>)
    ensures Cat(Epsilon(), a) == a
    ensures Cat(a, Epsilon()) == a
  {
    forall w: seq<T>
      ensures w in Cat(Epsilon(), a) <==> w in a
    {
      CatEpsilonAt(a, w);
    }
    forall w: seq<T>
      ensures w in Cat(a, Epsilon()) <==> w in a
    {
      CatEpsilonAt(a, w);
    }
  }

  lemma {:induction false} CatEpsilonAt<T(!new)>(a: iset<seq<T>>, w: seq<T>)
    ensures w in Cat(Epsilon(), a) <==> w in a
    ensures w in Cat(a, Epsilon()) <==> w in a
  {
    assert [] + w == w && w + [] == w;
    if w in a {
      CatIntro(Epsilon(), a, [], w);
      CatIntro(a, Epsilon(), w, []);
    }
    if w in Cat(Epsilon(), a) {
      var u, v := CatElim(Epsilon(), a, w);
      assert w == v;
    }
    if w in Cat(a, Epsilon()) {
      var u, v := CatElim(a, Epsilon(), w);
      assert w == u;
    }
  }

  lemma {:induction false} CatUnion<T(!new)>(a: iset<seq<T>>, b: iset<seq<T>>, c: iset<seq<T>>)
    ensures Cat(a + b, c) == Cat(a, c) + Cat(b, c)
  {
    CatMono(a, c, a + b, c);
    CatMono(b, c, a + b, c);
    forall w | w in Cat(a + b, c)
      ensures w in Cat(a, c) + Cat(b, c)
    {
      var u, v := CatElim(a + b, c, w);
      if u in a { CatIntro(a, c, u, v); } else { CatIntro(b, c, u, v); }
    }
  }

  lemma {:induction false} IterateNil<T(!new)>(a: iset<seq<T>>)
    ensures [] in Iterate(a)
  {
    assert [] in Power(a, 0);
  }

  /** Putting one more word of `a` in front stays in the iteration. */
  lemma {:induction false} IterateCons<T(!new)>(a: iset<seq<T>>)
    ensures Cat(a, Iterate(a)) <= Iterate(a)
  {
    forall w | w in Cat(a, Iterate(a))
      ensures w in Iterate(a)
    {
      var u, v := CatElim(a, Iterate(a), w);
      var n: nat :| v in Power(a, n);
      CatIntro(a, Power(a, n), u, v);
      assert w in Power(a, n + 1);
    }
  }

  /** The iteration is the least language holding [] and closed under one more word in front. */
  lemma {:induction false} PowerLeast<T(!new)>(a: iset<seq<T>>, b: iset<seq<T>>, x: iset<seq<T>>, n: nat)
    requires b <= x
    requires Cat(a, x) <= x
    ensures Cat(Power(a, n), b) <= x
  {
    if n == 0 {
      CatEpsilon(b);
    } else {
      PowerLeast(a, b, x, n - 1);
      CatAssocLe(a, Power(a, n - 1), b);
      CatMono(a, Cat(Power(a, n - 1), b), a, x);
    }
  }

  lemma {:induction false} IterateLeast<T(!new)>(a: iset<seq<T>>, b: iset<seq<T>>, x: iset<seq<T>>)
    requires b <= x
    requires Cat(a, x) <= x
    ensures Cat(Iterate(a), b) <= x
  {
    forall w | w in Cat(Iterate(a), b)
      ensures w in x
    {
      var u, v := CatElim(Iterate(a), b, w);
      var n: nat :| u in Power(a, n);
      CatIntro(Power(a, n), b, u, v);
      PowerLeast(a, b, x, n);
    }
  }

  lemma {:induction false} IterateOfEmpty<T(!new)>()
    ensures Iterate<T>(iset{}) == Epsilon<T>()
  {
    var none: iset<seq<T>> := iset{};
    forall w | w in Cat(none, Epsilon())
      ensures false
    {
      var u, v := CatElim(none, Epsilon(), w);
    }
    IterateLeast(none, Epsilon(), Epsilon());
    forall w | w in Iterate(none)
      ensures w in Epsilon<T>()
    {
      CatEpsilonAt(Iterate(none), w);
    }
    IterateNil(none);
  }
}
