/** Sizes of finite sets of integers and of sequences, used to state exact uniformity. */
module Counting {

  function Pow(b: nat, e: nat): nat {
    if e == 0 then 1 else b * Pow(b, e - 1)
  }

  function Times(a: nat, b: nat): nat { a * b }

  /** The integers of [lo, hi): there are hi - lo of them. */
  ghost function Interval(lo: int, hi: int): (r: set<int>)
    requires lo <= hi
    ensures forall v :: v in r <==> lo <= v < hi
    ensures |r| == hi - lo
    decreases hi - lo
  {
    if lo == hi then {} else Interval(lo, hi - 1) + {hi - 1}
  }

  ghost function Residues(m: nat, q: nat, r: nat): set<int>
    requires 0 < m
  {
    set i: int | 0 <= i < q * m && i % m == r
  }

  /** An initial segment whose length is a multiple of m holds each residue equally often. */
  lemma {:induction false} ResiduesSize(m: nat, q: nat, r: nat)
    requires r < m
    ensures |Residues(m, q, r)| == q
    decreases q
  {
    if q == 0 {
      assert Residues(m, q, r) == {};
    } else {
      ResiduesSize(m, q - 1, r);
      var last := (q - 1) * m + r;
      assert q * m == (q - 1) * m + m;
      forall i | (q - 1) * m <= i < q * m
        ensures i % m == i - (q - 1) * m
      {
        DivModUnique(i, m, q - 1);
      }
      assert last % m == r;
      assert Residues(m, q, r) == Residues(m, q - 1, r) + {last};
    }
  }

  lemma DivModUnique(i: int, m: nat, q: int)
    requires 0 < m && q * m <= i < q * m + m
    ensures i / m == q && i % m == i - q * m
  {
    var d := i / m - q;
    assert i == (i / m) * m + i % m;
    assert 0 - m < d * m < m by {
      assert d * m == (i / m) * m - q * m;
    }
    assert d >= 1 ==> d * m >= m;
    assert d <= -1 ==> d * m <= 0 - m;
  }

  lemma EmptyOrInhabited(s: set<int>)
    ensures s == {} || exists y :: y in s
  {
    assert (forall y :: y !in s) ==> s == {};
  }

  lemma OneMore(a: nat, c: nat)
    ensures (a + 1) * c == a * c + c
  {
  }

  lemma Partition<T>(whole: set<T>, a: set<T>, b: set<T>)
    requires forall x :: x in whole <==> x in a || x in b
    requires a !! b
    ensures |whole| == |a| + |b|
  {
    assert whole == a + b;
  }

  /** The members of [lo, hi) that f sends into s. */
  ghost function Preimage(f: int -> int, lo: int, hi: int, s: set<int>): set<int> {
    set x: int | lo <= x < hi && f(x) in s
  }

  /** When every fibre over s has c members, the preimage of s has |s| * c. */
  lemma {:induction false} PreimageSize(f: int -> int, lo: int, hi: int, s: set<int>, c: nat)
    requires forall y :: y in s ==> |Preimage(f, lo, hi, {y})| == c
    ensures |Preimage(f, lo, hi, s)| == |s| * c
    decreases |s|
  {
    if |s| == 0 {
      assert Preimage(f, lo, hi, s) == {};
    } else {
      EmptyOrInhabited(s);
      var y :| y in s;
      var rest := s - {y};
      PreimageSize(f, lo, hi, rest, c);
      Partition(Preimage(f, lo, hi, s), Preimage(f, lo, hi, rest), Preimage(f, lo, hi, {y}));
      OneMore(|rest|, c);
    }
  }

  ghost function Prefixed<T>(heads: set<T>, tails: set<seq<T>>): set<seq<T>> {
    set v, w | v in heads && w in tails :: [v] + w
  }

  lemma PrefixedMember<T>(v: T, w: seq<T>, heads: set<T>, tails: set<seq<T>>)
    ensures [v] + w in Prefixed(heads, tails) <==> v in heads && w in tails
  {
    if [v] + w in Prefixed(heads, tails) {
      var v', w' :| v' in heads && w' in tails && [v] + w == [v'] + w';
      assert ([v] + w)[0] == v && ([v] + w)[1..] == w && ([v'] + w')[0] == v' && ([v'] + w')[1..] == w';
    }
  }

  lemma PrefixedShape<T>(s: seq<T>, heads: set<T>, tails: set<seq<T>>)
    ensures s in Prefixed(heads, tails) <==> s != [] && s[0] in heads && s[1..] in tails
  {
    if s in Prefixed(heads, tails) {
      var v', w' :| v' in heads && w' in tails && s == [v'] + w';
      assert s[1..] == w';
    }
    if s != [] && s[0] in heads && s[1..] in tails {
      assert s == [s[0]] + s[1..];
    }
  }

  lemma {:induction false} PrefixedOneSize<T(!new)>(v: T, tails: set<seq<T>>)
    ensures |Prefixed({v}, tails)| == |tails|
    decreases |tails|
  {
    if |tails| == 0 {
      assert Prefixed({v}, tails) == {};
    } else {
      var w :| w in tails;
      var rest := tails - {w};
      PrefixedOneSize(v, rest);
      forall s ensures s in Prefixed({v}, tails) <==> s in Prefixed({v}, rest) || s in {[v] + w} {
        PrefixedShape(s, {v}, tails);
        PrefixedShape(s, {v}, rest);
        assert ([v] + w)[1..] == w;
        assert s != [] && s[0] == v && s[1..] == w ==> s == [v] + w;
      }
      PrefixedMember(v, w, {v}, rest);
      Partition(Prefixed({v}, tails), Prefixed({v}, rest), {[v] + w});
    }
  }

  lemma {:induction false} PrefixedSize<T(!new)>(heads: set<T>, tails: set<seq<T>>)
    ensures |Prefixed(heads, tails)| == |heads| * |tails|
    decreases |heads|
  {
    if |heads| == 0 {
      assert Prefixed(heads, tails) == {};
    } else {
      var v :| v in heads;
      var rest := heads - {v};
      PrefixedSize(rest, tails);
      PrefixedOneSize(v, tails);
      forall s ensures s in Prefixed(heads, tails) <==> s in Prefixed(rest, tails) || s in Prefixed({v}, tails) {
        PrefixedShape(s, heads, tails);
        PrefixedShape(s, rest, tails);
        PrefixedShape(s, {v}, tails);
      }
      forall s | s in Prefixed(rest, tails) ensures s !in Prefixed({v}, tails) {
        PrefixedShape(s, rest, tails);
        PrefixedShape(s, {v}, tails);
      }
      Partition(Prefixed(heads, tails), Prefixed(rest, tails), Prefixed({v}, tails));
      OneMore(|rest|, |tails|);
    }
  }

  /** All sequences whose i-th element is drawn from sets[i]. */
  ghost function Product(sets: seq<set<int>>): set<seq<int>> {
    if sets == [] then {[]} else Prefixed(sets[0], Product(sets[1..]))
  }

  lemma {:induction false} ProductMembers(sets: seq<set<int>>, vs: seq<int>)
    ensures vs in Product(sets) <==>
            |vs| == |sets| && forall i :: 0 <= i < |sets| ==> vs[i] in sets[i]
  {
    if sets != [] {
      PrefixedShape(vs, sets[0], Product(sets[1..]));
      if vs != [] {
        ProductMembers(sets[1..], vs[1..]);
        assert |vs| == |sets| ==> forall i :: 0 < i < |sets| ==> vs[i] == vs[1..][i - 1] && sets[i] == sets[1..][i - 1];
        assert |vs| == |sets| ==> forall i :: 0 <= i < |sets[1..]| ==> vs[1..][i] == vs[i + 1] && sets[1..][i] == sets[i + 1];
      }
    }
  }

  lemma {:induction false} ProductSize(sets: seq<set<int>>, c: nat)
    requires forall i :: 0 <= i < |sets| ==> |sets[i]| == c
    ensures |Product(sets)| == Pow(c, |sets|)
  {
    if sets != [] {
      ProductSize(sets[1..], c);
      PrefixedSize(sets[0], Product(sets[1..]));
    }
  }
}
