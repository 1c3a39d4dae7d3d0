/** Descending orders: `ORDER BY a DESC, b DESC` in the queries, and the comparator sort
    of the client's movie list. Both are modelled by one stable insertion sort on a
    two-level key. */
module Sorting {

  /** A sort key compared on `primary` first and on `secondary` to break ties. */
  datatype Key = Key(primary: int, secondary: int)

  /** `a` may come before `b` in a descending order. */
  predicate NotBelow(a: Key, b: Key)
  {
    a.primary > b.primary || (a.primary == b.primary && a.secondary >= b.secondary)
  }

  predicate SortedDesc<T>(s: seq<T>, key: T -> Key)
  {
    forall i, j | 0 <= i < j < |s| :: NotBelow(key(s[i]), key(s[j]))
  }

  /** `x` placed before the first element it is not below: ahead of every element with an
      equal key, so an element inserted earlier never passes one inserted later. */
  function Insert<T>(x: T, s: seq<T>, key: T -> Key): (r: seq<T>)
    requires SortedDesc(s, key)
    ensures SortedDesc(r, key)
    ensures multiset(r) == multiset(s) + multiset{x}
  {
    if s == [] then [x]
    else if NotBelow(key(x), key(s[0])) then
      assert forall j | 0 <= j < |s| :: NotBelow(key(s[0]), key(s[j]));
      [x] + s
    else
      var rest := Insert(x, s[1..], key);
      assert s == [s[0]] + s[1..];
      InsertHead(s[0], x, s[1..], rest, key);
      [s[0]] + rest
  }

  lemma InsertHead<T>(h: T, x: T, tail: seq<T>, rest: seq<T>, key: T -> Key)
    requires SortedDesc([h] + tail, key) && SortedDesc(rest, key)
    requires !NotBelow(key(x), key(h))
    requires multiset(rest) == multiset(tail) + multiset{x}
    ensures SortedDesc([h] + rest, key)
  {
    var r := [h] + rest;
    forall i, j | 0 <= i < j < |r| ensures NotBelow(key(r[i]), key(r[j])) {
      if i == 0 {
        var y := rest[j - 1];
        assert r[0] == h && r[j] == y;
        assert y in multiset(rest);
        if y != x {
          assert y in multiset(tail);
          var k :| 0 <= k < |tail| && tail[k] == y;
          assert ([h] + tail)[0] == h && ([h] + tail)[k + 1] == y;
        }
      } else {
        assert r[i] == rest[i - 1] && r[j] == rest[j - 1];
      }
    }
  }

  /** The sorted order: descending by key, stable. */
  function Sort<T>(s: seq<T>, key: T -> Key): (r: seq<T>)
    ensures SortedDesc(r, key)
    ensures multiset(r) == multiset(s)
    ensures |r| == |s|
  {
    if s == [] then []
    else
      assert s == [s[0]] + s[1..];
      Insert(s[0], Sort(s[1..], key), key)
  }

  /** A sequence that is already in order is left as it is. */
  lemma {:induction false} SortSorted<T>(s: seq<T>, key: T -> Key)
    requires SortedDesc(s, key)
    ensures Sort(s, key) == s
  {
    if s != [] {
      SortedTail(s, key);
      SortSorted(s[1..], key);
      if |s| > 1 {
        assert NotBelow(key(s[0]), key(s[1]));
      }
      assert [s[0]] + s[1..] == s;
    }
  }

  /** The sorted sequence holds the elements of the input and nothing else. */
  lemma SortMembers<T>(s: seq<T>, key: T -> Key)
    ensures forall x :: x in Sort(s, key) <==> x in s
  {
    assert forall x :: x in Sort(s, key) <==> x in multiset(Sort(s, key));
  }

  /** `s.map(f)` */
  function MapSeq<A, B>(f: A -> B, s: seq<A>): (r: seq<B>)
    ensures |r| == |s|
    ensures forall i | 0 <= i < |s| :: r[i] == f(s[i])
  {
    if s == [] then [] else [f(s[0])] + MapSeq(f, s[1..])
  }

  /** The mapped sequence holds the image of every element and nothing else. */
  lemma MapMembers<A, B>(f: A -> B, s: seq<A>)
    ensures forall x | x in s :: f(x) in MapSeq(f, s)
    ensures forall y | y in MapSeq(f, s) :: exists x | x in s :: y == f(x)
  {
    var r := MapSeq(f, s);
    forall x | x in s ensures f(x) in r {
      var i :| 0 <= i < |s| && s[i] == x;
      assert r[i] == f(x);
    }
    forall y | y in r ensures exists x | x in s :: y == f(x) {
      var i :| 0 <= i < |r| && r[i] == y;
      assert s[i] in s;
    }
  }

  /** Two sequences that agree position by position on the sort key and on an identifying
      projection. */
  predicate Aligned<B, C>(bs: seq<B>, cs: seq<C>, kb: B -> Key, kc: C -> Key, pb: B -> int, pc: C -> int)
  {
    |bs| == |cs| && forall i | 0 <= i < |bs| :: kb(bs[i]) == kc(cs[i]) && pb(bs[i]) == pc(cs[i])
  }

  lemma AlignedTail<B, C>(bs: seq<B>, cs: seq<C>, kb: B -> Key, kc: C -> Key, pb: B -> int, pc: C -> int)
    requires Aligned(bs, cs, kb, kc, pb, pc) && bs != []
    ensures Aligned(bs[1..], cs[1..], kb, kc, pb, pc)
  {
    forall i | 0 <= i < |bs| - 1 ensures kb(bs[1..][i]) == kc(cs[1..][i]) && pb(bs[1..][i]) == pc(cs[1..][i]) {
      assert bs[1..][i] == bs[i + 1] && cs[1..][i] == cs[i + 1];
    }
  }

  lemma AlignedCons<B, C>(b: B, c: C, bs: seq<B>, cs: seq<C>, kb: B -> Key, kc: C -> Key, pb: B -> int, pc: C -> int)
    requires Aligned(bs, cs, kb, kc, pb, pc) && kb(b) == kc(c) && pb(b) == pc(c)
    ensures Aligned([b] + bs, [c] + cs, kb, kc, pb, pc)
  {
    forall i | 0 <= i < |bs| + 1 ensures kb(([b] + bs)[i]) == kc(([c] + cs)[i]) && pb(([b] + bs)[i]) == pc(([c] + cs)[i]) {
      if i > 0 {
        assert ([b] + bs)[i] == bs[i - 1] && ([c] + cs)[i] == cs[i - 1];
      }
    }
  }

  lemma SortedTail<T>(s: seq<T>, key: T -> Key)
    requires SortedDesc(s, key) && s != []
    ensures SortedDesc(s[1..], key)
  {
    forall i, j | 0 <= i < j < |s| - 1 ensures NotBelow(key(s[1..][i]), key(s[1..][j])) {
      assert s[1..][i] == s[i + 1] && s[1..][j] == s[j + 1];
    }
  }

  lemma {:induction false} InsertAligned<B, C>(b: B, c: C, bs: seq<B>, cs: seq<C>, kb: B -> Key, kc: C -> Key, pb: B -> int, pc: C -> int)
    requires SortedDesc(bs, kb) && SortedDesc(cs, kc)
    requires Aligned(bs, cs, kb, kc, pb, pc) && kb(b) == kc(c) && pb(b) == pc(c)
    ensures Aligned(Insert(b, bs, kb), Insert(c, cs, kc), kb, kc, pb, pc)
  {
    if bs != [] && !NotBelow(kb(b), kb(bs[0])) {
      AlignedTail(bs, cs, kb, kc, pb, pc);
      SortedTail(bs, kb);
      SortedTail(cs, kc);
      InsertAligned(b, c, bs[1..], cs[1..], kb, kc, pb, pc);
      AlignedCons(bs[0], cs[0], Insert(b, bs[1..], kb), Insert(c, cs[1..], kc), kb, kc, pb, pc);
    } else {
      AlignedCons(b, c, bs, cs, kb, kc, pb, pc);
    }
  }

  /** Sorting two aligned sequences keeps them aligned: equal keys move equal entries to
      equal places. */
  lemma {:induction false} SortAligned<B, C>(bs: seq<B>, cs: seq<C>, kb: B -> Key, kc: C -> Key, pb: B -> int, pc: C -> int)
    requires Aligned(bs, cs, kb, kc, pb, pc)
    ensures Aligned(Sort(bs, kb), Sort(cs, kc), kb, kc, pb, pc)
  {
    if bs != [] {
      AlignedTail(bs, cs, kb, kc, pb, pc);
      SortAligned(bs[1..], cs[1..], kb, kc, pb, pc);
      InsertAligned(bs[0], cs[0], Sort(bs[1..], kb), Sort(cs[1..], kc), kb, kc, pb, pc);
    }
  }
  /** The multiset of a projection of the elements: what a reordering must keep. */
  function Bag<T>(s: seq<T>, f: T -> int): multiset<int>
  {
    if s == [] then multiset{} else multiset{f(s[0])} + Bag(s[1..], f)
  }

  lemma BagCons<T>(x: T, s: seq<T>, f: T -> int)
    ensures Bag([x] + s, f) == multiset{f(x)} + Bag(s, f)
  {
    assert ([x] + s)[0] == x && ([x] + s)[1..] == s;
  }

  lemma {:induction false} InsertBag<T>(x: T, s: seq<T>, key: T -> Key, f: T -> int)
    requires SortedDesc(s, key)
    ensures Bag(Insert(x, s, key), f) == Bag(s, f) + multiset{f(x)}
  {
    if s == [] {
      BagCons(x, s, f);
    } else if NotBelow(key(x), key(s[0])) {
      BagCons(x, s, f);
    } else {
      SortedTail(s, key);
      InsertBag(x, s[1..], key, f);
      BagCons(s[0], Insert(x, s[1..], key), f);
      BagCons(s[0], s[1..], f);
      assert [s[0]] + s[1..] == s;
    }
  }

  /** Sorting keeps the multiset of every projection, for instance of the ids. */
  lemma {:induction false} SortBag<T>(s: seq<T>, key: T -> Key, f: T -> int)
    ensures Bag(Sort(s, key), f) == Bag(s, f)
  {
    if s != [] {
      var rest := Sort(s[1..], key);
      SortBag(s[1..], key, f);
      InsertBag(s[0], rest, key, f);
      SortUnfold(s, key);
    }
  }

  lemma SortUnfold<T>(s: seq<T>, key: T -> Key)
    requires s != []
    ensures Sort(s, key) == Insert(s[0], Sort(s[1..], key), key)
  {
  }
}
