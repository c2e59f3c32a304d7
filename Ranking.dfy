/** Selection order: `sorted(zip(scores, population), key=lambda x: x[0],
    reverse=True)`.  Python's sort is stable also when reversed, so
    individuals of equal fitness keep their relative order.  Modelled as a
    stable insertion sort on (score, payload) pairs. */
module Ranking {

  /** Non-increasing in the score. */
  predicate Descending<T>(r: seq<(real, T)>)
  {
    forall i, j :: 0 <= i < j < |r| ==> r[i].0 >= r[j].0
  }

  /** The pairs of `s` scored `k`, in their order in `s`. */
  function WithScore<T>(s: seq<(real, T)>, k: real): seq<(real, T)>
  {
    if s == [] then []
    else (if s[0].0 == k then [s[0]] else []) + WithScore(s[1..], k)
  }

  /** Put `x` in front of the first pair scored no higher. */
  function Insert<T>(x: (real, T), r: seq<(real, T)>): (t: seq<(real, T)>)
    ensures |t| == |r| + 1
  {
    if r == [] || r[0].0 <= x.0 then [x] + r
    else [r[0]] + Insert(x, r[1..])
  }

  /** The stable sort by score, highest first. */
  function SortDescending<T>(s: seq<(real, T)>): (r: seq<(real, T)>)
    ensures |r| == |s|
  {
    if s == [] then [] else Insert(s[0], SortDescending(s[1..]))
  }

  function Zip<T>(scores: seq<real>, items: seq<T>): (r: seq<(real, T)>)
    requires |scores| == |items|
    ensures |r| == |items|
    ensures forall i :: 0 <= i < |r| ==> r[i] == (scores[i], items[i])
  {
    seq(|items|, i requires 0 <= i < |items| => (scores[i], items[i]))
  }

  /** `[ind for _, ind in pairs]`. */
  function Payloads<T>(pairs: seq<(real, T)>): (r: seq<T>)
    ensures |r| == |pairs|
    ensures forall i :: 0 <= i < |r| ==> r[i] == pairs[i].1
  {
    seq(|pairs|, i requires 0 <= i < |pairs| => pairs[i].1)
  }

  /** Inserting adds exactly `x`. */
  lemma {:induction false} InsertPermutes<T>(x: (real, T), r: seq<(real, T)>)
    ensures multiset(Insert(x, r)) == multiset(r) + multiset{x}
  {
    if r != [] && r[0].0 > x.0 {
      InsertPermutes(x, r[1..]);
      assert r == [r[0]] + r[1..];
    }
  }

  /** Inserting into a descending sequence keeps it descending. */
  lemma {:induction false} InsertDescending<T>(x: (real, T), r: seq<(real, T)>)
    requires Descending(r)
    ensures Descending(Insert(x, r))
  {
    if r == [] || r[0].0 <= x.0 {
      var t := [x] + r;
      forall i, j | 0 <= i < j < |t| ensures t[i].0 >= t[j].0 {
        if i > 0 {
          assert t[i] == r[i - 1] && t[j] == r[j - 1];
        }
      }
    } else {
      var rest := Insert(x, r[1..]);
      InsertDescending(x, r[1..]);
      InsertPermutes(x, r[1..]);
      var t := [r[0]] + rest;
      forall i, j | 0 <= i < j < |t| ensures t[i].0 >= t[j].0 {
        if i == 0 {
          var y := rest[j - 1];
          assert y in multiset(rest);
          if y != x {
            assert y in multiset(r[1..]);
            var m :| 0 <= m < |r[1..]| && r[1..][m] == y;
            assert r[m + 1] == y;
          }
        } else {
          assert t[i] == rest[i - 1] && t[j] == rest[j - 1];
        }
      }
    }
  }

  /** `x` lands before every pair of its score already present. */
  lemma {:induction false} InsertStable<T>(x: (real, T), r: seq<(real, T)>, k: real)
    requires Descending(r)
    ensures WithScore(Insert(x, r), k) == (if x.0 == k then [x] else []) + WithScore(r, k)
  {
    if r == [] || r[0].0 <= x.0 {
      assert ([x] + r)[1..] == r;
    } else {
      assert Descending(r[1..]);
      InsertStable(x, r[1..], k);
      assert ([r[0]] + Insert(x, r[1..]))[1..] == Insert(x, r[1..]);
    }
  }

  /** The result is ordered by score, highest first, is a permutation of
      the input, and keeps the input order among pairs of equal score
      (stability): together these fix it uniquely. */
  lemma {:induction false} SortDescendingCorrect<T>(s: seq<(real, T)>)
    ensures Descending(SortDescending(s))
    ensures multiset(SortDescending(s)) == multiset(s)
    ensures forall k :: WithScore(SortDescending(s), k) == WithScore(s, k)
  {
    if s != [] {
      SortDescendingCorrect(s[1..]);
      InsertPermutes(s[0], SortDescending(s[1..]));
      InsertDescending(s[0], SortDescending(s[1..]));
      forall k ensures WithScore(SortDescending(s), k) == WithScore(s, k) {
        InsertStable(s[0], SortDescending(s[1..]), k);
      }
      assert s == [s[0]] + s[1..];
    }
  }

  /** The first pair of the sorted sequence is one of the input and has
      the highest score of all. */
  lemma SortedTop<T>(s: seq<(real, T)>)
    requires |s| > 0
    ensures SortDescending(s)[0] in s
    ensures forall i :: 0 <= i < |s| ==> SortDescending(s)[0].0 >= s[i].0
  {
    SortDescendingCorrect(s);
    var r := SortDescending(s);
    assert r[0] in multiset(s);
    forall i | 0 <= i < |s| ensures r[0].0 >= s[i].0 {
      assert s[i] in multiset(r);
      var m :| 0 <= m < |r| && r[m] == s[i];
    }
  }

  /** `s` with every payload replaced by its image under `m`. */
  function Relabel<A, B>(s: seq<(real, A)>, m: map<A, B>): (r: seq<(real, B)>)
    requires forall i :: 0 <= i < |s| ==> s[i].1 in m
    ensures |r| == |s|
    ensures forall i :: 0 <= i < |r| ==> r[i] == (s[i].0, m[s[i].1])
  {
    seq(|s|, i requires 0 <= i < |s| => (s[i].0, m[s[i].1]))
  }

  lemma {:induction false} InsertRelabel<A, B>(x: (real, A), r: seq<(real, A)>, m: map<A, B>)
    requires x.1 in m && forall i :: 0 <= i < |r| ==> r[i].1 in m
    ensures forall i :: 0 <= i < |Insert(x, r)| ==> Insert(x, r)[i].1 in m
    ensures Insert((x.0, m[x.1]), Relabel(r, m)) == Relabel(Insert(x, r), m)
  {
    if r != [] && r[0].0 > x.0 {
      InsertRelabel(x, r[1..], m);
      assert Relabel(r, m)[1..] == Relabel(r[1..], m);
    }
  }

  /** The order the sort chooses depends on the scores alone: sorting and
      then relabelling the payloads is relabelling and then sorting. */
  lemma {:induction false} SortRelabel<A, B>(s: seq<(real, A)>, m: map<A, B>)
    requires forall i :: 0 <= i < |s| ==> s[i].1 in m
    ensures forall i :: 0 <= i < |SortDescending(s)| ==> SortDescending(s)[i].1 in m
    ensures SortDescending(Relabel(s, m)) == Relabel(SortDescending(s), m)
  {
    if s != [] {
      SortRelabel(s[1..], m);
      assert Relabel(s, m)[1..] == Relabel(s[1..], m);
      InsertRelabel(s[0], SortDescending(s[1..]), m);
    }
  }

  lemma {:induction false} InsertPayloads<T>(x: (real, T), r: seq<(real, T)>)
    ensures multiset(Payloads(Insert(x, r))) == multiset(Payloads(r)) + multiset{x.1}
  {
    if r == [] || r[0].0 <= x.0 {
      assert Payloads([x] + r) == [x.1] + Payloads(r);
    } else {
      InsertPayloads(x, r[1..]);
      assert Payloads([r[0]] + Insert(x, r[1..])) == [r[0].1] + Payloads(Insert(x, r[1..]));
      assert Payloads(r) == [r[0].1] + Payloads(r[1..]);
    }
  }

  /** Sorting reorders the payloads: they form the same multiset. */
  lemma {:induction false} SortPayloads<T>(s: seq<(real, T)>)
    ensures multiset(Payloads(SortDescending(s))) == multiset(Payloads(s))
  {
    if s != [] {
      SortPayloads(s[1..]);
      InsertPayloads(s[0], SortDescending(s[1..]));
      assert Payloads(s) == [s[0].1] + Payloads(s[1..]);
    }
  }
}
