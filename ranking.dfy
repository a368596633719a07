/** Frequency ranking as the recap computes it: count the keys of a history
    into an object (`reduce` with `acc[k] = (acc[k] || 0) + 1`), list the
    object's entries (`Object.entries`, which gives non-integer string keys in
    insertion order, that is, in order of first occurrence), and sort them by
    descending count with the stable `Array.prototype.sort`. */
module Ranking {

  /** The number of occurrences of `k` in `s`. */
  function Count<K(==)>(s: seq<K>, k: K): (n: nat)
    ensures n <= |s|
    ensures n > 0 <==> k in s
  {
    if s == [] then 0
    else
      assert s == s[..|s| - 1] + [s[|s| - 1]];
      Count(s[..|s| - 1], k) + (if s[|s| - 1] == k then 1 else 0)
  }

  /** Appending one key adds one to its own count and nothing to the others. */
  lemma CountAppend<K>(s: seq<K>, x: K, k: K)
    ensures Count(s + [x], k) == Count(s, k) + (if x == k then 1 else 0)
  {
    assert (s + [x])[..|s|] == s;
  }

  /** The index of the first occurrence of `k` in `s`. */
  function FirstIndex<K(==)>(s: seq<K>, k: K): (i: nat)
    requires k in s
    ensures i < |s| && s[i] == k
    ensures forall j :: 0 <= j < i ==> s[j] != k
  {
    var p := s[..|s| - 1];
    if k in p then FirstIndex(p, k) else |s| - 1
  }

  /** The distinct keys of `s` in order of first occurrence: the key order of
      an object built by inserting the keys of `s` one after the other. */
  function FirstSeen<K(==)>(s: seq<K>): (r: seq<K>)
    ensures forall i :: 0 <= i < |r| ==> r[i] in s
    ensures forall i :: 0 <= i < |s| ==> s[i] in r
    ensures forall i, j :: 0 <= i < j < |r| ==> r[i] != r[j]
  {
    if s == [] then []
    else
      var p, x := s[..|s| - 1], s[|s| - 1];
      assert s == p + [x];
      var r := FirstSeen(p);
      if x in r then r else r + [x]
  }

  /** Seeing one more key lists it at the end unless it was seen before. */
  lemma FirstSeenAppend<K>(p: seq<K>, x: K)
    ensures FirstSeen(p + [x]) == if x in p then FirstSeen(p) else FirstSeen(p) + [x]
  {
    assert (p + [x])[..|p|] == p;
  }

  /** A key already in `p` keeps its first index when `p` grows. */
  lemma FirstIndexAppend<K>(p: seq<K>, x: K, k: K)
    requires k in p
    ensures FirstIndex(p + [x], k) == FirstIndex(p, k)
  {
    assert (p + [x])[..|p|] == p;
  }

  /** Keys are listed in the order of their first occurrences in `s`. */
  lemma {:induction false} FirstSeenOrdered<K>(s: seq<K>, i: nat, j: nat)
    requires i < j < |FirstSeen(s)|
    ensures FirstIndex(s, FirstSeen(s)[i]) < FirstIndex(s, FirstSeen(s)[j])
  {
    var p, x := s[..|s| - 1], s[|s| - 1];
    assert s == p + [x];
    var r := FirstSeen(p);
    assert r[i] in p;
    FirstIndexAppend(p, x, r[i]);
    if j < |r| {
      FirstSeenOrdered(p, i, j);
      FirstIndexAppend(p, x, r[j]);
    } else {
      assert FirstSeen(s)[j] == x && x !in p;
    }
  }

  /** One entry of the tally object: a key with its count. */
  datatype Entry<K> = Entry(key: K, count: nat)

  /** The entries of the tally of `s`, keys listed as in `order`: each key
      with a count that is positive exactly when the key occurs in `s`. */
  function Tallied<K(==)>(order: seq<K>, s: seq<K>): (r: seq<Entry<K>>)
    ensures |r| == |order|
    ensures forall i :: 0 <= i < |r| ==>
              r[i].key == order[i] && r[i].count <= |s| && (r[i].count > 0 <==> order[i] in s)
  {
    seq(|order|, i requires 0 <= i < |order| => Entry(order[i], Count(s, order[i])))
  }

  /** Counts never increase from left to right. */
  predicate Descending<K>(es: seq<Entry<K>>)
  {
    forall i, j :: 0 <= i < j < |es| ==> es[i].count >= es[j].count
  }

  /** Places `x` after every entry whose count is at least its own. */
  function Insert<K>(x: Entry<K>, es: seq<Entry<K>>): (r: seq<Entry<K>>)
    ensures |r| == |es| + 1
  {
    if es == [] || es[0].count < x.count then [x] + es
    else [es[0]] + Insert(x, es[1..])
  }

  /** The stable sort by descending count (`sort(([, a], [, b]) => b - a)`),
      written as an insertion sort: each entry in turn goes after all entries
      already placed whose count is at least its own. */
  function SortByCount<K>(es: seq<Entry<K>>): (r: seq<Entry<K>>)
    ensures |r| == |es|
  {
    if es == [] then [] else Insert(es[|es| - 1], SortByCount(es[..|es| - 1]))
  }

  /** Inserting adds `x` and keeps every other entry. */
  lemma {:induction false} InsertPermutes<K>(x: Entry<K>, es: seq<Entry<K>>)
    ensures multiset(Insert(x, es)) == multiset(es) + multiset{x}
  {
    if es != [] && es[0].count >= x.count {
      InsertPermutes(x, es[1..]);
      assert es == [es[0]] + es[1..];
    }
  }

  /** The sort returns a permutation of its input. */
  lemma {:induction false} SortByCountPermutes<K>(es: seq<Entry<K>>)
    ensures multiset(SortByCount(es)) == multiset(es)
  {
    if es != [] {
      var p := es[..|es| - 1];
      SortByCountPermutes(p);
      InsertPermutes(es[|es| - 1], SortByCount(p));
      assert es == p + [es[|es| - 1]];
    }
  }

  /** No count in `es` exceeds `b`. */
  predicate AtMost<K>(es: seq<Entry<K>>, b: nat)
  {
    forall i :: 0 <= i < |es| ==> es[i].count <= b
  }

  /** Inserting an entry whose count is at most `b` keeps every count at most `b`. */
  lemma {:induction false} InsertAtMost<K>(x: Entry<K>, es: seq<Entry<K>>, b: nat)
    requires AtMost(es, b) && x.count <= b
    ensures AtMost(Insert(x, es), b)
  {
    if es != [] && es[0].count >= x.count {
      InsertAtMost(x, es[1..], b);
    }
  }

  /** Inserting into a descending list keeps it descending. */
  lemma {:induction false} InsertDescending<K>(x: Entry<K>, es: seq<Entry<K>>)
    requires Descending(es)
    ensures Descending(Insert(x, es))
  {
    if es != [] && es[0].count >= x.count {
      var tail := es[1..];
      InsertDescending(x, tail);
      InsertAtMost(x, tail, es[0].count);
      var rest := Insert(x, tail);
      var r := Insert(x, es);
      assert r == [es[0]] + rest;
      forall i, j | 0 <= i < j < |r| ensures r[i].count >= r[j].count {
        assert r[j] == rest[j - 1];
        if i > 0 {
          assert r[i] == rest[i - 1];
        }
      }
    }
  }

  /** The sort's output is in descending order of count. */
  lemma {:induction false} SortByCountDescending<K>(es: seq<Entry<K>>)
    ensures Descending(SortByCount(es))
  {
    if es != [] {
      SortByCountDescending(es[..|es| - 1]);
      InsertDescending(es[|es| - 1], SortByCount(es[..|es| - 1]));
    }
  }

  /** The position of the first entry with the largest count. */
  function FirstMax<K>(es: seq<Entry<K>>): (t: nat)
    requires |es| > 0
    ensures t < |es|
    ensures forall j :: 0 <= j < |es| ==> es[j].count <= es[t].count
    ensures forall j :: 0 <= j < t ==> es[j].count < es[t].count
  {
    if |es| == 1 then 0
    else
      var t := FirstMax(es[..|es| - 1]);
      if es[t].count < es[|es| - 1].count then |es| - 1 else t
  }

  /** `es` without its entry at position `t`. */
  function Without<K>(es: seq<Entry<K>>, t: nat): (r: seq<Entry<K>>)
    requires t < |es|
    ensures |r| == |es| - 1
  {
    seq(|es| - 1, i requires 0 <= i < |es| - 1 => if i < t then es[i] else es[i + 1])
  }

  /** The entries after the removed one move one place to the front. */
  lemma WithoutAt<K>(es: seq<Entry<K>>, t: nat, i: nat)
    requires t < |es| && i < |es| - 1
    ensures Without(es, t)[i] == if i < t then es[i] else es[i + 1]
  {
  }

  /** Sorting one more entry inserts it into the sorted rest. */
  lemma SortAppend<K>(w: seq<Entry<K>>, x: Entry<K>)
    ensures SortByCount(w + [x]) == Insert(x, SortByCount(w))
  {
    assert (w + [x])[..|w|] == w;
  }

  /** The first maximum after appending one entry. */
  lemma FirstMaxAppend<K>(p: seq<Entry<K>>, x: Entry<K>)
    requires |p| > 0
    ensures FirstMax(p + [x]) == if p[FirstMax(p)].count < x.count then |p| else FirstMax(p)
  {
    assert (p + [x])[..|p|] == p;
  }

  /** Removing an entry before the appended one commutes with appending. */
  lemma WithoutAppend<K>(p: seq<Entry<K>>, x: Entry<K>, t: nat)
    requires t <= |p|
    ensures Without(p + [x], t) == if t == |p| then p else Without(p, t) + [x]
  {

  }

  /** The stable descending sort puts the first maximal entry in front and
      then sorts the rest the same way: ties keep their input order. */
  lemma {:induction false} SortSelectsFirstMax<K>(es: seq<Entry<K>>)
    requires |es| > 0
    ensures SortByCount(es) == [es[FirstMax(es)]] + SortByCount(Without(es, FirstMax(es)))
  {
    var n := |es|;
    var p, x := es[..n - 1], es[n - 1];
    assert es == p + [x];
    if n == 1 {
      assert Without(es, 0) == [];
    } else {
      SortSelectsFirstMax(p);
      var t := FirstMax(p);
      var sw := SortByCount(Without(p, t));
      SortAppend(p, x);
      FirstMaxAppend(p, x);
      if p[t].count < x.count {
        WithoutAppend(p, x, n - 1);
      } else {
        WithoutAppend(p, x, t);
        assert ([p[t]] + sw)[1..] == sw;
        SortAppend(Without(p, t), x);
      }
    }
  }

  /** The keys of `s` ranked by frequency, ties in order of first occurrence. */
  function Ranking<K(==)>(s: seq<K>): (r: seq<K>)
    ensures |r| == |FirstSeen(s)|
  {
    var sorted := SortByCount(Tallied(FirstSeen(s), s));
    seq(|sorted|, i requires 0 <= i < |sorted| => sorted[i].key)
  }

  /** A sequence without repetitions holds each value at most once. */
  lemma {:induction false} DistinctAtMostOnce<T>(xs: seq<T>, x: T)
    requires forall i, j :: 0 <= i < j < |xs| ==> xs[i] != xs[j]
    ensures multiset(xs)[x] <= 1
  {
    if xs != [] {
      var p := xs[..|xs| - 1];
      assert xs == p + [xs[|xs| - 1]];
      DistinctAtMostOnce(p, x);
      if x == xs[|xs| - 1] {
        assert x !in p;
      }
    }
  }

  /** A value at two positions is held at least twice. */
  lemma RepeatedTwice<T>(xs: seq<T>, i: nat, j: nat)
    requires i < j < |xs| && xs[i] == xs[j]
    ensures multiset(xs)[xs[i]] >= 2
  {
    assert xs == xs[..j] + xs[j..];
    assert xs[i] in xs[..j];
    assert xs[j] in xs[j..];
  }

  /** A key is ranked exactly when it occurs in `s`. */
  lemma RankedIffPresent<K>(s: seq<K>, k: K)
    ensures k in Ranking(s) <==> k in s
  {
    var order := FirstSeen(s);
    var es := Tallied(order, s);
    var sorted := SortByCount(es);
    SortByCountPermutes(es);
    var r := Ranking(s);
    if k in r {
      var i :| 0 <= i < |r| && r[i] == k;
      assert sorted[i] in multiset(es);
      var a :| 0 <= a < |es| && es[a] == sorted[i];
      assert order[a] == k;
    }
    if k in s {
      var a :| 0 <= a < |order| && order[a] == k;
      assert es[a] in multiset(sorted);
      var i :| 0 <= i < |sorted| && sorted[i] == es[a];
      assert r[i] == k;
    }
  }

  /** No key is ranked at two places. */
  lemma RankedOnce<K>(s: seq<K>, i: nat, j: nat)
    requires i < j < |Ranking(s)|
    ensures Ranking(s)[i] != Ranking(s)[j]
  {
    var order := FirstSeen(s);
    var es := Tallied(order, s);
    var sorted := SortByCount(es);
    if Ranking(s)[i] == Ranking(s)[j] {
      SortByCountPermutes(es);
      assert sorted[i] in multiset(es) && sorted[j] in multiset(es);
      var a :| 0 <= a < |es| && es[a] == sorted[i];
      var b :| 0 <= b < |es| && es[b] == sorted[j];
      assert order[a] == order[b];
      RepeatedTwice(sorted, i, j);
      DistinctAtMostOnce(es, sorted[i]);
      assert false;
    }
  }

  /** The ranking lists exactly the keys of `s`, each of them once. */
  lemma RankingListsKeysOnce<K>(s: seq<K>)
    ensures forall k :: k in Ranking(s) <==> k in s
    ensures forall i, j :: 0 <= i < j < |Ranking(s)| ==> Ranking(s)[i] != Ranking(s)[j]
  {
    forall k ensures k in Ranking(s) <==> k in s {
      RankedIffPresent(s, k);
    }
    forall i, j | 0 <= i < j < |Ranking(s)| ensures Ranking(s)[i] != Ranking(s)[j] {
      RankedOnce(s, i, j);
    }
  }

  /** A non-empty history of one key lists that key alone. */
  lemma {:induction false} FirstSeenOfOneKey<K>(s: seq<K>, x: K)
    requires s != [] && forall i :: 0 <= i < |s| ==> s[i] == x
    ensures FirstSeen(s) == [x]
  {
    var p := s[..|s| - 1];
    assert s == p + [x];
    FirstSeenAppend(p, x);
    if p != [] {
      FirstSeenOfOneKey(p, x);
    } else {
      assert FirstSeen(p) == [];
    }
  }

  /** The front key of the ranking occurs most often, and among the keys that
      occur as often it is the one that occurs first. */
  lemma RankingHead<K>(s: seq<K>)
    requires s != []
    ensures |Ranking(s)| > 0
    ensures Ranking(s)[0] in s
    ensures forall c :: Count(s, c) <= Count(s, Ranking(s)[0])
    ensures forall c :: c in s && c != Ranking(s)[0] && Count(s, c) == Count(s, Ranking(s)[0]) ==>
              FirstIndex(s, Ranking(s)[0]) < FirstIndex(s, c)
  {
    var order := FirstSeen(s);
    var es := Tallied(order, s);
    assert s[0] in order;
    var t := FirstMax(es);
    SortSelectsFirstMax(es);
    var top := order[t];
    assert Ranking(s)[0] == top;
    forall c ensures Count(s, c) <= Count(s, top) {
      if c in s {
        var j :| 0 <= j < |order| && order[j] == c;
        assert es[j].count == Count(s, c);
      }
    }
    forall c | c in s && c != top && Count(s, c) == Count(s, top)
      ensures FirstIndex(s, top) < FirstIndex(s, c)
    {
      var j :| 0 <= j < |order| && order[j] == c;
      assert es[j].count == Count(s, c) && es[t].count == Count(s, top);
      assert j != t;
      assert !(j < t);
      FirstSeenOrdered(s, t, j);
    }
  }

  /** The position of the entry that the sort places second. */
  function SecondMax<K>(es: seq<Entry<K>>): nat
    requires |es| >= 2
  {
    var t := FirstMax(es);
    var u := FirstMax(Without(es, t));
    if u < t then u else u + 1
  }

  /** A maximum of `Without(es, t)` at `u`, first among its ties, is one of
      `es` itself once position `t` is set aside. */
  lemma ShiftedMax<K>(es: seq<Entry<K>>, t: nat, u: nat)
    requires t < |es| && u < |es| - 1
    requires forall i :: 0 <= i < |es| - 1 ==> Without(es, t)[i].count <= Without(es, t)[u].count
    requires forall i :: 0 <= i < u ==> Without(es, t)[i].count < Without(es, t)[u].count
    ensures var v := if u < t then u else u + 1;
            && es[v] == Without(es, t)[u]
            && (forall j :: 0 <= j < |es| && j != t ==> es[j].count <= es[v].count)
            && (forall j :: 0 <= j < v && j != t ==> es[j].count < es[v].count)
  {
    var w := Without(es, t);
    var v := if u < t then u else u + 1;
    WithoutAt(es, t, u);
    forall j | 0 <= j < |es| && j != t
      ensures es[j].count <= es[v].count
      ensures j < v ==> es[j].count < es[v].count
    {
      var j' := if j < t then j else j - 1;
      WithoutAt(es, t, j');
    }
  }

  /** The entry placed second has the largest count among all but the first
      maximum, and is the first such entry. */
  lemma SecondMaxIsRunnerUp<K>(es: seq<Entry<K>>)
    requires |es| >= 2
    ensures SecondMax(es) < |es| && SecondMax(es) != FirstMax(es)
    ensures forall j :: 0 <= j < |es| && j != FirstMax(es) ==> es[j].count <= es[SecondMax(es)].count
    ensures forall j :: 0 <= j < SecondMax(es) && j != FirstMax(es) ==> es[j].count < es[SecondMax(es)].count
  {
    var t := FirstMax(es);
    var u := FirstMax(Without(es, t));
    ShiftedMax(es, t, u);
  }

  /** The sort places the entry at `SecondMax` second. */
  lemma SortSecond<K>(es: seq<Entry<K>>)
    requires |es| >= 2
    ensures SortByCount(es)[1] == es[SecondMax(es)]
  {
    var t := FirstMax(es);
    var w := Without(es, t);
    var u := FirstMax(w);
    SortSelectsFirstMax(es);
    SortSelectsFirstMax(w);
    assert SortByCount(es)[1] == SortByCount(w)[0];
    assert SortByCount(w)[0] == w[u];
    WithoutAt(es, t, u);
    assert SecondMax(es) == if u < t then u else u + 1;
  }

  /** The second key of the ranking occurs most often among the keys other
      than the front one, and wins its ties by first occurrence. */
  lemma RankingSecond<K>(s: seq<K>)
    requires |FirstSeen(s)| >= 2
    ensures |Ranking(s)| >= 2
    ensures Ranking(s)[1] in s && Ranking(s)[1] != Ranking(s)[0]
    ensures forall c :: c != Ranking(s)[0] ==> Count(s, c) <= Count(s, Ranking(s)[1])
    ensures forall c ::
              c in s && c != Ranking(s)[0] && c != Ranking(s)[1] && Count(s, c) == Count(s, Ranking(s)[1]) ==>
              FirstIndex(s, Ranking(s)[1]) < FirstIndex(s, c)
  {
    var order := FirstSeen(s);
    var es := Tallied(order, s);
    var t := FirstMax(es);
    SortSelectsFirstMax(es);
    SortSecond(es);
    SecondMaxIsRunnerUp(es);
    var v := SecondMax(es);
    var top, second := order[t], order[v];
    assert Ranking(s)[0] == top;
    assert Ranking(s)[1] == second;
    forall c | c != top ensures Count(s, c) <= Count(s, second) {
      if c in s {
        var j :| 0 <= j < |order| && order[j] == c;
        assert es[j].count == Count(s, c) && es[v].count == Count(s, second);
      }
    }
    forall c | c in s && c != top && c != second && Count(s, c) == Count(s, second)
      ensures FirstIndex(s, second) < FirstIndex(s, c)
    {
      var j :| 0 <= j < |order| && order[j] == c;
      assert j != t && j != v;
      assert es[j].count == Count(s, c) && es[v].count == Count(s, second);
      assert !(j < v);
      FirstSeenOrdered(s, v, j);
    }
  }

  /** The sum of the counts of `es`. */
  function TotalCount<K>(es: seq<Entry<K>>): nat
  {
    if es == [] then 0 else TotalCount(es[..|es| - 1]) + es[|es| - 1].count
  }

  /** Listing one more key adds its count to the total. */
  lemma TotalCountSnoc<K>(m: seq<K>, y: K, s: seq<K>)
    ensures TotalCount(Tallied(m + [y], s)) == TotalCount(Tallied(m, s)) + Count(s, y)
  {
    var t := Tallied(m + [y], s);
    assert t[..|m|] == Tallied(m, s);
  }

  /** Counting one more key `x` adds one to the total over a key list exactly
      when the list holds `x`. */
  lemma {:induction false} TotalCountStep<K>(order: seq<K>, s: seq<K>, x: K)
    requires forall i, j :: 0 <= i < j < |order| ==> order[i] != order[j]
    ensures TotalCount(Tallied(order, s + [x])) ==
            TotalCount(Tallied(order, s)) + (if x in order then 1 else 0)
  {
    if order != [] {
      var m, y := order[..|order| - 1], order[|order| - 1];
      assert order == m + [y];
      assert x in order <==> x in m || x == y;
      assert x == y ==> x !in m;
      TotalCountStep(m, s, x);
      TotalCountSnoc(m, y, s + [x]);
      TotalCountSnoc(m, y, s);
      CountAppend(s, x, y);
    }
  }

  /** The counts of the tally add up to the number of keys counted. */
  lemma {:induction false} CountsSumToLength<K>(s: seq<K>)
    ensures TotalCount(Tallied(FirstSeen(s), s)) == |s|
  {
    if s != [] {
      var p, x := s[..|s| - 1], s[|s| - 1];
      assert s == p + [x];
      CountsSumToLength(p);
      var order := FirstSeen(p);
      TotalCountStep(order, p, x);
      if x !in order {
        var o' := order + [x];
        assert Tallied(o', s)[..|order|] == Tallied(order, s);
        CountAppend(p, x, x);
      }
    }
  }

  /** The tally object of `s` as a map: each key of `s` to its count. */
  ghost function Counts<K(!new)>(s: seq<K>): (m: map<K, nat>)
    ensures forall k :: k in m <==> k in s
  {
    map k | k in s :: Count(s, k)
  }

  /** Counting one more key `k` adds one to its entry, starting from 0 when
      it was not there: `acc[k] = (acc[k] || 0) + 1`. */
  lemma CountsAppend<K(!new)>(done: seq<K>, k: K)
    ensures Counts(done + [k]) == Counts(done)[k := (if k in Counts(done) then Counts(done)[k] else 0) + 1]
  {
    var m := Counts(done);
    var m' := m[k := (if k in m then m[k] else 0) + 1];
    var after := Counts(done + [k]);
    assert after.Keys == m'.Keys by {
      forall c ensures c in after <==> c in m' {
        assert c in done + [k] <==> c in done || c == k;
      }
    }
    forall c | c in after ensures after[c] == m'[c] {
      CountAppend(done, k, c);
    }
  }

  /** Counts the keys of `keys` into a map, recording each key the first time it
      is seen, as the source's `reduce` over an object accumulator does. */
  method Tally<K(==,!new)>(keys: seq<K>) returns (order: seq<K>, counts: map<K, nat>)
    ensures order == FirstSeen(keys)
    ensures forall k :: k in counts <==> k in keys
    ensures forall k :: k in counts ==> counts[k] == Count(keys, k)
  {
    order, counts := [], map[];
    for i := 0 to |keys|
      invariant order == FirstSeen(keys[..i])
      invariant counts == Counts(keys[..i])
    {
      var k := keys[i];
      ghost var done := keys[..i];
      assert keys[..i + 1] == done + [k];
      FirstSeenAppend(done, k);
      CountsAppend(done, k);
      if k !in counts {
        order := order + [k];
      }
      counts := counts[k := (if k in counts then counts[k] else 0) + 1];
    }
    assert keys[..|keys|] == keys;
  }

  /** Ranks the keys of `keys`: tally them, list the entries, sort by
      descending count and keep the keys. */
  method RankKeys<K(==,!new)>(keys: seq<K>) returns (ranked: seq<K>)
    ensures ranked == Ranking(keys)
  {
    var order, counts := Tally(keys);
    var entries := seq(|order|, i requires 0 <= i < |order| && order[i] in counts =>
                         Entry(order[i], counts[order[i]]));
    assert entries == Tallied(order, keys);
    var sorted := SortByCount(entries);
    ranked := seq(|sorted|, i requires 0 <= i < |sorted| => sorted[i].key);
  }
}
