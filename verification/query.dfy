/** The parts of a database query the services rely on, stated over the rows of a table
    in row-id order: the first row that matches (`.first()`), the conversion of every
    row (`[convert(row) for row in query.all()]`), the rows that match
    (`.filter(...)`), a stable sort (`.order_by(...)`, ties kept in row-id order) and a
    row limit. */
module Query {
  import opened Wrappers

  /** The index of the first element that satisfies `p`. */
  function IndexOf<T>(s: seq<T>, p: T -> bool): (r: Option<nat>)
    ensures r.Some? ==> r.value < |s| && p(s[r.value])
    ensures r.Some? ==> forall i :: 0 <= i < r.value ==> !p(s[i])
    ensures r.None? <==> forall i :: 0 <= i < |s| ==> !p(s[i])
  {
    if s == [] then None
    else if p(s[0]) then Some(0)
    else match IndexOf(s[1..], p)
      case None => None
      case Some(i) => Some(i + 1)
  }

  /** A list comprehension `[f(x) for x in s]` whose element conversion may raise: the
      converted list, or the error of the first element whose conversion fails. */
  function MapAll<T, U, E>(s: seq<T>, f: T --> Result<U, E>): (r: Result<seq<U>, E>)
    requires forall i :: 0 <= i < |s| ==> f.requires(s[i])
    ensures r.Ok? <==> forall i :: 0 <= i < |s| ==> f(s[i]).Ok?
    ensures r.Ok? ==> |r.value| == |s| && forall i :: 0 <= i < |s| ==> f(s[i]) == Ok(r.value[i])
    ensures r.Err? ==> exists i :: 0 <= i < |s| && f(s[i]) == Err(r.error)
                                   && forall j :: 0 <= j < i ==> f(s[j]).Ok?
  {
    if s == [] then Ok([])
    else
      assert forall i :: 1 <= i < |s| ==> s[1..][i - 1] == s[i];
      match f(s[0])
      case Err(e) => Err(e)
      case Ok(x) =>
        match MapAll(s[1..], f)
        case Err(e) =>
          assert exists i :: 0 <= i < |s| && f(s[i]) == Err(e) && forall j :: 0 <= j < i ==> f(s[j]).Ok? by {
            var k :| 0 <= k < |s| - 1 && f(s[1..][k]) == Err(e) && forall j :: 0 <= j < k ==> f(s[1..][j]).Ok?;
            assert f(s[k + 1]) == Err(e) && forall j :: 0 <= j < k + 1 ==> f(s[j]).Ok?;
          }
          Err(e)
        case Ok(rest) =>
          assert forall i :: 1 <= i < |s| ==> ([x] + rest)[i] == rest[i - 1];
          Ok([x] + rest)
  }

  /** The elements that satisfy `p`, in their original order. */
  function Filter<T(!new)>(s: seq<T>, p: T -> bool): (r: seq<T>)
    ensures |r| <= |s|
    ensures forall x :: x in r <==> x in s && p(x)
  {
    if s == [] then []
    else if p(s[0]) then [s[0]] + Filter(s[1..], p)
    else Filter(s[1..], p)
  }

  /** `pos` strictly increases along `s`, as row ids do along a table. */
  predicate Increasing<T>(s: seq<T>, pos: T -> int)
  {
    forall i, j :: 0 <= i < j < |s| ==> pos(s[i]) < pos(s[j])
  }

  lemma {:induction false} FilterIncreasing<T(!new)>(s: seq<T>, p: T -> bool, pos: T -> int)
    requires Increasing(s, pos)
    ensures Increasing(Filter(s, p), pos)
  {
    if s != [] {
      FilterIncreasing(s[1..], p, pos);
      if p(s[0]) {
        var t := Filter(s[1..], p);
        forall k | 0 <= k < |t| ensures pos(s[0]) < pos(t[k]) {
          assert t[k] in s[1..];
        }
      }
    }
  }

  /** The position in `s` of the element at `j` once the element at `i` is gone. */
  function Kept(i: nat, j: nat): nat
  {
    if j < i then j else j + 1
  }

  /** `s` without its element at `i`, as a table looks after that row is deleted. */
  function Without<T>(s: seq<T>, i: nat): (r: seq<T>)
    requires i < |s|
    ensures |r| == |s| - 1
    ensures forall j :: 0 <= j < |r| ==> Kept(i, j) < |s| && r[j] == s[Kept(i, j)]
  {
    s[..i] + s[i + 1..]
  }

  lemma WithoutIncreasing<T>(s: seq<T>, i: nat, pos: T -> int)
    requires i < |s| && Increasing(s, pos)
    ensures Increasing(Without(s, i), pos)
  {
    var r := Without(s, i);
    forall j, k | 0 <= j < k < |r| ensures pos(r[j]) < pos(r[k]) {
      assert Kept(i, j) < Kept(i, k);
    }
  }

  // ---------------------------------------------------------------------------
  // Sorting
  // ---------------------------------------------------------------------------

  /** `le` orders every pair of elements and chains: a sort key with ties allowed. */
  ghost predicate TotalPreorder<T(!new)>(le: (T, T) -> bool)
  {
    (forall a, b :: le(a, b) || le(b, a))
    && (forall a, b, c :: le(a, b) && le(b, c) ==> le(a, c))
  }

  predicate SortedBy<T>(s: seq<T>, le: (T, T) -> bool)
  {
    forall i, j :: 0 <= i < j < |s| ==> le(s[i], s[j])
  }

  /** Elements that tie under `le` keep the order of `pos`. */
  predicate Stable<T>(s: seq<T>, le: (T, T) -> bool, pos: T -> int)
  {
    forall i, j :: 0 <= i < j < |s| && le(s[j], s[i]) ==> pos(s[i]) < pos(s[j])
  }

  /** Places `x` in front of the first element it does not come after. */
  function Insert<T>(x: T, s: seq<T>, le: (T, T) -> bool): (r: seq<T>)
    ensures multiset(r) == multiset(s) + multiset{x}
  {
    if s == [] || le(x, s[0]) then [x] + s
    else
      assert s == [s[0]] + s[1..];
      [s[0]] + Insert(x, s[1..], le)
  }

  /** The stable insertion sort that models an `ORDER BY`. */
  function Sort<T>(s: seq<T>, le: (T, T) -> bool): (r: seq<T>)
    ensures multiset(r) == multiset(s)
    ensures |r| == |s|
  {
    if s == [] then []
    else
      assert s == [s[0]] + s[1..];
      Insert(s[0], Sort(s[1..], le), le)
  }

  lemma {:induction false} InsertSorted<T(!new)>(x: T, s: seq<T>, le: (T, T) -> bool)
    requires TotalPreorder(le) && SortedBy(s, le)
    ensures SortedBy(Insert(x, s, le), le)
  {
    if s == [] || le(x, s[0]) {
    } else {
      InsertSorted(x, s[1..], le);
      var t := Insert(x, s[1..], le);
      forall k | 0 <= k < |t| ensures le(s[0], t[k]) {
        assert t[k] in multiset(t);
        if t[k] != x {
          assert t[k] in multiset(s[1..]);
          assert t[k] in s[1..];
        }
      }
    }
  }

  /** The sort's result is ordered by `le`. */
  lemma {:induction false} SortSorted<T(!new)>(s: seq<T>, le: (T, T) -> bool)
    requires TotalPreorder(le)
    ensures SortedBy(Sort(s, le), le)
  {
    if s != [] {
      SortSorted(s[1..], le);
      InsertSorted(s[0], Sort(s[1..], le), le);
    }
  }

  /** The sort keeps exactly the elements it was given. */
  lemma SortMembers<T>(s: seq<T>, le: (T, T) -> bool)
    ensures forall x :: x in Sort(s, le) <==> x in s
  {
    forall x ensures x in Sort(s, le) <==> x in s {
      assert x in Sort(s, le) <==> x in multiset(Sort(s, le));
      assert x in s <==> x in multiset(s);
    }
  }

  /** Sorting a sequence that is already in order changes nothing. */
  lemma {:induction false} SortOfSorted<T>(s: seq<T>, le: (T, T) -> bool)
    requires SortedBy(s, le)
    ensures Sort(s, le) == s
  {
    if s != [] {
      assert SortedBy(s[1..], le);
      SortOfSorted(s[1..], le);
      if |s| > 1 {
        assert le(s[0], s[1]);
      }
      assert [s[0]] + s[1..] == s;
    }
  }

  lemma {:induction false} InsertStable<T>(x: T, s: seq<T>, le: (T, T) -> bool, pos: T -> int)
    requires Stable(s, le, pos)
    requires forall y :: y in s ==> pos(x) < pos(y)
    ensures Stable(Insert(x, s, le), le, pos)
  {
    if s == [] || le(x, s[0]) {
      ConsStable(x, s, le, pos);
    } else {
      InsertStable(x, s[1..], le, pos);
      var t := Insert(x, s[1..], le);
      forall y | y in t && le(y, s[0]) ensures pos(s[0]) < pos(y) {
        InsertMember(x, s[1..], le, y);
        assert y != x;
        var k :| 0 <= k < |s[1..]| && s[1..][k] == y;
        assert s[k + 1] == y;
      }
      ConsStable(s[0], t, le, pos);
    }
  }

  /** `y` is an element of `Insert(x, s, le)` exactly when it is `x` or an element of `s`. */
  lemma InsertMember<T>(x: T, s: seq<T>, le: (T, T) -> bool, y: T)
    ensures y in Insert(x, s, le) <==> y == x || y in s
  {
    assert y in Insert(x, s, le) <==> y in multiset(Insert(x, s, le));
    assert y in s <==> y in multiset(s);
  }

  /** Putting `h` in front of a stable sequence keeps it stable when `h` comes earlier
      than every later element that ties with it. */
  lemma ConsStable<T>(h: T, t: seq<T>, le: (T, T) -> bool, pos: T -> int)
    requires Stable(t, le, pos)
    requires forall y :: y in t && le(y, h) ==> pos(h) < pos(y)
    ensures Stable([h] + t, le, pos)
  {
    var r := [h] + t;
    forall i, j | 0 <= i < j < |r| && le(r[j], r[i]) ensures pos(r[i]) < pos(r[j]) {
      assert r[j] == t[j - 1];
      if i > 0 {
        assert r[i] == t[i - 1];
      }
    }
  }

  /** The sort is stable: elements that tie keep their original relative order. */
  lemma {:induction false} SortStable<T>(s: seq<T>, le: (T, T) -> bool, pos: T -> int)
    requires Increasing(s, pos)
    ensures Stable(Sort(s, le), le, pos)
  {
    if s != [] {
      assert Increasing(s[1..], pos);
      SortStable(s[1..], le, pos);
      var t := Sort(s[1..], le);
      forall y | y in t ensures pos(s[0]) < pos(y) {
        assert y in multiset(t);
        assert y in multiset(s[1..]);
        assert y in s[1..];
      }
      InsertStable(s[0], t, le, pos);
    }
  }

  /** At most the first `n` elements. */
  function Take<T>(s: seq<T>, n: nat): (r: seq<T>)
    ensures |r| == if n < |s| then n else |s|
    ensures r <= s
  {
    if n < |s| then s[..n] else s
  }

  /** One more element of a prefix. */
  lemma PrefixGrows<T>(s: seq<T>, i: nat)
    requires i < |s|
    ensures s[..i + 1] == s[..i] + [s[i]]
  {
  }

  // ---------------------------------------------------------------------------
  // Counting
  // ---------------------------------------------------------------------------

  /** A tally: a dictionary from keys to counts, entries in the order their keys were
      first seen (the order a Python dict keeps). No key has two entries. */
  predicate DistinctKeys<K(==)>(t: seq<(K, nat)>)
  {
    forall i, j :: 0 <= i < j < |t| ==> t[i].0 != t[j].0
  }

  /** `t.get(k, 0)`. */
  function CountOf<K(==)>(t: seq<(K, nat)>, k: K): nat
  {
    if t == [] then 0 else if t[0].0 == k then t[0].1 else CountOf(t[1..], k)
  }

  /** The sum of all the counts. */
  function Total<K>(t: seq<(K, nat)>): nat
  {
    if t == [] then 0 else t[0].1 + Total(t[1..])
  }

  lemma {:induction false} CountAt<K>(t: seq<(K, nat)>, i: nat)
    requires DistinctKeys(t) && i < |t|
    ensures CountOf(t, t[i].0) == t[i].1
  {
    if i > 0 {
      assert t[0].0 != t[i].0;
      CountAt(t[1..], i - 1);
    }
  }

  lemma {:induction false} CountAbsent<K>(t: seq<(K, nat)>, k: K)
    requires forall i :: 0 <= i < |t| ==> t[i].0 != k
    ensures CountOf(t, k) == 0
  {
    if t != [] {
      CountAbsent(t[1..], k);
    }
  }

  lemma {:induction false} TotalAppend<K>(t: seq<(K, nat)>, e: (K, nat))
    ensures Total(t + [e]) == Total(t) + e.1
  {
    if t != [] {
      assert (t + [e])[1..] == t[1..] + [e];
      TotalAppend(t[1..], e);
    }
  }

  lemma {:induction false} TotalIncremented<K>(t: seq<(K, nat)>, i: nat)
    requires i < |t|
    ensures Total(t[i := (t[i].0, t[i].1 + 1)]) == Total(t) + 1
  {
    if i > 0 {
      assert t[i := (t[i].0, t[i].1 + 1)][1..] == t[1..][i - 1 := (t[i].0, t[i].1 + 1)];
      TotalIncremented(t[1..], i - 1);
    }
  }

  /** The count of one entry raised by one: that key's count grows and no other changes. */
  lemma IncrementedCounts<K>(t: seq<(K, nat)>, i: nat)
    requires DistinctKeys(t) && i < |t|
    ensures var r := t[i := (t[i].0, t[i].1 + 1)];
      DistinctKeys(r) && CountOf(r, t[i].0) == CountOf(t, t[i].0) + 1
      && forall j :: j != t[i].0 ==> CountOf(r, j) == CountOf(t, j)
  {
    var r := t[i := (t[i].0, t[i].1 + 1)];
    CountAt(t, i);
    CountAt(r, i);
    forall j | j != t[i].0 ensures CountOf(r, j) == CountOf(t, j) {
      if m :| 0 <= m < |t| && t[m].0 == j {
        CountAt(t, m);
        CountAt(r, m);
      } else {
        CountAbsent(t, j);
        CountAbsent(r, j);
      }
    }
  }

  /** A new key entered at the end with count one: no other count changes. */
  lemma AppendedCounts<K>(t: seq<(K, nat)>, k: K)
    requires DistinctKeys(t) && forall i :: 0 <= i < |t| ==> t[i].0 != k
    ensures var r := t + [(k, 1)];
      DistinctKeys(r) && CountOf(r, k) == CountOf(t, k) + 1
      && forall j :: j != k ==> CountOf(r, j) == CountOf(t, j)
  {
    var r := t + [(k, 1)];
    CountAbsent(t, k);
    CountAt(r, |t|);
    forall j | j != k ensures CountOf(r, j) == CountOf(t, j) {
      if m :| 0 <= m < |t| && t[m].0 == j {
        CountAt(t, m);
        CountAt(r, m);
      } else {
        CountAbsent(t, j);
        CountAbsent(r, j);
      }
    }
  }

  /** `t[k] = t.get(k, 0) + 1`: one more for `k`, no change for any other key, a key
      seen for the first time entered last. */
  function Bump<K(==,!new)>(t: seq<(K, nat)>, k: K): (r: seq<(K, nat)>)
    requires DistinctKeys(t)
    ensures DistinctKeys(r)
    ensures CountOf(r, k) == CountOf(t, k) + 1
    ensures forall j :: j != k ==> CountOf(r, j) == CountOf(t, j)
    ensures Total(r) == Total(t) + 1
  {
    match IndexOf(t, (e: (K, nat)) => e.0 == k)
    case Some(i) =>
      IncrementedCounts(t, i);
      TotalIncremented(t, i);
      t[i := (k, t[i].1 + 1)]
    case None =>
      AppendedCounts(t, k);
      TotalAppend(t, (k, 1));
      t + [(k, 1)]
  }

  /** The tally of a sequence of keys, counted in order: each key's count is the
      number of times it occurs, and the counts add up to the number of keys. */
  function TallyOf<K(==,!new)>(keys: seq<K>): (r: seq<(K, nat)>)
    ensures DistinctKeys(r)
    ensures forall k :: CountOf(r, k) == multiset(keys)[k]
    ensures Total(r) == |keys|
  {
    if keys == [] then []
    else
      assert keys == keys[..|keys| - 1] + [keys[|keys| - 1]];
      Bump(TallyOf(keys[..|keys| - 1]), keys[|keys| - 1])
  }
}
