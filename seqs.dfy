/** Grouping and ordering over sequences, shared by both analyzers: the
    elements that have a given key, the distinct keys in first-seen order
    (the iteration order of a JavaScript `Map` or a Python `dict`), and a
    stable sort by a string key (JavaScript's `Array.prototype.sort`, Python's
    `list.sort` and `sorted`). Every definition recurses on the last element,
    so that a loop that appends one element at a time can be related to it. */
module Seqs {
  import opened Text

  function Id(s: string): string { s }

  // ---------------------------------------------------------------------------
  // Keys and grouping

  /** The key of every element, in order. */
  function Keys<T>(s: seq<T>, key: T -> string): (r: seq<string>)
    ensures |r| == |s|
    ensures forall i :: 0 <= i < |s| ==> r[i] == key(s[i])
    decreases |s|
  {
    if s == [] then [] else Keys(s[..|s| - 1], key) + [key(s[|s| - 1])]
  }

  /** The elements of `s` whose key is `k`, in their order in `s`. */
  function Having<T>(s: seq<T>, key: T -> string, k: string): (r: seq<T>)
    ensures |r| <= |s|
    ensures forall x :: x in r ==> x in s && key(x) == k
    decreases |s|
  {
    if s == [] then []
    else Having(s[..|s| - 1], key, k) + (if key(s[|s| - 1]) == k then [s[|s| - 1]] else [])
  }

  /** A key has elements exactly when some element carries it. */
  lemma {:induction false} HavingNonEmpty<T>(s: seq<T>, key: T -> string, k: string)
    ensures |Having(s, key, k)| > 0 <==> k in Keys(s, key)
    decreases |s|
  {
    if s != [] {
      var init := s[..|s| - 1];
      HavingNonEmpty(init, key, k);
      assert Keys(s, key) == Keys(init, key) + [key(s[|s| - 1])];
    }
  }

  /** A key is among the keys exactly when some element carries it. */
  lemma KeysMembers<T>(s: seq<T>, key: T -> string)
    ensures forall k :: k in Keys(s, key) <==> exists i :: 0 <= i < |s| && key(s[i]) == k
  {
    var ks := Keys(s, key);
    forall k | k in ks ensures exists i :: 0 <= i < |s| && key(s[i]) == k {
      var i :| 0 <= i < |ks| && ks[i] == k;
    }
  }

  predicate NoDups(s: seq<string>) {
    forall i, j :: 0 <= i < j < |s| ==> s[i] != s[j]
  }

  /** The distinct elements of `s`, each at the place it first occurs. */
  function Distinct(s: seq<string>): (r: seq<string>)
    ensures NoDups(r)
    ensures forall x :: x in r <==> x in s
    decreases |s|
  {
    if s == [] then []
    else
      var d := Distinct(s[..|s| - 1]);
      var x := s[|s| - 1];
      assert forall y :: y in s <==> y in s[..|s| - 1] || y == x by {
        assert s == s[..|s| - 1] + [x];
      }
      if x in d then d else d + [x]
  }

  /** A sequence without repetitions has as many elements as its set. */
  lemma {:induction false} NoDupsCard(s: seq<string>)
    requires NoDups(s)
    ensures |set x | x in s| == |s|
    decreases |s|
  {
    if s != [] {
      var init := s[..|s| - 1];
      var x := s[|s| - 1];
      NoDupsCard(init);
      assert x !in init;
      assert (set y | y in s) == (set y | y in init) + {x} by {
        assert s == init + [x];
      }
    }
  }

  /** `|Distinct(s)|` is the number of different elements of `s`. */
  lemma DistinctCard(s: seq<string>)
    ensures |Distinct(s)| == |set x | x in s|
  {
    var d := Distinct(s);
    NoDupsCard(d);
    assert (set x | x in d) == (set x | x in s);
  }

  /** Adding an element to a sequence adds its key to the distinct keys
      unless the key is already there. */
  lemma DistinctKeysSnoc<T>(s: seq<T>, x: T, key: T -> string)
    ensures Keys(s + [x], key) == Keys(s, key) + [key(x)]
    ensures Distinct(Keys(s + [x], key))
         == Distinct(Keys(s, key)) + (if key(x) in Distinct(Keys(s, key)) then [] else [key(x)])
  {
    assert (s + [x])[..|s|] == s;
    var ks := Keys(s + [x], key);
    assert ks[..|ks| - 1] == Keys(s, key);
  }

  /** The map from each key to its elements, as the grouping loop builds it. */
  function Groups<T>(s: seq<T>, key: T -> string): map<string, seq<T>>
    decreases |s|
  {
    if s == [] then map[]
    else
      var g := Groups(s[..|s| - 1], key);
      var x := s[|s| - 1];
      g[key(x) := (if key(x) in g then g[key(x)] else []) + [x]]
  }

  /** The map holds exactly the keys that occur, each with its elements in
      order. */
  lemma {:induction false} GroupsHaving<T>(s: seq<T>, key: T -> string)
    ensures forall k :: k in Groups(s, key) <==> k in Keys(s, key)
    ensures forall k :: k in Groups(s, key) ==> Groups(s, key)[k] == Having(s, key, k)
    decreases |s|
  {
    if s != [] {
      var init := s[..|s| - 1];
      GroupsHaving(init, key);
      HavingNonEmpty(init, key, key(s[|s| - 1]));
      assert Keys(s, key) == Keys(init, key) + [key(s[|s| - 1])];
    }
  }

  /** The group of a key that occurs holds that key's elements. */
  lemma GroupsAt<T>(s: seq<T>, key: T -> string, k: string)
    requires k in Distinct(Keys(s, key))
    ensures k in Groups(s, key) && Groups(s, key)[k] == Having(s, key, k)
  {
    GroupsHaving(s, key);
  }

  /** Extending a prefix of `s` by one element. */
  lemma PrefixSnoc<T>(s: seq<T>, j: nat)
    requires j < |s|
    ensures s[..j + 1] == s[..j] + [s[j]]
  {
  }

  /** One step of the grouping loop, in the two steps the loop takes: the
      key's group is started if missing, then extended; the key is recorded
      when its group is started. */
  lemma GroupStep<T>(done: seq<T>, x: T, key: T -> string, started: map<string, seq<T>>)
    requires var g := Groups(done, key);
             started == if key(x) in g then g else g[key(x) := []]
    ensures key(x) in started
    ensures Groups(done + [x], key) == started[key(x) := started[key(x)] + [x]]
    ensures Distinct(Keys(done + [x], key))
            == Distinct(Keys(done, key)) + if key(x) in Groups(done, key) then [] else [key(x)]
  {
    var g := Groups(done, key);
    var k := key(x);
    assert (done + [x])[..|done|] == done;
    assert Groups(done + [x], key) == g[k := (if k in g then g[k] else []) + [x]];
    DistinctKeysSnoc(done, x, key);
    GroupsHaving(done, key);
    assert k in g <==> k in Distinct(Keys(done, key));
  }

  /** The grouping loop both analyzers write with a `Map` or a `dict`: every
      key gets the list of its elements, and the keys are remembered in the
      order they first appear (the map's iteration order). */
  method GroupBy<T>(s: seq<T>, key: T -> string) returns (keys: seq<string>, groups: map<string, seq<T>>)
    ensures keys == Distinct(Keys(s, key))
    ensures groups == Groups(s, key)
  {
    keys := [];
    groups := map[];
    ghost var done: seq<T> := [];
    var i := 0;
    while i < |s|
      invariant 0 <= i <= |s|
      invariant done == s[..i]
      invariant keys == Distinct(Keys(done, key))
      invariant groups == Groups(done, key)
    {
      var x := s[i];
      var k := key(x);
      PrefixSnoc(s, i);
      if k !in groups {
        groups := groups[k := []];
        keys := keys + [k];
      }
      GroupStep(done, x, key, groups);
      groups := groups[k := groups[k] + [x]];
      done := done + [x];
      i := i + 1;
    }
    assert s[..i] == s;
  }

  /** The position of the first `x` in `s`. */
  function FirstIndex(s: seq<string>, x: string): (r: nat)
    requires x in s
    ensures r < |s| && s[r] == x
    ensures forall k :: 0 <= k < r ==> s[k] != x
    decreases |s|
  {
    if s[0] == x then 0 else 1 + FirstIndex(s[1..], x)
  }

  lemma FirstIndexSnoc(s: seq<string>, x: string, y: string)
    requires y in s
    ensures FirstIndex(s + [x], y) == FirstIndex(s, y)
  {
    var r := FirstIndex(s + [x], y);
    var q := FirstIndex(s, y);
    assert (s + [x])[q] == y;
  }

  /** The distinct elements come in the order of their first occurrences. */
  lemma {:induction false} DistinctFirstSeenOrder(s: seq<string>, i: nat, j: nat)
    requires i < j < |Distinct(s)|
    ensures FirstIndex(s, Distinct(s)[i]) < FirstIndex(s, Distinct(s)[j])
    decreases |s|
  {
    var init := s[..|s| - 1];
    var x := s[|s| - 1];
    var d := Distinct(init);
    assert s == init + [x];
    var a := Distinct(s)[i];
    var b := Distinct(s)[j];
    if j < |d| {
      DistinctFirstSeenOrder(init, i, j);
      FirstIndexSnoc(init, x, a);
      FirstIndexSnoc(init, x, b);
    } else {
      assert b == x && x !in init;
      FirstIndexSnoc(init, x, a);
      assert FirstIndex(s, x) == |s| - 1;
    }
  }

  /** The distinct keys are the keys some element carries. */
  lemma DistinctKeysMembers<T>(s: seq<T>, key: T -> string)
    ensures forall k :: k in Distinct(Keys(s, key)) <==> exists i :: 0 <= i < |s| && key(s[i]) == k
  {
    KeysMembers(s, key);
  }

  // ---------------------------------------------------------------------------
  // Partition counts

  /** The number of elements of `s` whose key is one of `ks`, key by key. */
  function GroupSizes<T>(s: seq<T>, key: T -> string, ks: seq<string>): nat
    decreases |ks|
  {
    if ks == [] then 0
    else GroupSizes(s, key, ks[..|ks| - 1]) + |Having(s, key, ks[|ks| - 1])|
  }

  /** Adding one element to `s` adds one to the group sizes exactly when its
      key is among `ks`. */
  lemma {:induction false} GroupSizesAppend<T>(s: seq<T>, x: T, key: T -> string, ks: seq<string>)
    requires NoDups(ks)
    ensures GroupSizes(s + [x], key, ks) == GroupSizes(s, key, ks) + (if key(x) in ks then 1 else 0)
    decreases |ks|
  {
    if ks != [] {
      var init := ks[..|ks| - 1];
      GroupSizesAppend(s, x, key, init);
      assert (s + [x])[..|s|] == s;
      assert key(x) in ks <==> key(x) in init || key(x) == ks[|ks| - 1] by {
        assert ks == init + [ks[|ks| - 1]];
      }
    }
  }

  /** The groups of distinct keys that cover every element partition `s`:
      their sizes add up to `|s|`. */
  lemma {:induction false} GroupSizesPartition<T>(s: seq<T>, key: T -> string, ks: seq<string>)
    requires NoDups(ks)
    requires forall i :: 0 <= i < |s| ==> key(s[i]) in ks
    ensures GroupSizes(s, key, ks) == |s|
    decreases |s|
  {
    if s == [] {
      GroupSizesEmpty(key, ks);
    } else {
      var init := s[..|s| - 1];
      GroupSizesPartition(init, key, ks);
      GroupSizesAppend(init, s[|s| - 1], key, ks);
      assert init + [s[|s| - 1]] == s;
    }
  }

  lemma {:induction false} GroupSizesEmpty<T>(key: T -> string, ks: seq<string>)
    ensures GroupSizes([], key, ks) == 0
    decreases |ks|
  {
    if ks != [] {
      GroupSizesEmpty(key, ks[..|ks| - 1]);
    }
  }

  /** Grouping by the distinct keys of `s` accounts for every element once. */
  lemma DistinctKeysPartition<T>(s: seq<T>, key: T -> string)
    ensures GroupSizes(s, key, Distinct(Keys(s, key))) == |s|
  {
    var ks := Keys(s, key);
    assert forall i :: 0 <= i < |s| ==> key(s[i]) in ks by {
      forall i | 0 <= i < |s| ensures key(s[i]) in ks {
        assert ks[i] == key(s[i]);
      }
    }
    GroupSizesPartition(s, key, Distinct(ks));
  }

  // ---------------------------------------------------------------------------
  // Stable sort by a string key

  predicate SortedBy<T>(s: seq<T>, key: T -> string) {
    forall i, j :: 0 <= i < j < |s| ==> LessEq(key(s[i]), key(s[j]))
  }

  /** Places `x` after every element of the sorted `t` whose key is not
      greater than its own. */
  function Insert<T>(t: seq<T>, x: T, key: T -> string): (r: seq<T>)
    ensures |r| == |t| + 1
    ensures multiset(r) == multiset(t) + multiset{x}
    decreases |t|
  {
    if t == [] || LessEq(key(t[|t| - 1]), key(x)) then t + [x]
    else
      var init := t[..|t| - 1];
      var r := Insert(init, x, key) + [t[|t| - 1]];
      assert t == init + [t[|t| - 1]];
      r
  }

  /** Every key of an insertion result is bounded when every key inserted is. */
  lemma {:induction false} InsertBounded<T>(t: seq<T>, x: T, key: T -> string, b: string)
    requires forall i :: 0 <= i < |t| ==> LessEq(key(t[i]), b)
    requires LessEq(key(x), b)
    ensures forall i :: 0 <= i < |t| + 1 ==> LessEq(key(Insert(t, x, key)[i]), b)
    decreases |t|
  {
    if t != [] && !LessEq(key(t[|t| - 1]), key(x)) {
      InsertBounded(t[..|t| - 1], x, key, b);
    }
  }

  /** Insertion keeps a sequence sorted. */
  lemma {:induction false} InsertSorted<T>(t: seq<T>, x: T, key: T -> string)
    requires SortedBy(t, key)
    ensures SortedBy(Insert(t, x, key), key)
    decreases |t|
  {
    if t != [] {
      var init := t[..|t| - 1];
      var last := t[|t| - 1];
      if LessEq(key(last), key(x)) {
        forall i | 0 <= i < |t| ensures LessEq(key(t[i]), key(x)) {
          if i < |t| - 1 { LessEqTrans(key(t[i]), key(last), key(x)); }
        }
      } else {
        InsertSorted(init, x, key);
        LessEqTotal(key(last), key(x));
        InsertBounded(init, x, key, key(last));
      }
    }
  }

  /** The stable sort: insert each element, from the first on. */
  function SortBy<T>(s: seq<T>, key: T -> string): (r: seq<T>)
    ensures |r| == |s|
    ensures multiset(r) == multiset(s)
    ensures SortedBy(r, key)
    decreases |s|
  {
    if s == [] then []
    else
      var init := s[..|s| - 1];
      var sorted := SortBy(init, key);
      InsertSorted(sorted, s[|s| - 1], key);
      assert s == init + [s[|s| - 1]];
      Insert(sorted, s[|s| - 1], key)
  }

  /** The first element of the sorted sequence has the least key and the
      last one the greatest. */
  lemma SortByBounds<T>(s: seq<T>, key: T -> string)
    requires |s| > 0
    ensures var r := SortBy(s, key);
            && r[0] in s && r[|r| - 1] in s
            && (forall x :: x in s ==> LessEq(key(r[0]), key(x)) && LessEq(key(x), key(r[|r| - 1])))
  {
    var r := SortBy(s, key);
    assert r[0] in multiset(s) && r[|r| - 1] in multiset(s);
    forall x | x in s
      ensures LessEq(key(r[0]), key(x)) && LessEq(key(x), key(r[|r| - 1]))
    {
      assert x in multiset(r);
      var k :| 0 <= k < |r| && r[k] == x;
      if k == 0 { LessEqRefl(key(x)); }
      if k == |r| - 1 { LessEqRefl(key(x)); }
    }
  }

  lemma HavingSnoc<T>(s: seq<T>, y: T, key: T -> string, k: string)
    ensures Having(s + [y], key, k) == Having(s, key, k) + (if key(y) == k then [y] else [])
  {
    assert (s + [y])[..|s|] == s;
  }

  /** Inserting `x` appends it to the elements that share its key. */
  lemma {:induction false} InsertHaving<T>(t: seq<T>, x: T, key: T -> string, k: string)
    ensures Having(Insert(t, x, key), key, k)
         == Having(t, key, k) + (if key(x) == k then [x] else [])
    decreases |t|
  {
    if t == [] || LessEq(key(t[|t| - 1]), key(x)) {
      HavingSnoc(t, x, key, k);
    } else {
      var init := t[..|t| - 1];
      var last := t[|t| - 1];
      InsertHaving(init, x, key, k);
      HavingSnoc(Insert(init, x, key), last, key, k);
      LessEqRefl(key(x));
      assert t == init + [last];
      HavingSnoc(init, last, key, k);
      SwapEmpty(Having(init, key, k), if key(x) == k then [x] else [], if key(last) == k then [last] else []);
    }
  }

  lemma SwapEmpty<T>(h: seq<T>, p: seq<T>, q: seq<T>)
    requires p == [] || q == []
    ensures h + p + q == h + q + p
  {
    if p == [] { assert h + p == h && h + q + p == h + q; } else { assert h + q == h && h + p + q == h + p; }
  }

  /** Stability: the elements that share a key keep their relative order. */
  lemma {:induction false} SortByStable<T>(s: seq<T>, key: T -> string, k: string)
    ensures Having(SortBy(s, key), key, k) == Having(s, key, k)
    decreases |s|
  {
    if s != [] {
      var init := s[..|s| - 1];
      SortByStable(init, key, k);
      InsertHaving(SortBy(init, key), s[|s| - 1], key, k);
    }
  }

  lemma SortedHeadLeast(a: seq<string>, x: string)
    requires SortedBy(a, Id) && x in a
    ensures LessEq(a[0], x)
  {
    var i :| 0 <= i < |a| && a[i] == x;
    if i == 0 { LessEqRefl(x); } else { assert LessEq(Id(a[0]), Id(a[i])); }
  }

  lemma TailMultiset(a: seq<string>)
    requires a != []
    ensures multiset(a[1..]) == multiset(a) - multiset{a[0]}
  {
    assert a == [a[0]] + a[1..];
  }

  /** A sorted sequence of strings is determined by its elements: sorting
      distinct names gives the same result whatever order they came in. */
  lemma {:induction false} SortedUnique(a: seq<string>, b: seq<string>)
    requires SortedBy(a, Id) && SortedBy(b, Id)
    requires multiset(a) == multiset(b)
    ensures a == b
    decreases |a|
  {
    if a != [] {
      SortedSameHead(a, b);
      TailMultiset(a);
      TailMultiset(b);
      SortedTail(a);
      SortedTail(b);
      SortedUnique(a[1..], b[1..]);
      assert a == [a[0]] + a[1..] && b == [b[0]] + b[1..];
    }
  }

  /** Two sorted sequences with the same non-empty multiset start alike. */
  lemma SortedSameHead(a: seq<string>, b: seq<string>)
    requires SortedBy(a, Id) && SortedBy(b, Id)
    requires multiset(a) == multiset(b) && a != []
    ensures b != [] && a[0] == b[0]
  {
    assert |b| == |multiset(b)| == |a|;
    assert a[0] in multiset(b) && b[0] in multiset(a);
    SortedHeadLeast(b, a[0]);
    SortedHeadLeast(a, b[0]);
    LessEqAntisym(a[0], b[0]);
  }

  lemma SortedTail(a: seq<string>)
    requires SortedBy(a, Id) && a != []
    ensures SortedBy(a[1..], Id)
  {
    forall i, j | 0 <= i < j < |a| - 1
      ensures LessEq(Id(a[1..][i]), Id(a[1..][j]))
    {
      assert a[1..][i] == a[i + 1] && a[1..][j] == a[j + 1];
    }
  }

  // ---------------------------------------------------------------------------
  // Sums

  function SumBy<T>(s: seq<T>, f: T -> nat): nat
    decreases |s|
  {
    if s == [] then 0 else SumBy(s[..|s| - 1], f) + f(s[|s| - 1])
  }

  lemma {:induction false} SumByInsert<T>(t: seq<T>, x: T, key: T -> string, f: T -> nat)
    ensures SumBy(Insert(t, x, key), f) == SumBy(t, f) + f(x)
    decreases |t|
  {
    if t == [] || LessEq(key(t[|t| - 1]), key(x)) {
      assert (t + [x])[..|t|] == t;
    } else {
      var init := t[..|t| - 1];
      var ri := Insert(init, x, key);
      SumByInsert(init, x, key, f);
      assert (ri + [t[|t| - 1]])[..|ri|] == ri;
    }
  }

  /** Sorting does not change a sum over the elements. */
  lemma {:induction false} SumBySort<T>(s: seq<T>, key: T -> string, f: T -> nat)
    ensures SumBy(SortBy(s, key), f) == SumBy(s, f)
    decreases |s|
  {
    if s != [] {
      var init := s[..|s| - 1];
      SumBySort(init, key, f);
      SumByInsert(SortBy(init, key), s[|s| - 1], key, f);
    }
  }

  /** Sorting does not change the multiset of keys. */
  lemma {:induction false} KeysInsert<T>(t: seq<T>, x: T, key: T -> string)
    ensures multiset(Keys(Insert(t, x, key), key)) == multiset(Keys(t, key)) + multiset{key(x)}
    decreases |t|
  {
    if t == [] || LessEq(key(t[|t| - 1]), key(x)) {
      assert (t + [x])[..|t|] == t;
    } else {
      var init := t[..|t| - 1];
      var ri := Insert(init, x, key);
      KeysInsert(init, x, key);
      assert (ri + [t[|t| - 1]])[..|ri|] == ri;
      assert Keys(t, key) == Keys(init, key) + [key(t[|t| - 1])];
    }
  }

  lemma {:induction false} KeysSort<T>(s: seq<T>, key: T -> string)
    ensures multiset(Keys(SortBy(s, key), key)) == multiset(Keys(s, key))
    decreases |s|
  {
    if s != [] {
      var init := s[..|s| - 1];
      KeysSort(init, key);
      KeysInsert(SortBy(init, key), s[|s| - 1], key);
    }
  }

  /** A sequence with the same elements as one without repetitions has none
      either. */
  lemma NoDupsPermutation(a: seq<string>, b: seq<string>)
    requires NoDups(a) && multiset(a) == multiset(b)
    ensures NoDups(b)
  {
    forall i, j | 0 <= i < j < |b| ensures b[i] != b[j] {
      if b[i] == b[j] {
        assert multiset(b)[b[i]] >= 2 by {
          assert b == b[..i] + [b[i]] + b[i + 1..j] + [b[j]] + b[j + 1..];
        }
        NoDupsMultiplicity(a, b[i]);
      }
    }
  }

  lemma {:induction false} NoDupsMultiplicity(a: seq<string>, x: string)
    requires NoDups(a)
    ensures multiset(a)[x] <= 1
    decreases |a|
  {
    if a != [] {
      var init := a[..|a| - 1];
      NoDupsMultiplicity(init, x);
      assert a == init + [a[|a| - 1]];
      assert a[|a| - 1] !in init;
    }
  }
}
