/** Generic sequence operations standing in for the JavaScript array methods
    the system uses (`filter`, `find`, `indexOf`, `map`, `sort`) and for the
    "group into a dictionary by key" loop the source writes three times. */
module Seqs {

  /** The elements of a sequence as a set. */
  function Elements<T>(s: seq<T>): set<T>
  {
    set x | x in s
  }

  /** `xs.map(f)`. */
  function MapSeq<T, U>(xs: seq<T>, f: T -> U): (r: seq<U>)
    ensures |r| == |xs|
    ensures forall i :: 0 <= i < |xs| ==> r[i] == f(xs[i])
  {
    seq(|xs|, i requires 0 <= i < |xs| => f(xs[i]))
  }

  /** Mapping one more element adds its image at the end. */
  lemma MapSeqSnoc<T, U>(xs: seq<T>, x: T, f: T -> U)
    ensures MapSeq(xs + [x], f) == MapSeq(xs, f) + [f(x)]
  {
  }

  lemma ElementsSnoc<T>(xs: seq<T>, x: T)
    ensures Elements(xs + [x]) == Elements(xs) + {x}
  {
  }

  /** Adding key `k` to a map adds it to the map's keys. */
  lemma KeysSnoc<K, V>(m: map<K, V>, keys: set<K>, k: K, v: V, keys': set<K>)
    requires m.Keys == keys && keys' == keys + {k}
    ensures m[k := v].Keys == keys'
  {
  }

  /** A store that holds `stored` and then `run`, and gains `more`, holds
      `stored` and then the longer run. */
  lemma StoredAppend<T>(stored: seq<T>, run: seq<T>, more: seq<T>, run': seq<T>, before: seq<T>, after: seq<T>)
    requires before == stored + run
    requires after == before + more
    requires run' == run + more
    ensures after == stored + run'
  {
  }

  /** `xs.filter(p)`: the elements satisfying `p`, in their original order. */
  function Filter<T(!new)>(xs: seq<T>, p: T -> bool): (r: seq<T>)
    ensures |r| <= |xs|
    ensures forall x {:trigger x in r} {:trigger x in xs} :: x in r <==> x in xs && p(x)
    ensures forall i :: 0 <= i < |r| ==> p(r[i]) && r[i] in xs
  {
    if xs == [] then []
    else
      var init := Filter(xs[..|xs| - 1], p);
      if p(xs[|xs| - 1]) then init + [xs[|xs| - 1]] else init
  }

  /** Filtering one more element appends it or not: the shape of one step of a
      loop that pushes what passes a test. */
  lemma FilterSnoc<T(!new)>(xs: seq<T>, x: T, p: T -> bool)
    ensures Filter(xs + [x], p) == Filter(xs, p) + (if p(x) then [x] else [])
  {
    assert (xs + [x])[..|xs + [x]| - 1] == xs;
  }

  /** Filtering distributes over concatenation. */
  lemma {:induction false} FilterAppend<T(!new)>(xs: seq<T>, ys: seq<T>, p: T -> bool)
    ensures Filter(xs + ys, p) == Filter(xs, p) + Filter(ys, p)
  {
    if ys == [] {
      assert xs + ys == xs;
    } else {
      var init, last := ys[..|ys| - 1], ys[|ys| - 1];
      assert ys == init + [last];
      assert xs + ys == (xs + init) + [last];
      FilterAppend(xs, init, p);
      FilterSnoc(xs + init, last, p);
      FilterSnoc(init, last, p);
    }
  }

  /** Nothing passes a test that no element satisfies. */
  lemma {:induction false} FilterNone<T(!new)>(xs: seq<T>, p: T -> bool)
    requires forall x :: x in xs ==> !p(x)
    ensures Filter(xs, p) == []
  {
    if xs != [] {
      FilterNone(xs[..|xs| - 1], p);
    }
  }

  /** Filtering keeps a multiset-sub-collection of the input: every element is
      kept at most as often as it occurs. */
  lemma {:induction false} FilterMultiset<T(!new)>(xs: seq<T>, p: T -> bool)
    ensures multiset(Filter(xs, p)) <= multiset(xs)
  {
    if xs != [] {
      var init, last := xs[..|xs| - 1], xs[|xs| - 1];
      assert xs == init + [last];
      FilterMultiset(init, p);
    }
  }

  /** `xs.indexOf(x)`: the first position of `x`, or -1. */
  function IndexOf<T(==)>(xs: seq<T>, x: T): (r: int)
    ensures -1 <= r < |xs|
    ensures r == -1 <==> x !in xs
    ensures r >= 0 ==> xs[r] == x && x !in xs[..r]
  {
    if xs == [] then -1
    else if xs[0] == x then 0
    else
      var k := IndexOf(xs[1..], x);
      if k == -1 then -1
      else
        assert xs[1..][..k] == xs[1..k + 1];
        k + 1
  }

  /** The position `xs.find(p)` stops at: the first element satisfying `p`,
      or -1 when there is none. */
  function FindIndex<T>(xs: seq<T>, p: T -> bool): (r: int)
    ensures -1 <= r < |xs|
    ensures r == -1 <==> forall i :: 0 <= i < |xs| ==> !p(xs[i])
    ensures r >= 0 ==> p(xs[r]) && forall i :: 0 <= i < r ==> !p(xs[i])
  {
    if xs == [] then -1
    else if p(xs[0]) then 0
    else
      var k := FindIndex(xs[1..], p);
      if k == -1 then -1 else k + 1
  }

  ghost predicate NoDuplicates<T>(s: seq<T>)
  {
    forall i, j :: 0 <= i < j < |s| ==> s[i] != s[j]
  }

  /** The distinct keys of `ks` in order of first occurrence: the key order of a
      JavaScript object filled by assigning `obj[k]` for each k in turn. */
  function Distinct<K(==,!new)>(ks: seq<K>): (r: seq<K>)
    ensures forall k :: k in r <==> k in ks
    ensures NoDuplicates(r)
  {
    if ks == [] then []
    else
      var init := Distinct(ks[..|ks| - 1]);
      var last := ks[|ks| - 1];
      if last in init then init else init + [last]
  }

  lemma DistinctSnoc<K(!new)>(ks: seq<K>, k: K)
    ensures Distinct(ks + [k]) == if k in Distinct(ks) then Distinct(ks) else Distinct(ks) + [k]
  {
    assert (ks + [k])[..|ks + [k]| - 1] == ks;
  }

  /** A sequence without duplicates has as many distinct elements as entries. */
  lemma {:induction false} NoDuplicatesCardinality<T>(s: seq<T>)
    requires NoDuplicates(s)
    ensures |Elements(s)| == |s|
  {
    if s != [] {
      var init, last := s[..|s| - 1], s[|s| - 1];
      assert s == init + [last];
      assert NoDuplicates(init);
      NoDuplicatesCardinality(init);
      assert last !in Elements(init);
      assert Elements(s) == Elements(init) + {last};
    }
  }

  /** The number of distinct values among `ks` is the length of `Distinct(ks)`;
      it never exceeds `|ks|`, and equals it exactly when `ks` has no duplicates. */
  lemma {:induction false} DistinctCount<K(!new)>(ks: seq<K>)
    ensures |Elements(ks)| == |Distinct(ks)| <= |ks|
    ensures NoDuplicates(ks) <==> |Distinct(ks)| == |ks|
  {
    assert Elements(ks) == Elements(Distinct(ks));
    NoDuplicatesCardinality(Distinct(ks));
    if ks != [] {
      var init, last := ks[..|ks| - 1], ks[|ks| - 1];
      assert ks == init + [last];
      DistinctCount(init);
      NoDuplicatesSnoc(init, last);
    }
  }

  /** One more element keeps a sequence duplicate-free exactly when it is new. */
  lemma NoDuplicatesSnoc<T>(init: seq<T>, last: T)
    ensures NoDuplicates(init + [last]) <==> NoDuplicates(init) && last !in init
  {
    var s := init + [last];
    forall i | 0 <= i < |init| ensures s[i] == init[i] {
    }
    if NoDuplicates(s) {
      forall i | 0 <= i < |init| ensures init[i] != last {
        assert s[|init|] == last;
      }
    }
    if NoDuplicates(init) && last !in init {
      forall i, j | 0 <= i < j < |s| ensures s[i] != s[j] {
        if j == |init| {
          assert s[i] in init;
        }
      }
    }
  }

  /** The entries of `xs` whose key is `k`, in their original order. */
  function Bucket<T(!new), K(==)>(xs: seq<T>, key: T -> K, k: K): (r: seq<T>)
    ensures forall x {:trigger x in r} {:trigger x in xs} :: x in r <==> x in xs && key(x) == k
  {
    Filter(xs, x => key(x) == k)
  }

  lemma BucketSnoc<T(!new), K>(xs: seq<T>, x: T, key: T -> K, k: K)
    ensures Bucket(xs + [x], key, k) == Bucket(xs, key, k) + (if key(x) == k then [x] else [])
  {
    FilterSnoc(xs, x, y => key(y) == k);
  }

  /** A key that never occurs has an empty bucket. */
  lemma BucketOfAbsentKey<T(!new), K>(xs: seq<T>, key: T -> K, k: K)
    requires k !in MapSeq(xs, key)
    ensures Bucket(xs, key, k) == []
  {
    forall x | x in xs ensures key(x) != k {
      var i :| 0 <= i < |xs| && xs[i] == x;
      assert MapSeq(xs, key)[i] == key(x);
    }
    FilterNone(xs, x => key(x) == k);
  }

  /** The dictionary the grouping loop has built after the entries `xs`:
      each entry is pushed onto the list of its key, which starts empty. */
  ghost function GroupsOf<T(!new), K(!new)>(xs: seq<T>, key: T -> K): map<K, seq<T>>
  {
    if xs == [] then map[]
    else
      var g, x := GroupsOf(xs[..|xs| - 1], key), xs[|xs| - 1];
      g[key(x) := (if key(x) in g then g[key(x)] else []) + [x]]
  }

  /** The dictionary holds exactly the keys that occur, each with its bucket,
      which is never empty. */
  lemma {:induction false} GroupsOfBuckets<T(!new), K(!new)>(xs: seq<T>, key: T -> K)
    ensures forall k :: k in GroupsOf(xs, key) <==> k in MapSeq(xs, key)
    ensures forall k :: k in GroupsOf(xs, key) ==> GroupsOf(xs, key)[k] == Bucket(xs, key, k) != []
  {
    if xs != [] {
      var init, x := xs[..|xs| - 1], xs[|xs| - 1];
      assert xs == init + [x];
      GroupsOfBuckets(init, key);
      var g := GroupsOf(init, key);
      assert MapSeq(xs, key) == MapSeq(init, key) + [key(x)];
      forall k ensures Bucket(xs, key, k) == Bucket(init, key, k) + (if key(x) == k then [x] else []) {
        BucketSnoc(init, x, key, k);
      }
      if key(x) !in g {
        BucketOfAbsentKey(init, key, key(x));
      }
    }
  }

  /** One more entry goes to the end of its key's list, and a key seen for the
      first time joins the key order. */
  lemma GroupsOfSnoc<T(!new), K(!new)>(xs: seq<T>, key: T -> K, i: nat)
    requires i < |xs|
    ensures var g, k := GroupsOf(xs[..i], key), key(xs[i]);
      && GroupsOf(xs[..i + 1], key) == g[k := (if k in g then g[k] else []) + [xs[i]]]
      && Distinct(MapSeq(xs[..i + 1], key))
         == if k in g then Distinct(MapSeq(xs[..i], key)) else Distinct(MapSeq(xs[..i], key)) + [k]
  {
    assert xs[..i + 1][..i] == xs[..i];
    assert xs[..i + 1] == xs[..i] + [xs[i]];
    assert MapSeq(xs[..i + 1], key) == MapSeq(xs[..i], key) + [key(xs[i])];
    DistinctSnoc(MapSeq(xs[..i], key), key(xs[i]));
    GroupsOfBuckets(xs[..i], key);
  }

  /** The dictionary-building loop
        `xs.forEach(x => { if (!g[key(x)]) g[key(x)] = []; g[key(x)].push(x); })`:
      `groups` maps each key that occurs to its bucket, and `keys` lists the keys
      in the order the dictionary received them. */
  method GroupBy<T(!new), K(==,!new)>(xs: seq<T>, key: T -> K) returns (keys: seq<K>, groups: map<K, seq<T>>)
    ensures keys == Distinct(MapSeq(xs, key))
    ensures forall k :: k in groups <==> k in keys
    ensures forall k :: k in groups ==> groups[k] == Bucket(xs, key, k) && groups[k] != []
  {
    keys, groups := [], map[];
    for i := 0 to |xs|
      invariant keys == Distinct(MapSeq(xs[..i], key))
      invariant groups == GroupsOf(xs[..i], key)
    {
      GroupsOfSnoc(xs, key, i);
      var k := key(xs[i]);
      var bucket := [];
      if k in groups {
        bucket := groups[k];
      } else {
        keys := keys + [k];
      }
      groups := groups[k := bucket + [xs[i]]];
    }
    assert xs[..|xs|] == xs;
    GroupsOfBuckets(xs, key);
  }

  /** `xs` is in non-decreasing order of `key`. */
  ghost predicate SortedBy<T>(xs: seq<T>, key: T -> int)
  {
    forall i, j :: 0 <= i < j < |xs| ==> key(xs[i]) <= key(xs[j])
  }

  lemma InsertMultiset<T>(ys: seq<T>, j: nat, x: T)
    requires j <= |ys|
    ensures multiset(ys[..j] + [x] + ys[j..]) == multiset(ys) + multiset{x}
  {
    assert ys == ys[..j] + ys[j..];
  }

  lemma InsertShiftsRight<T>(ys: seq<T>, j: nat, x: T)
    requires j <= |ys|
    ensures forall k :: j < k < |ys| + 1 ==> (ys[..j] + [x] + ys[j..])[k] == ys[k - 1]
  {
  }

  lemma InsertKeepsLeft<T>(ys: seq<T>, j: nat, x: T)
    requires j <= |ys|
    ensures forall k :: 0 <= k < j ==> (ys[..j] + [x] + ys[j..])[k] == ys[k]
  {
  }

  /** `zs` is `ys` with `x` placed at position `j`, after every element not
      greater than it and before every greater one: `zs` is sorted. */
  lemma InsertOrder<T>(ys: seq<T>, j: nat, x: T, key: T -> int, zs: seq<T>)
    requires SortedBy(ys, key) && j <= |ys|
    requires j > 0 ==> key(ys[j - 1]) <= key(x)
    requires forall k :: j <= k < |ys| ==> key(ys[k]) > key(x)
    requires |zs| == |ys| + 1
    requires forall k :: 0 <= k < j ==> zs[k] == ys[k]
    requires zs[j] == x
    requires forall k :: j < k < |zs| ==> zs[k] == ys[k - 1]
    ensures SortedBy(zs, key)
  {
    forall a, b | 0 <= a < b < |zs|
      ensures key(zs[a]) <= key(zs[b])
    {
      if b < j {
      } else if b == j {
        if a < j - 1 {
          assert key(ys[a]) <= key(ys[j - 1]);
        }
      } else if a < j {
        assert key(ys[a]) <= key(ys[b - 1]);
      } else if a == j {
      } else {
        assert key(ys[a - 1]) <= key(ys[b - 1]);
      }
    }
  }

  /** One step of insertion sort keeps the order and adds `x`. */
  lemma InsertSorted<T>(ys: seq<T>, j: nat, x: T, key: T -> int)
    requires SortedBy(ys, key) && j <= |ys|
    requires j > 0 ==> key(ys[j - 1]) <= key(x)
    requires forall k :: j <= k < |ys| ==> key(ys[k]) > key(x)
    ensures SortedBy(ys[..j] + [x] + ys[j..], key)
    ensures multiset(ys[..j] + [x] + ys[j..]) == multiset(ys) + multiset{x}
  {
    InsertShiftsRight(ys, j, x);
    InsertKeepsLeft(ys, j, x);
    InsertOrder(ys, j, x, key, ys[..j] + [x] + ys[j..]);
    InsertMultiset(ys, j, x);
  }

  /** `xs.sort((a, b) => key(a) - key(b))`, as an insertion sort that places
      each element after the ones with an equal key. */
  method SortBy<T>(xs: seq<T>, key: T -> int) returns (ys: seq<T>)
    ensures SortedBy(ys, key)
    ensures multiset(ys) == multiset(xs)
  {
    ys := [];
    for i := 0 to |xs|
      invariant SortedBy(ys, key)
      invariant multiset(ys) == multiset(xs[..i])
    {
      var x := xs[i];
      var j := |ys|;
      while j > 0 && key(ys[j - 1]) > key(x)
        invariant 0 <= j <= |ys|
        invariant forall k :: j <= k < |ys| ==> key(ys[k]) > key(x)
      {
        j := j - 1;
      }
      InsertSorted(ys, j, x, key);
      ys := ys[..j] + [x] + ys[j..];
      assert xs[..i + 1] == xs[..i] + [x];
    }
    assert xs[..|xs|] == xs;
  }
}
