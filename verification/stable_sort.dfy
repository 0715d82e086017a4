/** A stable sort of index sequences by a real-valued key. Both sorts of the
    tax calculator (transactions by time, lots by the chosen method) are
    expressed as a permutation of indices computed here, so that ties keep
    their original relative order exactly as a stable `Array.prototype.sort`
    with a subtracting comparator does. */
module StableSort {

  /** Keys never decrease along `s`. */
  ghost predicate SortedBy(s: seq<int>, key: int -> real)
  {
    forall j, k :: 0 <= j < k < |s| ==> key(s[j]) <= key(s[k])
  }

  /** Elements with equal keys appear in ascending order of the index itself,
      i.e. in the order they had in an ascending input. */
  ghost predicate TiesInOrder(s: seq<int>, key: int -> real)
  {
    forall j, k :: 0 <= j < k < |s| && key(s[j]) == key(s[k]) ==> s[j] < s[k]
  }

  ghost predicate Increasing(s: seq<int>)
  {
    forall j, k :: 0 <= j < k < |s| ==> s[j] < s[k]
  }

  /** Inserts `x` in front of the first element whose key is not smaller. */
  function Insert(x: int, s: seq<int>, key: int -> real): (r: seq<int>)
    ensures multiset(r) == multiset(s) + multiset{x}
    ensures |r| == |s| + 1
  {
    if |s| == 0 then [x]
    else if key(x) <= key(s[0]) then [x] + s
    else
      assert s == [s[0]] + s[1..];
      [s[0]] + Insert(x, s[1..], key)
  }

  /** Insertion sort, taking the head of `s` first. */
  function Sort(s: seq<int>, key: int -> real): (r: seq<int>)
    ensures multiset(r) == multiset(s)
    ensures |r| == |s|
  {
    if |s| == 0 then []
    else
      assert s == [s[0]] + s[1..];
      Insert(s[0], Sort(s[1..], key), key)
  }

  /** Every element of a permutation of `s` occurs in `s`. */
  lemma PermutationMembers(r: seq<int>, s: seq<int>)
    requires multiset(r) == multiset(s)
    ensures forall k :: 0 <= k < |r| ==> r[k] in s
  {
    forall k | 0 <= k < |r|
      ensures r[k] in s
    {
      assert r[k] in multiset(r);
    }
  }

  /** Every element of `Insert(x, s, key)` is `x` or an element of `s`. */
  lemma InsertMembers(x: int, s: seq<int>, key: int -> real)
    ensures forall k :: 0 <= k < |Insert(x, s, key)| ==> Insert(x, s, key)[k] == x || Insert(x, s, key)[k] in s
  {
    var r := Insert(x, s, key);
    forall k | 0 <= k < |r|
      ensures r[k] == x || r[k] in s
    {
      assert r[k] in multiset(r);
    }
  }

  lemma {:induction false} InsertSorted(x: int, s: seq<int>, key: int -> real)
    requires SortedBy(s, key)
    ensures SortedBy(Insert(x, s, key), key)
  {
    if |s| == 0 || key(x) <= key(s[0]) {
      ConsSorted(x, s, key);
    } else {
      var tail := s[1..];
      var rest := Insert(x, tail, key);
      assert SortedBy(tail, key) by {
        forall j, k | 0 <= j < k < |tail|
          ensures key(tail[j]) <= key(tail[k])
        {
          assert tail[j] == s[j + 1] && tail[k] == s[k + 1];
        }
      }
      InsertSorted(x, tail, key);
      assert forall k :: 0 <= k < |rest| ==> key(s[0]) <= key(rest[k]) by {
        InsertMembers(x, tail, key);
        forall k | 0 <= k < |rest|
          ensures key(s[0]) <= key(rest[k])
        {
          if rest[k] != x {
            var m :| 0 <= m < |tail| && tail[m] == rest[k];
            assert s[m + 1] == rest[k];
          }
        }
      }
      ConsSorted(s[0], rest, key);
    }
  }

  /** Prepending `h` keeps a sequence sorted when no key after it is smaller. */
  lemma ConsSorted(h: int, rest: seq<int>, key: int -> real)
    requires SortedBy(rest, key)
    requires forall k :: 0 <= k < |rest| ==> key(h) <= key(rest[k])
    ensures SortedBy([h] + rest, key)
  {
    var r := [h] + rest;
    forall j, k | 0 <= j < k < |r|
      ensures key(r[j]) <= key(r[k])
    {
      assert r[k] == rest[k - 1];
      if j > 0 {
        assert r[j] == rest[j - 1];
      }
    }
  }

  /** Prepending `h` keeps ties in order when `h` is below every element of
      equal key. */
  lemma ConsTiesInOrder(h: int, rest: seq<int>, key: int -> real)
    requires TiesInOrder(rest, key)
    requires forall k :: 0 <= k < |rest| && key(h) == key(rest[k]) ==> h < rest[k]
    ensures TiesInOrder([h] + rest, key)
  {
    var r := [h] + rest;
    forall j, k | 0 <= j < k < |r| && key(r[j]) == key(r[k])
      ensures r[j] < r[k]
    {
      if j > 0 {
        assert r[j] == rest[j - 1] && r[k] == rest[k - 1];
      } else {
        assert r[k] == rest[k - 1];
      }
    }
  }

  lemma {:induction false} InsertTiesInOrder(x: int, s: seq<int>, key: int -> real)
    requires SortedBy(s, key)
    requires TiesInOrder(s, key)
    requires forall k :: 0 <= k < |s| ==> x < s[k]
    ensures TiesInOrder(Insert(x, s, key), key)
  {
    if |s| == 0 || key(x) <= key(s[0]) {
      ConsTiesInOrder(x, s, key);
    } else {
      var tail := s[1..];
      var rest := Insert(x, tail, key);
      assert SortedBy(tail, key) && TiesInOrder(tail, key) by {
        forall j, k | 0 <= j < k < |tail|
          ensures key(tail[j]) <= key(tail[k])
          ensures key(tail[j]) == key(tail[k]) ==> tail[j] < tail[k]
        {
          assert tail[j] == s[j + 1] && tail[k] == s[k + 1];
        }
      }
      InsertTiesInOrder(x, tail, key);
      InsertMembers(x, tail, key);
      forall k | 0 <= k < |rest| && key(s[0]) == key(rest[k])
        ensures s[0] < rest[k]
      {
        if rest[k] != x {
          var m :| 0 <= m < |tail| && tail[m] == rest[k];
          assert s[m + 1] == rest[k];
        }
      }
      ConsTiesInOrder(s[0], rest, key);
    }
  }

  /** The sort orders its result by `key`. */
  lemma {:induction false} SortSorted(s: seq<int>, key: int -> real)
    ensures SortedBy(Sort(s, key), key)
  {
    if |s| > 0 {
      SortSorted(s[1..], key);
      InsertSorted(s[0], Sort(s[1..], key), key);
    }
  }

  /** The sort is stable: on an ascending input, equal keys stay ascending. */
  lemma {:induction false} SortTiesInOrder(s: seq<int>, key: int -> real)
    requires Increasing(s)
    ensures TiesInOrder(Sort(s, key), key)
  {
    if |s| > 0 {
      var rest := Sort(s[1..], key);
      SortTiesInOrder(s[1..], key);
      SortSorted(s[1..], key);
      PermutationMembers(rest, s[1..]);
      forall k | 0 <= k < |rest|
        ensures s[0] < rest[k]
      {
        var m :| 0 <= m < |s[1..]| && s[1..][m] == rest[k];
        assert s[m + 1] == rest[k];
      }
      InsertTiesInOrder(s[0], rest, key);
    }
  }

  /** A stable result holds no index twice. */
  lemma TiesInOrderDistinct(s: seq<int>, key: int -> real)
    requires TiesInOrder(s, key)
    ensures forall j, k :: 0 <= j < k < |s| ==> s[j] != s[k]
  {
  }
}
