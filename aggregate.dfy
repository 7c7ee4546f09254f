/**
  The logical meaning of the two aggregate queries of the usage store:
  `SELECT key, COUNT(*) ... GROUP BY key ORDER BY count DESC LIMIT n`, over the
  key column of an append-only table given as a sequence. SQLite leaves the
  order of equal counts open; this model fixes it to first occurrence.
 */
module Aggregate {
  import opened Bytes

  /** A column value as SQLite stores it: the command name or video id (TEXT), or a user id (INTEGER). */
  datatype Key = Text(text: Str) | Integer(number: int)

  /** `COUNT(*)` of the rows whose key is `k`. */
  function Occurrences(keys: seq<Key>, k: Key): nat
  {
    if keys == [] then 0
    else Occurrences(keys[..|keys| - 1], k) + (if keys[|keys| - 1] == k then 1 else 0)
  }

  predicate NoDuplicates(s: seq<Key>)
  {
    forall i, j | 0 <= i < j < |s| :: s[i] != s[j]
  }

  /** The groups of `GROUP BY key`, in order of first occurrence. */
  function Distinct(keys: seq<Key>): seq<Key>
  {
    if keys == [] then []
    else
      var d := Distinct(keys[..|keys| - 1]);
      if keys[|keys| - 1] in d then d else d + [keys[|keys| - 1]]
  }

  lemma {:induction false} DistinctFacts(keys: seq<Key>)
    ensures forall k :: k in Distinct(keys) <==> k in keys
    ensures NoDuplicates(Distinct(keys))
  {
    if keys != [] {
      var pre := keys[..|keys| - 1];
      DistinctFacts(pre);
      assert keys == pre + [keys[|keys| - 1]];
    }
  }

  lemma OccurrencesPositive(keys: seq<Key>, k: Key)
    ensures Occurrences(keys, k) > 0 <==> k in keys
  {
    if keys != [] {
      var pre := keys[..|keys| - 1];
      OccurrencesPositive(pre, k);
      assert keys == pre + [keys[|keys| - 1]];
    }
  }

  lemma {:induction false} OccurrencesBounded(keys: seq<Key>, k: Key)
    ensures Occurrences(keys, k) <= |keys|
  {
    if keys != [] {
      OccurrencesBounded(keys[..|keys| - 1], k);
    }
  }

  /** `s` is in non-increasing order of row count. */
  ghost predicate ByCountDesc(keys: seq<Key>, s: seq<Key>)
  {
    forall i, j | 0 <= i < j < |s| :: Occurrences(keys, s[i]) >= Occurrences(keys, s[j])
  }

  /** Inserts `x` before the first group with a smaller count. */
  function Insert(keys: seq<Key>, x: Key, r: seq<Key>): seq<Key>
  {
    if r == [] then [x]
    else if Occurrences(keys, x) >= Occurrences(keys, r[0]) then [x] + r
    else [r[0]] + Insert(keys, x, r[1..])
  }

  lemma {:induction false} InsertFacts(keys: seq<Key>, x: Key, r: seq<Key>)
    requires ByCountDesc(keys, r) && NoDuplicates(r) && x !in r
    ensures |Insert(keys, x, r)| == |r| + 1
    ensures forall y :: y in Insert(keys, x, r) <==> y == x || y in r
    ensures ByCountDesc(keys, Insert(keys, x, r))
    ensures NoDuplicates(Insert(keys, x, r))
  {
    if r != [] && Occurrences(keys, x) < Occurrences(keys, r[0]) {
      var t := r[1..];
      assert forall y :: y in r <==> y == r[0] || y in t;
      InsertFacts(keys, x, t);
      var s := Insert(keys, x, r);
      assert s == [r[0]] + Insert(keys, x, t);
      forall i, j | 0 <= i < j < |s|
        ensures Occurrences(keys, s[i]) >= Occurrences(keys, s[j]) && s[i] != s[j]
      {
        if i == 0 {
          assert s[j] in Insert(keys, x, t);
          if s[j] != x {
            assert s[j] in t;
            var k :| 0 <= k < |t| && t[k] == s[j];
            assert r[k + 1] == s[j];
          }
        } else {
          assert s[i] == Insert(keys, x, t)[i - 1] && s[j] == Insert(keys, x, t)[j - 1];
        }
      }
    } else if r != [] {
      var s := Insert(keys, x, r);
      forall i, j | 0 <= i < j < |s|
        ensures Occurrences(keys, s[i]) >= Occurrences(keys, s[j]) && s[i] != s[j]
      {
        if i == 0 {
          assert s[j] == r[j - 1];
          assert Occurrences(keys, r[0]) >= Occurrences(keys, r[j - 1]);
        } else {
          assert s[i] == r[i - 1] && s[j] == r[j - 1];
        }
      }
    }
  }

  /** The groups `ds` sorted by count, descending, by insertion. */
  function Rank(keys: seq<Key>, ds: seq<Key>): seq<Key>
  {
    if ds == [] then [] else Insert(keys, ds[0], Rank(keys, ds[1..]))
  }

  lemma {:induction false} RankFacts(keys: seq<Key>, ds: seq<Key>)
    requires NoDuplicates(ds)
    ensures |Rank(keys, ds)| == |ds|
    ensures forall y :: y in Rank(keys, ds) <==> y in ds
    ensures ByCountDesc(keys, Rank(keys, ds))
    ensures NoDuplicates(Rank(keys, ds))
  {
    if ds != [] {
      var t := ds[1..];
      assert forall y :: y in ds <==> y == ds[0] || y in t;
      assert NoDuplicates(t) by {
        forall i, j | 0 <= i < j < |t| ensures t[i] != t[j] {
          assert t[i] == ds[i + 1] && t[j] == ds[j + 1];
        }
      }
      RankFacts(keys, t);
      assert ds[0] !in t by {
        forall i | 0 <= i < |t| ensures t[i] != ds[0] {
          assert t[i] == ds[i + 1];
        }
      }
      InsertFacts(keys, ds[0], Rank(keys, t));
    }
  }

  /** The number of rows `LIMIT limit` lets through out of `n`; a negative limit means no limit. */
  function Limited(n: nat, limit: int): nat
  {
    if limit < 0 || limit >= n then n else limit
  }

  /** The groups ranked by count, descending. */
  function Ranked(keys: seq<Key>): seq<Key>
  {
    Rank(keys, Distinct(keys))
  }

  /** The key column of the query result. */
  function Top(keys: seq<Key>, limit: int): seq<Key>
  {
    var r := Ranked(keys);
    r[..Limited(|r|, limit)]
  }

  lemma RankedFacts(keys: seq<Key>)
    ensures |Ranked(keys)| == |Distinct(keys)|
    ensures forall y :: y in Ranked(keys) <==> y in keys
    ensures ByCountDesc(keys, Ranked(keys))
    ensures NoDuplicates(Ranked(keys))
  {
    DistinctFacts(keys);
    RankFacts(keys, Distinct(keys));
  }

  /**
    The top-N result: at most `limit` groups (all of them for a negative
    limit), each a key that occurs in the table, none twice, in
    non-increasing count order, and no group left out has a larger count
    than any group returned.
   */
  lemma TopFacts(keys: seq<Key>, limit: int)
    ensures |Top(keys, limit)| == Limited(|Distinct(keys)|, limit)
    ensures forall i | 0 <= i < |Top(keys, limit)| :: Occurrences(keys, Top(keys, limit)[i]) > 0
    ensures NoDuplicates(Top(keys, limit))
    ensures ByCountDesc(keys, Top(keys, limit))
    ensures forall k | k in keys && k !in Top(keys, limit) ::
      forall i | 0 <= i < |Top(keys, limit)| :: Occurrences(keys, k) <= Occurrences(keys, Top(keys, limit)[i])
    ensures limit < 0 || limit >= |Distinct(keys)| ==> forall k | k in keys :: k in Top(keys, limit)
  {
    RankedFacts(keys);
    TopOccurs(keys, limit);
    TopIsTop(keys, limit);
    var r := Ranked(keys);
    var t := Top(keys, limit);
    assert forall i | 0 <= i < |t| :: t[i] == r[i];
    if limit < 0 || limit >= |Distinct(keys)| {
      assert t == r;
    }
  }

  lemma TopOccurs(keys: seq<Key>, limit: int)
    ensures forall i | 0 <= i < |Top(keys, limit)| :: Occurrences(keys, Top(keys, limit)[i]) > 0
  {
    RankedFacts(keys);
    var r := Ranked(keys);
    var t := Top(keys, limit);
    forall i | 0 <= i < |t|
      ensures Occurrences(keys, t[i]) > 0
    {
      assert t[i] == r[i];
      assert r[i] in r;
      OccurrencesPositive(keys, t[i]);
    }
  }

  lemma TopIsTop(keys: seq<Key>, limit: int)
    ensures forall k | k in keys && k !in Top(keys, limit) ::
      forall i | 0 <= i < |Top(keys, limit)| :: Occurrences(keys, k) <= Occurrences(keys, Top(keys, limit)[i])
  {
    RankedFacts(keys);
    var r := Ranked(keys);
    var t := Top(keys, limit);
    var n := |t|;
    forall k, i | k in keys && k !in t && 0 <= i < n
      ensures Occurrences(keys, k) <= Occurrences(keys, t[i])
    {
      assert k in r;
      var j :| 0 <= j < |r| && r[j] == k;
      assert forall q | 0 <= q < n :: t[q] == r[q];
      assert j >= n;
      assert t[i] == r[i];
    }
  }

  /** Sum of the counts of the groups `ds`. */
  function SumOfCounts(keys: seq<Key>, ds: seq<Key>): nat
  {
    if ds == [] then 0 else Occurrences(keys, ds[0]) + SumOfCounts(keys, ds[1..])
  }

  lemma {:induction false} SumOfCountsAppendKey(keys: seq<Key>, x: Key, ds: seq<Key>)
    requires NoDuplicates(ds)
    ensures SumOfCounts(keys + [x], ds) == SumOfCounts(keys, ds) + (if x in ds then 1 else 0)
  {
    if ds != [] {
      var t := ds[1..];
      assert (keys + [x])[..|keys|] == keys;
      assert NoDuplicates(t) by {
        forall i, j | 0 <= i < j < |t| ensures t[i] != t[j] {
          assert t[i] == ds[i + 1] && t[j] == ds[j + 1];
        }
      }
      SumOfCountsAppendKey(keys, x, t);
      assert x in ds <==> x == ds[0] || x in t;
      if x == ds[0] {
        assert x !in t by {
          forall i | 0 <= i < |t| ensures t[i] != x {
            assert t[i] == ds[i + 1];
          }
        }
      }
    }
  }

  lemma {:induction false} SumOfCountsAppendGroup(keys: seq<Key>, ds: seq<Key>, x: Key)
    ensures SumOfCounts(keys, ds + [x]) == SumOfCounts(keys, ds) + Occurrences(keys, x)
  {
    if ds != [] {
      assert (ds + [x])[1..] == ds[1..] + [x];
      SumOfCountsAppendGroup(keys, ds[1..], x);
    }
  }

  /** Every row belongs to exactly one group: the counts of all groups add up to the number of rows. */
  lemma {:induction false} CountsAddUp(keys: seq<Key>)
    ensures SumOfCounts(keys, Distinct(keys)) == |keys|
  {
    if keys != [] {
      var pre := keys[..|keys| - 1];
      var x := keys[|keys| - 1];
      assert keys == pre + [x];
      CountsAddUp(pre);
      var d := Distinct(pre);
      DistinctFacts(pre);
      SumOfCountsAppendKey(pre, x, d);
      if x !in d {
        SumOfCountsAppendGroup(keys, d, x);
        OccurrencesPositive(pre, x);
        assert Occurrences(keys, x) == 1;
      }
    }
  }
}
