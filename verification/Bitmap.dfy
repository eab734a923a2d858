/** First-fit allocation bitmaps, as used for inodes, data blocks and open files. */
module Bitmap {
  datatype Alloc = FREE | TAKEN

  /** The first FREE entry at or after `i`, or -1: what each allocation loop finds. */
  function FirstFreeFrom(bits: seq<Alloc>, i: nat): (r: int)
    requires i <= |bits|
    ensures r == -1 || i <= r < |bits|
    decreases |bits| - i
  {
    if i == |bits| then -1 else if bits[i] == FREE then i else FirstFreeFrom(bits, i + 1)
  }

  function FirstFree(bits: seq<Alloc>): (r: int)
    ensures -1 <= r < |bits|
  {
    FirstFreeFrom(bits, 0)
  }

  ghost function Taken(bits: seq<Alloc>): set<int> {
    set i | 0 <= i < |bits| && bits[i] == TAKEN
  }

  /** The least number below `max` outside `used`, from `i` on, or -1. */
  function LeastUnused(used: set<int>, max: nat, i: nat): (r: int)
    requires i <= max
    ensures r == -1 || (i <= r < max && r !in used)
    decreases max - i
  {
    if i == max then -1 else if i !in used then i else LeastUnused(used, max, i + 1)
  }

  lemma {:induction false} FirstFreeIsLeastUnused(bits: seq<Alloc>, i: nat)
    requires i <= |bits|
    ensures FirstFreeFrom(bits, i) == LeastUnused(Taken(bits), |bits|, i)
    decreases |bits| - i
  {
    if i < |bits| && bits[i] == TAKEN {
      FirstFreeIsLeastUnused(bits, i + 1);
    }
  }

  function Range(n: nat): (s: set<int>)
    ensures forall i :: i in s <==> 0 <= i < n
    ensures |s| == n
  {
    if n == 0 then {} else Range(n - 1) + {n - 1}
  }

  lemma SubsetSize<T>(s: set<T>, t: set<T>)
    requires s <= t
    ensures |s| <= |t|
    ensures |s| == |t| ==> s == t
  {
    assert |t| == |s| + |t - s| by { assert t == s + (t - s); }
  }

  /** The search fails exactly when the table is full. */
  lemma {:induction false} LeastUnusedFails(used: set<int>, max: nat, i: nat)
    requires i <= max && used <= Range(max)
    requires forall k | 0 <= k < i :: k in used
    ensures LeastUnused(used, max, i) == -1 <==> |used| == max
    decreases max - i
  {
    if i == max {
      assert used == Range(max);
    } else if i in used {
      LeastUnusedFails(used, max, i + 1);
    } else {
      SubsetSize(used, Range(max));
    }
  }

  /** First fit fails exactly when every entry is TAKEN, and otherwise finds a FREE one. */
  lemma FirstFreeSpec(bits: seq<Alloc>)
    ensures FirstFree(bits) == -1 <==> |Taken(bits)| == |bits|
    ensures FirstFree(bits) != -1 ==> bits[FirstFree(bits)] == FREE
    ensures |Taken(bits)| <= |bits|
  {
    var used := Taken(bits);
    assert used <= Range(|bits|);
    SubsetSize(used, Range(|bits|));
    FirstFreeIsLeastUnused(bits, 0);
    LeastUnusedFails(used, |bits|, 0);
  }

  lemma TakenUpdate(bits: seq<Alloc>, i: nat, v: Alloc)
    requires i < |bits|
    ensures Taken(bits[i := v]) == if v == TAKEN then Taken(bits) + {i} else Taken(bits) - {i}
  {
  }

  // ---------------------------------------------------------------- injective maps

  ghost predicate Injective<K, V>(m: map<K, V>) {
    forall x, y | x in m && y in m && x != y :: m[x] != m[y]
  }

  /** An injective map has as many values as keys. */
  lemma {:induction false} InjectiveSize<K, V>(m: map<K, V>)
    requires Injective(m)
    ensures |m.Values| == |m|
  {
    if m == map[] {
      assert m.Values == {};
    } else {
      var k :| k in m;
      InjectiveSize(m - {k});
      RemoveValue(m, k);
      assert m.Keys == (m - {k}).Keys + {k};
      assert |m| == |m.Keys| == |(m - {k}).Keys| + 1;
    }
  }

  lemma InsertValue<K, V>(m: map<K, V>, k: K, v: V)
    requires Injective(m) && k !in m && v !in m.Values
    ensures Injective(m[k := v])
    ensures m[k := v].Values == m.Values + {v}
  {
    var after := m[k := v];
    forall w | w in m.Values + {v}
      ensures w in after.Values
    {
      if w == v {
        assert after[k] == w;
      } else {
        var x :| x in m && m[x] == w;
        assert after[x] == w;
      }
    }
  }

  lemma RemoveValue<K, V>(m: map<K, V>, k: K)
    requires Injective(m) && k in m
    ensures Injective(m - {k})
    ensures (m - {k}).Values == m.Values - {m[k]}
  {
    forall w | w in m.Values - {m[k]}
      ensures w in (m - {k}).Values
    {
      var x :| x in m && m[x] == w;
      assert (m - {k})[x] == w;
    }
  }
}
