/** What a reverse pass with `splice(index, 1)` leaves of an array: the
    entries not removed, in their original relative order. */
module Collections {

  /** Entries `a` and `b` of `xs` are different objects. */
  ghost predicate Differ<T>(xs: seq<T>, a: nat, b: nat)
    requires a < |xs| && b < |xs|
  {
    xs[a] != xs[b]
  }

  /** No object appears twice. The comparison of two entries is used only
      where a proof names it. */
  ghost predicate Distinct<T>(xs: seq<T>)
  {
    forall a, b {:trigger Differ(xs, a, b)} :: 0 <= a < b < |xs| ==> Differ(xs, a, b)
  }

  /** Two different positions of a duplicate-free array hold different
      objects. */
  lemma DistinctAt<T>(xs: seq<T>, a: nat, b: nat)
    requires Distinct(xs) && a < |xs| && b < |xs| && a != b
    ensures xs[a] != xs[b]
  {
    if a < b {
      assert Differ(xs, a, b);
    } else {
      assert Differ(xs, b, a);
    }
  }

  /** Dropping the first entry keeps an array duplicate-free. */
  lemma DistinctTail<T>(xs: seq<T>)
    requires Distinct(xs) && |xs| > 0
    ensures Distinct(xs[1..]) && xs[0] !in xs[1..]
  {
    var tail := xs[1..];
    forall a, b | 0 <= a < b < |tail| ensures Differ(tail, a, b) {
      DistinctAt(xs, a + 1, b + 1);
    }
    if xs[0] in tail {
      var k :| 0 <= k < |tail| && tail[k] == xs[0];
      DistinctAt(xs, 0, k + 1);
    }
  }

  /** Pushing an object not yet in a duplicate-free array keeps it
      duplicate-free. */
  lemma DistinctSnoc<T>(xs: seq<T>, x: T)
    requires Distinct(xs) && x !in xs
    ensures Distinct(xs + [x])
  {
    var ys := xs + [x];
    forall a, b | 0 <= a < b < |ys| ensures Differ(ys, a, b) {
      if b < |xs| {
        DistinctAt(xs, a, b);
      } else {
        assert ys[a] == xs[a] && ys[a] in xs;
      }
    }
  }

  /** How many entries are removed. */
  function Count(drop: seq<bool>): (n: nat)
    ensures n <= |drop|
  {
    if |drop| == 0 then 0 else (if drop[0] then 1 else 0) + Count(drop[1..])
  }

  /** The entries of `xs` whose flag in `drop` is false, in order. */
  function Keep<T>(xs: seq<T>, drop: seq<bool>): (r: seq<T>)
    requires |xs| == |drop|
    ensures |r| == |xs| - Count(drop)
  {
    if |xs| == 0 then [] else (if drop[0] then [] else [xs[0]]) + Keep(xs[1..], drop[1..])
  }

  /** A pass only removes: every survivor was in the array. */
  lemma {:induction false} KeepSubset<T>(xs: seq<T>, drop: seq<bool>)
    requires |xs| == |drop|
    ensures forall x :: x in Keep(xs, drop) ==> x in xs
  {
    if |xs| > 0 {
      KeepSubset(xs[1..], drop[1..]);
    }
  }

  /** `Keep` of a suffix, unfolded at its first entry: how one step of a
      reverse pass changes the part already walked. */
  lemma KeepFrom<T>(xs: seq<T>, drop: seq<bool>, i: nat)
    requires |xs| == |drop| && i < |xs|
    ensures Keep(xs[i..], drop[i..]) == (if drop[i] then [] else [xs[i]]) + Keep(xs[i + 1..], drop[i + 1..])
    ensures Count(drop[i..]) == (if drop[i] then 1 else 0) + Count(drop[i + 1..])
  {
    assert xs[i..][1..] == xs[i + 1..];
    assert drop[i..][1..] == drop[i + 1..];
  }

  /** `splice(i, 1)`: the array without entry `i`. */
  function RemoveAt<T>(xs: seq<T>, i: nat): seq<T>
    requires i < |xs|
  {
    xs[..i] + xs[i + 1..]
  }

  /** The array in the middle of a reverse pass that has walked down to index
      `i`: the entries below `i` untouched, then what survives from `i` on. */
  function Walked<T>(xs: seq<T>, drop: seq<bool>, i: nat): seq<T>
    requires |xs| == |drop| && i <= |xs|
  {
    xs[..i] + Keep(xs[i..], drop[i..])
  }

  /** Splicing out the entry between `pre` and `rest`. */
  lemma RemoveMiddle<T>(pre: seq<T>, x: T, rest: seq<T>)
    ensures (pre + ([x] + rest))[|pre|] == x
    ensures RemoveAt(pre + ([x] + rest), |pre|) == pre + rest
  {
    var xs := pre + ([x] + rest);
    assert xs[..|pre|] == pre;
    assert xs[|pre| + 1..] == rest;
  }

  /** One step of a reverse pass: with the walk down to `i`, splicing out
      entry `i - 1` when it is removed (and keeping it otherwise) moves the
      walk down to `i - 1`. */
  lemma SpliceStep<T>(xs: seq<T>, drop: seq<bool>, i: nat)
    requires |xs| == |drop| && 0 < i <= |xs|
    ensures i - 1 < |Walked(xs, drop, i)| && Walked(xs, drop, i)[i - 1] == xs[i - 1]
    ensures (if drop[i - 1] then RemoveAt(Walked(xs, drop, i), i - 1) else Walked(xs, drop, i)) == Walked(xs, drop, i - 1)
  {
    var j := i - 1;
    var pre, rest := xs[..j], Keep(xs[i..], drop[i..]);
    assert Walked(xs, drop, i) == pre + ([xs[j]] + rest) by {
      assert xs[..i] == pre + [xs[j]];
    }
    assert Walked(xs, drop, j) == pre + ((if drop[j] then [] else [xs[j]]) + rest) by {
      KeepFrom(xs, drop, j);
      assert xs[j + 1..] == xs[i..] && drop[j + 1..] == drop[i..];
    }
    RemoveMiddle(pre, xs[j], rest);
    if drop[j] {
      assert [] + rest == rest;
    }
  }

  /** A walk that has not started is the whole array; one that has ended is
      the result of the pass. */
  lemma WalkedEnds<T>(xs: seq<T>, drop: seq<bool>)
    requires |xs| == |drop|
    ensures Walked(xs, drop, |xs|) == xs
    ensures Walked(xs, drop, 0) == Keep(xs, drop)
  {
    assert xs[..|xs|] == xs;
    assert xs[0..] == xs && drop[0..] == drop;
  }

  /** Two concatenations with equally long first parts are equal only
      part by part. */
  lemma AppendSplit<T>(a: seq<T>, b: seq<T>, c: seq<T>, d: seq<T>)
    requires |a| == |c| && a + b == c + d
    ensures a == c && b == d
  {
    assert a == (a + b)[..|a|] && c == (c + d)[..|c|];
    assert b == (a + b)[|a|..] && d == (c + d)[|c|..];
  }

  lemma AppendAssoc<T>(a: seq<T>, b: seq<T>, c: seq<T>)
    ensures a + (b + c) == (a + b) + c
  {
  }

  /** An entry of a duplicate-free array survives exactly when it is not
      removed. */
  lemma {:induction false} KeepMember<T>(xs: seq<T>, drop: seq<bool>, k: nat)
    requires |xs| == |drop| && Distinct(xs) && k < |xs|
    ensures xs[k] in Keep(xs, drop) <==> !drop[k]
  {
    KeepSubset(xs[1..], drop[1..]);
    DistinctTail(xs);
    if k > 0 {
      KeepMember(xs[1..], drop[1..], k - 1);
      assert xs[1..][k - 1] == xs[k];
    }
  }

  /** Removing entries from a duplicate-free array leaves it duplicate-free. */
  lemma {:induction false} KeepDistinct<T>(xs: seq<T>, drop: seq<bool>)
    requires |xs| == |drop| && Distinct(xs)
    ensures Distinct(Keep(xs, drop))
  {
    if |xs| > 0 {
      var rest := Keep(xs[1..], drop[1..]);
      DistinctTail(xs);
      KeepDistinct(xs[1..], drop[1..]);
      KeepSubset(xs[1..], drop[1..]);
      if drop[0] {
        assert Keep(xs, drop) == [] + rest == rest;
      } else {
        var r := [xs[0]] + rest;
        forall a, b | 0 <= a < b < |r| ensures Differ(r, a, b) {
          if a == 0 {
            assert r[b] == rest[b - 1] && rest[b - 1] in xs[1..];
          } else {
            assert r[a] == rest[a - 1] && r[b] == rest[b - 1];
            DistinctAt(rest, a - 1, b - 1);
          }
        }
      }
    }
  }

  /** A pass over a concatenation is the concatenation of the passes. */
  lemma {:induction false} KeepAppend<T>(a: seq<T>, da: seq<bool>, b: seq<T>, db: seq<bool>)
    requires |a| == |da| && |b| == |db|
    ensures Keep(a + b, da + db) == Keep(a, da) + Keep(b, db)
  {
    if |a| > 0 {
      assert (a + b)[1..] == a[1..] + b;
      assert (da + db)[1..] == da[1..] + db;
      KeepAppend(a[1..], da[1..], b, db);
    } else {
      assert a + b == b && da + db == db;
    }
  }

  /** A pass that removes nothing leaves the array as it was. */
  lemma {:induction false} KeepNone<T>(xs: seq<T>, drop: seq<bool>)
    requires |xs| == |drop|
    requires forall k :: 0 <= k < |drop| ==> !drop[k]
    ensures Keep(xs, drop) == xs
    ensures Count(drop) == 0
  {
    if |xs| > 0 {
      KeepNone(xs[1..], drop[1..]);
    }
  }
}
