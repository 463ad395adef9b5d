/** Sequence helpers: Python slicing, order-preserving de-duplication and the
    random shuffle, which the model drives by an explicit sequence of draws. */
module Seqs {
  import opened Wrappers

  function Min(a: int, b: int): int { if a <= b then a else b }

  /** `xs[:n]` */
  function Take<T>(xs: seq<T>, n: nat): (r: seq<T>)
    ensures |r| == Min(n, |xs|)
    ensures r == xs[..|r|]
  {
    if n <= |xs| then xs[..n] else xs
  }

  /** What a prefix holds, the whole sequence holds. */
  lemma TakeIn<T>(xs: seq<T>, n: nat, x: T)
    requires x in Take(xs, n)
    ensures x in xs
  {
    var i :| 0 <= i < |Take(xs, n)| && Take(xs, n)[i] == x;
    assert xs[i] == x;
  }

  predicate NoDup<T(==)>(xs: seq<T>)
  {
    forall i, j :: 0 <= i < j < |xs| ==> xs[i] != xs[j]
  }

  /** Joining two duplicate-free sequences with no common element keeps them duplicate-free. */
  lemma NoDupConcat<T>(a: seq<T>, b: seq<T>)
    requires NoDup(a) && NoDup(b)
    requires forall x :: x in b ==> x !in a
    ensures NoDup(a + b)
  {
    forall i, j | 0 <= i < j < |a + b|
      ensures (a + b)[i] != (a + b)[j]
    {
      if j >= |a| {
        assert (a + b)[j] == b[j - |a|];
        if i >= |a| {
          assert (a + b)[i] == b[i - |a|];
        } else {
          assert (a + b)[i] == a[i];
          assert b[j - |a|] in b;
        }
      }
    }
  }

  /** Index of the first occurrence of `x` in `xs`. */
  function FirstIndex<T(==)>(xs: seq<T>, x: T): (i: nat)
    requires x in xs
    ensures i < |xs| && xs[i] == x
    ensures x !in xs[..i]
    decreases |xs|
  {
    if xs[0] == x then 0 else 1 + FirstIndex(xs[1..], x)
  }

  /** The distinct elements of `xs` in order of first occurrence (the `seen`-set idiom):
      an element is kept exactly when it does not occur earlier. */
  function Dedup<T(==,!new)>(xs: seq<T>): (r: seq<T>)
    ensures NoDup(r)
    ensures forall x :: x in r <==> x in xs
    ensures |r| <= |xs|
    decreases |xs|
  {
    if |xs| == 0 then []
    else
      var init := xs[..|xs| - 1];
      var last := xs[|xs| - 1];
      assert xs == init + [last];
      if last in init then Dedup(init) else Dedup(init) + [last]
  }

  /** De-duplicating a prefix gives a prefix of the de-duplicated whole. */
  lemma {:induction false} DedupPrefix<T(!new)>(xs: seq<T>, n: nat)
    requires n <= |xs|
    ensures |Dedup(xs[..n])| <= |Dedup(xs)|
    ensures Dedup(xs[..n]) == Dedup(xs)[..|Dedup(xs[..n])|]
    decreases |xs| - n
  {
    if n < |xs| {
      DedupPrefix(xs, n + 1);
      assert xs[..n + 1][..n] == xs[..n];
    } else {
      assert xs[..n] == xs;
    }
  }

  /** Elements of `xs` satisfying `p`, in order. */
  function Filter<T(!new)>(xs: seq<T>, p: T -> bool): (r: seq<T>)
    ensures |r| <= |xs|
    ensures forall x :: x in r <==> x in xs && p(x)
    decreases |xs|
  {
    if |xs| == 0 then []
    else if p(xs[0]) then [xs[0]] + Filter(xs[1..], p)
    else Filter(xs[1..], p)
  }

  /** Filtering by a test every element passes keeps everything. */
  lemma {:induction false} FilterAll<T(!new)>(xs: seq<T>, p: T -> bool)
    requires forall x :: x in xs ==> p(x)
    ensures Filter(xs, p) == xs
    decreases |xs|
  {
    if |xs| > 0 {
      assert forall x :: x in xs[1..] ==> x in xs;
      FilterAll(xs[1..], p);
    }
  }

  /** Filtering by a test no element passes keeps nothing. */
  lemma {:induction false} FilterNone<T(!new)>(xs: seq<T>, p: T -> bool)
    requires forall x :: x in xs ==> !p(x)
    ensures Filter(xs, p) == []
    decreases |xs|
  {
    if |xs| > 0 {
      assert forall x :: x in xs[1..] ==> x in xs;
      FilterNone(xs[1..], p);
    }
  }

  /** Filtering by a test and by its negation splits a sequence into two parts that
      together hold each element as often as the sequence does. */
  lemma {:induction false} FilterSplit<T(!new)>(xs: seq<T>, p: T -> bool, q: T -> bool)
    requires forall x :: q(x) <==> !p(x)
    ensures multiset(Filter(xs, p)) + multiset(Filter(xs, q)) == multiset(xs)
    decreases |xs|
  {
    if |xs| > 0 {
      FilterSplit(xs[1..], p, q);
      assert multiset(xs) == multiset([xs[0]]) + multiset(xs[1..]) by {
        assert xs == [xs[0]] + xs[1..];
      }
      if p(xs[0]) {
        assert Filter(xs, p) == [xs[0]] + Filter(xs[1..], p);
        assert Filter(xs, q) == Filter(xs[1..], q);
      } else {
        assert Filter(xs, p) == Filter(xs[1..], p);
        assert Filter(xs, q) == [xs[0]] + Filter(xs[1..], q);
      }
    }
  }

  /** Filtering distributes over concatenation. */
  lemma {:induction false} FilterAppend<T(!new)>(a: seq<T>, b: seq<T>, p: T -> bool)
    ensures Filter(a + b, p) == Filter(a, p) + Filter(b, p)
    decreases |a|
  {
    if |a| > 0 {
      assert (a + b)[1..] == a[1..] + b;
      FilterAppend(a[1..], b, p);
    } else {
      assert a + b == b;
    }
  }

  /** `random.shuffle(xs)`: each step moves the element picked by the next draw to the front.
      Any draw sequence gives a permutation, and every permutation has a draw sequence
      (`ShuffleReaches`). */
  function Shuffle<T>(xs: seq<T>, draws: seq<nat>): (r: seq<T>)
    ensures |r| == |xs|
    ensures multiset(r) == multiset(xs)
    decreases |xs|
  {
    if |xs| == 0 then []
    else
      var k := (if |draws| > 0 then draws[0] else 0) % |xs|;
      [xs[k]] + Shuffle(RemoveAt(xs, k), if |draws| > 0 then draws[1..] else [])
  }

  /** A shuffle holds exactly the elements it was given. */
  lemma ShuffleMembers<T>(xs: seq<T>, draws: seq<nat>)
    ensures forall x :: x in Shuffle(xs, draws) <==> x in xs
  {
    var r := Shuffle(xs, draws);
    forall x
      ensures x in r <==> x in xs
    {
      assert x in r <==> x in multiset(r);
      assert x in xs <==> x in multiset(xs);
    }
  }

  /** Every rearrangement of `xs` is the shuffle of some draw sequence, so modelling the
      random choices as `draws` leaves out no order `random.shuffle` could produce. */
  lemma {:induction false} ShuffleReaches<T>(xs: seq<T>, ys: seq<T>) returns (draws: seq<nat>)
    requires multiset(ys) == multiset(xs)
    ensures Shuffle(xs, draws) == ys
    decreases |xs|
  {
    assert |ys| == |multiset(ys)| == |xs|;
    if |xs| == 0 {
      draws := [];
    } else {
      var k := PickMatch(xs, ys);
      var tail := ShuffleReaches(RemoveAt(xs, k), ys[1..]);
      draws := [k] + tail;
      ShuffleStep(xs, k, tail);
      assert ys == [ys[0]] + ys[1..];
    }
  }

  /** A place in `xs` holding the first element of its rearrangement `ys`, whose removal
      leaves a rearrangement of the rest of `ys`. */
  lemma PickMatch<T>(xs: seq<T>, ys: seq<T>) returns (k: nat)
    requires multiset(ys) == multiset(xs) && |ys| > 0
    ensures k < |xs| && xs[k] == ys[0]
    ensures multiset(ys[1..]) == multiset(RemoveAt(xs, k))
  {
    assert ys[0] in multiset(xs);
    k :| 0 <= k < |xs| && xs[k] == ys[0];
    SplitAt(ys, 0);
    MultisetCancel(multiset(ys[1..]), multiset(RemoveAt(xs, k)), ys[0]);
  }

  /** `xs` without its `k`-th element. */
  function RemoveAt<T>(xs: seq<T>, k: nat): (r: seq<T>)
    requires k < |xs|
    ensures |r| == |xs| - 1
    ensures multiset(r) + multiset{xs[k]} == multiset(xs)
  {
    SplitAt(xs, k);
    xs[..k] + xs[k + 1..]
  }

  /** Cutting out the `k`-th element keeps the rest of the multiset. */
  lemma SplitAt<T>(xs: seq<T>, k: nat)
    requires k < |xs|
    ensures multiset(xs[..k] + xs[k + 1..]) + multiset{xs[k]} == multiset(xs)
  {
    assert xs == xs[..k] + [xs[k]] + xs[k + 1..];
  }

  /** A first draw of `k` puts the `k`-th element in front of the shuffle of the rest. */
  lemma ShuffleStep<T>(xs: seq<T>, k: nat, tail: seq<nat>)
    requires k < |xs|
    ensures Shuffle(xs, [k] + tail) == [xs[k]] + Shuffle(RemoveAt(xs, k), tail)
  {
    var draws := [k] + tail;
    assert draws[0] == k && draws[1..] == tail;
    ModBelow(k, |xs|);
  }

  /** A number below the divisor is its own remainder. */
  lemma ModBelow(k: nat, n: nat)
    requires k < n
    ensures k % n == k
  {
  }

  /** Taking the same element away from two equal multisets leaves equal multisets. */
  lemma MultisetCancel<T>(a: multiset<T>, b: multiset<T>, x: T)
    requires a + multiset{x} == b + multiset{x}
    ensures a == b
  {
    forall y
      ensures a[y] == b[y]
    {
      assert (a + multiset{x})[y] == (b + multiset{x})[y];
    }
  }

  /** If the head fails `p`, the first element of the tail passing `p` is the first
      element of the whole sequence passing it, one place further on. */
  lemma FirstPastHead<T>(xs: seq<T>, p: T -> bool, k: int)
    requires |xs| > 0 && !p(xs[0]) && 0 <= k < |xs| - 1 && p(xs[1..][k])
    requires forall m :: 0 <= m < k ==> !p(xs[1..][m])
    ensures p(xs[k + 1]) && forall m :: 0 <= m < k + 1 ==> !p(xs[m])
  {
    forall m | 0 < m < k + 1
      ensures !p(xs[m])
    {
      assert xs[m] == xs[1..][m - 1];
    }
  }

  /** `random.choice(xs)` for the element the draw selects. */
  function Choice<T>(xs: seq<T>, draw: nat): (r: T)
    requires |xs| > 0
    ensures r in xs
  {
    xs[draw % |xs|]
  }

  /** The first present value of `xs`: how a regex search scans start positions and
      how a list of patterns is tried until one matches. */
  function FirstSome<T>(xs: seq<Option<T>>): (r: Option<T>)
    ensures r.Some? ==> r in xs
    decreases |xs|
  {
    if |xs| == 0 then None else if xs[0].Some? then xs[0] else FirstSome(xs[1..])
  }

  /** `FirstSome` is None exactly when every entry is, and otherwise it is the entry at
      the least index holding a value. */
  lemma {:induction false} FirstSomeLeftmost<T>(xs: seq<Option<T>>)
    ensures FirstSome(xs).None? <==> forall k :: 0 <= k < |xs| ==> xs[k].None?
    ensures FirstSome(xs).Some? ==>
      exists k :: 0 <= k < |xs| && FirstSome(xs) == xs[k] && forall m :: 0 <= m < k ==> xs[m].None?
    decreases |xs|
  {
    if |xs| > 0 && xs[0].None? {
      FirstSomeLeftmost(xs[1..]);
      assert forall k :: 1 <= k < |xs| ==> xs[1..][k - 1] == xs[k];
      if FirstSome(xs).Some? {
        var k :| 0 <= k < |xs[1..]| && FirstSome(xs[1..]) == xs[1..][k] && forall m :: 0 <= m < k ==> xs[1..][m].None?;
        assert FirstSome(xs) == xs[k + 1];
      }
    } else if |xs| > 0 {
      assert FirstSome(xs) == xs[0];
    }
  }

  /** The entry at the least index with a value is what `FirstSome` returns. */
  lemma FirstSomeAt<T>(xs: seq<Option<T>>, k: nat)
    requires k < |xs| && xs[k].Some?
    requires forall m :: 0 <= m < k ==> xs[m].None?
    ensures FirstSome(xs) == xs[k]
  {
    FirstSomeLeftmost(xs);
  }

  /** Index of the first element of `xs` satisfying `p`: `enumerate` with `break`. */
  function FirstIndexWhere<T>(xs: seq<T>, p: T -> bool): (r: Option<nat>)
    ensures r.None? <==> forall k :: 0 <= k < |xs| ==> !p(xs[k])
    ensures r.Some? ==> r.value < |xs| && p(xs[r.value]) && forall m :: 0 <= m < r.value ==> !p(xs[m])
    decreases |xs|
  {
    if |xs| == 0 then None
    else if p(xs[0]) then Some(0)
    else
      match FirstIndexWhere(xs[1..], p)
      case None => None
      case Some(i) => Some(i + 1)
  }

  /** `xs.remove(x)` when `x` is present: drops its first occurrence. */
  function RemoveFirst<T(==,!new)>(xs: seq<T>, x: T): (r: seq<T>)
    ensures x !in xs ==> r == xs
    ensures NoDup(xs) ==> x !in r && NoDup(r)
    ensures forall y :: y != x ==> (y in r <==> y in xs)
    decreases |xs|
  {
    if |xs| == 0 then []
    else if xs[0] == x then xs[1..]
    else
      var rest := RemoveFirst(xs[1..], x);
      if NoDup(xs) then
        assert NoDup(xs[1..]) by {
          assert forall i :: 0 <= i < |xs| - 1 ==> xs[1..][i] == xs[i + 1];
        }
        assert xs[0] !in xs[1..];
        NoDupConcat([xs[0]], rest);
        [xs[0]] + rest
      else [xs[0]] + rest
  }

  /** The first element of `xs` satisfying `p`: a `for` loop that returns on the first hit. */
  function FirstWhere<T>(xs: seq<T>, p: T -> bool): (r: Option<T>)
    ensures r.None? <==> forall k :: 0 <= k < |xs| ==> !p(xs[k])
    ensures r.Some? ==> r.value in xs && p(r.value)
    ensures r.Some? ==> (exists k :: (0 <= k < |xs| && r.value == xs[k] && p(xs[k])
      && forall m :: 0 <= m < k ==> !p(xs[m])))
    decreases |xs|
  {
    if |xs| == 0 then None
    else if p(xs[0]) then Some(xs[0])
    else
      var r := FirstWhere(xs[1..], p);
      assert forall k :: 1 <= k < |xs| ==> xs[1..][k - 1] == xs[k];
      r
  }

  /** `d.get(key)` for a dict written as a list of (key, value) entries: the value of the
      first entry with that key. */
  function Lookup<K(==), V>(table: seq<(K, V)>, key: K): (r: Option<V>)
    ensures r.None? <==> forall k :: 0 <= k < |table| ==> table[k].0 != key
    ensures r.Some? ==> exists k :: 0 <= k < |table| && table[k].0 == key && r.value == table[k].1
    decreases |table|
  {
    if |table| == 0 then None
    else if table[0].0 == key then Some(table[0].1)
    else
      var r := Lookup(table[1..], key);
      assert forall k :: 1 <= k < |table| ==> table[1..][k - 1] == table[k];
      r
  }

  /** The elements a sequence holds. */
  function Elems<T(!new)>(xs: seq<T>): (r: set<T>)
    ensures forall x :: x in r <==> x in xs
  {
    set x | x in xs
  }

  /** The keys of a list of (key, item) pairs. */
  function Firsts<K, T>(r: seq<(K, T)>): (ks: seq<K>)
    ensures |ks| == |r| && forall k :: 0 <= k < |r| ==> ks[k] == r[k].0
  {
    seq(|r|, k requires 0 <= k < |r| => r[k].0)
  }

  function Seconds<K, T>(r: seq<(K, T)>): (ts: seq<T>)
    ensures |ts| == |r| && forall k :: 0 <= k < |r| ==> ts[k] == r[k].1
  {
    seq(|r|, k requires 0 <= k < |r| => r[k].1)
  }

  /** A prefix of a keyed run with distinct keys has distinct keys. */
  lemma TakeKeys<K, T>(r: seq<(K, T)>, n: nat)
    requires NoDup(Firsts(r))
    ensures NoDup(Firsts(Take(r, n)))
  {
    assert Firsts(Take(r, n)) == Firsts(r)[..|Take(r, n)|];
  }

  /** Joining two keyed runs whose keys are distinct within and across them keeps the keys distinct. */
  lemma JoinKeys<K, T>(a: seq<(K, T)>, b: seq<(K, T)>)
    requires NoDup(Firsts(a)) && NoDup(Firsts(b))
    requires forall k :: 0 <= k < |b| ==> b[k].0 !in Firsts(a)
    ensures NoDup(Firsts(a + b))
  {
    assert Firsts(a + b) == Firsts(a) + Firsts(b);
    forall x | x in Firsts(b)
      ensures x !in Firsts(a)
    {
      var k :| 0 <= k < |b| && Firsts(b)[k] == x;
    }
    NoDupConcat(Firsts(a), Firsts(b));
  }

  /** A relation holding between the first elements and between the rests of two
      sequences of one length holds at every index. */
  lemma PairwiseCons<T, U>(xs: seq<T>, ys: seq<U>, p: (T, U) -> bool)
    requires |xs| > 0 && |ys| == |xs| && p(xs[0], ys[0])
    requires forall k :: 0 <= k < |xs[1..]| ==> p(xs[1..][k], ys[1..][k])
    ensures forall k :: 0 <= k < |xs| ==> p(xs[k], ys[k])
  {
    forall k | 1 <= k < |xs| ensures p(xs[k], ys[k]) {
      assert xs[k] == xs[1..][k - 1] && ys[k] == ys[1..][k - 1];
    }
  }

  /** Every element of `a` passes `p` and every element of `b` passes `q`: each element
      of `a + b` passes one of them. */
  lemma JoinEither<T>(a: seq<T>, b: seq<T>, p: T -> bool, q: T -> bool)
    requires forall k :: 0 <= k < |a| ==> p(a[k])
    requires forall k :: 0 <= k < |b| ==> q(b[k])
    ensures forall k :: 0 <= k < |a + b| ==> p((a + b)[k]) || q((a + b)[k])
  {
    forall k | 0 <= k < |a + b|
      ensures p((a + b)[k]) || q((a + b)[k])
    {
      if k >= |a| {
        assert (a + b)[k] == b[k - |a|];
      }
    }
  }

  /** What holds of every element of `a` and of `b` holds of every element of `r = a + b`. */
  lemma ConcatAll<T>(r: seq<T>, a: seq<T>, b: seq<T>, p: T -> bool)
    requires r == a + b
    requires forall k :: 0 <= k < |a| ==> p(a[k])
    requires forall k :: 0 <= k < |b| ==> p(b[k])
    ensures forall k :: 0 <= k < |r| ==> p(r[k])
  {
    forall k | 0 <= k < |r|
      ensures p(r[k])
    {
      if k >= |a| {
        assert r[k] == b[k - |a|];
      }
    }
  }

  /** When `r = a + b` is shorter than `n`, `b` is shorter than what `a` leaves of `n`. */
  lemma ConcatLength<T>(r: seq<T>, a: seq<T>, b: seq<T>, n: int)
    requires r == a + b && |r| < n
    ensures |b| < n - |a|
  {
  }

  /** A key of either part of `r = a + b` is a key of `r`; the keys of `a` may be given
      as the set a later run treats as used. */
  lemma ConcatKey<K(!new), T>(r: seq<(K, T)>, a: seq<(K, T)>, b: seq<(K, T)>, x: K)
    requires r == a + b
    requires x in Elems(Firsts(a)) || x in Firsts(b)
    ensures x in Firsts(r)
  {
    if x in Firsts(a) {
      var i :| 0 <= i < |a| && Firsts(a)[i] == x;
      assert Firsts(r)[i] == x;
    } else {
      var i :| 0 <= i < |b| && Firsts(b)[i] == x;
      assert Firsts(r)[|a| + i] == x;
    }
  }

  /** A key of the first part of `r = a + b`, where every element of `a` passes `p`, is
      the key of an element of `r` that passes `p`. */
  lemma ConcatKeyFirst<K, T>(r: seq<(K, T)>, a: seq<(K, T)>, b: seq<(K, T)>, x: K, p: ((K, T)) -> bool)
    requires r == a + b && x in Firsts(a)
    requires forall k :: 0 <= k < |a| ==> p(a[k])
    ensures exists k :: 0 <= k < |r| && r[k].0 == x && p(r[k])
  {
    var i :| 0 <= i < |a| && Firsts(a)[i] == x;
    assert r[i] == a[i];
  }

  /** `p` is the item candidate `j` made, under that candidate's key. */
  predicate Picked<K(==), T(==)>(keys: seq<K>, made: seq<Option<T>>, p: (K, T))
  {
    exists j :: 0 <= j < |keys| && j < |made| && keys[j] == p.0 && made[j] == Some(p.1)
  }

  /** The generators' loop over candidates in priority order: a candidate whose key was
      already used, or that made nothing, is skipped; the others are kept, and their keys
      become used, until `room` items were kept. */
  function Collect<K(==), T(==)>(keys: seq<K>, made: seq<Option<T>>, used: set<K>, room: nat): (r: seq<(K, T)>)
    requires |keys| == |made|
    ensures |r| <= room && |r| <= |keys|
    ensures NoDup(Firsts(r))
    ensures forall k :: 0 <= k < |r| ==> r[k].0 !in used
    ensures forall k :: 0 <= k < |r| ==> Picked(keys, made, r[k])
    decreases |keys|
  {
    if |keys| == 0 || room == 0 then []
    else
      var take := keys[0] !in used && made[0].Some?;
      var tail := Collect(keys[1..], made[1..], if take then used + {keys[0]} else used,
        if take then room - 1 else room);
      PickedLater(keys, made, tail);
      if !take then tail
      else
        var x := (keys[0], made[0].value);
        assert Picked(keys, made, x) by { assert keys[0] == x.0; }
        assert Firsts([x] + tail) == [keys[0]] + Firsts(tail);
        NoDupConcat([keys[0]], Firsts(tail));
        [x] + tail
  }

  /** `Collect` stops early only when the room is full: if it kept fewer than `room`
      items, every candidate that made an item under an unused key has its key kept. */
  lemma {:induction false} CollectComplete<K, T>(keys: seq<K>, made: seq<Option<T>>, used: set<K>, room: nat, j: nat)
    requires |keys| == |made| && j < |keys|
    requires made[j].Some? && keys[j] !in used
    requires |Collect(keys, made, used, room)| < room
    ensures keys[j] in Firsts(Collect(keys, made, used, room))
    decreases |keys|
  {
    var take := keys[0] !in used && made[0].Some?;
    var used' := if take then used + {keys[0]} else used;
    var room' := if take then room - 1 else room;
    var tail := Collect(keys[1..], made[1..], used', room');
    var r := Collect(keys, made, used, room);
    if take {
      assert r == [(keys[0], made[0].value)] + tail;
      if j > 0 && keys[j] != keys[0] {
        CollectComplete(keys[1..], made[1..], used', room', j - 1);
        var i :| 0 <= i < |Firsts(tail)| && Firsts(tail)[i] == keys[j];
        assert r[i + 1] == tail[i];
        assert Firsts(r)[i + 1] == keys[j];
      } else {
        assert Firsts(r)[0] == keys[0];
      }
    } else {
      assert j > 0;
      assert Collect(keys, made, used, room) == tail;
      CollectComplete(keys[1..], made[1..], used', room', j - 1);
    }
  }

  lemma PickedLater<K, T>(keys: seq<K>, made: seq<Option<T>>, rest: seq<(K, T)>)
    requires 0 < |keys| == |made|
    requires forall k :: 0 <= k < |rest| ==> Picked(keys[1..], made[1..], rest[k])
    ensures forall k :: 0 <= k < |rest| ==> Picked(keys, made, rest[k])
  {
    forall k | 0 <= k < |rest|
      ensures Picked(keys, made, rest[k])
    {
      assert Picked(keys[1..], made[1..], rest[k]);
      var j :| 0 <= j < |keys[1..]| && j < |made[1..]| && keys[1..][j] == rest[k].0 && made[1..][j] == Some(rest[k].1);
      assert keys[j + 1] == rest[k].0 && made[j + 1] == Some(rest[k].1);
    }
  }

  /** Whatever holds of every item a candidate makes, paired with its key, holds of every
      item `Collect` keeps. */
  lemma CollectKeeps<K, T>(keys: seq<K>, made: seq<Option<T>>, used: set<K>, room: nat, p: ((K, T)) -> bool)
    requires |keys| == |made|
    requires forall j :: 0 <= j < |keys| && made[j].Some? ==> p((keys[j], made[j].value))
    ensures forall k :: 0 <= k < |Collect(keys, made, used, room)| ==> p(Collect(keys, made, used, room)[k])
  {
    var r := Collect(keys, made, used, room);
    forall k | 0 <= k < |r|
      ensures p(r[k])
    {
      var j :| 0 <= j < |keys| && j < |made| && keys[j] == r[k].0 && made[j] == Some(r[k].1);
      assert (keys[j], made[j].value) == r[k];
    }
  }

  /** A non-empty sequence holds its first element. */
  lemma FirstMember<T>(xs: seq<T>)
    ensures |xs| > 0 ==> xs[0] in xs
  {
  }
}
