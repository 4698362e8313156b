/** Shared vocabulary of the collision-risk pipeline: an optional value (Python's `None`
    or a value), a few real-number helpers, and the bounded append that every
    per-identity history uses (`collections.deque(maxlen = cap).append`). */
module Base {

  datatype Option<+T> = None | Some(value: T) {

    /** The encapsulated value, or `default` when there is none (`dict.get(key, default)`). */
    function GetOr(default: T): T {
      match this
      case Some(v) => v
      case None => default
    }
  }

  function Max(a: real, b: real): real {
    if a >= b then a else b
  }

  function Abs(x: real): real {
    if x < 0.0 then -x else x
  }

  /** The last `n` elements of `s`, or all of `s` when it is shorter. */
  function LastN<T>(s: seq<T>, n: nat): (r: seq<T>)
    ensures |r| == if |s| <= n then |s| else n
    ensures forall i :: 0 <= i < |r| ==> r[i] == s[|s| - |r| + i]
  {
    if |s| <= n then s else s[|s| - n..]
  }

  /** Appending `x` to a deque bounded by `cap`: the new item goes on the right and, once
      the deque is full, the oldest item on the left is evicted. */
  function Push<T>(s: seq<T>, x: T, cap: nat): (r: seq<T>)
    ensures |r| == if |s| < cap then |s| + 1 else cap
    ensures |s| < cap ==> r == s + [x]
    ensures cap >= 1 ==> r[|r| - 1] == x
    ensures forall i :: 0 <= i < |r| - 1 ==> r[i] == s[|s| - |r| + 1 + i]
  {
    var t := s + [x];
    var r := LastN(t, cap);
    assert forall i :: 0 <= i < |r| - 1 ==> r[i] == t[|t| - |r| + i];
    r
  }

  /** A push into a full window drops exactly the oldest item. */
  lemma PushFull<T>(s: seq<T>, x: T, cap: nat)
    requires cap >= 1
    ensures |s| >= cap ==> Push(s, x, cap) == s[|s| - cap + 1..] + [x]
  {
    if |s| >= cap {
      var r, t := Push(s, x, cap), s[|s| - cap + 1..] + [x];
      forall i | 0 <= i < |t|
        ensures r[i] == t[i]
      {
        if i < |t| - 1 {
          assert r[i] == s[|s| - |r| + 1 + i];
        }
      }
    }
  }

  /** Trimming to the last `n` items before appending more changes nothing once the
      result is trimmed again. */
  lemma LastNAbsorbs<T>(a: seq<T>, b: seq<T>, n: nat)
    ensures LastN(LastN(a, n) + b, n) == LastN(a + b, n)
  {
    var l := LastN(LastN(a, n) + b, n);
    var r := LastN(a + b, n);
    assert |l| == |r|;
    forall i | 0 <= i < |l|
      ensures l[i] == r[i]
    {
      var t := LastN(a, n) + b;
      var j := |t| - |l| + i;
      if j < |LastN(a, n)| {
        assert t[j] == LastN(a, n)[j];
      } else {
        assert t[j] == b[j - |LastN(a, n)|];
      }
    }
  }


  /** Pushing `x` and then appending `b`, trimmed again, is trimming the whole run. */
  lemma PushAbsorbs<T>(a: seq<T>, x: T, b: seq<T>, n: nat)
    ensures LastN(Push(a, x, n) + b, n) == LastN(a + ([x] + b), n)
  {
    LastNAbsorbs(a + [x], b, n);
    assert a + [x] + b == a + ([x] + b);
  }
  /** The window a bounded deque keeps: pushing one item after another, starting from a
      deque that already respects the bound, always leaves the last `cap` items pushed. */
  lemma {:induction false} PushKeepsWindow<T>(s: seq<T>, xs: seq<T>, cap: nat)
    requires |s| <= cap
    ensures PushAll(s, xs, cap) == LastN(s + xs, cap)
    decreases |xs|
  {
    if |xs| == 0 {
      assert s + xs == s;
    } else {
      var x, rest := xs[0], xs[1..];
      var pushed := Push(s, x, cap);
      PushAllUnfold(s, xs, cap);
      PushKeepsWindow(pushed, rest, cap);
      LastNAbsorbs(s + [x], rest, cap);
      SplitFirst(s, xs);
    }
  }

  lemma PushAllUnfold<T>(s: seq<T>, xs: seq<T>, cap: nat)
    requires |xs| > 0
    ensures PushAll(s, xs, cap) == PushAll(LastN(s + [xs[0]], cap), xs[1..], cap)
  {
  }

  lemma SplitFirst<T>(s: seq<T>, xs: seq<T>)
    requires |xs| > 0
    ensures s + [xs[0]] + xs[1..] == s + xs
  {
    assert xs == [xs[0]] + xs[1..];
  }

  /** Pushing every item of `xs`, left to right, into a deque bounded by `cap`. */
  function PushAll<T>(s: seq<T>, xs: seq<T>, cap: nat): (r: seq<T>)
    ensures |r| <= cap || (|xs| == 0 && r == s)
    decreases |xs|
  {
    if |xs| == 0 then s else PushAll(Push(s, xs[0], cap), xs[1..], cap)
  }

  /** The history filed under `k` in a map of deques, empty when `k` has none yet. */
  function HistoryOf<K(==), T>(hist: map<K, seq<T>>, k: K): seq<T> {
    if k in hist then hist[k] else []
  }

  /** Filing `x` under `k` in a map of deques bounded by `cap`: a fresh deque when `k`
      has none, an append to its deque otherwise; every other key is untouched. */
  function FileOne<K(==), T>(hist: map<K, seq<T>>, k: K, x: T, cap: nat): (r: map<K, seq<T>>)
    ensures r.Keys == hist.Keys + {k}
    ensures forall j :: j in hist && j != k ==> r[j] == hist[j]
  {
    hist[k := Push(HistoryOf(hist, k), x, cap)]
  }

  /** Filing every `(key, item)` entry in turn. */
  function FileAll<K(==), T>(hist: map<K, seq<T>>, es: seq<(K, T)>, cap: nat): map<K, seq<T>>
    decreases |es|
  {
    if |es| == 0 then hist else FileAll(FileOne(hist, es[0].0, es[0].1, cap), es[1..], cap)
  }

  /** The items `es` files under `k`, in order. */
  function SamplesOf<K(==), T>(es: seq<(K, T)>, k: K): seq<T>
    decreases |es|
  {
    if |es| == 0 then []
    else (if es[0].0 == k then [es[0].1] else []) + SamplesOf(es[1..], k)
  }

  /** `k`'s deque once the items `es` files under it are appended to its deque in
      `before`, keeping the newest `cap`; unchanged when `es` files nothing under `k`. */
  function Extension<K(==), T>(before: map<K, seq<T>>, es: seq<(K, T)>, cap: nat, k: K): seq<T> {
    if SamplesOf(es, k) == [] then HistoryOf(before, k)
    else LastN(HistoryOf(before, k) + SamplesOf(es, k), cap)
  }

  /** Every deque `after` holds is its key's `Extension` of `before` by `es`. */
  ghost predicate Extended<K, T>(before: map<K, seq<T>>, es: seq<(K, T)>, cap: nat, after: map<K, seq<T>>) {
    forall k :: k in after ==> after[k] == Extension(before, es, cap, k)
  }

  /** Filing a run of entries one by one extends each key's deque by exactly the items
      filed under it, keeping the newest `cap`; a key ends up present exactly when it was
      present before or received an item. */
  lemma {:induction false} FileAllContents<K, T>(hist: map<K, seq<T>>, es: seq<(K, T)>, cap: nat, k: K)
    ensures k in FileAll(hist, es, cap) <==> k in hist || SamplesOf(es, k) != []
    ensures k in FileAll(hist, es, cap) ==> FileAll(hist, es, cap)[k] == Extension(hist, es, cap, k)
    decreases |es|
  {
    if |es| > 0 {
      var k0, x := es[0].0, es[0].1;
      var h1 := FileOne(hist, k0, x, cap);
      var rest := SamplesOf(es[1..], k);
      FileAllContents(h1, es[1..], cap, k);
      assert SamplesOf(es, k) == (if k0 == k then [x] else []) + rest;
      if k0 == k {
        var h := HistoryOf(hist, k);
        assert HistoryOf(h1, k) == Push(h, x, cap);
        PushAbsorbs(h, x, rest, cap);
        if rest == [] {
          assert Push(h, x, cap) + rest == Push(h, x, cap);
          assert [x] + rest == [x];
        }
      } else {
        assert SamplesOf(es, k) == rest;
        assert HistoryOf(h1, k) == HistoryOf(hist, k);
      }
    }
  }

  /** Consequently the filed map is `Extended` from the old one, and has exactly the old
      keys and the keys that received an item. */
  lemma FileAllExtends<K, T>(hist: map<K, seq<T>>, es: seq<(K, T)>, cap: nat)
    ensures Extended(hist, es, cap, FileAll(hist, es, cap))
    ensures forall k :: k in FileAll(hist, es, cap) <==> k in hist || SamplesOf(es, k) != []
  {
    var after := FileAll(hist, es, cap);
    forall k | k in after
      ensures after[k] == Extension(hist, es, cap, k)
    {
      FileAllContents(hist, es, cap, k);
    }
    forall k
      ensures k in after <==> k in hist || SamplesOf(es, k) != []
    {
      FileAllContents(hist, es, cap, k);
    }
  }

  /** Dropping keys keeps a map `Extended`. */
  lemma ExtendedRestrict<K, T>(before: map<K, seq<T>>, es: seq<(K, T)>, cap: nat, full: map<K, seq<T>>, kept: map<K, seq<T>>)
    requires Extended(before, es, cap, full)
    requires forall k :: k in kept ==> k in full && kept[k] == full[k]
    ensures Extended(before, es, cap, kept)
  {
  }
}
