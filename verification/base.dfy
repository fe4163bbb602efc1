/** Small shared vocabulary: an optional value, dictionary lookup, and the
    sequence operations the rest of the model is stated with. */
module Base {

  /** A value that may be missing: Python's `None`, JavaScript's `undefined`. */
  datatype Option<T> = None | Some(value: T) {

    /** The wrapped value, or `default` when there is none. */
    function GetOr(default: T): T {
      match this
      case Some(v) => v
      case None => default
    }
  }

  /** `m.get(k)`: the value stored under `k`, if any. */
  function Lookup<K, V>(m: map<K, V>, k: K): (r: Option<V>)
    ensures r.Some? <==> k in m
    ensures r.Some? ==> r.value == m[k]
  {
    if k in m then Some(m[k]) else None
  }

  function Min(a: int, b: int): int {
    if a <= b then a else b
  }

  /** The last `n` elements of `s` (all of `s` when it is shorter), in order. */
  function LastN<T>(s: seq<T>, n: nat): (r: seq<T>)
    ensures |r| == Min(|s|, n)
    ensures forall i :: 0 <= i < |r| ==> r[i] == s[|s| - |r| + i]
  {
    s[|s| - Min(|s|, n)..]
  }

  /** `s` back to front. */
  function Reverse<T>(s: seq<T>): (r: seq<T>)
    ensures |r| == |s|
    ensures forall i :: 0 <= i < |s| ==> r[i] == s[|s| - 1 - i]
  {
    if |s| == 0 then [] else [s[|s| - 1]] + Reverse(s[..|s| - 1])
  }

  lemma ReverseAt<T>(s: seq<T>, i: nat)
    requires i < |s|
    ensures Reverse(s)[i] == s[|s| - 1 - i]
  {
  }

  lemma {:induction false} ReverseAppend<T>(a: seq<T>, b: seq<T>)
    ensures Reverse(a + b) == Reverse(b) + Reverse(a)
  {
    var r := Reverse(a + b);
    assert |r| == |Reverse(b) + Reverse(a)|;
    forall i | 0 <= i < |r|
      ensures r[i] == (Reverse(b) + Reverse(a))[i]
    {
      if i < |b| {
        assert r[i] == (a + b)[|a| + |b| - 1 - i];
      } else {
        assert r[i] == (a + b)[|a| + |b| - 1 - i];
      }
    }
  }

  lemma ConsAfterSnoc<T>(a: seq<T>, x: T, b: seq<T>)
    ensures (a + [x]) + b == a + ([x] + b)
  {
  }

  lemma LastOfTail<T>(s: seq<T>)
    requires |s| > 1
    ensures s[1..][|s| - 2] == s[|s| - 1]
  {
  }

  /** The head and tail of a concatenation with a non-empty left part. */
  lemma AppendHead<T>(a: seq<T>, b: seq<T>)
    requires |a| > 0
    ensures (a + b)[0] == a[0] && (a + b)[1..] == a[1..] + b
  {
  }

  lemma ConcatAssoc<T>(x: seq<T>, y: seq<T>, z: seq<T>)
    ensures x + (y + z) == (x + y) + z
  {
  }

  /** The values of the longest prefix of `xs` holding no `None`. */
  function TakeWhileSome<T>(xs: seq<Option<T>>): (r: seq<T>)
    ensures |r| <= |xs|
    ensures forall i :: 0 <= i < |r| ==> xs[i] == Some(r[i])
    ensures |r| < |xs| ==> xs[|r|].None?
    decreases |xs|
  {
    if |xs| == 0 || xs[0].None? then []
    else
      var rest := TakeWhileSome(xs[1..]);
      assert forall i :: 1 <= i <= |rest| ==> xs[i] == xs[1..][i - 1];
      [xs[0].value] + rest
  }

  lemma Singleton<T>(s: seq<T>, x: T)
    requires |s| == 1 && s[0] == x
    ensures s == [x]
  {
  }
}
