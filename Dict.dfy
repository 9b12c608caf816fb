/** A Python `dict` with string keys: a sequence of (key, value) pairs in
    insertion order. Iteration order is insertion order, `d[k] = v` replaces a
    present key in place and appends a new one, and `d.get(k)` finds the key. */
module Dict {
  import opened Base

  /** The keys in iteration order (`list(d)`). */
  function Keys<V>(d: seq<(string, V)>): (ks: seq<string>)
    ensures |ks| == |d|
    ensures forall i :: 0 <= i < |d| ==> ks[i] == d[i].0
  {
    if d == [] then [] else [d[0].0] + Keys(d[1..])
  }

  /** What every real dict satisfies: no key occurs twice. */
  predicate DistinctKeys<V>(d: seq<(string, V)>) {
    forall i, j :: 0 <= i < j < |d| ==> d[i].0 != d[j].0
  }

  /** `d.get(k)`: the value stored under `k`, or None when `k` is absent. */
  function Get<V>(d: seq<(string, V)>, k: string): (r: Option<V>)
    ensures r.None? <==> k !in Keys(d)
    ensures r.Some? ==> (k, r.value) in d
  {
    if d == [] then None
    else if d[0].0 == k then Some(d[0].1)
    else
      assert Keys(d) == [d[0].0] + Keys(d[1..]);
      Get(d[1..], k)
  }

  lemma KeysCons<V>(p: (string, V), d: seq<(string, V)>)
    ensures Keys([p] + d) == [p.0] + Keys(d)
  {
    assert ([p] + d)[1..] == d;
  }

  lemma GetCons<V>(p: (string, V), d: seq<(string, V)>, k: string)
    ensures Get([p] + d, k) == if p.0 == k then Some(p.1) else Get(d, k)
  {
    assert ([p] + d)[1..] == d;
  }

  lemma DistinctCons<V>(p: (string, V), d: seq<(string, V)>)
    requires DistinctKeys(d) && p.0 !in Keys(d)
    ensures DistinctKeys([p] + d)
  {
    var r := [p] + d;
    forall i, j | 0 <= i < j < |r| ensures r[i].0 != r[j].0 {
      if i == 0 {
        assert r[j].0 == Keys(d)[j - 1];
      } else {
        assert r[i] == d[i - 1] && r[j] == d[j - 1];
      }
    }
  }

  lemma DistinctTail<V>(d: seq<(string, V)>)
    requires d != [] && DistinctKeys(d)
    ensures DistinctKeys(d[1..]) && d[0].0 !in Keys(d[1..])
  {
    forall i | 0 <= i < |d[1..]| ensures Keys(d[1..])[i] != d[0].0 {
      assert d[1..][i] == d[i + 1];
    }
  }

  /** `d[k] = v`: the key keeps its position when present and is appended
      otherwise; no other key's value changes. */
  function Put<V>(d: seq<(string, V)>, k: string, v: V): (r: seq<(string, V)>)
    ensures Keys(r) == if k in Keys(d) then Keys(d) else Keys(d) + [k]
    ensures Get(r, k) == Some(v)
    ensures forall k' :: k' != k ==> Get(r, k') == Get(d, k')
    ensures DistinctKeys(d) ==> DistinctKeys(r)
  {
    if d == [] then [(k, v)]
    else if d[0].0 == k then
      KeysCons((k, v), d[1..]);
      KeysCons(d[0], d[1..]);
      assert [d[0]] + d[1..] == d;
      GetCons((k, v), d[1..], k);
      assert forall k' :: k' != k ==> Get([(k, v)] + d[1..], k') == Get([d[0]] + d[1..], k') by {
        forall k' | k' != k ensures Get([(k, v)] + d[1..], k') == Get([d[0]] + d[1..], k') {
          GetCons((k, v), d[1..], k');
          GetCons(d[0], d[1..], k');
        }
      }
      [(k, v)] + d[1..]
    else
      var rest := Put(d[1..], k, v);
      PutBehind(d, k, v, rest);
      [d[0]] + rest
  }

  lemma PutBehind<V>(d: seq<(string, V)>, k: string, v: V, rest: seq<(string, V)>)
    requires d != [] && d[0].0 != k
    requires Keys(rest) == if k in Keys(d[1..]) then Keys(d[1..]) else Keys(d[1..]) + [k]
    requires Get(rest, k) == Some(v)
    requires forall k' :: k' != k ==> Get(rest, k') == Get(d[1..], k')
    requires DistinctKeys(d[1..]) ==> DistinctKeys(rest)
    ensures Keys([d[0]] + rest) == if k in Keys(d) then Keys(d) else Keys(d) + [k]
    ensures Get([d[0]] + rest, k) == Some(v)
    ensures forall k' :: k' != k ==> Get([d[0]] + rest, k') == Get(d, k')
    ensures DistinctKeys(d) ==> DistinctKeys([d[0]] + rest)
  {
    PutBehindKeys(d, k, rest);
    GetCons(d[0], rest, k);
    PutBehindGet(d, k, rest);
    if DistinctKeys(d) {
      DistinctTail(d);
      DistinctCons(d[0], rest);
    }
  }

  lemma PutBehindKeys<V>(d: seq<(string, V)>, k: string, rest: seq<(string, V)>)
    requires d != [] && d[0].0 != k
    requires Keys(rest) == if k in Keys(d[1..]) then Keys(d[1..]) else Keys(d[1..]) + [k]
    ensures Keys([d[0]] + rest) == if k in Keys(d) then Keys(d) else Keys(d) + [k]
  {
    assert [d[0]] + d[1..] == d;
    KeysCons(d[0], rest);
    KeysCons(d[0], d[1..]);
    if k !in Keys(d[1..]) {
      assert [d[0].0] + (Keys(d[1..]) + [k]) == ([d[0].0] + Keys(d[1..])) + [k];
    }
  }

  lemma PutBehindGet<V>(d: seq<(string, V)>, k: string, rest: seq<(string, V)>)
    requires d != []
    requires forall k' :: k' != k ==> Get(rest, k') == Get(d[1..], k')
    ensures forall k' :: k' != k ==> Get([d[0]] + rest, k') == Get(d, k')
  {
    assert [d[0]] + d[1..] == d;
    forall k' | k' != k ensures Get([d[0]] + rest, k') == Get(d, k') {
      GetCons(d[0], rest, k');
      GetCons(d[0], d[1..], k');
    }
  }

  /** `d` without the key `k`: what a receiver computes before checking a
      signature that was stored in the dict under `k`. */
  function Remove<V>(d: seq<(string, V)>, k: string): (r: seq<(string, V)>)
    ensures forall k' :: k' in Keys(r) <==> k' in Keys(d) && k' != k
    ensures forall k' :: k' != k ==> Get(r, k') == Get(d, k')
    ensures DistinctKeys(d) ==> DistinctKeys(r)
  {
    if d == [] then []
    else
      var rest := Remove(d[1..], k);
      assert [d[0]] + d[1..] == d;
      KeysCons(d[0], d[1..]);
      assert forall k' :: Get(d, k') == if d[0].0 == k' then Some(d[0].1) else Get(d[1..], k') by {
        forall k' ensures Get(d, k') == if d[0].0 == k' then Some(d[0].1) else Get(d[1..], k') {
          GetCons(d[0], d[1..], k');
        }
      }
      assert DistinctKeys(d) ==> DistinctKeys(d[1..]) && d[0].0 !in Keys(d[1..]) by {
        if DistinctKeys(d) { DistinctTail(d); }
      }
      if d[0].0 == k then rest
      else
        KeysCons(d[0], rest);
        assert forall k' :: Get([d[0]] + rest, k') == if d[0].0 == k' then Some(d[0].1) else Get(rest, k') by {
          forall k' ensures Get([d[0]] + rest, k') == if d[0].0 == k' then Some(d[0].1) else Get(rest, k') {
            GetCons(d[0], rest, k');
          }
        }
        assert DistinctKeys(d) ==> DistinctKeys([d[0]] + rest) by {
          if DistinctKeys(d) { DistinctCons(d[0], rest); }
        }
        [d[0]] + rest
  }

  /** A new key goes to the end. */
  lemma {:induction false} PutAbsent<V>(d: seq<(string, V)>, k: string, v: V)
    requires k !in Keys(d)
    ensures Put(d, k, v) == d + [(k, v)]
  {
    if d != [] {
      KeysCons(d[0], d[1..]);
      assert [d[0]] + d[1..] == d;
      PutAbsent(d[1..], k, v);
      assert [d[0]] + (d[1..] + [(k, v)]) == d + [(k, v)];
    }
  }

  /** Removing an absent key changes nothing. */
  lemma {:induction false} RemoveAbsent<V>(d: seq<(string, V)>, k: string)
    requires k !in Keys(d)
    ensures Remove(d, k) == d
  {
    if d != [] {
      KeysCons(d[0], d[1..]);
      assert [d[0]] + d[1..] == d;
      RemoveAbsent(d[1..], k);
    }
  }

  /** Adding a new key and removing it again gives back the dict: what a
      receiver strips is exactly what the sender had before it added. */
  lemma {:induction false} RemovePut<V>(d: seq<(string, V)>, k: string, v: V)
    requires k !in Keys(d)
    ensures Remove(Put(d, k, v), k) == d
  {
    PutAbsent(d, k, v);
    RemoveAppended(d, k, v);
  }

  lemma {:induction false} RemoveAppended<V>(d: seq<(string, V)>, k: string, v: V)
    requires k !in Keys(d)
    ensures Remove(d + [(k, v)], k) == d
  {
    if d == [] {
      assert Remove([(k, v)], k) == Remove([], k);
    } else {
      KeysCons(d[0], d[1..]);
      assert [d[0]] + d[1..] == d;
      assert (d + [(k, v)])[1..] == d[1..] + [(k, v)];
      RemoveAppended(d[1..], k, v);
    }
  }
}
