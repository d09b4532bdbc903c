/** A Python dict as both programs build them: assigning to a new key appends
    it to the iteration order, assigning to a present key replaces the value
    and keeps the key where it was. */
module Dicts {
  import opened Wrappers
  import opened Texts

  datatype Dict<K, V> = Dict(order: seq<K>, entries: map<K, V>)

  /** The keys in iteration order are distinct and are exactly the keys of the entries. */
  ghost predicate Valid<K, V>(d: Dict<K, V>) {
    && (forall i, j | 0 <= i < j < |d.order| :: d.order[i] != d.order[j])
    && (forall k | k in d.entries :: k in d.order)
    && (forall i | 0 <= i < |d.order| :: d.order[i] in d.entries)
  }

  function Empty<K, V>(): (d: Dict<K, V>)
    ensures Valid(d) && |d.entries| == 0
  {
    Dict([], map[])
  }

  /** `d[k] = v`. */
  function Put<K, V>(d: Dict<K, V>, k: K, v: V): (r: Dict<K, V>)
    ensures r.entries == d.entries[k := v]
  {
    if k in d.entries then Dict(d.order, d.entries[k := v])
    else Dict(d.order + [k], d.entries[k := v])
  }

  /** Assigning keeps a dict well formed: a present key stays where it was,
      a new one goes to the end of the iteration order. */
  lemma PutKeepsValid<K, V>(d: Dict<K, V>, k: K, v: V)
    requires Valid(d)
    ensures Valid(Put(d, k, v))
    ensures k in d.entries ==> Put(d, k, v).order == d.order
    ensures k !in d.entries ==> Put(d, k, v).order == d.order + [k]
  {
  }

  /** The dict obtained by performing the assignments `ws` in order on an empty dict. */
  function PutAll<K, V>(ws: seq<(K, V)>): Dict<K, V> {
    if |ws| == 0 then Empty() else Put(PutAll(ws[..|ws| - 1]), ws[|ws| - 1].0, ws[|ws| - 1].1)
  }

  /** The keys of the dict are the keys assigned, at most one per assignment. */
  lemma {:induction false} PutAllKeys<K, V>(ws: seq<(K, V)>)
    ensures forall k :: k in PutAll(ws).entries <==> k in KeysOf(ws)
    ensures |PutAll(ws).entries| <= |ws|
  {
    if |ws| != 0 {
      var init := ws[..|ws| - 1];
      PutAllKeys(init);
      assert KeysOf(ws) == KeysOf(init) + [ws[|ws| - 1].0];
    }
  }

  /** The iteration order lists each key of the dict once. */
  lemma {:induction false} PutAllValid<K, V>(ws: seq<(K, V)>)
    ensures Valid(PutAll(ws))
  {
    if |ws| != 0 {
      var init := ws[..|ws| - 1];
      PutAllValid(init);
      PutKeepsValid(PutAll(init), ws[|ws| - 1].0, ws[|ws| - 1].1);
    }
  }

  /** The value of the last assignment to `k` in `ws`, if any. */
  function LastWrite<K(==), V>(ws: seq<(K, V)>, k: K): (r: Option<V>)
    ensures r.None? <==> forall i | 0 <= i < |ws| :: ws[i].0 != k
  {
    if |ws| == 0 then None
    else if ws[|ws| - 1].0 == k then Some(ws[|ws| - 1].1)
    else
      assert forall i | 0 <= i < |ws| - 1 :: ws[..|ws| - 1][i] == ws[i];
      LastWrite(ws[..|ws| - 1], k)
  }

  /** Last write wins: after a run of assignments, a key is present exactly
      when it was assigned, and it holds the value of its last assignment. */
  lemma {:induction false} LastWriteWins<K, V>(ws: seq<(K, V)>, k: K)
    ensures k in PutAll(ws).entries <==> LastWrite(ws, k).Some?
    ensures k in PutAll(ws).entries ==> PutAll(ws).entries[k] == LastWrite(ws, k).value
  {
    if |ws| != 0 && ws[|ws| - 1].0 != k {
      LastWriteWins(ws[..|ws| - 1], k);
    }
  }

  /** The last write to `k` is the one at `i` when no later write names `k`. */
  lemma {:induction false} LastWriteAt<K, V>(ws: seq<(K, V)>, k: K, i: nat)
    requires i < |ws| && ws[i].0 == k
    requires forall j | i < j < |ws| :: ws[j].0 != k
    ensures LastWrite(ws, k) == Some(ws[i].1)
  {
    if i < |ws| - 1 {
      var init := ws[..|ws| - 1];
      assert init[i] == ws[i];
      LastWriteAt(init, k, i);
    }
  }

  /** The value a key holds comes from the write at the key's last index. */
  lemma LastWriteIsLastKey<K, V>(ws: seq<(K, V)>, k: K)
    requires LastIndex(KeysOf(ws), k).Some?
    ensures var i := LastIndex(KeysOf(ws), k).value;
            k in PutAll(ws).entries && PutAll(ws).entries[k] == ws[i].1
  {
    LastWriteAt(ws, k, LastIndex(KeysOf(ws), k).value);
    LastWriteWins(ws, k);
  }

  /** The keys of `ks` without repetitions, each where it first occurs. */
  function FirstSeen<K(==)>(ks: seq<K>): seq<K> {
    if |ks| == 0 then []
    else if ks[|ks| - 1] in ks[..|ks| - 1] then FirstSeen(ks[..|ks| - 1])
    else FirstSeen(ks[..|ks| - 1]) + [ks[|ks| - 1]]
  }

  function KeysOf<K, V>(ws: seq<(K, V)>): (ks: seq<K>)
    ensures |ks| == |ws| && forall i | 0 <= i < |ws| :: ks[i] == ws[i].0
  {
    seq(|ws|, i requires 0 <= i < |ws| => ws[i].0)
  }

  /** Iteration order is the order in which keys were first assigned, however
      often they were overwritten later. */
  lemma {:induction false} OrderIsFirstSeen<K, V>(ws: seq<(K, V)>)
    ensures PutAll(ws).order == FirstSeen(KeysOf(ws))
  {
    if |ws| != 0 {
      var init := ws[..|ws| - 1];
      OrderIsFirstSeen(init);
      assert KeysOf(ws)[..|ws| - 1] == KeysOf(init);
      var k := ws[|ws| - 1].0;
      PutAllKeys(init);
      assert k in KeysOf(init) <==> k in PutAll(init).entries;
    }
  }
}
