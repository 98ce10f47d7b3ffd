/**
 Merging keyed lists: the linear-scan merge that says what inheritance means,
 and the indexed merge that computes it.  A later entry with a known key takes
 the place of the earlier one; an entry with a new key goes to the end.
 */
module IndexedMerge {

  // ----- linear scan -----

  function Put<V, K(==)>(entries: seq<V>, v: V, key: V -> K): (r: seq<V>) {
    if entries == [] then [v]
    else if key(entries[0]) == key(v) then [v] + entries[1..]
    else [entries[0]] + Put(entries[1..], v, key)
  }

  function PutAll<V, K(==)>(entries: seq<V>, vs: seq<V>, key: V -> K): (r: seq<V>)
    decreases |vs|
  {
    if vs == [] then entries else PutAll(Put(entries, vs[0], key), vs[1..], key)
  }

  // ----- the meaning of the linear scan -----

  predicate DistinctKeys<V, K(==)>(entries: seq<V>, key: V -> K) {
    forall i, j :: 0 <= i < j < |entries| ==> key(entries[i]) != key(entries[j])
  }

  predicate HasKey<V, K(==)>(entries: seq<V>, k: K, key: V -> K) {
    exists i :: 0 <= i < |entries| && key(entries[i]) == k
  }

  /** The last entry with a key. */
  function LastWith<V, K(==)>(entries: seq<V>, k: K, key: V -> K): (v: V)
    requires HasKey(entries, k, key)
  {
    if key(entries[|entries| - 1]) == k then entries[|entries| - 1]
    else LastWith(entries[..|entries| - 1], k, key)
  }

  /** Keys in the order they are first seen. */
  function FirstSeen<V, K(==)>(entries: seq<V>, key: V -> K): (r: seq<K>) {
    if entries == [] then []
    else
      var before := FirstSeen(entries[..|entries| - 1], key);
      var k := key(entries[|entries| - 1]);
      if k in before then before else before + [k]
  }

  function Keys<V, K>(entries: seq<V>, key: V -> K): (r: seq<K>)
    ensures |r| == |entries| && forall i :: 0 <= i < |r| ==> r[i] == key(entries[i])
  {
    seq(|entries|, i requires 0 <= i < |entries| => key(entries[i]))
  }

  /** What a merged list is: the keys in first-seen order, each with its last entry. */
  ghost predicate Merges<V, K>(history: seq<V>, merged: seq<V>, key: V -> K) {
    && Keys(merged, key) == FirstSeen(history, key)
    && forall i :: 0 <= i < |merged| ==>
         HasKey(history, key(merged[i]), key) && merged[i] == LastWith(history, key(merged[i]), key)
  }

  lemma {:induction false} FirstSeenKeys<V, K>(history: seq<V>, k: K, key: V -> K)
    ensures k in FirstSeen(history, key) <==> HasKey(history, k, key)
    ensures forall i, j :: 0 <= i < j < |FirstSeen(history, key)| ==>
              FirstSeen(history, key)[i] != FirstSeen(history, key)[j]
  {
    if history != [] {
      var front := history[..|history| - 1];
      FirstSeenKeys(front, k, key);
      if i :| 0 <= i < |history| && key(history[i]) == k {
        if i < |front| { assert key(front[i]) == k; }
      }
      if i :| 0 <= i < |front| && key(front[i]) == k {
        assert key(history[i]) == k;
      }
    }
  }

  lemma MergesDistinct<V, K>(history: seq<V>, merged: seq<V>, key: V -> K)
    requires Merges(history, merged, key)
    ensures DistinctKeys(merged, key)
  {
    forall i, j | 0 <= i < j < |merged| ensures key(merged[i]) != key(merged[j]) {
      FirstSeenKeys(history, key(merged[i]), key);
      assert Keys(merged, key)[i] == key(merged[i]) && Keys(merged, key)[j] == key(merged[j]);
    }
  }

  /** Putting one entry replaces exactly the entry with its key, or appends it. */
  lemma {:induction false} PutReplaces<V, K>(entries: seq<V>, v: V, key: V -> K)
    requires DistinctKeys(entries, key)
    ensures !HasKey(entries, key(v), key) ==> Put(entries, v, key) == entries + [v]
    ensures forall i :: 0 <= i < |entries| && key(entries[i]) == key(v) ==> Put(entries, v, key) == entries[i := v]
  {
    if entries != [] {
      var rest := entries[1..];
      assert entries == [entries[0]] + rest;
      assert DistinctKeys(rest, key);
      PutReplaces(rest, v, key);
      if !HasKey(entries, key(v), key) {
        assert key(entries[0]) != key(v);
        forall i | 0 <= i < |rest| ensures key(rest[i]) != key(v) {
          assert rest[i] == entries[i + 1];
        }
      }
      forall i | 0 <= i < |entries| && key(entries[i]) == key(v) ensures Put(entries, v, key) == entries[i := v] {
        if i > 0 {
          assert key(entries[0]) != key(entries[i]);
          assert rest[i - 1] == entries[i];
          assert Put(entries, v, key) == [entries[0]] + rest[i - 1 := v];
        }
      }
    }
  }

  lemma PutMerges<V, K>(history: seq<V>, merged: seq<V>, v: V, key: V -> K)
    requires Merges(history, merged, key)
    ensures Merges(history + [v], Put(merged, v, key), key)
  {
    var longer, k := history + [v], key(v);
    assert longer[..|history|] == history;
    MergesDistinct(history, merged, key);
    PutReplaces(merged, v, key);
    FirstSeenKeys(history, k, key);
    forall x | HasKey(history, x, key)
      ensures HasKey(longer, x, key) && LastWith(longer, x, key) == if x == k then v else LastWith(history, x, key)
    {
      var i :| 0 <= i < |history| && key(history[i]) == x;
      assert key(longer[i]) == x;
    }
    assert key(longer[|history|]) == k;
    if HasKey(merged, k, key) {
      var i :| 0 <= i < |merged| && key(merged[i]) == k;
      assert Keys(merged, key)[i] == k;
      assert Put(merged, v, key) == merged[i := v];
      assert Keys(merged[i := v], key) == Keys(merged, key);
    } else {
      assert forall i :: 0 <= i < |merged| ==> Keys(merged, key)[i] != k;
      assert Keys(merged + [v], key) == Keys(merged, key) + [k];
    }
  }

  /** The linear merge of a history is its keys in first-seen order with their last entries. */
  lemma {:induction false} PutAllMerges<V, K>(history: seq<V>, merged: seq<V>, vs: seq<V>, key: V -> K)
    requires Merges(history, merged, key)
    ensures Merges(history + vs, PutAll(merged, vs, key), key)
    decreases |vs|
  {
    if vs == [] {
      assert history + vs == history;
    } else {
      PutMerges(history, merged, vs[0], key);
      PutAllMerges(history + [vs[0]], Put(merged, vs[0], key), vs[1..], key);
      assert (history + [vs[0]]) + vs[1..] == history + vs;
    }
  }

  lemma {:induction false} PutAllAppends<V, K>(entries: seq<V>, xs: seq<V>, ys: seq<V>, key: V -> K)
    ensures PutAll(entries, xs + ys, key) == PutAll(PutAll(entries, xs, key), ys, key)
    decreases |xs|
  {
    if xs == [] {
      assert xs + ys == ys;
    } else {
      assert (xs + ys)[1..] == xs[1..] + ys;
      PutAllAppends(Put(entries, xs[0], key), xs[1..], ys, key);
    }
  }

  // ----- the index -----

  /** The index is a bijection between the keys of the list and its positions. */
  ghost predicate Indexes<V, K(!new)>(index: map<K, nat>, entries: seq<V>, key: V -> K) {
    && (forall i :: 0 <= i < |entries| ==> key(entries[i]) in index && index[key(entries[i])] == i)
    && (forall k :: k in index ==> index[k] < |entries| && key(entries[index[k]]) == k)
  }

  /** Merges more entries through the index. */
  method PutIndexed<V, K(==, !new)>(entries: seq<V>, index: map<K, nat>, vs: seq<V>, key: V -> K)
    returns (newEntries: seq<V>, newIndex: map<K, nat>)
    requires Indexes(index, entries, key)
    ensures Indexes(newIndex, newEntries, key)
    ensures newEntries == PutAll(entries, vs, key)
  {
    newEntries, newIndex := entries, index;
    assert vs[0..] == vs;
    for n := 0 to |vs|
      invariant Indexes(newIndex, newEntries, key)
      invariant PutAll(entries, vs, key) == PutAll(newEntries, vs[n..], key)
    {
      assert vs[n..][1..] == vs[n + 1..];
      PutReplaces(newEntries, vs[n], key);
      var k := key(vs[n]);
      if k in newIndex {
        newEntries := newEntries[newIndex[k] := vs[n]];
      } else {
        newIndex := newIndex[k := |newEntries|];
        newEntries := newEntries + [vs[n]];
      }
    }
  }

  // ----- lists that keep the first spelling -----

  function Add<V, K(==)>(entries: seq<V>, v: V, key: V -> K): (r: seq<V>) {
    if HasKey(entries, key(v), key) then entries else entries + [v]
  }

  function AddAll<V, K(==)>(entries: seq<V>, vs: seq<V>, key: V -> K): (r: seq<V>)
    decreases |vs|
  {
    if vs == [] then entries else AddAll(Add(entries, vs[0], key), vs[1..], key)
  }

  /** The earliest entry with its key. */
  predicate IsFirst<V(==), K(==)>(history: seq<V>, v: V, key: V -> K) {
    exists j :: 0 <= j < |history| && history[j] == v && !HasKey(history[..j], key(v), key)
  }

  /** What a list that only adds is: the keys in first-seen order, each with its first entry. */
  ghost predicate Collects<V, K>(history: seq<V>, added: seq<V>, key: V -> K) {
    && Keys(added, key) == FirstSeen(history, key)
    && forall i :: 0 <= i < |added| ==> IsFirst(history, added[i], key)
  }

  lemma CollectedKeys<V, K>(history: seq<V>, added: seq<V>, k: K, key: V -> K)
    requires Keys(added, key) == FirstSeen(history, key)
    ensures HasKey(added, k, key) <==> HasKey(history, k, key)
  {
    FirstSeenKeys(history, k, key);
    if HasKey(added, k, key) {
      var i :| 0 <= i < |added| && key(added[i]) == k;
      assert Keys(added, key)[i] == k;
    }
    if k in FirstSeen(history, key) {
      var i :| 0 <= i < |added| && Keys(added, key)[i] == k;
      assert key(added[i]) == k;
    }
  }

  lemma AddCollects<V, K>(history: seq<V>, added: seq<V>, v: V, key: V -> K)
    requires Collects(history, added, key)
    ensures Collects(history + [v], Add(added, v, key), key)
  {
    var longer, k := history + [v], key(v);
    assert longer[..|history|] == history && longer[|history|] == v;
    CollectedKeys(history, added, k, key);
    FirstSeenKeys(history, k, key);
    forall x | IsFirst(history, x, key) ensures IsFirst(longer, x, key) {
      var j :| 0 <= j < |history| && history[j] == x && !HasKey(history[..j], key(x), key);
      assert longer[..j] == history[..j] && longer[j] == x;
    }
    if !HasKey(added, k, key) {
      assert IsFirst(longer, v, key);
      assert Keys(added + [v], key) == Keys(added, key) + [k];
    }
  }

  lemma {:induction false} AddAllCollects<V, K>(history: seq<V>, added: seq<V>, vs: seq<V>, key: V -> K)
    requires Collects(history, added, key)
    ensures Collects(history + vs, AddAll(added, vs, key), key)
    decreases |vs|
  {
    hide Collects;
    if vs == [] {
      assert history + vs == history;
    } else {
      AddCollects(history, added, vs[0], key);
      AddAllCollects(history + [vs[0]], Add(added, vs[0], key), vs[1..], key);
      assert (history + [vs[0]]) + vs[1..] == history + vs;
    }
  }

  ghost predicate KeysOf<V, K(!new)>(known: set<K>, entries: seq<V>, key: V -> K) {
    forall k :: k in known <==> HasKey(entries, k, key)
  }

  method AddIndexed<V, K(==, !new)>(entries: seq<V>, known: set<K>, vs: seq<V>, key: V -> K)
    returns (newEntries: seq<V>, newKnown: set<K>)
    requires KeysOf(known, entries, key)
    ensures KeysOf(newKnown, newEntries, key)
    ensures newEntries == AddAll(entries, vs, key)
  {
    newEntries, newKnown := entries, known;
    assert vs[0..] == vs;
    for n := 0 to |vs|
      invariant KeysOf(newKnown, newEntries, key)
      invariant AddAll(entries, vs, key) == AddAll(newEntries, vs[n..], key)
    {
      assert vs[n..][1..] == vs[n + 1..];
      var k := key(vs[n]);
      if k !in newKnown {
        ghost var before := newEntries;
        newKnown := newKnown + {k};
        newEntries := newEntries + [vs[n]];
        forall x ensures x in newKnown <==> HasKey(newEntries, x, key) {
          assert key(newEntries[|before|]) == k;
          if i :| 0 <= i < |before| && key(before[i]) == x {
            assert key(newEntries[i]) == x;
          }
          if i :| 0 <= i < |newEntries| && key(newEntries[i]) == x {
            if i < |before| { assert key(before[i]) == x; }
          }
        }
      }
    }
  }

  // ----- spellings of a key in a map -----

  /** Writing a spelling forgets every other spelling of its key. */
  function Spell<V, K(==)>(m: map<string, V>, text: string, v: V, key: string -> K): (r: map<string, V>) {
    (map t | t in m && key(t) != key(text) :: m[t])[text := v]
  }

  function SpellAll<V, K(==)>(m: map<string, V>, vs: seq<(string, V)>, key: string -> K): (r: map<string, V>)
    decreases |vs|
  {
    if vs == [] then m else SpellAll(Spell(m, vs[0].0, vs[0].1, key), vs[1..], key)
  }

  /** The index names the one spelling in use for each key. */
  ghost predicate Spells<V, K(!new)>(index: map<K, string>, m: map<string, V>, key: string -> K) {
    && (forall t :: t in m ==> key(t) in index && index[key(t)] == t)
    && (forall k :: k in index ==> index[k] in m && key(index[k]) == k)
  }

  method SpellIndexed<V, K(==, !new)>(m: map<string, V>, index: map<K, string>, vs: seq<(string, V)>, key: string -> K)
    returns (newMap: map<string, V>, newIndex: map<K, string>)
    requires Spells(index, m, key)
    ensures Spells(newIndex, newMap, key)
    ensures newMap == SpellAll(m, vs, key)
  {
    newMap, newIndex := m, index;
    assert vs[0..] == vs;
    for n := 0 to |vs|
      invariant Spells(newIndex, newMap, key)
      invariant SpellAll(m, vs, key) == SpellAll(newMap, vs[n..], key)
    {
      assert vs[n..][1..] == vs[n + 1..];
      var (text, v) := vs[n];
      var k := key(text);
      ghost var spelled := Spell(newMap, text, v, key);
      if k in newIndex {
        newMap := newMap - {newIndex[k]};
      }
      newIndex := newIndex[k := text];
      newMap := newMap[text := v];
      assert newMap == spelled;
    }
  }

  function SpellingKeys<V, K>(key: string -> K): (f: ((string, V)) -> K) {
    (entry: (string, V)) => key(entry.0)
  }

  /** What the map is: for each key, the spelling and the value written last. */
  ghost predicate Spelled<V, K(!new)>(history: seq<(string, V)>, m: map<string, V>, key: string -> K) {
    && (forall t :: t in m <==> HasKey(history, key(t), SpellingKeys(key)) &&
                                LastWith(history, key(t), SpellingKeys(key)).0 == t)
    && (forall t :: t in m ==> m[t] == LastWith(history, key(t), SpellingKeys(key)).1)
  }

  lemma SpellStep<V, K(!new)>(history: seq<(string, V)>, m: map<string, V>, text: string, v: V, key: string -> K)
    requires Spelled(history, m, key)
    ensures Spelled(history + [(text, v)], Spell(m, text, v, key), key)
  {
    var longer, keys := history + [(text, v)], SpellingKeys<V, K>(key);
    assert longer[..|history|] == history && longer[|history|] == (text, v);
    forall k ensures HasKey(longer, k, keys) <==> k == key(text) || HasKey(history, k, keys) {
      if i :| 0 <= i < |history| && keys(history[i]) == k {
        assert keys(longer[i]) == k;
      }
      if i :| 0 <= i < |longer| && keys(longer[i]) == k {
        if i < |history| { assert keys(history[i]) == k; }
      }
      assert keys(longer[|history|]) == key(text);
    }
  }

  lemma {:induction false} SpellAllSpells<V, K(!new)>(history: seq<(string, V)>, m: map<string, V>,
                                                      vs: seq<(string, V)>, key: string -> K)
    requires Spelled(history, m, key)
    ensures Spelled(history + vs, SpellAll(m, vs, key), key)
    decreases |vs|
  {
    hide Spelled;
    if vs == [] {
      assert history + vs == history;
    } else {
      SpellStep(history, m, vs[0].0, vs[0].1, key);
      assert [(vs[0].0, vs[0].1)] == [vs[0]];
      SpellAllSpells(history + [vs[0]], Spell(m, vs[0].0, vs[0].1, key), vs[1..], key);
      assert (history + [vs[0]]) + vs[1..] == history + vs;
    }
  }

  /** At most one spelling of a key survives, and it is the last one written. */
  lemma {:induction false} SpellAllLastWins<V, K>(m: map<string, V>, vs: seq<(string, V)>, key: string -> K, n: nat)
    requires n < |vs| && forall j :: n < j < |vs| ==> key(vs[j].0) != key(vs[n].0)
    ensures var r := SpellAll(m, vs, key);
      && vs[n].0 in r && r[vs[n].0] == vs[n].1
      && forall t :: t in r && key(t) == key(vs[n].0) ==> t == vs[n].0
    decreases |vs|
  {
    var first := Spell(m, vs[0].0, vs[0].1, key);
    if n == 0 {
      OthersKeepSpelling(first, vs[1..], key, vs[0].0);
    } else {
      assert forall j :: n - 1 < j < |vs[1..]| ==> vs[1..][j] == vs[j + 1];
      SpellAllLastWins(first, vs[1..], key, n - 1);
    }
  }

  lemma {:induction false} OthersKeepSpelling<V, K>(m: map<string, V>, vs: seq<(string, V)>, key: string -> K,
                                                        text: string)
    requires text in m && forall t :: t in m && key(t) == key(text) ==> t == text
    requires forall j :: 0 <= j < |vs| ==> key(vs[j].0) != key(text)
    ensures var r := SpellAll(m, vs, key);
      text in r && r[text] == m[text] && forall t :: t in r && key(t) == key(text) ==> t == text
    decreases |vs|
  {
    if vs != [] {
      OthersKeepSpelling(Spell(m, vs[0].0, vs[0].1, key), vs[1..], key, text);
    }
  }
}
