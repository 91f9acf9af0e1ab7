/** Insertion-ordered dictionaries as the vote uses them: `defaultdict(float)` tallies built
    with `d[k] += w`, plain assignment `d[k] = v`, and `max(d.items(), key=...)`, which keeps
    the first of several maximal entries. */
module Tally {

  import opened Wrappers

  /** The keys of an association list, in order. */
  function Keys<K, V>(entries: seq<(K, V)>): (r: seq<K>)
    ensures |r| == |entries| && forall i :: 0 <= i < |entries| ==> r[i] == entries[i].0
  {
    seq(|entries|, i requires 0 <= i < |entries| => entries[i].0)
  }

  function Values<K, V>(entries: seq<(K, V)>): (r: seq<V>)
    ensures |r| == |entries| && forall i :: 0 <= i < |entries| ==> r[i] == entries[i].1
  {
    seq(|entries|, i requires 0 <= i < |entries| => entries[i].1)
  }

  /** No key appears twice: the list is a dict. */
  predicate DistinctKeys<K(==, !new), V>(entries: seq<(K, V)>) {
    forall i, j :: 0 <= i < j < |entries| ==> entries[i].0 != entries[j].0
  }

  /** The elements of `s` in order of first appearance: the reference for a dict's key order. */
  function Dedup<K(==, !new)>(s: seq<K>): (r: seq<K>)
    ensures forall k :: k in r <==> k in s
    ensures forall i, j :: 0 <= i < j < |r| ==> r[i] != r[j]
    decreases |s|
  {
    if |s| == 0 then []
    else
      var d := Dedup(s[..|s| - 1]);
      assert s == s[..|s| - 1] + [s[|s| - 1]];
      if s[|s| - 1] in d then d else d + [s[|s| - 1]]
  }

  /** `d.get(key)` */
  function Get<K(==, !new), V>(entries: seq<(K, V)>, key: K): (r: Option<V>)
    requires DistinctKeys(entries)
    ensures r.Some? <==> key in Keys(entries)
    ensures r.Some? ==> exists i :: 0 <= i < |entries| && entries[i] == (key, r.value)
    decreases |entries|
  {
    if |entries| == 0 then None
    else if entries[0].0 == key then Some(entries[0].1)
    else Get(entries[1..], key)
  }

  /** The entry of a key is the one `Get` finds. */
  lemma GetAt<K(!new), V>(entries: seq<(K, V)>, i: nat)
    requires DistinctKeys(entries) && i < |entries|
    ensures Get(entries, entries[i].0) == Some(entries[i].1)
  {
    var r := Get(entries, entries[i].0);
    assert entries[i].0 in Keys(entries);
    var j :| 0 <= j < |entries| && entries[j] == (entries[i].0, r.value);
  }

  /** `d[key] = v`: an existing key keeps its place, a new one goes last. */
  function Assign<K(==, !new), V>(entries: seq<(K, V)>, key: K, v: V): (r: seq<(K, V)>)
    requires DistinctKeys(entries)
    ensures DistinctKeys(r)
    ensures Keys(r) == if key in Keys(entries) then Keys(entries) else Keys(entries) + [key]
    ensures forall i :: 0 <= i < |r| ==> r[i].1 == if r[i].0 == key then v else entries[i].1
  {
    if key in Keys(entries) then
      seq(|entries|, i requires 0 <= i < |entries| =>
        if entries[i].0 == key then (key, v) else entries[i])
    else entries + [(key, v)]
  }

  /** Assigning a new key appends it. */
  lemma AssignNew<K(!new), V>(entries: seq<(K, V)>, key: K, v: V)
    requires DistinctKeys(entries) && key !in Keys(entries)
    ensures Assign(entries, key, v) == entries + [(key, v)]
  {
  }

  /** Assigning a key the value it already has changes nothing. */
  lemma AssignSame<K(!new), V>(entries: seq<(K, V)>, i: nat)
    requires DistinctKeys(entries) && i < |entries|
    ensures Assign(entries, entries[i].0, entries[i].1) == entries
  {
    assert entries[i].0 in Keys(entries);
  }

  /** `d[key] += w` on a `defaultdict(float)`. */
  function Add<K(==, !new)>(entries: seq<(K, real)>, key: K, w: real): (r: seq<(K, real)>)
    requires DistinctKeys(entries)
    ensures DistinctKeys(r)
    ensures Keys(r) == if key in Keys(entries) then Keys(entries) else Keys(entries) + [key]
    ensures forall i :: 0 <= i < |r| ==>
              r[i].1 == (if i < |entries| then entries[i].1 else 0.0) + (if r[i].0 == key then w else 0.0)
  {
    if key in Keys(entries) then
      seq(|entries|, i requires 0 <= i < |entries| =>
        (entries[i].0, entries[i].1 + if entries[i].0 == key then w else 0.0))
    else entries + [(key, w)]
  }

  /** The weight the votes give `key`: the reference a tally is checked against. */
  function WeightFor<K(==, !new)>(votes: seq<(K, real)>, key: K): real
    decreases |votes|
  {
    if |votes| == 0 then 0.0
    else WeightFor(votes[..|votes| - 1], key)
         + (if votes[|votes| - 1].0 == key then votes[|votes| - 1].1 else 0.0)
  }

  /** The weight of all votes together. */
  function TotalWeight<K>(votes: seq<(K, real)>): real
    decreases |votes|
  {
    if |votes| == 0 then 0.0 else TotalWeight(votes[..|votes| - 1]) + votes[|votes| - 1].1
  }

  /** With no negative votes, no key gets more than all votes together. */
  lemma {:induction false} WeightForBounded<K(!new)>(votes: seq<(K, real)>, key: K)
    requires forall i :: 0 <= i < |votes| ==> votes[i].1 >= 0.0
    ensures 0.0 <= WeightFor(votes, key) <= TotalWeight(votes)
    decreases |votes|
  {
    if |votes| > 0 {
      WeightForBounded(votes[..|votes| - 1], key);
    }
  }

  /** The tally after `d[k] += w` for every vote in order. */
  function Accumulate<K(==, !new)>(votes: seq<(K, real)>): (r: seq<(K, real)>)
    ensures DistinctKeys(r)
    ensures |votes| > 0 ==> |r| > 0
    decreases |votes|
  {
    if |votes| == 0 then []
    else Add(Accumulate(votes[..|votes| - 1]), votes[|votes| - 1].0, votes[|votes| - 1].1)
  }

  /** The tally holds each voted key once, in order of first vote, with the total weight of
      its votes. */
  lemma {:induction false} AccumulateMatchesVotes<K(!new)>(votes: seq<(K, real)>)
    ensures Keys(Accumulate(votes)) == Dedup(Keys(votes))
    ensures forall i :: 0 <= i < |Accumulate(votes)| ==>
              Accumulate(votes)[i].1 == WeightFor(votes, Accumulate(votes)[i].0)
    decreases |votes|
  {
    if |votes| > 0 {
      var last := votes[|votes| - 1];
      var prefix := votes[..|votes| - 1];
      var before := Accumulate(prefix);
      var r := Accumulate(votes);
      AccumulateMatchesVotes(prefix);
      KeysOfPrefix(votes);
      forall i | 0 <= i < |r| ensures r[i].1 == WeightFor(votes, r[i].0) {
        if i < |before| {
          assert Keys(r)[i] == Keys(before)[i];
        } else {
          assert r[i].0 == last.0 && last.0 !in Keys(prefix);
          AbsentKeyWeighsNothing(prefix, last.0);
        }
      }
    }
  }

  /** The keys of a list are those of all but its last entry, then the last entry's key. */
  lemma KeysOfPrefix<K, V>(entries: seq<(K, V)>)
    requires |entries| > 0
    ensures Keys(entries) == Keys(entries[..|entries| - 1]) + [entries[|entries| - 1].0]
  {
  }

  lemma {:induction false} AbsentKeyWeighsNothing<K(!new)>(votes: seq<(K, real)>, key: K)
    requires key !in Keys(votes)
    ensures WeightFor(votes, key) == 0.0
    decreases |votes|
  {
    if |votes| > 0 {
      var prefix := votes[..|votes| - 1];
      KeysOfPrefix(votes);
      AbsentKeyWeighsNothing(prefix, key);
    }
  }

  /** `max(range(len(values)), key=values.__getitem__)`: the first index of a largest value. */
  function ArgMax(values: seq<real>): (i: nat)
    requires |values| > 0
    ensures i < |values|
    ensures forall j :: 0 <= j < |values| ==> values[j] <= values[i]
    ensures forall j :: 0 <= j < i ==> values[j] < values[i]
    decreases |values|
  {
    if |values| == 1 then 0
    else
      var i := ArgMax(values[..|values| - 1]);
      if values[|values| - 1] > values[i] then |values| - 1 else i
  }
}
