/**
 * Ruby Hashes built as `Hash.new { |h, k| h[k] = h.size }`: looking a key up either finds
 * it or stores it under the next dense id. A table is the sequence of its keys in
 * insertion order, so a key's id is its position. Equality of keys is Ruby's `eql?`,
 * given here as a key function: two entries are the same key when their keys agree.
 */
module Interning {

  /** Position of the first entry whose key agrees with x's, or |entries| when there is none. */
  function FindBy<T, K(==)>(entries: seq<T>, key: T -> K, x: T): (i: nat)
    ensures i <= |entries|
    ensures i < |entries| ==> key(entries[i]) == key(x)
    ensures forall j | 0 <= j < i :: key(entries[j]) != key(x)
    decreases |entries|
  {
    if |entries| == 0 then 0
    else if key(entries[0]) == key(x) then 0
    else
      var i := 1 + FindBy(entries[1..], key, x);
      assert forall j | 1 <= j < i :: entries[j] == entries[1..][j - 1];
      i
  }

  /** Some entry has the same key as x. */
  predicate HasKey<T, K(==)>(entries: seq<T>, key: T -> K, x: T)
  {
    exists j | 0 <= j < |entries| :: key(entries[j]) == key(x)
  }

  /** No two entries share a key: the invariant of every interning table. */
  predicate DistinctKeys<T, K(==)>(entries: seq<T>, key: T -> K)
  {
    forall i, j | 0 <= i < j < |entries| :: key(entries[i]) != key(entries[j])
  }

  /** `h[x]`: the table after the lookup and the id handed out. */
  function InternBy<T, K(==)>(entries: seq<T>, key: T -> K, x: T): (r: (seq<T>, nat))
    ensures HasKey(entries, key, x) ==> r.0 == entries && r.1 < |entries| && key(entries[r.1]) == key(x)
    ensures !HasKey(entries, key, x) ==> r.0 == entries + [x] && r.1 == |entries|
    ensures r.1 < |r.0| && key(r.0[r.1]) == key(x)
  {
    var i := FindBy(entries, key, x);
    if i < |entries| then (entries, i) else (entries + [x], |entries|)
  }

  /** Interning keeps keys distinct and grows the table by at most one entry. */
  lemma InternKeepsDistinct<T, K>(entries: seq<T>, key: T -> K, x: T)
    requires DistinctKeys(entries, key)
    ensures DistinctKeys(InternBy(entries, key, x).0, key)
    ensures |entries| <= |InternBy(entries, key, x).0| <= |entries| + 1
  {
    var r := InternBy(entries, key, x);
    if !HasKey(entries, key, x) {
      forall i, j | 0 <= i < j < |r.0| ensures key(r.0[i]) != key(r.0[j]) {
        if j == |entries| {
          assert r.0[j] == x;
          assert r.0[i] == entries[i];
        }
      }
    }
  }

  /** In a table with distinct keys, an entry's id is its position. */
  lemma FindEntry<T, K>(entries: seq<T>, key: T -> K, i: nat)
    requires DistinctKeys(entries, key) && i < |entries|
    ensures FindBy(entries, key, entries[i]) == i
  {
  }

  /** Ids are stable: appending entries never changes the id of a key already present. */
  lemma FindStable<T, K>(entries: seq<T>, more: seq<T>, key: T -> K, x: T)
    requires HasKey(entries, key, x)
    ensures FindBy(entries + more, key, x) == FindBy(entries, key, x)
  {
    var f := FindBy(entries, key, x);
    assert f < |entries|;
    assert (entries + more)[f] == entries[f];
    assert forall j | 0 <= j < f :: (entries + more)[j] == entries[j];
  }

  /** In a table with distinct keys, the only entry with x's key is the one lookup finds. */
  lemma {:induction false} FindUnique<T, K>(entries: seq<T>, key: T -> K, x: T, k: nat)
    requires DistinctKeys(entries, key) && k < |entries| && key(entries[k]) == key(x)
    ensures FindBy(entries, key, x) == k
  {
    var i := FindBy(entries, key, x);
    assert i <= k;
    assert i < |entries| && key(entries[i]) == key(entries[k]);
  }

  /** Looking up a key already stored at k returns k and leaves the table alone. */
  lemma FoundAt<T, K>(entries: seq<T>, key: T -> K, x: T, k: nat)
    requires DistinctKeys(entries, key) && k < |entries| && key(entries[k]) == key(x)
    ensures InternBy(entries, key, x) == (entries, k)
  {
    FindUnique(entries, key, x, k);
  }

  /**
   * A lookup only ever extends the table: the old entries keep their ids, keys stay
   * distinct, and the id handed out is the one a later lookup of x finds.
   */
  lemma InternGrows<T, K>(entries: seq<T>, key: T -> K, x: T)
    requires DistinctKeys(entries, key)
    ensures var r := InternBy(entries, key, x);
      DistinctKeys(r.0, key) && entries <= r.0 && |r.0| <= |entries| + 1
      && FindBy(r.0, key, x) == r.1
  {
    InternKeepsDistinct(entries, key, x);
    var r := InternBy(entries, key, x);
    FindUnique(r.0, key, x, r.1);
  }

  /** The identity key: entries are compared by structural equality. */
  function Itself<T>(x: T): T
  {
    x
  }
}
