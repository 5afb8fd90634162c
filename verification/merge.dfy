/**
 * The merge performed by `updateEntriesForNamespace` (src/local-db/local-db.ts):
 * the incoming entries are folded into the stored ones; an incoming entry
 * overwrites the first stored entry with the same key, or is appended.
 */
module EntryMerge {
  import opened Wrappers
  import opened DbEntries
  import opened Sequences

  /** One step of the fold: overwrite the first entry keyed `cur.key`, or append `cur`. */
  function Upsert(acc: seq<Entry>, cur: Entry): (r: seq<Entry>)
    ensures cur in r
    ensures cur.key in Keys(acc) ==> |r| == |acc|
    ensures cur.key !in Keys(acc) ==> |r| == |acc| + 1
    ensures forall i :: 0 <= i < |acc| && acc[i].key != cur.key ==> r[i] == acc[i]
  {
    match KeyIndex(acc, cur.key)
    case None => acc + [cur]
    case Some(i) =>
      assert acc[i := cur][i] == cur;
      acc[i := cur]
  }

  /** The fold of `incoming` into `stored`, left to right. */
  function Merge(stored: seq<Entry>, incoming: seq<Entry>): (r: seq<Entry>)
    ensures |stored| <= |r| <= |stored| + |incoming|
  {
    if incoming == [] then stored
    else Upsert(Merge(stored, incoming[..|incoming| - 1]), incoming[|incoming| - 1])
  }

  /** The position of the last entry of `s` keyed `key`. */
  function LastIndexWithKey(s: seq<Entry>, key: string): (j: nat)
    requires key in Keys(s)
    ensures j < |s| && s[j].key == key
    ensures forall i :: j < i < |s| ==> s[i].key != key
  {
    if s[|s| - 1].key == key then |s| - 1
    else
      assert Keys(s) == Keys(s[..|s| - 1]) + [s[|s| - 1].key];
      LastIndexWithKey(s[..|s| - 1], key)
  }

  /** The entry that wins for `key` among several incoming ones: the last. */
  function LastWithKey(s: seq<Entry>, key: string): (e: Entry)
    requires key in Keys(s)
    ensures e.key == key && e in s
  {
    s[LastIndexWithKey(s, key)]
  }

  /**
   * The keys of `incoming` absent from `stored`, each once, in the order of
   * their first appearance in `incoming`.
   */
  function NewKeys(stored: seq<Entry>, incoming: seq<Entry>): (r: seq<string>)
    ensures NoDuplicates(r)
    ensures forall i :: 0 <= i < |r| ==> r[i] in Keys(incoming) && r[i] !in Keys(stored)
    ensures forall i :: 0 <= i < |incoming| && incoming[i].key !in Keys(stored) ==> incoming[i].key in r
  {
    if incoming == [] then []
    else
      var front := incoming[..|incoming| - 1];
      var k := incoming[|incoming| - 1].key;
      var p := NewKeys(stored, front);
      assert Keys(incoming) == Keys(front) + [k];
      assert forall i :: 0 <= i < |front| ==> incoming[i] == front[i];
      if k in Keys(stored) || k in p then p else p + [k]
  }

  /** What the merge leaves at position `i` of the stored entries. */
  function Updated(stored: seq<Entry>, incoming: seq<Entry>, i: nat): (e: Entry)
    requires i < |stored|
    ensures e.key == stored[i].key
  {
    var k := stored[i].key;
    if KeyIndex(stored, k) == Some(i) && k in Keys(incoming) then LastWithKey(incoming, k) else stored[i]
  }

  lemma KeysAppend(s: seq<Entry>, e: Entry)
    ensures Keys(s + [e]) == Keys(s) + [e.key]
  {
  }

  /** `KeyIndex` finds the first position holding a key. */
  lemma KeyIndexIs(s: seq<Entry>, key: string, j: nat)
    requires j < |s| && s[j].key == key
    requires forall i :: 0 <= i < j ==> s[i].key != key
    ensures KeyIndex(s, key) == Some(j)
  {
    assert Keys(s)[j] == key;
  }

  /** Which incoming entry wins for a key other than the last one's. */
  lemma LastWithKeyOfFront(incoming: seq<Entry>, key: string)
    requires incoming != [] && incoming[|incoming| - 1].key != key
    requires key in Keys(incoming[..|incoming| - 1])
    ensures key in Keys(incoming)
    ensures LastWithKey(incoming, key) == LastWithKey(incoming[..|incoming| - 1], key)
  {
    assert Keys(incoming) == Keys(incoming[..|incoming| - 1]) + [incoming[|incoming| - 1].key];
  }

  /**
   * `m` has the shape of merging `incoming` into `stored` with new keys `n`:
   * stored positions keep their place (the first entry of each incoming key
   * takes the last incoming entry with that key), and the new keys follow,
   * each with its last incoming entry.
   */
  predicate Shaped(stored: seq<Entry>, incoming: seq<Entry>, m: seq<Entry>, n: seq<string>) {
    && |m| == |stored| + |n|
    && (forall i :: 0 <= i < |stored| ==> m[i] == Updated(stored, incoming, i))
    && (forall p :: 0 <= p < |n| ==> n[p] in Keys(incoming) && m[|stored| + p] == LastWithKey(incoming, n[p]))
  }

  /** The keys of a shaped result: the stored keys, then the new ones. */
  lemma ShapedKeys(stored: seq<Entry>, incoming: seq<Entry>, m: seq<Entry>, n: seq<string>)
    requires Shaped(stored, incoming, m, n)
    ensures Keys(m) == Keys(stored) + n
  {
    forall i | 0 <= i < |m|
      ensures Keys(m)[i] == (Keys(stored) + n)[i]
    {
      if i < |stored| {
        assert m[i] == Updated(stored, incoming, i);
      } else {
        assert m[i] == LastWithKey(incoming, n[i - |stored|]);
      }
    }
  }

  /** A stored key is found where it was stored: merging keeps the stored keys in place. */
  lemma KeyIndexShaped(stored: seq<Entry>, incoming: seq<Entry>, m: seq<Entry>, n: seq<string>, key: string)
    requires Shaped(stored, incoming, m, n)
    requires key in Keys(stored)
    ensures KeyIndex(m, key) == KeyIndex(stored, key)
  {
    var f := KeyIndex(stored, key).value;
    forall i | 0 <= i <= f
      ensures m[i].key == stored[i].key
    {
      assert m[i] == Updated(stored, incoming, i);
    }
    KeyIndexIs(m, key, f);
  }

  /** Step of the fold for an incoming key that is already stored. */
  lemma StepStoredKey(stored: seq<Entry>, front: seq<Entry>, c: Entry, m: seq<Entry>, n: seq<string>)
    requires Shaped(stored, front, m, n)
    requires forall p :: 0 <= p < |n| ==> n[p] !in Keys(stored)
    requires c.key in Keys(stored)
    ensures Shaped(stored, front + [c], Upsert(m, c), n)
  {
    var incoming := front + [c];
    KeysAppend(front, c);
    assert incoming[..|incoming| - 1] == front;
    var f := KeyIndex(stored, c.key).value;
    KeyIndexShaped(stored, front, m, n, c.key);
    var r := Upsert(m, c);
    assert r == m[f := c];
    forall i | 0 <= i < |stored|
      ensures r[i] == Updated(stored, incoming, i)
    {
      if i != f {
        assert r[i] == m[i] == Updated(stored, front, i);
        if stored[i].key != c.key && stored[i].key in Keys(front) {
          LastWithKeyOfFront(incoming, stored[i].key);
        }
      }
    }
    forall p | 0 <= p < |n|
      ensures n[p] in Keys(incoming) && r[|stored| + p] == LastWithKey(incoming, n[p])
    {
      assert n[p] != c.key;
      assert r[|stored| + p] == m[|stored| + p];
      LastWithKeyOfFront(incoming, n[p]);
    }
  }

  /** Step of the fold for a new key that an earlier incoming entry already brought. */
  lemma StepRepeatedNewKey(stored: seq<Entry>, front: seq<Entry>, c: Entry, m: seq<Entry>, n: seq<string>)
    requires Shaped(stored, front, m, n)
    requires forall p :: 0 <= p < |n| ==> n[p] !in Keys(stored)
    requires NoDuplicates(n)
    requires c.key !in Keys(stored) && c.key in n
    ensures Shaped(stored, front + [c], Upsert(m, c), n)
  {
    var incoming := front + [c];
    KeysAppend(front, c);
    assert incoming[..|incoming| - 1] == front;
    var q := FirstIndexOf(n, c.key);
    forall i | 0 <= i < |stored| + q
      ensures m[i].key != c.key
    {
      if i < |stored| {
        assert m[i] == Updated(stored, front, i);
        assert Keys(stored)[i] == stored[i].key;
      } else {
        assert m[i] == LastWithKey(front, n[i - |stored|]);
      }
    }
    KeyIndexIs(m, c.key, |stored| + q);
    var r := Upsert(m, c);
    assert r == m[|stored| + q := c];
    forall i | 0 <= i < |stored|
      ensures r[i] == Updated(stored, incoming, i)
    {
      assert Keys(stored)[i] == stored[i].key;
      assert r[i] == m[i] == Updated(stored, front, i);
      if stored[i].key in Keys(front) {
        LastWithKeyOfFront(incoming, stored[i].key);
      }
    }
    forall p | 0 <= p < |n|
      ensures n[p] in Keys(incoming) && r[|stored| + p] == LastWithKey(incoming, n[p])
    {
      if p != q {
        assert n[p] != c.key;
        assert r[|stored| + p] == m[|stored| + p];
        LastWithKeyOfFront(incoming, n[p]);
      }
    }
  }

  /** Step of the fold for a key seen for the first time. */
  lemma StepFreshKey(stored: seq<Entry>, front: seq<Entry>, c: Entry, m: seq<Entry>, n: seq<string>)
    requires Shaped(stored, front, m, n)
    requires c.key !in Keys(stored) && c.key !in n
    ensures Shaped(stored, front + [c], Upsert(m, c), n + [c.key])
  {
    var incoming := front + [c];
    KeysAppend(front, c);
    assert incoming[..|incoming| - 1] == front;
    ShapedKeys(stored, front, m, n);
    var r := Upsert(m, c);
    assert r == m + [c];
    var n2 := n + [c.key];
    forall i | 0 <= i < |stored|
      ensures r[i] == Updated(stored, incoming, i)
    {
      assert Keys(stored)[i] == stored[i].key;
      assert r[i] == m[i] == Updated(stored, front, i);
      if stored[i].key in Keys(front) {
        LastWithKeyOfFront(incoming, stored[i].key);
      }
    }
    forall p | 0 <= p < |n2|
      ensures n2[p] in Keys(incoming) && r[|stored| + p] == LastWithKey(incoming, n2[p])
    {
      if p < |n| {
        assert n2[p] == n[p] != c.key;
        assert r[|stored| + p] == m[|stored| + p];
        LastWithKeyOfFront(incoming, n[p]);
      }
    }
  }

  /** Every merge has the shape `Shaped` describes, with `NewKeys` as its new keys. */
  lemma {:induction false} MergeShape(stored: seq<Entry>, incoming: seq<Entry>)
    ensures Shaped(stored, incoming, Merge(stored, incoming), NewKeys(stored, incoming))
  {
    if incoming != [] {
      var front := incoming[..|incoming| - 1];
      var c := incoming[|incoming| - 1];
      assert incoming == front + [c];
      MergeShape(stored, front);
      var m := Merge(stored, front);
      var n := NewKeys(stored, front);
      if c.key in Keys(stored) {
        StepStoredKey(stored, front, c, m, n);
      } else if c.key in n {
        StepRepeatedNewKey(stored, front, c, m, n);
      } else {
        StepFreshKey(stored, front, c, m, n);
      }
    }
  }

  lemma NewKeyListed(stored: seq<Entry>, incoming: seq<Entry>, key: string)
    requires key in Keys(incoming) && key !in Keys(stored)
    ensures key in NewKeys(stored, incoming)
  {
    var j :| 0 <= j < |incoming| && Keys(incoming)[j] == key;
  }

  /** An incoming key that was stored: its first stored position takes the last incoming entry. */
  lemma MergeLatestWinsStored(stored: seq<Entry>, incoming: seq<Entry>, key: string)
    requires key in Keys(incoming) && key in Keys(stored)
    ensures KeyIndex(Merge(stored, incoming), key) == KeyIndex(stored, key)
    ensures Merge(stored, incoming)[KeyIndex(stored, key).value] == LastWithKey(incoming, key)
  {
    var m := Merge(stored, incoming);
    MergeShape(stored, incoming);
    var f := KeyIndex(stored, key).value;
    forall i | 0 <= i < f
      ensures m[i].key != key
    {
      assert m[i] == Updated(stored, incoming, i);
    }
    assert m[f] == Updated(stored, incoming, f);
    KeyIndexIs(m, key, f);
  }

  /** In a shaped result, a new key is first found at its place among the new keys. */
  lemma KeyIndexOfNewKey(stored: seq<Entry>, incoming: seq<Entry>, m: seq<Entry>, n: seq<string>, key: string)
    requires Shaped(stored, incoming, m, n)
    requires key !in Keys(stored) && key in n
    ensures KeyIndex(m, key).Some? && KeyIndex(m, key).value == |stored| + FirstIndexOf(n, key)
    ensures KeyIndex(m, key).value >= |stored| && m[KeyIndex(m, key).value] == LastWithKey(incoming, key)
  {
    var q := FirstIndexOf(n, key);
    forall i | 0 <= i < |stored| + q
      ensures m[i].key != key
    {
      if i < |stored| {
        assert m[i] == Updated(stored, incoming, i);
        assert Keys(stored)[i] == stored[i].key;
      } else {
        assert m[i] == LastWithKey(incoming, n[i - |stored|]);
      }
    }
    KeyIndexIs(m, key, |stored| + q);
    assert m[|stored| + q] == LastWithKey(incoming, n[q]);
  }

  /** An incoming key that was not stored: it is found after the stored entries, holding its last incoming entry. */
  lemma MergeLatestWinsNew(stored: seq<Entry>, incoming: seq<Entry>, key: string)
    requires key in Keys(incoming) && key !in Keys(stored)
    ensures KeyIndex(Merge(stored, incoming), key).Some?
    ensures KeyIndex(Merge(stored, incoming), key).value >= |stored|
    ensures Merge(stored, incoming)[KeyIndex(Merge(stored, incoming), key).value] == LastWithKey(incoming, key)
  {
    MergeShape(stored, incoming);
    NewKeyListed(stored, incoming, key);
    KeyIndexOfNewKey(stored, incoming, Merge(stored, incoming), NewKeys(stored, incoming), key);
  }

  /** After a merge, looking up any incoming key finds the last incoming entry with that key. */
  lemma MergeLatestWins(stored: seq<Entry>, incoming: seq<Entry>, key: string)
    requires key in Keys(incoming)
    ensures KeyIndex(Merge(stored, incoming), key).Some?
    ensures Merge(stored, incoming)[KeyIndex(Merge(stored, incoming), key).value] == LastWithKey(incoming, key)
  {
    if key in Keys(stored) {
      MergeLatestWinsStored(stored, incoming, key);
    } else {
      MergeLatestWinsNew(stored, incoming, key);
    }
  }

  /** A stored entry whose key no incoming entry carries keeps its value and its position. */
  lemma MergeKeepsUntouched(stored: seq<Entry>, incoming: seq<Entry>, i: nat)
    requires i < |stored| && stored[i].key !in Keys(incoming)
    ensures Merge(stored, incoming)[i] == stored[i]
  {
    MergeShape(stored, incoming);
  }

  /** The merge keeps the stored keys in place and appends the new ones. */
  lemma MergeKeys(stored: seq<Entry>, incoming: seq<Entry>)
    ensures Keys(Merge(stored, incoming)) == Keys(stored) + NewKeys(stored, incoming)
  {
    MergeShape(stored, incoming);
    ShapedKeys(stored, incoming, Merge(stored, incoming), NewKeys(stored, incoming));
  }

  /** The merge grows by exactly the number of distinct keys that were not stored. */
  lemma MergeLength(stored: seq<Entry>, incoming: seq<Entry>)
    ensures |Merge(stored, incoming)| == |stored| + |set k | k in Keys(incoming) && k !in Keys(stored)|
  {
    var n := NewKeys(stored, incoming);
    MergeShape(stored, incoming);
    NoDuplicatesCard(n);
    forall k | k in Keys(incoming) && k !in Keys(stored)
      ensures k in n
    {
      NewKeyListed(stored, incoming, k);
    }
    assert (set k | k in Keys(incoming) && k !in Keys(stored)) == (set x | x in n);
  }

  /** Merging the same entries a second time changes nothing. */
  lemma MergeIdempotent(stored: seq<Entry>, incoming: seq<Entry>)
    ensures Merge(Merge(stored, incoming), incoming) == Merge(stored, incoming)
  {
    var m := Merge(stored, incoming);
    var n := NewKeys(stored, incoming);
    MergeShape(stored, incoming);
    ShapedKeys(stored, incoming, m, n);
    var m2 := Merge(m, incoming);
    var n2 := NewKeys(m, incoming);
    MergeShape(m, incoming);
    if n2 != [] {
      var k := n2[0];
      if k !in Keys(stored) {
        NewKeyListed(stored, incoming, k);
      }
      assert false;
    }
    forall i | 0 <= i < |m|
      ensures m2[i] == m[i]
    {
      assert m2[i] == Updated(m, incoming, i);
      var k := m[i].key;
      if KeyIndex(m, k) == Some(i) && k in Keys(incoming) {
        if i < |stored| {
          assert m[i] == Updated(stored, incoming, i);
          forall j | 0 <= j < i
            ensures stored[j].key != k
          {
            assert m[j] == Updated(stored, incoming, j);
          }
          KeyIndexIs(stored, k, i);
        } else {
          assert m[i] == LastWithKey(incoming, n[i - |stored|]);
        }
      }
    }
  }

  /**
   * The fold of `updateEntriesForNamespace`: for each incoming entry, find
   * the stored entry with its key and overwrite it, or push the entry.
   */
  method MergeEntries(stored: seq<Entry>, incoming: seq<Entry>) returns (acc: seq<Entry>)
    ensures acc == Merge(stored, incoming)
  {
    acc := stored;
    for j := 0 to |incoming|
      invariant acc == Merge(stored, incoming[..j])
    {
      var cur := incoming[j];
      var index := KeyIndex(acc, cur.key);
      if index.None? {
        acc := acc + [cur];
      } else {
        acc := acc[index.value := cur];
      }
      assert incoming[..j + 1][..j] == incoming[..j];
    }
    assert incoming[..|incoming|] == incoming;
  }
}
