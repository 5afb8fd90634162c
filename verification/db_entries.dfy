/**
 * Entries of Steam's local LevelDB (src/local-db/local-db.ts): the raw record
 * stored inside a namespace's aggregate value, the entry the store hands out,
 * and the pure map/filter steps of reading and writing a namespace.
 */
module DbEntries {
  import opened Wrappers
  import opened Json
  import opened Sequences

  /** The record as stored, with the snake_case field names of the wire format. */
  datatype RawEntry = RawEntry(
    key: string,
    is_deleted: Option<bool>,
    value: Option<Value>,
    timestamp: int,
    version: Option<string>)

  /** `SteamLocalDbEntry`: a stored record together with the namespace that holds it. */
  datatype Entry = Entry(
    namespaceKey: string,
    key: string,
    isDeleted: Option<bool>,
    value: Option<Value>,
    timestamp: int,
    version: Option<string>)

  /** A namespace's aggregate value: a list of `[key, rawEntry]` pairs. */
  type RawPairs = seq<(string, RawEntry)>

  /** The entry read from a raw record of namespace `ns` (`is_deleted` becomes `isDeleted`). */
  function FromRaw(ns: string, raw: RawEntry): (e: Entry)
    ensures e.namespaceKey == ns && e.key == raw.key && e.isDeleted == raw.is_deleted
    ensures e.value == raw.value && e.timestamp == raw.timestamp && e.version == raw.version
  {
    Entry(ns, raw.key, raw.is_deleted, raw.value, raw.timestamp, raw.version)
  }

  /** The raw record written for an entry; the namespace is where it is written, not a field. */
  function ToRaw(e: Entry): (raw: RawEntry)
    ensures FromRaw(e.namespaceKey, raw) == e
  {
    RawEntry(e.key, e.isDeleted, e.value, e.timestamp, e.version)
  }

  lemma RawRecordRoundTrip(ns: string, raw: RawEntry)
    ensures ToRaw(FromRaw(ns, raw)) == raw
  {
  }

  predicate AllIn(entries: seq<Entry>, ns: string) {
    forall i :: 0 <= i < |entries| ==> entries[i].namespaceKey == ns
  }

  /** The map step of `getEntriesForNamespace`: every pair's record, tagged with `ns`. */
  function EntriesOf(ns: string, pairs: RawPairs): (r: seq<Entry>)
    ensures |r| == |pairs| && AllIn(r, ns)
    ensures forall i :: 0 <= i < |r| ==> ToRaw(r[i]) == pairs[i].1
  {
    seq(|pairs|, i requires 0 <= i < |pairs| => FromRaw(ns, pairs[i].1))
  }

  /** The entries of `entries` whose namespace is `ns`, in order. */
  function InNamespace(entries: seq<Entry>, ns: string): (r: seq<Entry>)
    ensures AllIn(r, ns)
    ensures |r| <= |entries|
    ensures forall i :: 0 <= i < |r| ==> r[i] in entries
  {
    if entries == [] then []
    else (if entries[0].namespaceKey == ns then [entries[0]] else []) + InNamespace(entries[1..], ns)
  }

  lemma {:induction false} InNamespaceAppend(a: seq<Entry>, b: seq<Entry>, ns: string)
    ensures InNamespace(a + b, ns) == InNamespace(a, ns) + InNamespace(b, ns)
  {
    if a == [] {
      assert a + b == b;
    } else {
      var head := if a[0].namespaceKey == ns then [a[0]] else [];
      assert (a + b)[0] == a[0] && (a + b)[1..] == a[1..] + b;
      InNamespaceAppend(a[1..], b, ns);
      AppendAssoc(head, InNamespace(a[1..], ns), InNamespace(b, ns));
    }
  }

  /** Filtering entries that are all of `ns` keeps them all. */
  lemma {:induction false} InNamespaceOfAllIn(entries: seq<Entry>, ns: string)
    requires AllIn(entries, ns)
    ensures InNamespace(entries, ns) == entries
  {
    if entries != [] {
      InNamespaceOfAllIn(entries[1..], ns);
    }
  }

  /** The pairs `setEntriesForNamespace` writes: `[key, rawEntry]` for each entry of `ns`, in order. */
  function RawPairsFor(ns: string, entries: seq<Entry>): (r: RawPairs)
    ensures |r| <= |entries|
    ensures forall i :: 0 <= i < |r| ==> r[i].0 == r[i].1.key
  {
    if entries == [] then []
    else if entries[0].namespaceKey != ns then RawPairsFor(ns, entries[1..])
    else [(entries[0].key, ToRaw(entries[0]))] + RawPairsFor(ns, entries[1..])
  }

  /** Reading back what was written for `ns` gives exactly the input entries of `ns`, in input order. */
  lemma {:induction false} ReadBackWritten(ns: string, entries: seq<Entry>)
    ensures EntriesOf(ns, RawPairsFor(ns, entries)) == InNamespace(entries, ns)
  {
    if entries != [] {
      ReadBackWritten(ns, entries[1..]);
      var e := entries[0];
      if e.namespaceKey == ns {
        var rest := RawPairsFor(ns, entries[1..]);
        assert RawPairsFor(ns, entries) == [(e.key, ToRaw(e))] + rest;
        assert EntriesOf(ns, [(e.key, ToRaw(e))] + rest) == [e] + EntriesOf(ns, rest);
      }
    }
  }

  // ---------------------------------------------------------------------------
  // Keys

  function Keys(s: seq<Entry>): (r: seq<string>)
    ensures |r| == |s|
    ensures forall i :: 0 <= i < |s| ==> r[i] == s[i].key
  {
    seq(|s|, i requires 0 <= i < |s| => s[i].key)
  }

  /** `findIndex(entry => entry.key === key)`: the first position holding `key`. */
  function KeyIndex(s: seq<Entry>, key: string): (r: Option<nat>)
    ensures r.Some? ==> r.value < |s| && s[r.value].key == key
    ensures r.Some? ==> forall j :: 0 <= j < r.value ==> s[j].key != key
    ensures r.None? <==> key !in Keys(s)
  {
    if s == [] then None
    else if s[0].key == key then Some(0)
    else match KeyIndex(s[1..], key)
      case None =>
        assert Keys(s) == [s[0].key] + Keys(s[1..]);
        None
      case Some(i) => Some(i + 1)
  }

  /** The distinct namespaces of `entries`, in the order of their first appearance. */
  function NamespacesOf(entries: seq<Entry>): (r: seq<string>)
    ensures NoDuplicates(r)
    ensures forall i :: 0 <= i < |entries| ==> entries[i].namespaceKey in r

  {
    var all := seq(|entries|, i requires 0 <= i < |entries| => entries[i].namespaceKey);
    var r := Distinct(all);
    assert forall i :: 0 <= i < |entries| ==> entries[i].namespaceKey == all[i];
    r
  }

  /** Every namespace `NamespacesOf` lists is the namespace of some entry. */
  lemma NamespacesOfFromEntries(entries: seq<Entry>, i: nat)
    requires i < |NamespacesOf(entries)|
    ensures exists j :: 0 <= j < |entries| && entries[j].namespaceKey == NamespacesOf(entries)[i]
  {
    var all := seq(|entries|, j requires 0 <= j < |entries| => entries[j].namespaceKey);
    assert NamespacesOf(entries) == Distinct(all);
    var j :| 0 <= j < |all| && all[j] == NamespacesOf(entries)[i];
  }
}
