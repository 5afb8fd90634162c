/**
 * `SteamLocalDb` (src/local-db/local-db.ts): reader and writer of the Steam
 * client's per-user LevelDB. Each namespace key holds one aggregate value,
 * a list of `[key, rawEntry]` pairs; the index key `<prefix>s` lists the
 * namespaces. The store is modelled as a map from keys to decoded values.
 */
module LocalDb {
  import opened Wrappers
  import opened Errors
  import opened Text
  import opened Sequences
  import opened DbEntries
  import opened EntryMerge

  /**
   * A LevelDB value after decoding: the namespace index (the text of the
   * first component of each item), a namespace's entry list, or a value
   * that does not decode to either.
   */
  datatype Stored = Index(ids: seq<string>) | EntryList(pairs: RawPairs) | Undecodable

  const PrefixHead: string := "_https://steamloopback.host\0\U{1}U"
  const PrefixTail: string := "-cloud-storage-namespace"

  /** The key prefix of the user with Steam id `steamId`. */
  function KeyPrefix(steamId: nat): (p: string)
    ensures StartsWith(p, PrefixHead)
    ensures |p| == |PrefixHead| + |DecimalString(steamId)| + |PrefixTail|
    ensures p[|PrefixHead|..|PrefixHead| + |DecimalString(steamId)|] == DecimalString(steamId)
    ensures p[|PrefixHead| + |DecimalString(steamId)|..] == PrefixTail
  {
    PrefixHead + DecimalString(steamId) + PrefixTail
  }

  /** Two users never share a key prefix. */
  lemma KeyPrefixInjective(a: nat, b: nat)
    requires KeyPrefix(a) == KeyPrefix(b)
    ensures a == b
  {
    var da, db := DecimalString(a), DecimalString(b);
    assert |da| == |db|;
    assert da == KeyPrefix(a)[|PrefixHead|..|PrefixHead| + |da|];
    assert db == KeyPrefix(b)[|PrefixHead|..|PrefixHead| + |db|];
    DecimalStringInjective(a, b);
  }

  /** The entry `deleteEntryForNamespace` writes: deleted, stamped `now`, with no value and the old version. */
  function Tombstone(ns: string, key: string, now: int, version: Option<string>): (e: Entry)
    ensures e.namespaceKey == ns && e.key == key && e.isDeleted == Some(true)
    ensures e.value.None? && e.timestamp == now && e.version == version
  {
    Entry(ns, key, Some(true), None, now, version)
  }

  /** What a namespace reads after `updateEntriesForNamespace(ns, entries)` over `stored`. */
  function NamespaceUpdate(stored: seq<Entry>, ns: string, entries: seq<Entry>): (r: seq<Entry>)
    ensures AllIn(r, ns)
  {
    InNamespace(Merge(stored, entries), ns)
  }

  /** Merging entries of one namespace into entries of that namespace stays within it. */
  lemma {:induction false} MergeStaysInNamespace(stored: seq<Entry>, entries: seq<Entry>, ns: string)
    requires AllIn(stored, ns) && AllIn(entries, ns)
    ensures AllIn(Merge(stored, entries), ns)
  {
    if entries != [] {
      var front := entries[..|entries| - 1];
      MergeStaysInNamespace(stored, front, ns);
      var m := Merge(stored, front);
      var c := entries[|entries| - 1];
      forall i | 0 <= i < |Upsert(m, c)|
        ensures Upsert(m, c)[i].namespaceKey == ns
      {
        match KeyIndex(m, c.key)
        case None =>
        case Some(j) =>
      }
    }
  }

  /** When every entry belongs to `ns`, the update of a namespace is exactly the merge. */
  lemma NamespaceUpdateIsMerge(stored: seq<Entry>, ns: string, entries: seq<Entry>)
    requires AllIn(stored, ns) && AllIn(entries, ns)
    ensures NamespaceUpdate(stored, ns, entries) == Merge(stored, entries)
  {
    MergeStaysInNamespace(stored, entries, ns);
    InNamespaceOfAllIn(Merge(stored, entries), ns);
  }

  /** Updating a namespace twice with the same entries of that namespace gives what one update gives. */
  lemma NamespaceUpdateIdempotent(stored: seq<Entry>, ns: string, entries: seq<Entry>)
    requires AllIn(stored, ns) && AllIn(entries, ns)
    ensures NamespaceUpdate(NamespaceUpdate(stored, ns, entries), ns, entries) == NamespaceUpdate(stored, ns, entries)
  {
    NamespaceUpdateIsMerge(stored, ns, entries);
    NamespaceUpdateIsMerge(Merge(stored, entries), ns, entries);
    MergeIdempotent(stored, entries);
  }

  /**
   * An entry of another namespace passed to `updateEntriesForNamespace(ns, ...)`
   * overwrites the stored entry with its key in the merge, and is then filtered
   * out on write: the stored entry disappears.
   */
  lemma ForeignEntryDropsStored(stored: seq<Entry>, ns: string, e: Entry)
    requires AllIn(stored, ns) && NoDuplicates(Keys(stored))
    requires e.namespaceKey != ns && e.key in Keys(stored)
    ensures e.key !in Keys(NamespaceUpdate(stored, ns, [e]))
  {
    var f := KeyIndex(stored, e.key).value;
    assert [e][..0] == [];
    var m := Merge(stored, [e]);
    assert Merge(stored, []) == stored;
    assert m == Upsert(stored, e);
    assert m == stored[f := e];
  }

  /** After writing an entry of `ns` into `ns`, looking up its key finds that entry. */
  lemma TombstoneWins(stored: seq<Entry>, ns: string, t: Entry)
    requires AllIn(stored, ns) && t.namespaceKey == ns
    ensures KeyIndex(NamespaceUpdate(stored, ns, [t]), t.key).Some?
    ensures NamespaceUpdate(stored, ns, [t])[KeyIndex(NamespaceUpdate(stored, ns, [t]), t.key).value] == t
  {
    assert Keys([t])[0] == t.key;
    NamespaceUpdateIsMerge(stored, ns, [t]);
    MergeLatestWins(stored, [t], t.key);
  }

  /** Writing a namespace's share of `entries` reads back as that share. */
  lemma ReadBackFiltered(ns: string, entries: seq<Entry>)
    ensures EntriesOf(ns, RawPairsFor(ns, InNamespace(entries, ns))) == InNamespace(entries, ns)
  {
    ReadBackWritten(ns, InNamespace(entries, ns));
    InNamespaceOfAllIn(InNamespace(entries, ns), ns);
  }

  /** Writing the merge of a namespace's share of `entries` into its entries reads back as that merge. */
  lemma ReadBackMerged(ns: string, stored: seq<Entry>, entries: seq<Entry>)
    requires AllIn(stored, ns)
    ensures EntriesOf(ns, RawPairsFor(ns, Merge(stored, InNamespace(entries, ns)))) == Merge(stored, InNamespace(entries, ns))
  {
    var merged := Merge(stored, InNamespace(entries, ns));
    ReadBackWritten(ns, merged);
    NamespaceUpdateIsMerge(stored, ns, InNamespace(entries, ns));
  }

  /** Whether `ns` holds a namespace's entry list in `db`. */
  predicate Readable(db: map<string, Stored>, ns: string) {
    ns in db && db[ns].EntryList?
  }

  /** The store after `setEntriesForNamespace(ns, share of entries)` for each `ns` of `nss` in turn. */
  function SetAll(db: map<string, Stored>, entries: seq<Entry>, nss: seq<string>): (r: map<string, Stored>)
    ensures forall k :: k in nss ==> Readable(r, k)
  {
    if nss == [] then db
    else
      var ns := nss[|nss| - 1];
      assert forall k :: k in nss ==> k == ns || k in nss[..|nss| - 1];
      SetAll(db, entries, nss[..|nss| - 1])[ns := EntryList(RawPairsFor(ns, InNamespace(entries, ns)))]
  }

  /** The store after `updateEntriesForNamespace(ns, share of entries)` for each `ns` of `nss` in turn. */
  function UpdateAll(db: map<string, Stored>, entries: seq<Entry>, nss: seq<string>): (r: map<string, Stored>)
  {
    if nss == [] then db
    else
      var d := UpdateAll(db, entries, nss[..|nss| - 1]);
      var ns := nss[|nss| - 1];
      if Readable(d, ns) then d[ns := EntryList(RawPairsFor(ns, Merge(EntriesOf(ns, d[ns].pairs), InNamespace(entries, ns))))]
      else d
  }

  /** Keys outside the namespaces set are untouched. */
  lemma {:induction false} SetAllOutside(db: map<string, Stored>, entries: seq<Entry>, nss: seq<string>, k: string)
    requires k !in nss
    ensures (k in SetAll(db, entries, nss) <==> k in db)
    ensures k in db ==> SetAll(db, entries, nss)[k] == db[k]
  {
    if nss != [] {
      SetAllOutside(db, entries, nss[..|nss| - 1], k);
    }
  }

  /** Each namespace set reads back as exactly its share of `entries`. */
  lemma {:induction false} SetAllReadsBack(db: map<string, Stored>, entries: seq<Entry>, nss: seq<string>, ns: string)
    requires ns in nss
    ensures EntriesOf(ns, SetAll(db, entries, nss)[ns].pairs) == InNamespace(entries, ns)
  {
    var front := nss[..|nss| - 1];
    if nss[|nss| - 1] == ns {
      ReadBackFiltered(ns, entries);
    } else {
      assert ns in front;
      SetAllReadsBack(db, entries, front, ns);
    }
  }

  /** Keys outside the namespaces updated are untouched. */
  lemma {:induction false} UpdateAllOutside(db: map<string, Stored>, entries: seq<Entry>, nss: seq<string>, k: string)
    requires k !in nss
    ensures (k in UpdateAll(db, entries, nss) <==> k in db)
    ensures k in db ==> UpdateAll(db, entries, nss)[k] == db[k]
  {
    if nss != [] {
      UpdateAllOutside(db, entries, nss[..|nss| - 1], k);
    }
  }

  /** A key that does not hold an entry list is never written. */
  lemma {:induction false} UpdateAllSkipsUnreadable(db: map<string, Stored>, entries: seq<Entry>, nss: seq<string>, k: string)
    requires !Readable(db, k)
    ensures (k in UpdateAll(db, entries, nss) <==> k in db)
    ensures k in db ==> UpdateAll(db, entries, nss)[k] == db[k]
  {
    if nss != [] {
      UpdateAllSkipsUnreadable(db, entries, nss[..|nss| - 1], k);
    }
  }

  /** Each readable namespace updated once reads back as the merge of its share of `entries` into what it held. */
  lemma {:induction false} UpdateAllReadsBack(db: map<string, Stored>, entries: seq<Entry>, nss: seq<string>, ns: string)
    requires NoDuplicates(nss) && ns in nss && Readable(db, ns)
    ensures Readable(UpdateAll(db, entries, nss), ns)
    ensures EntriesOf(ns, UpdateAll(db, entries, nss)[ns].pairs) == Merge(EntriesOf(ns, db[ns].pairs), InNamespace(entries, ns))
  {
    var front := nss[..|nss| - 1];
    if nss[|nss| - 1] == ns {
      assert ns !in front;
      UpdateAllOutside(db, entries, front, ns);
      ReadBackMerged(ns, EntriesOf(ns, db[ns].pairs), entries);
    } else {
      assert ns in front;
      UpdateAllReadsBack(db, entries, front, ns);
    }
  }

  class SteamLocalDb {
    /** `_https://steamloopback.host\0\x01U<steamId>-cloud-storage-namespace` */
    const prefix: string
    /** The decoded contents of the database, by key. */
    var db: map<string, Stored>

    /** Opens the store of user `steamId`; `contents` is what the database at the given path holds. */
    constructor(steamId: nat, contents: map<string, Stored>)
      ensures prefix == KeyPrefix(steamId) && db == contents
    {
      prefix := KeyPrefix(steamId);
      db := contents;
    }

    /** The key of the namespace index. */
    function IndexKey(): (k: string)
      ensures k == prefix + "s"
    {
      prefix + "s"
    }

    /** The namespace keys, `<prefix>-<id>` for each id of the index, in index order. */
    function GetNamespaceKeys(): (r: Result<seq<string>, Error>)
      reads this
      ensures IndexKey() !in db ==> r == Err(NotFound(IndexKey()))
      ensures IndexKey() in db && !db[IndexKey()].Index? ==> r == Err(DecodeError(IndexKey()))
      ensures IndexKey() in db && db[IndexKey()].Index? ==>
        r.Ok? && |r.value| == |db[IndexKey()].ids| &&
        forall i :: 0 <= i < |r.value| ==> r.value[i] == prefix + "-" + db[IndexKey()].ids[i]
    {
      if IndexKey() !in db then Err(NotFound(IndexKey()))
      else match db[IndexKey()]
        case Index(ids) => Ok(seq(|ids|, i requires 0 <= i < |ids| => prefix + "-" + ids[i]))
        case _ => Err(DecodeError(IndexKey()))
    }

    /** The last namespace key; `None` when the index is empty. */
    function GetLastNamespaceKey(): (r: Result<Option<string>, Error>)
      reads this
      ensures r.Ok? <==> GetNamespaceKeys().Ok?
      ensures r.Err? ==> r.error == GetNamespaceKeys().error
      ensures r.Ok? ==> (r.value.None? <==> GetNamespaceKeys().value == [])
      ensures r.Ok? && r.value.Some? ==>
        var keys := GetNamespaceKeys().value;
        r.value.value == keys[|keys| - 1] && StartsWith(r.value.value, prefix + "-")
    {
      var keys :- GetNamespaceKeys();
      if keys == [] then Ok(None)
      else
        assert keys[|keys| - 1] == prefix + "-" + db[IndexKey()].ids[|keys| - 1];
        Ok(Some(keys[|keys| - 1]))
    }

    /** The entries of namespace `ns`, in stored order, each tagged with `ns`. */
    function GetEntriesForNamespace(ns: string): (r: Result<seq<Entry>, Error>)
      reads this
      ensures ns !in db ==> r == Err(NotFound(ns))
      ensures ns in db && !db[ns].EntryList? ==> r == Err(DecodeError(ns))
      ensures ns in db && db[ns].EntryList? ==>
        r.Ok? && AllIn(r.value, ns) && |r.value| == |db[ns].pairs| &&
        forall i :: 0 <= i < |r.value| ==> ToRaw(r.value[i]) == db[ns].pairs[i].1
    {
      if ns !in db then Err(NotFound(ns))
      else match db[ns]
        case EntryList(pairs) => Ok(EntriesOf(ns, pairs))
        case _ => Err(DecodeError(ns))
    }

    /** The first entry of namespace `ns` keyed `key`. */
    function GetEntry(ns: string, key: string): (r: Result<Entry, Error>)
      reads this
      ensures GetEntriesForNamespace(ns).Err? ==> r == Err(GetEntriesForNamespace(ns).error)
      ensures GetEntriesForNamespace(ns).Ok? && key !in Keys(GetEntriesForNamespace(ns).value) ==>
        r == Err(EntryNotFound(ns, key))
      ensures GetEntriesForNamespace(ns).Ok? && key in Keys(GetEntriesForNamespace(ns).value) ==> r.Ok?
      ensures r.Ok? ==>
        var entries := GetEntriesForNamespace(ns).value;
        r.value.key == key && r.value.namespaceKey == ns &&
        exists i :: 0 <= i < |entries| && entries[i] == r.value && forall j :: 0 <= j < i ==> entries[j].key != key
    {
      var entries :- GetEntriesForNamespace(ns);
      match KeyIndex(entries, key)
      case None => Err(EntryNotFound(ns, key))
      case Some(i) => Ok(entries[i])
    }

    /** The entries of the namespaces `nss`, concatenated in order; the first failing read fails it all. */
    function EntriesOfNamespaces(nss: seq<string>): (r: Result<seq<Entry>, Error>)
      reads this
      ensures r.Ok? <==> forall i :: 0 <= i < |nss| ==> GetEntriesForNamespace(nss[i]).Ok?
      ensures r.Ok? ==> forall i :: 0 <= i < |r.value| ==> r.value[i].namespaceKey in nss
      ensures r.Ok? ==> forall i, j :: 0 <= i < |nss| && 0 <= j < |GetEntriesForNamespace(nss[i]).value| ==>
        GetEntriesForNamespace(nss[i]).value[j] in r.value
      ensures |nss| == 1 ==> r == GetEntriesForNamespace(nss[0])
    {
      if nss == [] then Ok([])
      else
        var first :- GetEntriesForNamespace(nss[0]);
        var rest :- EntriesOfNamespaces(nss[1..]);
        assert forall i :: 1 <= i < |nss| ==> nss[i] == nss[1..][i - 1];
        assert |nss| == 1 ==> first + rest == first;
        Ok(first + rest)
    }

    /** The entries come namespace by namespace, in the order of the namespaces. */
    lemma {:induction false} EntriesOfNamespacesAppend(a: seq<string>, b: seq<string>)
      ensures EntriesOfNamespaces(a + b).Ok? <==> EntriesOfNamespaces(a).Ok? && EntriesOfNamespaces(b).Ok?
      ensures EntriesOfNamespaces(a + b).Ok? ==>
        EntriesOfNamespaces(a + b).value == EntriesOfNamespaces(a).value + EntriesOfNamespaces(b).value
    {
      if a == [] {
        assert a + b == b;
      } else {
        var ab := a + b;
        assert ab[0] == a[0] && ab[1..] == a[1..] + b;
        EntriesOfNamespacesAppend(a[1..], b);
      }
    }

    /** Every entry of every namespace of the index, in namespace order. */
    function GetEntries(): (r: Result<seq<Entry>, Error>)
      reads this
      ensures GetNamespaceKeys().Err? ==> r == Err(GetNamespaceKeys().error)
      ensures GetNamespaceKeys().Ok? ==> r == EntriesOfNamespaces(GetNamespaceKeys().value)
    {
      var nss :- GetNamespaceKeys();
      EntriesOfNamespaces(nss)
    }

    /**
     * Replaces namespace `ns` with the entries of `entries` that belong to it;
     * entries of other namespaces are dropped.
     */
    method SetEntriesForNamespace(ns: string, entries: seq<Entry>)
      modifies this
      ensures db == old(db)[ns := EntryList(RawPairsFor(ns, entries))]
      ensures GetEntriesForNamespace(ns) == Ok(InNamespace(entries, ns))
    {
      db := db[ns := EntryList(RawPairsFor(ns, entries))];
      ReadBackWritten(ns, entries);
    }

    /**
     * Merges `entries` into namespace `ns`: each overwrites the stored entry
     * with its key, or is appended. A failed read leaves the store unchanged.
     */
    method UpdateEntriesForNamespace(ns: string, entries: seq<Entry>) returns (r: Result<(), Error>)
      modifies this
      ensures old(GetEntriesForNamespace(ns)).Err? ==>
        r == Err(old(GetEntriesForNamespace(ns)).error) && db == old(db)
      ensures old(GetEntriesForNamespace(ns)).Ok? ==>
        r.Ok? &&
        db == old(db)[ns := EntryList(RawPairsFor(ns, Merge(old(GetEntriesForNamespace(ns)).value, entries)))] &&
        GetEntriesForNamespace(ns) == Ok(NamespaceUpdate(old(GetEntriesForNamespace(ns)).value, ns, entries))
    {
      var stored := GetEntriesForNamespace(ns);
      if stored.Err? {
        return Err(stored.error);
      }
      var merged := MergeEntries(stored.value, entries);
      // The write is not awaited: its outcome does not reach the caller.
      SetEntriesForNamespace(ns, merged);
      r := Ok(());
    }

    /** `updateEntriesForNamespace(ns, [entry])`, whose outcome is discarded. */
    method SetEntryForNamespace(ns: string, entry: Entry)
      modifies this
      ensures old(GetEntriesForNamespace(ns)).Err? ==> db == old(db)
      ensures old(GetEntriesForNamespace(ns)).Ok? ==>
        db == old(db)[ns := EntryList(RawPairsFor(ns, Merge(old(GetEntriesForNamespace(ns)).value, [entry])))] &&
        GetEntriesForNamespace(ns) == Ok(NamespaceUpdate(old(GetEntriesForNamespace(ns)).value, ns, [entry]))
    {
      var _ := UpdateEntriesForNamespace(ns, [entry]);
    }

    /**
     * Replaces each namespace that `entries` mentions with that namespace's
     * entries; other keys are untouched.
     */
    method SetEntries(entries: seq<Entry>)
      modifies this
      ensures db == SetAll(old(db), entries, NamespacesOf(entries))
    {
      var namespaces := NamespacesOf(entries);
      for i := 0 to |namespaces|
        invariant db == SetAll(old(db), entries, namespaces[..i])
      {
        var ns := namespaces[i];
        SetEntriesForNamespace(ns, InNamespace(entries, ns));
        assert namespaces[..i + 1][..i] == namespaces[..i] && namespaces[..i + 1][i] == ns;
      }
      assert namespaces[..|namespaces|] == namespaces;
    }

    /**
     * Merges, namespace by namespace, the entries of each namespace that
     * `entries` mentions. A namespace whose read fails is left unchanged and
     * makes the result an error; the other namespaces are still updated.
     */
    method UpdateEntries(entries: seq<Entry>) returns (r: Result<(), Error>)
      modifies this
      ensures db == UpdateAll(old(db), entries, NamespacesOf(entries))
      ensures r.Ok? <==> forall ns :: ns in NamespacesOf(entries) ==> Readable(old(db), ns)
    {
      var namespaces := NamespacesOf(entries);
      r := Ok(());
      for i := 0 to |namespaces|
        invariant db == UpdateAll(old(db), entries, namespaces[..i])
        invariant r.Ok? <==> forall j :: 0 <= j < i ==> Readable(old(db), namespaces[j])
      {
        var ns := namespaces[i];
        assert ns !in namespaces[..i];
        UpdateAllOutside(old(db), entries, namespaces[..i], ns);
        var one := UpdateEntriesForNamespace(ns, InNamespace(entries, ns));
        if one.Err? && r.Ok? {
          r := one;
        }
        assert namespaces[..i + 1][..i] == namespaces[..i];
      }
      assert namespaces[..|namespaces|] == namespaces;
    }

    /**
     * Marks the entry `key` of namespace `ns` deleted, keeping its version.
     * Answers whether the entry could be read; nothing is written otherwise.
     */
    method DeleteEntryForNamespace(ns: string, key: string, now: int) returns (deleted: bool)
      modifies this
      ensures deleted <==> old(GetEntry(ns, key)).Ok?
      ensures !deleted ==> db == old(db)
      ensures deleted ==>
        var t := Tombstone(ns, key, now, old(GetEntry(ns, key)).value.version);
        db == old(db)[ns := EntryList(RawPairsFor(ns, Merge(old(GetEntriesForNamespace(ns)).value, [t])))]
      ensures deleted ==> GetEntry(ns, key) == Ok(Tombstone(ns, key, now, old(GetEntry(ns, key)).value.version))
    {
      var entry := GetEntry(ns, key);
      if entry.Err? {
        return false;
      }
      var stored := GetEntriesForNamespace(ns).value;
      var t := Tombstone(ns, key, now, entry.value.version);
      SetEntryForNamespace(ns, t);
      TombstoneWins(stored, ns, t);
      deleted := true;
    }
  }
}
