/**
 * `CategoryManager` (src/categories/category-manager.ts): reads the
 * collections out of the local store as categories and writes categories back.
 */
module CategoryManagement {
  import opened Wrappers
  import opened Errors
  import opened Json
  import opened Text
  import opened DbEntries
  import opened LocalDb
  import opened Categories

  /** A stored entry seen as a category; the entry's timestamp is not carried over. */
  function EntryToCategory(text: JsonText, e: Entry): (r: Result<Category, Error>)
    ensures r.Ok? ==> r.value.namespaceKey == Some(e.namespaceKey) && r.value.entryKey == e.key
    ensures r.Ok? ==> r.value.isDeleted == e.isDeleted && r.value.version == e.version && r.value.timestamp.None?
    ensures r.Ok? ==> (r.value.data.Some? <==> TruthyOpt(e.value))
    ensures TruthyOpt(e.value) && e.value.value.Str? ==>
      (r.Ok? <==> DecodeCategoryData(text, e.value.value.s).Ok?) &&
      (r.Ok? ==> r.value.data == Some(DecodeCategoryData(text, e.value.value.s).value))
    ensures TruthyOpt(e.value) && !e.value.value.Str? ==> r == Err(MalformedCategory)
  {
    var data :-
      if !TruthyOpt(e.value) then Ok(None)
      else if e.value.value.Str? then
        match DecodeCategoryData(text, e.value.value.s)
        case Ok(d) => Ok(Some(d))
        case Err(err) => Err(err)
      else Err(MalformedCategory);
    Ok(Category(Some(e.namespaceKey), e.key, e.isDeleted, data, e.version, None))
  }

  /** The entries whose key marks them as collections, in order. */
  function CollectionEntries(entries: seq<Entry>): (r: seq<Entry>)
    ensures |r| <= |entries|
    ensures forall i :: 0 <= i < |r| ==> StartsWith(r[i].key, SteamCollectionPrefix) && r[i] in entries
    ensures forall i :: 0 <= i < |entries| && StartsWith(entries[i].key, SteamCollectionPrefix) ==> entries[i] in r
    ensures |entries| == 1 ==> r == if StartsWith(entries[0].key, SteamCollectionPrefix) then entries else []
  {
    if entries == [] then []
    else
      var rest := CollectionEntries(entries[1..]);
      assert forall i :: 1 <= i < |entries| ==> entries[i] == entries[1..][i - 1];
      if StartsWith(entries[0].key, SteamCollectionPrefix) then [entries[0]] + rest else rest
  }

  /** The filter keeps the order: it distributes over concatenation. */
  lemma {:induction false} CollectionEntriesAppend(a: seq<Entry>, b: seq<Entry>)
    ensures CollectionEntries(a + b) == CollectionEntries(a) + CollectionEntries(b)
  {
    if a == [] {
      assert a + b == b;
    } else {
      var ab := a + b;
      assert ab[0] == a[0] && ab[1..] == a[1..] + b;
      CollectionEntriesAppend(a[1..], b);
    }
  }

  /** Each entry as a category, in order; the first entry that fails to decode fails them all. */
  function EntriesToCategories(text: JsonText, entries: seq<Entry>): (r: Result<seq<Category>, Error>)
    ensures r.Ok? <==> forall i :: 0 <= i < |entries| ==> EntryToCategory(text, entries[i]).Ok?
    ensures r.Ok? ==> |r.value| == |entries|
    ensures r.Ok? ==> forall i :: 0 <= i < |entries| ==> r.value[i] == EntryToCategory(text, entries[i]).value
  {
    if entries == [] then Ok([])
    else
      var first :- EntryToCategory(text, entries[0]);
      var rest :- EntriesToCategories(text, entries[1..]);
      assert forall i :: 1 <= i < |entries| ==> entries[i] == entries[1..][i - 1];
      Ok([first] + rest)
  }

  /**
   * The entry written for a category. A missing or empty namespace falls back
   * to `fallback`, a missing or zero timestamp to `now`; a category that has
   * neither gets no entry (`None`).
   */
  function CategoryToEntry(text: JsonText, c: Category, fallback: Option<string>, now: int): (r: Option<Entry>)
    ensures r.Some? <==> (c.namespaceKey.Some? && c.namespaceKey.value != "") || fallback.Some?
    ensures r.Some? ==> r.value.key == c.entryKey && r.value.version == c.version && r.value.isDeleted == c.isDeleted
    ensures r.Some? && c.namespaceKey.Some? && c.namespaceKey.value != "" ==> r.value.namespaceKey == c.namespaceKey.value
    ensures r.Some? && !(c.namespaceKey.Some? && c.namespaceKey.value != "") ==> r.value.namespaceKey == fallback.value
    ensures r.Some? ==> r.value.timestamp == if c.timestamp.Some? && c.timestamp.value != 0 then c.timestamp.value else now
    ensures r.Some? ==> (r.value.value.Some? <==> c.data.Some?)
    ensures r.Some? && c.data.Some? ==> r.value.value == Some(Str(EncodeCategoryData(text, c.data.value)))
  {
    var ns :-
      if c.namespaceKey.Some? && c.namespaceKey.value != "" then c.namespaceKey else fallback;
    var value := if c.data.Some? then Some(Str(EncodeCategoryData(text, c.data.value))) else None;
    var timestamp := if c.timestamp.Some? && c.timestamp.value != 0 then c.timestamp.value else now;
    Some(Entry(ns, c.entryKey, c.isDeleted, value, timestamp, c.version))
  }

  /** The entries written for `categories`, in order, leaving out those without a namespace. */
  function CategoriesToEntries(text: JsonText, categories: seq<Category>, fallback: Option<string>, now: int): (r: seq<Entry>)
    ensures |r| <= |categories|
    ensures fallback.Some? ==> |r| == |categories|
    ensures fallback.Some? ==> forall i :: 0 <= i < |categories| ==> Some(r[i]) == CategoryToEntry(text, categories[i], fallback, now)
    ensures |categories| == 1 ==>
      r == match CategoryToEntry(text, categories[0], fallback, now) case None => [] case Some(e) => [e]
  {
    if categories == [] then []
    else
      var rest := CategoriesToEntries(text, categories[1..], fallback, now);
      assert forall i :: 1 <= i < |categories| ==> categories[i] == categories[1..][i - 1];
      match CategoryToEntry(text, categories[0], fallback, now)
      case None => rest
      case Some(e) => [e] + rest
  }

  /**
   * The entries keep the order of their categories: the conversion
   * distributes over concatenation, so with or without a fallback the result
   * is, in order, the entry of each category that gets one.
   */
  lemma {:induction false} CategoriesToEntriesAppend(text: JsonText, a: seq<Category>, b: seq<Category>,
                                                     fallback: Option<string>, now: int)
    ensures CategoriesToEntries(text, a + b, fallback, now) ==
            CategoriesToEntries(text, a, fallback, now) + CategoriesToEntries(text, b, fallback, now)
  {
    if a == [] {
      assert a + b == b;
    } else {
      var ab := a + b;
      assert ab[0] == a[0] && ab[1..] == a[1..] + b;
      CategoriesToEntriesAppend(text, a[1..], b, fallback, now);
    }
  }

  /**
   * A stored category read back: writing a category and reading the entry
   * gives the category again, stamped with no timestamp.
   */
  lemma CategoryRoundTrip(text: JsonText, c: Category, now: int)
    requires c.namespaceKey.Some? && c.namespaceKey.value != ""
    requires c.data.Some? ==> c.data.value.id != "" && c.data.value.name != ""
    requires c.data.Some? ==> RoundTripsOn(text, EncodeCategoryValue(c.data.value))
    ensures CategoryToEntry(text, c, None, now).Some?
    ensures EntryToCategory(text, CategoryToEntry(text, c, None, now).value) == Ok(c.(timestamp := None))
  {
    if c.data.Some? {
      CategoryDataRoundTrip(text, c.data.value);
    }
  }

  class CategoryManager {
    /** The store holding the collections. */
    const steamDb: SteamLocalDb
    /** The JSON text layer used for collection payloads. */
    const text: JsonText

    /** Opens the store of user `steamId`; `contents` is what the database holds. */
    constructor(steamId: nat, contents: map<string, Stored>, text: JsonText)
      ensures fresh(steamDb) && steamDb.prefix == KeyPrefix(steamId) && steamDb.db == contents
      ensures this.text == text
    {
      steamDb := new SteamLocalDb(steamId, contents);
      this.text := text;
    }

    /** The collections among all entries of the store, as categories. */
    function GetCategories(): (r: Result<seq<Category>, Error>)
      reads this, steamDb
      ensures steamDb.GetEntries().Err? ==> r == Err(steamDb.GetEntries().error)
      ensures steamDb.GetEntries().Ok? ==> r == EntriesToCategories(text, CollectionEntries(steamDb.GetEntries().value))
      ensures r.Ok? ==> forall i :: 0 <= i < |r.value| ==> StartsWith(r.value[i].entryKey, SteamCollectionPrefix)
    {
      var all :- steamDb.GetEntries();
      EntriesToCategories(text, CollectionEntries(all))
    }

    /**
     * Merges the entries of `categories` into the store. Categories without a
     * namespace go to the last namespace of the index; when the index cannot
     * be read nothing is written and the error is returned. The outcome of the
     * merge itself is not awaited and does not reach the caller.
     */
    method SetCategories(categories: seq<Category>, now: int) returns (r: Result<(), Error>)
      modifies steamDb
      ensures old(steamDb.GetLastNamespaceKey()).Err? ==>
        r == Err(old(steamDb.GetLastNamespaceKey()).error) && steamDb.db == old(steamDb.db)
      ensures old(steamDb.GetLastNamespaceKey()).Ok? ==> r.Ok?
      ensures old(steamDb.GetLastNamespaceKey()).Ok? ==>
        var entries := CategoriesToEntries(text, categories, old(steamDb.GetLastNamespaceKey()).value, now);
        steamDb.db == UpdateAll(old(steamDb.db), entries, NamespacesOf(entries))
    {
      var last := steamDb.GetLastNamespaceKey();
      if last.Err? {
        return Err(last.error);
      }
      var entries := CategoriesToEntries(text, categories, last.value, now);
      var _ := steamDb.UpdateEntries(entries);
      r := Ok(());
    }
  }
}
