# Steam Shortcut Generator — a Dafny model of its core

Steam Shortcut Generator turns shortcut files into entries in Steam's
`shortcuts.vdf`. It can also put each shortcut into Steam library
collections ("categories"). This project models the core of that system in
Dafny and proves properties of the model:

- **Shortcuts and their identifiers** (`shortcut.dfy`). The `Shortcut` class
  holds the fields the loader sets. From the CRC-32 of executable + name it
  derives the 64-bit app id, the 32-bit id written into `shortcuts.vdf`, and
  the `steam://rungameid/` launch URL.
- **Shortcut files** (`schema_v1.dfy`, `parser.dfy`). A version 1 file is
  converted into a `Shortcut`: defaults, art paths resolved against the
  file's directory, argument and category lists joined. The parser
  dispatches on the `schema` key, before schema validation.
- **Art lookup** (`art_finder.dfy`, `copy_art_file.dfy`). Candidate art
  files are searched for, and each artwork kind has a file name in Steam's
  grid directory.
- **VDF generation** (`generator.dfy`). There is one record per shortcut,
  under its index. Each shortcut's categories are sorted in place and become
  its index-keyed `tags`.
- **Steam's local LevelDB** (`db_codec.dfy`, `db_entries.dfy`, `merge.dfy`,
  `local_db.dfy`):
  - the value codec;
  - namespaces of `[key, rawEntry]` pairs;
  - the upsert fold of `updateEntriesForNamespace`;
  - the `SteamLocalDb` class, whose store is a map the methods reassign.
- **Categories** (`categories.dfy`, `category_manager.dfy`,
  `category_editor.dfy`):
  - collection ids and keys;
  - the category payload and its JSON shape;
  - `CategoryManager`, which reads and writes categories through the store;
  - `CategoryEditor`, which edits an in-memory list.
- **Utilities** (`util.dfy`, `text.dfy`, `sequences.dfy`): boolean/number
  flags, `getValueOr`, `arrayify`, `arrayToIndexedMap`, decimal strings,
  `join`, and the default `Array.prototype.sort` on strings.

Library calls are parameters:
- `crc32`, `path.extname`, `path.join`, `resolveRelativePath` and
  `fs.existsSync` are fields of a `Host` value (`host.dfy`);
- `JSON.parse`/`JSON.stringify` form a `JsonText` value (`json.dfy`);
- the clock is a `now` argument;
- the schema validator is a function argument.

## Model

| member | source | states |
|---|---|---|
| Util.BooleanToNumber | src/util/boolean-to-number.ts:14-19 | the number is 0 or 1, and it is positive exactly when the flag is set |
| Util.NumberToBoolean | src/util/boolean-to-number.ts:31-36 | true exactly for positive numbers |
| Util.BooleanNumberRoundTrip | src/util/boolean-to-number.ts:14-36 | a flag turned into a number reads back as the same flag |
| Util.GetValueOr | src/util/get-value-or.ts:16-24 | the given value when present; the default when it is undefined or null |
| Util.Arrayify | src/util/arrayify.ts:10-12 | an array is returned as it is; a single item becomes a one-element array |
| Util.IndexKeys | src/util/array-to-indexed-map.ts:23-28 | the decimal spelling of every index below `n` is a key |
| Util.NotAnIndexKey | src/util/array-to-indexed-map.ts:23-28 | no index at or beyond the length is a key |
| Util.IndexKeysSize | src/util/array-to-indexed-map.ts:23-28 | an array of `n` items has exactly `n` keys |
| Util.IndexedMap | src/util/array-to-indexed-map.ts:23-28 | key `${i}` holds the item at index `i`, for every index |
| Util.IndexedMapKeys | src/util/array-to-indexed-map.ts:23-28 | the map has no keys besides the indices |
| Util.FromIndexedMap | src/util/array-to-indexed-map.ts:23-28 | reading keys `0`..`n-1` gives `n` items, each the value under its index |
| Util.IndexedMapRoundTrip | src/util/array-to-indexed-map.ts:23-28 | an array comes back from its indexed map in full and in order |
| Text.DecimalString | src/shortcut/shortcut.ts:134-139 | `String(n)` of a natural number: non-empty, all digits, denoting `n`, with no leading zero, last digit `n % 10`, one digit exactly below 10 |
| Text.DecimalStringInjective | src/shortcut/shortcut.ts:134-139 | distinct numbers have distinct decimal spellings |
| Text.DecimalStringDistinct | src/util/array-to-indexed-map.ts:25 | different indices give different keys |
| Text.JoinWith | src/shortcut/generator.ts:67 | `[].join(sep)` is empty, and a one-element join is the element (longer joins: `Text.JoinWithAppend`) |
| Text.JoinWithAppend | src/shortcut/generator.ts:67 | joining two non-empty lists is the join of the first, the separator, then the join of the second; with the one-element case this fixes the contents of every join |
| Text.JoinWithLength | src/shortcut/generator.ts:67 | the joined length is the total of the parts plus one separator between each pair |
| Text.InsertAdds | src/shortcut/generator.ts:80 | inserting adds the element and nothing else (multiset) |
| Text.InsertSorted | src/shortcut/generator.ts:80 | inserting into an ordered list keeps it ordered |
| Text.SortStringsSorted | src/shortcut/generator.ts:80 | `sort()` puts the strings in code-unit order |
| Text.SortStringsPermutes | src/shortcut/generator.ts:80 | `sort()` result is a permutation of its input |
| Text.SortStringsOfSorted | src/shortcut/generator.ts:80 | sorting an ordered list leaves it unchanged |
| Text.SortStringsIdempotent | src/shortcut/generator.ts:80 | sorting twice is sorting once |
| Text.NotAfterTotal | src/shortcut/generator.ts:80 | any two strings are comparable under the sort order |
| Text.NotAfterAntisymmetric | src/shortcut/generator.ts:80 | strings that sort both ways are equal |
| Text.NotAfterTransitive | src/shortcut/generator.ts:80 | the sort order is transitive |
| Sequences.Distinct | src/local-db/local-db.ts:335-343 | the `reduce` that keeps first appearances: same elements as the input, no duplicates, no longer than the input |
| Sequences.DistinctKeepsFirstAppearanceOrder | src/local-db/local-db.ts:335-343 | the kept elements are in the order of their first appearance |
| Sequences.NoDuplicatesCard | src/local-db/local-db.ts:335-343 | a duplicate-free list has as many elements as its set |
| Shortcuts.Top | src/shortcut/shortcut.ts:137 | `crc \| 0x80000000` lies in [2^31, 2^32) and keeps the low 31 bits of the checksum |
| Shortcuts.AppId | src/shortcut/shortcut.ts:136-138 | the upper half of the 64-bit id is `Top`, and the lower half is 0x02000000 |
| Shortcuts.NewAppId | src/shortcut/shortcut.ts:149-158 | shifting right by 32 gives back `Top`, a 32-bit value with bit 31 set |
| Shortcuts.LaunchUrl | src/shortcut/shortcut.ts:165-167 | the URL is `steam://rungameid/` followed by the decimal 64-bit app id, whose value is `Top` times 2^32 plus 0x02000000 |
| Shortcuts.AppIdCollision | src/shortcut/shortcut.ts:134-158 | two shortcuts get the same app id (either kind) exactly when their checksums agree in the low 31 bits |
| Shortcuts.LaunchUrlCollision | src/shortcut/shortcut.ts:165-167 | launch URLs collide exactly when the checksums agree in the low 31 bits |
| Shortcuts.Shortcut.constructor | src/shortcut/shortcut.ts:115-124 | name, binary and working directory as given; no arguments or categories; visible, overlay on, VR off; no art |
| Shortcuts.Shortcut.GetAppId | src/shortcut/shortcut.ts:134-139 | the decimal 64-bit id whose upper half is the checksum of binary + name with bit 31 set and whose lower half is 0x02000000 |
| Shortcuts.Shortcut.GetNewAppId | src/shortcut/shortcut.ts:149-158 | the decimal upper half of that 64-bit id |
| Shortcuts.Shortcut.GetLaunchUrl | src/shortcut/shortcut.ts:165-167 | `steam://rungameid/` followed by the 64-bit id |
| SchemaV1.ArtPath | src/schema/v1.ts:250-268 | a non-empty given path resolved against the file's directory; otherwise `<basename><suffix>` resolved there |
| SchemaV1.EmptyArtPathIsMissing | src/schema/v1.ts:250-252 | an empty art path is treated as a missing one |
| SchemaV1.SetArt | src/schema/v1.ts:250-268 | all five art fields are set as `ArtPath` gives them, with suffixes `_icon`, `_logo`, `_grid`, `_banner`, `_hero` |
| SchemaV1.GetShortcutFromV1 | src/schema/v1.ts:234-285 | a fresh shortcut with the file's name, binary and directory; flags defaulted to hidden false, overlay true, VR false; the five art paths; arguments and categories each the base list followed by the extra list |
| ShortcutParsing.FromObject | src/shortcut/parser.ts:35-52 | null is an error (property of null); a schema other than absent or 1 is an unknown version; a failed validation is an error; otherwise the shortcut built from the validated file |
| ArtFinder.GetArtSearchPaths | src/art/art-finder.ts:30-39 | a path with an extension is searched alone; otherwise it is tried with each of the six allowed extensions, in order |
| ArtFinder.SearchPathsExtendArtPath | src/art/art-finder.ts:30-39 | there is at least one candidate, and every candidate starts with the given path |
| ArtFinder.FirstExisting | src/util/find-file.ts:16-23 | none exactly when no candidate exists; otherwise an existing candidate with no existing candidate before it |
| ArtFinder.FindFileSync | src/util/find-file.ts:16-23 | the loop returns the first existing path, or none |
| ArtFinder.FindArtFileSync | src/art/art-finder.ts:54-57 | the first existing candidate among the search paths |
| ArtworkPaths.ArtworkSuffix | src/art/copy-art-file.ts:23-35 | each kind's suffix is non-empty and does not start with a digit |
| ArtworkPaths.GetArtworkPathForShortcut | src/art/copy-art-file.ts:17-36 | `<artDir>/<appId><suffix><extension>`, with `.png` when no extension is given |
| ArtworkPaths.LeadingDigitsOfAppId | src/art/copy-art-file.ts:23-35 | in an artwork file name the digit run is exactly the app id |
| ArtworkPaths.TypeOfSuffixRecovers | src/art/copy-art-file.ts:23-35 | the artwork kind can be read back from the suffix |
| ArtworkPaths.ArtworkFileNameInjective | src/art/copy-art-file.ts:23-35 | the file name determines the app id, the artwork kind and the extension |
| ArtworkPaths.ArtworkFileNamesCollide | src/art/copy-art-file.ts:17-36 | two shortcuts' artwork files share a name only when their checksums agree in the low 31 bits and kind and extension are equal |
| ShortcutGeneration.GetIconPath | src/shortcut/generator.ts:22-35 | the icon path: empty without an art directory, without an icon, or when no candidate file exists; otherwise the icon's place in the art directory named after the 64-bit id, keeping the found file's extension |
| ShortcutGeneration.RecordFacts | src/shortcut/generator.ts:58-81 | a record's `appid` is the 32-bit id with bit 31 set; `Exe`, `AppName` and `StartDir` carry the shortcut's fields; the flags read back as the shortcut's flags; `tags` has exactly one key per category and gives the categories back in order |
| ShortcutGeneration.GenerateRecord | src/shortcut/generator.ts:50-81 | the callback sorts the shortcut's categories in place and builds its record from the sorted list |
| ShortcutGeneration.GenerateRecordAt | src/shortcut/generator.ts:50-81 | the callback at position `i` keeps the map's invariant: positions up to `i` now hold sorted categories, and every other field is unchanged |
| ShortcutGeneration.MapStep | src/shortcut/generator.ts:50-82 | one step of the `map` appends the record of the next position and keeps the invariant |
| ShortcutGeneration.GenerateRecords | src/shortcut/generator.ts:50-82 | every shortcut ends with its categories sorted; record `k` is built from shortcut `k`'s original fields and its sorted categories, even when a shortcut is listed twice |
| ShortcutGeneration.GenerateShortcutVdfData | src/shortcut/generator.ts:45-89 | the file's `shortcuts` map has exactly the keys `0`..`n-1`; key `${i}` holds shortcut `i`'s record; the categories are sorted in place |
| DbCodec.Hex | src/local-db/local-db.ts:30-34 | two lowercase hex digits per byte |
| DbCodec.HexDecodeHex | src/local-db/local-db.ts:30-34 | the 'hex' value encoding stores exactly the bytes whose spelling was given |
| DbCodec.HexAppend | src/local-db/local-db.ts:30-34 | the hex spelling of a concatenation is the concatenation of the spellings |
| DbCodec.Utf16Le | src/local-db/local-db.ts:30-34 | `iconv.encode(text, 'utf16le')`: two bytes per code unit, one unit for a character below U+10000 and a surrogate pair otherwise |
| DbCodec.EncodeDbValue | src/local-db/local-db.ts:30-34 | `"00"` followed by four hex digits per UTF-16 code unit of the text, a character above U+FFFF counting as two units (a surrogate pair) |
| DbCodec.StoredBytesOfEncoded | src/local-db/local-db.ts:30-34 | for any text, the stored bytes are the tag 0x00 followed by the UTF-16LE bytes of the text |
| DbCodec.DecodeDbValueText | src/local-db/local-db.ts:17-20 | the text after its first character (empty for empty input) |
| DbCodec.ReadsLatin1Value | src/local-db/local-db.ts:17-20 | an ASCII value stored with the Latin-1 tag 0x01 reads back as its text |
| DbCodec.MisreadsOwnValue | src/local-db/local-db.ts:17-34 | a non-empty ASCII text written by the writer reads back with a NUL after every character, so it is not the text written |
| DbCodec.Utf16LeRoundTrip | src/local-db/local-db.ts:30-34 | UTF-16LE decoding inverts the encoding for every text, surrogate pairs included |
| DbCodec.Utf16LeDecodeExact | src/local-db/local-db.ts:30-34 | whatever UTF-16LE decoding accepts is exactly the encoding of the text it returns |
| DbCodec.Latin1RoundTrip | src/local-db/local-db.ts:17-20 | Latin-1 decoding inverts the encoding |
| DbCodec.DecodeStoredValue | src/local-db/local-db.ts:17-20 | a reader that dispatches on the tag byte: nothing for an empty value or an unknown tag; `DbCodec.DecodeStoredEncoded` and `DbCodec.DecodeStoredExact` make it the exact inverse of the writer |
| DbCodec.DecodeStoredEncoded | src/local-db/local-db.ts:17-34 | the tag-aware reader returns exactly the text the writer stored, for every text (astral characters included) |
| DbCodec.DecodeStoredExact | src/local-db/local-db.ts:17-34 | a value the tag-aware reader accepts is exactly what the writer stores for the text read (tag 0x00) or the Latin-1 value of it (tag 0x01) |
| DbCodec.DecodeStoredLatin1 | src/local-db/local-db.ts:17-20 | the tag-aware reader still reads Latin-1 values |
| DbEntries.FromRaw | src/local-db/local-db.ts:275-285 | each raw field is carried over into the entry (`is_deleted` becomes `isDeleted`), tagged with the namespace |
| DbEntries.ToRaw | src/local-db/local-db.ts:306-312 | the raw record reads back as the entry it came from |
| DbEntries.RawRecordRoundTrip | src/local-db/local-db.ts:275-312 | a raw record survives reading and writing unchanged |
| DbEntries.EntriesOf | src/local-db/local-db.ts:275-285 | one entry per stored pair, all in the namespace, each with the pair's record |
| DbEntries.InNamespace | src/local-db/local-db.ts:345-348 | the filter keeps only entries of the namespace, taken from the input |
| DbEntries.InNamespaceAppend | src/local-db/local-db.ts:345-348 | filtering distributes over concatenation |
| DbEntries.InNamespaceOfAllIn | src/local-db/local-db.ts:345-348 | filtering entries that are all of the namespace keeps them all |
| DbEntries.RawPairsFor | src/local-db/local-db.ts:300-318 | each written pair is keyed by its record's key, with no more pairs than entries |
| DbEntries.ReadBackWritten | src/local-db/local-db.ts:267-323 | reading back what `setEntriesForNamespace` wrote gives the entries of that namespace, in order |
| DbEntries.KeyIndex | src/local-db/local-db.ts:208-210 | `findIndex` by key: the first position holding the key, or none exactly when the key is absent |
| DbEntries.NamespacesOf | src/local-db/local-db.ts:335-343 | each entry's namespace is listed, once |
| DbEntries.NamespacesOfFromEntries | src/local-db/local-db.ts:335-343 | every listed namespace is some entry's namespace |
| EntryMerge.Upsert | src/local-db/local-db.ts:373-385 | the incoming entry is in the result; the length is unchanged when its key is present and grows by one otherwise; entries with other keys stay in place |
| EntryMerge.Merge | src/local-db/local-db.ts:372-387 | the fold keeps every stored position and adds at most one per incoming entry |
| EntryMerge.NewKeys | src/local-db/local-db.ts:372-387 | the incoming keys absent from the store, each once |
| EntryMerge.MergeShape | src/local-db/local-db.ts:372-387 | the merged list is the stored list with each stored key's first entry replaced by the last incoming entry with that key, followed by one entry per new key |
| EntryMerge.MergeLatestWins | src/local-db/local-db.ts:372-387 | for every incoming key, the entry found under it after the merge is the last incoming entry with that key |
| EntryMerge.MergeLatestWinsStored | src/local-db/local-db.ts:374-381 | a stored key keeps its position and takes the last incoming entry |
| EntryMerge.MergeLatestWinsNew | src/local-db/local-db.ts:374-379 | a new key is appended after the stored entries with the last incoming entry |
| EntryMerge.MergeKeepsUntouched | src/local-db/local-db.ts:372-387 | a stored entry whose key no incoming entry has is left as it was |
| EntryMerge.MergeKeys | src/local-db/local-db.ts:372-387 | the merged keys are the stored keys followed by the new keys |
| EntryMerge.MergeLength | src/local-db/local-db.ts:372-387 | the merged length is the stored length plus the number of distinct new keys |
| EntryMerge.MergeIdempotent | src/local-db/local-db.ts:372-387 | merging the same entries twice is merging them once |
| EntryMerge.MergeEntries | src/local-db/local-db.ts:372-387 | the in-place `reduce` computes the fold |
| LocalDb.KeyPrefix | src/local-db/local-db.ts:165 | the user's key prefix is the loopback host head, then the Steam id in decimal, then `-cloud-storage-namespace`, and nothing else |
| LocalDb.KeyPrefixInjective | src/local-db/local-db.ts:165 | different users get different prefixes |
| LocalDb.Tombstone | src/local-db/local-db.ts:441-447 | the deletion entry: marked deleted, no value, the current time, the stored version |
| LocalDb.NamespaceUpdate | src/local-db/local-db.ts:367-390 | the entries a namespace holds after an update are all of that namespace |
| LocalDb.NamespaceUpdateIsMerge | src/local-db/local-db.ts:367-390 | for entries of the namespace, the update is the merge |
| LocalDb.NamespaceUpdateIdempotent | src/local-db/local-db.ts:367-390 | applying the same update twice is applying it once |
| LocalDb.ForeignEntryDropsStored | src/local-db/local-db.ts:300-318 | an entry of another namespace overwrites a stored entry in the merge and is then dropped by the writer, so the stored entry's key disappears |
| LocalDb.TombstoneWins | src/local-db/local-db.ts:435-454 | after a deletion, the entry found under the key is the tombstone |
| LocalDb.ReadBackFiltered | src/local-db/local-db.ts:345-350 | what `setEntries` writes for a namespace reads back as that namespace's entries |
| LocalDb.ReadBackMerged | src/local-db/local-db.ts:367-390 | what an update writes reads back as the merge |
| LocalDb.SetAll | src/local-db/local-db.ts:334-354 | every namespace written by `setEntries` is readable afterwards |
| LocalDb.SetAllOutside | src/local-db/local-db.ts:334-354 | keys that `setEntries` does not write are untouched |
| LocalDb.SetAllReadsBack | src/local-db/local-db.ts:334-354 | each namespace written reads back as the entries of that namespace |
| LocalDb.UpdateAllOutside | src/local-db/local-db.ts:402-422 | keys that `updateEntries` does not write are untouched |
| LocalDb.UpdateAllSkipsUnreadable | src/local-db/local-db.ts:402-422 | a namespace that cannot be read is left as it was |
| LocalDb.UpdateAllReadsBack | src/local-db/local-db.ts:402-422 | a readable namespace reads back as the merge of its stored entries with its share of the entries |
| LocalDb.SteamLocalDb.constructor | src/local-db/local-db.ts:164-168 | the prefix is the user's key prefix, and the store is the given contents |
| LocalDb.SteamLocalDb.IndexKey | src/local-db/local-db.ts:176 | the index key is the prefix followed by `s` |
| LocalDb.SteamLocalDb.GetNamespaceKeys | src/local-db/local-db.ts:175-183 | a missing index key is not found; a malformed index is a decode error; otherwise one key `<prefix>-<id>` per index item, in order |
| LocalDb.SteamLocalDb.GetLastNamespaceKey | src/local-db/local-db.ts:190-193 | fails exactly as the key list does; otherwise the last key, or none for an empty list |
| LocalDb.SteamLocalDb.GetEntriesForNamespace | src/local-db/local-db.ts:267-286 | a missing namespace is not found; a malformed value is a decode error; otherwise one entry per stored pair, in the namespace, each with the pair's record |
| LocalDb.SteamLocalDb.GetEntry | src/local-db/local-db.ts:203-221 | read errors propagate; in a readable namespace it succeeds exactly when some entry has the key, giving the first such entry, and a missing key is entry-not-found |
| LocalDb.SteamLocalDb.EntriesOfNamespaces | src/local-db/local-db.ts:244-258 | succeeds exactly when every namespace reads; then it holds every namespace's entries and only theirs; one namespace gives exactly its own entries |
| LocalDb.SteamLocalDb.EntriesOfNamespacesAppend | src/local-db/local-db.ts:244-258 | the entries come namespace by namespace, concatenated in the order of the namespaces; the read succeeds exactly when both parts do |
| LocalDb.SteamLocalDb.GetEntries | src/local-db/local-db.ts:244-258 | the entries of all namespaces listed by the index, or the index's error |
| LocalDb.SteamLocalDb.SetEntriesForNamespace | src/local-db/local-db.ts:296-323 | the namespace now holds exactly the entries of that namespace, in order, and reads back as them; other keys are unchanged |
| LocalDb.SteamLocalDb.UpdateEntriesForNamespace | src/local-db/local-db.ts:367-390 | a failed read changes nothing and is reported; otherwise the namespace holds the merge of its stored entries with the given ones, and reads back as it |
| LocalDb.SteamLocalDb.SetEntryForNamespace | src/local-db/local-db.ts:232-237 | the update with one entry, whose outcome is discarded |
| LocalDb.SteamLocalDb.SetEntries | src/local-db/local-db.ts:334-354 | the store becomes `SetAll` over the distinct namespaces of the entries |
| LocalDb.SteamLocalDb.UpdateEntries | src/local-db/local-db.ts:402-422 | the store becomes `UpdateAll` over the distinct namespaces; the result is ok exactly when every namespace was readable |
| LocalDb.SteamLocalDb.DeleteEntryForNamespace | src/local-db/local-db.ts:435-454 | answers whether the entry could be read; if not, nothing changes; if so, the namespace is rewritten as the merge of its entries with the tombstone (other keys unchanged), and the entry under the key is now that tombstone with the old version |
| Categories.Hyphenate | src/categories/categories.ts:20 | `replace(/\s/g, '-')`: the same length, with each whitespace character replaced by a hyphen |
| Categories.CreateCollectionId | src/categories/categories.ts:19-22 | `ssg-` followed by the name with every whitespace character replaced by `-` and every other character kept; no whitespace after the prefix |
| Categories.CreateCollectionKey | src/categories/categories.ts:31-34 | `user-collections.` followed by the collection id |
| Categories.CollectionIdInjective | src/categories/categories.ts:19-22 | names without whitespace get distinct ids |
| Categories.CollectionKeyCollision | src/categories/categories.ts:19-34 | "a b" and "a-b" get the same collection key |
| Categories.EncodeIdList | src/categories/categories.ts:79-125 | a game list becomes a JSON array of the same numbers |
| Categories.DecodeIdList | src/categories/categories.ts:57-58 | an absent or null list decodes to no list; a decoded list is exactly the array of numbers it came from; every failure is a malformed category |
| Categories.DecodeEncodeIdList | src/categories/categories.ts:57-58 | a game list survives encoding and decoding |
| Categories.EncodeCategoryValue | src/categories/categories.ts:72-74 | an object with `id` and `name`, plus `added`, `removed` and `filterSpec` exactly when present, and no other keys |
| Categories.DecodeCategoryValue | src/categories/categories.ts:45-62 | a payload without a truthy `id` or `name` is malformed; a decoded payload has non-empty id and name taken from the object, `added` and `removed` exactly as the object's lists decode, and the filter spec as given |
| Categories.CategoryValueRoundTrip | src/categories/categories.ts:45-74 | a payload survives encoding and decoding exactly when its id and name are non-empty |
| Categories.DecodedPayloadIsStable | src/categories/categories.ts:45-74 | re-encoding a decoded payload and decoding it again gives the same result |
| Categories.DecodeCategoryData | src/categories/categories.ts:45-62 | text that does not parse is invalid JSON; otherwise the parsed value's decoding |
| Categories.EncodeCategoryData | src/categories/categories.ts:72-74 | the JSON text of the encoded payload |
| Categories.CategoryDataRoundTrip | src/categories/categories.ts:45-74 | a payload with non-empty id and name survives the text round trip |
| CategoryManagement.EntryToCategory | src/categories/category-manager.ts:53-67 | carries namespace, key, deleted flag and version; there is data exactly when the value is truthy, decoded from it; a truthy value that is not a string is malformed |
| CategoryManagement.CollectionEntries | src/categories/category-manager.ts:49-51 | keeps exactly the entries whose key starts with `user-collections.`; a single entry is kept exactly when it is a collection |
| CategoryManagement.CollectionEntriesAppend | src/categories/category-manager.ts:49-51 | the filter distributes over concatenation, so the collection entries keep their order and their repeats |
| CategoryManagement.EntriesToCategories | src/categories/category-manager.ts:53-68 | succeeds exactly when every entry converts; then one category per entry, in order |
| CategoryManagement.CategoryToEntry | src/categories/category-manager.ts:82-92 | no entry exactly when the category has no namespace and there is no fallback; namespace is the category's (if non-empty) or the fallback; key, version and deleted flag carried over; timestamp is the category's (if non-zero) or now; value is the encoded payload exactly when there is data |
| CategoryManagement.CategoriesToEntries | src/categories/category-manager.ts:82-93 | with a fallback namespace, one entry per category, in order; a single category gives its entry, or nothing when it has no namespace and there is no fallback |
| CategoryManagement.CategoriesToEntriesAppend | src/categories/category-manager.ts:82-93 | the conversion distributes over concatenation: with or without a fallback, the result is the entry of each category that gets one, in category order |
| CategoryManagement.CategoryRoundTrip | src/categories/category-manager.ts:53-92 | a stored category written as an entry and read back is the same category (its timestamp is not read back) |
| CategoryManagement.CategoryManager.constructor | src/categories/category-manager.ts:32-36 | a fresh store for the user's prefix over the given contents |
| CategoryManagement.CategoryManager.GetCategories | src/categories/category-manager.ts:44-70 | the store's read error, or the conversion of its collection entries; every category's key has the collection prefix |
| CategoryManagement.CategoryManager.SetCategories | src/categories/category-manager.ts:80-96 | if the namespace index cannot be read, nothing changes; otherwise the store is updated with the categories' entries (the last namespace as fallback) |
| CategoryEditing.FindIndexByName | src/categories/category-editor.ts:17-21 | the first category whose payload has the name, or none exactly when no category has it |
| CategoryEditing.FindIndexIs | src/categories/category-editor.ts:17-21 | the first category carrying the name is the one found |
| CategoryEditing.NewCategory | src/categories/category-editor.ts:33-40 | named as given, with the collection key and id of the name; `added` only when there are games |
| CategoryEditing.AddUnique | src/categories/category-editor.ts:61-66 | the old list is kept as a prefix; every id ends up listed; nothing else is added; no duplicates are introduced (the order of the pushes: `CategoryEditing.AddUniqueInOrder`) |
| CategoryEditing.AddUniqueInOrder | src/categories/category-editor.ts:54-67 | the result is the old list followed by the ids it did not list, each once, in the order of their first appearance |
| CategoryEditing.AddUniqueUnion | src/categories/category-editor.ts:54-67 | as sets, the result is the old list together with the ids |
| CategoryEditing.AddUniqueIdempotent | src/categories/category-editor.ts:54-67 | adding the same games twice is adding them once |
| CategoryEditing.AddUniqueNoop | src/categories/category-editor.ts:64-66 | ids already listed are not pushed again |
| CategoryEditing.Restored | src/categories/category-editor.ts:50-52 | a deleted category is no longer deleted; nothing else changes |
| CategoryEditing.WithGamesAdded | src/categories/category-editor.ts:46-67 | restored; with games, `added` is the old list (an absent one empty) with each unlisted game pushed, in order, so every game is listed; without games, the payload is unchanged |
| CategoryEditing.WithGamesSet | src/categories/category-editor.ts:73-89 | restored, with `added` set to exactly the games |
| CategoryEditing.PushGames | src/categories/category-editor.ts:54-67 | the loop leaves the list alone when there are no games, and otherwise pushes each unlisted game onto it (an absent list starts empty) |
| CategoryEditing.CategoryEditor.constructor | src/categories/category-editor.ts:13-15 | the editor holds the given list |
| CategoryEditing.CategoryEditor.FindCategoryByName | src/categories/category-editor.ts:17-21 | found exactly when some category has the name; then the first such category |
| CategoryEditing.CategoryEditor.CreateCategory | src/categories/category-editor.ts:23-44 | a duplicate name is an error and changes nothing; otherwise the new category is appended and is then found by its name |
| CategoryEditing.CategoryEditor.AddGamesForCategory | src/categories/category-editor.ts:46-71 | the first category with the name gets the games added and is restored, or a new category is appended; with games, every game is listed afterwards |
| CategoryEditing.CategoryEditor.SetGamesForCategory | src/categories/category-editor.ts:73-93 | the first category with the name gets its games set and is restored, or a new category is appended; the category is found afterwards, and its games are exactly the given ones unless it was new and no games were given |
| CategoryEditing.CategoryEditor.GetCategories | src/categories/category-editor.ts:95-97 | the edited list |

## Left out

- The LevelDB handle, opening the database and `close()` are not modelled. The store is a map from keys to decoded values: the index, an entry list, or a value that decodes to neither.
- JSON text is not modelled. `JSON.parse` and `JSON.stringify` are an opaque pair of functions. Round trips assume they agree on the values involved (`Json.RoundTripsOn`).
- Floating-point numbers are left out: JSON numbers are integers here.
- Promise concurrency is not modelled. `Promise.all` over namespaces runs sequentially, in list order, each step on the store the previous one left.
- Writes the source does not await lose their errors: `setEntryForNamespace`, the write in `updateEntriesForNamespace`, and `setCategories`' `updateEntries`.
- The clock (`createTimestamp`) is a `now` argument.
- `crc32`, `path.extname`, `path.join`, `resolveRelativePath` and `fs.existsSync` are functions passed in (`Host`). `getShortcutFileInfo` is not part of this model: its result is a `FileInfo` argument.
- The Ajv schema validator is a function argument (`validate`). It returns the typed file when the object matches the version 1 schema, and nothing otherwise.
- `writeVdf`, the binary VDF encoding, is left out. `GenerateShortcutVdfData` stops at the `VdfData` value.
- The command line, the shortcut file loader, the YAML serializer and the copying of art files are outside the core and are left out.
- Text.JoinWith: its own contract covers the empty and the one-element join; `Text.JoinWithAppend` gives the rest.
- CategoryEditing.AddUnique: its own contract states the prefix, membership and no-duplicates properties; the order of the pushed ids is stated by `CategoryEditing.AddUniqueInOrder`.
- Text.NotAfter: the order compares characters one at a time. That matches JavaScript's default sort on UTF-16 code units for text without astral characters; surrogate pairs are not modelled.
- CategoryManagement.EntryToCategory: a truthy entry value that is not a string is reported as malformed. The source would hand it to `JSON.parse` after converting it to a string.
- Categories.DecodeCategoryValue: the payload is typed. `id` and `name` must be strings, and `added`/`removed` must be number arrays or absent; a payload of another shape is malformed. The source copies fields of any type. An `added` or `removed` that is `null` decodes to no list, and `EncodeCategoryValue` then writes the object without that key; the source keeps the `null` and writes it back.
- LocalDb.SteamLocalDb.GetEntriesForNamespace: a value that decodes to the namespace index instead of an entry list is a decode error. The source would reinterpret its items.
- LocalDb.SteamLocalDb.GetNamespaceKeys: the index is stored already decoded as a list of namespace ids. An index whose items have another shape is a decode error; the source reads element 0 of each item whatever it is.
- LocalDb.SteamLocalDb.SetEntriesForNamespace: the store holds decoded values, so its second ensures, `DbEntries.ReadBackWritten`, `LocalDb.SetAllReadsBack`, `LocalDb.UpdateAllReadsBack`, `LocalDb.TombstoneWins` and `CategoryManagement.CategoryRoundTrip` assume the tag-aware reader `DbCodec.DecodeStoredEncoded`. With `decodeDbValue` as written, a value the program stored does not read back (see Findings).
- LocalDb.SteamLocalDb.GetLastNamespaceKey: an empty namespace list gives none, where the source gives `undefined`. `CategoryManagement.CategoryManager.SetCategories` then writes no entry for a category without a namespace; the source would attempt an update under an undefined key, which fails.
- CategoryEditing.CategoryEditor.AddGamesForCategory: the `if (!category.data)` branches of `addGamesForCategory` and `setGamesForCategory` are not modelled. A category found by name always has data.
- Aliasing between the editor's list and its caller's array is not modelled. The editor's list is a value the methods reassign.
- CategoryEditing.CategoryEditor.CreateCategory, CategoryEditing.CategoryEditor.SetGamesForCategory, CategoryEditing.CategoryEditor.AddGamesForCategory: a category's `added` list is a value here. In the source, `createCategory` and `setGamesForCategory` store the caller's `gameIds` array itself, and `addGamesForCategory` then pushes into that array. So two categories made from one array share their list, and the caller's array changes too. The model does not capture this sharing: each category's list changes alone.
- ShortcutGeneration.GenerateShortcutVdfData: `Number(item.getNewAppId())` is the id itself. It is below 2^32, so the conversion is exact.

## Findings

| source | as written | input that shows it | evidently intended | confidence | as-written member | corrected member |
|---|---|---|---|---|---|---|
| src/local-db/local-db.ts:17-34 | `encodeDbValue` stores the tag byte 0x00 followed by the UTF-16LE bytes of the JSON text. `decodeDbValue` reads the stored bytes as UTF-8 and drops only the first character, so a value this program wrote reads back with a NUL after every character, which `JSON.parse` rejects | the entry list `[]`: stored bytes `00 5B 00 5D 00`, read back as `[\0]\0` | the reader dispatches on the tag byte: 0x00 UTF-16LE, 0x01 Latin-1, so that every value the writer stores reads back as its text | not executed | DbCodec.MisreadsOwnValue | DbCodec.DecodeStoredEncoded |
