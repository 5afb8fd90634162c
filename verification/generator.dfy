/**
 * Building the contents of Steam's `shortcuts.vdf` (src/shortcut/generator.ts):
 * one record per shortcut, the records and each record's tags stored as
 * index-keyed maps.
 */
module ShortcutGeneration {
  import opened Wrappers
  import opened Host
  import opened Text
  import opened Util
  import opened Shortcuts
  import opened ArtFinder
  import opened ArtworkPaths

  /**
   * One shortcut record. The VDF keys are, in order: `appid`, `AppName`, `Exe`,
   * `StartDir`, `icon`, `ShortcutPath`, `LaunchOptions`, `IsHidden`,
   * `AllowDesktopConfig`, `OpenVR`, `Devkit`, `DevkitGameID`,
   * `DevkitOverrideAppID`, `LastPlayTime`, `FlatpakAppID`, `tags`.
   */
  datatype VdfShortcut = VdfShortcut(
    appId: nat,
    appName: string,
    exe: string,
    startDir: string,
    icon: string,
    shortcutPath: string,
    launchOptions: string,
    isHidden: int,
    allowDesktopConfig: int,
    openVr: int,
    devkit: int,
    devkitGameId: string,
    devkitOverrideAppId: int,
    lastPlayTime: int,
    flatpakAppId: string,
    tags: map<string, string>)

  /** The whole file: `{ shortcuts: { "0": ..., "1": ..., ... } }`. */
  datatype VdfData = VdfData(shortcuts: map<string, VdfShortcut>)

  /**
   * The fields of a shortcut its record is built from, as they stand at one
   * moment (everything but the categories, which the generator sorts).
   */
  datatype Fields = Fields(
    name: string,
    execBin: string,
    execCwd: string,
    execArgs: seq<string>,
    hidden: bool,
    vr: bool,
    artIcon: Option<string>)

  function FieldsOf(s: Shortcut): (f: Fields)
    reads s`name, s`execBin, s`execCwd, s`execArgs, s`hidden, s`vr, s`artIcon
    ensures f.execBin + f.name == s.Key()
  {
    Fields(s.name, s.execBin, s.execCwd, s.execArgs, s.hidden, s.vr, s.artIcon)
  }

  /**
   * The icon a shortcut's record points at: nothing without an art directory
   * or an icon path, nothing when no candidate icon file exists, otherwise the
   * icon's place in the art directory, named after the 64-bit app id and
   * keeping the extension of the file found.
   */
  function IconPath(f: Fields, artDirPath: Option<string>, host: Host): string {
    if artDirPath.None? || artDirPath.value == "" then ""
    else if f.artIcon.None? || f.artIcon.value == "" then ""
    else
      match FirstExisting(GetArtSearchPaths(f.artIcon.value, host), host)
      case None => ""
      case Some(found) =>
        host.join(artDirPath.value,
                  ArtworkFileName(DecimalString(AppId(host.crc32(f.execBin + f.name))), Icon, host.extname(found)))
  }

  /** `getIconPath` */
  method GetIconPath(s: Shortcut, artDirPath: string, host: Host) returns (r: string)
    ensures r == IconPath(FieldsOf(s), Some(artDirPath), host)
  {
    if artDirPath == "" {
      return "";
    }
    if s.artIcon.Some? && s.artIcon.value != "" {
      var artIconPath := FindArtFileSync(s.artIcon.value, host);
      if artIconPath.Some? {
        var extension := host.extname(artIconPath.value);
        return GetArtworkPathForShortcut(s, artDirPath, Icon, Some(extension), host);
      }
    }
    return "";
  }

  /** The record written for a shortcut with fields `f`, given its icon path and its categories. */
  function Record(f: Fields, icon: string, categories: seq<string>, host: Host): VdfShortcut {
    VdfShortcut(
      appId := NewAppId(host.crc32(f.execBin + f.name)),
      appName := f.name,
      exe := f.execBin,
      startDir := f.execCwd,
      icon := icon,
      shortcutPath := "",
      launchOptions := JoinWith(" ", f.execArgs),
      isHidden := BooleanToNumber(f.hidden),
      allowDesktopConfig := 1,
      openVr := BooleanToNumber(f.vr),
      devkit := 0,
      devkitGameId := "",
      devkitOverrideAppId := 0,
      lastPlayTime := 0,
      flatpakAppId := "",
      tags := IndexedMap(categories))
  }

  /**
   * What a record says about its shortcut: the 32-bit app id with bit 31 set,
   * the executable and the name, the flags as numbers that read back as the
   * flags, and exactly one tag per category, in order.
   */
  lemma RecordFacts(f: Fields, icon: string, categories: seq<string>, host: Host)
    ensures var r := Record(f, icon, categories, host);
      && Two31 <= r.appId < Two32
      && r.appId == NewAppId(host.crc32(f.execBin + f.name))
      && r.exe == f.execBin && r.appName == f.name && r.startDir == f.execCwd
      && (NumberToBoolean(r.isHidden) <==> f.hidden)
      && (NumberToBoolean(r.openVr) <==> f.vr)
      && r.tags.Keys == IndexKeys(|categories|)
      && |r.tags| == |categories|
      && FromIndexedMap(r.tags, |categories|) == categories
  {
    IndexedMapKeys(categories);
    IndexKeysSize(|categories|);
    IndexedMapRoundTrip(categories);
  }

  /**
   * The `map` callback of `generateShortcutVdfData`: the record for one
   * shortcut, whose categories it sorts in place.
   */
  method GenerateRecord(item: Shortcut, artDirPath: Option<string>, host: Host) returns (record: VdfShortcut)
    modifies item`categories
    ensures item.categories == SortStrings(old(item.categories))
    ensures record == Record(FieldsOf(item), IconPath(FieldsOf(item), artDirPath, host), item.categories, host)
  {
    var iconPath := "";
    if artDirPath.Some? && artDirPath.value != "" {
      iconPath := GetIconPath(item, artDirPath.value, host);
    }
    item.categories := SortStrings(item.categories);
    record := Record(FieldsOf(item), iconPath, item.categories, host);
  }

  /** The categories of each shortcut, keyed by the shortcut. */
  ghost function CategoriesOf(shortcuts: seq<Shortcut>): (m: map<Shortcut, seq<string>>)
    reads shortcuts`categories
    ensures forall k :: 0 <= k < |shortcuts| ==> shortcuts[k] in m && m[shortcuts[k]] == shortcuts[k].categories
  {
    if shortcuts == [] then map[]
    else CategoriesOf(shortcuts[1..])[shortcuts[0] := shortcuts[0].categories]
  }

  /**
   * Where the `map` over `shortcuts` stands before position `i`: `originals`
   * holds each shortcut's categories as they were and `sorted` their sorted
   * versions; the shortcuts before `i` have theirs sorted, and every other
   * shortcut's are as they were or sorted (a shortcut listed twice is sorted
   * at its first position).
   */
  ghost predicate SortedBefore(shortcuts: seq<Shortcut>, originals: map<Shortcut, seq<string>>,
                               sorted: map<Shortcut, seq<string>>, i: nat)
    reads shortcuts`categories
  {
    && i <= |shortcuts|
    && (forall k :: 0 <= k < |shortcuts| ==>
          && shortcuts[k] in originals && shortcuts[k] in sorted
          && (shortcuts[k].categories == originals[shortcuts[k]] || shortcuts[k].categories == sorted[shortcuts[k]]))
    && (forall k :: 0 <= k < i ==> shortcuts[k].categories == sorted[shortcuts[k]])
  }

  /** `fields` holds the fields of the shortcut at each position. */
  ghost predicate FieldsAre(shortcuts: seq<Shortcut>, fields: seq<Fields>)
    reads shortcuts`name, shortcuts`execBin, shortcuts`execCwd, shortcuts`execArgs,
      shortcuts`hidden, shortcuts`vr, shortcuts`artIcon
  {
    |fields| == |shortcuts| && forall k :: 0 <= k < |shortcuts| ==> FieldsOf(shortcuts[k]) == fields[k]
  }

  /** The `map` callback applied at position `i`. */
  method GenerateRecordAt(shortcuts: seq<Shortcut>, i: nat, ghost originals: map<Shortcut, seq<string>>,
                          ghost sorted: map<Shortcut, seq<string>>, ghost fields: seq<Fields>,
                          artDirPath: Option<string>, host: Host) returns (record: VdfShortcut)
    requires i < |shortcuts|
    requires SortedBefore(shortcuts, originals, sorted, i) && FieldsAre(shortcuts, fields)
    requires sorted[shortcuts[i]] == SortStrings(originals[shortcuts[i]])
    modifies shortcuts`categories
    ensures SortedBefore(shortcuts, originals, sorted, i + 1) && FieldsAre(shortcuts, fields)
    ensures record == Record(fields[i], IconPath(fields[i], artDirPath, host), sorted[shortcuts[i]], host)
  {
    var item := shortcuts[i];
    SortStringsIdempotent(originals[item]);
    assert SortStrings(item.categories) == sorted[item];
    record := GenerateRecord(item, artDirPath, host);
    assert FieldsOf(item) == fields[i];
    forall k | 0 <= k < |shortcuts|
      ensures shortcuts[k].categories == originals[shortcuts[k]] || shortcuts[k].categories == sorted[shortcuts[k]]
      ensures k <= i ==> shortcuts[k].categories == sorted[shortcuts[k]]
    {
      if shortcuts[k] != item {
        assert shortcuts[k].categories == old(shortcuts[k].categories);
      }
    }
  }

  /** The record-relevant fields of each shortcut. */
  ghost function FieldsOfAll(shortcuts: seq<Shortcut>): (r: seq<Fields>)
    reads shortcuts`name, shortcuts`execBin, shortcuts`execCwd, shortcuts`execArgs,
      shortcuts`hidden, shortcuts`vr, shortcuts`artIcon
    ensures |r| == |shortcuts|
    ensures forall k :: 0 <= k < |shortcuts| ==> r[k] == FieldsOf(shortcuts[k])
  {
    if shortcuts == [] then [] else [FieldsOf(shortcuts[0])] + FieldsOfAll(shortcuts[1..])
  }

  /**
   * `records` are the records of the first `|records|` positions, from the
   * fields at each position and the sorted categories of its shortcut.
   */
  ghost predicate RecordsFor(records: seq<VdfShortcut>, shortcuts: seq<Shortcut>, fields: seq<Fields>,
                             sorted: map<Shortcut, seq<string>>, artDirPath: Option<string>, host: Host)
  {
    && |records| <= |fields| == |shortcuts|
    && forall k :: 0 <= k < |records| ==>
         shortcuts[k] in sorted &&
         records[k] == Record(fields[k], IconPath(fields[k], artDirPath, host), sorted[shortcuts[k]], host)
  }

  lemma RecordsForAppend(records: seq<VdfShortcut>, record: VdfShortcut, shortcuts: seq<Shortcut>, fields: seq<Fields>,
                         sorted: map<Shortcut, seq<string>>, artDirPath: Option<string>, host: Host)
    requires RecordsFor(records, shortcuts, fields, sorted, artDirPath, host) && |records| < |fields|
    requires var i := |records|;
      shortcuts[i] in sorted &&
      record == Record(fields[i], IconPath(fields[i], artDirPath, host), sorted[shortcuts[i]], host)
    ensures RecordsFor(records + [record], shortcuts, fields, sorted, artDirPath, host)
  {
    var r := records + [record];
    forall k | 0 <= k < |r|
      ensures shortcuts[k] in sorted
      ensures r[k] == Record(fields[k], IconPath(fields[k], artDirPath, host), sorted[shortcuts[k]], host)
    {
      if k < |records| {
        assert r[k] == records[k];
      }
    }
  }

  /** Where the `map` over `shortcuts` stands after `|records|` steps. */
  ghost predicate MapState(shortcuts: seq<Shortcut>, originals: map<Shortcut, seq<string>>, sorted: map<Shortcut, seq<string>>,
                           fields: seq<Fields>, records: seq<VdfShortcut>, artDirPath: Option<string>, host: Host)
    reads shortcuts`categories, shortcuts`name, shortcuts`execBin, shortcuts`execCwd, shortcuts`execArgs,
      shortcuts`hidden, shortcuts`vr, shortcuts`artIcon
  {
    && SortedBefore(shortcuts, originals, sorted, |records|)
    && FieldsAre(shortcuts, fields)
    && RecordsFor(records, shortcuts, fields, sorted, artDirPath, host)
  }

  /** One step of the `map`: the callback at the next position, its record appended. */
  method MapStep(shortcuts: seq<Shortcut>, ghost originals: map<Shortcut, seq<string>>, ghost sorted: map<Shortcut, seq<string>>,
                 ghost fields: seq<Fields>, records: seq<VdfShortcut>, artDirPath: Option<string>, host: Host)
    returns (next: seq<VdfShortcut>)
    requires |records| < |shortcuts|
    requires forall o :: o in originals ==> o in sorted && sorted[o] == SortStrings(originals[o])
    requires MapState(shortcuts, originals, sorted, fields, records, artDirPath, host)
    modifies shortcuts`categories
    ensures |next| == |records| + 1
    ensures MapState(shortcuts, originals, sorted, fields, next, artDirPath, host)
  {
    var record := GenerateRecordAt(shortcuts, |records|, originals, sorted, fields, artDirPath, host);
    RecordsForAppend(records, record, shortcuts, fields, sorted, artDirPath, host);
    next := records + [record];
  }

  /**
   * `shortcuts.map(...)` in `generateShortcutVdfData`: the records in order,
   * each built from its shortcut's sorted categories. A shortcut listed twice
   * has its categories sorted twice, which changes nothing the second time.
   */
  method GenerateRecords(shortcuts: seq<Shortcut>, artDirPath: Option<string>, host: Host)
    returns (records: seq<VdfShortcut>)
    modifies shortcuts`categories
    ensures forall k :: 0 <= k < |shortcuts| ==> shortcuts[k].categories == SortStrings(old(shortcuts[k].categories))
    ensures |records| == |shortcuts|
    ensures forall k :: 0 <= k < |shortcuts| ==>
      var f := old(FieldsOf(shortcuts[k]));
      records[k] == Record(f, IconPath(f, artDirPath, host), shortcuts[k].categories, host)
  {
    ghost var originals := CategoriesOf(shortcuts);
    ghost var sorted := map o | o in originals :: SortStrings(originals[o]);
    ghost var fields := FieldsOfAll(shortcuts);
    records := [];
    for i := 0 to |shortcuts|
      invariant |records| == i
      invariant MapState(shortcuts, originals, sorted, fields, records, artDirPath, host)
    {
      records := MapStep(shortcuts, originals, sorted, fields, records, artDirPath, host);
    }
    forall k | 0 <= k < |shortcuts|
      ensures shortcuts[k].categories == SortStrings(old(shortcuts[k].categories))
      ensures var f := old(FieldsOf(shortcuts[k]));
        records[k] == Record(f, IconPath(f, artDirPath, host), shortcuts[k].categories, host)
    {
      assert originals[shortcuts[k]] == old(shortcuts[k].categories);
      assert fields[k] == old(FieldsOf(shortcuts[k]));
      assert shortcuts[k].categories == sorted[shortcuts[k]];
    }
  }

  /**
   * `generateShortcutVdfData`, up to the binary encoding: one record per
   * shortcut under its index. As in the source, each shortcut's categories
   * are sorted in place on the way, and the record lists them in that order;
   * nothing else about the shortcuts changes.
   */
  method GenerateShortcutVdfData(shortcut: OneOrMany<Shortcut>, artDirPath: Option<string>, host: Host)
    returns (vdf: VdfData)
    modifies Arrayify(shortcut)`categories
    ensures forall i :: 0 <= i < |Arrayify(shortcut)| ==>
      Arrayify(shortcut)[i].categories == SortStrings(old(Arrayify(shortcut)[i].categories))
    ensures vdf.shortcuts.Keys == IndexKeys(|Arrayify(shortcut)|)
    ensures forall i :: 0 <= i < |Arrayify(shortcut)| ==>
      var s := Arrayify(shortcut)[i];
      var f := old(FieldsOf(s));
      vdf.shortcuts[DecimalString(i)] == Record(f, IconPath(f, artDirPath, host), s.categories, host)
  {
    var shortcuts := Arrayify(shortcut);
    var records := GenerateRecords(shortcuts, artDirPath, host);
    IndexedMapKeys(records);
    vdf := VdfData(IndexedMap(records));
  }
}
