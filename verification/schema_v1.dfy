/**
 * Version 1 of the shortcut file format (src/schema/v1.ts): the shape of a
 * validated file and its conversion into a `Shortcut`.
 */
module SchemaV1 {
  import opened Wrappers
  import opened Host
  import opened Util
  import opened Shortcuts

  /** The `info` block; optional keys are `None` when absent or `null`. */
  datatype Info = Info(
    name: string,
    hidden: Option<bool>,
    overlay: Option<bool>,
    vr: Option<bool>,
    categories: Option<seq<string>>,
    extraCategories: Option<seq<string>>)

  /** The `exec` block. */
  datatype Exec = Exec(
    cwd: string,
    bin: string,
    args: Option<seq<string>>,
    extraArgs: Option<seq<string>>)

  /** The optional `art` block: paths relative to the shortcut file's directory. */
  datatype Art = Art(
    icon: Option<string>,
    logo: Option<string>,
    grid: Option<string>,
    banner: Option<string>,
    hero: Option<string>)

  /** A shortcut file that passed validation against the version 1 schema. */
  datatype ShortcutFileV1 = ShortcutFileV1(
    schema: Option<int>,
    info: Info,
    exec: Exec,
    art: Option<Art>)

  /** Where the shortcut file lives (src/shortcut/file-info.ts). */
  datatype FileInfo = FileInfo(
    dirpath: string,
    filepath: string,
    filename: string,
    basename: string)

  /** The `art` block, with every entry absent when the block is: `data?.art?.<entry>`. */
  function ArtOf(data: ShortcutFileV1): Art {
    if data.art.Some? then data.art.value else Art(None, None, None, None, None)
  }

  /**
   * An art path: the path the file gives, when it gives a non-empty one,
   * otherwise `<basename><suffix>` next to the shortcut file; either way
   * resolved against the file's directory.
   */
  function ArtPath(given: Option<string>, fallbackSuffix: string, fileInfo: FileInfo, host: Host): (r: string)
    ensures given.Some? && given.value != "" ==>
      r == host.resolveRelativePath(given.value, fileInfo.dirpath)
    ensures given.None? || given.value == "" ==>
      r == host.resolveRelativePath(fileInfo.basename + fallbackSuffix, fileInfo.dirpath)
  {
    if given.Some? && given.value != "" then
      host.resolveRelativePath(given.value, fileInfo.dirpath)
    else
      host.resolveRelativePath(fileInfo.basename + fallbackSuffix, fileInfo.dirpath)
  }

  /** An empty art path is falsy, so it is treated exactly like a missing one. */
  lemma EmptyArtPathIsMissing(fallbackSuffix: string, fileInfo: FileInfo, host: Host)
    ensures ArtPath(Some(""), fallbackSuffix, fileInfo, host) == ArtPath(None, fallbackSuffix, fileInfo, host)
  {
  }

  /** The flags `getShortcutFromV1` sets, each with its default when the file leaves it out. */
  ghost predicate FlagsFrom(s: Shortcut, data: ShortcutFileV1)
    reads s
  {
    && s.hidden == GetValueOr(data.info.hidden, false)
    && s.overlay == GetValueOr(data.info.overlay, true)
    && s.vr == GetValueOr(data.info.vr, false)
  }

  /** The art paths `getShortcutFromV1` sets. */
  ghost predicate ArtFrom(s: Shortcut, data: ShortcutFileV1, fileInfo: FileInfo, host: Host)
    reads s
  {
    && s.artIcon == Some(ArtPath(ArtOf(data).icon, "_icon", fileInfo, host))
    && s.artLogo == Some(ArtPath(ArtOf(data).logo, "_logo", fileInfo, host))
    && s.artGrid == Some(ArtPath(ArtOf(data).grid, "_grid", fileInfo, host))
    && s.artBanner == Some(ArtPath(ArtOf(data).banner, "_banner", fileInfo, host))
    && s.artHero == Some(ArtPath(ArtOf(data).hero, "_hero", fileInfo, host))
  }

  /** The argument and category lists: the base list followed by the extra one. */
  ghost predicate ListsFrom(s: Shortcut, data: ShortcutFileV1)
    reads s
  {
    && s.execArgs == GetValueOr(data.exec.args, []) + GetValueOr(data.exec.extraArgs, [])
    && s.categories == GetValueOr(data.info.categories, []) + GetValueOr(data.info.extraCategories, [])
  }

  /** What `getShortcutFromV1` makes of `data`: every field of the shortcut. */
  ghost predicate BuiltFrom(s: Shortcut, data: ShortcutFileV1, fileInfo: FileInfo, host: Host)
    reads s
  {
    && s.name == data.info.name
    && s.execBin == data.exec.bin
    && s.execCwd == data.exec.cwd
    && FlagsFrom(s, data)
    && ArtFrom(s, data, fileInfo, host)
    && ListsFrom(s, data)
  }

  /** The five art assignments of `getShortcutFromV1`; no other field changes. */
  method SetArt(s: Shortcut, data: ShortcutFileV1, fileInfo: FileInfo, host: Host)
    modifies s`artIcon, s`artLogo, s`artGrid, s`artBanner, s`artHero
    ensures ArtFrom(s, data, fileInfo, host)
  {
    var art := ArtOf(data);
    s.artIcon := Some(ArtPath(art.icon, "_icon", fileInfo, host));
    s.artLogo := Some(ArtPath(art.logo, "_logo", fileInfo, host));
    s.artGrid := Some(ArtPath(art.grid, "_grid", fileInfo, host));
    s.artBanner := Some(ArtPath(art.banner, "_banner", fileInfo, host));
    s.artHero := Some(ArtPath(art.hero, "_hero", fileInfo, host));
  }

  /** `getShortcutFromV1`: a new shortcut built from a validated version 1 file. */
  method GetShortcutFromV1(data: ShortcutFileV1, fileInfo: FileInfo, host: Host) returns (s: Shortcut)
    ensures fresh(s)
    ensures BuiltFrom(s, data, fileInfo, host)
  {
    s := new Shortcut(data.info.name, data.exec.bin, data.exec.cwd);
    s.hidden := GetValueOr(data.info.hidden, false);
    s.overlay := GetValueOr(data.info.overlay, true);
    s.vr := GetValueOr(data.info.vr, false);
    SetArt(s, data, fileInfo, host);
    s.execArgs := GetValueOr(data.exec.args, []) + GetValueOr(data.exec.extraArgs, []);
    s.categories := GetValueOr(data.info.categories, []) + GetValueOr(data.info.extraCategories, []);
  }
}
