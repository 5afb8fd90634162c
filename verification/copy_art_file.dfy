/**
 * Where Steam expects a shortcut's artwork (src/art/copy-art-file.ts): a file
 * in the grid directory named after the shortcut's 64-bit app id.
 */
module ArtworkPaths {
  import opened Wrappers
  import opened Host
  import opened Text
  import opened Util
  import opened Shortcuts

  /** `ArtworkType` */
  datatype ArtworkType = Grid | Logo | Background | Icon

  /** The extension used when the caller passes none. */
  const DefaultArtExtension := ".png"

  /** What follows the app id in each artwork's file name. */
  function ArtworkSuffix(t: ArtworkType): (s: string)
    ensures |s| >= 1 && !('0' <= s[0] <= '9')
  {
    match t
    case Grid => "p"
    case Logo => "_logo"
    case Icon => "_icon"
    case Background => "_hero"
  }

  /** The artwork's file name: app id, type suffix, extension. */
  function ArtworkFileName(appId: string, t: ArtworkType, extension: string): string {
    appId + ArtworkSuffix(t) + extension
  }

  /** `getArtworkPathForShortcut`: the artwork file inside `artDirPath`. */
  function GetArtworkPathForShortcut(shortcut: Shortcut, artDirPath: string, t: ArtworkType,
                                     extension: Option<string>, host: Host): (r: string)
    reads shortcut`execBin, shortcut`name
    ensures extension.None? ==>
      r == host.join(artDirPath, ArtworkFileName(shortcut.GetAppId(host), t, DefaultArtExtension))
    ensures extension.Some? ==>
      r == host.join(artDirPath, ArtworkFileName(shortcut.GetAppId(host), t, extension.value))
  {
    host.join(artDirPath, ArtworkFileName(shortcut.GetAppId(host), t, GetValueOr(extension, DefaultArtExtension)))
  }

  predicate AllDigits(s: string) {
    forall i :: 0 <= i < |s| ==> '0' <= s[i] <= '9'
  }

  /** The number of leading decimal digits of `s`. */
  function LeadingDigits(s: string): (n: nat)
    ensures n <= |s|
  {
    if s != [] && '0' <= s[0] <= '9' then 1 + LeadingDigits(s[1..]) else 0
  }

  /** An all-digit app id followed by text that starts with a non-digit can be split off again. */
  lemma {:induction false} LeadingDigitsOfAppId(appId: string, rest: string)
    requires AllDigits(appId)
    requires rest != [] && !('0' <= rest[0] <= '9')
    ensures LeadingDigits(appId + rest) == |appId|
  {
    if appId != [] {
      assert (appId + rest)[1..] == appId[1..] + rest;
      LeadingDigitsOfAppId(appId[1..], rest);
    }
  }

  /** Reads the artwork type back from the text after the app id. */
  function TypeOfSuffix(rest: string): ArtworkType {
    if rest != [] && rest[0] == 'p' then Grid
    else if |rest| >= 2 && rest[1] == 'l' then Logo
    else if |rest| >= 2 && rest[1] == 'i' then Icon
    else Background
  }

  lemma TypeOfSuffixRecovers(t: ArtworkType, extension: string)
    ensures TypeOfSuffix(ArtworkSuffix(t) + extension) == t
  {
    var r := ArtworkSuffix(t) + extension;
    assert r[0] == ArtworkSuffix(t)[0];
    if t != Grid {
      assert r[1] == ArtworkSuffix(t)[1];
    }
  }

  /**
   * A file name determines the app id, the artwork type and the extension it
   * was made from: the app id is all digits, every suffix starts with a
   * non-digit, and the suffixes differ in their first two characters.
   */
  lemma {:induction false} ArtworkFileNameInjective(a1: string, t1: ArtworkType, e1: string,
                                                    a2: string, t2: ArtworkType, e2: string)
    requires AllDigits(a1) && AllDigits(a2)
    requires ArtworkFileName(a1, t1, e1) == ArtworkFileName(a2, t2, e2)
    ensures a1 == a2 && t1 == t2 && e1 == e2
  {
    var n := ArtworkFileName(a1, t1, e1);
    var s1, s2 := ArtworkSuffix(t1), ArtworkSuffix(t2);
    assert n == a1 + (s1 + e1) == a2 + (s2 + e2);
    LeadingDigitsOfAppId(a1, s1 + e1);
    LeadingDigitsOfAppId(a2, s2 + e2);
    assert a1 == n[..|a1|] == a2;
    var rest := n[|a1|..];
    assert rest == s1 + e1 && rest == s2 + e2;
    TypeOfSuffixRecovers(t1, e1);
    TypeOfSuffixRecovers(t2, e2);
    assert e1 == rest[|s1|..] == e2;
  }

  /**
   * Artwork file names of two shortcuts coincide only when their checksums
   * agree in the lower 31 bits, that is when their app ids coincide.
   */
  lemma ArtworkFileNamesCollide(c1: Crc32, t1: ArtworkType, e1: string,
                                c2: Crc32, t2: ArtworkType, e2: string)
    requires ArtworkFileName(DecimalString(AppId(c1)), t1, e1) == ArtworkFileName(DecimalString(AppId(c2)), t2, e2)
    ensures c1 % Two31 == c2 % Two31 && t1 == t2 && e1 == e2
  {
    ArtworkFileNameInjective(DecimalString(AppId(c1)), t1, e1, DecimalString(AppId(c2)), t2, e2);
    DecimalStringInjective(AppId(c1), AppId(c2));
    AppIdCollision(c1, c2);
  }
}
