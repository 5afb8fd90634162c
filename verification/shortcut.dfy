/**
 * A non-Steam game shortcut (src/shortcut/shortcut.ts) and the identifiers
 * Steam derives from it: the 64-bit legacy app id, the 32-bit app id of the
 * `shortcuts.vdf` file, and the `steam://rungameid/` launch URL.
 *
 * The source computes the ids with `BigInt`, so nothing wraps: the bitwise
 * operations are written out on unbounded integers. For a CRC-32 value `c`
 * (below 2^32), `c | 0x80000000` sets bit 31; `(top << 32) | 0x02000000`
 * places `top` in the upper half above a lower half that is zero, so the `|`
 * is an addition; `>> 32` is division by 2^32.
 */
module Shortcuts {
  import opened Wrappers
  import opened Host
  import opened Text

  const Two31: nat := 0x8000_0000
  const Two32: nat := 0x1_0000_0000

  /** The lower 32 bits every shortcut app id carries. */
  const AppIdLowBits: nat := 0x0200_0000

  const LaunchUrlPrefix := "steam://rungameid/"

  /** `crc32(key) | 0x80000000`: bit 31 set, the lower 31 bits of the checksum kept. */
  function Top(crc: Crc32): (t: nat)
    ensures Two31 <= t < Two32
    ensures t == Two31 + crc % Two31
  {
    if crc < Two31 then crc + Two31 else crc
  }

  /** `(top << 32) | 0x02000000`: the 64-bit app id. */
  function AppId(crc: Crc32): (id: nat)
    ensures id / Two32 == Top(crc)
    ensures id % Two32 == AppIdLowBits
  {
    Top(crc) * Two32 + AppIdLowBits
  }

  /** `((top << 32) | 0x02000000) >> 32`: the app id `shortcuts.vdf` stores. */
  function NewAppId(crc: Crc32): (id: nat)
    ensures id == Top(crc)
    ensures Two31 <= id < Two32
  {
    AppId(crc) / Two32
  }

  /** `steam://rungameid/${appId}` */
  function LaunchUrl(crc: Crc32): (url: string)
    ensures StartsWith(url, LaunchUrlPrefix)
    ensures url[|LaunchUrlPrefix|..] == DecimalString(AppId(crc))
    ensures DigitsValue(url[|LaunchUrlPrefix|..]) == Top(crc) * Two32 + AppIdLowBits
  {
    LaunchUrlPrefix + DecimalString(AppId(crc))
  }

  /**
   * Two checksums give the same app id exactly when they agree in their
   * lower 31 bits: bit 31 is forced on, so it cannot tell two shortcuts apart.
   */
  lemma AppIdCollision(a: Crc32, b: Crc32)
    ensures AppId(a) == AppId(b) <==> a % Two31 == b % Two31
    ensures NewAppId(a) == NewAppId(b) <==> a % Two31 == b % Two31
  {
    if AppId(a) == AppId(b) {
      assert Top(a) == AppId(a) / Two32 == Top(b);
    }
  }

  /** Launch URLs collide exactly when the app ids do. */
  lemma {:induction false} LaunchUrlCollision(a: Crc32, b: Crc32)
    ensures LaunchUrl(a) == LaunchUrl(b) <==> a % Two31 == b % Two31
  {
    AppIdCollision(a, b);
    var p := LaunchUrlPrefix;
    if LaunchUrl(a) == LaunchUrl(b) {
      var u := LaunchUrl(a);
      assert DecimalString(AppId(a)) == u[|p|..] == DecimalString(AppId(b));
      DecimalStringInjective(AppId(a), AppId(b));
    }
  }

  /** A shortcut as the generator and the schema loader build it. */
  class Shortcut {
    var name: string
    var hidden: bool
    var overlay: bool
    var vr: bool
    var execBin: string
    var execCwd: string
    var execArgs: seq<string>
    var artIcon: Option<string>
    var artLogo: Option<string>
    var artGrid: Option<string>
    var artHero: Option<string>
    var artBanner: Option<string>
    var categories: seq<string>

    /** A visible, overlay-enabled, non-VR shortcut without arguments, art or categories. */
    constructor(name: string, execBin: string, execCwd: string)
      ensures this.name == name && this.execBin == execBin && this.execCwd == execCwd
      ensures execArgs == [] && categories == []
      ensures !hidden && overlay && !vr
      ensures artIcon == None && artLogo == None && artGrid == None
      ensures artHero == None && artBanner == None
    {
      this.name := name;
      this.execBin := execBin;
      this.execCwd := execCwd;
      execArgs := [];
      hidden := false;
      overlay := true;
      vr := false;
      categories := [];
      artIcon := None;
      artLogo := None;
      artGrid := None;
      artHero := None;
      artBanner := None;
    }

    /** The text the app id is a checksum of: the executable followed by the name. */
    function Key(): string
      reads this`execBin, this`name
    {
      execBin + name
    }

    /** `getAppId`: the decimal 64-bit app id. */
    function GetAppId(host: Host): (r: string)
      reads this`execBin, this`name
      ensures r == DecimalString(Top(host.crc32(Key())) * Two32 + AppIdLowBits)
    {
      DecimalString(AppId(host.crc32(Key())))
    }

    /** `getNewAppId`: the upper half of the 64-bit app id, in decimal. */
    function GetNewAppId(host: Host): (r: string)
      reads this`execBin, this`name
      ensures r == DecimalString(AppId(host.crc32(Key())) / Two32)
    {
      DecimalString(NewAppId(host.crc32(Key())))
    }

    /** `getLaunchUrl`: the launch URL carries the 64-bit app id. */
    function GetLaunchUrl(host: Host): (r: string)
      reads this`execBin, this`name
      ensures r == LaunchUrlPrefix + GetAppId(host)
    {
      LaunchUrl(host.crc32(Key()))
    }
  }
}
