/**
 * Locating artwork on disk (src/art/art-finder.ts, with the `findFileSync`
 * helper of src/util/find-file.ts): an art path without an extension is tried
 * with each allowed image extension in turn, and the first path that exists
 * wins.
 */
module ArtFinder {
  import opened Wrappers
  import opened Host
  import opened Text
  import opened Sequences

  /** The image extensions tried, in this order, for an art path without one. */
  const AllowedArtFileExtensions: seq<string> := [".png", ".jpg", ".jpeg", ".PNG", ".JPG", ".JPEG"]

  /**
   * `getArtSearchPathsFromFilepath`: a path with an extension is searched as
   * given; a path without one is searched with each allowed extension appended.
   */
  function GetArtSearchPaths(artFilepath: string, host: Host): (r: seq<string>)
    ensures host.extname(artFilepath) != "" ==> r == [artFilepath]
    ensures host.extname(artFilepath) == "" ==>
      |r| == |AllowedArtFileExtensions| &&
      forall i :: 0 <= i < |r| ==> r[i] == artFilepath + AllowedArtFileExtensions[i]
  {
    if host.extname(artFilepath) == "" then
      seq(|AllowedArtFileExtensions|, i requires 0 <= i < |AllowedArtFileExtensions| =>
        artFilepath + AllowedArtFileExtensions[i])
    else
      [artFilepath]
  }

  /** Every candidate extends the given path, and there is at least one. */
  lemma SearchPathsExtendArtPath(artFilepath: string, host: Host)
    ensures |GetArtSearchPaths(artFilepath, host)| >= 1
    ensures forall p :: p in GetArtSearchPaths(artFilepath, host) ==> StartsWith(p, artFilepath)
  {
    var r := GetArtSearchPaths(artFilepath, host);
    forall p | p in r
      ensures StartsWith(p, artFilepath)
    {
      var i :| 0 <= i < |r| && r[i] == p;
      if host.extname(artFilepath) == "" {
        assert p == artFilepath + AllowedArtFileExtensions[i];
        assert p[..|artFilepath|] == artFilepath;
      }
    }
  }

  /** The first of `paths` that exists on disk, if any. */
  function FirstExisting(paths: seq<string>, host: Host): (r: Option<string>)
    ensures r.None? <==> forall p :: p in paths ==> !host.fileExists(p)
    ensures r.Some? ==> r.value in paths && host.fileExists(r.value)
    ensures r.Some? ==> forall j :: 0 <= j < FirstIndexOf(paths, r.value) ==> !host.fileExists(paths[j])
  {
    if paths == [] then None
    else if host.fileExists(paths[0]) then Some(paths[0])
    else
      var r := FirstExisting(paths[1..], host);
      assert forall p :: p in paths ==> p == paths[0] || p in paths[1..];
      if r.Some? then
        assert FirstIndexOf(paths, r.value) == 1 + FirstIndexOf(paths[1..], r.value);
        r
      else r
  }

  /** `findFileSync`: tries the paths in order and returns the first that exists. */
  method FindFileSync(paths: seq<string>, host: Host) returns (r: Option<string>)
    ensures r == FirstExisting(paths, host)
  {
    for i := 0 to |paths|
      invariant forall j :: 0 <= j < i ==> !host.fileExists(paths[j])
    {
      if host.fileExists(paths[i]) {
        var f := FirstExisting(paths, host);
        assert f.Some?;
        assert FirstIndexOf(paths, f.value) == i;
        return Some(paths[i]);
      }
    }
    return None;
  }

  /** `findArtFileSync`: the first existing candidate for an art path. */
  method FindArtFileSync(artFilepath: string, host: Host) returns (r: Option<string>)
    ensures r == FirstExisting(GetArtSearchPaths(artFilepath, host), host)
  {
    var searchFiles := GetArtSearchPaths(artFilepath, host);
    r := FindFileSync(searchFiles, host);
  }
}
