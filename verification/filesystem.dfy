/**
 * The filesystem the script runs against, reduced to what it looks at:
 * the kind of each path (is_file / is_dir), the listing readdir returns
 * for each directory that opendir can open, the owner, group and mode
 * stat reports, and the decoded contents of the manifest files.
 */
module FileSystems {
  import opened Wrappers
  import opened Records

  datatype Kind = RegularFile | Directory | OtherKind

  /** is_file($p) */
  predicate IsFile(kinds: map<Path, Kind>, p: Path)
  {
    p in kinds && kinds[p] == RegularFile
  }

  /** is_dir($p) */
  predicate IsDir(kinds: map<Path, Kind>, p: Path)
  {
    p in kinds && kinds[p] == Directory
  }

  /** The part of the filesystem a run can change. */
  datatype World = World(attrs: map<Path, Attrs>, manifests: map<Path, Manifest>)

  /** What a piece of the run leaves behind: the filesystem, the lines printed, and whether it threw. */
  datatype Effect = Effect(world: World, lines: seq<Line>, status: Status)

  class FileSystem {
    /** The kind of every path; the script never creates or removes entries. */
    const kinds: map<Path, Kind>
    /** The entries readdir returns, in its order, for every directory opendir can open. */
    const listing: map<Path, seq<string>>
    /** What stat reports; stat succeeds and file_exists holds exactly for the paths in this map. */
    var attrs: map<Path, Attrs>
    /** The manifest file at each path, as json_decode reads it back. */
    var manifests: map<Path, Manifest>

    constructor (kinds: map<Path, Kind>, listing: map<Path, seq<string>>,
                 attrs: map<Path, Attrs>, manifests: map<Path, Manifest>)
      ensures this.kinds == kinds && this.listing == listing
      ensures this.attrs == attrs && this.manifests == manifests
    {
      this.kinds := kinds;
      this.listing := listing;
      this.attrs := attrs;
      this.manifests := manifests;
    }

    function Snapshot(): World
      reads this
    {
      World(attrs, manifests)
    }

    /** stat($p), or the failure the script turns into an exception. */
    method Stat(p: Path) returns (r: Result<Attrs, IoError>)
      ensures r.Success? <==> p in attrs
      ensures r.Success? ==> r.value == attrs[p]
      ensures r.Failure? ==> r.error == StatFailed(p)
    {
      if p in attrs {
        r := Success(attrs[p]);
      } else {
        r := Failure(StatFailed(p));
      }
    }

    /** file_exists($p) */
    method FileExists(p: Path) returns (b: bool)
      ensures b <==> p in attrs
    {
      b := p in attrs;
    }

    /** opendir($d) followed by readdir until it returns false. */
    method ReadDir(d: Path) returns (r: Result<seq<string>, IoError>)
      ensures r.Success? <==> d in listing
      ensures r.Success? ==> r.value == listing[d]
      ensures r.Failure? ==> r.error == OpenDirFailed(d)
    {
      if d in listing {
        r := Success(listing[d]);
      } else {
        r := Failure(OpenDirFailed(d));
      }
    }

    /** file_exists($permFile) ? json_decode(file_get_contents($permFile), true) : [] */
    method ReadManifest(p: Path) returns (m: Manifest)
      ensures p in manifests ==> m == manifests[p]
      ensures p !in manifests ==> m == []
    {
      m := if p in manifests then manifests[p] else [];
    }

    /** file_put_contents($permFile, json_encode($m)) */
    method WriteManifest(p: Path, m: Manifest)
      modifies this
      ensures manifests == old(manifests)[p := m]
      ensures attrs == old(attrs)
    {
      manifests := manifests[p := m];
    }

    /** chown($p, $uid) */
    method Chown(p: Path, uid: int)
      requires p in attrs
      modifies this
      ensures attrs == old(attrs)[p := old(attrs)[p].(uid := uid)]
      ensures manifests == old(manifests)
    {
      attrs := attrs[p := attrs[p].(uid := uid)];
    }

    /** chgrp($p, $gid) */
    method Chgrp(p: Path, gid: int)
      requires p in attrs
      modifies this
      ensures attrs == old(attrs)[p := old(attrs)[p].(gid := gid)]
      ensures manifests == old(manifests)
    {
      attrs := attrs[p := attrs[p].(gid := gid)];
    }

    /** chmod($p, $value) */
    method ChangeMode(p: Path, value: nat)
      requires p in attrs
      modifies this
      ensures attrs == old(attrs)[p := Chmod(old(attrs)[p], value)]
      ensures manifests == old(manifests)
    {
      attrs := attrs[p := Chmod(attrs[p], value)];
    }
  }
}
