/**
 * The values the script works with: what stat reports for an entry, the
 * permission array getFilePermissions builds, manifest records and
 * manifests, and the lines the script prints.
 */
module Records {
  import opened Wrappers
  import opened Numerals
  import opened Php
  import opened PermsConfig

  type Path = string

  /** $dir . '/' . $file */
  function Join(dir: Path, name: string): Path
  {
    dir + "/" + name
  }

  /** Joining one directory with two names gives two different paths, neither of them the directory. */
  lemma JoinInjective(dir: Path, a: string, b: string)
    ensures Join(dir, a) == Join(dir, b) <==> a == b
    ensures Join(dir, a) != dir
  {
    if Join(dir, a) == Join(dir, b) {
      assert a == Join(dir, a)[|dir| + 1..];
    }
  }

  /** What stat reports for one entry: owner, group and the whole st_mode, file-type bits included. */
  datatype Attrs = Attrs(uid: int, gid: int, mode: nat)

  /** The array getFilePermissions returns, and a manifest record once its missing fields are filled in. */
  datatype Perms = Perms(uid: int, gid: int, mode: Scalar)

  /** One decoded manifest record; a missing (or null) field is None. */
  datatype SavedRecord = SavedRecord(uid: Option<int>, gid: Option<int>, mode: Option<Scalar>)

  datatype Member = Member(key: string, record: SavedRecord)

  /** A decoded manifest: the members of the JSON object, in order. */
  type Manifest = seq<Member>

  /** mode & 07777, which for a non-negative mode keeps its low twelve bits. */
  function PermissionBits(mode: nat): nat
  {
    mode % 0x1000
  }

  /** getFilePermissions, given what stat reported: the mode is written as decoct(mode & 07777). */
  function FilePermissions(a: Attrs): (p: Perms)
    ensures p.uid == a.uid && p.gid == a.gid
    ensures p.mode.Str? && IsCanonical(p.mode.s, 8) && Octdec(p.mode.s) == a.mode % 0x1000
  {
    Perms(a.uid, a.gid, Str(Decoct(PermissionBits(a.mode))))
  }

  /** What json_encode followed by json_decode makes of a captured permission array. */
  function Saved(p: Perms): SavedRecord
  {
    SavedRecord(Some(p.uid), Some(p.gid), Some(p.mode))
  }

  /** The record restoreDirPermissions compares against, its missing fields taken from the configuration. */
  function FillDefaults(cfg: Config, key: string, r: SavedRecord): (p: Perms)
    ensures p.uid == if r.uid.Some? then r.uid.value else cfg.defaultUid
    ensures p.gid == if r.gid.Some? then r.gid.value else cfg.defaultGid
    ensures r.mode.Some? ==> p.mode == r.mode.value
    ensures r.mode.None? && key == "." ==> p.mode == cfg.defaultDirMode
    ensures r.mode.None? && key != "." ==> p.mode == cfg.defaultFileMode
  {
    var mode := if key == "." then cfg.defaultDirMode else cfg.defaultFileMode;
    Perms(r.uid.GetOr(cfg.defaultUid), r.gid.GetOr(cfg.defaultGid), r.mode.GetOr(mode))
  }

  /** A record that capture wrote has every field: filling in defaults gives back the array it was made from. */
  lemma SavedNeedsNoDefaults(cfg: Config, key: string, p: Perms)
    ensures FillDefaults(cfg, key, Saved(p)) == p
  {
  }

  /** chmod with octdec of a recorded mode string sets exactly the permission bits that were recorded. */
  lemma ChmodRecordedMode(a: Attrs, b: Attrs)
    ensures PermissionBits(Chmod(b, ChmodValue(FilePermissions(a).mode)).mode) == PermissionBits(a.mode)
  {
  }

  /** The three independent tests of restoreDirPermissions. */
  predicate Differs(current: Perms, saved: Perms)
    ensures current == saved ==> !Differs(current, saved)
    ensures current.mode.Str? && saved.mode.Str? && IsCanonical(current.mode.s, 8) && IsCanonical(saved.mode.s, 8) ==>
              (Differs(current, saved) <==> current != saved)
  {
    var differs := current.uid != saved.uid || current.gid != saved.gid || !LooseEquals(current.mode, saved.mode);
    if current.mode.Str? && saved.mode.Str? && IsCanonical(current.mode.s, 8) && IsCanonical(saved.mode.s, 8) then
      LooseEqualsOctal(current.mode.s, saved.mode.s);
      differs
    else
      differs
  }

  /** octdec($perms['mode']): the value chmod receives for a saved mode. */
  function ChmodValue(v: Scalar): (n: nat)
    ensures v.Str? && IsCanonical(v.s, 8) ==> Decoct(n) == v.s
  {
    if v.Str? && IsCanonical(v.s, 8) then
      DecoctOctdec(v.s);
      Octdec(ToString(v))
    else
      Octdec(ToString(v))
  }

  /** What chmod(path, value) does to an entry: the low twelve bits become those of value, the rest stays. */
  function Chmod(a: Attrs, value: nat): (r: Attrs)
    ensures r.uid == a.uid && r.gid == a.gid
    ensures PermissionBits(r.mode) == value % 0x1000
    ensures r.mode / 0x1000 == a.mode / 0x1000
  {
    var r := a.(mode := a.mode / 0x1000 * 0x1000 + value % 0x1000);
    DivUnique(r.mode, 0x1000, a.mode / 0x1000, value % 0x1000);
    r
  }

  /**
   * The entry after restoreDirPermissions has applied a saved record to it:
   * chown, chgrp and chmod, each only when its own attribute differs.
   */
  function Restored(a: Attrs, current: Perms, saved: Perms): (r: Attrs)
    ensures r.uid == if current.uid == saved.uid then a.uid else saved.uid
    ensures r.gid == if current.gid == saved.gid then a.gid else saved.gid
    ensures LooseEquals(current.mode, saved.mode) ==> r.mode == a.mode
    ensures !LooseEquals(current.mode, saved.mode) ==> PermissionBits(r.mode) == ChmodValue(saved.mode) % 0x1000
    ensures r.mode / 0x1000 == a.mode / 0x1000
    ensures !Differs(current, saved) ==> r == a
  {
    var withUid := if current.uid != saved.uid then a.(uid := saved.uid) else a;
    var withGid := if current.gid != saved.gid then withUid.(gid := saved.gid) else withUid;
    if !LooseEquals(current.mode, saved.mode) then Chmod(withGid, ChmodValue(saved.mode)) else withGid
  }

  /**
   * An entry that agrees with a saved record: owner and group are the saved
   * ones, and the mode either already compares equal or has been set by chmod.
   */
  predicate Settled(a: Attrs, saved: Perms)
  {
    && a.uid == saved.uid
    && a.gid == saved.gid
    && (LooseEquals(FilePermissions(a).mode, saved.mode)
        || PermissionBits(a.mode) == ChmodValue(saved.mode) % 0x1000)
  }

  /** After restore has applied a record to an entry, the entry agrees with the record. */
  lemma RestoredSettles(a: Attrs, saved: Perms)
    ensures Settled(Restored(a, FilePermissions(a), saved), saved)
  {
    var current := FilePermissions(a);
    var r := Restored(a, current, saved);
    if LooseEquals(current.mode, saved.mode) {
      assert PermissionBits(r.mode) == PermissionBits(a.mode);
    }
  }

  /** A saved mode as capture writes it: octal digits without a leading zero, at most 07777. */
  predicate CanonicalMode(v: Scalar)
  {
    v.Str? && IsCanonical(v.s, 8) && Octdec(v.s) < 0x1000
  }

  /** An entry that agrees with a record whose mode is canonical is not reported as different. */
  lemma SettledMeansEqual(a: Attrs, saved: Perms)
    requires Settled(a, saved) && CanonicalMode(saved.mode)
    ensures !Differs(FilePermissions(a), saved)
  {
    var s := saved.mode.s;
    if PermissionBits(a.mode) == Octdec(s) {
      DecoctOctdec(s);
      LooseEqualsOctal(s, s);
    }
  }

  /** The keys of a manifest. */
  function Keys(m: Manifest): (ks: set<string>)
    ensures forall e :: e in m ==> e.key in ks
  {
    if m == [] then {} else {m[0].key} + Keys(m[1..])
  }

  /** No key occurs twice, as in any PHP array. */
  predicate DistinctKeys(m: Manifest)
  {
    m == [] || (m[0].key !in Keys(m[1..]) && DistinctKeys(m[1..]))
  }

  /** $m[$key], or None when the key is absent. */
  function Lookup(m: Manifest, key: string): (r: Option<SavedRecord>)
    ensures r.Some? <==> key in Keys(m)
    ensures r.Some? ==> Member(key, r.value) in m
    ensures DistinctKeys(m) ==> forall v :: Member(key, v) in m ==> r == Some(v)
  {
    if m == [] then None
    else if m[0].key == key then Some(m[0].record)
    else Lookup(m[1..], key)
  }

  /**
   * $m[$key] = $r: an existing key keeps its place and gets the new record,
   * a new key is appended.
   */
  function Put(m: Manifest, key: string, r: SavedRecord): (m': Manifest)
    ensures Keys(m') == Keys(m) + {key}
    ensures forall k :: Lookup(m', k) == if k == key then Some(r) else Lookup(m, k)
    ensures key !in Keys(m) ==> m' == m + [Member(key, r)]
    ensures key in Keys(m) ==> |m'| == |m| && forall i :: 0 <= i < |m| ==> m'[i].key == m[i].key
    ensures DistinctKeys(m) ==> DistinctKeys(m')
  {
    if m == [] then [Member(key, r)]
    else if m[0].key == key then [Member(key, r)] + m[1..]
    else
      var rest := Put(m[1..], key, r);
      assert ([m[0]] + rest)[1..] == rest;
      [m[0]] + rest
  }

  /** The outcome of a run, or the exception that ended it. */
  datatype IoError = StatFailed(path: Path) | OpenDirFailed(path: Path)

  datatype Status = Completed | Aborted(error: IoError)

  /** A line the script prints. */
  datatype Line =
    | SavedLine(dir: Path)
    | ChangeLine(path: Path, currentWord: string, current: Perms, savedWord: string, saved: Perms)
}
