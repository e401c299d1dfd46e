/** saveDirPermissions: recording one directory into its manifest. */
module SaveDir {
  import opened Wrappers
  import opened Php
  import opened PermsConfig
  import opened Records
  import opened FileSystems

  /** getFilePermissions($path): the permission array, or the exception when stat fails. */
  function StatPerms(attrs: map<Path, Attrs>, path: Path): (r: Result<Perms, IoError>)
  {
    if path in attrs then Success(FilePermissions(attrs[path])) else Failure(StatFailed(path))
  }

  method GetFilePermissions(fs: FileSystem, path: Path) returns (r: Result<Perms, IoError>)
    ensures r == StatPerms(fs.attrs, path)
  {
    var info := fs.Stat(path);
    if info.Failure? {
      return Failure(info.error);
    }
    r := Success(FilePermissions(info.value));
  }

  /** The path of a directory's manifest file. */
  function ManifestPath(cfg: Config, dir: Path): Path
  {
    Join(dir, cfg.permissionsFile)
  }

  /** One pass of the readdir loop: record `name` when it is a regular file that is not ignored. */
  function CaptureEntry(cfg: Config, kinds: map<Path, Kind>, attrs: map<Path, Attrs>,
                        dir: Path, m: Manifest, name: string): Result<Manifest, IoError>
  {
    if name in cfg.ignoreFiles || !IsFile(kinds, Join(dir, name)) then Success(m)
    else
      match StatPerms(attrs, Join(dir, name))
      case Failure(e) => Failure(e)
      case Success(p) => Success(Put(m, name, Saved(p)))
  }

  /** The rest of the readdir loop, when `names` are the entries still to be read. */
  function CaptureFrom(cfg: Config, kinds: map<Path, Kind>, attrs: map<Path, Attrs>,
                       dir: Path, m: Manifest, names: seq<string>): Result<Manifest, IoError>
    decreases |names|
  {
    if names == [] || names[0] == "0" then Success(m)
    else
      match CaptureEntry(cfg, kinds, attrs, dir, m, names[0])
      case Failure(e) => Failure(e)
      case Success(m') => CaptureFrom(cfg, kinds, attrs, dir, m', names[1..])
  }

  /** The manifest saveDirPermissions builds for the (already trimmed) directory dir. */
  function Capture(cfg: Config, kinds: map<Path, Kind>, listing: map<Path, seq<string>>,
                   attrs: map<Path, Attrs>, dir: Path): Result<Manifest, IoError>
  {
    match StatPerms(attrs, dir)
    case Failure(e) => Failure(e)
    case Success(p) =>
      if dir !in listing then Failure(OpenDirFailed(dir))
      else CaptureFrom(cfg, kinds, attrs, dir, [Member(".", Saved(p))], listing[dir])
  }

  /** The names the readdir loop records: regular files it reaches that are not ignored. */
  function Recorded(cfg: Config, kinds: map<Path, Kind>, dir: Path, names: seq<string>): set<string>
  {
    set n | n in ReaddirSeen(names) && n !in cfg.ignoreFiles && IsFile(kinds, Join(dir, n))
  }

  /** The record capture writes for an entry stat can read. */
  function RecordOf(a: Attrs): SavedRecord
  {
    Saved(FilePermissions(a))
  }

  /** One turn of the readdir loop: it throws exactly when it records a name stat cannot read. */
  lemma CaptureEntrySpec(cfg: Config, kinds: map<Path, Kind>, attrs: map<Path, Attrs>,
                         dir: Path, m: Manifest, name: string)
    requires DistinctKeys(m) && name != "0"
    ensures var here := Recorded(cfg, kinds, dir, [name]);
            var r := CaptureEntry(cfg, kinds, attrs, dir, m, name);
            && (r.Failure? <==> name in here && Join(dir, name) !in attrs)
            && (r.Success? ==>
                  && DistinctKeys(r.value)
                  && Keys(r.value) == Keys(m) + here
                  && (name in here ==> Lookup(r.value, name) == Some(RecordOf(attrs[Join(dir, name)])))
                  && (forall k :: k != name ==> Lookup(r.value, k) == Lookup(m, k))
                  && (name !in here ==> r.value == m))
  {
    var here := Recorded(cfg, kinds, dir, [name]);
    assert ReaddirSeen([name]) == [name];
    if name in cfg.ignoreFiles || !IsFile(kinds, Join(dir, name)) {
      assert name !in here;
      assert here == {};
    } else {
      assert here == {name};
    }
  }

  /** The names recorded from a listing, split at its first entry. */
  lemma RecordedCons(cfg: Config, kinds: map<Path, Kind>, dir: Path, names: seq<string>)
    requires names != [] && names[0] != "0"
    ensures Recorded(cfg, kinds, dir, names)
              == Recorded(cfg, kinds, dir, [names[0]]) + Recorded(cfg, kinds, dir, names[1..])
  {
    assert ReaddirSeen(names) == [names[0]] + ReaddirSeen(names[1..]);
    assert ReaddirSeen([names[0]]) == [names[0]];
  }

  /** The rest of the loop throws exactly when a name it would record cannot be stat'ed. */
  lemma {:induction false} CaptureFromFails(cfg: Config, kinds: map<Path, Kind>, attrs: map<Path, Attrs>,
                                            dir: Path, m: Manifest, names: seq<string>)
    requires DistinctKeys(m)
    ensures var r := CaptureFrom(cfg, kinds, attrs, dir, m, names);
            r.Failure? <==> exists n :: n in Recorded(cfg, kinds, dir, names) && Join(dir, n) !in attrs
    decreases |names|
  {
    if names == [] || names[0] == "0" {
      assert ReaddirSeen(names) == [];
    } else {
      var name := names[0];
      RecordedCons(cfg, kinds, dir, names);
      CaptureEntrySpec(cfg, kinds, attrs, dir, m, name);
      var step := CaptureEntry(cfg, kinds, attrs, dir, m, name);
      if step.Success? {
        CaptureFromFails(cfg, kinds, attrs, dir, step.value, names[1..]);
      }
    }
  }

  /** When the rest of the loop completes, its keys are the old ones and the recorded names, none twice. */
  lemma {:induction false} CaptureFromKeys(cfg: Config, kinds: map<Path, Kind>, attrs: map<Path, Attrs>,
                                           dir: Path, m: Manifest, names: seq<string>)
    requires DistinctKeys(m)
    ensures var r := CaptureFrom(cfg, kinds, attrs, dir, m, names);
            r.Success? ==> DistinctKeys(r.value) && Keys(r.value) == Keys(m) + Recorded(cfg, kinds, dir, names)
    decreases |names|
  {
    if names == [] || names[0] == "0" {
      assert ReaddirSeen(names) == [];
    } else {
      var name := names[0];
      RecordedCons(cfg, kinds, dir, names);
      CaptureEntrySpec(cfg, kinds, attrs, dir, m, name);
      var step := CaptureEntry(cfg, kinds, attrs, dir, m, name);
      if step.Success? {
        CaptureFromKeys(cfg, kinds, attrs, dir, step.value, names[1..]);
      }
    }
  }

  /**
   * When the rest of the loop completes, every recorded name maps to the
   * record of its entry and every other key to what it mapped to before.
   */
  lemma {:induction false} CaptureFromSpec(cfg: Config, kinds: map<Path, Kind>, attrs: map<Path, Attrs>,
                                           dir: Path, m: Manifest, names: seq<string>)
    requires DistinctKeys(m)
    ensures var r := CaptureFrom(cfg, kinds, attrs, dir, m, names);
            r.Success? ==>
              && (forall n :: n in Recorded(cfg, kinds, dir, names) ==>
                    Join(dir, n) in attrs && Lookup(r.value, n) == Some(RecordOf(attrs[Join(dir, n)])))
              && (forall k :: k !in Recorded(cfg, kinds, dir, names) ==> Lookup(r.value, k) == Lookup(m, k))
    decreases |names|
  {
    if names == [] || names[0] == "0" {
      assert ReaddirSeen(names) == [];
    } else {
      var name := names[0];
      RecordedCons(cfg, kinds, dir, names);
      CaptureEntrySpec(cfg, kinds, attrs, dir, m, name);
      var step := CaptureEntry(cfg, kinds, attrs, dir, m, name);
      if step.Success? {
        CaptureFromSpec(cfg, kinds, attrs, dir, step.value, names[1..]);
      }
    }
  }

  /**
   * The manifest of a directory: capture throws when the directory cannot be
   * stat'ed or opened, or a file it records cannot be stat'ed. Otherwise its
   * keys are "." and the recorded names, no key twice; a recorded name maps
   * to its file's record, and "." to the directory's own record unless a
   * regular file called "." was recorded over it.
   */
  lemma CaptureSpec(cfg: Config, kinds: map<Path, Kind>, listing: map<Path, seq<string>>,
                    attrs: map<Path, Attrs>, dir: Path)
    ensures var r := Capture(cfg, kinds, listing, attrs, dir);
            && (r.Failure? <==>
                  || dir !in attrs
                  || dir !in listing
                  || exists n :: n in Recorded(cfg, kinds, dir, listing[dir]) && Join(dir, n) !in attrs)
            && (r.Success? ==>
                  var recorded := Recorded(cfg, kinds, dir, listing[dir]);
                  && DistinctKeys(r.value)
                  && Keys(r.value) == {"."} + recorded
                  && (forall n :: n in recorded ==> Lookup(r.value, n) == Some(RecordOf(attrs[Join(dir, n)])))
                  && ("." !in recorded ==> Lookup(r.value, ".") == Some(RecordOf(attrs[dir]))))
  {
    if dir in attrs && dir in listing {
      var init := [Member(".", RecordOf(attrs[dir]))];
      assert Keys(init) == {"."};
      CaptureFromFails(cfg, kinds, attrs, dir, init, listing[dir]);
      CaptureFromKeys(cfg, kinds, attrs, dir, init, listing[dir]);
      CaptureFromSpec(cfg, kinds, attrs, dir, init, listing[dir]);
    }
  }

  /** With the script's configuration the manifest never records its own file. */
  lemma CaptureOmitsManifestFile(kinds: map<Path, Kind>, listing: map<Path, seq<string>>,
                                 attrs: map<Path, Attrs>, dir: Path)
    requires Capture(Source, kinds, listing, attrs, dir).Success?
    ensures Source.permissionsFile !in Keys(Capture(Source, kinds, listing, attrs, dir).value)
  {
    CaptureSpec(Source, kinds, listing, attrs, dir);
  }

  /** Lines 60-77 of saveDirPermissions: build the manifest of the trimmed directory dir. */
  method CollectPermissions(fs: FileSystem, cfg: Config, dir: Path) returns (r: Result<Manifest, IoError>)
    ensures r == Capture(cfg, fs.kinds, fs.listing, fs.attrs, dir)
  {
    var own := GetFilePermissions(fs, dir);
    if own.Failure? {
      return Failure(own.error);
    }
    var entries := fs.ReadDir(dir);
    if entries.Failure? {
      return Failure(entries.error);
    }
    var names := entries.value;
    var all: Manifest := [Member(".", Saved(own.value))];
    ghost var goal := CaptureFrom(cfg, fs.kinds, fs.attrs, dir, all, names);
    var i := 0;
    while i < |names| && names[i] != "0"
      invariant 0 <= i <= |names|
      invariant CaptureFrom(cfg, fs.kinds, fs.attrs, dir, all, names[i..]) == goal
    {
      var file := names[i];
      assert names[i..][1..] == names[i + 1..];
      if file !in cfg.ignoreFiles {
        var fullPath := Join(dir, file);
        if IsFile(fs.kinds, fullPath) {
          var perms := GetFilePermissions(fs, fullPath);
          if perms.Failure? {
            return Failure(perms.error);
          }
          all := Put(all, file, Saved(perms.value));
        }
      }
      i := i + 1;
    }
    r := Success(all);
  }

  /** What saveDirPermissions(dir, dryRun) does to the filesystem and prints. */
  function SaveEffect(cfg: Config, kinds: map<Path, Kind>, listing: map<Path, seq<string>>,
                      w: World, dir: Path, dryRun: bool): Effect
  {
    var d := RTrimSlash(dir);
    match Capture(cfg, kinds, listing, w.attrs, d)
    case Failure(e) => Effect(w, [], Aborted(e))
    case Success(m) =>
      var written := if dryRun then w else w.(manifests := w.manifests[ManifestPath(cfg, d) := m]);
      Effect(written, [SavedLine(d)], Completed)
  }

  /**
   * Save never changes an entry's attributes, and writes the manifest (and
   * nothing else) only when it is not a dry run and capture succeeded.
   */
  lemma SaveEffectWrites(cfg: Config, kinds: map<Path, Kind>, listing: map<Path, seq<string>>,
                         w: World, dir: Path, dryRun: bool)
    ensures var e := SaveEffect(cfg, kinds, listing, w, dir, dryRun);
            var d := RTrimSlash(dir);
            && e.world.attrs == w.attrs
            && (dryRun || e.status.Aborted? ==> e.world == w)
            && (e.status.Completed? <==> Capture(cfg, kinds, listing, w.attrs, d).Success?)
            && (!dryRun && e.status.Completed? ==>
                  e.world.manifests == w.manifests[ManifestPath(cfg, d) := Capture(cfg, kinds, listing, w.attrs, d).value])
  {
  }

  method SaveDirPermissions(fs: FileSystem, cfg: Config, dir: Path, dryRun: bool)
    returns (lines: seq<Line>, status: Status)
    modifies fs
    ensures Effect(fs.Snapshot(), lines, status) == SaveEffect(cfg, fs.kinds, fs.listing, old(fs.Snapshot()), dir, dryRun)
  {
    var d := RTrimSlash(dir);
    var permFile := ManifestPath(cfg, d);
    var all := CollectPermissions(fs, cfg, d);
    if all.Failure? {
      return [], Aborted(all.error);
    }
    if !dryRun {
      fs.WriteManifest(permFile, all.value);
    }
    lines, status := [SavedLine(d)], Completed;
  }
}
