/** restoreDirPermissions: applying (or, compare-only, checking) one directory's manifest. */
module RestoreDir {
  import opened Wrappers
  import opened Php
  import opened PermsConfig
  import opened Records
  import opened FileSystems
  import opened SaveDir

  /** The path a manifest key stands for: the directory itself for ".", otherwise $dir . '/' . $file. */
  function Target(dir: Path, key: string): (p: Path)
    ensures p == dir <==> key == "."
    ensures key != "." ==> p == Join(dir, key)
  {
    JoinInjective(dir, key, key);
    if key == "." then dir else Join(dir, key)
  }

  /** The paths a manifest can touch. */
  function Targets(dir: Path, m: Manifest): set<Path>
  {
    set k | k in Keys(m) :: Target(dir, k)
  }

  /** Distinct keys stand for distinct paths. */
  lemma TargetInjective(dir: Path, a: string, b: string)
    ensures Target(dir, a) == Target(dir, b) <==> a == b
  {
    JoinInjective(dir, a, b);
  }

  /** The `continue` of lines 117-123: an ignored name, or a file that no longer exists. */
  predicate Skipped(cfg: Config, attrs: map<Path, Attrs>, dir: Path, key: string)
    ensures !Skipped(cfg, attrs, dir, key) <==> key == "." || (key !in cfg.ignoreFiles && Target(dir, key) in attrs)
  {
    key != "." && (key in cfg.ignoreFiles || Join(dir, key) !in attrs)
  }

  /** The state of the entries, the lines printed, and whether an exception ended the loop. */
  datatype Applied = Applied(attrs: map<Path, Attrs>, lines: seq<Line>, status: Status)

  /** The line printed for a changed entry: "Current/Saved" when only comparing, "Old/Restored" otherwise. */
  function ChangeReport(path: Path, compareOnly: bool, current: Perms, saved: Perms): Line
  {
    ChangeLine(path, if compareOnly then "Current" else "Old", current,
               if compareOnly then "Saved" else "Restored", saved)
  }

  /** One pass of the foreach loop of restoreDirPermissions. */
  function RestoreEntry(cfg: Config, attrs: map<Path, Attrs>, dir: Path, e: Member, compareOnly: bool): (r: Applied)
    ensures r.attrs.Keys == attrs.Keys
    ensures Skipped(cfg, attrs, dir, e.key) ==> r == Applied(attrs, [], Completed)
    ensures r.status.Aborted? <==> e.key == "." && dir !in attrs
    ensures r.status.Aborted? ==> r.attrs == attrs && r.lines == [] && r.status.error == StatFailed(dir)
    ensures compareOnly ==> r.attrs == attrs
    ensures forall p :: p in attrs && p != Target(dir, e.key) ==> r.attrs[p] == attrs[p]
    ensures var t := Target(dir, e.key);
            var saved := FillDefaults(cfg, e.key, e.record);
            && (|r.lines| == 1 || r.lines == [])
            && (|r.lines| == 1 <==>
                  !Skipped(cfg, attrs, dir, e.key) && t in attrs && Differs(FilePermissions(attrs[t]), saved))
            && (|r.lines| == 1 ==> r.lines[0] == ChangeReport(t, compareOnly, FilePermissions(attrs[t]), saved))
            && (!compareOnly && !Skipped(cfg, attrs, dir, e.key) && t in attrs ==> Settled(r.attrs[t], saved))
            && (!compareOnly && !Skipped(cfg, attrs, dir, e.key) && t in attrs ==>
                  r.attrs[t] == Restored(attrs[t], FilePermissions(attrs[t]), saved))
  {
    if Skipped(cfg, attrs, dir, e.key) then Applied(attrs, [], Completed)
    else
      var path := Target(dir, e.key);
      match StatPerms(attrs, path)
      case Failure(err) => Applied(attrs, [], Aborted(err))
      case Success(current) =>
        var saved := FillDefaults(cfg, e.key, e.record);
        if !Differs(current, saved) then
          Applied(attrs, [], Completed)
        else
          RestoredSettles(attrs[path], saved);
          var after := if compareOnly then attrs else attrs[path := Restored(attrs[path], current, saved)];
          Applied(after, [ChangeReport(path, compareOnly, current, saved)], Completed)
  }

  /** The rest of the foreach loop, when `m` holds the members still to be processed. */
  function RestoreFrom(cfg: Config, attrs: map<Path, Attrs>, dir: Path, m: Manifest, compareOnly: bool): Applied
    decreases |m|
  {
    if m == [] then Applied(attrs, [], Completed)
    else
      var first := RestoreEntry(cfg, attrs, dir, m[0], compareOnly);
      if first.status.Aborted? then first
      else
        var rest := RestoreFrom(cfg, first.attrs, dir, m[1..], compareOnly);
        Applied(rest.attrs, first.lines + rest.lines, rest.status)
  }

  /** What restoreDirPermissions(dir, compareOnly) does to the filesystem and prints. */
  function RestoreEffect(cfg: Config, w: World, dir: Path, compareOnly: bool): Effect
  {
    var d := RTrimSlash(dir);
    var permFile := ManifestPath(cfg, d);
    var m := if permFile in w.manifests then w.manifests[permFile] else [];
    var r := RestoreFrom(cfg, w.attrs, d, m, compareOnly);
    Effect(w.(attrs := r.attrs), r.lines, r.status)
  }

  /** Lines printed so far, followed by what the rest of the loop does. */
  function AfterLines(lines: seq<Line>, rest: Applied): Applied
  {
    Applied(rest.attrs, lines + rest.lines, rest.status)
  }

  /** The body of the foreach loop for one member; a skipped member returns at once (the `continue`). */
  method RestoreMember(fs: FileSystem, cfg: Config, d: Path, e: Member, compareOnly: bool)
    returns (lines: seq<Line>, status: Status)
    modifies fs
    ensures fs.manifests == old(fs.manifests)
    ensures Applied(fs.attrs, lines, status) == RestoreEntry(cfg, old(fs.attrs), d, e, compareOnly)
  {
    var file := e.key;
    var perms := FillDefaults(cfg, file, e.record);
    var fullPath := d;
    if file != "." {
      fullPath := Join(d, file);
      var present := fs.FileExists(fullPath);
      if file in cfg.ignoreFiles || !present {
        return [], Completed;
      }
    }
    var current := GetFilePermissions(fs, fullPath);
    if current.Failure? {
      return [], Aborted(current.error);
    }
    var currentPerms := current.value;
    var changed := ApplyChanges(fs, fullPath, currentPerms, perms, compareOnly);
    lines, status := [], Completed;
    if changed {
      lines := [ChangeReport(fullPath, compareOnly, currentPerms, perms)];
    }
  }

  /**
   * The three comparisons of the loop body: chown, chgrp and chmod what
   * differs (unless only comparing), and say whether anything did.
   */
  method ApplyChanges(fs: FileSystem, path: Path, current: Perms, saved: Perms, compareOnly: bool)
    returns (changed: bool)
    requires path in fs.attrs
    modifies fs
    ensures changed == Differs(current, saved)
    ensures fs.manifests == old(fs.manifests)
    ensures fs.attrs == if compareOnly then old(fs.attrs)
                        else old(fs.attrs)[path := Restored(old(fs.attrs)[path], current, saved)]
  {
    changed := false;
    if current.uid != saved.uid {
      changed := true;
      if !compareOnly {
        fs.Chown(path, saved.uid);
      }
    }
    if current.gid != saved.gid {
      changed := true;
      if !compareOnly {
        fs.Chgrp(path, saved.gid);
      }
    }
    if !LooseEquals(current.mode, saved.mode) {
      changed := true;
      if !compareOnly {
        fs.ChangeMode(path, ChmodValue(saved.mode));
      }
    }
  }

  /** One turn of the foreach loop, seen from the members still to be processed. */
  lemma RestoreFromStep(cfg: Config, attrs: map<Path, Attrs>, dir: Path, m: Manifest, i: nat, compareOnly: bool)
    requires i < |m|
    ensures var first := RestoreEntry(cfg, attrs, dir, m[i], compareOnly);
            RestoreFrom(cfg, attrs, dir, m[i..], compareOnly)
              == if first.status.Aborted? then first
                 else AfterLines(first.lines, RestoreFrom(cfg, first.attrs, dir, m[i + 1..], compareOnly))
  {
    assert m[i..][0] == m[i] && m[i..][1..] == m[i + 1..];
  }

  method RestoreDirPermissions(fs: FileSystem, cfg: Config, dir: Path, compareOnly: bool)
    returns (lines: seq<Line>, status: Status)
    modifies fs
    ensures Effect(fs.Snapshot(), lines, status) == RestoreEffect(cfg, old(fs.Snapshot()), dir, compareOnly)
  {
    var d := RTrimSlash(dir);
    var permFile := ManifestPath(cfg, d);
    var allPerms := fs.ReadManifest(permFile);
    ghost var goal := RestoreFrom(cfg, fs.attrs, d, allPerms, compareOnly);
    lines := [];
    var i := 0;
    while i < |allPerms|
      invariant 0 <= i <= |allPerms|
      invariant fs.manifests == old(fs.manifests)
      invariant AfterLines(lines, RestoreFrom(cfg, fs.attrs, d, allPerms[i..], compareOnly)) == goal
    {
      ghost var before := fs.attrs;
      var entryLines, entryStatus := RestoreMember(fs, cfg, d, allPerms[i], compareOnly);
      RestoreLoopStep(cfg, before, d, allPerms, i, compareOnly, lines, Applied(fs.attrs, entryLines, entryStatus), goal);
      lines := lines + entryLines;
      if entryStatus.Aborted? {
        return lines, entryStatus;
      }
      i := i + 1;
    }
    status := Completed;
  }

  /** The loop invariant of RestoreDirPermissions survives one turn. */
  lemma RestoreLoopStep(cfg: Config, attrs: map<Path, Attrs>, dir: Path, m: Manifest, i: nat, compareOnly: bool,
                        lines: seq<Line>, entry: Applied, goal: Applied)
    requires i < |m|
    requires AfterLines(lines, RestoreFrom(cfg, attrs, dir, m[i..], compareOnly)) == goal
    requires entry == RestoreEntry(cfg, attrs, dir, m[i], compareOnly)
    ensures entry.status.Aborted? ==> Applied(entry.attrs, lines + entry.lines, entry.status) == goal
    ensures !entry.status.Aborted? ==>
              AfterLines(lines + entry.lines, RestoreFrom(cfg, entry.attrs, dir, m[i + 1..], compareOnly)) == goal
  {
    RestoreFromStep(cfg, attrs, dir, m, i, compareOnly);
    if !entry.status.Aborted? {
      var rest := RestoreFrom(cfg, entry.attrs, dir, m[i + 1..], compareOnly);
      assert lines + (entry.lines + rest.lines) == (lines + entry.lines) + rest.lines;
    }
  }

  /** Targets of a manifest, split at its first member. */
  lemma TargetsSplit(dir: Path, m: Manifest)
    requires m != []
    ensures Targets(dir, m) == {Target(dir, m[0].key)} + Targets(dir, m[1..])
    ensures DistinctKeys(m) ==> Target(dir, m[0].key) !in Targets(dir, m[1..])
  {
    if DistinctKeys(m) && Target(dir, m[0].key) in Targets(dir, m[1..]) {
      var k :| k in Keys(m[1..]) && Target(dir, k) == Target(dir, m[0].key);
      TargetInjective(dir, k, m[0].key);
    }
  }

  /** A compare-only pass changes no entry. */
  lemma {:induction false} CompareOnlyChangesNothing(cfg: Config, attrs: map<Path, Attrs>, dir: Path, m: Manifest)
    ensures RestoreFrom(cfg, attrs, dir, m, true).attrs == attrs
    decreases |m|
  {
    if m != [] {
      CompareOnlyChangesNothing(cfg, attrs, dir, m[1..]);
    }
  }

  /** Restore never creates or removes an entry, and leaves every path the manifest does not name as it was. */
  lemma {:induction false} RestoreTouchesOnlyTargets(cfg: Config, attrs: map<Path, Attrs>, dir: Path,
                                                     m: Manifest, compareOnly: bool)
    ensures var r := RestoreFrom(cfg, attrs, dir, m, compareOnly);
            && r.attrs.Keys == attrs.Keys
            && forall p :: p in attrs && p !in Targets(dir, m) ==> r.attrs[p] == attrs[p]
    decreases |m|
  {
    if m != [] {
      TargetsSplit(dir, m);
      var first := RestoreEntry(cfg, attrs, dir, m[0], compareOnly);
      RestoreTouchesOnlyTargets(cfg, first.attrs, dir, m[1..], compareOnly);
    }
  }

  /**
   * After a restore that ran to the end, every member that was not skipped
   * has its entry in agreement with the member's record, defaults filled in.
   */
  lemma {:induction false} RestoreSettles(cfg: Config, attrs: map<Path, Attrs>, dir: Path, m: Manifest)
    requires DistinctKeys(m)
    requires RestoreFrom(cfg, attrs, dir, m, false).status.Completed?
    ensures var r := RestoreFrom(cfg, attrs, dir, m, false);
            forall k :: k in Keys(m) && !Skipped(cfg, attrs, dir, k) ==>
              && Target(dir, k) in r.attrs
              && Settled(r.attrs[Target(dir, k)], FillDefaults(cfg, k, Lookup(m, k).value))
    decreases |m|
  {
    if m != [] {
      TargetsSplit(dir, m);
      var first := RestoreEntry(cfg, attrs, dir, m[0], false);
      var r := RestoreFrom(cfg, first.attrs, dir, m[1..], false);
      RestoreSettles(cfg, first.attrs, dir, m[1..]);
      RestoreTouchesOnlyTargets(cfg, first.attrs, dir, m[1..], false);
      forall k | k in Keys(m) && !Skipped(cfg, attrs, dir, k)
        ensures Target(dir, k) in r.attrs
        ensures Settled(r.attrs[Target(dir, k)], FillDefaults(cfg, k, Lookup(m, k).value))
      {
        if k != m[0].key {
          assert !Skipped(cfg, first.attrs, dir, k);
        }
      }
    }
  }

  /** When every member that is not skipped already agrees with its entry, restore prints and changes nothing. */
  lemma {:induction false} NothingToRestore(cfg: Config, attrs: map<Path, Attrs>, dir: Path, m: Manifest, compareOnly: bool)
    requires DistinctKeys(m)
    requires forall k :: k in Keys(m) && !Skipped(cfg, attrs, dir, k) ==>
               && Target(dir, k) in attrs
               && !Differs(FilePermissions(attrs[Target(dir, k)]), FillDefaults(cfg, k, Lookup(m, k).value))
    ensures RestoreFrom(cfg, attrs, dir, m, compareOnly) == Applied(attrs, [], Completed)
    decreases |m|
  {
    if m != [] {
      assert Lookup(m, m[0].key) == Some(m[0].record);
      forall k | k in Keys(m[1..])
        ensures Lookup(m, k) == Lookup(m[1..], k)
      {
      }
      NothingToRestore(cfg, attrs, dir, m[1..], compareOnly);
    }
  }

  /**
   * Restore is idempotent when every mode it compares against is an octal
   * string as capture writes it: a second pass, compare-only or not, prints
   * nothing and changes nothing.
   */
  lemma RestoreIdempotent(cfg: Config, attrs: map<Path, Attrs>, dir: Path, m: Manifest, compareOnly: bool)
    requires DistinctKeys(m)
    requires forall k :: k in Keys(m) ==> CanonicalMode(FillDefaults(cfg, k, Lookup(m, k).value).mode)
    requires RestoreFrom(cfg, attrs, dir, m, false).status.Completed?
    ensures var first := RestoreFrom(cfg, attrs, dir, m, false);
            RestoreFrom(cfg, first.attrs, dir, m, compareOnly) == Applied(first.attrs, [], Completed)
  {
    var first := RestoreFrom(cfg, attrs, dir, m, false);
    RestoreSettles(cfg, attrs, dir, m);
    RestoreTouchesOnlyTargets(cfg, attrs, dir, m, false);
    forall k | k in Keys(m) && !Skipped(cfg, first.attrs, dir, k)
      ensures Target(dir, k) in first.attrs
      ensures !Differs(FilePermissions(first.attrs[Target(dir, k)]), FillDefaults(cfg, k, Lookup(m, k).value))
    {
      assert !Skipped(cfg, attrs, dir, k);
      SettledMeansEqual(first.attrs[Target(dir, k)], FillDefaults(cfg, k, Lookup(m, k).value));
    }
    NothingToRestore(cfg, first.attrs, dir, m, compareOnly);
  }

  /** The line restore would print for the change a compare-only pass reports. */
  function AsRestoreLine(l: Line): Line
  {
    match l
    case ChangeLine(path, _, current, _, saved) => ChangeReport(path, false, current, saved)
    case SavedLine(_) => l
  }

  /**
   * A compare-only pass reports exactly the entries a real restore changes,
   * with the same values, and stops at the same point; only the words differ.
   * The two passes may start from different states as long as they agree on
   * the paths the manifest names.
   */
  lemma {:induction false} CompareReportsWhatRestoreChanges(cfg: Config, seen: map<Path, Attrs>,
                                                            attrs: map<Path, Attrs>, dir: Path, m: Manifest)
    requires DistinctKeys(m)
    requires seen.Keys == attrs.Keys
    requires forall p :: p in attrs && p in Targets(dir, m) ==> seen[p] == attrs[p]
    ensures var compare := RestoreFrom(cfg, seen, dir, m, true);
            var restore := RestoreFrom(cfg, attrs, dir, m, false);
            && compare.status == restore.status
            && |compare.lines| == |restore.lines|
            && forall i :: 0 <= i < |compare.lines| ==> AsRestoreLine(compare.lines[i]) == restore.lines[i]
    decreases |m|
  {
    if m != [] {
      TargetsSplit(dir, m);
      var c1 := RestoreEntry(cfg, seen, dir, m[0], true);
      var r1 := RestoreEntry(cfg, attrs, dir, m[0], false);
      CompareEntryReportsRestoreEntry(cfg, seen, attrs, dir, m[0]);
      if !c1.status.Aborted? {
        assert forall p :: p in r1.attrs && p in Targets(dir, m[1..]) ==> c1.attrs[p] == r1.attrs[p];
        CompareReportsWhatRestoreChanges(cfg, c1.attrs, r1.attrs, dir, m[1..]);
        var c := RestoreFrom(cfg, c1.attrs, dir, m[1..], true);
        var r := RestoreFrom(cfg, r1.attrs, dir, m[1..], false);
        RelabelConcat(c1.lines, c.lines, r1.lines, r.lines);
      }
    }
  }

  /** One member: compare-only and restore agree on the status and, relabelled, on the line. */
  lemma CompareEntryReportsRestoreEntry(cfg: Config, seen: map<Path, Attrs>, attrs: map<Path, Attrs>,
                                        dir: Path, e: Member)
    requires seen.Keys == attrs.Keys
    requires Target(dir, e.key) in attrs ==> seen[Target(dir, e.key)] == attrs[Target(dir, e.key)]
    ensures var c := RestoreEntry(cfg, seen, dir, e, true);
            var r := RestoreEntry(cfg, attrs, dir, e, false);
            && c.status == r.status
            && |c.lines| == |r.lines|
            && forall i :: 0 <= i < |c.lines| ==> AsRestoreLine(c.lines[i]) == r.lines[i]
  {
  }

  /** Relabelling line by line carries over to concatenations. */
  lemma RelabelConcat(c1: seq<Line>, c2: seq<Line>, r1: seq<Line>, r2: seq<Line>)
    requires |c1| == |r1| && |c2| == |r2|
    requires forall i :: 0 <= i < |c1| ==> AsRestoreLine(c1[i]) == r1[i]
    requires forall i :: 0 <= i < |c2| ==> AsRestoreLine(c2[i]) == r2[i]
    ensures forall i :: 0 <= i < |c1 + c2| ==> AsRestoreLine((c1 + c2)[i]) == (r1 + r2)[i]
  {
  }

  /** `restore --dry-run` runs restoreDirPermissions compare-only, so it reports what `restore` would change. */
  lemma CompareReportsRestoreEffect(cfg: Config, w: World, dir: Path)
    requires var d := RTrimSlash(dir);
             var permFile := ManifestPath(cfg, d);
             permFile in w.manifests ==> DistinctKeys(w.manifests[permFile])
    ensures var compare := RestoreEffect(cfg, w, dir, true);
            var restore := RestoreEffect(cfg, w, dir, false);
            && compare.world == w
            && compare.status == restore.status
            && |compare.lines| == |restore.lines|
            && forall i :: 0 <= i < |compare.lines| ==> AsRestoreLine(compare.lines[i]) == restore.lines[i]
  {
    var d := RTrimSlash(dir);
    var permFile := ManifestPath(cfg, d);
    var m := if permFile in w.manifests then w.manifests[permFile] else [];
    CompareOnlyChangesNothing(cfg, w.attrs, d, m);
    CompareReportsWhatRestoreChanges(cfg, w.attrs, w.attrs, d, m);
  }

  /** The only exception restore can raise: the manifest has a "." member and the directory cannot be stat'ed. */
  lemma {:induction false} RestoreAbortsOnlyOnMissingDir(cfg: Config, attrs: map<Path, Attrs>, dir: Path,
                                                         m: Manifest, compareOnly: bool)
    ensures var r := RestoreFrom(cfg, attrs, dir, m, compareOnly);
            && (r.status.Aborted? <==> "." in Keys(m) && dir !in attrs)
            && (r.status.Aborted? ==> r.status.error == StatFailed(dir))
    decreases |m|
  {
    if m != [] {
      var first := RestoreEntry(cfg, attrs, dir, m[0], compareOnly);
      if !first.status.Aborted? {
        RestoreAbortsOnlyOnMissingDir(cfg, first.attrs, dir, m[1..], compareOnly);
      }
    }
  }
}
