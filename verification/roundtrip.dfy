/**
 * Save followed by restore: whatever happened to the entries in between,
 * restoring a directory from the manifest saved for it puts back the owner,
 * group and permission bits each entry had when it was saved.
 */
module RoundTrip {
  import opened Wrappers
  import opened Php
  import opened PermsConfig
  import opened Records
  import opened FileSystems
  import opened SaveDir
  import opened RestoreDir

  /** Two entries that restore does not tell apart have the same owner, group and permission bits. */
  lemma SamePermissions(a: Attrs, b: Attrs)
    requires !Differs(FilePermissions(a), FilePermissions(b))
    ensures a.uid == b.uid && a.gid == b.gid && PermissionBits(a.mode) == PermissionBits(b.mode)
  {
    var s, t := FilePermissions(a).mode.s, FilePermissions(b).mode.s;
    LooseEqualsOctal(s, t);
  }

  /** A record capture wrote, with nothing missing, is the permission array of the entry it was taken from. */
  lemma FilledRecordOf(cfg: Config, key: string, a: Attrs)
    ensures FillDefaults(cfg, key, RecordOf(a)) == FilePermissions(a)
    ensures CanonicalMode(FilePermissions(a).mode)
  {
  }

  /** An entry settled against the record capture took of b has b's owner, group and permission bits. */
  lemma SettledOnCapturedRecord(cfg: Config, key: string, b: Attrs, a: Attrs)
    requires Settled(a, FillDefaults(cfg, key, RecordOf(b)))
    ensures a.uid == b.uid && a.gid == b.gid && PermissionBits(a.mode) == PermissionBits(b.mode)
  {
    FilledRecordOf(cfg, key, b);
    SettledMeansEqual(a, FilePermissions(b));
    SamePermissions(a, b);
  }

  /**
   * Restoring the manifest that capture made of `before`, in any later state
   * `after` where the captured paths still exist, completes and gives every
   * captured path back the owner, group and permission bits it had in
   * `before`. The one assumption is that "d/." is not a regular file, as on
   * any real filesystem, so that the "." member is the directory's own.
   */
  lemma SaveThenRestore(cfg: Config, kinds: map<Path, Kind>, listing: map<Path, seq<string>>,
                        before: map<Path, Attrs>, after: map<Path, Attrs>, d: Path)
    requires Capture(cfg, kinds, listing, before, d).Success?
    requires !IsFile(kinds, Join(d, "."))
    requires forall k :: k in Keys(Capture(cfg, kinds, listing, before, d).value) ==> Target(d, k) in after
    ensures var m := Capture(cfg, kinds, listing, before, d).value;
            var r := RestoreFrom(cfg, after, d, m, false);
            && r.status == Completed
            && forall k :: k in Keys(m) ==>
                 var t := Target(d, k);
                 && t in before && t in r.attrs
                 && r.attrs[t].uid == before[t].uid
                 && r.attrs[t].gid == before[t].gid
                 && PermissionBits(r.attrs[t].mode) == PermissionBits(before[t].mode)
  {
    var m := Capture(cfg, kinds, listing, before, d).value;
    CaptureSpec(cfg, kinds, listing, before, d);
    RestoreAbortsOnlyOnMissingDir(cfg, after, d, m, false);
    CapturedKeysRestored(cfg, kinds, listing, before, after, d, m, RestoreFrom(cfg, after, d, m, false));
  }

  /** The per-path half of SaveThenRestore, once the restore is known to complete. */
  lemma CapturedKeysRestored(cfg: Config, kinds: map<Path, Kind>, listing: map<Path, seq<string>>,
                             before: map<Path, Attrs>, after: map<Path, Attrs>, d: Path, m: Manifest, r: Applied)
    requires Capture(cfg, kinds, listing, before, d).Success? && m == Capture(cfg, kinds, listing, before, d).value
    requires !IsFile(kinds, Join(d, "."))
    requires forall k :: k in Keys(m) ==> Target(d, k) in after
    requires r == RestoreFrom(cfg, after, d, m, false) && r.status == Completed
    ensures forall k :: k in Keys(m) ==>
              var t := Target(d, k);
              && t in before && t in r.attrs
              && r.attrs[t].uid == before[t].uid
              && r.attrs[t].gid == before[t].gid
              && PermissionBits(r.attrs[t].mode) == PermissionBits(before[t].mode)
  {
    var recorded := Recorded(cfg, kinds, d, listing[d]);
    CaptureSpec(cfg, kinds, listing, before, d);
    assert "." !in recorded;
    RestoreTouchesOnlyTargets(cfg, after, d, m, false);
    RestoreSettles(cfg, after, d, m);
    forall k | k in Keys(m)
      ensures Target(d, k) in before && Target(d, k) in r.attrs
      ensures r.attrs[Target(d, k)].uid == before[Target(d, k)].uid
      ensures r.attrs[Target(d, k)].gid == before[Target(d, k)].gid
      ensures PermissionBits(r.attrs[Target(d, k)].mode) == PermissionBits(before[Target(d, k)].mode)
    {
      var t := Target(d, k);
      assert !Skipped(cfg, after, d, k);
      assert Lookup(m, k) == Some(RecordOf(before[t]));
      SettledOnCapturedRecord(cfg, k, before[t], r.attrs[t]);
    }
  }
}
