# gitperms, modelled in Dafny

`gitperms.php` saves and restores the owner, group and permission bits of
every file in a directory tree. Git itself does not keep these.

- **save** walks the tree. In each directory it writes a `.gitperms`
  manifest: a JSON object mapping `"."` (the directory itself) and the
  name of every regular file in it to `{uid, gid, mode}`. The mode is
  `mode & 07777` written in octal.
- **restore** walks the tree and applies each directory's manifest. It
  chowns, chgrps and chmods whatever differs, and prints an "Old …,
  Restored …" line per changed entry.
- **compare** does the same walk but only prints "Current …, Saved …"
  lines.
- `--dry-run` right after the mode keeps save from writing and keeps
  restore from changing anything.

The model replaces the filesystem with a class `FileSystems.FileSystem`.
It has two constant maps:

- the kind of every path (`is_file` / `is_dir`);
- the entries `readdir` returns for every directory that `opendir` can open.

It has two variable maps:

- `attrs`: what `stat` reports for every existing path;
- `manifests`: the decoded manifests.

The syscalls are methods on that class. The script's functions become
methods with the same branches and loops. Each method is proved equal to a
specification function:

| script function | method | specification function |
|---|---|---|
| `saveDirPermissions` | `SaveDir.SaveDirPermissions` | `SaveEffect` |
| `restoreDirPermissions` | `RestoreDir.RestoreDirPermissions` | `RestoreEffect` |
| `processDir` | `Walk.ProcessDir` | `WalkEffect` over `WalkOrder` |
| argument handling of `main` | `Cli.ReadCommandLine` | `ParseArgs` |

The properties are then proved as lemmas about those functions.

The model keeps the script's PHP behaviour:

- `decoct` / `octdec`: `octdec` passes over characters that are not octal digits.
- PHP 8 loose `==` between numeric strings and ints.
- `rtrim($dir, '/')`.
- `while ($file = readdir($dh))` stops at an entry named `"0"`, because PHP reads `"0"` as false. This is `Php.ReaddirSeen`; both readdir loops use it.
- Saved values are modelled as PHP scalars (`Int` or `Str`). This matters because the default modes `0755` and `0644` are int literals (493 and 420), not the octal strings that restore expects. See Findings.

The configuration is a value (`PermsConfig.Config`):

- `Source` holds the constants exactly as the script writes them.
- `Intended` has the default modes written as the strings `"755"` and `"644"`.

Every operation takes the configuration as a parameter.

The walk recurses as far as the directories go. Its methods therefore take
a ghost `Walk.Tree`: a finite tree that mirrors the directories the walk
enters from the root. The tree is the termination witness, and it adds no
behaviour.

## Model

| member | source | states |
|---|---|---|
| `Php.Decoct` | gitperms.php:50 | decoct writes octal digits with no leading zero, and `octdec` of them gives back the number |
| `Php.DecoctOctdec` | gitperms.php:154 | a canonical octal string is exactly what decoct writes for its octdec value |
| `Php.LooseEqualsOctal` | gitperms.php:149 | two mode strings as decoct writes them are loosely equal (`!=` is false) exactly when they are the same string |
| `Php.OctalMatchesInt` | gitperms.php:149 | a decoct string is loosely equal to a non-negative int exactly when it spells that int in decimal |
| `Php.LooseEquals` | gitperms.php:133-149 | PHP 8 `==` on the scalars a manifest holds is reflexive, so the `!=` tests of equal values are false |
| `Php.Octdec` | gitperms.php:154 | octdec passes over every character that is not an octal digit, and a canonical octal string is the octal digit string of its value |
| `Php.RTrimSlash` | gitperms.php:57 | `rtrim($dir, '/')` gives a prefix of dir with no trailing `/`, and only slashes were removed |
| `Php.RTrimSlashIdempotent` | gitperms.php:174 | trimming the already trimmed directory again, as the nested calls do, changes nothing |
| `Php.ReaddirSeen` | gitperms.php:66 | the readdir loop sees a prefix of the entries that contains no `"0"`, and it stops early only at an entry `"0"` |
| `Numerals.DigitsOfCanonical` | gitperms.php:50 | the digits written for a number are canonical (non-empty, all digits of the base, no leading zero) |
| `Numerals.ValueOfDigitsOf` | gitperms.php:154 | reading back the digits of n gives n |
| `Numerals.DigitsOfValueOf` | gitperms.php:154 | a canonical numeral is the digit string of its own value |
| `Numerals.CanonicalInjective` | gitperms.php:149 | two canonical numerals have the same value exactly when they are the same string |
| `Numerals.CanonicalWiden` | gitperms.php:149 | an octal numeral is also a canonical decimal numeral, so `==` compares decoct strings as numbers |
| `Records.JoinInjective` | gitperms.php:116 | `$dir . '/' . $file` names different paths for different names, and never the directory itself |
| `Records.FilePermissions` | gitperms.php:47-51 | the permission array keeps uid and gid, and its mode is a canonical octal string whose octdec is `mode & 07777` |
| `Records.FillDefaults` | gitperms.php:97-127 | a missing uid or gid becomes the configured default (0); a missing mode becomes the directory default for `"."` and the file default for any other key; fields that are present are kept |
| `Records.SavedNeedsNoDefaults` | gitperms.php:97-104 | a record that capture wrote has every field, so filling in defaults gives back the array it was made from |
| `Records.Chmod` | gitperms.php:154 | chmod changes only the low twelve bits of the mode, to those of the value; owner, group and file-type bits stay |
| `Records.ChmodRecordedMode` | gitperms.php:154 | chmod of octdec of a recorded mode string sets exactly the permission bits that were recorded |
| `Records.Differs` | gitperms.php:133-149 | a record never differs from itself, and when both modes are canonical octal strings, as capture writes them, an entry differs from its record exactly when the two permission arrays are not equal |
| `Records.ChmodValue` | gitperms.php:154 | the value handed to chmod for a saved mode that decoct wrote is the number decoct wrote it for |
| `Records.Restored` | gitperms.php:133-156 | the owner, the group and the mode each change only when they compare unequal to the saved ones; the owner and group then become the saved ones and the permission bits those of octdec of the saved mode; the file-type bits above the low twelve always stay; an entry that does not differ is left exactly as it was |
| `Records.RestoredSettles` | gitperms.php:133-157 | after chown, chgrp and chmod of whatever differs, the entry has the saved owner and group, and its mode either compared equal or was set by chmod |
| `Records.SettledMeansEqual` | gitperms.php:149 | an entry settled against a record whose mode is a canonical octal string no longer differs from it |
| `Records.Lookup` | gitperms.php:95 | a key has a record exactly when it is among the manifest's keys; that record is a member of the manifest under that key, and when no key occurs twice it is the only one |
| `Records.Put` | gitperms.php:73 | `$allPerms[$file] = …` adds the key (appended when new, replaced in place when present), the key then maps to the record, other keys keep theirs, and no key occurs twice |
| `FileSystems.FileSystem.Stat` | gitperms.php:42 | stat succeeds exactly for existing paths and reports their attributes |
| `FileSystems.FileSystem.FileExists` | gitperms.php:117 | file_exists holds exactly for existing paths |
| `FileSystems.FileSystem.ReadDir` | gitperms.php:61 | opendir succeeds exactly for listable directories and yields their entries in readdir order |
| `FileSystems.FileSystem.ReadManifest` | gitperms.php:90-93 | a missing manifest file reads as the empty manifest |
| `FileSystems.FileSystem.WriteManifest` | gitperms.php:81 | writing a manifest replaces that one file and changes no attributes |
| `FileSystems.FileSystem.Chown` | gitperms.php:138 | chown changes only the owner of that one path |
| `FileSystems.FileSystem.Chgrp` | gitperms.php:146 | chgrp changes only the group of that one path |
| `FileSystems.FileSystem.ChangeMode` | gitperms.php:154 | chmod changes only the mode of that one path, as `Records.Chmod` says |
| `SaveDir.GetFilePermissions` | gitperms.php:40-53 | returns the permission array of the path, or the "Could not stat" exception when stat fails |
| `SaveDir.CollectPermissions` | gitperms.php:60-77 | the readdir loop builds exactly the manifest `Capture` describes |
| `SaveDir.CaptureEntrySpec` | gitperms.php:68-74 | one turn of the readdir loop throws exactly when it records a name that stat cannot read; otherwise it adds that name with its file's record, or leaves the manifest as it was when the name is ignored or not a regular file |
| `SaveDir.CaptureFromFails` | gitperms.php:66-76 | the loop throws exactly when a name it would record cannot be stat'ed |
| `SaveDir.CaptureFromKeys` | gitperms.php:66-76 | when the loop completes, its keys are the keys it started with plus the recorded names, none twice |
| `SaveDir.CaptureFromSpec` | gitperms.php:66-76 | when the loop completes, every recorded name maps to its file's record and every other key keeps its record |
| `SaveDir.CaptureSpec` | gitperms.php:60-77 | capture fails exactly when the directory cannot be stat'ed or opened, or a recorded file cannot be stat'ed; otherwise the keys are exactly `"."` plus the regular, non-ignored files the loop reaches, each mapped to its own record |
| `SaveDir.CaptureOmitsManifestFile` | gitperms.php:68 | with the script's configuration `.gitperms` is never a key |
| `SaveDir.SaveEffectWrites` | gitperms.php:79-83 | save never changes attributes; it writes the manifest (and only that file) exactly when it is not a dry run and capture succeeded |
| `SaveDir.SaveDirPermissions` | gitperms.php:55-84 | the method leaves the filesystem, prints and throws exactly as `SaveEffect` says |
| `RestoreDir.TargetInjective` | gitperms.php:106-116 | distinct manifest keys stand for distinct paths |
| `RestoreDir.Target` | gitperms.php:106-116 | the key `"."` stands for the directory itself and any other key for `$dir/$file`, never the directory |
| `RestoreDir.Skipped` | gitperms.php:106-123 | a member is processed exactly when it is `"."`, or its name is not ignored and its path exists |
| `RestoreDir.RestoreEntry` | gitperms.php:97-168 | one member: ignored or missing non-`"."` targets are skipped silently; the only exception is a `"."` whose directory cannot be stat'ed; a line is printed exactly when uid, gid or mode differs, with Current/Saved when comparing and Old/Restored otherwise; comparing changes nothing; only the target changes, and when restoring it becomes `Records.Restored` of its attributes and ends up settled |
| `RestoreDir.RestoreMember` | gitperms.php:97-168 | the loop body does what `RestoreEntry` says and writes no manifest |
| `RestoreDir.ApplyChanges` | gitperms.php:132-156 | `$changed` is set exactly when uid, gid or mode differs; unless comparing, the target becomes `Records.Restored` of its attributes and nothing else changes |
| `RestoreDir.RestoreDirPermissions` | gitperms.php:86-170 | the method leaves the filesystem, prints and throws exactly as `RestoreEffect` says |
| `RestoreDir.CompareOnlyChangesNothing` | gitperms.php:132-157 | with compareOnly set no chown, chgrp or chmod happens |
| `RestoreDir.RestoreTouchesOnlyTargets` | gitperms.php:106-157 | restore creates and removes nothing, and every path the manifest does not name is untouched |
| `RestoreDir.RestoreSettles` | gitperms.php:133-157 | after a completed restore every processed member's target has the saved (defaulted) owner and group, and its mode compares equal or was chmod'ed to it |
| `RestoreDir.NothingToRestore` | gitperms.php:132-158 | when no processed member differs, restore prints nothing and changes nothing |
| `RestoreDir.RestoreIdempotent` | gitperms.php:132-158 | with saved modes as capture writes them (canonical octal strings, at most 07777), a second restore (or compare) right after a restore prints nothing and changes nothing |
| `RestoreDir.CompareReportsWhatRestoreChanges` | gitperms.php:158-168 | compare-only and restore report the same entries with the same values and stop at the same point; only the words differ |
| `RestoreDir.CompareReportsRestoreEffect` | gitperms.php:86-170 | for one directory, compare leaves the filesystem alone and reports what restore would change |
| `RestoreDir.RestoreAbortsOnlyOnMissingDir` | gitperms.php:106-130 | restore throws exactly when the manifest has a `"."` member and the directory cannot be stat'ed |
| `Walk.WalkOrder` | gitperms.php:172-205 | the walk starts at the trimmed root |
| `Walk.ApplyMode` | gitperms.php:176-187 | the switch runs save, restore with compareOnly equal to the dry-run flag, or restore compare-only, as `DirEffect` says |
| `Walk.VisitOpensDirAfterwards` | gitperms.php:176-193 | a visit does the save, restore or compare first; a directory that opendir cannot open then ends the run with "Could not open directory", keeping what that operation changed and printed |
| `Walk.Descends` | gitperms.php:195-200 | the walk descends into a name exactly when `$dir/$file` is a directory and the name is not `.`, `..` or one of the ignored directory names |
| `Walk.ProcessDir` | gitperms.php:172-205 | the recursive method leaves the filesystem, prints and throws exactly as visiting `WalkOrder` in order does |
| `Walk.ProcessSubdirs` | gitperms.php:197-204 | the readdir loop of processDir walks the sub-directories in readdir order, as `WalkChildren` lists them |
| `Walk.ProcessEntry` | gitperms.php:199-203 | one entry is walked exactly when it is a directory not named `.`, `..` or `.git` |
| `Walk.WalkParentsFirst` | gitperms.php:195-202 | parents before children: the root comes first, and every later directory is one that an earlier directory's loop descends into (a directory, reached by readdir, not `.`, `..` or `.git`) |
| `Walk.WalkComplete` | gitperms.php:197-204 | no directory is missed: every directory a visited directory's loop descends into is visited |
| `Walk.DirEffectWithoutWrites` | gitperms.php:176-187 | the per-directory step writes nothing when comparing or on a dry run |
| `Walk.WalkWithoutWrites` | gitperms.php:182-185 | `compare`, and any run with `--dry-run`, leaves every owner, group, mode and manifest as it was |
| `Walk.SaveKeepsAttributes` | gitperms.php:178-179 | `save` never changes an owner, group or mode |
| `Walk.RestoreKeepsManifests` | gitperms.php:181-185 | `restore` and `compare` never write a manifest |
| `Walk.RestoreDryRunIsCompare` | gitperms.php:181-186 | `restore --dry-run` behaves exactly like `compare` |
| `Cli.ModeNamed` | gitperms.php:220-230 | the switch accepts exactly `save`, `restore` and `compare`, each as its own mode; anything else gives the usage text |
| `Cli.ParseArgs` | gitperms.php:211-251 | usage exactly when argc is outside 2..4, `-h`/`--help` appears anywhere, the mode is unknown, or four arguments do not have `--dry-run` in third place; the dry-run flag is recognised only right after the mode; a directory argument replaces the working directory only when it is a directory |
| `Cli.ReadCommandLine` | gitperms.php:207-251 | main's step-by-step handling, including the `array_shift` after `--dry-run`, yields what `ParseArgs` says |
| `Cli.RunScript` | gitperms.php:207-256 | a usage result changes and prints nothing; otherwise the run does what the walk of the chosen root in the chosen mode does |
| `RoundTrip.SaveThenRestore` | gitperms.php:60-157 | restoring the manifest saved for a directory, in any later state where the saved paths still exist, completes and gives every saved path back the owner, group and permission bits it had when saved |
| `Defaults.DirectoryDefaultValue` | gitperms.php:16 | the int default 0755 is handed to chmod as octdec("493") = 043 |
| `Defaults.FileDefaultValue` | gitperms.php:17 | the int default 0644 is handed to chmod as octdec("420") = 0420 |
| `Defaults.IntendedDefaultValues` | gitperms.php:154 | the string defaults "755" and "644" are canonical octal and are handed to chmod as 0755 and 0644 |
| `Defaults.SourceDirectoryDefault` | gitperms.php:109-111 | as written, a `"."` member without a mode is reported, chmod'ed to 043, and reported again by the next restore |
| `Defaults.SourceFileDefault` | gitperms.php:124-127 | as written, a file member without a mode ends with permission bits 0420, which the next restore accepts |
| `Defaults.IntendedDefaults` | gitperms.php:16-17 | with string defaults, a member without a mode gets 0755 (directory) or 0644 (file), and the next restore or compare reports nothing for it |

## Left out

- Real syscalls. `stat`, `opendir`/`readdir`, `is_file`/`is_dir`/`file_exists`, `chown`/`chgrp`/`chmod` and the file reads and writes become reads and updates of the `FileSystem` maps.
- Syscall failures other than stat and opendir. chown, chgrp and chmod always succeed: PHP only warns when they fail. Permission checks on paths are not modelled.
- FileSystems.FileSystem.Chown and FileSystems.FileSystem.Chgrp change only the owner or the group. On Linux, chown and chgrp of a regular file also clear the setuid bit, and the setgid bit when group-execute is set. The script compares the mode it read before chown, so it does not notice this. Take a setuid file saved with mode "4755" whose owner has since changed: the real restore ends with 0755, and a second restore is needed to put the setuid bit back. `RestoreDir.RestoreSettles`, `RestoreDir.RestoreIdempotent` and `RoundTrip.SaveThenRestore` hold under the model's chown and chgrp, not for such files.
- Cli.ParseArgs: the script accepts a directory argument when `file_exists` and `is_dir` both hold. The model tests only `is_dir` (`FileSystems.IsDir` on the kinds map), since any path that is a directory also exists. The model's `kinds` and `attrs` maps are not tied together, so this implication is assumed rather than checked.
- The manifest's JSON text. `json_encode`/`json_decode` are library calls. A manifest is stored as the decoded ordered map, and decoding is assumed to return what encoding produced. A manifest file that is not valid JSON is not part of this model.
- Saved values beyond what capture writes. Saved uid and gid are ints. A saved mode is an int or a string. Loose `==` treats a string as numeric only when it is a non-empty run of decimal digits, so signs, spaces, decimals and exponents are not modelled.
- Output formatting. Printed lines are kept as data (`Line`): the path, the two words and the two permission arrays, not the exact echo text. The timestamp banners from `date()` and the usage text are left out. `die` is modelled as the `Usage` result.
- Uncaught exceptions. A thrown exception ends the run. It is modelled as the `Aborted` status, and the walk stops there.
- The listing is fixed for the whole run. The `.gitperms` file that save creates does not appear in later `readdir` results. This changes nothing, because the walk only enters directories and capture ignores that name.
- Symbolic links and path aliasing. Two path strings are two entries. A walk that would never end, for example through a directory symlink cycle, admits no `Walk.Tree`, so `Walk.ProcessDir` does not cover it.
- `processDir` with a mode string other than save, restore or compare does nothing before walking. `main` never passes one, so `Walk.Mode` has only the three.
- Walk-level idempotence, compare/restore agreement and the save-then-restore round trip are proved per directory (`RestoreDir.RestoreIdempotent`, `RestoreDir.CompareReportsRestoreEffect`, `RoundTrip.SaveThenRestore`), not for a whole tree. One directory's manifest can name a sub-directory that the sub-directory's own `"."` member also sets.
- Walk.WalkOrder: its contract states only that the walk starts at the trimmed root. Parents-before-children and completeness are the separate lemmas `Walk.WalkParentsFirst` and `Walk.WalkComplete`.
- Walk.WalkParentsFirst: it proves parents before children, which a breadth-first order would also meet. That each sub-directory's walk is one block right after the sub-directory, with siblings in readdir order, is stated only by the definition of `Walk.WalkOrder` and not as a separate property.

## Findings

| source | as written | input that shows it | evidently intended | confidence | as-written member | corrected member |
|---|---|---|---|---|---|---|
| gitperms.php:16 | `$defaultDirMode = 0755` is the int 493. Restore compares it loosely with the decoct string of the current mode, which never equals it, and applies `octdec(493)` = `octdec("493")` = 043 | a manifest whose `"."` member has uid and gid but no mode: every restore reports the directory and chmods it to 043, and compare reports it forever | a directory without a saved mode gets 0755 once and then compares equal | high, not executed | `Defaults.SourceDirectoryDefault` | `Defaults.IntendedDefaults` |
| gitperms.php:17 | `$defaultFileMode = 0644` is the int 420. Restore applies `octdec("420")` = 0420 (r---w----) | a manifest member for an existing file with no mode: after restore the file's permission bits are 0420 | a file without a saved mode gets 0644 | high, not executed | `Defaults.SourceFileDefault` | `Defaults.IntendedDefaults` |
