/** The script's configuration, the constants of its PermsConfig class. */
module PermsConfig {
  import opened Php

  datatype Config = Config(
    permissionsFile: string,   // name of the manifest file kept in every directory
    defaultUid: int,
    defaultGid: int,
    defaultDirMode: Scalar,    // used for a "." record without a mode
    defaultFileMode: Scalar,   // used for any other record without a mode
    ignoreDirs: seq<string>,   // directory names the walk does not enter
    ignoreFiles: seq<string>)  // file names neither recorded nor restored

  /**
   * The values as the script declares them. The default modes are PHP
   * integer literals: 0755 is the integer 493 and 0644 is 420.
   */
  const Source: Config := Config(".gitperms", 0, 0, Int(493), Int(420), [".git"], [".gitperms"])

  /**
   * The same configuration with the default modes written the way the
   * manifest stores a mode, as octal digit strings.
   */
  const Intended: Config := Source.(defaultDirMode := Str("755"), defaultFileMode := Str("644"))

  /** The names processDir never descends into. */
  function WalkIgnore(cfg: Config): seq<string>
  {
    [".", ".."] + cfg.ignoreDirs
  }
}
