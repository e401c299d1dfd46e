/** main: reading the command line, then walking the chosen root. */
module Cli {
  import opened Wrappers
  import opened Php
  import opened PermsConfig
  import opened Records
  import opened FileSystems
  import opened Walk

  /** What main does with its arguments: print the usage text and exit, or walk a root. */
  datatype Command = Usage | Run(mode: Mode, dryRun: bool, root: Path)

  /** The switch on $argv[1]. */
  function ModeNamed(s: string): (r: Option<Mode>)
    ensures r == Some(Save) <==> s == "save"
    ensures r == Some(Restore) <==> s == "restore"
    ensures r == Some(Compare) <==> s == "compare"
    ensures r.None? <==> s !in {"save", "restore", "compare"}
  {
    if s == "save" then Some(Save)
    else if s == "restore" then Some(Restore)
    else if s == "compare" then Some(Compare)
    else None
  }

  /**
   * The argument grammar: `script mode [--dry-run] [directory]`. The flag is
   * only recognised right after the mode; a directory argument replaces the
   * working directory only when it names a directory; anything after the
   * directory, a help flag anywhere, or an unknown mode gives the usage text.
   */
  function ParseArgs(argv: seq<string>, cwd: Path, kinds: map<Path, Kind>): (c: Command)
    ensures c.Usage? <==>
              || |argv| < 2 || |argv| > 4
              || "-h" in argv || "--help" in argv
              || argv[1] !in {"save", "restore", "compare"}
              || (|argv| == 4 && argv[2] != "--dry-run")
    ensures c.Run? ==> ModeNamed(argv[1]) == Some(c.mode)
    ensures c.Run? ==> (c.dryRun <==> |argv| >= 3 && argv[2] == "--dry-run")
    ensures c.Run? ==>
              var at := if c.dryRun then 3 else 2;
              c.root == if at < |argv| && IsDir(kinds, argv[at]) then argv[at] else cwd
  {
    if |argv| < 2 || |argv| > 4 || "-h" in argv || "--help" in argv || ModeNamed(argv[1]).None? then Usage
    else
      var dryRun := |argv| >= 3 && argv[2] == "--dry-run";
      var operands := if dryRun then argv[3..] else argv[2..];
      if |operands| > 1 then Usage
      else Run(ModeNamed(argv[1]).value, dryRun, if |operands| == 1 && IsDir(kinds, operands[0]) then operands[0] else cwd)
  }

  /** The argument handling of main, step by step: --dry-run is consumed by shifting $argv. */
  method ReadCommandLine(args: seq<string>, cwd: Path, kinds: map<Path, Kind>) returns (c: Command)
    ensures c == ParseArgs(args, cwd, kinds)
  {
    var argv := args;
    var argc := |argv|;
    if argc < 2 || argc > 4 || "-h" in argv || "--help" in argv {
      return Usage;
    }
    var rootDir := cwd;
    var mode := ModeNamed(argv[1]);
    if mode.None? {
      return Usage;
    }
    var dryRun := false;
    if argc >= 3 {
      if argv[2] == "--dry-run" {
        dryRun := true;
        argv := argv[1..];
      }
      if |argv| > 2 {
        if IsDir(kinds, argv[2]) {
          rootDir := argv[2];
        }
      }
      if |argv| > 3 {
        return Usage;
      }
    }
    c := Run(mode.value, dryRun, rootDir);
  }

  /**
   * The whole run: parse the arguments and, unless that gives the usage
   * text, walk the root in the chosen mode. The tree t witnesses that the
   * directories below the root are finite.
   */
  method RunScript(fs: FileSystem, cfg: Config, args: seq<string>, cwd: Path, ghost t: Tree)
    returns (c: Command, lines: seq<Line>, status: Status)
    requires var p := ParseArgs(args, cwd, fs.kinds);
             p.Run? ==> Mirrors(cfg, fs.kinds, fs.listing, t, RTrimSlash(p.root))
    modifies fs
    ensures c == ParseArgs(args, cwd, fs.kinds)
    ensures c.Usage? ==> fs.Snapshot() == old(fs.Snapshot()) && lines == [] && status == Completed
    ensures c.Run? ==>
              Effect(fs.Snapshot(), lines, status)
                == WalkEffect(cfg, fs.kinds, fs.listing, old(fs.Snapshot()),
                              WalkOrder(cfg, fs.kinds, fs.listing, t, c.root), c.mode, c.dryRun)
  {
    c := ReadCommandLine(args, cwd, fs.kinds);
    if c.Usage? {
      return c, [], Completed;
    }
    lines, status := ProcessDir(fs, cfg, c.root, c.mode, c.dryRun, t);
  }
}
