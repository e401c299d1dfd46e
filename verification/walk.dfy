/**
 * processDir: the recursive walk. Each directory is first saved, restored
 * or compared, then opened again and every sub-directory that is not
 * ignored is walked in readdir order.
 */
module Walk {
  import opened Php
  import opened PermsConfig
  import opened Records
  import opened FileSystems
  import opened SaveDir
  import opened RestoreDir

  /** The three values main accepts for $mode. */
  datatype Mode = Save | Restore | Compare

  /** processDir descends into the entry `name` of d: is_dir($fullPath) and not in the ignore list. */
  predicate Descends(cfg: Config, kinds: map<Path, Kind>, d: Path, name: string)
    ensures Descends(cfg, kinds, d, name) <==>
              IsDir(kinds, Join(d, name)) && name != "." && name != ".." && name !in cfg.ignoreDirs
  {
    IsDir(kinds, Join(d, name)) && name !in WalkIgnore(cfg)
  }

  /**
   * The shape of the directories below d, one node per name the readdir
   * loop sees. The walk only terminates on a filesystem whose directories
   * form a finite tree from the root; a Tree is the witness of that.
   */
  datatype Tree = Tree(nodes: seq<Node>)
  datatype Node = Leaf | Subdir(sub: Tree)

  /** t describes the directories the walk enters from the (trimmed) directory d. */
  predicate Mirrors(cfg: Config, kinds: map<Path, Kind>, listing: map<Path, seq<string>>, t: Tree, d: Path)
    decreases t
  {
    d in listing ==>
      var names := ReaddirSeen(listing[d]);
      && |t.nodes| == |names|
      && forall k :: 0 <= k < |names| && Descends(cfg, kinds, d, names[k]) ==>
           && t.nodes[k].Subdir?
           && Mirrors(cfg, kinds, listing, t.nodes[k].sub, RTrimSlash(Join(d, names[k])))
  }

  /** The directories processDir(dir) visits, in the order it visits them. */
  function WalkOrder(cfg: Config, kinds: map<Path, Kind>, listing: map<Path, seq<string>>,
                     t: Tree, dir: Path): (order: seq<Path>)
    requires Mirrors(cfg, kinds, listing, t, RTrimSlash(dir))
    ensures |order| > 0 && order[0] == RTrimSlash(dir)
    decreases t, 1, 0
  {
    var d := RTrimSlash(dir);
    [d] + (if d in listing then WalkChildren(cfg, kinds, listing, t, d, 0) else [])
  }

  /** The directories visited below d from the k-th name readdir returns onwards. */
  function WalkChildren(cfg: Config, kinds: map<Path, Kind>, listing: map<Path, seq<string>>,
                        t: Tree, d: Path, k: nat): seq<Path>
    requires d in listing && Mirrors(cfg, kinds, listing, t, d)
    requires k <= |ReaddirSeen(listing[d])|
    decreases t, 0, |ReaddirSeen(listing[d])| - k + 1
  {
    if k == |ReaddirSeen(listing[d])| then []
    else Below(cfg, kinds, listing, t, d, k) + WalkChildren(cfg, kinds, listing, t, d, k + 1)
  }

  /** The directories visited from the k-th name readdir returns: none, or the walk of that sub-directory. */
  function Below(cfg: Config, kinds: map<Path, Kind>, listing: map<Path, seq<string>>,
                 t: Tree, d: Path, k: nat): seq<Path>
    requires d in listing && Mirrors(cfg, kinds, listing, t, d)
    requires k < |ReaddirSeen(listing[d])|
    decreases t, 0, 0
  {
    var name := ReaddirSeen(listing[d])[k];
    if Descends(cfg, kinds, d, name) then WalkOrder(cfg, kinds, listing, t.nodes[k].sub, Join(d, name)) else []
  }

  /** The switch of processDir: the per-directory operation for each mode. */
  function DirEffect(cfg: Config, kinds: map<Path, Kind>, listing: map<Path, seq<string>>,
                     w: World, d: Path, mode: Mode, dryRun: bool): Effect
  {
    match mode
    case Save => SaveEffect(cfg, kinds, listing, w, d, dryRun)
    case Restore => RestoreEffect(cfg, w, d, dryRun)
    case Compare => RestoreEffect(cfg, w, d, true)
  }

  /** One visit: the per-directory operation, then the opendir that throws when d cannot be opened. */
  function VisitEffect(cfg: Config, kinds: map<Path, Kind>, listing: map<Path, seq<string>>,
                       w: World, d: Path, mode: Mode, dryRun: bool): Effect
  {
    var e := DirEffect(cfg, kinds, listing, w, d, mode, dryRun);
    if e.status.Aborted? || d in listing then e
    else Effect(e.world, e.lines, Aborted(OpenDirFailed(d)))
  }

  /**
   * A directory that opendir cannot open ends the run with "Could not open
   * directory", after its own save, restore or compare has taken effect.
   */
  lemma VisitOpensDirAfterwards(cfg: Config, kinds: map<Path, Kind>, listing: map<Path, seq<string>>,
                                w: World, d: Path, mode: Mode, dryRun: bool)
    ensures var e := DirEffect(cfg, kinds, listing, w, d, mode, dryRun);
            var r := VisitEffect(cfg, kinds, listing, w, d, mode, dryRun);
            && r.world == e.world && r.lines == e.lines
            && (r.status.Aborted? <==> e.status.Aborted? || d !in listing)
            && (!e.status.Aborted? && d !in listing ==> r.status == Aborted(OpenDirFailed(d)))
  {
  }

  /** Lines printed so far, followed by what the rest of the run does. */
  function Then(lines: seq<Line>, rest: Effect): Effect
  {
    Effect(rest.world, lines + rest.lines, rest.status)
  }

  /** The visit of one directory in a run with the given mode. */
  function Visit(cfg: Config, kinds: map<Path, Kind>, listing: map<Path, seq<string>>,
                 mode: Mode, dryRun: bool): (World, Path) -> Effect
  {
    (w: World, d: Path) => VisitEffect(cfg, kinds, listing, w, d, mode, dryRun)
  }

  /** Visiting `dirs` in order, one step each, until an exception ends the run. */
  function Visits(step: (World, Path) -> Effect, w: World, dirs: seq<Path>): Effect
    decreases |dirs|
  {
    if dirs == [] then Effect(w, [], Completed)
    else
      var e := step(w, dirs[0]);
      if e.status.Aborted? then e
      else Then(e.lines, Visits(step, e.world, dirs[1..]))
  }

  /** What a run in the given mode does when it visits `dirs` in order. */
  function WalkEffect(cfg: Config, kinds: map<Path, Kind>, listing: map<Path, seq<string>>,
                      w: World, dirs: seq<Path>, mode: Mode, dryRun: bool): Effect
  {
    Visits(Visit(cfg, kinds, listing, mode, dryRun), w, dirs)
  }

  /** Visiting a + b is visiting a, then, unless that threw, b. */
  lemma {:induction false} VisitsAppend(step: (World, Path) -> Effect, w: World, a: seq<Path>, b: seq<Path>)
    ensures var e := Visits(step, w, a);
            Visits(step, w, a + b) == if e.status.Aborted? then e else Then(e.lines, Visits(step, e.world, b))
    decreases |a|
  {
    if a == [] {
      assert a + b == b;
    } else {
      var ab := a + b;
      assert ab[0] == a[0] && ab[1..] == a[1..] + b;
      var e := step(w, a[0]);
      if !e.status.Aborted? {
        VisitsAppend(step, e.world, a[1..], b);
        var tail := Visits(step, e.world, a[1..]);
        if !tail.status.Aborted? {
          var last := Visits(step, tail.world, b);
          assert e.lines + (tail.lines + last.lines) == (e.lines + tail.lines) + last.lines;
        }
      }
    }
  }

  /** One turn of the readdir loop of processDir, seen from the names still to be read. */
  lemma WalkChildrenStep(cfg: Config, kinds: map<Path, Kind>, listing: map<Path, seq<string>>,
                         t: Tree, d: Path, k: nat, w: World, mode: Mode, dryRun: bool)
    requires d in listing && Mirrors(cfg, kinds, listing, t, d)
    requires k < |ReaddirSeen(listing[d])|
    ensures var e := WalkEffect(cfg, kinds, listing, w, Below(cfg, kinds, listing, t, d, k), mode, dryRun);
            WalkEffect(cfg, kinds, listing, w, WalkChildren(cfg, kinds, listing, t, d, k), mode, dryRun)
              == if e.status.Aborted? then e
                 else Then(e.lines, WalkEffect(cfg, kinds, listing, e.world, WalkChildren(cfg, kinds, listing, t, d, k + 1), mode, dryRun))
  {
    VisitsAppend(Visit(cfg, kinds, listing, mode, dryRun), w, Below(cfg, kinds, listing, t, d, k), WalkChildren(cfg, kinds, listing, t, d, k + 1));
  }

  /** The first step of a walk from d: visit d, then its sub-directories. */
  lemma WalkOrderStep(cfg: Config, kinds: map<Path, Kind>, listing: map<Path, seq<string>>,
                      t: Tree, dir: Path, w: World, mode: Mode, dryRun: bool)
    requires Mirrors(cfg, kinds, listing, t, RTrimSlash(dir))
    ensures var d := RTrimSlash(dir);
            var e := VisitEffect(cfg, kinds, listing, w, d, mode, dryRun);
            WalkEffect(cfg, kinds, listing, w, WalkOrder(cfg, kinds, listing, t, dir), mode, dryRun)
              == if e.status.Aborted? then e
                 else Then(e.lines, WalkEffect(cfg, kinds, listing, e.world,
                                               WalkChildren(cfg, kinds, listing, t, d, 0), mode, dryRun))
  {
    var d := RTrimSlash(dir);
    var order := WalkOrder(cfg, kinds, listing, t, dir);
    assert order[0] == d;
    if d in listing {
      assert order[1..] == WalkChildren(cfg, kinds, listing, t, d, 0);
    }
  }

  /** The switch of processDir. */
  method ApplyMode(fs: FileSystem, cfg: Config, d: Path, mode: Mode, dryRun: bool)
    returns (lines: seq<Line>, status: Status)
    modifies fs
    ensures Effect(fs.Snapshot(), lines, status) == DirEffect(cfg, fs.kinds, fs.listing, old(fs.Snapshot()), d, mode, dryRun)
  {
    match mode {
      case Save =>
        lines, status := SaveDirPermissions(fs, cfg, d, dryRun);
      case Restore =>
        lines, status := RestoreDirPermissions(fs, cfg, d, dryRun);
      case Compare =>
        lines, status := RestoreDirPermissions(fs, cfg, d, true);
    }
  }

  /** processDir($dir, $mode, $dryRun): ProcessDir does what visiting WalkOrder does. */
  method ProcessDir(fs: FileSystem, cfg: Config, dir: Path, mode: Mode, dryRun: bool, ghost t: Tree)
    returns (lines: seq<Line>, status: Status)
    requires Mirrors(cfg, fs.kinds, fs.listing, t, RTrimSlash(dir))
    modifies fs
    ensures Effect(fs.Snapshot(), lines, status)
              == WalkEffect(cfg, fs.kinds, fs.listing, old(fs.Snapshot()),
                            WalkOrder(cfg, fs.kinds, fs.listing, t, dir), mode, dryRun)
    decreases t, 2
  {
    var d := RTrimSlash(dir);
    WalkOrderStep(cfg, fs.kinds, fs.listing, t, dir, fs.Snapshot(), mode, dryRun);
    lines, status := ApplyMode(fs, cfg, d, mode, dryRun);
    if status.Aborted? {
      return;
    }
    var entries := fs.ReadDir(d);
    if entries.Failure? {
      return lines, Aborted(entries.error);
    }
    var subLines;
    subLines, status := ProcessSubdirs(fs, cfg, d, entries.value, mode, dryRun, t);
    lines := lines + subLines;
  }

  /** The readdir loop of processDir over the entries `names` of d. */
  method ProcessSubdirs(fs: FileSystem, cfg: Config, d: Path, names: seq<string>, mode: Mode, dryRun: bool,
                        ghost t: Tree)
    returns (lines: seq<Line>, status: Status)
    requires d in fs.listing && names == fs.listing[d] && Mirrors(cfg, fs.kinds, fs.listing, t, d)
    modifies fs
    ensures Effect(fs.Snapshot(), lines, status)
              == WalkEffect(cfg, fs.kinds, fs.listing, old(fs.Snapshot()),
                            WalkChildren(cfg, fs.kinds, fs.listing, t, d, 0), mode, dryRun)
    decreases t, 1
  {
    ghost var kinds, listing := fs.kinds, fs.listing;
    ghost var seen := ReaddirSeen(names);
    ghost var goal := WalkEffect(cfg, kinds, listing, fs.Snapshot(), WalkChildren(cfg, kinds, listing, t, d, 0), mode, dryRun);
    lines := [];
    var i := 0;
    while i < |names| && names[i] != "0"
      invariant 0 <= i <= |seen|
      invariant Then(lines, WalkEffect(cfg, kinds, listing, fs.Snapshot(), WalkChildren(cfg, kinds, listing, t, d, i), mode, dryRun)) == goal
      decreases |names| - i
    {
      assert names[i] == seen[i];
      ghost var w := fs.Snapshot();
      var subLines, subStatus := ProcessEntry(fs, cfg, d, names[i], mode, dryRun, t, i);
      WalkLoopStep(cfg, kinds, listing, t, d, i, w, mode, dryRun, lines, Effect(fs.Snapshot(), subLines, subStatus), goal);
      lines := lines + subLines;
      if subStatus.Aborted? {
        return lines, subStatus;
      }
      i := i + 1;
    }
    status := Completed;
  }

  /** The loop invariant of ProcessSubdirs survives one turn. */
  lemma WalkLoopStep(cfg: Config, kinds: map<Path, Kind>, listing: map<Path, seq<string>>, t: Tree, d: Path, k: nat,
                     w: World, mode: Mode, dryRun: bool, lines: seq<Line>, sub: Effect, goal: Effect)
    requires d in listing && Mirrors(cfg, kinds, listing, t, d)
    requires k < |ReaddirSeen(listing[d])|
    requires Then(lines, WalkEffect(cfg, kinds, listing, w, WalkChildren(cfg, kinds, listing, t, d, k), mode, dryRun)) == goal
    requires sub == WalkEffect(cfg, kinds, listing, w, Below(cfg, kinds, listing, t, d, k), mode, dryRun)
    ensures sub.status.Aborted? ==> Then(lines, sub) == goal
    ensures !sub.status.Aborted? ==>
              Then(lines + sub.lines, WalkEffect(cfg, kinds, listing, sub.world, WalkChildren(cfg, kinds, listing, t, d, k + 1), mode, dryRun)) == goal
  {
    WalkChildrenStep(cfg, kinds, listing, t, d, k, w, mode, dryRun);
    if !sub.status.Aborted? {
      var rest := WalkEffect(cfg, kinds, listing, sub.world, WalkChildren(cfg, kinds, listing, t, d, k + 1), mode, dryRun);
      assert lines + (sub.lines + rest.lines) == (lines + sub.lines) + rest.lines;
    }
  }

  /** The body of processDir's readdir loop for the k-th name: walk it when it is a sub-directory to enter. */
  method ProcessEntry(fs: FileSystem, cfg: Config, d: Path, file: string, mode: Mode, dryRun: bool,
                      ghost t: Tree, ghost k: nat)
    returns (lines: seq<Line>, status: Status)
    requires d in fs.listing && Mirrors(cfg, fs.kinds, fs.listing, t, d)
    requires k < |ReaddirSeen(fs.listing[d])| && file == ReaddirSeen(fs.listing[d])[k]
    modifies fs
    ensures Effect(fs.Snapshot(), lines, status)
              == WalkEffect(cfg, fs.kinds, fs.listing, old(fs.Snapshot()), Below(cfg, fs.kinds, fs.listing, t, d, k), mode, dryRun)
    decreases t, 0
  {
    var fullPath := Join(d, file);
    if IsDir(fs.kinds, fullPath) && file !in WalkIgnore(cfg) {
      lines, status := ProcessDir(fs, cfg, fullPath, mode, dryRun, t.nodes[k].sub);
    } else {
      lines, status := [], Completed;
    }
  }

  /** `c` is a directory processDir(p) descends into: a name its readdir loop reaches, a directory, not ignored. */
  predicate ChildOf(cfg: Config, kinds: map<Path, Kind>, listing: map<Path, seq<string>>, p: Path, c: Path)
  {
    p in listing && exists n :: n in ReaddirSeen(listing[p]) && Descends(cfg, kinds, p, n) && c == RTrimSlash(Join(p, n))
  }

  /** Every element of o is a child of `root` or of an earlier element of o. */
  predicate Rooted(cfg: Config, kinds: map<Path, Kind>, listing: map<Path, seq<string>>, o: seq<Path>, root: Path)
  {
    forall j :: 0 <= j < |o| ==>
      ChildOf(cfg, kinds, listing, root, o[j]) || exists i :: 0 <= i < j && ChildOf(cfg, kinds, listing, o[i], o[j])
  }

  lemma RootedAppend(cfg: Config, kinds: map<Path, Kind>, listing: map<Path, seq<string>>,
                     a: seq<Path>, b: seq<Path>, root: Path)
    requires Rooted(cfg, kinds, listing, a, root) && Rooted(cfg, kinds, listing, b, root)
    ensures Rooted(cfg, kinds, listing, a + b, root)
  {
    var ab := a + b;
    forall j | 0 <= j < |ab| && !ChildOf(cfg, kinds, listing, root, ab[j])
      ensures exists i :: 0 <= i < j && ChildOf(cfg, kinds, listing, ab[i], ab[j])
    {
      if j < |a| {
        var i :| 0 <= i < j && ChildOf(cfg, kinds, listing, a[i], a[j]);
        assert ab[i] == a[i];
        assert ChildOf(cfg, kinds, listing, ab[i], ab[j]);
      } else {
        var i :| 0 <= i < j - |a| && ChildOf(cfg, kinds, listing, b[i], b[j - |a|]);
        assert ab[i + |a|] == b[i];
        assert ChildOf(cfg, kinds, listing, ab[i + |a|], ab[j]);
      }
    }
  }

  /**
   * processDir visits parents before children: it starts at the trimmed
   * root, and every later directory is one that an earlier directory's loop
   * descends into.
   */
  lemma {:induction false} WalkParentsFirst(cfg: Config, kinds: map<Path, Kind>, listing: map<Path, seq<string>>,
                                            t: Tree, dir: Path)
    requires Mirrors(cfg, kinds, listing, t, RTrimSlash(dir))
    ensures var o := WalkOrder(cfg, kinds, listing, t, dir);
            && o[0] == RTrimSlash(dir)
            && forall j :: 0 < j < |o| ==> exists i :: 0 <= i < j && ChildOf(cfg, kinds, listing, o[i], o[j])
    decreases t, 1, 0
  {
    var d := RTrimSlash(dir);
    var o := WalkOrder(cfg, kinds, listing, t, dir);
    if d in listing {
      var c := WalkChildren(cfg, kinds, listing, t, d, 0);
      WalkChildrenRooted(cfg, kinds, listing, t, d, 0);
      assert o[1..] == c;
      RootedCons(cfg, kinds, listing, o);
    }
  }

  /** A root followed by directories rooted at it: every directory after the first has its parent earlier. */
  lemma RootedCons(cfg: Config, kinds: map<Path, Kind>, listing: map<Path, seq<string>>, o: seq<Path>)
    requires |o| > 0 && Rooted(cfg, kinds, listing, o[1..], o[0])
    ensures forall j :: 0 < j < |o| ==> exists i :: 0 <= i < j && ChildOf(cfg, kinds, listing, o[i], o[j])
  {
    var c := o[1..];
    forall j | 0 < j < |o|
      ensures exists i :: 0 <= i < j && ChildOf(cfg, kinds, listing, o[i], o[j])
    {
      assert o[j] == c[j - 1];
      if ChildOf(cfg, kinds, listing, o[0], c[j - 1]) {
        assert ChildOf(cfg, kinds, listing, o[0], o[j]);
      } else {
        var i :| 0 <= i < j - 1 && ChildOf(cfg, kinds, listing, c[i], c[j - 1]);
        assert o[i + 1] == c[i];
        assert ChildOf(cfg, kinds, listing, o[i + 1], o[j]);
      }
    }
  }

  lemma {:induction false} WalkChildrenRooted(cfg: Config, kinds: map<Path, Kind>, listing: map<Path, seq<string>>,
                                              t: Tree, d: Path, k: nat)
    requires d in listing && Mirrors(cfg, kinds, listing, t, d)
    requires k <= |ReaddirSeen(listing[d])|
    ensures Rooted(cfg, kinds, listing, WalkChildren(cfg, kinds, listing, t, d, k), d)
    decreases t, 0, |ReaddirSeen(listing[d])| - k + 1
  {
    var names := ReaddirSeen(listing[d]);
    if k < |names| {
      BelowRooted(cfg, kinds, listing, t, d, k);
      WalkChildrenRooted(cfg, kinds, listing, t, d, k + 1);
      RootedAppend(cfg, kinds, listing, Below(cfg, kinds, listing, t, d, k), WalkChildren(cfg, kinds, listing, t, d, k + 1), d);
    }
  }

  lemma {:induction false} BelowRooted(cfg: Config, kinds: map<Path, Kind>, listing: map<Path, seq<string>>,
                                       t: Tree, d: Path, k: nat)
    requires d in listing && Mirrors(cfg, kinds, listing, t, d)
    requires k < |ReaddirSeen(listing[d])|
    ensures Rooted(cfg, kinds, listing, Below(cfg, kinds, listing, t, d, k), d)
    decreases t, 0, 0
  {
    var name := ReaddirSeen(listing[d])[k];
    if Descends(cfg, kinds, d, name) {
      var o := Below(cfg, kinds, listing, t, d, k);
      WalkParentsFirst(cfg, kinds, listing, t.nodes[k].sub, Join(d, name));
      assert ChildOf(cfg, kinds, listing, d, o[0]);
    }
  }

  /** o holds every directory that the loop of a directory in o descends into. */
  ghost predicate Closed(cfg: Config, kinds: map<Path, Kind>, listing: map<Path, seq<string>>, o: seq<Path>)
  {
    forall p, c :: p in o && ChildOf(cfg, kinds, listing, p, c) ==> c in o
  }

  lemma ClosedAppend(cfg: Config, kinds: map<Path, Kind>, listing: map<Path, seq<string>>, a: seq<Path>, b: seq<Path>)
    requires Closed(cfg, kinds, listing, a) && Closed(cfg, kinds, listing, b)
    ensures Closed(cfg, kinds, listing, a + b)
  {
    forall p, c | p in a + b && ChildOf(cfg, kinds, listing, p, c)
      ensures c in a + b
    {
      if p in a {
        assert c in a;
      } else {
        assert c in b;
      }
    }
  }

  /** Nothing is missed: every directory that a visited directory's loop descends into is visited as well. */
  lemma {:induction false} WalkComplete(cfg: Config, kinds: map<Path, Kind>, listing: map<Path, seq<string>>,
                                        t: Tree, dir: Path)
    requires Mirrors(cfg, kinds, listing, t, RTrimSlash(dir))
    ensures var o := WalkOrder(cfg, kinds, listing, t, dir);
            forall p, c :: p in o && ChildOf(cfg, kinds, listing, p, c) ==> c in o
    decreases t, 1, 0
  {
    var d := RTrimSlash(dir);
    var o := WalkOrder(cfg, kinds, listing, t, dir);
    if d in listing {
      var names := ReaddirSeen(listing[d]);
      var children := WalkChildren(cfg, kinds, listing, t, d, 0);
      assert o == [d] + children;
      WalkChildrenComplete(cfg, kinds, listing, t, d, 0);
      WalkChildrenReach(cfg, kinds, listing, t, d, 0);
      forall p, c | p in o && ChildOf(cfg, kinds, listing, p, c)
        ensures c in o
      {
        if p == d {
          var n :| n in names && Descends(cfg, kinds, d, n) && c == RTrimSlash(Join(d, n));
          var k :| 0 <= k < |names| && names[k] == n;
          assert c in children;
        } else {
          assert p in children;
        }
      }
    }
  }

  /** The loop of d, from its k-th name on, visits everything those names' walks descend into. */
  lemma {:induction false} WalkChildrenComplete(cfg: Config, kinds: map<Path, Kind>, listing: map<Path, seq<string>>,
                                                t: Tree, d: Path, k: nat)
    requires d in listing && Mirrors(cfg, kinds, listing, t, d)
    requires k <= |ReaddirSeen(listing[d])|
    ensures Closed(cfg, kinds, listing, WalkChildren(cfg, kinds, listing, t, d, k))
    decreases t, 0, |ReaddirSeen(listing[d])| - k + 1
  {
    var names := ReaddirSeen(listing[d]);
    if k < |names| {
      var b := Below(cfg, kinds, listing, t, d, k);
      var rest := WalkChildren(cfg, kinds, listing, t, d, k + 1);
      WalkChildrenComplete(cfg, kinds, listing, t, d, k + 1);
      if Descends(cfg, kinds, d, names[k]) {
        WalkComplete(cfg, kinds, listing, t.nodes[k].sub, Join(d, names[k]));
      }
      assert Closed(cfg, kinds, listing, b);
      ClosedAppend(cfg, kinds, listing, b, rest);
      assert WalkChildren(cfg, kinds, listing, t, d, k) == b + rest;
    }
  }

  /** The loop of d visits, from its k-th name on, each name it descends into. */
  lemma {:induction false} WalkChildrenReach(cfg: Config, kinds: map<Path, Kind>, listing: map<Path, seq<string>>,
                                             t: Tree, d: Path, k: nat)
    requires d in listing && Mirrors(cfg, kinds, listing, t, d)
    requires k <= |ReaddirSeen(listing[d])|
    ensures var names := ReaddirSeen(listing[d]);
            forall j :: k <= j < |names| && Descends(cfg, kinds, d, names[j]) ==>
              RTrimSlash(Join(d, names[j])) in WalkChildren(cfg, kinds, listing, t, d, k)
    decreases |ReaddirSeen(listing[d])| - k
  {
    var names := ReaddirSeen(listing[d]);
    if k < |names| {
      var b := Below(cfg, kinds, listing, t, d, k);
      var rest := WalkChildren(cfg, kinds, listing, t, d, k + 1);
      WalkChildrenReach(cfg, kinds, listing, t, d, k + 1);
      assert WalkChildren(cfg, kinds, listing, t, d, k) == b + rest;
      forall j | k <= j < |names| && Descends(cfg, kinds, d, names[j])
        ensures RTrimSlash(Join(d, names[j])) in b + rest
      {
        if j == k {
          assert b[0] == RTrimSlash(Join(d, names[k]));
        } else {
          assert RTrimSlash(Join(d, names[j])) in rest;
        }
      }
    }
  }

  /** The per-directory operation writes nothing when comparing or on a dry run. */
  lemma DirEffectWithoutWrites(cfg: Config, kinds: map<Path, Kind>, listing: map<Path, seq<string>>,
                               w: World, d: Path, mode: Mode, dryRun: bool)
    requires mode == Compare || dryRun
    ensures DirEffect(cfg, kinds, listing, w, d, mode, dryRun).world == w
  {
    if mode == Save {
      SaveEffectWrites(cfg, kinds, listing, w, d, dryRun);
    } else {
      var t := RTrimSlash(d);
      var permFile := ManifestPath(cfg, t);
      var m := if permFile in w.manifests then w.manifests[permFile] else [];
      CompareOnlyChangesNothing(cfg, w.attrs, t, m);
    }
  }

  /** `compare`, and any run with --dry-run, leaves every owner, group, mode and manifest as it was. */
  lemma {:induction false} WalkWithoutWrites(cfg: Config, kinds: map<Path, Kind>, listing: map<Path, seq<string>>,
                                             w: World, dirs: seq<Path>, mode: Mode, dryRun: bool)
    requires mode == Compare || dryRun
    ensures WalkEffect(cfg, kinds, listing, w, dirs, mode, dryRun).world == w
    decreases |dirs|
  {
    if dirs != [] {
      DirEffectWithoutWrites(cfg, kinds, listing, w, dirs[0], mode, dryRun);
      WalkWithoutWrites(cfg, kinds, listing, w, dirs[1..], mode, dryRun);
    }
  }

  /** `save` writes manifests only: no owner, group or mode changes. */
  lemma {:induction false} SaveKeepsAttributes(cfg: Config, kinds: map<Path, Kind>, listing: map<Path, seq<string>>,
                                               w: World, dirs: seq<Path>, dryRun: bool)
    ensures WalkEffect(cfg, kinds, listing, w, dirs, Save, dryRun).world.attrs == w.attrs
    decreases |dirs|
  {
    if dirs != [] {
      SaveEffectWrites(cfg, kinds, listing, w, dirs[0], dryRun);
      var e := VisitEffect(cfg, kinds, listing, w, dirs[0], Save, dryRun);
      if !e.status.Aborted? {
        SaveKeepsAttributes(cfg, kinds, listing, e.world, dirs[1..], dryRun);
      }
    }
  }

  /** `restore` and `compare` never write a manifest. */
  lemma {:induction false} RestoreKeepsManifests(cfg: Config, kinds: map<Path, Kind>, listing: map<Path, seq<string>>,
                                                 w: World, dirs: seq<Path>, mode: Mode, dryRun: bool)
    requires mode != Save
    ensures WalkEffect(cfg, kinds, listing, w, dirs, mode, dryRun).world.manifests == w.manifests
    decreases |dirs|
  {
    if dirs != [] {
      var e := VisitEffect(cfg, kinds, listing, w, dirs[0], mode, dryRun);
      if !e.status.Aborted? {
        RestoreKeepsManifests(cfg, kinds, listing, e.world, dirs[1..], mode, dryRun);
      }
    }
  }

  /** `restore --dry-run` is `compare`: the same directories, the same lines, the same outcome. */
  lemma {:induction false} RestoreDryRunIsCompare(cfg: Config, kinds: map<Path, Kind>, listing: map<Path, seq<string>>,
                                                  w: World, dirs: seq<Path>, dryRun: bool)
    ensures WalkEffect(cfg, kinds, listing, w, dirs, Restore, true) == WalkEffect(cfg, kinds, listing, w, dirs, Compare, dryRun)
    decreases |dirs|
  {
    if dirs != [] {
      var e := VisitEffect(cfg, kinds, listing, w, dirs[0], Restore, true);
      assert e == VisitEffect(cfg, kinds, listing, w, dirs[0], Compare, dryRun);
      if !e.status.Aborted? {
        RestoreDryRunIsCompare(cfg, kinds, listing, e.world, dirs[1..], dryRun);
      }
    }
  }
}
