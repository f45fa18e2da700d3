/** `FileMover` of `arquiva_raiz.py`: brings every file from the subfolders of a root
    folder up into the root, leaving the "erros" and "anos anteriores" subtrees
    alone, and then removes the folders left empty. */
module RootMover {
  import opened Wrappers
  import opened Text
  import opened Archive

  /** `excluded_folders`, compared with the folder name in lower case. */
  const ExcludedFolders: seq<string> := ["erros", "anos anteriores"]

  predicate Excluded(name: string) {
    Lower(name) in ExcludedFolders
  }

  /** `p` lies strictly below `folder`. */
  predicate Below(folder: Path, p: Path) {
    |folder| < |p| && p[..|folder|] == folder
  }

  /** The folders below the root that the pruned walk enters: no folder on the way
      down from the root is an excluded one. The root itself is skipped. */
  predicate Visited(root: Path, dir: Path) {
    Below(root, dir) && forall i :: |root| <= i < |dir| ==> !Excluded(dir[i])
  }

  /** One step of the top-down `os.walk`: a folder and the names of its files. */
  datatype WalkStep = WalkStep(dir: Path, fileNames: seq<string>)

  /** One step of the bottom-up `os.walk`: a folder and the names of its subfolders
      as listed when the walk scanned it. */
  datatype UpStep = UpStep(dir: Path, subdirs: seq<string>)

  // --------------------------------------------------------------- moving

  /** Lines 52-70 for one file: to `root/name`, or to the timestamped name when that
      is taken. */
  function MoveOne(disk: Disk, root: Path, src: Path, stamp: Stamp): Disk {
    Move(disk, src, Destination(disk, root, Name(src), stamp))
  }

  function MoveNames(disk: Disk, root: Path, dir: Path, names: seq<string>, stamp: Path -> Stamp): Disk
  {
    if names == [] then disk
    else
      var src := dir + [names[|names| - 1]];
      MoveOne(MoveNames(disk, root, dir, names[..|names| - 1], stamp), root, src, stamp(src))
  }

  /** The loop of lines 44-70 over the walk. */
  function MoveWalk(disk: Disk, root: Path, walk: seq<WalkStep>, stamp: Path -> Stamp): Disk
  {
    if walk == [] then disk
    else
      var before := MoveWalk(disk, root, walk[..|walk| - 1], stamp);
      var step := walk[|walk| - 1];
      if Visited(root, step.dir) then MoveNames(before, root, step.dir, step.fileNames, stamp) else before
  }

  // --------------------------------------------------------------- removing

  /** `not os.listdir(p)` for a folder `p`. */
  predicate IsEmptyFolder(disk: Disk, p: Path) {
    p in disk.dirs &&
    (forall q :: q in disk.files ==> !Below(p, q)) &&
    (forall q :: q in disk.dirs ==> !Below(p, q))
  }

  /** Lines 81-88 for one folder: `rmdir` when empty; a failing `listdir` is caught. */
  function RemoveIfEmpty(disk: Disk, p: Path): Disk {
    if IsEmptyFolder(disk, p) then disk.(dirs := disk.dirs - {p}) else disk
  }

  function RemoveNames(disk: Disk, dir: Path, names: seq<string>): Disk
  {
    if names == [] then disk
    else
      var before := RemoveNames(disk, dir, names[..|names| - 1]);
      var name := names[|names| - 1];
      if Excluded(name) then before else RemoveIfEmpty(before, dir + [name])
  }

  /** `remove_empty_folders`: the loop of lines 77-88 over the bottom-up walk. */
  function RemoveWalk(disk: Disk, walk: seq<UpStep>): Disk
  {
    if walk == [] then disk
    else
      var step := walk[|walk| - 1];
      RemoveNames(RemoveWalk(disk, walk[..|walk| - 1]), step.dir, step.subdirs)
  }

  /** `move_files`: nothing happens when the root is missing; otherwise the files
      are moved and then the empty folders removed. The two walks are what
      `os.walk` lists; the timestamp is taken per moved file. */
  function MoveFilesRun(disk: Disk, root: Path, down: seq<WalkStep>, up: seq<UpStep>, stamp: Path -> Stamp): Disk
  {
    if !Exists(disk, root) then disk else RemoveWalk(MoveWalk(disk, root, down, stamp), up)
  }

  // --------------------------------------------------------------- methods

  method MoveFolderFiles(disk: Disk, root: Path, dir: Path, names: seq<string>, stamp: Path -> Stamp)
    returns (r: Disk)
    ensures r == MoveNames(disk, root, dir, names, stamp)
  {
    r := disk;
    for j := 0 to |names|
      invariant r == MoveNames(disk, root, dir, names[..j], stamp)
    {
      assert names[..j + 1][..j] == names[..j];
      var src := dir + [names[j]];
      r := Move(r, src, Destination(r, root, names[j], stamp(src)));
    }
    assert names[..|names|] == names;
  }

  method RemoveEmptySubfolders(disk: Disk, dir: Path, names: seq<string>) returns (r: Disk)
    ensures r == RemoveNames(disk, dir, names)
  {
    r := disk;
    for j := 0 to |names|
      invariant r == RemoveNames(disk, dir, names[..j])
    {
      assert names[..j + 1][..j] == names[..j];
      if !Excluded(names[j]) && IsEmptyFolder(r, dir + [names[j]]) {
        r := r.(dirs := r.dirs - {dir + [names[j]]});
      }
    }
    assert names[..|names|] == names;
  }

  method RemoveEmptyFolders(disk: Disk, up: seq<UpStep>) returns (r: Disk)
    ensures r == RemoveWalk(disk, up)
  {
    r := disk;
    for i := 0 to |up|
      invariant r == RemoveWalk(disk, up[..i])
    {
      assert up[..i + 1][..i] == up[..i];
      r := RemoveEmptySubfolders(r, up[i].dir, up[i].subdirs);
    }
    assert up[..|up|] == up;
  }

  method MoveFiles(disk: Disk, root: Path, down: seq<WalkStep>, up: seq<UpStep>, stamp: Path -> Stamp)
    returns (r: Disk)
    ensures r == MoveFilesRun(disk, root, down, up, stamp)
  {
    r := disk;
    if Exists(disk, root) {
      for i := 0 to |down|
        invariant r == MoveWalk(disk, root, down[..i], stamp)
      {
        assert down[..i + 1][..i] == down[..i];
        if Visited(root, down[i].dir) {
          r := MoveFolderFiles(r, root, down[i].dir, down[i].fileNames, stamp);
        }
      }
      assert down[..|down|] == down;
      r := RemoveEmptyFolders(r, up);
    }
  }

  // --------------------------------------------------------------- lemmas

  /** A timestamped name is never one of the excluded folder names: it holds an
      underscore, and they do not. */
  lemma StampedNeverExcluded(name: string, stamp: Stamp)
    ensures !Excluded(StampedName(name, stamp))
  {
    var s := StampedName(name, stamp);
    var k := |SplitExt(name).0|;
    assert s[k] == '_';
    assert Lower(s)[k] == '_';
    if Lower(s) == "erros" {
      assert false;
    }
    if Lower(s) == "anos anteriores" {
      assert false;
    }
  }

  /** A file moved to the root goes to `root/name` when nothing there has that name,
      and otherwise under the timestamped name; the source is gone. The walk only
      runs when the root is a folder. */
  lemma MoveOneOutcome(disk: Disk, root: Path, src: Path, stamp: Stamp)
    requires root in disk.dirs
    requires src in disk.files && Visited(root, Parent(src))
    requires Destination(disk, root, Name(src), stamp) !in disk.dirs
    ensures !Exists(disk, root + [Name(src)]) ==>
      MoveOne(disk, root, src, stamp).files[root + [Name(src)]] == disk.files[src]
    ensures Exists(disk, root + [Name(src)]) ==>
      MoveOne(disk, root, src, stamp).files[root + [StampedName(Name(src), stamp)]] == disk.files[src]
    ensures src !in MoveOne(disk, root, src, stamp).files
  {
    MoveFacts(disk, src, Destination(disk, root, Name(src), stamp));
    DestinationFacts(disk, root, Name(src), stamp);
  }

  /** One move keeps every file of the root (perhaps with new data, when it bears
      the timestamped name) and every file of a pruned folder with its data. */
  lemma MoveOneShelters(disk: Disk, root: Path, src: Path, stamp: Stamp, q: Path)
    requires Visited(root, Parent(src))
    requires q in disk.files && (Parent(q) == root || (Below(root, Parent(q)) && !Visited(root, Parent(q))))
    ensures q in MoveOne(disk, root, src, stamp).files
    ensures Parent(q) != root ==> MoveOne(disk, root, src, stamp).files[q] == disk.files[q]
  {
    var dst := Destination(disk, root, Name(src), stamp);
    MoveFacts(disk, src, dst);
    DestinationFacts(disk, root, Name(src), stamp);
    assert q != src;
    StampedNeverExcluded(Name(src), stamp);
  }

  lemma {:induction false} MoveNamesShelters(disk: Disk, root: Path, dir: Path, names: seq<string>,
                                             stamp: Path -> Stamp, q: Path)
    requires Visited(root, dir)
    requires q in disk.files && (Parent(q) == root || (Below(root, Parent(q)) && !Visited(root, Parent(q))))
    ensures q in MoveNames(disk, root, dir, names, stamp).files
    ensures Parent(q) != root ==> MoveNames(disk, root, dir, names, stamp).files[q] == disk.files[q]
  {
    if names != [] {
      var src := dir + [names[|names| - 1]];
      MoveNamesShelters(disk, root, dir, names[..|names| - 1], stamp, q);
      assert Parent(src) == dir;
      MoveOneShelters(MoveNames(disk, root, dir, names[..|names| - 1], stamp), root, src, stamp(src), q);
    }
  }

  /** Moving never takes a file from the root or from below an excluded folder:
      every such file is still there afterwards, and one below an excluded folder
      keeps its data. */
  lemma {:induction false} MoveWalkShelters(disk: Disk, root: Path, walk: seq<WalkStep>,
                                            stamp: Path -> Stamp, q: Path)
    requires q in disk.files && (Parent(q) == root || (Below(root, Parent(q)) && !Visited(root, Parent(q))))
    ensures q in MoveWalk(disk, root, walk, stamp).files
    ensures Parent(q) != root ==> MoveWalk(disk, root, walk, stamp).files[q] == disk.files[q]
  {
    if walk != [] {
      MoveWalkShelters(disk, root, walk[..|walk| - 1], stamp, q);
      var step := walk[|walk| - 1];
      if Visited(root, step.dir) {
        MoveNamesShelters(MoveWalk(disk, root, walk[..|walk| - 1], stamp), root, step.dir, step.fileNames, stamp, q);
      }
    }
  }

  /** Removing folders never touches a file, and only ever removes folders. */
  lemma {:induction false} RemoveWalkFrame(disk: Disk, walk: seq<UpStep>)
    ensures RemoveWalk(disk, walk).files == disk.files
    ensures RemoveWalk(disk, walk).dirs <= disk.dirs
  {
    if walk != [] {
      RemoveWalkFrame(disk, walk[..|walk| - 1]);
      var step := walk[|walk| - 1];
      RemoveNamesFrame(RemoveWalk(disk, walk[..|walk| - 1]), step.dir, step.subdirs);
    }
  }

  lemma {:induction false} RemoveNamesFrame(disk: Disk, dir: Path, names: seq<string>)
    ensures RemoveNames(disk, dir, names).files == disk.files
    ensures RemoveNames(disk, dir, names).dirs <= disk.dirs
  {
    if names != [] {
      RemoveNamesFrame(disk, dir, names[..|names| - 1]);
    }
  }

  /** Within one folder of the walk, a subfolder is removed exactly when it is
      listed, its name is not excluded, and it is empty when the step begins
      (removing its siblings does not change that). */
  lemma {:induction false} RemoveNamesExactly(disk: Disk, dir: Path, names: seq<string>, d: string)
    requires dir + [d] in disk.dirs
    ensures dir + [d] !in RemoveNames(disk, dir, names).dirs <==>
      d in names && !Excluded(d) && IsEmptyFolder(disk, dir + [d])
  {
    if names != [] {
      var before := RemoveNames(disk, dir, names[..|names| - 1]);
      RemoveNamesExactly(disk, dir, names[..|names| - 1], d);
      RemoveNamesFrame(disk, dir, names[..|names| - 1]);
      var last := names[|names| - 1];
      assert names == names[..|names| - 1] + [last];
      if last != d {
        assert (dir + [last])[|dir|] != (dir + [d])[|dir|];
      } else if !Excluded(d) && dir + [d] in before.dirs {
        forall q | q in disk.dirs && q !in before.dirs ensures |q| == |dir| + 1 {
          RemoveNamesOnlyListed(disk, dir, names[..|names| - 1], q);
        }
        SiblingsKeepEmptiness(disk, before, dir, d);
      }
    }
  }

  /** Removing sibling folders of `dir/d` does not change whether it is empty. */
  lemma SiblingsKeepEmptiness(disk: Disk, after: Disk, dir: Path, d: string)
    requires after.files == disk.files && after.dirs <= disk.dirs
    requires forall q :: q in disk.dirs && q !in after.dirs ==> |q| == |dir| + 1
    requires dir + [d] in after.dirs
    ensures IsEmptyFolder(after, dir + [d]) <==> IsEmptyFolder(disk, dir + [d])
  {
  }

  /** Only folders of the form `dir/name` listed by the walk's steps are removed. */
  lemma {:induction false} RemoveNamesOnlyListed(disk: Disk, dir: Path, names: seq<string>, p: Path)
    requires p in disk.dirs && p !in RemoveNames(disk, dir, names).dirs
    ensures |p| == |dir| + 1 && Parent(p) == dir && Name(p) in names && !Excluded(Name(p))
  {
    if names != [] {
      var before := RemoveNames(disk, dir, names[..|names| - 1]);
      if p in before.dirs {
        assert p == dir + [names[|names| - 1]];
      } else {
        RemoveNamesOnlyListed(disk, dir, names[..|names| - 1], p);
      }
    }
  }

  /** `remove_empty_folders` keeps every folder whose name is excluded, and every
      folder that no step lists as a subfolder; so the root, which the walk starts
      from and never lists, is kept. */
  lemma {:induction false} RemoveWalkKeeps(disk: Disk, walk: seq<UpStep>, p: Path)
    requires p in disk.dirs
    requires Excluded(Name(p)) || forall k :: 0 <= k < |walk| ==> |walk[k].dir| >= |p|
    ensures p in RemoveWalk(disk, walk).dirs
  {
    if walk != [] {
      RemoveWalkKeeps(disk, walk[..|walk| - 1], p);
      var before := RemoveWalk(disk, walk[..|walk| - 1]);
      var step := walk[|walk| - 1];
      if p !in RemoveNames(before, step.dir, step.subdirs).dirs {
        RemoveNamesOnlyListed(before, step.dir, step.subdirs, p);
      }
    }
  }

  /** The whole of `move_files`: with the root missing nothing changes; otherwise
      the root survives, and so does every file of the root and every file below an
      excluded folder, the latter with its data. */
  lemma MoveFilesShelters(disk: Disk, root: Path, down: seq<WalkStep>, up: seq<UpStep>,
                          stamp: Path -> Stamp, q: Path)
    requires forall k :: 0 <= k < |up| ==> |up[k].dir| >= |root|
    ensures !Exists(disk, root) ==> MoveFilesRun(disk, root, down, up, stamp) == disk
    ensures root in disk.dirs ==> root in MoveFilesRun(disk, root, down, up, stamp).dirs
    ensures q in disk.files && (Parent(q) == root || (Below(root, Parent(q)) && !Visited(root, Parent(q)))) ==>
      q in MoveFilesRun(disk, root, down, up, stamp).files &&
      (Parent(q) != root ==> MoveFilesRun(disk, root, down, up, stamp).files[q] == disk.files[q])
  {
    var moved := MoveWalk(disk, root, down, stamp);
    RemoveWalkFrame(moved, up);
    if root in disk.dirs {
      MoveWalkDirs(disk, root, down, stamp);
      RemoveWalkKeeps(moved, up, root);
    }
    if q in disk.files && (Parent(q) == root || (Below(root, Parent(q)) && !Visited(root, Parent(q)))) {
      MoveWalkShelters(disk, root, down, stamp, q);
    }
  }

  /** The log folder `ERROS` inside the root is kept, and so is every file in it,
      with its data: the walk never takes files out of it. */
  lemma LogFolderKept(disk: Disk, root: Path, down: seq<WalkStep>, up: seq<UpStep>,
                      stamp: Path -> Stamp, q: Path)
    requires forall k :: 0 <= k < |up| ==> |up[k].dir| >= |root|
    requires root + [LogFolderName] in disk.dirs
    ensures root + [LogFolderName] in MoveFilesRun(disk, root, down, up, stamp).dirs
    ensures q in disk.files && |q| > |root| + 1 && q[..|root| + 1] == root + [LogFolderName] ==>
      q in MoveFilesRun(disk, root, down, up, stamp).files &&
      MoveFilesRun(disk, root, down, up, stamp).files[q] == disk.files[q]
  {
    var log := root + [LogFolderName];
    assert Lower(LogFolderName) == "erros";
    assert Excluded(Name(log));
    var moved := MoveWalk(disk, root, down, stamp);
    MoveWalkDirs(disk, root, down, stamp);
    RemoveWalkKeeps(moved, up, log);
    if q in disk.files && |q| > |root| + 1 && q[..|root| + 1] == log {
      assert Parent(q)[..|root|] == root;
      assert Parent(q)[|root|] == LogFolderName;
      assert Below(root, Parent(q)) && !Visited(root, Parent(q));
      MoveFilesShelters(disk, root, down, up, stamp, q);
    }
  }

  /** Moving files never changes the folders. */
  lemma {:induction false} MoveWalkDirs(disk: Disk, root: Path, walk: seq<WalkStep>, stamp: Path -> Stamp)
    ensures MoveWalk(disk, root, walk, stamp).dirs == disk.dirs
  {
    if walk != [] {
      MoveWalkDirs(disk, root, walk[..|walk| - 1], stamp);
      var step := walk[|walk| - 1];
      MoveNamesDirs(MoveWalk(disk, root, walk[..|walk| - 1], stamp), root, step.dir, step.fileNames, stamp);
    }
  }

  lemma {:induction false} MoveNamesDirs(disk: Disk, root: Path, dir: Path, names: seq<string>, stamp: Path -> Stamp)
    ensures MoveNames(disk, root, dir, names, stamp).dirs == disk.dirs
  {
    if names != [] {
      var src := dir + [names[|names| - 1]];
      var before := MoveNames(disk, root, dir, names[..|names| - 1], stamp);
      MoveNamesDirs(disk, root, dir, names[..|names| - 1], stamp);
      MoveFacts(before, src, Destination(before, root, Name(src), stamp(src)));
    }
  }

  /** No folder directly in the root bears the name of a file listed in `dir`, nor
      its timestamped form: `shutil.move` then puts each of them at the destination
      itself rather than into a folder there. */
  predicate NoFolderInTheWay(disk: Disk, root: Path, dir: Path, names: seq<string>, stamp: Path -> Stamp) {
    forall m :: m in names ==>
      root + [m] !in disk.dirs && root + [StampedName(m, stamp(dir + [m]))] !in disk.dirs
  }

  predicate NoFolderInTheWalk(disk: Disk, root: Path, walk: seq<WalkStep>, stamp: Path -> Stamp) {
    forall j :: 0 <= j < |walk| ==> NoFolderInTheWay(disk, root, walk[j].dir, walk[j].fileNames, stamp)
  }

  /** One move puts a file nowhere but directly in the root. */
  lemma MoveOneOnlyIntoRoot(disk: Disk, root: Path, src: Path, stamp: Stamp, q: Path)
    requires Destination(disk, root, Name(src), stamp) !in disk.dirs
    requires q !in disk.files && Parent(q) != root
    ensures q !in MoveOne(disk, root, src, stamp).files
  {
    MoveFacts(disk, src, Destination(disk, root, Name(src), stamp));
    DestinationFacts(disk, root, Name(src), stamp);
  }

  lemma {:induction false} MoveNamesOnlyIntoRoot(disk: Disk, root: Path, dir: Path, names: seq<string>,
                                                 stamp: Path -> Stamp, q: Path)
    requires NoFolderInTheWay(disk, root, dir, names, stamp)
    requires q !in disk.files && Parent(q) != root
    ensures q !in MoveNames(disk, root, dir, names, stamp).files
  {
    if names != [] {
      var m := names[|names| - 1];
      var src := dir + [m];
      var rest := names[..|names| - 1];
      assert forall x :: x in rest ==> x in names;
      MoveNamesOnlyIntoRoot(disk, root, dir, rest, stamp, q);
      MoveNamesDirs(disk, root, dir, rest, stamp);
      assert Name(src) == m;
      MoveOneOnlyIntoRoot(MoveNames(disk, root, dir, rest, stamp), root, src, stamp(src), q);
    }
  }

  /** Once the loop over a visited folder's files is done, each listed file has
      left that folder: the move to the root cannot fail and the root is higher. */
  lemma {:induction false} MoveNamesEmpties(disk: Disk, root: Path, dir: Path, names: seq<string>,
                                            stamp: Path -> Stamp, n: string)
    requires root in disk.dirs && Visited(root, dir)
    requires NoFolderInTheWay(disk, root, dir, names, stamp) && n in names
    ensures dir + [n] !in MoveNames(disk, root, dir, names, stamp).files
  {
    var m := names[|names| - 1];
    var src := dir + [m];
    var rest := names[..|names| - 1];
    assert names == rest + [m];
    var before := MoveNames(disk, root, dir, rest, stamp);
    MoveNamesDirs(disk, root, dir, rest, stamp);
    assert Name(src) == m && Parent(src) == dir;
    var dst := Destination(before, root, m, stamp(src));
    MoveFacts(before, src, dst);
    DestinationFacts(before, root, m, stamp(src));
    if m == n {
      assert |dst| == |root| + 1 < |src|;
    } else {
      assert n in rest;
      assert forall x :: x in rest ==> x in names;
      MoveNamesEmpties(disk, root, dir, rest, stamp, n);
      assert Parent(dir + [n]) == dir;
      MoveOneOnlyIntoRoot(before, root, src, stamp(src), dir + [n]);
    }
  }

  /** Moving puts files nowhere but directly in the root. */
  lemma {:induction false} MoveWalkOnlyIntoRoot(disk: Disk, root: Path, walk: seq<WalkStep>,
                                                stamp: Path -> Stamp, q: Path)
    requires NoFolderInTheWalk(disk, root, walk, stamp)
    requires q !in disk.files && Parent(q) != root
    ensures q !in MoveWalk(disk, root, walk, stamp).files
  {
    if walk != [] {
      var prefix := walk[..|walk| - 1];
      assert forall j :: 0 <= j < |prefix| ==> prefix[j] == walk[j];
      MoveWalkOnlyIntoRoot(disk, root, prefix, stamp, q);
      MoveWalkDirs(disk, root, prefix, stamp);
      var step := walk[|walk| - 1];
      if Visited(root, step.dir) {
        MoveNamesOnlyIntoRoot(MoveWalk(disk, root, prefix, stamp), root, step.dir, step.fileNames, stamp, q);
      }
    }
  }

  /** A file the walk lists in a visited folder is gone from it after the walk:
      it was moved up when its folder's turn came, and nothing is moved back. */
  lemma {:induction false} MoveWalkEmpties(disk: Disk, root: Path, walk: seq<WalkStep>,
                                           stamp: Path -> Stamp, k: int, n: string)
    requires root in disk.dirs && NoFolderInTheWalk(disk, root, walk, stamp)
    requires 0 <= k < |walk| && Visited(root, walk[k].dir) && n in walk[k].fileNames
    ensures walk[k].dir + [n] !in MoveWalk(disk, root, walk, stamp).files
  {
    var prefix := walk[..|walk| - 1];
    var before := MoveWalk(disk, root, prefix, stamp);
    MoveWalkDirs(disk, root, prefix, stamp);
    var step := walk[|walk| - 1];
    if k == |walk| - 1 {
      MoveNamesEmpties(before, root, step.dir, step.fileNames, stamp, n);
    } else {
      assert forall j :: 0 <= j < |prefix| ==> prefix[j] == walk[j];
      MoveWalkEmpties(disk, root, prefix, stamp, k, n);
      if Visited(root, step.dir) {
        assert Parent(walk[k].dir + [n]) == walk[k].dir;
        MoveNamesOnlyIntoRoot(before, root, step.dir, step.fileNames, stamp, walk[k].dir + [n]);
      }
    }
  }

  /** The top-down walk lists every file of every folder it visits. */
  predicate ListsEveryFile(disk: Disk, root: Path, walk: seq<WalkStep>) {
    forall q :: q in disk.files && Visited(root, Parent(q)) ==>
      exists k :: 0 <= k < |walk| && walk[k].dir == Parent(q) && Name(q) in walk[k].fileNames
  }

  /** A file in a visited folder after moving: none, when the walk lists every file
      of the folders it visits. */
  lemma MoveWalkLeavesNone(disk: Disk, root: Path, down: seq<WalkStep>, stamp: Path -> Stamp, q: Path)
    requires root in disk.dirs && NoFolderInTheWalk(disk, root, down, stamp)
    requires ListsEveryFile(disk, root, down) && Visited(root, Parent(q))
    ensures q !in MoveWalk(disk, root, down, stamp).files
  {
    assert q != [] && Parent(q) + [Name(q)] == q;
    if q in disk.files {
      var k :| 0 <= k < |down| && down[k].dir == Parent(q) && Name(q) in down[k].fileNames;
      MoveWalkEmpties(disk, root, down, stamp, k, Name(q));
    } else {
      MoveWalkOnlyIntoRoot(disk, root, down, stamp, q);
    }
  }

  /** `move_files` flattens the root: when the walk lists every file of the folders
      it visits, no file is left in any of them afterwards (files below "erros"
      and "anos anteriores" stay, as MoveFilesShelters states). */
  lemma MoveFilesFlattens(disk: Disk, root: Path, down: seq<WalkStep>, up: seq<UpStep>, stamp: Path -> Stamp)
    requires root in disk.dirs && NoFolderInTheWalk(disk, root, down, stamp)
    requires ListsEveryFile(disk, root, down)
    ensures forall q :: q in MoveFilesRun(disk, root, down, up, stamp).files ==> !Visited(root, Parent(q))
  {
    var moved := MoveWalk(disk, root, down, stamp);
    RemoveWalkFrame(moved, up);
    assert MoveFilesRun(disk, root, down, up, stamp).files == moved.files;
    forall q | Visited(root, Parent(q)) ensures q !in moved.files {
      MoveWalkLeavesNone(disk, root, down, stamp, q);
    }
  }

  /** What lies below `p + [b]` lies below `p`. */
  lemma DeeperIsBelow(p: Path, b: string, x: Path)
    ensures Below(p + [b], x) ==> Below(p, x)
  {
    if Below(p + [b], x) {
      assert x[..|p|] == (x[..|p| + 1])[..|p|];
    }
  }

  /** Because the walk is bottom-up, a chain of two nested empty folders goes in one
      pass: the inner folder is removed first, which leaves the outer one empty
      when its turn comes. */
  lemma RemoveChain(disk: Disk, root: Path, a: string, b: string)
    requires !Excluded(a) && !Excluded(b)
    requires root + [a] in disk.dirs && root + [a, b] in disk.dirs
    requires forall q :: q in disk.files ==> !Below(root + [a], q)
    requires forall q :: q in disk.dirs && Below(root + [a], q) ==> q == root + [a, b]
    ensures var walk := [UpStep(root + [a, b], []), UpStep(root + [a], [b]), UpStep(root, [a])];
      root + [a] !in RemoveWalk(disk, walk).dirs && root + [a, b] !in RemoveWalk(disk, walk).dirs
  {
    var p := root + [a];
    var q := root + [a, b];
    assert p + [b] == q;
    var walk := [UpStep(q, []), UpStep(p, [b]), UpStep(root, [a])];
    assert walk[..1][..0] == [];
    assert walk[..2][..1] == walk[..1];
    assert walk[..|walk| - 1] == walk[..2];
    forall x | x in disk.dirs ensures !Below(q, x) {
      DeeperIsBelow(p, b, x);
    }
    assert IsEmptyFolder(disk, q);
    assert RemoveWalk(disk, walk[..1]) == disk;
    assert [b][..0] == [] && [a][..0] == [];
    var d2 := disk.(dirs := disk.dirs - {q});
    assert RemoveNames(disk, p, [b]) == d2;
    assert RemoveWalk(disk, walk[..2]) == d2;
    assert IsEmptyFolder(d2, p);
    assert RemoveNames(d2, root, [a]) == d2.(dirs := d2.dirs - {p});
  }

  // ------------------------------------------- removal of any empty subtree

  /** Every folder below the root appears among the subfolders listed by a step
      of the walk for its parent. */
  ghost predicate ListsEveryFolder(disk: Disk, root: Path, walk: seq<UpStep>) {
    forall x :: x in disk.dirs && Below(root, x) ==>
      exists k :: 0 <= k < |walk| && walk[k].dir == Parent(x) && Name(x) in walk[k].subdirs
  }

  /** `topdown=False`: a folder's step comes after the steps of every folder below it. */
  predicate BottomUp(walk: seq<UpStep>) {
    forall i, j :: 0 <= i < |walk| && 0 <= j < |walk| && Below(walk[i].dir, walk[j].dir) ==> j < i
  }

  /** No file lies below `p`, and no folder below it has an excluded name. */
  predicate EmptySubtree(disk: Disk, p: Path) {
    (forall q :: q in disk.files ==> !Below(p, q)) &&
    (forall q :: q in disk.dirs && Below(p, q) ==> !Excluded(Name(q)))
  }

  lemma BelowTransitive(a: Path, b: Path, c: Path)
    requires Below(a, b) && Below(b, c)
    ensures Below(a, c)
  {
    assert c[..|a|] == c[..|b|][..|a|];
  }

  lemma BelowParents(p: Path, x: Path)
    requires |p| > 0 && Below(p, x)
    ensures Below(Parent(p), Parent(x))
  {
    assert Parent(x)[..|Parent(p)|] == x[..|p|][..|p| - 1];
  }

  /** Later steps only remove more folders. */
  lemma {:induction false} RemoveWalkShrinks(disk: Disk, walk: seq<UpStep>, m: int, n: int)
    requires 0 <= m <= n <= |walk|
    ensures RemoveWalk(disk, walk[..n]).dirs <= RemoveWalk(disk, walk[..m]).dirs
    decreases n - m
  {
    if m < n {
      RemoveWalkShrinks(disk, walk, m, n - 1);
      assert walk[..n][..n - 1] == walk[..n - 1];
      RemoveNamesFrame(RemoveWalk(disk, walk[..n - 1]), walk[n - 1].dir, walk[n - 1].subdirs);
    }
  }

  /** A folder with an empty subtree is gone once the step of its parent is done:
      every folder below it was listed at an earlier step and removed there. */
  lemma {:induction false} RemovedAtParentStep(disk: Disk, root: Path, walk: seq<UpStep>, p: Path, k: int)
    requires ListsEveryFolder(disk, root, walk) && BottomUp(walk)
    requires p in disk.dirs && Below(root, p) && !Excluded(Name(p)) && EmptySubtree(disk, p)
    requires 0 <= k < |walk| && walk[k].dir == Parent(p) && Name(p) in walk[k].subdirs
    ensures p !in RemoveWalk(disk, walk[..k + 1]).dirs
    decreases k
  {
    var before := RemoveWalk(disk, walk[..k]);
    RemoveWalkFrame(disk, walk[..k]);
    assert walk[..k + 1][..k] == walk[..k];
    assert RemoveWalk(disk, walk[..k + 1]) == RemoveNames(before, walk[k].dir, walk[k].subdirs);
    if p in before.dirs {
      forall x | x in disk.dirs && Below(p, x) ensures x !in before.dirs {
        BelowTransitive(root, p, x);
        BelowParents(p, x);
        var kx :| 0 <= kx < |walk| && walk[kx].dir == Parent(x) && Name(x) in walk[kx].subdirs;
        forall q | q in disk.files ensures !Below(x, q) {
          if Below(x, q) {
            BelowTransitive(p, x, q);
          }
        }
        forall q | q in disk.dirs && Below(x, q) ensures !Excluded(Name(q)) {
          BelowTransitive(p, x, q);
        }
        RemovedAtParentStep(disk, root, walk, x, kx);
        RemoveWalkShrinks(disk, walk, kx + 1, k);
      }
      assert IsEmptyFolder(before, p);
      assert Parent(p) + [Name(p)] == p;
      RemoveNamesExactly(before, Parent(p), walk[k].subdirs, Name(p));
    } else {
      RemoveNamesFrame(before, walk[k].dir, walk[k].subdirs);
    }
  }

  /** `remove_empty_folders` in general: for a bottom-up walk whose steps list the
      subfolders folder by folder, every folder below the root whose name is not
      excluded and whose subtree holds no file and no excluded folder is removed,
      however deep the chain of empty folders is. */
  lemma RemoveWalkRemovesEmpty(disk: Disk, root: Path, walk: seq<UpStep>, p: Path)
    requires ListsEveryFolder(disk, root, walk) && BottomUp(walk)
    requires p in disk.dirs && Below(root, p) && !Excluded(Name(p)) && EmptySubtree(disk, p)
    ensures p !in RemoveWalk(disk, walk).dirs
  {
    var k :| 0 <= k < |walk| && walk[k].dir == Parent(p) && Name(p) in walk[k].subdirs;
    RemovedAtParentStep(disk, root, walk, p, k);
    RemoveWalkShrinks(disk, walk, k + 1, |walk|);
    assert walk[..|walk|] == walk;
  }
}
