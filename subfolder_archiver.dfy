/** `FileArchiver` of `arquiva_subpastas.py`: walks the watch folder and all its
    subfolders except "anos anteriores" and "erros", and moves every file into the
    `YYYY/YYYY-MM` folder of its date under the archive root, unless it is already
    there. */
module SubfolderArchiver {
  import opened Text
  import opened Archive

  /** The subfolders `process_folder` never enters, compared in lower case. */
  const SkippedFolders: seq<string> := ["anos anteriores", "erros"]

  predicate SkippedFolder(name: string) {
    Lower(name) in SkippedFolders
  }

  /** No folder of the disk is deeper than `height` components. */
  predicate WithinHeight(disk: Disk, height: int) {
    forall p :: p in disk.dirs ==> |p| <= height
  }

  /** `process_folder(folder)`. `height` bounds the depth of the folders; every
      disk has such a bound (`HeightExists`) and handling files keeps it. */
  function FolderRun(disk: Disk, root: Path, folder: Path, listdir: (Disk, Path) -> seq<string>,
                     env: Env, height: int): (r: Run)
    requires WithinHeight(disk, height) && |root| + 2 <= height
    ensures WithinHeight(r.disk, height)
    decreases height - |folder|, 1, 0
  {
    EntriesRun(disk, root, folder, Listing(disk, folder, listdir), listdir, env, height)
  }

  /** The loop of lines 60-73 over the listed entries, from `entries[0]` on. */
  function EntriesRun(disk: Disk, root: Path, folder: Path, entries: seq<string>,
                      listdir: (Disk, Path) -> seq<string>, env: Env, height: int): (r: Run)
    requires WithinHeight(disk, height) && |root| + 2 <= height
    ensures WithinHeight(r.disk, height)
    decreases height - |folder|, 0, |entries|
  {
    if entries == [] then Run(disk, [])
    else
      var first := EntryRun(disk, root, folder, entries[0], listdir, env, height);
      var rest := EntriesRun(first.disk, root, folder, entries[1..], listdir, env, height);
      Run(rest.disk, first.processed + rest.processed)
  }

  /** One entry: a folder is entered unless skipped; a file is handed to
      `process_file` unless it is a sync database. */
  function EntryRun(disk: Disk, root: Path, folder: Path, name: string,
                    listdir: (Disk, Path) -> seq<string>, env: Env, height: int): (r: Run)
    requires WithinHeight(disk, height) && |root| + 2 <= height
    ensures WithinHeight(r.disk, height)
    decreases height - |folder|, 0, 0
  {
    var p := folder + [name];
    if p in disk.dirs then
      if SkippedFolder(name) then Run(disk, []) else FolderRun(disk, root, p, listdir, env, height)
    else if p in disk.files then
      if HasSuffix(name, SyncDatabaseSuffix) then Run(disk, [])
      else
        ProcessFileKeepsFolders(disk, root, p, true, env);
        Run(ProcessFile(disk, root, p, true, env), [p])
    else Run(disk, [])
  }

  /** `process_files`: stops when the watch folder or the archive root is missing. */
  function ProcessFilesRun(disk: Disk, watch: Path, root: Path, listdir: (Disk, Path) -> seq<string>,
                           env: Env, height: int): Run
    requires WithinHeight(disk, height) && |root| + 2 <= height
  {
    if !Exists(disk, watch) || !Exists(disk, root) then Run(disk, [])
    else FolderRun(disk, root, watch, listdir, env, height)
  }

  // --------------------------------------------------------------- methods

  method ProcessFolder(disk: Disk, root: Path, folder: Path, listdir: (Disk, Path) -> seq<string>,
                       env: Env, ghost height: int) returns (r: Run)
    requires WithinHeight(disk, height) && |root| + 2 <= height
    ensures r == FolderRun(disk, root, folder, listdir, env, height)
    decreases height - |folder|, 1, 0
  {
    var entries := if folder in disk.dirs then listdir(disk, folder) else [];
    r := ProcessEntries(disk, root, folder, entries, listdir, env, height);
  }

  method ProcessEntries(disk: Disk, root: Path, folder: Path, entries: seq<string>,
                        listdir: (Disk, Path) -> seq<string>, env: Env, ghost height: int)
    returns (r: Run)
    requires WithinHeight(disk, height) && |root| + 2 <= height
    ensures r == EntriesRun(disk, root, folder, entries, listdir, env, height)
    decreases height - |folder|, 0, |entries|
  {
    var current := disk;
    var processed: seq<Path> := [];
    var i := 0;
    while i < |entries|
      invariant 0 <= i <= |entries|
      invariant WithinHeight(current, height)
      invariant var rest := EntriesRun(current, root, folder, entries[i..], listdir, env, height);
        EntriesRun(disk, root, folder, entries, listdir, env, height) ==
        Run(rest.disk, processed + rest.processed)
    {
      assert entries[i..][1..] == entries[i + 1..];
      var step := ProcessEntry(current, root, folder, entries[i], listdir, env, height);
      current := step.disk;
      processed := processed + step.processed;
      i := i + 1;
    }
    r := Run(current, processed);
  }

  method ProcessEntry(disk: Disk, root: Path, folder: Path, name: string,
                      listdir: (Disk, Path) -> seq<string>, env: Env, ghost height: int)
    returns (r: Run)
    requires WithinHeight(disk, height) && |root| + 2 <= height
    ensures r == EntryRun(disk, root, folder, name, listdir, env, height)
    decreases height - |folder|, 0, 0
  {
    var p := folder + [name];
    if p in disk.dirs {
      if SkippedFolder(name) {
        r := Run(disk, []);
      } else {
        r := ProcessFolder(disk, root, p, listdir, env, height);
      }
    } else if p in disk.files && !HasSuffix(name, SyncDatabaseSuffix) {
      r := Run(ProcessFile(disk, root, p, true, env), [p]);
    } else {
      r := Run(disk, []);
    }
  }

  method ProcessFiles(disk: Disk, watch: Path, root: Path, listdir: (Disk, Path) -> seq<string>,
                      env: Env, ghost height: int) returns (r: Run)
    requires WithinHeight(disk, height) && |root| + 2 <= height
    ensures r == ProcessFilesRun(disk, watch, root, listdir, env, height)
  {
    if !Exists(disk, watch) || !Exists(disk, root) {
      r := Run(disk, []);
    } else {
      r := ProcessFolder(disk, root, watch, listdir, env, height);
    }
  }

  // --------------------------------------------------------------- lemmas

  /** The depth of the deepest folder: every disk has a bound the run can use. */
  ghost function Depth(dirs: set<Path>): (h: nat)
    ensures forall p :: p in dirs ==> |p| <= h
    decreases dirs
  {
    if dirs == {} then 0
    else
      var x :| x in dirs;
      var rest := Depth(dirs - {x});
      if rest < |x| then |x| else rest
  }

  lemma HeightExists(disk: Disk, root: Path)
    ensures var h := Depth(disk.dirs) + |root| + 2;
      WithinHeight(disk, h) && |root| + 2 <= h
  {
  }

  /** The files handed to `process_file` below `folder`: strictly below it, reached
      through no skipped subfolder, and never a sync database. */
  predicate Eligible(folder: Path, p: Path) {
    |p| > |folder| && p[..|folder|] == folder &&
    (forall i :: |folder| <= i < |p| - 1 ==> !SkippedFolder(p[i])) &&
    !HasSuffix(p[|p| - 1], SyncDatabaseSuffix)
  }

  lemma EligibleBelow(folder: Path, name: string, p: Path)
    requires !SkippedFolder(name) && Eligible(folder + [name], p)
    ensures Eligible(folder, p)
  {
    assert p[..|folder|] == (folder + [name])[..|folder|];
  }

  lemma {:induction false} FolderRunEligible(disk: Disk, root: Path, folder: Path,
                                             listdir: (Disk, Path) -> seq<string>, env: Env, height: int)
    requires WithinHeight(disk, height) && |root| + 2 <= height
    ensures forall p :: p in FolderRun(disk, root, folder, listdir, env, height).processed ==> Eligible(folder, p)
    decreases height - |folder|, 1, 0
  {
    EntriesRunEligible(disk, root, folder, Listing(disk, folder, listdir), listdir, env, height);
  }

  lemma {:induction false} EntriesRunEligible(disk: Disk, root: Path, folder: Path, entries: seq<string>,
                                              listdir: (Disk, Path) -> seq<string>, env: Env, height: int)
    requires WithinHeight(disk, height) && |root| + 2 <= height
    ensures forall p :: p in EntriesRun(disk, root, folder, entries, listdir, env, height).processed ==>
      Eligible(folder, p)
    decreases height - |folder|, 0, |entries|
  {
    if entries != [] {
      var first := EntryRun(disk, root, folder, entries[0], listdir, env, height);
      EntryRunEligible(disk, root, folder, entries[0], listdir, env, height);
      EntriesRunEligible(first.disk, root, folder, entries[1..], listdir, env, height);
    }
  }

  lemma {:induction false} EntryRunEligible(disk: Disk, root: Path, folder: Path, name: string,
                                            listdir: (Disk, Path) -> seq<string>, env: Env, height: int)
    requires WithinHeight(disk, height) && |root| + 2 <= height
    ensures forall p :: p in EntryRun(disk, root, folder, name, listdir, env, height).processed ==>
      Eligible(folder, p)
    decreases height - |folder|, 0, 0
  {
    var p := folder + [name];
    if p in disk.dirs && !SkippedFolder(name) {
      FolderRunEligible(disk, root, p, listdir, env, height);
      forall f | f in FolderRun(disk, root, p, listdir, env, height).processed ensures Eligible(folder, f) {
        EligibleBelow(folder, name, f);
      }
    } else if p !in disk.dirs && p in disk.files && !HasSuffix(name, SyncDatabaseSuffix) {
      assert p[..|folder|] == folder;
    }
  }

  /** Every file the run hands to `process_file` lies below the watch folder, is
      not inside an "anos anteriores" or "erros" folder, and is no sync database;
      with either folder missing nothing happens. */
  lemma ProcessedAreEligible(disk: Disk, watch: Path, root: Path, listdir: (Disk, Path) -> seq<string>,
                             env: Env, height: int)
    requires WithinHeight(disk, height) && |root| + 2 <= height
    ensures !Exists(disk, watch) || !Exists(disk, root) ==>
      ProcessFilesRun(disk, watch, root, listdir, env, height) == Run(disk, [])
    ensures forall p :: p in ProcessFilesRun(disk, watch, root, listdir, env, height).processed ==>
      Eligible(watch, p)
  {
    if Exists(disk, watch) && Exists(disk, root) {
      FolderRunEligible(disk, root, watch, listdir, env, height);
    }
  }

  lemma {:induction false} FolderRunKeeps(disk: Disk, root: Path, folder: Path,
                                          listdir: (Disk, Path) -> seq<string>, env: Env, height: int, q: Path)
    requires WithinHeight(disk, height) && |root| + 2 <= height
    requires q in disk.files && OutsideArchive(root, q)
    requires q !in FolderRun(disk, root, folder, listdir, env, height).processed
    ensures q in FolderRun(disk, root, folder, listdir, env, height).disk.files
    ensures FolderRun(disk, root, folder, listdir, env, height).disk.files[q] == disk.files[q]
    decreases height - |folder|, 1, 0
  {
    EntriesRunKeeps(disk, root, folder, Listing(disk, folder, listdir), listdir, env, height, q);
  }

  lemma {:induction false} EntriesRunKeeps(disk: Disk, root: Path, folder: Path, entries: seq<string>,
                                           listdir: (Disk, Path) -> seq<string>, env: Env, height: int, q: Path)
    requires WithinHeight(disk, height) && |root| + 2 <= height
    requires q in disk.files && OutsideArchive(root, q)
    requires q !in EntriesRun(disk, root, folder, entries, listdir, env, height).processed
    ensures q in EntriesRun(disk, root, folder, entries, listdir, env, height).disk.files
    ensures EntriesRun(disk, root, folder, entries, listdir, env, height).disk.files[q] == disk.files[q]
    decreases height - |folder|, 0, |entries|
  {
    if entries != [] {
      var first := EntryRun(disk, root, folder, entries[0], listdir, env, height);
      EntryRunKeeps(disk, root, folder, entries[0], listdir, env, height, q);
      EntriesRunKeeps(first.disk, root, folder, entries[1..], listdir, env, height, q);
    }
  }

  lemma {:induction false} EntryRunKeeps(disk: Disk, root: Path, folder: Path, name: string,
                                         listdir: (Disk, Path) -> seq<string>, env: Env, height: int, q: Path)
    requires WithinHeight(disk, height) && |root| + 2 <= height
    requires q in disk.files && OutsideArchive(root, q)
    requires q !in EntryRun(disk, root, folder, name, listdir, env, height).processed
    ensures q in EntryRun(disk, root, folder, name, listdir, env, height).disk.files
    ensures EntryRun(disk, root, folder, name, listdir, env, height).disk.files[q] == disk.files[q]
    decreases height - |folder|, 0, 0
  {
    var p := folder + [name];
    if p in disk.dirs {
      if !SkippedFolder(name) {
        FolderRunKeeps(disk, root, p, listdir, env, height, q);
      }
    } else if p in disk.files && !HasSuffix(name, SyncDatabaseSuffix) {
      ProcessFileKeepsOthers(disk, root, p, true, env, q);
    }
  }

  /** A file the run does not hand to `process_file` is still a file afterwards,
      also inside the archive folders, where its data may have been replaced. */
  lemma {:induction false} FolderRunPresent(disk: Disk, root: Path, folder: Path,
                                            listdir: (Disk, Path) -> seq<string>, env: Env, height: int, q: Path)
    requires WithinHeight(disk, height) && |root| + 2 <= height
    requires q in disk.files
    requires q !in FolderRun(disk, root, folder, listdir, env, height).processed
    ensures q in FolderRun(disk, root, folder, listdir, env, height).disk.files
    decreases height - |folder|, 1, 0
  {
    EntriesRunPresent(disk, root, folder, Listing(disk, folder, listdir), listdir, env, height, q);
  }

  lemma {:induction false} EntriesRunPresent(disk: Disk, root: Path, folder: Path, entries: seq<string>,
                                             listdir: (Disk, Path) -> seq<string>, env: Env, height: int, q: Path)
    requires WithinHeight(disk, height) && |root| + 2 <= height
    requires q in disk.files
    requires q !in EntriesRun(disk, root, folder, entries, listdir, env, height).processed
    ensures q in EntriesRun(disk, root, folder, entries, listdir, env, height).disk.files
    decreases height - |folder|, 0, |entries|
  {
    if entries != [] {
      var first := EntryRun(disk, root, folder, entries[0], listdir, env, height);
      EntryRunPresent(disk, root, folder, entries[0], listdir, env, height, q);
      EntriesRunPresent(first.disk, root, folder, entries[1..], listdir, env, height, q);
    }
  }

  lemma {:induction false} EntryRunPresent(disk: Disk, root: Path, folder: Path, name: string,
                                           listdir: (Disk, Path) -> seq<string>, env: Env, height: int, q: Path)
    requires WithinHeight(disk, height) && |root| + 2 <= height
    requires q in disk.files
    requires q !in EntryRun(disk, root, folder, name, listdir, env, height).processed
    ensures q in EntryRun(disk, root, folder, name, listdir, env, height).disk.files
    decreases height - |folder|, 0, 0
  {
    var p := folder + [name];
    if p in disk.dirs {
      if !SkippedFolder(name) {
        FolderRunPresent(disk, root, p, listdir, env, height, q);
      }
    } else if p in disk.files && !HasSuffix(name, SyncDatabaseSuffix) {
      ProcessFileKeepsPresent(disk, root, p, true, env, q);
    }
  }

  /** A file the run never hands to `process_file` (one in a skipped folder, a sync
      database, one not listed) stays where it was with its data, unless it sits
      inside an archive folder, where a moved file may replace it. */
  lemma UnprocessedFilesStay(disk: Disk, watch: Path, root: Path, listdir: (Disk, Path) -> seq<string>,
                             env: Env, height: int, q: Path)
    requires WithinHeight(disk, height) && |root| + 2 <= height
    requires q in disk.files && OutsideArchive(root, q)
    requires q !in ProcessFilesRun(disk, watch, root, listdir, env, height).processed
    ensures q in ProcessFilesRun(disk, watch, root, listdir, env, height).disk.files
    ensures ProcessFilesRun(disk, watch, root, listdir, env, height).disk.files[q] == disk.files[q]
  {
    if Exists(disk, watch) && Exists(disk, root) {
      FolderRunKeeps(disk, root, watch, listdir, env, height, q);
    }
  }

  /** The run removes no folder, and an unprocessed file that was no folder is
      still none. */
  lemma {:induction false} FolderRunKeepsFolders(disk: Disk, root: Path, folder: Path,
                                                 listdir: (Disk, Path) -> seq<string>, env: Env, height: int, q: Path)
    requires WithinHeight(disk, height) && |root| + 2 <= height
    ensures disk.dirs <= FolderRun(disk, root, folder, listdir, env, height).disk.dirs
    ensures (q in disk.files && q !in disk.dirs &&
             q !in FolderRun(disk, root, folder, listdir, env, height).processed) ==>
      q !in FolderRun(disk, root, folder, listdir, env, height).disk.dirs
    decreases height - |folder|, 1, 0
  {
    EntriesRunKeepsFolders(disk, root, folder, Listing(disk, folder, listdir), listdir, env, height, q);
  }

  lemma {:induction false} EntriesRunKeepsFolders(disk: Disk, root: Path, folder: Path, entries: seq<string>,
                                                  listdir: (Disk, Path) -> seq<string>, env: Env, height: int, q: Path)
    requires WithinHeight(disk, height) && |root| + 2 <= height
    ensures disk.dirs <= EntriesRun(disk, root, folder, entries, listdir, env, height).disk.dirs
    ensures (q in disk.files && q !in disk.dirs &&
             q !in EntriesRun(disk, root, folder, entries, listdir, env, height).processed) ==>
      q !in EntriesRun(disk, root, folder, entries, listdir, env, height).disk.dirs
    decreases height - |folder|, 0, |entries|
  {
    if entries != [] {
      var first := EntryRun(disk, root, folder, entries[0], listdir, env, height);
      EntryRunKeepsFolders(disk, root, folder, entries[0], listdir, env, height, q);
      EntriesRunKeepsFolders(first.disk, root, folder, entries[1..], listdir, env, height, q);
      if q in disk.files && q !in disk.dirs &&
         q !in EntriesRun(disk, root, folder, entries, listdir, env, height).processed {
        EntryRunPresent(disk, root, folder, entries[0], listdir, env, height, q);
      }
    }
  }

  lemma {:induction false} EntryRunKeepsFolders(disk: Disk, root: Path, folder: Path, name: string,
                                                listdir: (Disk, Path) -> seq<string>, env: Env, height: int, q: Path)
    requires WithinHeight(disk, height) && |root| + 2 <= height
    ensures disk.dirs <= EntryRun(disk, root, folder, name, listdir, env, height).disk.dirs
    ensures (q in disk.files && q !in disk.dirs &&
             q !in EntryRun(disk, root, folder, name, listdir, env, height).processed) ==>
      q !in EntryRun(disk, root, folder, name, listdir, env, height).disk.dirs
    decreases height - |folder|, 0, 0
  {
    var p := folder + [name];
    if p in disk.dirs {
      if !SkippedFolder(name) {
        FolderRunKeepsFolders(disk, root, p, listdir, env, height, q);
      }
    } else if p in disk.files && !HasSuffix(name, SyncDatabaseSuffix) {
      ProcessFileKeepsFolders(disk, root, p, true, env);
      if q in disk.files && q !in disk.dirs {
        ProcessFileNoFolderOnFile(disk, root, p, true, env, q);
      }
    }
  }

  /** `os.listdir` names every file and folder directly in a folder. */
  ghost predicate ListsAll(listdir: (Disk, Path) -> seq<string>) {
    forall d: Disk, f: Path, n: string ::
      f in d.dirs && Exists(d, f + [n]) ==> n in listdir(d, f)
  }

  /** Every folder from `folder` down to the one holding `q`. */
  predicate FoldersOnTheWay(disk: Disk, folder: Path, q: Path) {
    forall k :: |folder| <= k < |q| ==> q[..k] in disk.dirs
  }

  /** With a listing that names everything present, the run reaches every file
      below the folder that is eligible: the recursion enters every subfolder
      other than "anos anteriores" and "erros". */
  lemma {:induction false} FolderRunComplete(disk: Disk, root: Path, folder: Path,
                                             listdir: (Disk, Path) -> seq<string>, env: Env, height: int, q: Path)
    requires WithinHeight(disk, height) && |root| + 2 <= height
    requires ListsAll(listdir)
    requires q in disk.files && q !in disk.dirs
    requires Eligible(folder, q) && FoldersOnTheWay(disk, folder, q)
    ensures q in FolderRun(disk, root, folder, listdir, env, height).processed
    decreases height - |folder|, 1, 0
  {
    var n := q[|folder|];
    assert q[..|folder|] == folder;
    assert folder in disk.dirs;
    assert folder + [n] == q[..|folder| + 1];
    if |q| == |folder| + 1 {
      assert q[..|folder| + 1] == q;
    }
    assert Exists(disk, folder + [n]);
    EntriesRunComplete(disk, root, folder, Listing(disk, folder, listdir), listdir, env, height, q);
  }

  lemma {:induction false} EntriesRunComplete(disk: Disk, root: Path, folder: Path, entries: seq<string>,
                                              listdir: (Disk, Path) -> seq<string>, env: Env, height: int, q: Path)
    requires WithinHeight(disk, height) && |root| + 2 <= height
    requires ListsAll(listdir)
    requires q in disk.files && q !in disk.dirs
    requires Eligible(folder, q) && FoldersOnTheWay(disk, folder, q) && q[|folder|] in entries
    ensures q in EntriesRun(disk, root, folder, entries, listdir, env, height).processed
    decreases height - |folder|, 0, |entries|
  {
    var first := EntryRun(disk, root, folder, entries[0], listdir, env, height);
    if entries[0] == q[|folder|] {
      EntryRunComplete(disk, root, folder, entries[0], listdir, env, height, q);
    } else if q !in first.processed {
      EntryRunPresent(disk, root, folder, entries[0], listdir, env, height, q);
      EntryRunKeepsFolders(disk, root, folder, entries[0], listdir, env, height, q);
      EntriesRunComplete(first.disk, root, folder, entries[1..], listdir, env, height, q);
    }
  }

  lemma {:induction false} EntryRunComplete(disk: Disk, root: Path, folder: Path, name: string,
                                            listdir: (Disk, Path) -> seq<string>, env: Env, height: int, q: Path)
    requires WithinHeight(disk, height) && |root| + 2 <= height
    requires ListsAll(listdir)
    requires q in disk.files && q !in disk.dirs
    requires Eligible(folder, q) && FoldersOnTheWay(disk, folder, q) && name == q[|folder|]
    ensures q in EntryRun(disk, root, folder, name, listdir, env, height).processed
    decreases height - |folder|, 0, 0
  {
    var p := folder + [name];
    assert q[..|folder|] == folder;
    assert p == q[..|folder| + 1];
    if |q| == |folder| + 1 {
      assert p == q;
    } else {
      assert p in disk.dirs && !SkippedFolder(name);
      assert q[..|p|] == p;
      FolderRunComplete(disk, root, p, listdir, env, height, q);
    }
  }

  /** When the watch folder is a folder and the archive root exists, the run hands
      every eligible file below the watch folder to `process_file`. */
  lemma ProcessFilesComplete(disk: Disk, watch: Path, root: Path, listdir: (Disk, Path) -> seq<string>,
                             env: Env, height: int, q: Path)
    requires WithinHeight(disk, height) && |root| + 2 <= height
    requires ListsAll(listdir) && watch in disk.dirs && Exists(disk, root)
    requires q in disk.files && q !in disk.dirs
    requires Eligible(watch, q) && FoldersOnTheWay(disk, watch, q)
    ensures q in ProcessFilesRun(disk, watch, root, listdir, env, height).processed
  {
    FolderRunComplete(disk, root, watch, listdir, env, height, q);
  }

  /** The log folder `ERROS` is one of the folders the run never enters. */
  lemma LogFolderSkipped()
    ensures SkippedFolder(LogFolderName)
  {
    assert Lower(LogFolderName) == "erros";
  }

  /** The log files of the watch folder's `ERROS` folder are never handed to
      `process_file`: they stay where they are with their data. */
  lemma LogFilesStay(disk: Disk, watch: Path, root: Path, listdir: (Disk, Path) -> seq<string>,
                     env: Env, height: int, q: Path)
    requires WithinHeight(disk, height) && |root| + 2 <= height
    requires |q| > |watch| + 1 && q[..|watch| + 1] == watch + [LogFolderName]
    requires q in disk.files && OutsideArchive(root, q)
    ensures q !in ProcessFilesRun(disk, watch, root, listdir, env, height).processed
    ensures q in ProcessFilesRun(disk, watch, root, listdir, env, height).disk.files
    ensures ProcessFilesRun(disk, watch, root, listdir, env, height).disk.files[q] == disk.files[q]
  {
    LogFolderSkipped();
    assert q[|watch|] == (watch + [LogFolderName])[|watch|];
    assert !Eligible(watch, q);
    ProcessedAreEligible(disk, watch, root, listdir, env, height);
    UnprocessedFilesStay(disk, watch, root, listdir, env, height, q);
  }

  /** A file already in the archive folder of its date is not moved. */
  lemma InPlaceFileStays(disk: Disk, root: Path, file: Path, env: Env)
    requires file in disk.files && FileDate(disk, file, env).Some?
    requires Parent(file) == ArchiveFolder(root, FileDate(disk, file, env).value)
    ensures ProcessFile(disk, root, file, true, env) == disk
  {
  }
}
