/** `FileArchiver` of `arquiva_email.py`: moves the files directly inside the watch
    folder (no subfolders, no sync databases) into the `YYYY/YYYY-MM` folder of
    their date under the archive root. */
module MailArchiver {
  import opened Wrappers
  import opened Text
  import opened Archive

  /** The loop over the names listed in the watch folder: each one that is a file
      at its turn (and, with `skipSyncDb`, not a sync database) is handed to
      `process_file`, which here never checks whether the file is already in
      place. */
  function ListingRun(disk: Disk, watch: Path, root: Path, names: seq<string>, skipSyncDb: bool, env: Env): Run
  {
    if names == [] then Run(disk, [])
    else
      var before := ListingRun(disk, watch, root, names[..|names| - 1], skipSyncDb, env);
      var name := names[|names| - 1];
      var p := watch + [name];
      if p in before.disk.files && !(skipSyncDb && HasSuffix(name, SyncDatabaseSuffix))
      then Run(ProcessFile(before.disk, root, p, false, env), before.processed + [p])
      else before
  }

  /** `process_files` of lines 43-60: stops when the watch folder is missing. */
  function MailRun(disk: Disk, watch: Path, root: Path, listdir: (Disk, Path) -> seq<string>, env: Env): Run
  {
    if !Exists(disk, watch) then Run(disk, [])
    else ListingRun(disk, watch, root, Listing(disk, watch, listdir), true, env)
  }

  /** The type of the last item handled, kept to separate entries in the log. */
  const FileType := "file"

  class FileArchiver {
    const watchFolder: Path
    const archiveRoot: Path
    var lastProcessedType: Option<string>

    constructor (watch: Path, root: Path)
      ensures watchFolder == watch && archiveRoot == root && lastProcessedType == None
    {
      watchFolder := watch;
      archiveRoot := root;
      lastProcessedType := None;
    }

    /** The disk after the run and the files handled; `last_processed_type`
        becomes "file" once a file has been handled. */
    method ProcessFiles(disk: Disk, listdir: (Disk, Path) -> seq<string>, env: Env) returns (r: Run)
      modifies this
      ensures r == MailRun(disk, watchFolder, archiveRoot, listdir, env)
      ensures lastProcessedType == if r.processed == [] then old(lastProcessedType) else Some(FileType)
    {
      r := Run(disk, []);
      if Exists(disk, watchFolder) {
        var names := if watchFolder in disk.dirs then listdir(disk, watchFolder) else [];
        for i := 0 to |names|
          invariant r == ListingRun(disk, watchFolder, archiveRoot, names[..i], true, env)
          invariant lastProcessedType == if r.processed == [] then old(lastProcessedType) else Some(FileType)
        {
          assert names[..i + 1][..i] == names[..i];
          var p := watchFolder + [names[i]];
          if p in r.disk.files && !HasSuffix(names[i], SyncDatabaseSuffix) {
            r := Run(ProcessFile(r.disk, archiveRoot, p, false, env), r.processed + [p]);
            lastProcessedType := Some(FileType);
          }
        }
        assert names[..|names|] == names;
      }
    }
  }

  // --------------------------------------------------------------- lemmas

  /** Only files directly in the watch folder that were listed are handled, and,
      with `skipSyncDb`, never a sync database. */
  lemma {:induction false} ListingRunProcessed(disk: Disk, watch: Path, root: Path, names: seq<string>,
                                               skipSyncDb: bool, env: Env, p: Path)
    requires p in ListingRun(disk, watch, root, names, skipSyncDb, env).processed
    ensures Parent(p) == watch && Name(p) in names
    ensures skipSyncDb ==> !HasSuffix(Name(p), SyncDatabaseSuffix)
  {
    if names != [] {
      var before := ListingRun(disk, watch, root, names[..|names| - 1], skipSyncDb, env);
      if p in before.processed {
        ListingRunProcessed(disk, watch, root, names[..|names| - 1], skipSyncDb, env, p);
      }
    }
  }

  /** A file the run does not hand to `process_file` keeps its path and data,
      unless it sits inside an archive folder. */
  lemma {:induction false} ListingRunKeeps(disk: Disk, watch: Path, root: Path, names: seq<string>,
                                           skipSyncDb: bool, env: Env, q: Path)
    requires q in disk.files && OutsideArchive(root, q)
    requires q !in ListingRun(disk, watch, root, names, skipSyncDb, env).processed
    ensures q in ListingRun(disk, watch, root, names, skipSyncDb, env).disk.files
    ensures ListingRun(disk, watch, root, names, skipSyncDb, env).disk.files[q] == disk.files[q]
  {
    if names != [] {
      var before := ListingRun(disk, watch, root, names[..|names| - 1], skipSyncDb, env);
      ListingRunKeeps(disk, watch, root, names[..|names| - 1], skipSyncDb, env, q);
      var p := watch + [names[|names| - 1]];
      if p in before.disk.files && !(skipSyncDb && HasSuffix(names[|names| - 1], SyncDatabaseSuffix)) {
        ProcessFileKeepsOthers(before.disk, root, p, false, env, q);
      }
    }
  }

  /** A file the run does not hand to `process_file` is still a file afterwards,
      also inside an archive folder, where its data may have been replaced. */
  lemma {:induction false} ListingRunPresent(disk: Disk, watch: Path, root: Path, names: seq<string>,
                                             skipSyncDb: bool, env: Env, q: Path)
    requires q in disk.files
    requires q !in ListingRun(disk, watch, root, names, skipSyncDb, env).processed
    ensures q in ListingRun(disk, watch, root, names, skipSyncDb, env).disk.files
  {
    if names != [] {
      var before := ListingRun(disk, watch, root, names[..|names| - 1], skipSyncDb, env);
      ListingRunPresent(disk, watch, root, names[..|names| - 1], skipSyncDb, env, q);
      var p := watch + [names[|names| - 1]];
      if p in before.disk.files && !(skipSyncDb && HasSuffix(names[|names| - 1], SyncDatabaseSuffix)) {
        ProcessFileKeepsPresent(before.disk, root, p, false, env, q);
      }
    }
  }

  /** Every listed file directly in the watch folder is handed to `process_file`,
      unless it is a sync database and those are skipped: an earlier move never
      takes its path away, at most it puts another file there. */
  lemma {:induction false} ListingRunComplete(disk: Disk, watch: Path, root: Path, names: seq<string>,
                                              skipSyncDb: bool, env: Env, n: string)
    requires n in names && watch + [n] in disk.files
    requires !(skipSyncDb && HasSuffix(n, SyncDatabaseSuffix))
    ensures watch + [n] in ListingRun(disk, watch, root, names, skipSyncDb, env).processed
  {
    var prefix := names[..|names| - 1];
    var before := ListingRun(disk, watch, root, prefix, skipSyncDb, env);
    if n in prefix {
      ListingRunComplete(disk, watch, root, prefix, skipSyncDb, env, n);
      ProcessedGrow(disk, watch, root, names, skipSyncDb, env);
    } else {
      assert names == prefix + [n];
      if watch + [n] !in before.processed {
        ListingRunPresent(disk, watch, root, prefix, skipSyncDb, env, watch + [n]);
      }
    }
  }

  lemma ProcessedGrow(disk: Disk, watch: Path, root: Path, names: seq<string>, skipSyncDb: bool, env: Env)
    requires names != []
    ensures ListingRun(disk, watch, root, names[..|names| - 1], skipSyncDb, env).processed <=
      ListingRun(disk, watch, root, names, skipSyncDb, env).processed
  {
  }

  /** With the watch folder missing nothing is moved; otherwise exactly the listed
      files directly in the watch folder that are not sync databases are handled,
      and every file that is not handled keeps its data unless
      it sits inside an archive folder. */
  lemma MailRunFacts(disk: Disk, watch: Path, root: Path, listdir: (Disk, Path) -> seq<string>, env: Env,
                     n: string, q: Path)
    ensures !Exists(disk, watch) ==> MailRun(disk, watch, root, listdir, env) == Run(disk, [])
    ensures forall p :: p in MailRun(disk, watch, root, listdir, env).processed ==>
      Parent(p) == watch && !HasSuffix(Name(p), SyncDatabaseSuffix)
    ensures (watch in disk.dirs && n in listdir(disk, watch) && watch + [n] in disk.files &&
             !HasSuffix(n, SyncDatabaseSuffix)) ==>
      watch + [n] in MailRun(disk, watch, root, listdir, env).processed
    ensures q in disk.files && OutsideArchive(root, q) && q !in MailRun(disk, watch, root, listdir, env).processed ==>
      q in MailRun(disk, watch, root, listdir, env).disk.files &&
      MailRun(disk, watch, root, listdir, env).disk.files[q] == disk.files[q]
  {
    if Exists(disk, watch) {
      var names := Listing(disk, watch, listdir);
      forall p | p in MailRun(disk, watch, root, listdir, env).processed
        ensures Parent(p) == watch && !HasSuffix(Name(p), SyncDatabaseSuffix)
      {
        ListingRunProcessed(disk, watch, root, names, true, env, p);
      }
      if watch in disk.dirs && n in names && watch + [n] in disk.files && !HasSuffix(n, SyncDatabaseSuffix) {
        ListingRunComplete(disk, watch, root, names, true, env, n);
      }
      if q in disk.files && OutsideArchive(root, q) && q !in MailRun(disk, watch, root, listdir, env).processed {
        ListingRunKeeps(disk, watch, root, names, true, env, q);
      }
    }
  }

  /** With no check for files already in place, a file that already is in the
      archive folder of its date is moved again: its own name is taken (by
      itself), so it goes to the timestamped name in the same folder. */
  lemma InPlaceFileIsRenamed(disk: Disk, root: Path, file: Path, env: Env)
    requires file in disk.files && FileDate(disk, file, env).Some?
    requires Parent(file) == ArchiveFolder(root, FileDate(disk, file, env).value)
    requires Parent(file) in disk.dirs && Parent(Parent(file)) in disk.dirs
    requires |file| > 0
    requires Parent(file) + [StampedName(Name(file), env.stamp(file))] !in disk.dirs
    ensures var t := Parent(file) + [StampedName(Name(file), env.stamp(file))];
      t in ProcessFile(disk, root, file, false, env).files &&
      ProcessFile(disk, root, file, false, env).files[t] == disk.files[file] &&
      file !in ProcessFile(disk, root, file, false, env).files
  {
    var folder := Parent(file);
    var stamp := env.stamp(file);
    var t := folder + [StampedName(Name(file), stamp)];
    assert folder + [Name(file)] == file;
    StampedNameFacts(Name(file), stamp);
    assert t != file;
    assert ProcessFile(disk, root, file, false, env) == MoveFileToArchive(disk, file, folder, stamp);
    assert EnsureFolder(disk, Parent(folder)) == Some(disk);
    assert EnsureFolder(disk, folder) == Some(disk);
    assert Destination(disk, folder, Name(file), stamp) == t;
    assert MoveFileToArchive(disk, file, folder, stamp) == Relocate(disk, file, t);
  }
}
