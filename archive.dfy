/** What the four archiving scripts share: a disk of folders and files addressed by
    component paths, `shutil.move` and `os.makedirs` on it, the `YYYY/YYYY-MM`
    archive folders, `os.path.splitext` and the timestamped name used when a
    destination is taken, and `move_file_to_archive`. */
module Archive {
  import opened Wrappers
  import opened Text

  // ------------------------------------------------------------ the disk

  /** An absolute path as its components; `[]` is the top of the file system. */
  type Path = seq<string>

  /** A file's contents and its modification date; `shutil.move` keeps both. */
  datatype FileData = FileData(content: string, modified: Date)

  datatype Disk = Disk(dirs: set<Path>, files: map<Path, FileData>)

  /** `os.path.exists`. */
  predicate Exists(disk: Disk, p: Path) {
    p in disk.dirs || p in disk.files
  }

  /** `os.path.dirname`. */
  function Parent(p: Path): Path {
    if p == [] then [] else p[..|p| - 1]
  }

  /** `os.path.basename`. */
  function Name(p: Path): string {
    if p == [] then "" else p[|p| - 1]
  }

  lemma ParentName(folder: Path, name: string)
    ensures Parent(folder + [name]) == folder && Name(folder + [name]) == name
  {
  }

  /** The file at `src` now lives at `dst`, replacing whatever file was there. */
  function Relocate(disk: Disk, src: Path, dst: Path): Disk
    requires src in disk.files
  {
    disk.(files := (disk.files - {src})[dst := disk.files[src]])
  }

  /** `shutil.move(src, dst)` with its error caught by the caller: a missing source
      is an error; a folder at `dst` receives the file under its own name unless
      that name is taken there, which is an error; a `dst` whose parent is not a
      folder (missing, or a regular file) is an error; otherwise the file takes the
      path `dst`, replacing a file already there. An error changes nothing. */
  function Move(disk: Disk, src: Path, dst: Path): Disk
  {
    if src !in disk.files then disk
    else if dst in disk.dirs then
      (if Exists(disk, dst + [Name(src)]) then disk else Relocate(disk, src, dst + [Name(src)]))
    else if Parent(dst) !in disk.dirs then disk
    else Relocate(disk, src, dst)
  }

  /** Where `Move` puts the file, or `None` when the move fails. */
  function MoveTarget(disk: Disk, src: Path, dst: Path): Option<Path>
  {
    if src !in disk.files then None
    else if dst in disk.dirs then
      (if Exists(disk, dst + [Name(src)]) then None else Some(dst + [Name(src)]))
    else if Parent(dst) !in disk.dirs then None
    else Some(dst)
  }

  /** A move never touches folders; a successful one carries the file to its
      target and removes the source, and every other file keeps its path and
      data. A file that stood at the target is replaced. */
  lemma MoveFacts(disk: Disk, src: Path, dst: Path)
    ensures Move(disk, src, dst).dirs == disk.dirs
    ensures MoveTarget(disk, src, dst).None? ==> Move(disk, src, dst) == disk
    ensures MoveTarget(disk, src, dst).Some? ==>
      var t := MoveTarget(disk, src, dst).value;
      src in disk.files && t in Move(disk, src, dst).files &&
      Move(disk, src, dst).files[t] == disk.files[src] &&
      (src != t ==> src !in Move(disk, src, dst).files) &&
      (forall q :: q != src && q != t ==>
         (q in Move(disk, src, dst).files <==> q in disk.files))
    ensures forall q :: q in disk.files && q != src && Some(q) != MoveTarget(disk, src, dst) ==>
      q in Move(disk, src, dst).files && Move(disk, src, dst).files[q] == disk.files[q]
  {
  }

  /** The proper and improper prefixes of `p` below the top: the folders
      `os.makedirs(p)` needs. */
  function Prefixes(p: Path): set<Path> {
    set i | 1 <= i <= |p| :: p[..i]
  }

  /** `os.makedirs(p)`: creates `p` and its missing ancestors; it fails, creating
      nothing, when one of them is a file. */
  function MakeDirs(disk: Disk, p: Path): Option<Disk> {
    if Prefixes(p) * disk.files.Keys != {} then None
    else Some(disk.(dirs := disk.dirs + Prefixes(p)))
  }

  /** `if not os.path.exists(p): os.makedirs(p)`. */
  function EnsureFolder(disk: Disk, p: Path): Option<Disk> {
    if Exists(disk, p) then Some(disk) else MakeDirs(disk, p)
  }

  /** The folder check fails exactly when the path is missing and one of its
      ancestors is a file; when it succeeds the files are untouched, no folder is
      lost, and a path that is not a file is a folder afterwards. */
  lemma EnsureFolderFacts(disk: Disk, p: Path)
    ensures EnsureFolder(disk, p).None? <==> !Exists(disk, p) && Prefixes(p) * disk.files.Keys != {}
    ensures EnsureFolder(disk, p).Some? ==>
      EnsureFolder(disk, p).value.files == disk.files &&
      disk.dirs <= EnsureFolder(disk, p).value.dirs &&
      (p != [] && p !in disk.files ==> p in EnsureFolder(disk, p).value.dirs)
  {
    if !Exists(disk, p) && Prefixes(p) * disk.files.Keys == {} && p != [] {
      assert p[..|p|] == p;
    }
  }

  // ------------------------------------------------------- archive folders

  type Year = y: int | 1000 <= y <= 9999 witness 2000
  type Month = m: int | 1 <= m <= 12 witness 1

  /** The year and month of the date that decides a file's archive folder. */
  datatype Date = Date(year: Year, month: Month)

  function Pow10(w: nat): nat {
    if w == 0 then 1 else 10 * Pow10(w - 1)
  }

  /** The last `w` decimal digits of `n`, zero-padded: `strftime`'s `%Y` and `%m`. */
  function FixedDigits(n: nat, w: nat): (r: string)
    ensures |r| == w && AllDigits(r)
  {
    if w == 0 then "" else FixedDigits(n / 10, w - 1) + [DigitChar(n % 10)]
  }

  lemma {:induction false} FixedDigitsRoundTrip(n: nat, w: nat)
    requires n < Pow10(w)
    ensures DigitsValue(FixedDigits(n, w)) == n
  {
    if w > 0 {
      var prefix := FixedDigits(n / 10, w - 1);
      assert (prefix + [DigitChar(n % 10)])[..|prefix|] == prefix;
      FixedDigitsRoundTrip(n / 10, w - 1);
    }
  }

  /** `date.strftime("%Y")`. */
  function YearName(d: Date): string {
    FixedDigits(d.year, 4)
  }

  /** `date.strftime("%Y-%m")`. */
  function YearMonthName(d: Date): string {
    YearName(d) + "-" + FixedDigits(d.month, 2)
  }

  /** `archive_root/YYYY/YYYY-MM`. */
  function ArchiveFolder(root: Path, d: Date): Path {
    root + [YearName(d), YearMonthName(d)]
  }

  /** Reads a year-month folder name back into a date. */
  function ParseYearMonth(s: string): Option<Date> {
    if |s| == 7 && s[4] == '-' && AllDigits(s[..4]) && AllDigits(s[5..]) &&
       1000 <= DigitsValue(s[..4]) <= 9999 && 1 <= DigitsValue(s[5..]) <= 12
    then Some(Date(DigitsValue(s[..4]), DigitsValue(s[5..])))
    else None
  }

  /** The year-month folder name holds the whole date: reading it back gives the
      date again, and it extends the year folder's name. */
  lemma YearMonthRoundTrip(d: Date)
    ensures ParseYearMonth(YearMonthName(d)) == Some(d)
    ensures |YearName(d)| == 4 && YearMonthName(d)[..4] == YearName(d)
  {
    var s := YearMonthName(d);
    var y := YearName(d);
    var m := FixedDigits(d.month, 2);
    assert s == y + "-" + m;
    assert s[..4] == y && s[4] == '-' && s[5..] == m;
    assert Pow10(2) == 100;
    assert Pow10(4) == 100 * Pow10(2);
    FixedDigitsRoundTrip(d.year, 4);
    FixedDigitsRoundTrip(d.month, 2);
    assert DigitsValue(s[..4]) == d.year && DigitsValue(s[5..]) == d.month;
  }

  /** Distinct dates have distinct archive folders, inside a year folder of the
      archive root. */
  lemma ArchiveFolderFacts(root: Path, d1: Date, d2: Date)
    ensures ArchiveFolder(root, d1) == ArchiveFolder(root, d2) <==> d1 == d2
    ensures Parent(ArchiveFolder(root, d1)) == root + [YearName(d1)]
    ensures Parent(Parent(ArchiveFolder(root, d1))) == root
  {
    if ArchiveFolder(root, d1) == ArchiveFolder(root, d2) {
      assert YearMonthName(d1) == ArchiveFolder(root, d1)[|root| + 1];
      assert YearMonthName(d2) == ArchiveFolder(root, d2)[|root| + 1];
      YearMonthRoundTrip(d1);
      YearMonthRoundTrip(d2);
    }
    assert Parent(ArchiveFolder(root, d1)) == root + [YearName(d1)];
    assert Parent(root + [YearName(d1)]) == root;
  }

  // ------------------------------------------------------- timestamped names

  /** `datetime.now().strftime("%Y%m%d%H%M%S")`. */
  type Stamp = s: string | |s| == 14 && AllDigits(s) witness "20000101000000"

  function LastDot(s: string): (r: int)
    ensures -1 <= r < |s|
    ensures r >= 0 ==> s[r] == '.' && forall j :: r < j < |s| ==> s[j] != '.'
    ensures r == -1 ==> forall j :: 0 <= j < |s| ==> s[j] != '.'
  {
    if s == [] then -1
    else if s[|s| - 1] == '.' then |s| - 1
    else LastDot(s[..|s| - 1])
  }

  predicate AllDots(s: string) {
    forall j :: 0 <= j < |s| ==> s[j] == '.'
  }

  /** `os.path.splitext` of a file name: the extension runs from the last dot, but
      only when something other than a dot comes before that dot. */
  function SplitExt(name: string): (r: (string, string))
  {
    var i := LastDot(name);
    if i > 0 && !AllDots(name[..i]) then (name[..i], name[i..]) else (name, "")
  }

  /** The two parts put back together give the name; an extension is a dot and
      what follows it up to the end, with no further dot, after a base that is not
      only dots. */
  lemma SplitExtFacts(name: string)
    ensures SplitExt(name).0 + SplitExt(name).1 == name
    ensures SplitExt(name).1 != "" ==>
      SplitExt(name).1[0] == '.' && !AllDots(SplitExt(name).0) &&
      forall j :: 0 < j < |SplitExt(name).1| ==> SplitExt(name).1[j] != '.'
    ensures SplitExt(name).1 == "" ==>
      forall i :: 0 < i < |name| && name[i] == '.' ==> AllDots(name[..i])
  {
    if SplitExt(name).1 == "" {
      var l := LastDot(name);
      forall i | 0 < i < |name| && name[i] == '.' ensures AllDots(name[..i]) {
        assert i <= l;
        forall j | 0 <= j < i ensures name[..i][j] == '.' {
          assert name[..i][j] == name[..l][j];
        }
      }
    }
  }

  /** `f"{base}_{timestamp}{ext}"`. */
  function StampedName(name: string, stamp: Stamp): string {
    SplitExt(name).0 + "_" + stamp + SplitExt(name).1
  }

  /** The timestamped name differs from the name, keeps its extension and starts
      with its base. */
  lemma StampedNameFacts(name: string, stamp: Stamp)
    ensures StampedName(name, stamp) != name
    ensures SplitExt(StampedName(name, stamp)).1 == SplitExt(name).1
    ensures StampedName(name, stamp)[..|SplitExt(name).0|] == SplitExt(name).0
  {
    SplitExtFacts(name);
    var base := SplitExt(name).0;
    var ext := SplitExt(name).1;
    var s := StampedName(name, stamp);
    assert |s| == |name| + 15;
    var tail := "_" + stamp + ext;
    assert s == base + tail;
    if ext == "" {
      var i := LastDot(name);
      if i > 0 {
        assert s[..i] == name[..i];
        assert s[i] == '.';
      }
      assert LastDot(s) == i by {
        forall j | |name| <= j < |s| ensures s[j] != '.' {
          assert s[j] == tail[j - |name|];
        }
        if i >= 0 {
          assert s[i] == name[i];
        }
        LastDotIs(s, i);
      }
      if i > 0 {
        assert s[..i] == name[..i];
      }
    } else {
      var i := |base| + 15;
      assert s[i..] == ext;
      assert s[i] == '.';
      forall j | i < j < |s| ensures s[j] != '.' {
        assert s[j] == ext[j - i];
      }
      LastDotIs(s, i);
      assert !AllDots(s[..i]) by {
        var k :| 0 <= k < |base| && base[k] != '.';
        assert s[..i][k] == base[k];
      }
    }
  }

  /** `LastDot` finds the dot that no other dot follows. */
  lemma LastDotIs(s: string, i: int)
    requires -1 <= i < |s|
    requires i >= 0 ==> s[i] == '.'
    requires forall j :: i < j < |s| && j >= 0 ==> s[j] != '.'
    ensures LastDot(s) == i
  {
    if s != [] && s[|s| - 1] != '.' {
      LastDotIs(s[..|s| - 1], i);
    }
  }

  /** The destination `move_file_to_archive` (and the root mover) choose: the name
      itself when nothing in `folder` has it, otherwise the timestamped name, which
      is not checked again. */
  function Destination(disk: Disk, folder: Path, name: string, stamp: Stamp): Path {
    if Exists(disk, folder + [name]) then folder + [StampedName(name, stamp)] else folder + [name]
  }

  /** The destination lies in `folder`; it is the file's own name exactly when that
      name is free there, and otherwise a different name with the same extension. */
  lemma DestinationFacts(disk: Disk, folder: Path, name: string, stamp: Stamp)
    ensures Parent(Destination(disk, folder, name, stamp)) == folder
    ensures Name(Destination(disk, folder, name, stamp)) == name <==> !Exists(disk, folder + [name])
    ensures SplitExt(Name(Destination(disk, folder, name, stamp))).1 == SplitExt(name).1
  {
    StampedNameFacts(name, stamp);
  }

  /** `move_file_to_archive(file, folder, year)`: make the year folder and the
      year-month folder when missing, then move the file to its destination.
      A failing `makedirs` ends the attempt. */
  function MoveFileToArchive(disk: Disk, file: Path, folder: Path, stamp: Stamp): Disk {
    match EnsureFolder(disk, Parent(folder))
    case None => disk
    case Some(withYear) =>
      match EnsureFolder(withYear, folder)
      case None => withYear
      case Some(ready) => Move(ready, file, Destination(ready, folder, Name(file), stamp))
  }

  /** The disk `move_file_to_archive` moves the file on, once both folders exist. */
  function Prepared(disk: Disk, folder: Path): Option<Disk> {
    match EnsureFolder(disk, Parent(folder))
    case None => None
    case Some(withYear) => EnsureFolder(withYear, folder)
  }

  /** Unless one of the archive folder's ancestors is a file, the year folder and
      the year-month folder both exist afterwards, the file's data is at the
      destination and the source is gone (or, when the destination is a folder,
      the move failed and nothing else changed). */
  lemma MoveFileToArchiveFacts(disk: Disk, file: Path, folder: Path, stamp: Stamp)
    requires |folder| >= 2 && Prefixes(folder) * disk.files.Keys == {}
    ensures Prepared(disk, folder).Some?
    ensures Parent(folder) in MoveFileToArchive(disk, file, folder, stamp).dirs
    ensures folder in MoveFileToArchive(disk, file, folder, stamp).dirs
    ensures MoveFileToArchive(disk, file, folder, stamp) ==
      Move(Prepared(disk, folder).value, file,
           Destination(Prepared(disk, folder).value, folder, Name(file), stamp))
  {
    var up := Parent(folder);
    assert Prefixes(up) <= Prefixes(folder) by {
      forall q | q in Prefixes(up) ensures q in Prefixes(folder) {
        var i :| 1 <= i <= |up| && q == up[..i];
        assert q == folder[..i];
      }
    }
    assert up == folder[..|folder| - 1];
    assert up in Prefixes(folder);
    assert up !in Prefixes(folder) * disk.files.Keys;
    assert Prefixes(up) * disk.files.Keys == {};
    EnsureFolderFacts(disk, up);
    var withYear := EnsureFolder(disk, up).value;
    assert up in withYear.dirs;
    EnsureFolderFacts(withYear, folder);
    assert folder == folder[..|folder|];
    assert folder in Prefixes(folder);
    assert folder !in Prefixes(folder) * withYear.files.Keys;
    var ready := EnsureFolder(withYear, folder).value;
    assert up in ready.dirs && folder in ready.dirs;
    MoveFacts(ready, file, Destination(ready, folder, Name(file), stamp));
  }

  /** A second collision is not checked: when both the name and the timestamped
      name are taken by files in `folder`, the moved file replaces the one under
      the timestamped name. */
  lemma SecondCollisionReplaces(disk: Disk, file: Path, folder: Path, stamp: Stamp)
    requires folder in disk.dirs && Parent(folder) in disk.dirs
    requires file in disk.files
    requires folder + [Name(file)] in disk.files
    requires folder + [StampedName(Name(file), stamp)] in disk.files
    requires folder + [StampedName(Name(file), stamp)] !in disk.dirs
    requires file != folder + [StampedName(Name(file), stamp)]
    ensures var t := folder + [StampedName(Name(file), stamp)];
      t in MoveFileToArchive(disk, file, folder, stamp).files &&
      MoveFileToArchive(disk, file, folder, stamp).files[t] == disk.files[file]
  {
  }

  // ------------------------------------------------------------- per file

  /** `name.lower().endswith(suffix)`. */
  predicate HasSuffix(name: string, suffix: string) {
    EndsWith(Lower(name), suffix)
  }

  const EmlSuffix := ".eml"
  const SyncDatabaseSuffix := ".ffs_db"

  /** What opening an `.eml` file and reading its `Date` header yields: an error,
      a date, or no usable date (then the current date is used). */
  datatype EmlRead = ReadError | HeaderDate(date: Date) | NoUsableDate

  /** What the scripts take from outside: reading a message's date from its
      contents, and the current date and the timestamp when a file is handled. */
  datatype Env = Env(readEml: string -> EmlRead, now: Path -> Date, stamp: Path -> Stamp)

  /** The date that decides where a file goes: the message date for an `.eml`
      file, the modification date for any other file; `None` when the message
      cannot be read. */
  function FileDate(disk: Disk, file: Path, env: Env): Option<Date>
    requires file in disk.files
  {
    if HasSuffix(Name(file), EmlSuffix) then
      match env.readEml(disk.files[file].content)
      case ReadError => None
      case HeaderDate(d) => Some(d)
      case NoUsableDate => Some(env.now(file))
    else Some(disk.files[file].modified)
  }

  /** `process_file` on a file: find its date and archive folder, and move it
      there. With `skipInPlace` a file whose folder already is that archive
      folder is left alone. */
  function ProcessFile(disk: Disk, archiveRoot: Path, file: Path, skipInPlace: bool, env: Env): Disk {
    if file !in disk.files then disk
    else
      match FileDate(disk, file, env)
      case None => disk
      case Some(d) =>
        if skipInPlace && Parent(file) == ArchiveFolder(archiveRoot, d) then disk
        else MoveFileToArchive(disk, file, ArchiveFolder(archiveRoot, d), env.stamp(file))
  }

  /** Which date decides the folder: for a name ending in ".eml" (any case) the
      message date, or the current date when the message has no usable date; for
      any other file its modification date. An unreadable message stays where it
      is. */
  lemma ProcessFileDate(disk: Disk, archiveRoot: Path, file: Path, skipInPlace: bool, env: Env)
    requires file in disk.files
    ensures var read := env.readEml(disk.files[file].content);
      && (HasSuffix(Name(file), EmlSuffix) && read.ReadError? ==>
            ProcessFile(disk, archiveRoot, file, skipInPlace, env) == disk)
      && (HasSuffix(Name(file), EmlSuffix) && read.HeaderDate? ==> FileDate(disk, file, env) == Some(read.date))
      && (HasSuffix(Name(file), EmlSuffix) && read.NoUsableDate? ==> FileDate(disk, file, env) == Some(env.now(file)))
      && (!HasSuffix(Name(file), EmlSuffix) ==> FileDate(disk, file, env) == Some(disk.files[file].modified))
  {
  }

  /** Where a processed file lands: unless it is left in place, and provided no
      ancestor of its archive folder is a regular file and its destination is not a
      folder, the file's data ends up inside the archive folder of its date and the
      file is gone from where it was. */
  lemma ProcessFileOutcome(disk: Disk, archiveRoot: Path, file: Path, skipInPlace: bool, env: Env)
    requires file in disk.files
    ensures FileDate(disk, file, env).Some? ==>
      var folder := ArchiveFolder(archiveRoot, FileDate(disk, file, env).value);
      var t := Destination(disk, folder, Name(file), env.stamp(file));
      var r := ProcessFile(disk, archiveRoot, file, skipInPlace, env);
      Prefixes(folder) * disk.files.Keys == {} && t !in disk.dirs &&
      !(skipInPlace && Parent(file) == folder) && file != [] ==>
        Parent(t) == folder && t in r.files && r.files[t] == disk.files[file] && file !in r.files
  {
    if FileDate(disk, file, env).Some? {
      var folder := ArchiveFolder(archiveRoot, FileDate(disk, file, env).value);
      var stamp := env.stamp(file);
      var t := Destination(disk, folder, Name(file), stamp);
      if Prefixes(folder) * disk.files.Keys == {} && t !in disk.dirs &&
         !(skipInPlace && Parent(file) == folder) && file != [] {
        assert ProcessFile(disk, archiveRoot, file, skipInPlace, env) == MoveFileToArchive(disk, file, folder, stamp);
        DestinationFacts(disk, folder, Name(file), stamp);
        MoveFileToArchiveLands(disk, file, folder, stamp);
        DestinationIsNotSource(disk, folder, file, stamp);
      }
    }
  }

  /** The destination of a file is never the file itself: in its own folder the
      name is taken by the file, so the timestamped name is used. */
  lemma DestinationIsNotSource(disk: Disk, folder: Path, file: Path, stamp: Stamp)
    requires file in disk.files && file != []
    ensures Destination(disk, folder, Name(file), stamp) != file
  {
    var name := Name(file);
    assert Parent(file) + [name] == file;
    if Parent(file) == folder {
      assert Exists(disk, folder + [name]);
      assert Destination(disk, folder, name, stamp) == folder + [StampedName(name, stamp)];
      StampedNameFacts(name, stamp);
      assert (folder + [StampedName(name, stamp)])[|folder|] != file[|folder|];
    } else {
      DestinationFacts(disk, folder, name, stamp);
    }
  }

  /** The disk `move_file_to_archive` moves on differs from the original only by
      folders no deeper than the archive folder. */
  lemma PreparedDirs(disk: Disk, folder: Path)
    requires Prepared(disk, folder).Some?
    ensures Prepared(disk, folder).value.files == disk.files
    ensures forall p :: p in Prepared(disk, folder).value.dirs ==> p in disk.dirs || |p| <= |folder|
  {
    EnsureFolderFacts(disk, Parent(folder));
    var withYear := EnsureFolder(disk, Parent(folder)).value;
    assert forall p :: p in Prefixes(Parent(folder)) ==> |p| <= |folder|;
    assert forall p :: p in Prefixes(folder) ==> |p| <= |folder|;
    assert forall p :: p in withYear.dirs ==> p in disk.dirs || |p| <= |folder|;
    EnsureFolderFacts(withYear, folder);
  }

  /** When no ancestor of the archive folder is a regular file and the destination
      is not a folder, `move_file_to_archive` puts the file's data at the
      destination, and the file is gone unless it already was the destination. */
  lemma MoveFileToArchiveLands(disk: Disk, file: Path, folder: Path, stamp: Stamp)
    requires file in disk.files && |folder| >= 2 && Prefixes(folder) * disk.files.Keys == {}
    requires Destination(disk, folder, Name(file), stamp) !in disk.dirs
    ensures var t := Destination(disk, folder, Name(file), stamp);
      var r := MoveFileToArchive(disk, file, folder, stamp);
      t in r.files && r.files[t] == disk.files[file] && (t != file ==> file !in r.files)
  {
    MoveFileToArchiveFacts(disk, file, folder, stamp);
    PreparedDirs(disk, folder);
    var ready := Prepared(disk, folder).value;
    var t := Destination(disk, folder, Name(file), stamp);
    DestinationFacts(disk, folder, Name(file), stamp);
    assert Exists(ready, folder + [Name(file)]) == Exists(disk, folder + [Name(file)]);
    assert Destination(ready, folder, Name(file), stamp) == t;
    assert t !in ready.dirs;
    MoveFacts(ready, file, t);
    assert folder in ready.dirs;
  }

  /** The effect of a run on the disk, and the files handed to `process_file`, in
      order. */
  datatype Run = Run(disk: Disk, processed: seq<Path>)

  /** `os.listdir` of a folder: the entries in the order the listing function
      gives them; it is only asked about folders. */
  function Listing(disk: Disk, folder: Path, listdir: (Disk, Path) -> seq<string>): seq<string> {
    if folder in disk.dirs then listdir(disk, folder) else []
  }

  /** `q` is not inside an archive folder of `root`: every archive folder is
      `root/YYYY/...` with a four-digit year. */
  predicate OutsideArchive(root: Path, q: Path) {
    !(|q| > |root| + 2 && q[..|root|] == root && |q[|root|]| == 4 && AllDigits(q[|root|]))
  }

  /** When the archive folder's path is taken by a regular file, the folder checks
      pass (the path exists) but `shutil.move` fails beneath that file, the error
      is caught, and no file changes. */
  lemma ArchiveFolderIsFileKeepsFiles(disk: Disk, file: Path, folder: Path, stamp: Stamp)
    requires folder in disk.files && folder !in disk.dirs
    requires forall n :: folder + [n] !in disk.dirs
    ensures MoveFileToArchive(disk, file, folder, stamp).files == disk.files
  {
    EnsureFolderFacts(disk, Parent(folder));
    if EnsureFolder(disk, Parent(folder)).Some? {
      var withYear := EnsureFolder(disk, Parent(folder)).value;
      assert forall p :: p in withYear.dirs ==> p in disk.dirs || |p| <= |Parent(folder)|;
      assert EnsureFolder(withYear, folder) == Some(withYear);
      var t := Destination(withYear, folder, Name(file), stamp);
      assert t == folder + [Name(t)];
      assert t !in withYear.dirs;
      assert Parent(t) == folder;
    }
  }

  /** `move_file_to_archive` leaves every other file that is not inside `folder`
      where it was, with its data. */
  lemma MoveFileToArchiveKeepsOthers(disk: Disk, file: Path, folder: Path, stamp: Stamp, q: Path)
    requires q in disk.files && q != file
    requires !(|q| > |folder| && q[..|folder|] == folder)
    ensures q in MoveFileToArchive(disk, file, folder, stamp).files
    ensures MoveFileToArchive(disk, file, folder, stamp).files[q] == disk.files[q]
  {
    EnsureFolderFacts(disk, Parent(folder));
    if EnsureFolder(disk, Parent(folder)).Some? {
      var withYear := EnsureFolder(disk, Parent(folder)).value;
      EnsureFolderFacts(withYear, folder);
      if EnsureFolder(withYear, folder).Some? {
        var ready := EnsureFolder(withYear, folder).value;
        var dst := Destination(ready, folder, Name(file), stamp);
        MoveFacts(ready, file, dst);
      }
    }
  }

  /** Handling one file leaves every other file outside the archive folders where
      it was, with its data. */
  lemma ProcessFileKeepsOthers(disk: Disk, root: Path, file: Path, skipInPlace: bool, env: Env, q: Path)
    requires q in disk.files && q != file && OutsideArchive(root, q)
    ensures q in ProcessFile(disk, root, file, skipInPlace, env).files
    ensures ProcessFile(disk, root, file, skipInPlace, env).files[q] == disk.files[q]
  {
    if file in disk.files && FileDate(disk, file, env).Some? {
      var d := FileDate(disk, file, env).value;
      var folder := ArchiveFolder(root, d);
      MoveFileToArchiveKeepsOthers(disk, file, folder, env.stamp(file), q);
    }
  }

  /** Handling one file leaves every other file's path a file, wherever it is: a
      move removes only its source, and a replaced file's path still holds one. */
  lemma ProcessFileKeepsPresent(disk: Disk, root: Path, file: Path, skipInPlace: bool, env: Env, q: Path)
    requires q in disk.files && q != file
    ensures q in ProcessFile(disk, root, file, skipInPlace, env).files
  {
    if file in disk.files && FileDate(disk, file, env).Some? {
      var folder := ArchiveFolder(root, FileDate(disk, file, env).value);
      EnsureFolderFacts(disk, Parent(folder));
      if EnsureFolder(disk, Parent(folder)).Some? {
        var withYear := EnsureFolder(disk, Parent(folder)).value;
        EnsureFolderFacts(withYear, folder);
        if EnsureFolder(withYear, folder).Some? {
          var ready := EnsureFolder(withYear, folder).value;
          MoveFacts(ready, file, Destination(ready, folder, Name(file), env.stamp(file)));
        }
      }
    }
  }

  /** Handling a file never removes a folder. */
  lemma ProcessFileKeepsFolders(disk: Disk, root: Path, file: Path, skipInPlace: bool, env: Env)
    ensures disk.dirs <= ProcessFile(disk, root, file, skipInPlace, env).dirs
    ensures forall p :: p in ProcessFile(disk, root, file, skipInPlace, env).dirs ==>
      p in disk.dirs || |p| <= |root| + 2
  {
    if file in disk.files && FileDate(disk, file, env).Some? {
      var folder := ArchiveFolder(root, FileDate(disk, file, env).value);
      EnsureFolderFacts(disk, Parent(folder));
      if EnsureFolder(disk, Parent(folder)).Some? {
        var withYear := EnsureFolder(disk, Parent(folder)).value;
        EnsureFolderFacts(withYear, folder);
        if EnsureFolder(withYear, folder).Some? {
          var ready := EnsureFolder(withYear, folder).value;
          MoveFacts(ready, file, Destination(ready, folder, Name(file), env.stamp(file)));
        }
      }
    }
  }

  lemma EnsureFolderNoFolderOnFile(disk: Disk, p: Path, q: Path)
    requires q in disk.files && q !in disk.dirs && EnsureFolder(disk, p).Some?
    ensures EnsureFolder(disk, p).value.files == disk.files
    ensures q !in EnsureFolder(disk, p).value.dirs
  {
    if !Exists(disk, p) {
      assert Prefixes(p) * disk.files.Keys == {};
      forall i | 1 <= i <= |p| ensures p[..i] !in disk.files {
        assert p[..i] in Prefixes(p) && p[..i] !in Prefixes(p) * disk.files.Keys;
      }
    }
  }

  /** Handling a file creates folders only where no file is: the path of a file
      that is no folder does not become one. */
  lemma ProcessFileNoFolderOnFile(disk: Disk, root: Path, file: Path, skipInPlace: bool, env: Env, q: Path)
    requires q in disk.files && q !in disk.dirs
    ensures q !in ProcessFile(disk, root, file, skipInPlace, env).dirs
  {
    if file in disk.files && FileDate(disk, file, env).Some? {
      var folder := ArchiveFolder(root, FileDate(disk, file, env).value);
      if EnsureFolder(disk, Parent(folder)).Some? {
        var withYear := EnsureFolder(disk, Parent(folder)).value;
        EnsureFolderNoFolderOnFile(disk, Parent(folder), q);
        if EnsureFolder(withYear, folder).Some? {
          var ready := EnsureFolder(withYear, folder).value;
          EnsureFolderNoFolderOnFile(withYear, folder, q);
          MoveFacts(ready, file, Destination(ready, folder, Name(file), env.stamp(file)));
        }
      }
    }
  }

  // ------------------------------------------------------------ the log folder

  /** The folder the archivers and the root mover log into, inside their root. */
  const LogFolderName := "ERROS"

  /** What the archivers' constructors do to the disk (`setup_logger`):
      `if not os.path.exists(log_folder): os.makedirs(log_folder)`, then a log file
      is opened inside it. `None` when either raises, which ends the script:
      `makedirs` below a regular file, or a regular file where the folder should
      be. The log file itself is not modelled. */
  function SetUpLogFolder(disk: Disk, logFolder: Path): Option<Disk> {
    if logFolder in disk.files then None else EnsureFolder(disk, logFolder)
  }

  /** Setting up fails exactly when the log folder's path is a regular file, or is
      missing below a regular file; otherwise the log folder is a folder afterwards,
      no file changes, and the only folders made are the log folder and its
      missing ancestors. */
  lemma SetUpLogFolderFacts(disk: Disk, logFolder: Path)
    requires logFolder != []
    ensures SetUpLogFolder(disk, logFolder).None? <==>
      logFolder in disk.files || (logFolder !in disk.dirs && Prefixes(logFolder) * disk.files.Keys != {})
    ensures SetUpLogFolder(disk, logFolder).Some? ==>
      SetUpLogFolder(disk, logFolder).value.files == disk.files &&
      logFolder in SetUpLogFolder(disk, logFolder).value.dirs &&
      disk.dirs <= SetUpLogFolder(disk, logFolder).value.dirs &&
      SetUpLogFolder(disk, logFolder).value.dirs <= disk.dirs + Prefixes(logFolder)
  {
    EnsureFolderFacts(disk, logFolder);
  }
}
