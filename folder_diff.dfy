/** The flat folder comparison: every file under each of two folders, as a path
    relative to its folder, and the report of the paths only one side has. */
module FolderDiff {
  import opened Wrappers
  import opened Text

  const SyncDatabaseName := ".ffs_db"
  const NoExclusiveMessage := "Nenhum arquivo exclusivo encontrado."
  const NotSelectedMessage := "Erro: Pastas não selecionadas."

  /** One step of `os.walk`: the folder reached, as the names leading to it from the
      top (empty at the top), and the names of the files in it. */
  datatype WalkStep = WalkStep(dir: seq<string>, fileNames: seq<string>)

  /** `os.path.relpath(os.path.join(root, filename), folder)`, with `/` as the
      separator. */
  function RelativePath(dir: seq<string>, fileName: string): string
  {
    Join(dir + [fileName], "/")
  }

  /** A file is left out exactly when its lower-cased name is ".ffs_db". */
  predicate Kept(fileName: string) {
    Lower(fileName) != SyncDatabaseName
  }

  /** The paths of one step, in order. */
  function StepPaths(step: WalkStep): seq<string>
  {
    NamePaths(step.dir, step.fileNames)
  }

  function NamePaths(dir: seq<string>, names: seq<string>): seq<string>
  {
    if names == [] then []
    else
      var name := names[|names| - 1];
      NamePaths(dir, names[..|names| - 1]) + (if Kept(name) then [RelativePath(dir, name)] else [])
  }

  /** The list `get_files_in_folder` returns for a walk. */
  function WalkPaths(walk: seq<WalkStep>): seq<string>
  {
    if walk == [] then [] else WalkPaths(walk[..|walk| - 1]) + StepPaths(walk[|walk| - 1])
  }

  /** `get_files_in_folder`: the two nested loops over the walk. */
  method FilesInFolder(walk: seq<WalkStep>) returns (files: seq<string>)
    ensures files == WalkPaths(walk)
  {
    files := [];
    for i := 0 to |walk|
      invariant files == WalkPaths(walk[..i])
    {
      assert walk[..i + 1][..i] == walk[..i];
      var step := walk[i];
      ghost var before := files;
      for j := 0 to |step.fileNames|
        invariant files == before + NamePaths(step.dir, step.fileNames[..j])
      {
        assert step.fileNames[..j + 1][..j] == step.fileNames[..j];
        var name := step.fileNames[j];
        if Lower(name) != SyncDatabaseName {
          files := files + [RelativePath(step.dir, name)];
        }
      }
      assert step.fileNames[..|step.fileNames|] == step.fileNames;
    }
    assert walk[..|walk|] == walk;
  }

  /** A path is listed exactly when some step holds a kept file with that path. */
  lemma {:induction false} NamePathsExactly(dir: seq<string>, names: seq<string>)
    ensures forall p :: p in NamePaths(dir, names) <==>
      exists j :: 0 <= j < |names| && Kept(names[j]) && p == RelativePath(dir, names[j])
  {
    if names != [] {
      var k := |names| - 1;
      var init := names[..k];
      NamePathsExactly(dir, init);
      forall p ensures p in NamePaths(dir, names) <==>
        exists j :: 0 <= j < |names| && Kept(names[j]) && p == RelativePath(dir, names[j])
      {
        if exists j :: 0 <= j < |names| && Kept(names[j]) && p == RelativePath(dir, names[j]) {
          var j :| 0 <= j < |names| && Kept(names[j]) && p == RelativePath(dir, names[j]);
          if j < k { assert init[j] == names[j]; }
        }
        if p in NamePaths(dir, names) && p !in NamePaths(dir, init) {
          assert Kept(names[k]) && p == RelativePath(dir, names[k]);
        }
      }
    }
  }

  /** Some step of the walk lists the path `p`. */
  predicate InSomeStep(walk: seq<WalkStep>, p: string) {
    exists i :: 0 <= i < |walk| && p in StepPaths(walk[i])
  }

  lemma WalkPathsExactly(walk: seq<WalkStep>)
    ensures forall p :: p in WalkPaths(walk) <==> InSomeStep(walk, p)
  {
    forall p ensures p in WalkPaths(walk) <==> InSomeStep(walk, p) {
      WalkPathListed(walk, p);
    }
  }

  /** One path at a time, by induction on the walk. */
  lemma {:induction false} WalkPathListed(walk: seq<WalkStep>, p: string)
    ensures p in WalkPaths(walk) <==> InSomeStep(walk, p)
  {
    if walk != [] {
      var k := |walk| - 1;
      var init := walk[..k];
      WalkPathListed(init, p);
      assert WalkPaths(walk) == WalkPaths(init) + StepPaths(walk[k]);
      if InSomeStep(init, p) {
        var i :| 0 <= i < |init| && p in StepPaths(init[i]);
        assert init[i] == walk[i];
      }
      if InSomeStep(walk, p) && p !in StepPaths(walk[k]) {
        var i :| 0 <= i < |walk| && p in StepPaths(walk[i]);
        assert i < k && init[i] == walk[i];
      }
      if p in StepPaths(walk[k]) {
        assert 0 <= k < |walk|;
      }
    }
  }

  /** Only the exact name ".ffs_db", in any case, is dropped; a longer name that ends
      that way is kept. */
  lemma SyncDatabaseOnly()
    ensures !Kept(".FFS_DB") && !Kept(".ffs_db")
    ensures Kept("a.ffs_db")
    ensures StepPaths(WalkStep(["sub"], ["x.txt"])) == ["sub/x.txt"]
  {
    assert Lower("a.ffs_db") != SyncDatabaseName by {
      assert |Lower("a.ffs_db")| == 8;
    }
    assert ["x.txt"][..0] == [];
    assert ["sub"] + ["x.txt"] == ["sub", "x.txt"];
    assert Join(["sub", "x.txt"], "/") == "sub/x.txt" by {
      assert ["sub", "x.txt"][1..] == ["x.txt"];
    }
  }

  /** The log file `configure_log_folder` opens inside `<folder 1>/ERROS` before
      the walks; `stamp` is the clock formatted "%Y%m%d%H%M%S". */
  function ComparisonLogName(stamp: string): string {
    "comparison_failures_" + stamp + ".log"
  }

  /** The log file is a file of the first folder like any other: once the walk of
      the first folder reaches `ERROS` and finds it, it is listed as
      `ERROS/comparison_failures_<stamp>.log`, and it is reported as exclusive to
      the first folder unless the second one holds the same path. */
  lemma LogFileListed(walk1: seq<WalkStep>, walk2: seq<WalkStep>, stamp: string, i: int)
    requires 0 <= i < |walk1| && walk1[i].dir == ["ERROS"] && ComparisonLogName(stamp) in walk1[i].fileNames
    ensures "ERROS/" + ComparisonLogName(stamp) in WalkPaths(walk1)
    ensures "ERROS/" + ComparisonLogName(stamp) !in WalkPaths(walk2) ==>
      "ERROS/" + ComparisonLogName(stamp) in Compare(ToSet(WalkPaths(walk1)), ToSet(WalkPaths(walk2))).onlyIn1
  {
    var n := ComparisonLogName(stamp);
    var p := "ERROS/" + n;
    assert |Lower(n)| != |SyncDatabaseName|;
    assert Kept(n);
    assert RelativePath(["ERROS"], n) == p by {
      assert ["ERROS"] + [n] == ["ERROS", n];
      assert ["ERROS", n][1..] == [n];
      assert Join(["ERROS", n], "/") == "ERROS" + "/" + Join([n], "/");
    }
    var j :| 0 <= j < |walk1[i].fileNames| && walk1[i].fileNames[j] == n;
    NamePathsExactly(["ERROS"], walk1[i].fileNames);
    assert p in StepPaths(walk1[i]);
    WalkPathListed(walk1, p);
  }

  // ------------------------------------------------------ comparison

  /** What the two sets of paths have in common and apart. */
  datatype Comparison = Comparison(onlyIn1: set<string>, onlyIn2: set<string>, common: set<string>)

  function Compare(files1: set<string>, files2: set<string>): Comparison
  {
    Comparison(files1 - files2, files2 - files1, files1 * files2)
  }

  /** The three parts are pairwise disjoint, each side is its exclusive part plus
      the common part, and the totals add up. */
  lemma ComparePartitions(files1: set<string>, files2: set<string>)
    ensures var c := Compare(files1, files2);
      && c.onlyIn1 !! c.onlyIn2 && c.onlyIn1 !! c.common && c.onlyIn2 !! c.common
      && files1 == c.onlyIn1 + c.common && files2 == c.onlyIn2 + c.common
      && |files1| == |c.onlyIn1| + |c.common| && |files2| == |c.onlyIn2| + |c.common|
  {
    var c := Compare(files1, files2);
    assert files1 == c.onlyIn1 + c.common;
    assert files2 == c.onlyIn2 + c.common;
  }

  /** Swapping the folders swaps the exclusive parts. */
  lemma CompareSwap(files1: set<string>, files2: set<string>)
    ensures Compare(files2, files1) ==
      Comparison(Compare(files1, files2).onlyIn2, Compare(files1, files2).onlyIn1,
                 Compare(files1, files2).common)
  {
  }

  // ------------------------------------------------------ the report

  function Rule(): string {
    seq(80, i => '=')
  }

  /** An exclusive section: the sorted paths, or the fallback line. */
  function ExclusiveLines(paths: set<string>): (r: seq<string>)
  {
    if paths == {} then [NoExclusiveMessage] else SortedSet(paths)
  }

  /** A section lists every exclusive path once, in ascending order, and nothing
      else; an empty section is the fallback line alone. */
  lemma ExclusiveLinesExactly(paths: set<string>)
    ensures paths == {} ==> ExclusiveLines(paths) == [NoExclusiveMessage]
    ensures paths != {} ==>
      StrictlySorted(ExclusiveLines(paths)) && |ExclusiveLines(paths)| == |paths| &&
      forall p :: p in ExclusiveLines(paths) <==> p in paths
  {
  }

  function ReportHead(folder1: string, folder2: string, timestamp: string,
                      files1: set<string>, files2: set<string>): seq<string>
  {
    [ "RELATÓRIO DE COMPARAÇÃO DE PASTAS - " + timestamp,
      "\nPasta 1: " + folder1,
      "Pasta 2: " + folder2,
      "\nTotal de arquivos na Pasta 1: " + NatToString(|files1|),
      "Total de arquivos na Pasta 2: " + NatToString(|files2|),
      "\n" + Rule(),
      "\nARQUIVOS EXCLUSIVOS DA PASTA 1 (" + NatToString(|files1 - files2|) + " arquivos):",
      Rule() ]
  }

  function ReportTail(c: Comparison): seq<string>
  {
    [ "\n" + Rule(),
      "\nRESUMO:",
      "Arquivos em comum: " + NatToString(|c.common|),
      "Arquivos exclusivos da Pasta 1: " + NatToString(|c.onlyIn1|),
      "Arquivos exclusivos da Pasta 2: " + NatToString(|c.onlyIn2|),
      Rule() ]
  }

  /** The lines of the report that `compare_folders` joins. */
  function ReportLines(folder1: string, folder2: string, timestamp: string,
                       files1: set<string>, files2: set<string>): seq<string>
  {
    var c := Compare(files1, files2);
    ReportHead(folder1, folder2, timestamp, files1, files2)
    + ExclusiveLines(c.onlyIn1)
    + ReportMiddle(c)
    + ExclusiveLines(c.onlyIn2)
    + ReportTail(c)
  }

  function ReportMiddle(c: Comparison): seq<string>
  {
    [ "\n" + Rule(),
      "\nARQUIVOS EXCLUSIVOS DA PASTA 2 (" + NatToString(|c.onlyIn2|) + " arquivos):",
      Rule() ]
  }

  /** "Not selected": never chosen, or the chooser was cancelled. */
  predicate Selected(folder: Option<string>) {
    folder.Some? && folder.value != ""
  }

  /** `compare_folders`; each walk is that of its folder, `timestamp` is the clock
      formatted "%Y-%m-%d %H:%M:%S". */
  function CompareFolders(folder1: Option<string>, folder2: Option<string>, timestamp: string,
                          walk1: seq<WalkStep>, walk2: seq<WalkStep>): (r: string)
    ensures !Selected(folder1) || !Selected(folder2) ==> r == NotSelectedMessage
    ensures Selected(folder1) && Selected(folder2) ==> r != NotSelectedMessage
  {
    if !Selected(folder1) || !Selected(folder2) then NotSelectedMessage
    else
      Join(ReportLines(folder1.value, folder2.value, timestamp,
                       ToSet(WalkPaths(walk1)), ToSet(WalkPaths(walk2))), "\n")
  }

  function ToSet(xs: seq<string>): (r: set<string>)
    ensures forall x :: x in r <==> x in xs
  {
    set x | x in xs
  }

  /** The report opens with its title; each exclusive section sits between its
      fixed lines; there are 17 fixed lines. */
  lemma ReportLinesShape(folder1: string, folder2: string, timestamp: string,
                         files1: set<string>, files2: set<string>)
    ensures var lines := ReportLines(folder1, folder2, timestamp, files1, files2);
      var only1 := ExclusiveLines(Compare(files1, files2).onlyIn1);
      var only2 := ExclusiveLines(Compare(files1, files2).onlyIn2);
      && |lines| == 17 + |only1| + |only2|
      && lines[0] == "RELATÓRIO DE COMPARAÇÃO DE PASTAS - " + timestamp
      && lines[8..8 + |only1|] == only1
      && lines[11 + |only1|..11 + |only1| + |only2|] == only2
  {
    var c := Compare(files1, files2);
    FiveParts(ReportHead(folder1, folder2, timestamp, files1, files2), ExclusiveLines(c.onlyIn1),
              ReportMiddle(c), ExclusiveLines(c.onlyIn2), ReportTail(c));
  }

  lemma FiveParts<T>(a: seq<T>, b: seq<T>, m: seq<T>, d: seq<T>, z: seq<T>)
    ensures var all := a + b + m + d + z;
      && |all| == |a| + |b| + |m| + |d| + |z|
      && all[0..|a|] == a
      && all[|a|..|a| + |b|] == b
      && all[|a| + |b| + |m|..|a| + |b| + |m| + |d|] == d
  {
    var all := a + b + m + d + z;
    assert all == a + (b + (m + (d + z)));
    assert all[0..|a|] == a;
    assert all[|a|..] == b + (m + (d + z));
    assert (b + (m + (d + z)))[..|b|] == b;
    assert all[|a| + |b| + |m|..] == d + z;
    assert (d + z)[..|d|] == d;
  }

  /** The report file's name in folder 1 (`os.path.join`). */
  function ReportPath(folder1: string, timestamp: string): string
  {
    var name := "comparacao_pastas_" + timestamp + ".txt";
    if EndsWith(folder1, "/") then folder1 + name else folder1 + "/" + name
  }

  /** `save_report`: `None` stands for `False`; `writes` says whether writing the
      file succeeds; `timestamp` is the clock formatted "%Y%m%d%H%M%S". */
  function SaveReport(folder1: Option<string>, timestamp: string, writes: bool): (r: Option<string>)
    ensures !Selected(folder1) ==> r == None
    ensures r.Some? <==> Selected(folder1) && writes
    ensures r.Some? ==> r.value == ReportPath(folder1.value, timestamp)
  {
    if !Selected(folder1) then None
    else if writes then Some(ReportPath(folder1.value, timestamp))
    else None
  }
}
