/** The recursive folder-tree comparison: names present on one side only, files
    whose contents differ, and names that are a folder on one side and a file on
    the other, at every depth below two folders. */
module TreeDiff {
  import opened Wrappers
  import opened Text

  /** A file with its contents, or a folder with its entries by name. */
  datatype Tree = File(content: string) | Dir(children: map<string, Tree>)

  datatype Kind = OnlyIn1 | OnlyIn2 | DifferentFiles | DirVsFile | FileVsDir

  /** A finding about the entry `item` of the folder reached by the names `dir`
      from the top. */
  datatype Finding = Finding(kind: Kind, dir: seq<string>, item: string)

  /** What `_compare_recursive` reports about the entry `x` of the folders being
      compared, if anything: a name on one side only, two files with different
      contents, or a folder facing a file. */
  function EntryKind(t1: Tree, t2: Tree, x: string): Option<Kind>
    requires t1.Dir? && t2.Dir?
    requires x in t1.children || x in t2.children
  {
    if x !in t2.children then Some(OnlyIn1)
    else if x !in t1.children then Some(OnlyIn2)
    else
      match (t1.children[x], t2.children[x])
      case (Dir(_), Dir(_)) => None
      case (File(c1), File(c2)) => if c1 != c2 then Some(DifferentFiles) else None
      case (Dir(_), File(_)) => Some(DirVsFile)
      case (File(_), Dir(_)) => Some(FileVsDir)
  }

  /** The findings about the entries of the two folders themselves. */
  function LevelFindings(t1: Tree, t2: Tree, dir: seq<string>): set<Finding>
    requires t1.Dir? && t2.Dir?
  {
    set x | x in t1.children.Keys + t2.children.Keys && EntryKind(t1, t2, x).Some? ::
      Finding(EntryKind(t1, t2, x).value, dir, x)
  }

  /** The common names that are folders on both sides, which are compared in turn. */
  function Subfolders(t1: Tree, t2: Tree): set<string>
    requires t1.Dir? && t2.Dir?
  {
    set x | x in t1.children && x in t2.children && t1.children[x].Dir? && t2.children[x].Dir?
  }

  /** `_compare_recursive` on two folders. */
  function Diff(t1: Tree, t2: Tree, dir: seq<string>): set<Finding>
    requires t1.Dir? && t2.Dir?
    decreases t1
  {
    LevelFindings(t1, t2, dir)
    + (set x, f | x in Subfolders(t1, t2) && f in Diff(t1.children[x], t2.children[x], dir + [x]) :: f)
  }

  /** The findings of the comparison started by `compare_directories`. */
  function CompareDirectories(t1: Tree, t2: Tree): set<Finding>
    requires t1.Dir? && t2.Dir?
  {
    Diff(t1, t2, [])
  }

  /** The side-swapped reading of a kind of finding. */
  function SwapKind(k: Kind): (r: Kind)
    ensures (k == DifferentFiles) == (r == DifferentFiles)
  {
    match k
    case OnlyIn1 => OnlyIn2
    case OnlyIn2 => OnlyIn1
    case DifferentFiles => DifferentFiles
    case DirVsFile => FileVsDir
    case FileVsDir => DirVsFile
  }

  function Swap(f: Finding): Finding
  {
    f.(kind := SwapKind(f.kind))
  }

  lemma SwapTwice(f: Finding)
    ensures Swap(Swap(f)) == f
  {
  }

  /** Every finding is about a folder at or below `dir`, and a finding deeper than
      `dir` lies inside an entry that is a folder on both sides. */
  lemma {:induction false} FindingsBelow(t1: Tree, t2: Tree, dir: seq<string>, f: Finding)
    requires t1.Dir? && t2.Dir?
    requires f in Diff(t1, t2, dir)
    ensures |f.dir| >= |dir| && f.dir[..|dir|] == dir
    ensures |f.dir| > |dir| ==> f.dir[|dir|] in Subfolders(t1, t2)
    ensures f.dir == dir ==> f in LevelFindings(t1, t2, dir)
    decreases t1
  {
    if f !in LevelFindings(t1, t2, dir) {
      var x :| x in Subfolders(t1, t2) && f in Diff(t1.children[x], t2.children[x], dir + [x]);
      FindingsBelow(t1.children[x], t2.children[x], dir + [x], f);
      assert f.dir[..|dir| + 1] == dir + [x];
      assert f.dir[..|dir|] == (dir + [x])[..|dir|];
    }
  }

  /** A finding deeper than `dir` comes from comparing the subfolder named next on
      its path. */
  lemma NestedFinding(t1: Tree, t2: Tree, dir: seq<string>, f: Finding)
    requires t1.Dir? && t2.Dir?
    requires f in Diff(t1, t2, dir) && |f.dir| > |dir|
    ensures f.dir[|dir|] in Subfolders(t1, t2)
    ensures f in Diff(t1.children[f.dir[|dir|]], t2.children[f.dir[|dir|]], dir + [f.dir[|dir|]])
  {
    FindingsBelow(t1, t2, dir, f);
    var y :| y in Subfolders(t1, t2) && f in Diff(t1.children[y], t2.children[y], dir + [y]);
    FindingsBelow(t1.children[y], t2.children[y], dir + [y], f);
    assert f.dir[|dir|] == (dir + [y])[|dir|];
  }

  /** A finding at the level of `dir` itself is there exactly when the entry's kind
      says so. */
  lemma LevelMembership(t1: Tree, t2: Tree, dir: seq<string>, k: Kind, x: string)
    requires t1.Dir? && t2.Dir?
    ensures Finding(k, dir, x) in Diff(t1, t2, dir) <==>
      (x in t1.children || x in t2.children) && EntryKind(t1, t2, x) == Some(k)
  {
    if Finding(k, dir, x) in Diff(t1, t2, dir) {
      FindingsBelow(t1, t2, dir, Finding(k, dir, x));
    }
  }

  /** At the level of `dir` itself the findings are exactly: the names only on one
      side, the common files whose contents differ, and the common names that are
      a folder on one side and a file on the other. */
  lemma ImmediateFindings(t1: Tree, t2: Tree, dir: seq<string>, x: string)
    requires t1.Dir? && t2.Dir?
    ensures Finding(OnlyIn1, dir, x) in Diff(t1, t2, dir) <==> x in t1.children && x !in t2.children
    ensures Finding(OnlyIn2, dir, x) in Diff(t1, t2, dir) <==> x in t2.children && x !in t1.children
    ensures Finding(DifferentFiles, dir, x) in Diff(t1, t2, dir) <==>
      x in t1.children && x in t2.children && t1.children[x].File? && t2.children[x].File? &&
      t1.children[x].content != t2.children[x].content
    ensures Finding(DirVsFile, dir, x) in Diff(t1, t2, dir) <==>
      x in t1.children && x in t2.children && t1.children[x].Dir? && t2.children[x].File?
    ensures Finding(FileVsDir, dir, x) in Diff(t1, t2, dir) <==>
      x in t1.children && x in t2.children && t1.children[x].File? && t2.children[x].Dir?
  {
    LevelMembership(t1, t2, dir, OnlyIn1, x);
    LevelMembership(t1, t2, dir, OnlyIn2, x);
    LevelMembership(t1, t2, dir, DifferentFiles, x);
    LevelMembership(t1, t2, dir, DirVsFile, x);
    LevelMembership(t1, t2, dir, FileVsDir, x);
  }

  /** Two folders both holding `x` as a folder have the findings of comparing those
      two subfolders among their own. */
  lemma SubfolderFindingsIncluded(t1: Tree, t2: Tree, dir: seq<string>, x: string, f: Finding)
    requires t1.Dir? && t2.Dir?
    requires x in t1.children && x in t2.children && t1.children[x].Dir? && t2.children[x].Dir?
    requires f in Diff(t1.children[x], t2.children[x], dir + [x])
    ensures f in Diff(t1, t2, dir)
  {
    assert x in Subfolders(t1, t2);
  }

  lemma EntryKindSwap(t1: Tree, t2: Tree, x: string)
    requires t1.Dir? && t2.Dir?
    requires x in t1.children || x in t2.children
    ensures EntryKind(t2, t1, x).Some? == EntryKind(t1, t2, x).Some?
    ensures EntryKind(t1, t2, x).Some? ==> EntryKind(t2, t1, x).value == SwapKind(EntryKind(t1, t2, x).value)
  {
  }

  /** Swapping the two trees swaps the sides of every finding. */
  lemma {:induction false} DiffSwap(t1: Tree, t2: Tree, dir: seq<string>, f: Finding)
    requires t1.Dir? && t2.Dir?
    ensures f in Diff(t1, t2, dir) <==> Swap(f) in Diff(t2, t1, dir)
    decreases t1
  {
    if f.dir == dir {
      if f.item in t1.children || f.item in t2.children {
        EntryKindSwap(t1, t2, f.item);
      }
      LevelMembership(t1, t2, dir, f.kind, f.item);
      LevelMembership(t2, t1, dir, SwapKind(f.kind), f.item);
    } else if f in Diff(t1, t2, dir) {
      FindingsBelow(t1, t2, dir, f);
      NestedFinding(t1, t2, dir, f);
      var x := f.dir[|dir|];
      DiffSwap(t1.children[x], t2.children[x], dir + [x], f);
      SubfolderFindingsIncluded(t2, t1, dir, x, Swap(f));
    } else if Swap(f) in Diff(t2, t1, dir) {
      FindingsBelow(t2, t1, dir, Swap(f));
      NestedFinding(t2, t1, dir, Swap(f));
      var x := f.dir[|dir|];
      DiffSwap(t1.children[x], t2.children[x], dir + [x], f);
      SubfolderFindingsIncluded(t1, t2, dir, x, f);
    }
  }

  /** A tree compared with itself gives no findings. */
  lemma {:induction false} DiffSelfEmpty(t: Tree, dir: seq<string>, f: Finding)
    requires t.Dir?
    ensures f !in Diff(t, t, dir)
    decreases t
  {
    if f in Diff(t, t, dir) {
      FindingsBelow(t, t, dir, f);
      if f.dir == dir {
        LevelMembership(t, t, dir, f.kind, f.item);
      } else {
        var x :| x in Subfolders(t, t) && f in Diff(t.children[x], t.children[x], dir + [x]);
        DiffSelfEmpty(t.children[x], dir + [x], f);
      }
    }
  }

  /** The comparison of the swapped folders reports the same findings with their
      sides swapped, and a folder compared with itself reports nothing. */
  lemma CompareDirectoriesSymmetry(t1: Tree, t2: Tree)
    requires t1.Dir? && t2.Dir?
    ensures CompareDirectories(t2, t1) == set f | f in CompareDirectories(t1, t2) :: Swap(f)
    ensures CompareDirectories(t1, t1) == {}
  {
    forall f | f in CompareDirectories(t2, t1)
      ensures f in set g | g in CompareDirectories(t1, t2) :: Swap(g)
    {
      SwapTwice(f);
      DiffSwap(t1, t2, [], Swap(f));
    }
    forall f | f in CompareDirectories(t1, t2)
      ensures Swap(f) in CompareDirectories(t2, t1)
    {
      DiffSwap(t1, t2, [], f);
    }
    forall f ensures f !in CompareDirectories(t1, t1) {
      DiffSelfEmpty(t1, [], f);
    }
  }

  // ------------------------------------------------------ messages

  /** `os.path.join(relative_dir, item)`: the top folder is shown as ".". */
  function ShownPath(dir: seq<string>, item: string): string
  {
    if dir == [] then "./" + item else Join(dir, "/") + "/" + item
  }

  /** The warning logged for a finding; `name1` and `name2` are the two folders as
      given. */
  function Message(f: Finding, name1: string, name2: string): string
  {
    var p := ShownPath(f.dir, f.item);
    match f.kind
    case OnlyIn1 => "Apenas em " + name1 + ": " + p
    case OnlyIn2 => "Apenas em " + name2 + ": " + p
    case DifferentFiles => "Arquivos diferentes: " + p + " e " + p
    case DirVsFile => "Tipo diferente: " + p + " é pasta e " + p + " é arquivo"
    case FileVsDir => "Tipo diferente: " + p + " é arquivo e " + p + " é pasta"
  }

  /** Entries of the top folders are shown under "."; deeper ones under the path of
      their folder. */
  lemma ShownPathLevels(dir: seq<string>, item: string)
    ensures dir == [] ==> ShownPath(dir, item) == ShownPath(["."], item)
    ensures |dir| == 1 ==> ShownPath(dir, item) == dir[0] + "/" + item
    ensures EndsWith(ShownPath(dir, item), "/" + item)
  {
    assert ["."][1..] == [];
    if |dir| == 1 {
      assert dir[1..] == [];
    }
    var p := ShownPath(dir, item);
    assert p[|p| - |item| - 1..] == "/" + item;
  }

  /** Findings about the same entry but of different kinds give different
      warnings, provided the two folders are given under different names. */
  lemma MessagesDistinguishKinds(f: Finding, g: Finding, name1: string, name2: string)
    requires f.dir == g.dir && f.item == g.item && f.kind != g.kind
    requires name1 != name2
    ensures Message(f, name1, name2) != Message(g, name1, name2)
  {
    var p := ShownPath(f.dir, f.item);
    var m, n := Message(f, name1, name2), Message(g, name1, name2);
    MessageHead(f, name1, name2);
    MessageHead(g, name1, name2);
    if Head(f.kind) != Head(g.kind) {
      assert m[..2] != n[..2];
    } else if f.kind.OnlyIn1? || f.kind.OnlyIn2? {
      OnlyInNames(p, name1, name2);
    } else {
      var k := |"Tipo diferente: " + p + " é "|;
      assert m[k] != n[k];
    }
  }

  /** The first two letters of the warning of each kind. */
  function Head(k: Kind): string {
    match k
    case OnlyIn1 => "Ap"
    case OnlyIn2 => "Ap"
    case DifferentFiles => "Ar"
    case DirVsFile => "Ti"
    case FileVsDir => "Ti"
  }

  lemma MessageHead(f: Finding, name1: string, name2: string)
    ensures |Message(f, name1, name2)| > 2 && Message(f, name1, name2)[..2] == Head(f.kind)
    ensures f.kind.DirVsFile? || f.kind.FileVsDir? ==>
      var k := |"Tipo diferente: " + ShownPath(f.dir, f.item) + " é "|;
      |Message(f, name1, name2)| > k &&
      Message(f, name1, name2)[k] == if f.kind.DirVsFile? then 'p' else 'a'
  {
  }

  /** The two "only in" warnings for one entry name different folders. */
  lemma OnlyInNames(p: string, name1: string, name2: string)
    requires name1 != name2
    ensures "Apenas em " + name1 + ": " + p != "Apenas em " + name2 + ": " + p
  {
    var x, y := "Apenas em " + name1 + ": " + p, "Apenas em " + name2 + ": " + p;
    if |name1| != |name2| {
      assert |x| != |y|;
    } else {
      var i :| 0 <= i < |name1| && name1[i] != name2[i];
      assert x[10 + i] == name1[i] && y[10 + i] == name2[i];
    }
  }

  /** A warning about entries only in one folder, or about files that differ, ends
      with the entry's shown path; a type mismatch ends with the kind of the entry
      in the second folder. */
  lemma MessageEnds(f: Finding, name1: string, name2: string)
    ensures !f.kind.DirVsFile? && !f.kind.FileVsDir? ==>
      EndsWith(Message(f, name1, name2), ShownPath(f.dir, f.item))
    ensures f.kind.DirVsFile? ==> EndsWith(Message(f, name1, name2), " é arquivo")
    ensures f.kind.FileVsDir? ==> EndsWith(Message(f, name1, name2), " é pasta")
  {
    var m := Message(f, name1, name2);
    var p := ShownPath(f.dir, f.item);
    if f.kind.DirVsFile? {
      assert m[|m| - |" é arquivo"|..] == " é arquivo";
    } else if f.kind.FileVsDir? {
      assert m[|m| - |" é pasta"|..] == " é pasta";
    } else {
      assert m[|m| - |p|..] == p;
    }
  }
}
