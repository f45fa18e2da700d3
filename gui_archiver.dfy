/** `FileArchiver` of `arquiva_email_gui.py`: like the plain mail archiver, it moves
    the files directly inside the watch folder, but it also stops when the archive
    root is missing and it filters no file by extension. */
module GuiArchiver {
  import opened Text
  import opened Archive
  import MailArchiver

  /** `process_files` of lines 45-62. */
  function GuiRun(disk: Disk, watch: Path, root: Path, listdir: (Disk, Path) -> seq<string>, env: Env): Run
  {
    if !Exists(disk, watch) || !Exists(disk, root) then Run(disk, [])
    else MailArchiver.ListingRun(disk, watch, root, Listing(disk, watch, listdir), false, env)
  }

  method ProcessFiles(disk: Disk, watch: Path, root: Path, listdir: (Disk, Path) -> seq<string>, env: Env)
    returns (r: Run)
    ensures r == GuiRun(disk, watch, root, listdir, env)
  {
    r := Run(disk, []);
    if Exists(disk, watch) && Exists(disk, root) {
      var names := if watch in disk.dirs then listdir(disk, watch) else [];
      for i := 0 to |names|
        invariant r == MailArchiver.ListingRun(disk, watch, root, names[..i], false, env)
      {
        assert names[..i + 1][..i] == names[..i];
        var p := watch + [names[i]];
        if p in r.disk.files {
          r := Run(ProcessFile(r.disk, root, p, false, env), r.processed + [p]);
        }
      }
      assert names[..|names|] == names;
    }
  }

  /** With the watch folder or the archive root missing nothing is moved; otherwise
      every listed file directly in the watch folder, a sync database included, is
      handled, and nothing else is. */
  lemma GuiRunFacts(disk: Disk, watch: Path, root: Path, listdir: (Disk, Path) -> seq<string>, env: Env, n: string)
    ensures !Exists(disk, watch) || !Exists(disk, root) ==> GuiRun(disk, watch, root, listdir, env) == Run(disk, [])
    ensures forall p :: p in GuiRun(disk, watch, root, listdir, env).processed ==> Parent(p) == watch
    ensures Exists(disk, root) && watch in disk.dirs && n in listdir(disk, watch) && watch + [n] in disk.files ==>
      watch + [n] in GuiRun(disk, watch, root, listdir, env).processed
  {
    if Exists(disk, watch) && Exists(disk, root) {
      var names := Listing(disk, watch, listdir);
      forall p | p in GuiRun(disk, watch, root, listdir, env).processed ensures Parent(p) == watch {
        MailArchiver.ListingRunProcessed(disk, watch, root, names, false, env, p);
      }
      if watch in disk.dirs && n in names && watch + [n] in disk.files {
        MailArchiver.ListingRunComplete(disk, watch, root, names, false, env, n);
      }
    }
  }
}
