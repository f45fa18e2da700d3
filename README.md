# backup_mensagens in Dafny

A model of the file-organizing utilities of `backup_mensagens` and proofs about them. The scripts are:

- the `.eml` renamer;
- the numbered-message gap checker, in its two versions;
- the flat and the recursive folder comparisons;
- the four archivers, which file messages and documents into `YYYY/YYYY-MM` folders.

Each script is one Dafny module:

| module | file | script |
|---|---|---|
| `EmlRenamer` | `eml_renamer.dfy` | `renomear_eml.py` |
| `MessageReport` | `message_report.dfy` | report helpers of `relatorio_mensagens.py` |
| `MessageCounter` | `message_counter.dfy` | `contador_mensagens.py` |
| `FolderDiff` | `folder_diff.dfy` | `pastas_diff.py` |
| `TreeDiff` | `tree_diff.dfy` | `arvore_diff.py` |
| `RootMover` | `root_mover.dfy` | `arquiva_raiz.py` |
| `SubfolderArchiver` | `subfolder_archiver.dfy` | `arquiva_subpastas.py` |
| `MailArchiver` | `mail_archiver.dfy` | `arquiva_email.py` |
| `GuiArchiver` | `gui_archiver.dfy` | `arquiva_email_gui.py` |

Shared modules:

- `Wrappers` holds `Option` and `Result`.
- `Text` holds the Python built-ins the scripts rely on: ASCII digits, `int()` of a digit run, `str()` of an integer, `str.lower()`, `endswith`, `join` and `sorted`.
- `Archive` holds what the four archivers share:
  - a disk of folders and files addressed by component paths;
  - `shutil.move`, `os.makedirs` and `os.path.splitext` on that disk;
  - the `YYYY/YYYY-MM` folders;
  - the timestamped name used when a destination is taken;
  - `move_file_to_archive`.

**How the model is built:**

- Pure steps of the code are functions: the sanitizer, the leading-number parser, the report builders, the tree comparison and the destination rules.
- Loops become methods, each proved equal to a specification function. These include:
  - the suffix search;
  - the classification loops;
  - the walks of the archivers;
  - the empty-folder removal.
- The renamer's counters and folder contents are the fields of a class, `EmlRenamer.Renamer`. Its methods are proved against step functions on a snapshot of those fields.
- The mail archiver's `last_processed_type` is a field of `MailArchiver.FileArchiver`.
- The properties are lemmas about the specification functions.

**Behaviour worth knowing.** The proofs show the following about the code as written:

- **The timestamped name is tried once and never re-checked.** When both `name` and `name_<timestamp>` are already in the archive folder, the moved file replaces the file under the timestamped name (`Archive.SecondCollisionReplaces`).
- **`arquiva_email.py` has no "already in place" check.** A file that already sits in its archive folder is therefore moved again, to its timestamped name in the same folder (`MailArchiver.InPlaceFileIsRenamed`).
- **A file named exactly `.eml` loses its extension.** It is processed by the renamer, because the name ends in `.eml`. But `Path.suffix` of that name is empty, so the new name has no extension (`EmlRenamer.BareEmlLosesExtension`).
- **The two gap checkers validate their inputs in different orders,** so the same input can get different errors (`MessageCounter.CheckOrderDiffers`). `contador_mensagens.py` also counts folders as entries, while `relatorio_mensagens.py` looks at files only.
- **No noise prefix is stripped from a subject.** `sanitize_filename_part` replaces reserved characters, squeezes white space and underscores, strips `_` and caps the length; it removes nothing else (`EmlRenamer.SanitizePart`).
- **Leading zeros are kept.** The sanitizer leaves a leading digit run such as `007` as written, and the archivers keep a file's name, or stamp it, without touching its digits (`EmlRenamer.SanitizePart`, `Archive.StampedNameFacts`).
- **The only length limit is the 60-character cap on each sanitized part.** No budget is kept for the whole name or path (`EmlRenamer.CapLength`, `EmlRenamer.NewBaseName`).
- **The renamer tries at most 100 names in `Duplicatas` and `Problemas`.** It checks the name itself, then `_1` up to `_99`. It builds `_100` but gives up before checking it, and the file is left where it is (`EmlRenamer.FirstFreeFromCorrect`).
- **The archivers make one timestamp attempt.** A taken name gets a single `_<timestamp>` candidate, with no counter and no further check (`Archive.Destination`).
- **The renamer's "not a valid folder" error is never reached from `main_gui_flow`.** `__init__` already makes the base folder, or fails when the base path is a regular file (`EmlRenamer.Renamer.Create`), before `run` checks it.
- **A second collision overwrites.** Because of that single attempt, a file already stored under the timestamped name is replaced (`Archive.SecondCollisionReplaces`).

## Model

| member | source | states |
|---|---|---|
| EmlRenamer.ReplaceReserved | renomear_eml.py:78 | every reserved or control character becomes `_`, and every other character stays in place |
| EmlRenamer.Squeeze | renomear_eml.py:79 | collapsing the `[\s_]+` runs never lengthens the text; what each run becomes is stated by `EmlRenamer.SqueezeRunBetween`, `EmlRenamer.SqueezeAtNonRun` and `EmlRenamer.SqueezeAllRun` |
| EmlRenamer.SqueezeAllRun | renomear_eml.py:79 | a text made only of white space and `_` becomes one `_`, or nothing when it continues a run already replaced |
| EmlRenamer.SqueezeAtNonRun | renomear_eml.py:79 | a character outside the runs stays in place: squeezing around it squeezes the text before it and the text after it separately |
| EmlRenamer.SqueezeRunBetween | renomear_eml.py:79 | a maximal run of white space and `_` between two other characters becomes exactly one `_` between them |
| EmlRenamer.StripLeading | renomear_eml.py:80 | the result is a suffix of the input that does not start with `_`, and everything dropped before it is `_`; it is empty exactly when the input is all underscores |
| EmlRenamer.StripTrailing | renomear_eml.py:80 | the result is a prefix of the input that does not end with `_`, and everything dropped after it is `_`; it is empty exactly when the input is all underscores |
| EmlRenamer.LastIndexOf | renomear_eml.py:86 | the index holds the character, and no later index does (`rsplit(c, 1)`) |
| EmlRenamer.CapLength | renomear_eml.py:82-88 | texts of at most 60 characters are untouched; a longer one is cut to 60, then before the last `_` among those 60 if there is one |
| EmlRenamer.FallbacksAreClean | renomear_eml.py:22-23 | both fallback names are themselves clean parts |
| EmlRenamer.SanitizePart | renomear_eml.py:73-92 | `None` or empty input gives "Desconhecido"; every result is clean: non-empty, at most 60 characters, no reserved or control character, no white space, no `__`, no `_` at either end |
| EmlRenamer.SqueezeShape | renomear_eml.py:79 | after squeezing, no white space remains and no two underscores are adjacent |
| EmlRenamer.CleanedIsTidy | renomear_eml.py:78-80 | replace, squeeze and strip give text with no reserved character, no white space, no `__` and no `_` at either end |
| EmlRenamer.CapKeepsTidy | renomear_eml.py:82-88 | capping keeps a tidy text tidy and does not make a non-empty text empty |
| EmlRenamer.CappedIsClean | renomear_eml.py:82-92 | the capped text is empty exactly when the cleaned text is, and otherwise it is a clean part |
| EmlRenamer.CleanedEmptyIff | renomear_eml.py:78-80 | cleaning removes everything exactly when every character is reserved, white space or `_` |
| EmlRenamer.AllUnderscoresIff | renomear_eml.py:79 | the squeezed text is all underscores exactly when the input was all run characters |
| EmlRenamer.SqueezeKeepsTidy | renomear_eml.py:79 | a text without white space and without `__` is a fixed point of squeezing |
| EmlRenamer.CleanPartIsFixedPoint | renomear_eml.py:73-92 | sanitizing a clean part returns it unchanged |
| EmlRenamer.SanitizeIdempotent | renomear_eml.py:73-92 | sanitizing twice gives the same as sanitizing once |
| EmlRenamer.InvalidoExactlyWhenNothingSurvives | renomear_eml.py:90-92 | a non-empty text gives "Invalido" when it is made only of reserved characters, white space and `_`; otherwise it gives its cleaned and capped form, a prefix of the cleaned text |
| EmlRenamer.RFindDot | renomear_eml.py:256 | the index of the last dot, or -1 exactly when there is no dot |
| EmlRenamer.Suffix | renomear_eml.py:256 | `Path.suffix`; stated by `EmlRenamer.StemSuffixSplit` and `EmlRenamer.SuffixOfAppended`: a dot and what follows it up to the end, with no further dot |
| EmlRenamer.Stem | renomear_eml.py:171 | `Path.stem`; stated by `EmlRenamer.StemSuffixSplit`: the stem followed by the suffix is the name |
| EmlRenamer.StemSuffixSplit | renomear_eml.py:171-174 | stem followed by suffix is the name; a non-empty suffix is a dot and at least one more character, with no further dot |
| EmlRenamer.SuffixOfAppended | renomear_eml.py:256 | appending a suffix to a non-empty base gives a name with exactly that suffix |
| EmlRenamer.FirstFreeFrom | renomear_eml.py:202-210 | the suffix search; stated by `EmlRenamer.FirstFreeFromCorrect`, `EmlRenamer.FirstFreeIsFirst` and `EmlRenamer.HundredthNeverTried`, and computed by `EmlRenamer.FindFreeName` |
| EmlRenamer.FirstFreeFromCorrect | renomear_eml.py:202-212 | the search gives up exactly when every candidate up to `base_99` is taken, and a name it returns is free |
| EmlRenamer.FirstFreeIsFirst | renomear_eml.py:202-207 | the first free candidate in the order `base`, `base_1`, `base_2`, … is the one chosen |
| EmlRenamer.HundredthNeverTried | renomear_eml.py:206-210 | `base_100` is never chosen, because the loop aborts before trying it |
| EmlRenamer.FirstFreeCandidate | renomear_eml.py:202-207 | whatever is found is a candidate numbered below 100 |
| EmlRenamer.CandidatesDistinct | renomear_eml.py:206 | different counters give different candidate names |
| EmlRenamer.FindFreeName | renomear_eml.py:202-212 | the `while exists` loop returns what the search specifies, after 1 to 100 existence checks; a found name is the candidate of the last check, and no name is found only after all 100 checks |
| EmlRenamer.NewBaseName | renomear_eml.py:255 | stated by `EmlRenamer.NewBaseNameShape` |
| EmlRenamer.NewBaseNameShape | renomear_eml.py:252-255 | the base name starts with the date and " - ", ends with the sanitized sender after the last space, and is 8 to 126 characters longer than the date |
| EmlRenamer.Decide | renomear_eml.py:255-278 | stated by `EmlRenamer.DecideFacts`, `EmlRenamer.DecideHeaders` and `EmlRenamer.RenameIsSafeAndStable`: an unreadable message goes to `Problemas`; a free new name is renamed to; a taken one is kept when it is the file itself, and otherwise the file goes to `Duplicatas` |
| EmlRenamer.RenameIsSafeAndStable | renomear_eml.py:255-273 | a rename never lands on an existing entry and keeps the `.eml` ending, and processing the renamed file again leaves it alone |
| EmlRenamer.EmlSuffix | renomear_eml.py:256 | an accepted name longer than ".eml" has its last four characters as its suffix |
| EmlRenamer.BareEmlLosesExtension | renomear_eml.py:297 | the name ".eml" is accepted for processing but has an empty suffix |
| EmlRenamer.ActionForCases | renomear_eml.py:290-299 | a file is processed exactly when its name ends in ".eml" in any case, and folders never are; exactly the three special folders are skipped without being counted |
| EmlRenamer.DecideFacts | renomear_eml.py:255-265 | a message goes to `Problemas` exactly when it cannot be read; a rename target is the new name and is free; a free new name is always renamed to; a taken new name keeps the file exactly when it is the file's own name or resolves to it, and otherwise sends the file to `Duplicatas` under the new base name |
| EmlRenamer.DecideHeaders | renomear_eml.py:252-265 | for a readable message, the decision in full: taken by the file itself, keep; taken by another entry, `Duplicatas` with the new base name; free, rename to it |
| EmlRenamer.EmlStep | renomear_eml.py:219-278 | stated by `EmlRenamer.EmlStepKeepsEveryFile`, `EmlRenamer.EmlStepOutcomes` and `EmlRenamer.EmlStepDateErrors` |
| EmlRenamer.DuplicateStep | renomear_eml.py:191-217 | stated by `EmlRenamer.DuplicateStepKeepsEveryFile` |
| EmlRenamer.ProblemStep | renomear_eml.py:150-189 | stated by `EmlRenamer.ProblemStepKeepsEveryFile` and `EmlRenamer.ProblemStepCountsError` |
| EmlRenamer.RunSteps | renomear_eml.py:290-301 | stated by `EmlRenamer.RunKeepsEveryFile` and `EmlRenamer.RunCountsSkipped`, and computed by `EmlRenamer.Renamer.Run` |
| EmlRenamer.EmlStepKeepsEveryFile | renomear_eml.py:219-278 | processing one message keeps the state consistent, loses or overwrites no file, moves only that file, creates only the special folders, and counts a move exactly when the file left the base folder |
| EmlRenamer.ApplyKeepsEveryFile | renomear_eml.py:259-276 | carrying out any decision keeps every file; a problem decision always adds an error |
| EmlRenamer.DuplicateStepKeepsEveryFile | renomear_eml.py:191-217 | the duplicate handler keeps the state consistent and the number of held files, and either takes only that file out of the base folder, counting one move, or leaves the base folder as it was |
| EmlRenamer.ProblemStepKeepsEveryFile | renomear_eml.py:150-189 | the problem handler always counts an error, keeps the number of held files, and either takes only that file out of the base folder, counting one move, or leaves the base folder as it was |
| EmlRenamer.EmlStepOutcomes | renomear_eml.py:252-278 | an unreadable message always adds an error; a readable one whose new name is free is renamed and `renamed_count` grows by one; one whose new name is its own only has its date errors counted; one whose new name is another entry's goes through `_handle_duplicate_file` with the new base name |
| EmlRenamer.EmlStepDateErrors | renomear_eml.py:133-145 | the date errors of a readable message are always added to `error_count`, and nothing else is added unless the file goes to `Duplicatas` |
| EmlRenamer.WithDateErrors | renomear_eml.py:133-145 | stated by `EmlRenamer.EmlStepDateErrors` and `EmlRenamer.EmlStepOutcomes` |
| EmlRenamer.Apply | renomear_eml.py:259-276 | stated by `EmlRenamer.ApplyKeepsEveryFile` and `EmlRenamer.ApplyErrors` |
| EmlRenamer.ApplyErrors | renomear_eml.py:259-276 | keeping the name or renaming adds no error, and the move to `Duplicatas` never removes one |
| EmlRenamer.ProblemBaseName | renomear_eml.py:171-172 | stated by `EmlRenamer.ProblemBaseNameShape` |
| EmlRenamer.ProblemBaseNameShape | renomear_eml.py:171-172 | the name in `Problemas` is the modification date, " - ERRO_LEITURA - " and the sanitized stem, which is a clean part |
| EmlRenamer.ActionFor | renomear_eml.py:290-299 | stated by `EmlRenamer.ActionForCases` |
| EmlRenamer.ProblemStepCountsError | renomear_eml.py:152-153 | the problem handler counts an error whatever follows |
| EmlRenamer.RunKeepsEveryFile | renomear_eml.py:290-301 | a whole run loses no file, and files not listed or not ending in ".eml" stay; it performs at most one move per listed entry and never lowers the error count |
| EmlRenamer.RunCountsSkipped | renomear_eml.py:290-299 | when the listing names each entry of the folder once, the skip counter grows by the number of ordinary folders and non-".eml" files in it |
| EmlRenamer.Summary | renomear_eml.py:307-317 | `_generate_summary`, a text format with no property of its own; `EmlRenamer.Renamer.Run` states that the counters it reports are the final ones |
| EmlRenamer.Renamer.constructor | renomear_eml.py:42-47 | the object holds the given entries and all five counters start at zero; `EmlRenamer.Renamer.Create` adds what `__init__` does to the folder |
| EmlRenamer.Renamer.Create | renomear_eml.py:34-53 | `__init__` fails when the base path or `LOGS_RENOMEAR_EML` is a regular file; otherwise the counters start at zero and `LOGS_RENOMEAR_EML` is among the base folder's folders |
| EmlRenamer.Renamer.HandleDuplicate | renomear_eml.py:191-217 | the fields change as the duplicate handler specifies |
| EmlRenamer.Renamer.MoveIntoDuplicates | renomear_eml.py:212-214 | a found name moves the file into `Duplicatas` and counts it |
| EmlRenamer.Renamer.HandleProblematic | renomear_eml.py:150-189 | the fields change as the problem handler specifies |
| EmlRenamer.Renamer.MoveIntoProblems | renomear_eml.py:184-186 | a found name moves the file into `Problemas` and counts it |
| EmlRenamer.Renamer.ApplyDecision | renomear_eml.py:259-276 | the fields change as the decision specifies |
| EmlRenamer.Renamer.ProcessSingleEml | renomear_eml.py:219-278 | the fields change as processing one message specifies |
| EmlRenamer.Renamer.HandleEntry | renomear_eml.py:291-301 | one loop iteration of `run` |
| EmlRenamer.Renamer.Run | renomear_eml.py:280-305 | a base that is not a folder gives the error "O caminho selecionado não é uma pasta válida: " followed by the path, and changes nothing (`Err(m)` stands for the returned text `"ERRO: " + m`); otherwise the fields end as the run specifies, and the summary reports those counters |
| MessageReport.ValidateInputs | relatorio_mensagens.py:253-271 | an empty path and a missing folder give their errors; success holds exactly for a folder with two parsed bounds where the first is at most the last, and then those values are returned |
| MessageReport.LeadingDigits | relatorio_mensagens.py:276 | the longest digit prefix: all digits, followed by a non-digit or by the end |
| MessageReport.LeadingNumber | relatorio_mensagens.py:274-279 | `None` exactly when the name does not start with a digit; otherwise the value of the leading digit run |
| MessageReport.LeadingNumberOfWritten | relatorio_mensagens.py:274-279 | a written number followed by a non-digit reads back as that number |
| MessageReport.ProcessFolderFiles | relatorio_mensagens.py:282-300 | the loop yields the found numbers, the unnumbered names in listing order, and the sorted out-of-range numbers |
| MessageReport.FilesPartition | relatorio_mensagens.py:293-298 | every file counts on exactly one side, and folders on neither |
| MessageReport.FoundNumbers | relatorio_mensagens.py:288-294 | stated by `MessageReport.FoundNumbersExactly` and `MessageReport.FilesPartition` |
| MessageReport.UnnumberedFiles | relatorio_mensagens.py:288-298 | stated by `MessageReport.UnnumberedExactly` and `MessageReport.FilesPartition` |
| MessageReport.FoundNumbersExactly | relatorio_mensagens.py:288-294 | a number is found exactly when some file starts with it |
| MessageReport.UnnumberedExactly | relatorio_mensagens.py:288-298 | a name is listed as unnumbered exactly when it is a file that does not start with a number |
| MessageReport.OutOfRangeContents | relatorio_mensagens.py:295-296 | the out-of-range entries are exactly the found numbers outside the range, with at most one entry per numbered file |
| MessageReport.ReportedOutOfRange | relatorio_mensagens.py:295-300 | the reported out-of-range list is ascending and holds those same numbers |
| MessageReport.RepeatedNumberExample | relatorio_mensagens.py:294-296 | two files starting with 7 give one found number but two out-of-range entries |
| MessageReport.MissingNumbers | relatorio_mensagens.py:303-305 | stated by `MessageReport.MissingNumbersExactly` and `MessageReport.MissingExtremes` |
| MessageReport.MissingNumbersExactly | relatorio_mensagens.py:303-305 | the missing list is strictly ascending, inside the range, and holds exactly the range's numbers that were not found; an empty range gives nothing |
| MessageReport.MissingExtremes | relatorio_mensagens.py:303-305 | nothing is missing when all numbers are found, and the whole range is missing when none is |
| MessageReport.FormatSection | relatorio_mensagens.py:308-318 | the heading line is first; then the fallback for an empty list, one ", "-joined line for numbers, or one line per name in order |
| MessageReport.ReportLines | relatorio_mensagens.py:321-352 | stated by `MessageReport.ReportLayout` |
| MessageReport.ReportContent | relatorio_mensagens.py:350-352 | stated by `MessageReport.ReportLayout` |
| MessageReport.ReportLayout | relatorio_mensagens.py:330-352 | the report is the header, then the missing, out-of-range and unnumbered sections, in order, joined with line breaks; every unnumbered name is a line |
| MessageReport.CheckFolder | relatorio_mensagens.py:371-397 | a report is produced exactly when validation succeeds; otherwise the result is the validation message |
| MessageCounter.DigitPrefix | contador_mensagens.py:33-40 | the character loop collects exactly the longest digit prefix |
| MessageCounter.ClassifyEntries | contador_mensagens.py:32-45 | a number is found exactly when some listed entry starts with it, and an entry is listed as unnumbered exactly when it does not start with a digit; both equal the shared classification over all entries |
| MessageCounter.ListedNamesClassified | contador_mensagens.py:28-45 | over every listed entry, folders included, a number is found exactly when some entry starts with it, and the unnumbered entries are exactly those not starting with a digit |
| MessageCounter.MissingInRange | contador_mensagens.py:48-51 | the `range` loop builds exactly the missing list (ascending, only the naturals absent from the set) |
| MessageCounter.CounterValidate | contador_mensagens.py:13-26 | bad numbers give the integer error; success holds exactly for parsed bounds in order and an existing folder |
| MessageCounter.SameAcceptance | contador_mensagens.py:13-26 | for a non-empty path both versions accept the same inputs, producing the same range |
| MessageCounter.CheckOrderDiffers | contador_mensagens.py:13-26 | a missing folder with bad numbers is a number error here but a folder error in the other version |
| MessageCounter.CounterLines | contador_mensagens.py:54-69 | stated by `MessageCounter.CounterReportIsReportWithoutOutOfRange` |
| MessageCounter.CounterReportIsReportWithoutOutOfRange | contador_mensagens.py:54-69 | this report is the other version's report with the out-of-range section taken out |
| MessageCounter.VerifyFiles | contador_mensagens.py:11-77 | fails exactly when validation fails, with its message; otherwise returns the report of the missing numbers and unnumbered names |
| FolderDiff.FilesInFolder | pastas_diff.py:72-87 | the two nested walk loops produce the specified relative paths, in walk order |
| FolderDiff.WalkPaths | pastas_diff.py:76-83 | stated by `FolderDiff.WalkPathsExactly`, and computed by `FolderDiff.FilesInFolder` |
| FolderDiff.NamePathsExactly | pastas_diff.py:77-83 | a path is listed exactly when a kept file of that folder has it |
| FolderDiff.WalkPathsExactly | pastas_diff.py:76-83 | a path is listed exactly when some walk step lists it |
| FolderDiff.SyncDatabaseOnly | pastas_diff.py:79-80 | ".ffs_db" and ".FFS_DB" are dropped, "a.ffs_db" is kept, and a file in a sub-folder is listed as "sub/x.txt" |
| FolderDiff.LogFileListed | pastas_diff.py:20-38 | the log file made in `<folder 1>/ERROS` before the walks is listed as `ERROS/comparison_failures_<stamp>.log`, and is exclusive to folder 1 unless folder 2 has the same path |
| FolderDiff.Compare | pastas_diff.py:98-103 | stated by `FolderDiff.ComparePartitions` and `FolderDiff.CompareSwap` |
| FolderDiff.ComparePartitions | pastas_diff.py:98-103 | the two exclusive sets and the common set are pairwise disjoint; they rebuild both sides, and the totals add up |
| FolderDiff.CompareSwap | pastas_diff.py:102-103 | swapping the folders swaps the exclusive sets and keeps the common one |
| FolderDiff.ExclusiveLinesExactly | pastas_diff.py:118-122 | a section lists each exclusive path once, in ascending order, and nothing else; an empty one shows the fallback line |
| FolderDiff.CompareFolders | pastas_diff.py:89-145 | the error text is returned exactly when a folder is not selected |
| FolderDiff.ReportLines | pastas_diff.py:107-143 | stated by `FolderDiff.ReportLinesShape` and `FolderDiff.ExclusiveLinesExactly` |
| FolderDiff.ReportLinesShape | pastas_diff.py:107-143 | the title comes first and each exclusive section sits between its fixed lines, with 17 fixed lines in all |
| FolderDiff.SaveReport | pastas_diff.py:152-169 | without folder 1 nothing is saved; a path is returned exactly when the write succeeds, namely the report file in folder 1 |
| TreeDiff.LevelFindings | arvore_diff.py:50-80 | stated by `TreeDiff.LevelMembership` and `TreeDiff.ImmediateFindings` |
| TreeDiff.Diff | arvore_diff.py:41-80 | stated by `TreeDiff.FindingsBelow`, `TreeDiff.NestedFinding`, `TreeDiff.SubfolderFindingsIncluded`, `TreeDiff.DiffSwap` and `TreeDiff.DiffSelfEmpty` |
| TreeDiff.CompareDirectories | arvore_diff.py:36-39 | stated by `TreeDiff.CompareDirectoriesSymmetry` |
| TreeDiff.SwapKind | arvore_diff.py:77-80 | swapping sides keeps "different files" and nothing else fixed |
| TreeDiff.FindingsBelow | arvore_diff.py:66-72 | every finding lies at or below the folder compared; a deeper one lies in a name that is a folder on both sides |
| TreeDiff.NestedFinding | arvore_diff.py:70-72 | a deeper finding comes from comparing the subfolder named next on its path |
| TreeDiff.LevelMembership | arvore_diff.py:50-80 | a finding at the folder's own level is reported exactly when the entry's kind says so |
| TreeDiff.ImmediateFindings | arvore_diff.py:51-80 | at each level exactly these are reported: names on one side only, common files with different contents, and a folder facing a file in either direction |
| TreeDiff.SubfolderFindingsIncluded | arvore_diff.py:70-72 | the comparison recurses into every name that is a folder on both sides |
| TreeDiff.EntryKindSwap | arvore_diff.py:51-52 | swapping the trees swaps the kind of each entry's finding |
| TreeDiff.DiffSwap | arvore_diff.py:41-80 | a finding is reported for (t1, t2) exactly when its swapped form is reported for (t2, t1) |
| TreeDiff.DiffSelfEmpty | arvore_diff.py:41-80 | a tree compared with itself reports nothing |
| TreeDiff.CompareDirectoriesSymmetry | arvore_diff.py:36-39 | the swapped comparison gives the swapped findings, and a tree compared with itself gives none |
| TreeDiff.ShownPathLevels | arvore_diff.py:43-44 | the top folder is shown as a folder named "."; an entry one level down is shown as "folder/name"; every shown path ends with "/" and the entry's name |
| TreeDiff.Message | arvore_diff.py:55-80 | stated by `TreeDiff.MessagesDistinguishKinds` and `TreeDiff.MessageEnds` |
| TreeDiff.MessagesDistinguishKinds | arvore_diff.py:55-80 | two findings about one entry with different kinds give different warnings, when the two folders have different names |
| TreeDiff.MessageEnds | arvore_diff.py:55-80 | a one-sided or different-files warning ends with the shown path; a type mismatch ends with what the entry is in the second folder |
| TreeDiff.MessageHead | arvore_diff.py:55-80 | each kind of warning starts with its own two letters, and the two type mismatches differ where the first entry's type is named |
| TreeDiff.OnlyInNames | arvore_diff.py:55-60 | the "Apenas em" warnings of the two folders differ when the folders' names differ |
| Archive.Move | arquiva_subpastas.py:183-191 | `shutil.move` inside `try`; stated by `Archive.MoveFacts`: a failed move changes nothing, a successful one carries the data to its target and nothing else moves |
| Archive.MakeDirs | arquiva_subpastas.py:166 | `os.makedirs` on a missing path, the only way it is called (behind `if not os.path.exists`); stated by `Archive.EnsureFolderFacts`: it fails exactly when an ancestor is a file, and otherwise leaves the path a folder and the files untouched |
| Archive.EnsureFolder | arquiva_subpastas.py:165-171 | `if not exists: makedirs`; stated by `Archive.EnsureFolderFacts`: it fails exactly when the path is missing and an ancestor is a file |
| Archive.MoveFacts | arquiva_subpastas.py:183-191 | a move never changes folders; a move without a target (missing source, name taken in the destination folder, or a parent that is missing or a regular file) changes nothing; otherwise the target holds the source's data, the source is gone unless it is the target, and every other file keeps its place and data |
| Archive.EnsureFolderFacts | arquiva_subpastas.py:165-171 | creating the folder fails exactly when it is missing and an ancestor is a file; success changes no file, loses no folder, and leaves the path a folder |
| Archive.EnsureFolderNoFolderOnFile | arquiva_subpastas.py:165-171 | creating a folder changes no file and never puts a folder where a file is |
| Archive.ProcessFileNoFolderOnFile | arquiva_subpastas.py:163-171 | handling a file never turns the path of another file into a folder |
| Archive.SetUpLogFolder | arquiva_email.py:16-18 | stated by `Archive.SetUpLogFolderFacts` |
| Archive.SetUpLogFolderFacts | arquiva_email.py:16-24 | the archivers' set-up fails exactly when the log folder's path is a regular file or is missing below one; otherwise the log folder is a folder, no file changes, and only it and its missing ancestors are made |
| Archive.FixedDigits | arquiva_subpastas.py:130-131 | `%Y` and `%m` give exactly that many digits |
| Archive.FixedDigitsRoundTrip | arquiva_subpastas.py:130-131 | the padded digits read back as the number |
| Archive.YearMonthRoundTrip | arquiva_subpastas.py:130-131 | the `YYYY-MM` name parses back to the date and begins with the year folder's name |
| Archive.ArchiveFolderFacts | arquiva_subpastas.py:132-133 | distinct dates have distinct archive folders, inside a year folder of the archive root |
| Archive.SplitExt | arquiva_subpastas.py:178 | `os.path.splitext`; stated by `Archive.SplitExtFacts`: the parts rebuild the name, and an empty extension means every dot after the first character has only dots before it |
| Archive.SplitExtFacts | arquiva_subpastas.py:178 | base and extension rebuild the name; an extension is a last dot with no dot after it, after a base that is not only dots |
| Archive.StampedName | arquiva_subpastas.py:177-178 | stated by `Archive.StampedNameFacts`: the timestamped name is a new name with the same extension and the same base |
| Archive.StampedNameFacts | arquiva_subpastas.py:176-179 | the timestamped name differs from the name, keeps its extension and starts with its base |
| Archive.Destination | arquiva_subpastas.py:173-179 | stated by `Archive.DestinationFacts` and `Archive.SecondCollisionReplaces`: the name when free, else the timestamped name, which is not checked again |
| Archive.DestinationFacts | arquiva_subpastas.py:173-179 | the destination lies in the archive folder; it keeps the file's name exactly when that name is free there, and the extension is always kept |
| Archive.MoveFileToArchive | arquiva_subpastas.py:163-191 | stated by `Archive.MoveFileToArchiveFacts`, `Archive.MoveFileToArchiveLands`, `Archive.ArchiveFolderIsFileKeepsFiles` and `Archive.MoveFileToArchiveKeepsOthers`: both folders are made, the file lands at its destination, and no other file outside the folder moves |
| Archive.MoveFileToArchiveFacts | arquiva_subpastas.py:163-191 | afterwards the year and year-month folders exist, and the file has been moved to its destination |
| Archive.MoveFileToArchiveLands | arquiva_subpastas.py:163-191 | when no ancestor of the archive folder is a file and the destination is not a folder, the file's data is at the destination afterwards, and the old path is gone unless it is the destination |
| Archive.ArchiveFolderIsFileKeepsFiles | arquiva_subpastas.py:173-191 | when the archive folder is itself a regular file (with no folder under it), `os.path.exists` skips `makedirs`, the move into it fails, and every file keeps its path and data |
| Archive.SecondCollisionReplaces | arquiva_subpastas.py:176-184 | when the name and the timestamped name are both taken, the moved file replaces the file under the timestamped name |
| Archive.FileDate | arquiva_subpastas.py:76-151 | stated by `Archive.ProcessFileDate`: the message date, the current date when there is none, or the modification date for a file not ending in ".eml" |
| Archive.ProcessFile | arquiva_subpastas.py:76-161 | stated by `Archive.ProcessFileDate`, `Archive.ProcessFileOutcome`, `Archive.ProcessFileKeepsOthers` and `Archive.ProcessFileKeepsFolders` |
| Archive.ProcessFileDate | arquiva_subpastas.py:76-151 | for a name ending in ".eml" in any case: an unreadable message leaves the disk as it was, a header date decides the folder, and a message without a usable date uses the current date; any other file uses its modification date |
| Archive.ProcessFileOutcome | arquiva_subpastas.py:76-161 | when the archive path has no file on it, the destination is not a folder, and the in-place test does not skip it, the file's data sits afterwards at the destination, whose parent is the archive folder of the file's date, and the file is gone from its old path |
| Archive.MoveFileToArchiveKeepsOthers | arquiva_subpastas.py:163-191 | archiving one file leaves every other file outside its archive folder where it was, with its data |
| Archive.ProcessFileKeepsOthers | arquiva_subpastas.py:76-161 | handling one file leaves every other file outside the archive folders where it was, with its data |
| Archive.ProcessFileKeepsPresent | arquiva_subpastas.py:76-161 | handling one file leaves the path of every other file a file, inside the archive folders too: a move removes only its source |
| Archive.ProcessFileKeepsFolders | arquiva_subpastas.py:163-171 | handling a file removes no folder, and creates folders at most two levels below the archive root |
| RootMover.MoveWalk | arquiva_raiz.py:44-70 | stated by `RootMover.MoveWalkEmpties`, `RootMover.MoveWalkOnlyIntoRoot`, `RootMover.MoveWalkShelters` and `RootMover.MoveWalkDirs` |
| RootMover.RemoveWalk | arquiva_raiz.py:76-88 | stated by `RootMover.RemoveWalkFrame`, `RootMover.RemoveWalkKeeps`, `RootMover.RemoveWalkRemovesEmpty` and `RootMover.RemoveChain` |
| RootMover.MoveFilesRun | arquiva_raiz.py:36-88 | stated by `RootMover.MoveFilesFlattens` and `RootMover.MoveFilesShelters`, and computed by `RootMover.MoveFiles` |
| RootMover.MoveFolderFiles | arquiva_raiz.py:51-70 | the per-file loop equals the specified moves of that folder's files |
| RootMover.RemoveEmptySubfolders | arquiva_raiz.py:80-88 | the per-folder loop equals the specified removals |
| RootMover.RemoveEmptyFolders | arquiva_raiz.py:76-88 | the bottom-up walk equals the specified removals |
| RootMover.MoveFiles | arquiva_raiz.py:36-74 | the whole method equals the specified run: moving, then removing empty folders |
| RootMover.StampedNeverExcluded | arquiva_raiz.py:56-60 | a timestamped name is never "erros" or "anos anteriores" |
| RootMover.MoveOneOutcome | arquiva_raiz.py:52-70 | a file goes to `root/name` when that name is free there, otherwise to the timestamped name, and its source is gone |
| RootMover.MoveOneShelters | arquiva_raiz.py:52-70 | one move keeps every root file, and every file of a pruned folder with its data |
| RootMover.MoveNamesShelters | arquiva_raiz.py:51-70 | a folder's loop keeps every root file, and every file of a pruned folder with its data |
| RootMover.MoveWalkShelters | arquiva_raiz.py:44-70 | no file is taken from the root or from below an "erros"/"anos anteriores" folder, and the latter keep their data |
| RootMover.RemoveWalkFrame | arquiva_raiz.py:76-88 | removal never touches a file and only removes folders |
| RootMover.RemoveNamesFrame | arquiva_raiz.py:80-88 | one step's removals never touch files and only remove folders |
| RootMover.RemoveNamesExactly | arquiva_raiz.py:79-85 | a subfolder is removed exactly when it is listed, its name is not excluded, and it is empty when checked |
| RootMover.SiblingsKeepEmptiness | arquiva_raiz.py:83 | removing sibling folders does not change whether a folder is empty |
| RootMover.RemoveNamesOnlyListed | arquiva_raiz.py:79-85 | only listed, non-excluded subfolders of the step's folder are removed |
| RootMover.RemoveWalkKeeps | arquiva_raiz.py:77-85 | folders named "erros"/"anos anteriores" and folders no step lists are kept, so the root is kept |
| RootMover.MoveFilesShelters | arquiva_raiz.py:36-88 | with the root missing nothing changes; otherwise the root survives, root files survive, and files below pruned folders survive with their data |
| RootMover.MoveWalkDirs | arquiva_raiz.py:44-70 | moving files never changes the folders |
| RootMover.MoveOneOnlyIntoRoot | arquiva_raiz.py:52-70 | one move puts a file nowhere but directly in the root |
| RootMover.MoveNamesOnlyIntoRoot | arquiva_raiz.py:51-70 | the same for one folder's loop |
| RootMover.MoveNamesEmpties | arquiva_raiz.py:51-70 | after a visited folder's loop, each of its listed files has left it |
| RootMover.MoveWalkOnlyIntoRoot | arquiva_raiz.py:44-70 | the whole walk puts files nowhere but directly in the root |
| RootMover.MoveWalkEmpties | arquiva_raiz.py:44-70 | a file the walk lists in a visited folder is no longer there after the walk |
| RootMover.MoveWalkLeavesNone | arquiva_raiz.py:44-70 | with a walk listing every file of each visited folder, no file is left in a visited folder |
| RootMover.MoveFilesFlattens | arquiva_raiz.py:36-88 | `move_files` flattens: afterwards no file lies in a folder the walk visits, only in the root or below "erros"/"anos anteriores" |
| RootMover.MoveNamesDirs | arquiva_raiz.py:51-70 | one folder's moves never change the folders |
| RootMover.RemoveChain | arquiva_raiz.py:77-84 | two nested empty folders are both removed in one bottom-up pass |
| RootMover.RemoveWalkRemovesEmpty | arquiva_raiz.py:76-88 | with a bottom-up walk that lists each folder's subfolders, every folder below the root whose name is not excluded and whose subtree holds no file and no excluded folder is removed |
| RootMover.RemovedAtParentStep | arquiva_raiz.py:77-85 | such a folder is gone once the step of its parent is done |
| RootMover.RemoveWalkShrinks | arquiva_raiz.py:77-88 | later steps of the walk only remove more folders |
| RootMover.BelowTransitive | arquiva_raiz.py:44 | a path below a path below `a` is below `a` |
| RootMover.BelowParents | arquiva_raiz.py:77 | the folder of a path below `p` is below the folder of `p` |
| RootMover.LogFolderKept | arquiva_raiz.py:14-18 | the `ERROS` log folder inside the root is never removed, and every file in it stays with its data |
| RootMover.MoveOne | arquiva_raiz.py:52-70 | stated by `RootMover.MoveOneOutcome` and `RootMover.MoveOneShelters` |
| RootMover.MoveNames | arquiva_raiz.py:51-70 | stated by `RootMover.MoveNamesEmpties`, `RootMover.MoveNamesOnlyIntoRoot`, `RootMover.MoveNamesShelters` and `RootMover.MoveNamesDirs`, and computed by `RootMover.MoveFolderFiles` |
| RootMover.RemoveNames | arquiva_raiz.py:80-88 | stated by `RootMover.RemoveNamesFrame`, `RootMover.RemoveNamesExactly` and `RootMover.RemoveNamesOnlyListed`, and computed by `RootMover.RemoveEmptySubfolders` |
| SubfolderArchiver.FolderRun | arquiva_subpastas.py:57-74 | keeps every folder within the depth bound; stated by `SubfolderArchiver.FolderRunEligible`, `SubfolderArchiver.FolderRunKeeps`, `SubfolderArchiver.FolderRunPresent`, `SubfolderArchiver.FolderRunKeepsFolders` and `SubfolderArchiver.FolderRunComplete` |
| SubfolderArchiver.EntriesRun | arquiva_subpastas.py:60-73 | keeps the depth bound; stated by `SubfolderArchiver.EntriesRunEligible`, `SubfolderArchiver.EntriesRunKeeps`, `SubfolderArchiver.EntriesRunPresent`, `SubfolderArchiver.EntriesRunKeepsFolders` and `SubfolderArchiver.EntriesRunComplete` |
| SubfolderArchiver.EntryRun | arquiva_subpastas.py:61-73 | keeps the depth bound; stated by `SubfolderArchiver.EntryRunEligible`, `SubfolderArchiver.EntryRunKeeps`, `SubfolderArchiver.EntryRunPresent`, `SubfolderArchiver.EntryRunKeepsFolders` and `SubfolderArchiver.EntryRunComplete` |
| SubfolderArchiver.ProcessFolder | arquiva_subpastas.py:57-74 | the method equals the specified folder run |
| SubfolderArchiver.ProcessEntries | arquiva_subpastas.py:60-73 | the `listdir` loop equals the specified run over the entries |
| SubfolderArchiver.ProcessEntry | arquiva_subpastas.py:61-73 | one entry is handled as specified: subfolders are entered unless skipped, and files other than sync databases are processed |
| SubfolderArchiver.ProcessFiles | arquiva_subpastas.py:44-55 | the method equals the specified run, which stops when either folder is missing |
| SubfolderArchiver.FolderRunEligible | arquiva_subpastas.py:57-74 | every file processed lies below the folder, behind no skipped folder, and is not a sync database |
| SubfolderArchiver.EntriesRunEligible | arquiva_subpastas.py:60-73 | the same holds for the loop over the entries |
| SubfolderArchiver.EntryRunEligible | arquiva_subpastas.py:62-73 | the same holds for one entry |
| SubfolderArchiver.ProcessedAreEligible | arquiva_subpastas.py:44-74 | with a folder missing nothing happens; otherwise every processed file is below the watch folder, outside "anos anteriores"/"erros", and not a ".ffs_db" |
| SubfolderArchiver.FolderRunKeeps | arquiva_subpastas.py:57-74 | an unprocessed file outside the archive folders keeps its path and data |
| SubfolderArchiver.EntriesRunKeeps | arquiva_subpastas.py:60-73 | the same holds for the loop over the entries |
| SubfolderArchiver.EntryRunKeeps | arquiva_subpastas.py:61-73 | the same holds for one entry |
| SubfolderArchiver.FolderRunPresent | arquiva_subpastas.py:57-74 | an unprocessed file is still a file afterwards, also inside the archive folders |
| SubfolderArchiver.EntriesRunPresent | arquiva_subpastas.py:60-73 | the same holds for the loop over the entries |
| SubfolderArchiver.EntryRunPresent | arquiva_subpastas.py:61-73 | the same holds for one entry |
| SubfolderArchiver.UnprocessedFilesStay | arquiva_subpastas.py:44-74 | a file the run does not process stays with its data unless it sits inside an archive folder |
| SubfolderArchiver.InPlaceFileStays | arquiva_subpastas.py:136-141 | a file already in the archive folder of its date is not moved |
| SubfolderArchiver.ProcessFilesRun | arquiva_subpastas.py:44-55 | stated by `SubfolderArchiver.ProcessedAreEligible`, `SubfolderArchiver.UnprocessedFilesStay`, `SubfolderArchiver.ProcessFilesComplete` and `SubfolderArchiver.LogFilesStay`, and computed by `SubfolderArchiver.ProcessFiles` |
| SubfolderArchiver.FolderRunKeepsFolders | arquiva_subpastas.py:57-74 | the run removes no folder, and an unprocessed file does not become a folder |
| SubfolderArchiver.EntriesRunKeepsFolders | arquiva_subpastas.py:60-73 | the same holds for the loop over the entries |
| SubfolderArchiver.EntryRunKeepsFolders | arquiva_subpastas.py:61-73 | the same holds for one entry |
| SubfolderArchiver.FolderRunComplete | arquiva_subpastas.py:57-74 | when `listdir` names every entry present, every eligible file below the folder (reached through folders that exist), inside the archive folders `root/YYYY/...` too, is handed to `process_file`: the recursion enters every subfolder except "anos anteriores" and "erros" |
| SubfolderArchiver.EntriesRunComplete | arquiva_subpastas.py:60-73 | the same holds for a loop whose entries include the name leading to the file, whatever the earlier entries did |
| SubfolderArchiver.EntryRunComplete | arquiva_subpastas.py:61-73 | the same holds for the entry leading to the file: a folder on the way is entered, the file itself is handled |
| SubfolderArchiver.ProcessFilesComplete | arquiva_subpastas.py:44-74 | with the watch folder a folder and the archive root present, every eligible file below the watch folder is handled, wherever the archive root lies |
| SubfolderArchiver.LogFolderSkipped | arquiva_subpastas.py:63-64 | the `ERROS` log folder is one of the skipped folders |
| SubfolderArchiver.LogFilesStay | arquiva_subpastas.py:225 | the files in the watch folder's `ERROS` log folder are never handled and stay with their data |
| MailArchiver.ListingRun | arquiva_email.py:50-59 | stated by `MailArchiver.ListingRunProcessed`, `MailArchiver.ListingRunKeeps`, `MailArchiver.ListingRunPresent` and `MailArchiver.ListingRunComplete` |
| MailArchiver.MailRun | arquiva_email.py:43-60 | stated by `MailArchiver.MailRunFacts`, and computed by `MailArchiver.FileArchiver.ProcessFiles` |
| MailArchiver.FileArchiver.constructor | arquiva_email.py:9-14 | the watch folder and archive root are stored and `last_processed_type` starts as `None` |
| MailArchiver.FileArchiver.ProcessFiles | arquiva_email.py:43-60 | the run is as specified; `last_processed_type` becomes "file" when a file was handled and is otherwise unchanged |
| MailArchiver.ListingRunProcessed | arquiva_email.py:50-56 | only listed files directly in the watch folder are handled, and never a sync database |
| MailArchiver.ListingRunKeeps | arquiva_email.py:50-59 | an unhandled file keeps its data unless it sits inside an archive folder |
| MailArchiver.ListingRunPresent | arquiva_email.py:50-59 | an unhandled file is still a file afterwards, also inside an archive folder |
| MailArchiver.ListingRunComplete | arquiva_email.py:50-59 | every listed top-level file is handled, unless it is a skipped sync database, wherever the archive root lies |
| MailArchiver.MailRunFacts | arquiva_email.py:43-60 | a missing watch folder stops everything; otherwise exactly the listed top-level non-".ffs_db" files are handled, and every other file keeps its data |
| MailArchiver.InPlaceFileIsRenamed | arquiva_email.py:117-155 | with no in-place check, a file already in its archive folder is moved to its timestamped name beside itself |
| GuiArchiver.GuiRun | arquiva_email_gui.py:45-62 | stated by `GuiArchiver.GuiRunFacts`, and computed by `GuiArchiver.ProcessFiles` |
| GuiArchiver.ProcessFiles | arquiva_email_gui.py:45-62 | the loop equals the specified run |
| GuiArchiver.GuiRunFacts | arquiva_email_gui.py:45-62 | a missing watch folder or archive root stops everything; otherwise every listed top-level file is handled, ".ffs_db" included, and nothing deeper |
| Text.IntToString | relatorio_mensagens.py:313 | `str()` of an integer: a non-negative value gives only digits that read back as the value; a negative one gives "-" and then digits that read back as its magnitude |
| Text.LowerIdempotent | renomear_eml.py:297 | lowering twice gives the same as lowering once |
| Text.LowerHasNoUpper | renomear_eml.py:297 | no upper-case ASCII letter is left after lowering |
| Text.LowerEndsWithEml | renomear_eml.py:297 | `name.lower().endswith(".eml")` holds exactly when the name's last four characters are a dot followed by `e`, `m`, `l` in either case |
| Text.JoinAppend | relatorio_mensagens.py:352 | joining two blocks of lines is joining each and gluing them with one separator |
| Text.SortedSet | pastas_diff.py:119-120 | `sorted` of a set: each element once, strictly ascending |
| Text.SortInts | relatorio_mensagens.py:300 | `sorted` of a list of integers: ascending, holding the same multiset |

## Left out

- The Tk windows, dialogs and message boxes, `main.py`, and the launchers are left out. They are user interface only.
- Log messages, `BlankLineHandler` and the `print` calls are left out. They only add text to log files or the console. What setting up the logs does to the folders is modelled:
  - the archivers' constructors make `<archive root>/ERROS` when it is missing (`Archive.SetUpLogFolder`). The subfolder archiver never enters that folder (`SubfolderArchiver.LogFilesStay`), the root mover never empties or removes it (`RootMover.LogFolderKept`), and the two mail archivers only handle files directly in the watch folder;
  - the renamer's `__init__` makes `LOGS_RENOMEAR_EML` inside the base folder, and the base folder itself when it is missing; it fails when the base path is a regular file (`EmlRenamer.Renamer.Create`);
  - the folder comparison makes `<folder 1>/ERROS` and opens `comparison_failures_<stamp>.log` in it before the walks, so the walk of folder 1 lists that file like any other (`FolderDiff.LogFileListed`).
  The log files are not placed on the modelled disk, and the renamer's log file lies inside `LOGS_RENOMEAR_EML`, which `run` skips.
- MailArchiver.FileArchiver.constructor stores the two folders only. The log folder it makes (arquiva_email.py:17-18) is `Archive.SetUpLogFolder`, which a caller applies to the disk before `ProcessFiles`. The scripts' `main` functions, which also make a missing archive root, are not modelled.
- EmlRenamer.Renamer.constructor keeps the entries it is given. What `__init__` does to the folder is stated by `EmlRenamer.Renamer.Create`, which builds the object.
- Reading and decoding e-mail is an input. This covers `email.message_from_*`, `decode_header`/`make_header`, the `parsedate_to_datetime`/`strptime` cascade, time zones, `datetime.now()` and `fromtimestamp`:
  - for the renamer, `EmlRenamer.EmlRead` stands for the whole read;
  - for the archivers, `Archive.Env` supplies the message date, the current date and the timestamp;
  - dates have a four-digit year, so `%Y` is four digits.
- `ReportCombiner` in `relatorio_mensagens.py` is left out. It reads files with encoding fallbacks, converts Markdown and writes HTML, all through libraries outside the repository.
- Saving the gap reports is left out: `_salvar_relatorio` and the text written by `contador_mensagens.py`. This is file I/O. The report text itself is modelled.
- The real file system is abstracted:
  - `os.walk` and `listdir` orders are parameters;
  - `filecmp.cmp` is equality of contents;
  - `Path.resolve` identity is a predicate;
  - the disk is a value that the methods take and return, so aliasing of the file system is not modelled.
- Races between a check and the action that follows it are not modelled.
- Failures the model cannot express are not modelled: permissions, a failing `stat`, a failing rename. Neither are symbolic links or special files.
- `shutil.move` onto an existing file overwrites it, as a rename does. Moving into an existing folder places the file inside it. A move whose destination's parent is missing or is a regular file fails and changes nothing. Platform differences beyond that are not modelled.
- Python `int()` on user text is an abstract partial function, the `parseInt` parameter. `\d` and `isdigit` are ASCII digits only, and `lower()` lowers ASCII letters only.
- Paths use `/` and component lists. The `.ffs_db` and `.eml` tests on a whole path are modelled on the file name, which gives the same answer because neither suffix contains a separator.
- `FolderDiff.CompareFolders` and `folder_diff`'s walks: the `except` branches for a failing walk are not modelled. Nor is the "ERRO NA COMPARAÇÃO" text, which only appears when the file system raises.
- SubfolderArchiver.FolderRun, EntriesRun, EntryRun and the methods beside them take a ghost `height` that bounds the depth of every folder on the disk. It is what makes the recursion terminate. `HeightExists` shows that every disk has such a bound.
- RootMover.MoveWalkEmpties, MoveNamesEmpties and MoveFilesFlattens require that no folder directly in the root bears a listed file's name or its timestamped form. `shutil.move` would then put the file inside that folder, one level below the root, which these lemmas do not follow; `Archive.MoveFacts` states that case. MoveFilesFlattens also takes the top-down walk as a parameter and requires it to list every file of each visited folder, as `os.walk` does.
- SubfolderArchiver.UnprocessedFilesStay, FolderRunKeeps and MailArchiver.ListingRunKeeps speak only of files outside the archive folders. Inside them, a moved file may replace a file under the timestamped name; `Archive.SecondCollisionReplaces` shows that case.
- Archive.MoveFileToArchiveFacts and Archive.MoveFileToArchiveLands require the archive folder to be at least two levels deep and no ancestor to be a file. The failing cases are stated by `Archive.EnsureFolderFacts` and `Archive.ArchiveFolderIsFileKeepsFiles`.
- Archive.ProcessFileOutcome speaks only of an archive path with no file on it and a destination that is not a folder. The first failing case is stated by `Archive.ArchiveFolderIsFileKeepsFiles`, and a destination folder by `Archive.MoveFacts`.
- EmlRenamer.RenameIsSafeAndStable requires a name longer than ".eml". The bare name ".eml" is covered by `EmlRenamer.BareEmlLosesExtension`.
- RootMover.MoveOneOutcome requires the root to be a folder, as the walk only runs then, and the destination not to be a folder. Moving onto a folder is covered by `Archive.MoveFacts`.
- RootMover.RemoveWalkRemovesEmpty takes the bottom-up walk as a parameter. It requires each folder's step to come after the steps of the folders below it, and every folder below the root to be listed at the step of its parent, as scanned before anything is removed. That is what `os.walk(topdown=False)` yields. `RootMover.RemoveChain` is one concrete walk.
