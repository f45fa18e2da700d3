/** The numbered-message gap checker: the files of a folder are expected to start
    with the numbers of a range; the report lists the numbers of the range that no
    file starts with, the numbers found outside the range, and the files that do
    not start with a number. */
module MessageReport {
  import opened Wrappers
  import opened Text

  /** One entry of a folder listing. */
  datatype Entry = Entry(name: string, isFile: bool)

  // ------------------------------------------------------ input validation

  /** The checked inputs. */
  datatype Inputs = Inputs(folder: string, first: int, last: int)

  const EmptyPathMessage := "O caminho da pasta não pode estar vazio."
  const NotIntegerMessage := "Os valores inicial e final devem ser números inteiros."
  const BadRangeMessage := "O número inicial deve ser menor ou igual ao número final."

  function MissingFolderMessage(path: string): string {
    "A pasta selecionada não existe: " + path
  }

  /** `_validar_entradas`; `isFolder` says whether the path names a folder and
      `parseInt` is Python's `int()` on user text (`None` where it raises). */
  function ValidateInputs(path: string, isFolder: bool, firstText: string, lastText: string,
                          parseInt: string -> Option<int>): (r: Result<Inputs>)
    ensures path == "" ==> r == Err(EmptyPathMessage)
    ensures path != "" && !isFolder ==> r == Err(MissingFolderMessage(path))
    ensures r.Ok? <==>
      path != "" && isFolder && parseInt(firstText).Some? && parseInt(lastText).Some? &&
      parseInt(firstText).value <= parseInt(lastText).value
    ensures r.Ok? ==>
      r.value == Inputs(path, parseInt(firstText).value, parseInt(lastText).value) &&
      r.value.first <= r.value.last
  {
    if path == "" then Err(EmptyPathMessage)
    else if !isFolder then Err(MissingFolderMessage(path))
    else match (parseInt(firstText), parseInt(lastText))
      case (Some(first), Some(last)) =>
        if first > last then Err(BadRangeMessage) else Ok(Inputs(path, first, last))
      case _ => Err(NotIntegerMessage)
  }

  // ------------------------------------------------------ leading numbers

  /** The longest prefix of `s` made of digits (`^(\d+)`). */
  function LeadingDigits(s: string): (r: string)
    ensures AllDigits(r) && |r| <= |s| && r == s[..|r|]
    ensures |r| < |s| ==> !IsDigit(s[|r|])
  {
    if s == [] || !IsDigit(s[0]) then [] else [s[0]] + LeadingDigits(s[1..])
  }

  /** `_extrair_numero_inicial`. */
  function LeadingNumber(name: string): (r: Option<nat>)
    ensures r.None? <==> name == [] || !IsDigit(name[0])
    ensures r.Some? ==> r.value == DigitsValue(LeadingDigits(name))
  {
    var digits := LeadingDigits(name);
    if digits == [] then None else Some(DigitsValue(digits))
  }

  /** The number read back from a name that starts with a written number and then
      something other than a digit is that number. */
  lemma LeadingNumberOfWritten(n: nat, rest: string)
    requires rest == [] || !IsDigit(rest[0])
    ensures LeadingNumber(NatToString(n) + rest) == Some(n)
  {
    var name := NatToString(n) + rest;
    LeadingDigitsOfPrefix(NatToString(n), rest);
    NatToStringRoundTrip(n);
  }

  lemma {:induction false} LeadingDigitsOfPrefix(ds: string, rest: string)
    requires AllDigits(ds)
    requires rest == [] || !IsDigit(rest[0])
    ensures LeadingDigits(ds + rest) == ds
  {
    if ds != [] {
      assert (ds + rest)[1..] == ds[1..] + rest;
      LeadingDigitsOfPrefix(ds[1..], rest);
      assert ds == [ds[0]] + ds[1..];
    } else {
      assert ds + rest == rest;
    }
  }

  // ------------------------------------------------------ classifying the files

  /** The numbers the files of a listing start with. */
  function FoundNumbers(entries: seq<Entry>): set<int>
  {
    if entries == [] then {}
    else
      var e := entries[|entries| - 1];
      var n := if e.isFile then LeadingNumber(e.name) else None;
      FoundNumbers(entries[..|entries| - 1]) + (if n.Some? then {n.value as int} else {})
  }

  /** The names of the files that do not start with a number, in listing order. */
  function UnnumberedFiles(entries: seq<Entry>): seq<string>
  {
    if entries == [] then []
    else
      var e := entries[|entries| - 1];
      var here := if e.isFile && LeadingNumber(e.name).None? then [e.name] else [];
      UnnumberedFiles(entries[..|entries| - 1]) + here
  }

  /** The numbers outside `[first, last]` that files start with, one per file, in
      listing order. */
  function OutOfRangeInOrder(entries: seq<Entry>, first: int, last: int): seq<int>
  {
    if entries == [] then []
    else
      var e := entries[|entries| - 1];
      var n := if e.isFile then LeadingNumber(e.name) else None;
      var here := if n.Some? && !(first <= n.value <= last) then [n.value as int] else [];
      OutOfRangeInOrder(entries[..|entries| - 1], first, last) + here
  }

  /** How many entries are files, and how many of those start with a number. */
  function FileCount(entries: seq<Entry>): nat
  {
    if entries == [] then 0
    else FileCount(entries[..|entries| - 1]) + (if entries[|entries| - 1].isFile then 1 else 0)
  }

  function NumberedFileCount(entries: seq<Entry>): nat
  {
    if entries == [] then 0
    else
      var e := entries[|entries| - 1];
      NumberedFileCount(entries[..|entries| - 1]) +
        (if e.isFile && LeadingNumber(e.name).Some? then 1 else 0)
  }

  /** `_processar_arquivos_da_pasta`: one pass over the listing. */
  method ProcessFolderFiles(entries: seq<Entry>, first: int, last: int)
    returns (found: set<int>, unnumbered: seq<string>, outOfRange: seq<int>)
    ensures found == FoundNumbers(entries)
    ensures unnumbered == UnnumberedFiles(entries)
    ensures outOfRange == SortInts(OutOfRangeInOrder(entries, first, last))
  {
    found, unnumbered := {}, [];
    var outsideInOrder: seq<int> := [];
    for i := 0 to |entries|
      invariant found == FoundNumbers(entries[..i])
      invariant unnumbered == UnnumberedFiles(entries[..i])
      invariant outsideInOrder == OutOfRangeInOrder(entries[..i], first, last)
    {
      assert entries[..i + 1][..i] == entries[..i];
      var entry := entries[i];
      if entry.isFile {
        var number := LeadingNumber(entry.name);
        if number.Some? {
          found := found + {number.value as int};
          if !(first <= number.value <= last) {
            outsideInOrder := outsideInOrder + [number.value as int];
          }
        } else {
          unnumbered := unnumbered + [entry.name];
        }
      }
    }
    assert entries[..|entries|] == entries;
    outOfRange := SortInts(outsideInOrder);
  }

  /** A file that leads with number `x`. */
  predicate FileNumbered(e: Entry, x: int) {
    e.isFile && LeadingNumber(e.name).Some? && LeadingNumber(e.name).value == x
  }

  /** A file whose name does not start with a number. */
  predicate FileUnnumbered(e: Entry, name: string) {
    e.isFile && e.name == name && LeadingNumber(name).None?
  }

  /** Each file goes to exactly one side, and folders to neither: the files that
      start with a number and the unnumbered ones make up all the files. */
  lemma {:induction false} FilesPartition(entries: seq<Entry>)
    ensures |UnnumberedFiles(entries)| + NumberedFileCount(entries) == FileCount(entries)
  {
    if entries != [] {
      FilesPartition(entries[..|entries| - 1]);
    }
  }

  /** The found set holds exactly the numbers some file starts with. */
  lemma {:induction false} FoundNumbersExactly(entries: seq<Entry>)
    ensures forall x :: x in FoundNumbers(entries) <==>
      exists i :: 0 <= i < |entries| && FileNumbered(entries[i], x)
  {
    if entries != [] {
      var k := |entries| - 1;
      var init := entries[..k];
      FoundNumbersExactly(init);
      forall x ensures x in FoundNumbers(entries) <==>
        exists i :: 0 <= i < |entries| && FileNumbered(entries[i], x)
      {
        if x in FoundNumbers(entries) && x !in FoundNumbers(init) {
          assert FileNumbered(entries[k], x);
        }
        if exists i :: 0 <= i < |entries| && FileNumbered(entries[i], x) {
          var i :| 0 <= i < |entries| && FileNumbered(entries[i], x);
          if i < k { assert init[i] == entries[i]; }
        }
      }
    }
  }

  /** The unnumbered list holds exactly the names of the files that do not start
      with a number. */
  lemma {:induction false} UnnumberedExactly(entries: seq<Entry>)
    ensures forall name :: name in UnnumberedFiles(entries) <==>
      exists i :: 0 <= i < |entries| && FileUnnumbered(entries[i], name)
  {
    if entries != [] {
      var k := |entries| - 1;
      var init := entries[..k];
      UnnumberedExactly(init);
      forall name ensures name in UnnumberedFiles(entries) <==>
        exists i :: 0 <= i < |entries| && FileUnnumbered(entries[i], name)
      {
        if name in UnnumberedFiles(entries) && name !in UnnumberedFiles(init) {
          assert FileUnnumbered(entries[k], name);
        }
        if exists i :: 0 <= i < |entries| && FileUnnumbered(entries[i], name) {
          var i :| 0 <= i < |entries| && FileUnnumbered(entries[i], name);
          if i < k { assert init[i] == entries[i]; }
        }
      }
    }
  }

  /** The out-of-range list holds exactly the found numbers outside the range, with
      one entry per file, so a number may repeat. */
  lemma {:induction false} OutOfRangeContents(entries: seq<Entry>, first: int, last: int)
    ensures forall x :: x in OutOfRangeInOrder(entries, first, last) <==>
      x in FoundNumbers(entries) && !(first <= x <= last)
    ensures |OutOfRangeInOrder(entries, first, last)| <= NumberedFileCount(entries)
  {
    if entries != [] {
      OutOfRangeContents(entries[..|entries| - 1], first, last);
    }
  }

  /** The reported out-of-range list is ascending and has those same entries. */
  lemma ReportedOutOfRange(entries: seq<Entry>, first: int, last: int)
    ensures SortedInts(SortInts(OutOfRangeInOrder(entries, first, last)))
    ensures forall x :: x in SortInts(OutOfRangeInOrder(entries, first, last)) <==>
      x in FoundNumbers(entries) && !(first <= x <= last)
  {
    OutOfRangeContents(entries, first, last);
    var raw := OutOfRangeInOrder(entries, first, last);
    forall x ensures x in SortInts(raw) <==> x in raw {
      assert x in SortInts(raw) <==> x in multiset(SortInts(raw));
      assert x in raw <==> x in multiset(raw);
    }
  }

  /** Two files with the same number give one found number and, when it is out of
      range, two entries in the out-of-range list. */
  lemma RepeatedNumberExample()
    ensures FoundNumbers([Entry("7a", true), Entry("7b", true)]) == {7}
    ensures OutOfRangeInOrder([Entry("7a", true), Entry("7b", true)], 1, 5) == [7, 7]
  {
    var es := [Entry("7a", true), Entry("7b", true)];
    assert es[..1] == [Entry("7a", true)];
    assert ([] + [Entry("7a", true)])[..0] == [];
    assert LeadingDigits("7a") == "7" by {
      assert "7a"[1..] == "a";
    }
    assert LeadingDigits("7b") == "7" by {
      assert "7b"[1..] == "b";
    }
    assert DigitsValue("7") == 7 by {
      assert "7"[..0] == "";
    }
  }

  // ------------------------------------------------------ missing numbers

  /** `_identificar_numeros_faltantes`. */
  function MissingNumbers(first: int, last: int, found: set<int>): seq<int>
    decreases last - first
  {
    if first > last then []
    else (if first in found then [] else [first]) + MissingNumbers(first + 1, last, found)
  }

  /** The missing numbers are, in strictly ascending order, exactly the numbers of
      the range that are not found; an empty range has none. */
  lemma {:induction false} MissingNumbersExactly(first: int, last: int, found: set<int>)
    ensures var r := MissingNumbers(first, last, found);
      && (forall x :: x in r <==> first <= x <= last && x !in found)
      && (forall i, j :: 0 <= i < j < |r| ==> r[i] < r[j])
      && (forall i :: 0 <= i < |r| ==> first <= r[i] <= last)
      && (first > last ==> r == [])
    decreases last - first
  {
    if first <= last {
      MissingNumbersExactly(first + 1, last, found);
    }
  }

  /** When every number of the range is found, nothing is missing; when none is,
      the whole range is. */
  lemma MissingExtremes(first: int, last: int, found: set<int>)
    ensures (forall x :: first <= x <= last ==> x in found) ==> MissingNumbers(first, last, found) == []
    ensures (forall x :: first <= x <= last ==> x !in found) ==>
      |MissingNumbers(first, last, found)| == if first <= last then last - first + 1 else 0
    decreases last - first
  {
    if first <= last {
      MissingExtremes(first + 1, last, found);
      MissingNumbersExactly(first + 1, last, found);
    }
  }

  // ------------------------------------------------------ the report

  /** The items of a report section: numbers are written on one line, names one
      per line (`isinstance(itens[0], int)`). */
  datatype Items = Numbers(numbers: seq<int>) | Names(names: seq<string>)

  predicate IsEmpty(items: Items) {
    match items
    case Numbers(ns) => ns == []
    case Names(ns) => ns == []
  }

  function NumberLine(ns: seq<int>): string
  {
    Join(IntStrings(ns), ", ")
  }

  function IntStrings(ns: seq<int>): (r: seq<string>)
    ensures |r| == |ns| && forall i :: 0 <= i < |ns| ==> r[i] == IntToString(ns[i])
  {
    seq(|ns|, i requires 0 <= i < |ns| => IntToString(ns[i]))
  }

  /** `_formatar_lista_para_relatorio`. */
  function FormatSection(title: string, items: Items, emptyMessage: string): (r: seq<string>)
    ensures |r| >= 2 && r[0] == "\n" + title + ":"
    ensures IsEmpty(items) ==> r[1..] == [emptyMessage]
    ensures items.Numbers? && !IsEmpty(items) ==> r[1..] == [NumberLine(items.numbers)]
    ensures items.Names? && !IsEmpty(items) ==> r[1..] == items.names
  {
    var heading := "\n" + title + ":";
    if IsEmpty(items) then [heading, emptyMessage]
    else match items
      case Numbers(ns) => [heading, NumberLine(ns)]
      case Names(ns) => [heading] + ns
  }

  const ReportTitle := "=== RELATÓRIO DE VERIFICAÇÃO ==="
  const MissingTitle := "Números faltantes no intervalo"
  const MissingEmpty := "Nenhum número faltante encontrado."
  const OutOfRangeTitle := "Números encontrados fora do intervalo"
  const OutOfRangeEmpty := "Nenhum número encontrado fora do intervalo."
  const UnnumberedTitle := "Arquivos que não começam com números"
  const UnnumberedEmpty := "Nenhum arquivo encontrado sem número no início."

  function HeaderLines(folder: string, first: int, last: int): seq<string>
  {
    [ReportTitle, "Pasta analisada: " + folder,
     "Intervalo verificado: " + IntToString(first) + " a " + IntToString(last)]
  }

  /** The lines of `_gerar_conteudo_relatorio`, before joining. */
  function ReportLines(folder: string, first: int, last: int, missing: seq<int>,
                       outOfRange: seq<int>, unnumbered: seq<string>): seq<string>
  {
    HeaderLines(folder, first, last)
      + FormatSection(MissingTitle, Numbers(missing), MissingEmpty)
      + FormatSection(OutOfRangeTitle, Numbers(outOfRange), OutOfRangeEmpty)
      + FormatSection(UnnumberedTitle, Names(unnumbered), UnnumberedEmpty)
  }

  /** `_gerar_conteudo_relatorio`. */
  function ReportContent(folder: string, first: int, last: int, missing: seq<int>,
                         outOfRange: seq<int>, unnumbered: seq<string>): string
  {
    Join(ReportLines(folder, first, last, missing, outOfRange, unnumbered), "\n")
  }

  /** The report is the three header lines, then the missing, out-of-range and
      unnumbered sections in that order, each joined on its own and separated by a
      line break; every unnumbered name is a line of it. */
  lemma ReportLayout(folder: string, first: int, last: int, missing: seq<int>,
                     outOfRange: seq<int>, unnumbered: seq<string>)
    ensures ReportContent(folder, first, last, missing, outOfRange, unnumbered) ==
      Join(HeaderLines(folder, first, last), "\n") + "\n" +
      Join(FormatSection(MissingTitle, Numbers(missing), MissingEmpty), "\n") + "\n" +
      Join(FormatSection(OutOfRangeTitle, Numbers(outOfRange), OutOfRangeEmpty), "\n") + "\n" +
      Join(FormatSection(UnnumberedTitle, Names(unnumbered), UnnumberedEmpty), "\n")
    ensures forall n :: n in unnumbered ==> n in ReportLines(folder, first, last, missing, outOfRange, unnumbered)
  {
    var h := HeaderLines(folder, first, last);
    var a := FormatSection(MissingTitle, Numbers(missing), MissingEmpty);
    var b := FormatSection(OutOfRangeTitle, Numbers(outOfRange), OutOfRangeEmpty);
    var c := FormatSection(UnnumberedTitle, Names(unnumbered), UnnumberedEmpty);
    JoinAppend(h, a, "\n");
    JoinAppend(h + a, b, "\n");
    JoinAppend(h + a + b, c, "\n");
    forall n | n in unnumbered ensures n in h + a + b + c {
      assert n in c[1..];
    }
  }

  /** `verificar_arquivos`: validate, classify the files, find the gaps and build
      the report (saving it is left out). */
  function CheckFolder(path: string, isFolder: bool, firstText: string, lastText: string,
                       parseInt: string -> Option<int>, displayed: string,
                       entries: seq<Entry>): (r: Result<string>)
    ensures r.Ok? <==> ValidateInputs(path, isFolder, firstText, lastText, parseInt).Ok?
    ensures r.Err? ==> r == Err(ValidateInputs(path, isFolder, firstText, lastText, parseInt).message)
  {
    match ValidateInputs(path, isFolder, firstText, lastText, parseInt)
    case Err(message) => Err(message)
    case Ok(inputs) =>
      var found := FoundNumbers(entries);
      Ok(ReportContent(displayed, inputs.first, inputs.last,
                       MissingNumbers(inputs.first, inputs.last, found),
                       SortInts(OutOfRangeInOrder(entries, inputs.first, inputs.last)),
                       UnnumberedFiles(entries)))
  }
}
