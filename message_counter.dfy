/** The earlier, single-function version of the gap checker: the same digit
    prefix, classification, gap search and report, written as loops and with its
    own order of input checks. */
module MessageCounter {
  import opened Wrappers
  import opened Text
  import opened MessageReport

  /** Every listing entry counts, folders included. */
  function AsFiles(names: seq<string>): (r: seq<Entry>)
    ensures |r| == |names| && forall i :: 0 <= i < |names| ==> r[i] == Entry(names[i], true)
  {
    seq(|names|, i requires 0 <= i < |names| => Entry(names[i], true))
  }

  /** The character loop: collect digits up to the first non-digit. */
  method DigitPrefix(name: string) returns (digits: string)
    ensures digits == LeadingDigits(name)
  {
    digits := "";
    var i := 0;
    while i < |name| && IsDigit(name[i])
      invariant 0 <= i <= |name|
      invariant digits == name[..i] && AllDigits(digits)
    {
      assert name[..i + 1] == name[..i] + [name[i]];
      digits := digits + [name[i]];
      i := i + 1;
    }
    assert name[..i] + name[i..] == name;
    LeadingDigitsOfPrefix(name[..i], name[i..]);
  }

  /** The classification loop over `os.listdir`. */
  method ClassifyEntries(names: seq<string>) returns (found: set<int>, unnumbered: seq<string>)
    ensures found == FoundNumbers(AsFiles(names))
    ensures unnumbered == UnnumberedFiles(AsFiles(names))
    ensures forall x :: x in found <==> exists i :: 0 <= i < |names| && StartsWithNumber(names[i], x)
    ensures forall n :: n in unnumbered <==> n in names && LeadingNumber(n).None?
  {
    found, unnumbered := {}, [];
    for i := 0 to |names|
      invariant found == FoundNumbers(AsFiles(names[..i]))
      invariant unnumbered == UnnumberedFiles(AsFiles(names[..i]))
    {
      assert AsFiles(names[..i + 1])[..i] == AsFiles(names[..i]);
      var digits := DigitPrefix(names[i]);
      if digits != "" {
        found := found + {DigitsValue(digits)};
      } else {
        unnumbered := unnumbered + [names[i]];
      }
    }
    assert names[..|names|] == names;
    ListedNamesClassified(names);
  }

  /** The name starts with the number `x`. */
  predicate StartsWithNumber(name: string, x: int) {
    LeadingNumber(name).Some? && LeadingNumber(name).value == x
  }

  /** Every listed name, folder or file, is classified: its leading number is
      found, or it is listed as unnumbered; nothing else is found or listed. */
  lemma ListedNamesClassified(names: seq<string>)
    ensures forall x :: x in FoundNumbers(AsFiles(names)) <==>
      exists i :: 0 <= i < |names| && StartsWithNumber(names[i], x)
    ensures forall n :: n in UnnumberedFiles(AsFiles(names)) <==> n in names && LeadingNumber(n).None?
  {
    var es := AsFiles(names);
    FoundNumbersExactly(es);
    UnnumberedExactly(es);
    forall x ensures x in FoundNumbers(es) <==> exists i :: 0 <= i < |names| && StartsWithNumber(names[i], x) {
      if exists i :: 0 <= i < |names| && StartsWithNumber(names[i], x) {
        var i :| 0 <= i < |names| && StartsWithNumber(names[i], x);
        assert FileNumbered(es[i], x);
      }
      if x in FoundNumbers(es) {
        var i :| 0 <= i < |es| && FileNumbered(es[i], x);
        assert StartsWithNumber(names[i], x);
      }
    }
    forall n ensures n in UnnumberedFiles(es) <==> n in names && LeadingNumber(n).None? {
      if n in names && LeadingNumber(n).None? {
        var i :| 0 <= i < |names| && names[i] == n;
        assert FileUnnumbered(es[i], n);
      }
      if n in UnnumberedFiles(es) {
        var i :| 0 <= i < |es| && FileUnnumbered(es[i], n);
        assert names[i] == n;
      }
    }
  }

  /** The `for num in range(inicio, fim + 1)` loop. */
  method MissingInRange(first: int, last: int, found: set<int>) returns (missing: seq<int>)
    ensures missing == MissingNumbers(first, last, found)
  {
    missing := [];
    var num := first;
    while num <= last
      invariant first <= num || first > last
      invariant first <= last ==> num <= last + 1
      invariant missing + MissingNumbers(num, last, found) == MissingNumbers(first, last, found)
      decreases last - num
    {
      MissingUnfolds(num, last, found);
      if num !in found {
        assert missing + [num] + MissingNumbers(num + 1, last, found)
            == missing + ([num] + MissingNumbers(num + 1, last, found));
        missing := missing + [num];
      } else {
        assert MissingNumbers(num, last, found) == MissingNumbers(num + 1, last, found);
      }
      num := num + 1;
    }
  }

  lemma MissingUnfolds(num: int, last: int, found: set<int>)
    requires num <= last
    ensures MissingNumbers(num, last, found) ==
      (if num in found then [] else [num]) + MissingNumbers(num + 1, last, found)
  {
  }

  const NotIntegerMessage := "Os valores inicial e final devem ser números inteiros."
  const BadRangeMessage := "O número inicial deve ser menor ou igual ao número final."
  const MissingFolderMessage := "A pasta selecionada não existe."

  /** The checks at the start of `verificar_arquivos`: numbers first, then their
      order, then the folder. */
  function CounterValidate(path: string, isFolder: bool, firstText: string, lastText: string,
                           parseInt: string -> Option<int>): (r: Result<Inputs>)
    ensures (parseInt(firstText).None? || parseInt(lastText).None?) ==> r == Err(NotIntegerMessage)
    ensures r.Ok? <==>
      parseInt(firstText).Some? && parseInt(lastText).Some? &&
      parseInt(firstText).value <= parseInt(lastText).value && isFolder
  {
    match (parseInt(firstText), parseInt(lastText))
    case (Some(first), Some(last)) =>
      if first > last then Err(BadRangeMessage)
      else if !isFolder then Err(MissingFolderMessage)
      else Ok(Inputs(path, first, last))
    case _ => Err(NotIntegerMessage)
  }

  /** Both versions accept the same inputs for a non-empty path and read the same
      range; for an empty path this version's folder check fails. They may report
      different errors for the same rejected input. */
  lemma SameAcceptance(path: string, isFolder: bool, firstText: string, lastText: string,
                       parseInt: string -> Option<int>)
    ensures path != "" ==>
      (CounterValidate(path, isFolder, firstText, lastText, parseInt).Ok? <==>
       ValidateInputs(path, isFolder, firstText, lastText, parseInt).Ok?)
    ensures CounterValidate(path, isFolder, firstText, lastText, parseInt).Ok? &&
            ValidateInputs(path, isFolder, firstText, lastText, parseInt).Ok? ==>
      CounterValidate(path, isFolder, firstText, lastText, parseInt) ==
        ValidateInputs(path, isFolder, firstText, lastText, parseInt)
  {
  }

  /** The checks run in a different order: a missing folder with bad numbers is
      reported as a folder error by one version and as a number error by the other. */
  lemma CheckOrderDiffers()
    ensures var parseNone := (t: string) => None;
      ValidateInputs("x", false, "a", "b", parseNone) == Err(MessageReport.MissingFolderMessage("x")) &&
      CounterValidate("x", false, "a", "b", parseNone) == Err(NotIntegerMessage)
  {
  }

  /** The report of this version: the header, then the missing and unnumbered
      sections; there is no out-of-range section. */
  function CounterLines(folder: string, first: int, last: int, missing: seq<int>,
                        unnumbered: seq<string>): seq<string>
  {
    HeaderLines(folder, first, last)
      + FormatSection(MissingTitle, Numbers(missing), MissingEmpty)
      + FormatSection(UnnumberedTitle, Names(unnumbered), UnnumberedEmpty)
  }

  /** This report is the other version's report with the out-of-range section
      taken out. */
  lemma CounterReportIsReportWithoutOutOfRange(folder: string, first: int, last: int,
                                               missing: seq<int>, outOfRange: seq<int>,
                                               unnumbered: seq<string>)
    ensures var head := HeaderLines(folder, first, last) + FormatSection(MissingTitle, Numbers(missing), MissingEmpty);
      var outSection := FormatSection(OutOfRangeTitle, Numbers(outOfRange), OutOfRangeEmpty);
      && CounterLines(folder, first, last, missing, unnumbered)[..|head|] == head
      && ReportLines(folder, first, last, missing, outOfRange, unnumbered) ==
         head + outSection + CounterLines(folder, first, last, missing, unnumbered)[|head|..]
  {
    var head := HeaderLines(folder, first, last) + FormatSection(MissingTitle, Numbers(missing), MissingEmpty);
    var tail := FormatSection(UnnumberedTitle, Names(unnumbered), UnnumberedEmpty);
    assert CounterLines(folder, first, last, missing, unnumbered) == head + tail;
    assert (head + tail)[|head|..] == tail;
  }

  /** `verificar_arquivos`, up to the text written to the report file. */
  method VerifyFiles(path: string, isFolder: bool, firstText: string, lastText: string,
                     parseInt: string -> Option<int>, names: seq<string>)
    returns (r: Result<string>)
    ensures r.Err? <==> CounterValidate(path, isFolder, firstText, lastText, parseInt).Err?
    ensures r.Err? ==> r.message == CounterValidate(path, isFolder, firstText, lastText, parseInt).message
    ensures r.Ok? ==>
      var inputs := CounterValidate(path, isFolder, firstText, lastText, parseInt).value;
      var entries := AsFiles(names);
      r.value == Join(CounterLines(path, inputs.first, inputs.last,
                                   MissingNumbers(inputs.first, inputs.last, FoundNumbers(entries)),
                                   UnnumberedFiles(entries)), "\n")
  {
    var checked := CounterValidate(path, isFolder, firstText, lastText, parseInt);
    if checked.Err? {
      return Err(checked.message);
    }
    var inputs := checked.value;
    var found, unnumbered := ClassifyEntries(names);
    var missing := MissingInRange(inputs.first, inputs.last, found);
    r := Ok(Join(CounterLines(path, inputs.first, inputs.last, missing, unnumbered), "\n"));
  }
}
