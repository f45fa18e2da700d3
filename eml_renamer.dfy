/** The `.eml` renamer: gives each message file in a folder the name
    "<date> - <subject> - <sender><suffix>", sends files whose new name is taken to
    the `Duplicatas` sub-folder and files that cannot be read to `Problemas`.

    The folder is modelled by the sets of names it holds; reading and decoding a
    message, and formatting its date, are inputs (`EmlRead`). */
module EmlRenamer {
  import opened Wrappers
  import opened Text

  const DuplicatesFolder := "Duplicatas"
  const ProblemsFolder := "Problemas"
  const LogFolder := "LOGS_RENOMEAR_EML"
  const MaxPartLength := 60
  const FallbackPart := "Desconhecido"
  const FallbackInvalidPart := "Invalido"
  /** The suffix counter aborts once it exceeds this value. */
  const MaxSuffixCounter := 100

  // ------------------------------------------------------ character classes

  /** The characters `<>:"/\|?*` and the control characters U+0000..U+001F. */
  predicate IsReservedChar(c: char) {
    c in "<>:\"/\\|?*" || c as int < 0x20
  }

  /** Python's `\s` on `str`: the characters for which `str.isspace()` holds. */
  predicate IsSpace(c: char) {
    var n := c as int;
    (0x09 <= n <= 0x0D) || (0x1C <= n <= 0x20) || n == 0x85 || n == 0xA0 ||
    n == 0x1680 || (0x2000 <= n <= 0x200A) || n == 0x2028 || n == 0x2029 ||
    n == 0x202F || n == 0x205F || n == 0x3000
  }

  /** A character that belongs to a run `[\s_]+`. */
  predicate IsRunChar(c: char) {
    IsSpace(c) || c == '_'
  }

  predicate NoDoubleUnderscore(s: string) {
    forall i :: 0 <= i < |s| - 1 ==> !(s[i] == '_' && s[i + 1] == '_')
  }

  /** What every sanitized part looks like. */
  predicate IsCleanPart(s: string) {
    && s != []
    && |s| <= MaxPartLength
    && s[0] != '_' && s[|s| - 1] != '_'
    && (forall i :: 0 <= i < |s| ==> !IsReservedChar(s[i]) && !IsSpace(s[i]))
    && NoDoubleUnderscore(s)
  }

  /** Clean apart from the length bound and the non-emptiness. */
  predicate IsTidy(s: string) {
    && (s != [] ==> s[0] != '_' && s[|s| - 1] != '_')
    && (forall i :: 0 <= i < |s| ==> !IsReservedChar(s[i]) && !IsSpace(s[i]))
    && NoDoubleUnderscore(s)
  }

  // ------------------------------------------------------ sanitizing steps

  /** `re.sub(INVALID_FILENAME_CHARS, '_', text)`. */
  function ReplaceReserved(s: string): (r: string)
    ensures |r| == |s|
    ensures forall i :: 0 <= i < |s| ==> !IsReservedChar(r[i])
    ensures forall i :: 0 <= i < |s| && !IsReservedChar(s[i]) ==> r[i] == s[i]
    ensures forall i :: 0 <= i < |s| && IsReservedChar(s[i]) ==> r[i] == '_'
  {
    seq(|s|, i requires 0 <= i < |s| => if IsReservedChar(s[i]) then '_' else s[i])
  }

  /** `re.sub(r'[\s_]+', '_', s)`; `inRun` tells whether the character before `s`
      already belonged to a run that produced its `_`. */
  function Squeeze(s: string, inRun: bool): (r: string)
    ensures |r| <= |s|
  {
    if s == [] then []
    else if IsRunChar(s[0]) then
      if inRun then Squeeze(s[1..], true) else "_" + Squeeze(s[1..], true)
    else [s[0]] + Squeeze(s[1..], false)
  }

  /** A run of run characters becomes one `_`, or nothing when the run before it
      already produced its `_`. */
  lemma {:induction false} SqueezeAllRun(r: string, inRun: bool)
    requires forall i :: 0 <= i < |r| ==> IsRunChar(r[i])
    ensures Squeeze(r, inRun) == if r == [] || inRun then "" else "_"
  {
    if r != [] {
      assert forall i :: 0 <= i < |r[1..]| ==> r[1..][i] == r[i + 1];
      SqueezeAllRun(r[1..], true);
    }
  }

  /** A character outside the runs stays in place and ends the run before it. */
  lemma {:induction false} SqueezeAtNonRun(x: string, c: char, y: string, inRun: bool)
    requires !IsRunChar(c)
    ensures Squeeze(x + [c] + y, inRun) == Squeeze(x, inRun) + [c] + Squeeze(y, false)
  {
    if x == [] {
      assert x + [c] + y == [c] + y;
    } else {
      assert (x + [c] + y)[1..] == x[1..] + [c] + y;
      SqueezeAtNonRun(x[1..], c, y, IsRunChar(x[0]));
    }
  }

  /** Between two characters outside the runs, a non-empty run of white space and
      underscores becomes exactly one `_`. */
  lemma SqueezeRunBetween(x: string, c: char, r: string, d: char, y: string, inRun: bool)
    requires !IsRunChar(c) && !IsRunChar(d) && r != []
    requires forall i :: 0 <= i < |r| ==> IsRunChar(r[i])
    ensures Squeeze(x + [c] + r + [d] + y, inRun) ==
      Squeeze(x, inRun) + [c] + "_" + [d] + Squeeze(y, false)
  {
    assert x + [c] + r + [d] + y == x + [c] + (r + [d] + y);
    SqueezeAtNonRun(x, c, r + [d] + y, inRun);
    SqueezeAtNonRun(r, d, y, false);
    SqueezeAllRun(r, false);
  }

  /** `s.strip('_')`, the leading half. */
  function StripLeading(s: string): (r: string)
    ensures |r| <= |s| && r == s[|s| - |r|..]
    ensures r != [] ==> r[0] != '_'
    ensures (forall i :: 0 <= i < |s| ==> s[i] == '_') <==> r == []
    ensures forall i :: 0 <= i < |s| - |r| ==> s[i] == '_'
  {
    if s == [] then []
    else if s[0] == '_' then StripLeading(s[1..])
    else s
  }

  /** `s.strip('_')`, the trailing half. */
  function StripTrailing(s: string): (r: string)
    ensures |r| <= |s| && r == s[..|r|]
    ensures r != [] ==> r[|r| - 1] != '_'
    ensures (forall i :: 0 <= i < |s| ==> s[i] == '_') <==> r == []
    ensures forall i :: |r| <= i < |s| ==> s[i] == '_'
  {
    if s == [] then []
    else if s[|s| - 1] == '_' then StripTrailing(s[..|s| - 1])
    else s
  }

  /** The text after replacing, squeezing and stripping (lines 78-80). */
  function Cleaned(text: string): string
  {
    StripLeading(StripTrailing(Squeeze(ReplaceReserved(text), false)))
  }

  /** Index of the last occurrence of `c` in `s` (`str.rsplit(c, 1)`). */
  function LastIndexOf(s: string, c: char): (k: nat)
    requires c in s
    ensures k < |s| && s[k] == c
    ensures forall j :: k < j < |s| ==> s[j] != c
  {
    if s[|s| - 1] == c then |s| - 1 else LastIndexOf(s[..|s| - 1], c)
  }

  /** Lines 82-88: a string over 60 characters is cut to its first 60, and then
      before the last `_` among them when there is one. */
  function CapLength(s: string): (r: string)
    ensures |r| <= |s| && r == s[..|r|]
    ensures |s| <= MaxPartLength ==> r == s
    ensures |s| > MaxPartLength && '_' !in s[..MaxPartLength] ==> r == s[..MaxPartLength]
    ensures |s| > MaxPartLength && '_' in s[..MaxPartLength] ==>
      |r| < MaxPartLength && r == s[..|r|] && s[|r|] == '_' &&
      forall j :: |r| < j < MaxPartLength ==> s[j] != '_'
  {
    if |s| > MaxPartLength then
      var base := s[..MaxPartLength];
      if '_' in base then base[..LastIndexOf(base, '_')] else base
    else s
  }

  lemma FallbacksAreClean()
    ensures IsCleanPart(FallbackPart) && IsCleanPart(FallbackInvalidPart)
  {
    LettersAreClean(FallbackPart);
    LettersAreClean(FallbackInvalidPart);
  }

  predicate IsAsciiLetter(c: char) {
    'a' <= c <= 'z' || 'A' <= c <= 'Z'
  }

  /** A short non-empty run of ASCII letters is already a clean part. */
  lemma LettersAreClean(s: string)
    requires 1 <= |s| <= MaxPartLength
    requires forall i :: 0 <= i < |s| ==> IsAsciiLetter(s[i])
    ensures IsCleanPart(s)
  {
  }

  /** `_sanitize_filename_part`. */
  function SanitizePart(text: Option<string>): (r: string)
    ensures text == None || text == Some("") ==> r == FallbackPart
    ensures IsCleanPart(r)
  {
    FallbacksAreClean();
    if text == None || text.value == "" then FallbackPart
    else
      CappedIsClean(text.value);
      var capped := CapLength(Cleaned(text.value));
      if capped == "" then FallbackInvalidPart else capped
  }

  // ------------------------------------------------------ sanitizer proofs

  lemma {:induction false} SqueezeShape(s: string, inRun: bool)
    requires forall i :: 0 <= i < |s| ==> !IsReservedChar(s[i])
    ensures var r := Squeeze(s, inRun);
      && (forall i :: 0 <= i < |r| ==> !IsReservedChar(r[i]) && !IsSpace(r[i]))
      && NoDoubleUnderscore(r)
      && (inRun && r != [] ==> r[0] != '_')
  {
    if s != [] {
      var r := Squeeze(s, inRun);
      if IsRunChar(s[0]) {
        SqueezeShape(s[1..], true);
      } else {
        SqueezeShape(s[1..], false);
        var rest := Squeeze(s[1..], false);
        assert r == [s[0]] + rest;
        assert s[0] != '_';
      }
    }
  }

  lemma SliceKeepsTidyChars(s: string, a: nat, b: nat)
    requires a <= b <= |s|
    requires forall i :: 0 <= i < |s| ==> !IsReservedChar(s[i]) && !IsSpace(s[i])
    requires NoDoubleUnderscore(s)
    ensures forall i :: 0 <= i < b - a ==> !IsReservedChar(s[a..b][i]) && !IsSpace(s[a..b][i])
    ensures NoDoubleUnderscore(s[a..b])
  {
    assert forall i :: 0 <= i < b - a ==> s[a..b][i] == s[a + i];
  }

  lemma CleanedIsTidy(text: string)
    ensures IsTidy(Cleaned(text))
  {
    var squeezed := Squeeze(ReplaceReserved(text), false);
    SqueezeShape(ReplaceReserved(text), false);
    var trailing := StripTrailing(squeezed);
    SliceKeepsTidyChars(squeezed, 0, |trailing|);
    var leading := StripLeading(trailing);
    SliceKeepsTidyChars(trailing, |trailing| - |leading|, |trailing|);
    if leading != [] {
      assert leading[|leading| - 1] == trailing[|trailing| - 1];
    }
  }

  lemma CapKeepsTidy(s: string)
    requires IsTidy(s)
    ensures IsTidy(CapLength(s))
    ensures s != [] ==> CapLength(s) != []
  {
    if |s| > MaxPartLength {
      var r := CapLength(s);
      SliceKeepsTidyChars(s, 0, |r|);
      if '_' in s[..MaxPartLength] {
        var k := |r|;
        assert s[k] == '_';
        assert k > 0 by { assert s[0] != '_'; }
        assert s[k - 1] != '_';
      } else {
        assert s[MaxPartLength - 1] in s[..MaxPartLength];
      }
    }
  }

  /** Capping the cleaned text gives either nothing (when nothing survived the
      cleaning) or a clean part. */
  lemma CappedIsClean(text: string)
    ensures CapLength(Cleaned(text)) == "" <==> Cleaned(text) == ""
    ensures CapLength(Cleaned(text)) != "" ==> IsCleanPart(CapLength(Cleaned(text)))
  {
    CleanedIsTidy(text);
    CapKeepsTidy(Cleaned(text));
  }

  /** `Cleaned` removes everything exactly when every character of the text is a
      reserved character, white space or `_`. */
  lemma {:induction false} CleanedEmptyIff(text: string)
    ensures Cleaned(text) == "" <==>
      forall i :: 0 <= i < |text| ==> IsReservedChar(text[i]) || IsRunChar(text[i])
  {
    var replaced := ReplaceReserved(text);
    var squeezed := Squeeze(replaced, false);
    AllUnderscoresIff(replaced, false);
    assert (forall i :: 0 <= i < |text| ==> IsReservedChar(text[i]) || IsRunChar(text[i]))
       <==> (forall i :: 0 <= i < |replaced| ==> IsRunChar(replaced[i]));
    var trailing := StripTrailing(squeezed);
    if trailing != [] {
      assert StripLeading(trailing) != [] by {
        assert trailing[|trailing| - 1] != '_';
      }
    }
  }

  /** A squeezed string consists of underscores only exactly when its input
      consisted of run characters only. */
  lemma {:induction false} AllUnderscoresIff(s: string, inRun: bool)
    ensures (forall i :: 0 <= i < |Squeeze(s, inRun)| ==> Squeeze(s, inRun)[i] == '_')
       <==> (forall i :: 0 <= i < |s| ==> IsRunChar(s[i]))
  {
    if s != [] {
      AllUnderscoresIff(s[1..], IsRunChar(s[0]));
      if IsRunChar(s[0]) {
        RunHead(s, inRun);
      } else {
        NonRunHead(s, inRun);
      }
    }
  }

  /** A string that starts with a run character squeezes to underscores only
      exactly when its tail does, and is all run characters exactly when its
      tail is. */
  lemma RunHead(s: string, inRun: bool)
    requires s != [] && IsRunChar(s[0])
    ensures (forall i :: 0 <= i < |Squeeze(s, inRun)| ==> Squeeze(s, inRun)[i] == '_')
       <==> (forall i :: 0 <= i < |Squeeze(s[1..], true)| ==> Squeeze(s[1..], true)[i] == '_')
    ensures (forall i :: 0 <= i < |s| ==> IsRunChar(s[i]))
       <==> (forall i :: 0 <= i < |s[1..]| ==> IsRunChar(s[1..][i]))
  {
    if !inRun {
      assert Squeeze(s, inRun) == "_" + Squeeze(s[1..], true);
      UnderscoreHead(Squeeze(s[1..], true));
    } else {
      assert Squeeze(s, inRun) == Squeeze(s[1..], true);
    }
    RunHeadChars(s);
  }

  lemma UnderscoreHead(rest: string)
    ensures (forall i :: 0 <= i < |"_" + rest| ==> ("_" + rest)[i] == '_')
       <==> (forall i :: 0 <= i < |rest| ==> rest[i] == '_')
  {
    var r := "_" + rest;
    assert r[0] == '_';
    assert forall i :: 0 < i < |r| ==> r[i] == rest[i - 1];
    assert forall i :: 0 <= i < |rest| ==> rest[i] == r[i + 1];
  }

  lemma RunHeadChars(s: string)
    requires s != [] && IsRunChar(s[0])
    ensures (forall i :: 0 <= i < |s| ==> IsRunChar(s[i]))
       <==> (forall i :: 0 <= i < |s[1..]| ==> IsRunChar(s[1..][i]))
  {
    assert forall i :: 0 < i < |s| ==> s[i] == s[1..][i - 1];
    assert forall i :: 0 <= i < |s[1..]| ==> s[1..][i] == s[i + 1];
  }

  /** A string that starts with a character outside the runs is neither all run
      characters nor squeezed to underscores only. */
  lemma NonRunHead(s: string, inRun: bool)
    requires s != [] && !IsRunChar(s[0])
    ensures !(forall i :: 0 <= i < |Squeeze(s, inRun)| ==> Squeeze(s, inRun)[i] == '_')
    ensures !(forall i :: 0 <= i < |s| ==> IsRunChar(s[i]))
  {
    var r := Squeeze(s, inRun);
    assert r[0] == s[0];
    assert IsRunChar('_');
    assert r[0] != '_';
  }

  /** A string without white space and without `__` survives squeezing. */
  lemma {:induction false} SqueezeKeepsTidy(s: string, inRun: bool)
    requires forall i :: 0 <= i < |s| ==> !IsSpace(s[i])
    requires NoDoubleUnderscore(s)
    requires inRun ==> s == [] || s[0] != '_'
    ensures Squeeze(s, inRun) == s
  {
    if s != [] {
      SqueezeKeepsTidy(s[1..], s[0] == '_');
      if s[0] == '_' {
        assert s == "_" + s[1..];
      } else {
        assert s == [s[0]] + s[1..];
      }
    }
  }

  /** A clean part is a fixed point of the sanitizer. */
  lemma CleanPartIsFixedPoint(s: string)
    requires IsCleanPart(s)
    ensures SanitizePart(Some(s)) == s
  {
    assert ReplaceReserved(s) == s;
    SqueezeKeepsTidy(s, false);
    assert Cleaned(s) == s;
  }

  /** Sanitizing twice is sanitizing once. */
  lemma SanitizeIdempotent(text: Option<string>)
    ensures SanitizePart(Some(SanitizePart(text))) == SanitizePart(text)
  {
    CleanPartIsFixedPoint(SanitizePart(text));
  }

  /** A non-empty text becomes the placeholder `Invalido` when it holds nothing
      but reserved characters, white space and underscores; otherwise it becomes
      a non-empty prefix of its cleaned form. */
  lemma InvalidoExactlyWhenNothingSurvives(t: string)
    requires t != ""
    ensures (forall i :: 0 <= i < |t| ==> IsReservedChar(t[i]) || IsRunChar(t[i])) ==>
      SanitizePart(Some(t)) == FallbackInvalidPart
    ensures !(forall i :: 0 <= i < |t| ==> IsReservedChar(t[i]) || IsRunChar(t[i])) ==>
      var r := SanitizePart(Some(t));
      r == CapLength(Cleaned(t)) && r == Cleaned(t)[..|r|]
  {
    var c := Cleaned(t);
    CleanedEmptyIff(t);
    CappedIsClean(t);
    if c == "" {
      assert SanitizePart(Some(t)) == FallbackInvalidPart;
    } else {
      var r := CapLength(c);
      assert r != "";
      assert SanitizePart(Some(t)) == r;
    }
  }

  // ------------------------------------------------------ pathlib name parts

  /** Python `name.rfind('.')`, -1 when absent. */
  function RFindDot(name: string): (i: int)
    ensures -1 <= i < |name|
    ensures i >= 0 ==> name[i] == '.' && forall j :: i < j < |name| ==> name[j] != '.'
    ensures i == -1 ==> '.' !in name
  {
    if name == [] then -1
    else if name[|name| - 1] == '.' then |name| - 1
    else RFindDot(name[..|name| - 1])
  }

  /** `PurePath.suffix`: from the last dot on, unless that dot leads the name or
      ends it. */
  function Suffix(name: string): string
  {
    var i := RFindDot(name);
    if 0 < i < |name| - 1 then name[i..] else ""
  }

  /** `PurePath.stem`. */
  function Stem(name: string): string
  {
    var i := RFindDot(name);
    if 0 < i < |name| - 1 then name[..i] else name
  }

  /** Stem and suffix split the name without losing a character. */
  lemma StemSuffixSplit(name: string)
    ensures Stem(name) + Suffix(name) == name
    ensures Suffix(name) != "" ==> |Suffix(name)| >= 2 && Suffix(name)[0] == '.' && '.' !in Suffix(name)[1..]
  {
    var i := RFindDot(name);
    if 0 < i < |name| - 1 {
      assert name[..i] + name[i..] == name;
      assert forall j :: 0 <= j < |name[i..][1..]| ==> name[i..][1..][j] == name[i + 1 + j];
    }
  }

  /** Appending a suffix to a non-empty base gives a name with that same suffix. */
  lemma SuffixOfAppended(base: string, sfx: string)
    requires base != []
    requires |sfx| >= 2 && sfx[0] == '.' && '.' !in sfx[1..]
    ensures Suffix(base + sfx) == sfx
  {
    var name := base + sfx;
    assert name[|base|] == '.';
    assert forall j :: |base| < j < |name| ==> name[j] == sfx[1..][j - |base| - 1];
    RFindDotIsLast(name, |base|);
    assert name[|base|..] == sfx;
  }

  lemma RFindDotIsLast(name: string, k: nat)
    requires k < |name| && name[k] == '.'
    requires forall j :: k < j < |name| ==> name[j] != '.'
    ensures RFindDot(name) == k
  {
    assert name[k] in name;
  }

  // ------------------------------------------------------ suffix search

  /** The candidate names `base+ext`, `base_1+ext`, `base_2+ext`, ... */
  function Candidate(base: string, ext: string, k: nat): string
  {
    if k == 0 then base + ext else base + "_" + NatToString(k) + ext
  }

  /** The first candidate from number `k` on that is not taken, trying numbers up
      to 99 only. */
  function FirstFreeFrom(taken: set<string>, base: string, ext: string, k: nat): Option<string>
    decreases MaxSuffixCounter - k
  {
    if k >= MaxSuffixCounter then None
    else if Candidate(base, ext, k) !in taken then Some(Candidate(base, ext, k))
    else FirstFreeFrom(taken, base, ext, k + 1)
  }

  /** The search moves only to a free name, and gives up exactly when the 100
      candidates `base`, `base_1`, ..., `base_99` are all taken. */
  lemma FirstFreeFromCorrect(taken: set<string>, base: string, ext: string, k: nat)
    requires k <= MaxSuffixCounter
    ensures FirstFreeFrom(taken, base, ext, k).None? <==> AllTakenFrom(taken, base, ext, k)
    ensures FirstFreeFrom(taken, base, ext, k).Some? ==> FirstFreeFrom(taken, base, ext, k).value !in taken
  {
    FirstFreeFound(taken, base, ext, k);
    if AllTakenFrom(taken, base, ext, k) {
      AllTakenGivesNone(taken, base, ext, k);
    }
  }

  /** Every candidate numbered from `k` up to 99 is taken. */
  predicate AllTakenFrom(taken: set<string>, base: string, ext: string, k: nat) {
    forall j :: k <= j < MaxSuffixCounter ==> Candidate(base, ext, j) in taken
  }

  lemma {:induction false} FirstFreeFound(taken: set<string>, base: string, ext: string, k: nat)
    ensures FirstFreeFrom(taken, base, ext, k).None? ==> AllTakenFrom(taken, base, ext, k)
    ensures FirstFreeFrom(taken, base, ext, k).Some? ==> FirstFreeFrom(taken, base, ext, k).value !in taken
    decreases MaxSuffixCounter - k
  {
    if k < MaxSuffixCounter && Candidate(base, ext, k) in taken {
      FirstFreeFound(taken, base, ext, k + 1);
      if FirstFreeFrom(taken, base, ext, k).None? {
        forall j | k <= j < MaxSuffixCounter ensures Candidate(base, ext, j) in taken {
          if j > k {
            assert k + 1 <= j;
          }
        }
      }
    }
  }

  lemma {:induction false} AllTakenGivesNone(taken: set<string>, base: string, ext: string, k: nat)
    requires AllTakenFrom(taken, base, ext, k)
    ensures FirstFreeFrom(taken, base, ext, k).None?
    decreases MaxSuffixCounter - k
  {
    if k < MaxSuffixCounter {
      assert Candidate(base, ext, k) in taken;
      AllTakenGivesNone(taken, base, ext, k + 1);
    }
  }

  /** The name found is the first free candidate: when candidate `n` is free and
      all before it are taken, candidate `n` is chosen. */
  lemma {:induction false} FirstFreeIsFirst(taken: set<string>, base: string, ext: string, k: nat, n: nat)
    requires k <= n < MaxSuffixCounter
    requires Candidate(base, ext, n) !in taken
    requires forall j :: k <= j < n ==> Candidate(base, ext, j) in taken
    ensures FirstFreeFrom(taken, base, ext, k) == Some(Candidate(base, ext, n))
    decreases n - k
  {
    if k < n {
      FirstFreeIsFirst(taken, base, ext, k + 1, n);
    }
  }

  /** `base_100` is never a possible outcome: the loop stops before trying it. */
  lemma HundredthNeverTried(taken: set<string>, base: string, ext: string)
    ensures FirstFreeFrom(taken, base, ext, 0) != Some(Candidate(base, ext, MaxSuffixCounter))
  {
    FirstFreeCandidate(taken, base, ext, 0);
    if FirstFreeFrom(taken, base, ext, 0).Some? {
      var n :| 0 <= n < MaxSuffixCounter &&
        FirstFreeFrom(taken, base, ext, 0).value == Candidate(base, ext, n);
      CandidatesDistinct(base, ext, n, MaxSuffixCounter);
    }
  }

  /** Whatever the search finds is one of the candidates numbered below 100. */
  lemma {:induction false} FirstFreeCandidate(taken: set<string>, base: string, ext: string, k: nat)
    ensures FirstFreeFrom(taken, base, ext, k).Some? ==>
      exists n :: k <= n < MaxSuffixCounter && FirstFreeFrom(taken, base, ext, k).value == Candidate(base, ext, n)
    decreases MaxSuffixCounter - k
  {
    if k < MaxSuffixCounter && Candidate(base, ext, k) in taken {
      FirstFreeCandidate(taken, base, ext, k + 1);
    }
  }

  /** Different counters give different names. */
  lemma CandidatesDistinct(base: string, ext: string, m: nat, n: nat)
    requires m != n
    ensures Candidate(base, ext, m) != Candidate(base, ext, n)
  {
    if m != 0 && n != 0 && Candidate(base, ext, m) == Candidate(base, ext, n) {
      var cm := Candidate(base, ext, m);
      var p := |base| + 1;
      assert |NatToString(m)| == |NatToString(n)|;
      assert cm[p..p + |NatToString(m)|] == NatToString(m);
      assert Candidate(base, ext, n)[p..p + |NatToString(n)|] == NatToString(n);
      NatToStringInjective(m, n);
    }
  }

  /** The `while move_target_path.exists()` loops of `_handle_duplicate_file` and
      `_handle_problematic_file`; `probes` counts the existence checks. */
  method FindFreeName(taken: set<string>, base: string, ext: string)
    returns (found: Option<string>, probes: nat)
    ensures found == FirstFreeFrom(taken, base, ext, 0)
    ensures 1 <= probes <= MaxSuffixCounter
    ensures found.None? ==> probes == MaxSuffixCounter
    ensures found.Some? ==> found.value == Candidate(base, ext, probes - 1)
  {
    var target := Candidate(base, ext, 0);
    var counter := 1;
    probes := 1;
    while target in taken
      invariant 1 <= counter <= MaxSuffixCounter
      invariant probes == counter
      invariant target == Candidate(base, ext, counter - 1)
      invariant FirstFreeFrom(taken, base, ext, 0) == FirstFreeFrom(taken, base, ext, counter - 1)
      decreases MaxSuffixCounter - counter
    {
      target := Candidate(base, ext, counter);
      counter := counter + 1;
      if counter > MaxSuffixCounter {
        return None, probes;
      }
      probes := probes + 1;
    }
    found := Some(target);
  }

  // ------------------------------------------------------ one message

  /** What reading one message gave: either an error, with the file's modification
      time already formatted "%Y %m %d %H%M%S", or the formatted date, the number
      of errors counted while finding that date (the modification time or the clock
      standing in for a bad Date header), and the decoded Subject and From headers. */
  datatype EmlRead =
    | Unreadable(modificationDate: string)
    | Headers(date: string, dateErrors: nat, subject: string, sender: string)

  /** Lines 255-256: the new base name and file name of a message. */
  function NewBaseName(date: string, subject: string, sender: string): string
  {
    date + " - " + SanitizePart(Some(subject)) + " - " + SanitizePart(Some(sender))
  }

  /** The new base name starts with the date and " - ", and ends with the
      sanitized sender after the last space; each part adds 1 to 60 characters,
      so the name is 8 to 126 characters longer than the date. */
  lemma NewBaseNameShape(date: string, subject: string, sender: string)
    ensures var n := NewBaseName(date, subject, sender);
      var p := SanitizePart(Some(sender));
      && |date| + 8 <= |n| <= |date| + 6 + 2 * MaxPartLength
      && n[..|date| + 3] == date + " - "
      && n[|n| - |p|..] == p && n[|n| - |p| - 1] == ' '
      && forall i :: |n| - |p| <= i < |n| ==> n[i] != ' '
  {
    JoinedPartsShape(date, SanitizePart(Some(subject)), SanitizePart(Some(sender)));
  }

  lemma JoinedPartsShape(date: string, s: string, p: string)
    requires IsCleanPart(s) && IsCleanPart(p)
    ensures var n := date + " - " + s + " - " + p;
      && |date| + 8 <= |n| <= |date| + 6 + 2 * MaxPartLength
      && n[..|date| + 3] == date + " - "
      && n[|n| - |p|..] == p && n[|n| - |p| - 1] == ' '
      && forall i :: |n| - |p| <= i < |n| ==> n[i] != ' '
  {
    var q := date + " - " + s + " - ";
    assert q[..|date| + 3] == date + " - ";
    assert q[|q| - 1] == ' ';
    assert IsSpace(' ');
    AfterLastSpace(q, p);
    assert (q + p)[..|date| + 3] == q[..|date| + 3];
  }

  /** Glued after a text ending in a space, a text without spaces is what follows
      the last space. */
  lemma AfterLastSpace(q: string, p: string)
    requires q != [] && q[|q| - 1] == ' '
    requires forall i :: 0 <= i < |p| ==> p[i] != ' '
    ensures (q + p)[..|q|] == q && (q + p)[|q|..] == p && (q + p)[|q| - 1] == ' '
    ensures forall i :: |q| <= i < |q| + |p| ==> (q + p)[i] != ' '
  {
    assert forall i :: |q| <= i < |q| + |p| ==> (q + p)[i] == p[i - |q|];
  }

  /** Lines 171-172: the base name a file gets in `Problemas`. */
  function ProblemBaseName(modificationDate: string, name: string): string
  {
    modificationDate + " - ERRO_LEITURA - " + SanitizePart(Some(Stem(name)))
  }

  /** The three-way decision of `_process_single_eml`, plus the error path. */
  datatype Decision =
    | KeepName                     // the new name is this very file
    | ToDuplicates(base: string)   // the new name belongs to another entry
    | RenameTo(target: string)     // the new name is free
    | ToProblems(base: string)     // the message could not be read

  /** `same(a, b)` says that `a` and `b` resolve to one file (`Path.resolve`);
      equal names always do. */
  function Decide(files: set<string>, folders: set<string>, name: string, read: EmlRead,
                  same: (string, string) -> bool): Decision
  {
    match read
    case Unreadable(mdate) => ToProblems(ProblemBaseName(mdate, name))
    case Headers(date, _, subject, sender) =>
      var base := NewBaseName(date, subject, sender);
      var target := base + Suffix(name);
      if target in files || target in folders then
        if target == name || same(name, target) then KeepName else ToDuplicates(base)
      else RenameTo(target)
  }

  /** A rename never lands on an existing entry, keeps the original suffix, and the
      renamed file is left alone when it is processed again. */
  lemma RenameIsSafeAndStable(files: set<string>, folders: set<string>, name: string,
                              read: EmlRead, same: (string, string) -> bool)
    requires name in files
    requires |name| > 4 && EndsWith(Lower(name), ".eml")
    requires Decide(files, folders, name, read, same).RenameTo?
    ensures var t := Decide(files, folders, name, read, same).target;
      && t !in files && t !in folders
      && EndsWith(Lower(t), ".eml")
      && Decide(files - {name} + {t}, folders, t, read, same) == KeepName
  {
    var base := NewBaseName(read.date, read.subject, read.sender);
    var t := base + Suffix(name);
    assert Decide(files, folders, name, read, same).target == t;
    EmlSuffix(name);
    StemSuffixSplit(name);
    assert base != [];
    SuffixOfAppended(base, Suffix(name));
    SameTailSameLowerEnding(t, name, ".eml");
  }

  lemma SameTailSameLowerEnding(a: string, b: string, ending: string)
    requires |ending| <= |a| && |ending| <= |b|
    requires a[|a| - |ending|..] == b[|b| - |ending|..]
    requires EndsWith(Lower(b), ending)
    ensures EndsWith(Lower(a), ending)
  {
    var k := |ending|;
    LowerSuffix(a, |a| - k);
    LowerSuffix(b, |b| - k);
    assert Lower(a)[|a| - k..] == Lower(b)[|b| - k..];
  }

  /** A name longer than ".eml" that ends in ".eml" (any case) has a four-character
      suffix ending the same way. */
  lemma EmlSuffix(name: string)
    requires |name| > 4 && EndsWith(Lower(name), ".eml")
    ensures |Suffix(name)| == 4 && Suffix(name) == name[|name| - 4..]
  {
    var k := |name| - 4;
    assert Lower(name)[k] == '.';
    assert name[k] == '.';
    assert forall j :: k < j < |name| ==> name[j] != '.' by {
      forall j | k < j < |name| ensures name[j] != '.' {
        assert Lower(name)[j] in "eml";
      }
    }
    RFindDotIsLast(name, k);
  }

  /** The name of exactly ".eml" is processed (it ends in ".eml") but has no
      suffix, so its new name has no extension. */
  lemma BareEmlLosesExtension()
    ensures EndsWith(Lower(".eml"), ".eml") && Suffix(".eml") == ""
  {
    assert RFindDot(".eml") == 0;
  }

  // ------------------------------------------------------ the folder walk

  /** What `run` does with one entry of the folder. */
  datatype EntryAction = SkipCounted | SkipSilently | Process

  function ActionFor(name: string, isFolder: bool): EntryAction
  {
    if isFolder then
      if name in [DuplicatesFolder, ProblemsFolder, LogFolder] then SkipSilently else SkipCounted
    else if EndsWith(Lower(name), ".eml") then Process
    else SkipCounted
  }

  /** How many entries of a listing `run` counts as skipped. */
  function SkippedIn(listing: seq<string>, folders: set<string>): nat
  {
    if listing == [] then 0
    else
      var last := listing[|listing| - 1];
      var here := if ActionFor(last, last in folders) == SkipCounted then 1 else 0;
      SkippedIn(listing[..|listing| - 1], folders) + here
  }

  /** Folders are never processed; a file is processed exactly when its name ends
      in ".eml" in any case; only folders other than the three special ones and
      files not ending in ".eml" are counted as skipped. */
  lemma ActionForCases(name: string, isFolder: bool)
    ensures ActionFor(name, isFolder) == Process <==> !isFolder && EndsWith(Lower(name), ".eml")
    ensures ActionFor(name, isFolder) == SkipSilently <==>
      isFolder && (name == DuplicatesFolder || name == ProblemsFolder || name == LogFolder)
  {
  }

  /** `_generate_summary`. */
  function Summary(basePath: string, renamed: nat, duplicates: nat, problems: nat,
                   skipped: nat, errors: nat): string
  {
    Join([
      "Processamento concluído em: " + basePath + "\n",
      "Arquivos .eml renomeados na pasta principal: " + NatToString(renamed),
      "Arquivos movidos para '" + DuplicatesFolder + "' (nomes duplicados): " + NatToString(duplicates),
      "Arquivos movidos para '" + ProblemsFolder + "' (erro leitura/processamento): " + NatToString(problems),
      "Arquivos/Pastas ignorados (não .eml ou pastas especiais): " + NatToString(skipped),
      "Erros totais encontrados (leitura/renomeação/movimentação): " + NatToString(errors)
    ], "\n")
  }

  // ------------------------------------------------------ the renamer's state

  /** The entries of the base folder, the names in its two special sub-folders,
      and the five counters. */
  datatype RenamerState = RenamerState(
    files: set<string>, folders: set<string>,
    duplicates: set<string>, problems: set<string>,
    renamed: nat, toDuplicates: nat, toProblems: nat, errors: nat, skipped: nat)

  /** A name is a file or a folder, not both; a special sub-folder that does not
      exist holds nothing. */
  predicate Consistent(s: RenamerState) {
    && s.files !! s.folders
    && (DuplicatesFolder !in s.folders ==> s.duplicates == {})
    && (ProblemsFolder !in s.folders ==> s.problems == {})
  }

  /** `_handle_duplicate_file`. */
  function DuplicateStep(s: RenamerState, name: string, base: string): RenamerState
  {
    if name !in s.files then s
    else if DuplicatesFolder in s.files then s.(errors := s.errors + 1)  // mkdir fails
    else
      MoveToDuplicates(s.(folders := s.folders + {DuplicatesFolder}), name,
                       FirstFreeFrom(s.duplicates, base, Suffix(name), 0))
  }

  /** Moving the file into `Duplicatas` under the name found, if any. */
  function MoveToDuplicates(s: RenamerState, name: string, found: Option<string>): RenamerState
  {
    match found
    case None => s
    case Some(t) =>
      s.(files := s.files - {name}, duplicates := s.duplicates + {t},
         toDuplicates := s.toDuplicates + 1)
  }

  /** `_handle_problematic_file`. */
  function ProblemStep(s: RenamerState, name: string, base: string): RenamerState
  {
    if name !in s.files then s.(errors := s.errors + 1)
    else if ProblemsFolder in s.files then s.(errors := s.errors + 2)  // mkdir fails
    else
      MoveToProblems(s.(errors := s.errors + 1, folders := s.folders + {ProblemsFolder}), name,
                     FirstFreeFrom(s.problems, base, Suffix(name), 0))
  }

  /** Moving the file into `Problemas` under the name found, if any. */
  function MoveToProblems(s: RenamerState, name: string, found: Option<string>): RenamerState
  {
    match found
    case None => s
    case Some(t) =>
      s.(files := s.files - {name}, problems := s.problems + {t},
         toProblems := s.toProblems + 1)
  }

  /** `_process_single_eml`; a file that is gone cannot be opened, and the problem
      handler then finds it gone. */
  function EmlStep(s: RenamerState, name: string, read: EmlRead,
                   same: (string, string) -> bool): RenamerState
  {
    if name !in s.files then s.(errors := s.errors + 1)
    else Apply(WithDateErrors(s, read), name, Decide(s.files, s.folders, name, read, same))
  }

  /** The errors counted while the date of a readable message was looked up. */
  function WithDateErrors(s: RenamerState, read: EmlRead): RenamerState
  {
    if read.Headers? then s.(errors := s.errors + read.dateErrors) else s
  }

  /** Carrying out a decision about the file `name`. */
  function Apply(s: RenamerState, name: string, d: Decision): RenamerState
  {
    match d
    case KeepName => s
    case RenameTo(t) => s.(files := s.files - {name} + {t}, renamed := s.renamed + 1)
    case ToDuplicates(base) => DuplicateStep(s, name, base)
    case ToProblems(base) => ProblemStep(s, name, base)
  }

  /** The loop of `run` over the first entries of the listing; whether an entry is
      a folder is asked of the folder as it is at that moment. */
  function RunSteps(s: RenamerState, listing: seq<string>, readOf: string -> EmlRead,
                    same: (string, string) -> bool): RenamerState
  {
    if listing == [] then s
    else RunStep(RunSteps(s, listing[..|listing| - 1], readOf, same), listing[|listing| - 1], readOf, same)
  }

  /** One entry of the listing in `run`. */
  function RunStep(s: RenamerState, item: string, readOf: string -> EmlRead,
                   same: (string, string) -> bool): RenamerState
  {
    match ActionFor(item, item in s.folders)
    case SkipSilently => s
    case SkipCounted => s.(skipped := s.skipped + 1)
    case Process => EmlStep(s, item, readOf(item), same)
  }

  /** Everything the renamer holds: files in the base folder and in both special
      sub-folders. */
  function Entries(s: RenamerState): nat {
    |s.files| + |s.duplicates| + |s.problems|
  }

  /** How many files the renamer has moved or renamed. */
  function Moves(s: RenamerState): nat {
    s.renamed + s.toDuplicates + s.toProblems
  }

  // ------------------------------------------------------ properties of a step

  /** Processing one message keeps the state consistent, never loses or overwrites
      a file (the three places hold as many files as before), moves only that one
      file, creates no folder but the two special ones, and counts a move exactly
      when the file left the base folder. */
  lemma EmlStepKeepsEveryFile(s: RenamerState, name: string, read: EmlRead,
                              same: (string, string) -> bool)
    requires Consistent(s)
    ensures var r := EmlStep(s, name, read, same);
      && Consistent(r)
      && Entries(r) == Entries(s)
      && (forall n :: n in s.files && n != name ==> n in r.files)
      && (forall n :: n in r.files && n !in s.files ==> n !in s.folders)
      && s.folders <= r.folders && r.folders - s.folders <= {DuplicatesFolder, ProblemsFolder} - s.files
      && (Moves(r) == Moves(s) + 1 <==> name in s.files && name !in r.files)
      && (Moves(r) == Moves(s) || Moves(r) == Moves(s) + 1)
      && r.errors >= s.errors && r.skipped == s.skipped
  {
    if name in s.files {
      var s1 := WithDateErrors(s, read);
      var d := Decide(s.files, s.folders, name, read, same);
      EmlStepUnfolds(s, name, read, same);
      DecideFacts(s.files, s.folders, name, read, same);
      ApplyKeepsEveryFile(s1, name, d);
    }
  }

  lemma EmlStepUnfolds(s: RenamerState, name: string, read: EmlRead,
                       same: (string, string) -> bool)
    requires name in s.files
    ensures EmlStep(s, name, read, same) ==
      Apply(WithDateErrors(s, read), name, Decide(s.files, s.folders, name, read, same))
  {
  }

  /** An unreadable message goes to `Problemas`; a rename target is free. */
  lemma DecideFacts(files: set<string>, folders: set<string>, name: string, read: EmlRead,
                    same: (string, string) -> bool)
    ensures Decide(files, folders, name, read, same).ToProblems? <==> read.Unreadable?
    ensures read.Headers? && Decide(files, folders, name, read, same).RenameTo? ==>
      Decide(files, folders, name, read, same).target ==
        NewBaseName(read.date, read.subject, read.sender) + Suffix(name)
    ensures Decide(files, folders, name, read, same).RenameTo? ==>
      Decide(files, folders, name, read, same).target !in files + folders
    ensures (read.Headers? && NewBaseName(read.date, read.subject, read.sender) + Suffix(name) !in files + folders) ==>
      Decide(files, folders, name, read, same) ==
        RenameTo(NewBaseName(read.date, read.subject, read.sender) + Suffix(name))
    ensures read.Headers? ==>
      var t := NewBaseName(read.date, read.subject, read.sender) + Suffix(name);
      t in files + folders ==>
        (Decide(files, folders, name, read, same) == KeepName <==> t == name || same(name, t))
    ensures read.Headers? ==>
      var t := NewBaseName(read.date, read.subject, read.sender) + Suffix(name);
      t in files + folders && t != name && !same(name, t) ==>
        Decide(files, folders, name, read, same) ==
          ToDuplicates(NewBaseName(read.date, read.subject, read.sender))
  {
    if read.Headers? {
      DecideHeaders(files, folders, name, read, same);
    }
  }

  /** The decision for a readable message, in terms of its new name. */
  lemma DecideHeaders(files: set<string>, folders: set<string>, name: string, read: EmlRead,
                      same: (string, string) -> bool)
    requires read.Headers?
    ensures var base := NewBaseName(read.date, read.subject, read.sender);
      var t := base + Suffix(name);
      Decide(files, folders, name, read, same) ==
        if t in files || t in folders then
          (if t == name || same(name, t) then KeepName else ToDuplicates(base))
        else RenameTo(t)
  {
  }

  lemma ApplyKeepsEveryFile(s: RenamerState, name: string, d: Decision)
    requires Consistent(s) && name in s.files
    requires d.RenameTo? ==> d.target !in s.files + s.folders
    ensures var r := Apply(s, name, d);
      && Consistent(r)
      && Entries(r) == Entries(s)
      && (forall n :: n in s.files && n != name ==> n in r.files)
      && (forall n :: n in r.files && n !in s.files ==> n !in s.folders)
      && s.folders <= r.folders && r.folders - s.folders <= {DuplicatesFolder, ProblemsFolder} - s.files
      && (Moves(r) == Moves(s) + 1 <==> name !in r.files)
      && (Moves(r) == Moves(s) || Moves(r) == Moves(s) + 1)
      && r.errors >= s.errors && r.skipped == s.skipped
      && (d.ToProblems? ==> r.errors > s.errors)
  {
    match d
    case KeepName =>
    case RenameTo(t) =>
    case ToDuplicates(base) =>
      DuplicateStepKeepsEveryFile(s, name, base);
    case ToProblems(base) =>
      ProblemStepKeepsEveryFile(s, name, base);
  }

  lemma DuplicateStepKeepsEveryFile(s: RenamerState, name: string, base: string)
    requires Consistent(s) && name in s.files
    ensures var r := DuplicateStep(s, name, base);
      && Consistent(r)
      && Entries(r) == Entries(s)
      && (r.files == s.files - {name} || r.files == s.files)
      && s.folders <= r.folders && r.folders - s.folders <= {DuplicatesFolder} - s.files
      && (Moves(r) == Moves(s) + 1 <==> name !in r.files)
      && (Moves(r) == Moves(s) || Moves(r) == Moves(s) + 1)
      && r.errors >= s.errors && r.skipped == s.skipped
  {
    if DuplicatesFolder !in s.files {
      FirstFreeFromCorrect(s.duplicates, base, Suffix(name), 0);
    }
  }

  lemma ProblemStepKeepsEveryFile(s: RenamerState, name: string, base: string)
    requires Consistent(s) && name in s.files
    ensures var r := ProblemStep(s, name, base);
      && Consistent(r)
      && Entries(r) == Entries(s)
      && (r.files == s.files - {name} || r.files == s.files)
      && s.folders <= r.folders && r.folders - s.folders <= {ProblemsFolder} - s.files
      && (Moves(r) == Moves(s) + 1 <==> name !in r.files)
      && (Moves(r) == Moves(s) || Moves(r) == Moves(s) + 1)
      && r.errors > s.errors && r.skipped == s.skipped
  {
    if ProblemsFolder !in s.files {
      FirstFreeFromCorrect(s.problems, base, Suffix(name), 0);
    }
  }

  /** An unreadable message always costs at least one error; a readable one whose
      new name is free is renamed to it. */
  lemma EmlStepOutcomes(s: RenamerState, name: string, read: EmlRead,
                        same: (string, string) -> bool)
    requires name in s.files
    ensures read.Unreadable? ==> EmlStep(s, name, read, same).errors > s.errors
    ensures (read.Headers? &&
      NewBaseName(read.date, read.subject, read.sender) + Suffix(name) !in s.files + s.folders) ==>
      EmlStep(s, name, read, same).renamed == s.renamed + 1 &&
      NewBaseName(read.date, read.subject, read.sender) + Suffix(name) in EmlStep(s, name, read, same).files
    ensures read.Headers? ==>
      var t := NewBaseName(read.date, read.subject, read.sender) + Suffix(name);
      t in s.files + s.folders && (t == name || same(name, t)) ==>
        EmlStep(s, name, read, same) == WithDateErrors(s, read)
    ensures read.Headers? ==>
      var t := NewBaseName(read.date, read.subject, read.sender) + Suffix(name);
      t in s.files + s.folders && t != name && !same(name, t) ==>
        EmlStep(s, name, read, same) ==
          DuplicateStep(WithDateErrors(s, read), name, NewBaseName(read.date, read.subject, read.sender))
  {
    var s1 := WithDateErrors(s, read);
    var d := Decide(s.files, s.folders, name, read, same);
    EmlStepUnfolds(s, name, read, same);
    DecideFacts(s.files, s.folders, name, read, same);
    if read.Unreadable? {
      ProblemStepCountsError(s, name, d.base);
    }
  }

  /** The errors met while reading the date of a readable message are all counted,
      whatever then happens to it; a message that keeps its name or is renamed
      adds no other error. */
  lemma EmlStepDateErrors(s: RenamerState, name: string, read: EmlRead,
                          same: (string, string) -> bool)
    requires name in s.files && read.Headers?
    ensures EmlStep(s, name, read, same).errors >= s.errors + read.dateErrors
    ensures !Decide(s.files, s.folders, name, read, same).ToDuplicates? ==>
      EmlStep(s, name, read, same).errors == s.errors + read.dateErrors
  {
    EmlStepUnfolds(s, name, read, same);
    var d := Decide(s.files, s.folders, name, read, same);
    assert !d.ToProblems?;
    ApplyErrors(WithDateErrors(s, read), name, d);
  }

  /** Keeping the name or renaming adds no error; a move to `Duplicatas` may add one. */
  lemma ApplyErrors(s: RenamerState, name: string, d: Decision)
    requires !d.ToProblems?
    ensures Apply(s, name, d).errors >= s.errors
    ensures !d.ToDuplicates? ==> Apply(s, name, d).errors == s.errors
  {
    if d.ToDuplicates? {
      var r := DuplicateStep(s, name, d.base);
      if name in s.files && DuplicatesFolder !in s.files {
        var found := FirstFreeFrom(s.duplicates, d.base, Suffix(name), 0);
        assert r == MoveToDuplicates(s.(folders := s.folders + {DuplicatesFolder}), name, found);
      }
    }
  }

  /** A file moved to `Problemas` is named after its modification date, the marker
      "ERRO_LEITURA" and its sanitized stem. */
  lemma ProblemBaseNameShape(modificationDate: string, name: string)
    ensures var b := ProblemBaseName(modificationDate, name);
      var k := |modificationDate + " - ERRO_LEITURA - "|;
      |b| > k && b[..k] == modificationDate + " - ERRO_LEITURA - " &&
      b[k..] == SanitizePart(Some(Stem(name))) && IsCleanPart(b[k..])
  {
    var b := ProblemBaseName(modificationDate, name);
    var k := |modificationDate + " - ERRO_LEITURA - "|;
    var part := SanitizePart(Some(Stem(name)));
    assert b == (modificationDate + " - ERRO_LEITURA - ") + part;
    assert b[..k] == modificationDate + " - ERRO_LEITURA - ";
    assert b[k..] == part;
  }

  lemma ProblemStepCountsError(s: RenamerState, name: string, base: string)
    ensures ProblemStep(s, name, base).errors > s.errors
  {
  }

  // ------------------------------------------------------ properties of a run

  /** Over a whole run the state stays consistent; no file is lost or overwritten;
      folders stay folders; files not in the listing, and files whose name does not
      end in ".eml", stay where they are; every move is counted once. */
  lemma {:induction false} RunKeepsEveryFile(s: RenamerState, listing: seq<string>,
                                            readOf: string -> EmlRead, same: (string, string) -> bool)
    requires Consistent(s)
    ensures var r := RunSteps(s, listing, readOf, same);
      && Consistent(r)
      && Entries(r) == Entries(s)
      && s.folders <= r.folders
      && (forall n :: n in s.files && (n !in listing || !EndsWith(Lower(n), ".eml")) ==> n in r.files)
      && Moves(r) <= Moves(s) + |listing|
      && r.errors >= s.errors
  {
    if listing != [] {
      var init := listing[..|listing| - 1];
      RunKeepsEveryFile(s, init, readOf, same);
      var before := RunSteps(s, init, readOf, same);
      var item := listing[|listing| - 1];
      assert forall n :: n in init ==> n in listing;
      if ActionFor(item, item in before.folders) == Process {
        EmlStepKeepsEveryFile(before, item, readOf(item), same);
      }
    }
  }

  /** When the listing names every entry of the folder once, the skip counter grows
      by the number of entries that are ordinary folders or files not ending in
      ".eml": processing a message never turns a later entry from a file into a
      folder or back. */
  lemma {:induction false} RunCountsSkipped(s: RenamerState, listing: seq<string>,
                                           readOf: string -> EmlRead, same: (string, string) -> bool)
    requires Consistent(s)
    requires forall n :: n in listing ==> n in s.files || n in s.folders
    requires forall i, j :: 0 <= i < j < |listing| ==> listing[i] != listing[j]
    ensures RunSteps(s, listing, readOf, same).skipped == s.skipped + SkippedIn(listing, s.folders)
  {
    if listing != [] {
      var init := listing[..|listing| - 1];
      var item := listing[|listing| - 1];
      assert forall n :: n in init ==> n in listing;
      assert forall i, j :: 0 <= i < j < |init| ==> init[i] != init[j];
      RunCountsSkipped(s, init, readOf, same);
      RunKeepsEveryFile(s, init, readOf, same);
      var before := RunSteps(s, init, readOf, same);
      assert item !in init;
      assert item in before.folders <==> item in s.folders;
      if ActionFor(item, item in before.folders) == Process {
        EmlStepKeepsEveryFile(before, item, readOf(item), same);
      }
    }
  }

  // ------------------------------------------------------ the renamer object

  /** `EmlRenamer`: the entries of the base folder and of its two sub-folders, and
      the counters. */
  class Renamer {
    var files: set<string>
    var folders: set<string>
    var duplicates: set<string>
    var problems: set<string>
    var renamedCount: nat
    var movedToDuplicatesCount: nat
    var movedToProblemsCount: nat
    var errorCount: nat
    var skippedCount: nat

    ghost function Snapshot(): RenamerState
      reads this
    {
      RenamerState(files, folders, duplicates, problems, renamedCount,
                   movedToDuplicatesCount, movedToProblemsCount, errorCount, skippedCount)
    }

    constructor (files: set<string>, folders: set<string>, duplicates: set<string>, problems: set<string>)
      ensures Snapshot() == RenamerState(files, folders, duplicates, problems, 0, 0, 0, 0, 0)
    {
      this.files := files;
      this.folders := folders;
      this.duplicates := duplicates;
      this.problems := problems;
      renamedCount, movedToDuplicatesCount, movedToProblemsCount := 0, 0, 0;
      errorCount, skippedCount := 0, 0;
    }

    /** `EmlRenamer(base_folder_path)`: `_setup_logger` makes the folder
        `LOGS_RENOMEAR_EML` inside the base folder (and the base folder itself
        when it is missing, whose listing is then empty) and opens a log file in
        it. `mkdir` raises, ending the script, when the base path is a regular file
        or `LOGS_RENOMEAR_EML` is one; otherwise the renamer starts with its
        counters at zero and the log folder among the base folder's folders. */
    static method Create(baseIsFile: bool, files: set<string>, folders: set<string>,
                         duplicates: set<string>, problems: set<string>)
      returns (r: Option<Renamer>)
      ensures baseIsFile || LogFolder in files ==> r == None
      ensures !baseIsFile && LogFolder !in files ==>
        r.Some? && fresh(r.value) &&
        r.value.Snapshot() == RenamerState(files, folders + {LogFolder}, duplicates, problems, 0, 0, 0, 0, 0)
    {
      if baseIsFile || LogFolder in files {
        return None;
      }
      var renamer := new Renamer(files, folders + {LogFolder}, duplicates, problems);
      return Some(renamer);
    }

    /** `_handle_duplicate_file`. */
    method HandleDuplicate(name: string, base: string)
      modifies this
      ensures Snapshot() == DuplicateStep(old(Snapshot()), name, base)
    {
      if name in files {
        if DuplicatesFolder in files {
          errorCount := errorCount + 1;
        } else {
          folders := folders + {DuplicatesFolder};
          var found, _ := FindFreeName(duplicates, base, Suffix(name));
          MoveIntoDuplicates(name, found);
        }
      }
    }

    method MoveIntoDuplicates(name: string, found: Option<string>)
      modifies this
      ensures Snapshot() == MoveToDuplicates(old(Snapshot()), name, found)
    {
      if found.Some? {
        files := files - {name};
        duplicates := duplicates + {found.value};
        movedToDuplicatesCount := movedToDuplicatesCount + 1;
      }
    }

    /** `_handle_problematic_file`. */
    method HandleProblematic(name: string, base: string)
      modifies this
      ensures Snapshot() == ProblemStep(old(Snapshot()), name, base)
    {
      errorCount := errorCount + 1;
      if name in files {
        if ProblemsFolder in files {
          errorCount := errorCount + 1;
        } else {
          folders := folders + {ProblemsFolder};
          var found, _ := FindFreeName(problems, base, Suffix(name));
          MoveIntoProblems(name, found);
        }
      }
    }

    method MoveIntoProblems(name: string, found: Option<string>)
      modifies this
      ensures Snapshot() == MoveToProblems(old(Snapshot()), name, found)
    {
      if found.Some? {
        files := files - {name};
        problems := problems + {found.value};
        movedToProblemsCount := movedToProblemsCount + 1;
      }
    }

    /** Carrying out a decision. */
    method ApplyDecision(name: string, decision: Decision)
      modifies this
      ensures Snapshot() == Apply(old(Snapshot()), name, decision)
    {
      match decision
      case KeepName =>
      case RenameTo(t) =>
        files := files - {name} + {t};
        renamedCount := renamedCount + 1;
      case ToDuplicates(base) =>
        HandleDuplicate(name, base);
      case ToProblems(base) =>
        HandleProblematic(name, base);
    }

    /** `_process_single_eml`. */
    method ProcessSingleEml(name: string, read: EmlRead, same: (string, string) -> bool)
      modifies this
      ensures Snapshot() == EmlStep(old(Snapshot()), name, read, same)
    {
      if name !in files {
        errorCount := errorCount + 1;
      } else {
        EmlStepUnfolds(Snapshot(), name, read, same);
        var decision := Decide(files, folders, name, read, same);
        if read.Headers? {
          errorCount := errorCount + read.dateErrors;
        }
        assert Snapshot() == WithDateErrors(old(Snapshot()), read);
        ApplyDecision(name, decision);
      }
    }

    /** The body of the loop in `run` for one entry. */
    method HandleEntry(item: string, readOf: string -> EmlRead, same: (string, string) -> bool)
      modifies this
      ensures Snapshot() == RunStep(old(Snapshot()), item, readOf, same)
    {
      var action := ActionFor(item, item in folders);
      if action == SkipCounted {
        skippedCount := skippedCount + 1;
      } else if action == Process {
        ProcessSingleEml(item, readOf(item), same);
      }
    }

    /** `run`: the listing is the folder's entries at the start, in the order the
        operating system gives them. */
    method Run(basePath: string, baseIsFolder: bool, listing: seq<string>,
               readOf: string -> EmlRead, same: (string, string) -> bool)
      returns (outcome: Result<string>)
      modifies this
      ensures !baseIsFolder ==>
        outcome == Err("O caminho selecionado não é uma pasta válida: " + basePath) && unchanged(this)
      ensures baseIsFolder ==> Snapshot() == RunSteps(old(Snapshot()), listing, readOf, same)
      ensures baseIsFolder ==> outcome == Ok(Summary(basePath, renamedCount, movedToDuplicatesCount,
                                                    movedToProblemsCount, skippedCount, errorCount))
    {
      if !baseIsFolder {
        return Err("O caminho selecionado não é uma pasta válida: " + basePath);
      }
      var i := 0;
      while i < |listing|
        invariant 0 <= i <= |listing|
        invariant Snapshot() == RunSteps(old(Snapshot()), listing[..i], readOf, same)
      {
        assert listing[..i + 1][..i] == listing[..i];
        HandleEntry(listing[i], readOf, same);
        i := i + 1;
      }
      assert listing[..|listing|] == listing;
      outcome := Ok(Summary(basePath, renamedCount, movedToDuplicatesCount,
                            movedToProblemsCount, skippedCount, errorCount));
    }
  }
}
