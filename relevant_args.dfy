/**
  The argument extractor: trims a raw argument vector down to the arguments
  that follow the invoking script's own file name or bin name.
 */
module RelevantArgs {
  import opened PosixPath

  /** An optional value, standing for a parameter that may be `undefined`. */
  datatype Option<+T> = None | Some(value: T)

  /** The two ways extraction fails; each is thrown as an error with its `Message`. */
  datatype ExtractError =
    | InvalidFileName(fileName: string)
    | NotFound

  datatype Result = Ok(args: seq<string>) | Err(error: ExtractError)

  const NoBaseFileName := "no base file name"
  const InvalidFileNamePrefix := "Given file name produced " + NoBaseFileName + " (with path.basename()): '"
  const NotFoundMessage := "Failed to find position of file or bin name in provided args list."

  /** True if `s` occurs in `m` starting at index `k`. */
  predicate OccursAt(s: string, m: string, k: int) {
    0 <= k <= |m| - |s| && m[k..k + |s|] == s
  }

  /** True if `s` occurs as a contiguous part of `m`. */
  predicate IsInfix(s: string, m: string) {
    exists k :: 0 <= k <= |m| - |s| && OccursAt(s, m, k)
  }

  /** The message of the error thrown for `e`. */
  function Message(e: ExtractError): (m: string)
    ensures e.InvalidFileName? ==> IsInfix(e.fileName, m) && IsInfix(NoBaseFileName, m)
    ensures e.NotFound? ==> m == NotFoundMessage
  {
    match e
    case InvalidFileName(fileName) =>
      var m := InvalidFileNamePrefix + fileName + "'";
      assert OccursAt(fileName, m, |InvalidFileNamePrefix|);
      var lead := "Given file name produced ";
      assert m == lead + NoBaseFileName + (" (with path.basename()): '" + fileName + "'");
      assert OccursAt(NoBaseFileName, m, |lead|);
      m
    case NotFound => NotFoundMessage
  }

  /** JavaScript truthiness of `binName`: present and not the empty string. */
  predicate BinNameGiven(binName: Option<string>) {
    binName.Some? && binName.value != ""
  }

  /** JavaScript truthiness of `errorIfNotFound`: present and `true`. */
  predicate ErrorFlagSet(errorIfNotFound: Option<bool>) {
    errorIfNotFound == Some(true)
  }

  /**
    The index of the first element of `s` satisfying `p`, or -1 if there is
    none, as `Array.prototype.findIndex` returns it.
   */
  function FindIndex<T>(s: seq<T>, p: T -> bool): (r: int)
    ensures -1 <= r < |s|
    ensures r == -1 <==> forall j :: 0 <= j < |s| ==> !p(s[j])
    ensures 0 <= r ==> p(s[r]) && forall j :: 0 <= j < r ==> !p(s[j])
    decreases |s|
  {
    if s == [] then -1
    else if p(s[0]) then 0
    else
      var k := FindIndex(s[1..], p);
      if k == -1 then -1 else k + 1
  }

  /**
    The match predicate of the search: the basename of `arg` equals the
    file's basename, or equals `binName` when one is given.
   */
  predicate MatchesScript(arg: string, baseFileName: string, binName: Option<string>) {
    var baseArgName := Basename(arg);
    var matchesFileName := baseArgName == baseFileName;
    var matchesBinName := if BinNameGiven(binName) then baseArgName == binName.value else false;
    matchesFileName || matchesBinName
  }

  /** The match predicate as the callback handed to `FindIndex`. */
  function Matcher(baseFileName: string, binName: Option<string>): string -> bool {
    arg => MatchesScript(arg, baseFileName, binName)
  }

  /** True if no element of `rawArgs` matches. */
  predicate NoMatch(rawArgs: seq<string>, baseFileName: string, binName: Option<string>) {
    forall j :: 0 <= j < |rawArgs| ==> !MatchesScript(rawArgs[j], baseFileName, binName)
  }

  /** True if `i` is the index of the first element of `rawArgs` that matches. */
  predicate IsFirstMatch(rawArgs: seq<string>, i: int, baseFileName: string, binName: Option<string>) {
    && 0 <= i < |rawArgs|
    && MatchesScript(rawArgs[i], baseFileName, binName)
    && forall j :: 0 <= j < i ==> !MatchesScript(rawArgs[j], baseFileName, binName)
  }

  /** `FindIndex` with the match callback finds the first match, or -1 when there is none. */
  lemma FindIndexFindsFirstMatch(rawArgs: seq<string>, base: string, binName: Option<string>)
    ensures var k := FindIndex(rawArgs, Matcher(base, binName));
      && (k == -1 <==> NoMatch(rawArgs, base, binName))
      && (k != -1 ==> IsFirstMatch(rawArgs, k, base, binName))
  {
  }

  /** Two first-match indices are the same index. */
  lemma FirstMatchUnique(rawArgs: seq<string>, i: int, k: int, base: string, binName: Option<string>)
    requires IsFirstMatch(rawArgs, i, base, binName)
    requires IsFirstMatch(rawArgs, k, base, binName)
    ensures i == k
  {
  }

  /** No index other than a first match is a first match. */
  lemma OnlyFirstMatch(rawArgs: seq<string>, k: int, base: string, binName: Option<string>)
    requires IsFirstMatch(rawArgs, k, base, binName)
    ensures forall i :: IsFirstMatch(rawArgs, i, base, binName) ==> i == k
  {
  }

  /** Some element matches, so there is a first one. */
  lemma FirstMatchOf(rawArgs: seq<string>, base: string, binName: Option<string>) returns (i: int)
    requires !NoMatch(rawArgs, base, binName)
    ensures IsFirstMatch(rawArgs, i, base, binName)
  {
    FindIndexFindsFirstMatch(rawArgs, base, binName);
    i := FindIndex(rawArgs, Matcher(base, binName));
  }

  /**
    The declarative reading of extraction, independent of how the search is
    carried out: an empty basename is an `InvalidFileName` error; otherwise
    the result is what follows the first match, or, with no match at all,
    a `NotFound` error or `rawArgs` unchanged, as the flag says.
   */
  ghost predicate ExtractSpec(
    rawArgs: seq<string>,
    binName: Option<string>,
    fileName: string,
    errorIfNotFound: Option<bool>,
    r: Result
  ) {
    var base := Basename(fileName);
    && (base == [] ==> r == Err(InvalidFileName(fileName)))
    && (base != [] ==> forall i :: IsFirstMatch(rawArgs, i, base, binName) ==> r == Ok(rawArgs[i + 1..]))
    && (base != [] && NoMatch(rawArgs, base, binName) ==>
          r == if ErrorFlagSet(errorIfNotFound) then Err(NotFound) else Ok(rawArgs))
  }

  /**
    Trims `rawArgs` to the arguments after the first one naming the script
    (by file basename or by bin name). With no such argument it returns
    `rawArgs` whole, or fails with `NotFound` when `errorIfNotFound` is set;
    a file name with an empty basename fails first with `InvalidFileName`.
   */
  function ExtractRelevantArgs(
    rawArgs: seq<string>,
    binName: Option<string>,
    fileName: string,
    errorIfNotFound: Option<bool>
  ): (r: Result)
    ensures ExtractSpec(rawArgs, binName, fileName, errorIfNotFound, r)
    ensures r.Ok? ==> |r.args| <= |rawArgs| && r.args == rawArgs[|rawArgs| - |r.args|..]
  {
    var baseFileName := Basename(fileName);
    if baseFileName == [] then
      Err(InvalidFileName(fileName))
    else
      var lastIrrelevantArgIndex := FindIndex(rawArgs, Matcher(baseFileName, binName));
      FindIndexFindsFirstMatch(rawArgs, baseFileName, binName);
      if lastIrrelevantArgIndex == -1 then
        if ErrorFlagSet(errorIfNotFound) then Err(NotFound) else Ok(rawArgs)
      else
        OnlyFirstMatch(rawArgs, lastIrrelevantArgIndex, baseFileName, binName);
        Ok(rawArgs[lastIrrelevantArgIndex + 1..])
  }

  /** The declarative reading determines the result: at most one result meets it. */
  lemma ExtractSpecDeterminesResult(
    rawArgs: seq<string>,
    binName: Option<string>,
    fileName: string,
    errorIfNotFound: Option<bool>,
    r1: Result,
    r2: Result
  )
    requires ExtractSpec(rawArgs, binName, fileName, errorIfNotFound, r1)
    requires ExtractSpec(rawArgs, binName, fileName, errorIfNotFound, r2)
    ensures r1 == r2
  {
    var base := Basename(fileName);
    if base != [] && !NoMatch(rawArgs, base, binName) {
      var i := FirstMatchOf(rawArgs, base, binName);
    }
  }

  /**
    When some element matches, the result is everything strictly after the
    first match, whatever `errorIfNotFound` says.
   */
  lemma ExtractFirstMatch(
    rawArgs: seq<string>,
    binName: Option<string>,
    fileName: string,
    errorIfNotFound: Option<bool>,
    i: int
  )
    requires Basename(fileName) != []
    requires IsFirstMatch(rawArgs, i, Basename(fileName), binName)
    ensures ExtractRelevantArgs(rawArgs, binName, fileName, errorIfNotFound) == Ok(rawArgs[i + 1..])
  {
  }

  /** With no match and no error flag, the arguments come back unchanged, in order. */
  lemma ExtractNoMatchIsIdentity(
    rawArgs: seq<string>,
    binName: Option<string>,
    fileName: string,
    errorIfNotFound: Option<bool>
  )
    requires Basename(fileName) != []
    requires NoMatch(rawArgs, Basename(fileName), binName)
    requires !ErrorFlagSet(errorIfNotFound)
    ensures ExtractRelevantArgs(rawArgs, binName, fileName, errorIfNotFound) == Ok(rawArgs)
  {
  }

  /**
    A successful result is empty exactly when the first match is the last
    argument, or when there are no arguments at all and no error is asked for.
   */
  lemma ExtractEmptyIff(
    rawArgs: seq<string>,
    binName: Option<string>,
    fileName: string,
    errorIfNotFound: Option<bool>
  )
    requires Basename(fileName) != []
    ensures ExtractRelevantArgs(rawArgs, binName, fileName, errorIfNotFound) == Ok([]) <==>
      || IsFirstMatch(rawArgs, |rawArgs| - 1, Basename(fileName), binName)
      || (rawArgs == [] && !ErrorFlagSet(errorIfNotFound))
  {
    var base := Basename(fileName);
    if !NoMatch(rawArgs, base, binName) {
      var i := FirstMatchOf(rawArgs, base, binName);
      ExtractFirstMatch(rawArgs, binName, fileName, errorIfNotFound, i);
      assert |rawArgs[i + 1..]| == |rawArgs| - 1 - i;
      if IsFirstMatch(rawArgs, |rawArgs| - 1, base, binName) {
        FirstMatchUnique(rawArgs, i, |rawArgs| - 1, base, binName);
      }
    }
  }

  /**
    An absent bin name and an empty one behave alike: only the file-name
    match can fire, so the result is the one without any bin name.
   */
  lemma BinNameIgnoredWhenNotGiven(
    rawArgs: seq<string>,
    binName: Option<string>,
    fileName: string,
    errorIfNotFound: Option<bool>
  )
    requires !BinNameGiven(binName)
    ensures ExtractRelevantArgs(rawArgs, binName, fileName, errorIfNotFound)
         == ExtractRelevantArgs(rawArgs, None, fileName, errorIfNotFound)
  {
    var base := Basename(fileName);
    if base != [] {
      if NoMatch(rawArgs, base, binName) {
        assert NoMatch(rawArgs, base, None);
      } else {
        var i := FirstMatchOf(rawArgs, base, binName);
        assert IsFirstMatch(rawArgs, i, base, None);
        ExtractFirstMatch(rawArgs, binName, fileName, errorIfNotFound, i);
        ExtractFirstMatch(rawArgs, None, fileName, errorIfNotFound, i);
      }
    }
  }

  /**
    Arguments laid out as a non-matching preamble, a matching argument and
    the rest: the result is the rest.
   */
  lemma ExtractAfterPreamble(
    pre: seq<string>,
    arg: string,
    post: seq<string>,
    binName: Option<string>,
    fileName: string,
    errorIfNotFound: Option<bool>
  )
    requires Basename(fileName) != []
    requires NoMatch(pre, Basename(fileName), binName)
    requires MatchesScript(arg, Basename(fileName), binName)
    ensures ExtractRelevantArgs(pre + [arg] + post, binName, fileName, errorIfNotFound) == Ok(post)
  {
    var rawArgs := pre + [arg] + post;
    assert IsFirstMatch(rawArgs, |pre|, Basename(fileName), binName);
    ExtractFirstMatch(rawArgs, binName, fileName, errorIfNotFound, |pre|);
    assert rawArgs[|pre| + 1..] == post;
  }

  /**
    The bin name is compared with each argument's basename, so an argument
    that reaches the bin through a directory path (`dir/bin`) matches it.
   */
  lemma PathPrefixedBinNameMatches(
    pre: seq<string>,
    dir: string,
    bin: string,
    post: seq<string>,
    fileName: string,
    errorIfNotFound: Option<bool>
  )
    requires Basename(fileName) != []
    requires bin != [] && Separator !in bin
    requires NoMatch(pre, Basename(fileName), Some(bin))
    ensures ExtractRelevantArgs(pre + [dir + [Separator] + bin] + post, Some(bin), fileName, errorIfNotFound)
         == Ok(post)
  {
    BasenameOfJoin(dir, bin);
    ExtractAfterPreamble(pre, dir + [Separator] + bin, post, Some(bin), fileName, errorIfNotFound);
  }
}
