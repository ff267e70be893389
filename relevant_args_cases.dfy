/**
  The scenarios of the extractor's test suite, stated as lemmas about the
  model: an invocation through `npx ts-node` followed by three script
  arguments.
 */
module RelevantArgsCases {
  import opened PosixPath
  import opened RelevantArgs

  const ScriptFile := "/Users/your-user/your-package/src/sub-dir/my-script.ts"
  const OtherScriptFile := "/Users/your-user/your-package/src/sub-dir/other-script.ts"
  const TsScriptPath := "./src/sub-dir/my-script.ts"
  const BinScriptPath := "./node_modules/.bin/my-script"
  const BareScriptPath := "./src/sub-dir/my-script"
  const Npx := "npx"
  const TsNode := "ts-node"
  const ScriptArg := "script-arg"
  const MoreArg := "--more-arg"
  const MoreValue := "more-value"
  const ScriptArgs: seq<string> := [ScriptArg, MoreArg, MoreValue]

  /** The invocation preamble followed by the script's own arguments. */
  function Invocation(scriptPath: string): (r: seq<string>)
    ensures |r| == 6 && r[2] == scriptPath && r[3..] == ScriptArgs
  {
    [Npx, TsNode, scriptPath] + ScriptArgs
  }

  // The basenames of the arguments and paths the scenarios use.

  lemma BasenameOfNpx()
    ensures Basename(Npx) == Npx
  {
    BasenameOfBareName(Npx);
  }

  lemma BasenameOfTsNode()
    ensures Basename(TsNode) == TsNode
  {
    BasenameOfBareName(TsNode);
  }

  lemma BasenameOfScriptArg()
    ensures Basename(ScriptArg) == ScriptArg
  {
    BasenameOfBareName(ScriptArg);
  }

  lemma BasenameOfMoreArg()
    ensures Basename(MoreArg) == MoreArg
  {
    BasenameOfBareName(MoreArg);
  }

  lemma BasenameOfMoreValue()
    ensures Basename(MoreValue) == MoreValue
  {
    BasenameOfBareName(MoreValue);
  }

  lemma BasenameOfScriptFile()
    ensures Basename(ScriptFile) == "my-script.ts"
  {
    assert ScriptFile == "/Users/your-user/your-package/src/sub-dir" + [Separator] + "my-script.ts";
    BasenameOfJoin("/Users/your-user/your-package/src/sub-dir", "my-script.ts");
  }

  lemma BasenameOfOtherScriptFile()
    ensures Basename(OtherScriptFile) == "other-script.ts"
  {
    assert OtherScriptFile == "/Users/your-user/your-package/src/sub-dir" + [Separator] + "other-script.ts";
    BasenameOfJoin("/Users/your-user/your-package/src/sub-dir", "other-script.ts");
  }

  lemma BasenameOfTsScriptPath()
    ensures Basename(TsScriptPath) == "my-script.ts"
  {
    assert TsScriptPath == "./src/sub-dir" + [Separator] + "my-script.ts";
    BasenameOfJoin("./src/sub-dir", "my-script.ts");
  }

  lemma BasenameOfBinScriptPath()
    ensures Basename(BinScriptPath) == "my-script"
  {
    assert BinScriptPath == "./node_modules/.bin" + [Separator] + "my-script";
    BasenameOfJoin("./node_modules/.bin", "my-script");
  }

  lemma BasenameOfBareScriptPath()
    ensures Basename(BareScriptPath) == "my-script"
  {
    assert BareScriptPath == "./src/sub-dir" + [Separator] + "my-script";
    BasenameOfJoin("./src/sub-dir", "my-script");
  }

  /** "extracts args from matched file name". */
  lemma ExtractsArgsAfterMatchedFileName()
    ensures ExtractRelevantArgs(Invocation(TsScriptPath), Some("my-script"), ScriptFile, None)
         == Ok(ScriptArgs)
  {
    BasenameOfNpx();
    BasenameOfTsNode();
    BasenameOfScriptFile();
    BasenameOfTsScriptPath();
    assert Invocation(TsScriptPath) == [Npx, TsNode] + [TsScriptPath] + ScriptArgs;
    ExtractAfterPreamble([Npx, TsNode], TsScriptPath, ScriptArgs, Some("my-script"), ScriptFile, None);
  }

  /** "errors if no file name is given": the error names the file and says it has no base name. */
  lemma ErrorsOnEmptyFileName()
    ensures ExtractRelevantArgs(Invocation(TsScriptPath), Some("my-script"), "", None)
         == Err(InvalidFileName(""))
    ensures IsInfix(NoBaseFileName, Message(InvalidFileName("")))
  {
  }

  /** "extracts args from matched bin name": a bin reached through `node_modules/.bin`. */
  lemma ExtractsArgsAfterMatchedBinName()
    ensures ExtractRelevantArgs(Invocation(BinScriptPath), Some("my-script"), ScriptFile, None)
         == Ok(ScriptArgs)
  {
    BasenameOfNpx();
    BasenameOfTsNode();
    BasenameOfScriptFile();
    BasenameOfBinScriptPath();
    assert NoMatch([Npx, TsNode], "my-script.ts", Some("my-script"));
    assert MatchesScript(BinScriptPath, "my-script.ts", Some("my-script"));
    assert Invocation(BinScriptPath) == [Npx, TsNode] + [BinScriptPath] + ScriptArgs;
    ExtractAfterPreamble([Npx, TsNode], BinScriptPath, ScriptArgs, Some("my-script"), ScriptFile, None);
  }

  /** No argument of the invocation names `other-script` or `other-script.ts`. */
  lemma NoArgumentNamesOtherScript()
    ensures NoMatch(Invocation(TsScriptPath), "other-script.ts", Some("other-script"))
  {
    BasenameOfNpx();
    BasenameOfTsNode();
    BasenameOfTsScriptPath();
    BasenameOfScriptArg();
    BasenameOfMoreArg();
    BasenameOfMoreValue();
  }

  /** "does nothing if no match": the arguments come back unchanged. */
  lemma NoMatchReturnsArgsUnchanged()
    ensures ExtractRelevantArgs(Invocation(TsScriptPath), Some("other-script"), OtherScriptFile, None)
         == Ok(Invocation(TsScriptPath))
  {
    BasenameOfOtherScriptFile();
    NoArgumentNamesOtherScript();
  }

  /** "errors if no match and told to error", with the fixed message. */
  lemma NoMatchErrorsWhenTold()
    ensures ExtractRelevantArgs(Invocation(TsScriptPath), Some("other-script"), OtherScriptFile, Some(true))
         == Err(NotFound)
    ensures Message(NotFound) == "Failed to find position of file or bin name in provided args list."
  {
    BasenameOfOtherScriptFile();
    NoArgumentNamesOtherScript();
  }

  /** No argument of the bare-path invocation has the basename `my-script.ts`. */
  lemma NoArgumentNamesScriptFile()
    ensures NoMatch(Invocation(BareScriptPath), "my-script.ts", None)
  {
    BasenameOfNpx();
    BasenameOfTsNode();
    BasenameOfBareScriptPath();
    BasenameOfScriptArg();
    BasenameOfMoreArg();
    BasenameOfMoreValue();
    assert |"my-script"| != |"my-script.ts"|;
    var rawArgs := Invocation(BareScriptPath);
    assert rawArgs == [Npx, TsNode, BareScriptPath, ScriptArg, MoreArg, MoreValue];
    assert !MatchesScript(rawArgs[2], "my-script.ts", None);
  }

  /** "ignores bin name if not provided": `my-script` is not matched against `my-script.ts`. */
  lemma IgnoresBinNameIfNotProvided()
    ensures ExtractRelevantArgs(Invocation(BareScriptPath), None, ScriptFile, None)
         == Ok(Invocation(BareScriptPath))
  {
    BasenameOfScriptFile();
    NoArgumentNamesScriptFile();
  }
}
