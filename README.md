# extractRelevantArgs, modelled in Dafny

This project models the argument extractor of the `cli-args-vir` package. A
command-line script receives its whole invocation vector, for example
`npx ts-node ./src/my-script.ts arg1 --arg2`. The extractor finds the first
argument that names the script itself and returns only the arguments after
it. An argument names the script when its basename is the basename of the
script's file, or when its basename equals the package's bin name. Two things fail: a
file name whose basename is empty, and, if the caller asks for it, finding no
such argument at all. With no match and no request to fail, the arguments
come back unchanged.

The model is pure, like the source:

- `posix_path.dfy` (module `PosixPath`) models the POSIX `basename` that the
  extractor imports from Node's `path` module. Trailing `/` characters are
  dropped, then the text after the last `/` is kept. The module proves this
  against an independent reading: the path splits into a directory part, the
  segment and trailing separators (`IsSplit`).
- `relevant_args.dfy` (module `RelevantArgs`) models `extractRelevantArgs`.
  It returns a `Result`, either `Ok(args)` or `Err(InvalidFileName(fileName))`
  or `Err(NotFound)`, in place of the thrown exceptions. `Message` gives each
  error's text. `FindIndex` stands in for `Array.prototype.findIndex` and
  returns -1 when nothing matches. `ExtractSpec` is a declarative reading of
  the extractor. The function's contract says that it meets that reading,
  and `ExtractSpecDeterminesResult` shows that only one result can.
- `relevant_args_cases.dfy` (module `RelevantArgsCases`) states the six
  scenarios of the package's test suite as lemmas.

JavaScript truthiness is written out. A bin name counts only when it is
present and non-empty (`BinNameGiven`). `errorIfNotFound` counts only when it
is `true` (`ErrorFlagSet`). Optional parameters are `Option` values, with
`None` for `undefined`.

`binName` is typed `string | undefined`, but the code tests its
truthiness, so an empty bin name is ignored just like an absent one
(`BinNameIgnoredWhenNotGiven`).

## Model

| member | source | states |
|---|---|---|
| `PosixPath.Basename` | src/relevant-args.ts:49 | The `path.basename` call of lines 49 and 58. Its contract is stated in lemmas: `BasenameShape` (no `/`, empty exactly for empty or all-`/` paths), and `BasenameOfSplit` with `BasenameSplits`, which tie it in both directions to the directory/segment/separators split. |
| `PosixPath.TrimTrailingSeparatorsShape` | src/relevant-args.ts:49 | Trimming keeps a prefix of the path that does not end in `/`, and everything the path has beyond it is `/`. |
| `PosixPath.AfterLastSeparatorShape` | src/relevant-args.ts:49 | The text after the last `/` is a suffix of its input with no `/`, and the input character just before it, if any, is `/`. |
| `PosixPath.BasenameShape` | src/relevant-args.ts:49-51 | The basename has no `/`, is no longer than the path, and is empty exactly when the path is empty or all `/`. |
| `PosixPath.TrimOfTrailing` | src/relevant-args.ts:49 | Trimming `db + t` gives `db` back when `t` is all separators and `db` does not end in one. |
| `PosixPath.AfterLastOfDirPrefix` | src/relevant-args.ts:49 | The text after the last separator of `d + b` is `b` when `d` is empty or ends in `/` and `b` has no `/`. |
| `PosixPath.BasenameOfSplit` | src/relevant-args.ts:49 | Any split of a path into directory part, non-empty segment and trailing separators gives that segment as the basename. |
| `PosixPath.BasenameSplits` | src/relevant-args.ts:49 | A non-empty basename is the segment of an actual directory/segment/separators split of the path. |
| `PosixPath.BasenameOfBareName` | src/relevant-args.ts:58-59 | A name with no `/` is its own basename. |
| `PosixPath.BasenameIdempotent` | src/relevant-args.ts:58-59 | Taking the basename twice gives the same as taking it once. The extractor does not rely on this; it is a documented property of the basename model. |
| `PosixPath.BasenameOfJoin` | src/relevant-args.ts:58-61 | `dir + "/" + name` has basename `name` for any bare non-empty `name`. |
| `RelevantArgs.Message` | src/relevant-args.ts:52-54 | The InvalidFileName message contains the offending file name and the words "no base file name". The NotFound message is the fixed text of line 65. |
| `RelevantArgs.BinNameGiven` | src/relevant-args.ts:60 | JavaScript truthiness of `binName`: present and not empty. `BinNameIgnoredWhenNotGiven` proves that a bin name that is not given changes nothing. |
| `RelevantArgs.ErrorFlagSet` | src/relevant-args.ts:64 | JavaScript truthiness of `errorIfNotFound`: present and `true`. `ExtractRelevantArgs` uses it to choose between NotFound and the unchanged arguments. |
| `RelevantArgs.MatchesScript` | src/relevant-args.ts:57-62 | The `findIndex` callback: the argument's basename equals the file's basename, or equals a given bin name. `PathPrefixedBinNameMatches` and `BinNameIgnoredWhenNotGiven` state its consequences. |
| `RelevantArgs.FindIndex` | src/relevant-args.ts:57-62 | The result is -1 exactly when no element satisfies the predicate. Otherwise it is an index whose element satisfies it, and no earlier element does. |
| `RelevantArgs.FindIndexFindsFirstMatch` | src/relevant-args.ts:57-62 | With the match callback, `FindIndex` gives -1 exactly when no argument matches, and otherwise the first matching index. |
| `RelevantArgs.FirstMatchUnique` | src/relevant-args.ts:57-62 | At most one index is the first match. |
| `RelevantArgs.OnlyFirstMatch` | src/relevant-args.ts:57-62 | Once `k` is a first match, every first match is `k`. |
| `RelevantArgs.FirstMatchOf` | src/relevant-args.ts:57-62 | If any argument matches, a first match exists. |
| `RelevantArgs.ExtractRelevantArgs` | src/relevant-args.ts:21-72 | The result meets `ExtractSpec`. An empty basename gives InvalidFileName whatever `rawArgs` and the flag are. A first match at `i` gives `rawArgs[i+1..]`. No match gives NotFound when the flag is set, and `rawArgs` unchanged otherwise. Every `Ok` result is a suffix of `rawArgs`, so it is no longer. |
| `RelevantArgs.ExtractSpecDeterminesResult` | src/relevant-args.ts:49-71 | Two results that both meet the declarative reading are equal. |
| `RelevantArgs.ExtractFirstMatch` | src/relevant-args.ts:57-70 | If `i` is the first index whose argument matches, the result is `Ok(rawArgs[i+1..])`, whatever `errorIfNotFound` is. |
| `RelevantArgs.ExtractNoMatchIsIdentity` | src/relevant-args.ts:63-67 | With no match and the flag unset or false, the result is `rawArgs`, same contents and same order. |
| `RelevantArgs.ExtractEmptyIff` | src/relevant-args.ts:63-70 | A valid file name gives `Ok([])` exactly when the first match is the last argument, or when there are no arguments and the flag is not set. |
| `RelevantArgs.BinNameIgnoredWhenNotGiven` | src/relevant-args.ts:60 | An absent or empty bin name gives the same result as no bin name, so only the file-name match can fire. |
| `RelevantArgs.ExtractAfterPreamble` | src/relevant-args.ts:57-70 | For a non-matching preamble, then a matching argument, then the rest, the result is the rest. |
| `RelevantArgs.PathPrefixedBinNameMatches` | src/relevant-args.ts:58-61 | An argument `dir/bin` after a non-matching preamble matches the bare bin name `bin`, and the result is what follows it. |
| `RelevantArgsCases.ExtractsArgsAfterMatchedFileName` | src/relevant-args.test.ts:6-25 | `./src/sub-dir/my-script.ts` matches the file `.../my-script.ts`, and the three script arguments are returned. |
| `RelevantArgsCases.ErrorsOnEmptyFileName` | src/relevant-args.test.ts:26-41 | The empty file name gives InvalidFileName, and its message contains "no base file name". |
| `RelevantArgsCases.ExtractsArgsAfterMatchedBinName` | src/relevant-args.test.ts:42-61 | `./node_modules/.bin/my-script` matches the bin name `my-script`, and the three script arguments are returned. |
| `RelevantArgsCases.NoMatchReturnsArgsUnchanged` | src/relevant-args.test.ts:62-84 | With file `other-script.ts` and bin `other-script`, nothing matches and all six arguments come back unchanged. |
| `RelevantArgsCases.NoMatchErrorsWhenTold` | src/relevant-args.test.ts:85-101 | The same input with `errorIfNotFound: true` gives NotFound, whose message is the fixed text. |
| `RelevantArgsCases.IgnoresBinNameIfNotProvided` | src/relevant-args.test.ts:102-124 | With no bin name, `./src/sub-dir/my-script` does not match the file `my-script.ts`, so the input comes back unchanged. |

## Left out

- The Windows variant of `path.basename` (backslash separators, drive letters) is not modelled. Only the POSIX rule is, because the choice depends on the host platform.
- The optional `suffix` argument of `path.basename` is not modelled, because the extractor never passes it.
- `path.basename` rejects a non-string argument with a `TypeError`. This is not modelled, because the types of the model already rule such inputs out.
- Exceptions are not modelled as control flow. Each throw is the `Err` arm of `Result`, and `Message` gives the thrown text.
- Reference identity of the returned array is not modelled. The source returns a fresh copy (`[...rawArgs]` or `slice`), but Dafny sequences are values, so there is nothing to distinguish.
- Strings are compared as sequences of characters. JavaScript compares UTF-16 code units, and no normalisation happens on either side.
- `src/index.test.ts` is not part of this model. It only checks that the entry point re-exports the function.
- Node's `path` module is not part of this model. `Basename` follows the POSIX behaviour of its `basename` for paths given without a suffix.
