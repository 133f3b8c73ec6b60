# ResourcePacker, modelled in Dafny

ResourcePacker is a command-line tool that packs a folder into a zip
archive: `-s/--source <folder>` (required), `-o/--output <path>`,
`--include-root`, `--force`, `-h/--help`. This project models the logic of
its entry point that does not depend on the filesystem:

- **argument lookup** — `GetOption` (first mention wins, `-o value` or
  `-o=value`, option names compared ignoring case) and `HasFlag`;
- **output-path derivation** — the default `<folder>.zip` name, placement
  inside an existing directory, the case-insensitive `.zip` suffix, and the
  "output folder path is required" report that does not stop the flow;
- **the decision flow of `Main`** — help (exit 0), missing source (2),
  source not found (3), refused overwrite prompt (4), archive written (0)
  or archiving failed (1).

The filesystem and the path library are an `Environment.Host` value of
oracle functions (`GetFullPath`, `Directory.Exists`, `File.Exists`,
`GetDirectoryName`, `DirectoryInfo.Name`, `Path.Combine`, and the archiving
step as one success/failure oracle). The key pressed at the overwrite prompt
is an input character; it is consulted only when the prompt would be shown.

Files: `wrappers.dfy` (Option), `text.dfy` (case-insensitive comparison,
`IndexOf`, white space), `arguments.dfy`, `environment.dfy`,
`output_path.dfy`, `resource_packer.dfy`.

Three points where the code is easy to misread; the model follows it as
written:

- When `-o` names an existing directory, the code combines it with
  `<folder>.zip` and does not make the result absolute (no `GetFullPath` on
  that branch), so the final path may stay relative, although every other
  branch makes the output path absolute.
- An output with no directory part prints an error and carries on; the
  model records the report in `Plan.missingFolderReported` and proceeds.
- The default name `<folder>.zip` goes through the same directory test as
  a user-given output: if a directory called `<folder>.zip` exists, the
  archive is placed inside it.

## Model

| member | source | states |
|---|---|---|
| Text.ToUpper | ResourcePacker/Program.cs:157-158 | the folded form of a character is never a lower-case letter and differs from it only for `a`-`z`, mapped to `A`-`Z` |
| Text.IndexOf | ResourcePacker/Program.cs:169 | the position of the first `=` (or -1 when there is none): that character is `=` and none before it is |
| Arguments.ScanOption | ResourcePacker/Program.cs:155-174 | the loop from index i returns the value of the first token at or after i that mentions the option, and null when no later token mentions it |
| Arguments.GetOption | ResourcePacker/Program.cs:153-175 | the first token that equals `-x`/`--long` (ignoring case) yields the next token verbatim, or null when it is the last token; the first token starting with `-x=`/`--long=` yields its text after the first `=`; null when no token mentions the option |
| Arguments.InlineValueFollowsOption | ResourcePacker/Program.cs:166-170 | for an option name without `=`, the inline value is exactly the text after `opt=`, whatever `=` it contains |
| Arguments.InlineMentionGivesValue | ResourcePacker/Program.cs:166-170 | a first mention `p=v` with `p` equal to either spelling ignoring case returns `v` whole |
| Arguments.LaterMentionsIgnored | ResourcePacker/Program.cs:155-163 | appending tokens after a complete first mention never changes the result |
| Arguments.MatchesAnyFlag | ResourcePacker/Program.cs:181-185 | true exactly when the argument equals some flag, ignoring case |
| Arguments.HasFlag | ResourcePacker/Program.cs:177-188 | true exactly when some argument equals some flag, ignoring case |
| OutputPath.WithZipSuffix | ResourcePacker/Program.cs:65-68 | the result ends with `.zip` in some letter case, starts with the input, equals the input exactly when it already ended with `.zip`, and otherwise adds exactly `.zip` |
| OutputPath.WithZipSuffixIdempotent | ResourcePacker/Program.cs:65-68 | normalising twice equals normalising once |
| OutputPath.DoubleSuffixShowsInnerSuffix | ResourcePacker/Program.cs:65-68 | if `p + ".zip"` ends with `.zip.zip` in some letter case, `p` already ended with `.zip` |
| OutputPath.NoDoubleZipSuffix | ResourcePacker/Program.cs:65-68 | a `.zip.zip` ending is never produced from a path that did not already have one |
| OutputPath.ResolveOutput | ResourcePacker/Program.cs:39-68 | the final path ends with `.zip`; the missing-folder error is reported exactly when the requested output is not a directory and has no directory part |
| OutputPath.DefaultOutputUsesFolderName | ResourcePacker/Program.cs:40-44 | with a null or blank `-o` (and no directory of that name) the path is the absolute form of `<folder>.zip` |
| OutputPath.DirectoryOutputNestsDefaultName | ResourcePacker/Program.cs:39-52 | an output naming an existing directory, given or the default `<folder>.zip`, yields `Combine(dir, <folder>.zip)` without `GetFullPath` and no report; with no usable `-o` that is `Combine(<folder>.zip, <folder>.zip)` |
| OutputPath.FileOutputIsMadeAbsolute | ResourcePacker/Program.cs:53-62 | any other output is made absolute before the suffix step |
| OutputPath.MissingFolderReportLeavesPath | ResourcePacker/Program.cs:55-61 | the directory-part check never changes the derived path |
| ResourcePacker.ExitCode | ResourcePacker/Program.cs:14-130 | exit codes 0 (usage or created), 1 (failure), 2 (missing source), 3 (source not found), 4 (declined), one per outcome kind |
| ResourcePacker.Run | ResourcePacker/Program.cs:10-131 | usage exactly for no arguments or a help flag; missing source exactly for a null or blank `-s` otherwise; not-found carries the absolute source path that is no directory; a decline needs an existing output, no `--force` and a key other than `y`/`Y`; a declined or archived run uses exactly the output path `ResolveOutput` derives (and its missing-folder report); an archived plan has an existing source directory, a `.zip` output, the flags as given, and was confirmed whenever it overwrites without `--force` |
| ResourcePacker.DefaultArchiveNamedAfterSource | ResourcePacker/Program.cs:39-68 | with no usable `-o`, an archived run writes the absolute form of `<folder>.zip` unless a directory of that name exists |
| ResourcePacker.HelpWinsOverEveryCheck | ResourcePacker/Program.cs:14-18 | `-h`/`--help` in any letter case anywhere gives exit 0 whatever the host and key |
| ResourcePacker.ExitCodePrecedence | ResourcePacker/Program.cs:14-79 | exit 2, 3 and 4 each happen exactly when all earlier checks passed and their own failed; exit 4 exactly for an existing output, no `--force`, and a key other than `y`/`Y` |
| ResourcePacker.KeyMattersOnlyAtPrompt | ResourcePacker/Program.cs:70-80 | with `--force` or no file at the output path, every key gives the same outcome |
| ResourcePacker.MissingFolderReportDoesNotStop | ResourcePacker/Program.cs:56-61 | the exit code does not depend on the directory-part check |
| ResourcePacker.SourceOnlyArguments | ResourcePacker/Program.cs:14-29 | `-s name`, for any name whose first character is neither `-` nor white space, is no help request, gives source `name` (not blank), no output and neither flag |
| ResourcePacker.SourceOnlyScenario | ResourcePacker/Program.cs:10-124 | `-s proj` in `/work` archives `/work/proj` flat into `/work/proj.zip` |
| ResourcePacker.MissingDirectoryScenario | ResourcePacker/Program.cs:32-37 | `-s missing-dir` exits with 3 |
| ResourcePacker.ForcedRootedNoHelp | ResourcePacker/Program.cs:14 | `--SOURCE=proj -o out --include-root --Force` asks for no help |
| ResourcePacker.ForcedRootedSource | ResourcePacker/Program.cs:166-170 | the inline `--SOURCE=proj` is matched ignoring case and yields `proj` |
| ResourcePacker.ForcedRootedOutput | ResourcePacker/Program.cs:157-161 | `-o out` yields `out`, the earlier inline token not being a mention of `-o` |
| ResourcePacker.ForcedRootedFlags | ResourcePacker/Program.cs:28-29 | `--include-root` and `--Force` both set their flags |
| ResourcePacker.ForcedRootedIntoDirectoryScenario | ResourcePacker/Program.cs:20-124 | that invocation, with `out` an existing directory already holding `proj.zip`, archives rooted into `out/proj.zip` (left relative) without prompting, whatever the key |

## Left out

- Archiving itself (`ZipFile.CreateFromDirectory`, compression level, entry layout of flat and rooted mode): a foreign library; the model has a single success/failure oracle `Host.archive`.
- `CopyDirectory` and the temporary staging directory (`Path.GetTempPath`, `Guid.NewGuid`, best-effort delete with swallowed exceptions): recursive filesystem I/O with nondeterministic naming.
- `Directory.CreateDirectory` of the output's parent and `File.Delete` of an existing output: side effects folded into the `Host.archive` oracle.
- `PrintUsage` and every console message: output only; the outcome constructors stand for them.
- `Console.ReadKey`: the key is an input character; an unreadable console is not modelled.
- Exceptions thrown by the path functions (`GetFullPath` on an invalid path, for one): the oracles are total, so only archiving can end in exit 1.
- Text.ToUpper: `OrdinalIgnoreCase` folds case only for the ASCII letters here, not for the whole of Unicode.
