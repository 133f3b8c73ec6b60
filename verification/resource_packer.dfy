/**
 * The decision flow of the packer's entry point: which checks run in which
 * order, which exit code each failure gives, and what gets archived when
 * every check passes.
 */
module ResourcePacker {
  import opened Wrappers
  import opened Text
  import opened Arguments
  import opened Environment
  import opened OutputPath

  const HelpFlags: seq<string> := ["-h", "--help"]
  const IncludeRootFlag: string := "--include-root"
  const ForceFlag: string := "--force"

  /** What gets archived once every check has passed. */
  datatype Plan = Plan(
    sourcePath: string,
    outputPath: string,
    includeRoot: bool,
    force: bool,
    /** The "output folder path is required" error was printed, without stopping. */
    missingFolderReported: bool
  )

  /** How one invocation ends. */
  datatype Outcome =
    | Usage                                // help requested, or no arguments
    | MissingSource                        // `-s` absent or blank
    | SourceNotFound(sourcePath: string)   // the source is not an existing directory
    | Declined(outputPath: string)         // the overwrite prompt was refused
    | Created(plan: Plan)                  // the archive was written
    | Failed(plan: Plan)                   // archiving threw; the top-level handler caught it

  /** The process exit code of an outcome. */
  function ExitCode(o: Outcome): (code: int)
    ensures 0 <= code <= 4
    ensures code == 0 <==> o.Usage? || o.Created?
    ensures code == 1 <==> o.Failed?
    ensures code == 2 <==> o.MissingSource?
    ensures code == 3 <==> o.SourceNotFound?
    ensures code == 4 <==> o.Declined?
  {
    match o
    case Usage => 0
    case MissingSource => 2
    case SourceNotFound(_) => 3
    case Declined(_) => 4
    case Created(_) => 0
    case Failed(_) => 1
  }

  /** The key accepted at the overwrite prompt: `y` or `Y`, nothing else. */
  predicate Confirms(key: char) {
    key == 'y' || key == 'Y'
  }

  /** The invocation asks for the usage text. */
  predicate WantsHelp(args: seq<string>) {
    |args| == 0 || HasFlag(args, HelpFlags)
  }

  function SourceOption(args: seq<string>): Option<string> {
    GetOption(args, "-s", "--source")
  }

  function OutputOption(args: seq<string>): Option<string> {
    GetOption(args, "-o", "--output")
  }

  /**
   * One invocation with arguments `args` on `host`, where `key` is the key
   * that would be pressed if the overwrite prompt were shown.
   */
  function Run(args: seq<string>, host: Host, key: char): (r: Outcome)
    ensures r.Usage? <==> WantsHelp(args)
    ensures r.MissingSource? <==> !WantsHelp(args) && IsNullOrWhiteSpace(SourceOption(args))
    ensures r.SourceNotFound? ==>
      && r.sourcePath == host.fullPath(SourceOption(args).value)
      && !host.directoryExists(r.sourcePath)
    ensures r.Declined? ==>
      && r.outputPath == ResolveOutput(OutputOption(args), host.fullPath(SourceOption(args).value), host).path
      && host.fileExists(r.outputPath) && !HasFlag(args, [ForceFlag]) && !Confirms(key)
    ensures r.Created? || r.Failed? ==>
      && !WantsHelp(args)
      && r.plan.sourcePath == host.fullPath(SourceOption(args).value)
      && host.directoryExists(r.plan.sourcePath)
      && EndsWithIgnoreCase(r.plan.outputPath, ZipSuffix)
      && r.plan.outputPath == ResolveOutput(OutputOption(args), r.plan.sourcePath, host).path
      && r.plan.missingFolderReported == ResolveOutput(OutputOption(args), r.plan.sourcePath, host).missingFolderReported
      && r.plan.includeRoot == HasFlag(args, [IncludeRootFlag])
      && r.plan.force == HasFlag(args, [ForceFlag])
      && (host.fileExists(r.plan.outputPath) && !r.plan.force ==> Confirms(key))
      && (r.Created? <==> host.archive(r.plan.sourcePath, r.plan.outputPath, r.plan.includeRoot))
  {
    if WantsHelp(args) then Usage
    else
      var source := SourceOption(args);
      if IsNullOrWhiteSpace(source) then MissingSource
      else
        var output := OutputOption(args);
        var includeRoot := HasFlag(args, [IncludeRootFlag]);
        var force := HasFlag(args, [ForceFlag]);
        var sourcePath := host.fullPath(source.value);
        if !host.directoryExists(sourcePath) then SourceNotFound(sourcePath)
        else
          var resolved := ResolveOutput(output, sourcePath, host);
          if host.fileExists(resolved.path) && !force && !Confirms(key) then Declined(resolved.path)
          else
            var plan := Plan(sourcePath, resolved.path, includeRoot, force, resolved.missingFolderReported);
            if host.archive(plan.sourcePath, plan.outputPath, plan.includeRoot) then Created(plan)
            else Failed(plan)
  }

  /** `-h` or `--help`, in any letter case and at any position, wins over every other check. */
  lemma HelpWinsOverEveryCheck(args: seq<string>, host: Host, key: char, i: nat)
    requires i < |args|
    requires EqualsIgnoreCase(args[i], "-h") || EqualsIgnoreCase(args[i], "--help")
    ensures ExitCode(Run(args, host, key)) == 0
    ensures Run(args, host, key) == Usage
  {
    if EqualsIgnoreCase(args[i], "-h") {
      assert EqualsIgnoreCase(args[i], HelpFlags[0]);
    } else {
      assert EqualsIgnoreCase(args[i], HelpFlags[1]);
    }
  }

  /**
   * The exit codes in the order the checks run: each failure code is given
   * exactly when every earlier check passed and its own check failed.
   */
  lemma ExitCodePrecedence(args: seq<string>, host: Host, key: char)
    ensures var code := ExitCode(Run(args, host, key));
      && (WantsHelp(args) ==> code == 0)
      && (code == 2 <==> !WantsHelp(args) && IsNullOrWhiteSpace(SourceOption(args)))
      && (code == 3 <==>
            && !WantsHelp(args)
            && !IsNullOrWhiteSpace(SourceOption(args))
            && !host.directoryExists(host.fullPath(SourceOption(args).value)))
      && (code == 4 <==>
            && !WantsHelp(args)
            && !IsNullOrWhiteSpace(SourceOption(args))
            && var sourcePath := host.fullPath(SourceOption(args).value);
            && host.directoryExists(sourcePath)
            && host.fileExists(ResolveOutput(OutputOption(args), sourcePath, host).path)
            && !HasFlag(args, [ForceFlag])
            && !Confirms(key))
  {
  }

  /**
   * The pressed key only matters when the prompt is shown: with `--force`,
   * or with no file at the output path, any key gives the same outcome.
   */
  lemma KeyMattersOnlyAtPrompt(args: seq<string>, host: Host, key: char, other: char)
    ensures var r := Run(args, host, key);
      (r.Created? || r.Failed?) && (r.plan.force || !host.fileExists(r.plan.outputPath)) ==>
      Run(args, host, other) == r
  {
  }

  /**
   * An output with no directory part is reported but does not stop the
   * flow: the outcome's exit code is the same whatever the directory-name
   * oracle says.
   */
  lemma MissingFolderReportDoesNotStop(args: seq<string>, host: Host, key: char, directoryName: string -> Option<string>)
    ensures ExitCode(Run(args, host, key)) == ExitCode(Run(args, host.(directoryName := directoryName), key))
  {
    if !IsNullOrWhiteSpace(SourceOption(args)) {
      MissingFolderReportLeavesPath(OutputOption(args), host.fullPath(SourceOption(args).value), host, directoryName);
    }
  }

  /**
   * With no usable `-o`, an archived run writes `<folder>.zip`, made absolute
   * against the current directory, unless a directory of that name exists.
   */
  lemma DefaultArchiveNamedAfterSource(args: seq<string>, host: Host, key: char)
    requires Run(args, host, key).Created? || Run(args, host, key).Failed?
    requires IsNullOrWhiteSpace(OutputOption(args))
    requires var plan := Run(args, host, key).plan;
      !host.directoryExists(host.folderName(plan.sourcePath) + ".zip")
    ensures var plan := Run(args, host, key).plan;
      plan.outputPath == WithZipSuffix(host.fullPath(host.folderName(plan.sourcePath) + ".zip"))
  {
  }

  /** A token not starting with `-` never mentions an option spelled with a leading `-`. */
  lemma DashlessTokenIsNoOption(a: string, opt: string)
    requires |a| > 0 && a[0] != '-' && |opt| > 0 && opt[0] == '-'
    ensures !EqualsIgnoreCase(a, opt) && !StartsWithIgnoreCase(a, opt)
  {
  }

  /** How `-s name` is read when `name` starts with neither `-` nor white space. */
  lemma SourceOnlyArguments(name: string)
    requires |name| > 0 && name[0] != '-' && !IsWhiteSpace(name[0])
    ensures !WantsHelp(["-s", name])
    ensures SourceOption(["-s", name]) == Some(name) && !IsNullOrWhiteSpace(Some(name))
    ensures OutputOption(["-s", name]) == None
    ensures !HasFlag(["-s", name], [IncludeRootFlag]) && !HasFlag(["-s", name], [ForceFlag])
  {
    var args := ["-s", name];
    assert !CharEqualsIgnoreCase(args[0][1], "-h"[1]);
    assert !CharEqualsIgnoreCase(args[0][1], "-o"[1]);
    DashlessTokenIsNoOption(name, "-h");
    DashlessTokenIsNoOption(name, "--help");
    DashlessTokenIsNoOption(name, "-o");
    DashlessTokenIsNoOption(name, "--output");
    DashlessTokenIsNoOption(name, "-o=");
    DashlessTokenIsNoOption(name, "--output=");
    DashlessTokenIsNoOption(name, IncludeRootFlag);
    DashlessTokenIsNoOption(name, ForceFlag);
    assert IsFirstMentionFrom(args, 0, 0, "-s", "--source");
    assert forall k :: 0 <= k < |args| ==> !MentionsOption(args[k], "-o", "--output");
  }

  /**
   * `-s proj` run in `/work`: the archive `/work/proj.zip` is written from
   * the contents of `/work/proj`, without a top-level folder.
   */
  lemma SourceOnlyScenario(host: Host, key: char)
    requires host.fullPath("proj") == "/work/proj" && host.directoryExists("/work/proj")
    requires host.folderName("/work/proj") == "proj"
    requires !host.directoryExists("proj.zip") && host.fullPath("proj.zip") == "/work/proj.zip"
    requires host.directoryName("proj.zip") == Some("")
    requires !host.fileExists("/work/proj.zip")
    requires host.archive("/work/proj", "/work/proj.zip", false)
    ensures Run(["-s", "proj"], host, key) == Created(Plan("/work/proj", "/work/proj.zip", false, false, true))
  {
    SourceOnlyArguments("proj");
    assert DefaultOutputName(host, "/work/proj") == "proj.zip";
    assert "/work/proj.zip"[10..] == ZipSuffix;
    assert WithZipSuffix("/work/proj.zip") == "/work/proj.zip";
  }

  /** `-s missing-dir` ends with exit code 3 before any output is considered. */
  lemma MissingDirectoryScenario(host: Host, key: char)
    requires !host.directoryExists(host.fullPath("missing-dir"))
    ensures Run(["-s", "missing-dir"], host, key) == SourceNotFound(host.fullPath("missing-dir"))
    ensures ExitCode(Run(["-s", "missing-dir"], host, key)) == 3
  {
    SourceOnlyArguments("missing-dir");
  }

  const ForcedRootedArgs: seq<string> := ["--SOURCE=proj", "-o", "out", "--include-root", "--Force"]

  /** `--SOURCE=proj -o out --include-root --Force` asks for no help. */
  lemma ForcedRootedNoHelp()
    ensures !WantsHelp(ForcedRootedArgs)
  {
    var args := ForcedRootedArgs;
    assert !CharEqualsIgnoreCase(args[1][1], "-h"[1]);
  }

  /** ... and its source, given inline with the long name upper-cased, is `proj`. */
  lemma ForcedRootedSource()
    ensures SourceOption(ForcedRootedArgs) == Some("proj")
  {
    var args := ForcedRootedArgs;
    assert EqualsIgnoreCase("--SOURCE", "--source");
    assert args[0] == "--SOURCE" + "=" + "proj";
    InlineMentionGivesValue(args, 0, "-s", "--source", "--SOURCE", "proj");
  }

  /** ... its output is the token after `-o` ... */
  lemma ForcedRootedOutput()
    ensures OutputOption(ForcedRootedArgs) == Some("out")
  {
    var args := ForcedRootedArgs;
    assert !CharEqualsIgnoreCase(args[0][1], "-o="[1]);
    assert !CharEqualsIgnoreCase(args[0][2], "--output="[2]);
    assert IsFirstMentionFrom(args, 0, 1, "-o", "--output");
  }

  /** ... and both flags are set, `--Force` matching `--force`. */
  lemma ForcedRootedFlags()
    ensures HasFlag(ForcedRootedArgs, [IncludeRootFlag]) && HasFlag(ForcedRootedArgs, [ForceFlag])
  {
    var args := ForcedRootedArgs;
    assert EqualsIgnoreCase(args[3], IncludeRootFlag);
    assert EqualsIgnoreCase(args[4], ForceFlag);
  }

  /**
   * `--SOURCE=proj -o out --include-root --Force` with `out` an existing
   * directory that already holds `proj.zip`: option names match in any
   * letter case, the inline value is taken, the archive goes inside `out`
   * (left relative, as `Path.Combine` returns it), and `--Force` overwrites
   * without asking, whatever key would have been pressed.
   */
  lemma ForcedRootedIntoDirectoryScenario(host: Host, key: char)
    requires host.fullPath("proj") == "/work/proj" && host.directoryExists("/work/proj")
    requires host.folderName("/work/proj") == "proj"
    requires host.directoryExists("out") && host.combine("out", "proj.zip") == "out/proj.zip"
    requires host.fileExists("out/proj.zip")
    requires host.archive("/work/proj", "out/proj.zip", true)
    ensures Run(ForcedRootedArgs, host, key) == Created(Plan("/work/proj", "out/proj.zip", true, true, false))
  {
    assert DefaultOutputName(host, "/work/proj") == "proj.zip";
    assert "out/proj.zip"[8..] == ZipSuffix;
    assert WithZipSuffix("out/proj.zip") == "out/proj.zip";
    assert !IsNullOrWhiteSpace(Some("out")) by { assert !IsWhiteSpace("out"[0]); }
    assert ResolveOutput(Some("out"), "/work/proj", host) == Resolution("out/proj.zip", false);
    assert !IsNullOrWhiteSpace(Some("proj")) by { assert !IsWhiteSpace("proj"[0]); }
    ForcedRootedNoHelp();
    ForcedRootedSource();
    ForcedRootedOutput();
    ForcedRootedFlags();
  }
}
