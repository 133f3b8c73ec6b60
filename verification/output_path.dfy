/**
 * Where the archive is written: the default `<folder>.zip` name, placement
 * inside an existing directory, and the case-insensitive `.zip` suffix.
 */
module OutputPath {
  import opened Wrappers
  import opened Text
  import opened Environment

  const ZipSuffix: string := ".zip"

  /** Appends `.zip` unless the path already ends with it in any letter case. */
  function WithZipSuffix(path: string): (r: string)
    ensures EndsWithIgnoreCase(r, ZipSuffix)
    ensures |path| <= |r| && r[..|path|] == path
    ensures r == path <==> EndsWithIgnoreCase(path, ZipSuffix)
    ensures r != path ==> r[|path|..] == ZipSuffix
  {
    if EndsWithIgnoreCase(path, ZipSuffix) then path
    else
      var r := path + ZipSuffix;
      assert r[|r| - |ZipSuffix|..] == ZipSuffix;
      r
  }

  /** Normalising twice is normalising once. */
  lemma WithZipSuffixIdempotent(path: string)
    ensures WithZipSuffix(WithZipSuffix(path)) == WithZipSuffix(path)
  {
  }

  /** A `.zip.zip` ending of `p + ".zip"` means `p` itself ends with `.zip`. */
  lemma {:induction false} DoubleSuffixShowsInnerSuffix(p: string)
    requires EndsWithIgnoreCase(p + ZipSuffix, ".zip.zip")
    ensures EndsWithIgnoreCase(p, ZipSuffix)
  {
    var r := p + ZipSuffix;
    var tail := r[|r| - 8..];
    var double := ".zip.zip";
    forall k | 0 <= k < |ZipSuffix|
      ensures CharEqualsIgnoreCase(p[|p| - |ZipSuffix|..][k], ZipSuffix[k])
    {
      assert p[|p| - |ZipSuffix|..][k] == tail[k];
      assert CharEqualsIgnoreCase(tail[k], double[k]);
      assert double[k] == ZipSuffix[k];
    }
  }

  /** The suffix step never produces `.zip.zip` out of a path that did not already end so. */
  lemma {:induction false} NoDoubleZipSuffix(path: string)
    ensures EndsWithIgnoreCase(WithZipSuffix(path), ".zip.zip") ==> EndsWithIgnoreCase(path, ".zip.zip")
  {
  }

  /** The name used when no output is given: `<folder>.zip`. */
  function DefaultOutputName(host: Host, sourcePath: string): string {
    host.folderName(sourcePath) + ZipSuffix
  }

  /** The output as typed, or the default name when it is null or blank. */
  function RequestedOutput(output: Option<string>, host: Host, sourcePath: string): string {
    if IsNullOrWhiteSpace(output) then DefaultOutputName(host, sourcePath) else output.value
  }

  /**
   * The final output path, and whether the "output folder path is required"
   * error was reported on the way (it is reported, never acted upon).
   */
  datatype Resolution = Resolution(path: string, missingFolderReported: bool)

  /**
   * Derives the output path from `-o` (null when absent) for the source
   * directory at `sourcePath`.
   */
  function ResolveOutput(output: Option<string>, sourcePath: string, host: Host): (r: Resolution)
    ensures EndsWithIgnoreCase(r.path, ZipSuffix)
    ensures var requested := RequestedOutput(output, host, sourcePath);
      r.missingFolderReported <==> !host.directoryExists(requested) && IsNullOrEmpty(host.directoryName(requested))
  {
    var requested := RequestedOutput(output, host, sourcePath);
    if host.directoryExists(requested) then
      Resolution(WithZipSuffix(host.combine(requested, DefaultOutputName(host, sourcePath))), false)
    else
      Resolution(WithZipSuffix(host.fullPath(requested)), IsNullOrEmpty(host.directoryName(requested)))
  }

  /** With no usable `-o`, the archive is named after the source folder. */
  lemma DefaultOutputUsesFolderName(output: Option<string>, sourcePath: string, host: Host)
    requires IsNullOrWhiteSpace(output)
    requires !host.directoryExists(DefaultOutputName(host, sourcePath))
    ensures ResolveOutput(output, sourcePath, host).path
         == WithZipSuffix(host.fullPath(host.folderName(sourcePath) + ".zip"))
  {
  }

  /**
   * An output naming an existing directory receives `<folder>.zip` inside it.
   * This holds for the default name too: with no usable `-o` and a directory
   * called `<folder>.zip`, the archive is `<folder>.zip/<folder>.zip`.
   */
  lemma DirectoryOutputNestsDefaultName(output: Option<string>, sourcePath: string, host: Host)
    requires host.directoryExists(RequestedOutput(output, host, sourcePath))
    ensures ResolveOutput(output, sourcePath, host)
         == Resolution(WithZipSuffix(host.combine(RequestedOutput(output, host, sourcePath),
                                                  host.folderName(sourcePath) + ".zip")), false)
    ensures IsNullOrWhiteSpace(output) ==>
      ResolveOutput(output, sourcePath, host).path
      == WithZipSuffix(host.combine(host.folderName(sourcePath) + ".zip", host.folderName(sourcePath) + ".zip"))
  {
  }

  /** Any other output is made absolute and given the `.zip` suffix. */
  lemma FileOutputIsMadeAbsolute(output: Option<string>, sourcePath: string, host: Host)
    requires !IsNullOrWhiteSpace(output)
    requires !host.directoryExists(output.value)
    ensures ResolveOutput(output, sourcePath, host).path == WithZipSuffix(host.fullPath(output.value))
  {
  }

  /** The reported missing output folder has no influence on the path. */
  lemma MissingFolderReportLeavesPath(output: Option<string>, sourcePath: string, host: Host, directoryName: string -> Option<string>)
    ensures ResolveOutput(output, sourcePath, host).path
         == ResolveOutput(output, sourcePath, host.(directoryName := directoryName)).path
  {
  }
}
