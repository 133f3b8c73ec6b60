/**
 * What the packer asks of the machine it runs on. Every filesystem query
 * and every path-library function is an oracle supplied by the caller, so
 * the decisions built on top of them are deterministic functions.
 */
module Environment {
  import opened Wrappers

  datatype Host = Host(
    /** `Path.GetFullPath`: resolves a path against the current directory. */
    fullPath: string -> string,
    /** `Directory.Exists`. */
    directoryExists: string -> bool,
    /** `File.Exists`. */
    fileExists: string -> bool,
    /** `Path.GetDirectoryName`; `None` is its `null`. */
    directoryName: string -> Option<string>,
    /** `new DirectoryInfo(path).Name`: the last component of a directory path. */
    folderName: string -> string,
    /** `Path.Combine(directory, file)`. */
    combine: (string, string) -> string,
    /**
     * Creating the output directory and writing the archive for
     * (source, output, includeRoot); false when any of it throws.
     */
    archive: (string, string, bool) -> bool
  )
}
