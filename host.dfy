/** What the bundler reads from its host: the process working directory and
    the files on disk, and the errors reading them can raise. */
module Host {

  import opened Wrappers
  import opened Buffers
  import opened NodePath

  /** Why an input could not be turned into content. */
  datatype Failure =
    | ReadError(path: string)  // `readFile` / `createReadStream` rejects (ENOENT, EISDIR, ...)
    | InvalidArgType           // `Path.relative` was handed a Buffer instead of a string

  datatype Disk = Disk(cwd: seq<string>, files: map<seq<string>, Buffer>)

  /** The working directory is a resolved absolute path. */
  type FileSystem = d: Disk | IsNormal(d.cwd) witness Disk([], map[])

  /** `readFile(p)`: the bytes of the file `p` names, relative paths being taken
      from the working directory. */
  function ReadFile(fs: FileSystem, p: string): Result<Buffer, Failure>
  {
    var full := Resolve(fs.cwd, p);
    if full in fs.files then Ok(fs.files[full]) else Err(ReadError(p))
  }
}
