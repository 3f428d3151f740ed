/** Optional values, results and the error kinds the modelled Go code can return. */
module Wrappers {

  datatype Option<+T> = None | Some(value: T)

  /** The error kinds surfaced by the modelled operations.  The first group are the
      `*os.PathError` causes of the system calls; `Decode` is a YAML decoding failure;
      `Panic` stands for a Go run-time panic (an index out of range) in a place where
      the offending input comes from a file rather than from the caller. */
  datatype Error =
    | NotExist(path: string)   // ENOENT
    | Exist(path: string)      // EEXIST
    | NotSymlink(path: string) // exists but is not a symlink (resolveSymlink / EINVAL of readlink)
    | IsDir(path: string)      // EISDIR
    | NotDir(path: string)     // ENOTDIR
    | NotEmpty(path: string)   // ENOTEMPTY
    | Loop(path: string)       // ELOOP: too many levels of symbolic links
    | Decode(path: string)
    | Panic(reason: string)

  datatype Result<+T> = Success(value: T) | Failure(error: Error) {
    predicate IsFailure() { Failure? }
    function PropagateFailure<U>(): Result<U>
      requires Failure?
    {
      Failure(error)
    }
    function Extract(): T
      requires Success?
    {
      value
    }
  }

  /** Go's `os.IsNotExist`. */
  predicate IsNotExist(e: Error) { e.NotExist? }
}
