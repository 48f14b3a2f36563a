/** What a storage operation can fail with (crates/mari-core/src/error.rs). */
module Errors {
  datatype Errno = NOENT | NOTDIR | LOOP | EXIST | NOTEMPTY | ISDIR | NXIO | INVAL

  datatype Unsafe = NotADirectory | KeptChanging | TheRootItself | NotARegularFile

  datatype Error =
    | PathTraversal
    | InvalidManifest
    | UnsafePath(why: Unsafe)
    | Io(errno: Errno)
    | ChunkMissing
    | ChunkUndecodable
    | ChunkCorrupted
    | ManifestNotFound
}
