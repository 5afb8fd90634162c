/**
 * The library and operating-system calls the core makes, passed in as
 * functions: the `crc` package's `crc32`, Node's `path` helpers and the
 * file-existence check.
 */
module Host {

  /** A CRC-32 checksum: an unsigned 32-bit value. */
  type Crc32 = x: int | 0 <= x < 0x1_0000_0000

  datatype Host = Host(
    crc32: string -> Crc32,
    /** `path.extname`: the extension of the last path segment, or "" */
    extname: string -> string,
    /** `path.join` */
    join: (string, string) -> string,
    /** `resolveRelativePath(filepath, baseDir)` from src/util/path.ts */
    resolveRelativePath: (string, string) -> string,
    /** `fs.existsSync` */
    fileExists: string -> bool)
}
