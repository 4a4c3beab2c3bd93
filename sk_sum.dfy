/**
 * The integrity summary of one file (sk_sum_t) and the outcome of decoding a
 * checksum record.
 */
module SkSum {
  import opened Wrappers

  /**
   * One summary. `size`, `uid`, `gid`, `md5` and `sha1` are kept as text;
   * `uname`, `gname` and `sha256` are None where the C record holds NULL;
   * `mtime` and `inode` are 0 when the record does not carry them.
   */
  datatype Sum = Sum(
    size: string,
    perm: int,
    uid: string,
    gid: string,
    md5: string,
    sha1: string,
    uname: Option<string>,
    gname: Option<string>,
    mtime: int,
    inode: int,
    sha256: Option<string>)

  /** What sk_decode_sum reports: the deleted-file sentinel, a malformed record, or a summary. */
  datatype DecodeResult = Deleted | Malformed | Ok(sum: Sum)

  /** The C return code for each outcome: 1 deleted, -1 malformed, 0 success. */
  function Code(r: DecodeResult): int
  {
    match r
    case Deleted => 1
    case Malformed => -1
    case Ok(_) => 0
  }
}
