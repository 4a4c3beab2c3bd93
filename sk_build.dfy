/**
 * sk_build_sum: writes a summary back as a checksum record with snprintf
 * into a caller-owned buffer, in the short form or, when any of the newer
 * fields is set, in the extended form. sha256 is never written.
 */
module SkBuild {
  import opened Wrappers
  import opened CString
  import opened Numeric
  import opened Fields
  import opened SkSum
  import opened SkDecode

  /** The extended form is chosen when user name, group name, mtime or inode is set. */
  predicate ExtendedForm(m: Sum)
  {
    m.uname.Some? || m.gname.Some? || m.mtime != 0 || m.inode != 0
  }

  /**
   * The extended format passes uname and gname to %s: both must be present
   * whenever that form is chosen (a NULL %s argument is undefined in C).
   */
  predicate Printable(m: Sum)
  {
    ExtendedForm(m) ==> m.uname.Some? && m.gname.Some?
  }

  /** Every text passed to %s is a C string: it holds no NUL. */
  predicate CTexts(m: Sum)
  {
    NoNul(m.size) && NoNul(m.uid) && NoNul(m.gid) && NoNul(m.md5) && NoNul(m.sha1) &&
    (m.uname.Some? ==> NoNul(m.uname.value)) && (m.gname.Some? ==> NoNul(m.gname.value))
  }

  /** The values of the format's conversions, in order: %s:%d:%s:%s:%s:%s[:%s:%s:%ld:%ld]. */
  function FormatFields(m: Sum): (f: seq<string>)
    requires Printable(m)
    ensures |f| == (if ExtendedForm(m) then 10 else 6)
  {
    [m.size, Dec(m.perm), m.uid, m.gid, m.md5, m.sha1] +
    (if ExtendedForm(m) then [m.uname.value, m.gname.value, Dec(m.mtime), Dec(m.inode)] else [])
  }

  /** The whole text snprintf is asked to write. */
  function Format(m: Sum): string
    requires Printable(m)
  {
    Join(FormatFields(m))
  }

  /**
   * sk_build_sum(sum, output, size) with size == output.Length: 0 when the
   * whole record fitted, -1 when snprintf had to truncate it (or size is 0).
   */
  method BuildSum(m: Sum, output: array<char>) returns (rc: int)
    requires Printable(m) && CTexts(m) && output.Length <= 0x7fff_ffff
    modifies output
    ensures rc == 0 <==> |Format(m)| < output.Length
    ensures rc == 0 || rc == -1
    ensures output.Length == 0 ==> output[..] == old(output[..])
    ensures output.Length > 0 ==> output[..] == Printed(old(output[..]), Format(m))
  {
    FormatNoNul(m);
    var r := Snprintf(output, Format(m));
    rc := if r < output.Length then 0 else -1;
  }

  // ---------------------------------------------------------------------
  // Properties of the builder

  /** The text fields a record can carry without changing its shape. */
  predicate FieldSafe(t: string)
  {
    ColonFree(t) && NoNul(t)
  }

  /** Every text field the builder writes holds neither ':' nor NUL. */
  predicate ColonFreeTexts(m: Sum)
  {
    Printable(m) &&
    FieldSafe(m.size) && FieldSafe(m.uid) && FieldSafe(m.gid) && FieldSafe(m.md5) && FieldSafe(m.sha1) &&
    (m.uname.Some? ==> FieldSafe(m.uname.value)) && (m.gname.Some? ==> FieldSafe(m.gname.value))
  }

  /**
   * A summary the builder writes so that the parser reads it back: no ':'
   * or NUL inside a text field, and a size that does not start with the
   * deleted-file sentinel "-1".
   */
  predicate WireSafe(m: Sum)
  {
    ColonFreeTexts(m) && !(|m.size| >= 2 && m.size[0] == '-' && m.size[1] == '1')
  }

  lemma {:induction false} JoinNoNul(fs: seq<string>)
    requires |fs| > 0 && forall i :: 0 <= i < |fs| ==> NoNul(fs[i])
    ensures NoNul(Join(fs))
    decreases |fs|
  {
    if |fs| > 1 {
      JoinNoNul(fs[1..]);
    }
  }

  /** %d and %ld write neither ':' nor NUL. */
  lemma DecSafe(n: int)
    ensures FieldSafe(Dec(n))
  {
    AtoiOfDec(n);
    assert NoColonOrNul(Dec(n));
  }

  /** The record holds no NUL when none of its text fields does. */
  lemma FormatNoNul(m: Sum)
    requires Printable(m) && CTexts(m)
    ensures NoNul(Format(m))
  {
    DecSafe(m.perm);
    var short := [m.size, Dec(m.perm), m.uid, m.gid, m.md5, m.sha1];
    assert forall i :: 0 <= i < 6 ==> NoNul(short[i]);
    if ExtendedForm(m) {
      DecSafe(m.mtime);
      DecSafe(m.inode);
      var ext := [m.uname.value, m.gname.value, Dec(m.mtime), Dec(m.inode)];
      assert forall i :: 0 <= i < 4 ==> NoNul(ext[i]);
      assert FormatFields(m) == short + ext;
    } else {
      assert FormatFields(m) == short;
    }
    JoinNoNul(FormatFields(m));
  }

  /** Every conversion of a summary with colon-free texts writes a field without ':' or NUL. */
  lemma FormatFieldsSafe(m: Sum)
    requires ColonFreeTexts(m)
    ensures forall i :: 0 <= i < |FormatFields(m)| ==> FieldSafe(FormatFields(m)[i])
  {
    DecSafe(m.perm);
    var short := [m.size, Dec(m.perm), m.uid, m.gid, m.md5, m.sha1];
    assert forall i :: 0 <= i < 6 ==> FieldSafe(short[i]);
    if ExtendedForm(m) {
      DecSafe(m.mtime);
      DecSafe(m.inode);
      var ext := [m.uname.value, m.gname.value, Dec(m.mtime), Dec(m.inode)];
      assert forall i :: 0 <= i < 4 ==> FieldSafe(ext[i]);
      assert FormatFields(m) == short + ext;
    } else {
      assert FormatFields(m) == short;
    }
  }

  /** The record of a summary with colon-free texts is cut back, at its colons, into exactly the values written. */
  lemma FormatSplits(m: Sum)
    requires ColonFreeTexts(m)
    ensures NoNul(Format(m)) && Split(Format(m)) == FormatFields(m)
    ensures Colons(Format(m)) == if ExtendedForm(m) then 9 else 5
  {
    var f := FormatFields(m);
    FormatFieldsSafe(m);
    SplitJoin(f);
    SplitCount(Format(m));
    JoinNoNul(f);
  }

  /**
   * Decoding what the builder wrote gives the summary back, except sha256,
   * which the builder never writes; the short form also stands for a
   * summary without user name, group name, mtime and inode.
   */
  lemma BuildDecodeRoundTrip(m: Sum)
    requires WireSafe(m)
    ensures Decode(Format(m)) == Ok(m.(sha256 := None))
  {
    var s := Format(m);
    var f := FormatFields(m);
    FormatSplits(m);
    DecodeBySplit(s);
    assert !StartsDeleted(s) by {
      assert s == m.size + ":" + Join(f[1..]);
    }
    assert Decode(s) == Ok(Assemble(f));
    FormatAssembles(m);
  }

  /** Assembling the values the builder writes gives back the summary without its sha256. */
  lemma FormatAssembles(m: Sum)
    requires Printable(m)
    ensures Assemble(FormatFields(m)) == m.(sha256 := None)
  {
    var f := FormatFields(m);
    var a := Assemble(f);
    AtoiOfDec(m.perm);
    assert f[..6] == [m.size, Dec(m.perm), m.uid, m.gid, m.md5, m.sha1];
    assert a.size == m.size && a.perm == m.perm && a.uid == m.uid;
    assert a.gid == m.gid && a.md5 == m.md5 && a.sha1 == m.sha1;
    if ExtendedForm(m) {
      AtoiOfDec(m.mtime);
      AtoiOfDec(m.inode);
      assert f[6..] == [m.uname.value, m.gname.value, Dec(m.mtime), Dec(m.inode)];
      assert a.uname == m.uname && a.gname == m.gname;
      assert a.mtime == m.mtime && a.inode == m.inode;
    } else {
      assert a.uname == m.uname && a.gname == m.gname;
    }
  }

  /**
   * The other direction: a record in canonical form, with five colons or
   * nine, is written back by the builder character for character after it
   * was decoded.
   */
  lemma DecodeBuildRoundTrip(s: string)
    requires NoNul(s) && !StartsDeleted(s) && (Colons(s) == 5 || Colons(s) == 9)
    requires (var f := Split(s);
      |f| > 1 && IsDecimal(f[1]) && (|f| > 9 ==> IsDecimal(f[8]) && IsDecimal(f[9])))
    ensures Decode(s).Ok? && Printable(Decode(s).sum) && Format(Decode(s).sum) == s
  {
    var f := Split(s);
    DecodeBySplit(s);
    SplitCount(s);
    assert Decode(s) == Ok(Assemble(f));
    AssembleFormats(f);
    JoinSplit(s);
  }

  /** The summary assembled from canonical fields is formatted into those same fields. */
  lemma AssembleFormats(f: seq<string>)
    requires |f| == 6 || |f| == 10
    requires IsDecimal(f[1]) && (|f| == 10 ==> IsDecimal(f[8]) && IsDecimal(f[9]))
    ensures Printable(Assemble(f)) && FormatFields(Assemble(f)) == f
  {
    var m := Assemble(f);
    var short := [m.size, Dec(m.perm), m.uid, m.gid, m.md5, m.sha1];
    AssembleFormatsShort(f[..6], m);
    if |f| == 10 {
      var ext := [m.uname.value, m.gname.value, Dec(m.mtime), Dec(m.inode)];
      AssembleFormatsExtended(f[6..], m);
      assert m.uname.Some? && m.gname.Some?;
      assert FormatFields(m) == short + ext;
      assert f == f[..6] + f[6..];
    } else {
      assert m.uname == None && m.gname == None && m.mtime == 0 && m.inode == 0;
      assert FormatFields(m) == short + [];
      assert f == f[..6];
    }
  }

  /** The first six conversions write back the first six fields. */
  lemma AssembleFormatsShort(g: seq<string>, m: Sum)
    requires |g| == 6 && IsDecimal(g[1])
    requires m.size == g[0] && m.perm == Atoi(g[1]) && m.uid == g[2]
    requires m.gid == g[3] && m.md5 == g[4] && m.sha1 == g[5]
    ensures [m.size, Dec(m.perm), m.uid, m.gid, m.md5, m.sha1] == g
  {
    DecOfAtoi(g[1]);
  }

  /** The four conversions of the extended form write back the four newer fields. */
  lemma AssembleFormatsExtended(g: seq<string>, m: Sum)
    requires |g| == 4 && IsDecimal(g[2]) && IsDecimal(g[3])
    requires m.uname == Some(g[0]) && m.gname == Some(g[1])
    requires m.mtime == Atoi(g[2]) && m.inode == Atoi(g[3])
    ensures [m.uname.value, m.gname.value, Dec(m.mtime), Dec(m.inode)] == g
  {
    DecOfAtoi(g[2]);
    DecOfAtoi(g[3]);
    assert Dec(m.mtime) == g[2] && Dec(m.inode) == g[3];
  }

  /**
   * What a caller reads back from the output buffer: the record itself when
   * the builder returned 0, the record cut to size - 1 characters otherwise.
   */
  lemma BuildReadsBack(m: Sum, b: seq<char>)
    requires Printable(m) && CTexts(m) && |b| > 0
    ensures CStr(Printed(b, Format(m)), 0) == Truncated(Format(m), |b|)
    ensures |Format(m)| < |b| ==> CStr(Printed(b, Format(m)), 0) == Format(m)
  {
    FormatNoNul(m);
    PrintedReadsTruncated(b, Format(m));
  }
}
