/**
 * sk_decode_sum: the positional parser of checksum records
 *   SIZE:PERM:UID:GID:MD5:SHA1[:UNAME:GNAME:MTIME:INODE[:SHA256]]
 * which finds each ':' with strchr, overwrites it with NUL and keeps a view
 * of the caller's buffer for every field.
 */
module SkDecode {
  import opened Wrappers
  import opened CString
  import opened Numeric
  import opened Fields
  import opened SkSum

  /** The number of ':' the parser looks for at most (five required, four extended, one for sha256). */
  const MAX_CUTS: nat := 10

  /** The deleted-file sentinel test: only the first two characters are looked at. */
  predicate StartsDeleted(s: string)
  {
    |s| >= 2 && s[0] == '-' && s[1] == '1'
  }

  /** `c` lists colons of `s`, strictly increasing, all at or after `from`. */
  predicate Ascending(s: string, from: nat, c: seq<nat>)
    decreases |c|
  {
    c == [] || (from <= c[0] < |s| && s[c[0]] == ':' && Ascending(s, c[0] + 1, c[1..]))
  }

  /** Where the text after the colons `c` (scanning from `from`) starts. */
  function After(from: nat, c: seq<nat>): nat
  {
    if c == [] then from else c[|c| - 1] + 1
  }

  /** Where piece `i` between the colons `c` starts. */
  function Start(from: nat, c: seq<nat>, i: nat): nat
    requires i <= |c|
  {
    if i == 0 then from else c[i - 1] + 1
  }

  /**
   * The offsets of up to `k` successive strchr(p, ':') calls, each starting
   * just after the previous hit; the list stops at the first miss.
   */
  function Cuts(s: string, from: nat, k: nat): (c: seq<nat>)
    requires from <= |s|
    ensures |c| <= k && Ascending(s, from, c)
    decreases k
  {
    if k == 0 then []
    else
      match Chr(s, from)
      case None => []
      case Some(p) => [p] + Cuts(s, p + 1, k - 1)
  }

  /** The texts between the colons `c`, the last one running to the end of `s`. */
  function Pieces(s: string, from: nat, c: seq<nat>): (p: seq<string>)
    requires from <= |s| && Ascending(s, from, c)
    ensures |p| == |c| + 1
    decreases |c|
  {
    if c == [] then [s[from..]] else [s[from..c[0]]] + Pieces(s, c[0] + 1, c[1..])
  }

  /**
   * What sk_decode_sum returns for the record text `s`, step for step: the
   * sentinel test, then the pieces between the first up to ten colons.
   * Fewer than five colons, or six to eight, is malformed; with nine or more
   * the extended group is present, and a tenth colon starts the sha256
   * text, which runs to the end of the record.
   */
  function Decode(s: string): DecodeResult
  {
    if StartsDeleted(s) then Deleted
    else
      var c := Cuts(s, 0, MAX_CUTS);
      if |c| < 5 || 5 < |c| < 9 then Malformed
      else Ok(Assemble(Pieces(s, 0, c)))
  }

  /**
   * The summary made of the pieces `f` of a record: six pieces are the short
   * form, ten the extended form, an eleventh is the sha256 text.
   */
  function Assemble(f: seq<string>): Sum
    requires |f| == 6 || |f| >= 10
  {
    var extended := |f| >= 10;
    Sum(
      size := f[0],
      perm := Atoi(f[1]),
      uid := f[2],
      gid := f[3],
      md5 := f[4],
      sha1 := f[5],
      uname := if extended then Some(f[6]) else None,
      gname := if extended then Some(f[7]) else None,
      mtime := if extended then Atoi(f[8]) else 0,
      inode := if extended then Atoi(f[9]) else 0,
      sha256 := if |f| > 10 then Some(f[10]) else None)
  }

  /**
   * The record format read off the fields of `s` cut at EVERY colon: six
   * fields are the short form, ten the extended form, more than ten carry a
   * sha256 that is everything after the tenth colon.
   */
  function FieldwiseDecode(s: string): DecodeResult
  {
    if StartsDeleted(s) then Deleted
    else
      var f := Split(s);
      if |f| < 6 || 6 < |f| < 10 then Malformed
      else if |f| <= 10 then Ok(Assemble(f))
      else Ok(Assemble(f[..10] + [Join(f[10..])]))
  }

  /** The offsets of the ':' characters the parser overwrites with NUL. */
  function Consumed(s: string): seq<nat>
  {
    if StartsDeleted(s) then [] else Cuts(s, 0, MAX_CUTS)
  }

  // ---------------------------------------------------------------------
  // Properties of the parser

  lemma {:induction false} AscendingBounds(s: string, from: nat, c: seq<nat>)
    requires Ascending(s, from, c)
    ensures forall m :: 0 <= m < |c| ==> from <= c[m] < |s| && s[c[m]] == ':'
    ensures c != [] ==> forall m :: 1 <= m < |c| ==> c[0] < c[m]
    ensures After(from, c) >= from && (c != [] ==> After(from, c) <= |s|)
    decreases |c|
  {
    if c != [] {
      AscendingBounds(s, c[0] + 1, c[1..]);
      assert forall m :: 1 <= m < |c| ==> c[m] == c[1..][m - 1];
      if |c| > 1 {
        assert After(from, c) == After(c[0] + 1, c[1..]);
      }
    }
  }

  /** strchr finds the colon at `e` when none comes before it. */
  lemma ChrFinds(s: string, i: nat, e: nat)
    requires NoNul(s) && i <= e < |s| && s[e] == ':' && ':' !in s[i..e]
    ensures Chr(s, i) == Some(e)
  {
    TextIsCString(s, i);
  }

  /** strchr misses on a colon-free rest of the text. */
  lemma ChrMisses(s: string, i: nat)
    requires NoNul(s) && i <= |s| && ':' !in s[i..]
    ensures Chr(s, i) == None
  {
    TextIsCString(s, i);
  }

  /** strchr on a text `t` without NUL stops at the end of its first colon-free field. */
  lemma ChrSplit(s: string, i: nat, t: string)
    requires NoNul(s) && i <= |s| && t == s[i..]
    ensures var f := Split(t);
      Chr(s, i) == if |f| > 1 then Some(i + |f[0]|) else None
  {
    var f := Split(t);
    if |f| > 1 {
      SplitRest(t);
      var h := f[0];
      assert s[i..i + |h|] == h;
      ChrFinds(s, i, i + |h|);
    } else {
      JoinSplit(t);
      assert t == f[0];
      ChrMisses(s, i);
    }
  }

  /**
   * The first `k` strchr hits from `from` are the ends of the fields of `t`,
   * the text from `from` on, cut at every colon; the pieces between them are
   * those fields, the last piece holding whatever fields remain, joined.
   */
  predicate CutsAreFields(s: string, from: nat, k: nat, t: string)
    requires from <= |s|
  {
    var f := Split(t); var c := Cuts(s, from, k);
    |c| == Min(k, |f| - 1) && Pieces(s, from, c) == f[..|c|] + [Join(f[|c|..])]
  }

  lemma {:induction false} CutsSplit(s: string, from: nat, k: nat, t: string)
    requires NoNul(s) && from <= |s| && t == s[from..]
    ensures CutsAreFields(s, from, k, t)
    decreases k
  {
    var f := Split(t);
    if k == 0 || |f| == 1 {
      CutsSplitLast(s, from, k, t);
    } else {
      var p := from + |f[0]|;
      FirstField(s, from, t);
      CutsSplit(s, p + 1, k - 1, s[p + 1..]);
      CutsSplitAfter(s, from, k, t, p);
    }
  }

  /** The inductive step, from the pieces of the text after the first colon, at `p`. */
  lemma CutsSplitAfter(s: string, from: nat, k: nat, t: string, p: nat)
    requires NoNul(s) && from <= |s| && t == s[from..] && k > 0 && |Split(t)| > 1
    requires p == from + |Split(t)[0]| && p < |s| && CutsAreFields(s, p + 1, k - 1, s[p + 1..])
    ensures CutsAreFields(s, from, k, t)
  {
    FirstField(s, from, t);
    CutsSplitNext(s, from, k, p, Split(t));
  }

  /** The first field of `t`, the rest of `s` from `from`, ends at a colon of `s`, and the other fields follow it. */
  lemma FirstField(s: string, from: nat, t: string)
    requires from <= |s| && t == s[from..] && |Split(t)| > 1
    ensures var f := Split(t); var p := from + |f[0]|;
      p < |s| && s[from..p] == f[0] && s[p] == ':' && ':' !in f[0] && Split(s[p + 1..]) == f[1..]
  {
    var f := Split(t);
    SplitRest(t);
    assert t[|f[0]| + 1..] == s[from + |f[0]| + 1..];
  }

  /** No colon left, or no more asked for: one piece, the rest of the text. */
  lemma CutsSplitLast(s: string, from: nat, k: nat, t: string)
    requires NoNul(s) && from <= |s| && t == s[from..] && (k == 0 || |Split(t)| == 1)
    ensures CutsAreFields(s, from, k, t)
  {
    var f := Split(t);
    ChrSplit(s, from, t);
    JoinSplit(t);
    assert f[0..] == f && f[..0] == [];
  }

  /** The inductive step: the first field `f[0]` ends at the colon at `p`, then come the pieces after it. */
  lemma CutsSplitNext(s: string, from: nat, k: nat, p: nat, f: seq<string>)
    requires NoNul(s) && from <= p < |s| && k > 0 && |f| > 1
    requires s[from..p] == f[0] && s[p] == ':' && ':' !in f[0]
    requires var c' := Cuts(s, p + 1, k - 1);
      |c'| == Min(k - 1, |f| - 2) && Pieces(s, p + 1, c') == f[1..][..|c'|] + [Join(f[1..][|c'|..])]
    ensures var c := Cuts(s, from, k);
      |c| == Min(k, |f| - 1) && Pieces(s, from, c) == f[..|c|] + [Join(f[|c|..])]
  {
    ChrFinds(s, from, p);
    CutsCons(s, from, k, p);
    PiecesCons(s, from, p, Cuts(s, p + 1, k - 1));
    FieldsCons(f, |Cuts(s, p + 1, k - 1)|);
  }

  /** A strchr hit at `p` puts `p` in front of the hits and `s[from..p]` in front of the pieces. */
  lemma CutsCons(s: string, from: nat, k: nat, p: nat)
    requires from <= |s| && k > 0 && Chr(s, from) == Some(p)
    ensures p < |s| && Cuts(s, from, k) == [p] + Cuts(s, p + 1, k - 1)
  {
  }

  lemma PiecesCons(s: string, from: nat, p: nat, c': seq<nat>)
    requires from <= p < |s| && s[p] == ':' && Ascending(s, p + 1, c')
    ensures Ascending(s, from, [p] + c')
    ensures Pieces(s, from, [p] + c') == [s[from..p]] + Pieces(s, p + 1, c')
  {
    assert ([p] + c')[1..] == c';
  }

  lemma FieldsCons(f: seq<string>, n: nat)
    requires n + 1 < |f|
    ensures [f[0]] + (f[1..][..n] + [Join(f[1..][n..])]) == f[..n + 1] + [Join(f[n + 1..])]
  {
    assert f[1..][n..] == f[n + 1..];
    assert [f[0]] + f[1..][..n] == f[..n + 1];
  }

  /** The parser agrees with the fieldwise reading of the record. */
  lemma DecodeBySplit(s: string)
    requires NoNul(s)
    ensures Decode(s) == FieldwiseDecode(s)
  {
    if !StartsDeleted(s) {
      assert s[0..] == s;
      CutsSplit(s, 0, MAX_CUTS, s);
      var f := Split(s);
      var c := Cuts(s, 0, MAX_CUTS);
      if |c| == 5 || |c| == 9 {
        assert f[|c|..] == [f[|c|]];
        assert f[..|c|] + [f[|c|]] == f;
      }
    }
  }

  /**
   * Which outcome a record that is not the sentinel gets, by its number of
   * colons, and what the short and extended forms leave absent.
   */
  lemma DecodeShape(s: string)
    requires NoNul(s) && !StartsDeleted(s)
    ensures |Split(s)| == Colons(s) + 1
    ensures Colons(s) < 5 ==> Decode(s) == Malformed
    ensures 6 <= Colons(s) <= 8 ==> Decode(s) == Malformed
    ensures Colons(s) == 5 ==> Decode(s).Ok?
    ensures Colons(s) == 5 ==> var m := Decode(s).sum;
      m.sha1 == Split(s)[5] && m.uname == None && m.gname == None &&
      m.mtime == 0 && m.inode == 0 && m.sha256 == None
    ensures Colons(s) >= 9 ==> Decode(s).Ok?
    ensures Colons(s) >= 9 ==> var m := Decode(s).sum;
      m.uname == Some(Split(s)[6]) && m.gname == Some(Split(s)[7]) &&
      m.mtime == Atoi(Split(s)[8]) && m.inode == Atoi(Split(s)[9]) &&
      (m.sha256 == None <==> Colons(s) == 9)
  {
    DecodeBySplit(s);
    SplitCount(s);
  }

  /**
   * The parser overwrites only colons of the record, at most ten of them,
   * each at most once; it touches nothing in the deleted-file case.
   */
  lemma ConsumedAreColons(s: string)
    ensures StartsDeleted(s) ==> Consumed(s) == []
    ensures |Consumed(s)| <= MAX_CUTS
    ensures forall m :: 0 <= m < |Consumed(s)| ==> Consumed(s)[m] < |s| && s[Consumed(s)[m]] == ':'
    ensures forall m, n :: 0 <= m < n < |Consumed(s)| ==> Consumed(s)[m] < Consumed(s)[n]
  {
    if !StartsDeleted(s) {
      ConsumedAscending(s, 0, Cuts(s, 0, MAX_CUTS));
    }
  }

  lemma {:induction false} ConsumedAscending(s: string, from: nat, c: seq<nat>)
    requires Ascending(s, from, c)
    ensures forall m :: 0 <= m < |c| ==> from <= c[m] < |s| && s[c[m]] == ':'
    ensures forall m, n :: 0 <= m < n < |c| ==> c[m] < c[n]
    decreases |c|
  {
    if c != [] {
      AscendingBounds(s, from, c);
      ConsumedAscending(s, c[0] + 1, c[1..]);
      assert forall m :: 1 <= m < |c| ==> c[m] == c[1..][m - 1];
    }
  }

  /** No field of a decoded summary other than sha256 contains ':'. */
  lemma DecodedFieldsColonFree(s: string)
    requires NoNul(s) && Decode(s).Ok?
    ensures var m := Decode(s).sum;
      ColonFree(m.size) && ColonFree(m.uid) && ColonFree(m.gid) &&
      ColonFree(m.md5) && ColonFree(m.sha1) &&
      (m.uname.Some? ==> ColonFree(m.uname.value)) &&
      (m.gname.Some? ==> ColonFree(m.gname.value))
  {
    DecodeBySplit(s);
  }

  /**
   * After a tenth colon, sha256 is the whole remainder of the record: it may
   * be empty and may itself contain colons.
   */
  lemma Sha256IsRemainder(s: string)
    requires NoNul(s) && !StartsDeleted(s) && Colons(s) >= 10
    ensures |Split(s)| == Colons(s) + 1
    ensures Decode(s).Ok? && Decode(s).sum.sha256.Some?
    ensures s == Join(Split(s)[..10]) + ":" + Decode(s).sum.sha256.value
  {
    DecodeBySplit(s);
    SplitCount(s);
    var f := Split(s);
    JoinSplit(s);
    JoinAppend(f[..10], f[10..]);
    assert f[..10] + f[10..] == f;
  }

  /** A PERM field with no digit after its blanks and optional sign decodes as permission 0; the record is still accepted. */
  lemma PermIsLenient(s: string)
    requires NoNul(s) && !StartsDeleted(s) && (Colons(s) == 5 || Colons(s) >= 9)
    requires var f := Split(s); |f| > 1 && NoLeadingNumber(f[1])
    ensures Decode(s).Ok? && Decode(s).sum.perm == 0
  {
    DecodeBySplit(s);
    SplitCount(s);
    AtoiNonNumeric(Split(s)[1]);
  }

  // ---------------------------------------------------------------------
  // The in-place parser on the caller's buffer

  /** A buffer holds a C string that ends before the buffer does. */
  predicate HoldsCString(b: seq<char>)
  {
    CLen(b, 0) < |b|
  }

  /** `buf` is `b0` after the first |cs| colons of its C string were overwritten with NUL. */
  ghost predicate Consuming(buf: seq<char>, b0: seq<char>, cs: seq<nat>)
  {
    HoldsCString(b0) && cs == Cuts(CStr(b0, 0), 0, |cs|) && buf == Blank(b0, cs)
  }

  lemma CLenAt(b: seq<char>, i: nat, n: nat)
    requires i <= n < |b| && b[n] == NUL
    requires forall j :: i <= j < n ==> b[j] != NUL
    ensures CLen(b, i) == n
  {
  }

  /** The C string a field view reads from the partly split buffer is the piece of the record. */
  lemma {:induction false} ViewAt(b: seq<char>, s: string, from: nat, c: seq<nat>, i: nat)
    requires NoNul(s) && |s| < |b| && b[|s|] == NUL
    requires from <= |s| && Ascending(s, from, c) && i <= |c|
    requires forall j :: from <= j < |s| ==> b[j] == if j in c then NUL else s[j]
    ensures Start(from, c, i) <= |s|
    ensures CStr(b, Start(from, c, i)) == Pieces(s, from, c)[i]
    decreases |c|
  {
    if c == [] || i == 0 {
      ViewAtFirst(b, s, from, c);
    } else {
      ViewsTail(b, s, from, c);
      ViewAt(b, s, c[0] + 1, c[1..], i - 1);
    }
  }

  /** The first field view reads up to the first overwritten colon, or to the end. */
  lemma ViewAtFirst(b: seq<char>, s: string, from: nat, c: seq<nat>)
    requires NoNul(s) && |s| < |b| && b[|s|] == NUL
    requires from <= |s| && Ascending(s, from, c)
    requires forall j :: from <= j < |s| ==> b[j] == if j in c then NUL else s[j]
    ensures CStr(b, from) == Pieces(s, from, c)[0]
  {
    AscendingBounds(s, from, c);
    if c == [] {
      CLenAt(b, from, |s|);
    } else {
      CLenAt(b, from, c[0]);
    }
  }

  /** Past the first overwritten colon, the buffer is the record with the remaining colons overwritten. */
  lemma ViewsTail(b: seq<char>, s: string, from: nat, c: seq<nat>)
    requires |s| < |b| && from <= |s| && Ascending(s, from, c) && c != []
    requires forall j :: from <= j < |s| ==> b[j] == if j in c then NUL else s[j]
    ensures c[0] + 1 <= |s| && Ascending(s, c[0] + 1, c[1..])
    ensures forall j :: c[0] + 1 <= j < |s| ==> b[j] == if j in c[1..] then NUL else s[j]
    ensures forall i :: 0 < i <= |c| ==>
      (Start(from, c, i) == Start(c[0] + 1, c[1..], i - 1) &&
       Pieces(s, from, c)[i] == Pieces(s, c[0] + 1, c[1..])[i - 1])
  {
    AscendingBounds(s, from, c);
    assert c == [c[0]] + c[1..];
    forall j | c[0] + 1 <= j < |s|
      ensures b[j] == if j in c[1..] then NUL else s[j]
    {
      assert j in c <==> j in c[1..];
    }
  }

  /** Every field view of the partly split buffer reads its piece of the record. */
  lemma ViewsArePieces(buf: seq<char>, b0: seq<char>, cs: seq<nat>)
    requires Consuming(buf, b0, cs)
    ensures var s := CStr(b0, 0);
      forall i :: 0 <= i <= |cs| ==> Start(0, cs, i) <= |buf| && CStr(buf, Start(0, cs, i)) == Pieces(s, 0, cs)[i]
  {
    var s := CStr(b0, 0);
    var n := CLen(b0, 0);
    assert NoNul(s);
    AscendingBounds(s, 0, cs);
    forall i | 0 <= i <= |cs|
      ensures Start(0, cs, i) <= |buf| && CStr(buf, Start(0, cs, i)) == Pieces(s, 0, cs)[i]
    {
      ViewAt(buf, s, 0, cs, i);
    }
  }

  /** Pieces end with the rest of the text after the last colon. */
  lemma {:induction false} PiecesLast(s: string, from: nat, c: seq<nat>)
    requires from <= |s| && Ascending(s, from, c)
    ensures After(from, c) <= |s| && Pieces(s, from, c)[|c|] == s[After(from, c)..]
    decreases |c|
  {
    if c != [] {
      PiecesLast(s, c[0] + 1, c[1..]);
      if |c| > 1 {
        assert c[1..][|c| - 2] == c[|c| - 1];
      }
    }
  }

  /** strchr on the partly split buffer, from just after the last hit, sees the original record. */
  lemma ChrOnBlank(buf: seq<char>, b0: seq<char>, cs: seq<nat>)
    requires Consuming(buf, b0, cs)
    ensures After(0, cs) <= |CStr(b0, 0)| && |CStr(b0, 0)| < |buf|
    ensures Chr(buf, After(0, cs)) == Chr(CStr(b0, 0), After(0, cs))
  {
    var s := CStr(b0, 0);
    assert NoNul(s);
    ViewsArePieces(buf, b0, cs);
    PiecesLast(s, 0, cs);
    var n := After(0, cs);
    assert Start(0, cs, |cs|) == n;
    TextIsCString(s, n);
    ChrSameString(buf, s, n);
  }

  /** The hits `c` after one more strchr call from just after the last of them, if the earlier calls all hit. */
  function MoreCuts(s: string, from: nat, c: seq<nat>, k: nat): seq<nat>
  {
    if |c| < k || After(from, c) > |s| then c
    else match Chr(s, After(from, c))
      case None => c
      case Some(p) => c + [p]
  }

  /** One more strchr call extends the list of hits by at most its own hit. */
  lemma {:induction false} CutsSnoc(s: string, from: nat, k: nat)
    requires from <= |s|
    ensures Cuts(s, from, k + 1) == MoreCuts(s, from, Cuts(s, from, k), k)
    decreases k
  {
    if k > 0 {
      match Chr(s, from)
      case None =>
      case Some(p) =>
        CutsSnoc(s, p + 1, k - 1);
        CutsSnocNext(s, from, k, p);
    }
  }

  lemma CutsSnocNext(s: string, from: nat, k: nat, p: nat)
    requires from <= |s| && k > 0 && Chr(s, from) == Some(p)
    requires p < |s| && Cuts(s, p + 1, k) == MoreCuts(s, p + 1, Cuts(s, p + 1, k - 1), k - 1)
    ensures Cuts(s, from, k + 1) == MoreCuts(s, from, Cuts(s, from, k), k)
  {
    CutsCons(s, from, k, p);
    CutsCons(s, from, k + 1, p);
    MoreCutsCons(s, from, p, Cuts(s, p + 1, k - 1), k);
  }

  lemma MoreCutsCons(s: string, from: nat, p: nat, c': seq<nat>, k: nat)
    requires k > 0
    ensures MoreCuts(s, from, [p] + c', k) == [p] + MoreCuts(s, p + 1, c', k - 1)
  {
    assert After(from, [p] + c') == After(p + 1, c');
    if |c'| >= k - 1 && After(p + 1, c') <= |s| {
      match Chr(s, After(p + 1, c'))
      case None =>
      case Some(q) =>
        assert ([p] + c') + [q] == [p] + (c' + [q]);
    }
  }

  /** Once strchr misses, asking for more colons changes nothing. */
  lemma {:induction false} CutsStable(s: string, from: nat, j: nat, m: nat)
    requires from <= |s| && |Cuts(s, from, j)| < j <= m
    ensures Cuts(s, from, m) == Cuts(s, from, j)
    decreases m - j
  {
    if j < m {
      CutsSnoc(s, from, j);
      CutsStable(s, from, j + 1, m);
    }
  }

  lemma BlankSnoc(b0: seq<char>, cs: seq<nat>, p: nat)
    requires p < |b0|
    ensures Blank(b0, cs)[p := NUL] == Blank(b0, cs + [p])
  {
    assert forall j :: j in cs + [p] <==> j in cs || j == p;
  }

  /**
   * strchr(from, ':') and, on a hit, `*(p++) = '\0'`: returns the offset
   * just after the overwritten colon, or None when there is no colon.
   */
  method Cut(buf: array<char>, from: nat, ghost b0: seq<char>, cs: seq<nat>)
    returns (next: Option<nat>, cs': seq<nat>)
    requires Consuming(buf[..], b0, cs) && |cs| < MAX_CUTS && from == After(0, cs)
    modifies buf
    ensures Consuming(buf[..], b0, cs')
    ensures next.None? ==> cs' == cs && Cuts(CStr(b0, 0), 0, MAX_CUTS) == cs
    ensures next.Some? ==> next.value > 0 && cs' == cs + [next.value - 1] && next.value == After(0, cs')
  {
    ghost var s := CStr(b0, 0);
    ChrOnBlank(buf[..], b0, cs);
    CutsSnoc(s, 0, |cs|);
    var c := StrChr(buf, from);
    if c.None? {
      next, cs' := None, cs;
      CutsStable(s, 0, |cs| + 1, MAX_CUTS);
    } else {
      BlankSnoc(b0, cs, c.value);
      buf[c.value] := NUL;
      next, cs' := Some(c.value + 1), cs + [c.value];
    }
  }

  /** A strchr miss before the fifth or between the sixth and the ninth colon: the record is malformed. */
  lemma MissIsMalformed(buf: seq<char>, b0: seq<char>, cs: seq<nat>)
    requires Consuming(buf, b0, cs) && Cuts(CStr(b0, 0), 0, MAX_CUTS) == cs
    requires !StartsDeleted(CStr(b0, 0)) && (|cs| < 5 || 5 < |cs| < 9)
    ensures Decode(CStr(b0, 0)) == Malformed && buf == Blank(b0, Consumed(CStr(b0, 0)))
  {
  }

  /** The field views of the split buffer, one after each overwritten colon. */
  function Views(buf: seq<char>, cs: seq<nat>): (v: seq<string>)
    requires forall i :: 0 <= i < |cs| ==> cs[i] < |buf|
    ensures |v| == |cs| + 1
  {
    seq(|cs| + 1, i requires 0 <= i <= |cs| => CStr(buf, Start(0, cs, i)))
  }

  /** The summary the field views describe, for a record with five or nine or more colons. */
  lemma {:induction false} ViewsDecode(buf: seq<char>, b0: seq<char>, cs: seq<nat>)
    requires Consuming(buf, b0, cs) && Cuts(CStr(b0, 0), 0, MAX_CUTS) == cs
    requires !StartsDeleted(CStr(b0, 0)) && (|cs| == 5 || |cs| >= 9)
    ensures forall i :: 0 <= i < |cs| ==> cs[i] < |buf|
    ensures Views(buf, cs) == Pieces(CStr(b0, 0), 0, cs)
    ensures buf == Blank(b0, Consumed(CStr(b0, 0)))
  {
    var s := CStr(b0, 0);
    AscendingBounds(s, 0, cs);
    ViewsArePieces(buf, b0, cs);
  }

  /**
   * sk_decode_sum on the NUL-terminated record in `buf`: returns 1 for the
   * deleted-file sentinel, -1 for a malformed record and 0 with the summary
   * otherwise. Every ':' it gets to is overwritten with NUL in place, also
   * on the way to a failure; `cs` lists the overwritten offsets, and the
   * text fields are the C strings that start in the buffer after each of them.
   */
  method DecodeSum(buf: array<char>) returns (rc: int, res: DecodeResult)
    requires NUL in buf[..]
    modifies buf
    ensures res == Decode(CStr(old(buf[..]), 0)) && rc == Code(res)
    ensures buf[..] == Blank(old(buf[..]), Consumed(CStr(old(buf[..]), 0)))
  {
    ghost var b0 := buf[..];
    ghost var s := CStr(b0, 0);
    assert HoldsCString(b0);
    if buf[0] == '-' && buf[1] == '1' {
      assert StartsDeleted(s);
      assert buf[..] == Blank(b0, []);
      return 1, Deleted;
    }
    assert !StartsDeleted(s);
    var cs: seq<nat> := [];
    assert buf[..] == Blank(b0, cs);
    var cPerm, uid, gid, md5, sha1;
    cPerm, cs := Cut(buf, 0, b0, cs);
    if cPerm.None? { MissIsMalformed(buf[..], b0, cs); return -1, Malformed; }
    uid, cs := Cut(buf, cPerm.value, b0, cs);
    if uid.None? { MissIsMalformed(buf[..], b0, cs); return -1, Malformed; }
    gid, cs := Cut(buf, uid.value, b0, cs);
    if gid.None? { MissIsMalformed(buf[..], b0, cs); return -1, Malformed; }
    md5, cs := Cut(buf, gid.value, b0, cs);
    if md5.None? { MissIsMalformed(buf[..], b0, cs); return -1, Malformed; }
    sha1, cs := Cut(buf, md5.value, b0, cs);
    if sha1.None? { MissIsMalformed(buf[..], b0, cs); return -1, Malformed; }
    rc, res := DecodeNewFields(buf, sha1.value, b0, cs);
  }

  /**
   * The second half of sk_decode_sum, after the five mandatory colons: no
   * sixth colon is the short form; otherwise user name, group name, mtime
   * and inode must all follow, and a tenth colon starts the sha256 text.
   */
  method DecodeNewFields(buf: array<char>, sha1: nat, ghost b0: seq<char>, cs: seq<nat>)
    returns (rc: int, res: DecodeResult)
    requires Consuming(buf[..], b0, cs) && |cs| == 5 && sha1 == After(0, cs)
    requires !StartsDeleted(CStr(b0, 0))
    modifies buf
    ensures res == Decode(CStr(b0, 0)) && rc == Code(res)
    ensures buf[..] == Blank(b0, Consumed(CStr(b0, 0)))
  {
    var uname, gname, cMtime, cInode, sha256;
    var cs := cs;
    uname, cs := Cut(buf, sha1, b0, cs);
    if uname.None? {
      ViewsDecode(buf[..], b0, cs);
      return 0, Ok(Assemble(Views(buf[..], cs)));
    }
    gname, cs := Cut(buf, uname.value, b0, cs);
    if gname.None? { MissIsMalformed(buf[..], b0, cs); return -1, Malformed; }
    cMtime, cs := Cut(buf, gname.value, b0, cs);
    if cMtime.None? { MissIsMalformed(buf[..], b0, cs); return -1, Malformed; }
    cInode, cs := Cut(buf, cMtime.value, b0, cs);
    if cInode.None? { MissIsMalformed(buf[..], b0, cs); return -1, Malformed; }
    sha256, cs := Cut(buf, cInode.value, b0, cs);
    if sha256.Some? {
      assert |cs| == MAX_CUTS;
    }
    ViewsDecode(buf[..], b0, cs);
    return 0, Ok(Assemble(Views(buf[..], cs)));
  }
}
