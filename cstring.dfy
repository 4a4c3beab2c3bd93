/**
 * NUL-terminated C strings held in a character buffer: where a string that
 * starts at a given offset ends, `strchr` for ':' and `snprintf` into a
 * caller-owned buffer of fixed capacity.
 */
module CString {
  import opened Wrappers

  const NUL: char := '\0'

  /** True when `t` holds no NUL, i.e. it can be the text of a C string. */
  predicate NoNul(t: string)
  {
    forall j :: 0 <= j < |t| ==> t[j] != NUL
  }

  function Min(a: int, b: int): int
  {
    if a < b then a else b
  }

  /** The offset at which the C string starting at `i` in `b` ends: its first NUL, or |b|. */
  function CLen(b: seq<char>, i: nat): (n: nat)
    requires i <= |b|
    ensures i <= n <= |b|
    ensures forall j :: i <= j < n ==> b[j] != NUL
    ensures n < |b| ==> b[n] == NUL
    decreases |b| - i
  {
    if i == |b| || b[i] == NUL then i else CLen(b, i + 1)
  }

  /** The text a `char *` pointing at offset `i` of `b` reads. */
  function CStr(b: seq<char>, i: nat): string
    requires i <= |b|
  {
    b[i..CLen(b, i)]
  }

  /**
   * `strchr(b + i, ':')`: the offset of the first ':' of the C string that
   * starts at `i`, or None when that string has none.
   */
  function Chr(b: seq<char>, i: nat): (r: Option<nat>)
    requires i <= |b|
    ensures r.Some? ==> i <= r.value < CLen(b, i) && b[r.value] == ':'
    ensures r.Some? ==> forall j :: i <= j < r.value ==> b[j] != ':'
    ensures r.None? ==> forall j :: i <= j < CLen(b, i) ==> b[j] != ':'
    decreases |b| - i
  {
    if i == |b| || b[i] == NUL then None
    else if b[i] == ':' then Some(i)
    else Chr(b, i + 1)
  }

  /** The loop of `strchr`, scanning a buffer for ':' until the terminating NUL. */
  method StrChr(buf: array<char>, from: nat) returns (r: Option<nat>)
    requires from <= buf.Length
    ensures r == Chr(buf[..], from)
  {
    var i := from;
    while i < buf.Length && buf[i] != NUL && buf[i] != ':'
      invariant from <= i <= buf.Length
      invariant Chr(buf[..], i) == Chr(buf[..], from)
    {
      i := i + 1;
    }
    if i < buf.Length && buf[i] == ':' {
      r := Some(i);
    } else {
      r := None;
    }
  }

  /** Two buffers holding the same C string at `i` give the same `strchr` answer there. */
  lemma {:induction false} ChrSameString(b: seq<char>, b': seq<char>, i: nat)
    requires i <= |b| && i <= |b'|
    requires CStr(b, i) == CStr(b', i)
    ensures Chr(b, i) == Chr(b', i)
    decreases |b| - i
  {
    if i == |b| || b[i] == NUL {
      assert CStr(b, i) == [];
    } else {
      assert CStr(b, i)[0] == b[i];
      assert CStr(b', i)[0] == b'[i];
      if b[i] != ':' {
        assert CStr(b, i + 1) == CStr(b, i)[1..];
        assert CStr(b', i + 1) == CStr(b', i)[1..];
        ChrSameString(b, b', i + 1);
      }
    }
  }

  /** On a text without NUL, the C string at `i` is the whole rest of the text. */
  lemma TextIsCString(t: string, i: nat)
    requires NoNul(t) && i <= |t|
    ensures CLen(t, i) == |t| && CStr(t, i) == t[i..]
  {
  }

  /** `b` with a NUL written at every offset listed in `cuts`. */
  function Blank(b: seq<char>, cuts: seq<nat>): seq<char>
  {
    seq(|b|, j requires 0 <= j < |b| => if j in cuts then NUL else b[j])
  }

  /** The text snprintf(buf, cap, "%s", text) stores: at most cap - 1 characters. */
  function Truncated(text: string, cap: nat): string
    requires cap > 0
  {
    text[..Min(|text|, cap - 1)]
  }

  /** The buffer `b` after snprintf(b, |b|, "%s", text), for |b| > 0. */
  function Printed(b: seq<char>, text: string): seq<char>
    requires |b| > 0
  {
    var k := Min(|text|, |b| - 1);
    text[..k] + [NUL] + b[k + 1..]
  }

  /**
   * snprintf into a caller-owned buffer of capacity buf.Length: writes at most
   * buf.Length - 1 characters and a terminator, and returns the length the
   * whole text needed.
   */
  method Snprintf(buf: array<char>, text: string) returns (r: nat)
    requires NoNul(text)
    modifies buf
    ensures r == |text|
    ensures buf.Length == 0 ==> buf[..] == old(buf[..])
    ensures buf.Length > 0 ==> buf[..] == Printed(old(buf[..]), text)
  {
    r := |text|;
    if buf.Length == 0 {
      return;
    }
    var k := Min(|text|, buf.Length - 1);
    var i := 0;
    while i < k
      invariant 0 <= i <= k
      invariant forall j :: 0 <= j < i ==> buf[j] == text[j]
      invariant forall j :: i <= j < buf.Length ==> buf[j] == old(buf[j])
    {
      buf[i] := text[i];
      i := i + 1;
    }
    buf[k] := NUL;
    assert buf[..] == Printed(old(buf[..]), text);
  }

  /** What a caller reads back from the buffer snprintf filled is the truncated text. */
  lemma PrintedReadsTruncated(b: seq<char>, text: string)
    requires |b| > 0 && NoNul(text)
    ensures CStr(Printed(b, text), 0) == Truncated(text, |b|)
  {
    var p := Printed(b, text);
    var k := Min(|text|, |b| - 1);
    assert p[k] == NUL;
    assert forall j :: 0 <= j < k ==> p[j] == text[j];
    assert CLen(p, 0) == k;
  }
}
