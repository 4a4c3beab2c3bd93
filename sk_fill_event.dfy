/**
 * sk_fill_event: copies a decoded summary into an alert event (Eventinfo):
 * the named "after" attributes, and the twelve dynamic fields whose keys
 * come from the syscheck decoder and whose values are the summary's fields
 * as text (the permission in octal, mtime and inode in decimal).
 */
module SkFillEvent {
  import opened Wrappers
  import opened CString
  import opened Numeric
  import opened Fields
  import opened SkSum
  import opened SkDecode

  // The dynamic-field slots of a syscheck event, in the order of the
  // header's enumeration.
  const SK_FILE: nat := 0
  const SK_SIZE: nat := 1
  const SK_PERM: nat := 2
  const SK_UID: nat := 3
  const SK_GID: nat := 4
  const SK_MD5: nat := 5
  const SK_SHA1: nat := 6
  const SK_UNAME: nat := 7
  const SK_GNAME: nat := 8
  const SK_INODE: nat := 9
  const SK_MTIME: nat := 10
  const SK_SHA256: nat := 11
  const SK_NFIELDS: nat := 12

  /** The slots sk_fill_event always fills, whatever the summary holds. */
  const UNCONDITIONAL_SLOTS: set<nat> := {SK_FILE, SK_SIZE, SK_PERM, SK_UID, SK_GID, SK_MD5, SK_SHA1}

  /** One dynamic field of an event: a key and a value, each a C string or NULL. */
  datatype DynamicField = DynamicField(key: Option<string>, value: Option<string>)

  /** A conditional copy: the new value when there is one, otherwise what was there. */
  function Overlay(next: Option<string>, prev: Option<string>): Option<string>
  {
    if next.Some? then next else prev
  }

  /** The text "%06o" leaves in a 7-character buffer; %o reads the int as unsigned. */
  function PermText(perm: int): (t: string)
    ensures |t| <= 6 && AllDigits(t)
  {
    DigitsNoNul(perm % 0x1_0000_0000, 8, 6);
    Truncated(PadLeft(Digits(perm % 0x1_0000_0000, 8), 6), 7)
  }

  /** The text "%ld" leaves in a 20-character buffer. */
  function LongText(v: int): (t: string)
    ensures |t| <= 19 && t <= Dec(v)
  {
    Truncated(Dec(v), 20)
  }

  /**
   * The value sk_fill_event stores in dynamic field `i`, or None where it
   * stores nothing (a NULL user name, group name or sha256, a zero mtime or
   * inode, or an index outside the twelve slots).
   */
  function Slot(i: nat, fName: string, sum: Sum): Option<string>
  {
    if i == SK_FILE then Some(fName)
    else if i == SK_SIZE then Some(sum.size)
    else if i == SK_PERM then Some(PermText(sum.perm))
    else if i == SK_UID then Some(sum.uid)
    else if i == SK_GID then Some(sum.gid)
    else if i == SK_MD5 then Some(sum.md5)
    else if i == SK_SHA1 then Some(sum.sha1)
    else if i == SK_UNAME then sum.uname
    else if i == SK_GNAME then sum.gname
    else if i == SK_INODE then (if sum.inode != 0 then Some(LongText(sum.inode)) else None)
    else if i == SK_MTIME then (if sum.mtime != 0 then Some(LongText(sum.mtime)) else None)
    else if i == SK_SHA256 then sum.sha256
    else None
  }

  /**
   * os_calloc(cap) followed by snprintf(buffer, cap, ...): the C string the
   * new buffer holds afterwards.
   */
  method PrintToNew(cap: nat, text: string) returns (t: string)
    requires cap > 0 && NoNul(text)
    ensures t == Truncated(text, cap)
  {
    var b := new char[cap](_ => NUL);
    var _ := Snprintf(b, text);
    PrintedReadsTruncated(b[..], text);
    t := CStr(b[..], 0);
  }

  /**
   * The text of a nonzero mtime or inode, printed with "%ld" into a new
   * 20-character buffer; nothing for zero.
   */
  method LongField(v: int) returns (r: Option<string>)
    ensures r.Some? <==> v != 0
    ensures r.Some? ==> r.value == LongText(v)
  {
    r := None;
    if v != 0 {
      AtoiOfDec(v);
      var t := PrintToNew(20, Dec(v));
      r := Some(t);
    }
  }

  /** An alert event, as far as sk_fill_event writes it. */
  class Eventinfo {
    var filename: Option<string>
    var sizeAfter: Option<string>
    var permAfter: int
    var ownerAfter: Option<string>
    var gownerAfter: Option<string>
    var md5After: Option<string>
    var sha1After: Option<string>
    var unameAfter: Option<string>
    var gnameAfter: Option<string>
    var mtimeAfter: int
    var inodeAfter: int
    var sha256After: Option<string>
    var nfields: int
    var fields: array<DynamicField>

    /** A zero-filled event with room for `n` dynamic fields. */
    constructor (n: nat)
      ensures filename == None && sizeAfter == None && permAfter == 0
      ensures ownerAfter == None && gownerAfter == None && md5After == None && sha1After == None
      ensures unameAfter == None && gnameAfter == None && mtimeAfter == 0 && inodeAfter == 0
      ensures sha256After == None && nfields == 0
      ensures fresh(fields) && fields.Length == n
      ensures forall i :: 0 <= i < n ==> fields[i] == DynamicField(None, None)
    {
      filename, sizeAfter, permAfter := None, None, 0;
      ownerAfter, gownerAfter, md5After, sha1After := None, None, None, None;
      unameAfter, gnameAfter, mtimeAfter, inodeAfter := None, None, 0, 0;
      sha256After, nfields := None, 0;
      fields := new DynamicField[n](_ => DynamicField(None, None));
    }

    /**
     * Every named text attribute equals the value of its dynamic field.
     * sk_fill_event keeps this: what it writes it writes to both, and what
     * it skips it skips in both.
     */
    predicate Mirrored()
      reads this, fields
    {
      fields.Length >= SK_NFIELDS &&
      fields[SK_FILE].value == filename && fields[SK_SIZE].value == sizeAfter &&
      fields[SK_UID].value == ownerAfter && fields[SK_GID].value == gownerAfter &&
      fields[SK_MD5].value == md5After && fields[SK_SHA1].value == sha1After &&
      fields[SK_UNAME].value == unameAfter && fields[SK_GNAME].value == gnameAfter &&
      fields[SK_SHA256].value == sha256After
    }

    /**
     * sk_fill_event(lf, f_name, sum), with the decoder's field names passed
     * as `keys`: the named attributes, then the dynamic fields.
     */
    method FillEvent(fName: string, sum: Sum, keys: seq<string>)
      requires fields.Length >= SK_NFIELDS && |keys| >= SK_NFIELDS
      modifies this, fields
      ensures fields == old(fields)
      ensures filename == Some(fName) && sizeAfter == Some(sum.size) && permAfter == sum.perm
      ensures ownerAfter == Some(sum.uid) && gownerAfter == Some(sum.gid)
      ensures md5After == Some(sum.md5) && sha1After == Some(sum.sha1)
      ensures unameAfter == Overlay(sum.uname, old(unameAfter))
      ensures gnameAfter == Overlay(sum.gname, old(gnameAfter))
      ensures mtimeAfter == sum.mtime && inodeAfter == sum.inode
      ensures sha256After == Overlay(sum.sha256, old(sha256After))
      ensures nfields == SK_NFIELDS
      ensures forall i :: 0 <= i < SK_NFIELDS ==>
        fields[i] == DynamicField(Some(keys[i]), Overlay(Slot(i, fName, sum), old(fields[i].value)))
      ensures forall i :: SK_NFIELDS <= i < fields.Length ==> fields[i] == old(fields[i])
      ensures old(Mirrored()) ==> Mirrored()
    {
      FillAttributes(fName, sum);
      FillOptionalAttributes(sum);
      nfields := SK_NFIELDS;
      FillFields(fName, sum, keys);
    }

    /** The first half of sk_fill_event: the named "after" attributes every summary has. */
    method FillAttributes(fName: string, sum: Sum)
      modifies this
      ensures fields == old(fields) && nfields == old(nfields)
      ensures filename == Some(fName) && sizeAfter == Some(sum.size) && permAfter == sum.perm
      ensures ownerAfter == Some(sum.uid) && gownerAfter == Some(sum.gid)
      ensures md5After == Some(sum.md5) && sha1After == Some(sum.sha1)
      ensures mtimeAfter == sum.mtime && inodeAfter == sum.inode
      ensures unameAfter == old(unameAfter) && gnameAfter == old(gnameAfter)
      ensures sha256After == old(sha256After)
    {
      filename := Some(fName);
      sizeAfter := Some(sum.size);
      permAfter := sum.perm;
      ownerAfter := Some(sum.uid);
      gownerAfter := Some(sum.gid);
      md5After := Some(sum.md5);
      sha1After := Some(sum.sha1);
      mtimeAfter := sum.mtime;
      inodeAfter := sum.inode;
    }

    /** The "after" attributes sk_fill_event copies only when the summary has them. */
    method FillOptionalAttributes(sum: Sum)
      modifies this
      ensures fields == old(fields) && nfields == old(nfields)
      ensures filename == old(filename) && sizeAfter == old(sizeAfter) && permAfter == old(permAfter)
      ensures ownerAfter == old(ownerAfter) && gownerAfter == old(gownerAfter)
      ensures md5After == old(md5After) && sha1After == old(sha1After)
      ensures mtimeAfter == old(mtimeAfter) && inodeAfter == old(inodeAfter)
      ensures unameAfter == Overlay(sum.uname, old(unameAfter))
      ensures gnameAfter == Overlay(sum.gname, old(gnameAfter))
      ensures sha256After == Overlay(sum.sha256, old(sha256After))
    {
      if sum.uname.Some? {
        unameAfter := sum.uname;
      }
      if sum.gname.Some? {
        gnameAfter := sum.gname;
      }
      if sum.sha256.Some? {
        sha256After := sum.sha256;
      }
    }

    /** The second half of sk_fill_event: the keys, then the values of the dynamic fields. */
    method FillFields(fName: string, sum: Sum, keys: seq<string>)
      requires fields.Length >= SK_NFIELDS && |keys| >= SK_NFIELDS
      modifies fields
      ensures forall i :: 0 <= i < SK_NFIELDS ==>
        fields[i] == DynamicField(Some(keys[i]), Overlay(Slot(i, fName, sum), old(fields[i].value)))
      ensures forall i :: SK_NFIELDS <= i < fields.Length ==> fields[i] == old(fields[i])
    {
      ghost var prev := fields[..];
      SetKeys(keys);
      assert Progress(fields[..], prev, keys, fName, sum, 0);
      StoreValues(fName, sum, prev, keys);
    }

    /** The key loop: every slot's key becomes the decoder's name for it. */
    method SetKeys(keys: seq<string>)
      requires fields.Length >= SK_NFIELDS && |keys| >= SK_NFIELDS
      modifies fields
      ensures forall j :: 0 <= j < SK_NFIELDS ==> fields[j] == DynamicField(Some(keys[j]), old(fields[j].value))
      ensures forall j :: SK_NFIELDS <= j < fields.Length ==> fields[j] == old(fields[j])
    {
      for i := 0 to SK_NFIELDS
        invariant forall j :: 0 <= j < i ==> fields[j] == DynamicField(Some(keys[j]), old(fields[j].value))
        invariant forall j :: i <= j < fields.Length ==> fields[j] == old(fields[j])
      {
        fields[i] := fields[i].(key := Some(keys[i]));
      }
    }

    /** The value stores of sk_fill_event, slot by slot in index order. */
    method StoreValues(fName: string, sum: Sum, ghost prev: seq<DynamicField>, ghost keys: seq<string>)
      requires Progress(fields[..], prev, keys, fName, sum, 0)
      modifies fields
      ensures Progress(fields[..], prev, keys, fName, sum, SK_NFIELDS)
    {
      StoreSlot(SK_FILE, Some(fName), prev, keys, fName, sum);
      StoreSlot(SK_SIZE, Some(sum.size), prev, keys, fName, sum);
      DigitsNoNul(sum.perm % 0x1_0000_0000, 8, 6);
      var perm := PrintToNew(7, PadLeft(Digits(sum.perm % 0x1_0000_0000, 8), 6));
      StoreSlot(SK_PERM, Some(perm), prev, keys, fName, sum);
      StoreSlot(SK_UID, Some(sum.uid), prev, keys, fName, sum);
      StoreSlot(SK_GID, Some(sum.gid), prev, keys, fName, sum);
      StoreSlot(SK_MD5, Some(sum.md5), prev, keys, fName, sum);
      StoreSlot(SK_SHA1, Some(sum.sha1), prev, keys, fName, sum);
      StoreOptional(fName, sum, prev, keys);
    }

    /** The stores sk_fill_event makes only when the summary has the value. */
    method StoreOptional(fName: string, sum: Sum, ghost prev: seq<DynamicField>, ghost keys: seq<string>)
      requires Progress(fields[..], prev, keys, fName, sum, SK_UNAME)
      modifies fields
      ensures Progress(fields[..], prev, keys, fName, sum, SK_NFIELDS)
    {
      StoreSlot(SK_UNAME, sum.uname, prev, keys, fName, sum);
      StoreSlot(SK_GNAME, sum.gname, prev, keys, fName, sum);
      var inode := LongField(sum.inode);
      StoreSlot(SK_INODE, inode, prev, keys, fName, sum);
      var mtime := LongField(sum.mtime);
      StoreSlot(SK_MTIME, mtime, prev, keys, fName, sum);
      StoreSlot(SK_SHA256, sum.sha256, prev, keys, fName, sum);
    }

    /**
     * One value store of sk_fill_event, made only when there is a value
     * (the `if (sum->...)` guards); slots are written in index order.
     */
    method StoreSlot(k: nat, v: Option<string>, ghost prev: seq<DynamicField>, ghost keys: seq<string>,
                     ghost fName: string, ghost sum: Sum)
      requires k < SK_NFIELDS && v == Slot(k, fName, sum)
      requires Progress(fields[..], prev, keys, fName, sum, k)
      modifies fields
      ensures Progress(fields[..], prev, keys, fName, sum, k + 1)
    {
      if v.Some? {
        fields[k] := fields[k].(value := v);
      }
    }
  }

  /**
   * The dynamic fields while sk_fill_event stores values: every key is set,
   * the slots below `n` hold their value, the others still hold what they
   * held before the call.
   */
  ghost predicate Progress(a: seq<DynamicField>, prev: seq<DynamicField>, keys: seq<string>,
                           fName: string, sum: Sum, n: nat)
  {
    |a| == |prev| >= SK_NFIELDS && |keys| >= SK_NFIELDS &&
    (forall j :: 0 <= j < SK_NFIELDS ==>
      a[j] == DynamicField(Some(keys[j]), if j < n then Overlay(Slot(j, fName, sum), prev[j].value) else prev[j].value)) &&
    (forall j :: SK_NFIELDS <= j < |a| ==> a[j] == prev[j])
  }

  /** Zero-padded digits contain no NUL. */
  lemma DigitsNoNul(n: nat, base: nat, width: nat)
    requires 2 <= base <= 10
    ensures NoNul(PadLeft(Digits(n, base), width)) && AllDigits(PadLeft(Digits(n, base), width))
  {
    var t := PadLeft(Digits(n, base), width);
    assert forall j :: 0 <= j < |t| ==> IsDigit(t[j]);
  }

  // ---------------------------------------------------------------------
  // Properties of the stored texts

  /**
   * A permission below 0o1000000 is stored as exactly six octal digits
   * that read back as the permission.
   */
  lemma PermTextOctal(perm: int)
    requires 0 <= perm < 0x4_0000
    ensures var t := PermText(perm);
      |t| == 6 && AllDigits(t) && (forall j :: 0 <= j < 6 ==> DigitVal(t[j]) < 8) && Value(t, 8) == perm
  {
    var d := Digits(perm, 8);
    assert perm % 0x1_0000_0000 == perm;
    assert Pow(8, 6) == 0x4_0000;
    DigitsLength(perm, 8, 6);
    var t := Zeros(6 - |d|) + d;
    assert PadLeft(d, 6) == t;
    ValueOfDigits(perm, 8);
    ValueOfZeros(6 - |d|, d, 8);
    assert Truncated(t, 7) == t;
  }

  /** The permission 8 is stored as "000010". */
  lemma PermTextOfEight()
    ensures PermText(8) == "000010"
  {
    assert 8 % 0x1_0000_0000 == 8;
    DivModBounds(8, 8);
    DigitsOne(1, 8);
    DigitsOne(0, 8);
    assert Digits(8, 8) == "10";
    assert Zeros(4) == "0000";
  }

  /**
   * An mtime or inode above -10^18 and below 10^19 (every non-negative
   * long among them) fits the 20-character buffer: the stored text is its
   * whole decimal form and reads back as the number.
   */
  lemma LongTextDecimal(v: int)
    requires -1_000_000_000_000_000_000 < v < 10_000_000_000_000_000_000
    ensures LongText(v) == Dec(v) && Atoi(LongText(v)) == v
  {
    if v < 0 {
      assert Pow(10, 9) == 1_000_000_000;
      PowAdd(10, 9, 9);
      DigitsLength(-v, 10, 18);
    } else {
      assert Pow(10, 9) == 1_000_000_000 && Pow(10, 10) == 10_000_000_000;
      PowAdd(10, 9, 10);
      DigitsLength(v, 10, 19);
    }
    assert Truncated(Dec(v), 20) == Dec(v);
    AtoiOfDec(v);
  }

  /** A short record (five colons) fills exactly the seven slots from FILE to SHA1. */
  lemma ShortRecordSlots(s: string, fName: string)
    requires NoNul(s) && !StartsDeleted(s) && Colons(s) == 5
    ensures Decode(s).Ok?
    ensures forall i :: 0 <= i < SK_NFIELDS ==> (Slot(i, fName, Decode(s).sum).Some? <==> i in UNCONDITIONAL_SLOTS)
  {
    DecodeShape(s);
    ShortSummarySlots(Decode(s).sum, fName);
  }

  /** A summary without any optional value fills exactly the unconditional slots. */
  lemma ShortSummarySlots(m: Sum, fName: string)
    requires m.uname == None && m.gname == None && m.inode == 0 && m.mtime == 0 && m.sha256 == None
    ensures forall i :: 0 <= i < SK_NFIELDS ==> (Slot(i, fName, m).Some? <==> i in UNCONDITIONAL_SLOTS)
  {
    SummarySlots(m, fName);
    forall i | 0 <= i < SK_NFIELDS
      ensures Slot(i, fName, m).Some? <==> i in UNCONDITIONAL_SLOTS
    {
      if i < SK_UNAME {
        assert i in UNCONDITIONAL_SLOTS;
      } else {
        assert i == SK_UNAME || i == SK_GNAME || i == SK_INODE || i == SK_MTIME || i == SK_SHA256;
      }
    }
  }

  /**
   * An extended record fills the user and group name slots from its
   * seventh and eighth fields, the mtime and inode slots when those fields
   * are nonzero, and the sha256 slot exactly when it has a tenth colon.
   */
  lemma ExtendedRecordSlots(s: string, fName: string)
    requires NoNul(s) && !StartsDeleted(s) && Colons(s) >= 9
    ensures Decode(s).Ok? && |Split(s)| == Colons(s) + 1
    ensures var m := Decode(s).sum; var f := Split(s);
      Slot(SK_UNAME, fName, m) == Some(f[6]) && Slot(SK_GNAME, fName, m) == Some(f[7]) &&
      (Slot(SK_MTIME, fName, m).Some? <==> Atoi(f[8]) != 0) &&
      (Slot(SK_INODE, fName, m).Some? <==> Atoi(f[9]) != 0) &&
      (Slot(SK_SHA256, fName, m).Some? <==> Colons(s) >= 10)
  {
    var f := Split(s);
    DecodeBySplit(s);
    SplitCount(s);
    var g := if |f| <= 10 then f else f[..10] + [Join(f[10..])];
    assert Decode(s) == Ok(Assemble(g));
    assert g[6] == f[6] && g[7] == f[7] && g[8] == f[8] && g[9] == f[9];
    AssembledSlots(g, fName);
  }

  /** Which slots a summary fills: the seven unconditional ones, and each optional one when it is present. */
  lemma SummarySlots(m: Sum, fName: string)
    ensures forall i :: i in UNCONDITIONAL_SLOTS ==> Slot(i, fName, m).Some?
    ensures Slot(SK_UNAME, fName, m) == m.uname && Slot(SK_GNAME, fName, m) == m.gname
    ensures Slot(SK_INODE, fName, m).Some? <==> m.inode != 0
    ensures Slot(SK_MTIME, fName, m).Some? <==> m.mtime != 0
    ensures Slot(SK_SHA256, fName, m) == m.sha256
    ensures forall i :: i >= SK_NFIELDS ==> Slot(i, fName, m) == None
  {
  }

  /** The optional slots of a summary assembled from ten or more fields. */
  lemma AssembledSlots(g: seq<string>, fName: string)
    requires |g| >= 10
    ensures var m := Assemble(g);
      Slot(SK_UNAME, fName, m) == Some(g[6]) && Slot(SK_GNAME, fName, m) == Some(g[7]) &&
      (Slot(SK_MTIME, fName, m).Some? <==> Atoi(g[8]) != 0) &&
      (Slot(SK_INODE, fName, m).Some? <==> Atoi(g[9]) != 0) &&
      (Slot(SK_SHA256, fName, m).Some? <==> |g| > 10)
  {
    SummarySlots(Assemble(g), fName);
  }
}
