# Syscheck checksum records

This project models the syscheck checksum codec of `src/shared/syscheck_op.c`.
Syscheck is the file-integrity monitor. It describes each file by a
colon-separated checksum record:

    SIZE:PERM:UID:GID:MD5:SHA1[:UNAME:GNAME:MTIME:INODE[:SHA256]]

The record may also be the deleted-file sentinel `-1`. Three C functions
handle these records, and each is modelled in the form the C code takes:

- `sk_decode_sum` is modelled as `SkDecode.DecodeSum` on an `array<char>` that
  holds the NUL-terminated record.
  - It finds each `:` with strchr, overwrites it with NUL in place, and keeps
    the C string that starts after it as the next field.
  - `SkDecode.Decode` is its specification. It takes the successive strchr
    hits (`Cuts`) and the texts between them (`Pieces`).
  - `SkDecode.FieldwiseDecode` is an independent reference. It splits at
    every colon (`Fields.Split`), and the two are proved equal.
- `sk_build_sum` is modelled as `SkBuild.BuildSum`. It runs snprintf into a
  caller-owned `array<char>` and returns 0 or -1.
  - `SkBuild.Format` gives the text it asks snprintf to write.
  - Round trips in both directions relate it to the decoder.
- `sk_fill_event` is modelled as `SkFillEvent.Eventinfo.FillEvent`, a method
  of a class holding the event's "after" attributes and its array of
  dynamic fields.
  - The key loop and the value stores are written slot by slot, as in C.
  - `SkFillEvent.Slot` says what each slot receives.

Supporting modules:
- `CString`: C strings inside a buffer, strchr, and snprintf into a buffer.
- `Numeric`: atoi/atol, `%d`/`%ld` and `%o` digits.
- `Fields`: splitting at colons and joining with colons.
- `SkSum`: the summary `sk_sum_t` and the decode outcome.

Two behaviours of the code are easy to miss:
- The builder never writes sha256 (`syscheck_op.c` line 151), so a record that
  carries one does not round-trip.
- The octal permission text is cut to six characters by snprintf rather than
  rejected (`syscheck_op.c` line 121).

Only the first two characters are compared with the sentinel, as in the code,
so a record such as `-12:…` decodes as deleted.

Two points of the model rest on assumptions:
- The slot numbers `SK_FILE` … `SK_SHA256` and `SK_NFIELDS` come from
  `syscheck_op.h`, which is not part of this model. They are taken as
  0 … 11 and 12, in the order in which `sk_fill_event` stores the values.
- Integers are unbounded. atoi and atol are one function, `Numeric.Atoi`:
  it skips isspace, takes an optional sign, and reads the longest digit
  prefix, giving 0 when there is none.

## Model

| member | source | states |
|---|---|---|
| SkDecode.DecodeSum | src/shared/syscheck_op.c:18-54 | returns exactly `Decode` of the C string in the buffer, with code 1/-1/0. The buffer afterwards is the old one with NUL at the consumed colons and nothing else changed, also on the failure paths |
| SkDecode.DecodeNewFields | src/shared/syscheck_op.c:56-85 | after five colons: no sixth colon is success in short form; a missing seventh, eighth or ninth colon is -1; a tenth colon starts sha256. It states the same result and buffer as `DecodeSum` |
| SkDecode.Cut | src/shared/syscheck_op.c:30-33 | one strchr and `*(p++) = '\0'`. On a hit it returns the offset after the colon, which is the next strchr position of the record, and blanks exactly that colon. On a miss it leaves the buffer unchanged and all cuts are found |
| SkDecode.ViewsDecode | src/shared/syscheck_op.c:28-85 | the field views left in the blanked buffer are exactly the texts between the consumed colons of the original record |
| SkDecode.DecodeBySplit | src/shared/syscheck_op.c:18-85 | the positional strchr parse equals the reference decoder that splits at every colon, where the sha256 field is everything after the tenth colon |
| SkDecode.CutsSplit | src/shared/syscheck_op.c:30-81 | the first k strchr hits are the first k colons, and the pieces between them are the colon-separated fields, with the rest joined back into the last piece |
| SkDecode.DecodeShape | src/shared/syscheck_op.c:25-85 | a record that is not the sentinel is malformed with fewer than five colons (including the empty record) and with six to eight colons. With five colons it is short form (no uname, gname or sha256; mtime and inode 0). With nine or more it is extended, with uname, gname, atol of mtime and inode, and sha256 present exactly when there is a tenth colon |
| SkDecode.ConsumedAreColons | src/shared/syscheck_op.c:25-81 | the parser overwrites only colon characters, in increasing order, at most ten of them, and none for the sentinel |
| SkDecode.DecodedFieldsColonFree | src/shared/syscheck_op.c:33-76 | no decoded field other than sha256 contains `:` |
| SkDecode.Sha256IsRemainder | src/shared/syscheck_op.c:78-81 | after a tenth colon, sha256 is the whole remainder of the record, which may be empty or contain colons; the record is the first ten fields joined, a colon and sha256 |
| SkDecode.PermIsLenient | src/shared/syscheck_op.c:39 | a permission field with no digit after its white space and optional sign decodes as 0 and the record is still accepted |
| CString.StrChr | src/shared/syscheck_op.c:30 | strchr returns the first `:` at or after the start and before the terminating NUL, or nothing |
| CString.Snprintf | src/shared/syscheck_op.c:151-153 | snprintf returns the full text length and stores at most capacity - 1 characters and a NUL. It leaves the rest of the buffer untouched, and leaves the whole buffer untouched when the capacity is 0 |
| CString.PrintedReadsTruncated | src/shared/syscheck_op.c:151-156 | the C string read back from an snprintf buffer is the text cut to capacity - 1 characters |
| Numeric.AtoiOfDec | src/shared/syscheck_op.c:39 | atoi reads back every number printed with `%d`/`%ld`, and that text contains no colon or NUL |
| Numeric.DecOfAtoi | src/shared/syscheck_op.c:39 | a field in canonical decimal is printed back by `%d` character for character after atoi |
| Numeric.AtoiNonNumeric | src/shared/syscheck_op.c:39 | atoi of text with no digit after its leading white space and optional sign (such as `""`, `-`, `+x` or `rw`) is 0 |
| SkBuild.BuildSum | src/shared/syscheck_op.c:147-157 | returns 0 exactly when the formatted record is shorter than the capacity, and -1 otherwise. The buffer holds snprintf's output of the short or extended form |
| SkBuild.FormatNoNul | src/shared/syscheck_op.c:150-153 | the record holds no NUL when none of the texts given to `%s` does, so snprintf writes all of it up to the capacity |
| SkBuild.FormatSplits | src/shared/syscheck_op.c:150-153 | the record written for a summary whose text fields hold no colon or NUL (`ColonFreeTexts`) has five colons in the short form and nine in the extended form, and splits back into exactly the values written |
| SkBuild.BuildDecodeRoundTrip | src/shared/syscheck_op.c:147-157 | decoding the built record gives back the summary, except that sha256 is lost because the builder never writes it |
| SkBuild.DecodeBuildRoundTrip | src/shared/syscheck_op.c:147-157 | a record that is not the sentinel, with five or nine colons and canonical decimal perm (and mtime and inode), is rebuilt character for character after decoding |
| SkBuild.AssembleFormats | src/shared/syscheck_op.c:150-153 | the summary decoded from six or ten canonical fields is formatted back into exactly those fields |
| SkBuild.FormatAssembles | src/shared/syscheck_op.c:150-153 | decoding the values the builder writes restores every field of the summary, with sha256 absent |
| SkBuild.BuildReadsBack | src/shared/syscheck_op.c:151-156 | for any summary the builder accepts, colons and a `-1` size included, the output buffer reads back as the record when the result is 0, and as the record cut to capacity - 1 characters otherwise |
| SkFillEvent.Eventinfo.FillEvent | src/shared/syscheck_op.c:88-145 | sets filename, size, uid, gid, md5, sha1, perm, mtime and inode unconditionally; uname, gname and sha256 only when present. It sets nfields to 12, key i to label i, and each slot's value to `Slot` when it has one while leaving the rest. Attributes that matched their slots before the call still match after it |
| SkFillEvent.Eventinfo.FillAttributes | src/shared/syscheck_op.c:91-106 | the unconditional "after" attributes are copied, including a zero perm, mtime or inode |
| SkFillEvent.Eventinfo.FillOptionalAttributes | src/shared/syscheck_op.c:99-109 | uname, gname and sha256 are copied only when present, otherwise left as they were |
| SkFillEvent.Eventinfo.FillFields | src/shared/syscheck_op.c:115-144 | key i of each of the twelve slots becomes label i, and its value becomes `Slot` i when that slot has one and stays as it was otherwise (`Overlay`); slots past the twelfth are unchanged |
| SkFillEvent.Eventinfo.StoreValues | src/shared/syscheck_op.c:118-144 | the seven unconditional stores, FILE to SHA1 with the `%06o` permission text, followed by the guarded ones: the slot-order progress moves from no slot stored to all twelve |
| SkFillEvent.Eventinfo.StoreOptional | src/shared/syscheck_op.c:127-144 | the guarded stores of uname, gname, inode, mtime and sha256: the slot-order progress moves from the seven unconditional slots to all twelve |
| SkFillEvent.Eventinfo.SetKeys | src/shared/syscheck_op.c:115-116 | the loop sets the key of each of the twelve slots to the decoder's label and changes nothing else |
| SkFillEvent.Eventinfo.StoreSlot | src/shared/syscheck_op.c:118-144 | one store of a slot's value, made only when there is a value, in slot order |
| SkFillEvent.PrintToNew | src/shared/syscheck_op.c:120-121 | os_calloc then snprintf: the new buffer holds the text cut to capacity - 1 characters |
| SkFillEvent.LongField | src/shared/syscheck_op.c:133-141 | a nonzero mtime or inode becomes its `%ld` text in a 20-character buffer, and zero gives no value |
| SkFillEvent.PermText | src/shared/syscheck_op.c:120-121 | the octal permission text is at most six digits long |
| SkFillEvent.LongText | src/shared/syscheck_op.c:133-141 | the `%ld` text is at most 19 characters and is a prefix of the full decimal form |
| SkFillEvent.PermTextOctal | src/shared/syscheck_op.c:120-121 | a permission below 0o1000000 is stored as exactly six octal digits that read back as the permission |
| SkFillEvent.PermTextOfEight | src/shared/syscheck_op.c:121 | permission 8 is stored as `000010` |
| SkFillEvent.LongTextDecimal | src/shared/syscheck_op.c:133-141 | an mtime or inode above -10^18 and below 10^19 (every non-negative long) is stored whole and reads back with atol |
| SkFillEvent.ShortRecordSlots | src/shared/syscheck_op.c:118-144 | after a short record, a slot gets a value exactly when it is one of the seven unconditional slots FILE, SIZE, PERM, UID, GID, MD5 and SHA1 (`UNCONDITIONAL_SLOTS`) |
| SkFillEvent.ShortSummarySlots | src/shared/syscheck_op.c:118-144 | a summary with no user name, group name, sha256 and zero mtime and inode fills exactly the unconditional slots |
| SkFillEvent.ExtendedRecordSlots | src/shared/syscheck_op.c:127-144 | after an extended record, the name slots get the seventh and eighth fields, the mtime and inode slots get a value when atol of theirs is nonzero, and the sha256 slot gets one exactly when there is a tenth colon |
| SkFillEvent.SummarySlots | src/shared/syscheck_op.c:118-144 | the seven unconditional slots always get a value, each optional slot exactly when the summary has that value, and no index past the twelve slots gets one |

## Left out

- `get_user` and `get_group` (POSIX and Windows) are not part of this model. They wrap operating-system identity lookups and logging.
- The global decoder `sdb` is not modelled. Its field labels are passed to `FillEvent` as a sequence of at least twelve strings.
- `Eventinfo` allocation is not modelled. The class constructor only gives a zero-filled event to start from.
- Out-of-memory handling inside `os_strdup` and `os_calloc` is not modelled. Each of them is a fresh copy or buffer.
- The `memset` of the summary and the partly filled summary left behind on a -1 return are not modelled. A malformed record yields `Malformed` with no summary, because callers discard it.
- SkDecode.DecodeSum: atoi of the permission is taken from the final field views, not from the buffer right after the second colon. The two agree because later cuts fall after the permission text.
- SkDecode.DecodeSum: the C function is written as two methods, split at its "New fields" comment (`DecodeNewFields`).
- Numeric.Atoi: integer width is not modelled. Overflow in atoi and atol (undefined in C) is left out, and numbers are unbounded.
- SkFillEvent.PermText: the unsigned reinterpretation by `%o` is modelled as the value modulo 2^32, which is right for permissions in the range of a C int.
- SkBuild.BuildSum: `%s` with a NULL uname or gname in the extended form is undefined in C. The method requires both to be present whenever the extended form is chosen (`Printable`).
- SkBuild.BuildSum: the text fields must hold no NUL (`CTexts`), as any C string passed to `%s` does; `CString.Snprintf` asks the same of its text.
- SkBuild.BuildSum: the capacity must fit in an int, for the `(int)size` cast. snprintf's negative error return is not modelled.
- Strings are byte strings: one Dafny `char` stands for one C byte, and UTF-8 text (a non-ASCII uname or gname) is modelled as its byte sequence, so lengths, snprintf's return value and its truncation count bytes. Character encodings are not modelled.
