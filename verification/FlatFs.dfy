/**
 The flat file system image: a header, then for each file a header, the name, the contents
 and padding to eight bytes. `pack` writes the image, `unpack` reads it back and arranges
 the files into a directory tree by the slashes in their names.

 The iteration order of the source's BTreeMap is any sequence that lists each file once.
 */
module FlatFs {
  import opened Bytes

  type Name = seq<Byte>

  datatype File = File(name: Name, bytes: seq<Byte>)

  /** `Panic` stands for a failed assertion or an index out of bounds. */
  datatype Outcome<T> = Ok(value: T) | Err | Panic

  const FS_HEADER: nat := 32
  const ENTRY_HEADER: nat := 40
  const MAGIC_V1: nat := 0xf1a1_f1a1_f1a1_f1a1

  /** `(n + 7) & !7`. */
  function Align8(n: nat): (r: nat)
    ensures n <= r < n + 8 && r % 8 == 0
  {
    n + 7 - (n + 7) % 8
  }

  // ---------------------------------------------------------------------------------------
  // The image
  // ---------------------------------------------------------------------------------------

  /** Where the entry of `f` at `pos` ends, padding included. */
  function EndOf(pos: nat, f: File): (e: nat)
    ensures e % 8 == 0 && e >= pos + ENTRY_HEADER + |f.name| + |f.bytes|
  {
    Align8(pos + ENTRY_HEADER + |f.name| + |f.bytes|)
  }

  /** The end of the image of `files` laid out from `pos`. */
  function SizeFrom(pos: nat, files: seq<File>): (e: nat)
    ensures e >= pos && (files != [] ==> e >= EndOf(pos, files[0]) && e % 8 == 0)
    decreases |files|
  {
    if files == [] then pos else SizeFrom(EndOf(pos, files[0]), files[1..])
  }

  function EntryHeader(pos: nat, f: File, total: nat): (s: seq<Byte>)
    ensures |s| == ENTRY_HEADER
  {
    var bytesStart := pos + ENTRY_HEADER + |f.name|;
    var next := EndOf(pos, f);
    U64(pos + ENTRY_HEADER) + U64(|f.name|) + U64(bytesStart) + U64(|f.bytes|) + U64(if next == total then 0 else next)
  }

  function Zeros(n: nat): (s: seq<Byte>)
    ensures |s| == n
  {
    seq(n, _ => 0)
  }

  function EntryBytes(pos: nat, f: File, total: nat): (s: seq<Byte>)
    ensures |s| == EndOf(pos, f) - pos
  {
    EntryHeader(pos, f, total) + f.name + f.bytes +
    Zeros(EndOf(pos, f) - (pos + ENTRY_HEADER + |f.name| + |f.bytes|))
  }

  function Body(pos: nat, files: seq<File>, total: nat): (s: seq<Byte>)
    ensures |s| == SizeFrom(pos, files) - pos
    decreases |files|
  {
    if files == [] then [] else EntryBytes(pos, files[0], total) + Body(EndOf(pos, files[0]), files[1..], total)
  }

  function FsHeader(total: nat, count: nat): (s: seq<Byte>)
    ensures |s| == FS_HEADER
  {
    U64(MAGIC_V1) + U64(1) + U64(total) + U64(count)
  }

  function Image(files: seq<File>): seq<Byte> {
    var total := SizeFrom(FS_HEADER, files);
    FsHeader(total, |files|) + Body(FS_HEADER, files, total)
  }

  lemma SmallField(v: nat)
    requires v < 256
    ensures U64(v) == [v, 0, 0, 0, 0, 0, 0, 0]
  {
    assert EncodeLE(0, 3) == [0, 0, 0];
    assert EncodeLE(0, 7) == [0, 0, 0, 0] + EncodeLE(0, 3);
    assert v / 256 == 0;
  }

  /** The magic number is the byte pair a1, f1, four times. */
  lemma MagicField()
    ensures U64(MAGIC_V1) == [0xa1, 0xf1, 0xa1, 0xf1, 0xa1, 0xf1, 0xa1, 0xf1]
  {
    assert EncodeLE(0xf1a1_f1a1, 4) == [0xa1, 0xf1, 0xa1, 0xf1];
    assert EncodeLE(MAGIC_V1, 8) == [0xa1, 0xf1, 0xa1, 0xf1] + EncodeLE(0xf1a1_f1a1, 4);
  }

  lemma SampleEntry(f: File)
    requires f == File([97], [9])
    ensures EntryBytes(32, f, 80) ==
              [72, 0, 0, 0, 0, 0, 0, 0] + [1, 0, 0, 0, 0, 0, 0, 0] +
              [73, 0, 0, 0, 0, 0, 0, 0] + [1, 0, 0, 0, 0, 0, 0, 0] + [0, 0, 0, 0, 0, 0, 0, 0] +
              [97, 9, 0, 0, 0, 0, 0, 0]
  {
    SmallField(0);
    SmallField(1);
    SmallField(72);
    SmallField(73);
    hide U64;
    assert EndOf(32, f) == 80;
    hide EndOf;
    assert [97] + [9] + Zeros(6) == [97, 9, 0, 0, 0, 0, 0, 0];
    assert EntryBytes(32, f, 80) == U64(72) + U64(1) + U64(73) + U64(1) + U64(0) + ([97] + [9] + Zeros(6));
  }

  /** The image of one file "a" with the byte 9, in full. */
  lemma SampleImage()
    ensures Image([File([97], [9])]) ==
              [0xa1, 0xf1, 0xa1, 0xf1, 0xa1, 0xf1, 0xa1, 0xf1] + [1, 0, 0, 0, 0, 0, 0, 0] +
              [80, 0, 0, 0, 0, 0, 0, 0] + [1, 0, 0, 0, 0, 0, 0, 0] +
              ([72, 0, 0, 0, 0, 0, 0, 0] + [1, 0, 0, 0, 0, 0, 0, 0] +
               [73, 0, 0, 0, 0, 0, 0, 0] + [1, 0, 0, 0, 0, 0, 0, 0] + [0, 0, 0, 0, 0, 0, 0, 0] +
               [97, 9, 0, 0, 0, 0, 0, 0])
  {
    var f := File([97], [9]);
    assert [f][1..] == [] && SizeFrom(80, []) == 80 && Body(80, [], 80) == [];
    assert SizeFrom(32, [f]) == 80 && Body(32, [f], 80) == EntryBytes(32, f, 80);
    SampleEntry(f);
    MagicField();
    SmallField(1);
    SmallField(80);
    hide U64;
    hide EntryBytes;
  }

  lemma {:induction false} SizeAppend(pos: nat, files: seq<File>, f: File)
    ensures SizeFrom(pos, files + [f]) == EndOf(SizeFrom(pos, files), f)
    decreases |files|
  {
    if files == [] {
      assert files + [f] == [f] && [f][1..] == [];
    } else {
      SizeAppend(EndOf(pos, files[0]), files[1..], f);
      assert (files + [f])[0] == files[0] && (files + [f])[1..] == files[1..] + [f];
    }
  }

  lemma {:induction false} BodyAppend(pos: nat, files: seq<File>, f: File, total: nat)
    ensures Body(pos, files + [f], total) == Body(pos, files, total) + EntryBytes(SizeFrom(pos, files), f, total)
    decreases |files|
  {
    hide EntryBytes;
    hide EndOf;
    if files == [] {
      assert files + [f] == [f] && [f][1..] == [];
    } else {
      BodyAppend(EndOf(pos, files[0]), files[1..], f, total);
      assert (files + [f])[0] == files[0] && (files + [f])[1..] == files[1..] + [f];
    }
  }

  lemma {:induction false} SizeMonotone(pos: nat, files: seq<File>, i: nat)
    requires i <= |files|
    ensures SizeFrom(pos, files[..i]) <= SizeFrom(pos, files)
    ensures i < |files| ==> EndOf(SizeFrom(pos, files[..i]), files[i]) <= SizeFrom(pos, files)
    decreases |files|
  {
    if i > 0 {
      SizeMonotone(EndOf(pos, files[0]), files[1..], i - 1);
      assert files[..i][1..] == files[1..][..i - 1];
    }
  }

  /** The image of the first `i` files, in a file system of all of them. */
  ghost function Partial(files: seq<File>, i: nat): (s: seq<Byte>)
    requires i <= |files|
    ensures |s| == SizeFrom(FS_HEADER, files[..i])
  {
    FsHeader(SizeFrom(FS_HEADER, files), |files|) + Body(FS_HEADER, files[..i], SizeFrom(FS_HEADER, files))
  }

  lemma PartialStep(files: seq<File>, i: nat)
    requires i < |files| && |Partial(files, i)| % 8 == 0
    ensures var size := SizeFrom(FS_HEADER, files);
            && EndOf(|Partial(files, i)|, files[i]) <= size
            && Partial(files, i + 1) == Partial(files, i) + EntryBytes(|Partial(files, i)|, files[i], size)
            && |Partial(files, i + 1)| % 8 == 0
  {
    hide EntryBytes;
    hide EndOf;
    hide Body;
    hide SizeFrom;
    hide FsHeader;
    var size := SizeFrom(FS_HEADER, files);
    SizeMonotone(FS_HEADER, files, i);
    SizeAppend(FS_HEADER, files[..i], files[i]);
    BodyAppend(FS_HEADER, files[..i], files[i], size);
    assert files[..i + 1] == files[..i] + [files[i]];
    var h, b := FsHeader(size, |files|), Body(FS_HEADER, files[..i], size);
    var e := EntryBytes(SizeFrom(FS_HEADER, files[..i]), files[i], size);
    assert (h + b) + e == h + (b + e);
  }

  /** Writer::pack: sizes first, then the bytes; the final length assertion of the source holds. */
  method Pack(files: seq<File>) returns (result: seq<Byte>)
    ensures result == Image(files)
  {
    var size := PackedSize(files);
    result := U64(MAGIC_V1) + U64(1) + U64(size) + U64(|files|);
    assert result == Partial(files, 0) + [] && |result| == 32;
    for i := 0 to |files|
      invariant result == Partial(files, i) && |result| % 8 == 0
    {
      PartialStep(files, i);
      result := AppendEntry(result, files[i], size);
    }
    assert files[..|files|] == files;
    assert |result| == size;
  }

  /** The first loop of pack. */
  method PackedSize(files: seq<File>) returns (size: nat)
    ensures size == SizeFrom(FS_HEADER, files)
  {
    size := FS_HEADER;
    for i := 0 to |files|
      invariant size == SizeFrom(FS_HEADER, files[..i])
    {
      SizeAppend(FS_HEADER, files[..i], files[i]);
      assert files[..i + 1] == files[..i] + [files[i]];
      size := size + ENTRY_HEADER;
      size := size + |files[i].name|;
      size := size + |files[i].bytes|;
      size := Align8(size);
    }
    assert files[..|files|] == files;
  }

  /** One round of the second loop of pack; the `next_header` it writes is inside the image. */
  method AppendEntry(image: seq<Byte>, f: File, size: nat) returns (result: seq<Byte>)
    requires |image| % 8 == 0 && EndOf(|image|, f) <= size
    ensures result == image + EntryBytes(|image|, f, size)
  {
    hide U64;
    hide Zeros;
    var nameStart := |image| + ENTRY_HEADER;
    var nameLen := |f.name|;
    var bytesStart := nameStart + nameLen;
    var bytesLen := |f.bytes|;
    var next := Align8(bytesStart + bytesLen);
    if next == size {
      next := 0;
    }
    assert next < size;
    result := image + (U64(nameStart) + U64(nameLen) + U64(bytesStart) + U64(bytesLen) + U64(next));
    assert result == image + EntryHeader(|image|, f, size);
    result := result + f.name;
    result := result + f.bytes;
    ghost var start := |result|;
    result := PadTo8(result);
    assert start + |Zeros(Align8(start) - start)| == EndOf(|image|, f);
    assert result == image + (EntryHeader(|image|, f, size) + f.name + f.bytes + Zeros(Align8(start) - start));
  }

  method PadTo8(s: seq<Byte>) returns (r: seq<Byte>)
    ensures r == s + Zeros(Align8(|s|) - |s|)
  {
    r := s;
    while |r| % 8 != 0
      invariant |s| <= |r| <= Align8(|s|)
      invariant r == s + Zeros(|r| - |s|)
      decreases Align8(|s|) - |r|
    {
      r := r + [0];
    }
  }

  // ---------------------------------------------------------------------------------------
  // Reading an image
  // ---------------------------------------------------------------------------------------

  datatype Header = Header(nameStart: nat, nameLen: nat, bytesStart: nat, bytesLen: nat, next: nat)

  function HeaderAt(buf: seq<Byte>, pos: nat): Header
    requires pos + ENTRY_HEADER <= |buf|
  {
    Header(U64At(buf, pos), U64At(buf, pos + 8), U64At(buf, pos + 16), U64At(buf, pos + 24), U64At(buf, pos + 32))
  }

  /** One round of the loop in unpack: the file at `pos` and the position of the next header. */
  function ReadEntry(buf: seq<Byte>, len: nat, pos: nat, utf8: Name -> bool): (r: Outcome<(File, nat)>)
    requires len <= |buf|
  {
    if pos % 8 != 0 then Panic
    else if pos + ENTRY_HEADER >= U64_LIMIT then Panic
    else if pos + ENTRY_HEADER > len then Err
    else
      var h := HeaderAt(buf, pos);
      if h.nameStart + h.nameLen >= U64_LIMIT then Panic
      else if h.nameStart + h.nameLen > len then Err
      else if h.bytesStart + h.bytesLen >= U64_LIMIT then Panic
      else if h.bytesStart + h.bytesLen > len then Err
      else if h.nameStart >= |buf| then Panic
      else
        var name := buf[h.nameStart..h.nameStart + h.nameLen];
        if !utf8(name) then Err
        else if h.bytesStart >= |buf| then Panic
        else Ok((File(name, buf[h.bytesStart..h.bytesStart + h.bytesLen]), h.next))
  }

  /** The loop of unpack with `left` files to go. */
  function ReadEntries(buf: seq<Byte>, len: nat, pos: nat, left: nat, files: map<Name, seq<Byte>>, utf8: Name -> bool)
    : Outcome<map<Name, seq<Byte>>>
    requires len <= |buf|
    decreases left
  {
    if left == 0 then (if pos == 0 then Ok(files) else Panic)
    else match ReadEntry(buf, len, pos, utf8)
      case Err => Err
      case Panic => Panic
      case Ok((f, next)) => ReadEntries(buf, len, next, left - 1, files[f.name := f.bytes], utf8)
  }

  /** unpack up to the directory tree; the buffer is taken to be aligned. */
  function UnpackFiles(buf: seq<Byte>, utf8: Name -> bool): Outcome<map<Name, seq<Byte>>> {
    if |buf| < FS_HEADER then Err
    else if U64At(buf, 0) != MAGIC_V1 || U64At(buf, 8) != 1 || U64At(buf, 16) > |buf| then Err
    else match ReadEntries(buf, U64At(buf, 16), FS_HEADER, U64At(buf, 24), map[], utf8)
      case Err => Err
      case Panic => Panic
      case Ok(files) => if |files| != U64At(buf, 24) then Err else Ok(files)
  }

  /** The loop itself. */
  method Unpack(buf: seq<Byte>, utf8: Name -> bool) returns (r: Outcome<map<Name, seq<Byte>>>)
    ensures r == UnpackFiles(buf, utf8)
  {
    hide U64At;
    hide ReadEntry;
    if |buf| < FS_HEADER {
      return Err;
    }
    if U64At(buf, 0) != MAGIC_V1 || U64At(buf, 8) != 1 {
      return Err;
    }
    var len := U64At(buf, 16);
    if len > |buf| {
      return Err;
    }
    var files: map<Name, seq<Byte>> := map[];
    var count, pos, num := U64At(buf, 24), FS_HEADER, 0;
    while num < count
      invariant num <= count
      invariant ReadEntries(buf, len, FS_HEADER, count, map[], utf8) ==
                ReadEntries(buf, len, pos, count - num, files, utf8)
    {
      match ReadEntry(buf, len, pos, utf8) {
        case Err => return Err;
        case Panic => return Panic;
        case Ok((f, next)) =>
          files := files[f.name := f.bytes];
          pos := next;
      }
      num := num + 1;
    }
    if pos != 0 {
      return Panic;
    }
    if |files| != count {
      return Err;
    }
    return Ok(files);
  }

  // ---------------------------------------------------------------------------------------
  // unpack undoes pack
  // ---------------------------------------------------------------------------------------

  ghost predicate Distinct(files: seq<File>) {
    forall i, j | 0 <= i < j < |files| :: files[i].name != files[j].name
  }

  lemma FieldAt(a: seq<Byte>, v: nat, b: seq<Byte>)
    requires v < U64_LIMIT
    ensures U64At(a + U64(v) + b, |a|) == v
  {
    U64RoundTrip(v);
    assert (a + U64(v) + b)[|a|..|a| + 8] == U64(v);
  }

  /** An entry header written at `pos` reads back field by field. */
  lemma HeaderReadsBack(buf: seq<Byte>, pos: nat, f: File, total: nat)
    requires pos + ENTRY_HEADER <= |buf| && EndOf(pos, f) <= total < U64_LIMIT
    requires buf[pos..pos + ENTRY_HEADER] == EntryHeader(pos, f, total)
    ensures var bytesStart := pos + ENTRY_HEADER + |f.name|;
            HeaderAt(buf, pos) == Header(pos + ENTRY_HEADER, |f.name|, bytesStart, |f.bytes|,
                                         if EndOf(pos, f) == total then 0 else EndOf(pos, f))
  {
    hide EndOf;
    hide U64;
    hide U64At;
    var e := EntryHeader(pos, f, total);
    var a, b, c, d := U64(pos + ENTRY_HEADER), U64(|f.name|), U64(pos + ENTRY_HEADER + |f.name|), U64(|f.bytes|);
    var n := if EndOf(pos, f) == total then 0 else EndOf(pos, f);
    Field(buf, pos, e, 0, pos + ENTRY_HEADER, [], b + c + d + U64(n));
    Field(buf, pos, e, 8, |f.name|, a, c + d + U64(n));
    Field(buf, pos, e, 16, pos + ENTRY_HEADER + |f.name|, a + b, d + U64(n));
    Field(buf, pos, e, 24, |f.bytes|, a + b + c, U64(n));
    Field(buf, pos, e, 32, n, a + b + c + d, []);
  }

  lemma Field(buf: seq<Byte>, pos: nat, e: seq<Byte>, k: nat, v: nat, a: seq<Byte>, b: seq<Byte>)
    requires pos + |e| <= |buf| && buf[pos..pos + |e|] == e && e == a + U64(v) + b && |a| == k && v < U64_LIMIT
    ensures pos + k + 8 <= |buf| && U64At(buf, pos + k) == v
  {
    FieldAt(a, v, b);
    SliceSlice(buf, pos, pos + |e|, k, k + 8);
  }

  /** The contents of `f` are empty and its entry ends right after the name, at the end of the image. */
  ghost predicate EndsEmpty(f: File) {
    f.bytes == [] && |f.name| % 8 == 0
  }

  lemma EntryReadsBack(buf: seq<Byte>, pos: nat, f: File, utf8: Name -> bool)
    requires pos % 8 == 0 && EndOf(pos, f) <= |buf| < U64_LIMIT && utf8(f.name)
    requires buf[pos..EndOf(pos, f)] == EntryBytes(pos, f, |buf|)
    ensures ReadEntry(buf, |buf|, pos, utf8) ==
            if EndOf(pos, f) == |buf| && EndsEmpty(f) then Panic
            else Ok((f, if EndOf(pos, f) == |buf| then 0 else EndOf(pos, f)))
  {
    hide EntryBytes;
    hide EntryHeader;
    hide HeaderAt;
    EntryParts(buf, pos, f);
    HeaderReadsBack(buf, pos, f, |buf|);
  }

  lemma EntryParts(buf: seq<Byte>, pos: nat, f: File)
    requires EndOf(pos, f) <= |buf| && buf[pos..EndOf(pos, f)] == EntryBytes(pos, f, |buf|)
    ensures var nameStart, bytesStart := pos + ENTRY_HEADER, pos + ENTRY_HEADER + |f.name|;
            && buf[pos..nameStart] == EntryHeader(pos, f, |buf|)
            && buf[nameStart..bytesStart] == f.name
            && buf[bytesStart..bytesStart + |f.bytes|] == f.bytes
  {
    hide EntryHeader;
    hide EndOf;
    var e, nameStart, bytesStart := EntryBytes(pos, f, |buf|), pos + ENTRY_HEADER, pos + ENTRY_HEADER + |f.name|;
    Part(buf, pos, e, 0, ENTRY_HEADER);
    assert e[0..ENTRY_HEADER] == EntryHeader(pos, f, |buf|);
    Part(buf, pos, e, ENTRY_HEADER, ENTRY_HEADER + |f.name|);
    assert e[ENTRY_HEADER..ENTRY_HEADER + |f.name|] == f.name;
    Part(buf, pos, e, ENTRY_HEADER + |f.name|, ENTRY_HEADER + |f.name| + |f.bytes|);
    assert e[ENTRY_HEADER + |f.name|..ENTRY_HEADER + |f.name| + |f.bytes|] == f.bytes;
  }

  lemma Part(buf: seq<Byte>, pos: nat, e: seq<Byte>, i: nat, j: nat)
    requires pos + |e| <= |buf| && buf[pos..pos + |e|] == e && i <= j <= |e|
    ensures buf[pos + i..pos + j] == e[i..j]
  {
    SliceSlice(buf, pos, pos + |e|, i, j);
  }

  ghost function PutAll(files: map<Name, seq<Byte>>, more: seq<File>): map<Name, seq<Byte>>
    decreases |more|
  {
    if more == [] then files else PutAll(files[more[0].name := more[0].bytes], more[1..])
  }

  lemma {:induction false} BodyReadsBack(
    buf: seq<Byte>, pos: nat, files: seq<File>, acc: map<Name, seq<Byte>>, utf8: Name -> bool)
    requires files != [] && pos % 8 == 0 && SizeFrom(pos, files) == |buf| < U64_LIMIT
    requires buf[pos..] == Body(pos, files, |buf|)
    requires forall f | f in files :: utf8(f.name)
    ensures ReadEntries(buf, |buf|, pos, |files|, acc, utf8) ==
            if EndsEmpty(files[|files| - 1]) then Panic else Ok(PutAll(acc, files))
    decreases |files|
  {
    hide EntryBytes;
    hide ReadEntry;
    hide EndOf;
    hide Body;
    var f, rest, end := files[0], files[1..], EndOf(pos, files[0]);
    BodySplit(buf, pos, files);
    EndAligned(pos, f);
    EntryReadsBack(buf, pos, f, utf8);
    if rest == [] {
      assert ReadEntries(buf, |buf|, 0, 0, acc[f.name := f.bytes], utf8) == Ok(acc[f.name := f.bytes]);
      assert PutAll(acc, files) == PutAll(acc[f.name := f.bytes], rest);
    } else {
      SizeGrows(end, rest);
      BodyReadsBack(buf, end, rest, acc[f.name := f.bytes], utf8);
    }
  }

  lemma EndAligned(pos: nat, f: File)
    ensures EndOf(pos, f) % 8 == 0
  {
  }

  lemma SizeGrows(pos: nat, files: seq<File>)
    requires files != []
    ensures SizeFrom(pos, files) > pos
  {
  }

  lemma BodySplit(buf: seq<Byte>, pos: nat, files: seq<File>)
    requires files != [] && SizeFrom(pos, files) == |buf| && buf[pos..] == Body(pos, files, |buf|)
    ensures var end := EndOf(pos, files[0]);
            && end <= |buf| && SizeFrom(end, files[1..]) == |buf|
            && buf[pos..end] == EntryBytes(pos, files[0], |buf|) && buf[end..] == Body(end, files[1..], |buf|)
  {
    hide EntryBytes;
    hide EndOf;
    EndOfAfter(pos, files[0]);
    var end := EndOf(pos, files[0]);
    var e, b := EntryBytes(pos, files[0], |buf|), Body(end, files[1..], |buf|);
    assert Body(pos, files, |buf|) == e + b && |e| == end - pos && SizeFrom(end, files[1..]) == |buf|;
    assert |b| == |buf| - end;
    hide Body;
    hide SizeFrom;
    CutAt(buf, pos, e, b);
  }

  lemma CutAt(buf: seq<Byte>, pos: nat, e: seq<Byte>, b: seq<Byte>)
    requires pos + |e| + |b| == |buf| && buf[pos..] == e + b
    ensures buf[pos..pos + |e|] == e && buf[pos + |e|..] == b
  {
    assert forall k | 0 <= k < |e| :: buf[pos + k] == (e + b)[k] by {
      assert forall k | 0 <= k < |e| :: buf[pos..][k] == (e + b)[k];
    }
    assert forall k | 0 <= k < |b| :: buf[pos + |e| + k] == b[k] by {
      forall k | 0 <= k < |b| ensures buf[pos + |e| + k] == b[k] {
        assert buf[pos..][|e| + k] == (e + b)[|e| + k];
      }
    }
  }

  lemma EndOfAfter(pos: nat, f: File)
    ensures EndOf(pos, f) > pos
  {
  }

  ghost predicate Named(files: seq<File>, n: Name) {
    exists i :: 0 <= i < |files| && files[i].name == n
  }

  lemma NamedTail(files: seq<File>, n: Name)
    requires files != []
    ensures Named(files, n) <==> files[0].name == n || Named(files[1..], n)
  {
    if Named(files[1..], n) {
      var i :| 0 <= i < |files| - 1 && files[1..][i].name == n;
      assert files[i + 1].name == n;
    }
    if Named(files, n) && files[0].name != n {
      var i :| 0 <= i < |files| && files[i].name == n;
      assert files[1..][i - 1].name == n;
    }
  }

  lemma {:induction false} PutAllKeys(acc: map<Name, seq<Byte>>, files: seq<File>, n: Name)
    ensures n in PutAll(acc, files) <==> n in acc || Named(files, n)
    ensures !Named(files, n) && n in acc ==> PutAll(acc, files)[n] == acc[n]
    decreases |files|
  {
    if files != [] {
      NamedTail(files, n);
      PutAllKeys(acc[files[0].name := files[0].bytes], files[1..], n);
    }
  }

  lemma {:induction false} PutAllValue(acc: map<Name, seq<Byte>>, files: seq<File>, i: nat)
    requires Distinct(files) && i < |files|
    ensures var m := PutAll(acc, files); files[i].name in m && m[files[i].name] == files[i].bytes
    decreases |files|
  {
    var acc' := acc[files[0].name := files[0].bytes];
    if i == 0 {
      PutAllKeys(acc', files[1..], files[0].name);
    } else {
      PutAllValue(acc', files[1..], i - 1);
    }
  }

  lemma {:induction false} PutAllSize(acc: map<Name, seq<Byte>>, files: seq<File>)
    requires Distinct(files) && forall i | 0 <= i < |files| :: files[i].name !in acc
    ensures |PutAll(acc, files)| == |acc| + |files|
    decreases |files|
  {
    if files != [] {
      var acc' := acc[files[0].name := files[0].bytes];
      assert acc'.Keys == acc.Keys + {files[0].name};
      assert |acc'| == |acc'.Keys| && |acc| == |acc.Keys|;
      PutAllSize(acc', files[1..]);
    }
  }

  /** The flat file system: exactly the packed files, each name bound to its contents. */
  ghost predicate Holds(m: map<Name, seq<Byte>>, files: seq<File>) {
    && |m| == |files|
    && (forall i | 0 <= i < |files| :: files[i].name in m && m[files[i].name] == files[i].bytes)
    && (forall n | n in m :: Named(files, n))
  }

  lemma PutAllHolds(files: seq<File>)
    requires Distinct(files)
    ensures Holds(PutAll(map[], files), files)
  {
    PutAllSize(map[], files);
    forall i | 0 <= i < |files|
      ensures var m := PutAll(map[], files); files[i].name in m && m[files[i].name] == files[i].bytes
    {
      PutAllValue(map[], files, i);
    }
    forall n | n in PutAll(map[], files) ensures Named(files, n) {
      PutAllKeys(map[], files, n);
    }
  }

  /** The fields of the image's first header. */
  lemma FsHeaderReadsBack(buf: seq<Byte>, total: nat, count: nat)
    requires |buf| >= FS_HEADER && buf[..FS_HEADER] == FsHeader(total, count) && total < U64_LIMIT && count < U64_LIMIT
    ensures U64At(buf, 0) == MAGIC_V1 && U64At(buf, 8) == 1 && U64At(buf, 16) == total && U64At(buf, 24) == count
  {
    hide U64At;
    hide U64;
    var h := FsHeader(total, count);
    var a, b, c, d := U64(MAGIC_V1), U64(1), U64(total), U64(count);
    Field(buf, 0, h, 0, MAGIC_V1, [], b + c + d);
    Field(buf, 0, h, 8, 1, a, c + d);
    Field(buf, 0, h, 16, total, a + b, d);
    Field(buf, 0, h, 24, count, a + b + c, []);
  }

  /**
   unpack of pack's output rebuilds exactly the packed files, unless there is no file or the
   last file is empty with a name of a multiple of eight bytes; then unpack panics.
   */
  lemma UnpackOfPack(files: seq<File>, utf8: Name -> bool)
    requires Distinct(files) && SizeFrom(FS_HEADER, files) < U64_LIMIT
    requires forall f | f in files :: utf8(f.name)
    ensures |files| < U64_LIMIT
    ensures var r := UnpackFiles(Image(files), utf8);
            if files == [] || EndsEmpty(files[|files| - 1]) then r == Panic
            else r.Ok? && Holds(r.value, files)
  {
    hide ReadEntry;
    hide U64At;
    hide FsHeader;
    hide Body;
    var buf, total := Image(files), SizeFrom(FS_HEADER, files);
    ManyFiles(FS_HEADER, files);
    assert buf[..FS_HEADER] == FsHeader(total, |files|) && buf[FS_HEADER..] == Body(FS_HEADER, files, total);
    FsHeaderReadsBack(buf, total, |files|);
    if files != [] {
      BodyReadsBack(buf, FS_HEADER, files, map[], utf8);
      PutAllHolds(files);
    }
  }

  /** A file system without files, and one that ends in an empty file named by eight bytes. */
  lemma UnpackPanics(utf8: Name -> bool, name: Name)
    requires |name| == 8 && utf8(name)
    ensures UnpackFiles(Image([]), utf8) == Panic
    ensures UnpackFiles(Image([File(name, [])]), utf8) == Panic
  {
    hide UnpackFiles;
    hide Image;
    assert SizeFrom(FS_HEADER, []) == 32;
    assert SizeFrom(FS_HEADER, [File(name, [])]) == 80;
    UnpackOfPack([], utf8);
    UnpackOfPack([File(name, [])], utf8);
  }

  lemma {:induction false} ManyFiles(pos: nat, files: seq<File>)
    ensures SizeFrom(pos, files) >= pos + |files|
    decreases |files|
  {
    if files != [] { ManyFiles(EndOf(pos, files[0]), files[1..]); }
  }
}
