/** The household export's archive, from `src/server/archive.ts`: a ustar writer and a narrow reader. */
module Archive {
  // POSIX IEEE Std 1003.1, pax utility, "ustar Interchange Format". Text is its bytes; gzip is the identity but
  // for the reader's cap on what it inflates to.
  import opened Wrappers

  type Byte = x: int | 0 <= x < 256
  type Bytes = seq<Byte>

  const BLOCK := 512
  const SPACE: Byte := 0x20
  const ZERO: Byte := 0x30

  datatype File = File(name: Bytes, data: Bytes)

  datatype ArchiveError = CannotArchive | NotAnExport | Damaged | NotPlainFile | NotAllowed | Twice | TooLarge | CutShort

  datatype Limits = Limits(allowed: seq<Bytes>, maxFileBytes: nat, maxTotalBytes: nat)

  // Octal numbers.

  /** The octal digits of a number, with no leading zero unless it is 0. */
  function Digits(value: nat): (r: Bytes)
    ensures |r| >= 1
  {
    if value < 8 then [ZERO + value] else Digits(value / 8) + [ZERO + value % 8]
  }

  function Zeros(n: int): Bytes {
    if n <= 0 then [] else seq(n, _ => ZERO)
  }

  /** `octal`: the digits padded with zeros on the left to `width - 1`, then a NUL. */
  function Octal(value: nat, width: nat): Bytes {
    Zeros(width - 1 - |Digits(value)|) + Digits(value) + [0]
  }

  predicate IsOctalDigit(b: Byte) {
    ZERO <= b <= ZERO + 7
  }

  function ValueOf(text: Bytes): nat
    requires forall k :: 0 <= k < |text| ==> IsOctalDigit(text[k])
  {
    if text == [] then 0
    else
      assert IsOctalDigit(text[|text| - 1]);
      ValueOf(text[..|text| - 1]) * 8 + (text[|text| - 1] - ZERO)
  }

  function Power8(n: nat): nat {
    if n == 0 then 1 else 8 * Power8(n - 1)
  }

  lemma {:induction false} DigitsValue(value: nat)
    ensures forall k :: 0 <= k < |Digits(value)| ==> IsOctalDigit(Digits(value)[k])
    ensures ValueOf(Digits(value)) == value
  {
    if value >= 8 {
      DigitsValue(value / 8);
      assert Digits(value)[..|Digits(value)| - 1] == Digits(value / 8);
    } else {
      assert Digits(value)[..0] == [];
    }
  }

  lemma {:induction false} DigitsFit(value: nat, n: nat)
    requires n >= 1 && value < Power8(n)
    ensures |Digits(value)| <= n
  {
    if value >= 8 { DigitsFit(value / 8, n - 1); }
  }

  lemma {:induction false} ZerosValue(n: nat, text: Bytes)
    requires forall k :: 0 <= k < |text| ==> IsOctalDigit(text[k])
    ensures forall k :: 0 <= k < |Zeros(n) + text| ==> IsOctalDigit((Zeros(n) + text)[k])
    ensures ValueOf(Zeros(n) + text) == ValueOf(text)
  {
    var all := Zeros(n) + text;
    if text != [] {
      assert all[..|all| - 1] == Zeros(n) + text[..|text| - 1];
      ZerosValue(n, text[..|text| - 1]);
    } else if n > 0 {
      assert all[..|all| - 1] == Zeros(n - 1) + text;
      ZerosValue(n - 1, text);
    }
  }

  // Blocks.

  /** `Buffer.write`: the bytes placed at an offset, as far as they fit. */
  function Put(block: Bytes, offset: nat, bytes: Bytes): (r: Bytes)
    requires offset <= |block|
    ensures |r| == |block|
  {
    var fit := if offset + |bytes| <= |block| then bytes else bytes[..|block| - offset];
    block[..offset] + fit + block[offset + |fit|..]
  }

  /** The sum of the first `n` bytes, the checksum's own field counted as spaces. */
  function SumTo(block: Bytes, n: nat): nat
    requires n <= |block|
  {
    if n == 0 then 0 else SumTo(block, n - 1) + if 148 <= n - 1 < 156 then SPACE else block[n - 1]
  }

  method Checksum(block: Bytes) returns (sum: nat)
    requires |block| == BLOCK
    ensures sum == SumTo(block, BLOCK)
  {
    sum := 0;
    for index := 0 to BLOCK
      invariant sum == SumTo(block, index)
    {
      sum := sum + if 148 <= index < 156 then SPACE else block[index];
    }
  }

  const SPACES: Bytes := [SPACE, SPACE, SPACE, SPACE, SPACE, SPACE, SPACE, SPACE]
  const USTAR: Bytes := [0x75, 0x73, 0x74, 0x61, 0x72, 0]
  const FAMILYFI: Bytes := [0x66, 0x61, 0x6D, 0x69, 0x6C, 0x79, 0x66, 0x69]

  function Filled(n: nat): Bytes {
    seq(n, _ => 0)
  }

  /** A name takes the 100 bytes of its field and no more. */
  function Clip(name: Bytes): Bytes {
    if |name| <= 100 then name else name[..100]
  }

  /** Bytes and where in the block they go. */
  datatype Placed = Placed(at: nat, bytes: Bytes)

  predicate Fits(fields: seq<Placed>) {
    forall k :: 0 <= k < |fields| ==> fields[k].at <= BLOCK
  }

  /** The fields written one after another into a block of NULs. */
  function Block(fields: seq<Placed>): (r: Bytes)
    requires Fits(fields)
    ensures |r| == BLOCK
  {
    if fields == [] then Filled(BLOCK)
    else Put(Block(fields[..|fields| - 1]), fields[|fields| - 1].at, fields[|fields| - 1].bytes)
  }

  /** The header's fields, its checksum's still blank. */
  function Fields(name: Bytes, size: nat, mtime: nat): (r: seq<Placed>)
    ensures Fits(r)
  {
    [Placed(0, Clip(name)), Placed(100, Octal(0x1A4, 8)), Placed(108, Octal(0, 8)), Placed(116, Octal(0, 8)),
     Placed(124, Octal(size, 12)), Placed(136, Octal(mtime, 12)), Placed(148, SPACES), Placed(156, [ZERO]),
     Placed(257, USTAR), Placed(263, [ZERO, ZERO]), Placed(265, FAMILYFI), Placed(297, FAMILYFI)]
  }

  function Seal(sum: nat): seq<Placed> {
    [Placed(148, Octal(sum, 7)), Placed(155, [SPACE])]
  }

  function HeaderOf(name: Bytes, size: nat, mtime: nat): (r: Bytes)
    ensures |r| == BLOCK
  {
    Block(Fields(name, size, mtime) + Seal(SumTo(Block(Fields(name, size, mtime)), BLOCK)))
  }

  method Write(block: array<Byte>, offset: nat, bytes: Bytes)
    requires offset <= block.Length
    modifies block
    ensures block[..] == Put(old(block[..]), offset, bytes)
  {
    ghost var before := block[..];
    var n := if offset + |bytes| <= block.Length then |bytes| else block.Length - offset;
    for k := 0 to n
      invariant block[..] == before[..offset] + bytes[..k] + before[offset + k..]
    {
      block[offset + k] := bytes[k];
    }
    assert bytes[..n] == if offset + |bytes| <= block.Length then bytes else bytes[..block.Length - offset];
  }

  /** One more field of a header. */
  method Place(block: array<Byte>, ghost fields: seq<Placed>, field: Placed)
    requires Fits(fields) && field.at <= BLOCK && block[..] == Block(fields)
    modifies block
    ensures Fits(fields + [field]) && block[..] == Block(fields + [field])
  {
    Write(block, field.at, field.bytes);
    assert (fields + [field])[..|fields|] == fields;
  }

  /** `header`: written field by field into one block, its checksum last. */
  method Header(name: Bytes, size: nat, mtime: nat) returns (block: array<Byte>)
    ensures fresh(block) && block[..] == HeaderOf(name, size, mtime)
  {
    block := new Byte[BLOCK](_ => 0);
    PlaceAll(block, Fields(name, size, mtime));
    var sum := Checksum(block[..]);
    PlaceSeal(block, Fields(name, size, mtime), sum);
  }

  method PlaceAll(block: array<Byte>, fields: seq<Placed>)
    requires Fits(fields) && block[..] == Filled(BLOCK)
    modifies block
    ensures block[..] == Block(fields)
  {
    for k := 0 to |fields|
      invariant block[..] == Block(fields[..k])
    {
      Place(block, fields[..k], fields[k]);
      assert fields[..k] + [fields[k]] == fields[..k + 1];
    }
    assert fields[..|fields|] == fields;
  }

  method PlaceSeal(block: array<Byte>, ghost fields: seq<Placed>, sum: nat)
    requires Fits(fields) && block[..] == Block(fields)
    modifies block
    ensures Fits(fields + Seal(sum)) && block[..] == Block(fields + Seal(sum))
  {
    Place(block, fields, Seal(sum)[0]);
    Place(block, fields + [Seal(sum)[0]], Seal(sum)[1]);
    assert fields + [Seal(sum)[0]] + [Seal(sum)[1]] == fields + Seal(sum);
  }

  function PaddingLength(size: nat): (n: nat)
    ensures n < BLOCK && (size + n) % BLOCK == 0
  {
    assert size == BLOCK * (size / BLOCK) + size % BLOCK;
    (BLOCK - size % BLOCK) % BLOCK
  }

  predicate NameByte(b: Byte) {
    0x41 <= b <= 0x5A || 0x61 <= b <= 0x7A || 0x30 <= b <= 0x39 || b == 0x2E || b == 0x5F || b == 0x2D
  }

  predicate Archivable(name: Bytes) {
    1 <= |name| <= 100 && forall k :: 0 <= k < |name| ==> NameByte(name[k])
  }

  /** The names an archive can hold: up to a hundred letters, digits, dots, underscores and hyphens, and at least
      one. */
  lemma ArchivableIs(name: Bytes)
    ensures Archivable(name) <==>
              && name != [] && |name| < 101
              && forall b :: b in name ==> 'a' as int <= b <= 'z' as int || 'A' as int <= b <= 'Z' as int || '0' as int <= b <= '9' as int
                                           || b == '.' as int || b == '_' as int || b == '-' as int
  {
    assert forall k :: 0 <= k < |name| ==> name[k] in name;
  }

  /** What one file adds to the archive: its header, its data and the padding to the next block. */
  function Entry(file: File, header: Bytes): seq<Bytes> {
    [header, file.data, Filled(PaddingLength(|file.data|))]
  }

  function EntryOf(file: File, mtime: nat): seq<Bytes> {
    Entry(file, HeaderOf(file.name, |file.data|, mtime))
  }

  function Parts(files: seq<File>, mtime: nat): seq<Bytes> {
    if files == [] then [] else Parts(files[..|files| - 1], mtime) + EntryOf(files[|files| - 1], mtime)
  }

  function Concat(parts: seq<Bytes>): Bytes {
    if parts == [] then [] else Concat(parts[..|parts| - 1]) + parts[|parts| - 1]
  }

  function Written(files: seq<File>, mtime: nat): Bytes {
    Concat(Parts(files, mtime) + [Filled(2 * BLOCK)])
  }

  predicate AllArchivable(files: seq<File>) {
    forall k :: 0 <= k < |files| ==> Archivable(files[k].name)
  }

  lemma PartsNext(files: seq<File>, k: nat, mtime: nat)
    requires k < |files|
    ensures Parts(files[..k + 1], mtime) == Parts(files[..k], mtime) + EntryOf(files[k], mtime)
  {
    var now := files[..k + 1];
    assert now[..|now| - 1] == files[..k] && now[|now| - 1] == files[k];
  }

  lemma AllNext(files: seq<File>, k: nat)
    requires k < |files| && AllArchivable(files[..k]) && Archivable(files[k].name)
    ensures AllArchivable(files[..k + 1])
  {
  }

  method WriteArchive(files: seq<File>, mtime: nat) returns (r: Result<Bytes, ArchiveError>)
    ensures r == if AllArchivable(files) then Ok(Written(files, mtime)) else Err(CannotArchive)
  {
    var parts: seq<Bytes> := [];
    for k := 0 to |files|
      invariant AllArchivable(files[..k])
      invariant parts == Parts(files[..k], mtime)
    {
      if !Archivable(files[k].name) { return Err(CannotArchive); }
      var more := FileParts(files[k], mtime);
      PartsNext(files, k, mtime);
      AllNext(files, k);
      parts := parts + more;
    }
    assert files[..|files|] == files;
    r := Ok(Concat(parts + [Filled(2 * BLOCK)]));
  }

  method FileParts(file: File, mtime: nat) returns (parts: seq<Bytes>)
    ensures parts == EntryOf(file, mtime)
  {
    var block := Header(file.name, |file.data|, mtime);
    parts := [block[..], file.data, Filled(PaddingLength(|file.data|))];
  }

  // Reading.

  /** `field`: the bytes up to the first NUL. */
  function Field(block: Bytes, start: nat, length: nat): Bytes
    requires start + length <= |block|
  {
    UpToNul(block[start..start + length])
  }

  function UpToNul(raw: Bytes): Bytes {
    if raw == [] || raw[0] == 0 then [] else [raw[0]] + UpToNul(raw[1..])
  }

  predicate Blank(b: Byte) {
    b == SPACE || 9 <= b <= 13
  }

  function Trim(text: Bytes): Bytes
    decreases |text|
  {
    if text != [] && Blank(text[0]) then Trim(text[1..])
    else if text != [] && Blank(text[|text| - 1]) then Trim(text[..|text| - 1])
    else text
  }

  function ParseOctal(block: Bytes, start: nat, length: nat): Option<nat>
    requires start + length <= |block|
  {
    var text := Trim(Field(block, start, length));
    if text != [] && forall k :: 0 <= k < |text| ==> IsOctalDigit(text[k]) then Some(ValueOf(text)) else None
  }

  predicate AllZero(block: Bytes) {
    forall k :: 0 <= k < |block| ==> block[k] == 0
  }

  /** What one header block says, or why the read ends there; `files` are those read before it. */
  function ReadHeader(block: Bytes, limits: Limits, files: map<Bytes, Bytes>): Result<(Bytes, nat), ArchiveError>
    requires |block| == BLOCK
  {
    var sum := ParseOctal(block, 148, 8);
    if sum.None? || sum.value != SumTo(block, BLOCK) then Err(Damaged)
    else
      var name := Field(block, 0, 100);
      var size := ParseOctal(block, 124, 12);
      if size.None? then Err(Damaged)
      else if Field(block, 345, 155) != [] || (block[156] != ZERO && block[156] != 0) then Err(NotPlainFile)
      else if name !in limits.allowed then Err(NotAllowed)
      else if name in files then Err(Twice)
      else if size.value > limits.maxFileBytes then Err(TooLarge)
      else Ok((name, size.value))
  }

  /** The read from `offset` on. */
  function ReadFrom(tar: Bytes, limits: Limits, offset: nat, files: map<Bytes, Bytes>): Result<map<Bytes, Bytes>, ArchiveError>
    decreases if offset < |tar| then |tar| - offset else 0
  {
    if offset + BLOCK > |tar| then Err(CutShort)
    else
      var block := tar[offset..offset + BLOCK];
      if AllZero(block) then Ok(files)
      else
        match ReadHeader(block, limits, files)
        case Err(e) => Err(e)
        case Ok((name, size)) =>
          var start := offset + BLOCK;
          if start + size > |tar| then Err(CutShort)
          else ReadFrom(tar, limits, start + size + PaddingLength(size), files[name := tar[start..start + size]])
  }

  function Read(tar: Bytes, limits: Limits): Result<map<Bytes, Bytes>, ArchiveError> {
    if |tar| > limits.maxTotalBytes + BLOCK * 16 then Err(NotAnExport) else ReadFrom(tar, limits, 0, map[])
  }

  method ReadArchive(tar: Bytes, limits: Limits) returns (r: Result<map<Bytes, Bytes>, ArchiveError>)
    ensures r == Read(tar, limits)
  {
    if |tar| > limits.maxTotalBytes + BLOCK * 16 { return Err(NotAnExport); }
    var files: map<Bytes, Bytes> := map[];
    var offset := 0;
    while offset + BLOCK <= |tar|
      invariant offset >= 0
      invariant ReadFrom(tar, limits, 0, map[]) == ReadFrom(tar, limits, offset, files)
      decreases |tar| - offset
    {
      var block := tar[offset..offset + BLOCK];
      if AllZero(block) { return Ok(files); }
      var sum := Checksum(block);
      var claimed := ParseOctal(block, 148, 8);
      if claimed.None? || claimed.value != sum { return Err(Damaged); }
      var name := Field(block, 0, 100);
      var prefix := Field(block, 345, 155);
      var size := ParseOctal(block, 124, 12);
      if size.None? { return Err(Damaged); }
      if prefix != [] || (block[156] != ZERO && block[156] != 0) { return Err(NotPlainFile); }
      if name !in limits.allowed { return Err(NotAllowed); }
      if name in files { return Err(Twice); }
      if size.value > limits.maxFileBytes { return Err(TooLarge); }
      var start := offset + BLOCK;
      if start + size.value > |tar| { return Err(CutShort); }
      files := files[name := tar[start..start + size.value]];
      offset := start + size.value + PaddingLength(size.value);
    }
    r := Err(CutShort);
  }

  // Reading what was written.

  lemma PutKeeps(block: Bytes, at: nat, bytes: Bytes, from: nat, to: nat)
    requires at <= |block| && from <= to <= |block| && (to <= at || at + |bytes| <= from)
    ensures Put(block, at, bytes)[from..to] == block[from..to]
  {
  }

  predicate Apart(field: Placed, from: int, to: int) {
    to <= field.at || field.at + |field.bytes| <= from
  }

  /** A range no field from the `k`th on touches reads as it did before them. */
  lemma {:induction false} Untouched(fields: seq<Placed>, k: nat, from: nat, to: nat)
    requires Fits(fields) && k <= |fields| && from <= to <= BLOCK
    requires forall j :: k <= j < |fields| ==> Apart(fields[j], from, to)
    ensures Block(fields)[from..to] == Block(fields[..k])[from..to]
    decreases |fields|
  {
    if k < |fields| {
      var last := |fields| - 1;
      PutKeeps(Block(fields[..last]), fields[last].at, fields[last].bytes, from, to);
      Untouched(fields[..last], k, from, to);
      assert fields[..last][..k] == fields[..k];
      assert Apart(fields[last], from, to);
    } else {
      assert fields[..k] == fields;
    }
  }

  /** A field no later one touches reads back as it was written. */
  lemma Reads(fields: seq<Placed>, k: nat)
    requires Fits(fields) && k < |fields| && fields[k].at + |fields[k].bytes| <= BLOCK
    requires forall j :: k < j < |fields| ==> Apart(fields[j], fields[k].at, fields[k].at + |fields[k].bytes|)
    ensures Block(fields)[fields[k].at..fields[k].at + |fields[k].bytes|] == fields[k].bytes
  {
    var from, to := fields[k].at, fields[k].at + |fields[k].bytes|;
    Untouched(fields, k + 1, from, to);
    assert fields[..k + 1][..k] == fields[..k];
    assert Block(fields[..k + 1]) == Put(Block(fields[..k]), from, fields[k].bytes);
  }

  lemma OctalFits(value: nat, width: nat)
    requires width >= 2 && value < Power8(width - 1)
    ensures |Octal(value, width)| == width
    ensures UpToNul(Octal(value, width)) == Octal(value, width)[..width - 1]
    ensures Octal(value, width)[width - 1] == 0
    ensures forall k :: 0 <= k < width - 1 ==> IsOctalDigit(Octal(value, width)[k])
    ensures ValueOf(Octal(value, width)[..width - 1]) == value
  {
    DigitsFit(value, width - 1);
    DigitsValue(value);
    var n := width - 1 - |Digits(value)|;
    ZerosValue(n, Digits(value));
    var text := Zeros(n) + Digits(value);
    assert Octal(value, width) == text + [0];
    assert Octal(value, width)[..width - 1] == text;
    NulEnds(text, []);
    assert text + [0] + [] == text + [0];
  }

  lemma {:induction false} NulEnds(text: Bytes, rest: Bytes)
    requires forall k :: 0 <= k < |text| ==> text[k] != 0
    ensures UpToNul(text + [0] + rest) == text
  {
    var all := text + [0] + rest;
    if text == [] {
      assert all[0] == 0;
    } else {
      assert all[0] == text[0] && all[1..] == text[1..] + [0] + rest;
      NulEnds(text[1..], rest);
    }
  }

  lemma TrimDigits(text: Bytes)
    requires forall k :: 0 <= k < |text| ==> IsOctalDigit(text[k])
    ensures Trim(text) == text
  {
  }

  lemma {:induction false} SumBounded(block: Bytes, n: nat)
    requires n <= |block|
    ensures SumTo(block, n) <= 255 * n
  {
    if n > 0 { SumBounded(block, n - 1); }
  }

  /** The checksum is blind to its own field. */
  lemma {:induction false} SumBlind(a: Bytes, b: Bytes, n: nat)
    requires n <= |a| == |b| && forall k :: 0 <= k < n && !(148 <= k < 156) ==> a[k] == b[k]
    ensures SumTo(a, n) == SumTo(b, n)
  {
    if n > 0 { SumBlind(a, b, n - 1); }
  }

  lemma Powers()
    ensures Power8(6) == 0x4_0000 && Power8(7) == 0x20_0000 && Power8(11) == 0x2_0000_0000
  {
    assert Power8(3) == 512;
    assert Power8(6) == 512 * Power8(3);
    assert Power8(9) == 512 * Power8(6);
  }

  /** A header's fields and its seal. */
  function Sealed(name: Bytes, size: nat, mtime: nat, sum: nat): (r: seq<Placed>)
    ensures Fits(r)
  {
    Fields(name, size, mtime) + Seal(sum)
  }

  lemma Lengths(size: nat, mtime: nat, sum: nat)
    requires size < Power8(11) && mtime < Power8(11) && sum < Power8(6)
    ensures |Octal(0x1A4, 8)| == 8 && |Octal(0, 8)| == 8 && |Octal(size, 12)| == 12 && |Octal(mtime, 12)| == 12 && |Octal(sum, 7)| == 7
  {
    Powers();
    OctalFits(0x1A4, 8);
    OctalFits(0, 8);
    OctalFits(size, 12);
    OctalFits(mtime, 12);
    OctalFits(sum, 7);
  }

  lemma {:induction false} UpToNulOnly(text: Bytes, zeros: nat)
    requires forall k :: 0 <= k < |text| ==> text[k] != 0
    ensures UpToNul(text + Filled(zeros)) == text
  {
    var all := text + Filled(zeros);
    if text != [] {
      assert all[0] == text[0] && all[1..] == text[1..] + Filled(zeros);
      UpToNulOnly(text[1..], zeros);
    } else {
      assert all == Filled(zeros);
    }
  }

  lemma NameReads(name: Bytes, size: nat, mtime: nat, sum: nat)
    requires Archivable(name) && size < Power8(11) && mtime < Power8(11) && sum < Power8(6)
    ensures Field(Block(Sealed(name, size, mtime, sum)), 0, 100) == name
  {
    var fields := Sealed(name, size, mtime, sum);
    Lengths(size, mtime, sum);
    Reads(fields, 0);
    Untouched(fields, 0, |name|, 100);
    assert fields[..0] == [];
    assert Filled(BLOCK)[|name|..100] == Filled(100 - |name|);
    var block := Block(fields);
    assert block[0..100] == block[0..|name|] + block[|name|..100];
    UpToNulOnly(name, 100 - |name|);
  }

  lemma SizeReads(name: Bytes, size: nat, mtime: nat, sum: nat)
    requires Archivable(name) && size < Power8(11) && mtime < Power8(11) && sum < Power8(6)
    ensures ParseOctal(Block(Sealed(name, size, mtime, sum)), 124, 12) == Some(size)
  {
    var fields := Sealed(name, size, mtime, sum);
    Lengths(size, mtime, sum);
    Reads(fields, 4);
    OctalFits(size, 12);
    TrimDigits(Octal(size, 12)[..11]);
  }

  lemma Adjoined(block: Bytes, a: nat, b: nat, c: nat)
    requires a <= b <= c <= |block|
    ensures block[a..c] == block[a..b] + block[b..c]
  {
  }

  lemma SumReads(name: Bytes, size: nat, mtime: nat, sum: nat)
    requires Archivable(name) && size < Power8(11) && mtime < Power8(11) && sum < Power8(6)
    ensures ParseOctal(Block(Sealed(name, size, mtime, sum)), 148, 8) == Some(sum)
  {
    var fields := Sealed(name, size, mtime, sum);
    Lengths(size, mtime, sum);
    Reads(fields, 12);
    Reads(fields, 13);
    OctalFits(sum, 7);
    var block := Block(fields);
    var text := Octal(sum, 7)[..6];
    Adjoined(block, 148, 155, 156);
    assert Octal(sum, 7) == text + [0];
    NulEnds(text, [SPACE]);
    TrimDigits(text);
  }

  lemma PlainReads(name: Bytes, size: nat, mtime: nat, sum: nat)
    requires Archivable(name) && size < Power8(11) && mtime < Power8(11) && sum < Power8(6)
    ensures var block := Block(Sealed(name, size, mtime, sum)); Field(block, 345, 155) == [] && block[156] == ZERO
  {
    var fields := Sealed(name, size, mtime, sum);
    Lengths(size, mtime, sum);
    Reads(fields, 7);
    Untouched(fields, 0, 345, 500);
    var block := Block(fields);
    assert fields[..0] == [];
    assert Filled(BLOCK)[345..500] == Filled(155);
    assert block[156..157][0] == block[156];
  }

  /** The checksum a header carries is its own. */
  lemma SumIsOwn(name: Bytes, size: nat, mtime: nat)
    requires Archivable(name) && size < Power8(11) && mtime < Power8(11)
    ensures
      var sum := SumTo(Block(Fields(name, size, mtime)), BLOCK);
      sum < Power8(6) && SumTo(Block(Sealed(name, size, mtime, sum)), BLOCK) == sum
  {
    var fields := Fields(name, size, mtime);
    var sum := SumTo(Block(fields), BLOCK);
    SumBounded(Block(fields), BLOCK);
    Powers();
    Lengths(size, mtime, sum);
    var all := Sealed(name, size, mtime, sum);
    assert all[..12] == fields;
    Untouched(all, 12, 0, 148);
    Untouched(all, 12, 156, BLOCK);
    var a, b := Block(all), Block(fields);
    forall k | 0 <= k < BLOCK && !(148 <= k < 156) ensures a[k] == b[k] {
      if k < 148 { assert a[0..148][k] == b[0..148][k]; } else { assert a[156..BLOCK][k - 156] == b[156..BLOCK][k - 156]; }
    }
    SumBlind(a, b, BLOCK);
  }

  /** A written header reads back as its file's name and size. */
  lemma HeaderReads(name: Bytes, size: nat, mtime: nat, limits: Limits, files: map<Bytes, Bytes>)
    requires Archivable(name) && size < Power8(11) && mtime < Power8(11)
    requires name in limits.allowed && name !in files && size <= limits.maxFileBytes
    ensures !AllZero(HeaderOf(name, size, mtime)) && ReadHeader(HeaderOf(name, size, mtime), limits, files) == Ok((name, size))
  {
    var sum := SumTo(Block(Fields(name, size, mtime)), BLOCK);
    SumIsOwn(name, size, mtime);
    assert HeaderOf(name, size, mtime) == Block(Sealed(name, size, mtime, sum));
    NameReads(name, size, mtime, sum);
    SizeReads(name, size, mtime, sum);
    SumReads(name, size, mtime, sum);
    PlainReads(name, size, mtime, sum);
  }

  function Contents(files: seq<File>): map<Bytes, Bytes> {
    if files == [] then map[] else Contents(files[..|files| - 1])[files[|files| - 1].name := files[|files| - 1].data]
  }

  /** What the writer takes and the reader's limits let through. */
  ghost predicate Exchangeable(files: seq<File>, limits: Limits) {
    && (forall k :: 0 <= k < |files| ==>
          Archivable(files[k].name) && files[k].name in limits.allowed
          && |files[k].data| <= limits.maxFileBytes && |files[k].data| < Power8(11))
    && (forall j, k :: 0 <= j < k < |files| ==> files[j].name != files[k].name)
  }

  lemma {:induction false} ConcatSplits(a: seq<Bytes>, b: seq<Bytes>)
    ensures Concat(a + b) == Concat(a) + Concat(b)
  {
    if b == [] {
      assert a + b == a;
    } else {
      ConcatSplits(a, b[..|b| - 1]);
      assert (a + b)[..|a + b| - 1] == a + b[..|b| - 1];
    }
  }

  lemma ConcatEntry(file: File, header: Bytes)
    ensures Concat(Entry(file, header)) == Line(file, header)
  {
    var parts := Entry(file, header);
    assert parts[..2] == [header, file.data] && [header, file.data][..1] == [header] && [header][..0] == [];
    assert Concat([header]) == header;
    assert Concat([header, file.data]) == header + file.data;
  }

  function Line(file: File, header: Bytes): Bytes {
    header + file.data + Filled(PaddingLength(|file.data|))
  }

  /** The bytes of the first `k` files. */
  function Start(files: seq<File>, mtime: nat, k: nat): Bytes
    requires k <= |files|
  {
    Concat(Parts(files[..k], mtime))
  }

  lemma StartNext(files: seq<File>, mtime: nat, k: nat) returns (header: Bytes)
    requires k < |files|
    ensures header == HeaderOf(files[k].name, |files[k].data|, mtime)
    ensures Start(files, mtime, k + 1) == Start(files, mtime, k) + Line(files[k], header)
  {
    header := HeaderOf(files[k].name, |files[k].data|, mtime);
    assert files[..k + 1][..k] == files[..k];
    ConcatSplits(Parts(files[..k], mtime), Entry(files[k], header));
    ConcatEntry(files[k], header);
  }

  lemma AllWritten(files: seq<File>, mtime: nat)
    ensures Written(files, mtime) == Concat(Parts(files, mtime)) + Filled(2 * BLOCK)
  {
    var last := Filled(2 * BLOCK);
    var one: seq<Bytes> := [last];
    ConcatSplits(Parts(files, mtime), one);
    assert one[..0] == [];
    assert Concat(one) == last;
  }

  lemma {:induction false} StartsWritten(files: seq<File>, mtime: nat, k: nat)
    requires k <= |files|
    ensures Start(files, mtime, k) <= Written(files, mtime)
    ensures k == |files| ==> Written(files, mtime) == Start(files, mtime, k) + Filled(2 * BLOCK)
    decreases |files| - k
  {
    if k == |files| {
      assert files[..k] == files;
      AllWritten(files, mtime);
    } else {
      StartsWritten(files, mtime, k + 1);
      var header := StartNext(files, mtime, k);
      Longer(Start(files, mtime, k), Line(files[k], header), Written(files, mtime));
    }
  }

  lemma Longer(start: Bytes, line: Bytes, all: Bytes)
    requires start + line <= all
    ensures start <= all
  {
    assert (start + line)[..|start|] == start;
  }

  /** From where the `k`th file starts, the read finds it and all after it. */
  lemma {:induction false} ReadsOn(files: seq<File>, mtime: nat, limits: Limits, k: nat)
    requires Exchangeable(files, limits) && mtime < Power8(11) && k <= |files|
    ensures ReadFrom(Written(files, mtime), limits, |Start(files, mtime, k)|, Contents(files[..k])) == Ok(Contents(files))
    decreases |files| - k
  {
    if k == |files| {
      StartsWritten(files, mtime, k);
      EndReads(Start(files, mtime, k), limits, Contents(files[..k]));
      assert files[..k] == files;
    } else {
      var file := files[k];
      var header := StartNext(files, mtime, k);
      StartsWritten(files, mtime, k + 1);
      ContentsKeys(files, k);
      HeaderReads(file.name, |file.data|, mtime, limits, Contents(files[..k]));
      EntryReads(Written(files, mtime), Start(files, mtime, k), limits, Contents(files[..k]), file, header);
      ReadsOn(files, mtime, limits, k + 1);
      assert files[..k + 1][..k] == files[..k];
    }
  }

  /** The two blocks of NULs end the read. */
  lemma EndReads(before: Bytes, limits: Limits, files: map<Bytes, Bytes>)
    ensures ReadFrom(before + Filled(2 * BLOCK), limits, |before|, files) == Ok(files)
  {
    var tar := before + Filled(2 * BLOCK);
    assert tar[|before|..|before| + BLOCK] == Filled(BLOCK);
  }

  /** One entry is read, and the read goes on after its padding. */
  lemma EntryReads(tar: Bytes, before: Bytes, limits: Limits, files: map<Bytes, Bytes>, file: File, header: Bytes)
    requires |header| == BLOCK && before + Line(file, header) <= tar
    requires !AllZero(header) && ReadHeader(header, limits, files) == Ok((file.name, |file.data|))
    ensures ReadFrom(tar, limits, |before|, files) == ReadFrom(tar, limits, |before + Line(file, header)|, files[file.name := file.data])
  {
    EntrySlices(tar, |before|, tar[|before|..], header, file.data, Filled(PaddingLength(|file.data|)));
    OneFile(tar, limits, |before|, files, file.name, file.data);
  }

  lemma EntrySlices(tar: Bytes, offset: nat, rest: Bytes, header: Bytes, data: Bytes, pad: Bytes)
    requires offset <= |tar| && tar[offset..] == rest && header + data + pad <= rest
    ensures offset + |header| + |data| <= |tar|
    ensures tar[offset..offset + |header|] == header && tar[offset + |header|..offset + |header| + |data|] == data
  {
    assert rest[..|header|] == header;
    assert rest[|header|..|header| + |data|] == data;
    assert tar[offset..offset + |header|] == rest[..|header|];
    assert tar[offset + |header|..offset + |header| + |data|] == rest[|header|..|header| + |data|];
  }

  lemma OneFile(tar: Bytes, limits: Limits, offset: nat, files: map<Bytes, Bytes>, name: Bytes, data: Bytes)
    requires offset + BLOCK + |data| <= |tar| && tar[offset + BLOCK..offset + BLOCK + |data|] == data
    requires !AllZero(tar[offset..offset + BLOCK]) && ReadHeader(tar[offset..offset + BLOCK], limits, files) == Ok((name, |data|))
    ensures ReadFrom(tar, limits, offset, files)
         == ReadFrom(tar, limits, offset + BLOCK + |data| + PaddingLength(|data|), files[name := data])
  {
  }

  lemma {:induction false} ContentsKeys(files: seq<File>, k: nat)
    requires k <= |files|
    ensures forall name :: name in Contents(files[..k]) <==> exists j :: 0 <= j < k && files[j].name == name
  {
    if k > 0 {
      ContentsKeys(files, k - 1);
      assert files[..k][..k - 1] == files[..k - 1];
      forall name ensures name in Contents(files[..k]) <==> exists j :: 0 <= j < k && files[j].name == name {
        assert files[..k][k - 1].name == files[k - 1].name;
      }
    }
  }

  /** Reading what was written gives back exactly the same files, for distinct allowed names the writer
      takes, sizes within the caps and the size field, and an archive within the cap as a whole. */
  lemma RoundTrip(files: seq<File>, mtime: nat, limits: Limits)
    requires Exchangeable(files, limits) && mtime < Power8(11)
    requires |Written(files, mtime)| <= limits.maxTotalBytes + BLOCK * 16
    ensures Read(Written(files, mtime), limits) == Ok(Contents(files))
    ensures forall k :: 0 <= k < |files| ==> files[k].name in Contents(files) && Contents(files)[files[k].name] == files[k].data
    ensures forall name :: name in Contents(files) ==> exists k :: 0 <= k < |files| && files[k].name == name
  {
    ReadsOn(files, mtime, limits, 0);
    assert files[..0] == [] && Start(files, mtime, 0) == [];
    ContentsKeys(files, |files|);
    assert files[..|files|] == files;
    ContentsAre(files);
  }

  lemma {:induction false} ContentsAre(files: seq<File>)
    requires forall j, k :: 0 <= j < k < |files| ==> files[j].name != files[k].name
    ensures forall k :: 0 <= k < |files| ==> files[k].name in Contents(files) && Contents(files)[files[k].name] == files[k].data
  {
    if files != [] {
      var last := |files| - 1;
      ContentsAre(files[..last]);
      forall k | 0 <= k < |files| ensures files[k].name in Contents(files) && Contents(files)[files[k].name] == files[k].data {
        if k < last { assert files[..last][k] == files[k]; }
      }
    }
  }

  predicate SliceAt(tar: Bytes, start: int, data: Bytes) {
    BLOCK <= start && start + |data| <= |tar| && tar[start..start + |data|] == data
  }

  /** `data` lies in `tar` after some block, within bounds. */
  ghost predicate SliceOf(tar: Bytes, data: Bytes) {
    exists start :: SliceAt(tar, start, data)
  }

  ghost predicate Sound(tar: Bytes, limits: Limits, files: map<Bytes, Bytes>) {
    forall name :: name in files ==> name in limits.allowed && |files[name]| <= limits.maxFileBytes && SliceOf(tar, files[name])
  }

  /** On any bytes at all, every file the read returns has an allowed name, is within the cap, and is a
      slice of the archive. */
  lemma {:induction false} ReadIsSound(tar: Bytes, limits: Limits, offset: nat, files: map<Bytes, Bytes>)
    requires Sound(tar, limits, files)
    ensures ReadFrom(tar, limits, offset, files).Ok? ==> Sound(tar, limits, ReadFrom(tar, limits, offset, files).value)
    decreases if offset < |tar| then |tar| - offset else 0
  {
    var more, after, grown := OneStep(tar, limits, offset, files);
    if more { ReadIsSound(tar, limits, after, grown); }
  }

  lemma OneStep(tar: Bytes, limits: Limits, offset: nat, files: map<Bytes, Bytes>) returns (more: bool, after: nat, grown: map<Bytes, Bytes>)
    requires Sound(tar, limits, files)
    ensures more ==> offset < after && offset < |tar| && Sound(tar, limits, grown)
    ensures more ==> ReadFrom(tar, limits, offset, files) == ReadFrom(tar, limits, after, grown)
    ensures !more && ReadFrom(tar, limits, offset, files).Ok? ==> ReadFrom(tar, limits, offset, files).value == files
  {
    more, after, grown := GoesOn(tar, limits, offset, files), offset, files;
    if more {
      var (name, size) := ReadHeader(tar[offset..offset + BLOCK], limits, files).value;
      var data := tar[offset + BLOCK..offset + BLOCK + size];
      assert |data| == size;
      OneFile(tar, limits, offset, files, name, data);
      HeaderSound(tar, limits, offset, files, name, data);
      after, grown := offset + BLOCK + size + PaddingLength(size), files[name := data];
    } else {
      Stops(tar, limits, offset, files);
    }
  }

  /** Whether the read takes another file at `offset`. */
  predicate GoesOn(tar: Bytes, limits: Limits, offset: nat, files: map<Bytes, Bytes>) {
    && offset + BLOCK <= |tar| && !AllZero(tar[offset..offset + BLOCK])
    && var read := ReadHeader(tar[offset..offset + BLOCK], limits, files);
    && read.Ok? && offset + BLOCK + read.value.1 <= |tar|
  }

  lemma Stops(tar: Bytes, limits: Limits, offset: nat, files: map<Bytes, Bytes>)
    requires !GoesOn(tar, limits, offset, files)
    ensures ReadFrom(tar, limits, offset, files).Ok? ==> ReadFrom(tar, limits, offset, files).value == files
  {
  }

  lemma HeaderSound(tar: Bytes, limits: Limits, offset: nat, files: map<Bytes, Bytes>, name: Bytes, data: Bytes)
    requires Sound(tar, limits, files) && offset + BLOCK + |data| <= |tar| && tar[offset + BLOCK..offset + BLOCK + |data|] == data
    requires ReadHeader(tar[offset..offset + BLOCK], limits, files) == Ok((name, |data|))
    ensures Sound(tar, limits, files[name := data])
  {
    assert SliceAt(tar, offset + BLOCK, data);
  }
}
