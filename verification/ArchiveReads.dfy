/** Which bytes the archive reader takes, and which it refuses: `readArchive` of `src/server/archive.ts`. */
module ArchiveReads {
  // Said of the bytes themselves, field by field of the ustar header.
  import opened Wrappers
  import opened Archive

  // Fields.

  predicate AllBlank(text: Bytes) {
    forall k :: 0 <= k < |text| ==> text[k] == ' ' as int || '\t' as int <= text[k] <= '\r' as int
  }

  predicate NoNul(text: Bytes) {
    forall k :: 0 <= k < |text| ==> text[k] != 0
  }

  predicate NulOrEnd(rest: Bytes) {
    rest == [] || rest[0] == 0
  }

  /** A text field holds `text`: all of it up to the first NUL, or its end. */
  ghost predicate TextField(raw: Bytes, text: Bytes) {
    text <= raw && NoNul(text) && NulOrEnd(raw[|text|..])
  }

  predicate OctalParts(text: Bytes, value: nat, before: Bytes, zeros: nat, after: Bytes) {
    AllBlank(before) && AllBlank(after) && text == before + (Zeros(zeros) + Digits(value)) + after
  }

  /** A numeric field holds `value`: its octal digits, zeros before them or not, among white space. */
  ghost predicate OctalField(raw: Bytes, value: nat) {
    exists text, before, zeros: nat, after :: TextField(raw, text) && OctalParts(text, value, before, zeros, after)
  }

  lemma {:induction false} UpToNulIs(raw: Bytes)
    ensures TextField(raw, UpToNul(raw))
  {
    if raw != [] && raw[0] != 0 {
      UpToNulIs(raw[1..]);
      var n := |UpToNul(raw[1..])|;
      assert raw == [raw[0]] + raw[1..];
      assert raw[n + 1..] == raw[1..][n..];
    }
  }

  lemma OneText(raw: Bytes, a: Bytes, b: Bytes)
    requires TextField(raw, a) && TextField(raw, b)
    ensures a == b
  {
    assert |a| < |raw| ==> raw[|a|..][0] == raw[|a|];
    assert |b| < |raw| ==> raw[|b|..][0] == raw[|b|];
  }

  /** What `field` reads is what the field holds. */
  lemma FieldIs(block: Bytes, start: nat, length: nat, text: Bytes)
    requires start + length <= |block|
    ensures Field(block, start, length) == text <==> TextField(block[start..start + length], text)
  {
    var raw := block[start..start + length];
    UpToNulIs(raw);
    if TextField(raw, text) { OneText(raw, text, UpToNul(raw)); }
  }

  lemma {:induction false} TrimSplits(text: Bytes) returns (before: Bytes, after: Bytes)
    ensures AllBlank(before) && AllBlank(after) && text == before + Trim(text) + after
    decreases |text|
  {
    before, after := [], [];
    if text != [] && Blank(text[0]) {
      before, after := TrimSplits(text[1..]);
      assert text == [text[0]] + text[1..];
      before := [text[0]] + before;
    } else if text != [] && Blank(text[|text| - 1]) {
      before, after := TrimSplits(text[..|text| - 1]);
      assert text == text[..|text| - 1] + [text[|text| - 1]];
      after := after + [text[|text| - 1]];
    }
  }

  lemma {:induction false} TrimPeels(before: Bytes, text: Bytes, after: Bytes)
    requires AllBlank(before) && AllBlank(after) && text != [] && !Blank(text[0]) && !Blank(text[|text| - 1])
    ensures Trim(before + text + after) == text
    decreases |before| + |after|
  {
    var all := before + text + after;
    if before != [] {
      assert all[1..] == before[1..] + text + after;
      TrimPeels(before[1..], text, after);
    } else if after != [] {
      assert all[0] == text[0] && all[|all| - 1] == after[|after| - 1];
      assert all[..|all| - 1] == before + text + after[..|after| - 1];
      TrimPeels(before, text, after[..|after| - 1]);
    } else {
      assert all == text;
    }
  }

  predicate AllOctal(text: Bytes) {
    forall k :: 0 <= k < |text| ==> IsOctalDigit(text[k])
  }

  lemma DigitsNext(value: nat, digit: nat)
    requires digit < 8
    ensures Digits(value * 8 + digit) == (if value == 0 then [] else Digits(value)) + [ZERO + digit]
  {
    assert (value * 8 + digit) / 8 == value && (value * 8 + digit) % 8 == digit;
  }

  /** Octal text is the digits of its value after some zeros. */
  lemma {:induction false} OctalText(text: Bytes) returns (zeros: nat)
    requires text != [] && AllOctal(text)
    ensures text == Zeros(zeros) + Digits(ValueOf(text))
  {
    var last := |text| - 1;
    var first := text[..last];
    assert IsOctalDigit(text[last]);
    if first == [] {
      zeros := OneDigit(text);
    } else {
      zeros := OctalText(first);
      zeros := OneDigitMore(text, first, zeros);
    }
  }

  lemma OneDigit(text: Bytes) returns (zeros: nat)
    requires |text| == 1 && IsOctalDigit(text[0])
    ensures AllOctal(text) && text == Zeros(zeros) + Digits(ValueOf(text))
  {
    zeros := 0;
    assert text[..0] == [];
    DigitsNext(0, text[0] - ZERO);
  }

  lemma OneDigitMore(text: Bytes, first: Bytes, before: nat) returns (zeros: nat)
    requires AllOctal(text) && text != [] && first == text[..|text| - 1] && first == Zeros(before) + Digits(ValueOf(first))
    ensures text == Zeros(zeros) + Digits(ValueOf(text))
  {
    var value, digit := ValueOf(first), text[|text| - 1] - ZERO;
    DigitsNext(value, digit);
    assert text == first + [ZERO + digit] && ValueOf(text) == value * 8 + digit;
    zeros := before;
    if value == 0 { zeros := AllZeros(first, before); }
  }

  lemma AllZeros(text: Bytes, zeros: nat) returns (all: nat)
    requires text == Zeros(zeros) + Digits(0)
    ensures text == Zeros(all)
  {
    all := zeros + 1;
    assert Zeros(zeros + 1) == Zeros(zeros) + [ZERO];
  }

  lemma Digital(value: nat, zeros: nat)
    ensures var text := Zeros(zeros) + Digits(value); text != [] && AllOctal(text) && ValueOf(text) == value
  {
    DigitsValue(value);
    ZerosValue(zeros, Digits(value));
  }

  /** What `parseOctal` reads is what the field holds. */
  lemma OctalIs(block: Bytes, start: nat, length: nat, value: nat)
    requires start + length <= |block|
    ensures ParseOctal(block, start, length) == Some(value) <==> OctalField(block[start..start + length], value)
  {
    var raw := block[start..start + length];
    UpToNulIs(raw);
    if ParseOctal(block, start, length) == Some(value) {
      OctalRead(raw, value);
    }
    if text, before, zeros: nat, after :| TextField(raw, text) && OctalParts(text, value, before, zeros, after) {
      OneText(raw, text, UpToNul(raw));
      PartsTrim(text, value, before, zeros, after);
    }
  }

  lemma PartsTrim(text: Bytes, value: nat, before: Bytes, zeros: nat, after: Bytes)
    requires OctalParts(text, value, before, zeros, after)
    ensures Trim(text) != [] && AllOctal(Trim(text)) && ValueOf(Trim(text)) == value
  {
    Digital(value, zeros);
    DigitsTrim(text, before, Zeros(zeros) + Digits(value), after);
  }

  lemma DigitsTrim(text: Bytes, before: Bytes, digits: Bytes, after: Bytes)
    requires AllBlank(before) && AllBlank(after) && digits != [] && AllOctal(digits) && text == before + digits + after
    ensures Trim(text) == digits
  {
    assert IsOctalDigit(digits[0]) && IsOctalDigit(digits[|digits| - 1]);
    TrimPeels(before, digits, after);
  }

  lemma OctalRead(raw: Bytes, value: nat)
    requires var text := Trim(UpToNul(raw)); text != [] && AllOctal(text) && ValueOf(text) == value
    ensures OctalField(raw, value)
  {
    UpToNulIs(raw);
    var before, after := TrimSplits(UpToNul(raw));
    var zeros := OctalText(Trim(UpToNul(raw)));
    assert OctalParts(UpToNul(raw), value, before, zeros, after);
  }

  // The checksum.

  function Total(bytes: Bytes): nat {
    if bytes == [] then 0 else bytes[0] + Total(bytes[1..])
  }

  lemma {:induction false} TotalSnoc(bytes: Bytes, b: Byte)
    ensures Total(bytes + [b]) == Total(bytes) + b
  {
    if bytes == [] {
      assert bytes + [b] == [b];
    } else {
      assert (bytes + [b])[1..] == bytes[1..] + [b];
      TotalSnoc(bytes[1..], b);
    }
  }

  /** A block's sum: its bytes, with eight spaces for the checksum's own. */
  function BlockSum(block: Bytes): nat
    requires |block| == BLOCK
  {
    Total(block[..148]) + 8 * SPACE + Total(block[156..])
  }

  lemma {:induction false} SumUpTo(block: Bytes, n: nat)
    requires n <= |block| == BLOCK
    ensures SumTo(block, n) == if n <= 148 then Total(block[..n]) else if n <= 156 then Total(block[..148]) + (n - 148) * SPACE
                               else Total(block[..148]) + 8 * SPACE + Total(block[156..n])
  {
    if n > 0 {
      SumUpTo(block, n - 1);
      if n <= 148 {
        assert block[..n] == block[..n - 1] + [block[n - 1]];
        TotalSnoc(block[..n - 1], block[n - 1]);
      } else if n > 156 {
        assert block[156..n] == block[156..n - 1] + [block[n - 1]];
        TotalSnoc(block[156..n - 1], block[n - 1]);
      }
    }
  }

  /** The checksum is the sum of the block's bytes, its own field counted as spaces. */
  lemma SumIsBlocks(block: Bytes)
    requires |block| == BLOCK
    ensures SumTo(block, BLOCK) == BlockSum(block)
  {
    SumUpTo(block, BLOCK);
    assert block[156..BLOCK] == block[156..];
  }

  // A header block.

  ghost predicate SumAddsUp(block: Bytes)
    requires |block| == BLOCK
  {
    OctalField(block[148..156], BlockSum(block))
  }

  ghost predicate SizeIs(block: Bytes, size: nat)
    requires |block| == BLOCK
  {
    OctalField(block[124..136], size)
  }

  ghost predicate HasSize(block: Bytes)
    requires |block| == BLOCK
  {
    exists size: nat :: OctalField(block[124..136], size)
  }

  /** Of plain type, without a prefix before its name. */
  predicate Plain(block: Bytes)
    requires |block| == BLOCK
  {
    block[345] == 0 && (block[156] == ZERO || block[156] == 0)
  }

  /** One entry of an archive: where its header starts, its name and its size. */
  datatype Taken = Taken(at: nat, name: Bytes, size: nat)

  /** The bytes at `t.at` are a header that adds up, for that name and size. */
  ghost predicate Headed(tar: Bytes, t: Taken) {
    && t.at + BLOCK <= |tar|
    && var block := tar[t.at..t.at + BLOCK];
    && !AllZero(block) && SumAddsUp(block) && SizeIs(block, t.size) && TextField(block[0..100], t.name)
  }

  /** The header is one the reader takes: plain, allowed, not seen before, within the cap, its data whole. */
  ghost predicate Accepted(tar: Bytes, limits: Limits, t: Taken, seen: set<Bytes>) {
    && Headed(tar, t) && Plain(tar[t.at..t.at + BLOCK])
    && t.name in limits.allowed && t.name !in seen && t.size <= limits.maxFileBytes && t.at + BLOCK + t.size <= |tar|
  }

  /** After an entry the next one starts at the first block past its data. */
  predicate Follows(t: Taken, at: int) {
    var data := at - t.at - BLOCK;
    data % BLOCK == 0 && t.size <= data < t.size + BLOCK
  }

  function NamesOf(taken: seq<Taken>): set<Bytes> {
    set k | 0 <= k < |taken| :: taken[k].name
  }

  /** The entries lie one after another from the first byte up to `end`. */
  ghost predicate Laid(tar: Bytes, limits: Limits, taken: seq<Taken>, end: nat) {
    if taken == [] then end == 0
    else
      var last := |taken| - 1;
      Laid(tar, limits, taken[..last], taken[last].at) && Accepted(tar, limits, taken[last], NamesOf(taken[..last])) && Follows(taken[last], end)
  }

  /** The entry's data: as many bytes after its header as its size says. */
  function DataOf(tar: Bytes, t: Taken): (data: Bytes)
    requires t.at + BLOCK + t.size <= |tar|
    ensures |data| == t.size
  {
    tar[t.at + BLOCK..t.at + BLOCK + t.size]
  }

  /** The files of the entries: each name's bytes, cut out of the archive. */
  ghost predicate Holds(tar: Bytes, taken: seq<Taken>, files: map<Bytes, Bytes>) {
    && files.Keys == NamesOf(taken)
    && forall k :: 0 <= k < |taken| ==>
         taken[k].at + BLOCK + taken[k].size <= |tar| && taken[k].name in files && files[taken[k].name] == DataOf(tar, taken[k])
  }

  /** Where the entries end, what the reader answers: the files at a block of NULs, or the first fault. */
  ghost predicate Answers(tar: Bytes, limits: Limits, taken: seq<Taken>, end: nat, r: Result<map<Bytes, Bytes>, ArchiveError>) {
    if end + BLOCK > |tar| then r == Err(CutShort)
    else if AllZero(tar[end..end + BLOCK]) then r.Ok? && Holds(tar, taken, r.value)
    else if !SumAddsUp(tar[end..end + BLOCK]) || !HasSize(tar[end..end + BLOCK]) then r == Err(Damaged)
    else if !Plain(tar[end..end + BLOCK]) then r == Err(NotPlainFile)
    else exists t: Taken :: Rejected(tar, limits, t, end, NamesOf(taken)) && r == Err(Fault(limits, t, NamesOf(taken)))
  }

  ghost predicate Rejected(tar: Bytes, limits: Limits, t: Taken, at: nat, seen: set<Bytes>) {
    t.at == at && Headed(tar, t) && !Accepted(tar, limits, t, seen)
  }

  /** What is wrong with a sound, plain entry that is not accepted. */
  function Fault(limits: Limits, t: Taken, seen: set<Bytes>): ArchiveError {
    if t.name !in limits.allowed then NotAllowed
    else if t.name in seen then Twice
    else if t.size > limits.maxFileBytes then TooLarge
    else CutShort
  }

  lemma PrefixIs(block: Bytes)
    requires |block| == BLOCK
    ensures Field(block, 345, 155) == [] <==> block[345] == 0
  {
    assert block[345..500][0] == block[345];
  }

  /** What the reader makes of a header block is what the block says. */
  lemma HeaderIs(tar: Bytes, limits: Limits, at: nat, files: map<Bytes, Bytes>, size: nat)
    requires at + BLOCK <= |tar| && !AllZero(tar[at..at + BLOCK])
    ensures
      var block := tar[at..at + BLOCK];
      && (ParseOctal(block, 148, 8) == Some(SumTo(block, BLOCK)) <==> SumAddsUp(block))
      && (ParseOctal(block, 124, 12) == Some(size) <==> SizeIs(block, size))
      && TextField(block[0..100], Field(block, 0, 100))
      && (Field(block, 345, 155) == [] && (block[156] == ZERO || block[156] == 0) <==> Plain(block))
  {
    var block := tar[at..at + BLOCK];
    SumIsBlocks(block);
    OctalIs(block, 148, 8, BlockSum(block));
    OctalIs(block, 124, 12, size);
    FieldIs(block, 0, 100, Field(block, 0, 100));
    PrefixIs(block);
  }

  lemma HeaderTaken(tar: Bytes, limits: Limits, t: Taken, files: map<Bytes, Bytes>)
    requires Accepted(tar, limits, t, files.Keys)
    ensures ReadHeader(tar[t.at..t.at + BLOCK], limits, files) == Ok((t.name, t.size))
  {
    var block := tar[t.at..t.at + BLOCK];
    HeaderIs(tar, limits, t.at, files, t.size);
    OneText(block[0..100], t.name, Field(block, 0, 100));
  }

  lemma ReadPast(tar: Bytes, limits: Limits, at: nat, files: map<Bytes, Bytes>, name: Bytes, data: Bytes, end: nat)
    requires at + BLOCK + |data| <= |tar| && tar[at + BLOCK..at + BLOCK + |data|] == data && end == at + BLOCK + |data| + PaddingLength(|data|)
    requires !AllZero(tar[at..at + BLOCK]) && ReadHeader(tar[at..at + BLOCK], limits, files) == Ok((name, |data|))
    ensures ReadFrom(tar, limits, at, files) == ReadFrom(tar, limits, end, files[name := data])
  {
    OneFile(tar, limits, at, files, name, data);
  }

  /** One more accepted entry, and the read goes on after it. */
  lemma TakesOne(tar: Bytes, limits: Limits, t: Taken, files: map<Bytes, Bytes>, end: nat)
    requires Accepted(tar, limits, t, files.Keys) && Follows(t, end)
    ensures ReadFrom(tar, limits, t.at, files) == ReadFrom(tar, limits, end, files[t.name := DataOf(tar, t)])
  {
    HeaderTaken(tar, limits, t, files);
    PadsTo(t.size, end - t.at - BLOCK);
    ReadPast(tar, limits, t.at, files, t.name, DataOf(tar, t), end);
  }

  lemma PadsTo(size: nat, data: int)
    requires data % BLOCK == 0 && size <= data < size + BLOCK
    ensures data == size + PaddingLength(size)
  {
  }

  /** The read of entries laid one after another comes to their end, with their files. */
  lemma {:induction false} ComesTo(tar: Bytes, limits: Limits, taken: seq<Taken>, end: nat) returns (files: map<Bytes, Bytes>)
    requires Laid(tar, limits, taken, end)
    ensures Holds(tar, taken, files) && ReadFrom(tar, limits, 0, map[]) == ReadFrom(tar, limits, end, files)
    decreases |taken|
  {
    if taken == [] {
      files := map[];
    } else {
      var last := |taken| - 1;
      files := ComesTo(tar, limits, taken[..last], taken[last].at);
      files := ComesFurther(tar, limits, taken, end, files, ReadFrom(tar, limits, taken[last].at, files));
    }
  }

  lemma ComesFurther(tar: Bytes, limits: Limits, taken: seq<Taken>, end: nat, before: map<Bytes, Bytes>, r: Result<map<Bytes, Bytes>, ArchiveError>)
    returns (files: map<Bytes, Bytes>)
    requires taken != [] && Holds(tar, taken[..|taken| - 1], before)
    requires var t := taken[|taken| - 1]; Accepted(tar, limits, t, NamesOf(taken[..|taken| - 1])) && Follows(t, end) && r == ReadFrom(tar, limits, t.at, before)
    ensures Holds(tar, taken, files) && r == ReadFrom(tar, limits, end, files)
  {
    var t := taken[|taken| - 1];
    files := before[t.name := DataOf(tar, t)];
    HoldsMore(tar, taken, before, t);
    TakesOne(tar, limits, t, before, end);
  }

  lemma HoldsMore(tar: Bytes, taken: seq<Taken>, before: map<Bytes, Bytes>, t: Taken)
    requires taken != [] && t == taken[|taken| - 1] && Holds(tar, taken[..|taken| - 1], before)
    requires t.name !in before && t.at + BLOCK + t.size <= |tar|
    ensures Holds(tar, taken, before[t.name := DataOf(tar, t)])
  {
    var last := |taken| - 1;
    var files := before[t.name := DataOf(tar, t)];
    assert NamesOf(taken) == NamesOf(taken[..last]) + {t.name};
    forall k | 0 <= k < |taken|
      ensures taken[k].at + BLOCK + taken[k].size <= |tar| && taken[k].name in files && files[taken[k].name] == DataOf(tar, taken[k]) {
      if k < last { assert taken[..last][k] == taken[k] && taken[k].name in NamesOf(taken[..last]); }
    }
  }

  // What the read answers.

  /** A block that is no header to take is answered by its first fault. */
  lemma BadBlock(tar: Bytes, limits: Limits, end: nat, files: map<Bytes, Bytes>)
    requires end + BLOCK <= |tar| && !AllZero(tar[end..end + BLOCK])
    ensures
      var block := tar[end..end + BLOCK];
      && (!SumAddsUp(block) || !HasSize(block) ==> ReadFrom(tar, limits, end, files) == Err(Damaged))
      && (SumAddsUp(block) && HasSize(block) && !Plain(block) ==> ReadFrom(tar, limits, end, files) == Err(NotPlainFile))
  {
    var block := tar[end..end + BLOCK];
    forall size: nat ensures ParseOctal(block, 124, 12) == Some(size) <==> OctalField(block[124..136], size) { OctalIs(block, 124, 12, size); }
    HeaderIs(tar, limits, end, files, 0);
  }

  /** A sound header whose entry is not accepted is answered by what is wrong with it. */
  lemma BadEntry(tar: Bytes, limits: Limits, t: Taken, files: map<Bytes, Bytes>)
    requires Headed(tar, t) && Plain(tar[t.at..t.at + BLOCK]) && !Accepted(tar, limits, t, files.Keys)
    ensures ReadFrom(tar, limits, t.at, files) == Err(Fault(limits, t, files.Keys))
  {
    var block := tar[t.at..t.at + BLOCK];
    HeaderIs(tar, limits, t.at, files, t.size);
    OneText(block[0..100], t.name, Field(block, 0, 100));
  }

  /** Where no entry is accepted, the read answers so. */
  lemma AnswersThere(tar: Bytes, limits: Limits, taken: seq<Taken>, end: nat, files: map<Bytes, Bytes>)
    requires Holds(tar, taken, files) && forall t: Taken :: t.at == end ==> !Accepted(tar, limits, t, NamesOf(taken))
    ensures Answers(tar, limits, taken, end, ReadFrom(tar, limits, end, files))
  {
    if end + BLOCK <= |tar| && !AllZero(tar[end..end + BLOCK]) {
      var block := tar[end..end + BLOCK];
      BadBlock(tar, limits, end, files);
      if SumAddsUp(block) && HasSize(block) && Plain(block) {
        var size: nat :| OctalField(block[124..136], size);
        UpToNulIs(block[0..100]);
        var t := Taken(end, UpToNul(block[0..100]), size);
        assert Headed(tar, t);
        BadEntry(tar, limits, t, files);
        assert Rejected(tar, limits, t, end, NamesOf(taken));
      }
    }
  }

  lemma OneHeader(tar: Bytes, t: Taken, u: Taken)
    requires Headed(tar, t) && Headed(tar, u) && t.at == u.at
    ensures t == u
  {
    var block := tar[t.at..t.at + BLOCK];
    OneText(block[0..100], t.name, u.name);
    OctalIs(block, 124, 12, t.size);
    OctalIs(block, 124, 12, u.size);
  }

  lemma OneHolds(tar: Bytes, taken: seq<Taken>, a: map<Bytes, Bytes>, b: map<Bytes, Bytes>)
    requires Holds(tar, taken, a) && Holds(tar, taken, b)
    ensures a == b
  {
    forall name | name in a ensures name in b && a[name] == b[name] {
      var k :| 0 <= k < |taken| && taken[k].name == name;
    }
  }

  lemma OneAnswer(tar: Bytes, limits: Limits, taken: seq<Taken>, end: nat, a: Result<map<Bytes, Bytes>, ArchiveError>, b: Result<map<Bytes, Bytes>, ArchiveError>)
    requires Answers(tar, limits, taken, end, a) && Answers(tar, limits, taken, end, b)
    ensures a == b
  {
    if end + BLOCK <= |tar| {
      var block := tar[end..end + BLOCK];
      if AllZero(block) {
        OneHolds(tar, taken, a.value, b.value);
      } else if SumAddsUp(block) && HasSize(block) && Plain(block) {
        var t: Taken :| Rejected(tar, limits, t, end, NamesOf(taken)) && a == Err(Fault(limits, t, NamesOf(taken)));
        var u: Taken :| Rejected(tar, limits, u, end, NamesOf(taken)) && b == Err(Fault(limits, u, NamesOf(taken)));
        OneHeader(tar, t, u);
      }
    }
  }

  /** An answer is given only where no further entry is accepted. */
  lemma AnswersAtEnd(tar: Bytes, limits: Limits, taken: seq<Taken>, end: nat, r: Result<map<Bytes, Bytes>, ArchiveError>, t: Taken)
    requires Answers(tar, limits, taken, end, r) && t.at == end
    ensures !Accepted(tar, limits, t, NamesOf(taken))
  {
    if Headed(tar, t) && Plain(tar[end..end + BLOCK]) {
      assert HasSize(tar[end..end + BLOCK]);
      var u: Taken :| Rejected(tar, limits, u, end, NamesOf(taken)) && r == Err(Fault(limits, u, NamesOf(taken)));
      OneHeader(tar, t, u);
    }
  }

  lemma LaidMore(tar: Bytes, limits: Limits, laid: seq<Taken>, at: nat, t: Taken) returns (next: nat)
    requires Laid(tar, limits, laid, at) && t.at == at && Accepted(tar, limits, t, NamesOf(laid))
    ensures Laid(tar, limits, laid + [t], next) && at < next && at < |tar|
  {
    next := NextAt(t);
    LaidSnoc(tar, limits, laid, at, t, next);
  }

  lemma NextAt(t: Taken) returns (next: nat)
    ensures Follows(t, next) && t.at < next
  {
    next := t.at + BLOCK + t.size + PaddingLength(t.size);
  }

  lemma LaidSnoc(tar: Bytes, limits: Limits, laid: seq<Taken>, at: nat, t: Taken, next: nat)
    requires Laid(tar, limits, laid, at) && t.at == at && Accepted(tar, limits, t, NamesOf(laid)) && Follows(t, next)
    ensures Laid(tar, limits, laid + [t], next)
  {
    assert (laid + [t])[..|laid|] == laid;
  }

  /** From entries laid so far, those that follow and what the read then answers. */
  lemma {:induction false} LaysOn(tar: Bytes, limits: Limits, laid: seq<Taken>, at: nat) returns (taken: seq<Taken>, end: nat)
    requires Laid(tar, limits, laid, at)
    ensures Laid(tar, limits, taken, end) && forall t: Taken :: t.at == end ==> !Accepted(tar, limits, t, NamesOf(taken))
    decreases if at < |tar| then |tar| - at else 0
  {
    if t: Taken :| t.at == at && Accepted(tar, limits, t, NamesOf(laid)) {
      var next := LaidMore(tar, limits, laid, at, t);
      taken, end := LaysOn(tar, limits, laid + [t], next);
    } else {
      taken, end := laid, at;
    }
  }

  /** What the reader answers on any bytes: exactly when entries lie one after another from the first byte, each
      with a header whose checksum field reads as the sum of its bytes, a size, plain, of an allowed name no
      earlier one has, within the cap and whole, it comes to where they end; at a block of NULs it answers
      their files, and otherwise the first fault there. There is always just one such answer. What inflates past
      the cap and sixteen blocks is no export. */
  lemma ReadsExactly(tar: Bytes, limits: Limits, r: Result<map<Bytes, Bytes>, ArchiveError>)
    ensures |tar| > limits.maxTotalBytes + 8_192 ==> Read(tar, limits) == Err(NotAnExport)
    ensures |tar| <= limits.maxTotalBytes + 8_192 ==>
              (Read(tar, limits) == r <==> exists taken, end: nat :: Laid(tar, limits, taken, end) && Answers(tar, limits, taken, end, r))
  {
    if |tar| <= limits.maxTotalBytes + 8_192 { ReadsWithin(tar, limits, r); }
  }

  lemma ReadsWithin(tar: Bytes, limits: Limits, r: Result<map<Bytes, Bytes>, ArchiveError>)
    requires |tar| <= limits.maxTotalBytes + 8_192
    ensures Read(tar, limits) == r <==> exists taken, end: nat :: Laid(tar, limits, taken, end) && Answers(tar, limits, taken, end, r)
  {
    if Read(tar, limits) == r {
      var none: seq<Taken> := [];
      var taken, end := LaysOn(tar, limits, none, 0);
      var files := ComesTo(tar, limits, taken, end);
      AnswersThere(tar, limits, taken, end, files);
    }
    if taken, end: nat :| Laid(tar, limits, taken, end) && Answers(tar, limits, taken, end, r) {
      var files := ComesTo(tar, limits, taken, end);
      forall t: Taken | t.at == end ensures !Accepted(tar, limits, t, NamesOf(taken)) { AnswersAtEnd(tar, limits, taken, end, r, t); }
      AnswersThere(tar, limits, taken, end, files);
      OneAnswer(tar, limits, taken, end, r, Read(tar, limits));
    }
  }

  // Altered archives.

  lemma {:induction false} SumChanges(block: Bytes, p: nat, b: Byte, n: nat)
    requires p < |block| && n <= |block|
    ensures SumTo(block[p := b], n) == SumTo(block, n) + if p < n && !(148 <= p < 156) then b - block[p] else 0
  {
    if n > 0 { SumChanges(block, p, b, n - 1); }
  }

  lemma PrefixStep(tar: Bytes, files: seq<File>, mtime: nat, limits: Limits, k: nat)
    requires Exchangeable(files, limits) && mtime < Power8(11) && k < |files| && Start(files, mtime, k + 1) <= tar
    ensures Start(files, mtime, k) <= tar
    ensures ReadFrom(tar, limits, |Start(files, mtime, k)|, Contents(files[..k])) == ReadFrom(tar, limits, |Start(files, mtime, k + 1)|, Contents(files[..k + 1]))
  {
    var file := files[k];
    var header := StartNext(files, mtime, k);
    ContentsKeys(files, k);
    HeaderReads(file.name, |file.data|, mtime, limits, Contents(files[..k]));
    EntryReads(tar, Start(files, mtime, k), limits, Contents(files[..k]), file, header);
    assert files[..k + 1][..k] == files[..k];
  }

  /** As far as the bytes are those the writer wrote, the reader takes its files. */
  lemma {:induction false} PrefixReads(tar: Bytes, files: seq<File>, mtime: nat, limits: Limits, k: nat)
    requires Exchangeable(files, limits) && mtime < Power8(11) && k <= |files| && Start(files, mtime, k) <= tar
    ensures ReadFrom(tar, limits, 0, map[]) == ReadFrom(tar, limits, |Start(files, mtime, k)|, Contents(files[..k]))
  {
    if k == 0 {
      assert files[..0] == [];
    } else {
      PrefixStep(tar, files, mtime, limits, k - 1);
      PrefixReads(tar, files, mtime, limits, k - 1);
    }
  }

  /** A header that adds up no longer does with one byte changed outside its checksum. */
  lemma ChangedSum(header: Bytes, limits: Limits, files: map<Bytes, Bytes>, p: nat, b: Byte)
    requires |header| == BLOCK && ParseOctal(header, 148, 8) == Some(SumTo(header, BLOCK))
    requires p < BLOCK && !(148 <= p < 156) && b != header[p]
    ensures var block := header[p := b]; !AllZero(block) && ReadHeader(block, limits, files) == Err(Damaged)
  {
    var block := header[p := b];
    SumChanges(header, p, b, BLOCK);
    assert block[148..156] == header[148..156];
    assert block[148] == header[148..156][0];
  }

  lemma AlteredHeader(name: Bytes, size: nat, mtime: nat, limits: Limits, files: map<Bytes, Bytes>, p: nat, b: Byte)
    requires Archivable(name) && size < Power8(11) && mtime < Power8(11)
    requires p < BLOCK && !(148 <= p < 156) && b != HeaderOf(name, size, mtime)[p]
    ensures var block := HeaderOf(name, size, mtime)[p := b]; !AllZero(block) && ReadHeader(block, limits, files) == Err(Damaged)
  {
    var header := HeaderOf(name, size, mtime);
    var sum := SumTo(Block(Fields(name, size, mtime)), BLOCK);
    SumIsOwn(name, size, mtime);
    assert header == Block(Sealed(name, size, mtime, sum));
    SumReads(name, size, mtime, sum);
    ChangedSum(header, limits, files, p, b);
  }

  lemma BadHeaderReads(tar: Bytes, limits: Limits, at: nat, files: map<Bytes, Bytes>, block: Bytes)
    requires at + BLOCK <= |tar| && tar[at..at + BLOCK] == block && !AllZero(block) && ReadHeader(block, limits, files) == Err(Damaged)
    ensures ReadFrom(tar, limits, at, files) == Err(Damaged)
  {
  }

  /** Where the `k`th file's header lies in the archive. */
  lemma HeaderLies(files: seq<File>, mtime: nat, k: nat)
    requires k < |files|
    ensures
      var at := |Start(files, mtime, k)|;
      && at + BLOCK <= |Written(files, mtime)| && Start(files, mtime, k) <= Written(files, mtime)
      && Written(files, mtime)[at..at + BLOCK] == HeaderOf(files[k].name, |files[k].data|, mtime)
  {
    var header := StartNext(files, mtime, k);
    var start := Start(files, mtime, k);
    StartsWritten(files, mtime, k + 1);
    assert start + Line(files[k], header) <= Written(files, mtime);
    assert (start + Line(files[k], header))[|start|..|start| + BLOCK] == header;
  }

  lemma Altered(tar: Bytes, at: nat, p: nat, b: Byte)
    requires at + BLOCK <= |tar| && p < BLOCK
    ensures tar[at + p := b][at..at + BLOCK] == tar[at..at + BLOCK][p := b] && tar[..at] <= tar[at + p := b] && tar[at + p] == tar[at..at + BLOCK][p]
  {
  }

  /** An archive the writer wrote with one byte of a header changed, outside the checksum's own, is refused as
      damaged. */
  lemma AlteredIsDamaged(files: seq<File>, mtime: nat, limits: Limits, k: nat, p: nat, b: Byte)
    requires Exchangeable(files, limits) && mtime < Power8(11) && |Written(files, mtime)| <= limits.maxTotalBytes + BLOCK * 16
    requires k < |files| && p < BLOCK && !(148 <= p < 156)
    ensures
      var at := |Start(files, mtime, k)|;
      && at + BLOCK <= |Written(files, mtime)|
      && (b != Written(files, mtime)[at + p] ==> Read(Written(files, mtime)[at + p := b], limits) == Err(Damaged))
  {
    var tar, at, file := Written(files, mtime), |Start(files, mtime, k)|, files[k];
    HeaderLies(files, mtime, k);
    Altered(tar, at, p, b);
    if b != tar[at + p] {
      PrefixReads(tar[at + p := b], files, mtime, limits, k);
      AlteredHeader(file.name, |file.data|, mtime, limits, Contents(files[..k]), p, b);
      BadHeaderReads(tar[at + p := b], limits, at, Contents(files[..k]), tar[at..at + BLOCK][p := b]);
    }
  }

  // What the writer writes.

  /** A field of a sealed header, other than the checksum's, is there as it was written. */
  lemma FieldLies(name: Bytes, size: nat, mtime: nat, sum: nat, k: nat)
    requires Archivable(name) && size < Power8(11) && mtime < Power8(11) && sum < Power8(6) && k < 12 && k != 6
    ensures
      var field := Sealed(name, size, mtime, sum)[k];
      field.at + |field.bytes| <= BLOCK && Block(Sealed(name, size, mtime, sum))[field.at..field.at + |field.bytes|] == field.bytes
  {
    Lengths(size, mtime, sum);
    Reads(Sealed(name, size, mtime, sum), k);
  }

  lemma BlankLies(name: Bytes, size: nat, mtime: nat, sum: nat, from: nat, to: nat)
    requires Archivable(name) && size < Power8(11) && mtime < Power8(11) && sum < Power8(6) && from <= to <= BLOCK
    requires forall k :: 0 <= k < 14 ==> Archive.Apart(Sealed(name, size, mtime, sum)[k], from, to)
    ensures Block(Sealed(name, size, mtime, sum))[from..to] == Filled(to - from)
  {
    var fields := Sealed(name, size, mtime, sum);
    Untouched(fields, 0, from, to);
    assert fields[..0] == [];
    assert Filled(BLOCK)[from..to] == Filled(to - from);
  }

  /** A header as the ustar format lays it out: mode 0644, no owner, the file's size and time, a plain file, the
      format's magic and version, FamilyFi as user and group, and NULs everywhere else. */
  lemma HeaderLayout(name: Bytes, size: nat, mtime: nat)
    requires Archivable(name) && size < Power8(11) && mtime < Power8(11)
    ensures
      var block := HeaderOf(name, size, mtime);
      && block[0..|name|] == name && block[|name|..100] == Filled(100 - |name|)
      && block[100..108] == Octal(0x1A4, 8) && block[108..116] == Octal(0, 8) && block[116..124] == Octal(0, 8)
      && block[124..136] == Octal(size, 12) && block[136..148] == Octal(mtime, 12)
      && block[156..157] == [ZERO] && block[157..257] == Filled(100)
      && block[257..263] == USTAR && block[263..265] == [ZERO, ZERO]
      && block[265..273] == FAMILYFI && block[273..297] == Filled(24)
      && block[297..305] == FAMILYFI && block[305..512] == Filled(207)
  {
    var sum := SumTo(Block(Fields(name, size, mtime)), BLOCK);
    SumIsOwn(name, size, mtime);
    Lengths(size, mtime, sum);
    assert HeaderOf(name, size, mtime) == Block(Sealed(name, size, mtime, sum));
    NumbersLie(name, size, mtime, sum);
    NamesLie(name, size, mtime, sum);
    BlanksLie(name, size, mtime, sum);
  }

  lemma NumbersLie(name: Bytes, size: nat, mtime: nat, sum: nat)
    requires Archivable(name) && size < Power8(11) && mtime < Power8(11) && sum < Power8(6)
    ensures
      var block := Block(Sealed(name, size, mtime, sum));
      && block[100..108] == Octal(0x1A4, 8) && block[108..116] == Octal(0, 8) && block[116..124] == Octal(0, 8)
      && block[124..136] == Octal(size, 12) && block[136..148] == Octal(mtime, 12)
  {
    Lengths(size, mtime, sum);
    FieldLies(name, size, mtime, sum, 1);
    FieldLies(name, size, mtime, sum, 2);
    FieldLies(name, size, mtime, sum, 3);
    FieldLies(name, size, mtime, sum, 4);
    FieldLies(name, size, mtime, sum, 5);
  }

  lemma NamesLie(name: Bytes, size: nat, mtime: nat, sum: nat)
    requires Archivable(name) && size < Power8(11) && mtime < Power8(11) && sum < Power8(6)
    ensures
      var block := Block(Sealed(name, size, mtime, sum));
      && block[0..|name|] == name && block[156..157] == [ZERO] && block[257..263] == USTAR && block[263..265] == [ZERO, ZERO]
      && block[265..273] == FAMILYFI && block[297..305] == FAMILYFI
  {
    FieldLies(name, size, mtime, sum, 0);
    FieldLies(name, size, mtime, sum, 7);
    FieldLies(name, size, mtime, sum, 8);
    FieldLies(name, size, mtime, sum, 9);
    FieldLies(name, size, mtime, sum, 10);
    FieldLies(name, size, mtime, sum, 11);
  }

  lemma BlanksLie(name: Bytes, size: nat, mtime: nat, sum: nat)
    requires Archivable(name) && size < Power8(11) && mtime < Power8(11) && sum < Power8(6)
    ensures
      var block := Block(Sealed(name, size, mtime, sum));
      && block[|name|..100] == Filled(100 - |name|) && block[157..257] == Filled(100)
      && block[273..297] == Filled(24) && block[305..512] == Filled(207)
  {
    Lengths(size, mtime, sum);
    BlankLies(name, size, mtime, sum, |name|, 100);
    BlankLies(name, size, mtime, sum, 157, 257);
    BlankLies(name, size, mtime, sum, 273, 297);
    BlankLies(name, size, mtime, sum, 305, 512);
  }
}
