/** The Wasm reader of internal/abi/chain.go: unsigned LEB128 and custom sections (sections 5.2.2, 5.5.2 and
    5.5.3 of the WebAssembly Core Specification). Bit operations on bytes are written as div and mod. */
module Wasm {
  import opened Wrappers
  import opened Hex
  import opened Words

  type byte = uint8

  datatype WasmError =
    | Truncated
    | Overflow
    | Exhausted
    | InvalidModule
    | InvalidSectionLength
    | InvalidCustomSectionName
    | NoSuchSection

  const MAX_ULEB_BYTES: nat := 5

  // ---- readULEB -------------------------------------------------------------------

  function Pow128(n: nat): (p: nat)
    ensures p > 0
  {
    if n == 0 then 1 else 128 * Pow128(n - 1)
  }

  /** The value with the low seven bits of its k-th byte or-ed in. */
  function Gathered(value: nat, b: byte, k: nat): nat {
    value + (b % 128) * Pow128(k)
  }

  /** readULEB from its k-th byte on, with the value gathered so far; the shift is 7 * k. The result is the
      value and the position after it. */
  function ReadFrom(data: seq<byte>, position: nat, k: nat, value: nat): Result<(nat, nat), WasmError>
    decreases MAX_ULEB_BYTES - k
  {
    if k >= MAX_ULEB_BYTES then Err(Exhausted)
    else if position >= |data| then Err(Truncated)
    else
      var b := data[position];
      if k == 4 && b / 16 != 0 then Err(Overflow)
      else
        var value' := Gathered(value, b, k);
        if b < 128 then Ok((value', position + 1)) else ReadFrom(data, position + 1, k + 1, value')
  }

  function ReadUleb(data: seq<byte>, position: nat): Result<(nat, nat), WasmError> {
    ReadFrom(data, position, 0, 0)
  }

  method ReadUlebLoop(data: seq<byte>, start: nat) returns (r: Result<(nat, nat), WasmError>)
    ensures r == ReadUleb(data, start)
  {
    hide ReadFrom, Pow128;
    var position: nat, value: nat, k: nat := start, 0, 0;
    while k < MAX_ULEB_BYTES
      invariant k <= MAX_ULEB_BYTES
      invariant ReadFrom(data, position, k, value) == ReadUleb(data, start)
    {
      ReadFromStep(data, position, k, value);
      if position >= |data| {
        return Err(Truncated);
      }
      var b := data[position];
      position := position + 1;
      if k == 4 && b / 16 != 0 {
        return Err(Overflow);
      }
      value := Gathered(value, b, k);
      if b < 128 {
        return Ok((value, position));
      }
      k := k + 1;
    }
    RanOut(data, position, k, value);
    return Err(Exhausted);
  }

  lemma ReadFromStep(data: seq<byte>, position: nat, k: nat, value: nat)
    requires k < MAX_ULEB_BYTES
    ensures ReadFrom(data, position, k, value) ==
            if position >= |data| then Err(Truncated)
            else if k == 4 && data[position] / 16 != 0 then Err(Overflow)
            else if data[position] < 128 then Ok((Gathered(value, data[position], k), position + 1))
            else ReadFrom(data, position + 1, k + 1, Gathered(value, data[position], k))
  {
  }

  lemma RanOut(data: seq<byte>, position: nat, k: nat, value: nat)
    requires k >= MAX_ULEB_BYTES
    ensures ReadFrom(data, position, k, value) == Err(Exhausted)
  {
  }

  // ---- what a LEB128 number is ------------------------------------------------------

  /** The base-128 sum of the low seven bits, least significant first. */
  function Sum(bytes: seq<byte>): nat {
    if bytes == [] then 0 else bytes[0] % 128 + 128 * Sum(bytes[1..])
  }

  /** bytes is an unsigned LEB128 encoding, possibly padded, of a 32-bit v: one to five bytes, all but the
      last with the continuation bit. */
  predicate IsUleb(bytes: seq<byte>, v: nat) {
    && 1 <= |bytes| <= 5
    && (forall i | 0 <= i < |bytes| - 1 :: bytes[i] >= 128)
    && bytes[|bytes| - 1] < 128
    && Sum(bytes) == v < TWO32
  }

  /** The shortest encoding. */
  function Encode(v: nat): (bytes: seq<byte>)
    ensures bytes != []
  {
    if v < 128 then [v] else [128 + v % 128] + Encode(v / 128)
  }

  /** The last bytes of an encoding that starts k bytes in: what ReadFrom accepts. */
  predicate IsTail(bytes: seq<byte>, k: nat) {
    && 1 <= |bytes| <= MAX_ULEB_BYTES - k
    && (forall i | 0 <= i < |bytes| - 1 :: bytes[i] >= 128)
    && bytes[|bytes| - 1] < 128
    && (k + |bytes| == MAX_ULEB_BYTES ==> bytes[|bytes| - 1] < 16)
  }

  lemma {:induction false} ReadFromAccepts(data: seq<byte>, position: nat, k: nat, value: nat, end: nat)
    requires position < end <= |data| && k < MAX_ULEB_BYTES && IsTail(data[position..end], k)
    ensures ReadFrom(data, position, k, value) == Ok((value + Sum(data[position..end]) * Pow128(k), end))
    decreases end - position
  {
    hide ReadFrom, Sum, Pow128, Gathered;
    var bytes := data[position..end];
    var rest := data[position + 1..end];
    assert bytes[0] == data[position] && bytes[1..] == rest;
    ReadFromStep(data, position, k, value);
    SumOf(bytes, value, k);
    if |bytes| > 1 {
      assert forall i | 0 <= i < |rest| :: rest[i] == bytes[i + 1];
      ReadFromAccepts(data, position + 1, k + 1, Gathered(value, data[position], k), end);
    }
  }

  /** The value with all these bytes gathered in: the first one now, the rest later. */
  lemma SumOf(bytes: seq<byte>, value: nat, k: nat)
    requires bytes != []
    ensures |bytes| == 1 ==> value + Sum(bytes) * Pow128(k) == Gathered(value, bytes[0], k)
    ensures value + Sum(bytes) * Pow128(k) == Gathered(value, bytes[0], k) + Sum(bytes[1..]) * Pow128(k + 1)
  {
    var low, high, p := bytes[0] % 128, Sum(bytes[1..]), Pow128(k);
    assert Sum(bytes) == low + 128 * high && Pow128(k + 1) == 128 * p;
    Horner(value, low, high, p);
  }

  lemma Horner(value: int, low: int, high: int, p: int)
    ensures value + low * p + high * (128 * p) == value + (low + 128 * high) * p
  {
  }

  lemma {:induction false} ReadFromIsATail(data: seq<byte>, position: nat, k: nat, value: nat)
    requires k < MAX_ULEB_BYTES && ReadFrom(data, position, k, value).Ok?
    ensures var end := ReadFrom(data, position, k, value).value.1;
            position < end <= |data| && IsTail(data[position..end], k)
    decreases MAX_ULEB_BYTES - k
  {
    var b := data[position];
    if b < 128 {
      assert data[position..position + 1] == [b];
    } else {
      var value' := value + (b % 128) * Pow128(k);
      ReadFromIsATail(data, position + 1, k + 1, value');
      var end := ReadFrom(data, position + 1, k + 1, value').value.1;
      assert data[position..end] == [b] + data[position + 1..end];
    }
  }

  /** Five bytes spell a 32-bit number exactly when the last one has only its low four bits. */
  lemma FiveByteLimit(bytes: seq<byte>)
    requires 1 <= |bytes| <= MAX_ULEB_BYTES && bytes[|bytes| - 1] < 128
    ensures Sum(bytes) < TWO32 <==> (|bytes| == MAX_ULEB_BYTES ==> bytes[|bytes| - 1] < 16)
  {
    hide Sum;
    SumBounds(bytes);
    assert Pow128(4) == 0x1000_0000 && Pow128(3) == 0x20_0000 && Pow128(2) == 0x4000 && Pow128(1) == 128;
  }

  lemma {:induction false} SumBounds(bytes: seq<byte>)
    requires bytes != []
    ensures bytes[|bytes| - 1] % 128 * Pow128(|bytes| - 1) <= Sum(bytes)
    ensures Sum(bytes) < (bytes[|bytes| - 1] % 128 + 1) * Pow128(|bytes| - 1)
  {
    if |bytes| > 1 {
      var rest := bytes[1..];
      SumBounds(rest);
      assert rest[|rest| - 1] == bytes[|bytes| - 1];
      SumStep(bytes[0] % 128, Sum(rest), rest[|rest| - 1] % 128, Pow128(|rest| - 1));
    } else {
      assert bytes[1..] == [];
    }
  }

  lemma SumStep(low: nat, sum: int, d: int, p: int)
    requires low < 128 && d * p <= sum < (d + 1) * p
    ensures d * (128 * p) <= low + 128 * sum < (d + 1) * (128 * p)
  {
    assert d * (128 * p) == 128 * (d * p) && (d + 1) * (128 * p) == 128 * ((d + 1) * p);
  }

  /** readULEB accepts exactly the one to five byte encodings of a value below 2^32 that start at position,
      returns their base-128 sum and stops right behind them. */
  lemma ReadUlebAcceptsExactly(data: seq<byte>, position: nat, v: nat, end: nat)
    ensures ReadUleb(data, position) == Ok((v, end)) <==>
            position < end <= |data| && IsUleb(data[position..end], v)
  {
    hide ReadFrom, Sum, IsTail, IsUleb, Pow128;
    if position < end <= |data| {
      TailsAreUlebs(data[position..end], v);
      if IsTail(data[position..end], 0) {
        ReadFromAccepts(data, position, 0, 0, end);
      }
    }
    if ReadUleb(data, position) == Ok((v, end)) {
      ReadFromIsATail(data, position, 0, 0);
    }
    OneIsNeutral(if position < end <= |data| then Sum(data[position..end]) else 0);
  }

  lemma OneIsNeutral(sum: nat)
    ensures 0 + sum * Pow128(0) == sum
  {
  }

  /** An encoding of its own sum is the tail of one that starts at its first byte. */
  lemma TailsAreUlebs(bytes: seq<byte>, v: nat)
    ensures IsUleb(bytes, v) <==> IsTail(bytes, 0) && Sum(bytes) == v
  {
    hide Sum, Pow128;
    if 1 <= |bytes| <= MAX_ULEB_BYTES && bytes[|bytes| - 1] < 128 {
      FiveByteLimit(bytes);
    }
  }

  /** The return after the loop is never reached: the fifth byte either ends the number or overflows it. */
  lemma {:induction false} LoopNeverRunsOut(data: seq<byte>, position: nat, k: nat, value: nat)
    requires k < MAX_ULEB_BYTES
    ensures ReadFrom(data, position, k, value) != Err(Exhausted)
    decreases MAX_ULEB_BYTES - k
  {
    if position < |data| && data[position] >= 128 && k < 4 {
      LoopNeverRunsOut(data, position + 1, k + 1, value + (data[position] % 128) * Pow128(k));
    }
  }

  lemma {:induction false} EncodeShape(v: nat, width: nat)
    requires v < Pow128(width)
    ensures |Encode(v)| <= if width == 0 then 1 else width
    ensures forall i | 0 <= i < |Encode(v)| - 1 :: Encode(v)[i] >= 128
    ensures Encode(v)[|Encode(v)| - 1] < 128
    ensures Sum(Encode(v)) == v
  {
    var bytes := Encode(v);
    if v < 128 {
      assert bytes[1..] == [];
    } else {
      var rest := Encode(v / 128);
      assert bytes[1..] == rest;
      EncodeShape(v / 128, width - 1);
      assert forall i | 1 <= i < |bytes| :: bytes[i] == rest[i - 1];
    }
  }

  lemma EncodeIsUleb(v: nat)
    requires v < TWO32
    ensures IsUleb(Encode(v), v)
  {
    assert Pow128(5) == 128 * Pow128(4) && Pow128(4) == 0x1000_0000;
    EncodeShape(v, 5);
  }

  /** Reading inverts the canonical encoder, whatever stands before and after. */
  lemma ReadInvertsEncode(before: seq<byte>, v: nat, after: seq<byte>)
    requires v < TWO32
    ensures ReadUleb(before + Encode(v) + after, |before|) == Ok((v, |before| + |Encode(v)|))
  {
    EncodeIsUleb(v);
    ReadAt(before, Encode(v), v, after);
  }

  lemma ReadAt(before: seq<byte>, leb: seq<byte>, v: nat, after: seq<byte>)
    requires IsUleb(leb, v)
    ensures ReadUleb(before + leb + after, |before|) == Ok((v, |before| + |leb|))
  {
    var data := before + leb + after;
    assert data[|before|..|before| + |leb|] == leb;
    ReadUlebAcceptsExactly(data, |before|, v, |before| + |leb|);
  }

  // ---- customSection ------------------------------------------------------------------

  const MAGIC: seq<byte> := [0x00, 0x61, 0x73, 0x6d]

  /** The scan for a custom section, from a position where a section starts. */
  function FindSection(wasm: seq<byte>, position: nat, wanted: seq<byte>): Result<seq<byte>, WasmError>
    requires position <= |wasm|
    decreases |wasm| - position
  {
    if position == |wasm| then Err(NoSuchSection)
    else
      match SectionEnd(wasm, position)
      case Err(e) => Err(e)
      case Ok((start, end)) =>
        if wasm[position] != 0 then FindSection(wasm, end, wanted)
        else
          match SectionName(wasm, start, end)
          case Err(e) => Err(e)
          case Ok((nameStart, nameEnd)) =>
            if wasm[nameStart..nameEnd] == wanted then Ok(wasm[nameEnd..end])
            else FindSection(wasm, end, wanted)
  }

  /** Where the payload of the section at position starts and ends. */
  function SectionEnd(wasm: seq<byte>, position: nat): (r: Result<(nat, nat), WasmError>)
    requires position < |wasm|
    ensures r.Ok? ==> position < r.value.0 <= r.value.1 <= |wasm|
  {
    match ReadUleb(wasm, position + 1)
    case Err(_) => Err(InvalidSectionLength)
    case Ok((size, start)) =>
      ReadUlebAcceptsExactly(wasm, position + 1, size, start);
      if size > |wasm| - start then Err(InvalidSectionLength) else Ok((start, start + size))
  }

  /** Where the name of the custom section whose payload is wasm[start..end] starts and ends. */
  function SectionName(wasm: seq<byte>, start: nat, end: nat): (r: Result<(nat, nat), WasmError>)
    requires start <= end <= |wasm|
    ensures r.Ok? ==> start < r.value.0 <= r.value.1 <= end
  {
    match ReadUleb(wasm[..end], start)
    case Err(_) => Err(InvalidCustomSectionName)
    case Ok((length, nameStart)) =>
      ReadUlebAcceptsExactly(wasm[..end], start, length, nameStart);
      if length > end - nameStart then Err(InvalidCustomSectionName) else Ok((nameStart, nameStart + length))
  }

  function CustomSection(wasm: seq<byte>, wanted: seq<byte>): Result<seq<byte>, WasmError> {
    if |wasm| < 8 || wasm[..4] != MAGIC then Err(InvalidModule) else FindSection(wasm, 8, wanted)
  }

  /** customSection as written: one moving position. On any bytes it stays within bounds, and it moves
      forward with every section until it returns. */
  method CustomSectionLoop(wasm: seq<byte>, wanted: seq<byte>) returns (r: Result<seq<byte>, WasmError>)
    ensures r == CustomSection(wasm, wanted)
  {
    hide FindSection, ReadUleb, IsUleb;
    if |wasm| < 8 || wasm[..4] != MAGIC {
      return Err(InvalidModule);
    }
    var position := 8;
    while position < |wasm|
      invariant 8 <= position <= |wasm|
      invariant FindSection(wasm, position, wanted) == CustomSection(wasm, wanted)
      decreases |wasm| - position
    {
      FindOne(wasm, position, wanted);
      var sectionStart := position;
      var sectionId := wasm[position];
      position := position + 1;
      var size := ReadUlebLoop(wasm, position);
      if size.Err? {
        return Err(InvalidSectionLength);
      }
      ReadUlebAcceptsExactly(wasm, position, size.value.0, size.value.1);
      position := size.value.1;
      if size.value.0 > |wasm| - position {
        return Err(InvalidSectionLength);
      }
      var sectionEnd := position + size.value.0;
      assert SectionEnd(wasm, sectionStart) == Ok((position, sectionEnd));
      if sectionId == 0 {
        var nameLength := ReadUlebLoop(wasm[..sectionEnd], position);
        if nameLength.Err? {
          return Err(InvalidCustomSectionName);
        }
        ReadUlebAcceptsExactly(wasm[..sectionEnd], position, nameLength.value.0, nameLength.value.1);
        position := nameLength.value.1;
        if nameLength.value.0 > sectionEnd - position {
          return Err(InvalidCustomSectionName);
        }
        var nameEnd := position + nameLength.value.0;
        var name := wasm[position..nameEnd];
        position := nameEnd;
        if name == wanted {
          return Ok(wasm[position..sectionEnd]);
        }
      }
      position := sectionEnd;
    }
    FindNone(wasm, wanted);
    return Err(NoSuchSection);
  }

  /** One turn of the scan. */
  lemma FindOne(wasm: seq<byte>, position: nat, wanted: seq<byte>)
    requires position < |wasm|
    ensures SectionEnd(wasm, position).Err? ==>
              FindSection(wasm, position, wanted) == Err(SectionEnd(wasm, position).error)
    ensures SectionEnd(wasm, position).Ok? && wasm[position] != 0 ==>
              FindSection(wasm, position, wanted) == FindSection(wasm, SectionEnd(wasm, position).value.1, wanted)
    ensures SectionEnd(wasm, position).Ok? && wasm[position] == 0 ==>
              var (start, end) := SectionEnd(wasm, position).value;
              var name := SectionName(wasm, start, end);
              FindSection(wasm, position, wanted) ==
              if name.Err? then Err(name.error)
              else if wasm[name.value.0..name.value.1] == wanted then Ok(wasm[name.value.1..end])
              else FindSection(wasm, end, wanted)
  {
    hide SectionEnd, SectionName;
  }

  lemma FindNone(wasm: seq<byte>, wanted: seq<byte>)
    ensures FindSection(wasm, |wasm|, wanted) == Err(NoSuchSection)
  {
  }

  // ---- printing a module and reading it back ---------------------------------------------

  /** A section as it may be written: its lengths in any LEB128 form the reader accepts. */
  datatype Section =
    | Custom(sizeLeb: seq<byte>, nameLeb: seq<byte>, name: seq<byte>, content: seq<byte>)
    | Plain(id: byte, sizeLeb: seq<byte>, payload: seq<byte>)
  {
    predicate WellFormed() {
      match this
      case Custom(sizeLeb, nameLeb, name, content) => IsUleb(nameLeb, |name|) && IsUleb(sizeLeb, |Payload()|)
      case Plain(id, sizeLeb, payload) => id != 0 && IsUleb(sizeLeb, |payload|)
    }

    function Payload(): seq<byte> {
      if Custom? then nameLeb + name + content else payload
    }

    function Print(): seq<byte> {
      [if Custom? then 0 else id] + sizeLeb + Payload()
    }
  }

  function PrintAll(sections: seq<Section>): seq<byte> {
    if sections == [] then [] else sections[0].Print() + PrintAll(sections[1..])
  }

  predicate AllWellFormed(sections: seq<Section>) {
    forall i | 0 <= i < |sections| :: sections[i].WellFormed()
  }

  /** The contents of the first custom section with the wanted name. */
  function FirstNamed(sections: seq<Section>, wanted: seq<byte>): Result<seq<byte>, WasmError> {
    if sections == [] then Err(NoSuchSection)
    else if sections[0].Custom? && sections[0].name == wanted then Ok(sections[0].content)
    else FirstNamed(sections[1..], wanted)
  }

  /** A printed section is found again at its place, with its name and content. */
  lemma SectionReadsBack(before: seq<byte>, s: Section, after: seq<byte>)
    requires s.WellFormed()
    ensures var wasm := before + s.Print() + after;
            var start, end := |before| + 1 + |s.sizeLeb|, |before| + |s.Print()|;
            && wasm[|before|] == (if s.Custom? then 0 else s.id)
            && SectionEnd(wasm, |before|) == Ok((start, end))
            && wasm[start..end] == s.Payload()
  {
    hide ReadUleb, IsUleb, Sum;
    var id := [if s.Custom? then 0 else s.id];
    assert s.Print() == id + s.sizeLeb + s.Payload();
    SectionSlices(before, id, s.sizeLeb, s.Payload(), after);
    ReadAt(before + id, s.sizeLeb, |s.Payload()|, s.Payload() + after);
  }

  lemma Assoc(x: seq<byte>, y: seq<byte>, z: seq<byte>)
    ensures x + y + z == x + (y + z)
  {
  }

  /** Where the parts of a printed section stand. */
  lemma SectionSlices(before: seq<byte>, id: seq<byte>, leb: seq<byte>, payload: seq<byte>, after: seq<byte>)
    requires |id| == 1
    ensures var wasm := before + (id + leb + payload) + after;
            var start := |before| + 1 + |leb|;
            && wasm == (before + id) + leb + (payload + after)
            && wasm[|before|] == id[0]
            && wasm[start..start + |payload|] == payload
  {
    Assoc(before, id + leb, payload);
    Assoc(before, id, leb);
    Assoc(before + id + leb, payload, after);
    Parts(before + id + leb, payload, after, []);
    assert before + id + leb + payload + after + [] == before + id + leb + payload + after;
  }

  lemma NameReadsBack(before: seq<byte>, s: Section, after: seq<byte>)
    requires s.WellFormed() && s.Custom?
    ensures var wasm := before + s.Print() + after;
            var start, end := |before| + 1 + |s.sizeLeb|, |before| + |s.Print()|;
            var nameStart, nameEnd := start + |s.nameLeb|, start + |s.nameLeb| + |s.name|;
            && SectionName(wasm, start, end) == Ok((nameStart, nameEnd))
            && wasm[nameStart..nameEnd] == s.name
            && wasm[nameEnd..end] == s.content
  {
    hide ReadUleb, IsUleb, Sum, Section.Print;
    var front := before + [0] + s.sizeLeb;
    NameSlices(before, s, after);
    ReadAt(front, s.nameLeb, |s.name|, s.name + s.content);
  }

  /** Where the parts of a printed custom section stand. */
  lemma NameSlices(before: seq<byte>, s: Section, after: seq<byte>)
    requires s.Custom?
    ensures var wasm := before + s.Print() + after;
            var start, end := |before| + 1 + |s.sizeLeb|, |before| + |s.Print()|;
            var nameStart, nameEnd := start + |s.nameLeb|, start + |s.nameLeb| + |s.name|;
            && nameEnd <= end == nameEnd + |s.content| <= |wasm|
            && wasm[..end] == before + [0] + s.sizeLeb + s.nameLeb + (s.name + s.content)
            && wasm[nameStart..nameEnd] == s.name
            && wasm[nameEnd..end] == s.content
  {
    var f := before + [0] + s.sizeLeb;
    Assoc(before, [0], s.sizeLeb);
    Assoc(before, [0] + s.sizeLeb, s.Payload());
    Assoc(f, s.nameLeb + s.name, s.content);
    Assoc(f, s.nameLeb, s.name);
    Parts(f + s.nameLeb, s.name, s.content, after);
  }

  lemma Parts(front: seq<byte>, x: seq<byte>, y: seq<byte>, after: seq<byte>)
    ensures var w := front + x + y + after;
            && w[|front|..|front| + |x|] == x
            && w[|front| + |x|..|front| + |x| + |y|] == y
            && w[..|front| + |x| + |y|] == front + (x + y)
  {
  }

  lemma FindStep(before: seq<byte>, s: Section, after: seq<byte>, wanted: seq<byte>)
    requires s.WellFormed()
    ensures var wasm := before + s.Print() + after;
            FindSection(wasm, |before|, wanted) ==
            if s.Custom? && s.name == wanted then Ok(s.content)
            else FindSection(wasm, |before + s.Print()|, wanted)
  {
    hide SectionEnd, SectionName, Section.WellFormed, Section.Payload;
    SectionReadsBack(before, s, after);
    if s.Custom? {
      NameReadsBack(before, s, after);
    } else {
      PlainIdIsNotZero(s);
    }
  }

  lemma PlainIdIsNotZero(s: Section)
    requires s.WellFormed() && s.Plain?
    ensures s.id != 0
  {
  }

  /** Reading past printed sections, whatever bytes follow: the first of the wanted name, or on behind them. */
  lemma {:induction false} FindPast(before: seq<byte>, sections: seq<Section>, after: seq<byte>, wanted: seq<byte>)
    requires AllWellFormed(sections)
    ensures var wasm := before + PrintAll(sections) + after;
            FindSection(wasm, |before|, wanted) ==
            if FirstNamed(sections, wanted).Ok? then FirstNamed(sections, wanted)
            else FindSection(wasm, |before + PrintAll(sections)|, wanted)
    decreases |sections|
  {
    hide FindSection, Section.WellFormed, Section.Print;
    if sections == [] {
      assert before + [] == before;
    } else {
      var s, rest := sections[0], PrintAll(sections[1..]);
      Assoc(before, s.Print(), rest);
      Assoc(before + s.Print(), rest, after);
      FindStep(before, s, rest + after, wanted);
      FindPast(before + s.Print(), sections[1..], after, wanted);
    }
  }

  lemma FindInPrinted(before: seq<byte>, sections: seq<Section>, wanted: seq<byte>)
    requires AllWellFormed(sections)
    ensures FindSection(before + PrintAll(sections), |before|, wanted) == FirstNamed(sections, wanted)
  {
    hide FindSection, PrintAll;
    var wasm := before + PrintAll(sections);
    assert wasm + [] == wasm;
    FindPast(before, sections, [], wanted);
    FindNone(wasm, wanted);
    FirstNamedErrors(sections, wanted);
  }

  lemma {:induction false} FirstNamedErrors(sections: seq<Section>, wanted: seq<byte>)
    ensures FirstNamed(sections, wanted).Err? ==> FirstNamed(sections, wanted) == Err(NoSuchSection)
  {
    if sections != [] {
      FirstNamedErrors(sections[1..], wanted);
    }
  }

  /** Printing then parsing: a header and any well-formed sections yield the payload of the first custom
      section with the wanted name, or fail when there is none. */
  lemma PrintedModulesParse(header: seq<byte>, sections: seq<Section>, wanted: seq<byte>)
    requires |header| == 8 && header[..4] == MAGIC && AllWellFormed(sections)
    ensures CustomSection(header + PrintAll(sections), wanted) == FirstNamed(sections, wanted)
  {
    assert (header + PrintAll(sections))[..4] == header[..4];
    FindInPrinted(header, sections, wanted);
  }

  // ---- and conversely ----------------------------------------------------------------------

  /** The section at position, cut out of the bytes it was read from. */
  lemma ReadSectionPrints(wasm: seq<byte>, position: nat) returns (s: Section)
    requires position < |wasm| && SectionEnd(wasm, position).Ok?
    requires wasm[position] == 0 ==>
               SectionName(wasm, SectionEnd(wasm, position).value.0, SectionEnd(wasm, position).value.1).Ok?
    ensures var (start, end) := SectionEnd(wasm, position).value;
            && s.WellFormed() && s.Print() == wasm[position..end]
            && (s.Custom? <==> wasm[position] == 0)
            && (s.Custom? ==> var (nameStart, nameEnd) := SectionName(wasm, start, end).value;
                              s.name == wasm[nameStart..nameEnd] && s.content == wasm[nameEnd..end])
  {
    hide ReadFrom, IsUleb, Sum;
    var (start, end) := SectionEnd(wasm, position).value;
    var sizeLeb := wasm[position + 1..start];
    ReadUlebAcceptsExactly(wasm, position + 1, end - start, start);
    assert wasm[position..end] == [wasm[position]] + sizeLeb + wasm[start..end];
    if wasm[position] == 0 {
      var (nameStart, nameEnd) := SectionName(wasm, start, end).value;
      ReadUlebAcceptsExactly(wasm[..end], start, nameEnd - nameStart, nameStart);
      assert wasm[..end][start..nameStart] == wasm[start..nameStart];
      s := Custom(sizeLeb, wasm[start..nameStart], wasm[nameStart..nameEnd], wasm[nameEnd..end]);
      assert s.Payload() == wasm[start..end];
    } else {
      s := Plain(wasm[position], sizeLeb, wasm[start..end]);
    }
  }

  /** Whatever bytes the reader accepts begin with well-formed sections, the last of which is the first
      custom section with the wanted name, and the result is its content. */
  lemma {:induction false} FoundSectionsArePrinted(wasm: seq<byte>, position: nat, wanted: seq<byte>)
      returns (sections: seq<Section>, after: seq<byte>)
    requires position <= |wasm| && FindSection(wasm, position, wanted).Ok?
    ensures AllWellFormed(sections) && wasm[position..] == PrintAll(sections) + after
    ensures FirstNamed(sections, wanted) == FindSection(wasm, position, wanted)
    decreases |wasm| - position
  {
    hide SectionEnd, SectionName, Section.WellFormed, Section.Print;
    var s := ReadSectionPrints(wasm, position);
    var (start, end) := SectionEnd(wasm, position).value;
    if s.Custom? && s.name == wanted {
      sections, after := [s], wasm[end..];
      assert PrintAll([s]) == s.Print() + [];
      assert wasm[position..] == wasm[position..end] + wasm[end..];
    } else {
      var rest, after' := FoundSectionsArePrinted(wasm, end, wanted);
      sections, after := [s] + rest, after';
      assert sections[1..] == rest;
      assert wasm[position..] == wasm[position..end] + wasm[end..];
    }
  }

  /** And when the reader finds no section of the wanted name, the bytes are well-formed sections to their end. */
  lemma {:induction false} LackingSectionsArePrinted(wasm: seq<byte>, position: nat, wanted: seq<byte>)
      returns (sections: seq<Section>)
    requires position <= |wasm| && FindSection(wasm, position, wanted) == Err(NoSuchSection)
    ensures AllWellFormed(sections) && wasm[position..] == PrintAll(sections)
    ensures FirstNamed(sections, wanted) == Err(NoSuchSection)
    decreases |wasm| - position
  {
    hide SectionEnd, SectionName, Section.WellFormed, Section.Print;
    if position == |wasm| {
      sections := [];
    } else {
      ErrorKinds(wasm, position);
      var s := ReadSectionPrints(wasm, position);
      var end := SectionEnd(wasm, position).value.1;
      var rest := LackingSectionsArePrinted(wasm, end, wanted);
      sections := [s] + rest;
      assert sections[1..] == rest;
      assert wasm[position..] == wasm[position..end] + wasm[end..];
    }
  }

  /** A section that cannot be read is never reported as missing. */
  lemma ErrorKinds(wasm: seq<byte>, position: nat)
    requires position < |wasm|
    ensures SectionEnd(wasm, position).Err? ==> SectionEnd(wasm, position).error == InvalidSectionLength
    ensures SectionEnd(wasm, position).Ok? ==>
              var (start, end) := SectionEnd(wasm, position).value;
              SectionName(wasm, start, end).Err? ==> SectionName(wasm, start, end).error == InvalidCustomSectionName
  {
    hide ReadUleb;
  }

  /** The bytes begin with well-formed sections, of which the first of the wanted name has this content. */
  ghost predicate Shows(bytes: seq<byte>, wanted: seq<byte>, content: seq<byte>) {
    exists sections, after ::
      && AllWellFormed(sections) && bytes == PrintAll(sections) + after
      && FirstNamed(sections, wanted) == Ok(content)
  }

  /** The bytes are well-formed sections, none of the wanted name. */
  ghost predicate Lacks(bytes: seq<byte>, wanted: seq<byte>) {
    exists sections ::
      && AllWellFormed(sections) && bytes == PrintAll(sections)
      && FirstNamed(sections, wanted) == Err(NoSuchSection)
  }

  /** On any bytes: customSection succeeds exactly when those behind the header show the section, whatever follows
      it, and reports it missing exactly when they are sections to the end and lack it. */
  lemma CustomSectionExactly(wasm: seq<byte>, wanted: seq<byte>, content: seq<byte>)
    ensures CustomSection(wasm, wanted) == Err(InvalidModule) <==> |wasm| < 8 || wasm[..4] != [0x00, 0x61, 0x73, 0x6d]
    ensures CustomSection(wasm, wanted) == Ok(content) <==>
            |wasm| >= 8 && wasm[..4] == MAGIC && Shows(wasm[8..], wanted, content)
    ensures CustomSection(wasm, wanted) == Err(NoSuchSection) <==>
            |wasm| >= 8 && wasm[..4] == MAGIC && Lacks(wasm[8..], wanted)
  {
    hide FindSection, PrintAll, FirstNamed, AllWellFormed;
    if |wasm| >= 8 && wasm[..4] == MAGIC {
      ModulesAreReadable(wasm, 8, wanted);
      if FindSection(wasm, 8, wanted) == Ok(content) {
        var sections, after := FoundSectionsArePrinted(wasm, 8, wanted);
      }
      if FindSection(wasm, 8, wanted) == Err(NoSuchSection) {
        var sections := LackingSectionsArePrinted(wasm, 8, wanted);
      }
      assert wasm == wasm[..8] + wasm[8..];
      forall sections, after | AllWellFormed(sections) && wasm[8..] == PrintAll(sections) + after
        ensures FirstNamed(sections, wanted).Ok? ==> FindSection(wasm, 8, wanted) == FirstNamed(sections, wanted)
      {
        Assoc(wasm[..8], PrintAll(sections), after);
        FindPast(wasm[..8], sections, after, wanted);
      }
      forall sections | AllWellFormed(sections) && wasm[8..] == PrintAll(sections)
        ensures FindSection(wasm, 8, wanted) == FirstNamed(sections, wanted)
      {
        FindInPrinted(wasm[..8], sections, wanted);
      }
    }
  }

  lemma {:induction false} ModulesAreReadable(wasm: seq<byte>, position: nat, wanted: seq<byte>)
    requires position <= |wasm|
    ensures FindSection(wasm, position, wanted) != Err(InvalidModule)
    decreases |wasm| - position
  {
    hide SectionEnd, SectionName;
    if position < |wasm| {
      ErrorKinds(wasm, position);
      if SectionEnd(wasm, position).Ok? {
        ModulesAreReadable(wasm, SectionEnd(wasm, position).value.1, wanted);
      }
    }
  }
}
