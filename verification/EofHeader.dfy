/** The EOF1 container header: the checking parser `validate_eof_headers`, the type section check
    `validate_types` and the unchecked reader `read_valid_eof1_header` (eof.cpp). */
module EofHeader {
  import opened Bytes
  import opened EofCode
  import opened EofStack

  const TERMINATOR: byte := 0
  const TYPE_SECTION: byte := 1
  const CODE_SECTION: byte := 2
  const DATA_SECTION: byte := 3
  const CODE_SECTION_NUMBER_LIMIT := 1024

  /** The section sizes a header declares. */
  datatype SectionHeaders = SectionHeaders(typeSize: nat, codeSizes: seq<nat>, dataSize: nat)

  /** `EOF1Header`. */
  datatype Header = Header(version: byte, codeSizes: seq<nat>, codeOffsets: seq<nat>, dataSize: nat,
                           types: seq<CodeType>)

  function Sum(s: seq<nat>): nat {
    if s == [] then 0 else s[0] + Sum(s[1..])
  }

  lemma {:induction false} SumAppend(s: seq<nat>, t: seq<nat>)
    ensures Sum(s + t) == Sum(s) + Sum(t)
  {
    if s == [] {
      assert s + t == t;
    } else {
      assert (s + t)[1..] == s[1..] + t;
      SumAppend(s[1..], t);
    }
  }

  /** `eof_header_size` for `n` code sections. */
  function HeaderSize(n: nat): nat {
    2 + 1 + 2 * 3 + 1 + 2 + n * 2 + 1
  }

  // ----- The format -----

  /** Sizes the format can express. */
  predicate Encodable(h: SectionHeaders) {
    && 0 < h.typeSize < U16_LIMIT && h.dataSize < U16_LIMIT
    && 1 <= |h.codeSizes| <= CODE_SECTION_NUMBER_LIMIT
    && forall i :: 0 <= i < |h.codeSizes| ==> 0 < h.codeSizes[i] < U16_LIMIT
  }

  function EncodeSizes(sizes: seq<nat>): (b: Code)
    requires forall i :: 0 <= i < |sizes| ==> sizes[i] < U16_LIMIT
    ensures |b| == 2 * |sizes|
    ensures forall i :: 0 <= i < |sizes| ==> U16(b, 2 * i) == sizes[i]
  {
    if sizes == [] then [] else
      var rest := EncodeSizes(sizes[1..]);
      var b := Be16(sizes[0]) + rest;
      assert forall i :: 1 <= i < |sizes| ==> U16(b, 2 * i) == U16(rest, 2 * (i - 1));
      b
  }

  /** The section headers as they appear after the magic and the version. */
  function Encode(h: SectionHeaders): (b: Code)
    requires Encodable(h)
    ensures |b| == HeaderSize(|h.codeSizes|) - 3
  {
    [TYPE_SECTION] + Be16(h.typeSize)
    + [CODE_SECTION] + Be16(|h.codeSizes|) + EncodeSizes(h.codeSizes)
    + [DATA_SECTION] + Be16(h.dataSize)
    + [TERMINATOR]
  }

  /** A container: magic and version, the encoded headers, then bodies of exactly the declared sizes,
      the type section having four bytes per code section. */
  ghost predicate Layout(c: Code, h: SectionHeaders) {
    && Encodable(h)
    && |c| == HeaderSize(|h.codeSizes|) + h.typeSize + Sum(h.codeSizes) + h.dataSize
    && c[3..HeaderSize(|h.codeSizes|)] == Encode(h)
    && h.typeSize == 4 * |h.codeSizes|
  }

  // ----- Reading by position -----

  /** The error of the first bad code section size, reading from entry `i` of `num`. */
  function SizesError(c: Code, i: nat, num: nat): Error
    decreases num - i
  {
    if i >= num then Success
    else if 9 + 2 * i + 1 >= |c| then IncompleteSectionSize
    else if U16(c, 9 + 2 * i) == 0 then ZeroSectionSize
    else SizesError(c, i + 1, num)
  }

  function SizesAt(c: Code, num: nat): (s: seq<nat>)
    requires 9 + 2 * num <= |c|
    ensures |s| == num
  {
    seq(num, i requires 0 <= i < num => U16(c, 9 + 2 * i))
  }

  /** The verdict on the fixed part of the headers, which ends before the first code section size. */
  function FrontError(c: Code): Error
    requires |c| >= 3
  {
    if |c| == 3 then SectionHeadersNotTerminated
    else if c[3] != TYPE_SECTION then TypeSectionMissing
    else if |c| == 4 then SectionHeadersNotTerminated
    else if |c| == 5 then IncompleteSectionSize
    else if U16(c, 4) == 0 then ZeroSectionSize
    else if |c| == 6 then SectionHeadersNotTerminated
    else if c[6] != CODE_SECTION then CodeSectionMissing
    else if |c| <= 8 then IncompleteSectionNumber
    else if U16(c, 7) == 0 then ZeroSectionSize
    else if U16(c, 7) > CODE_SECTION_NUMBER_LIMIT then TooManyCodeSections
    else if |c| == 9 then SectionHeadersNotTerminated
    else SizesError(c, 0, U16(c, 7))
  }

  /** The verdict on the data section header, at offset `p`, and the terminator. */
  function BackError(c: Code, p: nat): Error
    requires p <= |c|
  {
    if |c| == p then SectionHeadersNotTerminated
    else if c[p] != DATA_SECTION then DataSectionMissing
    else if |c| == p + 1 then SectionHeadersNotTerminated
    else if |c| == p + 2 then IncompleteSectionSize
    else if |c| == p + 3 then SectionHeadersNotTerminated
    else if c[p + 3] != TERMINATOR then HeaderTerminatorMissing
    else Success
  }

  lemma {:induction false} SizesInRange(c: Code, i: nat, num: nat)
    requires SizesError(c, i, num) == Success && i <= num && 9 + 2 * i <= |c|
    ensures 9 + 2 * num <= |c|
    ensures forall k :: i <= k < num ==> U16(c, 9 + 2 * k) > 0
    decreases num - i
  {
    if i < num {
      SizesInRange(c, i + 1, num);
    }
  }

  lemma {:induction false} SizesInRangeConverse(c: Code, i: nat, num: nat)
    requires i <= num && 9 + 2 * num <= |c|
    requires forall k :: i <= k < num ==> U16(c, 9 + 2 * k) > 0
    ensures SizesError(c, i, num) == Success
    decreases num - i
  {
    if i < num {
      SizesInRangeConverse(c, i + 1, num);
    }
  }

  /** What the checking parser answers, read off the container at fixed offsets. */
  function HeaderVerdict(c: Code): Result<SectionHeaders>
    requires |c| >= 3
  {
    if FrontError(c) != Success then Err(FrontError(c)) else
      var num := U16(c, 7);
      var p := (SizesInRange(c, 0, num); 9 + 2 * num);
      if BackError(c, p) != Success then Err(BackError(c, p)) else
        var h := SectionHeaders(U16(c, 4), SizesAt(c, num), U16(c, p + 1));
        if h.typeSize + Sum(h.codeSizes) + h.dataSize != |c| - (p + 4) then Err(InvalidSectionBodiesSize)
        else if h.typeSize != num * 4 then Err(InvalidTypeSectionSize)
        else Ok(h)
  }

  /** The headers `h` can be read at their places in `c`. */
  predicate AtPositions(c: Code, h: SectionHeaders)
    requires HeaderSize(|h.codeSizes|) <= |c|
  {
    var p := 9 + 2 * |h.codeSizes|;
    && c[3] == TYPE_SECTION && U16(c, 4) == h.typeSize
    && c[6] == CODE_SECTION && U16(c, 7) == |h.codeSizes|
    && SizesAt(c, |h.codeSizes|) == h.codeSizes
    && c[p] == DATA_SECTION && U16(c, p + 1) == h.dataSize && c[p + 3] == TERMINATOR
  }

  /** The encoding, cut at its field boundaries. */
  lemma EncodeFields(h: SectionHeaders)
    requires Encodable(h)
    ensures var n, e := |h.codeSizes|, Encode(h);
            && e[0] == TYPE_SECTION && e[1..3] == Be16(h.typeSize) && e[3] == CODE_SECTION && e[4..6] == Be16(n)
            && e[6..6 + 2 * n] == EncodeSizes(h.codeSizes) && e[6 + 2 * n] == DATA_SECTION
            && e[7 + 2 * n..9 + 2 * n] == Be16(h.dataSize) && e[9 + 2 * n] == TERMINATOR
  {
  }

  lemma CutSlice(c: Code, a: nat, b: nat, e: nat)
    requires a <= b <= e <= |c|
    ensures c[a..e] == c[a..b] + c[b..e]
  {
  }

  lemma {:induction false} SizesToEncoding(c: Code, p: nat, sizes: seq<nat>)
    requires p + 2 * |sizes| <= |c|
    requires forall i :: 0 <= i < |sizes| ==> U16(c, p + 2 * i) == sizes[i] && sizes[i] < U16_LIMIT
    ensures c[p..p + 2 * |sizes|] == EncodeSizes(sizes)
    decreases |sizes|
  {
    if sizes != [] {
      U16Bytes(c, p);
      assert U16(c, p + 2 * 0) == sizes[0];
      forall i | 0 <= i < |sizes| - 1
        ensures U16(c, p + 2 + 2 * i) == sizes[1..][i]
      {
        assert U16(c, p + 2 * (i + 1)) == sizes[i + 1];
      }
      SizesToEncoding(c, p + 2, sizes[1..]);
      CutSlice(c, p, p + 2, p + 2 * |sizes|);
    }
  }

  /** The parts of the section headers. */
  lemma HeaderParts(c: Code, p: nat)
    requires 9 <= p && p + 4 <= |c|
    ensures c[3..p + 4] == [c[3]] + c[4..6] + [c[6]] + c[7..9] + c[9..p] + [c[p]] + c[p + 1..p + 3] + [c[p + 3]]
  {
  }

  lemma SizePositions(c: Code, h: SectionHeaders)
    requires Encodable(h) && HeaderSize(|h.codeSizes|) <= |c| && AtPositions(c, h)
    ensures c[9..9 + 2 * |h.codeSizes|] == EncodeSizes(h.codeSizes)
  {
    hide EncodeSizes;
    assert forall i :: 0 <= i < |h.codeSizes| ==> U16(c, 9 + 2 * i) == SizesAt(c, |h.codeSizes|)[i];
    SizesToEncoding(c, 9, h.codeSizes);
  }

  lemma PositionsToEncoding(c: Code, h: SectionHeaders)
    requires Encodable(h) && HeaderSize(|h.codeSizes|) <= |c| && AtPositions(c, h)
    ensures c[3..HeaderSize(|h.codeSizes|)] == Encode(h)
  {
    hide SizesAt, EncodeSizes, Be16, U16;
    var p := 9 + 2 * |h.codeSizes|;
    SizePositions(c, h);
    U16Bytes(c, 4);
    U16Bytes(c, 7);
    U16Bytes(c, p + 1);
    HeaderParts(c, p);
  }

  lemma SizesFromEncoding(c: Code, h: SectionHeaders)
    requires Encodable(h) && HeaderSize(|h.codeSizes|) <= |c|
    requires c[3..HeaderSize(|h.codeSizes|)] == Encode(h)
    ensures SizesAt(c, |h.codeSizes|) == h.codeSizes
  {
    EncodeFields(h);
    hide Encode;
    var e, s := Encode(h), EncodeSizes(h.codeSizes);
    forall i | 0 <= i < |h.codeSizes|
      ensures SizesAt(c, |h.codeSizes|)[i] == h.codeSizes[i]
    {
      assert s[2 * i] == e[6 + 2 * i] == c[9 + 2 * i] && s[2 * i + 1] == e[6 + 2 * i + 1] == c[9 + 2 * i + 1];
      assert U16(c, 9 + 2 * i) == U16(s, 2 * i);
    }
  }

  lemma EncodingToPositions(c: Code, h: SectionHeaders)
    requires Encodable(h) && HeaderSize(|h.codeSizes|) <= |c|
    requires c[3..HeaderSize(|h.codeSizes|)] == Encode(h)
    ensures AtPositions(c, h)
  {
    EncodeFields(h);
    hide Encode, SizesAt;
    SizesFromEncoding(c, h);
    var n := |h.codeSizes|;
    var p := 9 + 2 * n;
    var e := Encode(h);
    assert forall k :: 0 <= k < p + 1 ==> c[3 + k] == e[k];
    assert c[4..6] == e[1..3] && c[7..9] == e[4..6] && c[p + 1..p + 3] == e[7 + 2 * n..9 + 2 * n];
    assert U16(c, 4) == U16(c[4..6], 0) && U16(c, 7) == U16(c[7..9], 0) && U16(c, p + 1) == U16(c[p + 1..p + 3], 0);
  }

  lemma VerdictToLayout(c: Code, h: SectionHeaders)
    requires |c| >= 3 && HeaderVerdict(c) == Ok(h)
    ensures Layout(c, h)
  {
    hide Encode;
    SizesInRange(c, 0, U16(c, 7));
    PositionsToEncoding(c, h);
  }

  lemma LayoutToVerdict(c: Code, h: SectionHeaders)
    requires |c| >= 3 && Layout(c, h)
    ensures HeaderVerdict(c) == Ok(h)
  {
    EncodingToPositions(c, h);
    hide Encode;
    var n := |h.codeSizes|;
    forall k | 0 <= k < n
      ensures U16(c, 9 + 2 * k) > 0
    {
      assert SizesAt(c, n)[k] == h.codeSizes[k];
    }
    SizesInRangeConverse(c, 0, n);
  }

  /** The parser accepts exactly the containers laid out as the format says, and returns their headers. */
  lemma VerdictIsLayout(c: Code, h: SectionHeaders)
    requires |c| >= 3
    ensures HeaderVerdict(c) == Ok(h) <==> Layout(c, h)
  {
    if HeaderVerdict(c) == Ok(h) {
      VerdictToLayout(c, h);
    }
    if Layout(c, h) {
      LayoutToVerdict(c, h);
    }
  }

  /** Round trip: what the encoder writes, the parser reads back. */
  lemma ParseEncoded(front: Code, h: SectionHeaders, bodies: Code)
    requires |front| == 3 && Encodable(h) && h.typeSize == 4 * |h.codeSizes|
    requires |bodies| == h.typeSize + Sum(h.codeSizes) + h.dataSize
    ensures HeaderVerdict(front + Encode(h) + bodies) == Ok(h)
  {
    var c := front + Encode(h) + bodies;
    assert c[3..HeaderSize(|h.codeSizes|)] == Encode(h);
    VerdictIsLayout(c, h);
  }

  // ----- validate_eof_headers -----

  datatype State = SectionId | SectionSize | Terminated

  /** The parser's variables, and what they stand for after `phase` header fields have been read. */
  datatype Cursor = Cursor(state: State, sectionId: byte, sectionNum: nat, expected: byte, it: nat,
                           typeSizes: seq<nat>, codeSizes: seq<nat>, dataSizes: seq<nat>)

  ghost predicate Read(c: Code, u: Cursor, phase: nat)
    requires |c| >= 3
  {
    var num := u.sectionNum;
    && u.it <= |c|
    && (phase == 0 ==> u == Cursor(SectionId, u.sectionId, num, TYPE_SECTION, 3, [], [], []))
    && (phase >= 1 ==> |c| >= 4 && c[3] == TYPE_SECTION)
    && (phase == 1 ==> u == Cursor(SectionSize, TYPE_SECTION, num, CODE_SECTION, 4, [], [], []))
    && (phase >= 2 ==> |c| >= 6 && U16(c, 4) > 0 && u.typeSizes == [U16(c, 4)])
    && (phase == 2 ==> u == Cursor(SectionId, u.sectionId, num, CODE_SECTION, 6, u.typeSizes, [], []))
    && (phase >= 3 ==> |c| >= 9 && c[6] == CODE_SECTION && num == U16(c, 7) && 0 < num <= CODE_SECTION_NUMBER_LIMIT)
    && (phase == 3 ==> u == Cursor(SectionSize, CODE_SECTION, num, DATA_SECTION, 9, u.typeSizes, [], []))
    && (phase >= 4 ==> 9 + 2 * num <= |c| && SizesError(c, 0, num) == Success && u.codeSizes == SizesAt(c, num))
    && (phase == 4 ==>
          u == Cursor(SectionId, u.sectionId, num, DATA_SECTION, 9 + 2 * num, u.typeSizes, u.codeSizes, []))
    && (phase >= 5 ==> |c| >= 10 + 2 * num && c[9 + 2 * num] == DATA_SECTION)
    && (phase == 5 ==>
          u == Cursor(SectionSize, DATA_SECTION, num, TERMINATOR, 10 + 2 * num, u.typeSizes, u.codeSizes, []))
    && (phase >= 6 ==> |c| >= 12 + 2 * num && u.dataSizes == [U16(c, 10 + 2 * num)])
    && (phase == 6 ==>
          u == Cursor(SectionId, u.sectionId, num, TERMINATOR, 12 + 2 * num, u.typeSizes, u.codeSizes, u.dataSizes))
    && (phase == 7 ==>
          |c| >= 13 + 2 * num && c[12 + 2 * num] == TERMINATOR && u.it == 13 + 2 * num && u.state == Terminated)
  }

  /** `get_section_missing_error`. */
  function MissingError(sectionId: byte): Error {
    if sectionId == TERMINATOR then HeaderTerminatorMissing
    else if sectionId == TYPE_SECTION then TypeSectionMissing
    else if sectionId == CODE_SECTION then CodeSectionMissing
    else DataSectionMissing
  }

  /** The `section_id` case of the parser's switch. */
  method ReadSectionId(c: Code, u: Cursor, ghost phase: nat) returns (err: Error, v: Cursor)
    requires |c| >= 3 && u.it < |c| && u.state == SectionId && phase < 7 && Read(c, u, phase)
    ensures err == Success ==> Read(c, v, phase + 1)
    ensures err != Success ==> HeaderVerdict(c) == Err(err)
  {
    var sectionId, it := c[u.it], u.it + 1;
    v := u.(sectionId := sectionId, it := it);
    if sectionId != u.expected {
      return MissingError(u.expected), v;
    }
    if sectionId == TERMINATOR {
      v := v.(state := Terminated);
    } else if sectionId == TYPE_SECTION {
      v := v.(expected := CODE_SECTION, state := SectionSize);
    } else if sectionId == CODE_SECTION {
      if it >= |c| - 1 {
        return IncompleteSectionNumber, v;
      }
      var num := U16(c, it);
      if num == 0 {
        return ZeroSectionSize, v;
      }
      if num > CODE_SECTION_NUMBER_LIMIT {
        return TooManyCodeSections, v;
      }
      v := v.(sectionNum := num, it := it + 2, expected := DATA_SECTION, state := SectionSize);
    } else {
      v := v.(expected := TERMINATOR, state := SectionSize);
    }
    return Success, v;
  }

  /** The `section_size` case of the parser's switch. */
  method ReadSectionSize(c: Code, u: Cursor, ghost phase: nat) returns (err: Error, v: Cursor)
    requires |c| >= 3 && u.it < |c| && u.state == SectionSize && phase < 7 && Read(c, u, phase)
    ensures err == Success ==> Read(c, v, phase + 1)
    ensures err != Success ==> HeaderVerdict(c) == Err(err)
  {
    v := u;
    if u.sectionId == CODE_SECTION {
      var sizes: seq<nat> := [];
      var i := 0;
      while i < u.sectionNum
        invariant 0 <= i <= u.sectionNum
        invariant 9 + 2 * i <= |c| && v == u.(it := 9 + 2 * i)
        invariant sizes == SizesAt(c, i)
        invariant SizesError(c, 0, u.sectionNum) == SizesError(c, i, u.sectionNum)
      {
        if v.it >= |c| - 1 {
          return IncompleteSectionSize, v;
        }
        var size := U16(c, v.it);
        v := v.(it := v.it + 2);
        if size == 0 {
          return ZeroSectionSize, v;
        }
        sizes := sizes + [size];
        i := i + 1;
      }
      v := v.(codeSizes := sizes);
    } else {
      if u.it >= |c| - 1 {
        return IncompleteSectionSize, v;
      }
      var size := U16(c, u.it);
      v := v.(it := u.it + 2);
      if size == 0 && u.sectionId != DATA_SECTION {
        return ZeroSectionSize, v;
      }
      if u.sectionId == TYPE_SECTION {
        v := v.(typeSizes := u.typeSizes + [size]);
      } else {
        v := v.(dataSizes := u.dataSizes + [size]);
      }
    }
    v := v.(state := SectionId);
    return Success, v;
  }

  method ValidateEofHeaders(c: Code) returns (r: Result<SectionHeaders>)
    requires |c| >= 3
    ensures r == HeaderVerdict(c)
    ensures r.Ok? <==> exists h :: Layout(c, h)
    ensures r.Ok? ==> Layout(c, r.value)
  {
    hide Layout;
    var u := Cursor(SectionId, 0, 0, TYPE_SECTION, 3, [], [], []);
    ghost var phase := 0;
    while u.it != |c| && u.state != Terminated
      invariant phase <= 7 && Read(c, u, phase) && (u.state == Terminated <==> phase == 7)
      decreases 7 - phase
    {
      var err;
      if u.state == SectionId {
        err, u := ReadSectionId(c, u, phase);
      } else {
        err, u := ReadSectionSize(c, u, phase);
      }
      if err != Success {
        AcceptsLayouts(c);
        return Err(err);
      }
      phase := phase + 1;
    }
    AcceptsLayouts(c);
    if u.state != Terminated {
      return Err(SectionHeadersNotTerminated);
    }
    var h := SectionHeaders(u.typeSizes[0], u.codeSizes, u.dataSizes[0]);
    if h.typeSize + Sum(h.codeSizes) + h.dataSize != |c| - u.it {
      return Err(InvalidSectionBodiesSize);
    }
    if h.typeSize != |h.codeSizes| * 4 {
      return Err(InvalidTypeSectionSize);
    }
    return Ok(h);
  }

  lemma AcceptsLayouts(c: Code)
    requires |c| >= 3
    ensures HeaderVerdict(c).Ok? <==> exists h :: Layout(c, h)
    ensures HeaderVerdict(c).Ok? ==> Layout(c, HeaderVerdict(c).value)
  {
    if HeaderVerdict(c).Ok? {
      VerdictIsLayout(c, HeaderVerdict(c).value);
    }
    if h :| Layout(c, h) {
      VerdictIsLayout(c, h);
    }
  }

  // ----- validate_types -----

  /** The `n` entries of the type section at offset `base`. */
  function TypesAt(c: Code, base: nat, n: nat): (t: seq<CodeType>)
    requires base + 4 * n <= |c|
    ensures |t| == n
  {
    seq(n, i requires 0 <= i < n => TypeAt(c, base + 4 * i))
  }

  function TypeAt(c: Code, p: nat): CodeType
    requires p + 4 <= |c|
  {
    CodeType(c[p], c[p + 1], U16(c, p + 2))
  }

  /** One entry of the type section as bytes: inputs, outputs, and the maximum height. */
  function EncodeType(t: CodeType): (b: Code)
    requires 0 <= t.maxStackHeight < U16_LIMIT
    ensures |b| == 4
  {
    [t.inputs] + [t.outputs] + Be16(t.maxStackHeight)
  }

  ghost predicate TypesEncodable(types: seq<CodeType>) {
    forall i :: 0 <= i < |types| ==> 0 <= types[i].maxStackHeight < U16_LIMIT
  }

  ghost function EncodeTypes(types: seq<CodeType>): (b: Code)
    requires TypesEncodable(types)
    ensures |b| == 4 * |types|
  {
    if types == [] then [] else EncodeTypes(types[..|types| - 1]) + EncodeType(types[|types| - 1])
  }

  /** Reading one entry and writing it are inverse. */
  lemma TypeRoundTrip(c: Code, p: nat, t: CodeType)
    requires p + 4 <= |c| && 0 <= t.maxStackHeight < U16_LIMIT
    ensures c[p..p + 4] == EncodeType(t) <==> TypeAt(c, p) == t
  {
    hide Be16, U16;
    U16Bytes(c, p + 2);
    assert c[p..p + 4] == [c[p]] + [c[p + 1]] + c[p + 2..p + 4];
    if c[p..p + 4] == EncodeType(t) {
      assert c[p] == c[p..p + 4][0] && c[p + 1] == c[p..p + 4][1] && c[p + 2..p + 4] == c[p..p + 4][2..];
      assert EncodeType(t)[2..] == Be16(t.maxStackHeight);
      assert U16(Be16(U16(c, p + 2)), 0) == U16(c, p + 2) && U16(Be16(t.maxStackHeight), 0) == t.maxStackHeight;
    }
  }

  /** Reading a type section and writing it are inverse: the bytes are the encoding of `types` exactly when `types` is
      what is read. */
  lemma {:induction false} TypesRoundTrip(c: Code, base: nat, types: seq<CodeType>)
    requires base + 4 * |types| <= |c| && TypesEncodable(types)
    ensures c[base..base + 4 * |types|] == EncodeTypes(types) <==> TypesAt(c, base, |types|) == types
    decreases |types|
  {
    hide EncodeType, TypeAt;
    if types != [] {
      var n := |types| - 1;
      var before, t, p := types[..n], types[n], base + 4 * n;
      TypesRoundTrip(c, base, before);
      TypeRoundTrip(c, p, t);
      assert c[base..p + 4] == c[base..p] + c[p..p + 4];
      assert TypesAt(c, base, n + 1) == TypesAt(c, base, n) + [TypeAt(c, p)];
      assert types == before + [t];
      SplitAt(c[base..p], c[p..p + 4], EncodeTypes(before), EncodeType(t));
      SplitAt(TypesAt(c, base, n), [TypeAt(c, p)], before, [t]);
    }
  }

  lemma SplitAt<T>(a: seq<T>, b: seq<T>, x: seq<T>, y: seq<T>)
    requires |a| == |x|
    ensures a + b == x + y <==> a == x && b == y
  {
    if a + b == x + y {
      assert a == (a + b)[..|a|] && b == (a + b)[|a|..];
      assert x == (x + y)[..|x|] && y == (x + y)[|x|..];
    }
  }

  /** What is wrong with one entry. */
  function TypeError(t: CodeType): Error {
    if t.outputs > OUTPUTS_INPUTS_NUMBER_LIMIT || t.inputs > OUTPUTS_INPUTS_NUMBER_LIMIT
    then InputsOutputsNumAboveLimit
    else if t.maxStackHeight > MAX_STACK_HEIGHT then MaxStackHeightAboveLimit
    else Success
  }

  /** The limits: 127 inputs and outputs, and a height of 1023. */
  lemma TypeLimits(t: CodeType)
    requires t.maxStackHeight >= 0
    ensures TypeError(t) == Success <==> t.inputs <= 127 && t.outputs <= 127 && t.maxStackHeight <= 1023
    ensures t.inputs > 127 || t.outputs > 127 ==> TypeError(t) == InputsOutputsNumAboveLimit
    ensures TypesOk([t]) <==> TypeError(t) == Success
  {
    assert TypesOk([t]) ==> t in [t];
  }

  /** The first code section takes nothing and returns nothing. */
  predicate FirstIsPlain(types: seq<CodeType>) {
    |types| > 0 && types[0].inputs == 0 && types[0].outputs == 0
  }

  /** The loop over the entries of the type section. */
  method ReadTypes(c: Code, base: nat, size: nat) returns (types: seq<CodeType>)
    requires base + size <= |c| && size % 4 == 0
    ensures types == TypesAt(c, base, size / 4)
  {
    types := [];
    var offset := base;
    while offset < base + size
      invariant offset == base + 4 * |types| && |types| <= size / 4
      invariant types == TypesAt(c, base, |types|)
    {
      types := types + [TypeAt(c, offset)];
      offset := offset + 4;
    }
  }

  /** The error is that of the first entry beyond the limits. */
  ghost predicate FirstTypeError(types: seq<CodeType>, err: Error) {
    err != Success &&
    exists i :: 0 <= i < |types| && err == TypeError(types[i])
                && forall k :: 0 <= k < i ==> TypeError(types[k]) == Success
  }

  method ValidateTypes(c: Code, headerSize: nat, n: nat) returns (r: Result<seq<CodeType>>)
    requires n > 0 && headerSize + 4 * n < |c|
    ensures r.Ok? <==> FirstIsPlain(TypesAt(c, headerSize, n)) && TypesOk(TypesAt(c, headerSize, n))
    ensures r.Ok? ==> r.value == TypesAt(c, headerSize, n)
    ensures r.Err? ==>
              if !FirstIsPlain(TypesAt(c, headerSize, n)) then r.error == InvalidFirstSectionType
              else !TypesOk(TypesAt(c, headerSize, n)) && FirstTypeError(TypesAt(c, headerSize, n), r.error)
  {
    var types := ReadTypes(c, headerSize, 4 * n);
    if types[0].inputs != 0 || types[0].outputs != 0 {
      return Err(InvalidFirstSectionType);
    }
    for i := 0 to n
      invariant forall k :: 0 <= k < i ==> TypeError(types[k]) == Success
    {
      assert types[i] == TypeAt(c, headerSize + 4 * i);
      if TypeError(types[i]) != Success {
        assert types[i] in types;
        return Err(TypeError(types[i]));
      }
    }
    return Ok(types);
  }

  // ----- The header and the pieces of the container -----

  /** Offsets of sections of the given sizes, the first at `base`. */
  function Offsets(base: nat, sizes: seq<nat>): (o: seq<nat>)
    ensures |o| == |sizes|
  {
    seq(|sizes|, i requires 0 <= i < |sizes| => base + Sum(sizes[..i]))
  }

  /** The header of a container with section headers `h`. */
  function HeaderOf(c: Code, h: SectionHeaders): Header
    requires |c| >= HeaderSize(|h.codeSizes|) + 4 * |h.codeSizes|
  {
    var n := |h.codeSizes|;
    Header(c[2], h.codeSizes, Offsets(HeaderSize(n) + h.typeSize, h.codeSizes), h.dataSize,
           TypesAt(c, HeaderSize(n), n))
  }

  lemma SumTake(sizes: seq<nat>, i: nat)
    requires i < |sizes|
    ensures Sum(sizes[..i + 1]) == Sum(sizes[..i]) + sizes[i]
    ensures Sum(sizes[..i]) + sizes[i] <= Sum(sizes)
  {
    assert sizes[..i + 1] == sizes[..i] + [sizes[i]];
    SumAppend(sizes[..i], [sizes[i]]);
    assert sizes == sizes[..i + 1] + sizes[i + 1..];
    SumAppend(sizes[..i + 1], sizes[i + 1..]);
  }

  /** The loop that fills `code_offsets`, each offset cut to 16 bits. */
  method CodeOffsets(base: nat, sizes: seq<nat>) returns (offsets: seq<nat>)
    requires base + Sum(sizes) < U16_LIMIT
    ensures offsets == Offsets(base, sizes)
  {
    var offset := base;
    offsets := [];
    for i := 0 to |sizes|
      invariant offset == base + Sum(sizes[..i])
      invariant offsets == Offsets(base, sizes)[..i]
    {
      SumTake(sizes, i);
      offsets := offsets + [offset % U16_LIMIT];
      offset := offset + sizes[i];
    }
  }

  /** `get_code`. */
  function GetCode(c: Code, hd: Header, i: nat): Code
    requires i < |hd.codeOffsets| == |hd.codeSizes| && hd.codeOffsets[i] + hd.codeSizes[i] <= |c|
  {
    c[hd.codeOffsets[i]..hd.codeOffsets[i] + hd.codeSizes[i]]
  }

  function Flatten(parts: seq<Code>): Code {
    if parts == [] then [] else parts[0] + Flatten(parts[1..])
  }

  /** Every section lies inside the container. */
  lemma SectionInside(c: Code, h: SectionHeaders, i: nat)
    requires Layout(c, h) && i < |h.codeSizes|
    ensures var hd := HeaderOf(c, h);
            hd.codeOffsets[i] + hd.codeSizes[i] <= |c| - h.dataSize && hd.codeSizes[i] > 0
    ensures var hd := HeaderOf(c, h);
            i + 1 < |h.codeSizes| ==> hd.codeOffsets[i + 1] == hd.codeOffsets[i] + hd.codeSizes[i]
  {
    SumTake(h.codeSizes, i);
  }

  /** The code sections of a laid-out container. */
  ghost function Sections(c: Code, h: SectionHeaders): seq<Code>
    requires Layout(c, h)
  {
    seq(|h.codeSizes|, i requires 0 <= i < |h.codeSizes| => (SectionInside(c, h, i); GetCode(c, HeaderOf(c, h), i)))
  }

  lemma {:induction false} SectionsFrom(c: Code, h: SectionHeaders, i: nat)
    requires Layout(c, h) && i <= |h.codeSizes|
    ensures var base := HeaderSize(|h.codeSizes|) + h.typeSize + Sum(h.codeSizes[..i]);
            base <= |c| - h.dataSize && Flatten(Sections(c, h)[i..]) == c[base..|c| - h.dataSize]
    decreases |h.codeSizes| - i
  {
    hide Encode, Sum;
    var base := HeaderSize(|h.codeSizes|) + h.typeSize + Sum(h.codeSizes[..i]);
    if i == |h.codeSizes| {
      assert h.codeSizes[..i] == h.codeSizes;
    } else {
      SumTake(h.codeSizes, i);
      SectionsFrom(c, h, i + 1);
      var rest := Sections(c, h)[i..];
      assert rest[1..] == Sections(c, h)[i + 1..];
      assert rest[0] == c[base..base + h.codeSizes[i]];
      assert c[base..|c| - h.dataSize] == c[base..base + h.codeSizes[i]] + c[base + h.codeSizes[i]..|c| - h.dataSize];
    }
  }

  lemma TypesFit(c: Code, base: nat, n: nat)
    requires base + 4 * n <= |c|
    ensures TypesEncodable(TypesAt(c, base, n)) && c[base..base + 4 * n] == EncodeTypes(TypesAt(c, base, n))
  {
    TypesRoundTrip(c, base, TypesAt(c, base, n));
  }

  /** Magic and version, headers, types, code sections and data tile the container, with no gap or overlap; the bytes of
      the type section encode the types of the header. */
  lemma ContainerTiles(c: Code, h: SectionHeaders)
    requires Layout(c, h)
    ensures TypesEncodable(HeaderOf(c, h).types)
    ensures c == c[..3] + Encode(h) + EncodeTypes(HeaderOf(c, h).types) + Flatten(Sections(c, h))
                 + c[|c| - h.dataSize..]
  {
    hide TypesAt, EncodeTypes, Encode, TypesEncodable;
    SectionsFrom(c, h, 0);
    assert Sections(c, h)[0..] == Sections(c, h);
    TypesFit(c, HeaderSize(|h.codeSizes|), |h.codeSizes|);
  }

  // ----- read_valid_eof1_header -----

  /** The inner loop over the code section sizes. */
  method ReadCodeSizes(c: Code, num: nat) returns (sizes: seq<nat>)
    requires 9 + 2 * num <= |c|
    ensures sizes == SizesAt(c, num)
  {
    sizes := [];
    for i := 0 to num
      invariant sizes == SizesAt(c, i)
    {
      sizes := sizes + [U16(c, 9 + 2 * i)];
    }
  }

  /** The loop that looks for the terminator without any check. */
  method ReadSectionHeaders(c: Code, ghost h: SectionHeaders) returns (r: SectionHeaders)
    requires |c| < U16_LIMIT && Layout(c, h)
    ensures r == h
  {
    EncodingToPositions(c, h);
    hide Encode, Sum, SizesAt;
    ghost var n := |h.codeSizes|;
    ghost var fields := 0;
    r := SectionHeaders(0, [], 0);
    var it := 3;
    while c[it] != TERMINATOR
      invariant fields <= 3
      invariant it == if fields == 0 then 3 else if fields == 1 then 6
                      else if fields == 2 then 9 + 2 * n else 12 + 2 * n
      invariant fields >= 1 ==> r.typeSize == h.typeSize
      invariant fields >= 2 ==> r.codeSizes == h.codeSizes
      invariant fields >= 3 ==> r.dataSize == h.dataSize
      decreases 3 - fields
    {
      var sectionId := c[it];
      it := it + 1;
      var number := U16(c, it);
      it := it + 2;
      if sectionId == CODE_SECTION {
        var sizes := ReadCodeSizes(c, number);
        it := it + 2 * number;
        r := r.(codeSizes := sizes);
      } else if sectionId == TYPE_SECTION {
        r := r.(typeSize := number);
      } else {
        r := r.(dataSize := number);
      }
      fields := fields + 1;
    }
  }

  /** The unchecked reader stays in bounds on every container the checking parser accepts, and returns its header. */
  method ReadValidEof1Header(c: Code, ghost h: SectionHeaders) returns (hd: Header)
    requires |c| < U16_LIMIT && Layout(c, h)
    ensures hd == HeaderOf(c, h)
  {
    var r := ReadSectionHeaders(c, h);
    var headerSize := HeaderSize(|r.codeSizes|);
    var types := ReadTypes(c, headerSize, r.typeSize);
    var offsets := CodeOffsets(headerSize + r.typeSize, r.codeSizes);
    hd := Header(c[2], r.codeSizes, offsets, r.dataSize, types);
  }
}
