/** The EOF1 container format as an encoder, and the round trip through the parser and the header (eof.cpp). */
module EofFormat {
  import opened Bytes
  import opened EofCode
  import opened EofStack
  import opened EofHeader

  /** What a container is made from. */
  datatype Contents = Contents(version: byte, types: seq<CodeType>, sections: seq<Code>, data: Code)

  function Sizes(parts: seq<Code>): (s: seq<nat>)
    ensures |s| == |parts|
  {
    seq(|parts|, i requires 0 <= i < |parts| => |parts[i]|)
  }

  function HeadersOf(x: Contents): SectionHeaders {
    SectionHeaders(4 * |x.types|, Sizes(x.sections), |x.data|)
  }

  /** Contents the format can express: a type for every section, and sizes within its limits. */
  ghost predicate Expressible(x: Contents) {
    |x.types| == |x.sections| && TypesEncodable(x.types) && Encodable(HeadersOf(x))
  }

  /** Magic, version, section headers, types, code and data. */
  ghost function EncodeContainer(x: Contents): Code
    requires Expressible(x)
  {
    [0xEF, 0x00, x.version] + Encode(HeadersOf(x)) + EncodeTypes(x.types) + Flatten(x.sections) + x.data
  }

  /** The limits in numbers: 1 to 1024 sections of 1 to 65535 bytes each. */
  lemma ExpressibleIs(x: Contents)
    ensures Expressible(x) <==>
      && |x.types| == |x.sections| && 1 <= |x.sections| <= 1024 && |x.data| <= 65535
      && (forall i :: 0 <= i < |x.sections| ==> 1 <= |x.sections[i]| <= 65535)
      && (forall i :: 0 <= i < |x.types| ==> 0 <= x.types[i].maxStackHeight <= 65535)
  {
    var sizes := HeadersOf(x).codeSizes;
    assert forall i :: 0 <= i < |x.sections| ==> sizes[i] == |x.sections[i]|;
  }

  /** A header that declares more sections is refused for that, whatever follows. */
  lemma TooManySections(c: Code)
    requires |c| >= 9 && c[3] == 1 && U16(c, 4) > 0 && c[6] == 2
    ensures U16(c, 7) > 1024 <==> HeaderVerdict(c) == Err(TooManyCodeSections)
  {
    if U16(c, 7) <= 1024 {
      SizesErrors(c, 0, U16(c, 7));
    }
  }

  lemma {:induction false} SizesErrors(c: Code, i: nat, num: nat)
    ensures SizesError(c, i, num) in {Success, IncompleteSectionSize, ZeroSectionSize}
    decreases num - i
  {
    if i < num {
      SizesErrors(c, i + 1, num);
    }
  }

  lemma {:induction false} FlattenSize(parts: seq<Code>)
    ensures |Flatten(parts)| == Sum(Sizes(parts))
  {
    if parts != [] {
      FlattenSize(parts[1..]);
      assert Sizes(parts)[1..] == Sizes(parts[1..]);
    }
  }

  /** A part lies where the sizes before it say. */
  lemma {:induction false} FlattenSlice(parts: seq<Code>, i: nat)
    requires i < |parts|
    ensures var from := Sum(Sizes(parts)[..i]);
            from + |parts[i]| <= |Flatten(parts)| && Flatten(parts)[from..from + |parts[i]|] == parts[i]
  {
    if i == 0 {
      assert Sizes(parts)[..0] == [];
    } else {
      FlattenSlice(parts[1..], i - 1);
      assert Sizes(parts)[..i] == [|parts[0]|] + Sizes(parts[1..])[..i - 1];
      assert ([|parts[0]|] + Sizes(parts[1..])[..i - 1])[1..] == Sizes(parts[1..])[..i - 1];
      var from := Sum(Sizes(parts[1..])[..i - 1]);
      Shift(parts[0], Flatten(parts[1..]), from, from + |parts[i]|);
    }
  }

  lemma Shift(a: Code, b: Code, from: nat, to: nat)
    requires from <= to <= |b|
    ensures (a + b)[|a| + from..|a| + to] == b[from..to]
  {
  }

  lemma EncodedLayout(x: Contents)
    requires Expressible(x)
    ensures Layout(EncodeContainer(x), HeadersOf(x))
  {
    hide Encode, EncodeTypes, Flatten, TypesEncodable;
    FlattenSize(x.sections);
    var c, h := EncodeContainer(x), HeadersOf(x);
    var front: Code := [0xEF, 0x00, x.version];
    assert |front| == 3;
    assert c[3..3 + |Encode(h)|] == Encode(h);
  }

  lemma EncodedTypes(x: Contents)
    requires Expressible(x)
    ensures var c, h := EncodeContainer(x), HeadersOf(x);
            |c| >= HeaderSize(|h.codeSizes|) + 4 * |h.codeSizes| && HeaderOf(c, h).types == x.types && c[2] == x.version
  {
    hide Encode, EncodeTypes, Flatten, TypesEncodable, TypesAt;
    EncodedLayout(x);
    var c, h := EncodeContainer(x), HeadersOf(x);
    var front: Code := [0xEF, 0x00, x.version] + Encode(h);
    assert c == front + (EncodeTypes(x.types) + (Flatten(x.sections) + x.data));
    assert c[|front|..|front| + 4 * |x.types|] == EncodeTypes(x.types);
    TypesRoundTrip(c, |front|, x.types);
  }

  lemma EncodedSection(x: Contents, i: nat)
    requires Expressible(x) && i < |x.sections| && Layout(EncodeContainer(x), HeadersOf(x))
    ensures Sections(EncodeContainer(x), HeadersOf(x))[i] == x.sections[i]
  {
    hide Encode, EncodeTypes, Flatten, TypesEncodable, TypesAt, Layout;
    var c, h := EncodeContainer(x), HeadersOf(x);
    FlattenSlice(x.sections, i);
    SectionInside(c, h, i);
    var front: Code := [0xEF, 0x00, x.version] + Encode(h) + EncodeTypes(x.types);
    var code, from := Flatten(x.sections), Sum(Sizes(x.sections)[..i]);
    assert c == front + (code + x.data);
    Shift(front, code + x.data, from, from + |x.sections[i]|);
    assert (code + x.data)[from..from + |x.sections[i]|] == code[from..from + |x.sections[i]|];
  }

  /** Round trip of whole containers: the parser accepts what the encoder writes, and version, sizes, types and code
      sections are read back. */
  lemma ContainerRoundTrip(x: Contents)
    requires Expressible(x)
    ensures var c, h := EncodeContainer(x), HeadersOf(x);
            && Layout(c, h) && HeaderVerdict(c) == Ok(h) && Sections(c, h) == x.sections
            && HeaderOf(c, h).version == x.version && HeaderOf(c, h).types == x.types
            && HeaderOf(c, h).codeSizes == Sizes(x.sections) && HeaderOf(c, h).dataSize == |x.data|
  {
    hide Encode, EncodeTypes, Flatten, TypesEncodable, TypesAt, Layout;
    EncodedLayout(x);
    EncodedTypes(x);
    var c, h := EncodeContainer(x), HeadersOf(x);
    VerdictIsLayout(c, h);
    forall i | 0 <= i < |x.sections|
      ensures Sections(c, h)[i] == x.sections[i]
    {
      EncodedSection(x, i);
    }
  }

  /** Every container that is laid out is what the encoder writes for its parts, but for the magic. */
  lemma LayoutIsEncoded(c: Code, h: SectionHeaders)
    requires Layout(c, h)
    ensures var x := Contents(c[2], HeaderOf(c, h).types, Sections(c, h), c[|c| - h.dataSize..]);
            Expressible(x) && HeadersOf(x) == h && c[3..] == EncodeContainer(x)[3..]
  {
    hide Encode, EncodeTypes, Flatten, TypesEncodable, TypesAt, Sum;
    ContainerTiles(c, h);
    var x := Contents(c[2], HeaderOf(c, h).types, Sections(c, h), c[|c| - h.dataSize..]);
    forall i | 0 <= i < |h.codeSizes|
      ensures |Sections(c, h)[i]| == h.codeSizes[i]
    {
      SectionInside(c, h, i);
    }
    assert Sizes(x.sections) == h.codeSizes;
    var rest := Encode(h) + EncodeTypes(x.types) + Flatten(x.sections) + x.data;
    assert c == c[..3] + rest && EncodeContainer(x) == [0xEF, 0x00, x.version] + rest;
  }
}
