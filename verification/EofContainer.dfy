/** `validate_eof1` (eof.cpp): the whole container check. */
module EofContainer {
  import opened Bytes
  import opened EofCode
  import opened FlowGraph
  import opened EofStack
  import opened EofHeader

  /** A section of a laid-out container, with the types of all sections. */
  ghost function SectionOf(c: Code, h: SectionHeaders, i: nat): Section
    requires Layout(c, h) && i < |h.codeSizes|
  {
    Section(Sections(c, h)[i], i, HeaderOf(c, h).types)
  }

  /** `heights` is the height assignment of the section, its maximum is the declared one, and nothing is dead. */
  ghost predicate Typed(s: Section, heights: map<int, int>) {
    && Checked(s)
    && Consistent(Flow(s), heights)
    && AllReachable(Flow(s))
    && IsMaximum(heights, s.types[s.index].maxStackHeight)
  }

  ghost predicate SectionValid(s: Section) {
    exists heights :: Typed(s, heights)
  }

  /** What a valid EOF1 container is. */
  ghost predicate ValidContainer(c: Code, h: SectionHeaders) {
    && Layout(c, h)
    && FirstIsPlain(HeaderOf(c, h).types)
    && TypesOk(HeaderOf(c, h).types)
    && forall i :: 0 <= i < |h.codeSizes| ==> SectionValid(SectionOf(c, h, i))
  }

  /** What an error about a section says: its first faulty instruction has that fault; or all instructions are in order
      and some jump is not; or both are and the pass over the heights meets that fault; or there is a height assignment,
      and its maximum is not the declared one. */
  ghost predicate SectionError(s: Section, err: Error)
    requires |s.code| > 0 && s.index < |s.types| && TypesOk(s.types)
  {
    if !WellFormed(s.code) then FirstError(s.code, err)
    else if !JumpsOk(s.code) then err == InvalidRjumpDestination
    else if !Typable(Flow(s)) then Explains(Flow(s), err)
    else err == InvalidMaxStackHeight && !exists heights :: Typed(s, heights)
  }

  /** The three checks of one section, in the order of the validator's loop. */
  method ValidateSection(s: Section) returns (err: Error)
    requires |s.code| > 0 && s.index < |s.types| && TypesOk(s.types)
    ensures err == Success <==> SectionValid(s)
    ensures err != Success ==> SectionError(s, err)
  {
    hide Consistent, Flow, AllReachable, IsMaximum, WellFormed, JumpsOk, TypesOk, Explains, FirstError;
    err := ValidateInstructions(s.code);
    if err != Success {
      return;
    }
    var jumps := ValidateRjumpDestinations(s.code);
    if !jumps {
      return InvalidRjumpDestination;
    }
    var r := ValidateMaxStackHeight(s);
    if r.Err? {
      return r.error;
    }
    ghost var heights :| Consistent(Flow(s), heights);
    if r.value != s.types[s.index].maxStackHeight {
      MaximumUnique(s, r.value);
      return InvalidMaxStackHeight;
    }
    assert Typed(s, heights);
  }

  lemma MaximumUnique(s: Section, m: int)
    requires Checked(s) && forall heights :: Consistent(Flow(s), heights) ==> IsMaximum(heights, m)
    ensures m != s.types[s.index].maxStackHeight ==> !SectionValid(s)
  {
  }

  /** The error is that of the first section that is not valid. */
  ghost predicate SectionsError(c: Code, h: SectionHeaders, err: Error)
    requires Layout(c, h) && TypesOk(HeaderOf(c, h).types)
  {
    exists i :: 0 <= i < |h.codeSizes| && |SectionOf(c, h, i).code| > 0 && SectionError(SectionOf(c, h, i), err)
                && forall k :: 0 <= k < i ==> SectionValid(SectionOf(c, h, k))
  }

  /** The loop over the code sections. */
  method ValidateSections(c: Code, h: SectionHeaders, header: Header) returns (err: Error)
    requires Layout(c, h) && header == HeaderOf(c, h) && TypesOk(header.types)
    ensures err == Success <==> forall i :: 0 <= i < |h.codeSizes| ==> SectionValid(SectionOf(c, h, i))
    ensures err != Success ==> SectionsError(c, h, err)
  {
    hide SectionValid, TypesOk, SectionError;
    for i := 0 to |h.codeSizes|
      invariant forall k :: 0 <= k < i ==> SectionValid(SectionOf(c, h, k))
    {
      SectionInside(c, h, i);
      var s := Section(GetCode(c, header, i), i, header.types);
      assert s == SectionOf(c, h, i);
      err := ValidateSection(s);
      if err != Success {
        return;
      }
    }
    err := Success;
  }

  /** A container has at most one set of section headers. */
  lemma LayoutUnique(c: Code, h: SectionHeaders, h': SectionHeaders)
    requires Layout(c, h) && Layout(c, h')
    ensures h == h'
  {
    VerdictIsLayout(c, h);
    VerdictIsLayout(c, h');
  }

  lemma RoomForCode(c: Code, h: SectionHeaders)
    requires Layout(c, h)
    ensures |h.codeSizes| > 0 && HeaderSize(|h.codeSizes|) + 4 * |h.codeSizes| < |c|
  {
    SectionInside(c, h, 0);
  }

  /** What an error about the bodies says: the first type, or the first entry beyond the limits, or a section. */
  ghost predicate BodiesError(c: Code, h: SectionHeaders, err: Error)
    requires Layout(c, h)
  {
    var types := HeaderOf(c, h).types;
    if !FirstIsPlain(types) then err == InvalidFirstSectionType
    else if !TypesOk(types) then FirstTypeError(types, err)
    else SectionsError(c, h, err)
  }

  /** The checks after the section headers have been parsed. */
  method ValidateBodies(c: Code, h: SectionHeaders) returns (r: Result<Header>)
    requires |c| < U16_LIMIT && Layout(c, h)
    ensures r.Ok? <==> ValidContainer(c, h)
    ensures r.Ok? ==> r.value == HeaderOf(c, h)
    ensures r.Err? ==> r.error != Success && BodiesError(c, h, r.error)
  {
    hide SectionValid, TypesOk, SectionOf, SectionsError, FirstTypeError, TypesAt, Encode, Sum, Offsets;
    var n := |h.codeSizes|;
    RoomForCode(c, h);
    var types := ValidateTypes(c, HeaderSize(n), n);
    if types.Err? {
      return Err(types.error);
    }
    var offsets := CodeOffsets(HeaderSize(n) + h.typeSize, h.codeSizes);
    var header := Header(c[2], h.codeSizes, offsets, h.dataSize, types.value);
    var err := ValidateSections(c, h, header);
    return if err == Success then Ok(header) else Err(err);
  }

  /** The validator accepts exactly the valid containers and returns their header. */
  method ValidateEof1(c: Code) returns (r: Result<Header>)
    requires 3 <= |c| < U16_LIMIT
    ensures r.Ok? <==> exists h :: ValidContainer(c, h)
    ensures r.Ok? ==> exists h :: ValidContainer(c, h) && r.value == HeaderOf(c, h)
    ensures r.Err? ==> r.error != Success
    ensures r.Err? ==> if exists h :: Layout(c, h) then exists h :: Layout(c, h) && BodiesError(c, h, r.error)
                       else HeaderVerdict(c) == Err(r.error)
  {
    hide BodiesError, HeaderVerdict, SectionValid, TypesOk, SectionOf, HeaderOf, FirstIsPlain;
    var headers := ValidateEofHeaders(c);
    if headers.Err? {
      HeaderErrors(c);
      return Err(headers.error);
    }
    r := ValidateBodies(c, headers.value);
    forall h | ValidContainer(c, h)
      ensures h == headers.value
    {
      LayoutUnique(c, headers.value, h);
    }
  }

  lemma HeaderErrors(c: Code)
    requires |c| >= 3
    ensures HeaderVerdict(c).Err? ==> HeaderVerdict(c).error != Success
  {
  }
}
