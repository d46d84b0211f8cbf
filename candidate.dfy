// Metadata candidates (metadata_extract/candidate.py): a value found in the document, where
// it was found, and the registry entries that matched it; and the JSON record it becomes.

module Candidates {
  import opened Common
  import opened Strings

  /** Where a candidate value was found. */
  datatype Origin = FRONT_PAGE | PAGE | INFO_PAGE | PDFINFO | COPYRIGHT | RAPPORT_PREFIX | LANGUAGE_MODEL | LLM

  /** The enum member's `.name`. */
  function OriginName(o: Origin): (r: string)
    ensures |r| > 0
  {
    match o
    case FRONT_PAGE => "FRONT_PAGE"
    case PAGE => "PAGE"
    case INFO_PAGE => "INFO_PAGE"
    case PDFINFO => "PDFINFO"
    case COPYRIGHT => "COPYRIGHT"
    case RAPPORT_PREFIX => "RAPPORT_PREFIX"
    case LANGUAGE_MODEL => "LANGUAGE_MODEL"
    case LLM => "LLM"
  }

  /** A candidate's value: a string, an integer (years) or a person's name (authors). */
  datatype Value = Text(s: string) | Number(n: int) | Person(firstname: string, lastname: string)

  /** A row of the publisher registry. */
  datatype RegEntry = RegEntry(authId: int, name: string)

  datatype Candidate = Candidate(
    value: Value,
    origin: Origin,
    pageNr: Option<int>,
    context: Option<string>,
    regEntries: seq<RegEntry>)

  /** `Candidate(value, origin, page_nr, context)`: no registry entries yet. */
  function NewCandidate(value: Value, origin: Origin, pageNr: Option<int>, context: Option<string>): (c: Candidate)
    ensures c.value == value && c.origin == origin && c.pageNr == pageNr && c.context == context
    ensures c.regEntries == []
  {
    Candidate(value, origin, pageNr, context, [])
  }

  /** The JSON-serialisable record of a candidate. Absent keys are `None`. */
  datatype OriginDict = OriginDict(typeName: string, pageNumber: Option<int>)

  datatype OutValue = OutText(s: string) | OutNumber(n: int)

  datatype CandidateDict = CandidateDict(
    origin: OriginDict,
    value: Option<OutValue>,
    firstname: Option<string>,
    lastname: Option<string>,
    authId: Option<int>,
    valueInDoc: Option<string>)

  /** `str(value)` of a string or integer value. */
  function ValueText(v: Value): string
    requires !v.Person?
  {
    if v.Text? then v.s else IntToString(v.n)
  }

  /** `Candidate.to_dict`. */
  function ToDict(c: Candidate): (r: CandidateDict)
    ensures r.origin.typeName == OriginName(c.origin)
    ensures r.origin.pageNumber.Some? <==> c.pageNr.Some? && c.pageNr.value != 0
    ensures r.origin.pageNumber.Some? ==> r.origin.pageNumber == c.pageNr
    // a registry-backed string or integer reports the registry's name and id, and the text found
    ensures !c.value.Person? && |c.regEntries| > 0 ==>
              r.value == Some(OutText(c.regEntries[0].name)) && r.authId == Some(c.regEntries[0].authId)
              && r.valueInDoc == Some(ValueText(c.value)) && r.firstname.None? && r.lastname.None?
    // without registry entries the value is reported as found
    ensures !c.value.Person? && |c.regEntries| == 0 ==>
              r.value == Some(if c.value.Text? then OutText(c.value.s) else OutNumber(c.value.n))
              && r.authId.None? && r.valueInDoc.None? && r.firstname.None? && r.lastname.None?
    // a person's name is reported as first and last name, without a value
    ensures c.value.Person? ==>
              r.firstname == Some(c.value.firstname) && r.lastname == Some(c.value.lastname)
              && r.value.None? && r.authId.None? && r.valueInDoc.None?
  {
    var origin := OriginDict(OriginName(c.origin), if c.pageNr.Some? && c.pageNr.value != 0 then c.pageNr else None);
    if c.value.Person? then
      CandidateDict(origin, None, Some(c.value.firstname), Some(c.value.lastname), None, None)
    else if |c.regEntries| > 0 then
      CandidateDict(origin, Some(OutText(c.regEntries[0].name)), None, None,
                    Some(c.regEntries[0].authId), Some(ValueText(c.value)))
    else
      CandidateDict(origin, Some(if c.value.Text? then OutText(c.value.s) else OutNumber(c.value.n)),
                    None, None, None, None)
  }
}
