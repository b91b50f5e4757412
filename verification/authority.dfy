/** The authority resolution cache and the pure parts of the Library of
    Congress helpers (fmp_data_munge.py:349-434). The HTTP requests are
    oracle parameters: each stands for what the remote service answers. */
module Authority {
  import opened Wrappers
  import opened PipedValues
  import opened Rows

  /** `get_unique_values_from_column(column)` (lines 400-414): every
      pipe-piece of every cell, each once. */
  function UniqueValues(cells: seq<string>): (r: set<string>)
    ensures forall x :: x in r <==> exists j :: 0 <= j < |cells| && x in Split(cells[j])
    decreases |cells|
  {
    if |cells| == 0 then {}
    else
      var last := |cells| - 1;
      assert forall j :: 0 <= j < last ==> cells[..last][j] == cells[j];
      UniqueValues(cells[..last]) + (set x | x in Split(cells[last]))
  }

  /** Reference definition of the cache: every value whose lookup returned a
      truthy URI, mapped to that URI. */
  function ResolvedUris(values: set<string>, apiCall: string -> Option<string>): map<string, string> {
    map v | v in values && Present(apiCall(v)) :: apiCall(v).value
  }

  /** `build_uri_dict(values, api_call)` (lines 416-434). `calls` lists the
      lookups in the order they were made: every value exactly once. */
  method BuildUriDict(values: set<string>, apiCall: string -> Option<string>)
    returns (uriDict: map<string, string>, calls: seq<string>)
    ensures forall v :: v in calls <==> v in values
    ensures forall k, l :: 0 <= k < l < |calls| ==> calls[k] != calls[l]
    ensures |calls| == |values|
    ensures forall v :: v in uriDict <==> v in values && Present(apiCall(v))
    ensures forall v :: v in uriDict ==> apiCall(v).Some? && uriDict[v] == apiCall(v).value
    ensures uriDict == ResolvedUris(values, apiCall)
  {
    uriDict := map[];
    calls := [];
    var remaining := values;
    while remaining != {}
      invariant remaining <= values
      invariant forall v :: v in calls <==> v in values && v !in remaining
      invariant forall k, l :: 0 <= k < l < |calls| ==> calls[k] != calls[l]
      invariant |calls| + |remaining| == |values|
      invariant uriDict == ResolvedUris(values - remaining, apiCall)
      decreases remaining
    {
      var value :| value in remaining;
      var uri := apiCall(value);
      calls := calls + [value];
      if Present(uri) {
        uriDict := uriDict[value := uri.value];
      }
      remaining := remaining - {value};
    }
    assert values - remaining == values;
  }

  /** The redirect endpoint `lc_get_subject_uri` asks for a subject label. */
  const SubjectLabelEndpoint: string := "https://id.loc.gov/authorities/subjects/label/"

  /** The serialization suffix of the canonical location. */
  const JsonSuffix: string := ".json"

  predicate EndsWithJson(url: string) {
    |url| >= |JsonSuffix| && url[|url| - |JsonSuffix|..] == JsonSuffix
  }

  /** Lines 362-365: the final URL without a trailing `.json`. */
  function StripJsonSuffix(url: string): (r: string)
    ensures r <= url
    ensures EndsWithJson(url) ==> r + JsonSuffix == url
    ensures !EndsWithJson(url) ==> r == url
  {
    if EndsWithJson(url) then url[..|url| - |JsonSuffix|] else url
  }

  /** Stripping undoes exactly one appended `.json`. */
  lemma StripJsonSuffixInverse(uri: string)
    ensures StripJsonSuffix(uri + JsonSuffix) == uri
  {
    var url := uri + JsonSuffix;
    assert url[|url| - |JsonSuffix|..] == JsonSuffix;
    assert url[..|url| - |JsonSuffix|] == uri;
  }

  /** `lc_get_subject_uri(subject_term)` (lines 349-366). `headFinalUrl`
      answers a HEAD request that follows redirects: the final URL when the
      response is ok, `None` otherwise. */
  function LcGetSubjectUri(headFinalUrl: string -> Option<string>, subjectTerm: string): (r: Option<string>)
    ensures r.Some? <==> headFinalUrl(SubjectLabelEndpoint + subjectTerm).Some?
    ensures r.Some? && EndsWithJson(headFinalUrl(SubjectLabelEndpoint + subjectTerm).value) ==>
      r.value + JsonSuffix == headFinalUrl(SubjectLabelEndpoint + subjectTerm).value
    ensures r.Some? && !EndsWithJson(headFinalUrl(SubjectLabelEndpoint + subjectTerm).value) ==>
      r.value == headFinalUrl(SubjectLabelEndpoint + subjectTerm).value
  {
    match headFinalUrl(SubjectLabelEndpoint + subjectTerm)
    case Some(url) => Some(StripJsonSuffix(url))
    case None => None
  }

  const CorporateNameType: string := "http://www.loc.gov/mads/rdf/v1#CorporateName"
  const PersonalNameType: string := "http://www.loc.gov/mads/rdf/v1#PersonalName"

  /** Lines 390-395: classify the `@type` list of a name record; a
      corporate marker wins over a personal one. */
  function ClassifyNameTypes(types: seq<string>): (r: Option<string>)
    ensures r == Some("Corporate") <==> CorporateNameType in types
    ensures r == Some("Personal") <==> PersonalNameType in types && CorporateNameType !in types
    ensures r.None? <==> CorporateNameType !in types && PersonalNameType !in types
  {
    if |types| == 0 then None
    else if CorporateNameType in types then Some("Corporate")
    else if PersonalNameType in types then Some("Personal")
    else None
  }

  /** What fetching `uri + '.json'` yields: no ok response; an ok response
      without a record whose `@id` is the URI (the `[0]` of line 385 raises
      `IndexError`); or the `@type` list of the matching record (empty when
      it has none). */
  datatype NameRecord = Unavailable | NoMatchingRecord | Record(types: seq<string>)

  /** `lc_get_name_type(uri)` (lines 368-397). */
  function LcGetNameType(fetch: string -> NameRecord, uri: string): (r: Result<Option<string>, Error>)
    ensures r.Failure? <==> fetch(uri + JsonSuffix).NoMatchingRecord?
    ensures r.Failure? ==> r.error == IndexError
    ensures r.Success? ==> r.value in {None, Some("Corporate"), Some("Personal")}
    ensures fetch(uri + JsonSuffix).Unavailable? ==> r == Success(None)
    ensures fetch(uri + JsonSuffix).NoMatchingRecord? ==> r == Failure(IndexError)
    ensures fetch(uri + JsonSuffix).Record? ==>
      r == Success(ClassifyNameTypes(fetch(uri + JsonSuffix).types))
  {
    match fetch(uri + JsonSuffix)
    case Unavailable => Success(None)
    case NoMatchingRecord => Failure(IndexError)
    case Record(types) => Success(ClassifyNameTypes(types))
  }
}
