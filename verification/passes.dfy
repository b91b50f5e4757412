/** The row passes of the pipeline: `add_nameCorpCreatorLocal_column`,
    `add_subjectTopics`, `make_name_type_column`,
    `handle_person_and_corp_lc_names` (fmp_data_munge.py:309-347, 436-553)
    and the VIAF suppression of line 605. */
module Passes {
  import opened Wrappers
  import opened PipedValues
  import opened Rows
  import opened Compose
  import opened Authority

  const SubjectHeading: string := "Subject Heading"
  const SubjectTopicsLC: string := "subjectTopicsLC"
  const SubjectTopicsLocal: string := "subjectTopicsLocal"
  const NameType: string := "Name Type"
  const NamePersonCreatorLC: string := "namePersonCreatorLC"
  const NameCorpCreatorLC: string := "nameCorpCreatorLC"
  const NameCorpCreatorVIAF: string := "nameCorpCreatorVIAF"
  const NameCorpCreatorLocal: string := "nameCorpCreatorLocal"
  const OrgNameSources: string := "Organization Name_sources"
  const OrgNameSubjects: string := "Organization Name_subjects"
  const UriColumn: string := "URI"
  const SourceColumn: string := "Source"
  const LcnafSource: string := "LCNAF"

  /** `after` is `before` with the columns `written` set (added or
      overwritten) and every other column untouched. */
  ghost predicate Extends(before: Row, after: Row, written: set<string>) {
    && after.Keys == before.Keys + written
    && forall k :: k in before && k !in written ==> after[k] == before[k]
  }

  // ---------------------------------------------------------------------
  // add_subjectTopics (lines 436-472)

  /** `uri_dict.get(term, None)` is truthy. */
  predicate Linked(uriDict: map<string, string>, term: string) {
    term in uriDict && uriDict[term] != ""
  }

  /** The loop of lines 456-461, continuing the lists built so far. */
  function SortTerms(terms: seq<string>, uriDict: map<string, string>, uriTerms: seq<string>, localTerms: seq<string>)
    : (seq<string>, seq<string>)
    decreases |terms|
  {
    if |terms| == 0 then (uriTerms, localTerms)
    else
      var term := terms[0];
      if Linked(uriDict, term) then
        SortTerms(terms[1..], uriDict, uriTerms + [term + " " + uriDict[term]], localTerms)
      else
        SortTerms(terms[1..], uriDict, uriTerms, localTerms + [term])
  }

  /** One flag per term: whether the cache links it. */
  function LinkFlags(terms: seq<string>, uriDict: map<string, string>): seq<bool> {
    seq(|terms|, k requires 0 <= k < |terms| => Linked(uriDict, terms[k]))
  }

  /** One flag per term: whether the cache does not link it. */
  function LocalFlags(terms: seq<string>, uriDict: map<string, string>): seq<bool> {
    seq(|terms|, k requires 0 <= k < |terms| => !Linked(uriDict, terms[k]))
  }

  /** Every term `Select` keeps under `LinkFlags` is linked. */
  lemma {:induction false} SelectedAreLinked(terms: seq<string>, uriDict: map<string, string>)
    ensures forall k :: 0 <= k < |Select(terms, LinkFlags(terms, uriDict))| ==>
      Linked(uriDict, Select(terms, LinkFlags(terms, uriDict))[k])
  {
    var flags := LinkFlags(terms, uriDict);
    SelectKeepsFlagged(terms, flags, 0);
    assert flags[..Min(|terms|, |flags|)] == flags;
  }

  /** Reference definition of the linked side: the linked terms, in their
      order in the heading, each followed by a space and its URI. */
  function UriTerms(terms: seq<string>, uriDict: map<string, string>): (r: seq<string>)
    ensures var linked := Select(terms, LinkFlags(terms, uriDict));
      && |r| == |linked|
      && forall k :: 0 <= k < |r| ==> linked[k] in uriDict && r[k] == linked[k] + " " + uriDict[linked[k]]
  {
    var linked := Select(terms, LinkFlags(terms, uriDict));
    SelectedAreLinked(terms, uriDict);
    seq(|linked|, k requires 0 <= k < |linked| => linked[k] + " " + uriDict[linked[k]])
  }

  /** Reference definition of the local side: the unlinked terms, in their
      order in the heading. */
  function LocalTerms(terms: seq<string>, uriDict: map<string, string>): seq<string> {
    Select(terms, LocalFlags(terms, uriDict))
  }

  lemma {:induction false} SortTermsIsSelect(terms: seq<string>, uriDict: map<string, string>,
                                             uriTerms: seq<string>, localTerms: seq<string>)
    ensures SortTerms(terms, uriDict, uriTerms, localTerms)
         == (uriTerms + UriTerms(terms, uriDict), localTerms + LocalTerms(terms, uriDict))
    decreases |terms|
  {
    if |terms| == 0 {
      assert uriTerms + [] == uriTerms && localTerms + [] == localTerms;
    } else {
      var term := terms[0];
      var rest := terms[1..];
      assert LinkFlags(terms, uriDict)[1..] == LinkFlags(rest, uriDict);
      assert LocalFlags(terms, uriDict)[1..] == LocalFlags(rest, uriDict);
      if Linked(uriDict, term) {
        SortTermsIsSelect(rest, uriDict, uriTerms + [term + " " + uriDict[term]], localTerms);
        assert UriTerms(terms, uriDict) == [term + " " + uriDict[term]] + UriTerms(rest, uriDict);
        assert LocalTerms(terms, uriDict) == LocalTerms(rest, uriDict);
        var head := [term + " " + uriDict[term]];
        assert uriTerms + head + UriTerms(rest, uriDict) == uriTerms + (head + UriTerms(rest, uriDict));
      } else {
        SortTermsIsSelect(rest, uriDict, uriTerms, localTerms + [term]);
        assert UriTerms(terms, uriDict) == UriTerms(rest, uriDict);
        assert LocalTerms(terms, uriDict) == [term] + LocalTerms(rest, uriDict);
        assert localTerms + [term] + LocalTerms(rest, uriDict) == localTerms + ([term] + LocalTerms(rest, uriDict));
      }
    }
  }

  /** Every term lands on exactly one side. */
  lemma {:induction false} SortTermsCounts(terms: seq<string>, uriDict: map<string, string>,
                                           uriTerms: seq<string>, localTerms: seq<string>)
    ensures var (u, l) := SortTerms(terms, uriDict, uriTerms, localTerms);
      |u| + |l| == |uriTerms| + |localTerms| + |terms|
    decreases |terms|
  {
    if |terms| > 0 {
      var term := terms[0];
      if Linked(uriDict, term) {
        SortTermsCounts(terms[1..], uriDict, uriTerms + [term + " " + uriDict[term]], localTerms);
      } else {
        SortTermsCounts(terms[1..], uriDict, uriTerms, localTerms + [term]);
      }
    }
  }

  /** `'|'.join(terms or [''])`: padding an empty list with `''` does not
      change the join. */
  function JoinOrEmpty(terms: seq<string>): (r: string)
    ensures |terms| == 0 ==> r == ""
    ensures |terms| == 1 ==> r == terms[0]
  {
    Join(if |terms| == 0 then [""] else terms, PipeSep)
  }

  /** `add_subjectTopics(row, uri_dict)`. */
  function AddSubjectTopics(row: Row, uriDict: map<string, string>): (r: Result<Row, Error>)
    ensures r.Success? <==> SubjectHeading in row
    ensures r.Failure? ==> r.error == KeyError(SubjectHeading)
    ensures r.Success? ==> Extends(row, r.value, {SubjectTopicsLC, SubjectTopicsLocal})
  {
    var heading :- Get(row, SubjectHeading);
    var (uriTerms, localTerms) := SortTerms(Split(heading), uriDict, [], []);
    Success(row[SubjectTopicsLC := JoinOrEmpty(uriTerms)][SubjectTopicsLocal := JoinOrEmpty(localTerms)])
  }

  /** The heading's terms are partitioned: the linked ones, with their URIs,
      go to `subjectTopicsLC` and the others to `subjectTopicsLocal`, each
      side keeping heading order; every term is on exactly one side, and
      the local side splits back into its terms. */
  lemma AddSubjectTopicsPartition(row: Row, uriDict: map<string, string>)
    requires SubjectHeading in row
    ensures var terms := Split(row[SubjectHeading]);
            var r := AddSubjectTopics(row, uriDict).value;
      && r[SubjectTopicsLC] == Join(UriTerms(terms, uriDict), PipeSep)
      && r[SubjectTopicsLocal] == Join(LocalTerms(terms, uriDict), PipeSep)
      && |UriTerms(terms, uriDict)| + |LocalTerms(terms, uriDict)| == |terms|
      && (|LocalTerms(terms, uriDict)| > 0 ==> Split(r[SubjectTopicsLocal]) == LocalTerms(terms, uriDict))
  {
    var terms := Split(row[SubjectHeading]);
    SortTermsIsSelect(terms, uriDict, [], []);
    SortTermsCounts(terms, uriDict, [], []);
    assert [] + UriTerms(terms, uriDict) == UriTerms(terms, uriDict);
    assert [] + LocalTerms(terms, uriDict) == LocalTerms(terms, uriDict);
    SelectPipeFree(terms, LocalFlags(terms, uriDict));
    if |LocalTerms(terms, uriDict)| > 0 {
      SplitOfJoin(LocalTerms(terms, uriDict));
    }
  }

  /** A heading none of whose terms the cache links goes to the local side
      unchanged, and the linked side is empty. */
  lemma AddSubjectTopicsNoneLinked(row: Row, uriDict: map<string, string>)
    requires SubjectHeading in row
    requires forall k :: 0 <= k < |Split(row[SubjectHeading])| ==> !Linked(uriDict, Split(row[SubjectHeading])[k])
    ensures AddSubjectTopics(row, uriDict)
         == Success(row[SubjectTopicsLC := ""][SubjectTopicsLocal := row[SubjectHeading]])
  {
    var terms := Split(row[SubjectHeading]);
    AddSubjectTopicsPartition(row, uriDict);
    SelectAllFalse(terms, LinkFlags(terms, uriDict));
    SelectAllTrue(terms, LocalFlags(terms, uriDict));
    JoinOfSplit(row[SubjectHeading]);
  }

  // ---------------------------------------------------------------------
  // make_name_type_column (lines 474-512)

  /** The index of the first `x` in `xs`. */
  function FirstIndex(xs: seq<string>, x: string): (i: nat)
    requires x in xs
    ensures i < |xs| && xs[i] == x
    ensures forall j :: 0 <= j < i ==> xs[j] != x
    decreases |xs|
  {
    if xs[0] == x then 0 else FirstIndex(xs[1..], x) + 1
  }

  /** `lc_get_name_type(uri)`, with `None` turned into `''` (lines 506-509). */
  function NameTypeText(fetch: string -> NameRecord, uri: string): (r: Result<string, Error>)
    ensures r.Success? <==> LcGetNameType(fetch, uri).Success?
    ensures r.Success? ==> r.value in {"", "Personal", "Corporate"}
    ensures LcGetNameType(fetch, uri) == Success(None) ==> r == Success("")
    ensures LcGetNameType(fetch, uri).Success? && LcGetNameType(fetch, uri).value.Some? ==>
      r == Success(LcGetNameType(fetch, uri).value.value)
    ensures LcGetNameType(fetch, uri).Failure? ==> r == Failure(LcGetNameType(fetch, uri).error)
  {
    var nameType :- LcGetNameType(fetch, uri);
    Success(if nameType.Some? then nameType.value else "")
  }

  /** `make_name_type_column(row, uri_column, authority_column)`. */
  function MakeNameTypeColumn(row: Row, uriColumn: string, authorityColumn: string, fetch: string -> NameRecord)
    : (r: Result<Row, Error>)
    ensures authorityColumn !in row ==> r == Failure(KeyError(authorityColumn))
    ensures authorityColumn in row && LcnafSource !in Split(row[authorityColumn]) ==>
      r == Success(row[NameType := ""])
    ensures r.Success? ==> Extends(row, r.value, {NameType})
    ensures r.Success? ==> r.value[NameType] in {"", "Personal", "Corporate"}
  {
    var authorityCell :- Get(row, authorityColumn);
    var authorities := Split(authorityCell);
    if LcnafSource !in authorities then Success(row[NameType := ""])
    else
      var uriCell :- Get(row, uriColumn);
      var uris := Split(uriCell);
      var i := FirstIndex(authorities, LcnafSource);
      if i >= |uris| then Failure(IndexError)
      else if uris[i] == "" then Success(row[NameType := ""])
      else
        var nameType :- NameTypeText(fetch, uris[i]);
        Success(row[NameType := nameType])
  }

  /** The first `LCNAF` authority wins: its aligned URI alone is looked up,
      and the record's `@type` list decides the name type, a corporate
      marker before a personal one. */
  lemma MakeNameTypeFirstLcnaf(row: Row, uriColumn: string, authorityColumn: string,
                               fetch: string -> NameRecord, k: nat)
    requires authorityColumn in row
    requires var authorities := Split(row[authorityColumn]);
      k < |authorities| && authorities[k] == LcnafSource &&
      forall j :: 0 <= j < k ==> authorities[j] != LcnafSource
    ensures var r := MakeNameTypeColumn(row, uriColumn, authorityColumn, fetch);
      if uriColumn !in row then r == Failure(KeyError(uriColumn))
      else
        var uris := Split(row[uriColumn]);
        if k >= |uris| then r == Failure(IndexError)
        else if uris[k] == "" then r == Success(row[NameType := ""])
        else match fetch(uris[k] + JsonSuffix)
          case Unavailable => r == Success(row[NameType := ""])
          case NoMatchingRecord => r == Failure(IndexError)
          case Record(types) =>
            r == Success(row[NameType := if CorporateNameType in types then "Corporate"
                                         else if PersonalNameType in types then "Personal"
                                         else ""])
  {
    var authorities := Split(row[authorityColumn]);
    assert authorities[k] in authorities;
    assert FirstIndex(authorities, LcnafSource) == k;
  }

  // ---------------------------------------------------------------------
  // handle_person_and_corp_lc_names (lines 514-553) and the VIAF column

  /** A source's organization name, a space, and its URI (lines 534-538 and
      597-601). */
  const NameUriTemplate: Template := [ColumnRef(OrgNameSources), Literal(" "), ColumnRef(UriColumn)]

  /** At position `i` the template composes the i-th name, a space and the
      i-th URI. */
  lemma NameUriAt(row: Row, i: nat)
    requires OrgNameSources in row && UriColumn in row
    ensures var names, uris := Split(row[OrgNameSources]), Split(row[UriColumn]);
            var r := Compose.Compose(NameUriTemplate, row, i);
      && (r.Success? <==> i < |names| && i < |uris|)
      && (r.Success? ==> r.value == names[i] + " " + uris[i])
      && (r.Failure? ==> r.error == IndexError)
  {
    ComposeIsConcatenation(NameUriTemplate, row, i);
    var c0, c1, c2 := ColumnRef(OrgNameSources), Literal(" "), ColumnRef(UriColumn);
    assert NameUriTemplate[1..] == [c1, c2];
    assert [c1, c2][1..] == [c2];
    assert [c2][1..] == [];
    var names, uris := Split(row[OrgNameSources]), Split(row[UriColumn]);
    assert ChunkText(c1, row, i) == Success(" " + "" + "");
    assert ConcatChunks([], row, i) == Success("");
    var last := ConcatChunks([c2], row, i);
    if i < |uris| {
      assert ChunkText(c2, row, i) == Success("" + uris[i] + "");
      assert last == Success(("" + uris[i] + "") + "");
      assert ("" + uris[i] + "") + "" == uris[i];
    } else {
      assert last == Failure(IndexError);
    }
    if i < |names| && i < |uris| {
      assert ChunkText(c0, row, i) == Success("" + names[i] + "");
      assert names[i] + " " + uris[i] == "" + names[i] + "" + (" " + "" + "" + uris[i]);
    }
  }

  /** The name-with-URI column masked by source `source`: for each position
      whose `Source` piece is `source` (in any letter case), the name and URI
      at that position, joined by `|` in positional order; `IndexError` when
      a selected position has no name or no URI. */
  lemma NameUriColumn(row: Row, newColumn: string, source: string)
    requires SourceColumn in row && OrgNameSources in row && UriColumn in row
    requires source != ""
    ensures var names, uris := Split(row[OrgNameSources]), Split(row[UriColumn]);
            var ps := IncludedPositions(row, Some(SourceColumn), Some(source)).value;
            var r := ProcessRow(row, newColumn, NameUriTemplate, Some(SourceColumn), Some(source));
      && (r.Success? <==> forall k :: 0 <= k < |ps| ==> ps[k] < |names| && ps[k] < |uris|)
      && (r.Failure? ==> r.error == IndexError)
      && (r.Success? ==>
            r.value == row[newColumn := Join(seq(|ps|, k requires 0 <= k < |ps| => names[ps[k]] + " " + uris[ps[k]]),
                                              PipeSep)])
  {
    var names, uris := Split(row[OrgNameSources]), Split(row[UriColumn]);
    var ps := IncludedPositions(row, Some(SourceColumn), Some(source)).value;
    ProcessRowComposesIncluded(row, newColumn, NameUriTemplate, Some(SourceColumn), Some(source));
    forall k | 0 <= k < |ps| {
      NameUriAt(row, ps[k]);
    }
    var outs := ComposeAt(NameUriTemplate, row, ps);
    if outs.Success? {
      assert outs.value == seq(|ps|, k requires 0 <= k < |ps| => names[ps[k]] + " " + uris[ps[k]]);
    } else {
      var k :| 0 <= k < |ps| && FirstFailure(NameUriTemplate, row, ps, k, outs.error);
    }
  }

  /** `handle_person_and_corp_lc_names(row)`. A name type other than `''`,
      `Personal` or `Corporate` leaves the row as it is. */
  function HandlePersonAndCorpLcNames(row: Row): (r: Result<Row, Error>)
    ensures NameType !in row ==> r == Failure(KeyError(NameType))
    ensures NameType in row && row[NameType] == "" ==>
      r == Success(row[NamePersonCreatorLC := ""][NameCorpCreatorLC := ""])
    ensures NameType in row && row[NameType] !in {"", "Personal", "Corporate"} ==> r == Success(row)
    ensures r.Success? && row[NameType] in {"", "Personal", "Corporate"} ==>
      Extends(row, r.value, {NamePersonCreatorLC, NameCorpCreatorLC})
    ensures r.Success? && row[NameType] == "Personal" ==> r.value[NameCorpCreatorLC] == ""
    ensures r.Success? && row[NameType] == "Corporate" ==> r.value[NamePersonCreatorLC] == ""
  {
    var nameType :- Get(row, NameType);
    if nameType == "" then Success(row[NamePersonCreatorLC := ""][NameCorpCreatorLC := ""])
    else if nameType == "Personal" then
      var processed :- ProcessRow(row, NamePersonCreatorLC, NameUriTemplate, Some(SourceColumn), Some(LcnafSource));
      Success(processed[NameCorpCreatorLC := ""])
    else if nameType == "Corporate" then
      var processed :- ProcessRow(row, NameCorpCreatorLC, NameUriTemplate, Some(SourceColumn), Some(LcnafSource));
      Success(processed[NamePersonCreatorLC := ""])
    else Success(row)
  }

  /** The column the name type selects receives, for each `LCNAF` source,
      its organization name and URI; the other column is `''`. */
  lemma HandlePersonAndCorpNamesLcnaf(row: Row)
    requires NameType in row && row[NameType] in {"Personal", "Corporate"}
    requires SourceColumn in row && OrgNameSources in row && UriColumn in row
    ensures var names, uris := Split(row[OrgNameSources]), Split(row[UriColumn]);
            var ps := IncludedPositions(row, Some(SourceColumn), Some(LcnafSource)).value;
            var r := HandlePersonAndCorpLcNames(row);
            var chosen := if row[NameType] == "Personal" then NamePersonCreatorLC else NameCorpCreatorLC;
      && (r.Success? <==> forall k :: 0 <= k < |ps| ==> ps[k] < |names| && ps[k] < |uris|)
      && (r.Failure? ==> r.error == IndexError)
      && (r.Success? ==>
            r.value[chosen] == Join(seq(|ps|, k requires 0 <= k < |ps| => names[ps[k]] + " " + uris[ps[k]]), PipeSep))
  {
    var chosen := if row[NameType] == "Personal" then NamePersonCreatorLC else NameCorpCreatorLC;
    NameUriColumn(row, chosen, LcnafSource);
  }

  /** The lambda of line 605: the VIAF column is kept only when the LC
      column is empty; it is not read otherwise. */
  function SuppressViaf(row: Row): (r: Result<Row, Error>)
    ensures r.Success? <==> NameCorpCreatorLC in row && (row[NameCorpCreatorLC] == "" ==> NameCorpCreatorVIAF in row)
    ensures r.Success? ==> Extends(row, r.value, {NameCorpCreatorVIAF})
    ensures r.Success? && row[NameCorpCreatorLC] != "" ==> r.value[NameCorpCreatorVIAF] == ""
    ensures r.Success? && row[NameCorpCreatorLC] == "" ==> r.value == row
  {
    var lc :- Get(row, NameCorpCreatorLC);
    var viaf :- if lc == "" then Get(row, NameCorpCreatorVIAF) else Success("");
    Success(row[NameCorpCreatorVIAF := viaf])
  }

  // ---------------------------------------------------------------------
  // add_nameCorpCreatorLocal_column (lines 309-347)

  /** `add_nameCorpCreatorLocal_column(row)`. The `except IndexError`
      fallback to the subjects sheet is not modelled: it is proved
      unreachable below. */
  function AddNameCorpCreatorLocal(row: Row): (r: Result<Row, Error>)
    ensures r.Success? ==> Extends(row, r.value, {NameCorpCreatorLocal})
    ensures r.Success? ==> NameCorpCreatorLC in row
    ensures r.Success? && row[NameCorpCreatorLC] == "" ==> NameCorpCreatorVIAF in row
    ensures r.Success? && (row[NameCorpCreatorLC] != "" || row[NameCorpCreatorVIAF] != "") ==>
      r.value[NameCorpCreatorLocal] == ""
    ensures NameCorpCreatorLC !in row ==> r == Failure(KeyError(NameCorpCreatorLC))
  {
    var lc :- Get(row, NameCorpCreatorLC);
    if lc != "" then Success(row[NameCorpCreatorLocal := ""])
    else
      var viaf :- Get(row, NameCorpCreatorVIAF);
      if viaf != "" then Success(row[NameCorpCreatorLocal := ""])
      else
        var sources :- Get(row, OrgNameSources);
        match Piece(sources, 0)
        case Some(first) => Success(row[NameCorpCreatorLocal := first])
        case None =>
          // `split` never returns an empty list: the fallback to
          // `Organization Name_subjects` (lines 338-345) cannot be reached.
          assert false; Failure(IndexError)
  }

  /** With no LC and no VIAF name, the local name is the first organization
      name of the sources sheet. `split` never yields an empty list, so the
      subjects sheet is never consulted, even when it is missing. */
  lemma AddNameCorpCreatorLocalFirstSource(row: Row)
    requires NameCorpCreatorLC in row && NameCorpCreatorVIAF in row && OrgNameSources in row
    requires row[NameCorpCreatorLC] == "" && row[NameCorpCreatorVIAF] == ""
    ensures AddNameCorpCreatorLocal(row) == Success(row[NameCorpCreatorLocal := Split(row[OrgNameSources])[0]])
  {
    var sources := row[OrgNameSources];
    assert Piece(sources, 0) == Some(Split(sources)[0]);
  }
}
