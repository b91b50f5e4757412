/** The derived-field pipeline of `main` (fmp_data_munge.py:571-618): a fixed
    sequence of row passes over the whole table, then the subject cache and
    the subject pass. Reading the CSV, printing and writing the output file
    are left out. */
module Pipeline {
  import opened Wrappers
  import opened PipedValues
  import opened Rows
  import opened Builders
  import opened Compose
  import opened Authority
  import opened Passes
  import opened Frames
  import opened Derived

  const AuthoritizedName: string := "Authoritized Name"
  const Position: string := "Position"
  const AuthorityUsed: string := "Authority Used"
  const AuthorityId: string := "Authority ID"
  const ViafSource: string := "VIAF"

  /** Lines 572-579: name, position and VIAF URI of each `viaf` authority. */
  const PersonOtherViafTemplate: Template :=
    [ColumnRef(AuthoritizedName), Literal(", "), ColumnRef(Position), Literal(" "),
     FunctionRef(BuildUriFn, [("authority", AuthorityUsed), ("id", AuthorityId)])]

  /** Lines 582-587: name and position of each `local` authority. */
  const PersonOtherLocalTemplate: Template :=
    [ColumnRef(AuthoritizedName), Literal(", "), ColumnRef(Position)]

  /** The passes of `main`, in order. */
  datatype Pass =
    | PersonOtherViafPass
    | PersonOtherLocalPass
    | NameTypePass(fetch: string -> NameRecord)
    | LcNamesPass
    | CorpViafPass
    | SuppressViafPass
    | CorpLocalPass
    | SubjectTopicsPass(uriDict: map<string, string>)

  /** What one pass does to one row. */
  function Step(p: Pass, row: Row): Result<Row, Error> {
    match p
    case PersonOtherViafPass =>
      ProcessRow(row, NamePersonOtherVIAF, PersonOtherViafTemplate, Some(AuthorityUsed), Some("viaf"))
    case PersonOtherLocalPass =>
      ProcessRow(row, NamePersonOtherLocal, PersonOtherLocalTemplate, Some(AuthorityUsed), Some("local"))
    case NameTypePass(fetch) => MakeNameTypeColumn(row, UriColumn, SourceColumn, fetch)
    case LcNamesPass => HandlePersonAndCorpLcNames(row)
    case CorpViafPass =>
      ProcessRow(row, NameCorpCreatorVIAF, NameUriTemplate, Some(SourceColumn), Some(ViafSource))
    case SuppressViafPass => SuppressViaf(row)
    case CorpLocalPass => AddNameCorpCreatorLocal(row)
    case SubjectTopicsPass(uriDict) => AddSubjectTopics(row, uriDict)
  }

  /** A pass as the function `df.apply` receives. */
  function StepFn(p: Pass): Row -> Result<Row, Error> {
    row => Step(p, row)
  }

  /** The columns a pass writes. */
  function Writes(p: Pass): set<string> {
    match p
    case PersonOtherViafPass => {NamePersonOtherVIAF}
    case PersonOtherLocalPass => {NamePersonOtherLocal}
    case NameTypePass(_) => {NameType}
    case LcNamesPass => {NamePersonCreatorLC, NameCorpCreatorLC}
    case CorpViafPass => {NameCorpCreatorVIAF}
    case SuppressViafPass => {NameCorpCreatorVIAF}
    case CorpLocalPass => {NameCorpCreatorLocal}
    case SubjectTopicsPass(_) => {SubjectTopicsLC, SubjectTopicsLocal}
  }

  /** `lc_get_subject_uri` with its HEAD request answered by `headFinalUrl`. */
  function SubjectLookup(headFinalUrl: string -> Option<string>): string -> Option<string> {
    term => LcGetSubjectUri(headFinalUrl, term)
  }

  /** The subject cache built from the `Subject Heading` cells (lines 616-617). */
  function SubjectCache(headings: seq<string>, headFinalUrl: string -> Option<string>): map<string, string> {
    ResolvedUris(UniqueValues(headings), SubjectLookup(headFinalUrl))
  }

  /** Lines 571-591: the other-person names and the name type. */
  function NameFront(table: Table, fetch: string -> NameRecord): (r: Result<Table, Error>)
    ensures r.Success? ==> |r.value| == |table|
  {
    var t1 :- ApplyRows(table, StepFn(PersonOtherViafPass));
    var t2 :- ApplyRows(t1, StepFn(PersonOtherLocalPass));
    ApplyRows(t2, StepFn(NameTypePass(fetch)))
  }

  /** Lines 593-613: the creator names and their suppressions. */
  function NameBack(table: Table): (r: Result<Table, Error>)
    ensures r.Success? ==> |r.value| == |table|
  {
    var t4 :- ApplyRows(table, StepFn(LcNamesPass));
    var t5 :- ApplyRows(t4, StepFn(CorpViafPass));
    var t6 :- ApplyRows(t5, StepFn(SuppressViafPass));
    ApplyRows(t6, StepFn(CorpLocalPass))
  }

  /** The name passes of lines 571-613. */
  function NamePasses(table: Table, fetch: string -> NameRecord): (r: Result<Table, Error>)
    ensures r.Success? ==> |r.value| == |table|
  {
    var t3 :- NameFront(table, fetch);
    NameBack(t3)
  }

  /** The table `main` writes out. `fetch` answers the name-record requests
      of `lc_get_name_type`, `headFinalUrl` the subject-label requests of
      `lc_get_subject_uri`. */
  function Pipeline(table: Table, fetch: string -> NameRecord, headFinalUrl: string -> Option<string>)
    : (r: Result<Table, Error>)
    ensures r.Success? ==> |r.value| == |table|
  {
    var named :- NamePasses(table, fetch);
    var headings :- Column(named, SubjectHeading);
    ApplyRows(named, StepFn(SubjectTopicsPass(SubjectCache(headings, headFinalUrl))))
  }

  // ---------------------------------------------------------------------
  // What each pass writes

  lemma ExtendsAgree(a: Row, b: Row, written: set<string>)
    requires Extends(a, b, written)
    ensures AgreeOutside(a, b, written)
  {
  }

  lemma ExtendsTrans(a: Row, b: Row, c: Row, w1: set<string>, w2: set<string>)
    requires Extends(a, b, w1) && Extends(b, c, w2)
    ensures Extends(a, c, w1 + w2)
  {
  }

  /** Every pass but the name-type dispatch adds or overwrites exactly the
      columns it writes; the dispatch does too once a name type is set. */
  lemma StepExtends(p: Pass, row: Row)
    requires Step(p, row).Success?
    requires p.LcNamesPass? ==> row[NameType] in {"", "Personal", "Corporate"}
    ensures Extends(row, Step(p, row).value, Writes(p))
  {
  }

  /** The first three passes of one row. */
  lemma NameChainHead(fetch: string -> NameRecord, r0: Row, r1: Row, r2: Row, r3: Row)
    requires Step(PersonOtherViafPass, r0) == Success(r1)
    requires Step(PersonOtherLocalPass, r1) == Success(r2)
    requires Step(NameTypePass(fetch), r2) == Success(r3)
    ensures Extends(r0, r3, {NamePersonOtherVIAF, NamePersonOtherLocal, NameType})
    ensures NameType in r3 && r3[NameType] in {"", "Personal", "Corporate"}
  {
    StepExtends(PersonOtherViafPass, r0);
    StepExtends(PersonOtherLocalPass, r1);
    ExtendsTrans(r0, r1, r2, {NamePersonOtherVIAF}, {NamePersonOtherLocal});
    StepExtends(NameTypePass(fetch), r2);
    ExtendsTrans(r0, r2, r3, {NamePersonOtherVIAF} + {NamePersonOtherLocal}, {NameType});
    assert {NamePersonOtherVIAF} + {NamePersonOtherLocal} + {NameType}
        == {NamePersonOtherVIAF, NamePersonOtherLocal, NameType};
  }

  /** The LC-name dispatch of one row whose name type is set. */
  lemma NameChainDispatch(r3: Row, r4: Row)
    requires NameType in r3 && r3[NameType] in {"", "Personal", "Corporate"}
    requires Step(LcNamesPass, r3) == Success(r4)
    ensures Extends(r3, r4, {NamePersonCreatorLC, NameCorpCreatorLC})
    ensures LcNamesSet(r4)
  {
  }

  /** The VIAF column and its suppression, for one row. */
  lemma NameChainViaf(r4: Row, r5: Row, r6: Row)
    requires LcNamesSet(r4)
    requires Step(CorpViafPass, r4) == Success(r5)
    requires Step(SuppressViafPass, r5) == Success(r6)
    ensures Extends(r4, r6, {NameCorpCreatorVIAF})
    ensures ViafSet(r6)
  {
    StepExtends(CorpViafPass, r4);
    StepExtends(SuppressViafPass, r5);
    ExtendsTrans(r4, r5, r6, {NameCorpCreatorVIAF}, {NameCorpCreatorVIAF});
    assert {NameCorpCreatorVIAF} + {NameCorpCreatorVIAF} == {NameCorpCreatorVIAF};
  }

  /** The local name, for one row. */
  lemma NameChainLocal(r6: Row, r7: Row)
    requires ViafSet(r6)
    requires Step(CorpLocalPass, r6) == Success(r7)
    ensures Extends(r6, r7, {NameCorpCreatorLocal})
    ensures NamesConsistent(r7)
  {
    StepExtends(CorpLocalPass, r6);
    if r7[NameCorpCreatorLC] == "" && r7[NameCorpCreatorVIAF] == "" {
      AddNameCorpCreatorLocalFirstSource(r6);
    }
  }

  /** The name columns accumulate over the name passes of one row. */
  lemma NameColumnsChain(r0: Row, r3: Row, r4: Row, r6: Row, r7: Row)
    requires Extends(r0, r3, {NamePersonOtherVIAF, NamePersonOtherLocal, NameType})
    requires Extends(r3, r4, {NamePersonCreatorLC, NameCorpCreatorLC})
    requires Extends(r4, r6, {NameCorpCreatorVIAF})
    requires Extends(r6, r7, {NameCorpCreatorLocal})
    ensures Extends(r0, r7, NameColumns)
  {
    var w3 := {NamePersonOtherVIAF, NamePersonOtherLocal, NameType};
    var w4 := w3 + {NamePersonCreatorLC, NameCorpCreatorLC};
    ExtendsTrans(r0, r3, r4, w3, {NamePersonCreatorLC, NameCorpCreatorLC});
    ExtendsTrans(r0, r4, r6, w4, {NameCorpCreatorVIAF});
    ExtendsTrans(r0, r6, r7, w4 + {NameCorpCreatorVIAF}, {NameCorpCreatorLocal});
    assert w4 + {NameCorpCreatorVIAF} + {NameCorpCreatorLocal} == NameColumns;
  }

  /** Each row after the name passes: the original row with the name
      columns added, and those consistent. */
  lemma NamePassesRows(table: Table, fetch: string -> NameRecord)
    requires NamePasses(table, fetch).Success?
    ensures var named := NamePasses(table, fetch).value;
      && |named| == |table|
      && forall j :: 0 <= j < |table| ==> Extends(table[j], named[j], NameColumns) && NamesConsistent(named[j])
  {
    var t1 := ApplyRows(table, StepFn(PersonOtherViafPass)).value;
    var t2 := ApplyRows(t1, StepFn(PersonOtherLocalPass)).value;
    var t3 := ApplyRows(t2, StepFn(NameTypePass(fetch))).value;
    assert NameFront(table, fetch) == Success(t3);
    var t4 := ApplyRows(t3, StepFn(LcNamesPass)).value;
    var t5 := ApplyRows(t4, StepFn(CorpViafPass)).value;
    var t6 := ApplyRows(t5, StepFn(SuppressViafPass)).value;
    var t7 := ApplyRows(t6, StepFn(CorpLocalPass)).value;
    assert NameBack(t3) == Success(t7);
    forall j | 0 <= j < |table|
      ensures Extends(table[j], t7[j], NameColumns) && NamesConsistent(t7[j])
    {
      NameChainHead(fetch, table[j], t1[j], t2[j], t3[j]);
      NameChainDispatch(t3[j], t4[j]);
      NameChainViaf(t4[j], t5[j], t6[j]);
      NameChainLocal(t6[j], t7[j]);
      NameColumnsChain(table[j], t3[j], t4[j], t6[j], t7[j]);
    }
  }

  /** The subject columns leave the name columns as they were. */
  lemma NamesConsistentKept(named: Row, out: Row)
    requires NamesConsistent(named)
    requires Extends(named, out, {SubjectTopicsLC, SubjectTopicsLocal})
    ensures NamesConsistent(out)
  {
    var w := {SubjectTopicsLC, SubjectTopicsLocal};
    assert NameType !in w && NamePersonCreatorLC !in w && NameCorpCreatorLC !in w;
    assert NameCorpCreatorVIAF !in w && NameCorpCreatorLocal !in w && OrgNameSources !in w;
  }

  /** The subject pass of one row whose name columns are set. */
  lemma SubjectRow(orig: Row, named: Row, out: Row, cache: map<string, string>)
    requires Extends(orig, named, NameColumns) && NamesConsistent(named)
    requires SubjectHeading in orig
    requires AddSubjectTopics(named, cache) == Success(out)
    ensures OutputRow(orig, out, cache)
  {
    assert named[SubjectHeading] == orig[SubjectHeading];
    AddSubjectTopicsPartition(named, cache);
    assert Extends(named, out, {SubjectTopicsLC, SubjectTopicsLocal});
    ExtendsTrans(orig, named, out, NameColumns, {SubjectTopicsLC, SubjectTopicsLocal});
    assert NameColumns + {SubjectTopicsLC, SubjectTopicsLocal} == DerivedColumns;
    NamesConsistentKept(named, out);
  }

  /** Rows extended by `written` agree with the originals outside it. */
  lemma ExtendsTables(t: Table, u: Table, written: set<string>)
    requires |t| == |u|
    requires forall j :: 0 <= j < |t| ==> Extends(t[j], u[j], written)
    ensures TablesAgree(t, u, written) && TablesAgree(u, t, written)
  {
    forall j | 0 <= j < |t| ensures AgreeOutside(t[j], u[j], written) && AgreeOutside(u[j], t[j], written) {
      ExtendsAgree(t[j], u[j], written);
    }
  }

  /** Row `j` of a successful pass is the pass applied to row `j`. */
  lemma ApplyPassAt(t: Table, p: Pass, j: int)
    requires ApplyRows(t, StepFn(p)).Success? && 0 <= j < |t|
    ensures Step(p, t[j]) == Success(ApplyRows(t, StepFn(p)).value[j])
  {
  }

  lemma StepSubjectTopics(row: Row, cache: map<string, string>)
    ensures Step(SubjectTopicsPass(cache), row) == AddSubjectTopics(row, cache)
  {
  }

  /** Row `j` of the subject pass over a table whose name columns are set. */
  lemma SubjectPassRow(table: Table, named: Table, cache: map<string, string>, j: int)
    requires |named| == |table|
    requires forall j :: 0 <= j < |table| ==> Extends(table[j], named[j], NameColumns) && NamesConsistent(named[j])
    requires forall j :: 0 <= j < |table| ==> SubjectHeading in table[j]
    requires ApplyRows(named, StepFn(SubjectTopicsPass(cache))).Success?
    requires 0 <= j < |table|
    ensures OutputRow(table[j], ApplyRows(named, StepFn(SubjectTopicsPass(cache))).value[j], cache)
  {
    ApplyPassAt(named, SubjectTopicsPass(cache), j);
    StepSubjectTopics(named[j], cache);
    SubjectRow(table[j], named[j], ApplyRows(named, StepFn(SubjectTopicsPass(cache))).value[j], cache);
  }

  /** Every row `main` writes is its input row with the derived columns
      added, its name columns consistent, and its subject terms partitioned
      by the cache built from the input's `Subject Heading` column. */
  lemma PipelineRow(table: Table, fetch: string -> NameRecord, headFinalUrl: string -> Option<string>, j: int)
    requires Pipeline(table, fetch, headFinalUrl).Success?
    requires 0 <= j < |table|
    ensures Column(table, SubjectHeading).Success?
    ensures OutputRow(table[j], Pipeline(table, fetch, headFinalUrl).value[j],
                      SubjectCache(Column(table, SubjectHeading).value, headFinalUrl))
  {
    NamePassesRows(table, fetch);
    var named := NamePasses(table, fetch).value;
    ExtendsTables(table, named, NameColumns);
    SubjectHeadingNotDerived();
    ColumnFrame(table, named, SubjectHeading, NameColumns);
    var cache := SubjectCache(Column(named, SubjectHeading).value, headFinalUrl);
    SubjectPassRow(table, named, cache, j);
  }

  // ---------------------------------------------------------------------
  // Re-running the pipeline on its own output

  /** Two tables of the same length whose rows agree outside `except`. */
  ghost predicate TablesAgree(t: Table, u: Table, except: set<string>) {
    && |t| == |u|
    && forall j :: 0 <= j < |t| ==> AgreeOutside(t[j], u[j], except)
  }

  /** Two outcomes of the same pass: the same exception, or tables agreeing
      outside `except`. */
  ghost predicate SameTableOutcome(rt: Result<Table, Error>, ru: Result<Table, Error>, except: set<string>) {
    && rt.Success? == ru.Success?
    && (rt.Failure? ==> rt.error == ru.error)
    && (rt.Success? ==> TablesAgree(rt.value, ru.value, except))
  }

  /** Row by row the same outcome gives the same outcome for the table: the
      first failing row is the same on both sides. */
  lemma {:induction false} ApplyRowsFrame(t: Table, u: Table, f: Row -> Result<Row, Error>, except: set<string>)
    requires |t| == |u|
    requires forall j :: 0 <= j < |t| ==> SameOutcome(f(t[j]), f(u[j]), except)
    ensures SameTableOutcome(ApplyRows(t, f), ApplyRows(u, f), except)
    decreases |t|
  {
    if |t| > 0 {
      assert SameOutcome(f(t[0]), f(u[0]), except);
      if f(t[0]).Success? {
        assert forall j :: 0 <= j < |t| - 1 ==> t[1..][j] == t[j + 1] && u[1..][j] == u[j + 1];
        ApplyRowsFrame(t[1..], u[1..], f, except);
      }
    }
  }

  /** A column outside `except` reads the same from agreeing tables. */
  lemma {:induction false} ColumnFrame(t: Table, u: Table, column: string, except: set<string>)
    requires TablesAgree(t, u, except) && column !in except
    ensures Column(t, column) == Column(u, column)
    decreases |t|
  {
    if |t| > 0 {
      assert AgreeOutside(t[0], u[0], except);
      ColumnFrame(t[1..], u[1..], column, except);
    }
  }

  /** One pass over two tables that agree outside `except`, where the pass
      reads no column of `except`. */
  lemma PassFrame(p: Pass, t: Table, u: Table, except: set<string>)
    requires TablesAgree(t, u, except)
    requires p.PersonOtherViafPass? ==> {AuthorityUsed, AuthoritizedName, Position, AuthorityId} !! except
    requires p.PersonOtherLocalPass? ==> {AuthorityUsed, AuthoritizedName, Position} !! except
    requires p.NameTypePass? ==> {UriColumn, SourceColumn} !! except
    requires p.LcNamesPass? ==> {NameType, SourceColumn, OrgNameSources, UriColumn} !! except
    requires p.LcNamesPass? ==> forall j :: 0 <= j < |t| ==> NameType in t[j] && t[j][NameType] in {"", "Personal", "Corporate"}
    requires p.CorpViafPass? ==> {SourceColumn, OrgNameSources, UriColumn} !! except
    requires p.SuppressViafPass? ==> {NameCorpCreatorLC, NameCorpCreatorVIAF} !! except
    requires p.CorpLocalPass? ==> {NameCorpCreatorLC, NameCorpCreatorVIAF, OrgNameSources} !! except
    requires p.SubjectTopicsPass? ==> SubjectHeading !in except
    ensures SameTableOutcome(ApplyRows(t, StepFn(p)), ApplyRows(u, StepFn(p)), except - Writes(p))
  {
    forall j | 0 <= j < |t|
      ensures SameOutcome(StepFn(p)(t[j]), StepFn(p)(u[j]), except - Writes(p))
    {
      var a, b := t[j], u[j];
      match p
      case PersonOtherViafPass =>
        assert ReadsOutside(PersonOtherViafTemplate, except);
        ProcessRowFrame(a, b, except, NamePersonOtherVIAF, PersonOtherViafTemplate, AuthorityUsed, "viaf");
      case PersonOtherLocalPass =>
        assert ReadsOutside(PersonOtherLocalTemplate, except);
        ProcessRowFrame(a, b, except, NamePersonOtherLocal, PersonOtherLocalTemplate, AuthorityUsed, "local");
      case NameTypePass(fetch) => MakeNameTypeFrame(a, b, except, UriColumn, SourceColumn, fetch);
      case LcNamesPass => HandlePersonAndCorpFrame(a, b, except);
      case CorpViafPass =>
        assert ReadsOutside(NameUriTemplate, except);
        ProcessRowFrame(a, b, except, NameCorpCreatorVIAF, NameUriTemplate, SourceColumn, ViafSource);
      case SuppressViafPass => SuppressViafFrame(a, b, except);
      case CorpLocalPass => AddNameCorpCreatorLocalFrame(a, b, except);
      case SubjectTopicsPass(uriDict) => AddSubjectTopicsFrame(a, b, except, uriDict);
    }
    ApplyRowsFrame(t, u, StepFn(p), except - Writes(p));
  }

  /** After the name-type pass every row has a name type. */
  lemma NameTypeSet(t: Table, fetch: string -> NameRecord)
    requires ApplyRows(t, StepFn(NameTypePass(fetch))).Success?
    ensures var r := ApplyRows(t, StepFn(NameTypePass(fetch))).value;
      forall j :: 0 <= j < |r| ==> NameType in r[j] && r[j][NameType] in {"", "Personal", "Corporate"}
  {
  }

  lemma NameFrontFrame(t: Table, u: Table, fetch: string -> NameRecord)
    requires TablesAgree(t, u, DerivedColumns)
    ensures SameTableOutcome(NameFront(t, fetch), NameFront(u, fetch), DerivedColumns - {NamePersonOtherVIAF, NamePersonOtherLocal, NameType})
    ensures NameFront(t, fetch).Success? ==>
      forall j :: 0 <= j < |t| ==>
        NameType in NameFront(t, fetch).value[j] && NameFront(t, fetch).value[j][NameType] in {"", "Personal", "Corporate"}
  {
    var e0 := DerivedColumns;
    PassFrame(PersonOtherViafPass, t, u, e0);
    var t1, u1 := ApplyRows(t, StepFn(PersonOtherViafPass)), ApplyRows(u, StepFn(PersonOtherViafPass));
    if t1.Success? {
      var e1 := e0 - {NamePersonOtherVIAF};
      PassFrame(PersonOtherLocalPass, t1.value, u1.value, e1);
      var t2, u2 := ApplyRows(t1.value, StepFn(PersonOtherLocalPass)), ApplyRows(u1.value, StepFn(PersonOtherLocalPass));
      if t2.Success? {
        var e2 := e1 - {NamePersonOtherLocal};
        PassFrame(NameTypePass(fetch), t2.value, u2.value, e2);
        assert e2 - {NameType} == DerivedColumns - {NamePersonOtherVIAF, NamePersonOtherLocal, NameType};
        if ApplyRows(t2.value, StepFn(NameTypePass(fetch))).Success? {
          NameTypeSet(t2.value, fetch);
        }
      }
    }
  }

  lemma NameBackFrame(t: Table, u: Table)
    requires TablesAgree(t, u, DerivedColumns - {NamePersonOtherVIAF, NamePersonOtherLocal, NameType})
    requires forall j :: 0 <= j < |t| ==> NameType in t[j] && t[j][NameType] in {"", "Personal", "Corporate"}
    ensures SameTableOutcome(NameBack(t), NameBack(u), {SubjectTopicsLC, SubjectTopicsLocal})
  {
    var e3 := DerivedColumns - {NamePersonOtherVIAF, NamePersonOtherLocal, NameType};
    PassFrame(LcNamesPass, t, u, e3);
    var t4, u4 := ApplyRows(t, StepFn(LcNamesPass)), ApplyRows(u, StepFn(LcNamesPass));
    if t4.Success? {
      var e4 := e3 - {NamePersonCreatorLC, NameCorpCreatorLC};
      PassFrame(CorpViafPass, t4.value, u4.value, e4);
      var t5, u5 := ApplyRows(t4.value, StepFn(CorpViafPass)), ApplyRows(u4.value, StepFn(CorpViafPass));
      if t5.Success? {
        var e5 := e4 - {NameCorpCreatorVIAF};
        PassFrame(SuppressViafPass, t5.value, u5.value, e5);
        var t6, u6 := ApplyRows(t5.value, StepFn(SuppressViafPass)), ApplyRows(u5.value, StepFn(SuppressViafPass));
        if t6.Success? {
          assert e5 - {NameCorpCreatorVIAF} == e5;
          PassFrame(CorpLocalPass, t6.value, u6.value, e5);
          assert e5 - {NameCorpCreatorLocal} == {SubjectTopicsLC, SubjectTopicsLocal};
        }
      }
    }
  }

  /** The pipeline ignores whatever the derived columns held before: two
      tables agreeing outside them give the same outcome. */
  lemma PipelineFrame(t: Table, u: Table, fetch: string -> NameRecord, headFinalUrl: string -> Option<string>)
    requires TablesAgree(t, u, DerivedColumns)
    ensures SameTableOutcome(Pipeline(t, fetch, headFinalUrl), Pipeline(u, fetch, headFinalUrl), {})
  {
    NameFrontFrame(t, u, fetch);
    if NameFront(t, fetch).Success? {
      var t3, u3 := NameFront(t, fetch).value, NameFront(u, fetch).value;
      NameBackFrame(t3, u3);
      if NameBack(t3).Success? {
        var t7, u7 := NameBack(t3).value, NameBack(u3).value;
        var e7 := {SubjectTopicsLC, SubjectTopicsLocal};
        ColumnFrame(t7, u7, SubjectHeading, e7);
        if Column(t7, SubjectHeading).Success? {
          var cache := SubjectCache(Column(t7, SubjectHeading).value, headFinalUrl);
          PassFrame(SubjectTopicsPass(cache), t7, u7, e7);
          assert e7 - Writes(SubjectTopicsPass(cache)) == {};
        }
      }
    }
  }

  /** Tables agreeing everywhere are equal. */
  lemma TablesEqual(t: Table, u: Table)
    requires TablesAgree(t, u, {})
    ensures t == u
  {
    forall j | 0 <= j < |t| ensures t[j] == u[j] {
      AgreeEverywhere(t[j], u[j]);
    }
  }

  /** Running the pipeline again on its own output gives that output back:
      every pass reads only input columns and columns an earlier pass of the
      same run has rewritten. */
  lemma PipelineIdempotent(table: Table, fetch: string -> NameRecord, headFinalUrl: string -> Option<string>)
    requires Pipeline(table, fetch, headFinalUrl).Success?
    ensures Pipeline(Pipeline(table, fetch, headFinalUrl).value, fetch, headFinalUrl)
         == Pipeline(table, fetch, headFinalUrl)
  {
    var out := Pipeline(table, fetch, headFinalUrl).value;
    forall j | 0 <= j < |table| ensures Extends(table[j], out[j], DerivedColumns) {
      PipelineRow(table, fetch, headFinalUrl, j);
    }
    ExtendsTables(table, out, DerivedColumns);
    PipelineFrame(out, table, fetch, headFinalUrl);
    TablesEqual(Pipeline(out, fetch, headFinalUrl).value, out);
  }
}
