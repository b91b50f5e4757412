/** What each row operation reads: two rows that agree on every column an
    operation reads give it the same outcome, and the columns it writes
    then agree as well. */
module Frames {
  import opened Wrappers
  import opened PipedValues
  import opened Rows
  import opened Builders
  import opened Compose
  import opened Authority
  import opened Passes

  /** `a` and `b` hold the same columns with the same cells, except perhaps
      the columns in `except`. */
  ghost predicate AgreeOutside(a: Row, b: Row, except: set<string>) {
    forall k :: k !in except ==> (k in a <==> k in b) && (k in a ==> a[k] == b[k])
  }

  /** Two outcomes of the same row operation: both raise the same exception,
      or both succeed with rows agreeing outside `except`. */
  ghost predicate SameOutcome(ra: Result<Row, Error>, rb: Result<Row, Error>, except: set<string>) {
    && ra.Success? == rb.Success?
    && (ra.Failure? ==> ra.error == rb.error)
    && (ra.Success? ==> AgreeOutside(ra.value, rb.value, except))
  }

  /** Rows that agree everywhere are equal. */
  lemma AgreeEverywhere(a: Row, b: Row)
    requires AgreeOutside(a, b, {})
    ensures a == b
  {
    assert a.Keys == b.Keys;
  }

  /** Setting the same column to the same cell keeps two rows in agreement
      outside `except`, and makes them agree on that column too. */
  lemma AgreeAfterSet(a: Row, b: Row, except: set<string>, column: string, cell: string)
    requires AgreeOutside(a, b, except)
    ensures AgreeOutside(a[column := cell], b[column := cell], except - {column})
  {
  }

  /** The columns a chunk reads lie outside `except`. */
  predicate ChunkReadsOutside(c: Chunk, except: set<string>) {
    && (c.columnName.Some? ==> c.columnName.value !in except)
    && (c.kwargs.Some? ==> forall m :: 0 <= m < |c.kwargs.value| ==> c.kwargs.value[m].1 !in except)
  }

  /** The columns a template reads lie outside `except`. */
  predicate ReadsOutside(template: Template, except: set<string>) {
    forall k :: 0 <= k < |template| ==> ChunkReadsOutside(template[k], except)
  }

  lemma {:induction false} BuildKwargsFrame(kwargs: seq<(string, string)>, a: Row, b: Row, i: nat,
                                            built: map<string, string>, except: set<string>)
    requires AgreeOutside(a, b, except)
    requires forall m :: 0 <= m < |kwargs| ==> kwargs[m].1 !in except
    ensures BuildKwargs(kwargs, a, i, built) == BuildKwargs(kwargs, b, i, built)
    decreases |kwargs|
  {
    if |kwargs| > 0 {
      var piece := PieceOf(a, kwargs[0].1, i);
      assert piece == PieceOf(b, kwargs[0].1, i);
      if piece.Success? {
        BuildKwargsFrame(kwargs[1..], a, b, i, built[kwargs[0].0 := piece.value], except);
      }
    }
  }

  lemma ChunkStepFrame(c: Chunk, a: Row, b: Row, i: nat, acc: string, except: set<string>)
    requires AgreeOutside(a, b, except)
    requires ChunkReadsOutside(c, except)
    ensures ChunkStep(c, a, i, acc) == ChunkStep(c, b, i, acc)
  {
    if c.kwargs.Some? {
      BuildKwargsFrame(c.kwargs.value, a, b, i, map[], except);
    }
  }

  lemma {:induction false} ComposeFromFrame(template: Template, a: Row, b: Row, i: nat, acc: string, except: set<string>)
    requires AgreeOutside(a, b, except)
    requires ReadsOutside(template, except)
    ensures ComposeFrom(template, a, i, acc) == ComposeFrom(template, b, i, acc)
    decreases |template|
  {
    if |template| > 0 {
      ChunkStepFrame(template[0], a, b, i, acc, except);
      var next := ChunkStep(template[0], a, i, acc);
      if next.Success? {
        ComposeFromFrame(template[1..], a, b, i, next.value, except);
      }
    }
  }

  lemma {:induction false} ComposeSelectedFrame(template: Template, a: Row, b: Row, flags: seq<bool>,
                                                start: nat, except: set<string>)
    requires AgreeOutside(a, b, except)
    requires ReadsOutside(template, except)
    ensures ComposeSelected(template, a, flags, start) == ComposeSelected(template, b, flags, start)
    decreases |flags|
  {
    if |flags| > 0 {
      ComposeFromFrame(template, a, b, start, "", except);
      ComposeSelectedFrame(template, a, b, flags[1..], start + 1, except);
    }
  }

  /** A masked `process_row` depends only on the mask column and the columns
      its template reads. (Unmasked, it also depends on how many columns the
      row has.) */
  lemma ProcessRowFrame(a: Row, b: Row, except: set<string>, newColumn: string, template: Template,
                        maskColumn: string, maskValue: string)
    requires AgreeOutside(a, b, except)
    requires ReadsOutside(template, except)
    requires maskColumn != "" && maskValue != "" && maskColumn !in except
    ensures SameOutcome(ProcessRow(a, newColumn, template, Some(maskColumn), Some(maskValue)),
                        ProcessRow(b, newColumn, template, Some(maskColumn), Some(maskValue)),
                        except - {newColumn})
  {
    var flags := PositionFlags(a, Some(maskColumn), Some(maskValue));
    assert flags == PositionFlags(b, Some(maskColumn), Some(maskValue));
    if flags.Success? {
      ComposeSelectedFrame(template, a, b, flags.value, 0, except);
      var composed := ComposeSelected(template, a, flags.value, 0);
      if composed.Success? {
        AgreeAfterSet(a, b, except, newColumn, Join(composed.value, PipeSep));
      }
    }
  }

  lemma MakeNameTypeFrame(a: Row, b: Row, except: set<string>, uriColumn: string, authorityColumn: string,
                          fetch: string -> NameRecord)
    requires AgreeOutside(a, b, except)
    requires uriColumn !in except && authorityColumn !in except
    ensures SameOutcome(MakeNameTypeColumn(a, uriColumn, authorityColumn, fetch),
                        MakeNameTypeColumn(b, uriColumn, authorityColumn, fetch),
                        except - {NameType})
  {
    var ra := MakeNameTypeColumn(a, uriColumn, authorityColumn, fetch);
    if ra.Success? {
      AgreeAfterSet(a, b, except, NameType, ra.value[NameType]);
    }
  }

  lemma HandlePersonAndCorpFrame(a: Row, b: Row, except: set<string>)
    requires AgreeOutside(a, b, except)
    requires NameType !in except && SourceColumn !in except
    requires OrgNameSources !in except && UriColumn !in except
    requires NameType in a ==> a[NameType] in {"", "Personal", "Corporate"}
    ensures SameOutcome(HandlePersonAndCorpLcNames(a), HandlePersonAndCorpLcNames(b),
                        except - {NamePersonCreatorLC, NameCorpCreatorLC})
  {
    assert ReadsOutside(NameUriTemplate, except);
    var both := {NamePersonCreatorLC, NameCorpCreatorLC};
    if NameType in a && a[NameType] == "" {
      AgreeAfterSet(a, b, except, NamePersonCreatorLC, "");
      AgreeAfterSet(a[NamePersonCreatorLC := ""], b[NamePersonCreatorLC := ""], except - {NamePersonCreatorLC},
                    NameCorpCreatorLC, "");
      assert except - {NamePersonCreatorLC} - {NameCorpCreatorLC} == except - both;
    } else if NameType in a && a[NameType] in {"Personal", "Corporate"} {
      var (written, other) := if a[NameType] == "Personal" then (NamePersonCreatorLC, NameCorpCreatorLC)
                            else (NameCorpCreatorLC, NamePersonCreatorLC);
      ProcessRowFrame(a, b, except, written, NameUriTemplate, SourceColumn, LcnafSource);
      var pa := ProcessRow(a, written, NameUriTemplate, Some(SourceColumn), Some(LcnafSource));
      var pb := ProcessRow(b, written, NameUriTemplate, Some(SourceColumn), Some(LcnafSource));
      if pa.Success? {
        AgreeAfterSet(pa.value, pb.value, except - {written}, other, "");
        assert except - {written} - {other} == except - both;
      }
    }
  }

  lemma SuppressViafFrame(a: Row, b: Row, except: set<string>)
    requires AgreeOutside(a, b, except)
    requires NameCorpCreatorLC !in except && NameCorpCreatorVIAF !in except
    ensures SameOutcome(SuppressViaf(a), SuppressViaf(b), except - {NameCorpCreatorVIAF})
  {
  }

  lemma AddNameCorpCreatorLocalFrame(a: Row, b: Row, except: set<string>)
    requires AgreeOutside(a, b, except)
    requires NameCorpCreatorLC !in except && NameCorpCreatorVIAF !in except && OrgNameSources !in except
    ensures SameOutcome(AddNameCorpCreatorLocal(a), AddNameCorpCreatorLocal(b), except - {NameCorpCreatorLocal})
  {
  }

  lemma AddSubjectTopicsFrame(a: Row, b: Row, except: set<string>, uriDict: map<string, string>)
    requires AgreeOutside(a, b, except)
    requires SubjectHeading !in except
    ensures SameOutcome(AddSubjectTopics(a, uriDict), AddSubjectTopics(b, uriDict),
                        except - {SubjectTopicsLC, SubjectTopicsLocal})
  {
  }
}
