/** The columns `main` derives (fmp_data_munge.py:571-618) and what holds of
    them in every row it writes. */
module Derived {
  import opened PipedValues
  import opened Rows
  import opened Passes

  const NamePersonOtherVIAF: string := "namePersonOtherVIAF"
  const NamePersonOtherLocal: string := "namePersonOtherLocal"

  /** Every column the pipeline writes. */
  const DerivedColumns: set<string> :=
    {NamePersonOtherVIAF, NamePersonOtherLocal, NameType, NamePersonCreatorLC, NameCorpCreatorLC,
     NameCorpCreatorVIAF, NameCorpCreatorLocal, SubjectTopicsLC, SubjectTopicsLocal}

  /** Consistency of the name columns of a processed row: one name type at
      most, the VIAF name only without an LC name, the local name only
      without either, and then it is the first organization name. */
  ghost predicate NamesConsistent(row: Row) {
    && NameType in row && row[NameType] in {"", "Personal", "Corporate"}
    && NamePersonCreatorLC in row && NameCorpCreatorLC in row
    && NameCorpCreatorVIAF in row && NameCorpCreatorLocal in row
    && (row[NameType] == "" ==> row[NamePersonCreatorLC] == "" && row[NameCorpCreatorLC] == "")
    && (row[NamePersonCreatorLC] == "" || row[NameCorpCreatorLC] == "")
    && (row[NameCorpCreatorLC] != "" ==> row[NameCorpCreatorVIAF] == "")
    && (row[NameCorpCreatorLC] != "" || row[NameCorpCreatorVIAF] != "" ==> row[NameCorpCreatorLocal] == "")
    && (row[NameCorpCreatorLC] == "" && row[NameCorpCreatorVIAF] == "" ==>
          OrgNameSources in row && row[NameCorpCreatorLocal] == Split(row[OrgNameSources])[0])
  }

  const NameColumns: set<string> :=
    {NamePersonOtherVIAF, NamePersonOtherLocal, NameType, NamePersonCreatorLC, NameCorpCreatorLC,
     NameCorpCreatorVIAF, NameCorpCreatorLocal}

  /** The name columns right after the LC-name dispatch: a name type is
      set, and at most the LC column it selects is non-empty. */
  ghost predicate LcNamesSet(row: Row) {
    && NameType in row && row[NameType] in {"", "Personal", "Corporate"}
    && NamePersonCreatorLC in row && NameCorpCreatorLC in row
    && (row[NameType] == "" ==> row[NamePersonCreatorLC] == "" && row[NameCorpCreatorLC] == "")
    && (row[NamePersonCreatorLC] == "" || row[NameCorpCreatorLC] == "")
  }

  /** The name columns right after the VIAF suppression. */
  ghost predicate ViafSet(row: Row) {
    && LcNamesSet(row)
    && NameCorpCreatorVIAF in row
    && (row[NameCorpCreatorLC] != "" ==> row[NameCorpCreatorVIAF] == "")
  }

  /** What `main` writes for one input row `orig`: the row with the
      derived columns added, its name columns consistent, and its subject
      terms split by `cache` into the linked and the local column. */
  ghost predicate OutputRow(orig: Row, out: Row, cache: map<string, string>) {
    && SubjectHeading in orig
    && Extends(orig, out, DerivedColumns)
    && NamesConsistent(out)
    && out[SubjectTopicsLC] == Join(UriTerms(Split(orig[SubjectHeading]), cache), PipeSep)
    && out[SubjectTopicsLocal] == Join(LocalTerms(Split(orig[SubjectHeading]), cache), PipeSep)
  }

  /** The pipeline reads the subject headings and never writes them. */
  lemma SubjectHeadingNotDerived()
    ensures SubjectHeading !in DerivedColumns && SubjectHeading !in NameColumns
  {
  }
}
