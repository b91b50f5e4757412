# fmp_data_munge in Dafny

A model of the derived-field pipeline of `fmp_data_munge.py`. The script reads a
FileMaker export in which repeated groups (names, roles, authorities, URIs,
subject terms) are stored as `|`-separated cells. It adds one column per
derived field, composing each from the aligned pieces of other columns with a
template of `FormattedOutput` chunks and an optional case-insensitive mask. It
also resolves subject terms and name types against the Library of Congress
authority services.

The model has one module per file:

- `Wrappers` (wrappers.dfy): `Option` and `Result`.
- `PipedValues` (piped.dfy): `split('|')`, `'|'.join`, ASCII `lower()`, the
  `zip`-with-flags selection and `reduce_list`.
- `Rows` (rows.dfy): a row is a `map<string, string>` and a table a sequence of
  rows. It holds the exceptions the code raises (`ValueError` twice over,
  `KeyError`, `IndexError`, `TypeError`) and `df.apply(..., axis=1)`. The first
  row that raises aborts the pass.
- `Builders` (builders.dfy): `build_uri`, `create_formatted_date` and
  `create_authority_name`, plus how Python binds the keyword arguments a
  template passes to them.
- `Compose` (compose.dfy): `FormattedOutput` and `process_row`.
- `Authority` (authority.dfy): `get_unique_values_from_column`,
  `build_uri_dict` (a method that records its lookups), the `.json` strip of
  `lc_get_subject_uri`, and the `@type` classification of `lc_get_name_type`.
- `Passes` (passes.dfy): `add_subjectTopics`, `make_name_type_column`,
  `handle_person_and_corp_lc_names`, the VIAF suppression and
  `add_nameCorpCreatorLocal_column`.
- `Frames` (frames.dfy): which columns each row operation reads.
- `Derived` (derived.dfy): the columns `main` derives and the consistency
  every output row satisfies.
- `Pipeline` (pipeline.dfy): `main`'s passes in order. It proves what every
  output row satisfies, and that running the pipeline on its own output
  changes nothing.
- `Scenarios` (scenarios.dfy): worked examples of the VIAF pass and of the
  mask filter, on concrete and on symbolic rows.

The HTTP requests are parameters, each the answer of the remote service:
- `headFinalUrl` stands for the HEAD request of `lc_get_subject_uri`. It gives
  the final URL after redirects, or nothing.
- `fetch` stands for the GET request of `lc_get_name_type`. It gives no
  response, a response without a record for the URI, or the record's `@type`
  list.

Where the code does something a reader may not expect, the model follows the
code:
- `reduce_list` zips the pieces with the flags. It truncates to the shorter
  list and raises no shape error. The mask of `process_row` does not zip: a
  position past the end of a referenced column raises `IndexError`.
- Without a mask, `process_row` composes one position per column of the row
  (`len(row)`), not a single position.
- A builder that returns `None` inside a template makes `+=` raise `TypeError`.
  It does not contribute nothing.
- An unknown authority code raises `KeyError`.
- A name record without an entry for the URI raises `IndexError`. It does not
  mean "unknown".
- The fallback of `add_nameCorpCreatorLocal_column` to
  `Organization Name_subjects` is not modelled. The model proves it
  unreachable: `split` never returns an empty list, so an empty sources cell
  gives an empty local name.

## Model

| member | source | states |
|---|---|---|
| PipedValues.Split | fmp_data_munge.py:230 | `split('|')` returns at least one piece, and no piece contains `|` |
| PipedValues.JoinOfSplit | fmp_data_munge.py:230 | joining the pieces of a cell with `|` gives the cell back |
| PipedValues.SplitOfJoin | fmp_data_munge.py:230 | splitting the `|`-join of pipe-free pieces gives the pieces back |
| PipedValues.Piece | fmp_data_munge.py:297 | the i-th piece exists exactly when i is below the number of pieces, and it holds no `|` |
| PipedValues.Lower | fmp_data_munge.py:279 | lower-casing keeps the length and maps each character independently |
| PipedValues.LowerIdempotent | fmp_data_munge.py:206 | lower-casing twice is lower-casing once |
| PipedValues.PositionsFrom | fmp_data_munge.py:287-288 | the flagged positions are in range, strictly increasing, and include every flagged position |
| PipedValues.SelectKeepsFlagged | fmp_data_munge.py:230 | the `zip` selection keeps exactly the pieces at flagged positions within the shorter list, in order |
| PipedValues.SelectLength | fmp_data_munge.py:230 | one selected piece per flagged position within the `zip` |
| PipedValues.SelectTrim | fmp_data_munge.py:230 | flags beyond the last piece do not change the `zip` selection |
| PipedValues.SelectAt | fmp_data_munge.py:230 | with no flag beyond the pieces, the k-th selected piece is the piece at the k-th flagged position |
| PipedValues.ReduceList | fmp_data_munge.py:214-230 | `reduce_list` is `''` when nothing is kept, and otherwise splits back into exactly the kept pieces |
| PipedValues.SelectPipeFree | fmp_data_munge.py:230 | selected pieces stay pipe-free |
| PipedValues.ReduceListAllTrue | fmp_data_munge.py:214-230 | all flags set and as many flags as pieces gives the cell unchanged |
| PipedValues.ReduceListAllFalse | fmp_data_munge.py:214-230 | no flag set gives `''` |
| PipedValues.PresentOnly | fmp_data_munge.py:168-169 | the `if i` filter keeps only non-empty values |
| PipedValues.PresentOnlyIsSelect | fmp_data_munge.py:168-169 | the `if i` filter keeps exactly the present values, in their order: it selects each value flagged by its own presence |
| Rows.Get | fmp_data_munge.py:324 | `row[column]` is the cell when the column exists and raises `KeyError(column)` otherwise |
| Rows.PieceOf | fmp_data_munge.py:297 | `row[column].split('|')[i]`: `KeyError` for a missing column, `IndexError` when there is no i-th piece, otherwise the i-th piece |
| Rows.ApplyRows | fmp_data_munge.py:579 | `df.apply(f, axis=1)` succeeds exactly when `f` succeeds on every row and keeps row order; a failure is the exception of the first row that raises |
| Rows.Column | fmp_data_munge.py:616 | `df[column]` lists the column's cells in row order, or raises `KeyError` when a row lacks it |
| Builders.BuildUri | fmp_data_munge.py:186-212 | `build_uri`: no URI for a missing, empty or `local` authority; the LC or VIAF prefix followed by the id for `lc`/`viaf` in any case; `KeyError` of the lower-cased code otherwise |
| Builders.BuildUriIgnoresCase | fmp_data_munge.py:206-209 | the authority code's letter case does not matter |
| Builders.CreateFormattedDate | fmp_data_munge.py:171-184 | the date range is empty exactly when both dates are, a single date alone, or `start - end` |
| Builders.CreateAuthorityName | fmp_data_munge.py:145-169 | the result is empty exactly when no field is set, starts with the name when there is one, and is `name, date, role uri` when all four are set |
| Builders.CreateAuthorityNameExample | fmp_data_munge.py:149-151 | the docstring example gives `Smith, John, 1970, author http://id.loc.gov/authorities/names/n79021383` |
| Builders.Call | fmp_data_munge.py:302 | `function(**built_kwargs)`: the named builder applied to the bound arguments; `build_uri` and `create_formatted_date` raise `TypeError` unless given exactly their parameters, `create_authority_name` always returns a string, and only `build_uri` can return `None` |
| Compose.Params | fmp_data_munge.py:300 | the parameter names of a kwargs dict are exactly its keys |
| Compose.BuildKwargsSucceeds | fmp_data_munge.py:299-301 | building the kwargs succeeds exactly when every referenced column has an i-th piece; otherwise the first failing pair's exception is raised |
| Compose.BuildKwargsKeys | fmp_data_munge.py:299-301 | the built kwargs bind exactly the declared parameter names |
| Compose.BuildKwargsKeeps | fmp_data_munge.py:299-301 | bindings made before and not re-declared are kept |
| Compose.BuildKwargsBinds | fmp_data_munge.py:299-301 | with distinct parameter names, each parameter is bound to its column's i-th piece |
| Compose.ChunkStepAppends | fmp_data_munge.py:290-302 | one chunk of the inner loop appends that chunk's text, column piece and function result to the accumulated text, or raises its exception |
| Compose.AppendCallPrepend | fmp_data_munge.py:298-302 | appending a function result commutes with prefixing the accumulated text |
| Compose.ComposeFromIsConcat | fmp_data_munge.py:289-303 | the inner loop from an accumulated text appends the concatenation of the chunks' contributions |
| Compose.ComposeIsConcatenation | fmp_data_munge.py:289-303 | the text composed at a position is the concatenation of every chunk's contribution, in template order; the first chunk that raises decides the exception |
| Compose.ComposeAt | fmp_data_munge.py:287-303 | composing a list of positions succeeds exactly when every position composes, keeps their order, and fails with the exception of the first position that raises |
| Compose.ComposeSelectedIsComposeAt | fmp_data_munge.py:287-303 | the outer loop composes exactly the flagged positions, in order |
| Compose.ProcessRow | fmp_data_munge.py:232-307 | exactly one mask argument raises `ValueError`; a missing mask column raises `KeyError`; on success only the new column is added or overwritten |
| Compose.IncludedPositions | fmp_data_munge.py:276-283 | with both mask arguments non-empty, the included positions are those whose mask piece equals the mask value ignoring case, in increasing order; otherwise they are `0 .. len(row) - 1` |
| Compose.AllPositions | fmp_data_munge.py:282 | all flags set includes every position |
| Compose.ProcessRowComposesIncluded | fmp_data_munge.py:276-305 | the new column is the `|`-join of the texts composed at the included positions, in positional order; the first included position that raises aborts the row |
| Compose.ProcessRowNoMatch | fmp_data_munge.py:285-305 | when no position is included the new column is `''`, whatever the template holds |
| Compose.EmptyMaskIsNoMask | fmp_data_munge.py:277 | an empty mask column or mask value is treated as no mask |
| Compose.ConcatChunksMalformed | fmp_data_munge.py:292-293 | a chunk with a function but no kwargs, or kwargs but no function, makes composition fail, with `ValueError` when nothing before it raises |
| Compose.ProcessRowRejectsMalformed | fmp_data_munge.py:290-293 | a malformed chunk makes `process_row` fail when some position is included, with `ValueError` when only text chunks precede it |
| Compose.ColumnTemplate | fmp_data_munge.py:296-297 | a single column-reference chunk composes the column's i-th piece |
| Compose.UnmaskedShortColumnRaises | fmp_data_munge.py:282 | without a mask, a referenced column with fewer pieces than the row has columns raises `IndexError` |
| Compose.BuildUriCallRaises | fmp_data_munge.py:298-302 | with both columns long enough, a `build_uri` chunk raises `TypeError` exactly when the authority piece is empty or `local` in any letter case |
| Compose.FunctionTemplate | fmp_data_munge.py:298-302 | a template holding only a function chunk composes that function's text |
| Compose.ComposeAtRaisesAt | fmp_data_munge.py:286-302 | a raising position makes the composition of the positions fail, with its exception when every earlier position composes |
| Compose.ProcessRowRaisesAt | fmp_data_munge.py:286-302 | an included position that raises makes `process_row` fail, with its exception when it is the first included position that raises |
| Compose.ProcessRowBuildUriRaises | fmp_data_munge.py:286-302 | an included position whose authority piece is empty or `local` makes `process_row` with a `build_uri` template fail, with `TypeError` when no earlier included position raises |
| Authority.UniqueValues | fmp_data_munge.py:400-414 | a value is collected exactly when it is a piece of some cell |
| Authority.BuildUriDict | fmp_data_munge.py:416-434 | the lookup is called once per value, and the cache maps exactly the values with a truthy URI to that URI |
| Authority.StripJsonSuffix | fmp_data_munge.py:362-365 | a trailing `.json` is removed and any other URL is kept |
| Authority.StripJsonSuffixInverse | fmp_data_munge.py:363-364 | stripping undoes one appended `.json` |
| Authority.LcGetSubjectUri | fmp_data_munge.py:349-366 | a URI exactly when the HEAD request is ok: the final URL, without its `.json` suffix if it has one |
| Authority.ClassifyNameTypes | fmp_data_munge.py:388-395 | `Corporate` when the corporate marker is present, even alongside the personal one; `Personal` when only the personal marker is; nothing otherwise |
| Authority.LcGetNameType | fmp_data_munge.py:368-397 | no type when the request fails, `IndexError` exactly when no record has the URI as `@id`, otherwise the classification of its `@type` list |
| Passes.SelectedAreLinked | fmp_data_munge.py:456-461 | every term selected as linked has a truthy URI in the cache |
| Passes.UriTerms | fmp_data_munge.py:457-459 | the linked side lists each linked term followed by a space and its URI, in heading order |
| Passes.SortTermsIsSelect | fmp_data_munge.py:454-461 | the loop's two lists are the linked and the unlinked terms, each in heading order |
| Passes.SortTermsCounts | fmp_data_munge.py:456-461 | every term lands on exactly one side |
| Passes.JoinOrEmpty | fmp_data_munge.py:462-469 | padding an empty list with `''` joins to `''`, and a single term joins to itself |
| Passes.AddSubjectTopics | fmp_data_munge.py:436-472 | succeeds exactly when the row has `Subject Heading` (else `KeyError`), and writes only the two subject columns |
| Passes.AddSubjectTopicsPartition | fmp_data_munge.py:451-469 | `subjectTopicsLC` joins the linked terms with their URIs and `subjectTopicsLocal` the others, in heading order; the two sides together have one entry per term, and the local side splits back into its terms |
| Passes.AddSubjectTopicsNoneLinked | fmp_data_munge.py:451-469 | with no term linked, the heading is copied to the local column and the LC column is `''` |
| Passes.FirstIndex | fmp_data_munge.py:497-500 | the index found holds the value and no earlier index does |
| Passes.NameTypeText | fmp_data_munge.py:506-509 | the name type column receives the looked-up type, `''` for no type, and the lookup's exception when it raises |
| Passes.MakeNameTypeColumn | fmp_data_munge.py:474-512 | no `LCNAF` authority gives `''`; a missing authority column raises `KeyError`; on success only `Name Type` is written, with one of `''`, `Personal`, `Corporate` |
| Passes.MakeNameTypeFirstLcnaf | fmp_data_munge.py:489-509 | only the URI aligned with the first `LCNAF` authority is looked up: a missing URI column raises `KeyError`, no aligned URI raises `IndexError`, an empty URI gives `''`, otherwise the record's classification |
| Passes.NameUriAt | fmp_data_munge.py:534-538 | the name template composes the i-th organization name, a space and the i-th URI, or raises `IndexError` |
| Passes.NameUriColumn | fmp_data_munge.py:534-548 | the masked name column joins, for each position whose source matches, its name and URI; `IndexError` exactly when a matching position lacks either |
| Passes.HandlePersonAndCorpLcNames | fmp_data_munge.py:514-553 | an empty name type empties both LC columns; `Personal` and `Corporate` fill their own column and empty the other; another name type leaves the row unchanged; a missing `Name Type` raises `KeyError` |
| Passes.HandlePersonAndCorpNamesLcnaf | fmp_data_munge.py:540-550 | the column the name type selects receives each `LCNAF` source's name and URI, in order |
| Passes.SuppressViaf | fmp_data_munge.py:605 | the VIAF column is kept when the LC column is empty and is `''` otherwise, and it is only read when needed |
| Passes.AddNameCorpCreatorLocal | fmp_data_munge.py:309-347 | an LC or VIAF corporate name empties the local column; only that column is written; a missing LC column raises `KeyError` |
| Passes.AddNameCorpCreatorLocalFirstSource | fmp_data_munge.py:335-345 | with neither name, the local name is the first organization name of the sources sheet, and the subjects sheet is never consulted |
| Frames.BuildKwargsFrame | fmp_data_munge.py:299-301 | building the kwargs reads only the referenced columns |
| Frames.ChunkStepFrame | fmp_data_munge.py:290-302 | a chunk reads only its column and its kwargs columns |
| Frames.ComposeFromFrame | fmp_data_munge.py:289-303 | composition reads only the template's columns |
| Frames.ComposeSelectedFrame | fmp_data_munge.py:287-303 | the outer loop reads only the template's columns |
| Frames.ProcessRowFrame | fmp_data_munge.py:277-305 | a masked `process_row` depends only on the mask column and the template's columns, and changes only the new column |
| Frames.MakeNameTypeFrame | fmp_data_munge.py:489-509 | the name type depends only on the URI and authority columns |
| Frames.HandlePersonAndCorpFrame | fmp_data_munge.py:529-550 | the LC names depend only on `Name Type`, `Source`, the organization names and the URIs |
| Frames.SuppressViafFrame | fmp_data_munge.py:605 | the suppression reads only the LC and VIAF columns |
| Frames.AddNameCorpCreatorLocalFrame | fmp_data_munge.py:324-337 | the local name depends only on the LC and VIAF columns and the sources sheet |
| Frames.AddSubjectTopicsFrame | fmp_data_munge.py:451-469 | the subject columns depend only on `Subject Heading` |
| Derived.SubjectHeadingNotDerived | fmp_data_munge.py:571-618 | no pass writes `Subject Heading` |
| Pipeline.NameFront | fmp_data_munge.py:571-591 | the other-person and name type passes keep the number of rows |
| Pipeline.NameBack | fmp_data_munge.py:593-613 | the creator-name passes keep the number of rows |
| Pipeline.NamePasses | fmp_data_munge.py:571-613 | all name passes keep the number of rows |
| Pipeline.Pipeline | fmp_data_munge.py:571-618 | the output table has one row per input row |
| Pipeline.StepExtends | fmp_data_munge.py:571-618 | each pass adds or overwrites only its own columns |
| Pipeline.NameChainHead | fmp_data_munge.py:579-591 | after the first three passes the row gains the two other-person columns and a valid `Name Type` |
| Pipeline.NameChainDispatch | fmp_data_munge.py:594 | the LC dispatch sets both LC columns, at most the selected one non-empty |
| Pipeline.NameChainViaf | fmp_data_munge.py:602-605 | after the VIAF pass and its suppression, a VIAF corporate name appears only when no LC corporate name does |
| Pipeline.NameChainLocal | fmp_data_munge.py:613 | after the local pass, the name columns are consistent: the local name only without an LC or VIAF name, and then the first organization name |
| Pipeline.NamePassesRows | fmp_data_munge.py:571-613 | every row after the name passes is its input row plus the name columns, and those are consistent |
| Pipeline.SubjectRow | fmp_data_munge.py:618 | the subject pass keeps the name columns consistent and splits the original heading by the cache |
| Pipeline.SubjectPassRow | fmp_data_munge.py:618 | the same, for each row of the subject pass |
| Pipeline.PipelineRow | fmp_data_munge.py:571-618 | every output row is its input row with exactly the derived columns added or overwritten: consistent name columns, and the subject terms split between the linked and the local column by the cache built from all headings |
| Pipeline.ApplyRowsFrame | fmp_data_munge.py:579 | a row-wise pass over tables whose rows give the same outcome gives the same outcome |
| Pipeline.ColumnFrame | fmp_data_munge.py:616 | a column read from tables that agree on it is the same |
| Pipeline.PassFrame | fmp_data_munge.py:571-618 | each pass depends only on the columns it reads |
| Pipeline.NameTypeSet | fmp_data_munge.py:591 | after the name type pass every row has a valid `Name Type` |
| Pipeline.NameFrontFrame | fmp_data_munge.py:571-591 | the first three passes ignore the earlier contents of the derived columns |
| Pipeline.NameBackFrame | fmp_data_munge.py:593-613 | the creator-name passes ignore the earlier contents of the creator and subject columns |
| Pipeline.PipelineFrame | fmp_data_munge.py:571-618 | the pipeline's outcome does not depend on the earlier contents of any derived column |
| Pipeline.PipelineIdempotent | fmp_data_munge.py:571-618 | running the pipeline on its own output, with the same services, gives the same table |
| Scenarios.MaskedPositionsSingle | fmp_data_munge.py:279 | a mask matching one piece includes only its position |
| Scenarios.ProcessRowSingle | fmp_data_munge.py:287-305 | with one included position the new column is that position's composed text |
| Scenarios.MaskKeepsMatchingPiece | fmp_data_munge.py:264-266 | masking a column by another keeps only the piece whose mask piece matches |
| Scenarios.ChunkTextLiteral | fmp_data_munge.py:294-295 | a text chunk contributes its text |
| Scenarios.ChunkTextColumn | fmp_data_munge.py:296-297 | a column chunk contributes the column's i-th piece |
| Scenarios.ChunkTextFunction | fmp_data_munge.py:298-302 | a function chunk contributes the builder's result |
| Scenarios.TwoPeopleKwargs | fmp_data_munge.py:299-301 | the VIAF template binds `authority` and `id` to the first person's authority and id |
| Scenarios.TwoPeopleViafUri | fmp_data_munge.py:577 | a `viaf` authority builds the VIAF URI of its id |
| Scenarios.TwoPeopleFirst | fmp_data_munge.py:572-578 | the VIAF template composes name, role and VIAF URI |
| Scenarios.ViafPassSkipsOtherAuthorities | fmp_data_munge.py:579 | of two people only the one with a `viaf` authority appears in `namePersonOtherVIAF`; the other person's authority code is not looked up |
| Scenarios.ViafPassExample | fmp_data_munge.py:572-579 | `Smith, John` (viaf, 100) and `Doe, Jane` (local) give `Smith, John, author http://viaf.org/viaf/100` |
| Scenarios.MaskKeepsMiddleAuthor | fmp_data_munge.py:264-266 | of three authors the one whose source matches the mask is kept |
| Scenarios.MaskFilterExample | fmp_data_munge.py:279 | `Smith|Jones|Lee` masked by `LCNAF|local|VIAF` with `local` gives `Jones` |

## Left out

- Reading the CSV (`read_csv`, `make_df`), argument parsing, logging, the
  diagnostic prints and writing the output file are I/O. `main` is modelled
  from the first derived column to the last (lines 571-618).
- The HTTP requests are oracle parameters. The model does not include
  redirects, timeouts, JSON decoding or the 0.2 s pause between lookups.
- PipedValues.Lower: folds ASCII letters only. Python's `str.lower` also folds
  other scripts, and the model has no Unicode tables.
- Authority.BuildUriDict: iterates the set in an unspecified order. Python's
  set order is an implementation detail, and the cache does not depend on it.
- Rows.ApplyRows: a row lacking a column raises `KeyError`. pandas would
  instead fill missing cells with NaN when the rows returned by one
  `df.apply` have different columns. In `main` that could only follow a name
  type other than `''`, `Personal` or `Corporate`, which `lc_get_name_type`
  never returns.
- Rows.ApplyRows: a table with no data rows gives an empty table. pandas
  `apply` on an empty frame returns a copy of the frame, so no derived column
  is added, and the assignment of `nameCorpCreatorVIAF` (line 605) receives an
  empty frame instead of a column. The model does not follow that path.
- Compose.BuildKwargs: `kwargs` is a list of pairs, so it can name one
  parameter twice, which a Python dict cannot. The later pair wins, as in a
  dict display, but the column of the earlier pair is still read. Every
  template in `main` names distinct parameters (`DistinctParams`).
- Cells are strings. pandas NaN cells and non-string values are not modelled.
- Builders.Call: a template can call only the three builders of the file. A
  `FormattedOutput` may reference any callable, and the model has no
  representation for arbitrary Python functions.
- Builders.CreateAuthorityName: the contract fixes when the result is empty,
  that it starts with the name, and the result when all four fields are set.
  For the other combinations of missing fields it states nothing beyond the
  definition, which drops each empty part before joining.
