/** The composition engine: the `FormattedOutput` template chunks and
    `process_row` (fmp_data_munge.py:78-102, 232-307). */
module Compose {
  import opened Wrappers
  import opened PipedValues
  import opened Rows
  import opened Builders

  /** `FormattedOutput(text, column_name, function, kwargs)`. Every field is
      optional; `kwargs` binds builder parameters to the columns that feed
      them, in dict order. */
  datatype Chunk = Chunk(
    text: Option<string>,
    columnName: Option<string>,
    fn: Option<Builder>,
    kwargs: Option<seq<(string, string)>>)

  /** An `output_format`: the chunks of one composed value, in order. */
  type Template = seq<Chunk>

  function Literal(s: string): Chunk {
    Chunk(Some(s), None, None, None)
  }

  function ColumnRef(column: string): Chunk {
    Chunk(None, Some(column), None, None)
  }

  function FunctionRef(fn: Builder, kwargs: seq<(string, string)>): Chunk {
    Chunk(None, None, Some(fn), Some(kwargs))
  }

  /** `callable(chunk.function) ^ isinstance(chunk.kwargs, dict)`. */
  predicate Malformed(c: Chunk) {
    c.fn.Some? != c.kwargs.Some?
  }

  /** The parameter names bound by `kwargs`. */
  function Params(kwargs: seq<(string, string)>): (ps: set<string>)
    ensures forall k :: 0 <= k < |kwargs| ==> kwargs[k].0 in ps
    ensures forall p :: p in ps ==> exists k :: 0 <= k < |kwargs| && kwargs[k].0 == p
    decreases |kwargs|
  {
    if |kwargs| == 0 then {} else {kwargs[0].0} + Params(kwargs[1..])
  }

  /** `built_kwargs[k] = row[v].split('|')[i]` for every `k, v` in dict order,
      starting from the bindings in `built`. */
  function BuildKwargs(kwargs: seq<(string, string)>, row: Row, i: nat, built: map<string, string>)
    : (r: Result<map<string, string>, Error>)
    decreases |kwargs|
  {
    if |kwargs| == 0 then Success(built)
    else
      var piece :- PieceOf(row, kwargs[0].1, i);
      BuildKwargs(kwargs[1..], row, i, built[kwargs[0].0 := piece])
  }

  /** Binding succeeds exactly when every kwargs column exists and has an
      i-th piece; otherwise the first pair that fails decides the exception. */
  lemma {:induction false} BuildKwargsSucceeds(kwargs: seq<(string, string)>, row: Row, i: nat, built: map<string, string>)
    ensures var r := BuildKwargs(kwargs, row, i, built);
      && (r.Success? <==> forall k :: 0 <= k < |kwargs| ==> PieceOf(row, kwargs[k].1, i).Success?)
      && (r.Failure? ==>
            exists k :: 0 <= k < |kwargs| && PieceOf(row, kwargs[k].1, i) == Failure(r.error)
              && (forall l :: 0 <= l < k ==> PieceOf(row, kwargs[l].1, i).Success?))
    decreases |kwargs|
  {
    if |kwargs| > 0 {
      var piece := PieceOf(row, kwargs[0].1, i);
      if piece.Success? {
        var rest := kwargs[1..];
        assert forall k :: 1 <= k < |kwargs| ==> kwargs[k] == rest[k - 1];
        BuildKwargsSucceeds(rest, row, i, built[kwargs[0].0 := piece.value]);
        var r := BuildKwargs(kwargs, row, i, built);
        if r.Failure? {
          var k :| 0 <= k < |rest| && PieceOf(row, rest[k].1, i) == Failure(r.error)
            && (forall l :: 0 <= l < k ==> PieceOf(row, rest[l].1, i).Success?);
          assert PieceOf(row, kwargs[k + 1].1, i) == Failure(r.error);
        }
      }
    }
  }

  /** No two pairs of `kwargs` bind the same parameter, as in a dict. */
  predicate DistinctParams(kwargs: seq<(string, string)>) {
    forall k, l :: 0 <= k < l < |kwargs| ==> kwargs[k].0 != kwargs[l].0
  }

  /** A successful binding binds exactly the kwargs parameters on top of the
      bindings it started from. */
  lemma {:induction false} BuildKwargsKeys(kwargs: seq<(string, string)>, row: Row, i: nat, built: map<string, string>)
    requires BuildKwargs(kwargs, row, i, built).Success?
    ensures BuildKwargs(kwargs, row, i, built).value.Keys == built.Keys + Params(kwargs)
    decreases |kwargs|
  {
    if |kwargs| > 0 {
      var piece := PieceOf(row, kwargs[0].1, i);
      BuildKwargsKeys(kwargs[1..], row, i, built[kwargs[0].0 := piece.value]);
    }
  }

  /** Bindings for parameters that `kwargs` does not mention are kept. */
  lemma {:induction false} BuildKwargsKeeps(kwargs: seq<(string, string)>, row: Row, i: nat, built: map<string, string>, x: string)
    requires BuildKwargs(kwargs, row, i, built).Success?
    requires x in built && x !in Params(kwargs)
    ensures var r := BuildKwargs(kwargs, row, i, built).value;
      x in r && r[x] == built[x]
    decreases |kwargs|
  {
    BuildKwargsKeys(kwargs, row, i, built);
    if |kwargs| > 0 {
      var piece := PieceOf(row, kwargs[0].1, i);
      BuildKwargsKeeps(kwargs[1..], row, i, built[kwargs[0].0 := piece.value], x);
    }
  }

  /** With distinct parameters, a successful binding maps each parameter to
      the i-th piece of its column. */
  lemma {:induction false} BuildKwargsBinds(kwargs: seq<(string, string)>, row: Row, i: nat, built: map<string, string>)
    requires DistinctParams(kwargs)
    requires forall k :: 0 <= k < |kwargs| ==> PieceOf(row, kwargs[k].1, i).Success?
    ensures BuildKwargs(kwargs, row, i, built).Success?
    ensures var r := BuildKwargs(kwargs, row, i, built).value;
      forall k :: 0 <= k < |kwargs| ==> kwargs[k].0 in r && r[kwargs[k].0] == PieceOf(row, kwargs[k].1, i).value
    decreases |kwargs|
  {
    BuildKwargsSucceeds(kwargs, row, i, built);
    if |kwargs| > 0 {
      var rest := kwargs[1..];
      var piece := PieceOf(row, kwargs[0].1, i).value;
      var built' := built[kwargs[0].0 := piece];
      assert forall k :: 1 <= k < |kwargs| ==> kwargs[k] == rest[k - 1];
      BuildKwargsBinds(rest, row, i, built');
      assert kwargs[0].0 !in Params(rest);
      BuildKwargsKeeps(rest, row, i, built', kwargs[0].0);
    }
  }

  /** What a function chunk appends at position `i`: the builder applied to
      the i-th pieces of its kwargs columns. A builder that returns `None`
      makes `formatted_text += None` raise `TypeError`. */
  function CallText(fn: Builder, kwargs: seq<(string, string)>, row: Row, i: nat): Result<string, Error> {
    var args :- BuildKwargs(kwargs, row, i, map[]);
    var out :- Call(fn, args);
    if out.None? then Failure(TypeError) else Success(out.value)
  }

  /** One pass of the inner loop over `output_format` (lines 291-302): check
      the chunk's shape, then append its text, its column's i-th piece and
      its function's result, each only when set. */
  function ChunkStep(c: Chunk, row: Row, i: nat, acc: string): Result<string, Error> {
    if Malformed(c) then Failure(MalformedChunk)
    else
      var withText := if Present(c.text) then acc + c.text.value else acc;
      var withColumn :-
        if Present(c.columnName) then
          var piece :- PieceOf(row, c.columnName.value, i);
          Success(withText + piece)
        else Success(withText);
      if c.fn.Some? then
        var out :- CallText(c.fn.value, c.kwargs.value, row, i);
        Success(withColumn + out)
      else Success(withColumn)
  }

  /** The inner loop from an accumulated `formatted_text`. */
  function ComposeFrom(template: Template, row: Row, i: nat, acc: string): Result<string, Error>
    decreases |template|
  {
    if |template| == 0 then Success(acc)
    else
      var next :- ChunkStep(template[0], row, i, acc);
      ComposeFrom(template[1..], row, i, next)
  }

  /** The composed string of position `i`. */
  function Compose(template: Template, row: Row, i: nat): Result<string, Error> {
    ComposeFrom(template, row, i, "")
  }

  /** The text a chunk contributes at position `i`, on its own. */
  function ChunkText(c: Chunk, row: Row, i: nat): Result<string, Error> {
    if Malformed(c) then Failure(MalformedChunk)
    else
      var text := if Present(c.text) then c.text.value else "";
      var piece :- if Present(c.columnName) then PieceOf(row, c.columnName.value, i) else Success("");
      var out :- if c.fn.Some? then CallText(c.fn.value, c.kwargs.value, row, i) else Success("");
      Success(text + piece + out)
  }

  /** Reference definition: the contributions of the chunks, concatenated in
      order; the first chunk that raises decides the exception. */
  function ConcatChunks(template: Template, row: Row, i: nat): Result<string, Error>
    decreases |template|
  {
    if |template| == 0 then Success("")
    else
      var head :- ChunkText(template[0], row, i);
      var tail :- ConcatChunks(template[1..], row, i);
      Success(head + tail)
  }

  /** `acc` in front of a successful result; an exception unchanged. */
  function Prepend(acc: string, r: Result<string, Error>): Result<string, Error> {
    match r
    case Success(s) => Success(acc + s)
    case Failure(e) => Failure(e)
  }

  lemma ChunkStepAppends(c: Chunk, row: Row, i: nat, acc: string)
    ensures ChunkStep(c, row, i, acc) == Prepend(acc, ChunkText(c, row, i))
  {
    if !Malformed(c) {
      var text := if Present(c.text) then c.text.value else "";
      var withText := if Present(c.text) then acc + c.text.value else acc;
      assert withText == acc + text;
      var piece := if Present(c.columnName) then PieceOf(row, c.columnName.value, i) else Success("");
      if piece.Success? {
        var withColumn := withText + piece.value;
        assert ChunkStep(c, row, i, acc) == AppendCall(c, row, i, withColumn) by {
          assert !Present(c.columnName) ==> withColumn == withText;
        }
        assert ChunkText(c, row, i) == AppendCall(c, row, i, text + piece.value) by {
          assert text + piece.value + "" == text + piece.value;
        }
        assert withColumn == acc + (text + piece.value);
        AppendCallPrepend(c, row, i, acc, text + piece.value);
      } else {
        assert ChunkStep(c, row, i, acc) == Failure(piece.error);
        assert ChunkText(c, row, i) == Failure(piece.error);
      }
    }
  }

  /** The function contribution of a chunk, appended to `acc`. */
  function AppendCall(c: Chunk, row: Row, i: nat, acc: string): Result<string, Error>
    requires !Malformed(c)
  {
    if c.fn.Some? then
      var out :- CallText(c.fn.value, c.kwargs.value, row, i);
      Success(acc + out)
    else Success(acc)
  }

  lemma AppendCallPrepend(c: Chunk, row: Row, i: nat, acc: string, s: string)
    requires !Malformed(c)
    ensures AppendCall(c, row, i, acc + s) == Prepend(acc, AppendCall(c, row, i, s))
  {
    if c.fn.Some? {
      var out := CallText(c.fn.value, c.kwargs.value, row, i);
      if out.Success? {
        assert acc + s + out.value == acc + (s + out.value);
      }
    }
  }

  lemma {:induction false} ComposeFromIsConcat(template: Template, row: Row, i: nat, acc: string)
    ensures ComposeFrom(template, row, i, acc) == Prepend(acc, ConcatChunks(template, row, i))
    decreases |template|
  {
    if |template| == 0 {
      assert acc + "" == acc;
    } else {
      ChunkStepAppends(template[0], row, i, acc);
      var head := ChunkText(template[0], row, i);
      if head.Success? {
        ComposeFromIsConcat(template[1..], row, i, acc + head.value);
        var tail := ConcatChunks(template[1..], row, i);
        if tail.Success? {
          assert acc + head.value + tail.value == acc + (head.value + tail.value);
        }
      }
    }
  }

  /** A composed string is the in-order concatenation of what each chunk
      contributes: its non-empty text, then the i-th piece of its column, then
      its function's result on the i-th pieces of its kwargs columns. */
  lemma ComposeIsConcatenation(template: Template, row: Row, i: nat)
    ensures Compose(template, row, i) == ConcatChunks(template, row, i)
  {
    ComposeFromIsConcat(template, row, i, "");
    var r := ConcatChunks(template, row, i);
    if r.Success? {
      assert "" + r.value == r.value;
    }
  }

  /** Position `ps[k]` is the first of `ps` whose composition raises, and it raises `e`. */
  ghost predicate FirstFailure(template: Template, row: Row, ps: seq<nat>, k: nat, e: Error)
    requires k < |ps|
  {
    && Compose(template, row, ps[k]) == Failure(e)
    && forall l :: 0 <= l < k ==> Compose(template, row, ps[l]).Success?
  }

  /** Reference definition: the composed strings of positions `ps`, in
      order; the first position that raises decides the exception. */
  function ComposeAt(template: Template, row: Row, ps: seq<nat>): (r: Result<seq<string>, Error>)
    ensures r.Success? <==> forall k :: 0 <= k < |ps| ==> Compose(template, row, ps[k]).Success?
    ensures r.Success? ==> |r.value| == |ps|
    ensures r.Success? ==> forall k :: 0 <= k < |ps| ==> r.value[k] == Compose(template, row, ps[k]).value
    ensures r.Failure? ==> exists k :: 0 <= k < |ps| && FirstFailure(template, row, ps, k, r.error)
    decreases |ps|
  {
    if |ps| == 0 then Success([])
    else
      var first := Compose(template, row, ps[0]);
      if first.Failure? then
        assert FirstFailure(template, row, ps, 0, first.error);
        Failure(first.error)
      else
        assert forall k, e :: 0 <= k < |ps| - 1 && FirstFailure(template, row, ps[1..], k, e) ==>
          FirstFailure(template, row, ps, k + 1, e);
        var rest :- ComposeAt(template, row, ps[1..]);
        Success([first.value] + rest)
  }

  /** Line 279: one flag per piece of the mask cell, set when the piece
      equals the mask value without regard to letter case. */
  function MaskFlags(cell: string, maskValue: string): seq<bool> {
    var pieces := Split(cell);
    seq(|pieces|, k requires 0 <= k < |pieces| => Lower(pieces[k]) == Lower(maskValue))
  }

  /** `values_to_process` (lines 276-283): the mask flags when both mask
      arguments are non-empty strings, otherwise one `True` per column of the
      row (`len(row)`), whatever the template reads. */
  function PositionFlags(row: Row, maskColumn: Option<string>, maskValue: Option<string>): Result<seq<bool>, Error> {
    if Present(maskColumn) && Present(maskValue) then
      var cell :- Get(row, maskColumn.value);
      Success(MaskFlags(cell, maskValue.value))
    else Success(seq(|row|, _ => true))
  }

  /** The outer loop (lines 287-303): from position `start` on, the composed
      string of every flagged position, in order. */
  function ComposeSelected(template: Template, row: Row, flags: seq<bool>, start: nat): Result<seq<string>, Error>
    decreases |flags|
  {
    if |flags| == 0 then Success([])
    else if flags[0] then
      var first :- Compose(template, row, start);
      var rest :- ComposeSelected(template, row, flags[1..], start + 1);
      Success([first] + rest)
    else ComposeSelected(template, row, flags[1..], start + 1)
  }

  /** `process_row(row, new_column_name, output_format, mask_column,
      mask_value)` (lines 232-307). */
  function ProcessRow(row: Row, newColumn: string, template: Template,
                      maskColumn: Option<string>, maskValue: Option<string>): (r: Result<Row, Error>)
    ensures maskColumn.Some? != maskValue.Some? ==> r == Failure(MaskArgumentError)
    ensures Present(maskColumn) && Present(maskValue) && maskColumn.value !in row ==>
      r == Failure(KeyError(maskColumn.value))
    ensures r.Success? ==> r.value.Keys == row.Keys + {newColumn}
    ensures r.Success? ==> forall k :: k in row && k != newColumn ==> r.value[k] == row[k]
  {
    if maskColumn.Some? != maskValue.Some? then Failure(MaskArgumentError)
    else
      var flags :- PositionFlags(row, maskColumn, maskValue);
      var composed :- ComposeSelected(template, row, flags, 0);
      Success(row[newColumn := Join(composed, PipeSep)])
  }

  /** Reference definition of the positions `process_row` composes: with both
      mask arguments non-empty, the positions whose mask piece matches the
      mask value case-insensitively; otherwise `0 .. len(row) - 1`. */
  function IncludedPositions(row: Row, maskColumn: Option<string>, maskValue: Option<string>)
    : (r: Result<seq<nat>, Error>)
    ensures r.Success? ==> forall k, l :: 0 <= k < l < |r.value| ==> r.value[k] < r.value[l]
    ensures Present(maskColumn) && Present(maskValue) ==>
      if maskColumn.value in row then
        var pieces := Split(row[maskColumn.value]);
        && r.Success?
        && (forall i: nat :: i in r.value <==> i < |pieces| && Lower(pieces[i]) == Lower(maskValue.value))
      else r == Failure(KeyError(maskColumn.value))
    ensures !(Present(maskColumn) && Present(maskValue)) ==>
      r.Success? && |r.value| == |row| && forall k :: 0 <= k < |row| ==> r.value[k] == k
  {
    var flags :- PositionFlags(row, maskColumn, maskValue);
    var ps := PositionsFrom(flags, 0);
    if !(Present(maskColumn) && Present(maskValue)) then
      AllPositions(flags, 0);
      Success(ps)
    else Success(ps)
  }

  /** With every flag set, the positions are all of them. */
  lemma {:induction false} AllPositions(flags: seq<bool>, start: nat)
    requires forall k :: 0 <= k < |flags| ==> flags[k]
    ensures |PositionsFrom(flags, start)| == |flags|
    ensures forall k :: 0 <= k < |flags| ==> PositionsFrom(flags, start)[k] == start + k
    decreases |flags|
  {
    if |flags| > 0 {
      AllPositions(flags[1..], start + 1);
    }
  }

  lemma {:induction false} ComposeSelectedIsComposeAt(template: Template, row: Row, flags: seq<bool>, start: nat)
    ensures ComposeSelected(template, row, flags, start) == ComposeAt(template, row, PositionsFrom(flags, start))
    decreases |flags|
  {
    if |flags| > 0 {
      ComposeSelectedIsComposeAt(template, row, flags[1..], start + 1);
      var rest := PositionsFrom(flags[1..], start + 1);
      if flags[0] {
        assert ([start] + rest)[1..] == rest;
      }
    }
  }

  /** `process_row` writes the `|`-join of the composed strings of the
      included positions, in positional order, into the new column; the
      first included position that raises aborts the row with its
      exception. */
  lemma ProcessRowComposesIncluded(row: Row, newColumn: string, template: Template,
                                   maskColumn: Option<string>, maskValue: Option<string>)
    requires maskColumn.Some? == maskValue.Some?
    ensures var r := ProcessRow(row, newColumn, template, maskColumn, maskValue);
            var ps := IncludedPositions(row, maskColumn, maskValue);
      && (ps.Failure? ==> r == Failure(ps.error))
      && (ps.Success? ==>
            var outs := ComposeAt(template, row, ps.value);
            && (r.Success? <==> outs.Success?)
            && (r.Failure? ==> r.error == outs.error)
            && (r.Success? ==> r.value == row[newColumn := Join(outs.value, PipeSep)]))
  {
    var flags := PositionFlags(row, maskColumn, maskValue);
    if flags.Success? {
      ComposeSelectedIsComposeAt(template, row, flags.value, 0);
      assert IncludedPositions(row, maskColumn, maskValue) == Success(PositionsFrom(flags.value, 0));
      var composed := ComposeSelected(template, row, flags.value, 0);
      if composed.Success? {
        assert ProcessRow(row, newColumn, template, maskColumn, maskValue)
            == Success(row[newColumn := Join(composed.value, PipeSep)]);
      }
    }
  }

  /** When no position is included the new column is `''`, whatever the
      template holds: a malformed chunk is never looked at. */
  lemma ProcessRowNoMatch(row: Row, newColumn: string, template: Template,
                          maskColumn: Option<string>, maskValue: Option<string>)
    requires maskColumn.Some? == maskValue.Some?
    requires IncludedPositions(row, maskColumn, maskValue) == Success([])
    ensures ProcessRow(row, newColumn, template, maskColumn, maskValue) == Success(row[newColumn := ""])
  {
    ProcessRowComposesIncluded(row, newColumn, template, maskColumn, maskValue);
  }

  /** An empty mask column or mask value is not a mask: the row is processed
      as if neither mask argument had been given. */
  lemma EmptyMaskIsNoMask(row: Row, newColumn: string, template: Template, maskColumn: string, maskValue: string)
    requires maskColumn == "" || maskValue == ""
    ensures ProcessRow(row, newColumn, template, Some(maskColumn), Some(maskValue))
         == ProcessRow(row, newColumn, template, None, None)
  {
  }

  lemma {:induction false} ConcatChunksMalformed(template: Template, row: Row, i: nat, m: nat)
    requires m < |template| && Malformed(template[m])
    ensures ConcatChunks(template, row, i).Failure?
    ensures (forall k :: 0 <= k < m ==> ChunkText(template[k], row, i).Success?) ==>
      ConcatChunks(template, row, i) == Failure(MalformedChunk)
    decreases m
  {
    if m > 0 && ChunkText(template[0], row, i).Success? {
      ConcatChunksMalformed(template[1..], row, i, m - 1);
      assert forall k :: 0 <= k < m - 1 ==> template[1..][k] == template[k + 1];
    }
  }

  /** A chunk that has a function without kwargs, or kwargs without a
      function, makes every included position raise; when only plain text
      chunks come before it, the exception is its `ValueError`. */
  lemma ProcessRowRejectsMalformed(row: Row, newColumn: string, template: Template,
                                   maskColumn: Option<string>, maskValue: Option<string>, m: nat)
    requires maskColumn.Some? == maskValue.Some?
    requires m < |template| && Malformed(template[m])
    requires IncludedPositions(row, maskColumn, maskValue).Success?
    requires |IncludedPositions(row, maskColumn, maskValue).value| > 0
    ensures ProcessRow(row, newColumn, template, maskColumn, maskValue).Failure?
    ensures (forall k :: 0 <= k < m ==> template[k].columnName.None? && template[k].fn.None? && template[k].kwargs.None?) ==>
      ProcessRow(row, newColumn, template, maskColumn, maskValue) == Failure(MalformedChunk)
  {
    var ps := IncludedPositions(row, maskColumn, maskValue).value;
    ProcessRowComposesIncluded(row, newColumn, template, maskColumn, maskValue);
    ComposeIsConcatenation(template, row, ps[0]);
    ConcatChunksMalformed(template, row, ps[0], m);
  }

  /** A template that is a single column reference composes, at position
      `i`, the i-th piece of that column. */
  lemma ColumnTemplate(column: string, row: Row, i: nat)
    requires column != ""
    ensures Compose([ColumnRef(column)], row, i) == PieceOf(row, column, i)
  {
    ComposeIsConcatenation([ColumnRef(column)], row, i);
    assert [ColumnRef(column)][1..] == [];
    var r := PieceOf(row, column, i);
    if r.Success? {
      assert "" + r.value + "" == r.value;
      assert r.value + "" == r.value;
    }
  }

  /** Without a mask, `process_row` visits one position per COLUMN of the
      row, so a referenced column with fewer pieces than the row has columns
      raises `IndexError`. */
  lemma UnmaskedShortColumnRaises(row: Row, newColumn: string, column: string)
    requires column != "" && column in row
    requires |Split(row[column])| < |row|
    ensures ProcessRow(row, newColumn, [ColumnRef(column)], None, None) == Failure(IndexError)
  {
    var template := [ColumnRef(column)];
    ProcessRowComposesIncluded(row, newColumn, template, None, None);
    var ps := IncludedPositions(row, None, None).value;
    var short := |Split(row[column])|;
    assert ps[short] == short;
    ColumnTemplate(column, row, short);
    var outs := ComposeAt(template, row, ps);
    assert outs.Failure?;
    var k :| 0 <= k < |ps| && FirstFailure(template, row, ps, k, outs.error);
    ColumnTemplate(column, row, ps[k]);
  }

  /** The `build_uri` chunk of the name templates, reading the authority
      code and the identifier from two columns. */
  function BuildUriChunk(authorityColumn: string, idColumn: string): Chunk {
    FunctionRef(BuildUriFn, [("authority", authorityColumn), ("id", idColumn)])
  }

  /** With both columns long enough, a `build_uri` chunk raises `TypeError`
      exactly when the authority piece is empty or `local` in any letter
      case: `build_uri` returns `None` and line 302 adds it to a string. */
  lemma BuildUriCallRaises(authorityColumn: string, idColumn: string, row: Row, i: nat)
    requires PieceOf(row, authorityColumn, i).Success? && PieceOf(row, idColumn, i).Success?
    ensures var a := PieceOf(row, authorityColumn, i).value;
      (CallText(BuildUriFn, BuildUriChunk(authorityColumn, idColumn).kwargs.value, row, i) == Failure(TypeError)
       <==> a == "" || Lower(a) == LocalAuthority)
  {
    var kwargs := [("authority", authorityColumn), ("id", idColumn)];
    var a, d := PieceOf(row, authorityColumn, i).value, PieceOf(row, idColumn, i).value;
    var args := map["authority" := a, "id" := d];
    assert kwargs[1..] == [("id", idColumn)];
    assert kwargs[1..][1..] == [];
    calc {
      BuildKwargs(kwargs, row, i, map[]);
      BuildKwargs(kwargs[1..], row, i, map["authority" := a]);
      BuildKwargs(kwargs[1..][1..], row, i, map["authority" := a]["id" := d]);
      Success(args);
    }
    assert args.Keys == {"authority", "id"};
  }

  /** A template holding only a function chunk composes that function's text. */
  lemma FunctionTemplate(fn: Builder, kwargs: seq<(string, string)>, row: Row, i: nat)
    ensures Compose([FunctionRef(fn, kwargs)], row, i) == CallText(fn, kwargs, row, i)
  {
    var c := FunctionRef(fn, kwargs);
    ComposeIsConcatenation([c], row, i);
    assert [c][1..] == [];
    var r := CallText(fn, kwargs, row, i);
    if r.Success? {
      assert "" + "" + r.value == r.value;
      assert r.value + "" == r.value;
    }
  }

  /** An included position whose authority piece is empty or `local` makes
      `process_row` with a `build_uri` template fail; when every earlier
      included position composes, the exception is that `TypeError`. */
  lemma ProcessRowBuildUriRaises(row: Row, newColumn: string, authorityColumn: string, idColumn: string,
                                 maskColumn: Option<string>, maskValue: Option<string>, k: nat)
    requires maskColumn.Some? == maskValue.Some?
    requires IncludedPositions(row, maskColumn, maskValue).Success?
    requires k < |IncludedPositions(row, maskColumn, maskValue).value|
    requires var p := IncludedPositions(row, maskColumn, maskValue).value[k];
      && PieceOf(row, authorityColumn, p).Success? && PieceOf(row, idColumn, p).Success?
      && (PieceOf(row, authorityColumn, p).value == "" || Lower(PieceOf(row, authorityColumn, p).value) == LocalAuthority)
    ensures var template := [BuildUriChunk(authorityColumn, idColumn)];
      ProcessRow(row, newColumn, template, maskColumn, maskValue).Failure?
    ensures var template := [BuildUriChunk(authorityColumn, idColumn)];
      var ps := IncludedPositions(row, maskColumn, maskValue).value;
      (forall l :: 0 <= l < k ==> Compose(template, row, ps[l]).Success?) ==>
        ProcessRow(row, newColumn, template, maskColumn, maskValue) == Failure(TypeError)
  {
    var template := [BuildUriChunk(authorityColumn, idColumn)];
    var p := IncludedPositions(row, maskColumn, maskValue).value[k];
    BuildUriCallRaises(authorityColumn, idColumn, row, p);
    FunctionTemplate(BuildUriFn, BuildUriChunk(authorityColumn, idColumn).kwargs.value, row, p);
    ProcessRowRaisesAt(row, newColumn, template, maskColumn, maskValue, k, TypeError);
  }

  /** An included position whose composition raises makes the row fail;
      when it is the first included position that raises, the row fails
      with its exception. */
  lemma ProcessRowRaisesAt(row: Row, newColumn: string, template: Template,
                           maskColumn: Option<string>, maskValue: Option<string>, k: nat, e: Error)
    requires maskColumn.Some? == maskValue.Some?
    requires IncludedPositions(row, maskColumn, maskValue).Success?
    requires k < |IncludedPositions(row, maskColumn, maskValue).value|
    requires Compose(template, row, IncludedPositions(row, maskColumn, maskValue).value[k]) == Failure(e)
    ensures ProcessRow(row, newColumn, template, maskColumn, maskValue).Failure?
    ensures var ps := IncludedPositions(row, maskColumn, maskValue).value;
      (forall l :: 0 <= l < k ==> Compose(template, row, ps[l]).Success?) ==>
        ProcessRow(row, newColumn, template, maskColumn, maskValue) == Failure(e)
  {
    var ps := IncludedPositions(row, maskColumn, maskValue).value;
    ProcessRowComposesIncluded(row, newColumn, template, maskColumn, maskValue);
    ComposeAtRaisesAt(template, row, ps, k, e);
  }

  /** A position of `ps` that raises makes the whole list fail; when every
      position before it composes, its exception is the one reported. */
  lemma {:induction false} ComposeAtRaisesAt(template: Template, row: Row, ps: seq<nat>, k: nat, e: Error)
    requires k < |ps| && Compose(template, row, ps[k]) == Failure(e)
    ensures ComposeAt(template, row, ps).Failure?
    ensures (forall l :: 0 <= l < k ==> Compose(template, row, ps[l]).Success?) ==>
      ComposeAt(template, row, ps) == Failure(e)
    decreases k
  {
    if k > 0 && Compose(template, row, ps[0]).Success? {
      ComposeAtRaisesAt(template, row, ps[1..], k - 1, e);
      assert forall l :: 0 <= l < k - 1 ==> ps[1..][l] == ps[l + 1];
    }
  }
}
