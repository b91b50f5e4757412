/** Worked examples of the composition engine on concrete rows. */
module Scenarios {
  import opened Wrappers
  import opened PipedValues
  import opened Rows
  import opened Builders
  import opened Compose
  import opened Derived
  import opened Pipeline

  /** Splitting a cell written as three pipe-free pieces. */
  lemma SplitThree(a: string, b: string, c: string, cell: string)
    requires Pipe !in a && Pipe !in b && Pipe !in c
    requires cell == a + PipeSep + b + PipeSep + c
    ensures Split(cell) == [a, b, c]
  {
    JoinTriple(a, b, c, PipeSep);
    SplitOfJoin([a, b, c]);
  }

  /** Splitting a cell written as two pipe-free pieces. */
  lemma SplitTwo(a: string, b: string, cell: string)
    requires Pipe !in a && Pipe !in b
    requires cell == a + PipeSep + b
    ensures Split(cell) == [a, b]
  {
    JoinPair(a, b, PipeSep);
    SplitOfJoin([a, b]);
  }

  /** Sorted positions that hold exactly one value are that value alone. */
  lemma SinglePosition(ps: seq<nat>, p: nat)
    requires forall k, l :: 0 <= k < l < |ps| ==> ps[k] < ps[l]
    requires forall i: nat :: i in ps <==> i == p
    ensures ps == [p]
  {
    assert p in ps;
    if |ps| > 1 {
      assert ps[0] == p by { assert ps[0] in ps; }
      assert ps[1] == p by { assert ps[1] in ps; }
    }
  }

  /** A mask that matches at exactly one position includes that position
      alone. */
  lemma MaskedPositionsSingle(row: Row, maskColumn: string, maskValue: string, target: nat)
    requires maskColumn != "" && maskValue != "" && maskColumn in row
    requires target < |Split(row[maskColumn])|
    requires forall k :: 0 <= k < |Split(row[maskColumn])| ==>
      (Lower(Split(row[maskColumn])[k]) == Lower(maskValue) <==> k == target)
    ensures IncludedPositions(row, Some(maskColumn), Some(maskValue)) == Success([target])
  {
    var ps := IncludedPositions(row, Some(maskColumn), Some(maskValue)).value;
    assert forall i: nat :: i in ps <==> i == target;
    SinglePosition(ps, target);
  }

  /** `process_row` with a single included position writes that position's
      composed string. */
  lemma ProcessRowSingle(row: Row, newColumn: string, template: Template, maskColumn: string, maskValue: string,
                         target: nat)
    requires IncludedPositions(row, Some(maskColumn), Some(maskValue)) == Success([target])
    requires Compose.Compose(template, row, target).Success?
    ensures ProcessRow(row, newColumn, template, Some(maskColumn), Some(maskValue))
         == Success(row[newColumn := Compose.Compose(template, row, target).value])
  {
    ProcessRowComposesIncluded(row, newColumn, template, Some(maskColumn), Some(maskValue));
    var outs := ComposeAt(template, row, [target]);
    var composed := Compose.Compose(template, row, target).value;
    assert outs.Success? && |outs.value| == 1 && outs.value[0] == composed;
    assert outs.value == [composed];
    assert Join([composed], PipeSep) == composed;
  }

  /** A column masked by another keeps exactly the piece at the one position
      whose mask piece matches the mask value, in any letter case. */
  lemma MaskKeepsMatchingPiece(row: Row, newColumn: string, column: string, maskColumn: string, maskValue: string,
                               target: nat)
    requires column != "" && maskColumn != "" && maskValue != ""
    requires column in row && maskColumn in row
    requires target < |Split(row[column])| && target < |Split(row[maskColumn])|
    requires forall k :: 0 <= k < |Split(row[maskColumn])| ==>
      (Lower(Split(row[maskColumn])[k]) == Lower(maskValue) <==> k == target)
    ensures ProcessRow(row, newColumn, [ColumnRef(column)], Some(maskColumn), Some(maskValue))
         == Success(row[newColumn := Split(row[column])[target]])
  {
    MaskedPositionsSingle(row, maskColumn, maskValue, target);
    ColumnTemplate(column, row, target);
    ProcessRowSingle(row, newColumn, [ColumnRef(column)], maskColumn, maskValue, target);
  }

  lemma ChunkTextLiteral(s: string, row: Row, i: nat)
    ensures ChunkText(Literal(s), row, i) == Success(s)
  {
    assert s + "" + "" == s;
  }

  lemma ChunkTextColumn(column: string, row: Row, i: nat)
    requires column != ""
    ensures ChunkText(ColumnRef(column), row, i) == PieceOf(row, column, i)
  {
    var r := PieceOf(row, column, i);
    if r.Success? {
      assert "" + r.value + "" == r.value;
    }
  }

  lemma ChunkTextFunction(fn: Builder, kwargs: seq<(string, string)>, row: Row, i: nat)
    ensures ChunkText(FunctionRef(fn, kwargs), row, i) == CallText(fn, kwargs, row, i)
  {
    var r := CallText(fn, kwargs, row, i);
    if r.Success? {
      assert "" + "" + r.value == r.value;
    }
  }

  lemma ConcatChunksCons(template: Template, row: Row, i: nat)
    requires |template| > 0
    requires ChunkText(template[0], row, i).Success? && ConcatChunks(template[1..], row, i).Success?
    ensures ConcatChunks(template, row, i)
         == Success(ChunkText(template[0], row, i).value + ConcatChunks(template[1..], row, i).value)
  {
  }

  /** A two-person row for the VIAF pass. */
  function TwoPeopleRow(name0: string, name1: string, role0: string, role1: string,
                        auth0: string, auth1: string, id0: string, id1: string): Row {
    map[AuthoritizedName := name0 + PipeSep + name1, Position := role0 + PipeSep + role1,
        AuthorityUsed := auth0 + PipeSep + auth1, AuthorityId := id0 + PipeSep + id1]
  }

  /** The pieces of a two-person row. */
  lemma TwoPeopleSplits(name0: string, name1: string, role0: string, role1: string,
                        auth0: string, auth1: string, id0: string, id1: string)
    requires PipeFree([name0, name1, role0, role1, auth0, auth1, id0, id1])
    ensures var row := TwoPeopleRow(name0, name1, role0, role1, auth0, auth1, id0, id1);
      && Split(row[AuthoritizedName]) == [name0, name1]
      && Split(row[Position]) == [role0, role1]
      && Split(row[AuthorityUsed]) == [auth0, auth1]
      && Split(row[AuthorityId]) == [id0, id1]
  {
    var ps := [name0, name1, role0, role1, auth0, auth1, id0, id1];
    assert Pipe !in ps[0] && Pipe !in ps[1] && Pipe !in ps[2] && Pipe !in ps[3];
    assert Pipe !in ps[4] && Pipe !in ps[5] && Pipe !in ps[6] && Pipe !in ps[7];
    var row := TwoPeopleRow(name0, name1, role0, role1, auth0, auth1, id0, id1);
    SplitTwo(name0, name1, row[AuthoritizedName]);
    SplitTwo(role0, role1, row[Position]);
    SplitTwo(auth0, auth1, row[AuthorityUsed]);
    SplitTwo(id0, id1, row[AuthorityId]);
  }

  /** The keyword arguments of the first person's `build_uri` chunk. */
  lemma TwoPeopleKwargs(name0: string, name1: string, role0: string, role1: string,
                        auth0: string, auth1: string, id0: string, id1: string)
    requires PipeFree([name0, name1, role0, role1, auth0, auth1, id0, id1])
    ensures BuildKwargs([("authority", AuthorityUsed), ("id", AuthorityId)],
                        TwoPeopleRow(name0, name1, role0, role1, auth0, auth1, id0, id1), 0, map[])
         == Success(map["authority" := auth0, "id" := id0])
  {
    var row := TwoPeopleRow(name0, name1, role0, role1, auth0, auth1, id0, id1);
    var kwargs := [("authority", AuthorityUsed), ("id", AuthorityId)];
    TwoPeopleSplits(name0, name1, role0, role1, auth0, auth1, id0, id1);
    assert DistinctParams(kwargs);
    BuildKwargsBinds(kwargs, row, 0, map[]);
    BuildKwargsKeys(kwargs, row, 0, map[]);
    assert Params(kwargs) == {"authority", "id"} by {
      assert kwargs[1..][1..] == [];
    }
    var args := BuildKwargs(kwargs, row, 0, map[]).value;
    assert args["authority"] == PieceOf(row, AuthorityUsed, 0).value == auth0 by {
      assert kwargs[0] == ("authority", AuthorityUsed);
    }
    assert args["id"] == PieceOf(row, AuthorityId, 0).value == id0 by {
      assert kwargs[1] == ("id", AuthorityId);
    }
    assert args == map["authority" := auth0, "id" := id0];
  }

  /** The `build_uri` chunk of a first person whose authority is `viaf`
      gives the VIAF URI of the first id. */
  lemma TwoPeopleViafUri(name0: string, name1: string, role0: string, role1: string,
                         auth0: string, auth1: string, id0: string, id1: string)
    requires PipeFree([name0, name1, role0, role1, auth0, auth1, id0, id1])
    requires Lower(auth0) == "viaf"
    ensures CallText(BuildUriFn, [("authority", AuthorityUsed), ("id", AuthorityId)],
                     TwoPeopleRow(name0, name1, role0, role1, auth0, auth1, id0, id1), 0)
         == Success(ViafPrefix + id0)
  {
    TwoPeopleKwargs(name0, name1, role0, role1, auth0, auth1, id0, id1);
    var args := map["authority" := auth0, "id" := id0];
    assert args.Keys == {"authority", "id"};
    assert Call(BuildUriFn, args) == BuildUri(Some(auth0), Some(id0));
  }

  /** Five chunks that each succeed concatenate their texts. */
  lemma ConcatChunksFive(t: Template, row: Row, i: nat, a: string, b: string, c: string, d: string, e: string)
    requires |t| == 5
    requires ChunkText(t[0], row, i) == Success(a) && ChunkText(t[1], row, i) == Success(b)
    requires ChunkText(t[2], row, i) == Success(c) && ChunkText(t[3], row, i) == Success(d)
    requires ChunkText(t[4], row, i) == Success(e)
    ensures ConcatChunks(t, row, i) == Success(a + b + c + d + e)
  {
    assert t[4..][1..] == [];
    assert ConcatChunks(t[4..][1..], row, i) == Success("");
    ConcatChunksCons(t[4..], row, i);
    assert t[3..][1..] == t[4..];
    ConcatChunksCons(t[3..], row, i);
    assert t[2..][1..] == t[3..];
    ConcatChunksCons(t[2..], row, i);
    assert t[1..][1..] == t[2..];
    ConcatChunksCons(t[1..], row, i);
    ConcatChunksCons(t, row, i);
    assert a + (b + (c + (d + (e + "")))) == a + b + c + d + e;
  }

  /** The first person of a two-person row composes name, role and URI. */
  lemma TwoPeopleFirst(name0: string, name1: string, role0: string, role1: string,
                       auth0: string, auth1: string, id0: string, id1: string)
    requires PipeFree([name0, name1, role0, role1, auth0, auth1, id0, id1])
    requires Lower(auth0) == "viaf"
    ensures Compose.Compose(PersonOtherViafTemplate, TwoPeopleRow(name0, name1, role0, role1, auth0, auth1, id0, id1), 0)
         == Success(name0 + ", " + role0 + " " + ViafPrefix + id0)
  {
    var row := TwoPeopleRow(name0, name1, role0, role1, auth0, auth1, id0, id1);
    var t := PersonOtherViafTemplate;
    TwoPeopleSplits(name0, name1, role0, role1, auth0, auth1, id0, id1);
    TwoPeopleViafUri(name0, name1, role0, role1, auth0, auth1, id0, id1);
    ComposeIsConcatenation(t, row, 0);
    ChunkTextColumn(AuthoritizedName, row, 0);
    ChunkTextLiteral(", ", row, 0);
    ChunkTextColumn(Position, row, 0);
    ChunkTextLiteral(" ", row, 0);
    ChunkTextFunction(BuildUriFn, [("authority", AuthorityUsed), ("id", AuthorityId)], row, 0);
    assert t[0] == ColumnRef(AuthoritizedName) && t[2] == ColumnRef(Position);
    assert PieceOf(row, AuthoritizedName, 0) == Success(name0);
    assert PieceOf(row, Position, 0) == Success(role0);
    ConcatChunksFive(t, row, 0, name0, ", ", role0, " ", ViafPrefix + id0);
    assert name0 + ", " + role0 + " " + (ViafPrefix + id0) == name0 + ", " + role0 + " " + ViafPrefix + id0;
  }

  /** The VIAF pass on a two-person row whose second authority is not
      `viaf`: the second person is masked out, so the name, role and VIAF
      URI of the first alone land in `namePersonOtherVIAF`. */
  lemma ViafPassSkipsOtherAuthorities(name0: string, name1: string, role0: string, role1: string,
                                      auth0: string, auth1: string, id0: string, id1: string)
    requires PipeFree([name0, name1, role0, role1, auth0, auth1, id0, id1])
    requires Lower(auth0) == "viaf" && Lower(auth1) != "viaf"
    ensures var row := TwoPeopleRow(name0, name1, role0, role1, auth0, auth1, id0, id1);
      Step(PersonOtherViafPass, row)
      == Success(row[NamePersonOtherVIAF := name0 + ", " + role0 + " " + ViafPrefix + id0])
  {
    var row := TwoPeopleRow(name0, name1, role0, role1, auth0, auth1, id0, id1);
    TwoPeopleSplits(name0, name1, role0, role1, auth0, auth1, id0, id1);
    LowerViaf();
    MaskedPositionsSingle(row, AuthorityUsed, "viaf", 0);
    TwoPeopleFirst(name0, name1, role0, role1, auth0, auth1, id0, id1);
    ProcessRowSingle(row, NamePersonOtherVIAF, PersonOtherViafTemplate, AuthorityUsed, "viaf", 0);
  }

  lemma LowerViaf()
    ensures Lower("viaf") == "viaf"
  {
  }

  /** The two-person example: only Smith's VIAF authority is composed. */
  lemma ViafPassExample()
    ensures var row := TwoPeopleRow("Smith, John", "Doe, Jane", "author", "editor", "viaf", "local", "100", "");
      Step(PersonOtherViafPass, row)
      == Success(row[NamePersonOtherVIAF := "Smith, John, author http://viaf.org/viaf/100"])
  {
    var ps := ["Smith, John", "Doe, Jane", "author", "editor", "viaf", "local", "100", ""];
    assert PipeFree(ps);
    assert |Lower("local")| != |"viaf"|;
    ViafPassSkipsOtherAuthorities("Smith, John", "Doe, Jane", "author", "editor", "viaf", "local", "100", "");
    ViafExampleText();
  }

  lemma ViafExampleText()
    ensures "Smith, John" + ", " + "author" + " " + ViafPrefix + "100" == "Smith, John, author http://viaf.org/viaf/100"
  {
  }

  /** A three-author row: names and where each comes from. */
  function ThreeAuthorsRow(n0: string, n1: string, n2: string, s0: string, s1: string, s2: string): Row {
    map["Name" := n0 + PipeSep + n1 + PipeSep + n2, "Source" := s0 + PipeSep + s1 + PipeSep + s2]
  }

  /** Masking the names by their sources keeps the one name whose source
      matches. */
  lemma MaskKeepsMiddleAuthor(n0: string, n1: string, n2: string, s0: string, s1: string, s2: string, value: string)
    requires PipeFree([n0, n1, n2, s0, s1, s2])
    requires value != ""
    requires Lower(s0) != Lower(value) && Lower(s1) == Lower(value) && Lower(s2) != Lower(value)
    ensures var row := ThreeAuthorsRow(n0, n1, n2, s0, s1, s2);
      ProcessRow(row, "Local Name", [ColumnRef("Name")], Some("Source"), Some(value))
      == Success(row["Local Name" := n1])
  {
    var row := ThreeAuthorsRow(n0, n1, n2, s0, s1, s2);
    var ps := [n0, n1, n2, s0, s1, s2];
    assert Pipe !in ps[0] && Pipe !in ps[1] && Pipe !in ps[2];
    assert Pipe !in ps[3] && Pipe !in ps[4] && Pipe !in ps[5];
    SplitThree(n0, n1, n2, row["Name"]);
    SplitThree(s0, s1, s2, row["Source"]);
    MaskKeepsMatchingPiece(row, "Local Name", "Name", "Source", value, 1);
  }

  lemma LowerSourceCodes()
    ensures Lower("LCNAF") != Lower("local") && Lower("VIAF") != Lower("local")
  {
    assert Lower("LCNAF")[1] == 'c' && Lower("local")[1] == 'o';
    assert |Lower("VIAF")| == 4 && |Lower("local")| == 5;
  }

  /** The three-author example: masking `Name` by `Source` with `local`
      keeps `Jones` alone. */
  lemma MaskFilterExample()
    ensures var row := ThreeAuthorsRow("Smith", "Jones", "Lee", "LCNAF", "local", "VIAF");
      ProcessRow(row, "Local Name", [ColumnRef("Name")], Some("Source"), Some("local"))
      == Success(row["Local Name" := "Jones"])
  {
    assert PipeFree(["Smith", "Jones", "Lee", "LCNAF", "local", "VIAF"]);
    LowerSourceCodes();
    MaskKeepsMiddleAuthor("Smith", "Jones", "Lee", "LCNAF", "local", "VIAF", "local");
  }
}
