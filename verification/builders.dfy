/** The field builders a template may call: `build_uri`,
    `create_formatted_date` and `create_authority_name`
    (fmp_data_munge.py:145-212), and Python's keyword binding when the
    composition engine calls one of them with `**kwargs`. */
module Builders {
  import opened Wrappers
  import opened PipedValues
  import opened Rows

  const LcNamesPrefix: string := "http://id.loc.gov/authorities/names/"
  const ViafPrefix: string := "http://viaf.org/viaf/"

  /** `auth_dict`: the closed registry of authority codes. */
  const AuthorityPrefixes: map<string, string> := map["lc" := LcNamesPrefix, "viaf" := ViafPrefix]

  /** The sentinel code of an intentionally local (uncontrolled) authority. */
  const LocalAuthority: string := "local"

  /** How an f-string renders an optional string: `None` prints as `"None"`. */
  function FormatValue(o: Option<string>): string {
    match o
    case Some(s) => s
    case None => "None"
  }

  /** `build_uri(authority, id)`: no URI for a missing, empty or `local`
      authority; the registry prefix followed by the id for `lc` and `viaf`,
      in any letter case; `KeyError` for every other code. */
  function BuildUri(authority: Option<string>, id: Option<string>): (r: Result<Option<string>, Error>)
    ensures r.Success? && r.value.None? <==> !Present(authority) || Lower(authority.value) == "local"
    ensures Present(authority) && Lower(authority.value) == "lc" ==>
      r == Success(Some("http://id.loc.gov/authorities/names/" + FormatValue(id)))
    ensures Present(authority) && Lower(authority.value) == "viaf" ==>
      r == Success(Some("http://viaf.org/viaf/" + FormatValue(id)))
    ensures r.Failure? <==> Present(authority) && Lower(authority.value) !in {"local", "lc", "viaf"}
    ensures r.Failure? ==> r.error == KeyError(Lower(authority.value))
  {
    if !Present(authority) then Success(None)
    else
      var code := Lower(authority.value);
      if code == LocalAuthority then Success(None)
      else if code in AuthorityPrefixes then Success(Some(AuthorityPrefixes[code] + FormatValue(id)))
      else Failure(KeyError(code))
  }

  /** The authority code is matched without regard to ASCII letter case. */
  lemma BuildUriIgnoresCase(authority: string, id: Option<string>)
    ensures BuildUri(Some(authority), id) == BuildUri(Some(Lower(authority)), id)
  {
    LowerIdempotent(authority);
  }

  /** `create_formatted_date(start_date, end_date)`: the non-empty dates
      joined by `" - "`. */
  function CreateFormattedDate(startDate: Option<string>, endDate: Option<string>): (r: string)
    ensures r == "" <==> !Present(startDate) && !Present(endDate)
    ensures Present(startDate) && !Present(endDate) ==> r == startDate.value
    ensures !Present(startDate) && Present(endDate) ==> r == endDate.value
    ensures Present(startDate) && Present(endDate) ==> r == startDate.value + " - " + endDate.value
  {
    var dates := PresentOnly([startDate, endDate]);
    PresentOnlyPair(startDate, endDate);
    if |dates| == 2 then
      JoinPair(dates[0], dates[1], " - ");
      Join(dates, " - ")
    else Join(dates, " - ")
  }

  /** `fields.get(key, None)`. */
  function Lookup(fields: map<string, string>, key: string): Option<string> {
    if key in fields then Some(fields[key]) else None
  }

  /** `create_authority_name(**fields)`: name, date and "role uri", each only
      when non-empty, joined by `", "`. */
  function CreateAuthorityName(fields: map<string, string>): (r: string)
    ensures var name, date, role, uri := Lookup(fields, "name"), Lookup(fields, "date"),
                                         Lookup(fields, "role"), Lookup(fields, "uri");
      && (r == "" <==> !Present(name) && !Present(date) && !Present(role) && !Present(uri))
      && (Present(name) ==> name.value <= r)
      && (Present(name) && Present(date) && Present(role) && Present(uri) ==>
            r == name.value + ", " + date.value + ", " + role.value + " " + uri.value)
  {
    var name := Lookup(fields, "name");
    var date := Lookup(fields, "date");
    var role := Lookup(fields, "role");
    var uri := Lookup(fields, "uri");
    var roleUriMerge := Join(PresentOnly([role, uri]), " ");
    PresentOnlyPair(role, uri);
    PresentOnlyTriple(name, date, Some(roleUriMerge));
    var parts := PresentOnly([name, date, Some(roleUriMerge)]);
    if |parts| == 0 then ""
    else
      JoinStartsWithFirst(parts, ", ");
      if Present(role) || Present(uri) then
        JoinStartsWithFirst(PresentOnly([role, uri]), " ");
        if Present(name) && Present(date) && Present(role) && Present(uri) then
          JoinPair(role.value, uri.value, " ");
          JoinTriple(name.value, date.value, roleUriMerge, ", ");
          Join(parts, ", ")
        else Join(parts, ", ")
      else Join(parts, ", ")
  }

  /** The docstring example of `create_authority_name`, whose URI is
      `http://id.loc.gov/authorities/names/n79021383`. */
  lemma CreateAuthorityNameExample()
    ensures var uri := LcNamesPrefix + "n79021383";
      CreateAuthorityName(map["name" := "Smith, John", "date" := "1970", "role" := "author", "uri" := uri])
      == "Smith, John, 1970, author " + uri
  {
    var uri := LcNamesPrefix + "n79021383";
    var fields := map["name" := "Smith, John", "date" := "1970", "role" := "author", "uri" := uri];
    assert Lookup(fields, "name") == Some("Smith, John");
    assert Lookup(fields, "date") == Some("1970");
    assert Lookup(fields, "role") == Some("author");
    assert Lookup(fields, "uri") == Some(uri);
    assert "Smith, John" + ", " + "1970" + ", " + "author" + " " == "Smith, John, 1970, author ";
  }

  /** The closed set of functions a template chunk may reference. */
  datatype Builder = BuildUriFn | CreateFormattedDateFn | CreateAuthorityNameFn

  /** `function(**kwargs)`. `build_uri` and `create_formatted_date` take
      exactly their two named parameters, so a missing or an unexpected
      keyword raises `TypeError`; `create_authority_name` takes any keywords.
      `None` is the Python `None` a builder may return. */
  function Call(fn: Builder, kwargs: map<string, string>): (r: Result<Option<string>, Error>)
    ensures fn.BuildUriFn? ==> (r == Failure(TypeError) <==> kwargs.Keys != {"authority", "id"})
    ensures fn.CreateFormattedDateFn? ==> (r.Success? <==> kwargs.Keys == {"start_date", "end_date"})
    ensures fn.CreateAuthorityNameFn? ==> r.Success? && r.value.Some?
    ensures r.Success? && r.value.None? ==> fn.BuildUriFn?
    ensures fn.BuildUriFn? && kwargs.Keys == {"authority", "id"} ==>
      r == BuildUri(Some(kwargs["authority"]), Some(kwargs["id"]))
    ensures fn.CreateFormattedDateFn? && kwargs.Keys == {"start_date", "end_date"} ==>
      r == Success(Some(CreateFormattedDate(Some(kwargs["start_date"]), Some(kwargs["end_date"]))))
    ensures fn.CreateAuthorityNameFn? ==> r == Success(Some(CreateAuthorityName(kwargs)))
  {
    match fn
    case BuildUriFn =>
      if kwargs.Keys == {"authority", "id"} then BuildUri(Some(kwargs["authority"]), Some(kwargs["id"]))
      else Failure(TypeError)
    case CreateFormattedDateFn =>
      if kwargs.Keys == {"start_date", "end_date"} then
        Success(Some(CreateFormattedDate(Some(kwargs["start_date"]), Some(kwargs["end_date"]))))
      else Failure(TypeError)
    case CreateAuthorityNameFn =>
      Success(Some(CreateAuthorityName(kwargs)))
  }
}
