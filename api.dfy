/** The remote data client: the query string of a list request, the URL of a
    single-character request, and the mapping of replies to results. */
module Api {
  import opened Wrappers
  import opened JsText
  import opened Types

  const API_BASE_URL := "https://rickandmortyapi.com/api/character"

  /** A `URLSearchParams` object: its name-value pairs in order. */
  type SearchParams = seq<(string, string)>

  datatype FetchError = RequestFailed | NotOk(message: string)

  predicate HasName(sp: SearchParams, name: string) {
    exists j :: 0 <= j < |sp| && sp[j].0 == name
  }

  predicate DistinctNames(sp: SearchParams) {
    forall i, j :: 0 <= i < j < |sp| ==> sp[i].0 != sp[j].0
  }

  /** `URLSearchParams.get`: the value of the first pair with that name. */
  function Get(sp: SearchParams, name: string): (r: Option<string>)
    ensures r.None? <==> !HasName(sp, name)
  {
    if sp == [] then None
    else if sp[0].0 == name then Some(sp[0].1)
    else
      var r := Get(sp[1..], name);
      assert forall j :: 1 <= j < |sp| ==> sp[j] == sp[1..][j - 1];
      r
  }

  /** `URLSearchParams.delete`: every pair with that name removed. */
  function DeleteName(sp: SearchParams, name: string): (r: SearchParams)
    ensures !HasName(r, name)
    ensures |r| <= |sp|
  {
    if sp == [] then []
    else if sp[0].0 == name then DeleteName(sp[1..], name)
    else [sp[0]] + DeleteName(sp[1..], name)
  }

  /** `URLSearchParams.set`: the first pair with that name takes the value and the later
      ones are removed; without such a pair, the pair is appended. */
  function SetParam(sp: SearchParams, name: string, value: string): (r: SearchParams)
    ensures Get(r, name) == Some(value)
  {
    if sp == [] then [(name, value)]
    else if sp[0].0 == name then [(name, value)] + DeleteName(sp[1..], name)
    else [sp[0]] + SetParam(sp[1..], name, value)
  }

  /** Deleting a name leaves every other name reading as before. */
  lemma {:induction false} DeleteNameKeepsOthers(sp: SearchParams, name: string, other: string)
    requires other != name
    ensures Get(DeleteName(sp, name), other) == Get(sp, other)
  {
    if sp != [] {
      DeleteNameKeepsOthers(sp[1..], name, other);
    }
  }

  /** Deletion keeps exactly the pairs with another name. */
  lemma {:induction false} DeleteNameMembers(sp: SearchParams, name: string, p: (string, string))
    ensures p in DeleteName(sp, name) <==> p in sp && p.0 != name
  {
    if sp != [] {
      DeleteNameMembers(sp[1..], name, p);
      assert sp == [sp[0]] + sp[1..];
    }
  }

  /** Deletion works piecewise on a concatenation, so the kept pairs stay in order. */
  lemma {:induction false} DeleteNameConcat(a: SearchParams, b: SearchParams, name: string)
    ensures DeleteName(a + b, name) == DeleteName(a, name) + DeleteName(b, name)
  {
    if a != [] {
      assert (a + b)[0] == a[0] && (a + b)[1..] == a[1..] + b;
      DeleteNameConcat(a[1..], b, name);
      if a[0].0 != name {
        assert [a[0]] + (DeleteName(a[1..], name) + DeleteName(b, name))
          == [a[0]] + DeleteName(a[1..], name) + DeleteName(b, name);
      }
    } else {
      assert a + b == b;
    }
  }

  /** Setting a name leaves every other name reading as before. */
  lemma {:induction false} SetParamKeepsOthers(sp: SearchParams, name: string, value: string, other: string)
    requires other != name
    ensures Get(SetParam(sp, name, value), other) == Get(sp, other)
  {
    if sp != [] {
      if sp[0].0 == name {
        DeleteNameKeepsOthers(sp[1..], name, other);
      } else {
        SetParamKeepsOthers(sp[1..], name, value, other);
      }
    }
  }

  /** A lookup gives the value of the first pair with the name. */
  lemma {:induction false} GetIsFirst(sp: SearchParams, name: string, j: nat)
    requires j < |sp| && sp[j].0 == name
    requires forall i :: 0 <= i < j ==> sp[i].0 != name
    ensures Get(sp, name) == Some(sp[j].1)
  {
    if j > 0 {
      assert sp[0].0 != name;
      GetIsFirst(sp[1..], name, j - 1);
    }
  }

  /** Setting a name already present replaces its first pair in place and drops the later ones. */
  lemma {:induction false} SetExistingReplacesFirst(sp: SearchParams, name: string, value: string, j: nat)
    requires j < |sp| && sp[j].0 == name
    requires forall i :: 0 <= i < j ==> sp[i].0 != name
    ensures SetParam(sp, name, value) == sp[..j] + [(name, value)] + DeleteName(sp[j + 1..], name)
  {
    var tail := DeleteName(sp[j + 1..], name);
    if j == 0 {
      assert sp[..0] == [] && sp[1..] == sp[j + 1..];
      assert SetParam(sp, name, value) == [(name, value)] + tail;
    } else {
      var rest := sp[1..];
      assert rest[j - 1].0 == name;
      assert rest[j..] == sp[j + 1..];
      SetExistingReplacesFirst(rest, name, value, j - 1);
      assert SetParam(rest, name, value) == rest[..j - 1] + [(name, value)] + tail;
      assert sp[..j] == [sp[0]] + rest[..j - 1];
      assert SetParam(sp, name, value) == [sp[0]] + SetParam(rest, name, value);
    }
  }

  lemma {:induction false} SetNewNameAppends(sp: SearchParams, name: string, value: string)
    requires !HasName(sp, name)
    ensures SetParam(sp, name, value) == sp + [(name, value)]
  {
    if sp != [] {
      assert sp[0].0 != name;
      assert !HasName(sp[1..], name) by {
        assert forall j :: 0 <= j < |sp| - 1 ==> sp[1..][j] == sp[j + 1];
      }
      SetNewNameAppends(sp[1..], name, value);
      assert sp == [sp[0]] + sp[1..];
    }
  }

  /** A filter value that `if (value)` lets through: present and not the empty string. */
  function NonEmpty(o: Option<string>): (r: Option<string>)
    ensures r.Some? <==> o.Some? && o.value != ""
    ensures r.Some? ==> r == o
  {
    if o.Some? && o.value != "" then o else None
  }

  /** The filter fields of a request, in the order `Object.entries` lists them. */
  function FilterEntries(params: FilterParams): seq<(string, Option<string>)> {
    [("name", params.name), ("status", params.status), ("species", params.species), ("gender", params.gender)]
  }

  /** The entries with a non-empty value, as name-value pairs, in the same order. */
  function PresentFilters(entries: seq<(string, Option<string>)>): (r: SearchParams)
    ensures forall j :: 0 <= j < |r| ==> exists k :: 0 <= k < |entries| && r[j].0 == entries[k].0
  {
    if entries == [] then []
    else
      var rest := PresentFilters(entries[1..]);
      assert forall k :: 1 <= k < |entries| ==> entries[k] == entries[1..][k - 1];
      var e := entries[0];
      if e.1.Some? && e.1.value != "" then [(e.0, e.1.value)] + rest else rest
  }

  lemma PresentFiltersSnoc(entries: seq<(string, Option<string>)>, e: (string, Option<string>))
    ensures PresentFilters(entries + [e])
         == PresentFilters(entries) + (if e.1.Some? && e.1.value != "" then [(e.0, e.1.value)] else [])
  {
    if entries != [] {
      assert (entries + [e])[1..] == entries[1..] + [e];
      PresentFiltersSnoc(entries[1..], e);
    }
  }

  function PageOrDefault(params: FilterParams): int {
    if params.page.Some? then params.page.value else 1
  }

  /** The query of a list request: `page` first, then each non-empty filter. */
  function ExpectedQuery(params: FilterParams): SearchParams {
    [("page", IntToString(PageOrDefault(params)))] + PresentFilters(FilterEntries(params))
  }

  /** Builds the query of `fetchCharacters` as the source does: `page` is set, then each
      filter entry with a non-empty value is set, in order. */
  method BuildSearchParams(params: FilterParams) returns (sp: SearchParams)
    ensures sp == ExpectedQuery(params)
    ensures |sp| >= 1 && sp[0] == ("page", IntToString(PageOrDefault(params)))
    ensures Get(sp, "page") == Some(IntToString(PageOrDefault(params)))
    ensures Get(sp, "name") == NonEmpty(params.name)
    ensures Get(sp, "status") == NonEmpty(params.status)
    ensures Get(sp, "species") == NonEmpty(params.species)
    ensures Get(sp, "gender") == NonEmpty(params.gender)
    ensures DistinctNames(sp)
  {
    var page := if params.page.Some? then params.page.value else 1;
    sp := SetParam([], "page", IntToString(page));
    var entries := FilterEntries(params);
    for i := 0 to |entries|
      invariant sp == [("page", IntToString(page))] + PresentFilters(entries[..i])
    {
      var (key, value) := entries[i];
      PresentFiltersSnoc(entries[..i], entries[i]);
      assert entries[..i + 1] == entries[..i] + [entries[i]];
      if value.Some? && value.value != "" {
        assert !HasName(sp, key);
        SetNewNameAppends(sp, key, value.value);
        sp := SetParam(sp, key, value.value);
      }
    }
    assert entries[..|entries|] == entries;
    ExpectedQueryFacts(params);
  }

  predicate DistinctEntryNames(entries: seq<(string, Option<string>)>) {
    forall i, j :: 0 <= i < j < |entries| ==> entries[i].0 != entries[j].0
  }

  /** Looking up a filter name in the kept pairs gives that filter's value when it is non-empty. */
  lemma {:induction false} GetPresentFilter(entries: seq<(string, Option<string>)>, k: nat)
    requires k < |entries| && DistinctEntryNames(entries)
    ensures Get(PresentFilters(entries), entries[k].0) == NonEmpty(entries[k].1)
  {
    var rest := PresentFilters(entries[1..]);
    var name := entries[k].0;
    if k == 0 {
      assert !HasName(rest, name);
    } else {
      assert entries[1..][k - 1] == entries[k];
      GetPresentFilter(entries[1..], k - 1);
    }
  }

  lemma {:induction false} PresentFiltersDistinct(entries: seq<(string, Option<string>)>)
    requires DistinctEntryNames(entries)
    ensures DistinctNames(PresentFilters(entries))
  {
    if entries != [] {
      PresentFiltersDistinct(entries[1..]);
    }
  }

  lemma ExpectedQueryFacts(params: FilterParams)
    ensures var sp := ExpectedQuery(params);
      && Get(sp, "page") == Some(IntToString(PageOrDefault(params)))
      && Get(sp, "name") == NonEmpty(params.name)
      && Get(sp, "status") == NonEmpty(params.status)
      && Get(sp, "species") == NonEmpty(params.species)
      && Get(sp, "gender") == NonEmpty(params.gender)
      && DistinctNames(sp)
  {
    var entries := FilterEntries(params);
    var rest := PresentFilters(entries);
    FilterEntryNames(params);
    GetPresentFilter(entries, 0);
    GetPresentFilter(entries, 1);
    GetPresentFilter(entries, 2);
    GetPresentFilter(entries, 3);
    ExpectedQueryDistinct(params);
  }

  /** The filter names are distinct, and none of them is `page`. */
  lemma FilterEntryNames(params: FilterParams)
    ensures DistinctEntryNames(FilterEntries(params))
    ensures forall k :: 0 <= k < |FilterEntries(params)| ==> FilterEntries(params)[k].0 != "page"
  {
    assert "name"[0] != "status"[0] && "name"[0] != "species"[0] && "name"[0] != "gender"[0];
    assert "status"[1] != "species"[1] && "status"[0] != "gender"[0] && "species"[0] != "gender"[0];
    assert "page"[0] != "name"[0] && "page"[0] != "status"[0] && "page"[0] != "species"[0];
    assert "page"[0] != "gender"[0];
  }

  /** `page` comes first and the filters after it, so no name occurs twice. */
  lemma ExpectedQueryDistinct(params: FilterParams)
    ensures DistinctNames(ExpectedQuery(params))
  {
    var entries := FilterEntries(params);
    var rest := PresentFilters(entries);
    FilterEntryNames(params);
    PresentFiltersDistinct(entries);
    assert forall j :: 0 <= j < |rest| ==> rest[j].0 != "page";
  }

  /** `URLSearchParams.toString` without percent-encoding: `name=value` pairs joined by `&`. */
  function Serialize(sp: SearchParams): (text: string)
    ensures sp == [] ==> text == ""
    ensures sp != [] ==> var first := sp[0].0 + "=" + sp[0].1;
      |text| >= |first| && text[..|first|] == first
  {
    if sp == [] then ""
    else if |sp| == 1 then sp[0].0 + "=" + sp[0].1
    else sp[0].0 + "=" + sp[0].1 + "&" + Serialize(sp[1..])
  }

  /** Text that needs no percent-encoding between the separators: no `&` and no `=`. */
  predicate Plain(s: string) {
    '&' !in s && '=' !in s
  }

  predicate PlainPairs(sp: SearchParams) {
    forall i :: 0 <= i < |sp| ==> Plain(sp[i].0) && Plain(sp[i].1)
  }

  /** One `name=value` piece of a query string: split at the first `=`, or the whole
      piece as the name with an empty value when there is none. */
  function ParsePair(piece: string): (p: (string, string))
    ensures '=' !in piece ==> p == (piece, "")
  {
    if '=' in piece then
      var j := IndexOf(piece, '=');
      (piece[..j], piece[j + 1..])
    else (piece, "")
  }

  /** Parsing a query string as `new URLSearchParams(text)` does, without percent-decoding:
      the pieces between `&`s, skipping empty ones, each split into a pair. */
  function ParseQuery(text: string): (sp: SearchParams)
    ensures text == "" ==> sp == []
    decreases |text|
  {
    if text == "" then []
    else if '&' in text then
      var i := IndexOf(text, '&');
      var rest := ParseQuery(text[i + 1..]);
      if i == 0 then rest else [ParsePair(text[..i])] + rest
    else [ParsePair(text)]
  }

  /** A `name=value` piece of plain text parses as that pair. */
  lemma ParsePairOfPlain(name: string, value: string)
    requires Plain(name) && Plain(value)
    ensures ParsePair(name + "=" + value) == (name, value)
  {
    var piece := name + "=" + value;
    assert piece == name + ['='] + value;
    IndexOfAfter(name, value, '=');
    assert piece[..|name|] == name && piece[|name| + 1..] == value;
  }

  /** A non-empty piece without `&`, then `&` and more text: that piece's pair first. */
  lemma ParseQueryStep(piece: string, rest: string)
    requires piece != "" && '&' !in piece
    ensures ParseQuery(piece + "&" + rest) == [ParsePair(piece)] + ParseQuery(rest)
  {
    var text := piece + "&" + rest;
    assert text == piece + ['&'] + rest;
    IndexOfAfter(piece, rest, '&');
    assert text[..|piece|] == piece && text[|piece| + 1..] == rest;
  }

  /** Parsing the serialised text of plain pairs gives back the pairs, in order. */
  lemma {:induction false} ParseSerialize(sp: SearchParams)
    requires PlainPairs(sp)
    ensures ParseQuery(Serialize(sp)) == sp
    decreases |sp|
  {
    if sp != [] {
      var piece := sp[0].0 + "=" + sp[0].1;
      ParsePairOfPlain(sp[0].0, sp[0].1);
      assert piece == sp[0].0 + ['='] + sp[0].1;
      assert '&' !in piece;
      if |sp| == 1 {
        assert sp == [sp[0]];
      } else {
        assert PlainPairs(sp[1..]) by {
          forall i | 0 <= i < |sp| - 1 ensures Plain(sp[1..][i].0) && Plain(sp[1..][i].1) {
            assert sp[1..][i] == sp[i + 1];
          }
        }
        ParseQueryStep(piece, Serialize(sp[1..]));
        ParseSerialize(sp[1..]);
        assert sp == [sp[0]] + sp[1..];
      }
    }
  }

  /** Filter values that need no percent-encoding. */
  predicate PlainFilters(params: FilterParams) {
    && (params.name.Some? ==> Plain(params.name.value))
    && (params.status.Some? ==> Plain(params.status.value))
    && (params.species.Some? ==> Plain(params.species.value))
    && (params.gender.Some? ==> Plain(params.gender.value))
  }

  lemma {:induction false} PresentFiltersPlain(entries: seq<(string, Option<string>)>)
    requires forall k :: 0 <= k < |entries| ==> Plain(entries[k].0) && (entries[k].1.Some? ==> Plain(entries[k].1.value))
    ensures PlainPairs(PresentFilters(entries))
  {
    if entries != [] {
      PresentFiltersPlain(entries[1..]);
    }
  }

  /** The list URL: the endpoint, `?`, then the serialised query, which opens with the page. */
  function CharactersUrl(params: FilterParams): (url: string)
    ensures url == API_BASE_URL + "?" + Serialize(ExpectedQuery(params))
    ensures var head := API_BASE_URL + "?page=" + IntToString(PageOrDefault(params));
      |url| >= |head| && url[..|head|] == head
  {
    var query := Serialize(ExpectedQuery(params));
    var first := "page" + "=" + IntToString(PageOrDefault(params));
    assert query[..|first|] == first;
    var url := API_BASE_URL + "?" + query;
    assert url[..|API_BASE_URL| + 1 + |first|] == API_BASE_URL + "?" + first;
    url
  }

  /** The query of the list URL parses back to the built pairs: the page first, then each
      non-empty filter with its value. */
  lemma CharactersUrlReadsBack(params: FilterParams)
    requires PlainFilters(params)
    ensures var url := CharactersUrl(params);
      && |url| > |API_BASE_URL| && url[..|API_BASE_URL| + 1] == API_BASE_URL + "?"
      && ParseQuery(url[|API_BASE_URL| + 1..]) == ExpectedQuery(params)
  {
    var url := CharactersUrl(params);
    var query := Serialize(ExpectedQuery(params));
    assert url[|API_BASE_URL| + 1..] == query;
    var page := IntToString(PageOrDefault(params));
    assert Plain(page) by {
      if '&' in page || '=' in page {
        var k :| 0 <= k < |page| && (page[k] == '&' || page[k] == '=');
        assert k == 0 || IsDigit(page[k]) by {
          if page[0] == '-' && k > 0 { assert page[1..][k - 1] == page[k]; }
        }
      }
    }
    var entries := FilterEntries(params);
    assert Plain("name") && Plain("status") && Plain("species") && Plain("gender");
    assert forall k :: 0 <= k < |entries| ==> Plain(entries[k].0) && (entries[k].1.Some? ==> Plain(entries[k].1.value)) by {
      forall k | 0 <= k < |entries| ensures Plain(entries[k].0) && (entries[k].1.Some? ==> Plain(entries[k].1.value)) {
        assert k == 0 || k == 1 || k == 2 || k == 3;
      }
    }
    PresentFiltersPlain(entries);
    var sp := ExpectedQuery(params);
    assert PlainPairs(sp) by {
      forall i | 0 <= i < |sp| ensures Plain(sp[i].0) && Plain(sp[i].1) {
        if i > 0 { assert sp[i] == PresentFilters(FilterEntries(params))[i - 1]; }
      }
    }
    ParseSerialize(sp);
  }

  /** The URL of `fetchCharacter`: the base URL, a slash, then the id as given. */
  function CharacterUrl(id: string): (url: string)
    ensures |url| == |API_BASE_URL| + 1 + |id|
    ensures url[..|API_BASE_URL|] == API_BASE_URL && url[|API_BASE_URL|] == '/' && url[|API_BASE_URL| + 1..] == id
  {
    API_BASE_URL + "/" + id
  }

  /** A reply as the awaiting caller sees it: the body of an ok response; otherwise an error,
      carrying `message` when the response was not ok. */
  function Settle<T>(reply: Reply<T>, message: string): (r: Result<T, FetchError>)
    ensures r.Success? <==> reply.HttpReply? && reply.ok
    ensures r.Success? ==> r.value == reply.body
    ensures reply.HttpReply? && !reply.ok ==> r == Failure(NotOk(message))
    ensures reply.NetworkFailure? ==> r == Failure(RequestFailed)
  {
    match reply
    case NetworkFailure => Failure(RequestFailed)
    case HttpReply(ok, body) => if ok then Success(body) else Failure(NotOk(message))
  }

  /** `fetchCharacters`: one request to the list URL; a non-ok response is a failure. */
  method FetchCharacters(params: FilterParams, server: string -> Reply<CharactersResponse>)
    returns (r: Result<CharactersResponse, FetchError>)
    ensures var reply := server(CharactersUrl(params));
      && (r.Success? <==> reply.HttpReply? && reply.ok)
      && (r.Success? ==> r.value == reply.body)
      && (reply.HttpReply? && !reply.ok ==> r == Failure(NotOk("Failed to fetch characters")))
  {
    var sp := BuildSearchParams(params);
    var url := API_BASE_URL + "?" + Serialize(sp);
    r := Settle(server(url), "Failed to fetch characters");
  }

  /** `fetchCharacter`: one request to the single-character URL; a non-ok response is a failure. */
  function FetchCharacter(id: string, server: string -> Reply<Character>): (r: Result<Character, FetchError>)
    ensures var reply := server(API_BASE_URL + "/" + id);
      && (r.Success? <==> reply.HttpReply? && reply.ok)
      && (r.Success? ==> r.value == reply.body)
      && (reply.HttpReply? && !reply.ok ==> r == Failure(NotOk("Failed to fetch character")))
  {
    Settle(server(CharacterUrl(id)), "Failed to fetch character")
  }
}
