/**
 * URLs as the Amazon extractor sees them after `new URL(finalUrl)`: everything
 * before the query, the query as the ordered name/value list of `URLSearchParams`,
 * and the fragment. `Href` is the `href` getter.
 */
module Urls {
  import opened Options

  datatype Param = Param(name: string, value: string)

  /** `head` is scheme, host and path; `fragment` includes its `#` when present. */
  datatype Url = Url(head: string, query: seq<Param>, fragment: string)

  /** The `application/x-www-form-urlencoded` serialisation, without percent-encoding. */
  function Serialize(query: seq<Param>): string
    decreases |query|
  {
    if |query| == 0 then ""
    else
      var pair := query[0].name + "=" + query[0].value;
      if |query| == 1 then pair else pair + "&" + Serialize(query[1..])
  }

  /** The URL as text: an empty query list leaves no `?`. */
  function Href(u: Url): string {
    u.head + (if |u.query| == 0 then "" else "?" + Serialize(u.query)) + u.fragment
  }

  /** The position of the first pair called `name`. */
  function FirstIndex(query: seq<Param>, name: string): (r: Option<nat>)
    ensures r.Some? ==> r.value < |query| && query[r.value].name == name
    ensures r.Some? ==> forall j :: 0 <= j < r.value ==> query[j].name != name
    ensures r.None? ==> forall j :: 0 <= j < |query| ==> query[j].name != name
    decreases |query|
  {
    if |query| == 0 then None
    else if query[0].name == name then Some(0)
    else
      match FirstIndex(query[1..], name)
      case None => None
      case Some(i) => Some(i + 1)
  }

  /** `searchParams.get(name)`: the value of the first pair called `name`. */
  function Lookup(query: seq<Param>, name: string): Option<string> {
    match FirstIndex(query, name)
    case None => None
    case Some(i) => Some(query[i].value)
  }

  /** The pairs not called `name`, in order. */
  function Others(query: seq<Param>, name: string): (r: seq<Param>)
    ensures forall j :: 0 <= j < |r| ==> r[j].name != name
    decreases |query|
  {
    if |query| == 0 then []
    else if query[0].name == name then Others(query[1..], name)
    else [query[0]] + Others(query[1..], name)
  }

  /** How many pairs are called `name`. */
  function Count(query: seq<Param>, name: string): nat
    decreases |query|
  {
    if |query| == 0 then 0
    else (if query[0].name == name then 1 else 0) + Count(query[1..], name)
  }

  lemma {:induction false} OthersAppend(a: seq<Param>, b: seq<Param>, name: string)
    ensures Others(a + b, name) == Others(a, name) + Others(b, name)
    ensures Count(a + b, name) == Count(a, name) + Count(b, name)
    decreases |a|
  {
    if |a| == 0 {
      assert a + b == b;
    } else {
      assert (a + b)[1..] == a[1..] + b;
      OthersAppend(a[1..], b, name);
    }
  }

  lemma {:induction false} OthersOfOthers(query: seq<Param>, name: string)
    ensures Others(Others(query, name), name) == Others(query, name)
    ensures Count(Others(query, name), name) == 0
    decreases |query|
  {
    if |query| > 0 {
      OthersOfOthers(query[1..], name);
      if query[0].name != name {
        var rest := Others(query[1..], name);
        assert ([query[0]] + rest)[1..] == rest;
      }
    }
  }

  lemma {:induction false} NoneCalled(query: seq<Param>, name: string)
    requires forall j :: 0 <= j < |query| ==> query[j].name != name
    ensures Others(query, name) == query
    ensures Count(query, name) == 0
    decreases |query|
  {
    if |query| > 0 {
      NoneCalled(query[1..], name);
      assert [query[0]] + query[1..] == query;
    }
  }

  /**
   * `searchParams.set(name, value)` as section 6.2 of the WHATWG URL Standard
   * defines it: the first pair called `name` takes the new value and the later ones
   * are removed; without such a pair, a new one is appended.
   */
  function SetParam(query: seq<Param>, name: string, value: string): (r: seq<Param>)
    ensures Count(r, name) == 1
    ensures Lookup(r, name) == Some(value)
    ensures Others(r, name) == Others(query, name)
    ensures FirstIndex(query, name).Some? ==> FirstIndex(r, name) == FirstIndex(query, name)
    ensures FirstIndex(query, name).None? ==> FirstIndex(r, name) == Some(|query|)
  {
    match FirstIndex(query, name)
    case None =>
      SetAbsent(query, name, value);
      query + [Param(name, value)]
    case Some(i) =>
      SetPresent(query, name, value, i);
      query[..i] + [Param(name, value)] + Others(query[i + 1..], name)
  }

  lemma SetAbsent(query: seq<Param>, name: string, value: string)
    requires forall j :: 0 <= j < |query| ==> query[j].name != name
    ensures var r := query + [Param(name, value)];
      && Count(r, name) == 1 && Others(r, name) == Others(query, name)
      && FirstIndex(r, name) == Some(|query|) && r[|query|].value == value
  {
    var pair := Param(name, value);
    NoneCalled(query, name);
    OthersAppend(query, [pair], name);
    OnlyPair(pair, name);
    FirstAfter(query, [pair], name);
  }

  lemma SetPresent(query: seq<Param>, name: string, value: string, i: nat)
    requires FirstIndex(query, name) == Some(i)
    ensures var r := query[..i] + [Param(name, value)] + Others(query[i + 1..], name);
      && Count(r, name) == 1 && Others(r, name) == Others(query, name)
      && FirstIndex(r, name) == Some(i) && r[i].value == value
  {
    var pair := Param(name, value);
    var before := query[..i];
    var after := Others(query[i + 1..], name);
    SetPresentCounts(query, pair, i);
    assert before + [pair] + after == before + ([pair] + after);
    FirstAfter(before, [pair] + after, name);
  }

  lemma SetPresentCounts(query: seq<Param>, pair: Param, i: nat)
    requires FirstIndex(query, pair.name) == Some(i)
    ensures var r := query[..i] + [pair] + Others(query[i + 1..], pair.name);
      Count(r, pair.name) == 1 && Others(r, pair.name) == Others(query, pair.name)
  {
    var name := pair.name;
    var before := query[..i];
    var after := Others(query[i + 1..], name);
    NoneCalled(before, name);
    OthersOfOthers(query[i + 1..], name);
    OthersAppend(before, [pair], name);
    OthersAppend(before + [pair], after, name);
    OnlyPair(pair, name);
    OnlyPair(query[i], name);
    assert query == before + [query[i]] + query[i + 1..];
    OthersAppend(before, [query[i]], name);
    OthersAppend(before + [query[i]], query[i + 1..], name);
  }

  /** A lone pair called `name` counts once and leaves nothing else. */
  lemma OnlyPair(pair: Param, name: string)
    requires pair.name == name
    ensures Others([pair], name) == [] && Count([pair], name) == 1
  {
    assert [pair][1..] == [];
  }

  /** With no pair called `name` in front, the first one is where `rest` begins. */
  lemma FirstAfter(before: seq<Param>, rest: seq<Param>, name: string)
    requires forall j :: 0 <= j < |before| ==> before[j].name != name
    requires |rest| > 0 && rest[0].name == name
    ensures FirstIndex(before + rest, name) == Some(|before|)
  {
    var s := before + rest;
    assert s[|before|] == rest[0];
    forall j | 0 <= j < |before|
      ensures s[j].name != name
    {
      assert s[j] == before[j];
    }
  }

  /** The affiliate link: the URL with query parameter `tag` set to `tag`. */
  function TagUrl(u: Url, tag: string): (r: Url)
    ensures r.head == u.head && r.fragment == u.fragment
    ensures Lookup(r.query, "tag") == Some(tag) && Count(r.query, "tag") == 1
    ensures Others(r.query, "tag") == Others(u.query, "tag")
  {
    u.(query := SetParam(u.query, "tag", tag))
  }
}
