/**
 * What the paging links of a request context are: the request's query rebuilt without the
 * start-index parameter, followed by a new start index for the "next" and "prev" pages.
 */
module Paging {
  import opened Wrappers
  import opened JavaInt
  import opened Decimal
  import opened QueryString

  /** One entry of the request's parameter map: a name and its values, in order. */
  datatype Param = Param(key: string, values: seq<string>)

  /** The parts of the servlet request the context reads: its URL without the query, and its parameters in map order. */
  datatype Request = Request(url: string, params: seq<Param>)

  datatype Hyperlink = Hyperlink(rel: string, url: string)

  /** A parameter name that the query text can carry unambiguously. */
  predicate PlainKey(k: string)
  {
    '=' !in k && '&' !in k
  }

  predicate PlainKeys(ps: seq<Param>)
  {
    forall i :: 0 <= i < |ps| ==> PlainKey(ps[i].key)
  }

  /** A value encoder whose output never holds the pair separator, as form-urlencoding guarantees. */
  ghost predicate FormSafe(encode: string -> string)
  {
    forall s :: '&' !in encode(s)
  }

  /** Every value of `xs`, encoded. */
  function EncodeAll(encode: string -> string, xs: seq<string>): seq<string>
  {
    if xs == [] then [] else EncodeAll(encode, xs[..|xs| - 1]) + [encode(xs[|xs| - 1])]
  }

  /** The pairs one parameter contributes: its name with each of its values, encoded, in order. */
  function ParamPairs(key: string, values: seq<string>, encode: string -> string): seq<Pair>
  {
    if values == [] then []
    else ParamPairs(key, values[..|values| - 1], encode) + [Pair(key, encode(values[|values| - 1]))]
  }

  /** The pairs contributed by a parameter unless it is the start-index parameter `skip`. */
  function Block(p: Param, skip: string, encode: string -> string): seq<Pair>
  {
    if p.key == skip then [] else ParamPairs(p.key, p.values, encode)
  }

  /** The pairs of the rebuilt query: every value of every parameter but `skip`, in map order and value order. */
  function Segments(ps: seq<Param>, skip: string, encode: string -> string): seq<Pair>
  {
    if ps == [] then []
    else Segments(ps[..|ps| - 1], skip, encode) + Block(ps[|ps| - 1], skip, encode)
  }

  /** The request's query without the start-index parameter: `?` and one `key=value&` per pair. */
  function QueryWithout(ps: seq<Param>, skip: string, encode: string -> string): string
  {
    "?" + Render(Segments(ps, skip, encode))
  }

  /** All values that the request gives to the name `k`, across all its entries. */
  function ParamValues(ps: seq<Param>, k: string): seq<string>
  {
    if ps == [] then []
    else
      var last := ps[|ps| - 1];
      ParamValues(ps[..|ps| - 1], k) + (if last.key == k then last.values else [])
  }

  /** The start index of the next page: `startIndex + limit` in Java `int` arithmetic. */
  function NextOffset(startIndex: Int32, limit: Int32): Int32
  {
    Add(startIndex, limit)
  }

  /** The start index of the previous page: `startIndex - limit` in Java `int` arithmetic, raised to 0 if negative. */
  function PrevOffset(startIndex: Int32, limit: Int32): (r: Int32)
    ensures r >= 0
    ensures InRange(startIndex - limit) ==> r == if startIndex - limit < 0 then 0 else startIndex - limit
  {
    var candidate := Sub(startIndex, limit);
    if candidate < 0 then 0 else candidate
  }

  function NextLink(req: Request, skip: string, encode: string -> string, startIndex: Int32, limit: Int32): Hyperlink
  {
    var query := QueryWithout(req.params, skip, encode) + Assignment(skip, IntToString(NextOffset(startIndex, limit)));
    Hyperlink("next", req.url + query)
  }

  function PrevLink(req: Request, skip: string, encode: string -> string, startIndex: Int32, limit: Int32): Hyperlink
  {
    var prevStart := PrevOffset(startIndex, limit);
    var query := QueryWithout(req.params, skip, encode);
    var query' := if prevStart > 0 then query + Assignment(skip, IntToString(prevStart)) else query;
    Hyperlink("prev", req.url + query')
  }

  /** The parameters carried by a link built on `base`, read back from the text after `base`. */
  function LinkParams(url: string, base: string): Option<seq<Pair>>
  {
    if |base| <= |url| && url[..|base|] == base then ParseQuery(url[|base|..]) else None
  }

  // ---------------------------------------------------------------------------------------
  // The pairs of the rebuilt query

  lemma {:induction false} ParamPairsShape(key: string, values: seq<string>, encode: string -> string)
    ensures |ParamPairs(key, values, encode)| == |values|
    ensures forall j :: 0 <= j < |values| ==> ParamPairs(key, values, encode)[j] == Pair(key, encode(values[j]))
    decreases |values|
  {
    if values != [] {
      ParamPairsShape(key, values[..|values| - 1], encode);
    }
  }

  /** Taking one more value adds its pair at the end. */
  lemma ParamPairsStep(key: string, values: seq<string>, j: nat, encode: string -> string)
    requires j < |values|
    ensures ParamPairs(key, values[..j + 1], encode) == ParamPairs(key, values[..j], encode) + [Pair(key, encode(values[j]))]
  {
    assert values[..j + 1][..j] == values[..j];
  }

  lemma SegmentsSnoc(ps: seq<Param>, p: Param, skip: string, encode: string -> string)
    ensures Segments(ps + [p], skip, encode) == Segments(ps, skip, encode) + Block(p, skip, encode)
  {
    assert (ps + [p])[..|ps|] == ps;
  }

  /** Appending the segment of value `j` to a rendering of the first `j` pairs renders the first `j + 1`. */
  lemma RenderStep(head: string, key: string, values: seq<string>, j: nat, encode: string -> string)
    requires j < |values|
    ensures head + Render(ParamPairs(key, values[..j + 1], encode))
         == (head + Render(ParamPairs(key, values[..j], encode))) + (key + "=" + encode(values[j]) + "&")
  {
    var pair := Pair(key, encode(values[j]));
    ParamPairsStep(key, values, j, encode);
    RenderSnoc(ParamPairs(key, values[..j], encode), pair);
  }

  /** The rebuilt query of no entries is `?` alone. */
  lemma SegmentsStart(ps: seq<Param>, skip: string, encode: string -> string)
    ensures "?" + Render(Segments(ps[..0], skip, encode)) == "?"
  {
    assert ps[..0] == [];
  }

  /** Rebuilding over all entries is rebuilding over the whole parameter list. */
  lemma SegmentsEnd(ps: seq<Param>, skip: string, encode: string -> string)
    ensures "?" + Render(Segments(ps[..|ps|], skip, encode)) == QueryWithout(ps, skip, encode)
  {
    assert ps[..|ps|] == ps;
  }

  /** A start-index entry adds nothing to the rebuilt query. */
  lemma SegmentsStepSkipped(ps: seq<Param>, i: nat, skip: string, encode: string -> string)
    requires i < |ps| && ps[i].key == skip
    ensures Segments(ps[..i + 1], skip, encode) == Segments(ps[..i], skip, encode)
  {
    assert ps[..i + 1] == ps[..i] + [ps[i]];
    SegmentsSnoc(ps[..i], ps[i], skip, encode);
  }

  /** Any other entry adds the rendering of all its pairs to the rebuilt query. */
  lemma SegmentsStepKept(ps: seq<Param>, i: nat, skip: string, encode: string -> string)
    requires i < |ps| && ps[i].key != skip
    ensures "?" + Render(Segments(ps[..i + 1], skip, encode))
         == ("?" + Render(Segments(ps[..i], skip, encode))) + Render(ParamPairs(ps[i].key, ps[i].values[..|ps[i].values|], encode))
  {
    var p := ps[i];
    var before := Segments(ps[..i], skip, encode);
    assert p.values[..|p.values|] == p.values;
    assert ps[..i + 1] == ps[..i] + [p];
    SegmentsSnoc(ps[..i], p, skip, encode);
    RenderConcat(before, ParamPairs(p.key, p.values, encode));
    Associative("?", Render(before), Render(ParamPairs(p.key, p.values, encode)));
  }

  /** No pair of the rebuilt query carries the start-index name, and every pair carries a name of the request. */
  lemma {:induction false} SegmentsKeys(ps: seq<Param>, skip: string, encode: string -> string)
    ensures forall q :: q in Segments(ps, skip, encode) ==> q.key != skip && exists i :: 0 <= i < |ps| && ps[i].key == q.key
    decreases |ps|
  {
    if ps != [] {
      var ps', last := ps[..|ps| - 1], ps[|ps| - 1];
      SegmentsKeys(ps', skip, encode);
      ParamPairsShape(last.key, last.values, encode);
      forall q | q in Segments(ps, skip, encode)
        ensures q.key != skip && exists i :: 0 <= i < |ps| && ps[i].key == q.key
      {
        if q in Segments(ps', skip, encode) {
          var i :| 0 <= i < |ps'| && ps'[i].key == q.key;
          assert ps[i] == ps'[i];
        } else {
          assert q in Block(last, skip, encode);
          assert ps[|ps| - 1].key == q.key;
        }
      }
    }
  }

  lemma SegmentsPlain(ps: seq<Param>, skip: string, encode: string -> string)
    requires PlainKeys(ps) && FormSafe(encode)
    ensures forall q :: q in Segments(ps, skip, encode) ==> Delimited(q)
  {
    SegmentsKeys(ps, skip, encode);
    forall q | q in Segments(ps, skip, encode)
      ensures Delimited(q)
    {
      var i :| 0 <= i < |ps| && ps[i].key == q.key;
      assert PlainKey(ps[i].key);
      SegmentValueEncoded(ps, skip, encode, q);
    }
  }

  lemma {:induction false} SegmentValueEncoded(ps: seq<Param>, skip: string, encode: string -> string, q: Pair)
    requires q in Segments(ps, skip, encode)
    ensures exists s :: q.value == encode(s)
    decreases |ps|
  {
    var ps', last := ps[..|ps| - 1], ps[|ps| - 1];
    if q in Segments(ps', skip, encode) {
      SegmentValueEncoded(ps', skip, encode, q);
    } else {
      ParamPairsShape(last.key, last.values, encode);
      var j :| 0 <= j < |last.values| && ParamPairs(last.key, last.values, encode)[j] == q;
      assert q.value == encode(last.values[j]);
    }
  }

  lemma {:induction false} ParamPairsValues(key: string, values: seq<string>, encode: string -> string, k: string)
    ensures ValuesOf(ParamPairs(key, values, encode), k) == if key == k then EncodeAll(encode, values) else []
    decreases |values|
  {
    if values != [] {
      var vs, v := values[..|values| - 1], values[|values| - 1];
      ParamPairsValues(key, vs, encode, k);
      ValuesOfConcat(ParamPairs(key, vs, encode), [Pair(key, encode(v))], k);
      assert ValuesOf([Pair(key, encode(v))], k) == if key == k then [encode(v)] else [];
    }
  }

  lemma {:induction false} EncodeAllConcat(encode: string -> string, a: seq<string>, b: seq<string>)
    ensures EncodeAll(encode, a + b) == EncodeAll(encode, a) + EncodeAll(encode, b)
    decreases |b|
  {
    if b == [] {
      assert a + b == a;
    } else {
      var b' := b[..|b| - 1];
      assert (a + b)[..|a + b| - 1] == a + b';
      assert (a + b)[|a + b| - 1] == b[|b| - 1];
      EncodeAllConcat(encode, a, b');
    }
  }

  /**
   * The rebuilt query gives each name other than the start-index name exactly the request's
   * values for it, encoded and in order, and gives the start-index name none.
   */
  lemma {:induction false} SegmentsValues(ps: seq<Param>, skip: string, encode: string -> string, k: string)
    ensures ValuesOf(Segments(ps, skip, encode), k) == if k == skip then [] else EncodeAll(encode, ParamValues(ps, k))
    decreases |ps|
  {
    if ps != [] {
      var ps', last := ps[..|ps| - 1], ps[|ps| - 1];
      SegmentsValues(ps', skip, encode, k);
      ValuesOfConcat(Segments(ps', skip, encode), Block(last, skip, encode), k);
      ParamPairsValues(last.key, last.values, encode, k);
      EncodeAllConcat(encode, ParamValues(ps', k), if last.key == k then last.values else []);
    }
  }

  // ---------------------------------------------------------------------------------------
  // The rebuilt query and the links

  /**
   * The rebuilt query starts with `?`, ends with `?` or `&`, and reads back as exactly the
   * pairs of the request other than the start-index ones.
   */
  lemma QueryRoundTrip(ps: seq<Param>, skip: string, encode: string -> string)
    requires PlainKeys(ps) && FormSafe(encode)
    ensures var q := QueryWithout(ps, skip, encode);
      q[0] == '?' && (q == "?" || q[|q| - 1] == '&') &&
      ParseQuery(q) == Some(Segments(ps, skip, encode))
  {
    QueryEnds(ps, skip, encode);
    QueryParses(ps, skip, encode);
  }

  lemma QueryEnds(ps: seq<Param>, skip: string, encode: string -> string)
    ensures var q := QueryWithout(ps, skip, encode);
      q[0] == '?' && (q == "?" || q[|q| - 1] == '&')
  {
    var pairs := Segments(ps, skip, encode);
    if pairs != [] {
      var last := pairs[|pairs| - 1];
      RenderSnoc(pairs[..|pairs| - 1], last);
      assert pairs[..|pairs| - 1] + [last] == pairs;
      var r := Render(pairs);
      assert r == Render(pairs[..|pairs| - 1]) + PairText(last);
      assert PairText(last)[|PairText(last)| - 1] == '&';
      assert r[|r| - 1] == '&';
    }
  }

  lemma QueryParses(ps: seq<Param>, skip: string, encode: string -> string)
    requires PlainKeys(ps) && FormSafe(encode)
    ensures ParseQuery(QueryWithout(ps, skip, encode)) == Some(Segments(ps, skip, encode))
  {
    var pairs := Segments(ps, skip, encode);
    var r := Render(pairs);
    SegmentsPlain(ps, skip, encode);
    RenderThenParse(pairs, "");
    assert r + "" == r;
    assert pairs + [] == pairs;
    assert QueryWithout(ps, skip, encode)[1..] == r;
  }

  /** The text of a rebuilt query followed by one final `key=value` reads back as the pairs then that pair. */
  lemma QueryThenPair(ps: seq<Param>, skip: string, encode: string -> string, value: string)
    requires PlainKeys(ps) && FormSafe(encode) && PlainKey(skip) && '&' !in value
    ensures ParseQuery(QueryWithout(ps, skip, encode) + Assignment(skip, value))
         == Some(Segments(ps, skip, encode) + [Pair(skip, value)])
  {
    var pairs := Segments(ps, skip, encode);
    var r, t := Render(pairs), Assignment(skip, value);
    assert ("?" + r) + t == "?" + (r + t);
    ParseQueryMark(r + t);
    SegmentsPlain(ps, skip, encode);
    RenderThenParse(pairs, t);
    ParseLast(Pair(skip, value));
  }

  /** Pairs for the start-index name appended to the rebuilt query leave every other name's values as the request gave them. */
  lemma OtherValuesKept(ps: seq<Param>, skip: string, encode: string -> string, extra: seq<Pair>)
    requires forall p :: p in extra ==> p.key == skip
    ensures forall k :: k != skip ==> ValuesOf(Segments(ps, skip, encode) + extra, k) == EncodeAll(encode, ParamValues(ps, k))
  {
    forall k | k != skip
      ensures ValuesOf(Segments(ps, skip, encode) + extra, k) == EncodeAll(encode, ParamValues(ps, k))
    {
      SegmentsValues(ps, skip, encode, k);
      ValuesOfConcat(Segments(ps, skip, encode), extra, k);
      NoValuesOf(extra, k);
    }
  }

  lemma {:induction false} NoValuesOf(pairs: seq<Pair>, k: string)
    requires forall p :: p in pairs ==> p.key != k
    ensures ValuesOf(pairs, k) == []
    decreases |pairs|
  {
    if pairs != [] {
      assert pairs[|pairs| - 1] in pairs;
      NoValuesOf(pairs[..|pairs| - 1], k);
    }
  }

  /**
   * The "next" link is the request URL followed by the rebuilt query and the start index
   * `startIndex + limit` (in `int` arithmetic): it carries every other parameter value unchanged
   * and the start-index name exactly once, with the new value.
   */
  lemma NextLinkContents(req: Request, skip: string, encode: string -> string, startIndex: Int32, limit: Int32)
    requires PlainKeys(req.params) && PlainKey(skip) && FormSafe(encode)
    ensures var link := NextLink(req, skip, encode, startIndex, limit);
      var next := NextOffset(startIndex, limit);
      link.rel == "next" &&
      LinkParams(link.url, req.url) == Some(Segments(req.params, skip, encode) + [Pair(skip, IntToString(next))])
    ensures var pairs := Segments(req.params, skip, encode) + [Pair(skip, IntToString(NextOffset(startIndex, limit)))];
      ValuesOf(pairs, skip) == [IntToString(NextOffset(startIndex, limit))] &&
      forall k :: k != skip ==> ValuesOf(pairs, k) == EncodeAll(encode, ParamValues(req.params, k))
    ensures ParseInt(IntToString(NextOffset(startIndex, limit))) == Some(NextOffset(startIndex, limit))
    ensures InRange(startIndex + limit) ==> NextOffset(startIndex, limit) == startIndex + limit
  {
    var next := NextOffset(startIndex, limit);
    var link := NextLink(req, skip, encode, startIndex, limit);
    var query := QueryWithout(req.params, skip, encode) + Assignment(skip, IntToString(next));
    assert link.url == req.url + query;
    assert link.url[..|req.url|] == req.url && link.url[|req.url|..] == query;
    NumeralPlain(next);
    QueryThenPair(req.params, skip, encode, IntToString(next));
    var segs := Segments(req.params, skip, encode);
    SegmentsValues(req.params, skip, encode, skip);
    ValuesOfConcat(segs, [Pair(skip, IntToString(next))], skip);
    assert ValuesOf([Pair(skip, IntToString(next))], skip) == [IntToString(next)];
    OtherValuesKept(req.params, skip, encode, [Pair(skip, IntToString(next))]);
    IntToStringRoundTrip(next);
  }

  /**
   * The "prev" link uses `max(0, startIndex - limit)` (in `int` arithmetic). When that is
   * positive the link carries it as the only start-index value; when it is 0 the link is the
   * request URL and the rebuilt query alone, with no start-index pair at all.
   */
  lemma PrevLinkContents(req: Request, skip: string, encode: string -> string, startIndex: Int32, limit: Int32)
    requires PlainKeys(req.params) && PlainKey(skip) && FormSafe(encode)
    ensures var link := PrevLink(req, skip, encode, startIndex, limit);
      var prev := PrevOffset(startIndex, limit);
      link.rel == "prev" &&
      (prev > 0 ==> LinkParams(link.url, req.url) == Some(Segments(req.params, skip, encode) + [Pair(skip, IntToString(prev))])) &&
      (prev == 0 ==> link.url == req.url + QueryWithout(req.params, skip, encode) &&
                     LinkParams(link.url, req.url) == Some(Segments(req.params, skip, encode)) &&
                     ValuesOf(Segments(req.params, skip, encode), skip) == [])
    ensures var prev := PrevOffset(startIndex, limit);
      prev > 0 ==>
        ValuesOf(Segments(req.params, skip, encode) + [Pair(skip, IntToString(prev))], skip) == [IntToString(prev)] &&
        ParseInt(IntToString(prev)) == Some(prev)
    ensures LinkParams(PrevLink(req, skip, encode, startIndex, limit).url, req.url).Some? &&
      forall k :: k != skip ==>
        ValuesOf(LinkParams(PrevLink(req, skip, encode, startIndex, limit).url, req.url).value, k)
          == EncodeAll(encode, ParamValues(req.params, k))
    ensures InRange(startIndex - limit) && startIndex - limit > 0 ==> PrevOffset(startIndex, limit) == startIndex - limit
    ensures InRange(startIndex - limit) && startIndex - limit <= 0 ==> PrevOffset(startIndex, limit) == 0
  {
    var prev := PrevOffset(startIndex, limit);
    var link := PrevLink(req, skip, encode, startIndex, limit);
    var segs := Segments(req.params, skip, encode);
    var q := QueryWithout(req.params, skip, encode);
    SegmentsValues(req.params, skip, encode, skip);
    if prev > 0 {
      var query := q + Assignment(skip, IntToString(prev));
      assert link.url == req.url + query;
      assert link.url[..|req.url|] == req.url && link.url[|req.url|..] == query;
      NumeralPlain(prev);
      QueryThenPair(req.params, skip, encode, IntToString(prev));
      ValuesOfConcat(segs, [Pair(skip, IntToString(prev))], skip);
      assert ValuesOf([Pair(skip, IntToString(prev))], skip) == [IntToString(prev)];
      OtherValuesKept(req.params, skip, encode, [Pair(skip, IntToString(prev))]);
      IntToStringRoundTrip(prev);
    } else {
      assert link.url == req.url + q;
      assert link.url[..|req.url|] == req.url && link.url[|req.url|..] == q;
      QueryRoundTrip(req.params, skip, encode);
      OtherValuesKept(req.params, skip, encode, []);
      assert segs + [] == segs;
    }
  }

  // ---------------------------------------------------------------------------------------
  // Worked examples: a request `?foo=bar` paged with limit 10

  lemma ExampleSegments(encode: string -> string)
    requires encode("bar") == "bar"
    ensures Segments([Param("foo", ["bar"])], "startIndex", encode) == [Pair("foo", "bar")]
  {
    var p := Param("foo", ["bar"]);
    ParamPairsStep("foo", ["bar"], 0, encode);
    assert ["bar"][..1] == ["bar"] && ["bar"][..0] == [];
    SegmentsSnoc([], p, "startIndex", encode);
    assert [] + [p] == [p];
  }

  lemma ExampleQuery(encode: string -> string)
    requires encode("bar") == "bar"
    ensures QueryWithout([Param("foo", ["bar"])], "startIndex", encode) == "?foo=bar&"
  {
    var pair := Pair("foo", "bar");
    ExampleSegments(encode);
    RenderSnoc([], pair);
    assert [] + [pair] == [pair];
    assert PairText(pair) == "foo=bar&";
  }

  lemma ExampleNumerals()
    ensures IntToString(30) == "30" && IntToString(10) == "10"
  {
    assert NatToString(3) == "3" && NatToString(1) == "1";
  }

  /** With start index 20 and limit 10 the next page starts at 30. */
  lemma ExampleNextPage(url: string, encode: string -> string)
    requires encode("bar") == "bar"
    ensures NextLink(Request(url, [Param("foo", ["bar"])]), "startIndex", encode, 20, 10).url == url + "?foo=bar&startIndex=30"
  {
    ExampleQuery(encode);
    ExampleNumerals();
    assert NextOffset(20, 10) == 30;
    assert Assignment("startIndex", "30") == "startIndex=30";
    assert "?foo=bar&" + "startIndex=30" == "?foo=bar&startIndex=30";
  }

  /** With start index 20 and limit 10 the previous page starts at 10. */
  lemma ExamplePreviousPage(url: string, encode: string -> string)
    requires encode("bar") == "bar"
    ensures PrevLink(Request(url, [Param("foo", ["bar"])]), "startIndex", encode, 20, 10).url == url + "?foo=bar&startIndex=10"
  {
    ExampleQuery(encode);
    ExampleNumerals();
    assert PrevOffset(20, 10) == 10;
    assert Assignment("startIndex", "10") == "startIndex=10";
    assert "?foo=bar&" + "startIndex=10" == "?foo=bar&startIndex=10";
  }

  /** With start index 5 and limit 10 the previous page is the first one, and its link has no start index. */
  lemma ExampleFirstPage(url: string, encode: string -> string)
    requires encode("bar") == "bar"
    ensures PrevLink(Request(url, [Param("foo", ["bar"])]), "startIndex", encode, 5, 10).url == url + "?foo=bar&"
  {
    ExampleQuery(encode);
  }
}
