/**
 * The textual form of a request query: `?` followed by `key=value` pairs, each ended by `&`
 * (the last one possibly without). A parser reads such text back into pairs, so that what a
 * link carries can be stated in terms of parameters rather than characters.
 */
module QueryString {
  import opened Wrappers

  datatype Pair = Pair(key: string, value: string)

  /** A parameter assignment `key=value`. */
  function Assignment(key: string, value: string): string
  {
    key + "=" + value
  }

  /** One segment as the query builder writes it: `key=value&`. */
  function PairText(p: Pair): string
  {
    Assignment(p.key, p.value) + "&"
  }

  /** The segments of `pairs`, in order, each with its trailing `&`. */
  function Render(pairs: seq<Pair>): string
  {
    if pairs == [] then "" else Render(pairs[..|pairs| - 1]) + PairText(pairs[|pairs| - 1])
  }

  lemma Associative(a: string, b: string, c: string)
    ensures (a + b) + c == a + (b + c)
  {
  }

  lemma RenderSnoc(pairs: seq<Pair>, p: Pair)
    ensures Render(pairs + [p]) == Render(pairs) + PairText(p)
  {
    assert (pairs + [p])[..|pairs|] == pairs;
  }

  lemma {:induction false} RenderConcat(a: seq<Pair>, b: seq<Pair>)
    ensures Render(a + b) == Render(a) + Render(b)
    decreases |b|
  {
    if b == [] {
      assert a + b == a;
    } else {
      var b', x := b[..|b| - 1], b[|b| - 1];
      assert b == b' + [x];
      assert a + b == (a + b') + [x];
      RenderConcat(a, b');
      RenderSnoc(a + b', x);
      RenderSnoc(b', x);
      Associative(Render(a), Render(b'), PairText(x));
    }
  }

  /** A pair that the parser can recover from its text: the key holds no delimiter, the value no `&`. */
  predicate Delimited(p: Pair)
  {
    '=' !in p.key && '&' !in p.key && '&' !in p.value
  }

  /** The position of the first `c` in `s`, or `|s|` when there is none. */
  function IndexOf(s: string, c: char): (i: nat)
    ensures i <= |s|
    ensures i < |s| ==> s[i] == c
    ensures c !in s[..i]
  {
    if s == [] then 0
    else if s[0] == c then 0
    else
      assert s[..1 + IndexOf(s[1..], c)] == [s[0]] + s[1..][..IndexOf(s[1..], c)];
      1 + IndexOf(s[1..], c)
  }

  /** What reading one pair yields: the pair, and the text after its `&` if there was one. */
  datatype Read = Read(pair: Pair, rest: Option<string>)

  /** Reads one `key=value` off the front of `s`: the key runs to the first `=`, the value to the next `&` or the end. */
  function ReadPair(s: string): (r: Option<Read>)
    ensures r.Some? && r.value.rest.Some? ==> |r.value.rest.value| < |s|
  {
    var e := IndexOf(s, '=');
    if e == |s| then None
    else
      var rest := s[e + 1..];
      var a := IndexOf(rest, '&');
      if a == |rest| then Some(Read(Pair(s[..e], rest), None))
      else Some(Read(Pair(s[..e], rest[..a]), Some(rest[a + 1..])))
  }

  /** Reads `k=v&k=v&...`; nothing after a final `&` ends the list. */
  function ParsePairs(s: string): Option<seq<Pair>>
    decreases |s|
  {
    if s == [] then Some([])
    else
      match ReadPair(s)
      case None => None
      case Some(Read(p, None)) => Some([p])
      case Some(Read(p, Some(r))) => Prepend([p], ParsePairs(r))
  }

  /** Reads a whole query string, which must begin with `?`. */
  function ParseQuery(q: string): Option<seq<Pair>>
  {
    if |q| >= 1 && q[0] == '?' then ParsePairs(q[1..]) else None
  }

  lemma ParseQueryMark(x: string)
    ensures ParseQuery("?" + x) == ParsePairs(x)
  {
    assert ("?" + x)[1..] == x;
  }

  /** `pairs` followed by whatever `t` parses to. */
  function Prepend(pairs: seq<Pair>, t: Option<seq<Pair>>): Option<seq<Pair>>
  {
    match t
    case None => None
    case Some(ts) => Some(pairs + ts)
  }

  lemma IndexOfAt(a: string, c: char, b: string)
    requires c !in a
    ensures IndexOf(a + [c] + b, c) == |a|
  {
    var s := a + [c] + b;
    assert s[|a|] == c;
    assert s[..|a|] == a;
  }

  /** Reading one segment off the front of a text leaves the rest of the text. */
  lemma ReadFront(p: Pair, r: string)
    requires Delimited(p)
    ensures ReadPair(PairText(p) + r) == Some(Read(p, Some(r)))
  {
    var s := PairText(p) + r;
    assert s == p.key + ['='] + (p.value + "&" + r);
    IndexOfAt(p.key, '=', p.value + "&" + r);
    var rest := s[|p.key| + 1..];
    assert rest == p.value + ['&'] + r;
    IndexOfAt(p.value, '&', r);
    assert rest[..|p.value|] == p.value;
    assert rest[|p.value| + 1..] == r;
    assert s[..|p.key|] == p.key;
  }

  /** Rendering a non-empty list is its first segment followed by the rendering of the rest. */
  lemma RenderFront(pairs: seq<Pair>)
    requires pairs != []
    ensures Render(pairs) == PairText(pairs[0]) + Render(pairs[1..])
  {
    RenderConcat([pairs[0]], pairs[1..]);
    assert [pairs[0]] + pairs[1..] == pairs;
    assert [pairs[0]][..0] == [];
  }

  lemma ParseStep(s: string, p: Pair, r: string)
    requires ReadPair(s) == Some(Read(p, Some(r)))
    ensures ParsePairs(s) == Prepend([p], ParsePairs(r))
  {
  }

  lemma PrependAssoc(p: Pair, rest: seq<Pair>, t: Option<seq<Pair>>)
    ensures Prepend([p], Prepend(rest, t)) == Prepend([p] + rest, t)
  {
    match t
    case None =>
    case Some(ts) => assert [p] + (rest + ts) == ([p] + rest) + ts;
  }

  /** Parsing rendered pairs followed by a text gives those pairs followed by the text's pairs. */
  lemma {:induction false} RenderThenParse(pairs: seq<Pair>, t: string)
    requires forall p :: p in pairs ==> Delimited(p)
    ensures ParsePairs(Render(pairs) + t) == Prepend(pairs, ParsePairs(t))
    decreases |pairs|
  {
    if pairs == [] {
      assert Render(pairs) + t == t;
      match ParsePairs(t)
      case None =>
      case Some(ts) => assert pairs + ts == ts;
    } else {
      var p, rest := pairs[0], pairs[1..];
      assert pairs == [p] + rest;
      var r := Render(rest) + t;
      RenderFront(pairs);
      assert Render(pairs) + t == PairText(p) + r;
      ReadFront(p, r);
      ParseStep(PairText(p) + r, p, r);
      RenderThenParse(rest, t);
      PrependAssoc(p, rest, ParsePairs(t));
    }
  }

  /** A final pair written without its `&` is read back as that pair. */
  lemma ParseLast(p: Pair)
    requires Delimited(p)
    ensures ParsePairs(Assignment(p.key, p.value)) == Some([p])
  {
    var s := Assignment(p.key, p.value);
    assert s == p.key + ['='] + p.value;
    IndexOfAt(p.key, '=', p.value);
    var rest := s[|p.key| + 1..];
    assert rest == p.value;
    assert s[..|p.key|] == p.key;
    assert ReadPair(s) == Some(Read(p, None));
  }

  /** The values given to key `k`, in order. */
  function ValuesOf(pairs: seq<Pair>, k: string): seq<string>
  {
    if pairs == [] then []
    else
      var last := pairs[|pairs| - 1];
      ValuesOf(pairs[..|pairs| - 1], k) + (if last.key == k then [last.value] else [])
  }

  lemma {:induction false} ValuesOfConcat(a: seq<Pair>, b: seq<Pair>, k: string)
    ensures ValuesOf(a + b, k) == ValuesOf(a, k) + ValuesOf(b, k)
    decreases |b|
  {
    if b == [] {
      assert a + b == a;
    } else {
      var b' := b[..|b| - 1];
      assert (a + b)[..|a + b| - 1] == a + b';
      assert (a + b)[|a + b| - 1] == b[|b| - 1];
      ValuesOfConcat(a, b', k);
    }
  }
}
