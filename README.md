# RequestContext: paging state and paging links of the OpenMRS REST layer

This project models `RequestContext`, the per-request holder of the REST web-services module.
It stores the request being served, the requested representation, a start index and a result
limit. It exposes:

- a validating limit setter. It accepts only a value that is present, positive and at most the
  administrator's absolute limit. Otherwise it throws with a message and keeps the old limit.
- plain getters and setters for the request, the representation and the start index.
- the "next" and "prev" paging links. Each one is the request URL followed by the request's
  query string rebuilt without the start-index parameter, with every value form-encoded. The
  "next" link then adds `startIndex=` plus the sum `startIndex + limit`. The "prev" link adds
  `max(0, startIndex - limit)`, and only when that value is positive.

Modules:

- `Wrappers`: `Option` and `Outcome` (pass, or fail with an error).
- `JavaInt`: Java's 32-bit `int`. `Int32` is the value range and `Wrap` is two's-complement
  wrap-around. `Add` and `Sub` are Java's `+` and `-` on `int`.
- `Decimal`: `Integer.toString` (`IntToString`), a parser for its output (`ParseInt`), and the
  round trip between the two.
- `QueryString`: `key=value&` pairs. `Render` writes them and `ParsePairs`/`ParseQuery` read
  them back. `ValuesOf` lists the values a query gives to one name.
- `Paging`: the specification of the rebuilt query (`Segments`, `QueryWithout`) and of the two
  links (`NextLink`, `PrevLink`), with the lemmas that say what a link carries.
- `RestWeb`: the class `RequestContext`, with its four mutable fields and its methods.
  `GetQueryWithoutStartIndex` is the nested loop over a string buffer. It is proved equal to
  `Paging.QueryWithout`. `GetNextLink` and `GetPreviousLink` are proved equal to
  `Paging.NextLink` and `Paging.PrevLink`. They have no `modifies` clause, so they change no
  field of the context.

The servlet request is a value, `Request(url, params)`:

- `url` is what `getRequestURL()` returns.
- `params` is the parameter map as a sequence of `Param(key, values)`, in the map's iteration
  order.

The name of the start-index parameter is a constructor argument (`startIndexKey`). So is the
value encoder (`encode`), which stands for `URLEncoder.encode(·, "UTF-8")`. The configured
default limit is a constructor argument. The configured absolute limit is an argument of
`SetLimit`, because the source reads it each time it validates.

Java's `null` is `None`:

- `setLimit(null)` is `SetLimit(None, …)`.
- A context with no request holds `request == None`.

## Model

Source paths are relative to the repository root.

| member | source | states |
|---|---|---|
| RestWeb.RequestContext.constructor | omod/src/main/java/org/openmrs/module/webservices/rest/web/RequestContext.java:31-40 | a new context has no request, the default representation, start index 0 and the configured default limit |
| RestWeb.RequestContext.GetRequest | omod/src/main/java/org/openmrs/module/webservices/rest/web/RequestContext.java:45-47 | returns the stored request |
| RestWeb.RequestContext.SetRequest | omod/src/main/java/org/openmrs/module/webservices/rest/web/RequestContext.java:52-54 | stores the request; representation, start index and limit are unchanged |
| RestWeb.RequestContext.GetRepresentation | omod/src/main/java/org/openmrs/module/webservices/rest/web/RequestContext.java:59-61 | returns the stored representation |
| RestWeb.RequestContext.SetRepresentation | omod/src/main/java/org/openmrs/module/webservices/rest/web/RequestContext.java:67-69 | stores the representation; request, start index and limit are unchanged |
| RestWeb.RequestContext.GetLimit | omod/src/main/java/org/openmrs/module/webservices/rest/web/RequestContext.java:79-81 | returns the stored limit |
| RestWeb.CheckLimit | omod/src/main/java/org/openmrs/module/webservices/rest/web/RequestContext.java:88-95 | a limit is accepted if and only if it is present, positive and at most the absolute limit. An absent or non-positive value fails with the ">0 and not null" message. A value above the absolute limit fails with a message starting "Administrator has set absolute limit at " |
| RestWeb.LimitMessageNamesAbsoluteLimit | omod/src/main/java/org/openmrs/module/webservices/rest/web/RequestContext.java:91-92 | the message for a limit above the absolute limit names the absolute limit: the text after the prefix parses back to exactly that number |
| RestWeb.RequestContext.SetLimit | omod/src/main/java/org/openmrs/module/webservices/rest/web/RequestContext.java:88-95 | the outcome is `CheckLimit`. On success the limit is the given value and lies in (0, absolute limit]. On failure the limit is unchanged. A limit already in range stays in range. Request, representation and start index never change |
| RestWeb.RequestContext.GetStartIndex | omod/src/main/java/org/openmrs/module/webservices/rest/web/RequestContext.java:105-107 | returns the stored start index |
| RestWeb.RequestContext.SetStartIndex | omod/src/main/java/org/openmrs/module/webservices/rest/web/RequestContext.java:113-115 | stores any start index unvalidated; request, representation and limit are unchanged |
| RestWeb.RequestContext.GetQueryWithoutStartIndex | omod/src/main/java/org/openmrs/module/webservices/rest/web/RequestContext.java:147-164 | the buffer built by the nested loop equals `QueryWithout` of the request's parameters; the properties of that query are the `Paging` lemmas below |
| RestWeb.RequestContext.GetNextLink | omod/src/main/java/org/openmrs/module/webservices/rest/web/RequestContext.java:122-126 | the link built equals `NextLink` of the context's request, key, encoder, start index and limit; see `Paging.NextLinkContents` |
| RestWeb.RequestContext.GetPreviousLink | omod/src/main/java/org/openmrs/module/webservices/rest/web/RequestContext.java:133-141 | the link built equals `PrevLink` of the context's state; see `Paging.PrevLinkContents` |
| JavaInt.Wrap | omod/src/main/java/org/openmrs/module/webservices/rest/web/RequestContext.java:124 | the `int` result of an addition or subtraction agrees with the exact result modulo 2^32, and equals it when it fits in 32 bits |
| Decimal.IntToStringRoundTrip | omod/src/main/java/org/openmrs/module/webservices/rest/web/RequestContext.java:124 | the decimal text of every integer, as string concatenation writes it, parses back to that integer |
| Decimal.NumeralPlain | omod/src/main/java/org/openmrs/module/webservices/rest/web/RequestContext.java:124 | the decimal text of an integer contains neither `&` nor `=`, so an offset appended to a query stays one value |
| Paging.PrevOffset | omod/src/main/java/org/openmrs/module/webservices/rest/web/RequestContext.java:135-137 | the previous offset is never negative, and is `max(0, startIndex - limit)` whenever the difference fits in an `int` |
| Paging.ParamPairsShape | omod/src/main/java/org/openmrs/module/webservices/rest/web/RequestContext.java:154-157 | a kept parameter contributes exactly one pair per value, in value order, each pairing the key with the encoded value |
| Paging.SegmentsKeys | omod/src/main/java/org/openmrs/module/webservices/rest/web/RequestContext.java:149-153 | no pair of the rebuilt query has the start-index key, and every pair's key is a key of the request |
| Paging.SegmentValueEncoded | omod/src/main/java/org/openmrs/module/webservices/rest/web/RequestContext.java:156 | every value in the rebuilt query is the encoder's output for some value |
| Paging.SegmentsValues | omod/src/main/java/org/openmrs/module/webservices/rest/web/RequestContext.java:147-164 | the rebuilt query gives the start-index name no value. It gives every other name exactly the encoded values the request gives it, once each and in order |
| Paging.SegmentsPlain | omod/src/main/java/org/openmrs/module/webservices/rest/web/RequestContext.java:156 | with keys free of `=`/`&` and an encoder that never emits `&`, every rebuilt pair can be delimited unambiguously |
| Paging.QueryRoundTrip | omod/src/main/java/org/openmrs/module/webservices/rest/web/RequestContext.java:147-164 | the rebuilt query starts with `?`, is `?` alone or ends with `&`, and parses back to exactly its pairs |
| Paging.QueryThenPair | omod/src/main/java/org/openmrs/module/webservices/rest/web/RequestContext.java:123-124 | the rebuilt query followed by one `key=value` parses as the rebuilt pairs followed by that pair |
| Paging.OtherValuesKept | omod/src/main/java/org/openmrs/module/webservices/rest/web/RequestContext.java:122-141 | appending start-index pairs to the rebuilt query leaves every other name's values as the request gave them, encoded |
| Paging.NextLinkContents | omod/src/main/java/org/openmrs/module/webservices/rest/web/RequestContext.java:122-126 | the link is "next". Read after the request URL, it carries the rebuilt pairs and then the start index `startIndex + limit`. The start-index name has exactly that one value, which parses back to the offset. Every other name keeps its encoded values. The offset is the exact sum whenever that fits in an `int` |
| Paging.PrevLinkContents | omod/src/main/java/org/openmrs/module/webservices/rest/web/RequestContext.java:133-141 | the link is "prev". If the clamped offset is positive, the link carries the rebuilt pairs and then that offset as the only start-index value. If it is 0, the URL is the request URL and the rebuilt query alone, with no start-index value. Either way every other name keeps its encoded values, and the offset is `startIndex - limit` or 0 as the exact difference says |
| QueryString.RenderThenParse | omod/src/main/java/org/openmrs/module/webservices/rest/web/RequestContext.java:148-163 | `key=value&` pairs written one after the other read back as the same pairs, followed by whatever the rest of the text reads as, provided no key holds `=` or `&` and no value holds `&` |
| QueryString.ParseLast | omod/src/main/java/org/openmrs/module/webservices/rest/web/RequestContext.java:124 | one final `key=value` with no trailing `&` reads back as that single pair |
| QueryString.ValuesOfConcat | omod/src/main/java/org/openmrs/module/webservices/rest/web/RequestContext.java:147-164 | the values of a name in a concatenation of pair lists are its values in the first list followed by those in the second |
| Paging.ExampleQuery | omod/src/main/java/org/openmrs/module/webservices/rest/web/RequestContext.java:147-164 | the request `foo=bar` rebuilds to `?foo=bar&` |
| Paging.ExampleNextPage | omod/src/main/java/org/openmrs/module/webservices/rest/web/RequestContext.java:122-126 | start index 20 and limit 10 give a next link ending `?foo=bar&startIndex=30` |
| Paging.ExamplePreviousPage | omod/src/main/java/org/openmrs/module/webservices/rest/web/RequestContext.java:133-141 | start index 20 and limit 10 give a previous link ending `?foo=bar&startIndex=10` |
| Paging.ExampleFirstPage | omod/src/main/java/org/openmrs/module/webservices/rest/web/RequestContext.java:133-141 | start index 5 and limit 10 give a previous link ending `?foo=bar&`, with no start index |

## Left out

- `HttpServletRequest`: `getRequestURL()` and `getParameterMap()` are container calls. The
  model takes their results as the value `Request(url, params)`. The map's iteration order is
  unspecified in Java, so the model fixes one order, the order of `params`.
- `request` is a value, not a reference. Aliasing with a request the container later changes is
  not modelled.
- The link methods require a request to be present. Java would throw a `NullPointerException`
  when there is none. The null `Integer` unboxing of `startIndex` or `limit` is not modelled
  either: both fields hold an `Int32`.
- `URLEncoder.encode`: its internals are a library call, so the encoder is a function given to
  the constructor. The lemmas that read a link back assume two things. The encoder never emits
  `&`, which is true of form-urlencoding. No parameter key, including the start-index key,
  contains `=` or `&`, because the source does not encode keys.
- The `UnsupportedEncodingException` branch (lines 158-159) cannot happen for UTF-8 and is not
  modelled.
- `RestUtil.getDefaultLimit()` and `RestUtil.getAbsoluteLimit()` read global configuration.
  They are parameters here: of the constructor and of `SetLimit`.
- `RestConstants.REQUEST_PROPERTY_FOR_START_INDEX` is not part of this model. Its value is the
  constructor parameter `startIndexKey`. The examples use `"startIndex"`.
- The `Representation` hierarchy: a representation is stored and returned, never inspected. The
  datatype names a few shapes for illustration.
- `Hyperlink` is only its relation and its URL. `APIException` is only its message.
- RestWeb.RequestContext.constructor: the configured default limit is stored as given, as in the
  source. So `LimitWithin` holds after `SetLimit` succeeds, not from construction.

Points where the behaviour as coded is followed rather than a looser description of it:

- The start index is never validated. So the "next" offset `startIndex + limit` can be negative
  and can wrap around in 32-bit arithmetic. The model computes it with `int` wrap-around.
  `NextLinkContents` states the exact sum only when the sum fits.
- When `startIndex == limit`, the previous offset is 0 and the link carries no start index. The
  link carries `startIndex - limit` only when that difference is strictly positive.
- The rebuilt query already begins with `?`. The link is the request URL followed directly by
  that query, with no second `?` inserted.
