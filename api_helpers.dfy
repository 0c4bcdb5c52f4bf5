/** lib/api-helpers.ts: the Cache-Control header builder, the session reader
    for other routes, and the error envelope. */
module ApiHelpers {
  import opened Types
  import opened Decimal
  import opened Session

  const CacheControl := "Cache-Control"
  const DefaultTtl := 60
  const PublicMaxAge := "public, s-maxage="
  const StaleWhileRevalidate := ", stale-while-revalidate="

  /** The `ttl = 60` default parameter: None stands for an undefined argument. */
  function TtlOrDefault(ttl: Option<int>): (t: int)
    ensures ttl.Some? ==> t == ttl.value
    ensures ttl.None? ==> t == DefaultTtl
  {
    if ttl.Some? then ttl.value else DefaultTtl
  }

  /** The header value for s-maxage a and stale-while-revalidate b, each in
      exact decimal digits, as a template literal writes an integral number
      of magnitude at most 2^53. */
  function CacheControlValue(a: int, b: int): (v: string)
  {
    PublicMaxAge + (ShowInt(a) + (StaleWhileRevalidate + ShowInt(b)))
  }

  /** `cacheResponse(ttl)`: a header whose s-maxage is ttl and whose
      stale-while-revalidate window is twice as long. No other string reads
      back as the same pair, so this fixes the header's text exactly. */
  function CacheResponse(ttl: Option<int>): (h: map<string, string>)
    ensures h.Keys == {CacheControl}
    ensures ParseCacheControl(h[CacheControl]) == Some((TtlOrDefault(ttl), TtlOrDefault(ttl) * 2))
    ensures forall v :: ParseCacheControl(v) == Some((TtlOrDefault(ttl), TtlOrDefault(ttl) * 2)) ==> v == h[CacheControl]
  {
    var t := TtlOrDefault(ttl);
    ParseRendered(t, t * 2);
    RenderingIsUnique(t, t * 2);
    map[CacheControl := CacheControlValue(t, t * 2)]
  }

  /** The index of the first `c` in `s`, or |s| when there is none. */
  function IndexOf(s: string, c: char): (k: nat)
    ensures k <= |s|
    ensures forall i :: 0 <= i < k ==> s[i] != c
    ensures k < |s| ==> s[k] == c
  {
    if |s| == 0 then 0 else if s[0] == c then 0 else 1 + IndexOf(s[1..], c)
  }

  /** Splits a header value of the form "public, s-maxage=<x>,
      stale-while-revalidate=<y>" into the strings x and y, x ending at the
      first comma. */
  function SplitCacheControl(v: string): (r: Option<(string, string)>)
  {
    if |v| < |PublicMaxAge| || v[..|PublicMaxAge|] != PublicMaxAge then None
    else
      var rest := v[|PublicMaxAge|..];
      var k := IndexOf(rest, ',');
      if |rest| - k < |StaleWhileRevalidate| || rest[k..k + |StaleWhileRevalidate|] != StaleWhileRevalidate then None
      else Some((rest[..k], rest[k + |StaleWhileRevalidate|..]))
  }

  /** Reads a header value back into (s-maxage, stale-while-revalidate); the
      numerals must be written as `ShowInt` writes them. */
  function ParseCacheControl(v: string): (r: Option<(int, int)>)
  {
    match SplitCacheControl(v)
    case None => None
    case Some((x, y)) =>
      match (ReadInt(x), ReadInt(y))
      case (Some(a), Some(b)) => Some((a, b))
      case _ => None
  }

  lemma {:induction false} IndexOfPastPrefix(a: string, b: string, c: char)
    requires forall i :: 0 <= i < |a| ==> a[i] != c
    requires |b| > 0 && b[0] == c
    ensures IndexOf(a + b, c) == |a|
  {
    if |a| > 0 {
      assert (a + b)[1..] == a[1..] + b;
      IndexOfPastPrefix(a[1..], b, c);
    }
  }

  /** A header assembled from x and y splits back into x and y when x holds
      no comma. */
  lemma SplitAssembled(x: string, y: string)
    requires forall i :: 0 <= i < |x| ==> x[i] != ','
    ensures SplitCacheControl(PublicMaxAge + (x + (StaleWhileRevalidate + y))) == Some((x, y))
  {
    var rest := x + (StaleWhileRevalidate + y);
    var v := PublicMaxAge + rest;
    assert v[..|PublicMaxAge|] == PublicMaxAge && v[|PublicMaxAge|..] == rest;
    IndexOfPastPrefix(x, StaleWhileRevalidate + y, ',');
    assert rest[|x|..|x| + |StaleWhileRevalidate|] == StaleWhileRevalidate;
    assert rest[|x| + |StaleWhileRevalidate|..] == y;
  }

  /** A header that splits into x and y is assembled from them. */
  lemma SplitIsAssembled(v: string)
    requires SplitCacheControl(v).Some?
    ensures var (x, y) := SplitCacheControl(v).value;
      v == PublicMaxAge + (x + (StaleWhileRevalidate + y))
  {
  }

  lemma ParseRendered(a: int, b: int)
    ensures ParseCacheControl(CacheControlValue(a, b)) == Some((a, b))
  {
    SplitAssembled(ShowInt(a), ShowInt(b));
    ReadShowInt(a);
    ReadShowInt(b);
  }

  /** Only the rendering of (a, b) reads back as (a, b). */
  lemma RenderingIsUnique(a: int, b: int)
    ensures forall v :: ParseCacheControl(v) == Some((a, b)) ==> v == CacheControlValue(a, b)
  {
    forall v | ParseCacheControl(v) == Some((a, b)) {
      ParsedIsRendered(v);
    }
  }

  /** Every header value the parser accepts is the rendering of the pair it
      reads. */
  lemma ParsedIsRendered(v: string)
    requires ParseCacheControl(v).Some?
    ensures v == CacheControlValue(ParseCacheControl(v).value.0, ParseCacheControl(v).value.1)
  {
    var (x, y) := SplitCacheControl(v).value;
    SplitIsAssembled(v);
    ShowReadInt(x);
    ShowReadInt(y);
  }

  /** `getAuthUser()`: the claim projection of the session token, or null when
      no token is presented or verification throws. It reads the cookies and
      changes nothing. */
  function GetAuthUser(jar: Jar, env: Env): (r: Option<PublicUser>)
    ensures !Presented(jar) ==> r.None?
    ensures r.Some? <==> Decoded(jar, env).Some?
    ensures r.Some? ==>
      var c := Decoded(jar, env).value;
      r.value.id == c.id && r.value.username == c.username && r.value.email == c.email
  {
    match Decoded(jar, env)
    case None => None
    case Some(decoded) => Some(PublicUser(decoded.id, decoded.username, decoded.email))
  }

  datatype ErrorDetail = ErrorDetail(message: string, status: int)
  datatype ErrorEnvelope = ErrorEnvelope(error: ErrorDetail)

  /** `formatError(message, status = 400)`: None stands for an undefined
      status. */
  function FormatError(message: string, status: Option<int>): (r: ErrorEnvelope)
    ensures r.error.message == message
    ensures status.Some? ==> r.error.status == status.value
    ensures status.None? ==> r.error.status == 400
  {
    ErrorEnvelope(ErrorDetail(message, if status.Some? then status.value else 400))
  }
}
