/** The outside world as the scripts see it. An HTTP GET is an input value:
    either the request raised, or a response with a status code and a body.
    The body is whatever the scripts go on to read from it (an abstract view of
    the parsed page, the image bytes, ...), so the parser is not modelled. */
module Web {

  datatype Option<+T> = None | Some(value: T) {
    function GetOr(default: T): T {
      match this
      case Some(v) => v
      case None => default
    }
  }

  datatype Result<+T, +E> = Success(value: T) | Failure(error: E)

  /** The outcome of one GET: it raised (transport error, timeout, ...) or it
      returned a response. */
  datatype Fetch<+B> = Failed | Response(status: nat, body: B)

  /** `response.status_code == 200` on a request that did not raise. */
  predicate IsOk<B>(f: Fetch<B>) {
    f.Response? && f.status == 200
  }

  /** The attributes of one `<img>` element, as BeautifulSoup exposes them. */
  type Attrs = map<string, string>

  /** `d.get(key, default)` on a dictionary of strings. */
  function Get(d: map<string, string>, key: string, default: string): string {
    if key in d then d[key] else default
  }

  /** The body of the first of `urls` whose GET returns status 200, trying them
      in order; a request that raises or another status moves on to the next. */
  function FirstOk<B>(urls: seq<string>, source: string -> Fetch<B>): (r: Option<B>)
    ensures r.Some? <==> exists i :: 0 <= i < |urls| && IsOk(source(urls[i]))
    ensures r.Some? ==>
      exists i :: 0 <= i < |urls| && IsOk(source(urls[i])) && r.value == source(urls[i]).body &&
        forall j :: 0 <= j < i ==> !IsOk(source(urls[j]))
  {
    if urls == [] then None
    else if IsOk(source(urls[0])) then Some(source(urls[0]).body)
    else
      var r := FirstOk(urls[1..], source);
      assert forall i :: 1 <= i < |urls| ==> urls[i] == urls[1..][i - 1];
      r
  }
}
