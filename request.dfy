/** Turning an action and the caller's parameters into the transport request: the method
    table, the parameter list (`URLSearchParams`) and the request shape (url, method,
    credentials, headers, body). The serialised query string is kept as its list of pairs. */
module RequestBuilder {
  import opened Common

  /** One serialised `key=value` pair. */
  type Pair = (string, string)

  /** One entry of the caller's parameter object; `None` stands for `null` or `undefined`. */
  type Param = (string, Option<string>)

  const BASE_URL := "/ibi_apps/rs"
  const ACTION_KEY := "IBIRS_action"
  const SERVICE_KEY := "IBIRS_service"
  const DEFAULT_SERVICE := "ibfs"
  const CONTENT_TYPE := "Content-Type"
  const FORM_CONTENT_TYPE := "application/x-www-form-urlencoded; charset=UTF-8"
  const INCLUDE_CREDENTIALS := "include"

  datatype HttpMethod = GET | POST

  const ACTION_METHODS: map<string, HttpMethod> :=
    map["signOn" := GET, "signOff" := GET, "get" := GET, "describeFex" := GET, "run" := GET]

  /** The method of an action: its entry in the table, `GET` for an action the table lacks. */
  function GetActionMethod(action: string): (m: HttpMethod)
    ensures action in ACTION_METHODS ==> m == ACTION_METHODS[action]
    ensures action !in ACTION_METHODS ==> m == GET
  {
    if action in ACTION_METHODS then ACTION_METHODS[action] else GET
  }

  /** With the current table every action, known or not, is sent with `GET`. */
  lemma EveryActionIsGet(action: string)
    ensures GetActionMethod(action) == GET
  {
  }

  /** `Object.prototype.hasOwnProperty.call(extra, key)`. */
  predicate HasKey(extra: seq<Param>, key: string)
  {
    exists i :: 0 <= i < |extra| && extra[i].0 == key
  }

  /** An object has each key once. */
  predicate DistinctKeys(extra: seq<Param>)
  {
    forall i, j :: 0 <= i < j < |extra| ==> extra[i].0 != extra[j].0
  }

  /** The pair a caller entry is serialised as, if it is serialised at all. */
  function Kept(p: Param): Option<Pair>
  {
    if p.1.Some? then Some((p.0, p.1.value)) else None
  }

  /** The parameters of a request: the action pair, then the default service unless the caller
      has a service key, then the caller's entries with a value, in the caller's order. */
  function ActionParams(action: string, extra: seq<Param>): seq<Pair>
  {
    [(ACTION_KEY, action)]
    + (if HasKey(extra, SERVICE_KEY) then [] else [(SERVICE_KEY, DEFAULT_SERVICE)])
    + FilterMap(extra, Kept)
  }

  /** `buildActionParams`: appends the pairs one by one as the source's `forEach` does. */
  method BuildActionParams(action: string, extra: seq<Param>) returns (params: seq<Pair>)
    ensures params == ActionParams(action, extra)
  {
    params := [(ACTION_KEY, action)];
    if !HasKey(extra, SERVICE_KEY) {
      params := params + [(SERVICE_KEY, DEFAULT_SERVICE)];
    }
    ghost var head := params;
    var i := 0;
    while i < |extra|
      invariant 0 <= i <= |extra|
      invariant params == head + FilterMap(extra[..i], Kept)
    {
      var (key, value) := extra[i];
      if value.Some? {
        params := params + [(key, value.value)];
      }
      FilterMapAppend(extra[..i], [extra[i]], Kept);
      assert extra[..i + 1] == extra[..i] + [extra[i]];
      i := i + 1;
    }
    assert extra[..i] == extra;
  }

  /** The first pair is always the action, and the caller's pairs are the last ones. */
  lemma ActionPairFirst(action: string, extra: seq<Param>)
    ensures |ActionParams(action, extra)| >= 1
    ensures ActionParams(action, extra)[0] == (ACTION_KEY, action)
    ensures var n := if HasKey(extra, SERVICE_KEY) then 1 else 2;
            |ActionParams(action, extra)| >= n &&
            ActionParams(action, extra)[n..] == FilterMap(extra, Kept)
  {
  }

  /** A caller pair is serialised exactly when the caller's entry has a value, never as
      `null` or `undefined`; and the caller's entries keep their relative order. */
  lemma CallerPairsArePresentEntries(extra: seq<Param>, front: seq<Param>, back: seq<Param>, k: string, v: string)
    ensures (k, v) in FilterMap(extra, Kept) <==> (k, Some(v)) in extra
    ensures FilterMap(front + back, Kept) == FilterMap(front, Kept) + FilterMap(back, Kept)
  {
    FilterMapMember(extra, Kept, (k, v));
    if (k, Some(v)) in extra {
      assert Kept((k, Some(v))) == Some((k, v));
    }
    FilterMapAppend(front, back, Kept);
  }

  /** How many pairs carry `key`. */
  function CountKey(pairs: seq<Pair>, key: string): nat
  {
    if pairs == [] then 0 else (if pairs[0].0 == key then 1 else 0) + CountKey(pairs[1..], key)
  }

  lemma {:induction false} CountKeyAppend(xs: seq<Pair>, ys: seq<Pair>, key: string)
    ensures CountKey(xs + ys, key) == CountKey(xs, key) + CountKey(ys, key)
  {
    if xs == [] {
      assert xs + ys == ys;
    } else {
      assert (xs + ys)[1..] == xs[1..] + ys;
      CountKeyAppend(xs[1..], ys, key);
    }
  }

  /** Among distinct keys, `key` is serialised once if its entry has a value and not at all
      if the entry is missing or has no value. */
  lemma {:induction false} CountKept(extra: seq<Param>, key: string)
    requires DistinctKeys(extra)
    ensures !HasKey(extra, key) ==> CountKey(FilterMap(extra, Kept), key) == 0
    ensures forall i :: 0 <= i < |extra| && extra[i].0 == key ==>
              CountKey(FilterMap(extra, Kept), key) == (if extra[i].1.Some? then 1 else 0)
  {
    if extra != [] {
      var rest := extra[1..];
      assert DistinctKeys(rest) by {
        forall i, j | 0 <= i < j < |rest| ensures rest[i].0 != rest[j].0 {
          assert rest[i] == extra[i + 1] && rest[j] == extra[j + 1];
        }
      }
      CountKept(rest, key);
      var head := match Kept(extra[0]) case Some(b) => [b] case None => [];
      assert FilterMap(extra, Kept) == head + FilterMap(rest, Kept);
      CountKeyAppend(head, FilterMap(rest, Kept), key);
      if extra[0].0 == key {
        assert !HasKey(rest, key) by {
          forall j | 0 <= j < |rest| ensures rest[j].0 != key {
            assert rest[j] == extra[j + 1];
          }
        }
        forall i | 0 <= i < |extra| && extra[i].0 == key
          ensures CountKey(FilterMap(extra, Kept), key) == (if extra[i].1.Some? then 1 else 0)
        {
          assert i == 0;
        }
      } else {
        if !HasKey(extra, key) {
          assert !HasKey(rest, key) by {
            forall j | 0 <= j < |rest| ensures rest[j].0 != key {
              assert rest[j] == extra[j + 1];
            }
          }
        }
        forall i | 0 <= i < |extra| && extra[i].0 == key
          ensures CountKey(FilterMap(extra, Kept), key) == (if extra[i].1.Some? then 1 else 0)
        {
          assert rest[i - 1] == extra[i];
        }
      }
    }
  }

  /** The default `IBIRS_service=ibfs` is added exactly when the caller has no service key,
      and then it is the only service pair; a caller's service entry is serialised once with its
      value, or, when its value is `null`/`undefined`, leaves the request with no service pair. */
  lemma ServiceDefaultExactlyWhenAbsent(action: string, extra: seq<Param>)
    requires DistinctKeys(extra)
    ensures !HasKey(extra, SERVICE_KEY) ==>
              ActionParams(action, extra)[1] == (SERVICE_KEY, DEFAULT_SERVICE) &&
              CountKey(ActionParams(action, extra), SERVICE_KEY) == 1
    ensures forall i :: 0 <= i < |extra| && extra[i].0 == SERVICE_KEY ==>
              CountKey(ActionParams(action, extra), SERVICE_KEY) == (if extra[i].1.Some? then 1 else 0) &&
              (extra[i].1.Some? ==> (SERVICE_KEY, extra[i].1.value) in ActionParams(action, extra))
  {
    CountKept(extra, SERVICE_KEY);
    var service := if HasKey(extra, SERVICE_KEY) then [] else [(SERVICE_KEY, DEFAULT_SERVICE)];
    CountKeyAppend([(ACTION_KEY, action)], service, SERVICE_KEY);
    CountKeyAppend([(ACTION_KEY, action)] + service, FilterMap(extra, Kept), SERVICE_KEY);
    forall i | 0 <= i < |extra| && extra[i].0 == SERVICE_KEY && extra[i].1.Some?
      ensures (SERVICE_KEY, extra[i].1.value) in ActionParams(action, extra)
    {
      FilterMapMember(extra, Kept, (SERVICE_KEY, extra[i].1.value));
      assert Kept(extra[i]) == Some((SERVICE_KEY, extra[i].1.value));
    }
  }

  /** The url: the endpoint, with the serialised parameters as query when there is one. */
  datatype Url = Url(path: string, query: Option<seq<Pair>>)

  /** The `{url, options: {method, credentials, headers, body}}` object handed to `fetch`. */
  datatype Request = Request(
    url: Url,
    httpMethod: HttpMethod,
    credentials: string,
    headers: map<string, string>,
    body: Option<seq<Pair>>)

  /** The caller's options; only `headers` is read. */
  datatype RequestOptions = RequestOptions(headers: Option<map<string, string>>)

  /** The copy of the caller's headers the request starts from. */
  function CallerHeaders(options: RequestOptions): map<string, string>
  {
    if options.headers.Some? then options.headers.value else map[]
  }

  function Header(h: map<string, string>, name: string): Option<string>
  {
    if name in h then Some(h[name]) else None
  }

  /** The request for a method and its parameters (the two branches of `buildRequest`). */
  method ShapeRequest(m: HttpMethod, params: seq<Pair>, options: RequestOptions) returns (r: Request)
    ensures r.httpMethod == m && r.credentials == INCLUDE_CREDENTIALS
    ensures m == GET ==>
              r.url == Url(BASE_URL, Some(params)) && r.body == None && r.headers == CallerHeaders(options)
    ensures m == POST ==> r.url == Url(BASE_URL, None) && r.body == Some(params)
    ensures m == POST ==>
              Header(r.headers, CONTENT_TYPE) ==
                Some(OrElse(Header(CallerHeaders(options), CONTENT_TYPE), FORM_CONTENT_TYPE))
    ensures forall k :: k != CONTENT_TYPE ==> Header(r.headers, k) == Header(CallerHeaders(options), k)
  {
    var headers := CallerHeaders(options);
    if m == POST {
      if !Truthy(Header(headers, CONTENT_TYPE)) {
        headers := headers[CONTENT_TYPE := FORM_CONTENT_TYPE];
      }
      r := Request(Url(BASE_URL, None), POST, INCLUDE_CREDENTIALS, headers, Some(params));
    } else {
      r := Request(Url(BASE_URL, Some(params)), GET, INCLUDE_CREDENTIALS, headers, None);
    }
  }

  /** `buildRequest`: with the current table every request is a `GET` whose query holds the
      action parameters and whose headers are the caller's, unchanged. */
  method BuildRequest(action: string, extra: seq<Param>, options: RequestOptions) returns (r: Request)
    ensures r.httpMethod == GET && r.credentials == INCLUDE_CREDENTIALS
    ensures r.url == Url(BASE_URL, Some(ActionParams(action, extra)))
    ensures r.body == None
    ensures r.headers == CallerHeaders(options)
  {
    var m := GetActionMethod(action);
    EveryActionIsGet(action);
    var params := BuildActionParams(action, extra);
    r := ShapeRequest(m, params, options);
  }
}
