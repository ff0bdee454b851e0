/** The requests the six client calls send: which action, which parameters, which headers. */
module ApiCalls {
  import opened Common
  import opened RequestBuilder

  const PATH_KEY := "IBIRS_path"
  const ACCEPT_XML: map<string, string> := map["Accept" := "application/xml"]

  datatype ApiCall =
    | SignOnCall(username: string, password: string)
    | SignOffCall
    | GetContentsCall(path: string)
    | DescribeFexCall(path: string)
    | RunReportCall(path: string)
    | RunReportWithParamsCall(path: string, values: seq<Param>)

  function ActionOf(call: ApiCall): string
  {
    match call
    case SignOnCall(_, _) => "signOn"
    case SignOffCall => "signOff"
    case GetContentsCall(_) => "get"
    case DescribeFexCall(_) => "describeFex"
    case RunReportCall(_) => "run"
    case RunReportWithParamsCall(_, _) => "run"
  }

  /** `obj[key] = value` on an object: an existing key keeps its place and takes the new value,
      a new key goes last. */
  function Put(obj: seq<Param>, key: string, value: Option<string>): seq<Param>
  {
    if obj == [] then [(key, value)]
    else if obj[0].0 == key then [(key, value)] + obj[1..]
    else [obj[0]] + Put(obj[1..], key, value)
  }

  /** `{...obj, ...extra}`: the entries of `extra`, in order, put into `obj`. */
  function Spread(obj: seq<Param>, extra: seq<Param>): seq<Param>
    decreases |extra|
  {
    if extra == [] then obj else Spread(Put(obj, extra[0].0, extra[0].1), extra[1..])
  }

  lemma {:induction false} PutNewKey(obj: seq<Param>, key: string, value: Option<string>)
    requires !HasKey(obj, key)
    ensures Put(obj, key, value) == obj + [(key, value)]
  {
    if obj != [] {
      assert !HasKey(obj[1..], key) by {
        forall j | 0 <= j < |obj[1..]| ensures obj[1..][j].0 != key {
          assert obj[1..][j] == obj[j + 1];
        }
      }
      PutNewKey(obj[1..], key, value);
    }
  }

  /** The value `extra` gives `key`, if it has that key. */
  function ValueOf(extra: seq<Param>, key: string): Option<Option<string>>
  {
    if extra == [] then None
    else if extra[0].0 == key then Some(extra[0].1)
    else ValueOf(extra[1..], key)
  }

  /** The entries of `extra` other than `key`'s, in order. */
  function Without(extra: seq<Param>, key: string): seq<Param>
  {
    if extra == [] then []
    else (if extra[0].0 == key then [] else [extra[0]]) + Without(extra[1..], key)
  }

  /** Spreading distinct caller values over `{IBIRS_path: path}` keeps the path entry first,
      gives it the caller's value when the caller has that key, and appends every other
      caller entry in the caller's order. */
  lemma {:induction false} SpreadOverPath(first: Option<string>, done: seq<Param>, extra: seq<Param>)
    requires DistinctKeys(done + extra)
    requires !HasKey(done, PATH_KEY)
    ensures Spread([(PATH_KEY, first)] + done, extra) ==
              [(PATH_KEY, match ValueOf(extra, PATH_KEY) case Some(v) => v case None => first)]
              + done + Without(extra, PATH_KEY)
    decreases |extra|
  {
    if extra == [] {
      assert done + extra == done;
    } else {
      var (k, v) := extra[0];
      var rest := extra[1..];
      DistinctSplit(done, extra);
      var obj := [(PATH_KEY, first)] + done;
      assert obj[0] == (PATH_KEY, first) && obj[1..] == done;
      if k == PATH_KEY {
        assert Put(obj, k, v) == [(PATH_KEY, v)] + done;
        ValueOfAbsent(rest, PATH_KEY);
        SpreadOverPath(v, done, rest);
      } else {
        PutNewKey(done, k, v);
        assert Put(obj, k, v) == [(PATH_KEY, first)] + (done + [(k, v)]);
        assert done + [(k, v)] + rest == done + extra;
        NoPathAfterAppend(done, k, v);
        SpreadOverPath(first, done + [(k, v)], rest);
      }
    }
  }

  /** Taking the first of the caller's entries off: the rest still has distinct keys, and its key
      occurs neither in what came before nor in what comes after. */
  lemma DistinctSplit(done: seq<Param>, extra: seq<Param>)
    requires extra != [] && DistinctKeys(done + extra)
    ensures DistinctKeys(done + extra[1..])
    ensures !HasKey(done, extra[0].0) && !HasKey(extra[1..], extra[0].0)
  {
    var rest := extra[1..];
    var all := done + extra;
    forall i, j | 0 <= i < j < |done + rest| ensures (done + rest)[i].0 != (done + rest)[j].0 {
      var a := if i < |done| then i else i + 1;
      var b := if j < |done| then j else j + 1;
      assert (done + rest)[i] == all[a];
      assert (done + rest)[j] == all[b];
    }
    assert all[|done|] == extra[0];
    forall j | 0 <= j < |done| ensures done[j].0 != extra[0].0 {
      assert all[j] == done[j];
    }
    forall j | 0 <= j < |rest| ensures rest[j].0 != extra[0].0 {
      assert all[|done| + 1 + j] == rest[j];
    }
  }

  lemma NoPathAfterAppend(done: seq<Param>, k: string, v: Option<string>)
    requires !HasKey(done, PATH_KEY) && k != PATH_KEY
    ensures !HasKey(done + [(k, v)], PATH_KEY)
  {
    forall j | 0 <= j < |done + [(k, v)]| ensures (done + [(k, v)])[j].0 != PATH_KEY {
      if j < |done| {
        assert (done + [(k, v)])[j] == done[j];
      }
    }
  }

  /** A key the entries lack has no value among them. */
  lemma {:induction false} ValueOfAbsent(rest: seq<Param>, key: string)
    requires !HasKey(rest, key)
    ensures ValueOf(rest, key) == None
    decreases |rest|
  {
    if rest != [] {
      assert rest[0].0 != key;
      assert !HasKey(rest[1..], key) by {
        forall j | 0 <= j < |rest[1..]| ensures rest[1..][j].0 != key {
          assert rest[1..][j] == rest[j + 1];
        }
      }
      ValueOfAbsent(rest[1..], key);
    }
  }

  /** The caller's parameter object of each call. */
  function ExtraOf(call: ApiCall): seq<Param>
  {
    match call
    case SignOnCall(user, pass) => [("IBIRS_userName", Some(user)), ("IBIRS_password", Some(pass))]
    case SignOffCall => []
    case GetContentsCall(path) => [(PATH_KEY, Some(path))]
    case DescribeFexCall(path) => [(PATH_KEY, Some(path))]
    case RunReportCall(path) => [(PATH_KEY, Some(path))]
    case RunReportWithParamsCall(path, values) => Spread([(PATH_KEY, Some(path))], values)
  }

  /** The metadata calls ask for XML; sign-off and the report runs send no headers. */
  function OptionsOf(call: ApiCall): RequestOptions
  {
    match call
    case SignOnCall(_, _) => RequestOptions(Some(ACCEPT_XML))
    case GetContentsCall(_) => RequestOptions(Some(ACCEPT_XML))
    case DescribeFexCall(_) => RequestOptions(Some(ACCEPT_XML))
    case _ => RequestOptions(None)
  }

  /** For parameter values with distinct names, the run request carries the path first (the
      caller's own `IBIRS_path` value replacing it in place, when given) and then every other value
      in the caller's order. */
  lemma RunWithParamsExtra(path: string, values: seq<Param>)
    requires DistinctKeys(values)
    ensures ExtraOf(RunReportWithParamsCall(path, values)) ==
              [(PATH_KEY, match ValueOf(values, PATH_KEY) case Some(v) => v case None => Some(path))]
              + Without(values, PATH_KEY)
  {
    var start: seq<Param> := [(PATH_KEY, Some(path))];
    assert start + [] == start;
    assert [] + values == values;
    assert ExtraOf(RunReportWithParamsCall(path, values)) == Spread(start, values);
    SpreadOverPath(Some(path), [], values);
    var head := (PATH_KEY, match ValueOf(values, PATH_KEY) case Some(v) => v case None => Some(path));
    assert [head] + [] + Without(values, PATH_KEY) == [head] + Without(values, PATH_KEY);
  }

  /** The request each client call sends: a `GET` to the endpoint whose first query pair names
      the call's action, followed by the call's own parameters. */
  method RequestFor(call: ApiCall) returns (r: Request)
    ensures r.httpMethod == GET && r.body == None && r.credentials == INCLUDE_CREDENTIALS
    ensures r.url == Url(BASE_URL, Some(ActionParams(ActionOf(call), ExtraOf(call))))
    ensures r.url.query.value[0] == (ACTION_KEY, ActionOf(call))
    ensures call.SignOnCall? || call.GetContentsCall? || call.DescribeFexCall? ==>
              r.headers == ACCEPT_XML
    ensures !(call.SignOnCall? || call.GetContentsCall? || call.DescribeFexCall?) ==>
              r.headers == map[]
  {
    r := BuildRequest(ActionOf(call), ExtraOf(call), OptionsOf(call));
  }
}
