/** The HTTP front end of handler/handler.go, reduced to its decisions: which
    queue name a path carries, which timeout a GET uses, whether the registry
    is called at all, and which status code answers the request. The
    registry is passed in as two functions standing for
    `QueueManager.Get` and `QueueManager.Put`. */
module Handler {
  import opened Errors
  import opened Strconv

  const StatusOK := 200
  const StatusBadRequest := 400
  const StatusNotFound := 404
  /** "429 Too Many Requests", section 4 of RFC 6585. */
  const StatusTooManyRequests := 429
  const StatusInternalServerError := 500

  /** No '/' among `s[lo..hi]`. */
  predicate NoSlashBetween(s: string, lo: int, hi: int)
    requires hi <= |s|
  {
    forall k :: lo <= k < hi && 0 <= k ==> s[k] != '/'
  }

  /** Index of the last '/' in `s[..n]`, or -1 when there is none. */
  function LastSlashBelow(s: string, n: nat): (r: int)
    requires n <= |s|
    ensures -1 <= r < n
    ensures r >= 0 ==> s[r] == '/'
    ensures NoSlashBetween(s, r + 1, n)
  {
    if n == 0 then -1
    else if s[n - 1] == '/' then n - 1
    else LastSlashBelow(s, n - 1)
  }

  /** strings.LastIndex(s, "/"). */
  function LastSlash(s: string): (r: int)
    ensures -1 <= r < |s|
    ensures r >= 0 ==> s[r] == '/'
    ensures NoSlashBetween(s, r + 1, |s|)
  {
    LastSlashBelow(s, |s|)
  }

  /** strings.Split(s[..n], "/"): the pieces between the separators, one
      more piece than there are separators, none of them holding a
      separator. */
  function SplitBelow(s: string, n: nat): (r: seq<string>)
    requires n <= |s|
    ensures |r| >= 1
    ensures r[|r| - 1] == s[LastSlashBelow(s, n) + 1..n]
    ensures AllNoSlash(r)
  {
    var i := LastSlashBelow(s, n);
    SliceNoSlash(s, i + 1, n);
    if i < 0 then
      assert s[..n] == s[i + 1..n];
      AllNoSlashAppend([], s[..n]);
      [] + [s[..n]]
    else
      AllNoSlashAppend(SplitBelow(s, i), s[i + 1..n]);
      SplitBelow(s, i) + [s[i + 1..n]]
  }

  /** strings.Split(s, "/"). */
  function Split(s: string): (r: seq<string>)
    ensures |r| >= 1
  {
    SplitBelow(s, |s|)
  }

  /** strings.Join(pieces, "/"). */
  function Join(pieces: seq<string>): string
    requires |pieces| >= 1
  {
    if |pieces| == 1 then pieces[0] else Join(pieces[..|pieces| - 1]) + "/" + pieces[|pieces| - 1]
  }

  predicate NoSlash(s: string) {
    forall k :: 0 <= k < |s| ==> s[k] != '/'
  }

  /** Splitting loses nothing: joining the pieces again gives the text
      back. */
  lemma {:induction false} SplitJoin(s: string, n: nat)
    requires n <= |s|
    ensures Join(SplitBelow(s, n)) == s[..n]
  {
    var i := LastSlashBelow(s, n);
    var pieces := SplitBelow(s, n);
    if i >= 0 {
      SplitJoin(s, i);
      assert pieces[..|pieces| - 1] == SplitBelow(s, i);
      assert s[..n] == s[..i] + "/" + s[i + 1..n];
    }
  }

  /** Every piece of `pieces` is free of separators. */
  predicate AllNoSlash(pieces: seq<string>)
  {
    forall j :: 0 <= j < |pieces| ==> NoSlash(pieces[j])
  }

  lemma AllNoSlashAppend(front: seq<string>, last: string)
    requires AllNoSlash(front) && NoSlash(last)
    ensures AllNoSlash(front + [last])
  {
    var pieces := front + [last];
    forall j | 0 <= j < |pieces| ensures NoSlash(pieces[j]) {
      if j < |front| {
        assert pieces[j] == front[j];
      }
    }
  }

  /** A stretch of text with no separator in it, cut out, holds none. */
  lemma SliceNoSlash(s: string, lo: nat, hi: nat)
    requires lo <= hi <= |s| && NoSlashBetween(s, lo, hi)
    ensures NoSlash(s[lo..hi])
  {
    forall k | 0 <= k < hi - lo ensures s[lo..hi][k] != '/' {
      assert s[lo..hi][k] == s[lo + k];
    }
  }

  /** getName (handler/handler.go:113-125): the last piece of the path,
      provided there are at least two pieces and the one before the last is
      not empty; "" otherwise. A name never holds a separator. */
  function GetName(path: string): (r: string)
    ensures NoSlash(r)
  {
    var pieces := Split(path);
    if |pieces| < 2 then ""
    else if |pieces[|pieces| - 2]| == 0 then ""
    else pieces[|pieces| - 1]
  }

  /** What getName means on the path itself: the text after the last '/',
      unless there is no '/', or the last '/' opens the path, or it follows
      another '/'. */
  lemma GetNameLastSlash(path: string)
    ensures var i := LastSlash(path);
      GetName(path) ==
        if i < 0 || i == 0 || path[i - 1] == '/' then "" else path[i + 1..]
  {
    var i := LastSlash(path);
    var pieces := Split(path);
    if i >= 0 {
      assert path[i + 1..|path|] == path[i + 1..];
      assert pieces == SplitBelow(path, i) + [path[i + 1..]];
      var before := pieces[|pieces| - 2];
      assert before == path[LastSlashBelow(path, i) + 1..i];
    }
  }

  /** The GET timeout rule (handler/handler.go:54-72, without the name
      check): an absent parameter keeps the default; otherwise the text must
      parse as an integer and be positive. None means a bad request. */
  function GetTimeout(raw: string, defaultTimeout: int): (r: Option<int>)
    ensures raw == "" ==> r == Some(defaultTimeout)
    ensures raw != "" ==> (r.Some? <==> Atoi(raw).Some? && Atoi(raw).value > 0)
    ensures raw != "" && r.Some? ==> r == Atoi(raw) && 0 < r.value <= MaxInt
  {
    if raw == "" then Some(defaultTimeout)
    else
      match Atoi(raw)
      case None => None
      case Some(v) => if v <= 0 then None else Some(v)
  }

  /** The `isValid` closure of serveGet (handler/handler.go:55-72): the name
      is checked first, then the timeout. */
  function ValidateGet(name: string, raw: string, defaultTimeout: int): (r: Option<int>)
    ensures name == "" ==> r == None
    ensures name != "" ==> r == GetTimeout(raw, defaultTimeout)
  {
    if name == "" then None else GetTimeout(raw, defaultTimeout)
  }

  /** Every positive 64-bit timeout written in decimal is taken as is; zero
      and negative ones are refused; the absent parameter gives the
      default. */
  lemma TimeoutRule(t: int, defaultTimeout: int)
    requires MinInt <= t <= MaxInt
    ensures GetTimeout("", defaultTimeout) == Some(defaultTimeout)
    ensures t > 0 ==> GetTimeout(Itoa(t), defaultTimeout) == Some(t)
    ensures t <= 0 ==> GetTimeout(Itoa(t), defaultTimeout) == None
  {
    AtoiItoa(t);
  }

  /** A parameter holding anything but a sign and digits is refused. */
  lemma TimeoutRejectsText(raw: string, i: int, defaultTimeout: int)
    requires 0 <= i < |raw| && !IsDigit(raw[i])
    requires i > 0 || (raw[i] != '-' && raw[i] != '+')
    ensures GetTimeout(raw, defaultTimeout) == None
  {
    AtoiRejectsOtherChars(raw, i);
  }

  /** A sign with no digits after it is refused, as Go's Atoi reports a
      syntax error for it. */
  lemma TimeoutRejectsLoneSign(raw: string, defaultTimeout: int)
    requires raw == "+" || raw == "-"
    ensures Atoi(raw) == None
    ensures GetTimeout(raw, defaultTimeout) == None
  {
  }

  /** Status of a GET once the registry has answered
      (handler/handler.go:77-90). */
  function GetStatus(err: Outcome): (r: int)
    ensures r == StatusOK <==> err == Pass
    ensures r == StatusNotFound <==> err == Fail(NoMessage)
    ensures r == StatusOK || r == StatusNotFound || r == StatusInternalServerError
  {
    match err
    case Pass => StatusOK
    case Fail(NoMessage) => StatusNotFound
    case Fail(_) => StatusInternalServerError
  }

  /** Status of a PUT once the registry has answered
      (handler/handler.go:102-110). After TooManyItems the source writes a
      second error without returning; the first status written is the one
      sent. */
  function PutStatus(err: Outcome): (r: int)
    ensures r == StatusOK <==> err == Pass
    ensures r == StatusTooManyRequests <==> err == Fail(TooManyItems)
    ensures r == StatusOK || r == StatusTooManyRequests || r == StatusInternalServerError
  {
    match err
    case Pass => StatusOK
    case Fail(TooManyItems) => StatusTooManyRequests
    case Fail(_) => StatusInternalServerError
  }

  /** A request as the handler sees it: the method, the URL path, the value
      of the `timeout` query parameter ("" when absent) and the `message`
      field of the JSON body, None when the body does not decode. */
  datatype Request = Request(verb: string, path: string, timeout: string, body: Option<string>)

  /** The registry call a request leads to, if any. */
  datatype Call = NoCall | GetCall(name: string, timeout: int) | PutCall(name: string, message: string)

  /** The status code and, for a successful GET, the message sent back. */
  datatype Response = Response(status: int, message: Option<string>)

  /** handlerImpl.ServeHTTP with serveGet and servePut
      (handler/handler.go:39-111). */
  function ServeHTTP(req: Request, defaultTimeout: int,
                     get: (string, int) -> (string, Outcome),
                     put: (string, string) -> Outcome): (r: (Call, Response))
    ensures r.0 == NoCall ==> r.1 == Response(StatusBadRequest, None)
    ensures r.0.GetCall? ==> req.verb == "GET" && r.0.name != ""
    ensures r.0.PutCall? ==> req.verb == "PUT" && req.body == Some(r.0.message)
    ensures req.verb != "GET" && req.verb != "PUT" ==> r.0 == NoCall
  {
    if req.verb == "GET" then
      var name := GetName(req.path);
      match ValidateGet(name, req.timeout, defaultTimeout)
      case None => (NoCall, Response(StatusBadRequest, None))
      case Some(t) =>
        var (message, err) := get(name, t);
        (GetCall(name, t),
         Response(GetStatus(err), if err == Pass then Some(message) else None))
    else if req.verb == "PUT" then
      match req.body
      case None => (NoCall, Response(StatusBadRequest, None))
      case Some(message) =>
        var name := GetName(req.path);
        (PutCall(name, message), Response(PutStatus(put(name, message)), None))
    else (NoCall, Response(StatusBadRequest, None))
  }

  /** The registry is consulted exactly for a GET with a usable name and
      timeout and for a PUT whose body decodes; every other request is
      answered 400 without touching it. */
  lemma CallsOnlyValid(req: Request, defaultTimeout: int,
                       get: (string, int) -> (string, Outcome),
                       put: (string, string) -> Outcome)
    ensures var (call, response) := ServeHTTP(req, defaultTimeout, get, put);
      && (call != NoCall <==>
            || (req.verb == "GET" && ValidateGet(GetName(req.path), req.timeout, defaultTimeout).Some?)
            || (req.verb == "PUT" && req.body.Some?))
      && (call == NoCall <==> response.status == StatusBadRequest)
  {
  }

  /** A valid GET asks the registry for the parsed name with the effective
      timeout and answers 200 with the message exactly when the registry
      succeeded; a PUT hands over the name as parsed, even an empty one. */
  lemma CallArguments(req: Request, defaultTimeout: int,
                      get: (string, int) -> (string, Outcome),
                      put: (string, string) -> Outcome)
    ensures var (call, response) := ServeHTTP(req, defaultTimeout, get, put);
      && (call.GetCall? ==>
            && call.name == GetName(req.path) && call.name != ""
            && Some(call.timeout) == GetTimeout(req.timeout, defaultTimeout)
            && var (message, err) := get(call.name, call.timeout);
               response == Response(GetStatus(err), if err == Pass then Some(message) else None))
      && (call.PutCall? ==>
            && req.body == Some(call.message) && call.name == GetName(req.path)
            && response == Response(PutStatus(put(call.name, call.message)), None))
  {
  }

  /** The last '/' of `dir + "/" + name` is the one added, when `name`
      holds none. */
  lemma LastSlashBefore(dir: string, name: string)
    requires NoSlash(name)
    ensures LastSlash(dir + "/" + name) == |dir|
  {
    var s := dir + "/" + name;
    assert s[|dir|] == '/';
    forall k | |dir| < k < |s| ensures s[k] != '/' {
      assert s[k] == name[k - |dir| - 1];
    }
  }

  /** The path of a named queue: a directory not ending in '/', then the
      name; and a name right under the root is no name at all. */
  lemma GetNameUnder(dir: string, name: string)
    requires NoSlash(name)
    ensures |dir| > 0 && dir[|dir| - 1] != '/' ==> GetName(dir + "/" + name) == name
    ensures dir == "" ==> GetName(dir + "/" + name) == ""
  {
    var path := dir + "/" + name;
    LastSlashBefore(dir, name);
    GetNameLastSlash(path);
    if |dir| > 0 {
      assert path[|dir| - 1] == dir[|dir| - 1];
    }
    assert path[|dir| + 1..] == name;
  }

  /** A path ending in '/' carries no name: "/queue/" of
      handler/handler_test.go:172-174 is an instance. */
  lemma TrailingSlashNameless(dir: string)
    ensures GetName(dir + "/") == ""
  {
    assert dir + "/" == dir + "/" + "";
    LastSlashBefore(dir, "");
    GetNameLastSlash(dir + "/");
  }

  /** A single piece right under the root carries no name: "/queue" of
      handler/handler_test.go:176-178 is an instance. */
  lemma RootPieceNameless(name: string)
    requires NoSlash(name)
    ensures GetName("/" + name) == ""
  {
    assert "/" + name == "" + "/" + name;
    LastSlashBefore("", name);
    GetNameLastSlash("/" + name);
  }

  /** The first two cases of handler/handler_test.go:167-216, for any
      directory and name: a GET of a path ending in '/', or of a single
      piece under the root, is answered 400 and the registry is not
      called. */
  lemma InvalidGetNames(dir: string, name: string, timeout: string,
                        body: Option<string>, defaultTimeout: int,
                        get: (string, int) -> (string, Outcome),
                        put: (string, string) -> Outcome)
    requires NoSlash(name)
    ensures ServeHTTP(Request("GET", dir + "/", timeout, body), defaultTimeout, get, put)
            == (NoCall, Response(StatusBadRequest, None))
    ensures ServeHTTP(Request("GET", "/" + name, timeout, body), defaultTimeout, get, put)
            == (NoCall, Response(StatusBadRequest, None))
  {
    TrailingSlashNameless(dir);
    RootPieceNameless(name);
  }

  /** The other three cases of handler/handler_test.go:167-216, for any
      path: a GET with timeout "some_string", "-1" or "0" is answered 400
      and the registry is not called. */
  lemma InvalidGetTimeouts(path: string, body: Option<string>, defaultTimeout: int,
                           get: (string, int) -> (string, Outcome),
                           put: (string, string) -> Outcome)
    ensures ServeHTTP(Request("GET", path, "some_string", body), defaultTimeout, get, put)
            == (NoCall, Response(StatusBadRequest, None))
    ensures ServeHTTP(Request("GET", path, "-1", body), defaultTimeout, get, put)
            == (NoCall, Response(StatusBadRequest, None))
    ensures ServeHTTP(Request("GET", path, "0", body), defaultTimeout, get, put)
            == (NoCall, Response(StatusBadRequest, None))
  {
    TimeoutRejectsText("some_string", 0, defaultTimeout);
    TimeoutRule(-1, defaultTimeout);
    TimeoutRule(0, defaultTimeout);
    assert Itoa(-1) == "-1";
    assert Itoa(0) == "0";
  }

  /** The timeout "5" of handler/handler_test.go is taken as 5. */
  lemma TimeoutFive(defaultTimeout: int)
    ensures GetTimeout("5", defaultTimeout) == Some(5)
  {
    TimeoutRule(5, defaultTimeout);
    assert Itoa(5) == "5";
  }

  /** The cases of handler/handler_test.go:65-165, for any name: a GET of
      "/queue/<name>" with timeout 5 reaches the registry as (name, 5) and
      is answered by the registry's result, the message only on success;
      without a timeout the default is passed on and answered the same
      way. */
  lemma ValidGetRequests(name: string, defaultTimeout: int,
                         get: (string, int) -> (string, Outcome),
                         put: (string, string) -> Outcome)
    requires NoSlash(name) && name != ""
    ensures var (message, err) := get(name, 5);
      ServeHTTP(Request("GET", "/queue/" + name, "5", None), defaultTimeout, get, put)
      == (GetCall(name, 5), Response(GetStatus(err), if err == Pass then Some(message) else None))
    ensures var (message, err) := get(name, defaultTimeout);
      ServeHTTP(Request("GET", "/queue/" + name, "", None), defaultTimeout, get, put)
      == (GetCall(name, defaultTimeout),
          Response(GetStatus(err), if err == Pass then Some(message) else None))
  {
    var path := "/queue/" + name;
    assert GetName(path) == name by {
      GetNameUnder("/queue", name);
      assert path == "/queue" + "/" + name;
    }
    TimeoutFive(defaultTimeout);
    assert ValidateGet(name, "5", defaultTimeout) == Some(5);
    assert ValidateGet(name, "", defaultTimeout) == Some(defaultTimeout);
  }

  /** The cases of handler/handler_test.go:218-331, for any name: a PUT
      whose body decodes hands the name and message to the registry and
      answers with its result, even when the path carries no name; a body
      that does not decode is answered 400 without a call. */
  lemma PutRequests(name: string, dir: string, path: string, message: string, timeout: string,
                    defaultTimeout: int,
                    get: (string, int) -> (string, Outcome),
                    put: (string, string) -> Outcome)
    requires NoSlash(name) && name != ""
    ensures ServeHTTP(Request("PUT", "/queue/" + name, timeout, Some(message)), defaultTimeout, get, put)
            == (PutCall(name, message), Response(PutStatus(put(name, message)), None))
    ensures ServeHTTP(Request("PUT", dir + "/", timeout, Some(message)), defaultTimeout, get, put)
            == (PutCall("", message), Response(PutStatus(put("", message)), None))
    ensures ServeHTTP(Request("PUT", path, timeout, None), defaultTimeout, get, put)
            == (NoCall, Response(StatusBadRequest, None))
  {
    GetNameUnder("/queue", name);
    assert "/queue/" + name == "/queue" + "/" + name;
    TrailingSlashNameless(dir);
  }

  /** Methods other than GET and PUT are answered 400
      (handler/handler.go:45-46). */
  lemma OtherMethods(req: Request, defaultTimeout: int,
                     get: (string, int) -> (string, Outcome),
                     put: (string, string) -> Outcome)
    requires req.verb != "GET" && req.verb != "PUT"
    ensures ServeHTTP(req, defaultTimeout, get, put) == (NoCall, Response(StatusBadRequest, None))
  {
  }
}
