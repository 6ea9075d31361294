/**
  What `HandleRequest` makes of one request before it posts a response: the checks of path and
  method, the search for a handler, and what the handler does.
*/
module HttpRequest {
  import opened Basics
  import opened HttpOutput
  import UrlCodec
  import Routing

  datatype Method = Get | Post | Head | Put | Delete | Options | Trace | Connect | Patch

  /** What the handler that is called does: it fills the response, or throws something that is caught here or not. */
  datatype Act = Produces(code: int, data: Option<Bytes>) | Throws | ThrowsOther

  /** A request as it was parsed; `verb` is None for a method that `ConvertMethodType` does not know. */
  datatype Request = Request(target: seq<UrlCodec.Byte>, verb: Option<Method>, act: Act)

  /** `raises` says for which status codes preparing a response throws; that is the HTTP library's choice. */
  datatype Site = Site(allowed: set<Method>, handlers: map<string, int>, raises: int -> bool)

  const BAD_REQUEST: int := 400
  const NOT_ALLOWED: int := 405
  const INTERNAL: int := 500

  /** Up to the first response: one is posted inside the try block, or an exception is caught, or one escapes. */
  datatype Decision = Answer(code: int, data: Option<Bytes>) | Caught | Escaped

  function Text(s: string): Bytes {
    seq(|s|, i requires 0 <= i < |s| => s[i] as int)
  }

  function AsPath(bytes: seq<UrlCodec.Byte>): string {
    seq(|bytes|, i requires 0 <= i < |bytes| => bytes[i] as char)
  }

  predicate HasDots(path: string) {
    exists i :: 0 <= i < |path| - 1 && path[i] == '.' && path[i + 1] == '.'
  }

  predicate BadPath(path: string) {
    path == "" || path[0] != '/' || HasDots(path)
  }

  predicate EndsPath(c: char) {
    c == '?' || c == '#'
  }

  /** `Target`: the path ends before the first '?' or '#'; the expression matches no line break. */
  function TargetPath(target: string): Option<string> {
    if '\n' in target || '\r' in target then None else Some(UpTo(target, 0))
  }

  function UpTo(s: string, i: nat): string
    requires i <= |s|
    decreases |s| - i
  {
    if i == |s| || EndsPath(s[i]) then s[..i] else UpTo(s, i + 1)
  }

  lemma {:induction false} UpToIs(s: string, i: nat)
    requires i <= |s| && forall j :: 0 <= j < i ==> !EndsPath(s[j])
    ensures UpTo(s, i) <= s && forall c :: c in UpTo(s, i) ==> !EndsPath(c)
    ensures |UpTo(s, i)| < |s| ==> EndsPath(s[|UpTo(s, i)|])
    ensures |UpTo(s, i)| >= i
    decreases |s| - i
  {
    if i < |s| && !EndsPath(s[i]) {
      UpToIs(s, i + 1);
    }
  }

  /** The key of the handler that is called, when the request gets that far. */
  function Handler(site: Site, request: Request): (r: Option<string>)
    ensures r.Some? ==> r.value in site.handlers
  {
    var bytes := UrlCodec.Decode(request.target);
    if bytes.None? || BadPath(AsPath(bytes.value)) || request.verb.None? || request.verb.value !in site.allowed then None
    else
      var path := TargetPath(AsPath(bytes.value));
      if path.None? then None
      else
        var key := Routing.Search(site.handlers.Keys, path.value);
        Routing.SearchFindsLongest(site.handlers.Keys, path.value);
        if key.None? then None else Some(key.value)
  }

  function ActOf(act: Act): Decision {
    match act
    case Produces(code, data) => Answer(code, data)
    case Throws => Caught
    case ThrowsOther => Escaped
  }

  /** The branches of `HandleRequest`, in their order. */
  function Decide(site: Site, request: Request): Decision {
    var bytes := UrlCodec.Decode(request.target);
    if bytes.None? then Caught
    else if BadPath(AsPath(bytes.value)) then Answer(BAD_REQUEST, Some(Text("Bad path.")))
    else if request.verb.None? then Caught
    else if request.verb.value !in site.allowed then Answer(NOT_ALLOWED, Some(Text("The method is not allowed.")))
    else if site.handlers.Keys == {} then Answer(NOT_ALLOWED, Some(Text("There is no any method for handling the request.")))
    else
      var path := TargetPath(AsPath(bytes.value));
      if path.None? then Caught
      else if Routing.Search(site.handlers.Keys, path.value).None?
      then Answer(NOT_ALLOWED, Some(Text("Handler for the request processing was not found.")))
      else ActOf(request.act)
  }

  /**
    A handler decides when one is found: what it fills in is the answer, what it throws is caught or
    escapes. Otherwise the answer is an error, or an exception is caught.
  */
  lemma HandlerDecides(site: Site, request: Request)
    ensures Handler(site, request).Some? ==>
              match request.act
              case Produces(code, data) => Decide(site, request) == Answer(code, data)
              case Throws => Decide(site, request) == Caught
              case ThrowsOther => Decide(site, request) == Escaped
    ensures Handler(site, request).None? ==>
              Decide(site, request) == Caught ||
              (Decide(site, request).Answer? && Decide(site, request).code in {400, 405})
  {
    var bytes := UrlCodec.Decode(request.target);
    if bytes.Some? && TargetPath(AsPath(bytes.value)).Some? && site.handlers.Keys == {} {
      Routing.SearchFindsLongest({}, TargetPath(AsPath(bytes.value)).value);
    }
  }

  /**
    Which error gets which status: 400 for a path that is empty, does not start with '/' or holds
    ".."; 405 for a method that is not allowed, for a server without handlers and for a path without
    one; an exception, for which 500 is sent, for a bad encoding, an unknown method or a line break.
    None of them calls a handler.
  */
  lemma ErrorDecides(site: Site, request: Request)
    ensures UrlCodec.Decode(request.target).None? ==> Decide(site, request) == Caught && Handler(site, request).None?
    ensures UrlCodec.Decode(request.target).Some? ==>
              var path := AsPath(UrlCodec.Decode(request.target).value);
              if path == "" || path[0] != '/' || (exists i :: 0 <= i < |path| - 1 && path[i] == '.' && path[i + 1] == '.') then
                Decide(site, request) == Answer(400, Some(Text("Bad path."))) && Handler(site, request).None?
              else if request.verb.None? then Decide(site, request) == Caught && Handler(site, request).None?
              else if request.verb.value !in site.allowed then
                Decide(site, request) == Answer(405, Some(Text("The method is not allowed."))) && Handler(site, request).None?
              else if site.handlers == map[] then
                Decide(site, request) == Answer(405, Some(Text("There is no any method for handling the request."))) &&
                Handler(site, request).None?
              else if '\n' in path || '\r' in path then Decide(site, request) == Caught && Handler(site, request).None?
              else Handler(site, request).None? ==> Decide(site, request) == Answer(405, Some(Text("Handler for the request processing was not found.")))
  {
    HandlerDecides(site, request);
    var bytes := UrlCodec.Decode(request.target);
    if bytes.Some? && TargetPath(AsPath(bytes.value)).Some? && site.handlers.Keys == {} {
      Routing.SearchFindsLongest({}, TargetPath(AsPath(bytes.value)).value);
    }
    assert site.handlers.Keys == {} <==> site.handlers == map[];
  }

  /** The handler called is the one registered for the longest candidate of the request's path. */
  lemma HandlerIsLongest(site: Site, request: Request)
    requires Handler(site, request).Some?
    ensures var bytes, key := UrlCodec.Decode(request.target), Handler(site, request).value;
            bytes.Some? && TargetPath(AsPath(bytes.value)).Some? && key in site.handlers &&
            var path := TargetPath(AsPath(bytes.value)).value;
            path <= AsPath(bytes.value) && Routing.Rooted(path) && Routing.Candidate(path, key) &&
            '?' !in path && '#' !in path && (|path| < |bytes.value| ==> AsPath(bytes.value)[|path|] in {'?', '#'}) &&
            (forall i :: 0 <= i < |path| ==> path[i] as int == bytes.value[i]) &&
            forall c :: c in site.handlers && Routing.Candidate(path, c) ==> |c| <= |key|
  {
    var target := AsPath(UrlCodec.Decode(request.target).value);
    var path := TargetPath(target).value;
    UpToIs(target, 0);
    assert target[0] == '/' && !EndsPath(target[0]);
    assert path[0] == '/';
    Routing.SearchFindsLongest(site.handlers.Keys, path);
    forall c | c in site.handlers && Routing.Candidate(path, c) ensures |c| <= |Handler(site, request).value| {
      assert Routing.LongerOrSame(Handler(site, request).value, c);
    }
  }

  /** The branches as the method has them: the checks return early, the search calls at most one handler. */
  method Examine(site: Site, request: Request) returns (decision: Decision, called: seq<int>)
    ensures decision == Decide(site, request)
    ensures called == if Handler(site, request).Some? then [site.handlers[Handler(site, request).value]] else []
  {
    called := [];
    HandlerDecides(site, request);
    var bytes := UrlCodec.DecodeUrl(request.target);
    if bytes.None? {
      return Caught, [];
    }
    var path := AsPath(bytes.value);
    if BadPath(path) {
      return Answer(BAD_REQUEST, Some(Text("Bad path."))), [];
    }
    if request.verb.None? {
      return Caught, [];
    }
    if request.verb.value !in site.allowed {
      return Answer(NOT_ALLOWED, Some(Text("The method is not allowed."))), [];
    }
    if site.handlers.Keys == {} {
      return Answer(NOT_ALLOWED, Some(Text("There is no any method for handling the request."))), [];
    }
    var url := TargetPath(path);
    if url.None? {
      return Caught, [];
    }
    var key;
    key, called := Routing.Route(site.handlers, url.value);
    if key.None? {
      return Answer(NOT_ALLOWED, Some(Text("Handler for the request processing was not found."))), [];
    }
    decision := ActOf(request.act);
  }
}
