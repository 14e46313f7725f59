/**
 * Request accumulation and response serialisation of the web server.
 *
 * A request collects its URL and body from fragments delivered by the
 * tokenizer; a response turns a status code and an optional body into the
 * bytes of an HTTP/1.1 message and keeps the last string it built.
 */
module WsHttp {
  import opened Wrappers
  import opened CStrings
  import WebServer

  // ---------------------------------------------------------------------
  // Clients and the request size check
  // ---------------------------------------------------------------------

  /**
   * The connection a request belongs to. Only the client's configured
   * `max_request_size` is visible to this layer.
   */
  datatype Client = Client(address: nat, maxRequestSize: nat)

  /** sizeof of a data pointer, assumed LP64. */
  const POINTER_SIZE: nat := 8

  /**
   * What check_request adds up: sizeof(req) + sizeof(req->url) +
   * sizeof(req->body), three pointers, whatever the URL and body hold.
   */
  const REQUEST_OVERHEAD: nat := 3 * POINTER_SIZE

  /** The initial value ws_request_create gives the request's method (none parsed yet). */
  const NO_METHOD: int := -1

  /**
   * check_request on a request of `client` holding `url` and `body`: true
   * (the C function's 1) when the request counts as too big. Only the sizes
   * of the three pointers are added up, never what they point to.
   */
  function CheckRequest(client: Client, url: Option<CString>, body: Option<CString>): (tooBig: bool)
    ensures tooBig <==> client.maxRequestSize < 24
  {
    REQUEST_OVERHEAD > client.maxRequestSize
  }

  /** The verdict of the size check is fixed by the client's limit alone, whatever the URL and body hold. */
  lemma CheckRequestVerdict(client: Client, url: Option<CString>, body: Option<CString>,
                            url': Option<CString>, body': Option<CString>)
    ensures CheckRequest(client, url, body) == CheckRequest(client, url', body')
  {
  }

  // ---------------------------------------------------------------------
  // struct ws_request
  // ---------------------------------------------------------------------

  class Request {
    const client: Client
    /** The URL received so far; None once a size check has freed it. */
    var url: Option<CString>
    /** The parsed HTTP method, NO_METHOD until the tokenizer reports one. */
    var httpMethod: int
    /** The body received so far; None once a size check has freed it. */
    var body: Option<CString>

    constructor (client: Client)
      ensures this.client == client
      ensures url == Some([]) && body == Some([]) && httpMethod == NO_METHOD
    {
      this.client := client;
      url := Some([]);
      body := Some([]);
      httpMethod := NO_METHOD;
    }

    /** ws_request_get_client. */
    method GetClient() returns (c: Client)
      ensures c == client
    {
      c := client;
    }

    /** ws_request_set_method. */
    method SetMethod(m: int)
      modifies this
      ensures httpMethod == m && url == old(url) && body == old(body)
    {
      httpMethod := m;
    }

    /** ws_request_get_url. */
    method GetUrl() returns (u: Option<CString>)
      ensures u == url
    {
      u := url;
    }

    /** ws_request_get_body. */
    method GetBody() returns (b: Option<CString>)
      ensures b == body
    {
      b := body;
    }

    /**
     * ws_request_cat_url: append `buf[0..len)` (up to its first NUL, as
     * strncat does) to the URL. `reallocOk` is the outcome of growing the
     * buffer: when it fails the URL is kept and 1 is returned; when the size
     * check fails the URL is freed (None) and 1 is returned.
     */
    method CatUrl(buf: seq<char>, len: nat, reallocOk: bool) returns (rc: int)
      requires url.Some? && len <= |buf|
      modifies this
      ensures body == old(body) && httpMethod == old(httpMethod)
      ensures rc == 0 <==> reallocOk && !CheckRequest(client, old(url), body)
      ensures !reallocOk ==> rc == 1 && url == old(url)
      ensures reallocOk && CheckRequest(client, old(url), body) ==> rc == 1 && url == None
      ensures rc == 0 ==> url == Some(old(url).value + StrNPrefix(buf, len))
    {
      if !reallocOk {
        return 1;
      }
      if CheckRequest(client, url, body) {
        url := None;
        return 1;
      }
      var piece := StrNPrefix(buf, len);
      NulFreeConcat(url.value, piece);
      url := Some(url.value + piece);
      return 0;
    }

    /** ws_request_cat_body: the same as CatUrl, on the body. */
    method CatBody(buf: seq<char>, len: nat, reallocOk: bool) returns (rc: int)
      requires body.Some? && len <= |buf|
      modifies this
      ensures url == old(url) && httpMethod == old(httpMethod)
      ensures rc == 0 <==> reallocOk && !CheckRequest(client, url, old(body))
      ensures !reallocOk ==> rc == 1 && body == old(body)
      ensures reallocOk && CheckRequest(client, url, old(body)) ==> rc == 1 && body == None
      ensures rc == 0 ==> body == Some(old(body).value + StrNPrefix(buf, len))
    {
      if !reallocOk {
        return 1;
      }
      if CheckRequest(client, url, body) {
        body := None;
        return 1;
      }
      var piece := StrNPrefix(buf, len);
      NulFreeConcat(body.value, piece);
      body := Some(body.value + piece);
      return 0;
    }
  }

  /**
   * ws_request_create. `allocOk` is the joint outcome of the three
   * allocations (struct, initial URL, initial body); the request is also
   * refused when the client's limit is below the fixed overhead.
   */
  method CreateRequest(client: Client, allocOk: bool) returns (req: Request?)
    ensures req == null <==> !allocOk || CheckRequest(client, Some([]), Some([]))
    ensures req != null ==> fresh(req) && req.client == client
    ensures req != null ==> req.url == Some([]) && req.body == Some([]) && req.httpMethod == NO_METHOD
  {
    if !allocOk {
      return null;
    }
    req := new Request(client);
    if CheckRequest(client, req.url, req.body) {
      req := null;
    }
  }

  /**
   * Because the size check never looks at the URL or body, a request that was
   * created accepts every later fragment whose buffer could be grown, however
   * long the fragments are.
   */
  method AccumulateUrl(client: Client, fragments: seq<string>) returns (req: Request?)
    ensures req == null <==> CheckRequest(client, Some([]), Some([]))
    ensures req != null ==> fresh(req) && req.url.Some? && req.body == Some([])
    ensures req != null && (forall i :: 0 <= i < |fragments| ==> NulFree(fragments[i])) ==>
      req.url == Some(Concat(fragments))
  {
    req := CreateRequest(client, true);
    if req == null {
      return;
    }
    var i := 0;
    while i < |fragments|
      invariant 0 <= i <= |fragments|
      invariant req.url.Some? && req.body == Some([])
      invariant (forall j :: 0 <= j < |fragments| ==> NulFree(fragments[j])) ==>
        req.url == Some(Concat(fragments[..i]))
    {
      ghost var before := req.url.value;
      var rc := req.CatUrl(fragments[i], |fragments[i]|, true);
      assert rc == 0;
      assert fragments[..i + 1][..i] == fragments[..i];
      assert Concat(fragments[..i + 1]) == Concat(fragments[..i]) + fragments[i];
      if forall j :: 0 <= j < |fragments| ==> NulFree(fragments[j]) {
        assert NulFree(fragments[i]);
        assert fragments[i][..|fragments[i]|] == fragments[i];
        StrNPrefixWhole(fragments[i], |fragments[i]|);
        assert req.url.value == before + fragments[i];
      }
      i := i + 1;
    }
    assert fragments[..|fragments|] == fragments;
  }

  /** The concatenation of `fragments`, in order. */
  function Concat(fragments: seq<string>): string {
    if fragments == [] then []
    else Concat(fragments[..|fragments| - 1]) + fragments[|fragments| - 1]
  }

  // ---------------------------------------------------------------------
  // Status texts and struct ws_response
  // ---------------------------------------------------------------------

  /** The first entry of `table` for `code`, None if it has none. */
  function LookupStatus(table: seq<(int, string)>, code: int): (r: Option<string>)
    ensures r.None? <==> forall i :: 0 <= i < |table| ==> table[i].0 != code
    ensures r.Some? ==> exists i :: 0 <= i < |table| && table[i] == (code, r.value) &&
                                    forall j :: 0 <= j < i ==> table[j].0 != code
  {
    if table == [] then None
    else if table[0].0 == code then Some(table[0].1)
    else LookupStatus(table[1..], code)
  }

  /** http_status_codes_to_str: the status text of `code` from the status table, None (NULL) if unmapped. */
  function StatusText(code: int): (text: Option<string>)
    ensures text.None? <==> forall i :: 0 <= i < |WebServer.STATUS_CODE_MAP| ==> WebServer.STATUS_CODE_MAP[i].0 != code
    ensures text.Some? ==> (code, text.value) in WebServer.STATUS_CODE_MAP
  {
    LookupStatus(WebServer.STATUS_CODE_MAP, code)
  }

  /** The status table maps 200 and 404 and nothing else. */
  lemma StatusTextCases(code: int)
    ensures StatusText(code) ==
      if code == 200 then Some("200 OK")
      else if code == 404 then Some("404 Not Found")
      else None
  {
    var table := WebServer.STATUS_CODE_MAP;
    assert table[0] == (200, "200 OK") && table[1] == (404, "404 Not Found");
    assert table[1..] == [(404, "404 Not Found")];
    assert table[1..][1..] == [];
    assert LookupStatus(table, code) ==
      if code == 200 then Some("200 OK") else LookupStatus(table[1..], code);
    assert LookupStatus(table[1..], code) ==
      if code == 404 then Some("404 Not Found") else LookupStatus(table[1..][1..], code);
  }

  /** Every status text that can be looked up is NUL-free and holds no CR and no LF. */
  lemma StatusTextIsLine(code: int)
    requires StatusText(code).Some?
    ensures NoCr(StatusText(code).value) && NulFree(StatusText(code).value)
  {
    StatusTextCases(code);
  }

  const HTTP_VERSION: string := "HTTP/1.1"
  const SP: string := " "
  const CRLF: string := "\r\n"
  const CONTENT_LENGTH: string := "Content-Length:"

  /** True when `s` holds no CR. */
  predicate NoCr(s: string) {
    forall i :: 0 <= i < |s| ==> s[i] != '\r'
  }

  /**
   * The message ws_response_str writes: a status line (section 6.1 of
   * RFC 2616), a Content-Length header (section 14.13 of RFC 2616, written
   * without a space after the colon) only when there is a body, the empty
   * line, then the body.
   */
  function WireFormat(statusText: string, body: Option<string>): string {
    HTTP_VERSION + SP + statusText + CRLF
    + (if body.Some? then CONTENT_LENGTH + NatToDecimal(|body.value|) + CRLF else "")
    + CRLF
    + (if body.Some? then body.value else "")
  }

  /** Example: a 200 response with a five-character body. */
  lemma WireFormatWithBody()
    ensures WireFormat("200 OK", Some("hello")) == "HTTP/1.1 200 OK\r\n" + "Content-Length:5\r\n" + "\r\n" + "hello"
  {
    assert NatToDecimal(|"hello"|) == [DigitChar(5)] == "5";
    assert HTTP_VERSION + SP + "200 OK" + CRLF == "HTTP/1.1 200 OK\r\n";
    assert CONTENT_LENGTH + "5" + CRLF == "Content-Length:5\r\n";
  }

  /** Example: a 404 response without a body. */
  lemma WireFormatWithoutBody()
    ensures WireFormat("404 Not Found", None) == "HTTP/1.1 404 Not Found\r\n" + "\r\n"
  {
    assert HTTP_VERSION + SP + "404 Not Found" + CRLF == "HTTP/1.1 404 Not Found\r\n";
  }

  /**
   * str_builder: grow `oldMsg` (NULL on the first call) by `toAppend`.
   * The failure path of realloc, which returns the old message unchanged, is
   * not part of this model.
   */
  function StrBuilder(oldMsg: Option<string>, toAppend: string): (r: string)
    ensures |r| == |oldMsg.GetOr([])| + |toAppend|
    ensures r[..|oldMsg.GetOr([])|] == oldMsg.GetOr([]) && r[|oldMsg.GetOr([])|..] == toAppend
  {
    match oldMsg
    case None => toAppend
    case Some(m) => m + toAppend
  }

  class Response {
    const client: Client
    const status: int
    const body: Option<CString>
    /** The string the last call of ToWireString built, None before the first. */
    var fullString: Option<string>

    constructor (client: Client, status: int, body: Option<CString>)
      ensures this.client == client && this.status == status && this.body == body
      ensures fullString == None
    {
      this.client := client;
      this.status := status;
      this.body := body;
      fullString := None;
    }

    /**
     * ws_response_str. The status must be one the table maps (the C code
     * hands NULL to strlen otherwise), and a body, when present, must not be
     * empty (the digit buffer is sized by log10 of its length, which is
     * undefined for 0). The result replaces any earlier cached string.
     */
    method ToWireString() returns (s: string)
      requires StatusText(status).Some?
      requires body.Some? ==> |body.value| > 0
      modifies this
      ensures s == WireFormat(StatusText(status).value, body)
      ensures fullString == Some(s)
    {
      var response: Option<string> := None;
      response := Some(StrBuilder(response, HTTP_VERSION));
      response := Some(StrBuilder(response, SP));
      response := Some(StrBuilder(response, StatusText(status).value));
      response := Some(StrBuilder(response, CRLF));
      ghost var statusLine := HTTP_VERSION + SP + StatusText(status).value + CRLF;
      assert response == Some(statusLine);
      ghost var header := "";
      if body.Some? {
        var lengthText := NatToDecimal(|body.value|);
        response := Some(StrBuilder(response, CONTENT_LENGTH));
        response := Some(StrBuilder(response, lengthText));
        response := Some(StrBuilder(response, CRLF));
        header := CONTENT_LENGTH + lengthText + CRLF;
        assert response.value == statusLine + header;
      }
      assert header == (if body.Some? then CONTENT_LENGTH + NatToDecimal(|body.value|) + CRLF else "");
      response := Some(StrBuilder(response, CRLF));
      assert response.value == statusLine + header + CRLF;
      if body.Some? {
        response := Some(StrBuilder(response, body.value));
      }
      assert response.value == statusLine + header + CRLF + (if body.Some? then body.value else "");
      fullString := response;
      s := response.value;
    }
  }

  /**
   * ws_response_create: a response for `req`'s client with a copy of `body`
   * and no cached string; None (NULL) when an allocation fails.
   */
  method CreateResponse(req: Request, status: int, body: Option<CString>, allocOk: bool) returns (res: Response?)
    ensures res == null <==> !allocOk
    ensures res != null ==> fresh(res) && res.client == req.client && res.status == status
    ensures res != null ==> res.body == body && res.fullString == None
  {
    if !allocOk {
      return null;
    }
    res := new Response(req.client, status, body);
  }

  /** Building the string twice on an unchanged response gives the same string, cached. */
  method BuildTwice(res: Response) returns (first: string, second: string)
    requires StatusText(res.status).Some?
    requires res.body.Some? ==> |res.body.value| > 0
    modifies res
    ensures first == second && res.fullString == Some(second)
  {
    first := res.ToWireString();
    second := res.ToWireString();
  }

  // ---------------------------------------------------------------------
  // Reading a message back
  // ---------------------------------------------------------------------

  /** Split `s` at its first CRLF into the line before it and the rest after it. */
  function TakeLine(s: string): Option<(string, string)>
    decreases |s|
  {
    if |s| >= 2 && s[0] == '\r' && s[1] == '\n' then Some(([], s[2..]))
    else if s == [] || s[0] == '\r' then None
    else
      match TakeLine(s[1..])
      case None => None
      case Some((line, rest)) => Some(([s[0]] + line, rest))
  }

  lemma {:induction false} TakeLineOf(line: string, rest: string)
    requires NoCr(line)
    ensures TakeLine(line + CRLF + rest) == Some((line, rest))
    decreases |line|
  {
    var s := line + CRLF + rest;
    if line == [] {
      assert s == CRLF + rest;
      assert s[2..] == rest;
    } else {
      assert s[1..] == line[1..] + CRLF + rest;
      TakeLineOf(line[1..], rest);
      assert [s[0]] + line[1..] == line;
    }
  }

  /**
   * Read a message of the shape WireFormat writes: the status text, and the
   * body exactly when a Content-Length header announces it, with the body as
   * long as the header says.
   */
  function ParseResponse(w: string): Option<(string, Option<string>)> {
    var prefix := HTTP_VERSION + SP;
    if |w| < |prefix| || w[..|prefix|] != prefix then None
    else
      match TakeLine(w[|prefix|..])
      case None => None
      case Some((text, rest)) =>
        if rest == CRLF then Some((text, None))
        else
          match TakeLine(rest)
          case None => None
          case Some((header, tail)) =>
            var n := |CONTENT_LENGTH|;
            if |header| > n && header[..n] == CONTENT_LENGTH && AllDigits(header[n..])
               && |tail| >= 2 && tail[..2] == CRLF && |tail| - 2 == DecimalValue(header[n..])
            then Some((text, Some(tail[2..])))
            else None
  }

  /** The Content-Length header line holds no CR and reads back as the length it announces. */
  lemma {:induction false} HeaderLine(n: nat)
    ensures NoCr(CONTENT_LENGTH + NatToDecimal(n))
    ensures var header := CONTENT_LENGTH + NatToDecimal(n);
            var k := |CONTENT_LENGTH|;
            |header| > k && header[..k] == CONTENT_LENGTH && AllDigits(header[k..]) && DecimalValue(header[k..]) == n
  {
    var digits := NatToDecimal(n);
    var header := CONTENT_LENGTH + digits;
    forall i | 0 <= i < |header| ensures header[i] != '\r' {
      if i >= |CONTENT_LENGTH| { assert header[i] == digits[i - |CONTENT_LENGTH|]; }
    }
    assert header[..|CONTENT_LENGTH|] == CONTENT_LENGTH;
    assert header[|CONTENT_LENGTH|..] == digits;
    DecimalRoundTrip(n);
  }

  /** A message without a body reads back as its status text and no body. */
  lemma {:induction false} RoundTripWithoutBody(statusText: string)
    requires NoCr(statusText)
    ensures ParseResponse(WireFormat(statusText, None)) == Some((statusText, None))
  {
    var w := WireFormat(statusText, None);
    var prefix := HTTP_VERSION + SP;
    assert w == prefix + (statusText + CRLF + CRLF);
    assert w[..|prefix|] == prefix;
    assert w[|prefix|..] == statusText + CRLF + CRLF;
    TakeLineOf(statusText, CRLF);
  }

  /** A message with a body reads back as its status text and that body. */
  lemma {:induction false} RoundTripWithBody(statusText: string, b: string)
    requires NoCr(statusText)
    ensures ParseResponse(WireFormat(statusText, Some(b))) == Some((statusText, Some(b)))
  {
    var w := WireFormat(statusText, Some(b));
    var prefix := HTTP_VERSION + SP;
    var header := CONTENT_LENGTH + NatToDecimal(|b|);
    var tailPart := header + CRLF + (CRLF + b);
    assert w == prefix + (statusText + CRLF + tailPart);
    assert w[..|prefix|] == prefix;
    assert w[|prefix|..] == statusText + CRLF + tailPart;
    TakeLineOf(statusText, tailPart);
    HeaderLine(|b|);
    TakeLineOf(header, CRLF + b);
    assert tailPart != CRLF by { assert tailPart[0] == 'C'; }
    assert (CRLF + b)[..2] == CRLF;
    assert (CRLF + b)[2..] == b;
  }

  /**
   * The message ws_response_str writes can be read back: the status text and
   * the body (or its absence) are recovered, the body's length being the one
   * the Content-Length header announces.
   */
  lemma ResponseRoundTrip(statusText: string, body: Option<string>)
    requires NoCr(statusText)
    ensures ParseResponse(WireFormat(statusText, body)) == Some((statusText, body))
  {
    if body.Some? {
      RoundTripWithBody(statusText, body.value);
    } else {
      RoundTripWithoutBody(statusText);
    }
  }

  /** For a mapped status, the response string reads back as its status text and body. */
  lemma ResponseStringReadsBack(status: int, body: Option<CString>)
    requires StatusText(status).Some?
    ensures ParseResponse(WireFormat(StatusText(status).value, body)) == Some((StatusText(status).value, body))
  {
    StatusTextIsLine(status);
    ResponseRoundTrip(StatusText(status).value, body);
  }
}
