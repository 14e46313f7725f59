/**
 * The constant tables of the web server's public header: the status codes
 * the server can answer with, the well-known ports, and the settings record
 * a user fills with callbacks before starting the server.
 */
module WebServer {
  import opened Wrappers
  import CStrings

  /** WS_HTTP_STATUS_CODE_MAP: each supported code with its status text, in table order. */
  const STATUS_CODE_MAP: seq<(int, string)> := [(200, "200 OK"), (404, "404 Not Found")]

  /** enum ws_http_status_code: WS_HTTP_<num> = num for every table entry. */
  const WS_HTTP_200: int := 200
  const WS_HTTP_404: int := 404

  /** WS_PORT_MAP: port number and port name, in table order. */
  const PORT_MAP: seq<(int, string)> := [(80, "HTTP"), (443, "HTTPS"), (8080, "HTTP_ALT")]

  /** enum ws_port: WS_PORT_<name> = num for every table entry. */
  const WS_PORT_HTTP: int := 80
  const WS_PORT_HTTPS: int := 443
  const WS_PORT_HTTP_ALT: int := 8080

  /** The range of `unsigned short int`, the type of the settings' port. */
  type UShort = p: int | 0 <= p < 0x1_0000

  /** A callback that receives only the request (nodata_cb). */
  type NoDataCallback<!R> = R -> int

  /** A callback that receives the request and a fragment `(buf, len)` (data_cb). */
  type DataCallback<!R> = (R, seq<char>, nat) -> int

  /** struct ws_settings; an absent callback is a NULL function pointer. */
  datatype Settings<!R> = Settings(
    port: UShort,
    onRequestBegin: Option<NoDataCallback<R>>,
    onRequestMethod: Option<DataCallback<R>>,
    onRequestUrl: Option<DataCallback<R>>,
    onRequestUrlComplete: Option<NoDataCallback<R>>,
    onRequestHeaderField: Option<DataCallback<R>>,
    onRequestHeaderValue: Option<DataCallback<R>>,
    onRequestHeaderComplete: Option<NoDataCallback<R>>,
    onRequestBody: Option<DataCallback<R>>,
    onRequestComplete: Option<NoDataCallback<R>>)

  /** WS_SETTINGS_DEFAULT: the plain HTTP port, every callback unset. */
  function DefaultSettings<R>(): (s: Settings<R>)
    ensures s.port == WS_PORT_HTTP == 80
    ensures NoCallbacks(s)
  {
    Settings(WS_PORT_HTTP, None, None, None, None, None, None, None, None, None)
  }

  /** True when no callback of `s` is set. */
  predicate NoCallbacks<R>(s: Settings<R>) {
    s.onRequestBegin.None? && s.onRequestMethod.None? && s.onRequestUrl.None? &&
    s.onRequestUrlComplete.None? && s.onRequestHeaderField.None? &&
    s.onRequestHeaderValue.None? && s.onRequestHeaderComplete.None? &&
    s.onRequestBody.None? && s.onRequestComplete.None?
  }

  /** The status table has exactly the two entries 200 and 404, and each enum constant is its code. */
  lemma StatusCodeTable()
    ensures |STATUS_CODE_MAP| == 2
    ensures STATUS_CODE_MAP[0] == (WS_HTTP_200, "200 OK") && WS_HTTP_200 == 200
    ensures STATUS_CODE_MAP[1] == (WS_HTTP_404, "404 Not Found") && WS_HTTP_404 == 404
  {
  }

  /** The port constants are the table's numbers, distinct, and fit the settings' port type. */
  lemma PortTable()
    ensures |PORT_MAP| == 3
    ensures PORT_MAP[0] == (WS_PORT_HTTP, "HTTP") && PORT_MAP[1] == (WS_PORT_HTTPS, "HTTPS")
    ensures PORT_MAP[2] == (WS_PORT_HTTP_ALT, "HTTP_ALT")
    ensures forall i, j :: 0 <= i < j < |PORT_MAP| ==> PORT_MAP[i].0 != PORT_MAP[j].0
    ensures forall i :: 0 <= i < |PORT_MAP| ==> 0 <= PORT_MAP[i].0 < 0x1_0000
  {
  }

  /** True when `t` holds neither CR nor LF (a Reason-Phrase character run). */
  predicate NoCrLf(t: string) {
    forall i :: 0 <= i < |t| ==> t[i] != '\r' && t[i] != '\n'
  }

  /**
   * Every status text in the table is "<code in decimal> <reason>", the part
   * of a Status-Line after "HTTP/1.1 " in section 6.1 of RFC 2616, and its
   * digits agree with the entry's numeric code.
   */
  lemma {:induction false} StatusTextsAreStatusLines(i: nat)
    requires i < |STATUS_CODE_MAP|
    ensures var (code, text) := STATUS_CODE_MAP[i];
      code >= 0 && |text| > 4 &&
      text[..3] == CStrings.NatToDecimal(code) && text[3] == ' ' && NoCrLf(text[4..])
  {
    var code := STATUS_CODE_MAP[i].0;
    assert CStrings.NatToDecimal(code / 100) == [CStrings.DigitChar(code / 100)];
    assert CStrings.NatToDecimal(code / 10) == CStrings.NatToDecimal(code / 100) + [CStrings.DigitChar(code / 10 % 10)];
  }
}
