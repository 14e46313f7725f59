# HomePort core in Dafny

This project models the sequential core of HomePort, an embedded home-automation hub. The hub serves a registry of Devices and their Services over HTTP. The model covers five C files:

- **Service registry** (`DataManager/src/hpd_service.c`):
  - Parameters and Services are created all-or-nothing. The required fields are checked in a fixed order.
  - Each Service gets three derived names: its value URL, its zeroconf name and its DNS-SD service type.
  - A Service joins its Device's list when created. Destroying it is refused while it is registered. Otherwise it leaves the list, and the Device is destroyed when the list becomes empty.
- **Request and response layer** (`ws_http.c`):
  - A request starts with an empty URL and body and grows them fragment by fragment, after a size check.
  - A response is serialised as an HTTP/1.1 message: a status line (section 6.1 of RFC 2616), an optional Content-Length header (section 14.13 of RFC 2616), an empty line, then the body. The last string built is cached.
  - The model parses the message back and proves a round trip.
- **Web server constants** (`libWebserver/include/webserver.h`): the status-code table, the port table, the settings record and its default value.
- **Keyed association list** (`libREST/linkedlist/linkedList.c`):
  - A singly linked heap list with head and tail pointers and ghost contents.
  - `removeElement` is modelled twice: once exactly as the C loop runs, and once as its evidently intended behaviour (see "## Findings").
- **URL chunk accumulator** (`libHTTP/url_parser.c`): a growable buffer that holds the concatenation of the chunks added, with a parse cursor and a completion callback.

## Files and modules

- `wrappers.dfy` (`Wrappers`): the `Option` type. It stands for a C pointer that may be NULL.
- `c_strings.dfy` (`CStrings`): NUL-free strings, the prefix that `strncat` copies, and decimal formatting of a length together with its read-back.
- `webserver.dfy` (`WebServer`): the constant tables and settings of the web server header.
- `ws_http.dfy` (`WsHttp`): the `Request` and `Response` classes, the status texts, the wire format and its parser.
- `linked_list.dfy` (`LinkedLists`): the abstract list functions, the as-written removal, and the `LinkedList` class.
- `url_parser.dfy` (`UrlParser`): the `Instance` class.
- `hpd_service.dfy` (`HpdService`): `Parameter`, `Device` and `Service`, the derived names, creation and destruction.

## Where the code differs from the standard or its evident intent

The model follows the code in both cases.

- **Content-Length header.** Section 14.13 of RFC 2616 writes the header with a space after the colon, as in its example `Content-Length: 3495`. The code at `ws_http.c:291` writes `Content-Length:` and then the digits, with no space. Section 4.2 of RFC 2616 allows optional whitespace before a field value, so both forms are valid. `WsHttp.WireFormat` has no space.
- **Request size limit.** `check_request` is evidently meant to bound the request, including the length of its URL and body, by the client's `max_request_size`. What it adds up is the `sizeof` of three pointers: the request and its `url` and `body` pointers (`ws_http.c:69`). The verdict therefore depends only on the client's limit (`WsHttp.CheckRequest`, `WsHttp.CheckRequestVerdict`). A request that was created accepts every fragment whose buffer can be grown (`WsHttp.AccumulateUrl`). The pointer size is assumed to be 8 bytes (LP64).

## Model

| member | source | states |
|---|---|---|
| CStrings.NulFreeConcat | ws_http.c:212 | concatenating two NUL-free strings gives a NUL-free string |
| CStrings.StrNPrefix | ws_http.c:212 | what strncat copies from `buf` with limit `len`: at most `len` characters, stopping before the first NUL; the result is NUL-free and a prefix of `buf` |
| CStrings.StrNPrefixWhole | ws_http.c:212 | when `buf[..len]` holds no NUL, strncat copies all of it |
| CStrings.NatToDecimal | ws_http.c:287-289 | the decimal digits of `n`: non-empty, all digits, no leading zero unless `n` is 0 |
| CStrings.DecimalRoundTrip | ws_http.c:287-289 | reading the decimal digits of `n` back gives `n` |
| WebServer.StatusCodeTable | libWebserver/include/webserver.h:49-58 | the status map has exactly the entries 200 → "200 OK" and 404 → "404 Not Found", and each enum constant equals its code |
| WebServer.StatusTextsAreStatusLines | libWebserver/include/webserver.h:49-51 | each status text is the code in three decimal digits, a space and a reason phrase without CR or LF, as a Status-Line needs |
| WebServer.PortTable | libWebserver/include/webserver.h:63-73 | the port map is HTTP 80, HTTPS 443 and HTTP_ALT 8080; the numbers are distinct and fit an unsigned short |
| WebServer.DefaultSettings | libWebserver/include/webserver.h:99-109 | the default settings use port WS_PORT_HTTP (80) and leave all nine callbacks unset |
| WsHttp.CheckRequest | ws_http.c:67-74 | the size check of a request fails exactly when the client's maximum is below the fixed 24-byte overhead of three pointers |
| WsHttp.CheckRequestVerdict | ws_http.c:67-74 | the size check gives the same verdict whatever the URL and body hold |
| WsHttp.Request.constructor | ws_http.c:92-114 | a new request has the given client, an empty URL, an empty body and method -1 |
| WsHttp.CreateRequest | ws_http.c:84-124 | no request exactly when an allocation fails or the initial size check fails; otherwise a fresh request with an empty URL and body and method -1 |
| WsHttp.Request.GetClient | ws_http.c:165-168 | returns the request's client |
| WsHttp.Request.SetMethod | ws_http.c:170-173 | sets the method and leaves the URL and body unchanged |
| WsHttp.Request.GetUrl | ws_http.c:175-178 | returns the URL buffer as it stands |
| WsHttp.Request.GetBody | ws_http.c:185-188 | returns the body buffer as it stands |
| WsHttp.Request.CatUrl | ws_http.c:190-214 | returns 0 exactly when the realloc succeeds and the size check passes; then the URL is the old URL plus the strncat prefix of the fragment. A failed realloc keeps the URL; a failed size check frees it. Either way 1 is returned, and the body and method are never touched |
| WsHttp.Request.CatBody | ws_http.c:216-240 | the same as CatUrl, applied to the body; the URL and method are never touched |
| WsHttp.AccumulateUrl | ws_http.c:190-214 | a request that was created takes any sequence of NUL-free fragments, and its URL ends up as their concatenation |
| WsHttp.LookupStatus | ws_http.c:242-248 | the text of the first table entry with the code, or NULL exactly when no entry has it |
| WsHttp.StatusText | ws_http.c:242-248 | NULL exactly when the status table has no entry for the code; otherwise the entry's text |
| WsHttp.StatusTextCases | ws_http.c:242-248 | 200 maps to "200 OK", 404 maps to "404 Not Found", and every other code maps to NULL |
| WsHttp.StatusTextIsLine | ws_http.c:242-248 | every status text that can be looked up is NUL-free and contains no CR |
| WsHttp.StrBuilder | ws_http.c:250-274 | the result is the old message (empty when NULL) followed by the appended text |
| WsHttp.Response.constructor | ws_http.c:138-153 | a new response holds the client, the status and the body, and has no cached string |
| WsHttp.CreateResponse | ws_http.c:126-156 | NULL exactly when an allocation fails; otherwise a fresh response with the request's client, a copy of the body and no cached string |
| WsHttp.Response.ToWireString | ws_http.c:276-307 | the string built is the status line, then a Content-Length header only when there is a body, then CRLF, then the body; it is cached in fullString, replacing any earlier value |
| WsHttp.BuildTwice | ws_http.c:302-306 | building twice on an unchanged response gives equal strings, and the second is cached |
| WsHttp.WireFormatWithBody | ws_http.c:276-300 | a 200 response with body "hello" is exactly "HTTP/1.1 200 OK\r\nContent-Length:5\r\n\r\nhello" |
| WsHttp.WireFormatWithoutBody | ws_http.c:280-296 | a 404 response without a body is exactly "HTTP/1.1 404 Not Found\r\n\r\n" |
| WsHttp.TakeLineOf | ws_http.c:276-300 | a CR-free line followed by CRLF splits off at that CRLF |
| WsHttp.HeaderLine | ws_http.c:287-293 | the Content-Length header line contains no CR, and its digits read back as the length it announces |
| WsHttp.RoundTripWithoutBody | ws_http.c:280-296 | a response without a body reads back as its status text and no body |
| WsHttp.RoundTripWithBody | ws_http.c:276-300 | a response with a body reads back as its status text and that body, with the length the header announces |
| WsHttp.ResponseRoundTrip | ws_http.c:276-300 | for any CR-free status text, the serialised response reads back as that text and the body, or as no body when there is none |
| WsHttp.ResponseStringReadsBack | ws_http.c:276-300 | for every mapped status code, the response string reads back as the code's status text and the body |
| LinkedLists.LookupNone | libREST/linkedlist/linkedList.c:92-104 | the lookup finds nothing exactly when no entry has the key |
| LinkedLists.LookupFirst | libREST/linkedlist/linkedList.c:92-104 | the lookup returns the value of the first entry with the key |
| LinkedLists.LookupAppend | libREST/linkedlist/linkedList.c:64-104 | an appended entry is found only when no earlier entry has its key |
| LinkedLists.FilterSnoc | libREST/linkedlist/linkedList.c:133-150 | filtering one more entry extends the result by that entry, unless it has the removed key |
| LinkedLists.FilterMembers | libREST/linkedlist/linkedList.c:133-150 | an entry survives removal exactly when it was in the list and its key differs from the removed key |
| LinkedLists.FilterRemovesKey | libREST/linkedlist/linkedList.c:133-150 | after removal, no entry with the removed key is found |
| LinkedLists.FilterKeepsOthers | libREST/linkedlist/linkedList.c:133-150 | after removal, a lookup of any other key returns the same value as before |
| LinkedLists.FilterAbsent | libREST/linkedlist/linkedList.c:133-150 | removing a key that is not present leaves the list unchanged |
| LinkedLists.Walk | libREST/linkedlist/linkedList.c:139-148 | following forward links from a node visits only indices of the list |
| LinkedLists.Matches | libREST/linkedlist/linkedList.c:139 | flags exactly the entries whose key equals the removed key |
| LinkedLists.RemoveElementAsWritten | libREST/linkedlist/linkedList.c:133-150 | the C loop, run on node indices: the head moves only past a matching first node, and node j skips node j+1 only when node j+1 matches |
| LinkedLists.AsWrittenSpacedMatches | libREST/linkedlist/linkedList.c:139-148 | when no two adjacent entries match, the links from a kept node reach exactly the kept nodes after it |
| LinkedLists.AsWrittenCorrectWhenSpaced | libREST/linkedlist/linkedList.c:139-148 | when no two adjacent entries match, the nodes reachable from the head after the C removal are exactly the non-matching entries |
| LinkedLists.AsWrittenAdjacentMatchSurvives | libREST/linkedlist/linkedList.c:145-148 | removing "a" from ["a", "a"] leaves the second, freed node reachable from the head, although nothing should remain |
| LinkedLists.AsWrittenStaleTailLosesInsert | libREST/linkedlist/linkedList.c:141-148 | removing "b" from ["a", "b"] leaves the tail on the freed node, so a later insert is not reachable from the head |
| LinkedLists.Create | libREST/linkedlist/linkedList.c:42-54 | NULL exactly when the allocation fails; otherwise a fresh valid list with no entries |
| LinkedLists.ListElement.constructor | libREST/linkedlist/linkedList.c:78-80 | a node holds the given key and value by reference and links to nothing |
| LinkedLists.LinkedList.constructor | libREST/linkedlist/linkedList.c:42-54 | a new list is valid and empty, with head and tail NULL |
| LinkedLists.LinkedList.Insert | libREST/linkedlist/linkedList.c:64-83 | on success returns 0 and appends (key, val) at the tail, duplicate keys included; the tail is the new node and the head changes only when the list was empty. A failed node allocation returns 1 and changes nothing |
| LinkedLists.LinkedList.Get | libREST/linkedlist/linkedList.c:92-104 | returns the value of the first entry with the key, or NULL when there is none, and changes nothing |
| LinkedLists.LinkedList.RemoveElement | libREST/linkedlist/linkedList.c:133-150 | corrected removal (see "## Findings"): every entry with the key is removed; the others keep their order; head and tail stay consistent |
| LinkedLists.RemoveThenInsert | libREST/linkedlist/linkedList.c:64-83 | with the corrected removal (see "## Findings"), an insert after a removal appends after the surviving entries |
| LinkedLists.LinkedList.Destroy | libREST/linkedlist/linkedList.c:113-124 | requires a non-empty list, because the loop reads head->next first; frees every node exactly once, head first |
| UrlParser.FlattenAppend | libHTTP/url_parser.c:79-80 | concatenating chunk lists concatenates their contents |
| UrlParser.ChunkPlacement | libHTTP/url_parser.c:79-80 | each chunk sits unaltered in the buffer, at the offset given by the chunks before it |
| UrlParser.Instance.constructor | libHTTP/url_parser.c:48-62 | a new instance holds a copy of the settings, has state 0, and has nothing buffered or parsed |
| UrlParser.Instance.AddChunk | libHTTP/url_parser.c:75-92 | the buffer becomes the old contents plus the chunk prefix, and buffer_size grows by the chunk size; the cursor ends at buffer_size; the state and settings are unchanged; the buffer stays the concatenation of every chunk added |
| UrlParser.Instance.Complete | libHTTP/url_parser.c:94-99 | the buffer is delivered exactly when a callback is set and a buffer exists; it is the concatenation of all chunks, and nothing changes |
| HpdService.CreateParameter | DataManager/src/hpd_service.c:346-419 | no parameter exactly when the ID is NULL; otherwise each optional string is kept when given and stays absent when not |
| HpdService.CreateParameterOfFields | DataManager/src/hpd_service.c:357-416 | every parameter is what the constructor builds from its own fields |
| HpdService.FreedFields | DataManager/src/hpd_service.c:432-455 | freeing NULL frees nothing; freeing a parameter frees at least its ID |
| HpdService.CreateThenFree | DataManager/src/hpd_service.c:357-455 | freeing what the constructor returned releases exactly the strings it allocated |
| HpdService.FirstAbsent | DataManager/src/hpd_service.c:83-145 | the index of the first field, in checking order, that is missing; every field before it is present |
| HpdService.FirstMissing | DataManager/src/hpd_service.c:83-145 | none exactly when all five required fields are present; otherwise the reported field is missing and every field before it was present |
| HpdService.RequiredChecks | DataManager/src/hpd_service.c:83-145 | the checks reject exactly the calls where the ID, type, device, get function or parameter is missing; a missing ID is reported first |
| HpdService.Split | DataManager/src/hpd_service.c:185-196 | cutting a string at a separator gives at least one part |
| HpdService.SplitJoin | DataManager/src/hpd_service.c:185-196 | splitting the join of separator-free parts gives the parts back |
| HpdService.JoinSplit | DataManager/src/hpd_service.c:185-196 | joining the parts of any string gives the string back |
| HpdService.JoinFour | DataManager/src/hpd_service.c:185-196 | four joined parts are the parts with a separator between each pair |
| HpdService.ValueUrl | DataManager/src/hpd_service.c:185-190 | the value URL starts with '/'; its allocated length is the four parts plus four slashes plus 1 |
| HpdService.ZeroConfName | DataManager/src/hpd_service.c:192-196 | the zeroconf name's allocated length is the four parts plus three spaces plus 1 |
| HpdService.ValueUrlRoundTrip | DataManager/src/hpd_service.c:189-190 | when no part contains '/', the value URL parses back into the device type, device ID, service type and service ID |
| HpdService.ZeroConfNameRoundTrip | DataManager/src/hpd_service.c:196 | when no part contains a space, the zeroconf name parses back into its four parts |
| HpdService.DnsSdType | DataManager/src/hpd_service.c:198-200 | "_homeport-secure._tcp" exactly when the device is secure, and "_homeport._tcp" exactly when it is not |
| HpdService.DnsSdTypesWellFormed | DataManager/src/hpd_service.c:198-200 | both DNS-SD types are service types over TCP in the sense of section 7 of RFC 6763, whose names follow section 5.1 of RFC 6335 |
| HpdService.ServiceElement.constructor | DataManager/src/hpd_service.c:305-308 | a new element holds the service and links to nothing |
| HpdService.CreateServiceElement | DataManager/src/hpd_service.c:293-311 | NULL exactly when the service is NULL or the allocation fails; otherwise a fresh, unlinked element holding the service |
| HpdService.DestroyServiceElement | DataManager/src/hpd_service.c:314-323 | returns HPD_E_NULL_POINTER exactly for NULL, and success otherwise |
| HpdService.Without | DataManager/src/hpd_service.c:244-256 | the device's list without the service: every other service stays, and nothing new appears |
| HpdService.WithoutAbsent | DataManager/src/hpd_service.c:244-256 | removing a service that is not in the list changes nothing |
| HpdService.WithoutConcat | DataManager/src/hpd_service.c:244-256 | removal works piecewise on a concatenation |
| HpdService.WithoutOnce | DataManager/src/hpd_service.c:244-256 | removing a service listed once drops exactly that entry and keeps the others in order |
| HpdService.WithoutEmpty | DataManager/src/hpd_service.c:244-256 | the list becomes empty exactly when it held nothing but the removed service |
| HpdService.AddServiceToDevice | DataManager/src/hpd_service.c:207-212 | appends the service to the device's list and returns 0, or returns -1 and leaves the list unchanged when the element allocation fails |
| HpdService.RemoveServiceFromDevice | DataManager/src/hpd_service.c:248 | the device's list loses the service, and the other services keep their order |
| HpdService.DestroyDevice | DataManager/src/hpd_service.c:250-254 | the device is marked destroyed |
| HpdService.CreateService | DataManager/src/hpd_service.c:66-217 | NULL exactly when an allocation fails or one of the five required fields is missing. Otherwise every field is stored as given, isActuator is dropped, put_value is absent, and the three derived names are computed from the device and the service. The service is appended to the device's list, which is unchanged on failure |
| HpdService.DestroyService | DataManager/src/hpd_service.c:231-291 | NULL is a success that changes nothing. A registered service gets HPD_E_SERVICE_IN_USE, and neither it nor its device changes in any field. Any other service leaves its device's list, and the device is destroyed exactly when that leaves the list empty |

## Left out

- Concurrency: the service mutex is modelled as an opaque object, with no locking discipline.
- The external HTTP tokenizer (`ws_parser_create`, `ws_parser_parse`, `ws_parser_destroy`, `http_method_str`): `ws_request_parse` and `ws_request_get_method_str` only forward to it.
- The reactor: `ws_create`, `ws_destroy`, `ws_start` and `ws_stop` are declarations whose code is not part of this model.
- Deallocation: `ws_request_destroy`, `ws_response_destroy` and `up_destroy` only free memory, and Dafny's heap is garbage collected. The service destructor's frees are modelled only as `destroyed` flags.
- Diagnostic output (`printf`, `fprintf`, `perror`) is dropped.
- Allocation failures appear only as boolean parameters (`allocOk`, `reallocOk`, `elementAllocOk`), and only where the code checks them. A single flag stands for several allocations of one call.
- WsHttp.StrBuilder: its realloc-failure path, which returns the old message unchanged, is not modelled.
- WsHttp.Response.ToWireString: requires a non-empty body when there is one, because the C code sizes the digit buffer with `log10` of the length, which is undefined for 0. The floating-point sizing itself is replaced by exact decimal conversion, and `body_length` is unbounded.
- WsHttp.CreateRequest: the pointer size is assumed to be 8 bytes (LP64).
- Characters: each Dafny `char` of a string stands for one byte of the C string. Multi-byte encodings are not modelled, so the Content-Length the model announces counts characters, which equals the byte count `strlen` gives only when every character is one byte (section 14.13 of RFC 2616 counts octets).
- UrlParser.Instance.AddChunk: requires the new buffer size to stay below 2^32 and the chunk size to be non-negative. It does not model the wrap-around of the `unsigned int` and `int` counters.
- UrlParser.Instance.constructor: the C code leaves `buffer` uninitialised; the model starts it as NULL.
- Keys and values are stored by reference. The model keeps them as values in `Contents`, so aliasing of key strings by the caller is not captured.
- The Service's `get_function_buffer` (size `MHD_MAX_BUFFER_SIZE`) and its user-data pointer are opaque. Function and user-data pointers are kept only as identities.
- HpdService.HPD_SECURE_DEVICE is taken as 1, because `hpd_service.h` is not part of this model. Only the comparison with it matters to the proofs.
- HPD error codes are symbolic, because the header defining their values is not part of this model.
- Functions whose code is not part of this model get the simplest bodies their names describe:
  - `is_service_registered` becomes the `registered` set parameter of `DestroyService`;
  - `add_service_to_device`, `remove_service_from_device` and `destroy_device_struct` work on the Device's `services` sequence;
  - the Device's doubly linked `ServiceElement` list is represented by that sequence.
- `create_device_struct` is outside the modelled files. Devices are built with the `Device` constructor.
- Memory-safety defects the model does not reproduce:
  - `ws_response_create` leaks the response when copying the body fails;
  - the add-failure path of `create_service_struct` frees only the struct;
  - `removeElement` reads and writes freed nodes. The as-written model follows the links those nodes held.

## Findings

| source | as written | input that shows it | evidently intended | confidence | as-written member | corrected member |
|---|---|---|---|---|---|---|
| libREST/linkedlist/linkedList.c:147 | after freeing a matching node, `prev` is set to that freed node, so when the next node also matches, the unlink writes into the freed node and the head or live predecessor still points at the second match | list ["a", "a"], removeElement "a": the second node stays reachable from the head | every entry with the key is unlinked; `prev` advances only past kept nodes | not executed | LinkedLists.AsWrittenAdjacentMatchSurvives | LinkedLists.LinkedList.RemoveElement |
| libREST/linkedlist/linkedList.c:141-148 | removing the last node never updates `tail`, so `tail` is left on a freed node | list ["a", "b"], removeElement "b", then insert: the new node is linked after the freed node and cannot be reached from the head | when the last node is removed, `tail` moves to the last kept node, or to NULL when none is left | not executed | LinkedLists.AsWrittenStaleTailLosesInsert | LinkedLists.LinkedList.RemoveElement |
