/**
 * The request/response test harness of `webtest/webtest.go`. A `WebTest`
 * holds the base URL of the service under test and a bag of values captured
 * from earlier responses; `RunTest` builds the URL, fills the bag into the
 * URL and the payload, sends the request, and checks the reply either
 * against a regular expression (capturing named groups into the bag) or
 * against an expected body.
 *
 * The collaborators the harness calls but does not implement are inputs:
 * `json.Marshal` and `json.Unmarshal`, the HTTP round trip, the regular
 * expression engine and the clock readings around the round trip.
 */
module Webtest {
  import opened Wrappers
  import Text
  import Bag
  import GoMaps
  import Json
  import Stopwatch

  /** A test case's `Payload any`: nil, a string, a `map[string]any`, or a value of another type. */
  datatype Payload =
    | NoPayload
    | RawPayload(text: string)
    | JsonPayload(fields: map<string, Json.Json>)
    | OtherPayload(typeName: string)

  /** A test case's `ExpectedBody any`, with the same four shapes. */
  datatype ExpectedBody =
    | NoBody
    | TextBody(text: string)
    | JsonBody(fields: map<string, Json.Json>)
    | OtherBody(typeName: string)

  datatype TestCase = TestCase(
    httpMethod: string,
    path: string,
    payload: Payload,
    expectedCode: int,
    expectedBody: ExpectedBody,
    expectedBodyPattern: string)

  /** What goes on the wire: method, URL, body and the `Content-Type` header, if any. */
  datatype HttpRequest = HttpRequest(httpMethod: string, url: string, body: Option<string>, contentType: Option<string>)

  datatype Response = Response(status: int, body: string)

  /** `ResponseWithTime`: the reply and the time the round trip took. */
  datatype Timed = Timed(response: Response, elapsed: int)

  /**
   * What the regular expression engine reports for a pattern and a text: the
   * pattern does not compile, it does not match, or it matches with group
   * `i` named `names[i]` (group 0 is the whole match, named "") and matching
   * `groups[i]`.
   */
  datatype RegexResult = InvalidRegex | NoMatch | Matched(names: seq<string>, groups: seq<string>)

  /**
   * A match lists one text per group, and no group name contains ':' (Go's
   * group names are made of word characters).
   */
  predicate WellFormed(m: RegexResult) {
    m.Matched? ==> |m.names| == |m.groups| && forall i :: 0 <= i < |m.names| ==> ':' !in m.names[i]
  }

  /** A `t.Errorf`: the check failed and the test goes on. */
  datatype Failure =
    | StatusMismatch(expectedStatus: int, gotStatus: int)
    | PatternMissing
    | PatternNotMatched(body: string, pattern: string)
    | BodyMismatch(expectedText: string, gotText: string)
    | JsonMismatch(expectedJson: map<string, Json.Json>, gotJson: map<string, Json.Json>)

  /**
   * A `t.Fatalf`, or the panic of `regexp.MustCompile`: the test stops here.
   */
  datatype Fatal =
    | MarshalFailed
    | UnsupportedPayload(typeName: string)
    | RequestFailed
    | InvalidPattern(pattern: string)
    | UnmarshalFailed
    | UnsupportedExpectedBody(typeName: string)

  /** The failures reported, in order, and the fatal error that ended the test, if any. */
  datatype Report = Report(failures: seq<Failure>, fatal: Option<Fatal>)

  predicate Passed(r: Report) {
    r.failures == [] && r.fatal == None
  }

  /** The header value set on every request that carries a body. */
  const JsonContentType: string := "application/json"

  /** The one-element complaint about the status code, or nothing when it is as expected. */
  function StatusFailures(expected: int, got: int): (r: seq<Failure>)
    ensures r == [] <==> expected == got
  {
    if got != expected then [StatusMismatch(expected, got)] else []
  }

  /** The URL of a test case: the base URL followed by the path without one leading slash. */
  function Target(baseURL: string, path: string): string {
    baseURL + Text.TrimPrefix(path, "/")
  }

  /** A path with a leading slash and the same path without it address the same URL. */
  lemma TargetLeadingSlash(baseURL: string, path: string)
    requires !Text.HasPrefix(path, "/")
    ensures Target(baseURL, path) == baseURL + path
    ensures Target(baseURL, "/" + path) == baseURL + path
  {
    assert Text.HasPrefix("/" + path, "/");
  }

  /**
   * The request `request` builds for an already substituted `url`: no body
   * and no header without a payload; a string payload with the bag filled
   * in; a map payload serialised first and then filled in; any other
   * payload, or a map that cannot be serialised, stops the test.
   */
  function Outgoing(url: string, httpMethod: string, payload: Payload, order: seq<string>,
                    bag: map<string, string>, marshal: map<string, Json.Json> -> Option<string>): Result<HttpRequest, Fatal>
    requires forall k :: k in order ==> k in bag
  {
    match payload
    case NoPayload => Ok(HttpRequest(httpMethod, url, None, None))
    case RawPayload(t) =>
      Ok(HttpRequest(httpMethod, url, Some(Bag.Substitute(t, order, bag, false)), Some(JsonContentType)))
    case JsonPayload(fields) =>
      (match marshal(fields)
       case None => Err(MarshalFailed)
       case Some(j) => Ok(HttpRequest(httpMethod, url, Some(Bag.Substitute(j, order, bag, false)), Some(JsonContentType))))
    case OtherPayload(typeName) => Err(UnsupportedPayload(typeName))
  }

  /**
   * The outcome of `request`: the substituted URL, the outgoing request,
   * the server's reply and the time between the clock readings `sent` and
   * `received` taken around the round trip.
   */
  function Exchange(url: string, httpMethod: string, payload: Payload, urlOrder: seq<string>, payloadOrder: seq<string>,
                    bag: map<string, string>, marshal: map<string, Json.Json> -> Option<string>,
                    server: HttpRequest -> Option<Response>, sent: int, received: int): Result<Timed, Fatal>
    requires forall k :: k in urlOrder ==> k in bag
    requires forall k :: k in payloadOrder ==> k in bag
  {
    match Outgoing(Bag.Substitute(url, urlOrder, bag, false), httpMethod, payload, payloadOrder, bag, marshal)
    case Err(f) => Err(f)
    case Ok(req) =>
      (match server(req)
       case None => Err(RequestFailed)
       case Some(resp) => Ok(Timed(resp, received - sent)))
  }

  /**
   * The header goes with the body: a request carries `Content-Type:
   * application/json` exactly when it carries a body, and it carries a body
   * exactly when the test case has a payload.
   */
  lemma OutgoingBodyAndHeader(url: string, httpMethod: string, payload: Payload, order: seq<string>,
                              bag: map<string, string>, marshal: map<string, Json.Json> -> Option<string>)
    requires forall k :: k in order ==> k in bag
    requires Outgoing(url, httpMethod, payload, order, bag, marshal).Ok?
    ensures var req := Outgoing(url, httpMethod, payload, order, bag, marshal).value;
      && req.url == url && req.httpMethod == httpMethod
      && (req.body.Some? <==> !payload.NoPayload?)
      && (req.contentType.Some? <==> req.body.Some?)
      && (req.contentType.Some? ==> req.contentType.value == JsonContentType)
  {
  }

  /** The request stops before anything is sent exactly for a payload of another type or an unserialisable map. */
  lemma OutgoingFailsIff(url: string, httpMethod: string, payload: Payload, order: seq<string>,
                         bag: map<string, string>, marshal: map<string, Json.Json> -> Option<string>)
    requires forall k :: k in order ==> k in bag
    ensures Outgoing(url, httpMethod, payload, order, bag, marshal).Err?
        <==> payload.OtherPayload? || (payload.JsonPayload? && marshal(payload.fields).None?)
  {
  }

  /**
   * With a single captured value, every `:key` in a string payload is
   * replaced by that value, literally, and the rest of the payload is kept.
   */
  lemma OutgoingFillsPayload(url: string, httpMethod: string, text: string, key: string, value: string,
                             marshal: map<string, Json.Json> -> Option<string>)
    ensures var r := Outgoing(url, httpMethod, RawPayload(text), [key], map[key := value], marshal);
      r.Ok? && r.value.body == Some(Text.Join(Text.Split(text, Bag.Placeholder(key)), value))
  {
    Bag.SubstituteSingleEntry(text, key, value, false);
  }

  /** The status part of a verdict: a mismatch is reported first, whatever else happens. */
  function RegexVerdict(resp: Response, expectedStatus: int, pattern: string, substituted: string, m: RegexResult): Report {
    var early := StatusFailures(expectedStatus, resp.status) + (if pattern == "" then [PatternMissing] else []);
    match m
    case InvalidRegex => Report(early, Some(InvalidPattern(substituted)))
    case NoMatch => Report(early + [PatternNotMatched(Text.TrimSpace(resp.body), substituted)], None)
    case Matched(_, _) => Report(early, None)
  }

  /** A pattern check passes exactly when the status is right, a pattern was given and it matched. */
  lemma RegexVerdictPassesIff(resp: Response, expectedStatus: int, pattern: string, substituted: string, m: RegexResult)
    ensures Passed(RegexVerdict(resp, expectedStatus, pattern, substituted, m))
        <==> resp.status == expectedStatus && pattern != "" && m.Matched?
  {
  }

  /**
   * `expect`: the status is compared, then the body as the expected value's
   * type says: a string against the trimmed body text, a map against the
   * decoded body with `equalJSON`; any other type, or a body that does not
   * decode, stops the test.
   */
  function Expect(resp: Response, expectedStatus: int, expected: ExpectedBody,
                  decode: string -> Option<map<string, Json.Json>>): (r: Report)
    ensures resp.status != expectedStatus <==> r.failures != [] && r.failures[0] == StatusMismatch(expectedStatus, resp.status)
    ensures r.fatal.Some? <==> expected.OtherBody? || (expected.JsonBody? && decode(resp.body).None?)
  {
    var status := StatusFailures(expectedStatus, resp.status);
    match expected
    case NoBody => Report(status, None)
    case TextBody(want) =>
      var got := Text.TrimSpace(resp.body);
      Report(status + (if got != want then [BodyMismatch(want, got)] else []), None)
    case JsonBody(want) =>
      (match decode(resp.body)
       case None => Report(status, Some(UnmarshalFailed))
       case Some(got) => Report(status + (if Json.EqualJson(got, want) then [] else [JsonMismatch(want, got)]), None))
    case OtherBody(typeName) => Report(status, Some(UnsupportedExpectedBody(typeName)))
  }

  /** Without an expected body only the status is checked. */
  lemma ExpectNoBodyPassesIff(resp: Response, expectedStatus: int, decode: string -> Option<map<string, Json.Json>>)
    ensures Passed(Expect(resp, expectedStatus, NoBody, decode)) <==> resp.status == expectedStatus
  {
  }

  /**
   * A string expectation ignores white space around the body: it passes
   * exactly when the status is right and the body is the expected text with
   * only white space before and after it. The text itself must not start or
   * end with white space, since it is compared with the trimmed body: such a
   * text never passes, whatever the reply.
   */
  lemma ExpectTextPassesIff(resp: Response, expectedStatus: int, want: string,
                            decode: string -> Option<map<string, Json.Json>>)
    ensures Passed(Expect(resp, expectedStatus, TextBody(want), decode))
            <==> resp.status == expectedStatus && Text.Trimmed(want)
                 && exists i :: Text.SurroundedBySpace(resp.body, want, i)
  {
    if Passed(Expect(resp, expectedStatus, TextBody(want), decode)) {
      Text.TrimSpaceShape(resp.body);
    }
    if resp.status == expectedStatus && Text.Trimmed(want) && exists i :: Text.SurroundedBySpace(resp.body, want, i) {
      var i :| Text.SurroundedBySpace(resp.body, want, i);
      var w1, w2 := resp.body[..i], resp.body[i + |want|..];
      assert resp.body == w1 + want + w2;
      Text.TrimSpacePadded(w1, want, w2);
    }
  }

  /**
   * A map expectation passes exactly when the status is right and the
   * decoded body has the expected keys with values `equalJSON` accepts.
   */
  lemma ExpectJsonPassesIff(resp: Response, expectedStatus: int, want: map<string, Json.Json>,
                            decode: string -> Option<map<string, Json.Json>>)
    requires decode(resp.body).Some?
    ensures var got := decode(resp.body).value;
      (Passed(Expect(resp, expectedStatus, JsonBody(want), decode))
       <==> resp.status == expectedStatus && got.Keys == want.Keys
            && forall k :: k in got ==> Json.ValueEqual(got[k], want[k]))
  {
    Json.EqualJsonSameKeys(decode(resp.body).value, want);
  }

  /** A reply whose body decodes to the expected map passes, whatever the key order on the wire. */
  lemma ExpectJsonOwnBody(resp: Response, want: map<string, Json.Json>, decode: string -> Option<map<string, Json.Json>>)
    requires decode(resp.body) == Some(want)
    ensures Passed(Expect(resp, resp.status, JsonBody(want), decode))
  {
    Json.EqualJsonReflexive(want);
  }

  /** One iteration order for each of the three `range app.bag` loops of a test. */
  datatype Orders = Orders(url: seq<string>, payload: seq<string>, pattern: seq<string>)

  /** The collaborators of one test: serialiser, server, regex engine, deserialiser and clock. */
  datatype World = World(
    marshal: map<string, Json.Json> -> Option<string>,
    server: HttpRequest -> Option<Response>,
    find: (string, string) -> RegexResult,
    decode: string -> Option<map<string, Json.Json>>,
    sent: int,
    received: int)

  /** The clock readings are real instants and the engine lists one text per group. */
  ghost predicate Sane(w: World) {
    w.received != Stopwatch.ZeroTime && forall p, b :: WellFormed(w.find(p, b))
  }

  class WebTest {
    const port: string
    const baseURL: string
    var bag: map<string, string>

    /** `NewWebTest`: the service is addressed on localhost at `port`, and the bag starts empty. */
    constructor (port: string)
      ensures this.port == port
      ensures baseURL == "http://localhost:" + port + "/"
      ensures bag == map[]
    {
      this.port := port;
      baseURL := "http://localhost:" + port + "/";
      bag := map[];
    }

    /**
     * `replaceBagValue`: the bag entries are applied to `target` one after
     * the other in the iteration order `order`.
     */
    method ReplaceBagValue(target: string, isRegex: bool, order: seq<string>) returns (r: string)
      requires GoMaps.IsKeyOrder(order, bag)
      ensures r == Bag.Substitute(target, order, bag, isRegex)
    {
      r := target;
      for i := 0 to |order|
        invariant r == Bag.Substitute(target, order[..i], bag, isRegex)
      {
        assert order[..i + 1][..i] == order[..i];
        var key := order[i];
        var value := bag[key];
        var placeholder := [':'] + key;
        if Text.Contains(r, placeholder) {
          if isRegex {
            var escaped := Bag.RegexEscape(value);
            r := Text.ReplaceAll(r, placeholder, escaped);
            continue;
          }
          r := Text.ReplaceAll(r, placeholder, value);
        }
      }
      assert order[..|order|] == order;
    }

    /**
     * `request`: the URL and the payload are filled in from the bag, the
     * request is sent, and a stopwatch started at `sent` and stopped at
     * `received` times the round trip.
     */
    method Request(url: string, httpMethod: string, payload: Payload, urlOrder: seq<string>, payloadOrder: seq<string>,
                   marshal: map<string, Json.Json> -> Option<string>, server: HttpRequest -> Option<Response>,
                   sent: int, received: int)
      returns (r: Result<Timed, Fatal>)
      requires GoMaps.IsKeyOrder(urlOrder, bag) && GoMaps.IsKeyOrder(payloadOrder, bag)
      requires received != Stopwatch.ZeroTime
      ensures r == Exchange(url, httpMethod, payload, urlOrder, payloadOrder, bag, marshal, server, sent, received)
    {
      var u := ReplaceBagValue(url, false, urlOrder);
      var req: HttpRequest;
      match payload {
        case NoPayload =>
          req := HttpRequest(httpMethod, u, None, None);
        case RawPayload(t) =>
          var body := ReplaceBagValue(t, false, payloadOrder);
          req := HttpRequest(httpMethod, u, Some(body), Some(JsonContentType));
        case JsonPayload(fields) =>
          var encoded := marshal(fields);
          if encoded.None? {
            return Err(MarshalFailed);
          }
          var body := ReplaceBagValue(encoded.value, false, payloadOrder);
          req := HttpRequest(httpMethod, u, Some(body), Some(JsonContentType));
        case OtherPayload(typeName) =>
          return Err(UnsupportedPayload(typeName));
      }
      var sw := new Stopwatch.Stopwatch();
      sw.Start(sent);
      var reply := server(req);
      sw.Stop(received);
      if reply.None? {
        return Err(RequestFailed);
      }
      var elapsed := sw.Elapsed(received);
      r := Ok(Timed(reply.value, elapsed));
    }

    /**
     * `expectRegex`: the status and the pattern are checked, the bag is
     * spliced into the pattern in regex mode, and the pattern is matched
     * against the trimmed body. On a match every named group other than
     * group 0 is written into the bag; otherwise the bag is unchanged.
     */
    method ExpectRegex(resp: Response, expectedStatus: int, pattern: string, order: seq<string>,
                       find: (string, string) -> RegexResult)
      returns (report: Report)
      modifies this
      requires GoMaps.IsKeyOrder(order, bag)
      requires forall p, b :: WellFormed(find(p, b))
      ensures var p := Bag.Substitute(pattern, order, old(bag), true);
        var m := find(p, Text.TrimSpace(resp.body));
        && WellFormed(m)
        && report == RegexVerdict(resp, expectedStatus, pattern, p, m)
        && bag == (if m.Matched? then Bag.Capture(old(bag), m.names, m.groups, |m.names|) else old(bag))
      ensures Bag.ColonFree(old(bag)) ==> Bag.ColonFree(bag)
    {
      var early := StatusFailures(expectedStatus, resp.status);
      if pattern == "" {
        early := early + [PatternMissing];
      }
      assert early == StatusFailures(expectedStatus, resp.status) + (if pattern == "" then [PatternMissing] else []);
      var bodyString := Text.TrimSpace(resp.body);
      var p := ReplaceBagValue(pattern, true, order);
      assert p == Bag.Substitute(pattern, order, old(bag), true);
      var m := find(p, bodyString);
      assert WellFormed(m);
      match m {
        case InvalidRegex =>
          return Report(early, Some(InvalidPattern(p)));
        case NoMatch =>
          return Report(early + [PatternNotMatched(bodyString, p)], None);
        case Matched(names, groups) =>
          CaptureGroups(names, groups);
          return Report(early, None);
      }
    }

    /** The loop over `SubexpNames`: each named group after group 0 overwrites its bag entry. */
    method CaptureGroups(names: seq<string>, groups: seq<string>)
      modifies this
      requires |names| == |groups|
      requires forall i :: 0 <= i < |names| ==> ':' !in names[i]
      ensures bag == Bag.Capture(old(bag), names, groups, |names|)
      ensures Bag.ColonFree(old(bag)) ==> Bag.ColonFree(bag)
    {
      for i := 0 to |names|
        invariant bag == Bag.Capture(old(bag), names, groups, i)
        invariant Bag.ColonFree(old(bag)) ==> Bag.ColonFree(bag)
      {
        if i != 0 && names[i] != "" {
          bag := bag[names[i] := groups[i]];
        }
      }
    }

    /**
     * `RunTest`: the request goes to the base URL followed by the path; the
     * reply is checked against the pattern when one is given and against
     * the expected body otherwise. The elapsed time is returned when the
     * test was not stopped.
     */
    method RunTest(tc: TestCase, orders: Orders, world: World) returns (report: Report, elapsed: Option<int>)
      modifies this
      requires Sane(world)
      requires GoMaps.IsKeyOrder(orders.url, bag) && GoMaps.IsKeyOrder(orders.payload, bag) && GoMaps.IsKeyOrder(orders.pattern, bag)
      ensures var ex := Exchange(Target(baseURL, tc.path), tc.httpMethod, tc.payload, orders.url, orders.payload,
                                 old(bag), world.marshal, world.server, world.sent, world.received);
        && (ex.Err? ==> report == Report([], Some(ex.error)) && bag == old(bag))
        && (ex.Ok? && tc.expectedBodyPattern == "" ==>
              report == Expect(ex.value.response, tc.expectedCode, tc.expectedBody, world.decode) && bag == old(bag))
        && (ex.Ok? && tc.expectedBodyPattern != "" ==>
              var p := Bag.Substitute(tc.expectedBodyPattern, orders.pattern, old(bag), true);
              var m := world.find(p, Text.TrimSpace(ex.value.response.body));
              && WellFormed(m)
              && report == RegexVerdict(ex.value.response, tc.expectedCode, tc.expectedBodyPattern, p, m)
              && bag == (if m.Matched? then Bag.Capture(old(bag), m.names, m.groups, |m.names|) else old(bag)))
        && elapsed == (if ex.Ok? && report.fatal.None? then Some(ex.value.elapsed) else None)
      ensures Bag.ColonFree(old(bag)) ==> Bag.ColonFree(bag)
    {
      var url := baseURL + Text.TrimPrefix(tc.path, "/");
      var resp := Request(url, tc.httpMethod, tc.payload, orders.url, orders.payload,
                          world.marshal, world.server, world.sent, world.received);
      if resp.Err? {
        return Report([], Some(resp.error)), None;
      }
      if tc.expectedBodyPattern != "" {
        report := ExpectRegex(resp.value.response, tc.expectedCode, tc.expectedBodyPattern, orders.pattern, world.find);
      } else {
        report := Expect(resp.value.response, tc.expectedCode, tc.expectedBody, world.decode);
      }
      elapsed := if report.fatal.None? then Some(resp.value.elapsed) else None;
    }
  }

  /**
   * On a fresh harness the bag is empty, so the first test's URL is the
   * base URL and path exactly as written, placeholders included.
   */
  method FirstRequestUnfilled(port: string, path: string, order: seq<string>) returns (u: string)
    requires GoMaps.IsKeyOrder<string>(order, map[])
    ensures u == "http://localhost:" + port + "/" + Text.TrimPrefix(path, "/")
  {
    var app := new WebTest(port);
    u := app.ReplaceBagValue(Target(app.baseURL, path), false, order);
    Bag.SubstituteEmptyBag(Target(app.baseURL, path), order, false);
  }
}
