# go-app-test harness, modelled in Dafny

This project models the core of a Go integration-test harness in three parts:

- **`webtest`**: a `WebTest` value holds the base URL of a service under test and a *bag* of values captured from earlier responses.
  - `RunTest` builds the URL from the test case's path.
  - The bag is filled into the URL, the payload and the expected-body pattern by substituting every `:key` placeholder.
  - One HTTP round trip is sent and timed.
  - The reply is checked in one of two ways:
    - against a regular expression, whose named groups are captured back into the bag;
    - or against an expected body: none, a string compared after trimming white space, or a JSON object compared with `equalJSON`.
- **`docker`**: the compose helpers.
  - `notFound` decides which services a call selects.
  - The `docker compose up` and `down` argument lists.
  - `getServicePortsFromCompose` reduces the `docker inspect` bindings of each declared port to one host binding.
  - `fromCompose` assembles the `Container` map.
  - `waitForHealthy` waits a bounded number of rounds for a container to report `healthy`.
- **`stopwatch`**: `Start`, `Stop` and `Elapsed` over two instants.

Code that only computes a value is written as functions and lemmas. Code that changes state is written imperatively:

- `WebTest` is a class whose `bag` field is updated by `ExpectRegex` and `CaptureGroups`.
- `Stopwatch` is a class with `start` and `end` fields.
- `GetServicePorts` fills an `array` slot by slot.
- Each loop of the source that updates state is a `for` or `while` loop, proved against a specification function:
  - `ReplaceBagValue` against `Bag.Substitute`;
  - `GetServicePorts` against `ResolvePorts`;
  - `FromCompose` against `Containers`;
  - `WaitForHealthy` against `HealthyWithin`;
  - `CaptureGroups` against `Bag.Capture`.
- Two loops only compute a truth value and are written as pure definitions:
  - `notFound`'s scan is the recursive function `Docker.Absent`;
  - `equalJSON`'s loop over the keys is the quantifier in `Json.EqualJson`.

Everything the harness calls but does not implement is an input. These are:

- `json.Marshal` and `json.Unmarshal`;
- the HTTP round trip;
- the regular-expression engine, which reports either a compile error, no match, or the group names and matched texts;
- the clock readings before and after the round trip;
- whether the compose file exists;
- the outcome of `docker compose`;
- the parsed compose file;
- what `docker inspect` printed for each port;
- the health status printed at each attempt.

Go's map iteration order is unspecified, so each `range` over a map takes an explicit order. `GoMaps.IsKeyOrder` requires that order to list every key exactly once. `Bag.SubstituteDependsOnOrder` shows that the result of the substitution can depend on that order.

Files:

- `wrappers.dfy`: `Option` and `Result`.
- `gomaps.dfy`: map iteration orders.
- `text.dfy`: `strings.Contains`, `ReplaceAll`, `TrimPrefix` and `TrimSpace`.
- `bag.dfy`: regex escaping, placeholder substitution and group capture.
- `json.dfy`: decoded JSON, its `%v` rendering, and `equalJSON`.
- `stopwatch.dfy`, `webtest.dfy` and `docker_compose.dfy`: the three packages.

## Model

| member | source | states |
|---|---|---|
| Text.Contains | webtest/webtest.go:66 | `strings.Contains`: some suffix of the text starts with the placeholder |
| Text.ContainsIffOccurs | webtest/webtest.go:66 | `strings.Contains` holds exactly when the placeholder occurs at some index of the text |
| Text.ReplaceAll | webtest/webtest.go:69-73 | `strings.ReplaceAll` for a non-empty pattern: scanning left to right, each occurrence becomes the replacement and the scan resumes after it; every other character is copied |
| Text.ReplaceAllAbsent | webtest/webtest.go:66-73 | replacing in text that does not contain the pattern leaves it unchanged |
| Text.SplitJoin | webtest/webtest.go:69-73 | splitting at the pattern and joining with it again gives back the original text |
| Text.SplitPiecesFree | webtest/webtest.go:69-73 | no piece of the split contains the pattern |
| Text.ReplaceAllJoin | webtest/webtest.go:69-73 | text made of pattern-free pieces joined by a non-self-overlapping pattern becomes the same pieces joined by the replacement |
| Text.ReplaceAllIsSplitJoin | webtest/webtest.go:69-73 | for every non-empty pattern, `strings.ReplaceAll` is cutting the text at the occurrences a left-to-right scan finds and joining the pieces with the replacement; with `SplitJoin` and `SplitPiecesFree`, the text between them is kept and holds no occurrence |
| Text.ReplaceAllSelf | webtest/webtest.go:69-73 | replacing a pattern by itself changes nothing |
| Text.TrimPrefix | webtest/webtest.go:50 | with the prefix present, the prefix followed by the result is the input; otherwise the input comes back unchanged |
| Text.TrimLeftStripsSpace | webtest/webtest.go:158 | trimming the left keeps a suffix and removes only white space |
| Text.TrimRightStripsSpace | webtest/webtest.go:158 | trimming the right keeps a prefix and removes only white space |
| Text.TrimSpace | webtest/webtest.go:158 | the result neither starts nor ends with white space |
| Text.TrimSpaceShape | webtest/webtest.go:158 | the input is the result with only white space before and after it |
| Text.TrimSpacePadded | webtest/webtest.go:194-195 | white space around a trimmed core trims to exactly that core |
| GoMaps.KeyOrderLength | webtest/webtest.go:64 | an iteration order of a map visits as many keys as the map has entries |
| Bag.RegexEscape | webtest/webtest.go:60-68 | escaping adds exactly one character per metacharacter |
| Bag.UnescapeEscape | webtest/webtest.go:60-68 | dropping the added backslashes restores the bag value |
| Bag.EscapeQuotes | webtest/webtest.go:60-68 | every metacharacter of the escaped value stands behind a backslash, and no other character does |
| Bag.EscapeUnescape | webtest/webtest.go:60-68 | every fully quoted text is the escaping of exactly one value |
| Bag.Placeholder | webtest/webtest.go:65 | for a key without `:`, as every capture-group name is, two occurrences of the placeholder cannot overlap |
| Bag.SubstituteKey | webtest/webtest.go:65-73 | one round of the loop: when the text contains `:key`, every occurrence becomes the value, escaped in regex mode; otherwise the text is kept |
| Bag.Substitute | webtest/webtest.go:63-77 | the rounds for the keys in the map's iteration order, each applied to the text the previous round left |
| Bag.SubstituteKeyIsReplaceAll | webtest/webtest.go:66-73 | the `strings.Contains` guard is redundant: the round is one `ReplaceAll` |
| Bag.SubstituteKeySplitJoin | webtest/webtest.go:64-74 | one round cuts the text at the occurrences of `:key` and joins the pieces with the value, escaped in regex mode |
| Bag.SubstituteKeyReplacesEveryOccurrence | webtest/webtest.go:64-74 | for a key without `:`, however the text is written as placeholder-free pieces joined by `:key`, one round turns every joint into the value, escaped in regex mode, and keeps the pieces |
| Bag.SubstituteEmptyBag | webtest/webtest.go:63-77 | an empty bag leaves the text unchanged |
| Bag.SubstituteNoPlaceholder | webtest/webtest.go:63-77 | text without any bag placeholder is unchanged |
| Bag.SubstituteSingleEntry | webtest/webtest.go:63-77 | with a one-entry bag the substitution is split-at-placeholder and join-with-value |
| Bag.SubstituteDependsOnOrder | webtest/webtest.go:64 | `:idx` with keys `id` and `idx` becomes `1x` or `2` depending on the map's iteration order |
| Bag.Capture | webtest/webtest.go:168-172 | the bag after the loop over the first `n` groups: each named group other than group 0 writes its matched text under its name, a later group overwriting an earlier one of the same name |
| Bag.CaptureKeys | webtest/webtest.go:168-172 | after capture the bag's keys are its old keys plus the names of the named groups other than group 0 |
| Bag.CaptureWritten | webtest/webtest.go:168-172 | a named group gets the text of the last group with that name |
| Bag.CaptureUntouched | webtest/webtest.go:168-172 | a key that names no group keeps its old value |
| Json.Render | webtest/webtest.go:236 | `%v` of a decoded value: a string as it is, a number by its text, `true`/`false`, `<nil>`, an array as `[a b]`, an object as `map[k:v k:v]` with its keys in ascending order |
| Json.SortedKeys | webtest/webtest.go:236 | the keys `%v` prints for a map: each key once, in ascending byte order |
| Json.EqualJson | webtest/webtest.go:217-242 | `equalJSON`: the maps have the same size and every key of the left one is in the right one with a value `ValueEqual` accepts |
| Json.ValueEqual | webtest/webtest.go:226-238 | an object on the left needs an object on the right that `equalJSON` accepts; any other left value needs a right value with the same `%v` text |
| Json.EqualJsonSameKeys | webtest/webtest.go:217-242 | `equalJSON` holds exactly when both maps have the same keys and pairwise equal values |
| Json.EqualJsonReflexive | webtest/webtest.go:217-242 | every decoded object equals itself |
| Json.NumberEqualsItsText | webtest/webtest.go:235-238 | leaves compare by their `%v` text, so every number equals the string of its text, on either side |
| Json.EqualJsonNotSymmetric | webtest/webtest.go:226-238 | a string reading `map[]` equals an empty object on the right, but not the other way round |
| Stopwatch.Stopwatch.constructor | stopwatch/sopwatch.go:6-9 | a new watch has both instants at Go's zero time |
| Stopwatch.Stopwatch.Start | stopwatch/sopwatch.go:12-15 | start is now and any earlier stop is forgotten |
| Stopwatch.Stopwatch.Stop | stopwatch/sopwatch.go:18-20 | end is now and start is kept |
| Stopwatch.Stopwatch.Elapsed | stopwatch/sopwatch.go:23-28 | `end - start` once stopped, `now - start` while running |
| Stopwatch.StopFreezes | stopwatch/sopwatch.go:18-28 | a stopped watch reads the same span at any later time |
| Stopwatch.RestartDiscardsStop | stopwatch/sopwatch.go:12-28 | starting again after a stop measures from the new start |
| Webtest.StatusFailures | webtest/webtest.go:136-138 | a status complaint is reported exactly when the status differs from the expected one |
| Webtest.Target | webtest/webtest.go:50 | the base URL followed by the path with one leading `/` removed |
| Webtest.TargetLeadingSlash | webtest/webtest.go:50 | a path with or without one leading `/` addresses the same URL |
| Webtest.Outgoing | webtest/webtest.go:85-120 | the request for an already substituted URL: no payload gives no body; a string payload is substituted; a map is marshalled, then substituted, or stops the test when it does not marshal; any other payload type stops the test; a body comes with the JSON content type |
| Webtest.Exchange | webtest/webtest.go:80-133 | `request`: the URL is substituted, the request is built, and the server's reply comes back with the time between the two clock readings; a failed build or a failed round trip stops the test |
| Webtest.OutgoingBodyAndHeader | webtest/webtest.go:85-120 | the request keeps URL and method, carries a body exactly when there is a payload, and sets `Content-Type: application/json` exactly when it carries a body |
| Webtest.OutgoingFailsIff | webtest/webtest.go:88-99 | building the request fails exactly for a payload of another type or a map that does not marshal |
| Webtest.OutgoingFillsPayload | webtest/webtest.go:89-90 | with a one-entry bag, a string payload is sent with every `:key` replaced by the value, unescaped, and the rest kept |
| Webtest.RegexVerdict | webtest/webtest.go:135-166 | the report of the pattern check: a status complaint, a complaint for an empty pattern, then a fatal error for a pattern that does not compile or a complaint with the trimmed body when it does not match |
| Webtest.RegexVerdictPassesIff | webtest/webtest.go:135-166 | the regex check passes exactly when the status is as expected, the pattern is not empty and it matches |
| Webtest.Expect | webtest/webtest.go:175-215 | the first failure is a status mismatch exactly when the status differs; the test is stopped exactly when the expected body has an unsupported type or is a map and the body does not decode |
| Webtest.ExpectNoBodyPassesIff | webtest/webtest.go:175-180 | with no expected body only the status is checked |
| Webtest.ExpectTextPassesIff | webtest/webtest.go:188-197 | a string expectation passes exactly when the status matches and the body is the expected text with only white space around it; an expected text that starts or ends with white space never passes, since it is compared with the trimmed body |
| Webtest.ExpectJsonPassesIff | webtest/webtest.go:198-210 | a decodable body passes exactly when the status matches and the decoded object has the expected keys with `equalJSON`-equal values |
| Webtest.ExpectJsonOwnBody | webtest/webtest.go:198-210 | a body that decodes to the expected object passes with its own status |
| Webtest.WebTest.constructor | webtest/webtest.go:38-47 | the base URL is `http://localhost:<port>/` and the bag starts empty |
| Webtest.WebTest.ReplaceBagValue | webtest/webtest.go:63-78 | the loop computes the substitution of the bag in the given iteration order |
| Webtest.WebTest.Request | webtest/webtest.go:80-133 | the result is the request built from the substituted URL and payload, sent to the server, timed between the two clock readings, or the fatal error that stops it |
| Webtest.WebTest.ExpectRegex | webtest/webtest.go:135-173 | the pattern is substituted in regex mode from the old bag and matched against the trimmed body; the verdict is reported, and on a match the named groups are captured into the bag, otherwise the bag is unchanged; bag keys stay free of `:` |
| Webtest.WebTest.CaptureGroups | webtest/webtest.go:168-172 | the bag becomes the capture of the named groups over the old bag; bag keys stay free of `:` |
| Webtest.WebTest.RunTest | webtest/webtest.go:49-58 | a failed request is the whole report; otherwise the body is checked by pattern or by expected body; only the pattern check touches the bag; the elapsed time is returned when the test was not stopped; bag keys stay free of `:` |
| Webtest.FirstRequestUnfilled | webtest/webtest.go:43-50 | with an empty bag the URL is base URL plus path, leading `/` removed |
| Docker.Absent | docker/docker_compose.go:173-177 | the scan finds no element equal to the item |
| Docker.NotFound | docker/docker_compose.go:168-180 | a service is skipped exactly when the selection is non-empty and does not name it |
| Docker.UpArgs | docker/docker_compose.go:78-81 | `-f file up -d` followed by the selected services |
| Docker.DownArgs | docker/docker_compose.go:113-116 | `-f file down` followed by the selected services |
| Docker.DockerCommand | docker/docker_compose.go:84 | the command line is `docker`, `compose`, then the arguments, for `up` here and for `down` at line 119 |
| Docker.UpDownSameServices | docker/docker_compose.go:78-116 | up and down name the same file and the same services |
| Docker.ToLower | docker/docker_compose.go:190 | same length, each character lowered |
| Docker.InspectKey | docker/docker_compose.go:190 | the `port/protocol` key the inspect template looks up, with the protocol in lower case |
| Docker.Reduce | docker/docker_compose.go:211-228 | the slot holds the zero mapping or one of the entries, never a `::` one |
| Docker.ReduceAllWildcard | docker/docker_compose.go:211-228 | if every entry is `::` the slot keeps the zero mapping |
| Docker.ReduceLastSurvivor | docker/docker_compose.go:211-228 | the slot holds the last entry that is not `::` |
| Docker.EmptyHostIPKept | docker/docker_compose.go:214-226 | when the last entry not bound to `::` has an empty host IP, the slot keeps the empty host IP and that entry's host port: the `localhost` write is overwritten |
| Docker.Slot | docker/docker_compose.go:188-228 | one declared port: a failed inspect names the service, a decode failure is reported, an empty entry list names the service, otherwise the reduced entries |
| Docker.ResolvePorts | docker/docker_compose.go:185-232 | on success there is one mapping per declared port |
| Docker.ResolvePortsSticky | docker/docker_compose.go:195-209 | an error on one port is returned whatever the later ports hold |
| Docker.ResolvePortsOk | docker/docker_compose.go:185-232 | resolution succeeds exactly when every port's slot does, and then each mapping is that slot's |
| Docker.ResolvePortsFirstError | docker/docker_compose.go:188-209 | a failed resolution reports the error of the first failing port |
| Docker.NoEntriesNamesService | docker/docker_compose.go:207-209 | an empty inspect list, after good ports, fails with the service's name |
| Docker.FillSlot | docker/docker_compose.go:211-228 | slot `i` becomes the reduction of the entries and no other slot changes |
| Docker.GetServicePorts | docker/docker_compose.go:185-232 | the array loop returns exactly the resolution of the service's ports |
| Docker.HostPortsOf | docker/docker_compose.go:150-153 | the `hostPorts` map after the first `n` rounds: each declared container port mapped to its resolved host port, later rounds overwriting earlier ones |
| Docker.HostPortsKeys | docker/docker_compose.go:150-153 | `hostPorts` has exactly the declared container ports as keys |
| Docker.HostPortsLastWins | docker/docker_compose.go:150-153 | a container port maps to the host port of its last declaration |
| Docker.IsHealthy | docker/docker_compose.go:237-240 | a check is healthy when the command succeeded and its trimmed output is `healthy` |
| Docker.HealthyWithin | docker/docker_compose.go:236-244 | one of the first `limit` checks is healthy |
| Docker.HealthyWithinWitness | docker/docker_compose.go:236-244 | a healthy verdict comes from one check below the bound |
| Docker.HealthyWithinFromWitness | docker/docker_compose.go:236-244 | any healthy check below the bound makes the verdict healthy |
| Docker.HealthyWithinGrows | docker/docker_compose.go:236 | healthy within a bound means healthy within every larger one |
| Docker.WaitForHealthy | docker/docker_compose.go:234-248 | the wait is healthy exactly when one of the first `timeout` checks is; it stops at the first healthy check, otherwise it runs all rounds and panics |
| Docker.RunningNeverHealthy | docker/docker_compose.go:236-247 | a container that prints `running` exhausts all 20 rounds |
| Docker.Step | docker/docker_compose.go:140-160 | one service of the loop: an unselected one is skipped; otherwise its ports are resolved or the error is returned with its name, and it is added with its `hostPorts` when it becomes healthy, or the run panics |
| Docker.Assemble | docker/docker_compose.go:139-163 | the loop over the services in iteration order, stopping at the first error or panic |
| Docker.Containers | docker/docker_compose.go:134-164 | `fromCompose`: a file that does not parse is an error naming it; otherwise the assembly of its services |
| Docker.AssembleSticky | docker/docker_compose.go:145-148 | once a service fails or panics, the later services change nothing |
| Docker.AssembleSelects | docker/docker_compose.go:139-163 | the map holds exactly the selected services, each under its own name, with resolved ports, its `hostPorts` and a healthy check |
| Docker.EmptySelectionStartsAll | docker/docker_compose.go:168-171 | with no service names every service of the file is in the map |
| Docker.AddService | docker/docker_compose.go:145-160 | one selected service's round: resolve ports, build `hostPorts`, record the container, wait for it |
| Docker.FromCompose | docker/docker_compose.go:134-164 | the loop returns the parse error or the assembly of the services in iteration order |
| Docker.ComposeUp | docker/docker_compose.go:62-97 | a missing file runs nothing; otherwise `docker compose up` is built, its failure is reported with trimmed output, and assembly errors are wrapped |
| Docker.ComposeDown | docker/docker_compose.go:101-128 | `docker compose down` is built and fails exactly when the command does, with trimmed output |

## Left out

- The process-wide mutex and the inter-process file lock around `ComposeUp` and `ComposeDown`, and their error paths (docker/file_lock.go is not part of this model). The `startupCount` counter is left out too.
- The logging (`t.Logf`, `fmt.Printf`) and the sleeps: three seconds after `down`, one second between health checks. Time only passes through the clock readings.
- The HTTP client, including its 30-second timeout. The round trip is a function from request to an optional response.
- Read and close errors on response bodies, and the nil-body check of `expectRegex`. The body is a string that is always there.
- The error of `http.NewRequest`, which the source reports and then runs into a nil request.
- Regular-expression compilation and matching. These are the `find` input; the `MustCompile` panic is the `InvalidPattern` fatal error.
- `json.Marshal`, `json.Unmarshal` and the parsing of `docker inspect` output. These are inputs.
- Json.Render: Go's `%v` formatting of floats is not modelled. A decoded number carries the text `%v` prints for it.
- `ParseDockerComposeFile` (YAML parsing, docker/yamlparser.go). The parsed file, or its absence, is an input.
- `os.Stat` is reduced to whether the file exists.
- `GetRandomOpenPort` and `RandomName`: they depend on the network and the clock.
- Dafny strings are sequences of Unicode code points while Go strings are bytes. `Contains`, `ReplaceAll`, `TrimSpace` and the key order of `Json.Below` agree with Go only on valid UTF-8 text.
- Docker.ToLower: only ASCII letters are lowered. The protocol names `tcp`/`udp` are ASCII; Unicode case mapping is not modelled.
- Text.ReplaceAll: requires a non-empty pattern. Go's `ReplaceAll` with an empty pattern is not modelled; bag placeholders always start with `:`.
- Stopwatch.Stopwatch.Elapsed: the duration is the difference of two integer instants. Go's monotonic clock reading and the `time.Duration` range are not modelled.
- Docker.AddService: the container is added to the map after the health wait rather than before it. When the wait fails, the panic discards the map, so the order cannot be observed.
- `waitForHealthy`'s panic is the `Panicked` result rather than an unwinding of the call stack.
- The services under test, the REST handlers and the database layer are outside this model.
