/**
 * The compose helpers of `docker/docker_compose.go`: which services a call
 * selects, the argument lists handed to `docker compose up` and `down`, the
 * reduction of `docker inspect` port bindings to one host port per declared
 * container port, the assembly of the `Container` map, and the bounded wait
 * for a container to report itself healthy.
 *
 * Every external command is an input: whether the compose file exists, what
 * `docker compose` reported, the parsed compose file, what `docker inspect`
 * printed for a port, and the health status printed at each attempt.
 */
module Docker {
  import opened Wrappers
  import Text
  import GoMaps

  /** One entry under a service's `ports:`: the container port (`target`) and its protocol. */
  datatype PortSpec = PortSpec(port: string, protocol: string)

  datatype Service = Service(ports: seq<PortSpec>)

  datatype ComposeFile = ComposeFile(services: map<string, Service>)

  /** A started service: its name and the host port bound to each declared container port. */
  datatype Container = Container(name: string, hostPorts: map<string, string>)

  /** One binding as `docker inspect` prints it: host address and host port. */
  datatype PortMapping = PortMapping(hostIP: string, hostPort: string)

  /** The zero value of `portMapping`, which every slot holds before its entries are read. */
  const ZeroMapping: PortMapping := PortMapping("", "")

  /** The host address docker reports for an IPv6 wildcard binding; such entries are skipped. */
  const IPv6Wildcard: string := "::"

  /** What `docker inspect` gave for one port: the command failed, its output was not JSON, or the entries. */
  datatype Inspect = InspectFailed | DecodeFailed | Entries(docs: seq<PortMapping>)

  /** The outcome of an external command: whether it exited successfully, and what it printed. */
  datatype CommandResult = CommandResult(succeeded: bool, output: string)

  /** Why the ports of one service could not be resolved. */
  datatype PortError = InspectError(service: string) | DecodeError | NoPortMappings(service: string)

  datatype ComposeError =
    | FileNotFound(file: string)
    | StartFailed(file: string, output: string)
    | StopFailed(file: string, output: string)
    | ParseFailed(file: string)
    | PortsFailed(service: string, portError: PortError)
    | ContainersFailed(inner: ComposeError)

  /**
   * The containers started, an error returned, or the panic raised when
   * `container` did not become healthy in time.
   */
  datatype UpResult = Up(containers: map<string, Container>) | Failed(error: ComposeError) | Panicked(container: string)

  /** `int(timeout.Seconds())` for the 20-second timeout `fromCompose` passes to `waitForHealthy`. */
  const HealthTimeoutSeconds: int := 20

  /** The scan of `notFound`'s loop: `item` equals no element of `slice`. */
  function Absent(slice: seq<string>, item: string): (r: bool)
    ensures r <==> item !in slice
  {
    if slice == [] then true
    else
      assert slice == [slice[0]] + slice[1..];
      slice[0] != item && Absent(slice[1..], item)
  }

  /**
   * `notFound`: an empty selection excludes nothing; otherwise a service is
   * excluded exactly when it is not among the selected names.
   */
  function NotFound(slice: seq<string>, item: string): (r: bool)
    ensures r <==> slice != [] && item !in slice
  {
    if |slice| == 0 then false else Absent(slice, item)
  }

  /** The arguments of `docker compose up`: the file, detached mode, then the service names in order. */
  function UpArgs(composeFile: string, serviceNames: seq<string>): (r: seq<string>)
    ensures |r| == 4 + |serviceNames|
    ensures r[..4] == ["-f", composeFile, "up", "-d"] && r[4..] == serviceNames
  {
    var args := ["-f", composeFile, "up", "-d"];
    if |serviceNames| > 0 then args + serviceNames else args
  }

  /** The arguments of `docker compose down`: the file, then the service names in order. */
  function DownArgs(composeFile: string, serviceNames: seq<string>): (r: seq<string>)
    ensures |r| == 3 + |serviceNames|
    ensures r[..3] == ["-f", composeFile, "down"] && r[3..] == serviceNames
  {
    var args := ["-f", composeFile, "down"];
    if |serviceNames| > 0 then args + serviceNames else args
  }

  /** The command line run for a compose action: `docker compose` followed by its arguments. */
  function DockerCommand(args: seq<string>): seq<string> {
    ["docker", "compose"] + args
  }

  /** `up` and `down` name the same file and the same services in the same order. */
  lemma UpDownSameServices(composeFile: string, serviceNames: seq<string>)
    ensures UpArgs(composeFile, serviceNames)[..2] == DownArgs(composeFile, serviceNames)[..2] == ["-f", composeFile]
    ensures UpArgs(composeFile, serviceNames)[4..] == DownArgs(composeFile, serviceNames)[3..] == serviceNames
  {
    assert UpArgs(composeFile, serviceNames)[..2] == UpArgs(composeFile, serviceNames)[..4][..2];
    assert DownArgs(composeFile, serviceNames)[..2] == DownArgs(composeFile, serviceNames)[..3][..2];
  }

  /** `strings.ToLower` on one character, for the ASCII letters. */
  function LowerChar(c: char): (r: char)
    ensures 'A' <= c <= 'Z' ==> 'a' <= r <= 'z' && r as int - c as int == 'a' as int - 'A' as int
    ensures !('A' <= c <= 'Z') ==> r == c
  {
    if 'A' <= c <= 'Z' then (c as int - 'A' as int + 'a' as int) as char else c
  }

  function ToLower(s: string): (r: string)
    ensures |r| == |s| && forall i :: 0 <= i < |s| ==> r[i] == LowerChar(s[i])
  {
    if s == [] then [] else [LowerChar(s[0])] + ToLower(s[1..])
  }

  /** The key `"<port>/<protocol>"` under which docker lists the bindings of a declared port. */
  function InspectKey(p: PortSpec): string {
    p.port + "/" + ToLower(p.protocol)
  }

  /**
   * The slot of one port after the loop over its inspect entries: the last
   * entry not bound to the IPv6 wildcard, copied as it is, or the zero
   * mapping when there is none.
   */
  function Reduce(docs: seq<PortMapping>): (m: PortMapping)
    ensures m == ZeroMapping || m in docs
    ensures m.hostIP != IPv6Wildcard
  {
    if docs == [] then ZeroMapping
    else
      var doc := docs[|docs| - 1];
      if doc.hostIP != IPv6Wildcard then PortMapping(doc.hostIP, doc.hostPort)
      else Reduce(docs[..|docs| - 1])
  }

  /** Only wildcard entries: the slot keeps the zero mapping, with an empty host port. */
  lemma {:induction false} ReduceAllWildcard(docs: seq<PortMapping>)
    requires forall i :: 0 <= i < |docs| ==> docs[i].hostIP == IPv6Wildcard
    ensures Reduce(docs) == ZeroMapping
  {
    if docs != [] {
      ReduceAllWildcard(docs[..|docs| - 1]);
    }
  }

  /** The last entry not bound to the wildcard wins, whatever came before it. */
  lemma {:induction false} ReduceLastSurvivor(docs: seq<PortMapping>, j: nat)
    requires j < |docs| && docs[j].hostIP != IPv6Wildcard
    requires forall i :: j < i < |docs| ==> docs[i].hostIP == IPv6Wildcard
    ensures Reduce(docs) == docs[j]
  {
    if j < |docs| - 1 {
      ReduceLastSurvivor(docs[..|docs| - 1], j);
    }
  }

  /**
   * An entry with an empty host address is stored with its empty address
   * when no later entry replaces it: the `"localhost"` written for it is
   * overwritten at once.
   */
  lemma {:induction false} EmptyHostIPKept(docs: seq<PortMapping>, j: nat)
    requires j < |docs| && docs[j].hostIP == ""
    requires forall i :: j < i < |docs| ==> docs[i].hostIP == IPv6Wildcard
    ensures Reduce(docs).hostIP == ""
    ensures Reduce(docs).hostPort == docs[j].hostPort
  {
    ReduceLastSurvivor(docs, j);
  }

  /** One declared port: the inspect failures, an empty entry list, or the reduced mapping. */
  function Slot(serviceName: string, port: PortSpec, inspect: (string, string) -> Inspect): Result<PortMapping, PortError> {
    match inspect(serviceName, InspectKey(port))
    case InspectFailed => Err(InspectError(serviceName))
    case DecodeFailed => Err(DecodeError)
    case Entries(docs) => if |docs| < 1 then Err(NoPortMappings(serviceName)) else Ok(Reduce(docs))
  }

  /**
   * `getServicePortsFromCompose` as a value: the ports are inspected in
   * declaration order and the first failure is returned.
   */
  function ResolvePorts(serviceName: string, ports: seq<PortSpec>, inspect: (string, string) -> Inspect): (r: Result<seq<PortMapping>, PortError>)
    ensures r.Ok? ==> |r.value| == |ports|
  {
    if ports == [] then Ok([])
    else
      match ResolvePorts(serviceName, ports[..|ports| - 1], inspect)
      case Err(e) => Err(e)
      case Ok(prev) =>
        match Slot(serviceName, ports[|ports| - 1], inspect)
        case Err(e) => Err(e)
        case Ok(m) => Ok(prev + [m])
  }

  /** Once a prefix of the ports has failed, the whole call fails with the same error. */
  lemma {:induction false} ResolvePortsSticky(serviceName: string, ports: seq<PortSpec>, n: nat, inspect: (string, string) -> Inspect)
    requires n <= |ports| && ResolvePorts(serviceName, ports[..n], inspect).Err?
    ensures ResolvePorts(serviceName, ports, inspect) == ResolvePorts(serviceName, ports[..n], inspect)
    decreases |ports|
  {
    if n < |ports| {
      var init := ports[..|ports| - 1];
      assert init[..n] == ports[..n];
      ResolvePortsSticky(serviceName, init, n, inspect);
    } else {
      assert ports[..n] == ports;
    }
  }

  /**
   * The call succeeds exactly when every declared port has at least one
   * inspect entry and inspecting it did not fail; it then holds one mapping
   * per port, in declaration order, each the reduction of that port's entries.
   */
  lemma {:induction false} ResolvePortsOk(serviceName: string, ports: seq<PortSpec>, inspect: (string, string) -> Inspect)
    ensures ResolvePorts(serviceName, ports, inspect).Ok?
        <==> forall i :: 0 <= i < |ports| ==> Slot(serviceName, ports[i], inspect).Ok?
    ensures ResolvePorts(serviceName, ports, inspect).Ok? ==>
      forall i :: 0 <= i < |ports| ==> ResolvePorts(serviceName, ports, inspect).value[i] == Slot(serviceName, ports[i], inspect).value
  {
    if ports != [] {
      var init := ports[..|ports| - 1];
      ResolvePortsOk(serviceName, init, inspect);
      assert forall i :: 0 <= i < |init| ==> init[i] == ports[i];
    }
  }

  /** Port `i` is the first declared port whose resolution fails. */
  predicate FirstFailing(serviceName: string, ports: seq<PortSpec>, inspect: (string, string) -> Inspect, i: int) {
    && 0 <= i < |ports|
    && Slot(serviceName, ports[i], inspect).Err?
    && forall j :: 0 <= j < i ==> Slot(serviceName, ports[j], inspect).Ok?
  }

  /** A failed call reports the error of the first port that fails, in declaration order. */
  lemma {:induction false} ResolvePortsFirstError(serviceName: string, ports: seq<PortSpec>, inspect: (string, string) -> Inspect)
    requires ResolvePorts(serviceName, ports, inspect).Err?
    ensures exists i :: (FirstFailing(serviceName, ports, inspect, i)
      && ResolvePorts(serviceName, ports, inspect).error == Slot(serviceName, ports[i], inspect).error)
  {
    var init := ports[..|ports| - 1];
    var last := |ports| - 1;
    assert forall i :: 0 <= i < |init| ==> init[i] == ports[i];
    if ResolvePorts(serviceName, init, inspect).Err? {
      ResolvePortsFirstError(serviceName, init, inspect);
      var i :| FirstFailing(serviceName, init, inspect, i)
        && ResolvePorts(serviceName, init, inspect).error == Slot(serviceName, init[i], inspect).error;
      assert FirstFailing(serviceName, ports, inspect, i);
    } else {
      ResolvePortsOk(serviceName, init, inspect);
      assert FirstFailing(serviceName, ports, inspect, last);
    }
  }

  /** A port whose binding list is empty makes the call fail with an error naming the service. */
  lemma NoEntriesNamesService(serviceName: string, ports: seq<PortSpec>, inspect: (string, string) -> Inspect, i: nat)
    requires i < |ports| && inspect(serviceName, InspectKey(ports[i])) == Entries([])
    requires forall j :: 0 <= j < i ==> Slot(serviceName, ports[j], inspect).Ok?
    ensures ResolvePorts(serviceName, ports, inspect) == Err(NoPortMappings(serviceName))
  {
    ResolvePortsOk(serviceName, ports, inspect);
    ResolvePortsFirstError(serviceName, ports, inspect);
  }

  /**
   * The inner loop of `getServicePortsFromCompose`: slot `i` is set from each
   * inspect entry in turn, skipping the `::` ones. An empty host IP is first
   * written as `localhost` and then overwritten by the same entry's own IP.
   */
  method FillSlot(portMappings: array<PortMapping>, i: nat, docs: seq<PortMapping>)
    requires i < portMappings.Length && portMappings[i] == ZeroMapping
    modifies portMappings
    ensures portMappings[i] == Reduce(docs)
    ensures forall j :: 0 <= j < portMappings.Length && j != i ==> portMappings[j] == old(portMappings[j])
  {
    for k := 0 to |docs|
      invariant portMappings[i] == Reduce(docs[..k])
      invariant forall j :: 0 <= j < portMappings.Length && j != i ==> portMappings[j] == old(portMappings[j])
    {
      assert docs[..k + 1][..k] == docs[..k];
      var doc := docs[k];
      if doc.hostIP != IPv6Wildcard {
        if doc.hostIP == "" {
          portMappings[i] := PortMapping("localhost", doc.hostPort);
        }
        portMappings[i] := PortMapping(doc.hostIP, doc.hostPort);
      }
    }
    assert docs[..|docs|] == docs;
  }

  /**
   * `getServicePortsFromCompose`: a slice of zero mappings, filled slot by
   * slot from each port's inspect entries.
   */
  method GetServicePorts(serviceName: string, service: Service, inspect: (string, string) -> Inspect)
    returns (r: Result<seq<PortMapping>, PortError>)
    ensures r == ResolvePorts(serviceName, service.ports, inspect)
  {
    var ports := service.ports;
    var portMappings := new PortMapping[|ports|](_ => ZeroMapping);
    for i := 0 to |ports|
      invariant ResolvePorts(serviceName, ports[..i], inspect) == Ok(portMappings[..i])
      invariant forall j :: i <= j < |ports| ==> portMappings[j] == ZeroMapping
    {
      assert ports[..i + 1][..i] == ports[..i];
      var out := inspect(serviceName, InspectKey(ports[i]));
      if out.InspectFailed? || out.DecodeFailed? || |out.docs| < 1 {
        ResolvePortsSticky(serviceName, ports, i + 1, inspect);
        if out.InspectFailed? {
          return Err(InspectError(serviceName));
        } else if out.DecodeFailed? {
          return Err(DecodeError);
        }
        return Err(NoPortMappings(serviceName));
      }
      var docs := out.docs;
      ghost var before := portMappings[..];
      FillSlot(portMappings, i, docs);
      assert Slot(serviceName, ports[i], inspect) == Ok(Reduce(docs));
      assert portMappings[..i] == before[..i];
      assert portMappings[..i + 1] == portMappings[..i] + [Reduce(docs)];
    }
    assert ports[..|ports|] == ports;
    assert portMappings[..] == portMappings[..|ports|];
    return Ok(portMappings[..]);
  }

  /**
   * The `hostPorts` map after the first `n` declared ports: each container
   * port maps to the host port of its slot, a later slot overwriting an
   * earlier one with the same container port.
   */
  function HostPortsOf(ports: seq<PortSpec>, mappings: seq<PortMapping>, n: nat): map<string, string>
    requires n <= |ports| && n <= |mappings|
  {
    if n == 0 then map[]
    else HostPortsOf(ports, mappings, n - 1)[ports[n - 1].port := mappings[n - 1].hostPort]
  }

  /** `k` is the container port of one of the first `n` declared ports. */
  predicate Declares(ports: seq<PortSpec>, k: string, n: nat)
    requires n <= |ports|
  {
    exists i :: 0 <= i < n && ports[i].port == k
  }

  /** The keys of `hostPorts` are exactly the declared container ports. */
  lemma {:induction false} HostPortsKeys(ports: seq<PortSpec>, mappings: seq<PortMapping>, n: nat)
    requires n <= |ports| && n <= |mappings|
    ensures forall k :: k in HostPortsOf(ports, mappings, n) <==> Declares(ports, k, n)
  {
    if n > 0 {
      HostPortsKeys(ports, mappings, n - 1);
      forall k ensures Declares(ports, k, n) <==> Declares(ports, k, n - 1) || k == ports[n - 1].port {
        if Declares(ports, k, n) && !Declares(ports, k, n - 1) {
          var i :| 0 <= i < n && ports[i].port == k;
          assert i == n - 1;
        }
      }
    }
  }

  /** A container port declared at `j` and not again later gets the host port of slot `j`. */
  lemma {:induction false} HostPortsLastWins(ports: seq<PortSpec>, mappings: seq<PortMapping>, n: nat, j: nat)
    requires n <= |ports| && n <= |mappings| && j < n
    requires forall i :: j < i < n ==> ports[i].port != ports[j].port
    ensures ports[j].port in HostPortsOf(ports, mappings, n)
    ensures HostPortsOf(ports, mappings, n)[ports[j].port] == mappings[j].hostPort
  {
    if j < n - 1 {
      HostPortsLastWins(ports, mappings, n - 1, j);
    }
  }

  /** The status check of `waitForHealthy`: the command succeeded and printed `healthy`, give or take white space. */
  predicate IsHealthy(p: CommandResult) {
    p.succeeded && Text.TrimSpace(p.output) == "healthy"
  }

  /** One of the first `limit` status checks of `containerName` reports it healthy. */
  predicate HealthyWithin(containerName: string, probe: (string, nat) -> CommandResult, limit: int)
    decreases limit
  {
    limit > 0 && (HealthyWithin(containerName, probe, limit - 1) || IsHealthy(probe(containerName, limit - 1)))
  }

  /** A healthy verdict within the bound comes from one particular check below it. */
  lemma {:induction false} HealthyWithinWitness(containerName: string, probe: (string, nat) -> CommandResult, limit: int)
    requires HealthyWithin(containerName, probe, limit)
    ensures exists i: nat :: i < limit && IsHealthy(probe(containerName, i))
    decreases limit
  {
    if HealthyWithin(containerName, probe, limit - 1) {
      HealthyWithinWitness(containerName, probe, limit - 1);
    } else {
      var i: nat := limit - 1;
      assert IsHealthy(probe(containerName, i));
    }
  }

  /** Any healthy check below the bound makes the verdict healthy. */
  lemma HealthyWithinFromWitness(containerName: string, probe: (string, nat) -> CommandResult, limit: int, i: nat)
    requires i < limit && IsHealthy(probe(containerName, i))
    ensures HealthyWithin(containerName, probe, limit)
  {
    HealthyWithinGrows(containerName, probe, i + 1, limit);
  }

  /** A check healthy within a bound is healthy within every larger bound. */
  lemma {:induction false} HealthyWithinGrows(containerName: string, probe: (string, nat) -> CommandResult, m: int, n: int)
    requires m <= n && HealthyWithin(containerName, probe, m)
    ensures HealthyWithin(containerName, probe, n)
    decreases n - m
  {
    if m < n {
      HealthyWithinGrows(containerName, probe, m, n - 1);
    }
  }

  /**
   * `waitForHealthy`: at most `timeoutSeconds` checks, stopping at the first
   * healthy one. `healthy` false is the case in which the source panics.
   */
  method WaitForHealthy(containerName: string, timeoutSeconds: int, probe: (string, nat) -> CommandResult)
    returns (healthy: bool, attempts: nat)
    ensures healthy <==> HealthyWithin(containerName, probe, timeoutSeconds)
    ensures healthy ==> 1 <= attempts <= timeoutSeconds && IsHealthy(probe(containerName, attempts - 1))
                        && !HealthyWithin(containerName, probe, attempts - 1)
    ensures !healthy ==> attempts == if timeoutSeconds < 0 then 0 else timeoutSeconds
  {
    var i: nat := 0;
    while i < timeoutSeconds
      invariant timeoutSeconds >= 0 ==> i <= timeoutSeconds
      invariant timeoutSeconds < 0 ==> i == 0
      invariant !HealthyWithin(containerName, probe, i)
    {
      var out := probe(containerName, i);
      var status := Text.TrimSpace(out.output);
      if out.succeeded && status == "healthy" {
        HealthyWithinGrows(containerName, probe, i + 1, timeoutSeconds);
        return true, i + 1;
      }
      i := i + 1;
    }
    return false, i;
  }

  /**
   * A container that is up but has no health check, and so prints `running`
   * at every check, never ends the wait: the source panics after 20 checks.
   */
  method RunningNeverHealthy(containerName: string, probe: (string, nat) -> CommandResult)
    returns (healthy: bool, attempts: nat)
    requires forall i: nat :: Text.TrimSpace(probe(containerName, i).output) == "running"
    ensures !healthy && attempts == HealthTimeoutSeconds
  {
    healthy, attempts := WaitForHealthy(containerName, HealthTimeoutSeconds, probe);
  }

  /**
   * One round of `fromCompose`'s loop, for service `name`, with the
   * containers `cs` recorded so far.
   */
  function Step(selected: seq<string>, services: map<string, Service>, cs: map<string, Container>, name: string,
                inspect: (string, string) -> Inspect, probe: (string, nat) -> CommandResult): UpResult
    requires name in services
  {
    if NotFound(selected, name) then Up(cs)
    else
      var ports := services[name].ports;
      match ResolvePorts(name, ports, inspect)
      case Err(e) => Failed(PortsFailed(name, e))
      case Ok(mappings) =>
        if HealthyWithin(name, probe, HealthTimeoutSeconds)
        then Up(cs[name := Container(name, HostPortsOf(ports, mappings, |mappings|))])
        else Panicked(name)
  }

  /**
   * The loop of `fromCompose` over the services in iteration order `order`:
   * unselected services are skipped; a selected one gets its ports resolved,
   * its container recorded under its own name, and must become healthy.
   */
  function Assemble(selected: seq<string>, services: map<string, Service>, order: seq<string>,
                    inspect: (string, string) -> Inspect, probe: (string, nat) -> CommandResult): UpResult
    requires forall s :: s in order ==> s in services
  {
    if order == [] then Up(map[])
    else
      var prev := Assemble(selected, services, order[..|order| - 1], inspect, probe);
      if !prev.Up? then prev
      else Step(selected, services, prev.containers, order[|order| - 1], inspect, probe)
  }

  /** `fromCompose`: a file that does not parse is an error; otherwise the assembly over its services. */
  function Containers(composeFile: string, parsed: Option<ComposeFile>, selected: seq<string>, order: seq<string>,
                      inspect: (string, string) -> Inspect, probe: (string, nat) -> CommandResult): UpResult
    requires parsed.Some? ==> GoMaps.IsKeyOrder(order, parsed.value.services)
  {
    if parsed.None? then Failed(ParseFailed(composeFile))
    else Assemble(selected, parsed.value.services, order, inspect, probe)
  }

  /** Once the loop has stopped on an error or a panic, the rest of the services change nothing. */
  lemma {:induction false} AssembleSticky(selected: seq<string>, services: map<string, Service>, order: seq<string>, n: nat,
                                          inspect: (string, string) -> Inspect, probe: (string, nat) -> CommandResult)
    requires forall s :: s in order ==> s in services
    requires n <= |order| && !Assemble(selected, services, order[..n], inspect, probe).Up?
    ensures Assemble(selected, services, order, inspect, probe) == Assemble(selected, services, order[..n], inspect, probe)
    decreases |order|
  {
    if n < |order| {
      var init := order[..|order| - 1];
      assert init[..n] == order[..n];
      AssembleSticky(selected, services, init, n, inspect, probe);
    } else {
      assert order[..n] == order;
    }
  }

  /**
   * A successful assembly holds exactly the selected services, each under
   * its own name, with its ports resolved, its `hostPorts` built from them,
   * and a healthy status seen in time.
   */
  lemma {:induction false} AssembleSelects(selected: seq<string>, services: map<string, Service>, order: seq<string>,
                                           inspect: (string, string) -> Inspect, probe: (string, nat) -> CommandResult)
    requires forall s :: s in order ==> s in services
    requires Assemble(selected, services, order, inspect, probe).Up?
    ensures var cs := Assemble(selected, services, order, inspect, probe).containers;
      && (forall s :: s in cs <==> s in order && !NotFound(selected, s))
      && (forall s :: s in cs ==>
            && cs[s].name == s
            && ResolvePorts(s, services[s].ports, inspect).Ok?
            && cs[s].hostPorts == HostPortsOf(services[s].ports, ResolvePorts(s, services[s].ports, inspect).value, |services[s].ports|)
            && HealthyWithin(s, probe, HealthTimeoutSeconds))
  {
    if order != [] {
      var init := order[..|order| - 1];
      assert forall s :: s in order <==> s in init || s == order[|order| - 1];
      AssembleSelects(selected, services, init, inspect, probe);
    }
  }

  /** Without a selection every service of the file is started. */
  lemma EmptySelectionStartsAll(services: map<string, Service>, order: seq<string>,
                                inspect: (string, string) -> Inspect, probe: (string, nat) -> CommandResult)
    requires GoMaps.IsKeyOrder(order, services)
    requires Assemble([], services, order, inspect, probe).Up?
    ensures Assemble([], services, order, inspect, probe).containers.Keys == services.Keys
  {
    AssembleSelects([], services, order, inspect, probe);
  }

  /**
   * The body of `fromCompose`'s loop for a selected service: resolve its
   * ports, record its container with the `hostPorts` map, and wait for it
   * to become healthy.
   */
  method AddService(serviceNames: seq<string>, services: map<string, Service>, containers: map<string, Container>,
                    serviceName: string, inspect: (string, string) -> Inspect, probe: (string, nat) -> CommandResult)
    returns (r: UpResult)
    requires serviceName in services && !NotFound(serviceNames, serviceName)
    ensures r == Step(serviceNames, services, containers, serviceName, inspect, probe)
  {
    var service := services[serviceName];
    var portMappings := GetServicePorts(serviceName, service, inspect);
    if portMappings.Err? {
      return Failed(PortsFailed(serviceName, portMappings.error));
    }
    var hostPorts: map<string, string> := map[];
    for k := 0 to |portMappings.value|
      invariant hostPorts == HostPortsOf(service.ports, portMappings.value, k)
    {
      hostPorts := hostPorts[service.ports[k].port := portMappings.value[k].hostPort];
    }
    var c := Container(serviceName, hostPorts);
    var healthy, _ := WaitForHealthy(serviceName, HealthTimeoutSeconds, probe);
    if !healthy {
      return Panicked(serviceName);
    }
    return Up(containers[serviceName := c]);
  }

  /** `fromCompose`, with its services ranged in `order`. */
  method FromCompose(composeFile: string, parsed: Option<ComposeFile>, serviceNames: seq<string>, order: seq<string>,
                     inspect: (string, string) -> Inspect, probe: (string, nat) -> CommandResult)
    returns (r: UpResult)
    requires parsed.Some? ==> GoMaps.IsKeyOrder(order, parsed.value.services)
    ensures r == Containers(composeFile, parsed, serviceNames, order, inspect, probe)
  {
    if parsed.None? {
      return Failed(ParseFailed(composeFile));
    }
    var services := parsed.value.services;
    var containers: map<string, Container> := map[];
    for i := 0 to |order|
      invariant Assemble(serviceNames, services, order[..i], inspect, probe) == Up(containers)
    {
      var serviceName := order[i];
      assert Assemble(serviceNames, services, order[..i + 1], inspect, probe)
          == Step(serviceNames, services, containers, serviceName, inspect, probe) by {
        assert order[..i + 1][..i] == order[..i];
      }
      if NotFound(serviceNames, serviceName) {
        continue;
      }
      var next := AddService(serviceNames, services, containers, serviceName, inspect, probe);
      if !next.Up? {
        AssembleSticky(serviceNames, services, order, i + 1, inspect, probe);
        return next;
      }
      containers := next.containers;
    }
    assert order[..|order|] == order;
    return Up(containers);
  }

  /**
   * `ComposeUp`: a missing file is reported before any command is built;
   * otherwise `docker compose up` is run and, when it succeeds, the
   * containers are assembled, their errors wrapped.
   */
  method ComposeUp(composeFile: string, serviceNames: seq<string>, fileExists: bool, started: CommandResult,
                   parsed: Option<ComposeFile>, order: seq<string>,
                   inspect: (string, string) -> Inspect, probe: (string, nat) -> CommandResult)
    returns (command: Option<seq<string>>, r: UpResult)
    requires parsed.Some? ==> GoMaps.IsKeyOrder(order, parsed.value.services)
    ensures !fileExists ==> command == None && r == Failed(FileNotFound(composeFile))
    ensures fileExists ==> command == Some(DockerCommand(UpArgs(composeFile, serviceNames)))
    ensures fileExists && !started.succeeded ==> r == Failed(StartFailed(composeFile, Text.TrimSpace(started.output)))
    ensures fileExists && started.succeeded ==>
      var c := Containers(composeFile, parsed, serviceNames, order, inspect, probe);
      r == if c.Failed? then Failed(ContainersFailed(c.error)) else c
  {
    if !fileExists {
      return None, Failed(FileNotFound(composeFile));
    }
    var args := ["-f", composeFile, "up", "-d"];
    if |serviceNames| > 0 {
      args := args + serviceNames;
    }
    command := Some(["docker", "compose"] + args);
    if !started.succeeded {
      return command, Failed(StartFailed(composeFile, Text.TrimSpace(started.output)));
    }
    r := FromCompose(composeFile, parsed, serviceNames, order, inspect, probe);
    if r.Failed? {
      r := Failed(ContainersFailed(r.error));
    }
  }

  /** `ComposeDown`: `docker compose down` is run and its failure reported with its trimmed output. */
  method ComposeDown(composeFile: string, serviceNames: seq<string>, stopped: CommandResult)
    returns (command: seq<string>, err: Option<ComposeError>)
    ensures command == DockerCommand(DownArgs(composeFile, serviceNames))
    ensures err.Some? <==> !stopped.succeeded
    ensures err.Some? ==> err.value == StopFailed(composeFile, Text.TrimSpace(stopped.output))
  {
    var args := ["-f", composeFile, "down"];
    if |serviceNames| > 0 {
      args := args + serviceNames;
    }
    command := ["docker", "compose"] + args;
    if !stopped.succeeded {
      return command, Some(StopFailed(composeFile, Text.TrimSpace(stopped.output)));
    }
    return command, None;
  }
}
