/** The client context of the LwM2M core (include/lwm2m/core/liblwm2m.h): objects with
    their instances, the two server lists, and the state of the client. */
module Context {
  import opened Text
  import opened IdLists

  /** The CoAP codes in use.  `Crash` is no code: the C code reads through a null pointer
      or an empty array, and a run is not followed beyond that point. */
  datatype Code =
    | NoError | Ignore | Created | Deleted | Changed
    | BadRequest | NotFound | NotAllowed | NotAcceptable | InternalError | Unavailable
    | Crash

  const SECURITY_OBJECT := 0
  const SERVER_OBJECT := 1

  const UINT32_MAX := 0xFFFF_FFFF

  // ---------------------------------------------------------------- parsed payloads

  datatype NodeType = ObjectNode | InstanceNode | ResourceNode

  /** A node of a parsed payload.  What the decoders make of it is part of the node, and
      so is whether an object outside this model accepts it. */
  datatype Node = Node(kind: NodeType, id: nat, children: seq<Node>,
                       asBool: Option<bool>, asInt: Option<int>, asText: Option<string>, accepted: bool)

  /** What `lwm2m_data_parse` returns: a negative size, zero, or nodes. */
  datatype Payload = Failed | Nothing | Nodes(nodes: seq<Node>)

  // ---------------------------------------------------------------- instances

  /** An instance of the Security object, of the Server object (its binding a C array of
      four bytes), or of an object whose resources are not modelled. */
  datatype Instance =
    | Security(isBootstrap: bool, securityMode: int, shortId: int, holdOff: int, accountTimeout: int)
    | Account(shortId: int, lifetime: int, minPeriod: int, maxPeriod: int, disableTimeout: int,
              storing: bool, binding: string)
    | Plain

  const NO_BINDING: string := [NUL, NUL, NUL, NUL]

  /** A new instance, all bytes zero. */
  function Zeroed(objectId: nat): Instance {
    if objectId == SECURITY_OBJECT then Security(false, 0, 0, 0, 0)
    else if objectId == SERVER_OBJECT then Account(0, 0, 0, 0, 0, false, NO_BINDING)
    else Plain
  }

  type Instances = seq<Entry<Instance>>

  /** An object and which of its callbacks are set. */
  datatype Obj = Obj(instances: Instances, canCreate: bool, canWrite: bool, canDelete: bool)

  type ObjectList = seq<Entry<Obj>>

  // ---------------------------------------------------------------- servers

  datatype Status =
    | Deregistered | RegPending | Registered | RegFailed | RegUpdatePending | RegUpdateNeeded
    | RegFullUpdateNeeded | DeregPending
    | HoldOff | Initiated | Pending | Finishing | Finished | Failing | Failed

  /** A server under the id of its Security instance. */
  datatype Server = Server(shortId: int, lifetime: int, registration: int, status: Status,
                           session: Option<nat>, dirty: bool)

  type Servers = seq<Entry<Server>>

  datatype State = Initial | BootstrapRequired | Bootstrapping | RegisterRequired | Registering | Ready

  /** The value of a context. */
  datatype Client = Client(objects: ObjectList, bootstrapServers: Servers, servers: Servers, state: State)

  class Context {
    var objects: ObjectList
    var bootstrapServers: Servers
    var servers: Servers
    var state: State
    const endpointName: string

    constructor (endpointName: string)
      ensures Value() == Client([], [], [], Initial) && this.endpointName == endpointName
    {
      this.endpointName := endpointName;
      objects, bootstrapServers, servers, state := [], [], [], Initial;
    }

    ghost function Value(): Client
      reads this
    {
      Client(objects, bootstrapServers, servers, state)
    }
  }
}
