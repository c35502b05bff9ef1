/** The bootstrap protocol of the client (src/lwm2m/core/bootstrap.c). */
module Bootstrap {
  import opened Text
  import opened Uris
  import opened IdLists
  import opened Context
  import opened Objects
  import opened ServerLists

  const QUERY_BUFFER_LENGTH := 200
  const QUERY := "?ep="
  const COAP_EXCHANGE_LIFETIME := 247

  /** What the network answers: the session a connection gets, and whether a request to
      a server is sent. */
  datatype Net = Net(connect: nat -> Option<nat>, send: nat -> bool)

  // ---------------------------------------------------------------- stepping

  /** `prv_requestBootstrap`. */
  function Requested(id: nat, s: Server, name: string, net: Net): Server {
    if |QUERY| + |name| >= QUERY_BUFFER_LENGTH then s.(status := Failing)
    else
      var session := if s.session.None? then net.connect(id) else s.session;
      if session.None? then s.(status := Status.Failed)
      else if net.send(id) then s.(session := session, status := Initiated)
      else s.(session := session)
  }

  function Min(a: int, b: int): int { if a > b then b else a }

  /** One server in `bootstrap_step`, and the timeout it leaves. */
  function SteppedServer(id: nat, s: Server, now: int, timeout: int, name: string, net: Net): (Server, int) {
    match s.status
    case Deregistered => (s.(registration := now + s.lifetime, status := HoldOff), Min(timeout, s.lifetime))
    case HoldOff =>
      if s.registration <= now then (Requested(id, s, name, net), timeout)
      else (s, Min(timeout, s.registration - now))
    case Pending =>
      if s.registration <= now then (s.(status := Failing), 0) else (s, Min(timeout, s.registration - now))
    case Finishing => (s.(session := None, status := Finished), 0)
    case Failing => (s.(session := None, status := Status.Failed), 0)
    case _ => (s, timeout)
  }

  function Stepped(list: Servers, now: int, timeout: int, name: string, net: Net): (Servers, int) {
    if list == [] then ([], timeout)
    else
      var first := SteppedServer(list[0].id, list[0].body, now, timeout, name, net);
      var rest := Stepped(list[1..], now, first.1, name, net);
      ([Entry(list[0].id, first.0)] + rest.0, rest.1)
  }

  function Front(front: Servers, r: (Servers, int)): (Servers, int) {
    (front + r.0, r.1)
  }

  lemma FrontStep(front: Servers, e: Entry<Server>, r: (Servers, int))
    ensures Front(front, Front([e], r)) == Front(front + [e], r)
  {
    assert front + ([e] + r.0) == front + [e] + r.0;
  }

  method Step(c: Context, now: int, timeout: int, net: Net) returns (timeout': int)
    modifies c`bootstrapServers
    ensures (c.bootstrapServers, timeout') == Stepped(old(c.bootstrapServers), now, timeout, c.endpointName, net)
  {
    hide SteppedServer;
    timeout' := timeout;
    ghost var total := Stepped(c.bootstrapServers, now, timeout, c.endpointName, net);
    var done: Servers := [];
    assert [] + c.bootstrapServers == c.bootstrapServers && [] + total.0 == total.0;
    while |done| < |c.bootstrapServers|
      invariant |done| <= |c.bootstrapServers| && c.bootstrapServers[..|done|] == done
      invariant total == Front(done, Stepped(c.bootstrapServers[|done|..], now, timeout', c.endpointName, net))
      decreases |c.bootstrapServers| - |done|
    {
      ghost var rest := c.bootstrapServers[|done|..];
      var target := c.bootstrapServers[|done|];
      var step := SteppedServer(target.id, target.body, now, timeout', c.endpointName, net);
      var next := Entry(target.id, step.0);
      FrontStep(done, next, Stepped(rest[1..], now, step.1, c.endpointName, net));
      c.bootstrapServers := c.bootstrapServers[|done| := next];
      timeout' := step.1;
      done := done + [next];
      assert c.bootstrapServers[|done|..] == rest[1..];
    }
    assert c.bootstrapServers == done && done + [] == done;
  }

  // ---------------------------------------------------------------- starting over

  function StartedServer(id: nat, s: Server, net: Net): Server {
    s.(status := Deregistered, session := if s.session.None? then net.connect(id) else s.session)
  }

  function Started(list: Servers, net: Net): Servers {
    if list == [] then []
    else [Entry(list[0].id, StartedServer(list[0].id, list[0].body, net))] + Started(list[1..], net)
  }

  /** `bootstrap_start`. */
  method Start(c: Context, net: Net)
    modifies c`bootstrapServers
    ensures c.bootstrapServers == Started(old(c.bootstrapServers), net)
  {
    ghost var total := Started(c.bootstrapServers, net);
    var done: Servers := [];
    assert [] + total == total;
    while |done| < |c.bootstrapServers|
      invariant |done| <= |c.bootstrapServers| && c.bootstrapServers[..|done|] == done
      invariant total == done + Started(c.bootstrapServers[|done|..], net)
      decreases |c.bootstrapServers| - |done|
    {
      ghost var rest := c.bootstrapServers[|done|..];
      var target := c.bootstrapServers[|done|];
      var next := Entry(target.id, StartedServer(target.id, target.body, net));
      assert done + ([next] + Started(rest[1..], net)) == done + [next] + Started(rest[1..], net);
      c.bootstrapServers := c.bootstrapServers[|done| := next];
      done := done + [next];
      assert c.bootstrapServers[|done|..] == rest[1..];
    }
    assert c.bootstrapServers == done;
  }

  // ---------------------------------------------------------------- the overall status

  predicate Underway(s: Status) {
    s.HoldOff? || s.Initiated? || s.Pending? || s.Finishing? || s.Failing?
  }

  /** Pending while one bootstrap is under way, else finished if one is, else failed. */
  function OverallStatus(list: Servers): Status {
    if exists i :: 0 <= i < |list| && Underway(list[i].body.status) then Pending
    else if exists i :: 0 <= i < |list| && list[i].body.status.Finished? then Finished
    else Status.Failed
  }

  /** `bootstrap_getStatus`. */
  method GetStatus(c: Context) returns (status: Status)
    ensures status == OverallStatus(c.bootstrapServers)
  {
    status := Status.Failed;
    var i := 0;
    while i < |c.bootstrapServers|
      invariant 0 <= i <= |c.bootstrapServers|
      invariant status == OverallStatus(c.bootstrapServers[..i])
    {
      ghost var before := c.bootstrapServers[..i];
      ghost var after := c.bootstrapServers[..i + 1];
      assert forall k :: 0 <= k < i ==> before[k] == after[k];
      var s := c.bootstrapServers[i].body.status;
      assert after[i].body.status == s;
      if s.Finished? {
        if status == Status.Failed { status := Finished; }
      } else if Underway(s) {
        status := Pending;
      }
      i := i + 1;
    }
    assert c.bootstrapServers[..i] == c.bootstrapServers;
  }

  // ---------------------------------------------------------------- requests from a server

  /** `utils_findBootstrapServer`. */
  function Sender(list: Servers, session: nat): Option<nat> {
    if list == [] then None
    else if list[0].body.session == Some(session) then Some(list[0].id)
    else Sender(list[1..], session)
  }

  method FindBootstrapServer(c: Context, session: nat) returns (r: Option<nat>)
    ensures r == Sender(c.bootstrapServers, session)
  {
    var i := 0;
    while i < |c.bootstrapServers| && c.bootstrapServers[i].body.session != Some(session)
      invariant 0 <= i <= |c.bootstrapServers|
      invariant Sender(c.bootstrapServers, session) == Sender(c.bootstrapServers[i..], session)
    {
      assert c.bootstrapServers[i..][1..] == c.bootstrapServers[i + 1..];
      i := i + 1;
    }
    return if i < |c.bootstrapServers| then Some(c.bootstrapServers[i].id) else None;
  }

  /** `prv_checkServerStatus`: whether a command is accepted, and what it does to the
      status. */
  function Checked(s: Server, now: int): (Server, Code) {
    match s.status
    case HoldOff => (s.(status := Pending), NoError)
    case Initiated => (s.(status := Pending), NoError)
    case Deregistered => (s.(registration := now + COAP_EXCHANGE_LIFETIME), NoError)
    case Pending => (s.(registration := now + COAP_EXCHANGE_LIFETIME), NoError)
    case _ => (s, Ignore)
  }

  /** The statuses in which a server is listened to. */
  predicate Accepting(s: Status) {
    s.Deregistered? || s.HoldOff? || s.Initiated? || s.Pending?
  }

  /** The server once its request is accepted: it is PENDING unless it was DEREGISTERED, and
      its timer starts over unless the request came before the bootstrap was under way. */
  function Touched(s: Server, now: int): Server {
    s.(status := if s.status.Deregistered? then Deregistered else Pending,
       registration := if s.status.Deregistered? || s.status.Pending? then now + 247 else s.registration)
  }

  lemma CheckedExact(s: Server, now: int)
    ensures Checked(s, now) == if Accepting(s.status) then (Touched(s, now), NoError) else (s, Ignore)
  {}

  function Dirtied(list: Servers, id: nat): Servers {
    match Find(list, id)
    case None => list
    case Some(s) => Put(list, id, s.(dirty := true))
  }

  /** `prv_tagServer`: the bootstrap server with the id, else the server. */
  function Tagged(c: Client, id: nat): Client {
    if Has(c.bootstrapServers, id) then c.(bootstrapServers := Dirtied(c.bootstrapServers, id))
    else c.(servers := Dirtied(c.servers, id))
  }

  function AllDirtied(list: Servers, except: Option<nat>): (r: Servers)
    ensures |r| == |list|
    ensures forall i :: 0 <= i < |list| ==>
              r[i] == Entry(list[i].id, if except == Some(list[i].id) then list[i].body
                                        else list[i].body.(dirty := true))
  {
    if list == [] then []
    else
      [Entry(list[0].id, if except == Some(list[0].id) then list[0].body else list[0].body.(dirty := true))]
      + AllDirtied(list[1..], except)
  }

  /** `prv_tagAllServer`. */
  function TaggedAll(c: Client, except: Option<nat>): Client {
    c.(bootstrapServers := AllDirtied(c.bootstrapServers, except), servers := AllDirtied(c.servers, None))
  }

  method TagServer(c: Context, id: nat)
    modifies c`bootstrapServers, c`servers
    ensures c.Value() == Tagged(old(c.Value()), id)
  {
    var target: Option<Server> := Find(c.bootstrapServers, id);
    if target.Some? {
      c.bootstrapServers := Put(c.bootstrapServers, id, target.value.(dirty := true));
    } else {
      target := Find(c.servers, id);
      if target.Some? { c.servers := Put(c.servers, id, target.value.(dirty := true)); }
    }
  }

  method TagList(list: Servers, except: Option<nat>) returns (r: Servers)
    ensures r == AllDirtied(list, except)
  {
    r := list;
    for i := 0 to |list|
      invariant |r| == |list| && forall k :: i <= k < |list| ==> r[k] == list[k]
      invariant forall k :: 0 <= k < i ==> r[k] == AllDirtied(list, except)[k]
    {
      if except != Some(list[i].id) {
        r := r[i := Entry(list[i].id, list[i].body.(dirty := true))];
      }
    }
  }

  method TagAllServers(c: Context, except: Option<nat>)
    modifies c`bootstrapServers, c`servers
    ensures c.Value() == TaggedAll(old(c.Value()), except)
  {
    c.bootstrapServers := TagList(c.bootstrapServers, except);
    c.servers := TagList(c.servers, None);
  }

  // ---------------------------------------------------------------- commands

  datatype Verb = GetVerb | PostVerb | PutVerb | DeleteVerb

  /** A request: its verb, whether it has a payload, and what that parses to. */
  datatype Message = Message(verb: Verb, hasPayload: bool, payload: Payload)

  function WithObjects(c: Client, r: (ObjectList, Code)): (Client, Code) {
    (c.(objects := r.0), r.1)
  }

  /** A create inside a command answers 2.04 for 2.01. */
  function AsChanged(r: (Client, Code)): (Client, Code) {
    (r.0, if r.1 == Created then Changed else r.1)
  }

  /** A write; one of the Security object that answers 2.04 marks the server dirty. */
  function WithTag(r: (Client, Code), objectId: nat, id: nat): (Client, Code) {
    (if objectId == SECURITY_OBJECT && r.1 == Changed then Tagged(r.0, id) else r.0, r.1)
  }

  /** PUT on an instance. */
  function PutInstance(c: Client, objectId: nat, id: nat, m: Message): (Client, Code) {
    if IsInstanceNew(c.objects, objectId, id) then
      AsChanged(WithObjects(c, ObjectCreate(c.objects, objectId, Some(id), m.hasPayload, m.payload)))
    else WithTag(WithObjects(c, ObjectWrite(c.objects, objectId, id, m.payload)), objectId, id)
  }

  /** PUT of one instance node below an object. */
  function PutNode(c: Client, objectId: nat, n: Node): (Client, Code) {
    if IsInstanceNew(c.objects, objectId, n.id) then
      AsChanged(WithObjects(c, ObjectCreateInstance(c.objects, objectId, n)))
    else WithTag(WithObjects(c, ObjectWriteInstance(c.objects, objectId, n)), objectId, n.id)
  }

  /** The loop over the nodes of a PUT on an object, `code` being the result so far. */
  function PutNodes(c: Client, objectId: nat, nodes: seq<Node>, code: Code): (Client, Code)
    decreases |nodes|
  {
    if nodes == [] then (c, code)
    else if !nodes[0].kind.InstanceNode? then PutNodes(c, objectId, nodes[1..], BadRequest)
    else
      var r := PutNode(c, objectId, nodes[0]);
      if r.1 != Changed then r else PutNodes(r.0, objectId, nodes[1..], Changed)
  }

  function PutCommand(c: Client, uri: Uri, m: Message): (Client, Code) {
    if uri.instanceId.Some? then PutInstance(c, uri.objectId, uri.instanceId.value, m)
    else if !m.hasPayload then (c, BadRequest)
    else if m.payload.Nothing? then (c, InternalError)
    else PutNodes(c, uri.objectId, NodesOf(m.payload), NoError)
  }

  function DeleteCommand(c: Client, uri: Uri): (Client, Code) {
    if uri.resourceId.Some? then (c, BadRequest)
    else
      var r := WithObjects(c, ObjectDelete(c.objects, uri.objectId, uri.instanceId));
      if uri.objectId != SECURITY_OBJECT || r.1 != Deleted then r
      else (if uri.instanceId.Some? then Tagged(r.0, uri.instanceId.value) else TaggedAll(r.0, None), Deleted)
  }

  function SetServer(c: Client, id: nat, s: Server): Client {
    c.(bootstrapServers := Put(c.bootstrapServers, id, s))
  }

  /** The status after a command that changed something. */
  function Concluded(r: (Client, Code), id: nat): (Client, Code) {
    match Find(r.0.bootstrapServers, id)
    case None => r
    case Some(s) =>
      if (r.1 == Deleted || r.1 == Changed) && s.status != Pending then
        (SetServer(r.0, id, s.(status := Pending)).(state := Bootstrapping), r.1)
      else r
  }

  /** `bootstrap_handleCommand` for a request of the bootstrap server `id`. */
  function Commanded(c: Client, id: nat, uri: Uri, m: Message, now: int): (Client, Code) {
    match Find(c.bootstrapServers, id)
    case None => (c, Ignore)
    case Some(s) =>
      var check := Checked(s, now);
      var c1 := SetServer(c, id, check.0);
      if check.1 != NoError then (c, check.1)
      else
        match m.verb
        case PutVerb => Concluded(PutCommand(c1, uri, m), id)
        case DeleteVerb => Concluded(DeleteCommand(c1, uri), id)
        case _ => (c1, BadRequest)
  }

  method HandlePutInstance(c: Context, objectId: nat, id: nat, m: Message) returns (code: Code)
    modifies c
    ensures (c.Value(), code) == PutInstance(old(c.Value()), objectId, id, m)
  {
    hide ObjectCreate, ObjectWrite, InstancesOf, Has, Tagged, WriteObject, Find;
    if IsInstanceNew(c.objects, objectId, id) {
      code := Create(c, objectId, Some(id), m.hasPayload, m.payload);
      if code == Created { code := Changed; }
    } else {
      code := WriteRequest(c, objectId, id, m.payload);
      if objectId == SECURITY_OBJECT && code == Changed { TagServer(c, id); }
    }
  }

  method WriteRequest(c: Context, objectId: nat, id: nat, payload: Payload) returns (code: Code)
    modifies c`objects
    ensures (c.objects, code) == ObjectWrite(old(c.objects), objectId, id, payload)
  {
    hide WriteObject, Find;
    match Find(c.objects, objectId) {
      case None => return NotFound;
      case Some(o) =>
        if !o.canWrite { return NotAllowed; }
        if payload.Nothing? { return NotAcceptable; }
        code := Write(c, objectId, id, NodesOf(payload));
    }
  }

  method HandlePutNode(c: Context, objectId: nat, n: Node) returns (code: Code)
    modifies c
    ensures (c.Value(), code) == PutNode(old(c.Value()), objectId, n)
  {
    hide WriteObject, CreateObject, InstancesOf, Has, Tagged, Find, NewId;
    var found := Find(c.objects, objectId);
    if IsInstanceNew(c.objects, objectId, n.id) {
      if found.None? { return NotFound; }
      if !found.value.canCreate { return NotAllowed; }
      code := CreateWith(c, objectId, NewId(found.value.instances), n.children);
      if code == Created { code := Changed; }
    } else {
      if found.None? { return NotFound; }
      if !found.value.canWrite { return NotAllowed; }
      code := Write(c, objectId, n.id, n.children);
      if objectId == SECURITY_OBJECT && code == Changed { TagServer(c, n.id); }
    }
  }

  method HandlePutNodes(c: Context, objectId: nat, nodes: seq<Node>) returns (code: Code)
    modifies c
    ensures (c.Value(), code) == PutNodes(old(c.Value()), objectId, nodes, NoError)
  {
    hide PutNode;
    code := NoError;
    var rest := nodes;
    while rest != []
      invariant PutNodes(c.Value(), objectId, rest, code) == PutNodes(old(c.Value()), objectId, nodes, NoError)
      decreases |rest|
    {
      var n := rest[0];
      rest := rest[1..];
      if n.kind.InstanceNode? {
        code := HandlePutNode(c, objectId, n);
        if code != Changed { return; }
      } else {
        code := BadRequest;
      }
    }
  }

  method HandlePut(c: Context, uri: Uri, m: Message) returns (code: Code)
    modifies c
    ensures (c.Value(), code) == PutCommand(old(c.Value()), uri, m)
  {
    hide PutInstance, PutNodes;
    if uri.instanceId.Some? {
      code := HandlePutInstance(c, uri.objectId, uri.instanceId.value, m);
    } else {
      if !m.hasPayload { return BadRequest; }
      if m.payload.Nothing? { return InternalError; }
      code := HandlePutNodes(c, uri.objectId, NodesOf(m.payload));
    }
  }

  method HandleDelete(c: Context, uri: Uri) returns (code: Code)
    modifies c
    ensures (c.Value(), code) == DeleteCommand(old(c.Value()), uri)
  {
    hide ObjectDelete, Tagged, TaggedAll;
    if uri.resourceId.Some? { return BadRequest; }
    code := Objects.Delete(c, uri.objectId, uri.instanceId);
    if uri.objectId == SECURITY_OBJECT && code == Deleted {
      if uri.instanceId.Some? { TagServer(c, uri.instanceId.value); } else { TagAllServers(c, None); }
    }
  }

  /** `bootstrap_handleCommand`. */
  method HandleCommand(c: Context, id: nat, uri: Uri, m: Message, now: int) returns (code: Code)
    requires Has(c.bootstrapServers, id)
    modifies c
    ensures (c.Value(), code) == Commanded(old(c.Value()), id, uri, m, now)
  {
    hide PutCommand, DeleteCommand, Put, Find, Checked;
    HasFound(c.bootstrapServers, id);
    var check := Checked(Find(c.bootstrapServers, id).value, now);
    if check.1 != NoError { return check.1; }
    c.bootstrapServers := Put(c.bootstrapServers, id, check.0);
    match m.verb {
      case PutVerb => code := HandlePut(c, uri, m);
      case DeleteVerb => code := HandleDelete(c, uri);
      case _ => return BadRequest;
    }
    if code == Deleted || code == Changed {
      var target: Option<Server> := Find(c.bootstrapServers, id);
      if target.Some? && target.value.status != Pending {
        c.bootstrapServers := Put(c.bootstrapServers, id, target.value.(status := Pending));
        c.state := Bootstrapping;
      }
    }
  }

  // ---------------------------------------------------------------- finish and reply

  /** `bootstrap_handleFinish`. */
  function HandledFinish(c: Client, session: nat): (Client, Code) {
    match Sender(c.bootstrapServers, session)
    case None => (c, Ignore)
    case Some(id) =>
      var found: Option<Server> := Find(c.bootstrapServers, id);
      match found
      case Some(s) =>
        if s.status != Pending then (c, Ignore)
        else
          (match GotServers(c.objects, c.bootstrapServers, c.servers, true).check
           case Good => (SetServer(c, id, s.(status := Finishing)), Changed)
           case Bad => (c, NotAcceptable)
           case Fault => (c, Crash))
      case None => (c, Ignore)
  }

  method HandleFinish(c: Context, session: nat) returns (code: Code)
    modifies c
    ensures (c.Value(), code) == HandledFinish(old(c.Value()), session)
  {
    hide GotServers, Find, Put, Sender;
    var sender := FindBootstrapServer(c, session);
    if sender.None? { return Ignore; }
    var found: Option<Server> := Find(c.bootstrapServers, sender.value);
    if found.None? || found.value.status != Pending { return Ignore; }
    DryRunKeeps(c.objects, c.bootstrapServers, c.servers);
    var check := GetServers(c, true);
    match check {
      case Good =>
        c.bootstrapServers := Put(c.bootstrapServers, sender.value, found.value.(status := Finishing));
        return Changed;
      case Bad => return NotAcceptable;
      case Fault => return Crash;
    }
  }

  /** `prv_handleBootstrapReply`; no code for a lost or reset request. */
  function Replied(s: Server, changed: bool, now: int): Server {
    if !s.status.Initiated? then s
    else if changed then s.(status := Pending, registration := now + COAP_EXCHANGE_LIFETIME)
    else s.(status := Failing)
  }

  /** The callback of the bootstrap request sent to server `id`; `changed` for a reply
      2.04. */
  method HandleReply(c: Context, id: nat, changed: bool, now: int)
    modifies c`bootstrapServers
    ensures c.bootstrapServers ==
            match Find(old(c.bootstrapServers), id)
            case None => old(c.bootstrapServers)
            case Some(s) => Put(old(c.bootstrapServers), id, Replied(s, changed, now))
  {
    match Find(c.bootstrapServers, id) {
      case None =>
      case Some(s) =>
        var next := s;
        if s.status.Initiated? {
          if changed {
            next := next.(status := Pending, registration := now + COAP_EXCHANGE_LIFETIME);
          } else {
            next := next.(status := Failing);
          }
        }
        c.bootstrapServers := Put(c.bootstrapServers, id, next);
    }
  }
}
