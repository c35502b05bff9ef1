/** Whole runs of the client: every sequence of bootstrap requests, replies, steps and
    device-management requests. */
module BootstrapRuns {
  import opened Text
  import opened Uris
  import opened IdLists
  import opened Context
  import opened Objects
  import opened ServerLists
  import opened Bootstrap
  import opened DeleteAll
  import opened ClientStep
  import opened RegistrationUpdate
  import opened BootstrapSafety
  import opened BootstrapOrder

  datatype Event =
    | Command(session: nat, uri: Uri, message: Message, now: int)
    | DeleteAllRequest(session: nat, now: int)
    | FinishRequest(session: nat)
    | Reply(id: nat, changed: bool, now: int)
    | Tick(now: int, timeout: int, env: Env)
    | RegistrationChange(id: nat, status: Status)
    | UpdateRequest(shortId: int, withObjects: bool)
    | DmCreate(objectId: nat, hasPayload: bool, payload: Payload)
    | DmWrite(objectId: nat, id: nat, payload: Payload)
    | DmDelete(objectId: nat, id: nat)

  function Answered(c: Client, id: nat, changed: bool, now: int): Client {
    var found: Option<Server> := Find(c.bootstrapServers, id);
    match found
    case None => c
    case Some(s) => SetServer(c, id, Replied(s, changed, now))
  }

  function StatusSet(c: Client, id: nat, status: Status): Client {
    var found: Option<Server> := Find(c.servers, id);
    match found
    case None => c
    case Some(s) => c.(servers := Put(c.servers, id, s.(status := status)))
  }

  /** One event.  Device-management requests never reach the Security object. */
  function Next(c: Client, name: string, e: Event): (Client, Code)
    requires Sorted(c.objects)
  {
    match e
    case Command(session, uri, m, now) =>
      (match Sender(c.bootstrapServers, session)
       case None => (c, Ignore)
       case Some(id) => Commanded(c, id, uri, m, now))
    case DeleteAllRequest(session, now) =>
      (match Sender(c.bootstrapServers, session)
       case None => (c, Ignore)
       case Some(id) => DeletedAll(c, id, now))
    case FinishRequest(session) => HandledFinish(c, session)
    case Reply(id, changed, now) => (Answered(c, id, changed, now), NoError)
    case Tick(now, timeout, env) =>
      var r := ClientStepped(c, now, timeout, name, env);
      (r.client, r.code)
    case RegistrationChange(id, status) => (StatusSet(c, id, status), NoError)
    case UpdateRequest(shortId, withObjects) => Updated(c, shortId, withObjects)
    case DmCreate(objectId, hasPayload, payload) =>
      if objectId == SECURITY_OBJECT then (c, NotFound)
      else WithObjects(c, ObjectCreate(c.objects, objectId, None, hasPayload, payload))
    case DmWrite(objectId, id, payload) =>
      if objectId == SECURITY_OBJECT then (c, NotFound)
      else WithObjects(c, ObjectWrite(c.objects, objectId, id, payload))
    case DmDelete(objectId, id) =>
      if objectId == SECURITY_OBJECT then (c, NotFound)
      else WithObjects(c, ObjectDelete(c.objects, objectId, Some(id)))
  }

  // ---------------------------------------------------------------- runs

  /** What a run asks of an event: no crash, and room for the instances it creates. */
  ghost predicate Admissible(c: Client, name: string, e: Event)
    requires Sorted(c.objects)
  {
    && Next(c, name, e).1 != Crash
    && match e
       case Command(session, uri, m, now) =>
         var id := Sender(c.bootstrapServers, session);
         id.Some? && Has(c.bootstrapServers, id.value) ==> RoomyPut(c.objects, uri, m)
       case DmCreate(objectId, _, _) => Room(c.objects, objectId, 1)
       case _ => true
  }

  /** Every event leaves ids unique. */
  lemma EventSorted(c: Client, name: string, e: Event)
    requires Sorted(c.objects) && Admissible(c, name, e)
    ensures Sorted(Next(c, name, e).0.objects)
  {
    hide Sorted, Commanded, DeletedAll, GotServers, UpdatedServers, StepFrom, CreateObject, WriteObject,
         ObjectDelete, Sender, Find, Room, Put, NewId;
    match e {
      case Command(session, uri, m, now) =>
        var id := Sender(c.bootstrapServers, session);
        if id.Some? { CommandedSorted(c, id.value, uri, m, now); }
      case DeleteAllRequest(session, now) =>
        var id := Sender(c.bootstrapServers, session);
        if id.Some? { DeletedAllSorted(c, id.value, now); }
      case Tick(now, timeout, env) => StepObjects(c, now, timeout, name, env);
      case DmCreate(objectId, hasPayload, payload) =>
        var t := CreateTarget(c.objects, objectId, None, hasPayload, payload);
        if t.0 == NoError {
          ListNotFull(c.objects, objectId);
          CreateObjectAllOrNothing(c.objects, objectId, t.1, t.2);
        }
      case DmWrite(objectId, id, payload) => WriteObjectEffect(c.objects, objectId, id, NodesOf(payload));
      case DmDelete(objectId, id) => DeleteEffect(c.objects, objectId, Some(id));
      case _ =>
    }
  }

  /** Every event leaves the server lists strictly sorted and disjoint. */
  lemma EventTwoLists(c: Client, name: string, e: Event)
    requires Sorted(c.objects) && TwoLists(c)
    ensures TwoLists(Next(c, name, e).0)
  {
    hide Sorted, Commanded, DeletedAll, HandledFinish, Answered, StepFrom, StatusSet, Updated, ObjectCreate,
         ObjectWrite, ObjectDelete, Sender, Separate, SameServers;
    match e {
      case Command(session, uri, m, now) =>
        var id := Sender(c.bootstrapServers, session);
        if id.Some? {
          CommandedServers(c, id.value, uri, m, now);
          SameServersKeep(c, Commanded(c, id.value, uri, m, now).0);
        }
      case DeleteAllRequest(session, now) =>
        var id := Sender(c.bootstrapServers, session);
        if id.Some? {
          DeletedAllServers(c, id.value, now);
          SameServersKeep(c, DeletedAll(c, id.value, now).0);
        }
      case FinishRequest(session) => FinishServers(c, session);
      case Reply(id, changed, now) => ReplyServers(c, id, changed, now);
      case Tick(now, timeout, env) => if now >= 0 { StepServers(c, now, timeout, name, env); }
      case RegistrationChange(id, status) => RegistrationServers(c, id, status);
      case UpdateRequest(shortId, withObjects) => UpdatedLists(c, shortId, withObjects);
      case _ =>
    }
  }

  lemma FinishServers(c: Client, session: nat)
    requires TwoLists(c)
    ensures TwoLists(HandledFinish(c, session).0)
  {
    hide TwoLists, GotServers, Sender, SetServer, Find;
    var id := Sender(c.bootstrapServers, session);
    if id.Some? && Find(c.bootstrapServers, id.value).Some? {
      var s := Find(c.bootstrapServers, id.value).value.(status := Finishing);
      SetServerServers(c, id.value, s);
      SameServersKeep(c, SetServer(c, id.value, s));
    }
  }

  lemma ReplyServers(c: Client, id: nat, changed: bool, now: int)
    requires TwoLists(c)
    ensures TwoLists(Answered(c, id, changed, now))
  {
    hide TwoLists, SetServer, Find;
    if Find(c.bootstrapServers, id).Some? {
      var s := Replied(Find(c.bootstrapServers, id).value, changed, now);
      SetServerServers(c, id, s);
      SameServersKeep(c, SetServer(c, id, s));
    }
  }

  lemma RegistrationServers(c: Client, id: nat, status: Status)
    requires TwoLists(c)
    ensures TwoLists(StatusSet(c, id, status))
  {
    hide Put, Find;
    if Has(c.servers, id) {
      var s := Find(c.servers, id).value.(status := status);
      PutMarked(c.servers, id, s);
      MarkedSame(c.bootstrapServers);
      SameServersKeep(c, c.(servers := Put(c.servers, id, s)));
    }
  }

  /** The states a run goes through, one more than its events. */
  ghost predicate IsRun(states: seq<Client>, name: string, events: seq<Event>) {
    && |states| == |events| + 1
    && forall i :: 0 <= i < |events| && Sorted(states[i].objects) ==>
         Admissible(states[i], name, events[i]) && states[i + 1] == Next(states[i], name, events[i]).0
  }

  /** Throughout every run ids are unique, and the server lists stay strictly sorted and
      disjoint; Security writes may fail. */
  lemma {:induction false} RunOrdered(states: seq<Client>, name: string, events: seq<Event>, i: nat)
    requires IsRun(states, name, events) && i < |states| && Sorted(states[0].objects)
    ensures Sorted(states[i].objects)
    ensures Separate(states[0].bootstrapServers, states[0].servers) ==>
              Separate(states[i].bootstrapServers, states[i].servers)
  {
    hide Sorted, Next, Admissible, Separate;
    if i > 0 {
      RunOrdered(states, name, events, i - 1);
      EventSorted(states[i - 1], name, events[i - 1]);
      if TwoLists(states[i - 1]) { EventTwoLists(states[i - 1], name, events[i - 1]); }
    }
  }

  // ---------------------------------------------------------------- cache agreement

  /** The Security writes of the event answer 2.04 or leave the bootstrap flag alone. */
  ghost predicate Undisturbing(c: Client, e: Event) {
    match e
    case Command(session, uri, m, now) =>
      var id := Sender(c.bootstrapServers, session);
      id.Some? && Has(c.bootstrapServers, id.value) ==>
        HarmlessCommand(SetServer(c, id.value, Checked(Find(c.bootstrapServers, id.value).value, now).0), uri, m)
    case _ => true
  }

  lemma DmKeeps(c: Client, objectId: nat, objects: ObjectList)
    requires Inv(c) && Sorted(objects) && objectId != SECURITY_OBJECT
    requires forall x :: FlagOf(objects, x) == FlagOf(c.objects, x)
    ensures Inv(c.(objects := objects))
  {
    hide FlagOf, Sorted, Separate;
  }

  lemma DmCreateKeeps(c: Client, objectId: nat, hasPayload: bool, payload: Payload)
    requires Inv(c) && objectId != SECURITY_OBJECT && Room(c.objects, objectId, 1)
    ensures Inv(c.(objects := ObjectCreate(c.objects, objectId, None, hasPayload, payload).0))
  {
    hide Inv, CreateObject, Find, NewId;
    var t := CreateTarget(c.objects, objectId, None, hasPayload, payload);
    if t.0 == NoError {
      InvSorted(c);
      ListNotFull(c.objects, objectId);
      CreateSafe(c, objectId, t.1, t.2);
      SafeKeeps(c, c.(objects := CreateObject(c.objects, objectId, t.1, t.2).0));
    }
  }

  lemma DmWriteKeeps(c: Client, objectId: nat, id: nat, payload: Payload)
    requires Inv(c) && objectId != SECURITY_OBJECT
    ensures Inv(c.(objects := ObjectWrite(c.objects, objectId, id, payload).0))
  {
    hide Inv, WriteObject, Find, Sorted, FlagOf;
    InvSorted(c);
    WriteObjectEffect(c.objects, objectId, id, NodesOf(payload));
    DmKeeps(c, objectId, WriteObject(c.objects, objectId, id, NodesOf(payload)).0);
  }

  lemma DmDeleteKeeps(c: Client, objectId: nat, id: nat)
    requires Inv(c) && objectId != SECURITY_OBJECT
    ensures Inv(c.(objects := ObjectDelete(c.objects, objectId, Some(id)).0))
  {
    hide Inv, ObjectDelete, Sorted, FlagOf;
    InvSorted(c);
    DeleteEffect(c.objects, objectId, Some(id));
    DmKeeps(c, objectId, ObjectDelete(c.objects, objectId, Some(id)).0);
  }

  lemma FinishKeeps(c: Client, session: nat)
    requires Inv(c)
    ensures Inv(HandledFinish(c, session).0)
  {
    hide Inv, GotServers, Sender, SetServer, Find;
    var id := Sender(c.bootstrapServers, session);
    if id.Some? && Find(c.bootstrapServers, id.value).Some? {
      var s := Find(c.bootstrapServers, id.value).value;
      SetServerSafe(c, id.value, s.(status := Finishing));
    }
  }

  lemma ReplyKeeps(c: Client, id: nat, changed: bool, now: int)
    requires Inv(c)
    ensures Inv(Answered(c, id, changed, now))
  {
    hide Inv, SetServer, Find;
    if Find(c.bootstrapServers, id).Some? {
      SetServerSafe(c, id, Replied(Find(c.bootstrapServers, id).value, changed, now));
    }
  }

  lemma RegistrationKeeps(c: Client, id: nat, status: Status)
    requires Inv(c)
    ensures Inv(StatusSet(c, id, status))
  {
    hide Sorted, Put, Find, FlagOf;
    if Has(c.servers, id) {
      var s := Find(c.servers, id).value.(status := status);
      PutMarked(c.servers, id, s);
      MarkedSame(c.bootstrapServers);
      SafeKeeps(c, c.(servers := Put(c.servers, id, s)));
    }
  }

  lemma UpdateKeeps(c: Client, shortId: int, withObjects: bool)
    requires Inv(c)
    ensures Inv(Updated(c, shortId, withObjects).0)
  {
    hide Sorted, Scan, FlagOf, UpdatedServers, Separate, Agree;
    if c.servers == [] {
      ScanKeepsAgree(c.objects, InstancesOf(c.objects, SECURITY_OBJECT), c.bootstrapServers, c.servers);
    } else {
      UpdatedMarks(c.servers, shortId, withObjects);
      MarkedSame(c.bootstrapServers);
      SafeKeeps(c, Updated(c, shortId, withObjects).0);
    }
  }

  /** Every such event keeps the invariant. */
  lemma EventKeeps(c: Client, name: string, e: Event)
    requires Inv(c) && Sorted(c.objects) && Admissible(c, name, e) && Undisturbing(c, e)
    ensures Inv(Next(c, name, e).0)
  {
    hide Inv, Sorted, Commanded, DeletedAll, HandledFinish, Answered, StepFrom, StatusSet, Updated, ObjectCreate,
         ObjectWrite, ObjectDelete, Sender, SetServer, HarmlessCommand, Find, Checked, Room, RoomyPut;
    match e {
      case Command(session, uri, m, now) =>
        var id := Sender(c.bootstrapServers, session);
        if id.Some? {
          CommandedSafe(c, id.value, uri, m, now);
          SafeKeeps(c, Commanded(c, id.value, uri, m, now).0);
        }
      case DeleteAllRequest(session, now) =>
        var id := Sender(c.bootstrapServers, session);
        if id.Some? {
          DeletedAllSafe(c, id.value, now);
          SafeKeeps(c, DeletedAll(c, id.value, now).0);
        }
      case FinishRequest(session) => FinishKeeps(c, session);
      case Reply(id, changed, now) => ReplyKeeps(c, id, changed, now);
      case Tick(now, timeout, env) => if now >= 0 { StepKeeps(c, now, timeout, name, env); }
      case RegistrationChange(id, status) => RegistrationKeeps(c, id, status);
      case UpdateRequest(shortId, withObjects) => UpdateKeeps(c, shortId, withObjects);
      case DmCreate(objectId, hasPayload, payload) =>
        if objectId != SECURITY_OBJECT { DmCreateKeeps(c, objectId, hasPayload, payload); }
      case DmWrite(objectId, id, payload) =>
        if objectId != SECURITY_OBJECT { DmWriteKeeps(c, objectId, id, payload); }
      case DmDelete(objectId, id) =>
        if objectId != SECURITY_OBJECT { DmDeleteKeeps(c, objectId, id); }
    }
  }

  ghost predicate UndisturbedRun(states: seq<Client>, name: string, events: seq<Event>) {
    && IsRun(states, name, events)
    && forall i :: 0 <= i < |events| ==> Undisturbing(states[i], events[i])
  }

  /** Cache agreement holds throughout every such run. */
  lemma {:induction false} RunKeeps(states: seq<Client>, name: string, events: seq<Event>, i: nat)
    requires UndisturbedRun(states, name, events) && i < |states| && Inv(states[0])
    ensures Inv(states[i])
  {
    hide Inv, Sorted, Next, Admissible, Undisturbing;
    if i > 0 {
      RunKeeps(states, name, events, i - 1);
      InvSorted(states[i - 1]);
      EventKeeps(states[i - 1], name, events[i - 1]);
    }
  }

  /** When a refresh inside a run returns 0, the bootstrap servers are exactly the
      Security instances flagged bootstrap. */
  lemma RunRefreshExact(states: seq<Client>, name: string, events: seq<Event>, i: nat)
    requires UndisturbedRun(states, name, events) && i < |states| && Inv(states[0])
    ensures var c := states[i];
            var r := Refreshed(c.objects, c.bootstrapServers, c.servers);
            r.check.Good? ==> forall id :: Has(r.bootstrapServers, id) <==> FlagOf(c.objects, id) == Some(true)
  {
    hide Inv, UndisturbedRun, Refreshed, FlagOf, Sorted, Separate, Agree, AllClean;
    RunKeeps(states, name, events, i);
    InvParts(states[i]);
    RefreshExact(states[i].objects, states[i].bootstrapServers, states[i].servers);
  }

  lemma InvParts(c: Client)
    requires Inv(c)
    ensures Sorted(c.objects) && Separate(c.bootstrapServers, c.servers)
    ensures Agree(c.objects, c.bootstrapServers, c.servers)
  {
    hide Sorted, Separate, Agree;
  }

  // ---------------------------------------------------------------- failing Security writes

  predicate Cached(c: Client, id: nat) {
    IsClean(c.bootstrapServers, id) || IsClean(c.servers, id)
  }

  /** A write of a Security instance keeps agreement unless it fails and leaves another
      bootstrap flag behind a cached server. */
  lemma WriteAgreement(c: Client, id: nat, nodes: seq<Node>, inst: Instance)
    requires Inv(c) && Find(InstancesOf(c.objects, SECURITY_OBJECT), id) == Some(inst) && inst.Security?
    ensures var w := Written(inst, nodes);
            var r := WithTag(WithObjects(c, WriteObject(c.objects, SECURITY_OBJECT, id, nodes)), SECURITY_OBJECT, id).0;
            Agree(r.objects, r.bootstrapServers, r.servers) <==>
              w.1 == Changed || w.0.isBootstrap == inst.isBootstrap || !Cached(c, id)
  {
    hide Written, Sorted, Put, Tagged, Separate, WriteObject, IsClean;
    var w := Written(inst, nodes);
    var objects := WriteObject(c.objects, SECURITY_OBJECT, id, nodes).0;
    WriteFlag(c.objects, id, nodes, inst);
    WriteObjectEffect(c.objects, SECURITY_OBJECT, id, nodes);
    if w.1 == Changed {
      WriteSafe(c, SECURITY_OBJECT, id, nodes);
      SafeKeeps(c, Tagged(c.(objects := objects), id));
    } else {
      AgreementAfter(c, objects, id);
    }
  }

  lemma WriteFlag(objects: ObjectList, id: nat, nodes: seq<Node>, inst: Instance)
    requires Sorted(objects) && Find(InstancesOf(objects, SECURITY_OBJECT), id) == Some(inst) && inst.Security?
    ensures var r := WriteObject(objects, SECURITY_OBJECT, id, nodes);
            && r.1 == Written(inst, nodes).1
            && FlagOf(objects, id) == Some(inst.isBootstrap)
            && FlagOf(r.0, id) == Some(Written(inst, nodes).0.isBootstrap)
  {
    hide Written, Put, Sorted, WithInstances;
    var list := InstancesOf(objects, SECURITY_OBJECT);
    SortedInstances(objects, SECURITY_OBJECT);
    SortedAscending(objects);
    PutFind(list, id, Written(inst, nodes).0, id);
    WithInstancesFind(objects, SECURITY_OBJECT, Put(list, id, Written(inst, nodes).0), SECURITY_OBJECT);
  }

  lemma AgreementAfter(c: Client, objects: ObjectList, id: nat)
    requires Agree(c.objects, c.bootstrapServers, c.servers)
    requires forall x :: x != id ==> FlagOf(objects, x) == FlagOf(c.objects, x)
    requires FlagOf(objects, id).Some?
    ensures Agree(objects, c.bootstrapServers, c.servers) <==>
            FlagOf(objects, id) == FlagOf(c.objects, id) || !Cached(c, id)
  {
    hide FlagOf, IsClean;
    assert Cached(c, id) <==> IsClean(c.bootstrapServers, id) || IsClean(c.servers, id);
  }

  /** Read off the request: agreement is lost in exactly one case.  Some node is refused, the
      last bootstrap flag in front of the first refused node differs from the flag of the
      instance, and the server is cached.  The nodes in front stay applied, and the server is
      not marked. */
  lemma WriteAgreementExact(c: Client, id: nat, nodes: seq<Node>, inst: Instance)
    requires Inv(c) && Find(InstancesOf(c.objects, SECURITY_OBJECT), id) == Some(inst) && inst.Security?
    ensures var p := TakenCount(nodes);
            var r := WithTag(WithObjects(c, WriteObject(c.objects, SECURITY_OBJECT, id, nodes)), SECURITY_OBJECT, id).0;
            Agree(r.objects, r.bootstrapServers, r.servers) <==>
              || p == |nodes|
              || LastFlag(nodes[..p]) == None || LastFlag(nodes[..p]) == Some(inst.isBootstrap)
              || !Cached(c, id)
  {
    hide Inv, Written, WriteObject, Agree, Cached, TakenCount, LastFlag, WithTag, FlagOf, Find;
    WriteAgreement(c, id, nodes, inst);
    if nodes == [] { NothingWritten(inst); } else { SecurityWritten(inst, nodes); }
  }

  lemma NothingWritten(inst: Instance)
    ensures Written(inst, []) == (inst, Crash) && TakenCount([]) == 0
  {}

  /** The flag is set before an unknown resource is refused. */
  lemma FlagSetThenRefused(inst: Instance, flag: Node, unknown: Node)
    requires inst.Security? && flag.id == 1 && flag.asBool == Some(!inst.isBootstrap) && unknown.id > 12
    ensures Written(inst, [flag, unknown]) == (inst.(isBootstrap := !inst.isBootstrap), BadRequest)
  {
    assert [flag, unknown][1..] == [unknown];
  }

  /** A client with one bootstrap server, cached under Security instance 5. */
  function OneServer(): Client {
    Client([Entry(SECURITY_OBJECT, Obj([Entry(5, Security(true, 0, 0, 0, 0))], true, true, true))],
           [Entry(5, Server(0, 0, 0, Pending, None, false))], [], Bootstrapping)
  }

  lemma OneServerAgrees()
    ensures var c := OneServer();
            && Inv(c) && Cached(c, 5)
            && Find(InstancesOf(c.objects, SECURITY_OBJECT), 5) == Some(Security(true, 0, 0, 0, 0))
  {
    var c := OneServer();
    var list: Instances := [Entry(5, Security(true, 0, 0, 0, 0))];
    assert InstancesOf(c.objects, SECURITY_OBJECT) == list;
    forall x
      ensures Has(c.bootstrapServers, x) ==> x == 5 && FlagOf(c.objects, x) == Some(true)
      ensures !Has(c.servers, x)
    {}
    assert Has(c.bootstrapServers, 5);
  }

  /** A PUT that clears the flag of that instance and then names an unknown resource leaves
      a clean server in the wrong list. */
  lemma AgreementLost(flag: Node, unknown: Node)
    requires flag.id == 1 && flag.asBool == Some(false) && unknown.id > 12
    ensures var r := PutInstance(OneServer(), SECURITY_OBJECT, 5, Message(PutVerb, true, Nodes([flag, unknown]))).0;
            !Agree(r.objects, r.bootstrapServers, r.servers)
  {
    hide Agree, WriteObject, Written, Cached, Inv;
    var c := OneServer();
    var nodes := [flag, unknown];
    OneServerAgrees();
    assert nodes[1..] == [unknown] && nodes[..1] == [flag] && [flag][1..] == [];
    assert TakenCount(nodes) == 1 && LastFlag(nodes[..1]) == Some(false);
    WriteAgreementExact(c, 5, nodes, Security(true, 0, 0, 0, 0));
  }
}
