/** The status of a bootstrap server over whole runs. */
module BootstrapStatus {
  import opened Text
  import opened Uris
  import opened IdLists
  import opened Context
  import opened Objects
  import opened ServerLists
  import opened Bootstrap
  import opened DeleteAll
  import opened ClientStep
  import opened RegistrationUpdate
  import opened BootstrapSafety
  import opened BootstrapOrder
  import opened BootstrapRuns

  // ---------------------------------------------------------------- the order of the statuses

  function Level(s: Status): nat {
    match s
    case Deregistered => 0
    case HoldOff => 1
    case Initiated => 2
    case Pending => 3
    case Finishing => 4
    case Failing => 4
    case Finished => 5
    case Failed => 5
    case _ => 6
  }

  /** Later in the order DEREGISTERED, HOLD_OFF, INITIATED, PENDING, then FINISHING to
      FINISHED or FAILING to FAILED, never crossing. */
  predicate Forward(a: Status, b: Status) {
    || a == b
    || (Level(a) < Level(b) <= 5 && (a.Finishing? ==> b.Finished?) && (a.Failing? ==> b == Status.Failed))
  }

  ghost predicate Onward(a: Servers, b: Servers) {
    && |a| == |b|
    && forall i :: 0 <= i < |a| ==> a[i].id == b[i].id && Forward(a[i].body.status, b[i].body.status)
  }

  /** Onward, and no server begins to finish. */
  ghost predicate Quiet(a: Servers, b: Servers) {
    && Onward(a, b)
    && forall i :: 0 <= i < |a| && b[i].body.status.Finishing? ==> a[i].body.status.Finishing?
  }

  lemma QuietThen(a: Servers, b: Servers, d: Servers)
    requires Quiet(a, b) && Quiet(b, d)
    ensures Quiet(a, d)
  {
    forall i | 0 <= i < |a|
      ensures Forward(a[i].body.status, d[i].body.status)
    {
      assert Forward(a[i].body.status, b[i].body.status) && Forward(b[i].body.status, d[i].body.status);
    }
  }

  /** The same of lists that may gain servers in between: each server is still there and
      its status has moved forward only. */
  ghost predicate Later(a: Servers, b: Servers) {
    forall x :: Has(a, x) ==> Has(b, x) && Forward(Find(a, x).value.status, Find(b, x).value.status)
  }

  /** Later, and no server begins to finish. */
  ghost predicate Calm(a: Servers, b: Servers) {
    && Later(a, b)
    && forall x :: Has(b, x) && Find(b, x).value.status.Finishing? ==> Has(a, x) && Find(a, x).value.status.Finishing?
  }

  lemma SameIdsFind(a: Servers, b: Servers, x: nat)
    requires |a| == |b| && forall i :: 0 <= i < |a| ==> a[i].id == b[i].id
    ensures Has(a, x) == Has(b, x)
    ensures Has(a, x) ==> Position(a, x) < |a| && Find(a, x) == Some(a[Position(a, x)].body)
                          && Find(b, x) == Some(b[Position(a, x)].body)
  {
    PositionSame(a, b, x);
  }

  lemma OnwardLater(a: Servers, b: Servers)
    requires Onward(a, b)
    ensures Later(a, b)
  {
    hide Find, Position, Forward;
    forall x | Has(a, x)
      ensures Has(b, x) && Forward(Find(a, x).value.status, Find(b, x).value.status)
    {
      SameIdsFind(a, b, x);
    }
  }

  lemma QuietCalm(a: Servers, b: Servers)
    requires Quiet(a, b)
    ensures Calm(a, b)
  {
    hide Find, Position, Forward;
    OnwardLater(a, b);
    forall x | Has(b, x) && Find(b, x).value.status.Finishing?
      ensures Has(a, x) && Find(a, x).value.status.Finishing?
    {
      SameIdsFind(a, b, x);
    }
  }

  lemma LaterThen(a: Servers, b: Servers, d: Servers)
    requires Later(a, b) && Later(b, d)
    ensures Later(a, d)
  {
    hide Find, Position;
    forall x | Has(a, x)
      ensures Has(d, x) && Forward(Find(a, x).value.status, Find(d, x).value.status)
    {
      assert Has(b, x) && Forward(Find(a, x).value.status, Find(b, x).value.status);
    }
  }

  lemma CalmThen(a: Servers, b: Servers, d: Servers)
    requires Calm(a, b) && Calm(b, d)
    ensures Calm(a, d)
  {
    hide Find, Later;
    LaterThen(a, b, d);
  }

  lemma QuietSame(a: Servers)
    ensures Quiet(a, a)
  {}

  lemma PutQuiet(list: Servers, id: nat, s: Server)
    requires Has(list, id) ==>
               && Forward(Find(list, id).value.status, s.status)
               && (s.status.Finishing? ==> Find(list, id).value.status.Finishing?)
    ensures Quiet(list, Put(list, id, s))
  {
    hide Forward;
    QuietSame(list);
  }

  // ---------------------------------------------------------------- requests

  /** No status changes. */
  ghost predicate Steady(a: Servers, b: Servers) {
    && |a| == |b|
    && forall i :: 0 <= i < |a| ==> a[i].id == b[i].id && a[i].body.status == b[i].body.status
  }

  lemma SteadyThen(a: Servers, b: Servers, d: Servers)
    requires Steady(a, b) && Steady(b, d)
    ensures Steady(a, d)
  {}

  lemma SteadyQuiet(a: Servers, b: Servers)
    requires Steady(a, b)
    ensures Quiet(a, b)
  {}

  lemma SteadyFind(a: Servers, b: Servers, id: nat)
    requires Steady(a, b)
    ensures Has(a, id) == Has(b, id)
    ensures Has(a, id) ==> Find(a, id).value.status == Find(b, id).value.status
  {
    PositionSame(a, b, id);
  }

  lemma TaggedSteady(c: Client, id: nat)
    ensures Steady(c.bootstrapServers, Tagged(c, id).bootstrapServers)
  {}

  lemma AllDirtiedSteady(list: Servers, except: Option<nat>)
    ensures Steady(list, AllDirtied(list, except))
  {}

  lemma PutNodeSteady(c: Client, objectId: nat, n: Node)
    ensures Steady(c.bootstrapServers, PutNode(c, objectId, n).0.bootstrapServers)
  {
    hide WriteObject, CreateObject, Tagged, Find, NewId;
    if Find(c.objects, objectId).Some? {
      TaggedSteady(WithObjects(c, WriteObject(c.objects, objectId, n.id, n.children)).0, n.id);
    }
  }

  lemma {:induction false} PutNodesSteady(c: Client, objectId: nat, nodes: seq<Node>, code: Code)
    ensures Steady(c.bootstrapServers, PutNodes(c, objectId, nodes, code).0.bootstrapServers)
    decreases |nodes|
  {
    hide PutNode, Steady;
    SteadySame(c.bootstrapServers);
    if nodes != [] {
      if !nodes[0].kind.InstanceNode? {
        PutNodesSteady(c, objectId, nodes[1..], BadRequest);
      } else {
        PutNodeSteady(c, objectId, nodes[0]);
        var r := PutNode(c, objectId, nodes[0]);
        if r.1 == Changed {
          PutNodesSteady(r.0, objectId, nodes[1..], Changed);
          SteadyThen(c.bootstrapServers, r.0.bootstrapServers,
                     PutNodes(r.0, objectId, nodes[1..], Changed).0.bootstrapServers);
        }
      }
    }
  }

  lemma SteadySame(a: Servers)
    ensures Steady(a, a)
  {}

  lemma PutCommandSteady(c: Client, uri: Uri, m: Message)
    ensures Steady(c.bootstrapServers, PutCommand(c, uri, m).0.bootstrapServers)
  {
    hide ObjectCreate, ObjectWrite, Tagged, PutNodes, Steady;
    SteadySame(c.bootstrapServers);
    if uri.instanceId.Some? {
      var id := uri.instanceId.value;
      TaggedSteady(WithObjects(c, ObjectWrite(c.objects, uri.objectId, id, m.payload)).0, id);
    } else {
      PutNodesSteady(c, uri.objectId, NodesOf(m.payload), NoError);
    }
  }

  lemma DeleteCommandSteady(c: Client, uri: Uri)
    ensures Steady(c.bootstrapServers, DeleteCommand(c, uri).0.bootstrapServers)
  {
    hide ObjectDelete, Tagged, Steady, AllDirtied;
    SteadySame(c.bootstrapServers);
    AllDirtiedSteady(c.bootstrapServers, None);
    if uri.instanceId.Some? {
      TaggedSteady(WithObjects(c, ObjectDelete(c.objects, uri.objectId, uri.instanceId)).0, uri.instanceId.value);
    }
  }

  /** The server of an accepted request stands at DEREGISTERED or PENDING. */
  lemma CheckedForward(s: Server, now: int)
    ensures var r := Checked(s, now);
            && Forward(s.status, r.0.status) && (r.0.status.Finishing? ==> s.status.Finishing?)
            && (r.1 == NoError ==> r.0.status.Deregistered? || r.0.status.Pending?)
            && (r.1 != NoError ==> r == (s, Ignore))
  {}

  lemma ConcludedQuiet(r: (Client, Code), id: nat, list: Servers)
    requires Steady(list, r.0.bootstrapServers)
    requires Has(list, id) ==> Find(list, id).value.status.Deregistered? || Find(list, id).value.status.Pending?
    ensures Quiet(list, Concluded(r, id).0.bootstrapServers)
  {
    hide Put, Find;
    SteadyFind(list, r.0.bootstrapServers, id);
    SteadyQuiet(list, r.0.bootstrapServers);
    HasFound(r.0.bootstrapServers, id);
    if Has(r.0.bootstrapServers, id) {
      var s := Find(r.0.bootstrapServers, id).value;
      PutQuiet(r.0.bootstrapServers, id, s.(status := Pending));
      QuietThen(list, r.0.bootstrapServers, Put(r.0.bootstrapServers, id, s.(status := Pending)));
    }
  }

  lemma PutFound(list: Servers, id: nat, s: Server)
    requires Has(list, id)
    ensures Has(Put(list, id, s), id) && Find(Put(list, id, s), id).value == s
  {
    PositionSame(list, Put(list, id, s), id);
  }

  lemma CommandedQuiet(c: Client, id: nat, uri: Uri, m: Message, now: int)
    ensures Quiet(c.bootstrapServers, Commanded(c, id, uri, m, now).0.bootstrapServers)
  {
    hide Find, Checked, Put, PutCommand, DeleteCommand, Concluded, Quiet, Steady, Forward;
    var list := c.bootstrapServers;
    QuietSame(list);
    HasFound(list, id);
    if Has(list, id) {
      var s := Find(list, id).value;
      CheckedForward(s, now);
      var c1 := SetServer(c, id, Checked(s, now).0);
      PutQuiet(list, id, Checked(s, now).0);
      PutFound(list, id, Checked(s, now).0);
      if Checked(s, now).1 == NoError {
        match m.verb {
          case PutVerb =>
            PutCommandSteady(c1, uri, m);
            ConcludedQuiet(PutCommand(c1, uri, m), id, c1.bootstrapServers);
            QuietThen(list, c1.bootstrapServers, Concluded(PutCommand(c1, uri, m), id).0.bootstrapServers);
          case DeleteVerb =>
            DeleteCommandSteady(c1, uri);
            ConcludedQuiet(DeleteCommand(c1, uri), id, c1.bootstrapServers);
            QuietThen(list, c1.bootstrapServers, Concluded(DeleteCommand(c1, uri), id).0.bootstrapServers);
          case _ =>
        }
      }
    }
  }

  lemma {:induction false} ClearFromSteady(c: Client, i: nat, keep: nat, code: Code)
    requires Sorted(c.objects)
    ensures Steady(c.bootstrapServers, ClearFrom(c, i, keep, code).0.bootstrapServers)
    decreases |c.objects| - i
  {
    hide Sorted, ClearSecurity, ObjectDelete, AllDirtied, Steady;
    SteadySame(c.bootstrapServers);
    if i < |c.objects| {
      if c.objects[i].id == SECURITY_OBJECT {
        ClearSecurityKeeps(c.objects, 0, keep, code);
        var r := ClearSecurity(c.objects, 0, keep, code);
        var c1 := c.(objects := r.0);
        var t := if r.1 == Deleted then TaggedAll(c1, Some(keep)) else c1;
        AllDirtiedSteady(c.bootstrapServers, Some(keep));
        ClearFromSteady(t, i + 1, keep, r.1);
        SteadyThen(c.bootstrapServers, t.bootstrapServers, ClearFrom(t, i + 1, keep, r.1).0.bootstrapServers);
      } else {
        DeleteObjectKeeps(c.objects, c.objects[i].id);
        var r := ObjectDelete(c.objects, c.objects[i].id, None);
        ClearFromSteady(c.(objects := r.0), i + 1, keep, if r.1 == NotAllowed then Deleted else r.1);
      }
    }
  }

  lemma DeletedAllQuiet(c: Client, id: nat, now: int)
    requires Sorted(c.objects)
    ensures Quiet(c.bootstrapServers, DeletedAll(c, id, now).0.bootstrapServers)
  {
    hide Find, Checked, Put, ClearFrom, Quiet, Steady, Forward, Sorted;
    var list := c.bootstrapServers;
    QuietSame(list);
    HasFound(list, id);
    if Has(list, id) {
      var s := Find(list, id).value;
      CheckedForward(s, now);
      var c1 := SetServer(c, id, Checked(s, now).0);
      PutQuiet(list, id, Checked(s, now).0);
      ClearFromSteady(c1, 0, id, Deleted);
      SteadyQuiet(c1.bootstrapServers, ClearFrom(c1, 0, id, Deleted).0.bootstrapServers);
      QuietThen(list, c1.bootstrapServers, ClearFrom(c1, 0, id, Deleted).0.bootstrapServers);
    }
  }

  // ---------------------------------------------------------------- steps and replies

  lemma SteppedForward(id: nat, s: Server, now: int, timeout: int, name: string, net: Net)
    ensures var r := SteppedServer(id, s, now, timeout, name, net).0;
            Forward(s.status, r.status) && !(r.status.Finishing? && !s.status.Finishing?)
  {}

  lemma {:induction false} SteppedQuiet(list: Servers, now: int, timeout: int, name: string, net: Net)
    ensures Quiet(list, Stepped(list, now, timeout, name, net).0)
    decreases |list|
  {
    hide SteppedServer, Forward;
    if list != [] {
      SteppedForward(list[0].id, list[0].body, now, timeout, name, net);
      SteppedQuiet(list[1..], now, SteppedServer(list[0].id, list[0].body, now, timeout, name, net).1, name, net);
    }
  }

  /** A step that starts the bootstrap servers over: it refreshes the lists or calls
      `bootstrap_start`. */
  predicate Resets(c: Client, e: Event) {
    && e.Tick? && e.now >= 0
    && match c.state
       case Initial => true
       case BootstrapRequired => true
       case Bootstrapping => OverallStatus(c.bootstrapServers) == Finished
       case RegisterRequired => false
       case _ => e.env.registrationStatus == RegFailed
  }

  lemma TickQuiet(c: Client, now: int, timeout: int, name: string, env: Env)
    requires !Resets(c, Tick(now, timeout, env))
    ensures Quiet(c.bootstrapServers, ClientStepped(c, now, timeout, name, env).client.bootstrapServers)
  {
    hide Stepped, Started, Refreshed, OverallStatus, Quiet;
    QuietSame(c.bootstrapServers);
    SteppedQuiet(c.bootstrapServers, now, timeout, name, env.net);
  }

  lemma ReplyQuiet(c: Client, id: nat, changed: bool, now: int)
    ensures Quiet(c.bootstrapServers, Answered(c, id, changed, now).bootstrapServers)
  {
    hide Put, Find, Quiet;
    QuietSame(c.bootstrapServers);
    HasFound(c.bootstrapServers, id);
    if Has(c.bootstrapServers, id) {
      PutQuiet(c.bootstrapServers, id, Replied(Find(c.bootstrapServers, id).value, changed, now));
    }
  }

  /** A reply changes something if and only if the server it belongs to is INITIATED; then
      that server goes to PENDING, with a new timer, or to FAILING and no other changes. */
  lemma ReplyExact(c: Client, id: nat, changed: bool, now: int)
    requires Ascending(c.bootstrapServers)
    ensures var r := Answered(c, id, changed, now);
            var initiated := Has(c.bootstrapServers, id) && Find(c.bootstrapServers, id).value.status.Initiated?;
            && (r == c <==> !initiated)
            && (initiated ==>
                  && Has(r.bootstrapServers, id)
                  && Find(r.bootstrapServers, id).value.status == (if changed then Pending else Failing)
                  && (changed ==> Find(r.bootstrapServers, id).value.registration == now + 247)
                  && forall x :: x != id ==> Find(r.bootstrapServers, x) == Find(c.bootstrapServers, x))
  {
    hide Put, Find;
    var list := c.bootstrapServers;
    HasFound(list, id);
    if Has(list, id) {
      var s := Find(list, id).value;
      var next := Replied(s, changed, now);
      PutSame(list, id, s);
      forall x
        ensures Find(Put(list, id, next), x) == if x == id then Some(next) else Find(list, x)
      {
        PutFind(list, id, next, x);
      }
      HasFound(Put(list, id, next), id);
    }
  }

  lemma PutSame(list: Servers, id: nat, s: Server)
    requires Find(list, id) == Some(s)
    ensures Put(list, id, s) == list
  {}

  // ---------------------------------------------------------------- servers read in between

  lemma AddCalm(list: Servers, id: nat, s: Server)
    requires !Has(list, id) && !s.status.Finishing?
    ensures Calm(list, Add(list, id, s))
  {
    hide Add, Find;
    forall x
      ensures Find(Add(list, id, s), x) == if x == id then Some(s) else Find(list, x)
    {
      AddFind(list, id, s, x);
    }
  }

  /** A scan adds bootstrap servers and changes the status of none. */
  lemma {:induction false} ScanCalm(objects: ObjectList, list: Instances, bs: Servers, sv: Servers)
    ensures Calm(bs, Scan(objects, list, bs, sv, false).bootstrapServers)
    decreases |list|
  {
    hide Contributed, Add, Calm, Has;
    QuietSame(bs);
    QuietCalm(bs, bs);
    if list != [] {
      var id := list[0].id;
      if Known(bs, sv, id) {
        ScanCalm(objects, list[1..], bs, sv);
      } else {
        DeregisteredServer(objects, id);
        match Contributed(objects, id) {
          case NewBootstrap(s) =>
            AddCalm(bs, id, s);
            ScanCalm(objects, list[1..], Add(bs, id, s), sv);
            CalmThen(bs, Add(bs, id, s), Scan(objects, list[1..], Add(bs, id, s), sv, false).bootstrapServers);
          case NewServer(s) => ScanCalm(objects, list[1..], bs, Add(sv, id, s));
          case Nobody => ScanCalm(objects, list[1..], bs, sv);
          case _ =>
        }
      }
    }
  }

  lemma DeregisteredServer(objects: ObjectList, id: nat)
    ensures Contributed(objects, id).NewBootstrap? ==> Contributed(objects, id).server.status == Deregistered
  {}

  lemma UpdateCalm(c: Client, shortId: int, withObjects: bool)
    ensures Calm(c.bootstrapServers, Updated(c, shortId, withObjects).0.bootstrapServers)
  {
    hide Scan, Calm, UpdatedServers;
    QuietSame(c.bootstrapServers);
    QuietCalm(c.bootstrapServers, c.bootstrapServers);
    ScanCalm(c.objects, InstancesOf(c.objects, SECURITY_OBJECT), c.bootstrapServers, c.servers);
  }

  // ---------------------------------------------------------------- the finish request

  /** FINISHING is entered exactly when the server that sends the finish request stands at
      PENDING and reading what the lists do not know yet would succeed for real; nothing else
      changes.  A request of any other server is ignored, and 4.06 says that reading would fail.
      Servers marked dirty count as known here, and only here (`BootstrapFinish`). */
  lemma FinishExact(c: Client, session: nat)
    requires Ascending(c.bootstrapServers) && Ascending(c.servers)
    ensures var r := HandledFinish(c, session);
            var id := Sender(c.bootstrapServers, session);
            var pending := id.Some? && Has(c.bootstrapServers, id.value)
              && Find(c.bootstrapServers, id.value).value.status.Pending?;
            var check := GotServers(c.objects, c.bootstrapServers, c.servers, false).check;
            var accepted := pending && check.Good?;
            && (r.1 == Changed <==> accepted)
            && (r.1 == Ignore <==> !pending)
            && (r.1 == NotAcceptable <==> pending && check.Bad?)
            && (r.1 == Crash <==> pending && check.Fault?)
            && r.0 == (if accepted
                       then SetServer(c, id.value, Find(c.bootstrapServers, id.value).value.(status := Finishing))
                       else c)
  {
    hide GotServers, Find, Sender, SetServer;
    DryRunEqualsRealRun(c.objects, c.bootstrapServers, c.servers);
    var id := Sender(c.bootstrapServers, session);
    if id.Some? { HasFound(c.bootstrapServers, id.value); }
  }

  lemma FinishOnward(c: Client, session: nat)
    ensures Onward(c.bootstrapServers, HandledFinish(c, session).0.bootstrapServers)
  {
    hide GotServers, Find, Sender, Onward, Put;
    var id := Sender(c.bootstrapServers, session);
    QuietSame(c.bootstrapServers);
    QuietOnward(c.bootstrapServers, c.bootstrapServers);
    if id.Some? {
      HasFound(c.bootstrapServers, id.value);
      if Has(c.bootstrapServers, id.value) && Find(c.bootstrapServers, id.value).value.status.Pending? {
        PutOnward(c.bootstrapServers, id.value, Find(c.bootstrapServers, id.value).value);
      }
    }
  }

  lemma PutOnward(list: Servers, id: nat, s: Server)
    requires Has(list, id) && Find(list, id).value == s && s.status.Pending?
    ensures Onward(list, Put(list, id, s.(status := Finishing)))
  {}

  /** A server that is finishing, failing, finished or failed can no longer change
      anything. */
  lemma Frozen(c: Client, id: nat, uri: Uri, m: Message, session: nat, now: int)
    requires Sorted(c.objects) && Has(c.bootstrapServers, id)
    requires Level(Find(c.bootstrapServers, id).value.status) >= 4
    ensures Commanded(c, id, uri, m, now) == (c, Ignore)
    ensures DeletedAll(c, id, now) == (c, Ignore)
    ensures Sender(c.bootstrapServers, session) == Some(id) ==> HandledFinish(c, session) == (c, Ignore)
  {
    hide Find, Concluded, PutCommand, DeleteCommand, ClearFrom, GotServers, Sender, SetServer, Sorted;
    HasFound(c.bootstrapServers, id);
  }

  // ---------------------------------------------------------------- runs

  /** Only a finish request lets a server begin to finish. */
  lemma EventQuiet(c: Client, name: string, e: Event)
    requires Sorted(c.objects) && !Resets(c, e) && !e.FinishRequest?
    ensures Calm(c.bootstrapServers, Next(c, name, e).0.bootstrapServers)
  {
    hide Quiet, Calm, Commanded, DeletedAll, Answered, ClientStepped, ObjectCreate, ObjectWrite, ObjectDelete, Sender,
         Sorted, Resets, Updated;
    QuietSame(c.bootstrapServers);
    match e {
      case Command(session, uri, m, now) =>
        var id := Sender(c.bootstrapServers, session);
        if id.Some? { CommandedQuiet(c, id.value, uri, m, now); }
      case DeleteAllRequest(session, now) =>
        var id := Sender(c.bootstrapServers, session);
        if id.Some? { DeletedAllQuiet(c, id.value, now); }
      case Reply(id, changed, now) => ReplyQuiet(c, id, changed, now);
      case Tick(now, timeout, env) => TickQuiet(c, now, timeout, name, env);
      case UpdateRequest(shortId, withObjects) => UpdateCalm(c, shortId, withObjects);
      case _ =>
    }
    if !e.UpdateRequest? { QuietCalm(c.bootstrapServers, Next(c, name, e).0.bootstrapServers); }
  }

  lemma EventOnward(c: Client, name: string, e: Event)
    requires Sorted(c.objects) && !Resets(c, e)
    ensures Later(c.bootstrapServers, Next(c, name, e).0.bootstrapServers)
  {
    hide Later, Onward, HandledFinish, Sorted, Resets, Commanded, DeletedAll, Answered, ClientStepped, ObjectCreate,
         ObjectWrite, ObjectDelete, Sender, Updated;
    if e.FinishRequest? {
      FinishOnward(c, e.session);
      OnwardLater(c.bootstrapServers, Next(c, name, e).0.bootstrapServers);
    } else {
      EventQuiet(c, name, e);
    }
  }

  lemma QuietOnward(a: Servers, b: Servers)
    requires Quiet(a, b)
    ensures Onward(a, b)
  {}

  /** Between two resets every bootstrap server stays and only moves forward, whatever the
      events. */
  lemma {:induction false} RunOnward(states: seq<Client>, name: string, events: seq<Event>, i: nat, j: nat)
    requires IsRun(states, name, events) && i <= j < |states| && Sorted(states[0].objects)
    requires forall k :: i <= k < j ==> !Resets(states[k], events[k])
    ensures Later(states[i].bootstrapServers, states[j].bootstrapServers)
    decreases j - i
  {
    hide Sorted, Next, Admissible, Later, Resets, Separate;
    if i < j {
      RunOnward(states, name, events, i, j - 1);
      RunOrdered(states, name, events, j - 1);
      EventOnward(states[j - 1], name, events[j - 1]);
      LaterThen(states[i].bootstrapServers, states[j - 1].bootstrapServers, states[j].bootstrapServers);
    } else {
      QuietSame(states[i].bootstrapServers);
      QuietCalm(states[i].bootstrapServers, states[i].bootstrapServers);
    }
  }
}
