/** Which requests of a bootstrap server are accepted, what they do to the objects, and what
    they leave of the server, its timer and the state of the client. */
module BootstrapCommands {
  import opened Text
  import opened Uris
  import opened IdLists
  import opened Context
  import opened Objects
  import opened ObjectRequests
  import opened ServerLists
  import opened Bootstrap
  import opened BootstrapSafety
  import opened BootstrapRuns

  // ---------------------------------------------------------------- the server

  /** The server at `k` is the first with the session. */
  ghost predicate IsSender(list: Servers, session: nat, k: nat) {
    && k < |list| && list[k].body.session == Some(session)
    && forall j :: 0 <= j < k ==> list[j].body.session != Some(session)
  }

  lemma {:induction false} SenderExact(list: Servers, session: nat)
    ensures forall k: nat :: IsSender(list, session, k) ==> Sender(list, session) == Some(list[k].id)
    ensures (forall k: nat :: !IsSender(list, session, k)) ==> Sender(list, session) == None
    decreases |list|
  {
    if list != [] {
      var tail := list[1..];
      assert forall j :: 0 <= j < |tail| ==> tail[j] == list[j + 1];
      SenderExact(tail, session);
      if list[0].body.session == Some(session) {
        assert IsSender(list, session, 0);
      } else {
        forall k: nat | k > 0
          ensures IsSender(list, session, k) <==> IsSender(tail, session, k - 1)
        {
          SenderBehind(list, session, k);
        }
        forall k: nat | IsSender(tail, session, k)
          ensures IsSender(list, session, k + 1)
        {
          SenderBehind(list, session, k + 1);
        }
      }
    }
  }

  lemma SenderBehind(list: Servers, session: nat, k: nat)
    requires list != [] && list[0].body.session != Some(session) && k > 0
    ensures IsSender(list, session, k) <==> IsSender(list[1..], session, k - 1)
  {
    var tail := list[1..];
    assert forall j :: 0 <= j < |tail| ==> tail[j] == list[j + 1];
    if IsSender(tail, session, k - 1) {
      forall j | 0 <= j < k
        ensures list[j].body.session != Some(session)
      {
        if j > 0 { assert tail[j - 1] == list[j]; }
      }
    }
  }

  // ---------------------------------------------------------------- no answer is taken for silence

  lemma WrittenAnswers(inst: Instance, nodes: seq<Node>)
    ensures Written(inst, nodes).1 != Ignore
  {
    hide ApplyNode, IsBinding;
    if nodes != [] {
      WrittenExact(inst, nodes);
      assert forall n :: Refusal(inst, n) != Ignore;
    }
  }

  lemma ObjectsAnswer(objects: ObjectList, objectId: nat, id: nat, nodes: seq<Node>)
    ensures WriteObject(objects, objectId, id, nodes).1 != Ignore
    ensures CreateObject(objects, objectId, id, nodes).1 != Ignore
  {
    hide Written, Put, Find, Add, Remove, WithInstances;
    var list := InstancesOf(objects, objectId);
    var added := Add(list, id, Zeroed(objectId));
    if Find(list, id).Some? { WrittenAnswers(Find(list, id).value, nodes); }
    if Find(added, id).Some? { WrittenAnswers(Find(added, id).value, nodes); }
  }

  lemma PutInstanceAnswers(c: Client, objectId: nat, id: nat, m: Message)
    ensures PutInstance(c, objectId, id, m).1 != Ignore
  {
    hide WriteObject, CreateObject, Tagged, Find, NewId;
    ObjectsAnswer(c.objects, objectId, id, NodesOf(m.payload));
    var t := CreateTarget(c.objects, objectId, Some(id), m.hasPayload, m.payload);
    ObjectsAnswer(c.objects, objectId, t.1, t.2);
  }

  lemma PutNodeAnswers(c: Client, objectId: nat, n: Node)
    ensures PutNode(c, objectId, n).1 != Ignore
  {
    hide WriteObject, CreateObject, Tagged, Find, NewId;
    ObjectsAnswer(c.objects, objectId, n.id, n.children);
    if Find(c.objects, objectId).Some? {
      ObjectsAnswer(c.objects, objectId, NewId(Find(c.objects, objectId).value.instances), n.children);
    }
  }

  lemma {:induction false} PutNodesAnswer(c: Client, objectId: nat, nodes: seq<Node>, code: Code)
    requires code != Ignore
    ensures PutNodes(c, objectId, nodes, code).1 != Ignore
    decreases |nodes|
  {
    hide PutNode;
    if nodes != [] {
      PutNodeAnswers(c, objectId, nodes[0]);
      if !nodes[0].kind.InstanceNode? {
        PutNodesAnswer(c, objectId, nodes[1..], BadRequest);
      } else {
        PutNodesAnswer(PutNode(c, objectId, nodes[0]).0, objectId, nodes[1..], Changed);
      }
    }
  }

  lemma CommandsAnswer(c: Client, uri: Uri, m: Message)
    ensures PutCommand(c, uri, m).1 != Ignore && DeleteCommand(c, uri).1 != Ignore
  {
    hide PutInstance, PutNodes, Tagged, TaggedAll, Find, WithInstances, DeleteIn;
    if uri.instanceId.Some? { PutInstanceAnswers(c, uri.objectId, uri.instanceId.value, m); }
    PutNodesAnswer(c, uri.objectId, NodesOf(m.payload), NoError);
    DeleteAnswers(c.objects, uri.objectId, uri.instanceId);
  }

  lemma DeleteAnswers(objects: ObjectList, objectId: nat, instance: Option<nat>)
    ensures ObjectDelete(objects, objectId, instance).1 != Ignore
  {
    hide Find, WithInstances, Remove;
  }

  // ---------------------------------------------------------------- what happens to the servers

  /** The same servers, apart from dirty marks that are set. */
  ghost predicate MarksOnly(a: Servers, b: Servers) {
    && |a| == |b|
    && forall i :: 0 <= i < |a| ==>
         && b[i].id == a[i].id && b[i].body == a[i].body.(dirty := b[i].body.dirty)
         && (a[i].body.dirty ==> b[i].body.dirty)
  }

  lemma MarksSelf(a: Servers)
    ensures MarksOnly(a, a)
  {}

  lemma MarksThen(a: Servers, b: Servers, d: Servers)
    requires MarksOnly(a, b) && MarksOnly(b, d)
    ensures MarksOnly(a, d)
  {}

  lemma TaggedMarks(c: Client, id: nat)
    ensures MarksOnly(c.bootstrapServers, Tagged(c, id).bootstrapServers) && Tagged(c, id).state == c.state
    ensures Tagged(c, id).objects == c.objects
  {
    MarksSelf(c.bootstrapServers);
  }

  lemma TaggedAllMarks(c: Client, except: Option<nat>)
    ensures MarksOnly(c.bootstrapServers, TaggedAll(c, except).bootstrapServers)
    ensures TaggedAll(c, except).state == c.state
  {}

  lemma PutInstanceMarks(c: Client, objectId: nat, id: nat, m: Message)
    ensures var r := PutInstance(c, objectId, id, m).0;
            MarksOnly(c.bootstrapServers, r.bootstrapServers) && r.state == c.state
  {
    hide ObjectCreate, ObjectWrite, Tagged, MarksOnly;
    MarksSelf(c.bootstrapServers);
    var w := WithObjects(c, ObjectWrite(c.objects, objectId, id, m.payload));
    TaggedMarks(w.0, id);
  }

  lemma PutNodeMarks(c: Client, objectId: nat, n: Node)
    ensures var r := PutNode(c, objectId, n).0;
            MarksOnly(c.bootstrapServers, r.bootstrapServers) && r.state == c.state
  {
    hide ObjectCreateInstance, ObjectWriteInstance, Tagged, MarksOnly;
    MarksSelf(c.bootstrapServers);
    var w := WithObjects(c, ObjectWriteInstance(c.objects, objectId, n));
    TaggedMarks(w.0, n.id);
  }

  lemma {:induction false} PutNodesMarks(c: Client, objectId: nat, nodes: seq<Node>, code: Code)
    ensures var r := PutNodes(c, objectId, nodes, code).0;
            MarksOnly(c.bootstrapServers, r.bootstrapServers) && r.state == c.state
    decreases |nodes|
  {
    hide PutNode, MarksOnly;
    MarksSelf(c.bootstrapServers);
    if nodes != [] {
      if !nodes[0].kind.InstanceNode? {
        PutNodesMarks(c, objectId, nodes[1..], BadRequest);
      } else {
        var next := PutNode(c, objectId, nodes[0]).0;
        PutNodeMarks(c, objectId, nodes[0]);
        PutNodesMarks(next, objectId, nodes[1..], Changed);
        MarksThen(c.bootstrapServers, next.bootstrapServers,
                  PutNodes(next, objectId, nodes[1..], Changed).0.bootstrapServers);
      }
    }
  }

  lemma CommandMarks(c: Client, uri: Uri, m: Message)
    ensures var r := PutCommand(c, uri, m).0;
            MarksOnly(c.bootstrapServers, r.bootstrapServers) && r.state == c.state
    ensures var r := DeleteCommand(c, uri).0;
            MarksOnly(c.bootstrapServers, r.bootstrapServers) && r.state == c.state
  {
    hide PutInstance, PutNodes, Tagged, TaggedAll, ObjectDelete, MarksOnly;
    MarksSelf(c.bootstrapServers);
    if uri.instanceId.Some? { PutInstanceMarks(c, uri.objectId, uri.instanceId.value, m); }
    PutNodesMarks(c, uri.objectId, NodesOf(m.payload), NoError);
    var d := WithObjects(c, ObjectDelete(c.objects, uri.objectId, uri.instanceId)).0;
    if uri.instanceId.Some? { TaggedMarks(d, uri.instanceId.value); }
    TaggedAllMarks(d, None);
  }

  // ---------------------------------------------------------------- requests

  /** The context in which an accepted request of the server at `k` is carried out. */
  function Listening(c: Client, k: nat, now: int): Client
    requires k < |c.bootstrapServers|
  {
    var e := c.bootstrapServers[k];
    c.(bootstrapServers := c.bootstrapServers[k := Entry(e.id, Touched(e.body, now))])
  }

  lemma PutAt(list: Servers, k: nat, s: Server)
    requires Ascending(list) && k < |list|
    ensures Put(list, list[k].id, s) == list[k := Entry(list[k].id, s)]
    ensures Find(list, list[k].id) == Some(list[k].body)
  {
    PositionAt(list, k);
  }

  lemma CommandUnfolded(c: Client, name: string, session: nat, uri: Uri, m: Message, now: int, k: nat)
    requires Sorted(c.objects) && Ascending(c.bootstrapServers) && IsSender(c.bootstrapServers, session, k)
    ensures var c1 := Listening(c, k, now);
            var id := c.bootstrapServers[k].id;
            Next(c, name, Command(session, uri, m, now)) ==
              if !Accepting(c.bootstrapServers[k].body.status) then (c, Ignore)
              else match m.verb
                   case PutVerb => Concluded(PutCommand(c1, uri, m), id)
                   case DeleteVerb => Concluded(DeleteCommand(c1, uri), id)
                   case _ => (c1, BadRequest)
  {
    hide Sorted, Ascending, Find, Put, Sender, PutCommand, DeleteCommand, Concluded, Checked, Touched;
    SenderExact(c.bootstrapServers, session);
    var s := c.bootstrapServers[k].body;
    CheckedExact(s, now);
    PutAt(c.bootstrapServers, k, Checked(s, now).0);
  }

  lemma ConcludedCode(r: (Client, Code), id: nat)
    ensures Concluded(r, id).1 == r.1 && Concluded(r, id).0.objects == r.0.objects
    ensures Concluded(r, id).0.servers == r.0.servers
  {
    hide Find, Put;
  }

  /** A request is ignored, and then changes nothing, if and only if its session belongs to no
      bootstrap server or to one that is not listened to. */
  lemma IgnoredExact(c: Client, name: string, session: nat, uri: Uri, m: Message, now: int)
    requires Sorted(c.objects) && Ascending(c.bootstrapServers)
    ensures var r := Next(c, name, Command(session, uri, m, now));
            && (r.1 == Ignore <==> forall k: nat :: IsSender(c.bootstrapServers, session, k) ==>
                                                      !Accepting(c.bootstrapServers[k].body.status))
            && (r.1 == Ignore ==> r.0 == c)
  {
    hide Sorted, Ascending, Sender, Commanded, Listening, PutCommand, DeleteCommand, Concluded;
    SenderExact(c.bootstrapServers, session);
    if k: nat :| IsSender(c.bootstrapServers, session, k) {
      CommandUnfolded(c, name, session, uri, m, now, k);
      var c1 := Listening(c, k, now);
      CommandsAnswer(c1, uri, m);
      ConcludedCode(PutCommand(c1, uri, m), c.bootstrapServers[k].id);
      ConcludedCode(DeleteCommand(c1, uri), c.bootstrapServers[k].id);
      forall j: nat | IsSender(c.bootstrapServers, session, j)
        ensures j == k
      {
        OneSender(c.bootstrapServers, session, j, k);
      }
    }
  }

  lemma OneSender(list: Servers, session: nat, j: nat, k: nat)
    requires IsSender(list, session, j) && IsSender(list, session, k)
    ensures j == k
  {}

  /** GET and POST are answered with 4.00, and only the server has changed. */
  lemma OtherVerbs(c: Client, name: string, session: nat, uri: Uri, m: Message, now: int, k: nat)
    requires Sorted(c.objects) && Ascending(c.bootstrapServers) && IsSender(c.bootstrapServers, session, k)
    requires Accepting(c.bootstrapServers[k].body.status) && (m.verb.GetVerb? || m.verb.PostVerb?)
    ensures Next(c, name, Command(session, uri, m, now)) == (Listening(c, k, now), BadRequest)
  {
    hide Sorted, Ascending, Listening, PutCommand, DeleteCommand, Concluded;
    CommandUnfolded(c, name, session, uri, m, now, k);
  }

  /** What an accepted PUT or DELETE leaves of its server and of the state of the client: after
      2.04 or 2.02 the server is PENDING, and a bootstrap the server started itself begins;
      the timer is as `Touched` says. */
  lemma ServerLeft(c: Client, name: string, session: nat, uri: Uri, m: Message, now: int, k: nat)
    requires Sorted(c.objects) && Ascending(c.bootstrapServers) && IsSender(c.bootstrapServers, session, k)
    requires Accepting(c.bootstrapServers[k].body.status)
    ensures var r := Next(c, name, Command(session, uri, m, now));
            var was := c.bootstrapServers[k].body;
            var done := r.1 == Changed || r.1 == Deleted;
            && |r.0.bootstrapServers| == |c.bootstrapServers|
            && (var s := r.0.bootstrapServers[k].body;
                && s == Touched(was, now).(status := if done then Pending else Touched(was, now).status,
                                           dirty := s.dirty))
            && r.0.state == (if done && was.status.Deregistered? then Bootstrapping else c.state)
  {
    hide Sorted, Ascending, PutCommand, DeleteCommand, Find, Put, Accepting;
    CommandUnfolded(c, name, session, uri, m, now, k);
    var c1 := Listening(c, k, now);
    CommandMarks(c1, uri, m);
    ConcludedServer(c1, PutCommand(c1, uri, m), k);
    ConcludedServer(c1, DeleteCommand(c1, uri), k);
    ListeningAscending(c, k, now);
    TouchedStatus(c.bootstrapServers[k].body, now);
  }

  lemma TouchedStatus(s: Server, now: int)
    requires Accepting(s.status)
    ensures Touched(s, now).status.Pending? <==> !s.status.Deregistered?
  {}

  lemma ListeningAscending(c: Client, k: nat, now: int)
    requires Ascending(c.bootstrapServers) && k < |c.bootstrapServers|
    ensures Ascending(Listening(c, k, now).bootstrapServers)
  {
    hide Touched;
  }

  lemma ConcludedServer(c1: Client, r: (Client, Code), k: nat)
    requires MarksOnly(c1.bootstrapServers, r.0.bootstrapServers) && k < |c1.bootstrapServers|
    ensures Ascending(c1.bootstrapServers) ==>
              var id := c1.bootstrapServers[k].id;
              var d := Concluded(r, id).0;
              var done := r.1 == Changed || r.1 == Deleted;
              && Concluded(r, id).1 == r.1
              && |d.bootstrapServers| == |c1.bootstrapServers|
              && (var s := d.bootstrapServers[k].body;
                  var was := c1.bootstrapServers[k].body;
                  s == was.(status := if done then Pending else was.status, dirty := s.dirty))
              && d.state == (if done && !c1.bootstrapServers[k].body.status.Pending? then Bootstrapping else r.0.state)
  {
    hide Find, Put;
    if Ascending(c1.bootstrapServers) {
      var list := r.0.bootstrapServers;
      MarksAscending(c1.bootstrapServers, list);
      PutAt(list, k, list[k].body.(status := Pending));
    }
  }

  lemma MarksAscending(a: Servers, b: Servers)
    requires MarksOnly(a, b) && Ascending(a)
    ensures Ascending(b)
  {}

  // ---------------------------------------------------------------- the objects

  /** The server under the id is marked, in whichever list it is. */
  ghost predicate IsMarked(c: Client, id: nat) {
    && (Has(c.bootstrapServers, id) ==> Find(c.bootstrapServers, id).value.dirty)
    && (Has(c.servers, id) && !Has(c.bootstrapServers, id) ==> Find(c.servers, id).value.dirty)
  }

  lemma TaggedMarked(c: Client, id: nat)
    requires Ascending(c.bootstrapServers) && Ascending(c.servers)
    ensures IsMarked(Tagged(c, id), id)
  {
    hide Put;
    if Has(c.bootstrapServers, id) {
      PutFind(c.bootstrapServers, id, Find(c.bootstrapServers, id).value.(dirty := true), id);
    } else if Has(c.servers, id) {
      PutFind(c.servers, id, Find(c.servers, id).value.(dirty := true), id);
    }
  }

  lemma ConcludedMarked(r: (Client, Code), id: nat, x: nat)
    requires Ascending(r.0.bootstrapServers) && IsMarked(r.0, x)
    ensures IsMarked(Concluded(r, id).0, x)
  {
    hide Put, Position;
    if Has(r.0.bootstrapServers, id) {
      var s := Find(r.0.bootstrapServers, id).value.(status := Pending);
      PutFind(r.0.bootstrapServers, id, s, x);
    }
  }

  /** A PUT on an existing instance. */
  lemma PutWrites(c: Client, name: string, session: nat, uri: Uri, m: Message, now: int, k: nat, inst: Instance)
    requires Sorted(c.objects) && Ascending(c.bootstrapServers) && Ascending(c.servers)
    requires IsSender(c.bootstrapServers, session, k) && Accepting(c.bootstrapServers[k].body.status)
    requires m.verb.PutVerb? && uri.instanceId.Some?
    requires Find(InstancesOf(c.objects, uri.objectId), uri.instanceId.value) == Some(inst)
    ensures var r := Next(c, name, Command(session, uri, m, now));
            var id := uri.instanceId.value;
            && (r.1 == Changed <==>
                  && Has(c.objects, uri.objectId) && Find(c.objects, uri.objectId).value.canWrite
                  && m.payload.Nodes? && m.payload.nodes != [] && TakesAll(inst, m.payload.nodes))
            && (r.1 == Changed ==>
                  && Find(InstancesOf(r.0.objects, uri.objectId), id) == Some(After(inst, m.payload.nodes))
                  && OnlyInstance(c.objects, r.0.objects, uri.objectId, id)
                  && (uri.objectId == SECURITY_OBJECT ==> IsMarked(r.0, id)))
  {
    hide Sorted, Ascending, Find, Put, After, TakesAll, ObjectWrite, ObjectCreate, Tagged, OnlyInstance, Listening,
         Concluded, IsMarked, Accepting, Touched, InstancesOf;
    CommandUnfolded(c, name, session, uri, m, now, k);
    var c1 := Listening(c, k, now);
    var id := uri.instanceId.value;
    ListeningParts(c, k, now);
    WriteExact(c.objects, uri.objectId, id, m.payload);
    ObjectThere(c.objects, uri.objectId, id);
    var w := WithObjects(c1, ObjectWrite(c.objects, uri.objectId, id, m.payload));
    var p := PutCommand(c1, uri, m);
    assert p == WithTag(w, uri.objectId, id);
    ConcludedCode(p, c.bootstrapServers[k].id);
    if p.1 == Changed && uri.objectId == SECURITY_OBJECT {
      TaggedMarks(w.0, id);
      TaggedMarked(w.0, id);
      MarksAscending(w.0.bootstrapServers, p.0.bootstrapServers);
      ConcludedMarked(p, c.bootstrapServers[k].id, id);
    }
  }

  lemma ListeningParts(c: Client, k: nat, now: int)
    requires Ascending(c.bootstrapServers) && k < |c.bootstrapServers|
    ensures var c1 := Listening(c, k, now);
            && c1.objects == c.objects && c1.servers == c.servers && c1.state == c.state
            && Ascending(c1.bootstrapServers) && |c1.bootstrapServers| == |c.bootstrapServers|
  {
    ListeningAscending(c, k, now);
  }

  /** A PUT on an instance that is not there. */
  lemma PutCreates(c: Client, name: string, session: nat, uri: Uri, m: Message, now: int, k: nat, blank: Instance)
    requires Sorted(c.objects) && Ascending(c.bootstrapServers)
    requires IsSender(c.bootstrapServers, session, k) && Accepting(c.bootstrapServers[k].body.status)
    requires m.verb.PutVerb? && uri.instanceId.Some? && IsBlank(uri.objectId, blank)
    requires NotFull(c.objects, uri.objectId) && !Has(InstancesOf(c.objects, uri.objectId), uri.instanceId.value)
    ensures var r := Next(c, name, Command(session, uri, m, now));
            var list := InstancesOf(c.objects, uri.objectId);
            var nodes := if m.payload.Nodes? then m.payload.nodes else [];
            var wrapped := nodes != [] && nodes[0].kind.InstanceNode?;
            var inner := if wrapped then nodes[0].children else nodes;
            && (r.1 == Changed <==>
                  && m.hasPayload && Has(c.objects, uri.objectId) && Find(c.objects, uri.objectId).value.canCreate
                  && nodes != [] && !nodes[0].kind.ObjectNode?
                  && (wrapped ==> |nodes| == 1 && !Has(list, nodes[0].id))
                  && inner != [] && TakesAll(blank, inner))
            && (r.1 == Changed ==>
                  var id := if wrapped then nodes[0].id else uri.instanceId.value;
                  && Find(InstancesOf(r.0.objects, uri.objectId), id) == Some(After(blank, inner))
                  && OnlyInstance(c.objects, r.0.objects, uri.objectId, id))
  {
    hide Sorted, Ascending, Find, Put, After, TakesAll, ObjectWrite, ObjectCreate, Tagged, OnlyInstance, Listening,
         Concluded, Accepting, Touched, InstancesOf, IsBlank;
    CommandUnfolded(c, name, session, uri, m, now, k);
    var c1 := Listening(c, k, now);
    ListeningParts(c, k, now);
    CreateExact(c.objects, uri.objectId, uri.instanceId, m.hasPayload, m.payload, blank);
    CreateNotChanged(c.objects, uri.objectId, uri.instanceId, m.hasPayload, m.payload);
    ObjectThere(c.objects, uri.objectId, 0);
    ConcludedCode(PutCommand(c1, uri, m), c.bootstrapServers[k].id);
  }

  lemma CreateNotChanged(objects: ObjectList, objectId: nat, instance: Option<nat>, hasPayload: bool, payload: Payload)
    ensures ObjectCreate(objects, objectId, instance, hasPayload, payload).1 != Changed
  {
    hide Written, Find, Has, Add, Remove, Put, WithInstances, NewId;
  }

  /** A DELETE. */
  lemma DeleteTakesAway(c: Client, name: string, session: nat, uri: Uri, m: Message, now: int, k: nat)
    requires Sorted(c.objects) && Ascending(c.bootstrapServers) && Ascending(c.servers)
    requires IsSender(c.bootstrapServers, session, k) && Accepting(c.bootstrapServers[k].body.status)
    requires m.verb.DeleteVerb?
    ensures var r := Next(c, name, Command(session, uri, m, now));
            var list := InstancesOf(c.objects, uri.objectId);
            && (r.1 == Deleted <==>
                  && uri.resourceId.None? && Has(c.objects, uri.objectId)
                  && Find(c.objects, uri.objectId).value.canDelete
                  && (uri.instanceId.Some? ==> Has(list, uri.instanceId.value)))
            && (r.1 != Deleted ==> r.0.objects == c.objects)
            && (r.1 == Deleted && uri.instanceId.Some? ==>
                  && !Has(InstancesOf(r.0.objects, uri.objectId), uri.instanceId.value)
                  && OnlyInstance(c.objects, r.0.objects, uri.objectId, uri.instanceId.value)
                  && (uri.objectId == SECURITY_OBJECT ==> IsMarked(r.0, uri.instanceId.value)))
            && (r.1 == Deleted && uri.instanceId.None? ==>
                  && InstancesOf(r.0.objects, uri.objectId) == []
                  && forall x :: x != uri.objectId ==> InstancesOf(r.0.objects, x) == InstancesOf(c.objects, x))
  {
    hide Sorted, Ascending, Find, Put, ObjectDelete, Tagged, TaggedAll, OnlyInstance, Listening, Concluded, Accepting,
         Touched, InstancesOf, IsMarked, Has;
    CommandUnfolded(c, name, session, uri, m, now, k);
    var c1 := Listening(c, k, now);
    ListeningParts(c, k, now);
    DeleteExact(c.objects, uri.objectId, uri.instanceId);
    var w := WithObjects(c1, ObjectDelete(c.objects, uri.objectId, uri.instanceId));
    var d := DeleteCommand(c1, uri);
    ConcludedCode(d, c.bootstrapServers[k].id);
    if uri.instanceId.Some? {
      TaggedMarks(w.0, uri.instanceId.value);
      if d.1 == Deleted && uri.objectId == SECURITY_OBJECT {
        TaggedMarked(w.0, uri.instanceId.value);
        MarksAscending(w.0.bootstrapServers, d.0.bootstrapServers);
        ConcludedMarked(d, c.bootstrapServers[k].id, uri.instanceId.value);
      }
    }
    TaggedAllObjects(w.0);
  }

  lemma TaggedAllObjects(c: Client)
    ensures TaggedAll(c, None).objects == c.objects
  {}

  // ---------------------------------------------------------------- a PUT on an object

  /** A node for an existing instance that takes all it carries. */
  predicate Fits(list: Instances, n: Node) {
    n.children != [] && Has(list, n.id) && TakesAll(Find(list, n.id).value, n.children)
  }

  /** Nodes for existing instances, each once. */
  ghost predicate Existing(objects: ObjectList, objectId: nat, nodes: seq<Node>) {
    && Has(objects, objectId) && Find(objects, objectId).value.canWrite
    && (forall j :: 0 <= j < |nodes| ==>
                      nodes[j].kind.InstanceNode? && Has(InstancesOf(objects, objectId), nodes[j].id))
    && forall i, j :: 0 <= i < j < |nodes| ==> nodes[i].id != nodes[j].id
  }

  ghost predicate WrittenAll(a: ObjectList, b: ObjectList, objectId: nat, nodes: seq<Node>) {
    && (forall x :: x != objectId ==> InstancesOf(b, x) == InstancesOf(a, x))
    && (forall j :: 0 <= j < |nodes| && Has(InstancesOf(a, objectId), nodes[j].id) ==>
                      Find(InstancesOf(b, objectId), nodes[j].id) ==
                      Some(After(Find(InstancesOf(a, objectId), nodes[j].id).value, nodes[j].children)))
    && forall y :: (forall j :: 0 <= j < |nodes| ==> nodes[j].id != y) ==>
                     Find(InstancesOf(b, objectId), y) == Find(InstancesOf(a, objectId), y)
  }

  /** One node of an existing instance. */
  lemma PutNodeWrites(c: Client, objectId: nat, nodes: seq<Node>)
    requires Sorted(c.objects) && nodes != [] && Existing(c.objects, objectId, nodes)
    ensures var n, r := nodes[0], PutNode(c, objectId, nodes[0]);
            && (r.1 == Changed <==> Fits(InstancesOf(c.objects, objectId), n))
            && (r.1 == Changed ==>
                  && Sorted(r.0.objects) && Existing(r.0.objects, objectId, nodes[1..])
                  && OnlyInstance(c.objects, r.0.objects, objectId, n.id)
                  && Find(InstancesOf(r.0.objects, objectId), n.id) ==
                     Some(After(Find(InstancesOf(c.objects, objectId), n.id).value, n.children)))
  {
    hide Sorted, Find, After, TakesAll, WriteObject, CreateObject, Tagged, InstancesOf, NewId;
    var n := nodes[0];
    var inst := Find(InstancesOf(c.objects, objectId), n.id).value;
    var w := WriteObject(c.objects, objectId, n.id, n.children);
    TaggedMarks(WithObjects(c, w).0, n.id);
    WriteObjectEffect(c.objects, objectId, n.id, n.children);
    if n.children == [] {
      NothingWrites(c.objects, objectId, n.id, n.children);
    } else {
      WriteObjectExact(c.objects, objectId, n.id, n.children, inst);
      TakenWhole(inst, n.children);
      RefusalNotChanged(inst, n.children);
      assert n.children[..|n.children|] == n.children;
    }
  }

  lemma {:induction false} PutNodesWrite(c: Client, objectId: nat, nodes: seq<Node>, code: Code)
    requires Sorted(c.objects) && Existing(c.objects, objectId, nodes)
    ensures var r := PutNodes(c, objectId, nodes, code);
            && (nodes != [] ==>
                  (r.1 == Changed <==>
                     forall j :: 0 <= j < |nodes| ==> Fits(InstancesOf(c.objects, objectId), nodes[j])))
            && (nodes == [] ==> r == (c, code))
            && (nodes != [] && r.1 == Changed ==> WrittenAll(c.objects, r.0.objects, objectId, nodes))
    decreases |nodes|
  {
    hide Sorted, Find, After, TakesAll, PutNode, InstancesOf, Fits;
    if nodes != [] {
      PutNodeWrites(c, objectId, nodes);
      var r, rest := PutNode(c, objectId, nodes[0]), nodes[1..];
      assert forall j :: 0 <= j < |rest| ==> rest[j] == nodes[j + 1];
      if r.1 == Changed {
        PutNodesWrite(r.0, objectId, rest, Changed);
        forall j | 0 <= j < |rest|
          ensures Fits(InstancesOf(r.0.objects, objectId), rest[j]) == Fits(InstancesOf(c.objects, objectId), rest[j])
        {
          FitsSame(InstancesOf(c.objects, objectId), InstancesOf(r.0.objects, objectId), rest[j]);
        }
        assert forall j :: 1 <= j < |nodes| ==> nodes[j] == rest[j - 1];
        if PutNodes(r.0, objectId, rest, Changed).1 == Changed {
          WrittenMore(c.objects, r.0.objects, PutNodes(r.0, objectId, rest, Changed).0.objects, objectId, nodes);
        }
      }
    }
  }

  lemma FitsSame(a: Instances, b: Instances, n: Node)
    requires Find(a, n.id) == Find(b, n.id)
    ensures Fits(a, n) == Fits(b, n)
  {
    hide TakesAll;
  }

  lemma WrittenMore(a: ObjectList, b: ObjectList, d: ObjectList, objectId: nat, nodes: seq<Node>)
    requires nodes != [] && Existing(a, objectId, nodes) && OnlyInstance(a, b, objectId, nodes[0].id)
    requires Find(InstancesOf(b, objectId), nodes[0].id) ==
             Some(After(Find(InstancesOf(a, objectId), nodes[0].id).value, nodes[0].children))
    requires if nodes[1..] == [] then d == b else WrittenAll(b, d, objectId, nodes[1..])
    ensures WrittenAll(a, d, objectId, nodes)
  {
    hide Find, After, InstancesOf;
    var rest := nodes[1..];
    assert forall j :: 0 <= j < |rest| ==> rest[j] == nodes[j + 1];
    assert forall j :: 1 <= j < |nodes| ==> nodes[j] == rest[j - 1];
  }

  /** A PUT on an object whose payload names existing instances, each once: 2.04 if and only
      if each of them takes what is written, and then each holds it. */
  lemma PutObjectWrites(c: Client, name: string, session: nat, uri: Uri, m: Message, now: int, k: nat)
    requires Sorted(c.objects) && Ascending(c.bootstrapServers)
    requires IsSender(c.bootstrapServers, session, k) && Accepting(c.bootstrapServers[k].body.status)
    requires m.verb.PutVerb? && uri.instanceId.None? && m.hasPayload && m.payload.Nodes? && m.payload.nodes != []
    requires Existing(c.objects, uri.objectId, m.payload.nodes)
    ensures var r := Next(c, name, Command(session, uri, m, now));
            var list := InstancesOf(c.objects, uri.objectId);
            && (r.1 == Changed <==> forall j :: 0 <= j < |m.payload.nodes| ==> Fits(list, m.payload.nodes[j]))
            && (r.1 == Changed ==> WrittenAll(c.objects, r.0.objects, uri.objectId, m.payload.nodes))
  {
    hide Sorted, Ascending, Find, Put, PutNodes, Listening, Concluded, Accepting, Touched, InstancesOf, Fits,
         WrittenAll, Existing;
    CommandUnfolded(c, name, session, uri, m, now, k);
    var c1 := Listening(c, k, now);
    ListeningParts(c, k, now);
    PutNodesWrite(c1, uri.objectId, m.payload.nodes, NoError);
    ConcludedCode(PutCommand(c1, uri, m), c.bootstrapServers[k].id);
  }

  /** A PUT on an object without nodes. */
  lemma PutObjectRefused(c: Client, name: string, session: nat, uri: Uri, m: Message, now: int, k: nat)
    requires Sorted(c.objects) && Ascending(c.bootstrapServers)
    requires IsSender(c.bootstrapServers, session, k) && Accepting(c.bootstrapServers[k].body.status)
    requires m.verb.PutVerb? && uri.instanceId.None? && (m.hasPayload ==> NodesOf(m.payload) == [])
    ensures Next(c, name, Command(session, uri, m, now)) ==
            (Listening(c, k, now),
             if !m.hasPayload then BadRequest else if m.payload.Nothing? then InternalError else NoError)
  {
    hide Sorted, Ascending, Find, Put, Listening, Accepting, Touched;
    CommandUnfolded(c, name, session, uri, m, now, k);
  }
}
