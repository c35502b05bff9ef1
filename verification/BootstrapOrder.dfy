/** What every event leaves in order, whether or not its Security writes succeed: ids are
    unique, and the two server lists stay strictly sorted and disjoint. */
module BootstrapOrder {
  import opened Text
  import opened Uris
  import opened IdLists
  import opened Context
  import opened Objects
  import opened ServerLists
  import opened Bootstrap
  import opened DeleteAll
  import opened ClientStep
  import opened RegistrationUpdate
  import opened BootstrapSafety

  // ---------------------------------------------------------------- unique ids

  lemma PutInstanceSorted(c: Client, objectId: nat, id: nat, m: Message)
    requires Sorted(c.objects)
    ensures Sorted(PutInstance(c, objectId, id, m).0.objects)
  {
    hide WriteObject, CreateObject, InstancesOf, Find, Sorted, Tagged, NewId;
    if IsInstanceNew(c.objects, objectId, id) {
      var t := CreateTarget(c.objects, objectId, Some(id), m.hasPayload, m.payload);
      if t.0 == NoError {
        CreateTargetFresh(c.objects, objectId, id, m.hasPayload, m.payload);
        CreateObjectAllOrNothing(c.objects, objectId, t.1, t.2);
      }
    } else {
      WriteObjectEffect(c.objects, objectId, id, NodesOf(m.payload));
      TaggedSameObjects(WithObjects(c, ObjectWrite(c.objects, objectId, id, m.payload)).0, id);
    }
  }

  lemma TaggedSameObjects(c: Client, id: nat)
    ensures Tagged(c, id).objects == c.objects
  {}

  lemma PutNodeSorted(c: Client, objectId: nat, n: Node)
    requires Sorted(c.objects) && Room(c.objects, objectId, 1)
    ensures var r := PutNode(c, objectId, n).0.objects;
            Sorted(r) && |InstancesOf(r, objectId)| <= |InstancesOf(c.objects, objectId)| + 1
  {
    hide WriteObject, CreateObject, InstancesOf, Find, Sorted, Tagged, NewId, Has;
    HasFound(c.objects, objectId);
    if Has(c.objects, objectId) {
      if IsInstanceNew(c.objects, objectId, n.id) {
        var id := NewId(InstancesOf(c.objects, objectId));
        ListNotFull(c.objects, objectId);
        CreateObjectAllOrNothing(c.objects, objectId, id, n.children);
        CreateObjectSize(c.objects, objectId, id, n.children);
      } else {
        WriteObjectEffect(c.objects, objectId, n.id, n.children);
        TaggedSameObjects(WithObjects(c, WriteObject(c.objects, objectId, n.id, n.children)).0, n.id);
      }
    }
  }

  lemma {:induction false} PutNodesSorted(c: Client, objectId: nat, nodes: seq<Node>, code: Code)
    requires Sorted(c.objects) && Room(c.objects, objectId, |nodes|)
    ensures Sorted(PutNodes(c, objectId, nodes, code).0.objects)
    decreases |nodes|
  {
    hide PutNode, InstancesOf, Sorted;
    if nodes != [] {
      if !nodes[0].kind.InstanceNode? {
        PutNodesSorted(c, objectId, nodes[1..], BadRequest);
      } else {
        PutNodeSorted(c, objectId, nodes[0]);
        var r := PutNode(c, objectId, nodes[0]);
        if r.1 == Changed { PutNodesSorted(r.0, objectId, nodes[1..], Changed); }
      }
    }
  }

  lemma DeleteCommandSorted(c: Client, uri: Uri)
    requires Sorted(c.objects)
    ensures Sorted(DeleteCommand(c, uri).0.objects)
  {
    hide ObjectDelete, Sorted, Tagged, TaggedAll;
    if uri.resourceId.None? {
      var d := WithObjects(c, ObjectDelete(c.objects, uri.objectId, uri.instanceId)).0;
      DeleteEffect(c.objects, uri.objectId, uri.instanceId);
      TaggedObjects(d, None);
      if uri.instanceId.Some? { TaggedSameObjects(d, uri.instanceId.value); }
    }
  }

  lemma ConcludedObjects(r: (Client, Code), id: nat)
    ensures Concluded(r, id).0.objects == r.0.objects
  {}

  lemma CommandedSorted(c: Client, id: nat, uri: Uri, m: Message, now: int)
    requires Sorted(c.objects) && (Has(c.bootstrapServers, id) ==> RoomyPut(c.objects, uri, m))
    ensures Sorted(Commanded(c, id, uri, m, now).0.objects)
  {
    hide Find, PutInstance, PutNodes, DeleteCommand, Checked, SetServer, Concluded, Room, Sorted;
    HasFound(c.bootstrapServers, id);
    if Has(c.bootstrapServers, id) {
      var s := Checked(Find(c.bootstrapServers, id).value, now).0;
      var c1 := SetServer(c, id, s);
      SetServerObjects(c, id, s);
      match m.verb {
        case PutVerb =>
          if uri.instanceId.Some? {
            PutInstanceSorted(c1, uri.objectId, uri.instanceId.value, m);
          } else {
            PutNodesSorted(c1, uri.objectId, NodesOf(m.payload), NoError);
          }
          ConcludedObjects(PutCommand(c1, uri, m), id);
        case DeleteVerb =>
          DeleteCommandSorted(c1, uri);
          ConcludedObjects(DeleteCommand(c1, uri), id);
        case _ =>
      }
    }
  }

  lemma DeletedAllSorted(c: Client, id: nat, now: int)
    requires Sorted(c.objects)
    ensures Sorted(DeletedAll(c, id, now).0.objects)
  {
    hide Find, Checked, SetServer, ClearFrom, Sorted, LeftOf, TaggedAll;
    HasFound(c.bootstrapServers, id);
    if Has(c.bootstrapServers, id) {
      var s := Checked(Find(c.bootstrapServers, id).value, now).0;
      SetServerObjects(c, id, s);
      ClearFromExact(SetServer(c, id, s), 0, id, Deleted);
    }
  }

  lemma {:induction false} StepObjects(c: Client, now: int, timeout: int, name: string, env: Env)
    ensures StepFrom(c, now, timeout, name, env).client.objects == c.objects
    decreases Jumps(c.state)
  {
    hide Stepped, Started, Refreshed, OverallStatus;
    if Jump(c, env).Some? {
      StepJumps(c, now, timeout, name, env);
      StepObjects(Jump(c, env).value, now, timeout, name, env);
    }
  }

  // ---------------------------------------------------------------- the server lists

  /** The same servers in both lists, no dirty mark cleared. */
  ghost predicate SameServers(c: Client, c': Client) {
    Marked(c.bootstrapServers, c'.bootstrapServers) && Marked(c.servers, c'.servers)
  }

  lemma SameServersSelf(c: Client)
    ensures SameServers(c, c)
  {}

  lemma SameServersThen(c: Client, c1: Client, c2: Client)
    requires SameServers(c, c1) && SameServers(c1, c2)
    ensures SameServers(c, c2)
  {
    MarkedThen(c.bootstrapServers, c1.bootstrapServers, c2.bootstrapServers);
    MarkedThen(c.servers, c1.servers, c2.servers);
  }

  ghost predicate TwoLists(c: Client) {
    Separate(c.bootstrapServers, c.servers)
  }

  lemma SameServersKeep(c: Client, c': Client)
    requires TwoLists(c) && SameServers(c, c')
    ensures TwoLists(c')
  {
    MarkedSeparate(c, c');
  }

  lemma TaggedServers(c: Client, id: nat)
    requires TwoLists(c)
    ensures SameServers(c, Tagged(c, id))
  {
    TaggedMarks(c, id);
  }

  lemma SetServerServers(c: Client, id: nat, s: Server)
    requires TwoLists(c) && (Has(c.bootstrapServers, id) ==> s.dirty == Find(c.bootstrapServers, id).value.dirty)
    ensures SameServers(c, SetServer(c, id, s))
  {
    hide Put, Find;
    PutMarked(c.bootstrapServers, id, s);
    MarkedSame(c.servers);
  }

  lemma PutInstanceServers(c: Client, objectId: nat, id: nat, m: Message)
    requires TwoLists(c)
    ensures SameServers(c, PutInstance(c, objectId, id, m).0)
  {
    hide ObjectCreate, ObjectWrite, Tagged, TwoLists, SameServers;
    SameServersSelf(c);
    ObjectsSameServers(c, ObjectCreate(c.objects, objectId, Some(id), m.hasPayload, m.payload).0);
    var w := ObjectWrite(c.objects, objectId, id, m.payload).0;
    ObjectsSameServers(c, w);
    TaggedServers(c.(objects := w), id);
    SameServersThen(c, c.(objects := w), Tagged(c.(objects := w), id));
  }

  lemma ObjectsSameServers(c: Client, objects: ObjectList)
    ensures SameServers(c, c.(objects := objects))
    ensures TwoLists(c) ==> TwoLists(c.(objects := objects))
  {}

  lemma PutNodeServers(c: Client, objectId: nat, n: Node)
    requires TwoLists(c)
    ensures SameServers(c, PutNode(c, objectId, n).0)
  {
    hide ObjectCreateInstance, ObjectWriteInstance, Tagged, TwoLists, SameServers;
    ObjectsSameServers(c, ObjectCreateInstance(c.objects, objectId, n).0);
    var w := ObjectWriteInstance(c.objects, objectId, n).0;
    ObjectsSameServers(c, w);
    TaggedServers(c.(objects := w), n.id);
    SameServersThen(c, c.(objects := w), Tagged(c.(objects := w), n.id));
  }

  lemma {:induction false} PutNodesServers(c: Client, objectId: nat, nodes: seq<Node>, code: Code)
    requires TwoLists(c)
    ensures SameServers(c, PutNodes(c, objectId, nodes, code).0)
    decreases |nodes|
  {
    hide PutNode, TwoLists, SameServers;
    SameServersSelf(c);
    if nodes != [] {
      if !nodes[0].kind.InstanceNode? {
        PutNodesServers(c, objectId, nodes[1..], BadRequest);
      } else {
        PutNodeServers(c, objectId, nodes[0]);
        var r := PutNode(c, objectId, nodes[0]);
        if r.1 == Changed {
          SameServersKeep(c, r.0);
          PutNodesServers(r.0, objectId, nodes[1..], Changed);
          SameServersThen(c, r.0, PutNodes(r.0, objectId, nodes[1..], Changed).0);
        }
      }
    }
  }

  lemma DeleteCommandServers(c: Client, uri: Uri)
    requires TwoLists(c)
    ensures SameServers(c, DeleteCommand(c, uri).0)
  {
    hide ObjectDelete, Tagged, TaggedAll;
    var d := WithObjects(c, ObjectDelete(c.objects, uri.objectId, uri.instanceId)).0;
    SameServersSelf(c);
    TagAllMarks(d, None);
    if uri.instanceId.Some? { TaggedServers(d, uri.instanceId.value); }
  }

  lemma ConcludedServers(r: (Client, Code), id: nat)
    requires TwoLists(r.0)
    ensures SameServers(r.0, Concluded(r, id).0)
  {
    hide Put, Find;
    SameServersSelf(r.0);
    HasFound(r.0.bootstrapServers, id);
    if Has(r.0.bootstrapServers, id) {
      SetServerServers(r.0, id, Find(r.0.bootstrapServers, id).value.(status := Pending));
    }
  }

  lemma CommandedServers(c: Client, id: nat, uri: Uri, m: Message, now: int)
    requires TwoLists(c)
    ensures SameServers(c, Commanded(c, id, uri, m, now).0)
  {
    hide Find, PutInstance, PutNodes, DeleteCommand, Checked, SetServer, Concluded, TwoLists, SameServers;
    SameServersSelf(c);
    HasFound(c.bootstrapServers, id);
    if Has(c.bootstrapServers, id) {
      var s := Find(c.bootstrapServers, id).value;
      var c1 := SetServer(c, id, Checked(s, now).0);
      CheckedMark(s, now);
      SetServerServers(c, id, Checked(s, now).0);
      SameServersKeep(c, c1);
      SameServersSelf(c1);
      if m.verb.PutVerb? {
        if uri.instanceId.Some? {
          PutInstanceServers(c1, uri.objectId, uri.instanceId.value, m);
        } else {
          PutNodesServers(c1, uri.objectId, NodesOf(m.payload), NoError);
        }
        ChangedServers(c, c1, PutCommand(c1, uri, m), id);
      } else if m.verb.DeleteVerb? {
        DeleteCommandServers(c1, uri);
        ChangedServers(c, c1, DeleteCommand(c1, uri), id);
      }
    }
  }

  lemma ChangedServers(c: Client, c1: Client, r: (Client, Code), id: nat)
    requires TwoLists(c1) && SameServers(c, c1) && SameServers(c1, r.0)
    ensures SameServers(c, Concluded(r, id).0)
  {
    hide TwoLists, SameServers, Concluded;
    SameServersKeep(c1, r.0);
    ConcludedServers(r, id);
    SameServersThen(c1, r.0, Concluded(r, id).0);
    SameServersThen(c, c1, Concluded(r, id).0);
  }

  lemma DeletedAllServers(c: Client, id: nat, now: int)
    requires Sorted(c.objects) && TwoLists(c)
    ensures SameServers(c, DeletedAll(c, id, now).0)
  {
    hide Find, Checked, SetServer, ClearFrom, Sorted;
    SameServersSelf(c);
    HasFound(c.bootstrapServers, id);
    if Has(c.bootstrapServers, id) {
      var s := Find(c.bootstrapServers, id).value;
      var c1 := SetServer(c, id, Checked(s, now).0);
      SetServerObjects(c, id, Checked(s, now).0);
      CheckedMark(s, now);
      SetServerServers(c, id, Checked(s, now).0);
      SameServersKeep(c, c1);
      ClearFromMarks(c1, 0, id, Deleted);
      SameServersThen(c, c1, ClearFrom(c1, 0, id, Deleted).0);
    }
  }

  // ---------------------------------------------------------------- refreshing

  lemma RelinkedSeparate(bs: Servers, sv: Servers)
    requires Separate(bs, sv)
    ensures Separate(Relinked(bs, [], true), Relinked(sv, [], false))
  {
    hide Relinked, Restarted;
    var bs', sv' := Relinked(bs, [], true), Relinked(sv, [], false);
    RelinkedFind(bs, [], true, 0);
    RelinkedFind(sv, [], false, 0);
    forall x
      ensures (Has(bs', x) ==> Has(bs, x)) && (Has(sv', x) ==> Has(sv, x))
    {
      RelinkedFind(bs, [], true, x);
      RelinkedFind(sv, [], false, x);
    }
  }

  lemma AddSeparate(bs: Servers, sv: Servers, id: nat, s: Server)
    requires Separate(bs, sv) && !Known(bs, sv, id)
    ensures Separate(Add(bs, id, s), sv) && Separate(bs, Add(sv, id, s))
  {
    hide Add, Find;
    AddAscending(bs, id, s);
    AddAscending(sv, id, s);
    forall x
      ensures Find(Add(bs, id, s), x) == if x == id then Some(s) else Find(bs, x)
      ensures Find(Add(sv, id, s), x) == if x == id then Some(s) else Find(sv, x)
    {
      AddFind(bs, id, s, x);
      AddFind(sv, id, s, x);
    }
  }

  /** The scan adds unknown ids only, whatever the Security instances say. */
  lemma {:induction false} ScanSeparate(objects: ObjectList, list: Instances, bs: Servers, sv: Servers)
    requires Separate(bs, sv)
    ensures var r := Scan(objects, list, bs, sv, false); Separate(r.bootstrapServers, r.servers)
    decreases |list|
  {
    hide Contributed, Known, Add, Separate;
    if list != [] {
      var id := list[0].id;
      if Known(bs, sv, id) {
        ScanSeparate(objects, list[1..], bs, sv);
      } else {
        match Contributed(objects, id) {
          case NewBootstrap(s) =>
            AddSeparate(bs, sv, id, s);
            ScanSeparate(objects, list[1..], Add(bs, id, s), sv);
          case NewServer(s) =>
            AddSeparate(bs, sv, id, s);
            ScanSeparate(objects, list[1..], bs, Add(sv, id, s));
          case Nobody => ScanSeparate(objects, list[1..], bs, sv);
          case _ =>
        }
      }
    }
  }

  lemma RefreshSeparate(objects: ObjectList, bs: Servers, sv: Servers)
    requires Separate(bs, sv)
    ensures var r := Refreshed(objects, bs, sv); Separate(r.bootstrapServers, r.servers)
  {
    hide Scan, Relinked, Separate;
    RelinkedSeparate(bs, sv);
    ScanSeparate(objects, InstancesOf(objects, SECURITY_OBJECT), Relinked(bs, [], true), Relinked(sv, [], false));
  }

  /** A registration update keeps both lists, or reads them while no server is known. */
  lemma UpdatedLists(c: Client, shortId: int, withObjects: bool)
    requires TwoLists(c)
    ensures TwoLists(Updated(c, shortId, withObjects).0)
  {
    hide Scan, Separate, UpdatedServers;
    if c.servers == [] {
      ScanSeparate(c.objects, InstancesOf(c.objects, SECURITY_OBJECT), c.bootstrapServers, c.servers);
    } else {
      UpdatedMarks(c.servers, shortId, withObjects);
      MarkedSame(c.bootstrapServers);
      SameServersKeep(c, Updated(c, shortId, withObjects).0);
    }
  }

  lemma UpdatedMarks(list: Servers, shortId: int, withObjects: bool)
    ensures Marked(list, UpdatedServers(list, shortId, withObjects).0)
  {
    hide UpdatedServers;
    UpdatedExact(list, shortId, withObjects);
    var r := UpdatedServers(list, shortId, withObjects).0;
    forall i | 0 <= i < |list|
      ensures list[i].id == r[i].id && (list[i].body.dirty ==> r[i].body.dirty)
    {
      assert Follows(list[i].body, r[i].body, shortId, withObjects);
    }
  }

  lemma BootstrapSteppedServers(c: Client, now: int, timeout: int, name: string, net: Net)
    requires TwoLists(c)
    ensures TwoLists(BootstrapStepped(c, now, timeout, name, net).client)
  {
    hide Stepped, Marked;
    SteppedMarks(c.bootstrapServers, now, timeout, name, net);
    MarkedSame(c.servers);
    SameServersKeep(c, BootstrapStepped(c, now, timeout, name, net).client);
  }

  lemma StartedServers(c: Client, net: Net)
    requires TwoLists(c)
    ensures TwoLists(c.(bootstrapServers := Started(c.bootstrapServers, net), state := Bootstrapping))
  {
    hide Started, Marked;
    StartedMarks(c.bootstrapServers, net);
    MarkedSame(c.servers);
    SameServersKeep(c, c.(bootstrapServers := Started(c.bootstrapServers, net), state := Bootstrapping));
  }

  lemma {:induction false} StepServers(c: Client, now: int, timeout: int, name: string, env: Env)
    requires TwoLists(c)
    ensures TwoLists(StepFrom(c, now, timeout, name, env).client)
    decreases Jumps(c.state)
  {
    hide Separate, Refreshed, OverallStatus, BootstrapStepped, Started;
    RefreshSeparate(c.objects, c.bootstrapServers, c.servers);
    if Jump(c, env).Some? {
      StepJumps(c, now, timeout, name, env);
      StepServers(Jump(c, env).value, now, timeout, name, env);
    } else {
      BootstrapSteppedServers(c, now, timeout, name, env.net);
      StartedServers(c, env.net);
      BootstrapSteppedServers(c.(bootstrapServers := Started(c.bootstrapServers, env.net), state := Bootstrapping),
                              now, timeout, name, env.net);
    }
  }
}
