/** What each operation of the client keeps: unique ids, strictly sorted and disjoint server
    lists, and a Security instance of the right flag behind every server not marked dirty.

    An operation is safe when it marks dirty every server whose Security instance it may have
    changed, and clears no mark.  Safe operations follow each other safely and keep the
    invariant, so each request is taken apart into the writes it makes. */
module BootstrapSafety {
  import opened Text
  import opened Uris
  import opened IdLists
  import opened Context
  import opened Objects
  import opened ServerLists
  import opened Bootstrap
  import opened DeleteAll
  import opened ClientStep

  // ---------------------------------------------------------------- the invariant

  /** Ids are unique everywhere, the server lists are strictly sorted and disjoint, and
      every server not marked dirty agrees with its Security instance. */
  ghost predicate Inv(c: Client) {
    && Sorted(c.objects)
    && Separate(c.bootstrapServers, c.servers)
    && Agree(c.objects, c.bootstrapServers, c.servers)
  }

  /** The same servers in `b` as in `a`, no dirty mark cleared. */
  ghost predicate Marked(a: Servers, b: Servers) {
    && |a| == |b|
    && forall i :: 0 <= i < |a| ==> a[i].id == b[i].id && (a[i].body.dirty ==> b[i].body.dirty)
  }

  lemma MarkedFind(a: Servers, b: Servers, x: nat)
    requires Marked(a, b) && Ascending(a)
    ensures Ascending(b) && Has(b, x) == Has(a, x)
    ensures IsClean(b, x) ==> IsClean(a, x)
  {
    PositionSame(a, b, x);
    assert forall i :: 0 <= i < |a| ==> a[i].id == b[i].id;
  }

  /** Servers that are still clean have a Security instance with the same flag as before. */
  ghost predicate Safe(c: Client, c': Client) {
    && Sorted(c'.objects)
    && Marked(c.bootstrapServers, c'.bootstrapServers)
    && Marked(c.servers, c'.servers)
    && forall x :: IsClean(c'.bootstrapServers, x) || IsClean(c'.servers, x) ==>
                     FlagOf(c'.objects, x) == FlagOf(c.objects, x)
  }

  lemma SafeKeeps(c: Client, c': Client)
    requires Inv(c) && Safe(c, c')
    ensures Inv(c')
  {
    hide FlagOf, IsClean, Sorted, Find, Has, Marked;
    forall x
      ensures Ascending(c'.bootstrapServers) && Ascending(c'.servers)
      ensures Has(c'.bootstrapServers, x) == Has(c.bootstrapServers, x) && Has(c'.servers, x) == Has(c.servers, x)
      ensures IsClean(c'.bootstrapServers, x) ==> IsClean(c.bootstrapServers, x)
      ensures IsClean(c'.servers, x) ==> IsClean(c.servers, x)
    {
      MarkedFind(c.bootstrapServers, c'.bootstrapServers, x);
      MarkedFind(c.servers, c'.servers, x);
    }
    MarkedFind(c.bootstrapServers, c'.bootstrapServers, 0);
    MarkedFind(c.servers, c'.servers, 0);
  }

  lemma SafeThen(c: Client, c1: Client, c2: Client)
    requires Inv(c) && Safe(c, c1) && Safe(c1, c2)
    ensures Safe(c, c2)
  {
    SafeKeeps(c, c1);
    MarkedThen(c.bootstrapServers, c1.bootstrapServers, c2.bootstrapServers);
    MarkedThen(c.servers, c1.servers, c2.servers);
    forall x | IsClean(c2.bootstrapServers, x) || IsClean(c2.servers, x)
      ensures FlagOf(c2.objects, x) == FlagOf(c.objects, x)
    {
      MarkedFind(c1.bootstrapServers, c2.bootstrapServers, x);
      MarkedFind(c1.servers, c2.servers, x);
    }
  }

  lemma MarkedThen(a: Servers, b: Servers, d: Servers)
    requires Marked(a, b) && Marked(b, d)
    ensures Marked(a, d)
  {}

  lemma SafeSame(c: Client)
    requires Inv(c)
    ensures Safe(c, c)
  {}

  // ---------------------------------------------------------------- effects on the lists

  lemma PutMarked(list: Servers, id: nat, s: Server)
    requires Ascending(list)
    requires Has(list, id) && Find(list, id).value.dirty ==> s.dirty
    ensures Marked(list, Put(list, id, s))
  {}

  lemma SetServerSafe(c: Client, id: nat, s: Server)
    requires Inv(c)
    requires Has(c.bootstrapServers, id) ==> s.dirty == Find(c.bootstrapServers, id).value.dirty
    ensures Safe(c, SetServer(c, id, s)) && Inv(SetServer(c, id, s))
  {
    hide Put, Find;
    PutMarked(c.bootstrapServers, id, s);
    SafeSame(c);
    SafeKeeps(c, SetServer(c, id, s));
  }

  /** The server with the id is dirty afterwards, whichever list holds it. */
  lemma TaggedMarks(c: Client, id: nat)
    requires Separate(c.bootstrapServers, c.servers)
    ensures var t := Tagged(c, id);
            && t.objects == c.objects && t.state == c.state
            && Marked(c.bootstrapServers, t.bootstrapServers) && Marked(c.servers, t.servers)
            && !IsClean(t.bootstrapServers, id) && !IsClean(t.servers, id)
  {
    hide Put, Find;
    HasFound(c.bootstrapServers, id);
    HasFound(c.servers, id);
    if Has(c.bootstrapServers, id) {
      var s := Find(c.bootstrapServers, id).value.(dirty := true);
      PutMarked(c.bootstrapServers, id, s);
      PutFind(c.bootstrapServers, id, s, id);
    } else if Has(c.servers, id) {
      var s := Find(c.servers, id).value.(dirty := true);
      PutMarked(c.servers, id, s);
      PutFind(c.servers, id, s, id);
    }
  }

  lemma AllDirtiedMarks(list: Servers, except: Option<nat>, x: nat)
    requires Ascending(list)
    ensures Marked(list, AllDirtied(list, except))
    ensures IsClean(AllDirtied(list, except), x) ==> except == Some(x)
  {
    var r := AllDirtied(list, except);
    PositionSame(list, r, x);
  }

  // ---------------------------------------------------------------- effects on the flags

  /** Only the Security object matters for the flags. */
  lemma FlagsElsewhere(objects: ObjectList, objectId: nat, list: Instances, x: nat)
    requires Ascending(objects) && objectId != SECURITY_OBJECT
    ensures FlagOf(WithInstances(objects, objectId, list), x) == FlagOf(objects, x)
  {
    hide WithInstances, Find;
    WithInstancesFind(objects, objectId, list, SECURITY_OBJECT);
  }

  /** The flag of an instance after new instances are stored. */
  lemma FlagsStored(objects: ObjectList, list: Instances, x: nat)
    requires Ascending(objects) && Find(list, x) == Find(InstancesOf(objects, SECURITY_OBJECT), x)
    ensures FlagOf(WithInstances(objects, SECURITY_OBJECT, list), x) == FlagOf(objects, x)
  {
    hide WithInstances, Find;
    WithInstancesFind(objects, SECURITY_OBJECT, list, SECURITY_OBJECT);
  }

  /** A write of a Security instance that answers 2.04 or leaves the flag alone. */
  ghost predicate Harmless(objects: ObjectList, objectId: nat, id: nat, nodes: seq<Node>) {
    objectId == SECURITY_OBJECT ==>
      WriteObject(objects, objectId, id, nodes).1 == Changed
      || FlagOf(WriteObject(objects, objectId, id, nodes).0, id) == FlagOf(objects, id)
  }

  lemma WriteObjectEffect(objects: ObjectList, objectId: nat, id: nat, nodes: seq<Node>)
    requires Sorted(objects)
    ensures var r := WriteObject(objects, objectId, id, nodes);
            && Sorted(r.0)
            && (forall x :: x != id || objectId != SECURITY_OBJECT ==> FlagOf(r.0, x) == FlagOf(objects, x))
            && (forall y :: |InstancesOf(r.0, y)| == |InstancesOf(objects, y)|)
  {
    hide WithInstances, Sorted, FlagOf, InstancesOf, Written, Put, Find;
    var list := InstancesOf(objects, objectId);
    SortedInstances(objects, objectId);
    SortedAscending(objects);
    var w := WriteIn(list, id, nodes);
    WriteInEffect(list, id, nodes);
    WithInstancesSorted(objects, objectId, w.0);
    forall x | x != id || objectId != SECURITY_OBJECT
      ensures FlagOf(WithInstances(objects, objectId, w.0), x) == FlagOf(objects, x)
    {
      if objectId == SECURITY_OBJECT {
        FlagsStored(objects, w.0, x);
      } else {
        FlagsElsewhere(objects, objectId, w.0, x);
      }
    }
    forall y
      ensures |InstancesOf(WithInstances(objects, objectId, w.0), y)| == |InstancesOf(objects, y)|
    {
      WithInstancesFind(objects, objectId, w.0, y);
    }
  }

  lemma WriteInEffect(list: Instances, id: nat, nodes: seq<Node>)
    requires Ascending(list)
    ensures var w := WriteIn(list, id, nodes);
            Ascending(w.0) && |w.0| == |list| && forall x :: x != id ==> Find(w.0, x) == Find(list, x)
  {
    hide Written, Put, Find;
    if Find(list, id).Some? {
      var inst := Written(Find(list, id).value, nodes).0;
      PutAscending(list, id, inst);
      forall x | x != id
        ensures Find(Put(list, id, inst), x) == Find(list, x)
      {
        PutFind(list, id, inst, x);
      }
    }
  }

  lemma CreateObjectEffect(objects: ObjectList, objectId: nat, id: nat, nodes: seq<Node>, x: nat)
    requires Sorted(objects) && Has(objects, objectId) && IsInstanceNew(objects, objectId, id)
    requires FlagOf(objects, x).Some?
    ensures FlagOf(CreateObject(objects, objectId, id, nodes).0, x) == FlagOf(objects, x)
  {
    hide CreateObject, Sorted, Find;
    CreateObjectAllOrNothing(objects, objectId, id, nodes);
    if objectId == SECURITY_OBJECT {
      HasFound(InstancesOf(objects, objectId), id);
    }
  }

  // ---------------------------------------------------------------- each operation is safe

  lemma ObjectsSafe(c: Client, objects: ObjectList)
    requires Inv(c) && Sorted(objects)
    requires forall x :: IsClean(c.bootstrapServers, x) || IsClean(c.servers, x) ==>
                           FlagOf(objects, x) == FlagOf(c.objects, x)
    ensures Safe(c, c.(objects := objects))
  {
    hide FlagOf, Sorted, IsClean;
  }

  /** A clean server's instance exists. */
  lemma CleanFlagged(c: Client, x: nat)
    requires Inv(c) && (IsClean(c.bootstrapServers, x) || IsClean(c.servers, x))
    ensures FlagOf(c.objects, x).Some?
  {
    hide FlagOf;
  }

  lemma CreateSafe(c: Client, objectId: nat, id: nat, nodes: seq<Node>)
    requires Inv(c) && Has(c.objects, objectId) && IsInstanceNew(c.objects, objectId, id)
    ensures Safe(c, c.(objects := CreateObject(c.objects, objectId, id, nodes).0))
  {
    hide CreateObject, FlagOf, Sorted, IsClean, Find, Agree, Safe;
    var r := CreateObject(c.objects, objectId, id, nodes).0;
    CreateObjectAllOrNothing(c.objects, objectId, id, nodes);
    forall x | IsClean(c.bootstrapServers, x) || IsClean(c.servers, x)
      ensures FlagOf(r, x) == FlagOf(c.objects, x)
    {
      CleanFlagged(c, x);
      CreateObjectEffect(c.objects, objectId, id, nodes, x);
    }
    ObjectsSafe(c, r);
  }

  /** A harmless write, the server marked when it answers 2.04. */
  lemma WriteSafe(c: Client, objectId: nat, id: nat, nodes: seq<Node>)
    requires Inv(c) && Harmless(c.objects, objectId, id, nodes)
    ensures Safe(c, WithTag(WithObjects(c, WriteObject(c.objects, objectId, id, nodes)), objectId, id).0)
  {
    hide WriteObject, FlagOf, Sorted, IsClean, Find, Agree, Marked, Tagged;
    var r := WriteObject(c.objects, objectId, id, nodes);
    WriteObjectEffect(c.objects, objectId, id, nodes);
    if objectId == SECURITY_OBJECT && r.1 == Changed {
      var t := Tagged(c.(objects := r.0), id);
      TaggedMarks(c.(objects := r.0), id);
      assert Safe(c, t);
    } else {
      ObjectsSafe(c, r.0);
    }
  }

  /** Deleting one instance, the server marked for the Security object. */
  lemma DeleteSafe(c: Client, uri: Uri)
    requires Inv(c)
    ensures Safe(c, DeleteCommand(c, uri).0)
  {
    hide FlagOf, Sorted, IsClean, Find, Agree, Marked, Tagged, TaggedAll, ObjectDelete;
    SafeSame(c);
    if uri.resourceId.None? {
      var r := ObjectDelete(c.objects, uri.objectId, uri.instanceId);
      DeleteEffect(c.objects, uri.objectId, uri.instanceId);
      var d := c.(objects := r.0);
      if uri.objectId != SECURITY_OBJECT || r.1 != Deleted {
        ObjectsSafe(c, r.0);
      } else if uri.instanceId.Some? {
        TaggedMarks(d, uri.instanceId.value);
      } else {
        TagAllMarks(d, None);
      }
    }
  }

  lemma DeleteEffect(objects: ObjectList, objectId: nat, instance: Option<nat>)
    requires Sorted(objects)
    ensures var r := ObjectDelete(objects, objectId, instance);
            && Sorted(r.0)
            && (r.1 != Deleted ==> r.0 == objects)
            && (objectId != SECURITY_OBJECT ==> forall x :: FlagOf(r.0, x) == FlagOf(objects, x))
            && (instance.Some? ==> forall x :: x != instance.value ==> FlagOf(r.0, x) == FlagOf(objects, x))
  {
    hide FlagOf, Sorted, WithInstances, Remove;
    if Has(objects, objectId) && Find(objects, objectId).value.canDelete {
      var list := InstancesOf(objects, objectId);
      SortedInstances(objects, objectId);
      SortedAscending(objects);
      var left: Instances := if instance.Some? then DeleteIn(list, instance.value).0 else [];
      if instance.Some? { RemoveAscending(list, instance.value); }
      WithInstancesSorted(objects, objectId, left);
      WithInstancesSame(objects, objectId);
      forall x | objectId != SECURITY_OBJECT || (instance.Some? && x != instance.value)
        ensures FlagOf(WithInstances(objects, objectId, left), x) == FlagOf(objects, x)
      {
        if objectId != SECURITY_OBJECT {
          FlagsElsewhere(objects, objectId, left, x);
        } else {
          RemoveFind(list, instance.value, x);
          FlagsStored(objects, left, x);
        }
      }
    }
  }

  lemma TagAllMarks(c: Client, except: Option<nat>)
    requires Separate(c.bootstrapServers, c.servers)
    ensures var t := TaggedAll(c, except);
            && t.objects == c.objects && t.state == c.state
            && Marked(c.bootstrapServers, t.bootstrapServers) && Marked(c.servers, t.servers)
            && forall x: nat :: (IsClean(t.bootstrapServers, x) ==> except == Some(x)) && !IsClean(t.servers, x)
  {
    hide AllDirtied, IsClean, Marked;
    forall x: nat
      ensures Marked(c.bootstrapServers, AllDirtied(c.bootstrapServers, except)) &&
              Marked(c.servers, AllDirtied(c.servers, None))
      ensures IsClean(AllDirtied(c.bootstrapServers, except), x) ==> except == Some(x)
      ensures !IsClean(AllDirtied(c.servers, None), x)
    {
      AllDirtiedMarks(c.bootstrapServers, except, x);
      AllDirtiedMarks(c.servers, None, x);
    }
    AllDirtiedMarks(c.bootstrapServers, except, 0);
    AllDirtiedMarks(c.servers, None, 0);
  }

  // ---------------------------------------------------------------- PUT

  /** As many instances can be created as a request has nodes. */
  ghost predicate Room(objects: ObjectList, objectId: nat, count: nat) {
    |InstancesOf(objects, objectId)| + count <= ID_COUNT
  }

  ghost predicate HarmlessPut(c: Client, objectId: nat, id: nat, m: Message) {
    !IsInstanceNew(c.objects, objectId, id) ==> Harmless(c.objects, objectId, id, NodesOf(m.payload))
  }

  lemma PutInstanceSafe(c: Client, objectId: nat, id: nat, m: Message)
    requires Inv(c) && HarmlessPut(c, objectId, id, m)
    ensures Safe(c, PutInstance(c, objectId, id, m).0)
  {
    hide WriteObject, CreateObject, InstancesOf, Find, Inv, Safe, Tagged, NewId;
    SafeSame(c);
    if IsInstanceNew(c.objects, objectId, id) {
      var t := CreateTarget(c.objects, objectId, Some(id), m.hasPayload, m.payload);
      if t.0 == NoError {
        CreateTargetFresh(c.objects, objectId, id, m.hasPayload, m.payload);
        CreateSafe(c, objectId, t.1, t.2);
      }
    } else {
      WriteSafe(c, objectId, id, NodesOf(m.payload));
    }
  }

  lemma CreateTargetFresh(objects: ObjectList, objectId: nat, id: nat, hasPayload: bool, payload: Payload)
    requires IsInstanceNew(objects, objectId, id)
    ensures var t := CreateTarget(objects, objectId, Some(id), hasPayload, payload);
            t.0 == NoError ==> Has(objects, objectId) && IsInstanceNew(objects, objectId, t.1)
  {
    hide Find, NewId;
    HasFound(objects, objectId);
  }

  ghost predicate HarmlessNode(c: Client, objectId: nat, n: Node) {
    !IsInstanceNew(c.objects, objectId, n.id) ==> Harmless(c.objects, objectId, n.id, n.children)
  }

  lemma PutNodeSafe(c: Client, objectId: nat, n: Node)
    requires Inv(c) && HarmlessNode(c, objectId, n) && Room(c.objects, objectId, 1)
    ensures Safe(c, PutNode(c, objectId, n).0)
    ensures |InstancesOf(PutNode(c, objectId, n).0.objects, objectId)| <= |InstancesOf(c.objects, objectId)| + 1
  {
    hide WriteObject, CreateObject, InstancesOf, Find, Inv, Safe, Tagged, NewId, Has;
    SafeSame(c);
    HasFound(c.objects, objectId);
    InvSorted(c);
    if Has(c.objects, objectId) {
      if IsInstanceNew(c.objects, objectId, n.id) {
        ListNotFull(c.objects, objectId);
        CreateSafe(c, objectId, NewId(InstancesOf(c.objects, objectId)), n.children);
        CreateObjectSize(c.objects, objectId, NewId(InstancesOf(c.objects, objectId)), n.children);
      } else {
        WriteSafe(c, objectId, n.id, n.children);
        WriteObjectEffect(c.objects, objectId, n.id, n.children);
        InvSeparate(c);
        var w := WithObjects(c, WriteObject(c.objects, objectId, n.id, n.children));
        if objectId == SECURITY_OBJECT && w.1 == Changed { TaggedMarks(w.0, n.id); }
      }
    }
  }

  lemma InvSorted(c: Client)
    requires Inv(c)
    ensures Sorted(c.objects)
  {}

  lemma InvSeparate(c: Client)
    requires Inv(c)
    ensures Separate(c.bootstrapServers, c.servers)
  {}

  lemma ListNotFull(objects: ObjectList, objectId: nat)
    requires Sorted(objects) && Room(objects, objectId, 1) && Has(objects, objectId)
    ensures Find(objects, objectId).value.instances == InstancesOf(objects, objectId)
    ensures IsInstanceNew(objects, objectId, NewId(InstancesOf(objects, objectId)))
  {
    SortedInstances(objects, objectId);
    NewIdFresh(InstancesOf(objects, objectId));
  }

  lemma CreateObjectSize(objects: ObjectList, objectId: nat, id: nat, nodes: seq<Node>)
    requires Sorted(objects) && Has(objects, objectId)
    ensures |InstancesOf(CreateObject(objects, objectId, id, nodes).0, objectId)|
            <= |InstancesOf(objects, objectId)| + 1
  {
    hide Sorted, Find, Put, Remove, Written, WithInstances, Add;
    var list := InstancesOf(objects, objectId);
    AddLonger(list, id, Zeroed(objectId));
    SortedAscending(objects);
    WithInstancesFind(objects, objectId, CreateIn(list, objectId, id, nodes).0, objectId);
  }

  /** Every Security write of the request is harmless when its turn comes. */
  ghost predicate HarmlessNodes(c: Client, objectId: nat, nodes: seq<Node>)
    decreases |nodes|
  {
    nodes != [] ==>
      if !nodes[0].kind.InstanceNode? then HarmlessNodes(c, objectId, nodes[1..])
      else
        && HarmlessNode(c, objectId, nodes[0])
        && (PutNode(c, objectId, nodes[0]).1 == Changed ==>
              HarmlessNodes(PutNode(c, objectId, nodes[0]).0, objectId, nodes[1..]))
  }

  lemma {:induction false} PutNodesSafe(c: Client, objectId: nat, nodes: seq<Node>, code: Code)
    requires Inv(c) && HarmlessNodes(c, objectId, nodes) && Room(c.objects, objectId, |nodes|)
    ensures Safe(c, PutNodes(c, objectId, nodes, code).0)
    decreases |nodes|
  {
    hide Inv, Safe, PutNode, HarmlessNode, InstancesOf;
    SafeSame(c);
    if nodes != [] {
      if !nodes[0].kind.InstanceNode? {
        PutNodesSafe(c, objectId, nodes[1..], BadRequest);
      } else {
        PutNodeSafe(c, objectId, nodes[0]);
        var r := PutNode(c, objectId, nodes[0]);
        if r.1 == Changed {
          SafeKeeps(c, r.0);
          PutNodesSafe(r.0, objectId, nodes[1..], Changed);
          SafeThen(c, r.0, PutNodes(r.0, objectId, nodes[1..], Changed).0);
        }
      }
    }
  }

  // ---------------------------------------------------------------- each event is safe

  lemma StateSafe(c: Client, c': Client, state: State)
    requires Safe(c, c')
    ensures Safe(c, c'.(state := state))
  {
    hide FlagOf, IsClean, Sorted, Marked;
  }

  lemma ConcludedSafe(c: Client, r: (Client, Code), id: nat)
    requires Inv(c) && Safe(c, r.0)
    ensures Safe(c, Concluded(r, id).0)
  {
    hide Inv, Safe, Put;
    SafeKeeps(c, r.0);
    if Has(r.0.bootstrapServers, id) {
      var s := Find(r.0.bootstrapServers, id).value;
      SetServerSafe(r.0, id, s.(status := Pending));
      SafeThen(c, r.0, SetServer(r.0, id, s.(status := Pending)));
      StateSafe(c, SetServer(r.0, id, s.(status := Pending)), Bootstrapping);
    }
  }

  /** The Security writes of the request are harmless. */
  ghost predicate HarmlessCommand(c: Client, uri: Uri, m: Message) {
    m.verb.PutVerb? ==>
      if uri.instanceId.Some? then HarmlessPut(c, uri.objectId, uri.instanceId.value, m)
      else HarmlessNodes(c, uri.objectId, NodesOf(m.payload))
  }

  /** A PUT on an object finds room for the instances it can create. */
  ghost predicate RoomyPut(objects: ObjectList, uri: Uri, m: Message) {
    m.verb.PutVerb? && uri.instanceId.None? ==> Room(objects, uri.objectId, |NodesOf(m.payload)|)
  }

  lemma CheckedMark(s: Server, now: int)
    ensures Checked(s, now).0.dirty == s.dirty
  {}

  lemma CommandedSafe(c: Client, id: nat, uri: Uri, m: Message, now: int)
    requires Inv(c)
    requires Has(c.bootstrapServers, id) ==>
               && RoomyPut(c.objects, uri, m)
               && HarmlessCommand(SetServer(c, id, Checked(Find(c.bootstrapServers, id).value, now).0), uri, m)
    ensures Safe(c, Commanded(c, id, uri, m, now).0)
  {
    hide Inv, Safe, Find, HarmlessPut, HarmlessNodes, PutInstance, PutNodes, DeleteCommand, Checked, SetServer,
         Concluded, Room;
    SafeSame(c);
    HasFound(c.bootstrapServers, id);
    if Has(c.bootstrapServers, id) {
      var s := Find(c.bootstrapServers, id).value;
      var c1 := SetServer(c, id, Checked(s, now).0);
      CheckedMark(s, now);
      SetServerObjects(c, id, Checked(s, now).0);
      SetServerSafe(c, id, Checked(s, now).0);
      SafeSame(c1);
      match m.verb {
        case PutVerb =>
          if uri.instanceId.Some? {
            PutInstanceSafe(c1, uri.objectId, uri.instanceId.value, m);
          } else {
            PutNodesSafe(c1, uri.objectId, NodesOf(m.payload), NoError);
          }
          SafeThen(c, c1, PutCommand(c1, uri, m).0);
          ConcludedSafe(c, PutCommand(c1, uri, m), id);
        case DeleteVerb =>
          DeleteSafe(c1, uri);
          SafeThen(c, c1, DeleteCommand(c1, uri).0);
          ConcludedSafe(c, DeleteCommand(c1, uri), id);
        case _ =>
      }
    }
  }

  lemma {:induction false} ClearFromMarks(c: Client, i: nat, keep: nat, code: Code)
    requires Sorted(c.objects) && Separate(c.bootstrapServers, c.servers)
    ensures var r := ClearFrom(c, i, keep, code).0;
            Marked(c.bootstrapServers, r.bootstrapServers) && Marked(c.servers, r.servers)
    decreases |c.objects| - i
  {
    hide Sorted, ClearSecurity, ObjectDelete, TaggedAll, Marked, Separate;
    MarkedSame(c.bootstrapServers);
    MarkedSame(c.servers);
    if i < |c.objects| {
      if c.objects[i].id == SECURITY_OBJECT {
        ClearSecurityKeeps(c.objects, 0, keep, code);
        var r := ClearSecurity(c.objects, 0, keep, code);
        var c1 := c.(objects := r.0);
        var t := TaggedAll(c1, Some(keep));
        TagAllMarks(c1, Some(keep));
        MarkedSeparate(c1, t);
        ClearFromMarks(if r.1 == Deleted then t else c1, i + 1, keep, r.1);
        if r.1 == Deleted {
          var e := ClearFrom(t, i + 1, keep, r.1).0;
          MarkedThen(c.bootstrapServers, t.bootstrapServers, e.bootstrapServers);
          MarkedThen(c.servers, t.servers, e.servers);
        }
      } else {
        DeleteObjectKeeps(c.objects, c.objects[i].id);
        var r := ObjectDelete(c.objects, c.objects[i].id, None);
        ClearFromMarks(c.(objects := r.0), i + 1, keep, if r.1 == NotAllowed then Deleted else r.1);
      }
    }
  }

  lemma MarkedSame(list: Servers)
    ensures Marked(list, list)
  {}

  lemma MarkedSeparate(c: Client, t: Client)
    requires Separate(c.bootstrapServers, c.servers)
    requires Marked(c.bootstrapServers, t.bootstrapServers) && Marked(c.servers, t.servers)
    ensures Separate(t.bootstrapServers, t.servers)
  {
    hide Has, Marked;
    MarkedFind(c.bootstrapServers, t.bootstrapServers, 0);
    MarkedFind(c.servers, t.servers, 0);
    forall x
      ensures Has(t.bootstrapServers, x) == Has(c.bootstrapServers, x) && Has(t.servers, x) == Has(c.servers, x)
    {
      MarkedFind(c.bootstrapServers, t.bootstrapServers, x);
      MarkedFind(c.servers, t.servers, x);
    }
  }

  lemma FlagsCleared(before: ObjectList, after: ObjectList, keep: nat)
    requires Sorted(before) && Has(before, SECURITY_OBJECT) && Has(after, SECURITY_OBJECT)
    requires Find(after, SECURITY_OBJECT).value.instances ==
             LeftOf(Find(before, SECURITY_OBJECT).value, SECURITY_OBJECT, keep)
    ensures FlagOf(after, keep) == FlagOf(before, keep)
    ensures !Find(before, SECURITY_OBJECT).value.canDelete ==> forall x :: FlagOf(after, x) == FlagOf(before, x)
  {}

  lemma DeletedAllSafe(c: Client, id: nat, now: int)
    requires Inv(c)
    ensures Safe(c, DeletedAll(c, id, now).0)
  {
    hide Inv, Safe, Find, Checked, SetServer, ClearFrom, LeftOf, Sorted, FlagOf, TaggedAll, Marked, Agree, IsClean,
         Separate;
    SafeSame(c);
    HasFound(c.bootstrapServers, id);
    if Has(c.bootstrapServers, id) {
      var s := Find(c.bootstrapServers, id).value;
      var c1 := SetServer(c, id, Checked(s, now).0);
      SetServerObjects(c, id, Checked(s, now).0);
      CheckedMark(s, now);
      SetServerSafe(c, id, Checked(s, now).0);
      InvSorted(c1);
      var r := ClearFrom(c1, 0, id, Deleted).0;
      ClearedSafe(c1, id);
      SafeThen(c, c1, r);
    }
  }

  lemma SetServerObjects(c: Client, id: nat, s: Server)
    ensures SetServer(c, id, s).objects == c.objects
  {}

  lemma ClearedSafe(c: Client, id: nat)
    requires Inv(c)
    ensures Safe(c, ClearFrom(c, 0, id, Deleted).0)
  {
    hide Find, ClearFrom, LeftOf, Sorted, FlagOf, TaggedAll, Marked, Agree, IsClean, Separate;
    var r := ClearFrom(c, 0, id, Deleted).0;
    ClearFromExact(c, 0, id, Deleted);
    ClearFromMarks(c, 0, id, Deleted);
    forall x | IsClean(r.bootstrapServers, x) || IsClean(r.servers, x)
      ensures FlagOf(r.objects, x) == FlagOf(c.objects, x)
    {
      SeparateAscending(c.bootstrapServers, c.servers);
      MarkedFind(c.bootstrapServers, r.bootstrapServers, x);
      MarkedFind(c.servers, r.servers, x);
      CleanFlagged(c, x);
      FlaggedObject(c.objects, x);
      FlagsCleared(c.objects, r.objects, id);
      if Find(c.objects, SECURITY_OBJECT).value.canDelete {
        TagAllMarks(c, Some(id));
        var t := TaggedAll(c, Some(id));
        assert r.bootstrapServers == t.bootstrapServers && r.servers == t.servers;
      }
    }
  }

  lemma SeparateAscending(bs: Servers, sv: Servers)
    requires Separate(bs, sv)
    ensures Ascending(bs) && Ascending(sv)
  {}

  lemma FlaggedObject(objects: ObjectList, x: nat)
    requires FlagOf(objects, x).Some?
    ensures Has(objects, SECURITY_OBJECT)
  {}

  lemma {:induction false} SteppedMarks(list: Servers, now: int, timeout: int, name: string, net: Net)
    ensures Marked(list, Stepped(list, now, timeout, name, net).0)
    decreases |list|
  {
    hide SteppedServer;
    if list != [] {
      SteppedMark(list[0].id, list[0].body, now, timeout, name, net);
      SteppedMarks(list[1..], now, SteppedServer(list[0].id, list[0].body, now, timeout, name, net).1, name, net);
    }
  }

  lemma SteppedMark(id: nat, s: Server, now: int, timeout: int, name: string, net: Net)
    ensures SteppedServer(id, s, now, timeout, name, net).0.dirty == s.dirty
  {}

  lemma {:induction false} StartedMarks(list: Servers, net: Net)
    ensures Marked(list, Started(list, net))
    decreases |list|
  {
    if list != [] { StartedMarks(list[1..], net); }
  }

  lemma BootstrapListSafe(c: Client, bs: Servers)
    requires Inv(c) && Marked(c.bootstrapServers, bs)
    ensures Safe(c, c.(bootstrapServers := bs))
  {
    hide FlagOf, Sorted;
    MarkedSame(c.servers);
  }

  lemma BootstrapSteppedKeeps(c: Client, now: int, timeout: int, name: string, net: Net)
    requires Inv(c)
    ensures Inv(BootstrapStepped(c, now, timeout, name, net).client)
  {
    hide Inv, Stepped, Marked;
    var bs := Stepped(c.bootstrapServers, now, timeout, name, net).0;
    SteppedMarks(c.bootstrapServers, now, timeout, name, net);
    BootstrapListSafe(c, bs);
    SafeKeeps(c, c.(bootstrapServers := bs));
  }

  lemma StateKeeps(c: Client, state: State)
    requires Inv(c)
    ensures Inv(c.(state := state))
  {
    hide Sorted, Separate, Agree;
  }

  lemma JumpKeeps(c: Client, env: Env)
    requires Inv(c) && Jump(c, env).Some?
    ensures Inv(Jump(c, env).value)
  {
    hide Sorted, Separate, Agree, Refreshed, OverallStatus, AllClean;
    RefreshExact(c.objects, c.bootstrapServers, c.servers);
  }

  /** What a step does that does not jump. */
  lemma StepRests(c: Client, now: int, timeout: int, name: string, env: Env)
    requires Inv(c) && Jump(c, env).None?
    ensures Inv(StepFrom(c, now, timeout, name, env).client)
  {
    hide Inv, Refreshed, OverallStatus, BootstrapStepped, Started;
    match c.state {
      case Initial => RefreshKeeps(c);
      case BootstrapRequired =>
        var bs := Started(c.bootstrapServers, env.net);
        StartedMarks(c.bootstrapServers, env.net);
        BootstrapListSafe(c, bs);
        SafeKeeps(c, c.(bootstrapServers := bs));
        StateKeeps(c.(bootstrapServers := bs), Bootstrapping);
        BootstrapSteppedKeeps(c.(bootstrapServers := bs, state := Bootstrapping), now, timeout, name, env.net);
      case Bootstrapping => BootstrapSteppedKeeps(c, now, timeout, name, env.net);
      case RegisterRequired => StateKeeps(c, Registering);
      case Registering => StateKeeps(c, Ready);
      case Ready =>
    }
  }

  lemma RefreshKeeps(c: Client)
    requires Inv(c)
    ensures var r := Refreshed(c.objects, c.bootstrapServers, c.servers);
            Inv(c.(bootstrapServers := r.bootstrapServers, servers := r.servers))
  {
    hide Sorted, Separate, Agree, Refreshed, AllClean;
    RefreshExact(c.objects, c.bootstrapServers, c.servers);
  }

  lemma {:induction false} StepKeeps(c: Client, now: int, timeout: int, name: string, env: Env)
    requires Inv(c)
    ensures Inv(StepFrom(c, now, timeout, name, env).client)
    decreases Jumps(c.state)
  {
    hide Inv, StepFrom, Jump;
    if Jump(c, env).Some? {
      StepJumps(c, now, timeout, name, env);
      JumpKeeps(c, env);
      StepKeeps(Jump(c, env).value, now, timeout, name, env);
    } else {
      StepRests(c, now, timeout, name, env);
    }
  }
}
