/** What a PUT on an object does, whatever nodes it carries. */
module BootstrapObjects {
  import opened Text
  import opened Uris
  import opened IdLists
  import opened Context
  import opened Objects
  import opened ObjectRequests
  import opened ServerLists
  import opened Bootstrap
  import opened BootstrapSafety
  import opened BootstrapOrder
  import opened BootstrapRuns
  import opened BootstrapCommands
  import opened BootstrapMarks

  /** A node that is stored: an existing instance that takes all it carries, or one that may be
      created and does so blank. */
  predicate NodeFits(objects: ObjectList, objectId: nat, n: Node, blank: Instance) {
    && Has(objects, objectId) && n.children != []
    && var list := InstancesOf(objects, objectId);
       if Has(list, n.id) then Find(objects, objectId).value.canWrite && TakesAll(Find(list, n.id).value, n.children)
       else Find(objects, objectId).value.canCreate && TakesAll(blank, n.children)
  }

  /** The code of an instance node. */
  function NodeCode(objects: ObjectList, objectId: nat, n: Node, blank: Instance): Code {
    if !Has(objects, objectId) then NotFound
    else
      var list := InstancesOf(objects, objectId);
      if Has(list, n.id) then
        if !Find(objects, objectId).value.canWrite then NotAllowed
        else CodeOf(Find(list, n.id).value, n.children, Changed)
      else if !Find(objects, objectId).value.canCreate then NotAllowed
      else CodeOf(blank, n.children, Changed)
  }

  /** What storing it leaves: the instance of its id written and its server marked, or a new
      instance under the least unused id. */
  ghost predicate NodeStored(a: Client, b: Client, objectId: nat, n: Node, blank: Instance) {
    && b.state == a.state
    && var list, later := InstancesOf(a.objects, objectId), InstancesOf(b.objects, objectId);
       if Has(list, n.id) then
         && OnlyInstance(a.objects, b.objects, objectId, n.id)
         && Find(later, n.id) == Some(After(Find(list, n.id).value, n.children))
         && MarkedBy(a, b.bootstrapServers, b.servers, if objectId == SECURITY_OBJECT then MarkOf(n.id) else NoMark)
       else
         && b.bootstrapServers == a.bootstrapServers && b.servers == a.servers
         && exists id: nat :: LeastUnused(list, id) && OnlyInstance(a.objects, b.objects, objectId, id)
                              && Find(later, id) == Some(After(blank, n.children))
  }

  ghost predicate LeastUnused(list: Instances, id: nat) {
    !Has(list, id) && forall x: nat :: x < id ==> Has(list, x)
  }

  lemma NodeWritten(c: Client, objectId: nat, n: Node, blank: Instance)
    requires Sorted(c.objects) && Ascending(c.bootstrapServers) && Ascending(c.servers)
    requires Has(InstancesOf(c.objects, objectId), n.id)
    ensures var r := PutNode(c, objectId, n);
            && r.1 == NodeCode(c.objects, objectId, n, blank)
            && (r.1 == Changed <==> NodeFits(c.objects, objectId, n, blank))
            && (r.1 == Changed ==> NodeStored(c, r.0, objectId, n, blank))
  {
    hide Sorted, Find, After, TakesAll, CreateObject, Tagged, InstancesOf, NewId, MarkedBy, Has, Written, CodeOf,
         WithInstances;
    ObjectThere(c.objects, objectId, n.id);
    HasFound(InstancesOf(c.objects, objectId), n.id);
    var inst := Find(InstancesOf(c.objects, objectId), n.id).value;
    var w := WithObjects(c, WriteObject(c.objects, objectId, n.id, n.children)).0;
    BootstrapCommands.TaggedMarks(w, n.id);
    NothingMarked(c);
    OneMarked(w, n.id);
    SameLists(c, w, MarkOf(n.id), n.id);
    WrittenCode(inst, n.children);
    if n.children == [] {
      NothingWrites(c.objects, objectId, n.id, n.children);
    } else {
      WriteObjectExact(c.objects, objectId, n.id, n.children, inst);
      TakenWhole(inst, n.children);
      RefusalNotChanged(inst, n.children);
      assert n.children[..|n.children|] == n.children;
    }
  }

  lemma NodeCreated(c: Client, objectId: nat, n: Node, blank: Instance)
    requires Sorted(c.objects) && Room(c.objects, objectId, 1) && IsBlank(objectId, blank)
    requires !Has(InstancesOf(c.objects, objectId), n.id)
    ensures var r := PutNode(c, objectId, n);
            && r.1 == NodeCode(c.objects, objectId, n, blank)
            && (r.1 == Changed <==> NodeFits(c.objects, objectId, n, blank))
            && (r.1 == Changed ==> NodeStored(c, r.0, objectId, n, blank))
  {
    hide Sorted, Find, After, TakesAll, WriteObject, CreateObject, Tagged, NewId, MarkedBy, Has, CodeOf;
    HasFound(c.objects, objectId);
    if Has(c.objects, objectId) {
      var list := InstancesOf(c.objects, objectId);
      ListNotFull(c.objects, objectId);
      SortedInstances(c.objects, objectId);
      NewIdFresh(list);
      LeastHas(list);
      CreateObjectExact(c.objects, objectId, NewId(list), n.children, blank);
      CreatedCode(c.objects, objectId, NewId(list), n.children, blank);
      CodeDone(blank, n.children);
      CreateNotChanged(c.objects, objectId, NewId(list), n.children);
      assert LeastUnused(list, NewId(list));
    }
  }

  lemma CreateNotChanged(objects: ObjectList, objectId: nat, id: nat, nodes: seq<Node>)
    ensures CreateObject(objects, objectId, id, nodes).1 != Changed
  {
    hide WithInstances, WriteIn, Add, Remove, Find;
  }

  /** One instance node of the payload. */
  lemma PutNodeExact(c: Client, objectId: nat, n: Node, blank: Instance)
    requires Sorted(c.objects) && Ascending(c.bootstrapServers) && Ascending(c.servers)
    requires Room(c.objects, objectId, 1) && IsBlank(objectId, blank)
    ensures var r := PutNode(c, objectId, n);
            && r.1 == NodeCode(c.objects, objectId, n, blank)
            && (r.1 == Changed <==> NodeFits(c.objects, objectId, n, blank))
            && (r.1 == Changed ==> NodeStored(c, r.0, objectId, n, blank))
  {
    hide *;
    if Has(InstancesOf(c.objects, objectId), n.id) {
      NodeWritten(c, objectId, n, blank);
    } else {
      NodeCreated(c, objectId, n, blank);
    }
  }

  /** From one context to the next: an instance node is stored, any other node passed over. */
  ghost predicate Goes(a: Client, b: Client, objectId: nat, n: Node, blank: Instance) {
    if n.kind.InstanceNode? then NodeFits(a.objects, objectId, n, blank) && NodeStored(a, b, objectId, n, blank)
    else b == a
  }

  /** The contexts a PUT on an object runs through. */
  ghost predicate Passes(cs: seq<Client>, objectId: nat, nodes: seq<Node>, blank: Instance) {
    && 1 <= |cs| <= |nodes| + 1
    && forall i :: 0 <= i < |cs| - 1 ==> Goes(cs[i], cs[i + 1], objectId, nodes[i], blank)
  }

  lemma PassesNext(c: Client, cs: seq<Client>, objectId: nat, nodes: seq<Node>, blank: Instance)
    requires nodes != [] && Passes(cs, objectId, nodes[1..], blank) && Goes(c, cs[0], objectId, nodes[0], blank)
    ensures Passes([c] + cs, objectId, nodes, blank)
  {
    hide Goes;
    var all := [c] + cs;
    forall i | 0 <= i < |all| - 1
      ensures Goes(all[i], all[i + 1], objectId, nodes[i], blank)
    {
      if i > 0 { assert all[i] == cs[i - 1] && all[i + 1] == cs[i] && nodes[i] == nodes[1..][i - 1]; }
    }
  }

  lemma StoredAscending(a: Client, b: Client, objectId: nat, n: Node, blank: Instance)
    requires NodeStored(a, b, objectId, n, blank) && Ascending(a.bootstrapServers) && Ascending(a.servers)
    ensures Ascending(b.bootstrapServers) && Ascending(b.servers)
  {
    hide Has, OnlyInstance, After, Find, InstancesOf;
  }

  lemma NothingPasses(c: Client, objectId: nat, nodes: seq<Node>, blank: Instance)
    ensures Passes([c], objectId, nodes, blank)
  {}

  /** The end of it: all nodes are passed, and the last one determines the code, or an instance
      node does not fit. */
  ghost predicate Ends(cs: seq<Client>, r: (Client, Code), objectId: nat, nodes: seq<Node>, code: Code, blank: Instance)
  {
    && 1 <= |cs| <= |nodes| + 1
    && var p := |cs| - 1;
       if p == |nodes| then
         r == (cs[p], if p == 0 then code else if nodes[p - 1].kind.InstanceNode? then Changed else BadRequest)
       else
         && nodes[p].kind.InstanceNode? && !NodeFits(cs[p].objects, objectId, nodes[p], blank)
         && r.1 == NodeCode(cs[p].objects, objectId, nodes[p], blank)
  }

  lemma EndsNext(c: Client, cs: seq<Client>, r: (Client, Code), objectId: nat, nodes: seq<Node>, code: Code,
                 blank: Instance)
    requires nodes != []
    requires Ends(cs, r, objectId, nodes[1..], if nodes[0].kind.InstanceNode? then Changed else BadRequest, blank)
    ensures Ends([c] + cs, r, objectId, nodes, code, blank)
  {
    hide NodeFits, NodeCode;
    var p := |cs|;
    assert ([c] + cs)[p] == cs[p - 1];
    if p < |nodes| { assert nodes[p] == nodes[1..][p - 1]; }
    if p > 1 { assert nodes[p - 1] == nodes[1..][p - 2]; }
  }

  /** Whatever the nodes: the code is 2.04 or 4.00 by the kind of the last node if all are
      passed, and else that of the first instance node that does not fit. */
  lemma {:induction false} PutNodesExact(c: Client, objectId: nat, nodes: seq<Node>, code: Code, blank: Instance)
    returns (cs: seq<Client>)
    requires Sorted(c.objects) && Ascending(c.bootstrapServers) && Ascending(c.servers)
    requires Room(c.objects, objectId, |nodes|) && IsBlank(objectId, blank)
    ensures cs != [] && cs[0] == c && Passes(cs, objectId, nodes, blank)
    ensures Ends(cs, PutNodes(c, objectId, nodes, code), objectId, nodes, code, blank)
    decreases |nodes|
  {
    hide Sorted, Ascending, PutNode, NodeFits, NodeStored, InstancesOf, Passes, NodeCode;
    NothingPasses(c, objectId, nodes, blank);
    cs := [c];
    if nodes != [] {
      var rest: seq<Client>;
      if !nodes[0].kind.InstanceNode? {
        rest := PutNodesExact(c, objectId, nodes[1..], BadRequest, blank);
        PassesNext(c, rest, objectId, nodes, blank);
        EndsNext(c, rest, PutNodes(c, objectId, nodes, code), objectId, nodes, code, blank);
        cs := [c] + rest;
      } else {
        PutNodeExact(c, objectId, nodes[0], blank);
        var r := PutNode(c, objectId, nodes[0]);
        if r.1 == Changed {
          PutNodeSorted(c, objectId, nodes[0]);
          StoredAscending(c, r.0, objectId, nodes[0], blank);
          rest := PutNodesExact(r.0, objectId, nodes[1..], Changed, blank);
          PassesNext(c, rest, objectId, nodes, blank);
          EndsNext(c, rest, PutNodes(c, objectId, nodes, code), objectId, nodes, code, blank);
          cs := [c] + rest;
        }
      }
    }
  }

  /** A PUT on an object with any nodes. */
  lemma PutObjectExact(c: Client, name: string, session: nat, uri: Uri, m: Message, now: int, k: nat, blank: Instance)
    returns (cs: seq<Client>)
    requires Sorted(c.objects) && Ascending(c.bootstrapServers) && Ascending(c.servers)
    requires IsSender(c.bootstrapServers, session, k) && Accepting(c.bootstrapServers[k].body.status)
    requires m.verb.PutVerb? && uri.instanceId.None? && m.hasPayload && m.payload.Nodes? && m.payload.nodes != []
    requires Room(c.objects, uri.objectId, |m.payload.nodes|) && IsBlank(uri.objectId, blank)
    ensures cs != [] && cs[0] == Listening(c, k, now) && Passes(cs, uri.objectId, m.payload.nodes, blank)
    ensures var r := Next(c, name, Command(session, uri, m, now));
            exists d: Client ::
              && Ends(cs, (d, r.1), uri.objectId, m.payload.nodes, NoError, blank)
              && r.0.objects == d.objects && r.0.servers == d.servers
  {
    hide Sorted, Ascending, PutNodes, NodeFits, NodeStored, InstancesOf, Concluded, Passes, Ends, Find, Put, Accepting,
         Listening;
    CommandUnfolded(c, name, session, uri, m, now, k);
    ListeningAscending(c, k, now);
    ListeningServers(c, k, now);
    var c1 := Listening(c, k, now);
    cs := PutNodesExact(c1, uri.objectId, m.payload.nodes, NoError, blank);
    ConcludedCode(PutNodes(c1, uri.objectId, m.payload.nodes, NoError), c.bootstrapServers[k].id);
  }

  /** The code of an accepted PUT on an instance is that of the write or create request on the
      object, 2.04 standing for 2.01; that of a DELETE is the one of the delete request, but
      4.00 for a resource. */
  lemma CommandCode(c: Client, name: string, session: nat, uri: Uri, m: Message, now: int, k: nat)
    requires Sorted(c.objects) && Ascending(c.bootstrapServers)
    requires IsSender(c.bootstrapServers, session, k) && Accepting(c.bootstrapServers[k].body.status)
    ensures var code := Next(c, name, Command(session, uri, m, now)).1;
            && (m.verb.DeleteVerb? ==>
                  code == if uri.resourceId.Some? then BadRequest
                          else ObjectDelete(c.objects, uri.objectId, uri.instanceId).1)
            && (m.verb.PutVerb? && uri.instanceId.Some? ==>
                  var id := uri.instanceId.value;
                  code == if Has(InstancesOf(c.objects, uri.objectId), id) then
                            ObjectWrite(c.objects, uri.objectId, id, m.payload).1
                          else
                            var made := ObjectCreate(c.objects, uri.objectId, Some(id), m.hasPayload, m.payload).1;
                            if made == Created then Changed else made)
  {
    hide Sorted, Ascending, ObjectDelete, ObjectWrite, ObjectCreate, InstancesOf, Concluded, Find, Put, Accepting,
         Listening, PutNodes, Tagged, TaggedAll;
    CommandUnfolded(c, name, session, uri, m, now, k);
    ListeningServers(c, k, now);
    var c1 := Listening(c, k, now);
    ConcludedCode(PutCommand(c1, uri, m), c.bootstrapServers[k].id);
    ConcludedCode(DeleteCommand(c1, uri), c.bootstrapServers[k].id);
  }
}
