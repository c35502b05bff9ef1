/** What requests on objects do to them, read off the request: which writes, creates and
    deletes succeed, and what every resource holds afterwards. */
module ObjectRequests {
  import opened Text
  import opened Uris
  import opened IdLists
  import opened Context
  import opened Objects

  // ---------------------------------------------------------------- the resources of an instance

  /** Whether a Server instance takes the resource. */
  predicate AccountTakes(n: Node) {
    match n.id
    case 0 => IntBetween(n, 1, MAX_ID)
    case 1 => IntBetween(n, 0, UINT32_MAX)
    case 2 => IntBetween(n, 0, UINT32_MAX)
    case 3 => IntBetween(n, 0, UINT32_MAX)
    case 5 => IntBetween(n, 0, UINT32_MAX)
    case 6 => n.asBool.Some?
    case 7 => n.asText.Some? && IsBinding(n.asText.value)
    case _ => false
  }

  predicate Takes(inst: Instance, n: Node) {
    match inst
    case Security(_, _, _, _, _) => SecurityTakes(n)
    case Account(_, _, _, _, _, _, _) => AccountTakes(n)
    case Plain => n.accepted
  }

  predicate TakesAll(inst: Instance, nodes: seq<Node>) {
    forall k :: 0 <= k < |nodes| ==> Takes(inst, nodes[k])
  }

  /** The code a resource is refused with. */
  function Refusal(inst: Instance, n: Node): Code {
    match inst
    case Plain => NotAllowed
    case Security(_, _, _, _, _) =>
      if n.id in {2, 10, 11, 12} && n.asInt.Some? then NotAcceptable else BadRequest
    case Account(_, _, _, _, _, _, _) =>
      if n.id in {0, 1, 2, 3, 5} then (if n.asInt.Some? then NotAcceptable else BadRequest)
      else if n.id in {6, 7} then BadRequest
      else if n.id in {4, 8} then NotAllowed
      else NotFound
  }

  /** The integer of the last node for the resource, else what was there. */
  function IntOf(nodes: seq<Node>, id: nat, was: int): (r: int)
    ensures (forall k :: 0 <= k < |nodes| ==> nodes[k].id != id) ==> r == was
  {
    if nodes == [] then was
    else
      var n := nodes[|nodes| - 1];
      if n.id == id && n.asInt.Some? then n.asInt.value else IntOf(nodes[..|nodes| - 1], id, was)
  }

  function BoolOf(nodes: seq<Node>, id: nat, was: bool): (r: bool)
    ensures (forall k :: 0 <= k < |nodes| ==> nodes[k].id != id) ==> r == was
  {
    if nodes == [] then was
    else
      var n := nodes[|nodes| - 1];
      if n.id == id && n.asBool.Some? then n.asBool.value else BoolOf(nodes[..|nodes| - 1], id, was)
  }

  /** Bindings are copied one over the other. */
  function BindingOf(nodes: seq<Node>, was: string): string {
    if nodes == [] then was
    else
      var n := nodes[|nodes| - 1];
      var before := BindingOf(nodes[..|nodes| - 1], was);
      if n.id == 7 && n.asText.Some? then CopyOver(before, n.asText.value) else before
  }

  /** The instance after nodes that are taken: each resource holds what the last node for it
      says. */
  function After(inst: Instance, nodes: seq<Node>): Instance {
    match inst
    case Security(isBootstrap, securityMode, shortId, holdOff, accountTimeout) =>
      Security(BoolOf(nodes, 1, isBootstrap), IntOf(nodes, 2, securityMode), IntOf(nodes, 10, shortId),
               IntOf(nodes, 11, holdOff), IntOf(nodes, 12, accountTimeout))
    case Account(shortId, lifetime, minPeriod, maxPeriod, disableTimeout, storing, binding) =>
      Account(IntOf(nodes, 0, shortId), IntOf(nodes, 1, lifetime), IntOf(nodes, 2, minPeriod),
              IntOf(nodes, 3, maxPeriod), IntOf(nodes, 5, disableTimeout), BoolOf(nodes, 6, storing),
              BindingOf(nodes, binding))
    case Plain => Plain
  }

  lemma AfterNothing(inst: Instance)
    ensures After(inst, []) == inst
  {}

  lemma AloneOf(n: Node)
    ensures forall id: nat, was: int ::
              IntOf([n], id, was) == if n.id == id && n.asInt.Some? then n.asInt.value else was
    ensures forall id: nat, was: bool ::
              BoolOf([n], id, was) == if n.id == id && n.asBool.Some? then n.asBool.value else was
    ensures forall was ::
              BindingOf([n], was) == if n.id == 7 && n.asText.Some? then CopyOver(was, n.asText.value) else was
  {
    hide CopyOver;
    var none: seq<Node> := [];
    assert [n][..0] == none;
  }

  lemma NodeApplied(inst: Instance, n: Node)
    ensures ApplyNode(inst, n) == if Takes(inst, n) then (After(inst, [n]), Changed) else (inst, Refusal(inst, n))
    ensures Refusal(inst, n) != Changed
  {
    hide IsBinding, CopyOver, IntOf, BoolOf, BindingOf;
    AloneOf(n);
  }

  lemma AfterAppend(inst: Instance, a: seq<Node>, n: Node)
    ensures After(inst, a + [n]) == After(After(inst, a), [n])
  {
    hide CopyOver;
    assert (a + [n])[..|a|] == a;
    AloneOf(n);
  }

  lemma {:induction false} AfterConcat(inst: Instance, a: seq<Node>, b: seq<Node>)
    ensures After(inst, a + b) == After(After(inst, a), b)
    decreases |b|
  {
    hide After;
    if b == [] {
      assert a + b == a;
      AfterNothing(After(inst, a));
    } else {
      var front, n := b[..|b| - 1], b[|b| - 1];
      AfterConcat(inst, a, front);
      AfterAppend(inst, a + front, n);
      AfterAppend(After(inst, a), front, n);
      assert a + front + [n] == a + b && front + [n] == b;
    }
  }

  lemma AfterKind(inst: Instance, nodes: seq<Node>, n: Node)
    ensures Takes(After(inst, nodes), n) == Takes(inst, n) && Refusal(After(inst, nodes), n) == Refusal(inst, n)
  {
    hide IntOf, BoolOf, BindingOf, IsBinding;
  }

  /** How many nodes stand in front of the first that is refused. */
  function TakenFront(inst: Instance, nodes: seq<Node>): (p: nat)
    ensures p <= |nodes| && TakesAll(inst, nodes[..p])
    ensures p < |nodes| ==> !Takes(inst, nodes[p])
  {
    if nodes == [] || !Takes(inst, nodes[0]) then 0
    else
      var p := TakenFront(inst, nodes[1..]);
      assert nodes[..p + 1] == [nodes[0]] + nodes[1..][..p];
      p + 1
  }

  /** A write on a Security or Server instance: the nodes in front of the first refused one
      are applied, and the code is that of the refusal, or 2.04. */
  lemma {:induction false} WrittenExact(inst: Instance, nodes: seq<Node>)
    requires nodes != []
    ensures var p := TakenFront(inst, nodes);
            Written(inst, nodes) ==
            (After(inst, nodes[..p]), if p == |nodes| then Changed else Refusal(inst, nodes[p]))
    decreases |nodes|
  {
    hide ApplyNode, Takes, After, Refusal;
    var n, rest := nodes[0], nodes[1..];
    NodeApplied(inst, n);
    var p := TakenFront(inst, nodes);
    if !Takes(inst, n) {
      AfterNothing(inst);
      assert nodes[..0] == [];
    } else if rest == [] {
      assert nodes == [n] && nodes[..1] == [n];
    } else {
      var next := After(inst, [n]);
      WrittenExact(next, rest);
      FrontKind(inst, [n], rest);
      assert nodes[..p] == [n] + rest[..p - 1];
      AfterConcat(inst, [n], rest[..p - 1]);
      if p < |nodes| { AfterKind(inst, [n], nodes[p]); }
    }
  }

  lemma {:induction false} FrontKind(inst: Instance, a: seq<Node>, nodes: seq<Node>)
    ensures TakenFront(After(inst, a), nodes) == TakenFront(inst, nodes)
    decreases |nodes|
  {
    hide After, Takes;
    if nodes != [] {
      AfterKind(inst, a, nodes[0]);
      FrontKind(inst, a, nodes[1..]);
    }
  }

  lemma TakenWhole(inst: Instance, nodes: seq<Node>)
    ensures TakenFront(inst, nodes) == |nodes| <==> TakesAll(inst, nodes)
  {
    hide Takes;
    assert nodes[..|nodes|] == nodes;
  }

  // ---------------------------------------------------------------- writes

  /** Nothing but the instance has changed. */
  ghost predicate OnlyInstance(a: ObjectList, b: ObjectList, objectId: nat, id: nat) {
    && (forall x :: Has(b, x) == Has(a, x))
    && (forall x :: Has(a, x) ==> Find(b, x).value == Find(a, x).value.(instances := Find(b, x).value.instances))
    && (forall x :: x != objectId ==> InstancesOf(b, x) == InstancesOf(a, x))
    && (forall y :: y != id ==> Find(InstancesOf(b, objectId), y) == Find(InstancesOf(a, objectId), y))
  }

  lemma InstancesReplaced(objects: ObjectList, objectId: nat, list: Instances)
    requires Sorted(objects) && Has(objects, objectId)
    ensures var r := WithInstances(objects, objectId, list);
            && InstancesOf(r, objectId) == list
            && (forall x :: Has(r, x) == Has(objects, x))
            && (forall x :: Has(objects, x) ==>
                              Find(r, x).value == Find(objects, x).value.(instances := Find(r, x).value.instances))
            && (forall x :: x != objectId ==> InstancesOf(r, x) == InstancesOf(objects, x))
  {
    hide Put, Position, Find, Ascending;
    SortedAscending(objects);
    var o := Find(objects, objectId).value;
    forall x: nat
      ensures Find(WithInstances(objects, objectId, list), x) ==
              if x == objectId then Some(o.(instances := list)) else Find(objects, x)
    {
      PutFind(objects, objectId, o.(instances := list), x);
    }
  }

  /** A write on an existing instance. */
  lemma WriteObjectExact(objects: ObjectList, objectId: nat, id: nat, nodes: seq<Node>, inst: Instance)
    requires Sorted(objects) && Find(InstancesOf(objects, objectId), id) == Some(inst) && nodes != []
    ensures var r := WriteObject(objects, objectId, id, nodes);
            var p := TakenFront(inst, nodes);
            && r.1 == (if p == |nodes| then Changed else Refusal(inst, nodes[p]))
            && Find(InstancesOf(r.0, objectId), id) == Some(After(inst, nodes[..p]))
            && OnlyInstance(objects, r.0, objectId, id)
  {
    hide Written, Put, Find, Ascending, After, TakenFront, Refusal, WithInstances, Sorted;
    WrittenExact(inst, nodes);
    var list := InstancesOf(objects, objectId);
    SortedInstances(objects, objectId);
    ObjectThere(objects, objectId, id);
    var w := Written(inst, nodes).0;
    InstancesReplaced(objects, objectId, Put(list, id, w));
    forall y: nat
      ensures Find(Put(list, id, w), y) == if y == id then Some(w) else Find(list, y)
    {
      PutFind(list, id, w, y);
    }
  }

  lemma ObjectThere(objects: ObjectList, objectId: nat, id: nat)
    ensures Has(InstancesOf(objects, objectId), id) ==> Has(objects, objectId)
    ensures Has(objects, objectId) <==> Find(objects, objectId).Some?
  {}

  /** Which write requests answer 2.04, and what they leave. */
  lemma WriteExact(objects: ObjectList, objectId: nat, id: nat, payload: Payload)
    requires Sorted(objects)
    ensures var r := ObjectWrite(objects, objectId, id, payload);
            var was := Find(InstancesOf(objects, objectId), id);
            && (r.1 == Changed <==>
                  && was.Some? && Find(objects, objectId).value.canWrite
                  && payload.Nodes? && payload.nodes != [] && TakesAll(was.value, payload.nodes))
            && (r.1 == Changed ==>
                  && Find(InstancesOf(r.0, objectId), id) == Some(After(was.value, payload.nodes))
                  && OnlyInstance(objects, r.0, objectId, id))
  {
    hide Put, Find, Ascending, After, TakenFront, Refusal, WriteObject, Sorted, Takes, TakesAll;
    ObjectThere(objects, objectId, id);
    var was := Find(InstancesOf(objects, objectId), id);
    if Has(objects, objectId) {
      if was.Some? && payload.Nodes? && payload.nodes != [] {
        WriteObjectExact(objects, objectId, id, payload.nodes, was.value);
        TakenWhole(was.value, payload.nodes);
        assert payload.nodes[..|payload.nodes|] == payload.nodes;
        RefusalNotChanged(was.value, payload.nodes);
      } else {
        NothingWrites(objects, objectId, id, NodesOf(payload));
      }
    }
  }

  lemma RefusalNotChanged(inst: Instance, nodes: seq<Node>)
    ensures forall k :: 0 <= k < |nodes| ==> Refusal(inst, nodes[k]) != Changed
  {
    hide IsBinding;
  }

  lemma NothingWrites(objects: ObjectList, objectId: nat, id: nat, nodes: seq<Node>)
    requires Find(InstancesOf(objects, objectId), id).None? || nodes == []
    ensures WriteObject(objects, objectId, id, nodes).1 in {NotFound, Crash}
  {
    hide Find;
  }

  // ---------------------------------------------------------------- creates

  /** An instance of the object with nothing written yet. */
  predicate IsBlank(objectId: nat, inst: Instance) {
    if objectId == 0 then inst == Security(false, 0, 0, 0, 0)
    else if objectId == 1 then inst == Account(0, 0, 0, 0, 0, false, [NUL, NUL, NUL, NUL])
    else inst == Plain
  }

  /** A create under an unused id: the blank instance with the nodes written, or nothing. */
  lemma CreateObjectExact(objects: ObjectList, objectId: nat, id: nat, nodes: seq<Node>, blank: Instance)
    requires Sorted(objects) && Has(objects, objectId) && IsInstanceNew(objects, objectId, id)
    requires IsBlank(objectId, blank)
    ensures var r := CreateObject(objects, objectId, id, nodes);
            && (r.1 == Created <==> nodes != [] && TakesAll(blank, nodes))
            && (r.1 == Created ==>
                  && Find(InstancesOf(r.0, objectId), id) == Some(After(blank, nodes))
                  && OnlyInstance(objects, r.0, objectId, id))
  {
    hide Written, Put, Find, Ascending, After, TakenFront, Refusal, WithInstances, Sorted, CreateIn, Takes, TakesAll;
    assert blank == Zeroed(objectId);
    var list := InstancesOf(objects, objectId);
    SortedInstances(objects, objectId);
    CreateInAllOrNothing(list, objectId, id, nodes);
    InstancesReplaced(objects, objectId, CreateIn(list, objectId, id, nodes).0);
    if nodes == [] {
      WrittenNothing(blank);
    } else {
      WrittenExact(blank, nodes);
      TakenWhole(blank, nodes);
      assert nodes[..|nodes|] == nodes;
      RefusalNotChanged(blank, nodes);
    }
  }

  lemma WrittenNothing(inst: Instance)
    ensures Written(inst, []).1 == Crash
  {}

  /** Which create requests answer 2.01, under which id, and what they leave.  An id given
      outside the payload must be unused. */
  lemma CreateExact(objects: ObjectList, objectId: nat, instance: Option<nat>, hasPayload: bool, payload: Payload,
                    blank: Instance)
    requires Sorted(objects) && NotFull(objects, objectId) && IsBlank(objectId, blank)
    requires instance.Some? ==> !Has(InstancesOf(objects, objectId), instance.value)
    ensures var r := ObjectCreate(objects, objectId, instance, hasPayload, payload);
            var list := InstancesOf(objects, objectId);
            var nodes := if payload.Nodes? then payload.nodes else [];
            var wrapped := nodes != [] && nodes[0].kind.InstanceNode?;
            var inner := if wrapped then nodes[0].children else nodes;
            && (r.1 == Created <==>
                  && hasPayload && Has(objects, objectId) && Find(objects, objectId).value.canCreate
                  && nodes != [] && !nodes[0].kind.ObjectNode?
                  && (wrapped ==> |nodes| == 1 && !Has(list, nodes[0].id))
                  && inner != [] && TakesAll(blank, inner))
            && (r.1 == Created ==> exists id: nat ::
                  && !Has(list, id)
                  && (wrapped ==> id == nodes[0].id)
                  && (!wrapped && instance.Some? ==> id == instance.value)
                  && (!wrapped && instance.None? ==> forall x: nat :: x < id ==> Has(list, x))
                  && Find(InstancesOf(r.0, objectId), id) == Some(After(blank, inner))
                  && OnlyInstance(objects, r.0, objectId, id))
  {
    hide Put, Find, Ascending, After, TakenFront, Refusal, CreateObject, Sorted, Takes, TakesAll, NewId, OnlyInstance,
         IsBlank;
    ObjectThere(objects, objectId, 0);
    var t := CreateTarget(objects, objectId, instance, hasPayload, payload);
    if t.0 == NoError {
      var list := InstancesOf(objects, objectId);
      SortedInstances(objects, objectId);
      NewIdFresh(list);
      NewIdLeast(list, NewId(list));
      LeastHas(list);
      CreateObjectExact(objects, objectId, t.1, t.2, blank);
    }
  }

  lemma LeastHas(list: Instances)
    requires Ascending(list) && |list| < ID_COUNT
    ensures forall x: nat :: x < NewId(list) ==> Has(list, x)
  {
    NewIdLeast(list, NewId(list));
  }

  // ---------------------------------------------------------------- deletes

  /** Which delete requests answer 2.02, and what they leave. */
  lemma DeleteExact(objects: ObjectList, objectId: nat, instance: Option<nat>)
    requires Sorted(objects)
    ensures var r := ObjectDelete(objects, objectId, instance);
            var list := InstancesOf(objects, objectId);
            && (r.1 == Deleted <==>
                  && Has(objects, objectId) && Find(objects, objectId).value.canDelete
                  && (instance.Some? ==> Has(list, instance.value)))
            && (r.1 != Deleted ==> r.0 == objects)
            && (r.1 == Deleted && instance.Some? ==>
                  && !Has(InstancesOf(r.0, objectId), instance.value)
                  && OnlyInstance(objects, r.0, objectId, instance.value))
            && (r.1 == Deleted && instance.None? ==>
                  && InstancesOf(r.0, objectId) == []
                  && forall x :: x != objectId ==> InstancesOf(r.0, x) == InstancesOf(objects, x))
  {
    hide Remove, Find, Ascending, WithInstances, Sorted;
    ObjectThere(objects, objectId, 0);
    var list := InstancesOf(objects, objectId);
    SortedInstances(objects, objectId);
    if Has(objects, objectId) {
      WithInstancesSame(objects, objectId);
      if instance.Some? {
        InstancesReplaced(objects, objectId, Remove(list, instance.value));
        forall y: nat
          ensures Find(Remove(list, instance.value), y) == if y == instance.value then None else Find(list, y)
        {
          RemoveFind(list, instance.value, y);
        }
      } else {
        InstancesReplaced(objects, objectId, []);
      }
    }
  }

  // ---------------------------------------------------------------- the codes

  /** The code of nodes written on an instance; without nodes the loop reads past the array. */
  function CodeOf(inst: Instance, nodes: seq<Node>, done: Code): Code {
    if nodes == [] then Crash
    else
      var p := TakenFront(inst, nodes);
      if p == |nodes| then done else Refusal(inst, nodes[p])
  }

  lemma WrittenCode(inst: Instance, nodes: seq<Node>)
    ensures Written(inst, nodes).1 == CodeOf(inst, nodes, Changed)
  {
    hide After, Refusal, ApplyNode;
    if nodes == [] { WrittenNothing(inst); } else { WrittenExact(inst, nodes); }
  }

  /** The code of a write request. */
  lemma WriteCode(objects: ObjectList, objectId: nat, id: nat, payload: Payload)
    ensures ObjectWrite(objects, objectId, id, payload).1 ==
            if !Has(objects, objectId) then NotFound
            else if !Find(objects, objectId).value.canWrite then NotAllowed
            else if payload.Nothing? then NotAcceptable
            else
              match Find(InstancesOf(objects, objectId), id)
              case None => NotFound
              case Some(inst) => CodeOf(inst, if payload.Nodes? then payload.nodes else [], Changed)
  {
    hide Find, Written, CodeOf;
    if Find(InstancesOf(objects, objectId), id).Some? {
      WrittenCode(Find(InstancesOf(objects, objectId), id).value, if payload.Nodes? then payload.nodes else []);
    }
  }

  /** The code of a create request; an id given outside the payload must be unused. */
  lemma CreateCode(objects: ObjectList, objectId: nat, instance: Option<nat>, hasPayload: bool, payload: Payload,
                   blank: Instance)
    requires Sorted(objects) && NotFull(objects, objectId) && IsBlank(objectId, blank)
    requires instance.Some? ==> !Has(InstancesOf(objects, objectId), instance.value)
    ensures var nodes := if payload.Nodes? then payload.nodes else [];
            ObjectCreate(objects, objectId, instance, hasPayload, payload).1 ==
              if !hasPayload then BadRequest
              else if !Has(objects, objectId) then NotFound
              else if !Find(objects, objectId).value.canCreate then NotAllowed
              else if nodes == [] || nodes[0].kind.ObjectNode? then BadRequest
              else if nodes[0].kind.InstanceNode? then
                if |nodes| > 1 then BadRequest
                else if Has(InstancesOf(objects, objectId), nodes[0].id) then NotAcceptable
                else CodeOf(blank, nodes[0].children, Created)
              else CodeOf(blank, nodes, Created)
  {
    hide Find, CodeOf, CreateObject, Ascending, Sorted, NewId, IsBlank;
    ObjectThere(objects, objectId, 0);
    var t := CreateTarget(objects, objectId, instance, hasPayload, payload);
    if t.0 == NoError {
      var list := InstancesOf(objects, objectId);
      SortedInstances(objects, objectId);
      NewIdFresh(list);
      CreatedCode(objects, objectId, t.1, t.2, blank);
    }
  }

  lemma CreatedCode(objects: ObjectList, objectId: nat, id: nat, nodes: seq<Node>, blank: Instance)
    requires Sorted(objects) && Has(objects, objectId) && IsInstanceNew(objects, objectId, id)
    requires IsBlank(objectId, blank)
    ensures CreateObject(objects, objectId, id, nodes).1 == CodeOf(blank, nodes, Created)
  {
    hide Written, Put, Find, Ascending, WithInstances, Sorted, CodeOf, TakenFront;
    assert blank == Zeroed(objectId);
    var list := InstancesOf(objects, objectId);
    SortedInstances(objects, objectId);
    AddFind(list, id, blank, id);
    WrittenCode(blank, nodes);
    CodeDone(blank, nodes);
  }

  lemma CodeDone(inst: Instance, nodes: seq<Node>)
    ensures CodeOf(inst, nodes, Created) ==
            if CodeOf(inst, nodes, Changed) == Changed then Created else CodeOf(inst, nodes, Changed)
    ensures CodeOf(inst, nodes, Changed) != Created
  {
    hide TakenFront, IsBinding;
    RefusalNotChanged(inst, nodes);
  }

  /** The code of a delete request. */
  lemma DeleteCode(objects: ObjectList, objectId: nat, instance: Option<nat>)
    ensures ObjectDelete(objects, objectId, instance).1 ==
            if !Has(objects, objectId) then NotFound
            else if !Find(objects, objectId).value.canDelete then NotAllowed
            else if instance.Some? && !Has(InstancesOf(objects, objectId), instance.value) then NotFound
            else Deleted
  {
    hide Remove, WithInstances;
  }
}
