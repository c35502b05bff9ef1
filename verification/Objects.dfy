/** Object operations (src/lwm2m/core/objects.c) over the Security and Server objects
    (src/lwm2m/client/object_security.c, src/lwm2m/client/object_server.c). */
module Objects {
  import opened Text
  import opened Uris
  import opened IdLists
  import opened Context
  import JsonScan

  // ---------------------------------------------------------------- writing an instance

  /** An integer resource that must lie between `low` and `high`. */
  function Ranged(n: Node, low: int, high: int): Code {
    if n.asInt.None? then BadRequest
    else if low <= n.asInt.value <= high then Changed
    else NotAcceptable
  }

  predicate IsBinding(text: string) {
    && 0 < |text| <= 3
    && (JsonScan.SameText("U", text) || JsonScan.SameText("UQ", text) || JsonScan.SameText("S", text)
        || JsonScan.SameText("SQ", text) || JsonScan.SameText("US", text) || JsonScan.SameText("UQS", text))
  }

  /** The bytes of a C string: up to its first NUL. */
  function CString(s: string): (r: string)
    ensures |r| <= |s| && NUL !in r
  {
    if s == "" || s[0] == NUL then "" else [s[0]] + CString(s[1..])
  }

  /** `strncpy` of `text` over the front of `was`: a shorter string is padded with NULs to
      the given length, the bytes behind stay. */
  function CopyOver(was: string, text: string): (r: string) {
    var c := CString(text);
    c + seq(|text| - |c|, _ => NUL) + if |text| <= |was| then was[|text|..] else ""
  }

  lemma CStringNext(c: char, s: string)
    requires c != NUL
    ensures CString([c] + s) == [c] + CString(s)
  {
    assert ([c] + s)[1..] == s;
  }

  lemma {:induction false} CStringConcat(a: string, b: string)
    requires NUL !in a
    ensures CString(a + b) == a + CString(b)
  {
    hide CString;
    if a == "" {
      assert a + b == b;
    } else {
      CStringConcat(a[1..], b);
      assert a == [a[0]] + a[1..];
      assert a + b == [a[0]] + (a[1..] + b);
      CStringNext(a[0], a[1..] + b);
      assert [a[0]] + (a[1..] + CString(b)) == a + CString(b);
    }
  }

  /** The binding is copied without its terminating NUL: it is read back as written
      exactly when the old binding was no longer.  A binding "UQS" never becomes "U". */
  lemma BindingOverlay(was: string, text: string)
    requires |text| < |was| && NUL !in text
    ensures CString(CopyOver(was, text)) == text <==> was[|text|] == NUL
  {
    CStringConcat(text, "");
    assert text + "" == text;
    var rest := was[|text|..];
    assert CopyOver(was, text) == text + rest;
    CStringConcat(text, rest);
    assert CString(rest) == "" <==> rest[0] == NUL;
    assert text + CString(rest) == text <==> |CString(rest)| == 0;
  }

  /** One round of the switch in `prv_security_write` or `prv_server_write`; an object
      outside this model accepts or refuses as the node says. */
  function ApplyNode(inst: Instance, n: Node): (r: (Instance, Code))
    ensures r.1 != Created && r.1 != Deleted
    ensures r.0.Security? == inst.Security? && r.0.Account? == inst.Account?
  {
    match inst
    case Plain => (inst, if n.accepted then Changed else NotAllowed)
    case Security(isBootstrap, securityMode, _, holdOff, accountTimeout) =>
      (match n.id
       case 1 =>
         if n.asBool.Some? then (inst.(isBootstrap := n.asBool.value), Changed) else (inst, BadRequest)
       case 2 =>
         var code := Ranged(n, 0, 3);
         (if code == Changed then inst.(securityMode := n.asInt.value) else inst, code)
       case 10 =>
         var code := Ranged(n, 0, MAX_ID);
         (if code != Changed then inst
          else Security(isBootstrap, securityMode, n.asInt.value, holdOff, accountTimeout), code)
       case 11 =>
         var code := Ranged(n, 0, UINT32_MAX);
         (if code == Changed then inst.(holdOff := n.asInt.value) else inst, code)
       case 12 =>
         var code := Ranged(n, 0, UINT32_MAX);
         (if code == Changed then inst.(accountTimeout := n.asInt.value) else inst, code)
       case _ => (inst, if n.id <= 9 then Changed else BadRequest))
    case Account(_, lifetime, minPeriod, maxPeriod, disableTimeout, storing, binding) =>
      (match n.id
       case 0 =>
         var code := Ranged(n, 0, UINT32_MAX);
         if code != Changed then (inst, code)
         else if 0 < n.asInt.value <= MAX_ID then
           (Account(n.asInt.value, lifetime, minPeriod, maxPeriod, disableTimeout, storing, binding), Changed)
         else (inst, NotAcceptable)
       case 1 =>
         var code := Ranged(n, 0, UINT32_MAX);
         (if code == Changed then inst.(lifetime := n.asInt.value) else inst, code)
       case 2 =>
         var code := Ranged(n, 0, UINT32_MAX);
         (if code == Changed then inst.(minPeriod := n.asInt.value) else inst, code)
       case 3 =>
         var code := Ranged(n, 0, UINT32_MAX);
         (if code == Changed then inst.(maxPeriod := n.asInt.value) else inst, code)
       case 5 =>
         var code := Ranged(n, 0, UINT32_MAX);
         (if code == Changed then inst.(disableTimeout := n.asInt.value) else inst, code)
       case 6 =>
         if n.asBool.Some? then (inst.(storing := n.asBool.value), Changed) else (inst, BadRequest)
       case 7 =>
         if n.asText.Some? && IsBinding(n.asText.value) then
           (inst.(binding := CopyOver(binding, n.asText.value)), Changed)
         else (inst, BadRequest)
       case _ => (inst, if n.id == 4 || n.id == 8 then NotAllowed else NotFound))
  }

  /** The nodes written in order up to the first that fails.  The loop looks at the first
      node before it looks at their number. */
  function Written(inst: Instance, nodes: seq<Node>): (r: (Instance, Code))
    ensures r.1 != Created && r.1 != Deleted
    ensures r.0.Security? == inst.Security? && r.0.Account? == inst.Account?
    decreases |nodes|
  {
    if nodes == [] then (inst, Crash)
    else
      var first := ApplyNode(inst, nodes[0]);
      if first.1 != Changed || |nodes| == 1 then first else Written(first.0, nodes[1..])
  }

  method WriteNodes(inst: Instance, nodes: seq<Node>) returns (r: Instance, code: Code)
    ensures (r, code) == Written(inst, nodes)
  {
    r := inst;
    if nodes == [] { return r, Crash; }
    var i := 0;
    code := Changed;
    assert nodes[0..] == nodes;
    while true
      invariant 0 <= i < |nodes| && Written(inst, nodes) == Written(r, nodes[i..])
      decreases |nodes| - i
    {
      assert nodes[i..][1..] == nodes[i + 1..];
      var step := ApplyNode(r, nodes[i]);
      r, code := step.0, step.1;
      i := i + 1;
      if !(i < |nodes| && code == Changed) { return; }
    }
  }

  // ---------------------------------------------------------------- Security writes, by the request

  predicate IntBetween(n: Node, low: int, high: int) {
    n.asInt.Some? && low <= n.asInt.value <= high
  }

  /** Whether a Security instance takes the resource, whatever the instance. */
  predicate SecurityTakes(n: Node) {
    match n.id
    case 1 => n.asBool.Some?
    case 2 => IntBetween(n, 0, 3)
    case 10 => IntBetween(n, 0, MAX_ID)
    case 11 => IntBetween(n, 0, UINT32_MAX)
    case 12 => IntBetween(n, 0, UINT32_MAX)
    case _ => n.id <= 9
  }

  /** How many nodes stand in front of the first that is refused. */
  function TakenCount(nodes: seq<Node>): (p: nat)
    ensures p <= |nodes|
    ensures forall k :: 0 <= k < p ==> SecurityTakes(nodes[k])
    ensures p < |nodes| ==> !SecurityTakes(nodes[p])
  {
    if nodes == [] || !SecurityTakes(nodes[0]) then 0 else 1 + TakenCount(nodes[1..])
  }

  /** The bootstrap flag the last of the nodes with that resource carries. */
  function LastFlag(nodes: seq<Node>): Option<bool> {
    if nodes == [] then None
    else
      match LastFlag(nodes[1..])
      case Some(flag) => Some(flag)
      case None => if nodes[0].id == 1 then nodes[0].asBool else None
  }

  lemma SecurityNode(inst: Instance, n: Node)
    requires inst.Security?
    ensures var r := ApplyNode(inst, n);
            && r.0.Security?
            && (r.1 == Changed <==> SecurityTakes(n))
            && (!SecurityTakes(n) ==> r.0 == inst)
            && (SecurityTakes(n) ==> r.0.isBootstrap == if n.id == 1 then n.asBool.value else inst.isBootstrap)
  {}

  /** A Security write answers 2.04 if and only if every node is taken, and the flag it leaves
      is the last one in front of the first refused node. */
  lemma {:induction false} SecurityWritten(inst: Instance, nodes: seq<Node>)
    requires inst.Security? && nodes != []
    ensures var w := Written(inst, nodes);
            var p := TakenCount(nodes);
            && (w.1 == Changed <==> p == |nodes|)
            && w.0.Security?
            && w.0.isBootstrap == match LastFlag(nodes[..p]) case Some(flag) => flag case None => inst.isBootstrap
    decreases |nodes|
  {
    hide ApplyNode, SecurityTakes;
    var n, rest := nodes[0], nodes[1..];
    SecurityNode(inst, n);
    var p := TakenCount(nodes);
    if SecurityTakes(n) {
      assert nodes[..p][1..] == rest[..p - 1];
      if rest == [] {
        assert LastFlag(rest[..p - 1]) == None;
      } else {
        SecurityWritten(ApplyNode(inst, n).0, rest);
      }
      if n.id == 1 { SecurityFlagRead(n); }
    }
  }

  lemma SecurityFlagRead(n: Node)
    requires SecurityTakes(n) && n.id == 1
    ensures n.asBool.Some?
  {}

  // ---------------------------------------------------------------- one object

  /** The `writeFunc` of an object. */
  function WriteIn(list: Instances, id: nat, nodes: seq<Node>): (Instances, Code) {
    match Find(list, id)
    case None => (list, NotFound)
    case Some(inst) =>
      var w := Written(inst, nodes);
      (Put(list, id, w.0), w.1)
  }

  /** The `deleteFunc` of an object. */
  function DeleteIn(list: Instances, id: nat): (Instances, Code) {
    if Has(list, id) then (Remove(list, id), Deleted) else (list, NotFound)
  }

  /** The `createFunc` of an object: a zeroed instance is added, written, and taken out
      again when the write fails. */
  function CreateIn(list: Instances, objectId: nat, id: nat, nodes: seq<Node>): (Instances, Code) {
    var w := WriteIn(Add(list, id, Zeroed(objectId)), id, nodes);
    if w.1 == Crash then w
    else if w.1 != Changed then (DeleteIn(w.0, id).0, w.1)
    else (w.0, Created)
  }

  /** A create under a fresh id, unfolded. */
  lemma CreateInSteps(list: Instances, objectId: nat, id: nat, nodes: seq<Node>, added: Instances)
    requires added == Add(list, id, Zeroed(objectId)) && Find(added, id) == Some(Zeroed(objectId))
    ensures var w := Written(Zeroed(objectId), nodes);
            var p := Put(added, id, w.0);
            CreateIn(list, objectId, id, nodes) ==
              if w.1 == Crash then (p, Crash)
              else if w.1 != Changed then (if Has(p, id) then Remove(p, id) else p, w.1)
              else (p, Created)
  {
    hide Written, Zeroed, Add, Put, Remove, Find;
  }

  /** A create that is refused leaves the instances exactly as they were; one that
      succeeds adds one instance and touches no other. */
  lemma CreateInAllOrNothing(list: Instances, objectId: nat, id: nat, nodes: seq<Node>)
    requires Ascending(list) && !Has(list, id)
    ensures var r := CreateIn(list, objectId, id, nodes);
            && Ascending(r.0)
            && (r.1 != Created && r.1 != Crash ==> r.0 == list)
            && (r.1 == Created ==> |r.0| == |list| + 1 && Find(r.0, id) == Some(Written(Zeroed(objectId), nodes).0))
            && (r.1 == Created <==> Written(Zeroed(objectId), nodes).1 == Changed)
            && forall x :: x != id ==> Find(r.0, x) == Find(list, x)
  {
    hide *;
    var zero := Zeroed(objectId);
    var added := Add(list, id, zero);
    var w := Written(zero, nodes);
    var p := Put(added, id, w.0);
    AddLonger(list, id, zero);
    AddAscending(list, id, zero);
    AddFind(list, id, zero, id);
    HasFound(added, id);
    CreateInSteps(list, objectId, id, nodes, added);
    PutAscending(added, id, w.0);
    PutFind(added, id, w.0, id);
    HasFound(p, id);
    AddPutRemove(list, id, zero, w.0);
    forall x | x != id
      ensures Find(p, x) == Find(list, x)
    {
      PutFind(added, id, w.0, x);
      AddFind(list, id, zero, x);
    }
  }

  lemma HasFound<T>(list: seq<Entry<T>>, id: nat)
    ensures Has(list, id) <==> Find(list, id).Some?
  {}

  lemma AddLonger<T>(list: seq<Entry<T>>, id: nat, body: T)
    ensures |Add(list, id, body)| == |list| + 1
  {}

  // ---------------------------------------------------------------- requests

  function NodesOf(payload: Payload): seq<Node> {
    if payload.Nodes? then payload.nodes else []
  }

  /** The objects with other instances under `objectId`. */
  function WithInstances(objects: ObjectList, objectId: nat, list: Instances): ObjectList {
    match Find(objects, objectId)
    case None => objects
    case Some(o) => Put(objects, objectId, o.(instances := list))
  }

  function InstancesOf(objects: ObjectList, objectId: nat): Instances {
    match Find(objects, objectId)
    case None => []
    case Some(o) => o.instances
  }

  /** `object_isInstanceNew`. */
  predicate IsInstanceNew(objects: ObjectList, objectId: nat, id: nat) {
    !Has(InstancesOf(objects, objectId), id)
  }

  /** `object_write` and `object_writeInstance` below the checks on the object. */
  function WriteObject(objects: ObjectList, objectId: nat, id: nat, nodes: seq<Node>): (ObjectList, Code) {
    var w := WriteIn(InstancesOf(objects, objectId), id, nodes);
    (WithInstances(objects, objectId, w.0), w.1)
  }

  function ObjectWrite(objects: ObjectList, objectId: nat, id: nat, payload: Payload): (ObjectList, Code) {
    match Find(objects, objectId)
    case None => (objects, NotFound)
    case Some(o) =>
      if !o.canWrite then (objects, NotAllowed)
      else if payload.Nothing? then (objects, NotAcceptable)
      else WriteObject(objects, objectId, id, NodesOf(payload))
  }

  function ObjectWriteInstance(objects: ObjectList, objectId: nat, node: Node): (ObjectList, Code) {
    match Find(objects, objectId)
    case None => (objects, NotFound)
    case Some(o) =>
      if !o.canWrite then (objects, NotAllowed) else WriteObject(objects, objectId, node.id, node.children)
  }

  function CreateObject(objects: ObjectList, objectId: nat, id: nat, nodes: seq<Node>): (ObjectList, Code) {
    var w := CreateIn(InstancesOf(objects, objectId), objectId, id, nodes);
    (WithInstances(objects, objectId, w.0), w.1)
  }

  /** The id an `object_create` request creates, or the code that refuses it. */
  function CreateTarget(objects: ObjectList, objectId: nat, instance: Option<nat>, hasPayload: bool, payload: Payload)
    : (Code, nat, seq<Node>)
  {
    if !hasPayload then (BadRequest, 0, [])
    else
      match Find(objects, objectId)
      case None => (NotFound, 0, [])
      case Some(o) =>
        var nodes := NodesOf(payload);
        if !o.canCreate then (NotAllowed, 0, [])
        else if nodes == [] then (BadRequest, 0, [])
        else
          match nodes[0].kind
          case ObjectNode => (BadRequest, 0, [])
          case InstanceNode =>
            if |nodes| != 1 then (BadRequest, 0, [])
            else if Has(o.instances, nodes[0].id) then (NotAcceptable, 0, [])
            else (NoError, nodes[0].id, nodes[0].children)
          case ResourceNode =>
            (NoError, if instance.Some? then instance.value else NewId(o.instances), nodes)
  }

  /** `object_create`. */
  function ObjectCreate(objects: ObjectList, objectId: nat, instance: Option<nat>, hasPayload: bool, payload: Payload)
    : (ObjectList, Code)
  {
    var t := CreateTarget(objects, objectId, instance, hasPayload, payload);
    if t.0 != NoError then (objects, t.0) else CreateObject(objects, objectId, t.1, t.2)
  }

  /** `object_createInstance`: the new instance gets the least unused id, whatever id the
      request names. */
  function ObjectCreateInstance(objects: ObjectList, objectId: nat, node: Node): (ObjectList, Code) {
    match Find(objects, objectId)
    case None => (objects, NotFound)
    case Some(o) =>
      if !o.canCreate then (objects, NotAllowed)
      else CreateObject(objects, objectId, NewId(o.instances), node.children)
  }

  /** `object_delete`: one instance, or one after the other until none is left. */
  function ObjectDelete(objects: ObjectList, objectId: nat, instance: Option<nat>): (ObjectList, Code) {
    match Find(objects, objectId)
    case None => (objects, NotFound)
    case Some(o) =>
      if !o.canDelete then (objects, NotAllowed)
      else if instance.Some? then
        var d := DeleteIn(o.instances, instance.value);
        (WithInstances(objects, objectId, d.0), d.1)
      else (WithInstances(objects, objectId, []), Deleted)
  }

  // ---------------------------------------------------------------- the code

  method Write(c: Context, objectId: nat, id: nat, nodes: seq<Node>) returns (code: Code)
    modifies c`objects
    ensures (c.objects, code) == WriteObject(old(c.objects), objectId, id, nodes)
  {
    hide Written;
    var list := InstancesOf(c.objects, objectId);
    match Find(list, id) {
      case None => code := NotFound;
      case Some(inst) =>
        var w;
        w, code := WriteNodes(inst, nodes);
        list := Put(list, id, w);
    }
    c.objects := WithInstances(c.objects, objectId, list);
  }

  /** `prv_security_create` and `prv_server_create`. */
  method CreateWith(c: Context, objectId: nat, id: nat, nodes: seq<Node>) returns (code: Code)
    modifies c`objects
    ensures (c.objects, code) == CreateObject(old(c.objects), objectId, id, nodes)
  {
    hide Written, Find, Put, Add, Remove, Has;
    ghost var objects := c.objects;
    var list := Add(InstancesOf(c.objects, objectId), id, Zeroed(objectId));
    match Find(list, id) {
      case None => code := NotFound;
      case Some(inst) =>
        var w;
        w, code := WriteNodes(inst, nodes);
        list := Put(list, id, w);
    }
    if code == Changed {
      code := Created;
    } else if code != Crash {
      list := DeleteIn(list, id).0;
    }
    c.objects := WithInstances(c.objects, objectId, list);
  }

  method Create(c: Context, objectId: nat, instance: Option<nat>, hasPayload: bool, payload: Payload)
    returns (code: Code)
    modifies c`objects
    ensures (c.objects, code) == ObjectCreate(old(c.objects), objectId, instance, hasPayload, payload)
  {
    hide CreateObject, Find, Has, NewId;
    if !hasPayload { return BadRequest; }
    match Find(c.objects, objectId) {
      case None => return NotFound;
      case Some(o) =>
        if !o.canCreate { return NotAllowed; }
        var nodes := NodesOf(payload);
        if |nodes| == 0 { return BadRequest; }
        match nodes[0].kind {
          case ObjectNode => return BadRequest;
          case InstanceNode =>
            if |nodes| != 1 { return BadRequest; }
            if Has(o.instances, nodes[0].id) { return NotAcceptable; }
            code := CreateWith(c, objectId, nodes[0].id, nodes[0].children);
          case ResourceNode =>
            var id := if instance.Some? then instance.value else NewId(o.instances);
            code := CreateWith(c, objectId, id, nodes);
        }
    }
  }

  /** Taking out the head of a list. */
  lemma RemoveHead(list: Instances)
    requires list != []
    ensures DeleteIn(list, list[0].id) == (list[1..], Deleted)
  {
    assert Position(list, list[0].id) == 0;
    assert list[..0] + list[1..] == list[1..];
  }

  method Delete(c: Context, objectId: nat, instance: Option<nat>) returns (code: Code)
    modifies c`objects
    ensures (c.objects, code) == ObjectDelete(old(c.objects), objectId, instance)
  {
    hide DeleteIn, Find, WithInstances;
    match Find(c.objects, objectId) {
      case None => return NotFound;
      case Some(o) =>
        if !o.canDelete { return NotAllowed; }
        var list := o.instances;
        if instance.Some? {
          var d := DeleteIn(list, instance.value);
          list, code := d.0, d.1;
        } else {
          code := Deleted;
          while list != [] && code == Deleted
            invariant code == Deleted && c.objects == old(c.objects)
            decreases |list|
          {
            RemoveHead(list);
            var d := DeleteIn(list, list[0].id);
            list, code := d.0, d.1;
          }
          assert list == [];
        }
        c.objects := WithInstances(c.objects, objectId, list);
    }
  }

  // ---------------------------------------------------------------- unique ids

  /** Objects and instances are kept in ascending order of their ids, so no id occurs
      twice. */
  ghost predicate Sorted(objects: ObjectList) {
    Ascending(objects) && forall i :: 0 <= i < |objects| ==> Ascending(objects[i].body.instances)
  }

  lemma SortedInstances(objects: ObjectList, objectId: nat)
    requires Sorted(objects)
    ensures Ascending(InstancesOf(objects, objectId))
  {}

  lemma WithInstancesSorted(objects: ObjectList, objectId: nat, list: Instances)
    requires Sorted(objects) && Ascending(list)
    ensures Sorted(WithInstances(objects, objectId, list))
  {
    if Has(objects, objectId) {
      PutAscending(objects, objectId, Find(objects, objectId).value.(instances := list));
    }
  }

  /** The other objects do not change. */
  lemma WithInstancesFind(objects: ObjectList, objectId: nat, list: Instances, x: nat)
    requires Ascending(objects)
    ensures InstancesOf(WithInstances(objects, objectId, list), x) ==
            if x == objectId && Has(objects, objectId) then list else InstancesOf(objects, x)
    ensures Has(WithInstances(objects, objectId, list), x) == Has(objects, x)
  {
    hide Put, Position;
    if Has(objects, objectId) {
      PutFind(objects, objectId, Find(objects, objectId).value.(instances := list), x);
    }
  }

  lemma WithInstancesSame(objects: ObjectList, objectId: nat)
    ensures WithInstances(objects, objectId, InstancesOf(objects, objectId)) == objects
  {}

  /** Room for one more instance. */
  ghost predicate NotFull(objects: ObjectList, objectId: nat) {
    |InstancesOf(objects, objectId)| < ID_COUNT
  }

  lemma CreateObjectAllOrNothing(objects: ObjectList, objectId: nat, id: nat, nodes: seq<Node>)
    requires Sorted(objects) && Has(objects, objectId) && IsInstanceNew(objects, objectId, id)
    ensures var r := CreateObject(objects, objectId, id, nodes);
            && Sorted(r.0)
            && (r.1 != Created && r.1 != Crash ==> r.0 == objects)
            && (r.1 == Created ==> |InstancesOf(r.0, objectId)| == |InstancesOf(objects, objectId)| + 1)
            && (forall x :: x != objectId ==> InstancesOf(r.0, x) == InstancesOf(objects, x))
            && (forall x :: x != id ==> Find(InstancesOf(r.0, objectId), x) == Find(InstancesOf(objects, objectId), x))
  {
    hide CreateIn, WithInstances, Sorted, Find, Has, Ascending, InstancesOf;
    var list := InstancesOf(objects, objectId);
    SortedInstances(objects, objectId);
    SortedAscending(objects);
    CreateInAllOrNothing(list, objectId, id, nodes);
    var w := CreateIn(list, objectId, id, nodes);
    WithInstancesSorted(objects, objectId, w.0);
    WithInstancesSame(objects, objectId);
    forall x
      ensures InstancesOf(WithInstances(objects, objectId, w.0), x) ==
              if x == objectId then w.0 else InstancesOf(objects, x)
    {
      WithInstancesFind(objects, objectId, w.0, x);
    }
  }

  lemma SortedAscending(objects: ObjectList)
    requires Sorted(objects)
    ensures Ascending(objects)
  {}

  /** Whatever a create request asks for, the id it creates is fresh, a refusal leaves all
      instances exactly as they were, and ids stay unique. */
  lemma CreateAllOrNothing(objects: ObjectList, objectId: nat, instance: Option<nat>, hasPayload: bool,
                           payload: Payload)
    requires Sorted(objects) && NotFull(objects, objectId)
    requires instance.Some? ==> IsInstanceNew(objects, objectId, instance.value)
    ensures var r := ObjectCreate(objects, objectId, instance, hasPayload, payload);
            && Sorted(r.0)
            && (r.1 != Created && r.1 != Crash ==> r.0 == objects)
            && (r.1 == Created ==> |InstancesOf(r.0, objectId)| == |InstancesOf(objects, objectId)| + 1)
  {
    hide CreateObject, Sorted, Find, NewId, Ascending;
    var t := CreateTarget(objects, objectId, instance, hasPayload, payload);
    if t.0 == NoError {
      SortedInstances(objects, objectId);
      NewIdFresh(InstancesOf(objects, objectId));
      CreateObjectAllOrNothing(objects, objectId, t.1, t.2);
    }
  }

  lemma CreateInstanceAllOrNothing(objects: ObjectList, objectId: nat, node: Node)
    requires Sorted(objects) && NotFull(objects, objectId)
    ensures var r := ObjectCreateInstance(objects, objectId, node);
            && Sorted(r.0)
            && (r.1 != Created && r.1 != Crash ==> r.0 == objects)
            && (r.1 == Created ==> |InstancesOf(r.0, objectId)| == |InstancesOf(objects, objectId)| + 1)
  {
    hide CreateObject, Sorted, Find, NewId, Ascending;
    if Has(objects, objectId) {
      SortedInstances(objects, objectId);
      NewIdFresh(InstancesOf(objects, objectId));
      CreateObjectAllOrNothing(objects, objectId, NewId(InstancesOf(objects, objectId)), node.children);
    }
  }

  /** A bootstrap write that creates an instance leaves one under the id of its node if and
      only if all smaller ids are in use: the least unused id is taken, not the one given. */
  lemma CreatedIdExact(objects: ObjectList, objectId: nat, node: Node)
    requires Sorted(objects) && NotFull(objects, objectId) && IsInstanceNew(objects, objectId, node.id)
    requires ObjectCreateInstance(objects, objectId, node).1 == Created
    ensures var list := InstancesOf(objects, objectId);
            Has(InstancesOf(ObjectCreateInstance(objects, objectId, node).0, objectId), node.id) <==>
            forall x :: 0 <= x < node.id ==> Has(list, x)
  {
    hide CreateIn, WithInstances, Sorted, Ascending, NewId;
    var list := InstancesOf(objects, objectId);
    var id := NewId(list);
    SortedInstances(objects, objectId);
    SortedAscending(objects);
    NewIdFresh(list);
    NewIdLeast(list, node.id);
    HasFound(objects, objectId);
    CreateInAllOrNothing(list, objectId, id, node.children);
    var w := CreateIn(list, objectId, id, node.children);
    WithInstancesFind(objects, objectId, w.0, objectId);
    HasFound(w.0, node.id);
    HasFound(list, node.id);
  }

  /** Node 5 written to object 3, which has no instances, is created as instance 0. */
  lemma CreatedElsewhere()
    ensures var child := Node(ResourceNode, 0, [], None, None, None, true);
            var node := Node(InstanceNode, 5, [child], None, None, None, true);
            ObjectCreateInstance([Entry(3, Obj([], true, true, true))], 3, node)
            == ([Entry(3, Obj([Entry(0, Plain)], true, true, true))], Created)
  {
    var child := Node(ResourceNode, 0, [], None, None, None, true);
    var empty: Instances := [];
    var list: Instances := [Entry(0, Plain)];
    assert Add(empty, 0, Plain) == list;
    assert Put(list, 0, Plain) == list;
    assert Written(Plain, [child]) == (Plain, Changed);
    assert CreateIn(empty, 3, 0, [child]) == (list, Created);
    var o := Obj(empty, true, true, true);
    var objects: ObjectList := [Entry(3, o)];
    assert Find(objects, 3) == Some(o) && NewId(empty) == 0;
    assert Put(objects, 3, o.(instances := list)) == [Entry(3, o.(instances := list))];
    assert WithInstances(objects, 3, list) == [Entry(3, o.(instances := list))];
  }
}
