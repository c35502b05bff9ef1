/** `bootstrap_handleDeleteAll` (src/lwm2m/core/bootstrap.c): every object is emptied, the
    Security object but for the instance of the requesting server. */
module DeleteAll {
  import opened Text
  import opened IdLists
  import opened Context
  import opened Objects
  import opened ServerLists
  import opened Bootstrap

  /** The walk along the Security instances from position `k` on; it starts over after
      each deletion. */
  function ClearSecurity(objects: ObjectList, k: nat, keep: nat, code: Code): (ObjectList, Code)
    requires Sorted(objects)
    decreases |InstancesOf(objects, SECURITY_OBJECT)|, code == Deleted, |InstancesOf(objects, SECURITY_OBJECT)| - k
  {
    var list := InstancesOf(objects, SECURITY_OBJECT);
    if k >= |list| || code != Deleted then (objects, code)
    else if list[k].id == keep then ClearSecurity(objects, k + 1, keep, code)
    else
      var r := ObjectDelete(objects, SECURITY_OBJECT, Some(list[k].id));
      DeleteShrinks(objects, SECURITY_OBJECT, k);
      ClearSecurity(r.0, 0, keep, r.1)
  }

  lemma DeleteShrinks(objects: ObjectList, objectId: nat, k: nat)
    requires Sorted(objects) && k < |InstancesOf(objects, objectId)|
    ensures var list := InstancesOf(objects, objectId);
            var r := ObjectDelete(objects, objectId, Some(list[k].id));
            && Sorted(r.0)
            && (r.1 != Deleted ==> r.0 == objects)
            && (r.1 == Deleted ==>
                  && |InstancesOf(r.0, objectId)| < |list|
                  && InstancesOf(r.0, objectId) == Remove(list, list[k].id))
            && (r.1 == Deleted <==> Find(objects, objectId).value.canDelete)
            && forall x :: x != objectId ==> Find(r.0, x) == Find(objects, x)
  {
    hide Put, Find, Remove, Sorted, Position;
    var list := InstancesOf(objects, objectId);
    SortedInstances(objects, objectId);
    SortedAscending(objects);
    FindAt(list, k);
    RemoveOne(list, k);
    RemoveAscending(list, list[k].id);
    var o := Find(objects, objectId).value;
    WithInstancesSorted(objects, objectId, Remove(list, list[k].id));
    WithInstancesFind(objects, objectId, Remove(list, list[k].id), objectId);
    forall x | x != objectId
      ensures Find(Put(objects, objectId, o.(instances := Remove(list, list[k].id))), x) == Find(objects, x)
    {
      PutFind(objects, objectId, o.(instances := Remove(list, list[k].id)), x);
    }
  }

  lemma RemoveOne(list: Instances, k: nat)
    requires Ascending(list) && k < |list|
    ensures |Remove(list, list[k].id)| == |list| - 1
  {
    PositionAt(list, k);
  }

  /** The instance with the id and nothing else. */
  function Only(list: Instances, id: nat): Instances {
    match Find(list, id)
    case None => []
    case Some(inst) => [Entry(id, inst)]
  }

  lemma OnlyRemoved(list: Instances, id: nat, keep: nat)
    requires Ascending(list) && id != keep
    ensures Only(Remove(list, id), keep) == Only(list, keep)
  {
    hide Remove, Find;
    RemoveFind(list, id, keep);
  }

  lemma FirstTwo(list: Instances)
    requires Ascending(list)
    ensures |list| > 1 ==> list[0].id != list[1].id
  {
    if |list| > 1 { assert list[0].id < list[1].id; }
  }

  lemma OnlyLeft(list: Instances, keep: nat)
    requires Ascending(list) && forall i :: 0 <= i < |list| ==> list[i].id == keep
    ensures list == Only(list, keep)
  {
    if list != [] {
      FindAt(list, 0);
      FirstTwo(list);
      assert |list| == 1;
    } else {
      assert Find(list, keep) == None;
    }
  }

  /** The walk ends with the kept instance alone, or with nothing changed when Security
      instances cannot be deleted. */
  lemma {:induction false} ClearExact(objects: ObjectList, k: nat, keep: nat)
    requires Sorted(objects) && Has(objects, SECURITY_OBJECT)
    requires forall i :: 0 <= i < k && i < |InstancesOf(objects, SECURITY_OBJECT)| ==>
               InstancesOf(objects, SECURITY_OBJECT)[i].id == keep
    ensures var list := InstancesOf(objects, SECURITY_OBJECT);
            var r := ClearSecurity(objects, k, keep, Deleted);
            && Sorted(r.0) && Has(r.0, SECURITY_OBJECT)
            && Find(r.0, SECURITY_OBJECT).value.canDelete == Find(objects, SECURITY_OBJECT).value.canDelete
            && (forall x :: x != SECURITY_OBJECT ==> Find(r.0, x) == Find(objects, x))
            && (Find(objects, SECURITY_OBJECT).value.canDelete ==>
                  r.1 == Deleted && InstancesOf(r.0, SECURITY_OBJECT) == Only(list, keep))
            && (!Find(objects, SECURITY_OBJECT).value.canDelete ==> r.0 == objects)
    decreases |InstancesOf(objects, SECURITY_OBJECT)|, |InstancesOf(objects, SECURITY_OBJECT)| - k
  {
    hide ObjectDelete, Remove, Sorted, Find, Only, Put, WithInstances;
    var list := InstancesOf(objects, SECURITY_OBJECT);
    SortedInstances(objects, SECURITY_OBJECT);
    if k >= |list| {
      OnlyLeft(list, keep);
    } else if list[k].id == keep {
      ClearExact(objects, k + 1, keep);
    } else {
      DeleteShrinks(objects, SECURITY_OBJECT, k);
      var r := ObjectDelete(objects, SECURITY_OBJECT, Some(list[k].id));
      if r.1 == Deleted {
        OnlyRemoved(list, list[k].id, keep);
        DeleteKeepsFlags(objects, SECURITY_OBJECT, list[k].id);
        ClearExact(r.0, 0, keep);
      }
    }
  }

  lemma DeleteKeepsFlags(objects: ObjectList, objectId: nat, id: nat)
    requires Sorted(objects) && Has(objects, objectId)
    ensures var r := ObjectDelete(objects, objectId, Some(id)).0;
            Has(r, objectId) && Find(r, objectId).value.canDelete == Find(objects, objectId).value.canDelete
  {
    hide Put, Find, Remove;
    var o := Find(objects, objectId).value;
    PutFind(objects, objectId, o.(instances := DeleteIn(o.instances, id).0), objectId);
  }

  /** The loop over the objects from position `i` on. */
  function ClearFrom(c: Client, i: nat, keep: nat, code: Code): (Client, Code)
    requires Sorted(c.objects)
    decreases |c.objects| - i
  {
    if i >= |c.objects| then (c, code)
    else if c.objects[i].id == SECURITY_OBJECT then
      var r := ClearSecurity(c.objects, 0, keep, code);
      var c' := c.(objects := r.0);
      ClearSecurityKeeps(c.objects, 0, keep, code);
      ClearFrom(if r.1 == Deleted then TaggedAll(c', Some(keep)) else c', i + 1, keep, r.1)
    else
      var r := ObjectDelete(c.objects, c.objects[i].id, None);
      DeleteObjectKeeps(c.objects, c.objects[i].id);
      ClearFrom(c.(objects := r.0), i + 1, keep, if r.1 == NotAllowed then Deleted else r.1)
  }

  lemma {:induction false} ClearSecurityKeeps(objects: ObjectList, k: nat, keep: nat, code: Code)
    requires Sorted(objects)
    ensures var r := ClearSecurity(objects, k, keep, code).0;
            Sorted(r) && |r| == |objects| && forall j :: 0 <= j < |r| ==> r[j].id == objects[j].id
    decreases |InstancesOf(objects, SECURITY_OBJECT)|, code == Deleted, |InstancesOf(objects, SECURITY_OBJECT)| - k
  {
    hide ObjectDelete, Sorted, Find;
    var list := InstancesOf(objects, SECURITY_OBJECT);
    if k < |list| && code == Deleted {
      if list[k].id == keep {
        ClearSecurityKeeps(objects, k + 1, keep, code);
      } else {
        DeleteShrinks(objects, SECURITY_OBJECT, k);
        var r := ObjectDelete(objects, SECURITY_OBJECT, Some(list[k].id));
        DeleteSameIds(objects, SECURITY_OBJECT, Some(list[k].id));
        ClearSecurityKeeps(r.0, 0, keep, r.1);
      }
    }
  }

  lemma DeleteSameIds(objects: ObjectList, objectId: nat, instance: Option<nat>)
    ensures var r := ObjectDelete(objects, objectId, instance).0;
            |r| == |objects| && forall j :: 0 <= j < |r| ==> r[j].id == objects[j].id
  {}

  lemma DeleteObjectKeeps(objects: ObjectList, objectId: nat)
    requires Sorted(objects)
    ensures var r := ObjectDelete(objects, objectId, None).0;
            Sorted(r) && |r| == |objects| && forall j :: 0 <= j < |r| ==> r[j].id == objects[j].id
  {
    hide Sorted, Find, WithInstances;
    var none: Instances := [];
    WithInstancesSorted(objects, objectId, none);
    DeleteSameIds(objects, objectId, None);
  }

  /** The whole request; `keep` is the Security instance of the server. */
  function DeletedAll(c: Client, id: nat, now: int): (Client, Code)
    requires Sorted(c.objects)
  {
    match Find(c.bootstrapServers, id)
    case None => (c, Ignore)
    case Some(s) =>
      var check := Checked(s, now);
      if check.1 != NoError then (c, check.1) else ClearFrom(SetServer(c, id, check.0), 0, id, Deleted)
  }

  // ---------------------------------------------------------------- what is left

  /** The instances an object is left with. */
  function LeftOf(o: Obj, objectId: nat, keep: nat): Instances {
    if !o.canDelete then o.instances
    else if objectId == SECURITY_OBJECT then Only(o.instances, keep)
    else []
  }

  function Cleared(objects: ObjectList, objectId: nat, keep: nat): (ObjectList, Code)
    requires Sorted(objects)
  {
    if objectId == SECURITY_OBJECT then ClearSecurity(objects, 0, keep, Deleted)
    else ObjectDelete(objects, objectId, None)
  }

  /** One object is cleared, the others stay. */
  lemma ClearedExact(objects: ObjectList, objectId: nat, keep: nat)
    requires Sorted(objects) && Has(objects, objectId)
    ensures var r := Cleared(objects, objectId, keep);
            var o := Find(objects, objectId).value;
            && Sorted(r.0) && |r.0| == |objects| && (forall j :: 0 <= j < |objects| ==> r.0[j].id == objects[j].id)
            && Has(r.0, objectId) && Find(r.0, objectId).value.instances == LeftOf(o, objectId, keep)
            && Find(r.0, objectId).value.canDelete == o.canDelete
            && (forall x :: x != objectId ==> Find(r.0, x) == Find(objects, x))
            && (o.canDelete ==> r.1 == Deleted)
            && (!o.canDelete && objectId != SECURITY_OBJECT ==> r.1 == NotAllowed)
  {
    hide Find, Sorted, ClearSecurity, Only, Put;
    var o := Find(objects, objectId).value;
    var r := Cleared(objects, objectId, keep);
    if objectId == SECURITY_OBJECT {
      ClearSecurityKeeps(objects, 0, keep, Deleted);
      ClearExact(objects, 0, keep);
      SameIdsHas(objects, r.0, objectId);
    } else {
      DeleteObjectKeeps(objects, objectId);
      SortedAscending(objects);
      var none: Instances := [];
      forall x
        ensures Find(Put(objects, objectId, o.(instances := none)), x) ==
                if x == objectId then Some(o.(instances := none)) else Find(objects, x)
      {
        PutFind(objects, objectId, o.(instances := none), x);
      }
    }
  }

  lemma SameIdsHas(a: ObjectList, b: ObjectList, id: nat)
    requires |a| == |b| && forall i :: 0 <= i < |a| ==> a[i].id == b[i].id
    ensures Has(a, id) == Has(b, id)
  {
    PositionSame(a, b, id);
  }

  /** The objects from position `i` on are cleared. */
  ghost predicate ClearedFrom(before: ObjectList, after: ObjectList, i: nat, keep: nat) {
    forall x :: Has(before, x) ==>
      && Has(after, x)
      && Find(after, x).value.instances ==
         if Position(before, x) < i then Find(before, x).value.instances else LeftOf(Find(before, x).value, x, keep)
  }

  lemma {:induction false} ClearFromExact(c: Client, i: nat, keep: nat, code: Code)
    requires Sorted(c.objects) && i <= |c.objects|
    requires i <= Position(c.objects, SECURITY_OBJECT) ==> code == Deleted
    ensures var r := ClearFrom(c, i, keep, code);
            && Sorted(r.0.objects) && r.0.state == c.state
            && ClearedFrom(c.objects, r.0.objects, i, keep)
            && (Has(c.objects, SECURITY_OBJECT) && Find(c.objects, SECURITY_OBJECT).value.canDelete ==>
                  && (code == Deleted ==> r.1 == Deleted)
                  && r.0 == (if i <= Position(c.objects, SECURITY_OBJECT) then TaggedAll(c, Some(keep)) else c)
                            .(objects := r.0.objects))
    decreases |c.objects| - i
  {
    hide Sorted, Ascending, Find, ClearSecurity, LeftOf, ObjectDelete, TaggedAll, Has, Position, ClearedFrom;
    SortedAscending(c.objects);
    if i < |c.objects| {
      var id := c.objects[i].id;
      FoundAt(c.objects, i);
      ClearedExact(c.objects, id, keep);
      var r := Cleared(c.objects, id, keep);
      var c' := c.(objects := r.0);
      SamePositions(c.objects, r.0);
      PositionIsLess(c.objects, SECURITY_OBJECT, i);
      if id == SECURITY_OBJECT {
        TaggedObjects(c', Some(keep));
        ClearFromExact(if r.1 == Deleted then TaggedAll(c', Some(keep)) else c', i + 1, keep, r.1);
        TagCommutes(c, r.0, Some(keep));
      } else {
        ClearFromExact(c', i + 1, keep, if r.1 == NotAllowed then Deleted else r.1);
        TagCommutes(c, r.0, Some(keep));
      }
      ClearedOneMore(c.objects, r.0, ClearFrom(c, i, keep, code).0.objects, i, keep);
    } else {
      NothingBehind(c.objects, i, keep);
    }
  }

  lemma NothingBehind(objects: ObjectList, i: nat, keep: nat)
    requires i == |objects|
    ensures ClearedFrom(objects, objects, i, keep)
    ensures Has(objects, SECURITY_OBJECT) ==> Position(objects, SECURITY_OBJECT) < i
  {}

  lemma FoundAt(objects: ObjectList, i: nat)
    requires Ascending(objects) && i < |objects|
    ensures Has(objects, objects[i].id) && Position(objects, objects[i].id) == i
  {
    FindAt(objects, i);
    PositionAt(objects, i);
  }

  lemma PositionIsLess(objects: ObjectList, x: nat, i: nat)
    requires Ascending(objects) && i < |objects|
    ensures Has(objects, x) && i <= Position(objects, x) && x != objects[i].id ==> i + 1 <= Position(objects, x)
    ensures Position(objects, objects[i].id) == i
    ensures x != objects[i].id && i + 1 <= Position(objects, x) ==> i <= Position(objects, x)
  {
    PositionAt(objects, i);
  }

  lemma SamePositions(a: ObjectList, b: ObjectList)
    requires |a| == |b| && forall i :: 0 <= i < |a| ==> a[i].id == b[i].id
    ensures forall x :: Position(a, x) == Position(b, x) && Has(a, x) == Has(b, x)
  {
    forall x
      ensures Position(a, x) == Position(b, x) && Has(a, x) == Has(b, x)
    {
      PositionSame(a, b, x);
    }
  }

  lemma TaggedObjects(c: Client, except: Option<nat>)
    ensures TaggedAll(c, except).objects == c.objects && TaggedAll(c, except).state == c.state
  {}

  lemma TagCommutes(c: Client, objects: ObjectList, except: Option<nat>)
    ensures TaggedAll(c.(objects := objects), except) == TaggedAll(c, except).(objects := objects)
  {}

  /** Clearing the object at `i` and then those behind it. */
  lemma ClearedOneMore(before: ObjectList, middle: ObjectList, after: ObjectList, i: nat, keep: nat)
    requires Ascending(before) && i < |before| && ClearedFrom(middle, after, i + 1, keep)
    requires forall x :: Position(middle, x) == Position(before, x) && Has(middle, x) == Has(before, x)
    requires Has(middle, before[i].id)
    requires Find(middle, before[i].id).value.instances == LeftOf(Find(before, before[i].id).value, before[i].id, keep)
    requires forall x :: x != before[i].id ==> Find(middle, x) == Find(before, x)
    ensures ClearedFrom(before, after, i, keep)
  {
    hide LeftOf, Find;
    PositionAt(before, i);
    forall x | Has(before, x)
      ensures Has(after, x)
      ensures Find(after, x).value.instances ==
              if Position(before, x) < i then Find(before, x).value.instances
              else LeftOf(Find(before, x).value, x, keep)
    {
      assert Has(middle, x);
      if x != before[i].id { PositionFound(before, x, i); }
    }
  }

  lemma PositionFound(objects: ObjectList, x: nat, i: nat)
    requires Ascending(objects) && i < |objects| && Has(objects, x) && x != objects[i].id
    ensures Position(objects, x) != i
  {}

  /** An accepted request leaves in a deletable Security object at most the instance of the
      server that sent it, every other deletable object empty, and the rest as it was.  With a
      deletable Security object it answers 2.02 and marks every server but that one. */
  lemma DeleteAllExact(c: Client, id: nat, now: int)
    requires Sorted(c.objects) && Has(c.bootstrapServers, id)
    requires Accepting(Find(c.bootstrapServers, id).value.status)
    ensures var r := DeletedAll(c, id, now);
            var servers := Put(c.bootstrapServers, id, Touched(Find(c.bootstrapServers, id).value, now));
            && Sorted(r.0.objects)
            && (forall x :: Has(c.objects, x) ==>
                  && Has(r.0.objects, x)
                  && Find(r.0.objects, x).value.instances == LeftOf(Find(c.objects, x).value, x, id))
            && (Has(c.objects, SECURITY_OBJECT) && Find(c.objects, SECURITY_OBJECT).value.canDelete ==>
                  && r.1 == Deleted && r.0.state == c.state
                  && |r.0.bootstrapServers| == |servers| && |r.0.servers| == |c.servers|
                  && (forall i :: 0 <= i < |servers| ==>
                        && r.0.bootstrapServers[i].id == servers[i].id
                        && r.0.bootstrapServers[i].body ==
                           (if servers[i].id == id then servers[i].body else servers[i].body.(dirty := true)))
                  && (forall i :: 0 <= i < |c.servers| ==>
                        && r.0.servers[i].id == c.servers[i].id
                        && r.0.servers[i].body == c.servers[i].body.(dirty := true)))
  {
    hide Sorted, Find, ClearFrom, LeftOf, Checked, Touched, Accepting, Put;
    CheckedExact(Find(c.bootstrapServers, id).value, now);
    var c1 := SetServer(c, id, Touched(Find(c.bootstrapServers, id).value, now));
    ClearFromExact(c1, 0, id, Deleted);
    TaggedObjects(c1, Some(id));
  }

  /** A request of a server that is not listened to changes nothing. */
  lemma DeleteAllIgnored(c: Client, id: nat, now: int)
    requires Sorted(c.objects) && Has(c.bootstrapServers, id)
    requires !Accepting(Find(c.bootstrapServers, id).value.status)
    ensures DeletedAll(c, id, now) == (c, Ignore)
  {
    hide Sorted, Find, ClearFrom, Checked, Touched, Accepting;
    CheckedExact(Find(c.bootstrapServers, id).value, now);
  }

  /** An instance other than the server's own. */
  predicate SomeOther(list: Instances, keep: nat, k: nat) {
    exists j :: k <= j < |list| && list[j].id != keep
  }

  /** A Security object that offers no deletion stays, and an instance to delete is 4.05. */
  lemma {:induction false} FixedSecurity(objects: ObjectList, k: nat, keep: nat)
    requires Sorted(objects) && Has(objects, SECURITY_OBJECT) && !Find(objects, SECURITY_OBJECT).value.canDelete
    ensures ClearSecurity(objects, k, keep, Deleted) ==
            (objects, if SomeOther(InstancesOf(objects, SECURITY_OBJECT), keep, k) then NotAllowed else Deleted)
    decreases |InstancesOf(objects, SECURITY_OBJECT)| - k
  {
    hide Sorted, Find;
    var list := InstancesOf(objects, SECURITY_OBJECT);
    if k < |list| {
      if list[k].id == keep {
        FixedSecurity(objects, k + 1, keep);
        assert SomeOther(list, keep, k) <==> SomeOther(list, keep, k + 1);
      } else {
        assert SomeOther(list, keep, k);
        FixedRefused(objects, list[k].id);
        ClearStops(objects, keep);
      }
    }
  }

  lemma FixedRefused(objects: ObjectList, id: nat)
    requires Has(objects, SECURITY_OBJECT) && !Find(objects, SECURITY_OBJECT).value.canDelete
    ensures ObjectDelete(objects, SECURITY_OBJECT, Some(id)) == (objects, NotAllowed)
  {}

  lemma ClearStops(objects: ObjectList, keep: nat)
    requires Sorted(objects)
    ensures ClearSecurity(objects, 0, keep, NotAllowed) == (objects, NotAllowed)
  {}

  /** Behind the Security object the code is 2.02 again as soon as there is another object. */
  lemma {:induction false} ClearBehind(c: Client, i: nat, keep: nat, code: Code)
    requires Sorted(c.objects) && forall j :: i <= j < |c.objects| ==> c.objects[j].id != SECURITY_OBJECT
    ensures var r := ClearFrom(c, i, keep, code);
            && r.1 == (if i < |c.objects| then Deleted else code)
            && r.0 == c.(objects := r.0.objects)
    decreases |c.objects| - i
  {
    hide Sorted, Find, ObjectDelete;
    if i < |c.objects| {
      var id := c.objects[i].id;
      SortedAscending(c.objects);
      FoundAt(c.objects, i);
      DeleteObjectKeeps(c.objects, id);
      WholeCode(c.objects, id);
      var r := ObjectDelete(c.objects, id, None);
      ClearBehind(c.(objects := r.0), i + 1, keep, if r.1 == NotAllowed then Deleted else r.1);
    }
  }

  lemma WholeCode(objects: ObjectList, id: nat)
    requires Has(objects, id)
    ensures ObjectDelete(objects, id, None).1 in {NotAllowed, Deleted}
  {}

  /** Whether the loop over the Security instances ends with 2.02. */
  predicate Clears(objects: ObjectList, keep: nat) {
    Has(objects, SECURITY_OBJECT)
    && (Find(objects, SECURITY_OBJECT).value.canDelete || !SomeOther(InstancesOf(objects, SECURITY_OBJECT), keep, 0))
  }

  lemma SecurityFirst(objects: ObjectList)
    requires Sorted(objects)
    ensures Has(objects, SECURITY_OBJECT) <==> objects != [] && objects[0].id == SECURITY_OBJECT
    ensures forall j :: 1 <= j < |objects| ==> objects[j].id != SECURITY_OBJECT
  {
    SortedAscending(objects);
  }

  lemma ClearCode(objects: ObjectList, keep: nat)
    requires Sorted(objects) && Has(objects, SECURITY_OBJECT)
    ensures ClearSecurity(objects, 0, keep, Deleted).1 == if Clears(objects, keep) then Deleted else NotAllowed
  {
    hide Sorted, Find, ClearSecurity, LeftOf;
    if Find(objects, SECURITY_OBJECT).value.canDelete {
      ClearedExact(objects, SECURITY_OBJECT, keep);
    } else {
      FixedSecurity(objects, 0, keep);
    }
  }

  /** The code, and the servers that are marked, whatever may be deleted: 4.05 is answered if
      and only if a Security object that offers no deletion is the only object and holds an
      instance to delete; the servers are marked if and only if the Security object was
      cleared. */
  lemma DeleteAllCode(c: Client, id: nat, now: int)
    requires Sorted(c.objects) && Has(c.bootstrapServers, id)
    requires Accepting(Find(c.bootstrapServers, id).value.status)
    ensures var r := DeletedAll(c, id, now);
            var c1 := c.(bootstrapServers := Put(c.bootstrapServers, id,
                                                 Touched(Find(c.bootstrapServers, id).value, now)));
            && (r.1 == NotAllowed <==>
                  |c.objects| == 1 && Has(c.objects, SECURITY_OBJECT) && !Clears(c.objects, id))
            && (r.1 != NotAllowed ==> r.1 == Deleted)
            && r.0 == (if Clears(c.objects, id) then TaggedAll(c1, Some(id)) else c1).(objects := r.0.objects)
  {
    hide Sorted, Find, LeftOf, Checked, Touched, Accepting, Put, ClearSecurity, ObjectDelete, TaggedAll, Clears;
    var s := Find(c.bootstrapServers, id).value;
    CheckedExact(s, now);
    var c1 := SetServer(c, id, Touched(s, now));
    SecurityFirst(c.objects);
    if c.objects != [] && c.objects[0].id == SECURITY_OBJECT {
      ClearCode(c.objects, id);
      ClearSecurityKeeps(c.objects, 0, id, Deleted);
      var cleared := ClearSecurity(c.objects, 0, id, Deleted);
      var c2 := c1.(objects := cleared.0);
      SecurityFirst(cleared.0);
      TaggedObjects(c2, Some(id));
      ClearBehind(if cleared.1 == Deleted then TaggedAll(c2, Some(id)) else c2, 1, id, cleared.1);
      TagCommutes(c1, cleared.0, Some(id));
    } else {
      ClearsNeeds(c.objects, id);
      ClearBehind(c1, 0, id, Deleted);
    }
  }

  lemma ClearsNeeds(objects: ObjectList, keep: nat)
    ensures Clears(objects, keep) ==> Has(objects, SECURITY_OBJECT)
  {}

  // ---------------------------------------------------------------- the code

  method ClearSecurityObject(c: Context, keep: nat, code: Code) returns (result: Code)
    requires Sorted(c.objects)
    modifies c`objects
    ensures (c.objects, result) == ClearSecurity(old(c.objects), 0, keep, code)
  {
    hide Sorted, ObjectDelete, InstancesOf;
    result := code;
    var k := 0;
    while k < |InstancesOf(c.objects, SECURITY_OBJECT)| && result == Deleted
      invariant Sorted(c.objects)
      invariant ClearSecurity(c.objects, k, keep, result) == ClearSecurity(old(c.objects), 0, keep, code)
      decreases |InstancesOf(c.objects, SECURITY_OBJECT)|, result == Deleted,
                |InstancesOf(c.objects, SECURITY_OBJECT)| - k
    {
      var instance := InstancesOf(c.objects, SECURITY_OBJECT)[k];
      if instance.id == keep {
        k := k + 1;
      } else {
        DeleteShrinks(c.objects, SECURITY_OBJECT, k);
        result := Objects.Delete(c, SECURITY_OBJECT, Some(instance.id));
        k := 0;
      }
    }
  }

  /** `bootstrap_handleDeleteAll`. */
  method HandleDeleteAll(c: Context, session: nat, now: int) returns (code: Code)
    requires Sorted(c.objects)
    modifies c
    ensures match Sender(old(c.bootstrapServers), session)
            case None => code == Ignore && c.Value() == old(c.Value())
            case Some(id) => (c.Value(), code) == DeletedAll(old(c.Value()), id, now)
  {
    hide Sorted, ObjectDelete, ClearSecurity, Checked, TaggedAll, Find, Put, Sender;
    var sender := FindBootstrapServer(c, session);
    if sender.None? { return Ignore; }
    var id := sender.value;
    var found: Option<Server> := Find(c.bootstrapServers, id);
    if found.None? { return Ignore; }
    var check := Checked(found.value, now);
    if check.1 != NoError { return check.1; }
    c.bootstrapServers := Put(c.bootstrapServers, id, check.0);
    code := Deleted;
    ghost var total := ClearFrom(c.Value(), 0, id, Deleted);
    var i := 0;
    while i < |c.objects|
      invariant 0 <= i <= |c.objects| && Sorted(c.objects)
      invariant ClearFrom(c.Value(), i, id, code) == total
      decreases |c.objects| - i
    {
      var objectId := c.objects[i].id;
      if objectId == SECURITY_OBJECT {
        ClearSecurityKeeps(c.objects, 0, id, code);
        code := ClearSecurityObject(c, id, code);
        if code == Deleted { TagAllServers(c, Some(id)); }
      } else {
        DeleteObjectKeeps(c.objects, objectId);
        code := Objects.Delete(c, objectId, None);
        if code == NotAllowed { code := Deleted; }
      }
      i := i + 1;
    }
  }
}
