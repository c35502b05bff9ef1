/** `lwm2m_update_registration` (src/lwm2m/core/registration.c): the update asked for by the
    application.  It reads the server lists outside a refresh when no server is known. */
module RegistrationUpdate {
  import opened Text
  import opened IdLists
  import opened Context
  import opened Objects
  import opened ServerLists

  function Needed(withObjects: bool): Status {
    if withObjects then RegFullUpdateNeeded else RegUpdateNeeded
  }

  predicate Updatable(s: Status) {
    s.Registered? || s.RegUpdatePending?
  }

  predicate Waiting(s: Status) {
    s.RegUpdateNeeded? || s.RegFullUpdateNeeded?
  }

  /** One server: what becomes of it, and the code if the loop ends there.  Short id 0 stands
      for every server. */
  function Asked(s: Server, shortId: int, withObjects: bool): (Server, Option<Code>) {
    if shortId == 0 then (if Updatable(s.status) then s.(status := Needed(withObjects)) else s, None)
    else if s.shortId != shortId then (s, None)
    else if Updatable(s.status) then (s.(status := Needed(withObjects)), Some(NoError))
    else if Waiting(s.status) then (if withObjects then s.(status := RegFullUpdateNeeded) else s, Some(NoError))
    else (s, Some(BadRequest))
  }

  /** The loop over the servers. */
  function UpdatedServers(list: Servers, shortId: int, withObjects: bool): (r: (Servers, Code))
    ensures |r.0| == |list|
  {
    if list == [] then ([], if shortId != 0 then NotFound else NoError)
    else
      var first := Asked(list[0].body, shortId, withObjects);
      match first.1
      case Some(code) => ([Entry(list[0].id, first.0)] + list[1..], code)
      case None =>
        var rest := UpdatedServers(list[1..], shortId, withObjects);
        ([Entry(list[0].id, first.0)] + rest.0, rest.1)
  }

  /** The whole call.  The position of the loop is taken before the lists are read, so the
      loop meets no server then. */
  function Updated(c: Client, shortId: int, withObjects: bool): (Client, Code) {
    if c.servers == [] then
      var r := GotServers(c.objects, c.bootstrapServers, c.servers, false);
      var c' := c.(bootstrapServers := r.bootstrapServers, servers := r.servers);
      match r.check
      case Good => (c', if shortId != 0 then NotFound else NoError)
      case Bad => (c', NotFound)
      case Fault => (c', Crash)
    else
      var r := UpdatedServers(c.servers, shortId, withObjects);
      (c.(servers := r.0), r.1)
  }

  method UpdateRegistration(c: Context, shortId: int, withObjects: bool) returns (code: Code)
    modifies c`bootstrapServers, c`servers
    ensures (c.Value(), code) == Updated(old(c.Value()), shortId, withObjects)
  {
    hide GotServers, UpdatedServers;
    if c.servers == [] {
      var check := GetServers(c, false);
      if check.Bad? { return NotFound; }
      if check.Fault? { return Crash; }
      return if shortId != 0 then NotFound else NoError;
    }
    code := UpdateServers(c, shortId, withObjects);
  }

  lemma UpdatedStep(done: Servers, list: Servers, shortId: int, withObjects: bool)
    requires list != []
    ensures var first := Asked(list[0].body, shortId, withObjects);
            var front := done + [Entry(list[0].id, first.0)];
            var r, tail := UpdatedServers(list, shortId, withObjects), UpdatedServers(list[1..], shortId, withObjects);
            if first.1.Some? then done + r.0 == front + list[1..] && r.1 == first.1.value
            else done + r.0 == front + tail.0 && r.1 == tail.1
  {
    hide Asked;
    var one := [Entry(list[0].id, Asked(list[0].body, shortId, withObjects).0)];
    SplitThree(done, one, list[1..]);
    SplitThree(done, one, UpdatedServers(list[1..], shortId, withObjects).0);
  }

  lemma SplitThree(a: Servers, b: Servers, c: Servers)
    ensures a + (b + c) == (a + b) + c
  {}

  method UpdateServers(c: Context, shortId: int, withObjects: bool) returns (code: Code)
    modifies c`servers
    ensures (c.servers, code) == UpdatedServers(old(c.servers), shortId, withObjects)
  {
    hide UpdatedServers, Asked;
    ghost var total := UpdatedServers(c.servers, shortId, withObjects);
    var i := 0;
    assert c.servers[0..] == c.servers && c.servers[..0] == [];
    assert [] + total.0 == total.0;
    while i < |c.servers|
      invariant 0 <= i <= |c.servers|
      invariant total.0 == c.servers[..i] + UpdatedServers(c.servers[i..], shortId, withObjects).0
      invariant total.1 == UpdatedServers(c.servers[i..], shortId, withObjects).1
    {
      ghost var before, rest := c.servers[..i], c.servers[i..];
      assert rest[1..] == c.servers[i + 1..];
      UpdatedStep(before, rest, shortId, withObjects);
      var target, end := AskServer(c.servers[i].body, shortId, withObjects);
      c.servers := c.servers[i := Entry(c.servers[i].id, target)];
      assert c.servers[..i + 1] == before + [c.servers[i]] && c.servers[i + 1..] == rest[1..];
      if end.Some? {
        assert c.servers == c.servers[..i + 1] + c.servers[i + 1..];
        return end.value;
      }
      i := i + 1;
    }
    LoopEnd(c.servers[i..], shortId, withObjects);
    assert c.servers[..i] + [] == c.servers;
    return if shortId != 0 then NotFound else NoError;
  }

  method AskServer(s: Server, shortId: int, withObjects: bool) returns (target: Server, end: Option<Code>)
    ensures (target, end) == Asked(s, shortId, withObjects)
  {
    target := s;
    if shortId != 0 {
      if s.shortId != shortId { return target, None; }
      if Updatable(s.status) {
        target := s.(status := if withObjects then RegFullUpdateNeeded else RegUpdateNeeded);
        return target, Some(NoError);
      }
      if Waiting(s.status) {
        if withObjects { target := s.(status := RegFullUpdateNeeded); }
        return target, Some(NoError);
      }
      return target, Some(BadRequest);
    }
    if Updatable(s.status) {
      target := s.(status := if withObjects then RegFullUpdateNeeded else RegUpdateNeeded);
    }
    return target, None;
  }

  lemma LoopEnd(list: Servers, shortId: int, withObjects: bool)
    requires list == []
    ensures UpdatedServers(list, shortId, withObjects) == ([], if shortId != 0 then NotFound else NoError)
  {}

  // ---------------------------------------------------------------- what an update does

  /** Server `b` is `a`, or `a` asked to update itself. */
  predicate Follows(a: Server, b: Server, shortId: int, withObjects: bool) {
    || b == a
    || ((Updatable(a.status) || Waiting(a.status)) && (shortId == 0 || a.shortId == shortId)
        && b == a.(status := Needed(withObjects)))
  }

  /** No server comes, goes or moves, and none but those asked for changes its status; a
      short id is known if and only if the answer is not 4.04; without one every registered
      server is asked. */
  lemma {:induction false} UpdatedExact(list: Servers, shortId: int, withObjects: bool)
    ensures var r := UpdatedServers(list, shortId, withObjects);
            && (forall i :: 0 <= i < |list| ==>
                  r.0[i].id == list[i].id && Follows(list[i].body, r.0[i].body, shortId, withObjects))
            && (r.1 == NotFound <==> shortId != 0 && forall i :: 0 <= i < |list| ==> list[i].body.shortId != shortId)
            && (shortId == 0 ==> r.1 == NoError && forall i :: 0 <= i < |list| ==> !Updatable(r.0[i].body.status))
  {
    hide Updatable, Waiting;
    if list != [] {
      var tail := list[1..];
      UpdatedExact(tail, shortId, withObjects);
      var s := list[0].body;
      NeededNotUpdatable(withObjects);
      forall i | 0 <= i < |tail|
        ensures list[i + 1] == tail[i]
      {}
      var r := UpdatedServers(list, shortId, withObjects);
      forall i | 0 <= i < |list|
        ensures r.0[i].id == list[i].id && Follows(list[i].body, r.0[i].body, shortId, withObjects)
      {
        if i > 0 { assert list[i] == tail[i - 1]; }
      }
      assert list[0].body == s;
      if shortId != 0 && s.shortId != shortId {
        assert (forall i :: 0 <= i < |list| ==> list[i].body.shortId != shortId) <==>
               forall i :: 0 <= i < |tail| ==> tail[i].body.shortId != shortId;
      }
    }
  }

  lemma NeededNotUpdatable(withObjects: bool)
    ensures !Updatable(Needed(withObjects))
  {}

  /** What an update with a short id does to the first server that has it: a registered one is
      to update its registration, or to send its objects too, as asked; one that is to update
      already may only be told to send its objects too.  Any other status is 4.00, and no
      other server is touched. */
  lemma {:induction false} OneUpdated(list: Servers, shortId: int, withObjects: bool, k: nat)
    requires k < |list| && shortId != 0 && list[k].body.shortId == shortId
    requires forall i :: 0 <= i < k ==> list[i].body.shortId != shortId
    ensures var r, s := UpdatedServers(list, shortId, withObjects), list[k].body;
            && (r.1 == NoError <==> s.status in {Registered, RegUpdatePending, RegUpdateNeeded, RegFullUpdateNeeded})
            && (r.1 != NoError ==> r == (list, BadRequest))
            && (s.status in {Registered, RegUpdatePending} ==>
                  r.0 == list[k := Entry(list[k].id, s.(status := if withObjects then RegFullUpdateNeeded
                                                                 else RegUpdateNeeded))])
            && (s.status in {RegUpdateNeeded, RegFullUpdateNeeded} ==>
                  r.0 == if withObjects then list[k := Entry(list[k].id, s.(status := RegFullUpdateNeeded))] else list)
  {
    var first := list[0].body;
    if k == 0 {
      var told := Asked(first, shortId, withObjects).0;
      assert [Entry(list[0].id, told)] + list[1..] == list[0 := Entry(list[0].id, told)];
      assert list[0 := list[0]] == list;
    } else {
      var tail := list[1..];
      OneUpdated(tail, shortId, withObjects, k - 1);
      assert first.shortId != shortId;
      assert list[k] == tail[k - 1];
      UpdateTail(list, k, Entry(list[k].id, list[k].body.(status := Needed(withObjects))));
      assert [list[0]] + tail == list;
      assert UpdatedServers(list, shortId, withObjects).0 == [list[0]] + UpdatedServers(tail, shortId, withObjects).0;
    }
  }

  lemma UpdateTail(list: Servers, k: nat, e: Entry<Server>)
    requires 0 < k < |list|
    ensures [list[0]] + list[1..][k - 1 := e] == list[k := e]
  {}

  /** Without a short id exactly the servers REGISTERED and REG_UPDATE_PENDING are asked. */
  lemma {:induction false} AllUpdated(list: Servers, withObjects: bool)
    ensures var r := UpdatedServers(list, 0, withObjects);
            && r.1 == NoError
            && forall i :: 0 <= i < |list| ==>
                 r.0[i] == if list[i].body.status in {Registered, RegUpdatePending}
                           then Entry(list[i].id, list[i].body.(status := if withObjects then RegFullUpdateNeeded
                                                                         else RegUpdateNeeded))
                           else list[i]
  {
    if list != [] {
      AllUpdated(list[1..], withObjects);
    }
  }

  /** The servers that an update has to read itself are not asked: with a short id it
      answers 4.04 whatever is read. */
  lemma ReadOnUpdate(c: Client, shortId: int, withObjects: bool)
    requires c.servers == [] && shortId != 0
    ensures Updated(c, shortId, withObjects).1 in {NotFound, Crash}
    ensures var r := GotServers(c.objects, c.bootstrapServers, [], false);
            && Updated(c, shortId, withObjects).0.servers == r.servers
            && Updated(c, shortId, withObjects).0.bootstrapServers == r.bootstrapServers
  {}
}
