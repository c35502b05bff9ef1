/** The refresh that follows an accepted finish request.  The finish request checks the
    lists with servers marked dirty still in them; the refresh drops those first. */
module BootstrapFinish {
  import opened Text
  import opened Uris
  import opened IdLists
  import opened Context
  import opened Objects
  import opened ServerLists
  import opened Bootstrap
  import opened ClientStep
  import opened BootstrapStatus

  // ---------------------------------------------------------------- what a refresh looks at

  /** The same servers with the same dirty marks. */
  ghost predicate SameMarks(a: Servers, b: Servers) {
    && |a| == |b|
    && forall i :: 0 <= i < |a| ==> a[i].id == b[i].id && a[i].body.dirty == b[i].body.dirty
  }

  /** The lists are as in `c`, apart from statuses, sessions and times. */
  ghost predicate Unmarked(c: Client, later: Client) {
    && later.objects == c.objects
    && SameMarks(c.bootstrapServers, later.bootstrapServers) && SameMarks(c.servers, later.servers)
  }

  lemma SameMarksAscending(a: Servers, b: Servers)
    requires SameMarks(a, b) && Ascending(a)
    ensures Ascending(b)
  {}

  lemma SameMarksClean(a: Servers, b: Servers, x: nat)
    requires SameMarks(a, b)
    ensures IsClean(a, x) == IsClean(b, x)
  {
    PositionSame(a, b, x);
  }

  lemma FinishUnmarked(c: Client, session: nat)
    ensures Unmarked(c, HandledFinish(c, session).0)
  {
    hide GotServers, Sender;
  }

  lemma {:induction false} SteppedMarksSame(list: Servers, now: int, timeout: int, name: string, net: Net)
    ensures SameMarks(list, Stepped(list, now, timeout, name, net).0)
  {
    if list != [] {
      var first := SteppedServer(list[0].id, list[0].body, now, timeout, name, net);
      SteppedMarksSame(list[1..], now, first.1, name, net);
    }
  }

  /** Neither does a pass over the servers change a mark. */
  lemma PassUnmarked(c: Client, now: int, timeout: int, name: string, net: Net)
    ensures Unmarked(c, BootstrapStepped(c, now, timeout, name, net).client)
  {
    hide Stepped;
    SteppedMarksSame(c.bootstrapServers, now, timeout, name, net);
  }

  // ---------------------------------------------------------------- the refresh

  /** The Security instance is known by servers marked dirty only. */
  predicate OnlyDirty(c: Client, id: nat) {
    && Known(c.bootstrapServers, c.servers, id)
    && !IsClean(c.bootstrapServers, id) && !IsClean(c.servers, id)
  }

  /** After an accepted finish request, and passes over the servers, a refresh succeeds if
      and only if every Security instance whose server is marked dirty is readable. */
  lemma RefreshAfterFinish(c: Client, session: nat, later: Client)
    requires Ascending(c.bootstrapServers) && Ascending(c.servers)
    requires HandledFinish(c, session).1 == Changed && Unmarked(c, later)
    ensures Refreshed(later.objects, later.bootstrapServers, later.servers).check.Good? <==>
            forall k :: 0 <= k < |InstancesOf(c.objects, SECURITY_OBJECT)|
                        && OnlyDirty(c, InstancesOf(c.objects, SECURITY_OBJECT)[k].id) ==>
                          Readable(c.objects, InstancesOf(c.objects, SECURITY_OBJECT)[k].id)
  {
    hide Contributed, Refreshed, Scan, InstancesOf, Find, Sender, HandledFinish, SameMarks;
    FinishExact(c, session);
    SameMarksAscending(c.bootstrapServers, later.bootstrapServers);
    SameMarksAscending(c.servers, later.servers);
    forall x
      ensures IsClean(c.bootstrapServers, x) == IsClean(later.bootstrapServers, x)
      ensures IsClean(c.servers, x) == IsClean(later.servers, x)
    {
      SameMarksClean(c.bootstrapServers, later.bootstrapServers, x);
      SameMarksClean(c.servers, later.servers, x);
    }
    RefreshGoodExact(later.objects, later.bootstrapServers, later.servers);
    ScanGoodExact(c.objects, InstancesOf(c.objects, SECURITY_OBJECT), c.bootstrapServers, c.servers);
  }

  /** The refresh that ends the bootstrap, one pass after the finish request. */
  lemma RefreshAfterPass(c: Client, session: nat, now: int, timeout: int, name: string, net: Net)
    requires Ascending(c.bootstrapServers) && Ascending(c.servers)
    requires HandledFinish(c, session).1 == Changed
    ensures var later := BootstrapStepped(HandledFinish(c, session).0, now, timeout, name, net).client;
            Refreshed(later.objects, later.bootstrapServers, later.servers).check.Good? <==>
            forall k :: 0 <= k < |InstancesOf(c.objects, SECURITY_OBJECT)|
                        && OnlyDirty(c, InstancesOf(c.objects, SECURITY_OBJECT)[k].id) ==>
                          Readable(c.objects, InstancesOf(c.objects, SECURITY_OBJECT)[k].id)
  {
    hide HandledFinish, BootstrapStepped, Refreshed, OnlyDirty, Readable, InstancesOf;
    var next := HandledFinish(c, session).0;
    FinishUnmarked(c, session);
    PassUnmarked(next, now, timeout, name, net);
    RefreshAfterFinish(c, session, BootstrapStepped(next, now, timeout, name, net).client);
  }

  // ---------------------------------------------------------------- a finish that cannot be refreshed

  /** A bootstrap server under Security instance 5, and an account under instance 6. */
  function TwoServers(shortId: int, dirty: bool, status: Status, session: Option<nat>): Client {
    Client([Entry(SECURITY_OBJECT, Obj([Entry(5, Security(true, 0, 0, 0, 0)),
                                        Entry(6, Security(false, 0, shortId, 0, 0))], true, true, true))],
           [Entry(5, Server(0, 0, 0, status, session, false))],
           [Entry(6, Server(1, 0, 0, Deregistered, None, dirty))], Bootstrapping)
  }

  lemma TwoServersInstances(shortId: int, dirty: bool, status: Status, session: Option<nat>)
    ensures var c := TwoServers(shortId, dirty, status, session);
            var list: Instances := [Entry(5, Security(true, 0, 0, 0, 0)), Entry(6, Security(false, 0, shortId, 0, 0))];
            && InstancesOf(c.objects, SECURITY_OBJECT) == list
            && list[1..] == [Entry(6, Security(false, 0, shortId, 0, 0))]
            && Position(list, 6) == 1 && Has(list, 6) && Has(c.objects, SECURITY_OBJECT)
  {
    var list: Instances := [Entry(5, Security(true, 0, 0, 0, 0)), Entry(6, Security(false, 0, shortId, 0, 0))];
    assert list[1..] == [Entry(6, Security(false, 0, shortId, 0, 0))];
    assert Position(list[1..], 6) == 0;
  }

  lemma WrittenPair(shortId: int, inst: Instance)
    ensures var list: Instances := [Entry(5, Security(true, 0, 0, 0, 0)), Entry(6, Security(false, 0, shortId, 0, 0))];
            && Find(list, 6) == Some(Security(false, 0, shortId, 0, 0))
            && Put(list, 6, inst) == [Entry(5, Security(true, 0, 0, 0, 0)), Entry(6, inst)]
  {
    var list: Instances := [Entry(5, Security(true, 0, 0, 0, 0)), Entry(6, Security(false, 0, shortId, 0, 0))];
    PositionUnique(list, 6, 1);
  }

  /** A PUT that takes the short id away is answered with 2.04 and marks the server. */
  lemma ShortIdCleared(session: Option<nat>, node: Node)
    requires node.id == 10 && node.asInt == Some(0)
    ensures PutInstance(TwoServers(1, false, Pending, session), SECURITY_OBJECT, 6,
                        Message(PutVerb, true, Nodes([node])))
            == (TwoServers(0, true, Pending, session), Changed)
  {
    var c := TwoServers(1, false, Pending, session);
    var cleared := Security(false, 0, 0, 0, 0);
    WrittenPair(1, cleared);
    assert Written(Security(false, 0, 1, 0, 0), [node]) == (cleared, Changed);
    var list := InstancesOf(c.objects, SECURITY_OBJECT);
    assert WriteIn(list, 6, [node]) == (Put(list, 6, cleared), Changed);
    assert ObjectWrite(c.objects, SECURITY_OBJECT, 6, Nodes([node])).0
        == [Entry(SECURITY_OBJECT, Obj(Put(list, 6, cleared), true, true, true))];
    assert Put(c.servers, 6, c.servers[0].body.(dirty := true)) == TwoServers(0, true, Pending, session).servers;
    PositionUnique(c.bootstrapServers, 6, 1);
  }

  /** The finish request that follows is accepted, and so is the pass that ends the
      bootstrap; then the refresh fails and the client answers 5.03. */
  lemma FinishThenUnavailable(session: nat, now: int, timeout: int, name: string, env: Env)
    requires now >= 0
    ensures HandledFinish(TwoServers(0, true, Pending, Some(session)), session)
            == (TwoServers(0, true, Finishing, Some(session)), Changed)
    ensures ClientStepped(TwoServers(0, true, Finishing, Some(session)), now, timeout, name, env)
            == Outcome(TwoServers(0, true, Finished, None), NoError, 0)
    ensures ClientStepped(TwoServers(0, true, Finished, None), now, timeout, name, env).code == Unavailable
  {
    FinishTaken(session);
    PassEnds(session, now, timeout, name, env);
    RefreshRefused(now, timeout, name, env);
  }

  lemma FinishTaken(session: nat)
    ensures HandledFinish(TwoServers(0, true, Pending, Some(session)), session)
            == (TwoServers(0, true, Finishing, Some(session)), Changed)
  {
    var c := TwoServers(0, true, Pending, Some(session));
    var s := c.bootstrapServers[0].body;
    TwoServersInstances(0, true, Pending, Some(session));
    assert Find(c.bootstrapServers, 5) == Some(s) && Has(c.servers, 6);
    ScanGoodExact(c.objects, InstancesOf(c.objects, SECURITY_OBJECT), c.bootstrapServers, c.servers);
    FinishExact(c, session);
    assert Put(c.bootstrapServers, 5, s.(status := Finishing))
        == TwoServers(0, true, Finishing, Some(session)).bootstrapServers;
  }

  lemma PassEnds(session: nat, now: int, timeout: int, name: string, env: Env)
    requires now >= 0
    ensures ClientStepped(TwoServers(0, true, Finishing, Some(session)), now, timeout, name, env)
            == Outcome(TwoServers(0, true, Finished, None), NoError, 0)
  {
    var list := TwoServers(0, true, Finishing, Some(session)).bootstrapServers;
    var s := list[0].body;
    assert Underway(s.status) && list[1..] == [];
    var next := [Entry(5, s.(session := None, status := Finished))];
    var none: Servers := [];
    assert Stepped(none, now, 0, name, env.net) == (none, 0) && next + none == next;
    assert Stepped(list, now, timeout, name, env.net) == (next, 0);
    assert next == TwoServers(0, true, Finished, None).bootstrapServers;
  }

  lemma TwoServersFinished()
    ensures var c := TwoServers(0, true, Finished, None);
            OverallStatus(c.bootstrapServers) == Finished
  {
    assert TwoServers(0, true, Finished, None).bootstrapServers[0].body.status.Finished?;
  }

  lemma RefreshBad()
    ensures var c := TwoServers(0, true, Finished, None);
            Refreshed(c.objects, c.bootstrapServers, c.servers).check == Bad
  {
    var c := TwoServers(0, true, Finished, None);
    TwoServersInstances(0, true, Finished, None);
    assert Relinked(c.servers[1..], [], false) == [];
    assert c.bootstrapServers[1..] == [];
  }

  lemma RefreshRefused(now: int, timeout: int, name: string, env: Env)
    requires now >= 0
    ensures ClientStepped(TwoServers(0, true, Finished, None), now, timeout, name, env).code == Unavailable
  {
    hide Stepped, Started, Refreshed, OverallStatus;
    TwoServersFinished();
    RefreshBad();
  }
}
