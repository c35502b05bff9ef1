/** Which servers a request of a bootstrap server marks dirty: exactly those whose Security
    instance it changes or takes away. */
module BootstrapMarks {
  import opened Text
  import opened Uris
  import opened IdLists
  import opened Context
  import opened Objects
  import opened ObjectRequests
  import opened ServerLists
  import opened Bootstrap
  import opened BootstrapSafety
  import opened BootstrapRuns
  import opened BootstrapCommands

  datatype Marking = NoMark | MarkOf(id: nat) | MarkAll

  predicate Marks(m: Marking, id: nat) {
    m.MarkAll? || m == MarkOf(id)
  }

  /** The servers marked, bootstrap servers first: another server is not marked when its id is
      also one of a bootstrap server, unless all are. */
  ghost predicate ServersMarked(c: Client, s: Servers, m: Marking) {
    && |s| == |c.servers|
    && forall i :: 0 <= i < |s| ==>
         var e := c.servers[i];
         s[i] == Entry(e.id, e.body.(dirty := e.body.dirty
                                              || (Marks(m, e.id) && (m.MarkAll? || !Has(c.bootstrapServers, e.id)))))
  }

  ghost predicate MarkedBy(c: Client, b: Servers, s: Servers, m: Marking) {
    && |b| == |c.bootstrapServers| && ServersMarked(c, s, m)
    && forall i :: 0 <= i < |b| ==>
         var e := c.bootstrapServers[i];
         b[i] == Entry(e.id, e.body.(dirty := e.body.dirty || Marks(m, e.id)))
  }

  lemma NothingMarked(c: Client)
    ensures MarkedBy(c, c.bootstrapServers, c.servers, NoMark)
  {
    forall i | 0 <= i < |c.servers|
      ensures c.servers[i] == Entry(c.servers[i].id, c.servers[i].body.(dirty := c.servers[i].body.dirty))
    {}
  }

  lemma AllMarked(c: Client)
    ensures var r := TaggedAll(c, None); MarkedBy(c, r.bootstrapServers, r.servers, MarkAll)
  {}

  lemma DirtiedAt(list: Servers, id: nat)
    requires Ascending(list)
    ensures var r := Dirtied(list, id);
            && |r| == |list|
            && forall i :: 0 <= i < |list| ==>
                 r[i] == if list[i].id == id then Entry(id, list[i].body.(dirty := true)) else list[i]
  {
    hide Put, Position;
    var k := Position(list, id);
    if k < |list| && list[k].id == id {
      PutAt(list, k, list[k].body.(dirty := true));
    } else {
      forall i | 0 <= i < |list|
        ensures list[i].id != id
      {
        PositionAt(list, i);
      }
    }
  }

  lemma OneMarked(c: Client, id: nat)
    requires Ascending(c.bootstrapServers) && Ascending(c.servers)
    ensures var r := Tagged(c, id); MarkedBy(c, r.bootstrapServers, r.servers, MarkOf(id))
  {
    hide Dirtied;
    DirtiedAt(c.bootstrapServers, id);
    DirtiedAt(c.servers, id);
  }

  /** The server a PUT on an instance marks. */
  function PutMarking(c: Client, objectId: nat, id: nat, code: Code): Marking {
    if objectId == SECURITY_OBJECT && code == Changed && Has(InstancesOf(c.objects, objectId), id) then MarkOf(id)
    else NoMark
  }

  /** The servers a DELETE marks. */
  function DeleteMarking(uri: Uri, code: Code): Marking {
    if uri.objectId != SECURITY_OBJECT || code != Deleted then NoMark
    else if uri.instanceId.Some? then MarkOf(uri.instanceId.value)
    else MarkAll
  }

  lemma PutMarked(c: Client, objectId: nat, id: nat, m: Message)
    requires Ascending(c.bootstrapServers) && Ascending(c.servers)
    ensures var r := PutInstance(c, objectId, id, m);
            MarkedBy(c, r.0.bootstrapServers, r.0.servers, PutMarking(c, objectId, id, r.1))
  {
    hide ObjectCreate, ObjectWrite, Tagged, MarkedBy, Ascending, Find;
    NothingMarked(c);
    var w := WithObjects(c, ObjectWrite(c.objects, objectId, id, m.payload)).0;
    OneMarked(w, id);
    SameLists(c, w, MarkOf(id), id);
  }

  lemma SameLists(c: Client, w: Client, m: Marking, id: nat)
    requires w.bootstrapServers == c.bootstrapServers && w.servers == c.servers
    ensures forall b, s :: MarkedBy(w, b, s, m) <==> MarkedBy(c, b, s, m)
  {}

  lemma DeleteMarked(c: Client, uri: Uri)
    requires Ascending(c.bootstrapServers) && Ascending(c.servers)
    ensures var r := DeleteCommand(c, uri);
            MarkedBy(c, r.0.bootstrapServers, r.0.servers, DeleteMarking(uri, r.1))
  {
    hide ObjectDelete, Tagged, TaggedAll, MarkedBy, Ascending;
    NothingMarked(c);
    var w := WithObjects(c, ObjectDelete(c.objects, uri.objectId, uri.instanceId)).0;
    if uri.instanceId.Some? {
      OneMarked(w, uri.instanceId.value);
      SameLists(c, w, MarkOf(uri.instanceId.value), 0);
    }
    AllMarked(w);
    SameLists(c, w, MarkAll, 0);
  }

  /** The list of bootstrap servers after a request of the one at `k`: it is touched, and
      PENDING if the request changed something, and servers are marked. */
  ghost predicate Left(a: Servers, b: Servers, k: nat, now: int, done: bool, m: Marking)
    requires k < |a|
  {
    && |b| == |a|
    && forall i :: 0 <= i < |a| ==>
         var was := if i == k then Touched(a[i].body, now) else a[i].body;
         b[i] == Entry(a[i].id, was.(status := if i == k && done then Pending else was.status,
                                     dirty := was.dirty || Marks(m, a[i].id)))
  }

  lemma ConcludedLeft(c: Client, k: nat, now: int, r: (Client, Code), m: Marking)
    requires k < |c.bootstrapServers| && Ascending(c.bootstrapServers)
    requires MarkedBy(Listening(c, k, now), r.0.bootstrapServers, r.0.servers, m)
    ensures var d := Concluded(r, c.bootstrapServers[k].id).0;
            && d.servers == r.0.servers && ServersMarked(c, r.0.servers, m)
            && Left(c.bootstrapServers, d.bootstrapServers, k, now, r.1 == Deleted || r.1 == Changed, m)
  {
    hide Find, Put, Has, Marks;
    var id, list := c.bootstrapServers[k].id, r.0.bootstrapServers;
    SameIds(Listening(c, k, now).bootstrapServers, list);
    ListeningAscending(c, k, now);
    PutAt(list, k, list[k].body.(status := Pending));
    forall x: nat
      ensures Has(Listening(c, k, now).bootstrapServers, x) == Has(c.bootstrapServers, x)
    {
      SameHas(Listening(c, k, now).bootstrapServers, c.bootstrapServers, x);
    }
  }

  lemma SameHas(a: Servers, b: Servers, x: nat)
    requires |a| == |b| && (forall i :: 0 <= i < |a| ==> b[i].id == a[i].id)
    ensures Has(a, x) == Has(b, x)
  {
    PositionSame(a, b, x);
  }

  lemma SameIds(a: Servers, b: Servers)
    requires |a| == |b| && (forall i :: 0 <= i < |a| ==> b[i].id == a[i].id)
    ensures Ascending(a) ==> Ascending(b)
  {}

  /** What an accepted PUT on an instance or DELETE leaves of all servers. */
  lemma ServersLeft(c: Client, name: string, session: nat, uri: Uri, m: Message, now: int, k: nat)
    requires Sorted(c.objects) && Ascending(c.bootstrapServers) && Ascending(c.servers)
    requires IsSender(c.bootstrapServers, session, k) && Accepting(c.bootstrapServers[k].body.status)
    requires m.verb.DeleteVerb? || (m.verb.PutVerb? && uri.instanceId.Some?)
    ensures var r := Next(c, name, Command(session, uri, m, now));
            var marking := if m.verb.DeleteVerb? then DeleteMarking(uri, r.1)
                           else PutMarking(c, uri.objectId, uri.instanceId.value, r.1);
            && Left(c.bootstrapServers, r.0.bootstrapServers, k, now, r.1 == Deleted || r.1 == Changed, marking)
            && ServersMarked(c, r.0.servers, marking)
  {
    hide Sorted, Ascending, DeleteCommand, PutInstance, Find, Put, Accepting, Left, Listening, Concluded, MarkedBy,
         ServersMarked, InstancesOf, Has;
    CommandUnfolded(c, name, session, uri, m, now, k);
    ListeningAscending(c, k, now);
    ListeningServers(c, k, now);
    var c1 := Listening(c, k, now);
    if m.verb.DeleteVerb? {
      DeleteMarked(c1, uri);
      var r := DeleteCommand(c1, uri);
      ConcludedLeft(c, k, now, r, DeleteMarking(uri, r.1));
      ConcludedCode(r, c.bootstrapServers[k].id);
    } else {
      PutMarked(c1, uri.objectId, uri.instanceId.value, m);
      var r := PutCommand(c1, uri, m);
      ConcludedLeft(c, k, now, r, PutMarking(c, uri.objectId, uri.instanceId.value, r.1));
      ConcludedCode(r, c.bootstrapServers[k].id);
    }
  }

  lemma ListeningServers(c: Client, k: nat, now: int)
    requires k < |c.bootstrapServers|
    ensures Listening(c, k, now).servers == c.servers && Listening(c, k, now).objects == c.objects
  {}
}
