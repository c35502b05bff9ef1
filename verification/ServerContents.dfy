/** Which servers the lists hold, read off the Security and Server objects. */
module ServerContents {
  import opened Text
  import opened IdLists
  import opened Context
  import opened Objects
  import opened ServerLists

  // ---------------------------------------------------------------- one Security instance

  /** The first account with the short id is the one at `k`. */
  ghost predicate FirstAccount(accounts: Instances, shortId: int, k: nat) {
    && k < |accounts| && accounts[k].body.Account? && accounts[k].body.shortId == shortId
    && forall j :: 0 <= j < k ==> accounts[j].body.Account? && accounts[j].body.shortId != shortId
  }

  /** An account whose lifetime and binding are in range. */
  predicate AccountInRange(inst: Instance) {
    && inst.Account? && 0 <= inst.lifetime <= UINT32_MAX
    && CString(inst.binding) in {"U", "UQ", "US", "UQS", "S", "SQ"}
  }

  /** A Security instance in range: its short id, its hold-off time if it is flagged, else
      the Server object and the account it names, if it names one. */
  ghost predicate InRange(objects: ObjectList, inst: Instance) {
    && inst.Security? && inst.shortId <= 0xFFFF
    && (inst.isBootstrap ==> 0 <= inst.shortId && 0 <= inst.holdOff <= UINT32_MAX)
    && (!inst.isBootstrap ==>
          && 1 <= inst.shortId && Has(objects, SERVER_OBJECT)
          && forall k: nat :: FirstAccount(InstancesOf(objects, SERVER_OBJECT), inst.shortId, k) ==>
                           AccountInRange(InstancesOf(objects, SERVER_OBJECT)[k].body))
  }

  /** The record of an LwM2M server: the short id and lifetime of its account. */
  ghost predicate ServerDue(objects: ObjectList, inst: Instance, s: Server) {
    && inst.Security? && !inst.isBootstrap
    && exists k: nat :: FirstAccount(InstancesOf(objects, SERVER_OBJECT), inst.shortId, k)
                   && s == Server(inst.shortId, InstancesOf(objects, SERVER_OBJECT)[k].body.lifetime, 0, Deregistered,
                                  None, false)
  }

  /** The record of a bootstrap server: its short id and hold-off time. */
  predicate BootstrapDue(inst: Instance, s: Server) {
    inst.Security? && inst.isBootstrap && s == Server(inst.shortId, inst.holdOff, 0, Deregistered, None, false)
  }

  lemma {:induction false} AccountFound(list: Instances, shortId: int)
    requires Ascending(list)
    ensures var found := FindAccount(list, shortId);
            && (found.Some? ==> exists k: nat :: FirstAccount(list, shortId, k) && list[k].id == found.value)
            && (found.None? ==> forall k: nat :: !FirstAccount(list, shortId, k))
    decreases |list|
  {
    if list != [] {
      var tail := list[1..];
      TailFind(list, 0);
      AccountFound(tail, shortId);
      if list[0].body.Account? {
        if list[0].body.shortId == shortId {
          assert FirstAccount(list, shortId, 0);
        } else {
          forall k: nat | k > 0
            ensures FirstAccount(list, shortId, k) <==> FirstAccount(tail, shortId, k - 1)
          {
            FirstBehind(list, shortId, k);
          }
          var found := FindAccount(tail, shortId);
          if found.Some? {
            var k: nat :| FirstAccount(tail, shortId, k) && tail[k].id == found.value;
            assert FirstAccount(list, shortId, k + 1) && list[k + 1].id == found.value;
          }
        }
      }
    }
  }

  lemma FirstBehind(list: Instances, shortId: int, k: nat)
    requires list != [] && list[0].body.Account? && list[0].body.shortId != shortId && k > 0
    ensures FirstAccount(list, shortId, k) <==> FirstAccount(list[1..], shortId, k - 1)
  {
    var tail := list[1..];
    assert forall j :: 0 <= j < |tail| ==> tail[j] == list[j + 1];
    if FirstAccount(list, shortId, k) {
      assert FirstAccount(tail, shortId, k - 1);
    }
    if FirstAccount(tail, shortId, k - 1) {
      forall j | 0 <= j < k
        ensures list[j].body.Account? && list[j].body.shortId != shortId
      {
        if j > 0 { assert tail[j - 1] == list[j]; }
      }
    }
  }

  lemma FirstUnique(list: Instances, shortId: int, j: nat, k: nat)
    requires FirstAccount(list, shortId, j) && FirstAccount(list, shortId, k)
    ensures j == k
  {}

  lemma MandatoryExact(list: Instances, k: nat)
    requires Ascending(list) && k < |list| && list[k].body.Account?
    ensures MandatoryInfo(list, list[k].id) ==
            if AccountInRange(list[k].body) then Some(list[k].body.lifetime) else None
  {
    hide CString;
    FindAt(list, k);
  }

  /** What a Security instance adds to the lists, and when it stops the scan. */
  lemma ContributionExact(objects: ObjectList, id: nat, inst: Instance)
    requires Sorted(objects) && Find(InstancesOf(objects, SECURITY_OBJECT), id) == Some(inst)
    ensures Readable(objects, id) <==> InRange(objects, inst)
    ensures var r := Contributed(objects, id);
            && (forall s :: Readable(objects, id) ==> (r == NewBootstrap(s) <==> BootstrapDue(inst, s)))
            && (forall s :: Readable(objects, id) ==> (r == NewServer(s) <==> ServerDue(objects, inst, s)))
  {
    hide MandatoryInfo, Find, AccountInRange, FindAccount;
    if inst.Security? && !inst.isBootstrap {
      var accounts := InstancesOf(objects, SERVER_OBJECT);
      SortedInstances(objects, SERVER_OBJECT);
      AccountFound(accounts, inst.shortId);
      var found := FindAccount(accounts, inst.shortId);
      if found.Some? {
        var k: nat :| FirstAccount(accounts, inst.shortId, k) && accounts[k].id == found.value;
        MandatoryExact(accounts, k);
        forall j: nat | FirstAccount(accounts, inst.shortId, j)
          ensures j == k
        {
          FirstUnique(accounts, inst.shortId, j, k);
        }
      }
    }
  }

  // ---------------------------------------------------------------- the scan

  ghost predicate Listed(list: Instances, id: nat) {
    exists k :: 0 <= k < |list| && list[k].id == id
  }

  /** What a successful scan leaves: known ids are as they were, and an id that is not known
      stands in one list exactly with the record due to its Security instance. */
  ghost predicate Scanned(objects: ObjectList, list: Instances, bs: Servers, sv: Servers, r: Lists) {
    forall id ::
      if Known(bs, sv, id) then Find(r.bootstrapServers, id) == Find(bs, id) && Find(r.servers, id) == Find(sv, id)
      else
        var inst: Option<Instance> := Find(InstancesOf(objects, SECURITY_OBJECT), id);
        && (forall s :: Find(r.servers, id) == Some(s) <==>
                          Listed(list, id) && inst.Some? && ServerDue(objects, inst.value, s))
        && (forall s :: Find(r.bootstrapServers, id) == Some(s) <==>
                          Listed(list, id) && inst.Some? && BootstrapDue(inst.value, s))
  }

  lemma {:induction false} ScanExact(objects: ObjectList, list: Instances, bs: Servers, sv: Servers)
    requires Sorted(objects) && Ascending(bs) && Ascending(sv) && Ascending(list)
    requires forall k :: 0 <= k < |list| ==>
               Find(InstancesOf(objects, SECURITY_OBJECT), list[k].id) == Some(list[k].body)
    requires Scan(objects, list, bs, sv, false).check.Good?
    ensures Scanned(objects, list, bs, sv, Scan(objects, list, bs, sv, false))
    decreases |list|
  {
    hide Contributed, Known, Add, Find, ServerDue, BootstrapDue, InRange, Sorted, Scanned;
    if list == [] {
      NothingScanned(objects, bs, sv);
    } else {
      var id, inst, tail := list[0].id, list[0].body, list[1..];
      TailFind(list, 0);
      assert forall k :: 0 <= k < |tail| ==> tail[k] == list[k + 1];
      if Known(bs, sv, id) {
        ScanExact(objects, tail, bs, sv);
        KnownFirst(objects, list, bs, sv, Scan(objects, tail, bs, sv, false));
      } else {
        ContributionExact(objects, id, inst);
        match Contributed(objects, id) {
          case NewBootstrap(s) =>
            AddKnown(bs, sv, id, s);
            ScanExact(objects, tail, Add(bs, id, s), sv);
            BootstrapFirst(objects, list, bs, sv, s, Scan(objects, tail, Add(bs, id, s), sv, false));
          case NewServer(s) =>
            AddKnown(bs, sv, id, s);
            ScanExact(objects, tail, bs, Add(sv, id, s));
            ServerFirst(objects, list, bs, sv, s, Scan(objects, tail, bs, Add(sv, id, s), false));
          case Nobody =>
            ScanExact(objects, tail, bs, sv);
            NobodyFirst(objects, list, bs, sv, Scan(objects, tail, bs, sv, false));
          case _ =>
        }
      }
    }
  }

  lemma NothingScanned(objects: ObjectList, bs: Servers, sv: Servers)
    ensures Scanned(objects, [], bs, sv, Lists(bs, sv, Good))
  {
    hide ServerDue, BootstrapDue;
  }

  lemma ListedParts(list: Instances, x: nat)
    requires list != []
    ensures Listed(list, x) <==> x == list[0].id || Listed(list[1..], x)
  {
    var tail := list[1..];
    assert forall k :: 0 <= k < |tail| ==> tail[k] == list[k + 1];
    if Listed(tail, x) {
      var k :| 0 <= k < |tail| && tail[k].id == x;
      assert list[k + 1].id == x;
    }
    if x == list[0].id { assert list[0].id == x; }
  }

  lemma NotBehind(list: Instances)
    requires Ascending(list) && list != []
    ensures !Listed(list[1..], list[0].id)
  {
    var tail := list[1..];
    assert forall k :: 0 <= k < |tail| ==> tail[k] == list[k + 1];
  }

  lemma KnownFirst(objects: ObjectList, list: Instances, bs: Servers, sv: Servers, r: Lists)
    requires list != [] && Known(bs, sv, list[0].id) && Scanned(objects, list[1..], bs, sv, r)
    ensures Scanned(objects, list, bs, sv, r)
  {
    hide ServerDue, BootstrapDue, Find, Known, Listed;
    forall x
      ensures Listed(list, x) <==> x == list[0].id || Listed(list[1..], x)
    {
      ListedParts(list, x);
    }
  }

  lemma NobodyFirst(objects: ObjectList, list: Instances, bs: Servers, sv: Servers, r: Lists)
    requires Ascending(list) && list != [] && Scanned(objects, list[1..], bs, sv, r)
    requires Find(InstancesOf(objects, SECURITY_OBJECT), list[0].id) == Some(list[0].body)
    requires forall s :: !BootstrapDue(list[0].body, s) && !ServerDue(objects, list[0].body, s)
    ensures Scanned(objects, list, bs, sv, r)
  {
    hide ServerDue, BootstrapDue, Find, Known, Listed;
    NotBehind(list);
    forall x
      ensures Listed(list, x) <==> x == list[0].id || Listed(list[1..], x)
    {
      ListedParts(list, x);
    }
  }

  lemma BootstrapFirst(objects: ObjectList, list: Instances, bs: Servers, sv: Servers, s: Server, r: Lists)
    requires Ascending(list) && list != [] && Ascending(bs) && Ascending(sv) && !Known(bs, sv, list[0].id)
    requires Scanned(objects, list[1..], Add(bs, list[0].id, s), sv, r)
    requires Find(InstancesOf(objects, SECURITY_OBJECT), list[0].id) == Some(list[0].body)
    requires forall t :: BootstrapDue(list[0].body, t) <==> t == s
    requires forall t :: !ServerDue(objects, list[0].body, t)
    ensures Scanned(objects, list, bs, sv, r)
  {
    hide ServerDue, BootstrapDue, Find, Listed, Add;
    NotBehind(list);
    forall x
      ensures Listed(list, x) <==> x == list[0].id || Listed(list[1..], x)
      ensures Find(Add(bs, list[0].id, s), x) == if x == list[0].id then Some(s) else Find(bs, x)
    {
      ListedParts(list, x);
      AddFind(bs, list[0].id, s, x);
    }
  }

  lemma ServerFirst(objects: ObjectList, list: Instances, bs: Servers, sv: Servers, s: Server, r: Lists)
    requires Ascending(list) && list != [] && Ascending(bs) && Ascending(sv) && !Known(bs, sv, list[0].id)
    requires Scanned(objects, list[1..], bs, Add(sv, list[0].id, s), r)
    requires Find(InstancesOf(objects, SECURITY_OBJECT), list[0].id) == Some(list[0].body)
    requires forall t :: ServerDue(objects, list[0].body, t) <==> t == s
    requires forall t :: !BootstrapDue(list[0].body, t)
    ensures Scanned(objects, list, bs, sv, r)
  {
    hide ServerDue, BootstrapDue, Find, Listed, Add;
    NotBehind(list);
    forall x
      ensures Listed(list, x) <==> x == list[0].id || Listed(list[1..], x)
      ensures Find(Add(sv, list[0].id, s), x) == if x == list[0].id then Some(s) else Find(sv, x)
    {
      ListedParts(list, x);
      AddFind(sv, list[0].id, s, x);
    }
  }

  // ---------------------------------------------------------------- reading and refreshing

  /** The record due to the Security instance under the id, if there is one. */
  ghost predicate ServerAt(objects: ObjectList, id: nat, s: Server) {
    var inst: Option<Instance> := Find(InstancesOf(objects, SECURITY_OBJECT), id);
    inst.Some? && ServerDue(objects, inst.value, s)
  }

  ghost predicate BootstrapAt(objects: ObjectList, id: nat, s: Server) {
    var inst: Option<Instance> := Find(InstancesOf(objects, SECURITY_OBJECT), id);
    inst.Some? && BootstrapDue(inst.value, s)
  }

  lemma SecurityListed(objects: ObjectList, id: nat)
    requires Sorted(objects)
    ensures var list := InstancesOf(objects, SECURITY_OBJECT);
            && (Find(list, id).Some? <==> Listed(list, id))
            && (forall k :: 0 <= k < |list| ==> Find(list, list[k].id) == Some(list[k].body))
  {
    hide Find, Sorted, InstancesOf;
    var list := InstancesOf(objects, SECURITY_OBJECT);
    SortedInstances(objects, SECURITY_OBJECT);
    Gap(list, id);
    forall k | 0 <= k < |list|
      ensures Find(list, list[k].id) == Some(list[k].body)
    {
      FindAt(list, k);
    }
  }

  lemma ScannedAll(objects: ObjectList, bs: Servers, sv: Servers, r: Lists, id: nat)
    requires Sorted(objects) && Scanned(objects, InstancesOf(objects, SECURITY_OBJECT), bs, sv, r)
    requires !Known(bs, sv, id)
    ensures forall s :: Find(r.servers, id) == Some(s) <==> ServerAt(objects, id, s)
    ensures forall s :: Find(r.bootstrapServers, id) == Some(s) <==> BootstrapAt(objects, id, s)
  {
    hide Find, Sorted, InstancesOf, ServerDue, BootstrapDue, Listed, Known;
    SecurityListed(objects, id);
  }

  /** Reading the lists succeeds if and only if every Security instance that neither list
      knows is in range; then exactly the servers due to those instances are added. */
  lemma ReadExact(objects: ObjectList, bs: Servers, sv: Servers)
    requires Sorted(objects) && Ascending(bs) && Ascending(sv)
    ensures var r := GotServers(objects, bs, sv, false);
            var list := InstancesOf(objects, SECURITY_OBJECT);
            && (r.check.Good? <==>
                  Has(objects, SECURITY_OBJECT)
                  && forall k :: 0 <= k < |list| && !Known(bs, sv, list[k].id) ==> InRange(objects, list[k].body))
            && (r.check.Good? ==> forall id: nat ::
                  if Known(bs, sv, id) then
                    Find(r.servers, id) == Find(sv, id) && Find(r.bootstrapServers, id) == Find(bs, id)
                  else
                    && (forall s :: Find(r.servers, id) == Some(s) <==> ServerAt(objects, id, s))
                    && (forall s :: Find(r.bootstrapServers, id) == Some(s) <==> BootstrapAt(objects, id, s)))
  {
    hide Find, Sorted, InstancesOf, Ascending, ServerAt, BootstrapAt, Known, InRange, Readable, Scan, Listed, ServerDue,
         BootstrapDue;
    var list := InstancesOf(objects, SECURITY_OBJECT);
    SortedInstances(objects, SECURITY_OBJECT);
    SecurityListed(objects, 0);
    ScanGoodExact(objects, list, bs, sv);
    forall k | 0 <= k < |list|
      ensures Readable(objects, list[k].id) <==> InRange(objects, list[k].body)
    {
      ContributionExact(objects, list[k].id, list[k].body);
    }
    var r := GotServers(objects, bs, sv, false);
    if r.check.Good? {
      ScanExact(objects, list, bs, sv);
      forall id: nat | !Known(bs, sv, id)
        ensures forall s :: Find(r.servers, id) == Some(s) <==> ServerAt(objects, id, s)
        ensures forall s :: Find(r.bootstrapServers, id) == Some(s) <==> BootstrapAt(objects, id, s)
      {
        ScannedAll(objects, bs, sv, r, id);
      }
    }
  }

  lemma RelinkedRecord(list: Servers, restart: bool, id: nat)
    requires Ascending(list)
    ensures Ascending(Relinked(list, [], restart))
    ensures Has(Relinked(list, [], restart), id) <==> IsClean(list, id)
    ensures Find(Relinked(list, [], restart), id) ==
            if !IsClean(list, id) then None
            else if restart then Some(Find(list, id).value.(status := Deregistered)) else Find(list, id)
  {
    hide Relinked;
    var none: Servers := [];
    NothingFound();
    RelinkedFind(list, none, restart, id);
  }

  /** A refresh succeeds if and only if every Security instance without a clean server is in
      range.  Then clean servers are kept, bootstrap servers starting over, and for every
      other id exactly the server due to its Security instance is there. */
  lemma RefreshContents(objects: ObjectList, bs: Servers, sv: Servers)
    requires Sorted(objects) && Ascending(bs) && Ascending(sv)
    ensures var r := Refreshed(objects, bs, sv);
            var list := InstancesOf(objects, SECURITY_OBJECT);
            && (r.check.Good? <==>
                  Has(objects, SECURITY_OBJECT)
                  && forall k :: 0 <= k < |list| ==>
                       IsClean(bs, list[k].id) || IsClean(sv, list[k].id) || InRange(objects, list[k].body))
            && (r.check.Good? ==> forall id: nat ::
                  && (IsClean(sv, id) ==> Find(r.servers, id) == Find(sv, id))
                  && (IsClean(bs, id) ==>
                        Find(r.bootstrapServers, id) == Some(Find(bs, id).value.(status := Deregistered)))
                  && (!IsClean(bs, id) && !IsClean(sv, id) ==>
                        && (forall s :: Find(r.servers, id) == Some(s) <==> ServerAt(objects, id, s))
                        && (forall s :: Find(r.bootstrapServers, id) == Some(s) <==> BootstrapAt(objects, id, s))))
  {
    hide Find, Sorted, InstancesOf, Ascending, ServerAt, BootstrapAt, IsClean, InRange, GotServers, Relinked, Has;
    var bs', sv' := Relinked(bs, [], true), Relinked(sv, [], false);
    RelinkedRecord(bs, true, 0);
    RelinkedRecord(sv, false, 0);
    forall id: nat
      ensures Has(bs', id) <==> IsClean(bs, id)
      ensures Has(sv', id) <==> IsClean(sv, id)
      ensures IsClean(bs, id) ==>
                Find(bs, id).Some? && Find(bs', id) == Some(Find(bs, id).value.(status := Deregistered))
      ensures IsClean(sv, id) ==> Find(sv', id) == Find(sv, id)
    {
      CleanFound(bs, id);
      RelinkedRecord(bs, true, id);
      RelinkedRecord(sv, false, id);
    }
    ReadExact(objects, bs', sv');
  }

  lemma CleanFound(list: Servers, id: nat)
    ensures IsClean(list, id) ==> Find(list, id).Some?
  {}
}
