/** The server lists read from the Security and Server objects: `object_getServers`
    (src/lwm2m/core/objects.c) and `prv_refreshServerList` (src/lwm2m/core/liblwm2m.c). */
module ServerLists {
  import opened Text
  import opened IdLists
  import opened Context
  import opened Objects

  // ---------------------------------------------------------------- one Security instance

  /** The first Server instance with the short id. */
  function FindAccount(list: Instances, shortId: int): Option<nat> {
    if list == [] then None
    else if !list[0].body.Account? then None
    else if list[0].body.shortId == shortId then Some(list[0].id)
    else FindAccount(list[1..], shortId)
  }

  /** `utils_stringToBinding` knows the binding. */
  predicate KnownBinding(text: string) {
    text in {"U", "UQ", "US", "UQS", "S", "SQ"}
  }

  /** `prv_getMandatoryInfo`: the lifetime of an account. */
  function MandatoryInfo(list: Instances, id: nat): Option<int> {
    var found: Option<Instance> := Find(list, id);
    match found
    case Some(Account(_, lifetime, _, _, _, _, binding)) =>
      if 0 <= lifetime <= UINT32_MAX && KnownBinding(CString(binding)) then Some(lifetime) else None
    case _ => None
  }

  /** What a Security instance contributes: a server for one of the lists, nothing, an
      error, or a walk along the instances of a missing Server object. */
  datatype Contribution = NewBootstrap(server: Server) | NewServer(server: Server) | Nobody | Invalid | NoServerObject

  function Contributed(objects: ObjectList, id: nat): (r: Contribution)
    ensures r.NewBootstrap? || r.NewServer? ==> !r.server.dirty && r.server.status == Deregistered
  {
    var found: Option<Instance> := Find(InstancesOf(objects, SECURITY_OBJECT), id);
    match found
    case Some(Security(isBootstrap, _, shortId, holdOff, _)) =>
      if shortId < (if isBootstrap then 0 else 1) || shortId > 0xFFFF then Invalid
      else if isBootstrap then
        if holdOff < 0 || holdOff > UINT32_MAX then Invalid
        else NewBootstrap(Server(shortId, holdOff, 0, Deregistered, None, false))
      else if !Has(objects, SERVER_OBJECT) then NoServerObject
      else
        var accounts := InstancesOf(objects, SERVER_OBJECT);
        (match FindAccount(accounts, shortId)
         case None => Nobody
         case Some(account) =>
           match MandatoryInfo(accounts, account)
           case None => Invalid
           case Some(lifetime) => NewServer(Server(shortId, lifetime, 0, Deregistered, None, false)))
    case _ => Invalid
  }

  // ---------------------------------------------------------------- the scan

  /** The return value: 0, -1, or none because the C code crashes. */
  datatype Check = Good | Bad | Fault

  datatype Lists = Lists(bootstrapServers: Servers, servers: Servers, check: Check)

  predicate Known(bs: Servers, sv: Servers, id: nat) {
    Has(bs, id) || Has(sv, id)
  }

  /** The loop over the Security instances that no list knows yet. */
  function Scan(objects: ObjectList, list: Instances, bs: Servers, sv: Servers, checkOnly: bool): Lists
    decreases |list|
  {
    if list == [] then Lists(bs, sv, Good)
    else
      var id := list[0].id;
      if Known(bs, sv, id) then Scan(objects, list[1..], bs, sv, checkOnly)
      else
        match Contributed(objects, id)
        case NewBootstrap(s) => Scan(objects, list[1..], if checkOnly then bs else Add(bs, id, s), sv, checkOnly)
        case NewServer(s) => Scan(objects, list[1..], bs, if checkOnly then sv else Add(sv, id, s), checkOnly)
        case Nobody => Scan(objects, list[1..], bs, sv, checkOnly)
        case Invalid => Lists(bs, sv, Bad)
        case NoServerObject => Lists(bs, sv, Fault)
  }

  /** `object_getServers`. */
  function GotServers(objects: ObjectList, bs: Servers, sv: Servers, checkOnly: bool): Lists {
    if !Has(objects, SECURITY_OBJECT) then Lists(bs, sv, Bad)
    else Scan(objects, InstancesOf(objects, SECURITY_OBJECT), bs, sv, checkOnly)
  }

  method FindServerInstance(list: Instances, shortId: int) returns (r: Option<nat>)
    ensures r == FindAccount(list, shortId)
  {
    var i := 0;
    assert list[0..] == list;
    while i < |list|
      invariant 0 <= i <= |list| && FindAccount(list, shortId) == FindAccount(list[i..], shortId)
    {
      assert list[i..][1..] == list[i + 1..];
      if !list[i].body.Account? { return None; }
      if list[i].body.shortId == shortId { return Some(list[i].id); }
      i := i + 1;
    }
    return None;
  }

  method ReadSecurity(objects: ObjectList, id: nat) returns (r: Contribution)
    ensures r == Contributed(objects, id)
  {
    hide FindAccount, MandatoryInfo, Find, Has, InstancesOf;
    var found: Option<Instance> := Find(InstancesOf(objects, SECURITY_OBJECT), id);
    match found {
      case Some(Security(isBootstrap, _, shortId, holdOff, _)) =>
        if shortId < (if isBootstrap then 0 else 1) || shortId > 0xFFFF { return Invalid; }
        if isBootstrap {
          if holdOff < 0 || holdOff > UINT32_MAX { return Invalid; }
          return NewBootstrap(Server(shortId, holdOff, 0, Deregistered, None, false));
        }
        if !Has(objects, SERVER_OBJECT) { return NoServerObject; }
        var accounts := InstancesOf(objects, SERVER_OBJECT);
        var account := FindServerInstance(accounts, shortId);
        if account.None? { return Nobody; }
        var lifetime := MandatoryInfo(accounts, account.value);
        if lifetime.None? { return Invalid; }
        return NewServer(Server(shortId, lifetime.value, 0, Deregistered, None, false));
      case _ => return Invalid;
    }
  }

  method GetServers(c: Context, checkOnly: bool) returns (r: Check)
    modifies c`bootstrapServers, c`servers
    ensures Lists(c.bootstrapServers, c.servers, r)
            == GotServers(c.objects, old(c.bootstrapServers), old(c.servers), checkOnly)
  {
    hide Contributed, Known, Add, Has, InstancesOf;
    if !Has(c.objects, SECURITY_OBJECT) { return Bad; }
    var list := InstancesOf(c.objects, SECURITY_OBJECT);
    ghost var total := Scan(c.objects, list, c.bootstrapServers, c.servers, checkOnly);
    while list != []
      invariant Scan(c.objects, list, c.bootstrapServers, c.servers, checkOnly) == total
      decreases |list|
    {
      var id := list[0].id;
      if !Known(c.bootstrapServers, c.servers, id) {
        var contribution := ReadSecurity(c.objects, id);
        match contribution {
          case NewBootstrap(s) =>
            if !checkOnly { c.bootstrapServers := Add(c.bootstrapServers, id, s); }
          case NewServer(s) =>
            if !checkOnly { c.servers := Add(c.servers, id, s); }
          case Nobody =>
          case Invalid => return Bad;
          case NoServerObject => return Fault;
        }
      }
      list := list[1..];
    }
    return Good;
  }

  // ---------------------------------------------------------------- dry run and real run

  /** `bs'` and `sv'` know what `bs` and `sv` know, and beyond that only instances that
      contribute a server. */
  ghost predicate Ahead(objects: ObjectList, bs: Servers, sv: Servers, bs': Servers, sv': Servers) {
    && Ascending(bs') && Ascending(sv')
    && forall id :: Known(bs, sv, id) != Known(bs', sv', id) ==>
                      && Known(bs', sv', id)
                      && (Contributed(objects, id).NewBootstrap? || Contributed(objects, id).NewServer?)
  }

  lemma AheadAdd(objects: ObjectList, bs: Servers, sv: Servers, bs': Servers, sv': Servers, id: nat, s: Server)
    requires Ahead(objects, bs, sv, bs', sv') && !Known(bs', sv', id)
    requires Contributed(objects, id).NewBootstrap? || Contributed(objects, id).NewServer?
    ensures Ahead(objects, bs, sv, Add(bs', id, s), sv') && Ahead(objects, bs, sv, bs', Add(sv', id, s))
  {
    hide Contributed, Known, Add;
    AddKnown(bs', sv', id, s);
  }

  lemma {:induction false} ScanAhead(objects: ObjectList, list: Instances, bs: Servers, sv: Servers, bs': Servers,
                                    sv': Servers)
    requires Ahead(objects, bs, sv, bs', sv')
    ensures Scan(objects, list, bs, sv, true) ==
            Lists(bs, sv, Scan(objects, list, bs', sv', false).check)
    decreases |list|
  {
    hide Contributed, Known, Add;
    if list != [] {
      var id := list[0].id;
      if Known(bs', sv', id) {
        ScanAhead(objects, list[1..], bs, sv, bs', sv');
      } else {
        match Contributed(objects, id) {
          case NewBootstrap(s) =>
            AheadAdd(objects, bs, sv, bs', sv', id, s);
            ScanAhead(objects, list[1..], bs, sv, Add(bs', id, s), sv');
          case NewServer(s) =>
            AheadAdd(objects, bs, sv, bs', sv', id, s);
            ScanAhead(objects, list[1..], bs, sv, bs', Add(sv', id, s));
          case Nobody => ScanAhead(objects, list[1..], bs, sv, bs', sv');
          case _ =>
        }
      }
    }
  }

  /** A Security instance from which a server can be read, or which asks for none. */
  predicate Readable(objects: ObjectList, id: nat) {
    !Contributed(objects, id).Invalid? && !Contributed(objects, id).NoServerObject?
  }

  /** The scan returns 0 if and only if every Security instance that neither list knows is
      readable. */
  lemma {:induction false} ScanGoodExact(objects: ObjectList, list: Instances, bs: Servers, sv: Servers)
    requires Ascending(bs) && Ascending(sv)
    ensures Scan(objects, list, bs, sv, false).check.Good? <==>
            forall k :: 0 <= k < |list| && !Known(bs, sv, list[k].id) ==> Readable(objects, list[k].id)
    decreases |list|
  {
    hide Contributed, Known, Add;
    if list != [] {
      var id, tail := list[0].id, list[1..];
      assert forall k :: 0 <= k < |tail| ==> tail[k] == list[k + 1];
      if Known(bs, sv, id) {
        ScanGoodExact(objects, tail, bs, sv);
      } else {
        match Contributed(objects, id) {
          case NewBootstrap(s) =>
            AddKnown(bs, sv, id, s);
            ScanGoodExact(objects, tail, Add(bs, id, s), sv);
          case NewServer(s) =>
            AddKnown(bs, sv, id, s);
            ScanGoodExact(objects, tail, bs, Add(sv, id, s));
          case Nobody => ScanGoodExact(objects, tail, bs, sv);
          case _ =>
        }
      }
    }
  }

  lemma AddKnown(bs: Servers, sv: Servers, id: nat, s: Server)
    requires Ascending(bs) && Ascending(sv) && !Known(bs, sv, id)
    ensures Ascending(Add(bs, id, s)) && Ascending(Add(sv, id, s))
    ensures forall x :: Known(Add(bs, id, s), sv, x) == (x == id || Known(bs, sv, x))
    ensures forall x :: Known(bs, Add(sv, id, s), x) == (x == id || Known(bs, sv, x))
  {
    hide Find, Add;
    AddAscending(bs, id, s);
    AddAscending(sv, id, s);
    forall x
      ensures Known(Add(bs, id, s), sv, x) == (x == id || Known(bs, sv, x))
      ensures Known(bs, Add(sv, id, s), x) == (x == id || Known(bs, sv, x))
    {
      AddFind(bs, id, s, x);
      AddFind(sv, id, s, x);
    }
  }

  lemma {:induction false} ScanKeeps(objects: ObjectList, list: Instances, bs: Servers, sv: Servers)
    ensures var r := Scan(objects, list, bs, sv, true); r.bootstrapServers == bs && r.servers == sv
    decreases |list|
  {
    hide Contributed, Known, Add;
    if list != [] { ScanKeeps(objects, list[1..], bs, sv); }
  }

  lemma DryRunKeeps(objects: ObjectList, bs: Servers, sv: Servers)
    ensures var r := GotServers(objects, bs, sv, true); r.bootstrapServers == bs && r.servers == sv
  {
    hide Scan;
    ScanKeeps(objects, InstancesOf(objects, SECURITY_OBJECT), bs, sv);
  }

  /** The dry run of `bootstrap_handleFinish` changes neither list and returns what the
      real run would return from the same state. */
  lemma DryRunEqualsRealRun(objects: ObjectList, bs: Servers, sv: Servers)
    requires Ascending(bs) && Ascending(sv)
    ensures GotServers(objects, bs, sv, true) == Lists(bs, sv, GotServers(objects, bs, sv, false).check)
  {
    hide Scan;
    ScanAhead(objects, InstancesOf(objects, SECURITY_OBJECT), bs, sv, bs, sv);
  }

  // ---------------------------------------------------------------- refreshing

  function Restarted(s: Server, restart: bool): Server {
    if restart then s.(status := Deregistered) else s
  }

  /** The servers not marked dirty, linked one by one into a list that starts empty. */
  function Relinked(list: Servers, kept: Servers, restart: bool): Servers
    decreases |list|
  {
    if list == [] then kept
    else if list[0].body.dirty then Relinked(list[1..], kept, restart)
    else Relinked(list[1..], Add(kept, list[0].id, Restarted(list[0].body, restart)), restart)
  }

  /** `prv_refreshServerList`. */
  function Refreshed(objects: ObjectList, bs: Servers, sv: Servers): Lists {
    GotServers(objects, Relinked(bs, [], true), Relinked(sv, [], false), false)
  }

  method Relink(list: Servers, restart: bool) returns (kept: Servers)
    ensures kept == Relinked(list, [], restart)
  {
    hide Add;
    kept := [];
    var rest := list;
    while rest != []
      invariant Relinked(rest, kept, restart) == Relinked(list, [], restart)
      decreases |rest|
    {
      var target := rest[0];
      if !target.body.dirty { kept := Add(kept, target.id, Restarted(target.body, restart)); }
      rest := rest[1..];
    }
  }

  method Refresh(c: Context) returns (r: Check)
    modifies c`bootstrapServers, c`servers
    ensures Lists(c.bootstrapServers, c.servers, r)
            == Refreshed(c.objects, old(c.bootstrapServers), old(c.servers))
  {
    hide GotServers, Relinked;
    c.bootstrapServers := Relink(c.bootstrapServers, true);
    c.servers := Relink(c.servers, false);
    r := GetServers(c, false);
  }

  // ---------------------------------------------------------------- cache agreement

  /** Whether the Security instance is flagged bootstrap, if there is one. */
  function FlagOf(objects: ObjectList, id: nat): Option<bool> {
    var found: Option<Instance> := Find(InstancesOf(objects, SECURITY_OBJECT), id);
    match found
    case Some(Security(isBootstrap, _, _, _, _)) => Some(isBootstrap)
    case _ => None
  }

  predicate IsClean(list: Servers, id: nat) {
    Has(list, id) && !Find(list, id).value.dirty
  }

  /** Every server not marked dirty has a Security instance flagged like its list. */
  ghost predicate Agree(objects: ObjectList, bs: Servers, sv: Servers) {
    forall id ::
      && (IsClean(bs, id) ==> FlagOf(objects, id) == Some(true))
      && (IsClean(sv, id) ==> FlagOf(objects, id) == Some(false))
  }

  /** Both lists are strictly sorted and share no id. */
  ghost predicate Separate(bs: Servers, sv: Servers) {
    && Ascending(bs) && Ascending(sv)
    && forall id :: !(Has(bs, id) && Has(sv, id))
  }

  ghost predicate AllClean(list: Servers) {
    forall id :: Has(list, id) ==> IsClean(list, id)
  }

  lemma {:induction false} RelinkedFind(list: Servers, kept: Servers, restart: bool, x: nat)
    requires Ascending(list) && Ascending(kept)
    requires forall i :: 0 <= i < |list| ==> !Has(kept, list[i].id)
    ensures var r := Relinked(list, kept, restart);
            && Ascending(r)
            && Find(r, x) == if IsClean(list, x) then Some(Restarted(Find(list, x).value, restart)) else Find(kept, x)
    decreases |list|
  {
    hide Add, Restarted;
    if list != [] {
      var id, s, tail := list[0].id, list[0].body, list[1..];
      TailFind(list, x);
      if s.dirty {
        RelinkedFind(tail, kept, restart, x);
      } else {
        var kept' := Add(kept, id, Restarted(s, restart));
        AddAscending(kept, id, Restarted(s, restart));
        forall i | 0 <= i < |tail|
          ensures !Has(kept', tail[i].id)
        {
          AddFind(kept, id, Restarted(s, restart), tail[i].id);
          assert tail[i] == list[i + 1];
        }
        RelinkedFind(tail, kept', restart, x);
        AddFind(kept, id, Restarted(s, restart), x);
      }
    }
  }

  /** What the scan keeps, and what it has found when it succeeds. */
  lemma {:induction false} ScanAgrees(objects: ObjectList, list: Instances, bs: Servers, sv: Servers)
    requires Separate(bs, sv) && Agree(objects, bs, sv) && AllClean(bs) && AllClean(sv)
    ensures var r := Scan(objects, list, bs, sv, false);
            && Separate(r.bootstrapServers, r.servers)
            && Agree(objects, r.bootstrapServers, r.servers)
            && AllClean(r.bootstrapServers) && AllClean(r.servers)
            && (forall id :: Has(bs, id) ==> Has(r.bootstrapServers, id))
            && (r.check.Good? ==>
                  forall k :: 0 <= k < |list| && FlagOf(objects, list[k].id) == Some(true) ==>
                                Has(r.bootstrapServers, list[k].id))
    decreases |list|
  {
    hide Contributed, Known, Add, Agree, AllClean, Separate, FlagOf, Find, Has;
    if list != [] {
      var id := list[0].id;
      ContributedFlag(objects, id);
      if Known(bs, sv, id) {
        KnownFlag(objects, bs, sv, id);
        ScanAgrees(objects, list[1..], bs, sv);
      } else {
        match Contributed(objects, id) {
          case NewBootstrap(s) =>
            AddAgrees(objects, bs, sv, id, s);
            ScanAgrees(objects, list[1..], Add(bs, id, s), sv);
          case NewServer(s) =>
            AddAgrees(objects, bs, sv, id, s);
            ScanAgrees(objects, list[1..], bs, Add(sv, id, s));
          case Nobody => ScanAgrees(objects, list[1..], bs, sv);
          case _ =>
        }
      }
    }
  }

  lemma ContributedFlag(objects: ObjectList, id: nat)
    ensures Contributed(objects, id).NewBootstrap? ==> FlagOf(objects, id) == Some(true)
    ensures Contributed(objects, id).NewServer? || Contributed(objects, id).Nobody? ==>
            FlagOf(objects, id) == Some(false)
  {
    hide FindAccount, MandatoryInfo, Find;
  }

  lemma KnownFlag(objects: ObjectList, bs: Servers, sv: Servers, id: nat)
    requires Agree(objects, bs, sv) && AllClean(bs) && AllClean(sv) && Known(bs, sv, id)
    ensures FlagOf(objects, id) == Some(true) ==> Has(bs, id)
  {
    hide FlagOf;
  }

  lemma AddAgrees(objects: ObjectList, bs: Servers, sv: Servers, id: nat, s: Server)
    requires Separate(bs, sv) && Agree(objects, bs, sv) && AllClean(bs) && AllClean(sv)
    requires !Known(bs, sv, id) && !s.dirty
    ensures FlagOf(objects, id) == Some(true) ==>
              && Separate(Add(bs, id, s), sv) && Agree(objects, Add(bs, id, s), sv) && AllClean(Add(bs, id, s))
              && Has(Add(bs, id, s), id) && forall x :: Has(bs, x) ==> Has(Add(bs, id, s), x)
    ensures FlagOf(objects, id) == Some(false) ==>
              && Separate(bs, Add(sv, id, s)) && Agree(objects, bs, Add(sv, id, s)) && AllClean(Add(sv, id, s))
  {
    hide FlagOf, Add, Find;
    AddAscending(bs, id, s);
    AddAscending(sv, id, s);
    forall x
      ensures Find(Add(bs, id, s), x) == if x == id then Some(s) else Find(bs, x)
      ensures Find(Add(sv, id, s), x) == if x == id then Some(s) else Find(sv, x)
    {
      AddFind(bs, id, s, x);
      AddFind(sv, id, s, x);
    }
  }

  lemma AddKeepsAgree(objects: ObjectList, bs: Servers, sv: Servers, id: nat, s: Server)
    requires Separate(bs, sv) && Agree(objects, bs, sv) && !Known(bs, sv, id)
    ensures FlagOf(objects, id) == Some(true) ==>
              Separate(Add(bs, id, s), sv) && Agree(objects, Add(bs, id, s), sv)
    ensures FlagOf(objects, id) == Some(false) ==>
              Separate(bs, Add(sv, id, s)) && Agree(objects, bs, Add(sv, id, s))
  {
    hide FlagOf, Add, Find;
    AddAscending(bs, id, s);
    AddAscending(sv, id, s);
    forall x
      ensures Find(Add(bs, id, s), x) == if x == id then Some(s) else Find(bs, x)
      ensures Find(Add(sv, id, s), x) == if x == id then Some(s) else Find(sv, x)
    {
      AddFind(bs, id, s, x);
      AddFind(sv, id, s, x);
    }
  }

  /** A scan keeps agreement also over lists that hold servers marked dirty. */
  lemma {:induction false} ScanKeepsAgree(objects: ObjectList, list: Instances, bs: Servers, sv: Servers)
    requires Separate(bs, sv) && Agree(objects, bs, sv)
    ensures var r := Scan(objects, list, bs, sv, false);
            Separate(r.bootstrapServers, r.servers) && Agree(objects, r.bootstrapServers, r.servers)
    decreases |list|
  {
    hide Contributed, Known, Add, Agree, Separate, FlagOf, Find, Has;
    if list != [] {
      var id := list[0].id;
      ContributedFlag(objects, id);
      if Known(bs, sv, id) {
        ScanKeepsAgree(objects, list[1..], bs, sv);
      } else {
        match Contributed(objects, id) {
          case NewBootstrap(s) =>
            AddKeepsAgree(objects, bs, sv, id, s);
            ScanKeepsAgree(objects, list[1..], Add(bs, id, s), sv);
          case NewServer(s) =>
            AddKeepsAgree(objects, bs, sv, id, s);
            ScanKeepsAgree(objects, list[1..], bs, Add(sv, id, s));
          case Nobody => ScanKeepsAgree(objects, list[1..], bs, sv);
          case _ =>
        }
      }
    }
  }

  /** Refreshing restores the cache: it keeps agreement, clears every dirty mark, and
      when it returns 0 the bootstrap servers are exactly the Security instances flagged
      bootstrap. */
  lemma RefreshExact(objects: ObjectList, bs: Servers, sv: Servers)
    requires Sorted(objects) && Separate(bs, sv) && Agree(objects, bs, sv)
    ensures var r := Refreshed(objects, bs, sv);
            && Separate(r.bootstrapServers, r.servers)
            && Agree(objects, r.bootstrapServers, r.servers)
            && AllClean(r.bootstrapServers) && AllClean(r.servers)
            && (r.check.Good? ==>
                  forall id :: Has(r.bootstrapServers, id) <==> FlagOf(objects, id) == Some(true))
  {
    var bs', sv' := Relinked(bs, [], true), Relinked(sv, [], false);
    RelinkedAgrees(objects, bs, sv);
    var list := InstancesOf(objects, SECURITY_OBJECT);
    ScanAgrees(objects, list, bs', sv');
    var r := Refreshed(objects, bs, sv);
    if r.check.Good? {
      forall id
        ensures Has(r.bootstrapServers, id) <==> FlagOf(objects, id) == Some(true)
      {
        FlaggedAgrees(objects, r.bootstrapServers, r.servers, id);
        if FlagOf(objects, id) == Some(true) {
          var k := FlaggedListed(objects, id);
        }
      }
    }
  }

  lemma FlaggedAgrees(objects: ObjectList, bs: Servers, sv: Servers, id: nat)
    requires Agree(objects, bs, sv) && AllClean(bs)
    ensures Has(bs, id) ==> FlagOf(objects, id) == Some(true)
  {
    hide FlagOf;
  }

  lemma FlaggedListed(objects: ObjectList, id: nat) returns (k: nat)
    requires Sorted(objects) && FlagOf(objects, id).Some?
    ensures k < |InstancesOf(objects, SECURITY_OBJECT)| && InstancesOf(objects, SECURITY_OBJECT)[k].id == id
  {
    k := Position(InstancesOf(objects, SECURITY_OBJECT), id);
  }

  lemma RelinkedAgrees(objects: ObjectList, bs: Servers, sv: Servers)
    requires Separate(bs, sv) && Agree(objects, bs, sv)
    ensures var bs', sv' := Relinked(bs, [], true), Relinked(sv, [], false);
            Separate(bs', sv') && Agree(objects, bs', sv') && AllClean(bs') && AllClean(sv')
  {
    hide FlagOf, Relinked, Restarted;
    var bs', sv' := Relinked(bs, [], true), Relinked(sv, [], false);
    RelinkedFind(bs, [], true, 0);
    RelinkedFind(sv, [], false, 0);
    forall x
      ensures IsClean(bs', x) == IsClean(bs, x) && Has(bs', x) == IsClean(bs, x)
      ensures IsClean(sv', x) == IsClean(sv, x) && Has(sv', x) == IsClean(sv, x)
    {
      RelinkedFind(bs, [], true, x);
      RelinkedFind(sv, [], false, x);
      if IsClean(bs, x) { RestartedClean(Find(bs, x).value, true); }
      if IsClean(sv, x) { RestartedClean(Find(sv, x).value, false); }
    }
  }

  lemma RestartedClean(s: Server, restart: bool)
    ensures Restarted(s, restart).dirty == s.dirty
  {}

  /** A refresh returns 0 if and only if every Security instance without a clean server is
      readable: servers marked dirty are dropped first, so their instances are read again. */
  lemma RefreshGoodExact(objects: ObjectList, bs: Servers, sv: Servers)
    requires Ascending(bs) && Ascending(sv)
    ensures Refreshed(objects, bs, sv).check.Good? <==>
            && Has(objects, SECURITY_OBJECT)
            && forall k :: 0 <= k < |InstancesOf(objects, SECURITY_OBJECT)| ==>
                 var id := InstancesOf(objects, SECURITY_OBJECT)[k].id;
                 IsClean(bs, id) || IsClean(sv, id) || Readable(objects, id)
  {
    hide Relinked, Contributed, InstancesOf, Find;
    var bs', sv' := Relinked(bs, [], true), Relinked(sv, [], false);
    var list := InstancesOf(objects, SECURITY_OBJECT);
    RelinkedKnown(bs, true);
    RelinkedKnown(sv, false);
    ScanGoodExact(objects, list, bs', sv');
  }

  lemma RelinkedKnown(list: Servers, restart: bool)
    requires Ascending(list)
    ensures Ascending(Relinked(list, [], restart))
    ensures forall x :: Has(Relinked(list, [], restart), x) <==> IsClean(list, x)
  {
    hide Relinked, Find;
    var none: Servers := [];
    NothingFound();
    RelinkedFind(list, none, restart, 0);
    forall x
      ensures Has(Relinked(list, [], restart), x) <==> IsClean(list, x)
    {
      RelinkedFind(list, none, restart, x);
    }
  }

  lemma NothingFound()
    ensures var none: Servers := []; forall x :: Find(none, x) == None && !Has(none, x)
  {}
}
