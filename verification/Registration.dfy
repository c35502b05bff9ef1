/** The registration payload (src/lwm2m/core/objects.c): one pass computes its size, a
    second pass writes it.  The payload is a list of links in the CoRE link format,
    section 2 of RFC 6690. */
module Registration {
  import opened Text
  import opened IdLists
  import opened Context

  const REG_START := "<"
  const REG_DEFAULT_PATH := "/"
  const REG_LWM2M_RESOURCE_TYPE := ">;rt=\"oma.lwm2m\";ct=11543,"
  const REG_PATH_END := ">,"
  const REG_OBJECT_MIN_LEN := 5

  // ---------------------------------------------------------------- the links

  function RootLink(altPath: Option<string>): string {
    "<" + (if altPath.Some? && altPath.value != "" then altPath.value else "/") + ">;rt=\"oma.lwm2m\";ct=11543"
  }

  function ObjectLink(objectId: nat): string {
    "</" + Decimal(objectId) + ">"
  }

  function InstanceLink(objectId: nat, id: nat): string {
    "</" + Decimal(objectId) + "/" + Decimal(id) + ">"
  }

  function InstanceLinks(objectId: nat, list: Instances): seq<string> {
    if list == [] then [] else [InstanceLink(objectId, list[0].id)] + InstanceLinks(objectId, list[1..])
  }

  /** One link for each instance, or one for an object without instances; none for the
      Security object. */
  function ObjectLinks(o: Entry<Obj>): seq<string> {
    if o.id == SECURITY_OBJECT then []
    else if o.body.instances == [] then [ObjectLink(o.id)]
    else InstanceLinks(o.id, o.body.instances)
  }

  function AllLinks(objects: ObjectList): seq<string> {
    if objects == [] then [] else ObjectLinks(objects[0]) + AllLinks(objects[1..])
  }

  /** Links separated by commas. */
  function Join(links: seq<string>): string
    requires links != []
  {
    links[0] + if |links| == 1 then "" else "," + Join(links[1..])
  }

  /** The payload a client registers with. */
  function Payload(altPath: Option<string>, objects: ObjectList): string {
    Join([RootLink(altPath)] + AllLinks(objects))
  }

  /** Each link with a comma behind it, as the code writes them. */
  function Closed(links: seq<string>): string {
    if links == [] then "" else links[0] + "," + Closed(links[1..])
  }

  lemma {:induction false} ClosedJoin(links: seq<string>)
    requires links != []
    ensures Closed(links) == Join(links) + ","
  {
    if |links| == 1 {
      assert links[1..] == [];
      assert Closed(links) == links[0] + "," + "";
    } else {
      ClosedJoin(links[1..]);
      Regroup(links[0] + ",", Join(links[1..]), ",");
      Regroup(links[0], ",", Join(links[1..]));
    }
  }

  lemma {:induction false} ClosedAppend(a: seq<string>, b: seq<string>)
    ensures Closed(a + b) == Closed(a) + Closed(b)
  {
    if a == [] {
      assert a + b == b;
    } else {
      ClosedAppend(a[1..], b);
      assert (a + b)[1..] == a[1..] + b;
      Regroup(a[0] + ",", Closed(a[1..]), Closed(b));
    }
  }

  /** The links of the first instances of an object. */
  lemma {:induction false} InstanceLinksNext(objectId: nat, list: Instances, k: nat)
    requires k < |list|
    ensures InstanceLinks(objectId, list[..k + 1]) ==
            InstanceLinks(objectId, list[..k]) + [InstanceLink(objectId, list[k].id)]
  {
    hide InstanceLink;
    if k > 0 {
      assert list[..k + 1][1..] == list[1..][..k];
      assert list[..k][1..] == list[1..][..k - 1];
      InstanceLinksNext(objectId, list[1..], k - 1);
    } else {
      assert list[..1][1..] == [] && list[..0] == [];
    }
  }

  lemma {:induction false} AllLinksNext(objects: ObjectList, k: nat)
    requires k < |objects|
    ensures AllLinks(objects[..k + 1]) == AllLinks(objects[..k]) + ObjectLinks(objects[k])
  {
    hide ObjectLinks;
    if k > 0 {
      assert objects[..k + 1][1..] == objects[1..][..k];
      assert objects[..k][1..] == objects[1..][..k - 1];
      AllLinksNext(objects[1..], k - 1);
      assert ObjectLinks(objects[0]) + (AllLinks(objects[1..][..k - 1]) + ObjectLinks(objects[k]))
          == (ObjectLinks(objects[0]) + AllLinks(objects[1..][..k - 1])) + ObjectLinks(objects[k]);
    } else {
      assert objects[..1][1..] == [] && objects[..0] == [];
    }
  }

  // ---------------------------------------------------------------- what is announced

  /** An object without instances, or an instance. */
  datatype Link = Link(objectId: nat, instance: Option<nat>)

  function LinkText(l: Link): string {
    match l.instance
    case None => "</" + Decimal(l.objectId) + ">"
    case Some(id) => "</" + Decimal(l.objectId) + "/" + Decimal(id) + ">"
  }

  function LinkTexts(links: seq<Link>): (r: seq<string>)
    ensures |r| == |links| && forall i :: 0 <= i < |links| ==> r[i] == LinkText(links[i])
  {
    seq(|links|, i requires 0 <= i < |links| => LinkText(links[i]))
  }

  predicate Before(a: Link, b: Link) {
    || a.objectId < b.objectId
    || (a.objectId == b.objectId && a.instance.Some? && b.instance.Some? && a.instance.value < b.instance.value)
  }

  /** The links are in strict order. */
  ghost predicate InOrder(links: seq<Link>) {
    forall i, j :: 0 <= i < j < |links| ==> Before(links[i], links[j])
  }

  /** In ascending order, so once each: every instance of every object but the Security
      object, and every such object that has none. */
  ghost predicate Announces(objects: ObjectList, links: seq<Link>) {
    && InOrder(links)
    && (forall x :: Link(x, None) in links <==>
                      x != SECURITY_OBJECT && Has(objects, x) && Find(objects, x).value.instances == [])
    && (forall x, id :: Link(x, Some(id)) in links <==>
                          x != SECURITY_OBJECT && Has(objects, x) && Has(Find(objects, x).value.instances, id))
  }

  lemma OrderAppend(a: seq<Link>, b: seq<Link>)
    requires InOrder(a) && InOrder(b) && forall l, m :: l in a && m in b ==> Before(l, m)
    ensures InOrder(a + b)
  {
    hide Before;
    var all := a + b;
    forall i, j | 0 <= i < j < |all|
      ensures Before(all[i], all[j])
    {
      if i < |a| && j >= |a| { assert a[i] in a && b[j - |a|] in b; }
    }
  }

  lemma TextsAppend(a: seq<Link>, b: seq<Link>)
    ensures LinkTexts(a + b) == LinkTexts(a) + LinkTexts(b)
  {
    hide LinkText;
  }

  /** Exactly the instances of the object. */
  ghost predicate Covers(objectId: nat, list: Instances, links: seq<Link>) {
    forall l :: l in links <==> l.objectId == objectId && l.instance.Some? && Has(list, l.instance.value)
  }

  lemma CoversNext(objectId: nat, list: Instances, rest: seq<Link>)
    requires Ascending(list) && list != [] && Covers(objectId, list[1..], rest)
    ensures var first := Link(objectId, Some(list[0].id));
            Covers(objectId, list, [first] + rest) && forall l :: l in rest ==> Before(first, l)
  {
    hide Find;
    var first := Link(objectId, Some(list[0].id));
    forall l
      ensures l in [first] + rest <==> l.objectId == objectId && l.instance.Some? && Has(list, l.instance.value)
      ensures l in rest ==> Before(first, l)
    {
      assert l == Link(l.objectId, l.instance);
      if l.instance.Some? {
        TailFind(list, l.instance.value);
        Gap(list[1..], l.instance.value);
      }
    }
  }

  lemma CoversNothing(objectId: nat)
    ensures Covers(objectId, [], []) && InOrder([])
  {}

  lemma {:induction false} InstancesAnnounced(objectId: nat, list: Instances) returns (links: seq<Link>)
    requires Ascending(list)
    ensures LinkTexts(links) == InstanceLinks(objectId, list) && InOrder(links) && Covers(objectId, list, links)
    decreases |list|
  {
    hide Find, LinkText, InOrder, Covers, Before, InstanceLink;
    links := [];
    CoversNothing(objectId);
    if list != [] {
      var first := [Link(objectId, Some(list[0].id))];
      var rest := InstancesAnnounced(objectId, list[1..]);
      links := first + rest;
      CoversNext(objectId, list, rest);
      OneInOrder(first[0]);
      OrderAppend(first, rest);
      TextsAppend(first, rest);
      LinkOfInstance(objectId, list[0].id);
    }
  }

  lemma OneInOrder(l: Link)
    ensures InOrder([l])
  {}

  lemma LinkOfInstance(objectId: nat, id: nat)
    ensures LinkText(Link(objectId, Some(id))) == InstanceLink(objectId, id)
  {}

  lemma ObjectAnnounced(o: Entry<Obj>) returns (links: seq<Link>)
    requires Ascending(o.body.instances)
    ensures LinkTexts(links) == ObjectLinks(o) && InOrder(links)
    ensures forall l :: l in links <==>
              && l.objectId == o.id && o.id != SECURITY_OBJECT
              && (l.instance.None? ==> o.body.instances == [])
              && (l.instance.Some? ==> Has(o.body.instances, l.instance.value))
  {
    hide Find, InstanceLinks;
    if o.id == SECURITY_OBJECT {
      links := [];
    } else if o.body.instances == [] {
      links := [Link(o.id, None)];
      forall id
        ensures !Has(o.body.instances, id)
      {
        Gap(o.body.instances, id);
      }
      forall l
        ensures l in links <==> l.objectId == o.id && l.instance.None?
      {
        assert l == Link(l.objectId, l.instance);
      }
    } else {
      links := InstancesAnnounced(o.id, o.body.instances);
    }
  }

  lemma {:induction false} ObjectsAnnounced(objects: ObjectList) returns (links: seq<Link>)
    requires Ascending(objects) && forall i :: 0 <= i < |objects| ==> Ascending(objects[i].body.instances)
    ensures LinkTexts(links) == AllLinks(objects) && Announces(objects, links)
    ensures forall l :: l in links ==> Has(objects, l.objectId)
    decreases |objects|
  {
    hide Find, LinkText, ObjectLinks, Ascending;
    if objects == [] {
      links := [];
      forall x
        ensures !Has(objects, x)
      {
        NothingThere(x);
      }
    } else {
      TailFind(objects, 0);
      var front := ObjectAnnounced(objects[0]);
      var rest := ObjectsAnnounced(objects[1..]);
      links := front + rest;
      TextsAppend(front, rest);
      forall x
        ensures Find(objects, x) == if x == objects[0].id then Some(objects[0].body) else Find(objects[1..], x)
        ensures Has(objects[1..], x) ==> objects[0].id < x
      {
        TailFind(objects, x);
        BehindFirst(objects, x);
      }
      OrderAppend(front, rest);
    }
  }

  lemma NothingThere(x: nat)
    ensures var none: ObjectList := []; !Has(none, x)
  {}

  lemma BehindFirst(objects: ObjectList, x: nat)
    requires Ascending(objects) && objects != []
    ensures Has(objects[1..], x) ==> objects[0].id < x
  {
    TailFind(objects, x);
    Gap(objects[1..], x);
  }

  /** What the payload lists: the root link, and behind it in order one link for every
      instance and for every object without instances, none of them of the Security
      object. */
  lemma PayloadLists(altPath: Option<string>, objects: ObjectList) returns (links: seq<Link>)
    requires Ascending(objects) && forall i :: 0 <= i < |objects| ==> Ascending(objects[i].body.instances)
    ensures Announces(objects, links)
    ensures var path := if altPath.Some? && altPath.value != "" then altPath.value else "/";
            Payload(altPath, objects) == Join(["<" + path + ">;rt=\"oma.lwm2m\";ct=11543"] + LinkTexts(links))
  {
    links := ObjectsAnnounced(objects);
  }

  // ---------------------------------------------------------------- what is written

  /** The text of the first `k` objects behind the root link. */
  function Upto(altPath: Option<string>, objects: ObjectList, k: nat): string
    requires k <= |objects|
  {
    RootLink(altPath) + "," + Closed(AllLinks(objects[..k]))
  }

  lemma UptoNext(altPath: Option<string>, objects: ObjectList, k: nat)
    requires k < |objects|
    ensures Upto(altPath, objects, k + 1) == Upto(altPath, objects, k) + Closed(ObjectLinks(objects[k]))
  {
    hide ObjectLinks, AllLinks, RootLink;
    AllLinksNext(objects, k);
    ClosedAppend(AllLinks(objects[..k]), ObjectLinks(objects[k]));
    Regroup(RootLink(altPath) + ",", Closed(AllLinks(objects[..k])), Closed(ObjectLinks(objects[k])));
  }

  lemma UptoAll(altPath: Option<string>, objects: ObjectList)
    ensures Upto(altPath, objects, |objects|) == Payload(altPath, objects) + ","
  {
    hide AllLinks, RootLink;
    assert objects[..|objects|] == objects;
    var links := [RootLink(altPath)] + AllLinks(objects);
    ClosedJoin(links);
    assert links[1..] == AllLinks(objects);
  }

  /** The text grows with every object. */
  lemma {:induction false} UptoGrows(altPath: Option<string>, objects: ObjectList, j: nat, k: nat)
    requires j <= k <= |objects|
    ensures |Upto(altPath, objects, j)| <= |Upto(altPath, objects, k)|
    decreases k - j
  {
    hide Upto;
    if j < k {
      UptoNext(altPath, objects, j);
      UptoGrows(altPath, objects, j + 1, k);
    }
  }

  function Template(objectId: nat): string {
    "</" + Decimal(objectId) + "/"
  }

  /** The closed links of the first `k` instances. */
  function InstancesUpto(objectId: nat, list: Instances, k: nat): string
    requires k <= |list|
  {
    Closed(InstanceLinks(objectId, list[..k]))
  }

  lemma InstancesUptoNext(objectId: nat, list: Instances, k: nat)
    requires k < |list|
    ensures InstancesUpto(objectId, list, k + 1) ==
            InstancesUpto(objectId, list, k) + (Template(objectId) + Decimal(list[k].id) + REG_PATH_END)
    ensures InstancesUpto(objectId, list, 0) == ""
  {
    hide Decimal;
    InstanceLinksNext(objectId, list, k);
    ClosedAppend(InstanceLinks(objectId, list[..k]), [InstanceLink(objectId, list[k].id)]);
    LinkParts(objectId, list[k].id);
    assert list[..0] == [];
  }

  lemma LinkParts(objectId: nat, id: nat)
    ensures Closed([InstanceLink(objectId, id)]) == Template(objectId) + Decimal(id) + REG_PATH_END
    ensures Closed([ObjectLink(objectId)]) + "" == "</" + Decimal(objectId) + REG_PATH_END
  {
    hide Decimal;
    assert [InstanceLink(objectId, id)][1..] == [] && [ObjectLink(objectId)][1..] == [];
    assert ">" + "," == REG_PATH_END;
  }

  lemma {:induction false} InstancesGrow(objectId: nat, list: Instances, j: nat, k: nat)
    requires j <= k <= |list|
    ensures |InstancesUpto(objectId, list, j)| <= |InstancesUpto(objectId, list, k)|
    ensures j < k ==> |InstancesUpto(objectId, list, j)| + |Template(objectId)| < |InstancesUpto(objectId, list, k)|
    decreases k - j
  {
    hide InstancesUpto, Template;
    if j < k {
      InstancesUptoNext(objectId, list, j);
      InstancesGrow(objectId, list, j + 1, k);
    }
  }

  // ---------------------------------------------------------------- writing

  predicate Ids16(objects: ObjectList) {
    forall i :: 0 <= i < |objects| ==>
      && objects[i].id < ID_COUNT
      && forall k :: 0 <= k < |objects[i].body.instances| ==> objects[i].body.instances[k].id < ID_COUNT
  }

  lemma DigitsFit(id: nat, length: nat)
    requires length > 0
    ensures Render(id, length) == if |Decimal(id)| <= length then Ok(Decimal(id)) else Refused
  {
    hide Decimal;
  }

  /** `utils_stringCopy` behind `index` bytes. */
  method PutString(t: string, buffer: array<char>, index: nat) returns (ok: bool)
    requires index <= buffer.Length
    modifies buffer
    ensures ok <==> index + |t| < buffer.Length
    ensures ok ==> buffer[..index + |t|] == old(buffer[..index]) + t
  {
    var r := StringCopy(buffer, index, buffer.Length - index, t);
    if r.None? { return false; }
    assert buffer[..index] == old(buffer[..index]);
    assert buffer[..index + |t|] == buffer[..index] + buffer[index..index + |t|];
    return true;
  }

  /** `utils_intToText` behind `index` bytes. */
  method PutDigits(id: nat, buffer: array<char>, index: nat) returns (ok: bool, count: nat)
    requires id < ID_COUNT && index < buffer.Length
    modifies buffer
    ensures ok <==> index + |Decimal(id)| <= buffer.Length
    ensures ok ==> count == |Decimal(id)| && buffer[..index + count] == old(buffer[..index]) + Decimal(id)
  {
    hide Decimal, Render;
    DigitsFit(id, buffer.Length - index);
    var r := IntToText(id, buffer, index, buffer.Length - index);
    if !r.Ok? { return false, 0; }
    assert buffer[..index] == old(buffer[..index]);
    assert buffer[..index + r.value] == buffer[..index] + buffer[index..index + r.value];
    return true, r.value;
  }

  /** `prv_getObjectTemplate` behind `index` bytes. */
  method PutTemplate(objectId: nat, buffer: array<char>, index: nat) returns (ok: bool, length: nat)
    requires objectId < ID_COUNT && index <= buffer.Length
    modifies buffer
    ensures ok <==> index + |Template(objectId)| < buffer.Length
    ensures ok ==>
              && length == |Template(objectId)|
              && buffer[..index + length] == old(buffer[..index]) + Template(objectId)
  {
    hide Decimal;
    if buffer.Length - index < REG_OBJECT_MIN_LEN { return false, 0; }
    ghost var before := buffer[..index];
    buffer[index] := '<';
    buffer[index + 1] := '/';
    assert buffer[..index + 2] == before + "</";
    var fits, count := PutDigits(objectId, buffer, index + 2);
    if !fits { return false, 0; }
    if buffer.Length - index - 2 - count < REG_OBJECT_MIN_LEN - 3 { return false, 0; }
    buffer[index + 2 + count] := '/';
    length := count + 3;
    assert buffer[..index + length] == before + "</" + Decimal(objectId) + "/";
    assert before + "</" + Decimal(objectId) + "/" == before + Template(objectId);
    ok := true;
  }

  /** `memcpy` of `length` bytes from `start` to `index`. */
  method Repeat(buffer: array<char>, start: nat, length: nat, index: nat) returns (ok: bool)
    requires start + length <= index <= buffer.Length
    modifies buffer
    ensures ok <==> index + length < buffer.Length
    ensures ok ==> buffer[..index + length] == old(buffer[..index]) + old(buffer[start..start + length])
  {
    if buffer.Length - index <= length { return false; }
    for k := 0 to length
      invariant forall j :: 0 <= j < index ==> buffer[j] == old(buffer[j])
      invariant forall j :: index <= j < index + k ==> buffer[j] == old(buffer[start + (j - index)])
    {
      buffer[index + k] := buffer[start + k];
    }
    return true;
  }

  /** The template in front of the next instance; in front of the first it is already
      written. */
  method NextTemplate(buffer: array<char>, start: nat, length: nat, index: nat, ghost t: string)
    returns (ok: bool, index': nat)
    requires start + length <= index < buffer.Length && length == |t| && buffer[start..start + length] == t
    modifies buffer
    ensures index == start + length ==> ok && index' == index && buffer[..index] == old(buffer[..index])
    ensures index != start + length ==> (ok <==> index + length < buffer.Length)
    ensures index != start + length && ok ==>
              index' == index + length && buffer[..index'] == old(buffer[..index]) + t
  {
    index' := index;
    ok := true;
    if index != start + length {
      ok := Repeat(buffer, start, length, index);
      if ok { index' := index + length; }
    }
  }

  /** The id of an instance and the end of its link. */
  method PutEnd(id: nat, buffer: array<char>, index: nat) returns (ok: bool, index': nat)
    requires id < ID_COUNT && index < buffer.Length
    modifies buffer
    ensures ok <==> index + |Decimal(id)| + |REG_PATH_END| < buffer.Length
    ensures ok ==>
              && index' == index + |Decimal(id)| + |REG_PATH_END|
              && buffer[..index'] == old(buffer[..index]) + (Decimal(id) + REG_PATH_END)
  {
    hide Decimal;
    ghost var before := buffer[..index];
    var fits, count := PutDigits(id, buffer, index);
    if !fits { return false, 0; }
    ok := PutString(REG_PATH_END, buffer, index + count);
    index' := index + count + |REG_PATH_END|;
    Regroup(before, Decimal(id), REG_PATH_END);
  }

  /** What stands behind `before` when the loop has written `k` instances: the first one
      finds its template already written. */
  ghost function Standing(before: string, objectId: nat, list: Instances, k: nat): string
    requires k <= |list|
  {
    before + if k == 0 then Template(objectId) else InstancesUpto(objectId, list, k)
  }

  /** The text before the id of instance `k`, and behind its end. */
  lemma StandingNext(before: string, objectId: nat, list: Instances, k: nat)
    requires k < |list|
    ensures var w := if k == 0 then Standing(before, objectId, list, 0)
                     else Standing(before, objectId, list, k) + Template(objectId);
            Standing(before, objectId, list, k + 1) == w + (Decimal(list[k].id) + REG_PATH_END)
    ensures |Standing(before, objectId, list, k)| == |before| + |Template(objectId)| <==> k == 0
    ensures |Standing(before, objectId, list, k)| >= |before| + |Template(objectId)|
  {
    hide InstancesUpto, Template, Decimal;
    InstancesUptoNext(objectId, list, k);
    InstancesGrow(objectId, list, 0, k);
    var t, e, done := Template(objectId), Decimal(list[k].id) + REG_PATH_END, InstancesUpto(objectId, list, k);
    assert t + Decimal(list[k].id) + REG_PATH_END == t + e;
    if k == 0 {
      assert "" + (t + e) == t + e;
      Regroup(before, t, e);
    } else {
      Regroup(before, done, t + e);
      Regroup(before + done, t, e);
    }
  }

  lemma StandingLength(before: string, objectId: nat, list: Instances, k: nat)
    requires k < |list|
    ensures |Standing(before, objectId, list, k)| <= |before| + |InstancesUpto(objectId, list, |list|)|
    ensures |Standing(before, objectId, list, k + 1)| <= |before| + |InstancesUpto(objectId, list, |list|)|
    ensures |Standing(before, objectId, list, k)| >= |before| + |Template(objectId)|
    ensures |Standing(before, objectId, list, k)| == |before| + |Template(objectId)| <==> k == 0
    ensures |Standing(before, objectId, list, |list|)| == |before| + |InstancesUpto(objectId, list, |list|)|
  {
    hide InstancesUpto, Template;
    InstancesGrow(objectId, list, 0, k);
    InstancesGrow(objectId, list, 0, |list|);
    InstancesGrow(objectId, list, k, |list|);
    InstancesGrow(objectId, list, k + 1, |list|);
  }

  /** The loop over the instances of an object whose template stands at `start`. */
  method PutInstances(objectId: nat, list: Instances, buffer: array<char>, start: nat, length: nat)
    returns (ok: bool, index: nat)
    requires objectId < ID_COUNT && list != [] && forall k :: 0 <= k < |list| ==> list[k].id < ID_COUNT
    requires length == |Template(objectId)| && start + length < buffer.Length
    requires buffer[..start + length] == buffer[..start] + Template(objectId)
    modifies buffer
    ensures ok <==> start + |InstancesUpto(objectId, list, |list|)| < buffer.Length
    ensures ok ==>
              && index == start + |InstancesUpto(objectId, list, |list|)|
              && buffer[..index] == old(buffer[..start]) + InstancesUpto(objectId, list, |list|)
  {
    hide InstancesUpto, Decimal, Template, Standing;
    ghost var before := buffer[..start];
    var k := 0;
    index := start + length;
    StandingFirst(before, objectId, list);
    while k < |list|
      invariant 0 <= k <= |list| && index < buffer.Length
      invariant index == |Standing(before, objectId, list, k)|
      invariant buffer[..index] == Standing(before, objectId, list, k)
    {
      StandingLength(before, objectId, list, k);
      StandingNext(before, objectId, list, k);
      TemplateStands(buffer[..index], before, objectId, list, k);
      TemplateAt(buffer[..index], buffer[start..start + length], start, length, Template(objectId));
      ok, index := NextTemplate(buffer, start, length, index, Template(objectId));
      if !ok { return false, 0; }
      ok, index := PutEnd(list[k].id, buffer, index);
      if !ok { return false, 0; }
      k := k + 1;
    }
    StandingLength(before, objectId, list, 0);
    StandingLast(before, objectId, list);
    ok := true;
  }

  lemma StandingFirst(before: string, objectId: nat, list: Instances)
    ensures Standing(before, objectId, list, 0) == before + Template(objectId)
  {}

  lemma StandingLast(before: string, objectId: nat, list: Instances)
    requires list != []
    ensures Standing(before, objectId, list, |list|) == before + InstancesUpto(objectId, list, |list|)
  {}

  lemma TemplateAt(written: string, part: string, start: nat, length: nat, t: string)
    requires start + length <= |written|
    requires part == written[start..start + length] && written[start..start + length] == t
    ensures part == t
  {}

  /** The template stands behind `before` all the time. */
  lemma TemplateStands(written: string, before: string, objectId: nat, list: Instances, k: nat)
    requires k < |list| && written == Standing(before, objectId, list, k)
    ensures |before| + |Template(objectId)| <= |written|
    ensures written[|before|..|before| + |Template(objectId)|] == Template(objectId)
  {
    hide Template, InstancesUpto;
    if k > 0 {
      InstancesStart(objectId, list, k);
      var t := Template(objectId);
      assert written[|before|..|before| + |t|] == InstancesUpto(objectId, list, k)[..|t|];
    }
  }

  lemma {:induction false} InstancesStart(objectId: nat, list: Instances, k: nat)
    requires 0 < k <= |list|
    ensures |InstancesUpto(objectId, list, k)| >= |Template(objectId)|
    ensures InstancesUpto(objectId, list, k)[..|Template(objectId)|] == Template(objectId)
  {
    hide InstancesUpto, Template, Decimal;
    InstancesUptoNext(objectId, list, k - 1);
    if k > 1 {
      InstancesStart(objectId, list, k - 1);
    } else {
      var t := Template(objectId);
      assert "" + (t + Decimal(list[0].id) + REG_PATH_END) == t + (Decimal(list[0].id) + REG_PATH_END);
    }
  }

  /** The links of one object. */
  method PutObject(o: Entry<Obj>, buffer: array<char>, start: nat) returns (ok: bool, index: nat)
    requires Ids16([o]) && start < buffer.Length
    modifies buffer
    ensures ok <==> start + |Closed(ObjectLinks(o))| < buffer.Length
    ensures ok ==>
              && index == start + |Closed(ObjectLinks(o))|
              && buffer[..index] == old(buffer[..start]) + Closed(ObjectLinks(o))
  {
    hide Closed, Decimal, Template, InstanceLinks, ObjectLink;
    assert [o][0] == o;
    ghost var before := buffer[..start];
    if o.id == SECURITY_OBJECT {
      ClosedNone();
      assert before + "" == before;
      return true, start;
    }
    var length;
    ok, length := PutTemplate(o.id, buffer, start);
    TemplateShort(o);
    if !ok { return false, 0; }
    assert buffer[..start] == before by { FrontOf(buffer[..start + length], before, Template(o.id)); }
    if o.body.instances == [] {
      TemplateWithoutSlash(buffer[..start + length], before, o.id);
      index := start + length - 1;
      assert buffer[..index] == buffer[..start + length][..index];
      ok := PutString(REG_PATH_END, buffer, index);
      if !ok { return false, 0; }
      index := index + |REG_PATH_END|;
    } else {
      InstancesWhole(o);
      ok, index := PutInstances(o.id, o.body.instances, buffer, start, length);
    }
  }

  lemma ClosedNone()
    ensures Closed([]) == ""
  {}

  lemma FrontOf(written: string, before: string, t: string)
    requires written == before + t
    ensures written[..|before|] == before
  {}

  /** The template alone is shorter than the links of the object. */
  lemma TemplateShort(o: Entry<Obj>)
    requires o.id != SECURITY_OBJECT
    ensures |Template(o.id)| < |Closed(ObjectLinks(o))|
  {
    hide Decimal;
    if o.body.instances == [] {
      LinkParts(o.id, 0);
    } else {
      InstancesWhole(o);
      InstancesGrow(o.id, o.body.instances, 0, |o.body.instances|);
    }
  }

  lemma InstancesWhole(o: Entry<Obj>)
    requires o.id != SECURITY_OBJECT && o.body.instances != []
    ensures Closed(ObjectLinks(o)) == InstancesUpto(o.id, o.body.instances, |o.body.instances|)
  {
    hide Closed, InstanceLinks;
    assert o.body.instances[..|o.body.instances|] == o.body.instances;
  }

  /** The slash behind the object id gives way to the end of the link. */
  lemma TemplateWithoutSlash(written: string, before: string, objectId: nat)
    requires written == before + Template(objectId)
    ensures |written| > 0 && written[..|written| - 1] + REG_PATH_END == before + Closed([ObjectLink(objectId)])
    ensures |Closed([ObjectLink(objectId)])| == |Template(objectId)| - 1 + |REG_PATH_END|
  {
    hide Decimal, Closed, ObjectLink;
    var d := Decimal(objectId);
    LinkParts(objectId, 0);
    assert "</" + d + REG_PATH_END == Closed([ObjectLink(objectId)]);
    assert Template(objectId)[..|d| + 2] == "</" + d;
    assert written[..|written| - 1] == before + ("</" + d);
    Regroup(before, "</" + d, REG_PATH_END);
  }

  /** The link of the root path with the comma behind it, in three parts. */
  method PutRoot(path: string, buffer: array<char>) returns (ok: bool, index: nat)
    modifies buffer
    ensures ok <==> |REG_START| + |path| + |REG_LWM2M_RESOURCE_TYPE| < buffer.Length
    ensures ok ==> index == |REG_START| + |path| + |REG_LWM2M_RESOURCE_TYPE|
                   && buffer[..index] == "" + REG_START + path + REG_LWM2M_RESOURCE_TYPE
  {
    index := 0;
    assert buffer[..0] == "";
    ok := PutString(REG_START, buffer, 0);
    if !ok { return; }
    ok := PutString(path, buffer, |REG_START|);
    if !ok { return; }
    index := |REG_START| + |path|;
    ok := PutString(REG_LWM2M_RESOURCE_TYPE, buffer, index);
    index := index + |REG_LWM2M_RESOURCE_TYPE|;
  }

  /** `object_getRegisterPayload`: the number of bytes written, 0 when they do not fit. */
  method GetRegisterPayload(altPath: Option<string>, objects: ObjectList, buffer: array<char>) returns (r: nat)
    requires Ids16(objects)
    modifies buffer
    ensures r > 0 <==> buffer.Length >= |Payload(altPath, objects)| + 2
    ensures r > 0 ==>
              && r == |Payload(altPath, objects)|
              && buffer[..r] == Payload(altPath, objects) && buffer[r] == NUL
  {
    hide Closed, AllLinks, ObjectLinks, Join, Upto, Decimal, Payload, Ids16;
    UptoAll(altPath, objects);
    UptoGrows(altPath, objects, 0, |objects|);
    var path := if altPath.Some? && altPath.value != "" then altPath.value else REG_DEFAULT_PATH;
    RootParts(altPath, objects, path);
    var ok, index := PutRoot(path, buffer);
    if !ok { return 0; }
    var k := 0;
    while k < |objects|
      invariant 0 <= k <= |objects| && index < buffer.Length
      invariant index == |Upto(altPath, objects, k)| && buffer[..index] == Upto(altPath, objects, k)
    {
      UptoNext(altPath, objects, k);
      UptoGrows(altPath, objects, k + 1, |objects|);
      OneObject(objects, k);
      ok, index := PutObject(objects[k], buffer, index);
      if !ok { return 0; }
      k := k + 1;
    }
    PayloadNotEmpty(altPath, objects);
    if index > 0 { index := index - 1; }
    buffer[index] := NUL;
    assert buffer[..index] == (Payload(altPath, objects) + ",")[..index];
    return index;
  }

  lemma OneObject(objects: ObjectList, k: nat)
    requires Ids16(objects) && k < |objects|
    ensures Ids16([objects[k]])
  {}

  lemma RootParts(altPath: Option<string>, objects: ObjectList, path: string)
    requires path == if altPath.Some? && altPath.value != "" then altPath.value else REG_DEFAULT_PATH
    ensures Upto(altPath, objects, 0) == "" + REG_START + path + REG_LWM2M_RESOURCE_TYPE
  {
    assert objects[..0] == [];
    var t := "<" + path + ">;rt=\"oma.lwm2m\";ct=11543";
    assert RootLink(altPath) == t;
    assert Closed(AllLinks(objects[..0])) == "";
    assert ">;rt=\"oma.lwm2m\";ct=11543" + "," == REG_LWM2M_RESOURCE_TYPE;
    assert "" + REG_START + path == "<" + path;
    Regroup("<" + path, ">;rt=\"oma.lwm2m\";ct=11543", ",");
    assert t + "," + "" == t + ",";
  }

  lemma PayloadNotEmpty(altPath: Option<string>, objects: ObjectList)
    ensures |Payload(altPath, objects)| > 0
  {
    hide AllLinks;
  }

  // ---------------------------------------------------------------- sizing

  /** `prv_getObjectTemplate` into the local array of ten bytes. */
  method MeasureTemplate(objectId: nat) returns (length: nat)
    requires objectId < ID_COUNT
    ensures length == |Template(objectId)|
  {
    hide Decimal;
    var buffer := new char[REG_OBJECT_MIN_LEN + 5];
    DecimalLength(objectId);
    var ok;
    ok, length := PutTemplate(objectId, buffer, 0);
  }

  method MeasureDigits(id: nat) returns (count: nat)
    requires id < ID_COUNT
    ensures count == |Decimal(id)|
  {
    hide Decimal;
    var buffer := new char[REG_OBJECT_MIN_LEN + 5];
    DecimalLength(id);
    var ok;
    ok, count := PutDigits(id, buffer, 0);
  }

  /** The size of the links of one object. */
  method MeasureObject(o: Entry<Obj>) returns (size: nat)
    requires Ids16([o])
    ensures size == |Closed(ObjectLinks(o))|
  {
    hide Closed, Decimal, InstanceLinks, ObjectLink, InstancesUpto;
    assert [o][0] == o;
    if o.id == SECURITY_OBJECT {
      ClosedNone();
      return 0;
    }
    var length := MeasureTemplate(o.id);
    var list := o.body.instances;
    var index := length;
    if list == [] {
      TemplateWithoutSlash("" + Template(o.id), "", o.id);
      index := index - 1;
      index := index + |REG_PATH_END|;
    } else {
      InstancesWhole(o);
      var k := 0;
      while k < |list|
        invariant 0 <= k <= |list|
        invariant index == if k == 0 then length else |InstancesUpto(o.id, list, k)|
        invariant k > 0 ==> index != length
      {
        InstancesUptoNext(o.id, list, k);
        if index != length { index := index + length; }
        var count := MeasureDigits(list[k].id);
        index := index + count;
        index := index + |REG_PATH_END|;
        k := k + 1;
      }
    }
    return index;
  }

  /** `object_getRegisterPayloadBufferLength`. */
  method GetRegisterPayloadBufferLength(altPath: Option<string>, objects: ObjectList) returns (size: nat)
    requires Ids16(objects)
    ensures size == |Payload(altPath, objects)| + 2
  {
    hide Closed, AllLinks, ObjectLinks, Join, Upto;
    var path := if altPath.Some? && altPath.value != "" then altPath.value else REG_DEFAULT_PATH;
    RootParts(altPath, objects, path);
    UptoAll(altPath, objects);
    size := |REG_START| + |path| + |REG_LWM2M_RESOURCE_TYPE|;
    var k := 0;
    while k < |objects|
      invariant 0 <= k <= |objects| && size == |Upto(altPath, objects, k)|
    {
      UptoNext(altPath, objects, k);
      OneObject(objects, k);
      var more := MeasureObject(objects[k]);
      size := size + more;
      k := k + 1;
    }
    size := size + 1;
  }

  /** Both passes together, as the registration request runs them: the buffer of the size
      found always takes the payload, which is two bytes shorter. */
  method RegisterPayload(altPath: Option<string>, objects: ObjectList) returns (payload: string)
    requires Ids16(objects)
    ensures payload == Payload(altPath, objects)
  {
    var length := GetRegisterPayloadBufferLength(altPath, objects);
    var buffer := new char[length];
    var written := GetRegisterPayload(altPath, objects, buffer);
    assert written == length - 2;
    return buffer[..written];
  }
}
