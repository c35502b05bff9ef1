/** What a request for any path gets from a text written for the root, an object or an
    instance. */
module JsonRequests {
  import opened Text
  import opened Uris
  import opened JsonTree
  import opened JsonParse
  import opened JsonReadBack
  import opened JsonOutput
  import opened JsonRoundTrip
  import S = JsonSerialize

  // ---------------------------------------------------------------- the answer

  /** The answer to a request for what lies at or below an instance with these resources. */
  ghost predicate AnswersIn(u: Uri, list: seq<Data>, r: Outcome<seq<Data>>) {
    if u.resourceId.None? then r == Ok(list)
    else
      && (forall j :: 0 <= j < |list| && list[j].id == u.resourceId.value ==>
                        r == Ok(if list[j].Multiple? then list[j].children else [list[j]]))
      && ((forall j :: 0 <= j < |list| ==> list[j].id != u.resourceId.value) ==> r == Refused)
  }

  /** The answer to a request on the objects `tree`: all of them, the children of the first
      object, or what lies below one of its instances.  Only the first object is looked at. */
  ghost predicate Answers(request: Option<Uri>, tree: seq<Data>, r: Outcome<seq<Data>>)
    requires tree != [] && tree[0].IsContainer()
  {
    match request
    case None => r == Ok(tree)
    case Some(u) =>
      var list := tree[0].children;
      if tree[0].id != u.objectId then r == Refused
      else if u.instanceId.None? then r == Ok(list)
      else
        && (forall k :: 0 <= k < |list| && list[k].id == u.instanceId.value ==> AnswersIn(u, list[k].Children(), r))
        && ((forall k :: 0 <= k < |list| ==> list[k].id != u.instanceId.value) ==> r == Refused)
  }

  // ---------------------------------------------------------------- selecting from faithful data

  lemma InstanceFound(list: seq<Data>, n: nat, id: nat)
    requires Faithful(list, 1)
    ensures var all := list + Padding(n);
            var k := FindInstance(all, id);
            && (k < |all| ==> k < |list| && all[k] == list[k] && list[k].id == id
                              && Faithful(list[k].Children(), 0) && list[k].Children() != [])
            && (k == |all| ==> forall j :: 0 <= j < |list| ==> list[j].id != id)
            && (forall i, j :: 0 <= i < |list| && 0 <= j < |list| && list[i].id == list[j].id ==> i == j)
  {
    hide Faithful;
    FoundBelow(list, 1, n, id);
    FaithfulParts(list, 1);
    var all := list + Padding(n);
    forall j | 0 <= j < |list|
      ensures all[j] == list[j] && list[j].Children() != []
    {
      NodeParts(list[j], 1);
    }
  }

  lemma ResourceFound(list: seq<Data>, n: nat, id: nat)
    requires Faithful(list, 0)
    ensures var all := list + Padding(n);
            var j := FindResource(all, id);
            && (j < |list| ==> all[j] == list[j] && list[j].id == id && ResourceReturns(list[j]))
            && (|list| <= j < |all| ==> all[j].Undefined?)
            && (j >= |list| ==> forall i :: 0 <= i < |list| ==> list[i].id != id)
            && (forall i, j :: 0 <= i < |list| && 0 <= j < |list| && list[i].id == list[j].id ==> i == j)
  {
    hide Faithful, ResourceReturns;
    FaithfulParts(list, 0);
    var all := list + Padding(n);
    var j := FindResource(all, id);
    assert forall i :: 0 <= i < |list| ==> all[i] == list[i];
    assert forall i :: |list| <= i < |all| ==> all[i] == Undefined(0);
    if j < |list| { assert NodeReturns(list[j], 0); }
  }

  lemma ResourceAlone(d: Data)
    requires ResourceReturns(d)
    ensures !d.Multiple? ==> Strip([d]) == Ok([d])
    ensures d.Multiple? ==> d.children != [] && Strip(d.children) == Ok(d.children)
  {
    hide LeavesReturn;
    ResourceStrips(d);
    var none: seq<Data> := [];
    assert [d][1..] == none && StripAll(none) == Ok(none);
    assert [d] + none == [d];
  }

  lemma UndefinedAlone(d: Data)
    requires d.Undefined?
    ensures Strip([d]) == Refused
  {
    var none: seq<Data> := [];
    assert [d][1..] == none && StripAll(none) == Ok(none);
  }

  /** Below the instance: the resources with the unused slots behind them. */
  lemma ResourceAnswer(u: Uri, list: seq<Data>, n: nat)
    requires Faithful(list, 0) && list != []
    ensures var all := list + Padding(n);
            u.resourceId.None? ==> AnswersIn(u, list, Strip(all))
    ensures var all := list + Padding(n);
            u.resourceId.Some? ==>
              var j := FindResource(all, u.resourceId.value);
              && (j == |all| ==> AnswersIn(u, list, Refused))
              && (j < |all| && !all[j].Multiple? ==> AnswersIn(u, list, Strip([all[j]])))
              && (j < |all| && all[j].Multiple? ==>
                    all[j].children != [] && AnswersIn(u, list, Strip(all[j].children)))
  {
    hide Faithful, Strip, ResourceReturns, FindResource;
    FaithfulKept(list, 0, n);
    if u.resourceId.Some? {
      var all := list + Padding(n);
      ResourceFound(list, n, u.resourceId.value);
      var j := FindResource(all, u.resourceId.value);
      if j < |list| {
        ResourceAlone(list[j]);
      } else if j < |all| {
        UndefinedAlone(all[j]);
      }
    }
  }

  /** Below an object: its instances with the unused slots behind them. */
  lemma InstanceAnswer(u: Uri, first: Data, list: seq<Data>, n: nat)
    requires first.Object? && first.children == list + Padding(n) && Faithful(list, 1) && list != []
    requires u.objectId == first.id
    ensures Answers(Some(u), [Object(first.id, list)], Selected(Some(u), [first]))
  {
    hide Faithful, Strip, FindInstance, FindResource, AnswersIn;
    FaithfulKept(list, 1, n);
    if u.instanceId.Some? {
      InstanceFound(list, n, u.instanceId.value);
      var k := FindInstance(first.children, u.instanceId.value);
      if k < |list| {
        var inner := list[k].Children();
        assert inner + Padding(0) == inner;
        ResourceAnswer(u, inner, 0);
      }
    }
  }

  /** Below an instance that stands alone in the tree. */
  lemma LoneAnswer(u: Uri, first: Data, id: nat, list: seq<Data>, n: nat)
    requires first.Object? && first.children == [Instance(id, list + Padding(n))] && Faithful(list, 0) && list != []
    requires u.objectId == first.id
    ensures Answers(Some(u), [Object(first.id, [Instance(id, list)])], Selected(Some(u), [first]))
  {
    hide Faithful, Strip, FindResource, FindInstance, AnswersIn, Padding;
    var all := list + Padding(n);
    FaithfulKept(list, 0, n);
    OneKept(Instance(id, all), all, list);
    assert Instance(id, all).WithChildren(list) == Instance(id, list);
    ResourceAnswer(u, list, n);
    if u.instanceId.Some? {
      LoneFound(id, all, u.instanceId.value);
      assert [Instance(id, list)][0].Children() == list && first.children[0].Children() == all;
    }
  }

  lemma LoneFound(id: nat, children: seq<Data>, sought: nat)
    requires children != []
    ensures FindInstance([Instance(id, children)], sought) == if sought == id then 0 else 1
  {
    assert [Instance(id, children)][1..] == [];
  }

  /** The children of the first object are all that counts. */
  lemma FirstOnly(u: Uri, a: seq<Data>, b: seq<Data>, r: Outcome<seq<Data>>)
    requires a != [] && b != [] && a[0] == b[0] && a[0].IsContainer()
    ensures Answers(Some(u), a, r) <==> Answers(Some(u), b, r)
    ensures Selected(Some(u), a) == Selected(Some(u), b)
  {
    hide Strip, FindInstance, FindResource, AnswersIn;
  }

  lemma SelectedAnswers(request: Option<Uri>, b: Option<Uri>, rest: seq<Data>, n: nat)
    requires AboveResources(b) && rest != [] && Faithful(rest, LevelOf(b))
    ensures Wrapped(b, rest) != [] && Wrapped(b, rest)[0].Object?
    ensures Answers(request, Wrapped(b, rest), Selected(request, Wrapped(b, rest + Padding(n))))
  {
    hide Faithful, Strip, FindInstance, FindResource, AnswersIn, Answers, Selected;
    if b.None? {
      NodeAt(rest, 2, 0);
      NodeParts(rest[0], 2);
    }
    if request.None? {
      NoRequest(b, rest, n);
    } else {
      var u := request.value;
      var all, tree := Wrapped(b, rest + Padding(n)), Wrapped(b, rest);
      if all[0].id != u.objectId {
        OtherObject(u, all, tree);
      } else if b.None? {
        var first := rest[0];
        assert first.children + Padding(0) == first.children;
        InstanceAnswer(u, first, first.children, 0);
        FirstOnly(u, [first], all, Selected(Some(u), [first]));
        FirstOnly(u, [Object(first.id, first.children)], tree, Selected(Some(u), [first]));
      } else if b.value.instanceId.None? {
        InstanceAnswer(u, all[0], rest, n);
        assert all == [all[0]] && tree == [Object(all[0].id, rest)];
      } else {
        LoneAnswer(u, all[0], b.value.instanceId.value, rest, n);
        assert all == [all[0]] && tree == [Object(all[0].id, [Instance(b.value.instanceId.value, rest)])];
      }
    }
  }

  lemma NoRequest(b: Option<Uri>, rest: seq<Data>, n: nat)
    requires AboveResources(b) && rest != [] && Faithful(rest, LevelOf(b))
    requires Wrapped(b, rest) != [] && Wrapped(b, rest)[0].IsContainer()
    ensures Answers(None, Wrapped(b, rest), Selected(None, Wrapped(b, rest + Padding(n))))
  {
    hide Faithful, Selected, Wrapped, AboveResources;
    NothingAbove();
    SelectExact(None, b, rest, n);
  }

  lemma NothingAbove()
    ensures AboveResources(None)
  {}

  lemma OtherObject(u: Uri, all: seq<Data>, tree: seq<Data>)
    requires all != [] && tree != [] && all[0].Object? && tree[0].Object? && all[0].id == tree[0].id != u.objectId
    ensures Answers(Some(u), tree, Selected(Some(u), all))
  {}

  // ---------------------------------------------------------------- requests on a written text

  /** The objects around a list below a path. */
  lemma SameTree(uri: Option<Uri>, b: Option<Uri>, rest: seq<Data>)
    requires AboveResources(uri) && AboveResources(b) && Within(uri, b)
    ensures Wrapped(uri, WrappedBelow(uri, b, rest)) == Wrapped(b, rest)
  {}

  /** Every request on a written text is answered from the data with the nodes of its path
      around it. */
  lemma RequestAnswered(uri: Option<Uri>, list: seq<Data>, t: string, request: Option<Uri>)
    requires AboveResources(uri) && list != [] && Nodes(list, LevelOf(uri)) && S.AllInRange(list)
    requires S.Serialized(uri, list) == Ok(t) && t != ""
    requires Faithful(list, LevelOf(uri)) && !LoneMultiple(list)
    ensures var tree := Wrapped(uri, list);
            tree != [] && tree[0].Object? && Answers(request, tree, Parsed(request, t))
  {
    hide Faithful, S.Serialized, Nodes, S.AllInRange, Parsed, Selected, Wrapped, LoneMultiple, AboveResources, Answers,
         WrappedBelow, Within, Padding;
    var b, rest, n := TreeRead(uri, list, t, request);
    SelectedAnswers(request, b, rest, n);
    SameTree(uri, b, rest);
  }

  /** A text written for an instance, asked for one of its resources. */
  lemma ResourceRequested(u: Uri, list: seq<Data>, t: string, id: nat)
    requires AboveResources(Some(u)) && u.instanceId.Some?
    requires list != [] && Nodes(list, 0) && S.AllInRange(list) && Faithful(list, 0) && !LoneMultiple(list)
    requires S.Serialized(Some(u), list) == Ok(t) && t != ""
    ensures var r := Parsed(Some(u.(resourceId := Some(id))), t);
            && (forall k :: 0 <= k < |list| && list[k].id == id ==>
                              r == Ok(if list[k].Multiple? then list[k].children else [list[k]]))
            && (r == Refused <==> forall k :: 0 <= k < |list| ==> list[k].id != id)
  {
    hide Faithful, S.Serialized, Nodes, S.AllInRange, Parsed, LoneMultiple;
    var request := u.(resourceId := Some(id));
    RequestAnswered(Some(u), list, t, Some(request));
    assert Wrapped(Some(u), list) == [Object(u.objectId, [Instance(u.instanceId.value, list)])];
    assert AnswersIn(request, [Instance(u.instanceId.value, list)][0].Children(), Parsed(Some(request), t));
  }

  /** A text written for an object, asked for one of its instances. */
  lemma InstanceRequested(u: Uri, list: seq<Data>, t: string, id: nat)
    requires AboveResources(Some(u)) && u.instanceId.None?
    requires list != [] && Nodes(list, 1) && S.AllInRange(list) && Faithful(list, 1) && !LoneMultiple(list)
    requires S.Serialized(Some(u), list) == Ok(t) && t != ""
    ensures var r := Parsed(Some(u.(instanceId := Some(id))), t);
            && (forall k :: 0 <= k < |list| && list[k].id == id ==> r == Ok(list[k].Children()))
            && (r == Refused <==> forall k :: 0 <= k < |list| ==> list[k].id != id)
  {
    hide Faithful, S.Serialized, Nodes, S.AllInRange, Parsed, LoneMultiple;
    var request := u.(instanceId := Some(id));
    RequestAnswered(Some(u), list, t, Some(request));
    assert Wrapped(Some(u), list) == [Object(u.objectId, list)];
    assert forall k :: 0 <= k < |list| && list[k].id == id ==>
             AnswersIn(request, list[k].Children(), Parsed(Some(request), t));
  }
}
