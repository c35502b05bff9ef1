/** The text `json_serialize` writes is read back by `json_parse` as the same data, for every
    path a request can have. */
module JsonRoundTrip {
  import opened Text
  import opened Uris
  import opened JsonScan
  import opened JsonTree
  import opened JsonParse
  import opened JsonReadBack
  import opened JsonOutput
  import S = JsonSerialize

  // ---------------------------------------------------------------- the data

  /** Resources of integers, booleans and strings, single or multiple. */
  predicate IsResource(d: Data) {
    IsLeaf(d) || (d.Multiple? && forall k :: 0 <= k < |d.children| ==> IsLeaf(d.children[k]))
  }

  /** Resources, instances of them (level 1), or objects of those (level 2). */
  predicate IsNode(d: Data, level: nat)
    decreases level, 0
  {
    if level == 0 then IsResource(d)
    else (if level == 1 then d.Instance? else d.Object?) && Nodes(d.children, level - 1)
  }

  predicate Nodes(list: seq<Data>, level: nat)
    decreases level, 1
  {
    forall k :: 0 <= k < |list| ==> IsNode(list[k], level)
  }

  /** Lone containers down to a multiple resource: all their ids move into the base path,
      which the path parser then rejects. */
  predicate LoneMultiple(list: seq<Data>)
    decreases list
  {
    |list| == 1 && list[0].IsContainer() && (list[0].Multiple? || LoneMultiple(list[0].children))
  }

  /** At most `n` containers above each value. */
  predicate Shallow(d: Data, n: nat)
    decreases n, 0
  {
    if d.IsContainer() then n > 0 && AllShallow(d.children, n - 1) else IsLeaf(d)
  }

  predicate AllShallow(list: seq<Data>, n: nat)
    decreases n, 1
  {
    forall k :: 0 <= k < |list| ==> Shallow(list[k], n)
  }

  lemma {:induction false} NodeShallow(d: Data, level: nat)
    requires IsNode(d, level)
    ensures Shallow(d, level + 1)
    decreases level, 0
  {
    hide AllShallow;
    if level > 0 {
      NodesShallow(d.children, level - 1);
    } else if d.Multiple? {
      LeavesShallow(d.children);
    }
  }

  lemma LeavesShallow(list: seq<Data>)
    requires forall k :: 0 <= k < |list| ==> IsLeaf(list[k])
    ensures AllShallow(list, 0)
  {}

  lemma NodesShallow(list: seq<Data>, level: nat)
    requires Nodes(list, level)
    ensures AllShallow(list, level + 1)
    decreases level, 1
  {
    hide Shallow;
    forall k | 0 <= k < |list|
      ensures Shallow(list[k], level + 1)
    {
      NodeShallow(list[k], level);
    }
  }

  // ---------------------------------------------------------------- what is written

  /** Entries below a path. */
  function Under(prefix: seq<nat>, es: seq<Entry>): (r: seq<Entry>)
    requires forall k :: 0 <= k < |es| ==> |prefix| + |es[k].path| <= 4
    ensures |r| == |es|
    ensures forall k :: 0 <= k < |es| ==> r[k] == PathAndLeaf.Entry(prefix + es[k].path, es[k].leaf)
  {
    if es == [] then [] else [PathAndLeaf.Entry(prefix + es[0].path, es[0].leaf)] + Under(prefix, es[1..])
  }

  function EntriesOf(d: Data, n: nat): (es: seq<Entry>)
    requires n <= 3 && Shallow(d, n)
    ensures forall k :: 0 <= k < |es| ==> |es[k].path| <= n + 1
    decreases n, 0, 0
  {
    if d.IsContainer() then Under([d.id], Flatten(d.children, n - 1)) else [PathAndLeaf.Entry([d.id], d)]
  }

  /** The items of the list in the order they are written. */
  function Flatten(list: seq<Data>, n: nat): (es: seq<Entry>)
    requires n <= 3 && AllShallow(list, n)
    ensures forall k :: 0 <= k < |es| ==> |es[k].path| <= n + 1
    decreases n, 1, |list|
  {
    if list == [] then [] else EntriesOf(list[0], n) + Flatten(list[1..], n)
  }

  lemma UnderAppend(prefix: seq<nat>, a: seq<Entry>, b: seq<Entry>)
    requires forall k :: 0 <= k < |a| ==> |prefix| + |a[k].path| <= 4
    requires forall k :: 0 <= k < |b| ==> |prefix| + |b[k].path| <= 4
    ensures Under(prefix, a + b) == Under(prefix, a) + Under(prefix, b)
  {}

  lemma UnderAt(prefix: seq<nat>, es: seq<Entry>)
    requires forall k :: 0 <= k < |es| ==> |prefix| + |es[k].path| <= 4
    ensures var r := Under(prefix, es);
            |r| == |es| && forall k :: 0 <= k < |es| ==> r[k] == PathAndLeaf.Entry(prefix + es[k].path, es[k].leaf)
  {}

  lemma UnderUnder(a: seq<nat>, b: seq<nat>, es: seq<Entry>)
    requires forall k :: 0 <= k < |es| ==> |a| + |b| + |es[k].path| <= 4
    ensures Under(a, Under(b, es)) == Under(a + b, es)
  {
    hide Under;
    UnderAt(b, es);
    UnderAt(a, Under(b, es));
    UnderAt(a + b, es);
    var r, s := Under(a, Under(b, es)), Under(a + b, es);
    forall k | 0 <= k < |es|
      ensures r[k] == s[k]
    {
      assert a + (b + es[k].path) == a + b + es[k].path;
    }
  }

  lemma UnderNothing(es: seq<Entry>)
    ensures Under([], es) == es
  {
    forall k | 0 <= k < |es|
      ensures Under([], es)[k] == es[k]
    {
      assert [] + es[k].path == es[k].path;
    }
  }

  /** Each item with the comma behind it. */
  function Commas(es: seq<Entry>): string {
    if es == [] then "" else ItemText(es[0]) + "," + Commas(es[1..])
  }

  lemma {:induction false} CommasAppend(a: seq<Entry>, b: seq<Entry>)
    ensures Commas(a + b) == Commas(a) + Commas(b)
  {
    hide ItemText;
    if a == [] {
      assert a + b == b;
    } else {
      CommasAppend(a[1..], b);
      assert (a + b)[1..] == a[1..] + b;
      Regroup(ItemText(a[0]) + ",", Commas(a[1..]), Commas(b));
    }
  }

  lemma {:induction false} CommasLast(es: seq<Entry>)
    requires es != []
    ensures Commas(es) == ItemsText(es) + ","
  {
    hide ItemText;
    if |es| == 1 {
      assert es[1..] == [];
    } else {
      CommasLast(es[1..]);
    }
  }

  /** What is written for one value. */
  lemma ValueWritten(d: Data, room: nat)
    requires IsLeaf(d) && S.ValueText(d, room).Ok?
    ensures "\"," + ValueStr(d) + "}," == S.ValueText(d, room).value
  {
    hide Magnitude;
    match d {
      case Integer(_, v) =>
        var t := (if v < 0 then "-" else "") + Magnitude(v);
        assert S.ValueText(d, room).value == S.ITEM_NUM + t + S.ITEM_NUM_END;
        NumberParts(t);
      case Boolean(_, flag) =>
      case Str(_, text) =>
        assert S.ValueText(d, room).value == S.ITEM_STRING_BEGIN + text + S.ITEM_STRING_END;
        StringParts(text);
    }
  }

  lemma NumberParts(t: string)
    ensures "\"," + PlainPair("v", t) + "}," == S.ITEM_NUM + t + S.ITEM_NUM_END
  {
    assert "\"," + PlainPair("v", t) == S.ITEM_NUM + t;
  }

  lemma StringParts(t: string)
    ensures "\"," + QuotedPair("sv", t) + "}," == S.ITEM_STRING_BEGIN + t + S.ITEM_STRING_END
  {
    assert QuotedPair("sv", t) == ("\"sv\":\"" + t) + "\"";
    assert "\"," + ("\"sv\":\"" + t) == S.ITEM_STRING_BEGIN + t;
    assert "\"" + "}," == S.ITEM_STRING_END;
  }

  lemma Braces(pair: string, v: string)
    ensures "{" + (pair + "," + v) + "}" + "," == ("{" + pair) + ("," + v + "},")
  {}

  lemma NameQuote(name: string)
    ensures "{" + QuotedPair("n", name) == (S.ITEM_URI + name) + "\""
  {}

  lemma ClosingQuote(v: string)
    ensures "\"" + ("," + v + "},") == "\"," + v + "},"
  {}

  lemma ItemParts(path: seq<nat>, d: Data)
    requires IsLeaf(d) && 1 <= |path| <= 4
    ensures ItemText(PathAndLeaf.Entry(path, d)) + "," ==
            (S.ITEM_URI + PathStr(path)) + ("\"," + ValueStr(d) + "},")
  {
    hide PathStr, ValueStr, QuotedPair;
    var name, v := PathStr(path), ValueStr(d);
    Braces(QuotedPair("n", name), v);
    NameQuote(name);
    ClosingQuote(v);
    Regroup(S.ITEM_URI + name, "\"", "," + v + "},");
  }

  lemma NameWritten(id: nat, parent: string, room: nat)
    requires S.NameText(id, parent, room).Ok?
    ensures S.NameText(id, parent, room).value == S.ITEM_URI + (parent + Decimal(id))
  {
    hide Decimal;
    assert S.ITEM_URI + (parent + Decimal(id)) == (S.ITEM_URI + parent) + Decimal(id);
  }

  /** Ids with a slash behind each. */
  function Slashed(ids: seq<nat>): string {
    if ids == [] then "" else Decimal(ids[0]) + "/" + Slashed(ids[1..])
  }

  lemma {:induction false} SlashedLast(ids: seq<nat>, id: nat)
    ensures PathStr(ids + [id]) == Slashed(ids) + Decimal(id)
    ensures Slashed(ids + [id]) == Slashed(ids) + Decimal(id) + "/"
    decreases |ids|
  {
    hide Decimal;
    var all := ids + [id];
    if ids == [] {
      assert all[1..] == [];
      assert "" + Decimal(id) == Decimal(id) + "" == Decimal(id);
      assert Decimal(id) + "/" + "" == "" + Decimal(id) + "/";
    } else {
      SlashedLast(ids[1..], id);
      assert all[1..] == ids[1..] + [id];
      var front, rest := Decimal(ids[0]) + "/", Slashed(ids[1..]);
      assert Decimal(ids[0]) + ("/" + (rest + Decimal(id))) == front + rest + Decimal(id);
      assert front + (rest + Decimal(id) + "/") == front + rest + Decimal(id) + "/";
    }
  }

  lemma LeafWritten(d: Data, prefix: seq<nat>, room: nat)
    requires IsLeaf(d) && |prefix| <= 3 && S.DataText(d, Slashed(prefix), room).Ok?
    ensures S.DataText(d, Slashed(prefix), room).value == ItemText(PathAndLeaf.Entry(prefix + [d.id], d)) + ","
  {
    hide S.NameText, S.ValueText, ValueStr, PathStr, Slashed, Decimal, ItemText;
    SlashedLast(prefix, d.id);
    NameWritten(d.id, Slashed(prefix), room);
    ValueWritten(d, room - |S.NameText(d.id, Slashed(prefix), room).value|);
    ItemParts(prefix + [d.id], d);
  }

  lemma LeafEntries(d: Data, prefix: seq<nat>, n: nat)
    requires IsLeaf(d) && n <= 3 && |prefix| <= 3
    ensures Under(prefix, EntriesOf(d, n)) == [PathAndLeaf.Entry(prefix + [d.id], d)]
    ensures Commas(Under(prefix, EntriesOf(d, n))) == ItemText(PathAndLeaf.Entry(prefix + [d.id], d)) + ","
  {
    hide ItemText;
    var e := PathAndLeaf.Entry(prefix + [d.id], d);
    assert Under(prefix, EntriesOf(d, n)) == [e];
    assert [e][1..] == [];
  }

  lemma PathWritten(id: nat, prefix: seq<nat>)
    requires S.ContainerPath(id, Slashed(prefix)).Ok?
    ensures S.ContainerPath(id, Slashed(prefix)).value == Slashed(prefix + [id])
  {
    hide Slashed, Decimal;
    SlashedLast(prefix, id);
  }

  /** Data is written below the ids of its containers. */
  lemma {:induction false} DataWritten(d: Data, prefix: seq<nat>, n: nat, room: nat)
    requires |prefix| + n <= 3 && Shallow(d, n) && S.DataText(d, Slashed(prefix), room).Ok?
    ensures S.DataText(d, Slashed(prefix), room).value == Commas(Under(prefix, EntriesOf(d, n)))
    decreases n, 0, 0
  {
    hide Slashed, ItemText, S.ListText, S.ContainerPath, S.NameText, S.ValueText, Commas, Under, Flatten, AllShallow;
    if d.IsContainer() {
      PathWritten(d.id, prefix);
      ListWritten(d.children, prefix + [d.id], n - 1, room);
      UnderUnder(prefix, [d.id], Flatten(d.children, n - 1));
    } else {
      LeafWritten(d, prefix, room);
      LeafEntries(d, prefix, n);
    }
  }

  lemma {:induction false} ListWritten(list: seq<Data>, prefix: seq<nat>, n: nat, room: nat)
    requires |prefix| + n <= 3 && AllShallow(list, n) && S.ListText(list, Slashed(prefix), room).Ok?
    ensures S.ListText(list, Slashed(prefix), room).value == Commas(Under(prefix, Flatten(list, n)))
    decreases n, 1, |list|
  {
    hide Slashed, S.DataText, Commas, Under, EntriesOf, Shallow;
    if list == [] {
      NothingWritten(prefix);
    } else {
      var first := S.DataText(list[0], Slashed(prefix), room);
      DataWritten(list[0], prefix, n, room);
      ListWritten(list[1..], prefix, n, room - |first.value|);
      UnderAppend(prefix, EntriesOf(list[0], n), Flatten(list[1..], n));
      CommasAppend(Under(prefix, EntriesOf(list[0], n)), Under(prefix, Flatten(list[1..], n)));
    }
  }

  lemma NothingWritten(prefix: seq<nat>)
    ensures Under(prefix, []) == [] && Commas([]) == ""
  {}

  /** As long as the buffer is not filled to the last byte, every item is written. */
  lemma {:induction false} BodyWritten(list: seq<Data>, n: nat, head: nat)
    requires n <= 3 && AllShallow(list, n) && head <= S.BUFFER_SIZE && S.Body(list, head).Ok?
    requires head + |S.Body(list, head).value| < S.BUFFER_SIZE
    ensures S.Body(list, head).value == Commas(Flatten(list, n))
    decreases |list|
  {
    hide S.DataText, Commas, EntriesOf, Shallow, Under;
    if list == [] {
      NothingWritten([]);
    } else {
      var first := S.DataText(list[0], "", S.BUFFER_SIZE - head);
      assert Slashed([]) == "";
      DataWritten(list[0], [], n, S.BUFFER_SIZE - head);
      UnderNothing(EntriesOf(list[0], n));
      BodyWritten(list[1..], n, head + |first.value|);
      CommasAppend(EntriesOf(list[0], n), Flatten(list[1..], n));
    }
  }

  // ---------------------------------------------------------------- the shape of the text

  function UriIds(uri: Option<Uri>): (ids: seq<nat>)
    ensures |ids| <= 3
  {
    match uri
    case None => []
    case Some(u) =>
      [u.objectId] + (if u.instanceId.None? then []
                      else [u.instanceId.value] + if u.resourceId.None? then [] else [u.resourceId.value])
  }

  function BaseText(ids: seq<nat>): string {
    "/" + Slashed(ids)
  }

  /** The ids of the lone containers at the front, and what is listed below them. */
  function Chain(list: seq<Data>): seq<nat>
    decreases list
  {
    if |list| == 1 && list[0].IsContainer() then [list[0].id] + Chain(list[0].children) else []
  }

  function Below(list: seq<Data>): seq<Data>
    decreases list
  {
    if |list| == 1 && list[0].IsContainer() then Below(list[0].children) else list
  }

  lemma {:induction false} DescendsTo(ids: seq<nat>, list: seq<Data>)
    requires |BaseText(ids)| <= S.URI_MAX_STRING_LEN && S.Descend(BaseText(ids), list).Ok?
    ensures S.Descend(BaseText(ids), list).value == (BaseText(ids + Chain(list)), Below(list))
    decreases list
  {
    hide Slashed, Decimal;
    if |list| == 1 && list[0].IsContainer() {
      var id, next := list[0].id, ids + [list[0].id];
      SlashedLast(ids, id);
      assert Render(id, S.URI_MAX_STRING_LEN - |BaseText(ids)|) == Ok(Decimal(id));
      assert "/" + (Slashed(ids) + Decimal(id) + "/") == BaseText(ids) + Decimal(id) + "/";
      DescendsTo(next, list[0].children);
      assert next + Chain(list[0].children) == ids + ([id] + Chain(list[0].children));
    } else {
      assert ids + [] == ids;
    }
  }

  lemma {:induction false} JoinedSlashed(ids: seq<nat>, segs: seq<string>)
    requires |segs| == |ids| > 0 && forall k :: 0 <= k < |ids| ==> segs[k] == Decimal(ids[k])
    ensures Joined(segs, true) == Slashed(ids)
    decreases |ids|
  {
    hide Decimal;
    if |ids| == 1 {
      assert ids[1..] == [];
      assert Decimal(ids[0]) + "/" + "" == Decimal(ids[0]) + "/";
    } else {
      JoinedSlashed(ids[1..], segs[1..]);
      Regroup(Decimal(ids[0]), "/", Slashed(ids[1..]));
    }
  }

  /** The text of a path is the slashed text of its ids. */
  lemma UriWritten(uri: Option<Uri>)
    requires uri.Some? ==> WellFormed(uri.value)
    requires UriToText(uri, 18).Ok?
    ensures UriToText(uri, 18).value == BaseText(UriIds(uri))
  {
    hide Decimal, Slashed, Joined, AppendId;
    if uri.Some? {
      PrintedShape(uri.value, 18);
      var segs := IdSegments(uri.value);
      assert forall k :: 0 <= k < |segs| ==> segs[k] == Decimal(UriIds(uri)[k]);
      JoinedSlashed(UriIds(uri), segs);
    } else {
      EmptySlashed();
    }
  }

  lemma EmptySlashed()
    ensures BaseText([]) == "/"
  {}

  /** A non-empty result is the header, the items, and the brackets over the last byte. */
  lemma SerializedShape(uri: Option<Uri>, list: seq<Data>, t: string)
    requires uri.Some? ==> WellFormed(uri.value)
    requires S.Serialized(uri, list) == Ok(t) && t != ""
    ensures S.Target(uri, list).Ok?
    ensures var target := S.Target(uri, list).value;
            var header := S.Header(BaseText(UriIds(uri) + Chain(target)));
            && |header| <= S.BUFFER_SIZE
            && var body := S.Body(Below(target), |header|);
            && body.Ok? && |header| + |body.value| < S.BUFFER_SIZE
            && t == S.Closed(header + body.value, Below(target) != [])
  {
    hide S.Body, S.Descend, S.Target, S.Header, Chain, Below, UriToText, BaseText;
    UriWritten(uri);
    var target := S.Target(uri, list).value;
    DescendsTo(UriIds(uri), target);
    HeaderFits(BaseText(UriIds(uri) + Chain(target)));
  }

  lemma HeaderFits(base: string)
    requires |base| <= S.URI_MAX_STRING_LEN
    ensures |S.Header(base)| <= S.BUFFER_SIZE
  {}

  lemma HeaderParts(base: string)
    requires base != ""
    ensures S.Header(base) == S.BN_HEADER_1 + base + S.BN_HEADER_2
  {}

  lemma TargetIsList(uri: Option<Uri>, list: seq<Data>)
    requires AboveResources(uri) && list != [] && Nodes(list, LevelOf(uri))
    ensures S.Target(uri, list) == Ok(list)
  {
    assert forall k :: 0 <= k < |list| ==> IsNode(list[k], LevelOf(uri));
    assert S.Uniform(list);
  }

  /** The text of data that has items. */
  lemma NodesText(uri: Option<Uri>, list: seq<Data>, n: nat, t: string)
    requires AboveResources(uri) && list != [] && Nodes(list, LevelOf(uri))
    requires n <= 3 && AllShallow(Below(list), n) && Flatten(Below(list), n) != []
    requires S.Serialized(uri, list) == Ok(t) && t != ""
    ensures t == FullText(BaseText(UriIds(uri) + Chain(list)), Flatten(Below(list), n))
  {
    hide S.Serialized, S.Body, S.Target, Flatten, ItemsText, Commas, S.Header, BaseText, Below, Chain, Nodes,
         AllShallow, AboveResources;
    var base := BaseText(UriIds(uri) + Chain(list));
    TargetIsList(uri, list);
    UriOk(uri);
    SerializedShape(uri, list, t);
    BaseNotEmpty(UriIds(uri) + Chain(list));
    HeaderParts(base);
    var header := S.Header(base);
    BodyWritten(Below(list), n, |header|);
    var es := Flatten(Below(list), n);
    CommasLast(es);
    assert Below(list) != [] by { NothingFlat(Below(list), n); }
    assert (header + (ItemsText(es) + ","))[..|header| + |ItemsText(es)|] == header + ItemsText(es);
  }

  lemma UriOk(uri: Option<Uri>)
    requires AboveResources(uri)
    ensures uri.Some? ==> WellFormed(uri.value)
  {}

  lemma NothingFlat(list: seq<Data>, n: nat)
    requires n <= 3 && AllShallow(list, n) && Flatten(list, n) != []
    ensures list != []
  {}

  lemma BaseNotEmpty(ids: seq<nat>)
    ensures BaseText(ids) != ""
  {}

  /** Every text starts with the base path and the key of the array. */
  lemma TextStarts(uri: Option<Uri>, list: seq<Data>, t: string, ids: seq<nat>)
    requires uri.Some? ==> WellFormed(uri.value)
    requires S.Serialized(uri, list) == Ok(t) && t != ""
    requires S.Target(uri, list).Ok? ==> ids == UriIds(uri) + Chain(S.Target(uri, list).value)
    ensures At(t, 0, S.BN_HEADER_1 + (BaseText(ids) + "\","))
    ensures At(t, 9 + |BaseText(ids)|, "\"e")
  {
    hide S.Serialized, S.Target, S.Body, S.Header, BaseText, Below, Chain, UriIds, At;
    var base := BaseText(ids);
    SerializedShape(uri, list, t);
    var target := S.Target(uri, list).value;
    BaseNotEmpty(ids);
    HeaderParts(base);
    var header := S.Header(base);
    var body := S.Body(Below(target), |header|).value;
    var lead := S.BN_HEADER_1 + (base + "\",");
    LeadParts(base, body);
    ClosedKeeps(lead + "\"e", "\":[" + body, Below(target) != []);
    AtSplit(t, 0, lead, "\"e");
  }

  lemma LeadParts(base: string, body: string)
    ensures S.BN_HEADER_1 + base + S.BN_HEADER_2 + body
         == S.BN_HEADER_1 + (base + "\",") + "\"e" + ("\":[" + body)
  {
    assert S.BN_HEADER_2 == "\"," + "\"e" + "\":[";
    assert S.BN_HEADER_1 + base + S.BN_HEADER_2 == S.BN_HEADER_1 + (base + "\",") + "\"e" + "\":[";
    Regroup(S.BN_HEADER_1 + (base + "\",") + "\"e", "\":[", body);
  }

  lemma ClosedKeeps(lead: string, rest: string, items: bool)
    requires rest != "" && S.Closed(lead + rest, items) != ""
    ensures At(S.Closed(lead + rest, items), 0, lead)
  {
    var text := lead + rest;
    assert text[..|text| - 1] == lead + rest[..|rest| - 1];
  }

  // ---------------------------------------------------------------- the base path

  lemma SegmentChars(d: string, rest: string)
    requires AllDigits(d) && d != "" && PathChars(rest)
    ensures PathChars(d + "/" + rest) && multiset(d + "/" + rest)['/'] == 1 + multiset(rest)['/']
  {
    DigitsNoSlash(d);
    assert multiset(d + "/" + rest) == multiset(d) + multiset("/") + multiset(rest);
  }

  lemma {:induction false} SlashedChars(ids: seq<nat>)
    ensures PathChars(Slashed(ids)) && |Slashed(ids)| >= 2 * |ids|
    ensures multiset(Slashed(ids))['/'] == |ids|
    ensures ids != [] ==> Slashed(ids)[|Slashed(ids)| - 1] == '/'
    decreases |ids|
  {
    hide Decimal, PathChars;
    if ids == [] {
      EmptyChars();
    } else {
      SlashedChars(ids[1..]);
      SegmentChars(Decimal(ids[0]), Slashed(ids[1..]));
      if ids[1..] == [] { assert Slashed(ids[1..]) == ""; }
    }
  }

  lemma EmptyChars()
    ensures PathChars("") && multiset("")['/'] == 0
  {}

  lemma DigitsNoSlash(s: string)
    requires AllDigits(s)
    ensures multiset(s)['/'] == 0
  {
    assert '/' !in s;
  }

  lemma BaseChars(ids: seq<nat>)
    ensures PathChars(BaseText(ids)) && BaseText(ids)[|BaseText(ids)| - 1] == '/'
    ensures multiset(BaseText(ids))['/'] == 1 + |ids| && |BaseText(ids)| >= 1 + 2 * |ids|
  {
    hide Slashed;
    SlashedChars(ids);
    if ids == [] { EmptySlashed(); }
    assert multiset(BaseText(ids)) == multiset("/") + multiset(Slashed(ids));
  }

  lemma LastOfBoth(a: string, b: string)
    requires b != ""
    ensures (a + b)[|a + b| - 1] == b[|b| - 1]
  {}

  lemma {:induction false} JoinedSlashes(segs: seq<string>, closing: bool)
    requires segs != [] && forall k :: 0 <= k < |segs| ==> segs[k] != "" && AllDigits(segs[k])
    ensures multiset(Joined(segs, closing))['/'] == |segs| - 1 + (if closing then 1 else 0)
    decreases |segs|
  {
    hide AllDigits;
    DigitsNoSlash(segs[0]);
    if |segs| > 1 {
      var rest := Joined(segs[1..], closing);
      JoinedSlashes(segs[1..], closing);
      SlashesAdd(segs[0], "/" + rest);
      SlashesAdd("/", rest);
    } else {
      SlashesAdd(segs[0], if closing then "/" else "");
    }
  }

  lemma {:induction false} JoinedLast(segs: seq<string>, closing: bool)
    requires segs != [] && forall k :: 0 <= k < |segs| ==> segs[k] != "" && AllDigits(segs[k])
    ensures Joined(segs, closing) != ""
    ensures !closing ==> Joined(segs, closing)[|Joined(segs, closing)| - 1] != '/'
    decreases |segs|
  {
    hide AllDigits;
    LastDigit(segs[0]);
    if |segs| > 1 {
      var rest := Joined(segs[1..], closing);
      JoinedLast(segs[1..], closing);
      LastOfBoth(segs[0] + "/", rest);
      Regroup(segs[0], "/", rest);
    }
  }

  lemma LastDigit(s: string)
    requires AllDigits(s) && s != ""
    ensures s[|s| - 1] != '/'
  {}

  lemma SlashesAdd(a: string, b: string)
    ensures multiset(a + b)['/'] == multiset(a)['/'] + multiset(b)['/']
    ensures multiset("/")['/'] == 1 && multiset("")['/'] == 0
  {}

  /** A path text that ends in a slash has no resource id, and so few slashes. */
  lemma ClosedPath(t: string, u: Uri)
    requires InGrammar(t, u) && t != "" && t[|t| - 1] == '/'
    ensures u.resourceId.None? && multiset(t)['/'] <= 3
  {
    hide Joined;
    var space, segs, closing :| IsPath(t, space, segs, closing, u);
    JoinedSlashes(segs, closing);
    JoinedLast(segs, closing);
    SpaceNoSlash(space);
    assert t[|t| - 1] == Joined(segs, closing)[|Joined(segs, closing)| - 1];
  }

  lemma SpaceNoSlash(s: string)
    requires forall k :: 0 <= k < |s| ==> IsSpace(s[k])
    ensures multiset(s)['/'] == 0
  {
    assert '/' !in s;
  }

  lemma BaseAt(buf: string, base: string)
    requires At(buf, 0, S.BN_HEADER_1 + (base + "\","))
    ensures |buf| > 8 + |base|
    ensures Sub(buf, 6, 6 + |base| + 2) == "\"" + base + "\""
  {
    AtSplit(buf, 0, S.BN_HEADER_1, base + "\",");
    AtSplit(buf, 7, base, "\",");
    AtFirst(buf, 7 + |base|, "\",");
    AtSlice(buf, 7, base);
    assert buf[0 + 6] == S.BN_HEADER_1[6];
    assert buf[6..8 + |base|] == [buf[6]] + buf[7..7 + |base|] + [buf[7 + |base|]];
  }

  /** The base path a text starts with, as the parser takes it. */
  lemma BaseTaken(uri: Option<Uri>, buf: string, t: Top, base: string, u: Uri)
    requires TopBounds(buf, t) && t.bn == Some((6, |base| + 2))
    requires At(buf, 0, S.BN_HEADER_1 + (base + "\","))
    ensures BasePath(uri, buf, t) == Some(Some(u)) <==> InGrammar(base, u)
    ensures BasePath(uri, buf, t) == Some(None) <==> base == "/"
  {
    hide InGrammar, At, BasePath;
    BaseAt(buf, base);
    BaseExact(uri, buf, t, u);
    var v := "\"" + base + "\"";
    assert v[1..|v| - 1] == base;
    if v == "\"/\"" { assert base == v[1..|v| - 1] == "/"; }
  }

  /** The path of the text is read back. */
  lemma BaseRead(uri: Option<Uri>, b: Option<Uri>, buf: string, t: Top)
    requires AboveResources(b) && TopBounds(buf, t) && t.bn == Some((6, |BaseText(UriIds(b))| + 2))
    requires At(buf, 0, S.BN_HEADER_1 + (BaseText(UriIds(b)) + "\","))
    ensures BasePath(uri, buf, t) == Some(b)
  {
    hide InGrammar, At, BasePath, BaseText, UriIds;
    var base := BaseText(UriIds(b));
    if b.None? {
      EmptySlashed();
      NoIds();
      BaseTaken(uri, buf, t, base, Uri(0, None, None));
    } else {
      PathInGrammar(b.value);
      BaseTaken(uri, buf, t, base, b.value);
    }
  }

  lemma NoIds()
    ensures UriIds(None) == []
  {}

  lemma PathInGrammar(u: Uri)
    requires AboveResources(Some(u))
    ensures InGrammar(BaseText(UriIds(Some(u))), u)
  {
    hide Decimal, Slashed, Joined, Segments;
    var segs, ids := IdSegments(u), UriIds(Some(u));
    IdsReturn(u);
    assert forall k :: 0 <= k < |segs| ==> segs[k] == Decimal(ids[k]);
    JoinedSlashed(ids, segs);
    var base := BaseText(ids);
    assert base == "" + "/" + Joined(segs, true);
    assert IsPath(base, "", segs, true, u);
  }

  /** A base path that is read from a written text has no resource id, and is read only if it
      has at most two ids. */
  lemma BaseLimits(uri: Option<Uri>, ids: seq<nat>, buf: string, t: Top)
    requires TopBounds(buf, t) && t.bn == Some((6, |BaseText(ids)| + 2))
    requires At(buf, 0, S.BN_HEADER_1 + (BaseText(ids) + "\","))
    ensures var base := BasePath(uri, buf, t);
            base.Some? ==> |ids| <= 2 && (base.value.Some? ==> base.value.value.resourceId.None?)
  {
    hide InGrammar, At, BasePath, BaseText;
    BaseChars(ids);
    var base := BasePath(uri, buf, t);
    if base.Some? {
      if base.value.Some? {
        BaseTaken(uri, buf, t, BaseText(ids), base.value.value);
        ClosedPath(BaseText(ids), base.value.value);
      } else {
        BaseTaken(uri, buf, t, BaseText(ids), Uri(0, None, None));
      }
    }
  }

  lemma MemberKeepsBase(buf: string, i: nat, t: Top)
    requires i < |buf| && TopBounds(buf, t) && t.bn.Some?
    ensures Member(buf, i, t).Some? ==> Member(buf, i, t).value.0.bn == t.bn
  {
    hide Items, CountFrom, Skip, Find, Split;
  }

  lemma {:induction false} MembersKeepBase(buf: string, i: nat, t: Top)
    requires i < |buf| && TopBounds(buf, t) && t.bn.Some?
    ensures Members(buf, i, t).Some? ==> Members(buf, i, t).value.0.bn == t.bn
    decreases |buf| - i
  {
    hide Member, Skip, TopBounds;
    if Next(buf, i) < |buf| {
      MemberKeepsBase(buf, Next(buf, i), t);
      var m := Member(buf, Next(buf, i), t);
      if m.Some? {
        var sep := Next(buf, m.value.1);
        if sep < |buf| && buf[sep] == ',' { MembersKeepBase(buf, sep, m.value.0); }
      }
    }
  }

  lemma MemberKeepsRecords(buf: string, i: nat, t: Top)
    requires i < |buf| && TopBounds(buf, t) && t.records.Some?
    ensures Member(buf, i, t).Some? ==> Member(buf, i, t).value.0.records == t.records
  {
    hide Items, CountFrom, Skip, Find, Split;
  }

  lemma {:induction false} MembersKeepRecords(buf: string, i: nat, t: Top)
    requires i < |buf| && TopBounds(buf, t) && t.records.Some?
    ensures Members(buf, i, t).Some? ==> Members(buf, i, t).value.0.records == t.records
    decreases |buf| - i
  {
    hide Member, Skip, TopBounds;
    if Next(buf, i) < |buf| {
      MemberKeepsRecords(buf, Next(buf, i), t);
      var m := Member(buf, Next(buf, i), t);
      if m.Some? {
        var sep := Next(buf, m.value.1);
        if sep < |buf| && buf[sep] == ',' { MembersKeepRecords(buf, sep, m.value.0); }
      }
    }
  }

  lemma ArrayHasRecords(buf: string, p: nat, t: Top)
    requires p < |buf| && TopBounds(buf, t)
    ensures ArrayMember(buf, p, t).Some? ==> ArrayMember(buf, p, t).value.0.records.Some?
  {
    hide Items, CountFrom, Skip;
  }

  /** A text whose second member is the array is refused or yields records. */
  lemma ArrayFound(buf: string, c: nat, t: Top)
    requires TopBounds(buf, t) && c < |buf| && At(buf, c + 1, "\"e")
    ensures Members(buf, c, t).Some? ==> Members(buf, c, t).value.0.records.Some?
  {
    hide Member, ArrayMember, Skip, TopBounds;
    var key := "\"e";
    assert buf[c + 1 + 0] == key[0] && buf[c + 1 + 1] == key[1];
    NextAt(buf, c);
    MemberKinds(buf, c + 1, t);
    ArrayHasRecords(buf, c + 2, t);
    var m := Member(buf, c + 1, t);
    if m.Some? {
      var sep := Next(buf, m.value.1);
      if sep < |buf| && buf[sep] == ',' { MembersKeepRecords(buf, sep, m.value.0); }
    }
  }

  /** Whatever follows, the base path is the one the text starts with, and there are
      records. */
  lemma BaseFound(buf: string, base: string)
    requires PathChars(base) && At(buf, 0, S.BN_HEADER_1 + (base + "\",")) && At(buf, 9 + |base|, "\"e")
    ensures Scanned(buf).Some? ==>
              Scanned(buf).value.bn == Some((6, |base| + 2)) && Scanned(buf).value.records.Some?
  {
    hide PathChars, At, Members, Member, BaseMember, Skip;
    BaseMemberLayout(buf, base);
    BaseMemberRead(buf, base, NO_TOP);
    MemberKinds(buf, 1, NO_TOP);
    SkipUnique(buf, 0, 0);
    var c := 8 + |base|;
    NextAt(buf, 0);
    NextAt(buf, c - 1);
    var t := Top(None, Some((6, |base| + 2)), false);
    MembersStep(buf, 0, NO_TOP, (t, c - 1), c);
    MembersKeepBase(buf, c, t);
    ArrayFound(buf, c, t);
  }

  // ---------------------------------------------------------------- the tree

  lemma RecordsFirst(es: seq<Entry>)
    requires es != []
    ensures Records(es) == [RecordOf(es[0])] + Records(es[1..])
  {
    hide RecordOf;
  }

  lemma TailOfConcat(a: seq<Entry>, b: seq<Entry>)
    requires a != []
    ensures (a + b)[0] == a[0] && (a + b)[1..] == a[1..] + b
  {}

  lemma {:induction false} RecordsAppend(a: seq<Entry>, b: seq<Entry>)
    ensures Records(a + b) == Records(a) + Records(b)
  {
    hide RecordOf, Records;
    if a == [] {
      NoRecords();
      assert a + b == b && [] + Records(b) == Records(b);
    } else {
      TailOfConcat(a, b);
      RecordsAppend(a[1..], b);
      RecordsFirst(a);
      RecordsFirst(a + b);
      RecordsGroup([RecordOf(a[0])], Records(a[1..]), Records(b));
    }
  }

  lemma RecordsGroup(a: seq<Record>, b: seq<Record>, c: seq<Record>)
    ensures a + (b + c) == (a + b) + c
  {}

  /** Converting the record of an entry gives back its value. */
  lemma EntryConverts(e: Entry)
    requires LeafReturns(e.leaf)
    requires e.leaf.Integer? ==> INT64_MIN <= e.leaf.value <= INT64_MAX
    ensures ConvertedValue(RecordOf(e), e.leaf.id) == Some(e.leaf)
  {
    hide TextToInt, Magnitude, Clean, DotPosition;
    if e.leaf.Integer? {
      var v := e.leaf.value;
      var t := (if v < 0 then "-" else "") + Magnitude(v);
      assert RecordOf(e).value == t;
      NumberText(v);
      NoDot(v);
      DotPositionUnique(t, 0, |t|);
    }
  }

  lemma NumberText(v: int)
    requires INT64_MIN < v <= INT64_MAX
    ensures TextToInt((if v < 0 then "-" else "") + Magnitude(v)) == Some(v)
  {
    hide TextToInt, Magnitude;
    var length := |Magnitude(v)| + 2;
    assert "" + Magnitude(v) == Magnitude(v);
    assert Render(v, length) == Ok((if v < 0 then "-" else "") + Magnitude(v));
    IntRoundTrip(v, length);
  }

  lemma NoDot(v: int)
    requires v != INT64_MIN
    ensures var t := (if v < 0 then "-" else "") + Magnitude(v); forall k :: 0 <= k < |t| ==> t[k] != '.'
  {}

  predicate Absent(list: seq<Data>, id: nat) {
    forall k :: 0 <= k < |list| ==> list[k].id != id
  }

  /** Records placed one after the other from depth `k` on. */
  function PlaceFrom(list: seq<Data>, records: seq<Record>, k: nat, res: nat): Outcome<seq<Data>>
    requires k <= res <= 2
    decreases |records|
  {
    if records == [] then Ok(list)
    else
      match Place(list, records[0], k, res)
      case Ok(next) => PlaceFrom(next, records[1..], k, res)
      case Refused => Refused
      case Stuck => Stuck
  }

  lemma {:induction false} PlaceFromAppend(list: seq<Data>, a: seq<Record>, b: seq<Record>, next: seq<Data>, k: nat,
                                           res: nat)
    requires k <= res <= 2 && PlaceFrom(list, a, k, res) == Ok(next)
    ensures PlaceFrom(list, a + b, k, res) == PlaceFrom(next, b, k, res)
    decreases |a|
  {
    hide Place;
    if a == [] {
      assert a + b == b;
    } else {
      assert (a + b)[1..] == a[1..] + b;
      PlaceFromAppend(Place(list, a[0], k, res).value, a[1..], b, next, k, res);
    }
  }

  lemma PlaceOne(list: seq<Data>, rec: Record, k: nat, res: nat)
    requires k <= res <= 2
    ensures PlaceFrom(list, [rec], k, res) == Place(list, rec, k, res)
  {
    hide Place;
    assert [rec][1..] == [];
  }

  lemma {:induction false} PlaceAllFrom(list: seq<Data>, records: seq<Record>, res: nat)
    requires res <= 2 && forall k :: 0 <= k < |records| ==> PathComplete(records[k].ids, res)
    ensures PlaceAll(list, records, res) == PlaceFrom(list, records, 0, res)
    decreases |records|
  {
    hide Place, PathComplete;
    if records != [] && Place(list, records[0], 0, res).Ok? {
      PlaceAllFrom(Place(list, records[0], 0, res).value, records[1..], res);
    }
  }

  /** A container `above` levels over the resources, a multiple resource at the bottom. */
  function NodeOf(id: nat, above: nat, children: seq<Data>): Data {
    if above == 2 then Object(id, children) else if above == 1 then Instance(id, children) else Multiple(id, children)
  }

  /** The tree once the children `before` of the last container are placed. */
  function Growing(done: seq<Data>, id: nat, above: nat, before: seq<Data>): seq<Data> {
    if before == [] then done else done + [NodeOf(id, above, before)]
  }

  /** Placing below a container is placing among its children. */
  lemma LiftOne(done: seq<Data>, id: nat, before: seq<Data>, rec: Record, k: nat, res: nat, next: seq<Data>)
    requires k < res <= 2 && Absent(done, id) && rec.ids[k] == id
    requires Place(before, rec, k + 1, res) == Ok(next)
    ensures Place(Growing(done, id, res - k, before), rec, k, res) == Ok(Growing(done, id, res - k, next))
    ensures next != []
  {
    hide ConvertedValue;
    PlaceNotEmpty(before, rec, k + 1, res);
    hide Place;
    LiftStep(done, id, before, rec, k, res, next);
  }

  lemma PlaceNotEmpty(list: seq<Data>, rec: Record, k: nat, res: nat)
    requires k <= res <= 2 && Place(list, rec, k, res).Ok?
    ensures Place(list, rec, k, res).value != []
  {
    hide ConvertedValue;
  }

  lemma LiftStep(done: seq<Data>, id: nat, before: seq<Data>, rec: Record, k: nat, res: nat, next: seq<Data>)
    requires k < res <= 2 && Absent(done, id) && rec.ids[k] == id && next != []
    requires Place(before, rec, k + 1, res) == Ok(next)
    ensures Place(Growing(done, id, res - k, before), rec, k, res) == Ok(Growing(done, id, res - k, next))
  {
    hide ConvertedValue, FindItem;
    var list := Growing(done, id, res - k, before);
    var above := res - k;
    FindItemUnique(list, id, |done|);
    var node := if before == [] then FreshNode(id, above) else list[|done|];
    assert node == NodeOf(id, above, before);
    var all := done + [NodeOf(id, above, before)];
    assert (if before == [] then list + [node] else list) == all;
    assert all[|done| := NodeOf(id, above, next)] == done + [NodeOf(id, above, next)];
  }

  lemma {:induction false} Lift(done: seq<Data>, id: nat, before: seq<Data>, records: seq<Record>, k: nat, res: nat,
                                after: seq<Data>)
    requires k < res <= 2 && Absent(done, id)
    requires forall j :: 0 <= j < |records| ==> records[j].ids[k] == id
    requires PlaceFrom(before, records, k + 1, res) == Ok(after)
    ensures PlaceFrom(Growing(done, id, res - k, before), records, k, res) == Ok(Growing(done, id, res - k, after))
    decreases |records|
  {
    hide Place, Growing;
    if records != [] {
      var next := Place(before, records[0], k + 1, res).value;
      LiftOne(done, id, before, records[0], k, res, next);
      Lift(done, id, next, records[1..], k, res, after);
    }
  }

  lemma RecordPath(e: Entry)
    ensures RecordOf(e).ids == IdsOfPath(e.path)
    ensures forall k :: 0 <= k < |e.path| ==> RecordOf(e).ids[k] == e.path[k]
    ensures forall k :: |e.path| <= k < 4 ==> RecordOf(e).ids[k] == MAX_ID
  {}

  lemma PlaceLeaf(done: seq<Data>, d: Data, prefix: seq<nat>)
    requires IsLeaf(d) && LeafReturns(d) && S.InRange(d) && Absent(done, d.id) && |prefix| <= 2
    ensures Place(done, RecordOf(PathAndLeaf.Entry(prefix + [d.id], d)), |prefix|, |prefix|) == Ok(done + [d])
  {
    hide ConvertedValue, RecordOf, LeafReturns;
    var e := PathAndLeaf.Entry(prefix + [d.id], d);
    RecordPath(e);
    EntryConverts(e);
    FindItemUnique(done, d.id, |done|);
    assert (done + [Undefined(d.id)])[|done| := d] == done + [d];
  }

  lemma PlaceBelow(done: seq<Data>, id: nat, before: seq<Data>, c: Data, rec: Record, k: nat)
    requires k <= 2 && rec.ids[k] == id && rec.ids[k + 1] == c.id != MAX_ID && ConvertedValue(rec, c.id) == Some(c)
    requires Absent(done, id)
    ensures Place(Growing(done, id, 0, before), rec, k, k) == Ok(Growing(done, id, 0, before + [c]))
  {
    hide ConvertedValue;
    var list := Growing(done, id, 0, before);
    FindItemUnique(list, id, |done|);
    if before == [] {
      assert (done + [Undefined(id)])[|done| := Multiple(id, [] + [c])] == done + [Multiple(id, before + [c])];
    } else {
      assert list[|done| := Multiple(id, before + [c])] == done + [Multiple(id, before + [c])];
    }
  }

  lemma PlaceChild(done: seq<Data>, id: nat, before: seq<Data>, c: Data, prefix: seq<nat>)
    requires IsLeaf(c) && LeafReturns(c) && S.InRange(c) && Absent(done, id) && |prefix| <= 2
    ensures Place(Growing(done, id, 0, before), RecordOf(PathAndLeaf.Entry(prefix + [id] + [c.id], c)),
                  |prefix|, |prefix|)
            == Ok(Growing(done, id, 0, before + [c]))
  {
    hide ConvertedValue, RecordOf, Place, Growing;
    var e := PathAndLeaf.Entry(prefix + [id] + [c.id], c);
    RecordPath(e);
    EntryConverts(e);
    PlaceBelow(done, id, before, c, RecordOf(e), |prefix|);
  }

  lemma {:induction false} PlaceChildren(done: seq<Data>, id: nat, before: seq<Data>, rest: seq<Data>,
                                         prefix: seq<nat>)
    requires AllShallow(rest, 0) && LeavesReturn(rest) && S.AllInRange(rest) && Absent(done, id) && |prefix| <= 2
    ensures PlaceFrom(Growing(done, id, 0, before), Records(Under(prefix + [id], Flatten(rest, 0))), |prefix|, |prefix|)
            == Ok(Growing(done, id, 0, before + rest))
    decreases |rest|
  {
    hide Place, RecordOf, LeafReturns, Growing, S.InRange, Under, Records;
    if rest == [] {
      NothingWritten(prefix + [id]);
      NoRecords();
      assert before + rest == before;
    } else {
      var c := rest[0];
      assert LeafReturns(c) && S.InRange(c) && Shallow(c, 0);
      LeafReturnsKind(c);
      PlaceChild(done, id, before, c, prefix);
      PlaceChildren(done, id, before + [c], rest[1..], prefix);
      assert before + [c] + rest[1..] == before + rest;
      LeafEntries(c, prefix + [id], 0);
      var e := PathAndLeaf.Entry(prefix + [id] + [c.id], c);
      UnderAppend(prefix + [id], EntriesOf(c, 0), Flatten(rest[1..], 0));
      RecordsAppend([e], Under(prefix + [id], Flatten(rest[1..], 0)));
      OneRecord(e);
      PlaceOne(Growing(done, id, 0, before), RecordOf(e), |prefix|, |prefix|);
      PlaceFromAppend(Growing(done, id, 0, before), [RecordOf(e)], Records(Under(prefix + [id], Flatten(rest[1..], 0))),
                      Growing(done, id, 0, before + [c]), |prefix|, |prefix|);
    }
  }

  lemma LeafReturnsKind(d: Data)
    requires LeafReturns(d)
    ensures !d.IsContainer()
  {}

  lemma NoRecords()
    ensures Records([]) == []
  {}

  lemma OneRecord(e: Entry)
    ensures Records([e]) == [RecordOf(e)]
  {
    hide RecordOf;
    assert [e][1..] == [];
  }

  lemma {:induction false} RecordsIds(es: seq<Entry>, k: nat, id: nat)
    requires k < 4 && forall j :: 0 <= j < |es| ==> k < |es[j].path| && es[j].path[k] == id
    ensures forall j :: 0 <= j < |es| ==> Records(es)[j].ids[k] == id
  {
    hide RecordOf;
    if es != [] {
      RecordPath(es[0]);
      RecordsIds(es[1..], k, id);
    }
  }

  lemma PlaceResource(done: seq<Data>, d: Data, prefix: seq<nat>)
    requires IsResource(d) && NodeReturns(d, 0) && Absent(done, d.id) && |prefix| <= 2
    requires S.InRange(d) && (d.IsContainer() ==> S.AllInRange(d.children)) && Shallow(d, 1)
    ensures PlaceFrom(done, Records(Under(prefix, EntriesOf(d, 1))), |prefix|, |prefix|) == Ok(done + [d])
  {
    hide LeavesReturn, S.AllInRange, LeafReturns, Records, Under, Place, RecordOf, AllShallow;
    if d.Multiple? {
      PlaceChildren(done, d.id, [], d.children, prefix);
      assert [] + d.children == d.children;
      UnderUnder(prefix, [d.id], Flatten(d.children, 0));
    } else {
      var e := PathAndLeaf.Entry(prefix + [d.id], d);
      PlaceLeaf(done, d, prefix);
      LeafEntries(d, prefix, 1);
      OneRecord(e);
      PlaceOne(done, RecordOf(e), |prefix|, |prefix|);
    }
  }

  /** The records of a node build the node again. */
  lemma {:induction false} PlaceNode(done: seq<Data>, d: Data, prefix: seq<nat>, level: nat)
    requires |prefix| + level <= 2 && IsNode(d, level) && Shallow(d, level + 1)
    requires NodeReturns(d, level) && Absent(done, d.id)
    requires S.InRange(d) && (d.IsContainer() ==> S.AllInRange(d.children))
    ensures PlaceFrom(done, Records(Under(prefix, EntriesOf(d, level + 1))), |prefix|, |prefix| + level)
            == Ok(done + [d])
    decreases level, 0, 0
  {
    hide Faithful, S.AllInRange, S.InRange, Records, Under, Place, PlaceFrom, Nodes, AllShallow, ResourceReturns,
         Flatten;
    if level == 0 {
      PlaceResource(done, d, prefix);
    } else {
      var es := Flatten(d.children, level);
      ChildrenSmall(d, level);
      FaithfulParts(d.children, level - 1);
      assert [] + d.children == d.children;
      PlaceNodes([], d.children, prefix + [d.id], level - 1);
      UnderUnder(prefix, [d.id], es);
      PrefixIds(prefix, d.id, es);
      Lift(done, d.id, [], Records(Under(prefix + [d.id], es)), |prefix|, |prefix| + level, d.children);
      assert d == NodeOf(d.id, level, d.children);
    }
  }

  lemma FaithfulParts(list: seq<Data>, level: nat)
    requires Faithful(list, level)
    ensures Distinct(list) && forall k :: 0 <= k < |list| ==> NodeReturns(list[k], level)
  {
    hide NodeReturns, Distinct;
  }

  lemma ChildrenSmall(d: Data, level: nat)
    requires 0 < level <= 2 && NodeReturns(d, level)
    ensures d.IsContainer() && Faithful(d.children, level - 1) && SmallIds(d.children) && d.children != []
  {
    hide Faithful, SmallIds;
    NodeParts(d, level);
    BelowSmall(d.children, level - 1);
  }

  lemma PrefixIds(prefix: seq<nat>, id: nat, es: seq<Entry>)
    requires |prefix| <= 2 && forall k :: 0 <= k < |es| ==> |prefix| + 1 + |es[k].path| <= 4
    ensures var records := Records(Under(prefix + [id], es));
            forall j :: 0 <= j < |records| ==> records[j].ids[|prefix|] == id
  {
    var all := Under(prefix + [id], es);
    forall j | 0 <= j < |all|
      ensures |prefix| < |all[j].path| && all[j].path[|prefix|] == id
    {
      assert all[j].path == prefix + [id] + es[j].path;
    }
    RecordsIds(all, |prefix|, id);
  }

  /** The records of faithful data build that data again. */
  lemma {:induction false} PlaceNodes(done: seq<Data>, rest: seq<Data>, prefix: seq<nat>, level: nat)
    requires |prefix| + level <= 2 && Nodes(rest, level) && AllShallow(rest, level + 1)
    requires S.AllInRange(rest) && Distinct(done + rest)
    requires forall k :: 0 <= k < |rest| ==> NodeReturns(rest[k], level)
    ensures PlaceFrom(done, Records(Under(prefix, Flatten(rest, level + 1))), |prefix|, |prefix| + level)
            == Ok(done + rest)
    decreases level, 1, |rest|
  {
    hide NodeReturns, IsNode, EntriesOf, Records, S.InRange, Under, Place, Shallow;
    if rest == [] {
      NothingWritten(prefix);
      NoRecords();
      assert done + rest == done;
    } else {
      var d := rest[0];
      var all := done + rest;
      forall k | 0 <= k < |done|
        ensures done[k].id != d.id
      {
        assert all[k] == done[k] && all[|done|] == d;
      }
      PlaceNode(done, d, prefix, level);
      var a, b := Under(prefix, EntriesOf(d, level + 1)), Under(prefix, Flatten(rest[1..], level + 1));
      UnderAppend(prefix, EntriesOf(d, level + 1), Flatten(rest[1..], level + 1));
      RecordsAppend(a, b);
      PlaceFromAppend(done, Records(a), Records(b), done + [d], |prefix|, |prefix| + level);
      assert done + [d] + rest[1..] == done + rest;
      PlaceNodes(done + [d], rest[1..], prefix, level);
    }
  }

  // ---------------------------------------------------------------- faithful data returns

  /** Entries of nodes name a resource or one of its instances, and faithful ones are clean. */
  lemma {:induction false} NodeGood(d: Data, level: nat)
    requires level <= 2 && IsNode(d, level) && Shallow(d, level + 1) && NodeReturns(d, level) && d.id < MAX_ID
    ensures var es := EntriesOf(d, level + 1);
            && es != [] && GoodEntries(es)
            && forall k :: 0 <= k < |es| ==> level + 1 <= |es[k].path| <= level + 2
    decreases level, 0, 0
  {
    hide Faithful, AllShallow, Nodes, Flatten, GoodEntry;
    if level > 0 {
      ChildrenSmall(d, level);
      FaithfulParts(d.children, level - 1);
      NodesGood(d.children, level - 1);
      PrefixGood(d.id, Flatten(d.children, level));
    } else if d.Multiple? {
      LeavesGood(d.children);
      PrefixGood(d.id, Flatten(d.children, 0));
    } else {
      LeafGood(d);
    }
  }

  lemma LeafGood(d: Data)
    requires IsLeaf(d) && LeafReturns(d)
    ensures GoodEntry(PathAndLeaf.Entry([d.id], d))
  {
    hide Clean;
  }

  lemma {:induction false} LeavesGood(list: seq<Data>)
    requires AllShallow(list, 0) && LeavesReturn(list)
    ensures var es := Flatten(list, 0);
            && |es| == |list| && GoodEntries(es) && forall k :: 0 <= k < |es| ==> |es[k].path| == 1
  {
    hide LeafReturns, GoodEntry;
    if list != [] {
      assert LeafReturns(list[0]) && Shallow(list[0], 0);
      LeafGood(list[0]);
      LeavesGood(list[1..]);
    }
  }

  lemma PrefixGood(id: nat, es: seq<Entry>)
    requires id < MAX_ID && GoodEntries(es) && forall k :: 0 <= k < |es| ==> |es[k].path| <= 3
    ensures GoodEntries(Under([id], es))
    ensures forall k :: 0 <= k < |es| ==> |Under([id], es)[k].path| == 1 + |es[k].path|
  {
    hide Clean;
    forall k | 0 <= k < |es|
      ensures GoodEntry(Under([id], es)[k])
    {
      assert GoodEntry(es[k]);
    }
  }

  lemma {:induction false} NodesGood(list: seq<Data>, level: nat)
    requires level <= 2 && Nodes(list, level) && AllShallow(list, level + 1) && SmallIds(list)
    requires forall k :: 0 <= k < |list| ==> NodeReturns(list[k], level)
    ensures var es := Flatten(list, level + 1);
            && (list != [] ==> es != []) && GoodEntries(es)
            && forall k :: 0 <= k < |es| ==> level + 1 <= |es[k].path| <= level + 2
    decreases level, 1, |list|
  {
    hide NodeReturns, IsNode, Shallow, EntriesOf, GoodEntry;
    if list != [] {
      NodeGood(list[0], level);
      NodesGood(list[1..], level);
    }
  }

  /** Their records are complete for a base path of that level. */
  lemma {:induction false} RecordsComplete(es: seq<Entry>, level: nat)
    requires level <= 2 && GoodEntries(es)
    requires forall k :: 0 <= k < |es| ==> level + 1 <= |es[k].path| <= level + 2
    ensures forall k :: 0 <= k < |es| ==> PathComplete(Records(es)[k].ids, level)
  {
    hide RecordOf;
    if es != [] {
      assert GoodEntry(es[0]);
      RecordPath(es[0]);
      RecordsComplete(es[1..], level);
    }
  }

  /** The tree of faithful data below a base path. */
  lemma NodesConvert(b: Option<Uri>, list: seq<Data>)
    requires AboveResources(b) && Nodes(list, LevelOf(b)) && AllShallow(list, LevelOf(b) + 1)
    requires Faithful(list, LevelOf(b)) && SmallIds(list) && S.AllInRange(list)
    ensures var records := Records(Flatten(list, LevelOf(b) + 1));
            && |records| >= |list|
            && Converted(b, records) == Ok(Wrapped(b, list + Padding(|records| - |list|)))
  {
    hide Faithful, NodeReturns, Flatten, Records, PlaceAll, PlaceFrom, Nodes, AllShallow, S.AllInRange, SmallIds,
         Wrapped, Padding, PathComplete, AboveResources, GoodEntries, Distinct;
    var level := LevelOf(b);
    var es := Flatten(list, level + 1);
    FaithfulParts(list, level);
    NodesGood(list, level);
    RecordsComplete(es, level);
    assert [] + list == list;
    PlaceNodes([], list, [], level);
    UnderNothing(es);
    PlaceAllFrom([], Records(es), level);
    NoResource(b);
    ResourceSegmentLevel(b);
  }

  lemma NoResource(b: Option<Uri>)
    requires AboveResources(b)
    ensures b.Some? ==> b.value.resourceId.None?
  {}

  // ---------------------------------------------------------------- lone containers

  /** The path a request and the ids of lone containers make. */
  function Deeper(uri: Option<Uri>, ids: seq<nat>): Option<Uri> {
    if ids == [] then uri
    else
      match uri
      case None => Some(Uri(ids[0], if |ids| > 1 then Some(ids[1]) else None, None))
      case Some(u) => Some(u.(instanceId := Some(ids[0])))
  }

  lemma NoChain(list: seq<Data>)
    requires |list| != 1 || !list[0].IsContainer()
    ensures Chain(list) == [] && Below(list) == list && !LoneMultiple(list)
  {}

  lemma ChainStep(list: seq<Data>)
    requires |list| == 1 && list[0].IsContainer()
    ensures Chain(list) == [list[0].id] + Chain(list[0].children) && Below(list) == Below(list[0].children)
    ensures LoneMultiple(list) <==> list[0].Multiple? || LoneMultiple(list[0].children)
  {}

  lemma ResourceList(list: seq<Data>)
    requires Nodes(list, 0) && list != []
    ensures !list[0].Object? && !list[0].Instance?
    ensures list[0].IsContainer() ==> forall k :: 0 <= k < |list[0].children| ==> IsLeaf(list[0].children[k])
  {
    assert IsNode(list[0], 0);
  }

  /** How far a chain goes: to a multiple resource, or not below the level of the resources. */
  lemma {:induction false} ChainLength(list: seq<Data>, level: nat)
    requires Nodes(list, level)
    ensures if LoneMultiple(list) then |Chain(list)| == level + 1 else |Chain(list)| <= level
    decreases level
  {
    hide LoneMultiple, Chain, Below;
    if |list| == 1 && list[0].IsContainer() {
      ChainStep(list);
      assert IsNode(list[0], level);
      if level > 0 {
        ChainLength(list[0].children, level - 1);
      } else {
        ResourceList(list);
        NoChain(list[0].children);
      }
    } else {
      NoChain(list);
    }
  }

  /** What lone containers leave, and the path they add. */
  lemma {:induction false} ChainPath(uri: Option<Uri>, list: seq<Data>)
    requires AboveResources(uri) && list != [] && Nodes(list, LevelOf(uri)) && S.AllInRange(list)
    requires Faithful(list, LevelOf(uri)) && !LoneMultiple(list)
    ensures var b := Deeper(uri, Chain(list));
            && AboveResources(b) && Within(uri, b) && UriIds(b) == UriIds(uri) + Chain(list)
            && Below(list) != [] && Nodes(Below(list), LevelOf(b)) && S.AllInRange(Below(list))
            && Faithful(Below(list), LevelOf(b)) && SmallIds(Below(list))
            && WrappedBelow(uri, b, Below(list)) == list
    decreases LevelOf(uri)
  {
    hide LoneMultiple, Chain, Below, Faithful, SmallIds, Nodes, S.AllInRange;
    var level := LevelOf(uri);
    if |list| == 1 && list[0].IsContainer() {
      ChainStep(list);
      LoneParts(list, level);
      var d := list[0];
      assert list == [d];
      var next := Deeper(uri, [d.id]);
      ChainPath(next, d.children);
    } else {
      NoChain(list);
      SeveralSmall(list, level);
    }
  }

  lemma LoneParts(list: seq<Data>, level: nat)
    requires |list| == 1 && list[0].IsContainer() && !list[0].Multiple? && level <= 2
    requires Nodes(list, level) && Faithful(list, level) && S.AllInRange(list)
    ensures level > 0 && (if level == 1 then list[0].Instance? else list[0].Object?)
    ensures list[0].id <= MAX_ID && (level == 1 ==> list[0].id < MAX_ID)
    ensures list[0].children != [] && Nodes(list[0].children, level - 1) && Faithful(list[0].children, level - 1)
    ensures S.AllInRange(list[0].children)
  {
    assert IsNode(list[0], level);
    NodeAt(list, level, 0);
    if level > 0 { NodeParts(list[0], level); }
  }

  lemma SeveralSmall(list: seq<Data>, level: nat)
    requires Nodes(list, level) && Faithful(list, level) && list != []
    requires |list| != 1 || !list[0].IsContainer()
    ensures SmallIds(list)
  {
    hide NodeReturns;
    assert IsNode(list[0], level);
  }

  /** The text of small faithful data below a path, read for any request: the parser picks
      from that data, with the nodes of the path around it and some slots left over. */
  lemma TextRead(b: Option<Uri>, rest: seq<Data>, request: Option<Uri>) returns (n: nat)
    requires AboveResources(b) && rest != [] && Nodes(rest, LevelOf(b)) && S.AllInRange(rest)
    requires Faithful(rest, LevelOf(b)) && SmallIds(rest)
    ensures AllShallow(rest, LevelOf(b) + 1) && Wrapped(b, rest + Padding(n)) != []
    ensures var es := Flatten(rest, LevelOf(b) + 1);
            && es != [] && GoodEntries(es)
            && Parsed(request, FullText(BaseText(UriIds(b)), es)) == Selected(request, Wrapped(b, rest + Padding(n)))
  {
    hide Faithful, BaseText, Flatten, FullText, Scanned, Converted, Selected, S.AllInRange, Nodes, PathChars, BasePath,
         At, GoodEntries, Records, Wrapped, UriIds, AboveResources, AllShallow, SmallIds, Padding, NodeReturns,
         ItemsText;
    var level := LevelOf(b);
    NodesShallow(rest, level);
    FaithfulParts(rest, level);
    NodesGood(rest, level);
    var es, ids := Flatten(rest, level + 1), UriIds(b);
    BaseChars(ids);
    ScanRead(BaseText(ids), es);
    FullTextLayout(BaseText(ids), es);
    BaseRead(request, b, FullText(BaseText(ids), es), Top(Some(Records(es)), Some((6, |BaseText(ids)| + 2)), false));
    NodesConvert(b, rest);
    n := |Records(es)| - |rest|;
    WrappedNotEmpty(b, rest + Padding(n));
  }

  /** The tree a written text is parsed into: its base path, the data below it, and how many
      slots are left over.  The request does not matter. */
  lemma TreeRead(uri: Option<Uri>, list: seq<Data>, t: string, request: Option<Uri>)
    returns (b: Option<Uri>, rest: seq<Data>, n: nat)
    requires AboveResources(uri) && list != [] && Nodes(list, LevelOf(uri)) && S.AllInRange(list)
    requires S.Serialized(uri, list) == Ok(t) && t != ""
    requires Faithful(list, LevelOf(uri)) && !LoneMultiple(list)
    ensures AboveResources(b) && Within(uri, b) && WrappedBelow(uri, b, rest) == list
    ensures rest != [] && Faithful(rest, LevelOf(b)) && Wrapped(b, rest + Padding(n)) != []
    ensures Parsed(request, t) == Selected(request, Wrapped(b, rest + Padding(n)))
  {
    hide Faithful, BaseText, S.Serialized, Flatten, FullText, Parsed, Selected, S.AllInRange, Nodes, GoodEntries,
         Wrapped, WrappedBelow, LoneMultiple, Chain, Below, UriIds, Deeper, AboveResources, AllShallow, SmallIds,
         Padding, Within;
    b := Deeper(uri, Chain(list));
    ChainPath(uri, list);
    rest := Below(list);
    n := TextRead(b, rest, request);
    NodesText(uri, list, LevelOf(b) + 1, t);
  }

  lemma WrappedNotEmpty(b: Option<Uri>, root: seq<Data>)
    requires root != []
    ensures Wrapped(b, root) != []
  {}

  lemma FaithfulReturns(uri: Option<Uri>, list: seq<Data>, t: string)
    requires AboveResources(uri) && list != [] && Nodes(list, LevelOf(uri)) && S.AllInRange(list)
    requires S.Serialized(uri, list) == Ok(t) && t != ""
    requires Faithful(list, LevelOf(uri)) && !LoneMultiple(list)
    ensures Parsed(uri, t) == Ok(list)
  {
    hide Faithful, S.Serialized, Selected, S.AllInRange, Nodes, Wrapped, WrappedBelow, LoneMultiple, AboveResources,
         Padding, Within, Parsed;
    var b, rest, n := TreeRead(uri, list, t, uri);
    SelectExact(uri, b, rest, n);
  }

  // ---------------------------------------------------------------- and nothing else does

  /** What comes back from a written text is faithful data, and never below the path a
      lone multiple resource moves into. */
  lemma OnlyFaithfulReturns(uri: Option<Uri>, list: seq<Data>, t: string)
    requires AboveResources(uri) && list != [] && Nodes(list, LevelOf(uri))
    requires S.Serialized(uri, list) == Ok(t) && t != ""
    requires Parsed(uri, t) == Ok(list)
    ensures Faithful(list, LevelOf(uri)) && !LoneMultiple(list)
  {
    hide BaseText, S.Serialized, S.Target, Scanned, BasePath, Converted, Selected, Nodes, PathChars, At, AboveResources,
         Faithful, LoneMultiple, Chain;
    var ids := UriIds(uri) + Chain(list);
    TargetIsList(uri, list);
    UriOk(uri);
    TextStarts(uri, list, t, ids);
    BaseChars(ids);
    BaseFound(t, BaseText(ids));
    BaseLimits(uri, ids, t, Scanned(t).value);
    ChainLength(list, LevelOf(uri));
    IdsOfLevel(uri);
    OutputFaithful(uri, t, list);
  }

  lemma IdsOfLevel(uri: Option<Uri>)
    requires AboveResources(uri)
    ensures |UriIds(uri)| == 2 - LevelOf(uri)
  {}

  /** The round trip: what is written for the root, an object or an instance is read back as
      the same list, in the same order, exactly when it is faithful data and not a lone
      multiple resource. */
  lemma RoundTrip(uri: Option<Uri>, list: seq<Data>, t: string)
    requires AboveResources(uri) && list != [] && Nodes(list, LevelOf(uri)) && S.AllInRange(list)
    requires S.Serialized(uri, list) == Ok(t) && t != ""
    ensures Parsed(uri, t) == Ok(list) <==> Faithful(list, LevelOf(uri)) && !LoneMultiple(list)
  {
    hide *;
    if Faithful(list, LevelOf(uri)) && !LoneMultiple(list) { FaithfulReturns(uri, list, t); }
    if Parsed(uri, t) == Ok(list) { OnlyFaithfulReturns(uri, list, t); }
  }

  /** The same when the data starts above the path: what is listed below it returns. */
  lemma RoundTripBelow(uri: Option<Uri>, list: seq<Data>, target: seq<Data>, t: string)
    requires AboveResources(uri) && S.AllInRange(list) && S.Target(uri, list) == Ok(target)
    requires target != [] && Nodes(target, LevelOf(uri))
    requires S.Serialized(uri, list) == Ok(t) && t != ""
    ensures Parsed(uri, t) == Ok(target) <==> Faithful(target, LevelOf(uri)) && !LoneMultiple(target)
  {
    hide S.Target, S.Descend, S.Body, Parsed, Faithful, LoneMultiple, Nodes, S.AllInRange, AboveResources;
    S.TargetInRange(uri, list);
    TargetIsList(uri, target);
    RoundTrip(uri, target, t);
  }

  /** `target` is what the containers with these ids, each inside the one before, list. */
  ghost predicate LeadsTo(list: seq<Data>, ids: seq<nat>, target: seq<Data>)
    decreases |ids|
  {
    if ids == [] then target == list
    else exists k :: 0 <= k < |list| && FirstWith(list, k, ids[0]) && LeadsTo(list[k].Children(), ids[1..], target)
  }

  predicate FirstWith(list: seq<Data>, k: nat, id: nat)
    requires k < |list|
  {
    list[k].id == id && forall j :: 0 <= j < k ==> list[j].id != id
  }

  /** The ids of a path from the level of the data on. */
  function IdsFrom(uri: Option<Uri>, level: nat): seq<nat>
    requires AboveResources(uri) && LevelOf(uri) <= level <= 2
  {
    UriIds(uri)[2 - level..]
  }

  /** One level of the search. */
  lemma TargetStep(uri: Option<Uri>, list: seq<Data>, level: nat) returns (id: nat, k: nat)
    requires AboveResources(uri) && LevelOf(uri) < level <= 2 && Nodes(list, level) && list != []
    ensures IdsFrom(uri, level) == [id] + IdsFrom(uri, level - 1)
    ensures k <= |list| && (k < |list| ==> FirstWith(list, k, id) && Nodes(list[k].Children(), level - 1))
    ensures k == |list| ==> forall j :: 0 <= j < |list| ==> list[j].id != id
    ensures S.Target(uri, list) == if k == |list| then Refused else S.Target(uri, list[k].Children())
  {
    hide Nodes, IsNode;
    LevelKinds(list, level);
    id := IdsFrom(uri, level)[0];
    assert S.SoughtId(uri, list[0]) == Some(id);
    k := S.PositionOf(list, id);
  }

  lemma LeadsStep(list: seq<Data>, id: nat, k: nat, ids: seq<nat>, target: seq<Data>)
    requires k < |list| && FirstWith(list, k, id)
    ensures LeadsTo(list, [id] + ids, target) <==> LeadsTo(list[k].Children(), ids, target)
  {
    var all := [id] + ids;
    assert all[1..] == ids;
    assert forall j :: 0 <= j < |list| && FirstWith(list, j, id) ==> j == k;
  }

  lemma LeadsNowhere(list: seq<Data>, id: nat, ids: seq<nat>, target: seq<Data>)
    requires forall j :: 0 <= j < |list| ==> list[j].id != id
    ensures !LeadsTo(list, [id] + ids, target)
  {}

  /** Data that starts above the path is searched along the ids of the path. */
  lemma {:induction false} TargetExact(uri: Option<Uri>, list: seq<Data>, level: nat, target: seq<Data>)
    requires AboveResources(uri) && LevelOf(uri) <= level <= 2 && Nodes(list, level) && target != []
    ensures S.Target(uri, list) == Ok(target) <==> LeadsTo(list, IdsFrom(uri, level), target)
    ensures LeadsTo(list, IdsFrom(uri, level), target) ==> Nodes(target, LevelOf(uri))
    decreases level
  {
    hide Nodes, S.Target, LeadsTo, IdsFrom, FirstWith, AboveResources;
    if list == [] {
      NothingLeads(uri, level, target);
    } else if level == LevelOf(uri) {
      TargetIsList(uri, list);
      NoIdsLeft(uri, list, target);
    } else {
      var id, k := TargetStep(uri, list, level);
      if k < |list| {
        TargetExact(uri, list[k].Children(), level - 1, target);
        LeadsStep(list, id, k, IdsFrom(uri, level - 1), target);
      } else {
        LeadsNowhere(list, id, IdsFrom(uri, level - 1), target);
      }
    }
  }

  lemma NothingLeads(uri: Option<Uri>, level: nat, target: seq<Data>)
    requires AboveResources(uri) && LevelOf(uri) <= level <= 2 && target != []
    ensures S.Target(uri, []) != Ok(target) && !LeadsTo([], IdsFrom(uri, level), target)
  {}

  lemma NoIdsLeft(uri: Option<Uri>, list: seq<Data>, target: seq<Data>)
    requires AboveResources(uri)
    ensures LeadsTo(list, IdsFrom(uri, LevelOf(uri)), target) <==> target == list
  {
    assert IdsFrom(uri, LevelOf(uri)) == [];
  }

  lemma LevelKinds(list: seq<Data>, level: nat)
    requires list != [] && Nodes(list, level) && 0 < level <= 2
    ensures S.Uniform(list)
    ensures forall k :: 0 <= k < |list| ==> (if level == 1 then list[k].Instance? else list[k].Object?)
                                            && Nodes(list[k].children, level - 1)
  {
    assert forall k :: 0 <= k < |list| ==> IsNode(list[k], level);
  }

  /** Data that starts above the path: what the ids of the path lead to returns. */
  lemma RoundTripUnder(uri: Option<Uri>, list: seq<Data>, level: nat, target: seq<Data>, t: string)
    requires AboveResources(uri) && LevelOf(uri) <= level <= 2 && Nodes(list, level) && S.AllInRange(list)
    requires target != [] && LeadsTo(list, IdsFrom(uri, level), target)
    requires S.Serialized(uri, list) == Ok(t) && t != ""
    ensures Parsed(uri, t) == Ok(target) <==> Faithful(target, LevelOf(uri)) && !LoneMultiple(target)
  {
    hide *;
    TargetExact(uri, list, level, target);
    RoundTripBelow(uri, list, target, t);
  }

  /** A text written for a resource is never read back, whatever the data and the request:
      its base path ends in a slash. */
  lemma ResourceNeverReturns(u: Uri, list: seq<Data>, t: string, request: Option<Uri>)
    requires WellFormed(u) && u.resourceId.Some?
    requires S.Serialized(Some(u), list) == Ok(t) && t != ""
    ensures Parsed(request, t) == Refused
  {
    hide BaseText, S.Serialized, S.Target, Scanned, BasePath, Converted, Selected, PathChars, At, Chain;
    var target := S.Target(Some(u), list);
    SerializedShape(Some(u), list, t);
    var ids := UriIds(Some(u)) + Chain(target.value);
    TextStarts(Some(u), list, t, ids);
    BaseChars(ids);
    BaseFound(t, BaseText(ids));
    if Scanned(t).Some? { BaseLimits(request, ids, t, Scanned(t).value); }
  }

  /** Resources whose strings are free of quotes, backslashes, commas and braces are always
      carried. */
  lemma PlainStringsFaithful(list: seq<Data>)
    requires forall k :: 0 <= k < |list| ==> IsLeaf(list[k]) && list[k].id < MAX_ID
    requires forall k :: 0 <= k < |list| && list[k].Str? ==>
               forall c :: c in list[k].text ==> c !in {'"', '\\', ',', '{', '}'}
    requires forall k :: 0 <= k < |list| && list[k].Integer? ==> list[k].value != INT64_MIN
    requires Distinct(list)
    ensures Faithful(list, 0) && !LoneMultiple(list)
  {
    forall k | 0 <= k < |list|
      ensures LeafReturns(list[k])
    {
      if list[k].Str? {
        var text := list[k].text;
        assert forall j :: 0 <= j < |text| ==> text[j] in text;
      }
    }
  }
}
