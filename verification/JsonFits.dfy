/** Which data `json_serialize` has room for: the text is written if and only if it fits the
    buffer, so that the round trip is not about texts that are never produced. */
module JsonFits {
  import opened Text
  import opened Uris
  import opened JsonTree
  import opened JsonParse
  import opened JsonReadBack
  import opened JsonOutput
  import opened JsonRoundTrip
  import S = JsonSerialize

  // ---------------------------------------------------------------- one item

  predicate SmallPath(ids: seq<nat>) {
    forall k :: 0 <= k < |ids| ==> ids[k] <= MAX_ID
  }

  lemma {:induction false} SlashedLength(ids: seq<nat>)
    requires SmallPath(ids)
    ensures |Slashed(ids)| <= 6 * |ids|
  {
    hide Decimal;
    if ids != [] {
      DecimalLength(ids[0]);
      SlashedLength(ids[1..]);
    }
  }

  lemma NameFits(id: nat, parent: string, room: nat)
    requires |S.ITEM_URI| + |parent| + |Decimal(id)| <= room
    ensures S.NameText(id, parent, room).Ok?
  {
    hide Decimal;
  }

  lemma ValueFits(d: Data, room: nat)
    requires IsLeaf(d) && |"\"," + ValueStr(d) + "},"| <= room
    ensures S.ValueText(d, room).Ok?
  {
    hide Magnitude;
    match d {
      case Integer(_, v) =>
        var t := (if v < 0 then "-" else "") + Magnitude(v);
        NumberParts(t);
        assert |S.ITEM_NUM| + |t| + |S.ITEM_NUM_END| <= room;
      case Boolean(_, flag) =>
      case Str(_, text) =>
        StringParts(text);
        assert |S.ITEM_STRING_BEGIN| + |text| + |S.ITEM_STRING_END| <= room;
    }
  }

  lemma LeafFits(d: Data, prefix: seq<nat>, room: nat)
    requires IsLeaf(d) && |prefix| <= 3
    requires |ItemText(PathAndLeaf.Entry(prefix + [d.id], d)) + ","| <= room
    ensures S.DataText(d, Slashed(prefix), room).Ok?
  {
    hide S.NameText, S.ValueText, ValueStr, PathStr, Slashed, Decimal, ItemText;
    SlashedLast(prefix, d.id);
    ItemParts(prefix + [d.id], d);
    NameFits(d.id, Slashed(prefix), room);
    NameWritten(d.id, Slashed(prefix), room);
    ValueFits(d, room - |S.NameText(d.id, Slashed(prefix), room).value|);
  }

  /** The path of a container holds two ids and a third without a slash. */
  lemma PathFits(id: nat, prefix: seq<nat>)
    requires id <= MAX_ID && SmallPath(prefix) && |prefix| <= 2
    ensures S.ContainerPath(id, Slashed(prefix)).Ok?
  {
    hide Slashed, Decimal;
    SlashedLength(prefix);
    DecimalLength(id);
  }

  // ---------------------------------------------------------------- lists

  lemma {:induction false} DataFits(d: Data, prefix: seq<nat>, n: nat, room: nat)
    requires |prefix| + n <= 3 && Shallow(d, n) && SmallPath(prefix)
    requires S.InRange(d) && (d.IsContainer() ==> S.AllInRange(d.children))
    requires |Commas(Under(prefix, EntriesOf(d, n)))| <= room
    ensures S.DataText(d, Slashed(prefix), room).Ok?
    decreases n, 0, 0
  {
    hide Slashed, ItemText, S.ListText, S.ContainerPath, S.NameText, S.ValueText, Commas, Under, Flatten, AllShallow;
    if d.IsContainer() {
      PathFits(d.id, prefix);
      PathWritten(d.id, prefix);
      UnderUnder(prefix, [d.id], Flatten(d.children, n - 1));
      ListFits(d.children, prefix + [d.id], n - 1, room);
    } else {
      LeafEntries(d, prefix, n);
      LeafFits(d, prefix, room);
    }
  }

  lemma {:induction false} ListFits(list: seq<Data>, prefix: seq<nat>, n: nat, room: nat)
    requires |prefix| + n <= 3 && AllShallow(list, n) && SmallPath(prefix) && S.AllInRange(list)
    requires |Commas(Under(prefix, Flatten(list, n)))| <= room
    ensures S.ListText(list, Slashed(prefix), room).Ok?
    decreases n, 1, |list|
  {
    hide Slashed, S.DataText, Commas, Under, EntriesOf, Shallow, S.InRange;
    if list != [] {
      UnderAppend(prefix, EntriesOf(list[0], n), Flatten(list[1..], n));
      CommasAppend(Under(prefix, EntriesOf(list[0], n)), Under(prefix, Flatten(list[1..], n)));
      DataFits(list[0], prefix, n, room);
      DataWritten(list[0], prefix, n, room);
      ListFits(list[1..], prefix, n, room - |S.DataText(list[0], Slashed(prefix), room).value|);
    }
  }

  lemma {:induction false} BodyFits(list: seq<Data>, n: nat, head: nat)
    requires n <= 3 && AllShallow(list, n) && S.AllInRange(list)
    requires head + |Commas(Flatten(list, n))| < S.BUFFER_SIZE
    ensures S.Body(list, head) == Ok(Commas(Flatten(list, n)))
    decreases |list|
  {
    hide S.DataText, Commas, EntriesOf, Shallow, Under, S.InRange;
    if list == [] {
      NothingWritten([]);
    } else {
      assert Slashed([]) == "";
      UnderNothing(EntriesOf(list[0], n));
      CommasAppend(EntriesOf(list[0], n), Flatten(list[1..], n));
      DataFits(list[0], [], n, S.BUFFER_SIZE - head);
      DataWritten(list[0], [], n, S.BUFFER_SIZE - head);
      BodyFits(list[1..], n, head + |S.DataText(list[0], "", S.BUFFER_SIZE - head).value|);
    }
  }

  // ---------------------------------------------------------------- the base path

  lemma {:induction false} DescendFits(ids: seq<nat>, list: seq<Data>)
    requires SmallPath(ids) && |ids| + |Chain(list)| <= 2 && S.AllInRange(list)
    ensures |BaseText(ids)| <= S.URI_MAX_STRING_LEN
    ensures S.Descend(BaseText(ids), list) == Ok((BaseText(ids + Chain(list)), Below(list)))
    decreases list
  {
    hide Slashed, Decimal;
    SlashedLength(ids);
    if |list| == 1 && list[0].IsContainer() {
      var id, next := list[0].id, ids + [list[0].id];
      SlashedLast(ids, id);
      DecimalLength(id);
      assert S.InRange(list[0]);
      assert Render(id, S.URI_MAX_STRING_LEN - |BaseText(ids)|) == Ok(Decimal(id));
      assert "/" + (Slashed(ids) + Decimal(id) + "/") == BaseText(ids) + Decimal(id) + "/";
      DescendFits(next, list[0].children);
      assert next + Chain(list[0].children) == ids + ([id] + Chain(list[0].children));
    } else {
      assert ids + [] == ids;
    }
  }

  lemma PathAbove(uri: Option<Uri>)
    requires AboveResources(uri)
    ensures SmallPath(UriIds(uri)) && |UriIds(uri)| == 2 - LevelOf(uri)
    ensures UriToText(uri, 18) == Ok(BaseText(UriIds(uri)))
  {
    hide Decimal, Slashed;
    if uri.Some? { InstancePathFits(uri.value); }
    UriOk(uri);
    UriWritten(uri);
  }

  // ---------------------------------------------------------------- the whole text

  /** Data that comes back, for the root, an object or an instance. */
  predicate Carried(uri: Option<Uri>, list: seq<Data>) {
    && AboveResources(uri) && list != [] && Nodes(list, LevelOf(uri)) && S.AllInRange(list)
    && Faithful(list, LevelOf(uri)) && !LoneMultiple(list)
  }

  lemma CarriedParts(uri: Option<Uri>, list: seq<Data>)
    requires Carried(uri, list)
    ensures var b := Deeper(uri, Chain(list));
            var level := LevelOf(b);
            && AboveResources(b) && UriIds(b) == UriIds(uri) + Chain(list) && S.AllInRange(Below(list))
            && AllShallow(Below(list), level + 1) && Flatten(Below(list), level + 1) != []
            && Below(list) != []
  {
    hide Faithful, S.AllInRange, Nodes, WrappedBelow, LoneMultiple, Chain, Below, UriIds, Deeper, AboveResources,
         AllShallow, SmallIds, Within, NodeReturns, Flatten;
    ChainPath(uri, list);
    var rest, level := Below(list), LevelOf(Deeper(uri, Chain(list)));
    NodesShallow(rest, level);
    FaithfulParts(rest, level);
    NodesGood(rest, level);
  }

  /** The text of a list below a path. */
  function TextOf(uri: Option<Uri>, list: seq<Data>): string
    requires Carried(uri, list)
  {
    CarriedParts(uri, list);
    var b := Deeper(uri, Chain(list));
    FullText(BaseText(UriIds(b)), Flatten(Below(list), LevelOf(b) + 1))
  }

  lemma TextLength(base: string, es: seq<Entry>)
    requires es != [] && base != ""
    ensures |FullText(base, es)| == |S.Header(base)| + |Commas(es)| + 1
  {
    hide ItemsText, Commas;
    CommasLast(es);
  }

  lemma ClosedText(base: string, es: seq<Entry>)
    requires es != [] && base != "" && |FullText(base, es)| <= S.BUFFER_SIZE
    ensures S.Closed(S.Header(base) + Commas(es), true) == FullText(base, es)
  {
    hide ItemsText, Commas;
    CommasLast(es);
    var header := S.BN_HEADER_1 + base + S.BN_HEADER_2;
    assert (header + (ItemsText(es) + ","))[..|header| + |ItemsText(es)|] == header + ItemsText(es);
  }

  /** The text is written if and only if it has at most 1024 bytes. */
  lemma WrittenExact(uri: Option<Uri>, list: seq<Data>)
    requires Carried(uri, list)
    ensures S.Serialized(uri, list) == Ok(TextOf(uri, list)) <==> |TextOf(uri, list)| <= 1024
  {
    hide S.Body, S.Target, S.Descend, Flatten, Commas, S.Header, BaseText, Below, Chain, Nodes, S.Closed, Faithful,
         AllShallow, AboveResources, LoneMultiple, Deeper, FullText, S.AllInRange;
    CarriedParts(uri, list);
    var b := Deeper(uri, Chain(list));
    var base, es := BaseText(UriIds(b)), Flatten(Below(list), LevelOf(b) + 1);
    TargetIsList(uri, list);
    PathAbove(uri);
    ChainLength(list, LevelOf(uri));
    DescendFits(UriIds(uri), list);
    BaseNotEmpty(UriIds(b));
    TextLength(base, es);
    if |FullText(base, es)| <= 1024 {
      BodyFits(Below(list), LevelOf(b) + 1, |S.Header(base)|);
      ClosedText(base, es);
    }
    ClosedShort(uri, list);
  }

  lemma ClosedShort(uri: Option<Uri>, list: seq<Data>)
    ensures S.Serialized(uri, list).Ok? ==> |S.Serialized(uri, list).value| <= 1024
  {
    hide S.Target, UriToText, S.DataText;
  }

  /** Whatever comes back is written and comes back if its text has at most 1024 bytes. */
  lemma WrittenReturns(uri: Option<Uri>, list: seq<Data>)
    requires Carried(uri, list) && |TextOf(uri, list)| <= 1024
    ensures var t := S.Serialized(uri, list);
            t.Ok? && t.value != "" && Parsed(uri, t.value) == Ok(list)
  {
    hide TextOf, Faithful, S.Serialized, S.AllInRange, Nodes, LoneMultiple, AboveResources, Parsed;
    WrittenExact(uri, list);
    TextNotEmpty(uri, list);
    FaithfulReturns(uri, list, TextOf(uri, list));
  }

  lemma TextNotEmpty(uri: Option<Uri>, list: seq<Data>)
    requires Carried(uri, list)
    ensures TextOf(uri, list) != ""
  {
    hide Faithful, S.AllInRange, Nodes, LoneMultiple, AboveResources, Flatten, BaseText, ItemsText, Chain, Below;
    CarriedParts(uri, list);
  }

  // ---------------------------------------------------------------- what is not written

  /** How many containers stand above an entry: none above objects, one above instances, and
      two above everything else. */
  function Depth(d: Data): nat {
    if d.Object? then 0 else if d.Instance? then 1 else 2
  }

  /** Data of several levels is refused, and so is data that starts below the path. */
  lemma LevelsRefused(uri: Option<Uri>, list: seq<Data>, k: nat)
    requires AboveResources(uri) && k < |list|
    requires Depth(list[k]) != Depth(list[0]) || Depth(list[0]) > 2 - LevelOf(uri)
    ensures S.Serialized(uri, list) == Refused
  {
    hide S.PositionOf;
    PathAbove(uri);
    assert S.Uniform(list) ==> Depth(list[k]) == Depth(list[0]);
  }

  lemma {:induction false} DescendExact(ids: seq<nat>, list: seq<Data>)
    requires |BaseText(ids)| <= 17
    ensures S.Descend(BaseText(ids), list) ==
            if |BaseText(ids + Chain(list))| <= 17 then Ok((BaseText(ids + Chain(list)), Below(list))) else Refused
    decreases list
  {
    hide Slashed, Decimal;
    if |list| == 1 && list[0].IsContainer() {
      var id, next := list[0].id, ids + [list[0].id];
      SlashedLast(ids, id);
      assert "/" + (Slashed(ids) + Decimal(id) + "/") == BaseText(ids) + Decimal(id) + "/";
      assert next + Chain(list[0].children) == ids + ([id] + Chain(list[0].children));
      if |BaseText(next)| <= 17 {
        assert Render(id, S.URI_MAX_STRING_LEN - |BaseText(ids)|) == Ok(Decimal(id));
        DescendExact(next, list[0].children);
      } else {
        LongerPath(next, Chain(list[0].children));
      }
    } else {
      assert ids + [] == ids;
    }
  }

  lemma {:induction false} LongerPath(a: seq<nat>, b: seq<nat>)
    ensures |BaseText(a + b)| >= |BaseText(a)|
    decreases |b|
  {
    hide Slashed, Decimal;
    if b == [] {
      assert a + b == a;
    } else {
      var front, id := a + b[..|b| - 1], b[|b| - 1];
      assert a + b == front + [id];
      SlashedLast(front, id);
      LongerPath(a, b[..|b| - 1]);
    }
  }

  /** Nothing is written when lone containers make the base path longer than 17 bytes. */
  lemma LongPathNotWritten(uri: Option<Uri>, list: seq<Data>)
    requires AboveResources(uri) && list != [] && Nodes(list, LevelOf(uri))
    requires |BaseText(UriIds(uri) + Chain(list))| > 17
    ensures S.Serialized(uri, list) == Ok("")
  {
    hide S.Body, S.Target, S.Descend, BaseText, Below, Chain, Nodes;
    PathAbove(uri);
    ShortPath(uri);
    TargetIsList(uri, list);
    DescendExact(UriIds(uri), list);
  }

  lemma ShortPath(uri: Option<Uri>)
    requires AboveResources(uri)
    ensures |BaseText(UriIds(uri))| <= 17
  {
    hide Slashed;
    PathAbove(uri);
    SlashedLength(UriIds(uri));
  }

  /** The text of a value, up to the comma behind its item; a fraction and an opaque value have
      theirs, a link and data that was not read have none. */
  function TextOfValue(d: Data): Option<string> {
    match d
    case Str(_, text) => Some("\",\"sv\":\"" + text + "\"},")
    case Opaque(_, text) => Some("\",\"sv\":\"" + text + "\"},")
    case Float(_, text) => if text == "" then None else Some("\",\"v\":" + text + "},")
    case Integer(_, v) => Some("\",\"v\":" + Signed(v) + "},")
    case Boolean(_, flag) => Some(if flag then "\",\"bv\":true}," else "\",\"bv\":false},")
    case _ => None
  }

  function Signed(v: int): string {
    (if v < 0 then "-" else "") + Magnitude(v)
  }

  /** Three texts are written behind each other if and only if there is room. */
  lemma ThreeExact(a: string, b: string, c: string, room: nat)
    ensures var r := S.Append(S.Append(S.Append(Ok(""), a, room), b, room), c, room);
            && (r.Ok? <==> |a + b + c| <= room)
            && (r.Ok? ==> r == Ok(a + b + c))
  {
    assert "" + a == a;
  }

  lemma NumberWritten(v: int, room: nat)
    ensures var r := S.Append(S.AppendInt(S.Append(Ok(""), S.ITEM_NUM, room), v, room), S.ITEM_NUM_END, room);
            var t := S.ITEM_NUM + Signed(v) + S.ITEM_NUM_END;
            && (r.Ok? <==> |t| <= room)
            && (r.Ok? ==> r == Ok(t))
  {
    hide Magnitude;
    assert "" + S.ITEM_NUM == S.ITEM_NUM;
    assert "" + Magnitude(v) == Magnitude(v);
  }

  /** A value is written if and only if it has a text and there is room for it. */
  lemma ValueExact(d: Data, room: nat)
    ensures var t := TextOfValue(d);
            && (S.ValueText(d, room).Ok? <==> t.Some? && |t.value| <= room)
            && (S.ValueText(d, room).Ok? ==> S.ValueText(d, room) == Ok(t.value))
  {
    hide S.Append, S.AppendInt, Signed;
    match d {
      case Str(_, text) => ThreeExact(S.ITEM_STRING_BEGIN, text, S.ITEM_STRING_END, room);
      case Opaque(_, text) => ThreeExact(S.ITEM_STRING_BEGIN, text, S.ITEM_STRING_END, room);
      case Float(_, text) => ThreeExact(S.ITEM_NUM, text, S.ITEM_NUM_END, room);
      case Integer(_, v) => NumberWritten(v, room);
      case Boolean(_, flag) => OneExact(if flag then S.ITEM_BOOL_TRUE else S.ITEM_BOOL_FALSE, room);
      case _ =>
    }
  }

  lemma OneExact(a: string, room: nat)
    ensures S.Append(Ok(""), a, room) == if |a| <= room then Ok(a) else Refused
  {
    assert "" + a == a;
  }
}
