/** `json_serialize` (src/lwm2m/core/json.c): LwM2M data written as JSON text into a
    buffer of fixed size. */
module JsonSerialize {
  import opened Text
  import opened Uris
  import opened JsonTree

  const BUFFER_SIZE := 1024
  const URI_MAX_STRING_LEN := 18

  const ITEM_URI := "{\"n\":\""
  const ITEM_BOOL_TRUE := "\",\"bv\":true},"
  const ITEM_BOOL_FALSE := "\",\"bv\":false},"
  const ITEM_NUM := "\",\"v\":"
  const ITEM_NUM_END := "},"
  const ITEM_STRING_BEGIN := "\",\"sv\":\""
  const ITEM_STRING_END := "\"},"
  const BN_HEADER_1 := "{\"bn\":\""
  const BN_HEADER_2 := "\",\"e\":["
  const HEADER := "{\"e\":["
  const FOOTER := "]}"

  /** `t` copied behind what is written, if `room` allows. */
  function Append(o: Outcome<string>, t: string, room: nat): (r: Outcome<string>)
    ensures r.Ok? ==> o.Ok? && r.value == o.value + t && |r.value| <= room
  {
    if !o.Ok? then o else if |o.value| + |t| > room then Refused else Ok(o.value + t)
  }

  function AppendInt(o: Outcome<string>, v: int, room: nat): (r: Outcome<string>)
    requires o.Ok? ==> |o.value| <= room
    ensures r.Ok? ==> o.Ok? && |r.value| <= room
  {
    if !o.Ok? then o
    else
      match Render(v, room - |o.value|)
      case Ok(t) => Ok(o.value + t)
      case Refused => Refused
      case Stuck => Stuck
  }

  /** The text of a value up to the comma behind its item. */
  function ValueText(d: Data, room: nat): (r: Outcome<string>)
    ensures r.Ok? ==> |r.value| <= room
  {
    match d
    case Str(_, text) => Append(Append(Append(Ok(""), ITEM_STRING_BEGIN, room), text, room), ITEM_STRING_END, room)
    case Opaque(_, text) => Append(Append(Append(Ok(""), ITEM_STRING_BEGIN, room), text, room), ITEM_STRING_END, room)
    case Integer(_, v) => Append(AppendInt(Append(Ok(""), ITEM_NUM, room), v, room), ITEM_NUM_END, room)
    case Float(_, text) =>
      if text == "" then Refused
      else Append(Append(Append(Ok(""), ITEM_NUM, room), text, room), ITEM_NUM_END, room)
    case Boolean(_, flag) => Append(Ok(""), if flag then ITEM_BOOL_TRUE else ITEM_BOOL_FALSE, room)
    case _ => Refused
  }

  /** The path in front of a plain resource. */
  function NameText(id: nat, parent: string, room: nat): (r: Outcome<string>)
    ensures r.Ok? ==> |r.value| <= room
  {
    AppendInt(Append(Append(Ok(""), ITEM_URI, room), parent, room), id, room)
  }

  /** The path of a container, with the slash its children's ids follow. */
  function ContainerPath(id: nat, parent: string): (r: Outcome<string>)
    ensures r.Ok? ==> |r.value| <= URI_MAX_STRING_LEN
  {
    if |parent| > URI_MAX_STRING_LEN then Refused
    else
      var path := AppendInt(Ok(parent), id, URI_MAX_STRING_LEN);
      if !path.Ok? then path
      else if |path.value| == URI_MAX_STRING_LEN then Stuck
      else Ok(path.value + "/")
  }

  /** The items of `d`, each with a comma behind it. */
  function DataText(d: Data, parent: string, room: nat): (r: Outcome<string>)
    ensures r.Ok? ==> |r.value| <= room
    decreases d, 0
  {
    if d.IsContainer() then
      var path := ContainerPath(d.id, parent);
      if !path.Ok? then path else ListText(d.children, path.value, room)
    else
      var name := NameText(d.id, parent, room);
      if !name.Ok? then name
      else
        match ValueText(d, room - |name.value|)
        case Ok(value) => Ok(name.value + value)
        case Refused => Refused
        case Stuck => Stuck
  }

  function ListText(list: seq<Data>, parent: string, room: nat): (r: Outcome<string>)
    ensures r.Ok? ==> |r.value| <= room
    decreases list, 0
  {
    if list == [] then Ok("")
    else
      var first := DataText(list[0], parent, room);
      if !first.Ok? then first
      else
        match ListText(list[1..], parent, room - |first.value|)
        case Ok(rest) => Ok(first.value + rest)
        case Refused => Refused
        case Stuck => Stuck
  }

  // ---------------------------------------------------------------- the data to write

  predicate Uniform(list: seq<Data>)
    requires list != []
  {
    |list| > 1 ==>
      if list[0].Object? then forall k :: 0 <= k < |list| ==> list[k].Object?
      else if list[0].Instance? then forall k :: 0 <= k < |list| ==> list[k].Instance?
      else forall k :: 0 <= k < |list| ==> !list[k].Object? && !list[k].Instance?
  }

  function PositionOf(list: seq<Data>, id: nat): (k: nat)
    ensures k <= |list| && (k < |list| ==> list[k].id == id)
    ensures forall j :: 0 <= j < k ==> list[j].id != id
  {
    if list == [] then 0 else if list[0].id == id then 0 else 1 + PositionOf(list[1..], id)
  }

  /** The id of the path a container at the top of the list is matched against, if
      the path goes through containers of its kind. */
  function SoughtId(uri: Option<Uri>, d: Data): Option<nat> {
    match uri
    case None => None
    case Some(u) =>
      if d.Object? then Some(u.objectId)
      else if d.Instance? && u.instanceId.Some? then u.instanceId
      else if d.Multiple? && u.instanceId.Some? && u.resourceId.Some? then u.resourceId
      else None
  }

  /** `prv_findAndCheckData`: the entries below the path, whichever level the data
      starts at.  A plain resource among multiple ones would have its union read as
      a child array. */
  function Target(uri: Option<Uri>, list: seq<Data>): Outcome<seq<Data>>
    decreases list
  {
    if list == [] then Ok([])
    else if !Uniform(list) then Refused
    else
      match SoughtId(uri, list[0])
      case Some(id) =>
        var k := PositionOf(list, id);
        if k == |list| then Refused
        else if !list[k].IsContainer() then Stuck
        else Target(uri, list[k].children)
      case None =>
        if uri.None? then (if list[0].Object? then Ok(list) else Refused)
        else if uri.value.instanceId.None? then (if list[0].Instance? then Ok(list) else Refused)
        else Ok(list)
  }

  /** A lone container moves its id into the base path. */
  function Descend(base: string, list: seq<Data>): (r: Outcome<(string, seq<Data>)>)
    requires |base| <= URI_MAX_STRING_LEN
    ensures r.Ok? ==> |r.value.0| <= URI_MAX_STRING_LEN
    decreases list
  {
    if |list| != 1 || !list[0].IsContainer() then Ok((base, list))
    else
      match Render(list[0].id, URI_MAX_STRING_LEN - |base|)
      case Refused => Refused
      case Stuck => Stuck
      case Ok(t) =>
        if |base| + |t| >= URI_MAX_STRING_LEN - 1 then Refused
        else Descend(base + t + "/", list[0].children)
  }

  function Header(base: string): (r: string)
    ensures |base| <= URI_MAX_STRING_LEN ==> |r| + |FOOTER| <= BUFFER_SIZE
  {
    if base == "" then HEADER else BN_HEADER_1 + base + BN_HEADER_2
  }

  /** The item loop, `head` bytes being written: it also ends when the buffer is full. */
  function Body(list: seq<Data>, head: nat): (r: Outcome<string>)
    requires head <= BUFFER_SIZE
    ensures r.Ok? ==> head + |r.value| <= BUFFER_SIZE
  {
    if list == [] || head >= BUFFER_SIZE then Ok("")
    else
      var first := DataText(list[0], "", BUFFER_SIZE - head);
      if !first.Ok? then first
      else
        match Body(list[1..], head + |first.value|)
        case Ok(rest) => Ok(first.value + rest)
        case Refused => Refused
        case Stuck => Stuck
  }

  /** The text behind the last item is closed, its comma dropped; an empty text is the
      return value 0. */
  function Closed(text: string, items: bool): string
    requires text != ""
  {
    if |text| + |FOOTER| - 1 > BUFFER_SIZE then ""
    else (if items then text[..|text| - 1] else text) + FOOTER
  }

  /** `json_serialize`: `Ok` with the bytes, `Ok("")` for the return value 0, `Refused`
      for -1. */
  function Serialized(uri: Option<Uri>, list: seq<Data>): Outcome<string> {
    var base := UriToText(uri, URI_MAX_STRING_LEN);
    if !base.Ok? then base
    else
      match Target(uri, list)
      case Refused => Refused
      case Stuck => Stuck
      case Ok(target) =>
        match Descend(base.value, target)
        case Refused => Ok("")
        case Stuck => Stuck
        case Ok(place) =>
          var header := Header(place.0);
          match Body(place.1, |header|)
          case Refused => Refused
          case Stuck => Stuck
          case Ok(body) => Ok(Closed(header + body, place.1 != []))
  }

  // ---------------------------------------------------------------- the code

  lemma JoinedParts(buf: array<char>, a: nat, b: nat, c: nat)
    requires a <= b <= c <= buf.Length
    ensures buf[a..c] == buf[a..b] + buf[b..c]
  {}

  /** `memcpy` of `t` behind `head` bytes already written in the window of `room` bytes
      at `off`. */
  method PutText(t: string, buf: array<char>, off: nat, head: nat, room: nat) returns (r: Outcome<nat>)
    requires head <= room && off + room <= buf.Length
    modifies buf
    ensures r == if head + |t| <= room then Ok(head + |t|) else Refused
    ensures r.Ok? ==> buf[off..off + r.value] == old(buf[off..off + head]) + t
    ensures forall k :: 0 <= k < buf.Length && !(off <= k < off + room) ==> buf[k] == old(buf[k])
  {
    if room - head < |t| { return Refused; }
    var base := off + head;
    for k := 0 to |t|
      invariant forall j :: base <= j < base + k ==> buf[j] == t[j - base]
      invariant forall j :: 0 <= j < buf.Length && !(base <= j < base + k) ==> buf[j] == old(buf[j])
    {
      buf[base + k] := t[k];
    }
    return Ok(head + |t|);
  }

  method PutInt(v: int, buf: array<char>, off: nat, head: nat, room: nat) returns (r: Outcome<nat>)
    requires INT64_MIN <= v <= INT64_MAX && head <= room && off + room <= buf.Length
    modifies buf
    ensures r == Counted(AppendInt(Ok(old(buf[off..off + head])), v, room))
    ensures r.Ok? ==> buf[off..off + r.value] == AppendInt(Ok(old(buf[off..off + head])), v, room).value
    ensures forall k :: 0 <= k < buf.Length && !(off <= k < off + room) ==> buf[k] == old(buf[k])
  {
    hide Render;
    var res := IntToText(v, buf, off + head, room - head);
    if !res.Ok? { return res; }
    assert buf[off..off + head] == old(buf[off..off + head]);
    JoinedParts(buf, off, off + head, off + head + res.value);
    return Ok(head + res.value);
  }

  /** `t` behind the text `o`, which stands at the front of the window. */
  method PutBehind(ghost o: Outcome<string>, t: string, buf: array<char>, off: nat, head: nat, room: nat)
    returns (r: Outcome<nat>)
    requires off + room <= buf.Length && head <= room && o == Ok(buf[off..off + head])
    modifies buf
    ensures r == Counted(Append(o, t, room))
    ensures r.Ok? ==> r.value <= room && Append(o, t, room) == Ok(buf[off..off + r.value])
    ensures forall k :: 0 <= k < buf.Length && !(off <= k < off + room) ==> buf[k] == old(buf[k])
  {
    r := PutText(t, buf, off, head, room);
  }

  /** The same for an integer. */
  method PutIntBehind(ghost o: Outcome<string>, v: int, buf: array<char>, off: nat, head: nat, room: nat)
    returns (r: Outcome<nat>)
    requires INT64_MIN <= v <= INT64_MAX
    requires off + room <= buf.Length && head <= room && o == Ok(buf[off..off + head])
    modifies buf
    ensures r == Counted(AppendInt(o, v, room))
    ensures r.Ok? ==> r.value <= room && AppendInt(o, v, room) == Ok(buf[off..off + r.value])
    ensures forall k :: 0 <= k < buf.Length && !(off <= k < off + room) ==> buf[k] == old(buf[k])
  {
    hide Render;
    r := PutInt(v, buf, off, head, room);
  }

  predicate InRange(d: Data) {
    d.id <= MAX_ID && (d.Integer? ==> INT64_MIN <= d.value <= INT64_MAX)
  }

  /** Ids are 16-bit and values 64-bit throughout. */
  predicate AllInRange(list: seq<Data>) {
    forall k :: 0 <= k < |list| ==> InRange(list[k]) && (list[k].IsContainer() ==> AllInRange(list[k].children))
  }

  method SerializeValue(d: Data, buf: array<char>, off: nat, room: nat) returns (r: Outcome<nat>)
    requires InRange(d) && off + room <= buf.Length
    modifies buf
    ensures r == Counted(ValueText(d, room))
    ensures r.Ok? ==> buf[off..off + r.value] == ValueText(d, room).value
    ensures forall k :: 0 <= k < buf.Length && !(off <= k < off + room) ==> buf[k] == old(buf[k])
  {
    hide Append, AppendInt;
    assert buf[off..off] == "";
    match d {
      case Str(_, text) => r := PutThree(ITEM_STRING_BEGIN, text, ITEM_STRING_END, buf, off, room);
      case Opaque(_, text) => r := PutThree(ITEM_STRING_BEGIN, text, ITEM_STRING_END, buf, off, room);
      case Integer(_, v) => r := PutNumber(v, buf, off, room);
      case Float(_, text) =>
        if text == "" { return Refused; }
        r := PutThree(ITEM_NUM, text, ITEM_NUM_END, buf, off, room);
      case Boolean(_, flag) =>
        r := PutBehind(Ok(""), if flag then ITEM_BOOL_TRUE else ITEM_BOOL_FALSE, buf, off, 0, room);
      case _ => return Refused;
    }
  }

  /** An integer between the texts around it. */
  method PutNumber(v: int, buf: array<char>, off: nat, room: nat) returns (r: Outcome<nat>)
    requires INT64_MIN <= v <= INT64_MAX && off + room <= buf.Length
    modifies buf
    ensures var o := Append(AppendInt(Append(Ok(""), ITEM_NUM, room), v, room), ITEM_NUM_END, room);
            r == Counted(o) && (r.Ok? ==> buf[off..off + r.value] == o.value)
    ensures forall k :: 0 <= k < buf.Length && !(off <= k < off + room) ==> buf[k] == old(buf[k])
  {
    hide Append, AppendInt;
    assert buf[off..off] == "";
    ghost var o: Outcome<string> := Ok("");
    r := PutBehind(o, ITEM_NUM, buf, off, 0, room);
    o := Append(o, ITEM_NUM, room);
    if !r.Ok? { AppendFails(o, v, ITEM_NUM_END, room); return; }
    r := PutIntBehind(o, v, buf, off, r.value, room);
    o := AppendInt(o, v, room);
    if !r.Ok? { AppendFails(o, v, ITEM_NUM_END, room); return; }
    r := PutBehind(o, ITEM_NUM_END, buf, off, r.value, room);
  }

  lemma AppendFails(o: Outcome<string>, v: int, t: string, room: nat)
    requires !o.Ok?
    ensures Append(o, t, room) == o == AppendInt(o, v, room)
  {}

  method PutThree(a: string, b: string, c: string, buf: array<char>, off: nat, room: nat) returns (r: Outcome<nat>)
    requires off + room <= buf.Length
    modifies buf
    ensures var o := Append(Append(Append(Ok(""), a, room), b, room), c, room);
            r == Counted(o) && (r.Ok? ==> buf[off..off + r.value] == o.value)
    ensures forall k :: 0 <= k < buf.Length && !(off <= k < off + room) ==> buf[k] == old(buf[k])
  {
    hide Append;
    assert buf[off..off] == "";
    ghost var o: Outcome<string> := Ok("");
    r := PutBehind(o, a, buf, off, 0, room);
    o := Append(o, a, room);
    if !r.Ok? { AppendFails(o, 0, b, room); AppendFails(o, 0, c, room); return; }
    r := PutBehind(o, b, buf, off, r.value, room);
    o := Append(o, b, room);
    if !r.Ok? { AppendFails(o, 0, c, room); return; }
    r := PutBehind(o, c, buf, off, r.value, room);
  }

  method WriteName(id: nat, parent: string, buf: array<char>, off: nat, room: nat) returns (r: Outcome<nat>)
    requires id <= MAX_ID && off + room <= buf.Length
    modifies buf
    ensures r == Counted(NameText(id, parent, room))
    ensures r.Ok? ==> buf[off..off + r.value] == NameText(id, parent, room).value
    ensures forall k :: 0 <= k < buf.Length && !(off <= k < off + room) ==> buf[k] == old(buf[k])
  {
    hide Append, AppendInt;
    assert buf[off..off] == "";
    ghost var o: Outcome<string> := Ok("");
    r := PutBehind(o, ITEM_URI, buf, off, 0, room);
    o := Append(o, ITEM_URI, room);
    if !r.Ok? { AppendFails(o, id, parent, room); return; }
    if |parent| > 0 {
      r := PutBehind(o, parent, buf, off, r.value, room);
      o := Append(o, parent, room);
      if !r.Ok? { AppendFails(o, id, parent, room); return; }
    } else {
      AppendNothing(o, parent, room);
    }
    r := PutIntBehind(o, id, buf, off, r.value, room);
  }

  lemma AppendNothing(o: Outcome<string>, t: string, room: nat)
    requires t == "" && o.Ok? && |o.value| <= room
    ensures Append(o, t, room) == o
  {
    assert o.value + t == o.value;
  }

  /** The local array `uriStr`, as the text it holds. */
  method WriteContainerPath(id: nat, parent: string) returns (r: Outcome<string>)
    requires id <= MAX_ID
    ensures r == ContainerPath(id, parent)
  {
    hide Render;
    var uriStr := new char[URI_MAX_STRING_LEN];
    assert uriStr[0..0] == "";
    var put := PutText(parent, uriStr, 0, 0, URI_MAX_STRING_LEN);
    if !put.Ok? { return Refused; }
    assert uriStr[0..|parent|] == parent;
    put := PutInt(id, uriStr, 0, |parent|, URI_MAX_STRING_LEN);
    if put.Refused? { return Refused; }
    if put.Stuck? { return Stuck; }
    if put.value == URI_MAX_STRING_LEN { return Stuck; }
    var head := put.value;
    uriStr[head] := '/';
    assert uriStr[0..head + 1] == uriStr[0..head] + "/";
    return Ok(uriStr[0..head + 1]);
  }

  /** `prv_serializeData`. */
  method SerializeData(d: Data, parent: string, buf: array<char>, off: nat, room: nat) returns (r: Outcome<nat>)
    requires InRange(d) && (d.IsContainer() ==> AllInRange(d.children)) && off + room <= buf.Length
    modifies buf
    ensures r == Counted(DataText(d, parent, room))
    ensures r.Ok? ==> buf[off..off + r.value] == DataText(d, parent, room).value
    ensures forall k :: 0 <= k < buf.Length && !(off <= k < off + room) ==> buf[k] == old(buf[k])
    decreases d
  {
    hide NameText, ValueText, ContainerPath;
    if !d.IsContainer() {
      r := WriteName(d.id, parent, buf, off, room);
      if !r.Ok? { return; }
      var head := r.value;
      ghost var name := buf[off..off + head];
      var res := SerializeValue(d, buf, off + head, room - head);
      if !res.Ok? { return res; }
      assert buf[off..off + head] == name;
      JoinedParts(buf, off, off + head, off + head + res.value);
      return Ok(head + res.value);
    }
    var path := WriteContainerPath(d.id, parent);
    if path.Refused? { return Refused; }
    if path.Stuck? { return Stuck; }
    r := SerializeChildren(d.children, path.value, buf, off, room);
  }

  /** The loop over the children of a container. */
  method SerializeChildren(list: seq<Data>, parent: string, buf: array<char>, off: nat, room: nat)
    returns (r: Outcome<nat>)
    requires AllInRange(list) && off + room <= buf.Length
    modifies buf
    ensures r == Counted(ListText(list, parent, room))
    ensures r.Ok? ==> buf[off..off + r.value] == ListText(list, parent, room).value
    ensures forall k :: 0 <= k < buf.Length && !(off <= k < off + room) ==> buf[k] == old(buf[k])
    decreases list
  {
    hide DataText, AllInRange, ListText, Behind;
    var head, index := 0, 0;
    ghost var total := ListText(list, parent, room);
    assert buf[off..off] == "" && list[0..] == list;
    BehindEmpty(total);
    while index < |list|
      invariant 0 <= index <= |list| && 0 <= head <= room
      invariant total == Behind(buf[off..off + head], ListText(list[index..], parent, room - head))
      invariant forall k :: 0 <= k < buf.Length && !(off <= k < off + room) ==> buf[k] == old(buf[k])
    {
      ghost var written := buf[off..off + head];
      InRangeAt(list, index);
      ListStep(list, index, parent, room - head);
      var res := SerializeData(list[index], parent, buf, off + head, room - head);
      if !res.Ok? {
        BehindFails(written, ListText(list[index..], parent, room - head));
        return res;
      }
      assert buf[off..off + head] == written;
      JoinedParts(buf, off, off + head, off + head + res.value);
      BehindStep(written, buf[off + head..off + head + res.value],
                 ListText(list[index + 1..], parent, room - head - res.value));
      head := head + res.value;
      index := index + 1;
    }
    ListEnd(list[index..], parent, room - head);
    BehindOk(buf[off..off + head], "");
    assert buf[off..off + head] + "" == buf[off..off + head];
    return Ok(head);
  }

  /** One round of the loop over the children. */
  lemma ListStep(list: seq<Data>, k: nat, parent: string, room: nat)
    requires k < |list|
    ensures var first := DataText(list[k], parent, room);
            && (first.Ok? ==> |first.value| <= room)
            && (first.Ok? ==> ListText(list[k..], parent, room) ==
                              Behind(first.value, ListText(list[k + 1..], parent, room - |first.value|)))
            && (!first.Ok? ==> ListText(list[k..], parent, room) == first)
  {
    hide DataText;
    assert list[k..][0] == list[k] && list[k..][1..] == list[k + 1..];
  }

  lemma ListEnd(list: seq<Data>, parent: string, room: nat)
    requires list == []
    ensures ListText(list, parent, room) == Ok("")
  {}

  function Behind(front: string, o: Outcome<string>): Outcome<string> {
    match o
    case Ok(t) => Ok(front + t)
    case Refused => Refused
    case Stuck => Stuck
  }

  lemma BehindEmpty(o: Outcome<string>)
    ensures Behind("", o) == o
  {
    if o.Ok? { assert "" + o.value == o.value; }
  }

  lemma BehindStep(a: string, b: string, o: Outcome<string>)
    ensures Behind(a, Behind(b, o)) == Behind(a + b, o)
  {
    if o.Ok? { assert a + (b + o.value) == (a + b) + o.value; }
  }

  /** `prv_findAndCheckData`. */
  method FindAndCheckData(uri: Option<Uri>, list: seq<Data>) returns (r: Outcome<seq<Data>>)
    ensures r == Target(uri, list)
    decreases list
  {
    if |list| == 0 { return Ok([]); }
    if |list| > 1 {
      var index := 0;
      while index < |list|
        invariant 0 <= index <= |list|
        invariant forall k :: 0 <= k < index ==>
                    if list[0].Object? then list[k].Object?
                    else if list[0].Instance? then list[k].Instance?
                    else !list[k].Object? && !list[k].Instance?
      {
        if list[0].Object? || list[0].Instance? {
          if list[index].Object? != list[0].Object? || list[index].Instance? != list[0].Instance? { return Refused; }
        } else if list[index].Object? || list[index].Instance? { return Refused; }
        index := index + 1;
      }
    }
    var id := SoughtId(uri, list[0]);
    if id.Some? {
      var index := 0;
      while index < |list|
        invariant 0 <= index <= |list|
        invariant PositionOf(list, id.value) == index + PositionOf(list[index..], id.value)
      {
        if list[index].id == id.value {
          if !list[index].IsContainer() { return Stuck; }
          r := FindAndCheckData(uri, list[index].children);
          return;
        }
        index := index + 1;
      }
      return Refused;
    }
    if uri.None? {
      if list[0].Object? { return Ok(list); }
      return Refused;
    }
    if uri.value.instanceId.None? {
      if list[0].Instance? { return Ok(list); }
      return Refused;
    }
    return Ok(list);
  }

  /** `base` with an id and the slash behind it, if the path may grow so far. */
  function Deeper(base: string, id: int): (r: Outcome<string>)
    requires |base| <= URI_MAX_STRING_LEN
    ensures r.Ok? ==> |r.value| < URI_MAX_STRING_LEN
  {
    match Render(id, URI_MAX_STRING_LEN - |base|)
    case Refused => Refused
    case Stuck => Stuck
    case Ok(t) => if |base| + |t| >= URI_MAX_STRING_LEN - 1 then Refused else Ok(base + t + "/")
  }

  lemma DescendStep(base: string, list: seq<Data>)
    requires |base| <= URI_MAX_STRING_LEN && |list| == 1 && list[0].IsContainer()
    ensures Descend(base, list) ==
            match Deeper(base, list[0].id)
            case Ok(path) => Descend(path, list[0].children)
            case Refused => Refused
            case Stuck => Stuck
  {
    hide Render;
  }

  lemma DescendEnd(base: string, list: seq<Data>)
    requires |base| <= URI_MAX_STRING_LEN && (|list| != 1 || !list[0].IsContainer())
    ensures Descend(base, list) == Ok((base, list))
  {}

  /** An id and a slash behind the `len` bytes of the base path. */
  method PutId(id: int, path: array<char>, len: nat) returns (r: Outcome<nat>)
    requires INT64_MIN <= id <= INT64_MAX && len <= URI_MAX_STRING_LEN == path.Length
    modifies path
    ensures r == Counted(Deeper(old(path[0..len]), id))
    ensures r.Ok? ==> r.value < URI_MAX_STRING_LEN && path[0..r.value] == Deeper(old(path[0..len]), id).value
  {
    hide Render;
    r := PutInt(id, path, 0, len, URI_MAX_STRING_LEN);
    if !r.Ok? { return; }
    if r.value >= URI_MAX_STRING_LEN - 1 { return Refused; }
    ghost var text := path[0..r.value];
    path[r.value] := '/';
    assert path[0..r.value + 1] == text + "/";
    r := Ok(r.value + 1);
  }

  /** The loop that lengthens the base path. */
  method ExtendBase(base: string, list: seq<Data>) returns (r: Outcome<(string, seq<Data>)>)
    requires |base| <= URI_MAX_STRING_LEN && AllInRange(list)
    ensures r == Descend(base, list)
    ensures r.Ok? ==> AllInRange(r.value.1)
  {
    hide Deeper, Descend, AllInRange;
    var path := new char[URI_MAX_STRING_LEN];
    assert path[0..0] == "";
    var put := PutText(base, path, 0, 0, URI_MAX_STRING_LEN);
    var len, target := |base|, list;
    assert path[0..len] == base;
    while |target| == 1 && target[0].IsContainer()
      invariant 0 <= len <= URI_MAX_STRING_LEN && AllInRange(target)
      invariant Descend(path[0..len], target) == Descend(base, list)
      decreases target
    {
      DescendStep(path[0..len], target);
      InRangeAt(target, 0);
      put := PutId(target[0].id, path, len);
      if put.Refused? { return Refused; }
      if put.Stuck? { return Stuck; }
      len, target := put.value, target[0].children;
    }
    DescendEnd(path[0..len], target);
    return Ok((path[0..len], target));
  }

  /** One round of the item loop. */
  lemma BodyStep(list: seq<Data>, k: nat, head: nat)
    requires k < |list| && head < BUFFER_SIZE
    ensures var first := DataText(list[k], "", BUFFER_SIZE - head);
            && (first.Ok? ==> head + |first.value| <= BUFFER_SIZE)
            && (first.Ok? ==> Body(list[k..], head) == Behind(first.value, Body(list[k + 1..], head + |first.value|)))
            && (!first.Ok? ==> Body(list[k..], head) == first)
  {
    hide DataText;
    assert list[k..][0] == list[k] && list[k..][1..] == list[k + 1..];
  }

  lemma BodyEnd(list: seq<Data>, head: nat)
    requires head <= BUFFER_SIZE && (list == [] || head == BUFFER_SIZE)
    ensures Body(list, head) == Ok("")
  {}

  /** The item loop into the buffer behind `start` bytes. */
  method WriteBody(list: seq<Data>, buf: array<char>, start: nat) returns (r: Outcome<nat>)
    requires AllInRange(list) && buf.Length == BUFFER_SIZE && start <= BUFFER_SIZE
    modifies buf
    ensures r == match Body(list, start)
                 case Ok(t) => Ok(start + |t|)
                 case Refused => Refused
                 case Stuck => Stuck
    ensures r.Ok? ==> buf[..r.value] == old(buf[..start]) + Body(list, start).value
  {
    hide DataText, AllInRange, Body, Behind;
    var head, index := start, 0;
    ghost var front := buf[..start];
    ghost var total := Body(list, start);
    assert buf[start..start] == "" && list[0..] == list;
    BehindEmpty(total);
    while index < |list| && head < BUFFER_SIZE
      invariant 0 <= index <= |list| && start <= head <= BUFFER_SIZE
      invariant buf[..start] == front
      invariant total == Behind(buf[start..head], Body(list[index..], head))
    {
      ghost var written := buf[start..head];
      InRangeAt(list, index);
      BodyStep(list, index, head);
      var res := SerializeData(list[index], "", buf, head, BUFFER_SIZE - head);
      if !res.Ok? {
        BehindFails(written, Body(list[index..], head));
        return res;
      }
      assert buf[start..head] == written;
      JoinedParts(buf, start, head, head + res.value);
      BehindStep(written, buf[head..head + res.value], Body(list[index + 1..], head + res.value));
      head := head + res.value;
      index := index + 1;
    }
    BodyEnd(list[index..], head);
    BehindOk(buf[start..head], "");
    assert buf[start..head] + "" == buf[start..head];
    assert buf[..head] == buf[..start] + buf[start..head];
    return Ok(head);
  }

  lemma BehindFails(front: string, o: Outcome<string>)
    requires !o.Ok?
    ensures Behind(front, o) == o
  {}

  lemma BehindOk(front: string, t: string)
    ensures Behind(front, Ok(t)) == Ok(front + t)
  {}

  lemma InRangeAt(list: seq<Data>, k: nat)
    requires AllInRange(list) && k < |list|
    ensures InRange(list[k]) && (list[k].IsContainer() ==> AllInRange(list[k].children))
  {}

  lemma {:induction false} TargetInRange(uri: Option<Uri>, list: seq<Data>)
    requires AllInRange(list)
    ensures Target(uri, list).Ok? ==> AllInRange(Target(uri, list).value)
    decreases list
  {
    if list != [] && SoughtId(uri, list[0]).Some? {
      var k := PositionOf(list, SoughtId(uri, list[0]).value);
      if k < |list| && list[k].IsContainer() { TargetInRange(uri, list[k].children); }
    }
  }

  method Serialize(uri: Option<Uri>, list: seq<Data>) returns (r: Outcome<string>)
    requires uri.Some? ==> WellFormed(uri.value)
    requires AllInRange(list)
    ensures r == Serialized(uri, list)
  {
    hide UriToText, Target, Descend, DataText, AllInRange, Body, Header, Closed;
    var baseUriStr := new char[URI_MAX_STRING_LEN];
    var printed, depth := ToString(uri, baseUriStr, URI_MAX_STRING_LEN);
    if printed.Refused? { return Refused; }
    if printed.Stuck? { return Stuck; }
    var target := FindAndCheckData(uri, list);
    if target.Refused? { return Refused; }
    if target.Stuck? { return Stuck; }
    TargetInRange(uri, list);
    var place := ExtendBase(baseUriStr[..printed.value], target.value);
    if place.Refused? { return Ok(""); }
    if place.Stuck? { return Stuck; }
    var (base, items) := place.value;
    var bufferJSON := new char[BUFFER_SIZE];
    var head := WriteHeader(base, bufferJSON);
    var body := WriteBody(items, bufferJSON, head);
    if body.Refused? { return Refused; }
    if body.Stuck? { return Stuck; }
    if items == [] { BodyEnd(items, head); }
    r := PutFooter(bufferJSON, body.value, |items| > 0);
  }

  /** The footer, in place of the comma behind the last item if there are items. */
  method PutFooter(buf: array<char>, end: nat, items: bool) returns (r: Outcome<string>)
    requires 0 < end <= buf.Length == BUFFER_SIZE && (!items ==> end + |FOOTER| <= BUFFER_SIZE)
    modifies buf
    ensures r == Ok(Closed(old(buf[..end]), items))
  {
    var head := end;
    if head + |FOOTER| - 1 > BUFFER_SIZE { return Ok(""); }
    ghost var text := buf[..head];
    if items { head := head - 1; }
    assert buf[0..head] == if items then text[..|text| - 1] else text;
    var put := PutText(FOOTER, buf, 0, head, BUFFER_SIZE);
    return Ok(buf[0..put.value]);
  }

  lemma ThreeFit(a: string, b: string, c: string, room: nat)
    requires |a| + |b| + |c| <= room
    ensures Append(Append(Append(Ok(""), a, room), b, room), c, room) == Ok(a + b + c)
  {
    assert "" + a == a;
  }

  method WriteHeader(base: string, buf: array<char>) returns (head: nat)
    requires |base| <= URI_MAX_STRING_LEN && buf.Length == BUFFER_SIZE
    modifies buf
    ensures 0 < head && head + |FOOTER| <= BUFFER_SIZE
    ensures head == |Header(base)| && buf[..head] == Header(base)
  {
    hide Append;
    var r: Outcome<nat>;
    assert buf[0..0] == "";
    if |base| > 0 {
      ThreeFit(BN_HEADER_1, base, BN_HEADER_2, BUFFER_SIZE);
      r := PutThree(BN_HEADER_1, base, BN_HEADER_2, buf, 0, BUFFER_SIZE);
    } else {
      r := PutText(HEADER, buf, 0, 0, BUFFER_SIZE);
    }
    head := r.value;
  }
}
