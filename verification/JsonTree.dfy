/** From parsed records to the tree of LwM2M data, and the clean-up of that tree
    (prv_convertRecord and prv_dataStrip in src/lwm2m/core/json.c). */
module JsonTree {
  import opened Text
  import opened Uris
  import opened JsonScan

  /** `lwm2m_data_t`.  Fractional and opaque values carry the text that the number
      and base64 conversions, which are not part of this model, read or write. */
  datatype Data =
    | Undefined(id: nat)
    | Object(id: nat, children: seq<Data>)
    | Instance(id: nat, children: seq<Data>)
    | Multiple(id: nat, children: seq<Data>)
    | Str(id: nat, text: string)
    | Opaque(id: nat, text: string)
    | Integer(id: nat, value: int)
    | Float(id: nat, text: string)
    | Boolean(id: nat, flag: bool)
    | Link(id: nat)
  {
    predicate IsContainer() { Object? || Instance? || Multiple? }

    function Children(): seq<Data> { if IsContainer() then children else [] }

    function WithChildren(list: seq<Data>): Data
      requires IsContainer()
    {
      this.(children := list)
    }
  }

  // ---------------------------------------------------------------- values

  predicate IsDecimalFraction(text: string, dot: nat)
    requires dot < |text|
  {
    var s := SignLength(text);
    s <= dot && AllDigits(text[s..dot]) && dot + 1 < |text| && AllDigits(text[dot + 1..])
  }

  function DotPosition(text: string, i: nat): (k: nat)
    requires i <= |text|
    ensures i <= k <= |text| && (k < |text| ==> text[k] == '.')
    ensures forall j :: i <= j < k ==> text[j] != '.'
    decreases |text| - i
  {
    if i == |text| || text[i] == '.' then i else DotPosition(text, i + 1)
  }

  lemma {:induction false} DotPositionUnique(text: string, i: nat, k: nat)
    requires i <= k <= |text| && (k < |text| ==> text[k] == '.')
    requires forall j :: i <= j < k ==> text[j] != '.'
    ensures DotPosition(text, i) == k
    decreases k - i
  {
    if i < k { DotPositionUnique(text, i + 1, k); }
  }

  /** The resource a record denotes once it is known under which id. */
  function ConvertedValue(rec: Record, id: nat): (r: Option<Data>)
    ensures r.Some? ==> r.value.id == id && !r.value.Undefined? && !r.value.IsContainer()
  {
    match rec.kind
    case FalseValue => Some(Boolean(id, false))
    case TrueValue => Some(Boolean(id, true))
    case TextValue => Some(Str(id, rec.value))
    case Unset => None
    case NumberValue =>
      var dot := DotPosition(rec.value, 0);
      if dot == |rec.value| then
        match TextToInt(rec.value)
        case None => None
        case Some(v) => Some(Integer(id, v))
      else if IsDecimalFraction(rec.value, dot) then Some(Float(id, rec.value))
      else None
  }

  /** A fraction: digits after an optional sign, possibly none, and at least one digit behind
      the first dot. */
  ghost predicate IsFraction(text: string) {
    exists front: string, back: string ::
      text == front + "." + back && AllDigits(front[SignLength(front)..]) && back != "" && AllDigits(back)
  }

  lemma FractionExact(t: string)
    ensures var dot := DotPosition(t, 0); IsFraction(t) <==> dot < |t| && IsDecimalFraction(t, dot)
  {
    hide IsDecimalFraction, DotPosition;
    DotInside(t);
    var dot := DotPosition(t, 0);
    if dot < |t| && IsDecimalFraction(t, dot) { FractionAtDot(t, dot); }
    if IsFraction(t) {
      var front, back: string :|
        t == front + "." + back && AllDigits(front[SignLength(front)..]) && back != "" && AllDigits(back);
      SplitAtDot(t, front, back);
    }
  }

  lemma DotInside(t: string)
    ensures var dot := DotPosition(t, 0); dot <= |t| && (dot < |t| ==> t[dot] == '.')
  {}

  lemma FractionAtDot(t: string, dot: nat)
    requires dot < |t| && t[dot] == '.' && IsDecimalFraction(t, dot)
    ensures IsFraction(t)
  {
    hide AllDigits;
    var front, back := t[..dot], t[dot + 1..];
    SameSign(t, dot);
    assert t == front + "." + back;
  }

  lemma SameSign(t: string, dot: nat)
    requires SignLength(t) <= dot < |t|
    ensures SignLength(t[..dot]) == SignLength(t) && t[..dot][SignLength(t)..] == t[SignLength(t)..dot]
  {}

  lemma SplitAtDot(t: string, front: string, back: string)
    requires t == front + "." + back && AllDigits(front[SignLength(front)..]) && back != "" && AllDigits(back)
    ensures DotPosition(t, 0) == |front| < |t| && IsDecimalFraction(t, |front|)
  {
    NoDotInFront(front);
    DotPositionUnique(t, 0, |front|);
    assert t[|front| + 1..] == back;
    assert t[SignLength(t)..|front|] == front[SignLength(front)..];
  }

  /** A number is an integer if and only if it has no dot and is read as one, and a fraction
      if and only if it is written as one. */
  lemma NumberExact(rec: Record, id: nat)
    requires rec.kind == NumberValue
    ensures forall v :: ConvertedValue(rec, id) == Some(Integer(id, v)) <==>
                        '.' !in rec.value && TextToInt(rec.value) == Some(v)
    ensures ConvertedValue(rec, id) == Some(Float(id, rec.value)) <==> IsFraction(rec.value)
  {
    hide TextToInt, IsFraction, IsDecimalFraction;
    FractionExact(rec.value);
  }

  lemma NoDotInFront(front: string)
    requires AllDigits(front[SignLength(front)..])
    ensures forall k :: 0 <= k < |front| ==> front[k] != '.'
  {
    forall k | SignLength(front) <= k < |front|
      ensures front[k] != '.'
    {
      assert front[k] == front[SignLength(front)..][k - SignLength(front)];
    }
  }

  /** `prv_convertValue`. */
  method ConvertValue(rec: Record, id: nat) returns (r: Option<Data>)
    ensures r == ConvertedValue(rec, id)
  {
    match rec.kind {
      case FalseValue => return Some(Boolean(id, false));
      case TrueValue => return Some(Boolean(id, true));
      case NumberValue =>
        var i := 0;
        while i < |rec.value| && rec.value[i] != '.'
          invariant 0 <= i <= |rec.value|
          invariant forall j :: 0 <= j < i ==> rec.value[j] != '.'
        {
          i := i + 1;
        }
        DotPositionUnique(rec.value, 0, i);
        if i == |rec.value| {
          var v := ParseInt(rec.value);
          if v.None? { return None; }
          return Some(Integer(id, v.value));
        }
        if !IsDecimalFraction(rec.value, i) { return None; }
        return Some(Float(id, rec.value));
      case TextValue => return Some(Str(id, rec.value));
      case Unset => return None;
    }
  }

  // ---------------------------------------------------------------- placing records

  /** The first defined entry with the id, or the length of the list. */
  function FindItem(list: seq<Data>, id: nat): (k: nat)
    ensures k <= |list|
    ensures k < |list| ==> !list[k].Undefined? && list[k].id == id
    ensures forall j :: 0 <= j < k ==> list[j].Undefined? || list[j].id != id
  {
    if list == [] then 0
    else if !list[0].Undefined? && list[0].id == id then 0
    else 1 + FindItem(list[1..], id)
  }

  lemma {:induction false} FindItemUnique(list: seq<Data>, id: nat, k: nat)
    requires k <= |list|
    requires k < |list| ==> !list[k].Undefined? && list[k].id == id
    requires forall j :: 0 <= j < k ==> list[j].Undefined? || list[j].id != id
    ensures FindItem(list, id) == k
  {
    if k > 0 {
      FindItemUnique(list[1..], id, k - 1);
    }
  }

  /** `prv_findDataItem`. */
  method FindDataItem(list: seq<Data>, id: nat) returns (k: nat)
    ensures k == FindItem(list, id)
  {
    k := 0;
    while k < |list|
      invariant 0 <= k <= |list|
      invariant forall j :: 0 <= j < k ==> list[j].Undefined? || list[j].id != id
    {
      if !list[k].Undefined? && list[k].id == id {
        FindItemUnique(list, id, k);
        return;
      }
      k := k + 1;
    }
    FindItemUnique(list, id, k);
  }

  /** A fresh entry `above` levels over the resources. */
  function FreshNode(id: nat, above: int): (d: Data)
    ensures d.id == id && d.Children() == []
  {
    if above == 2 then Object(id, []) else if above == 1 then Instance(id, []) else Undefined(id)
  }

  /** Which path id names the resource, given how deep the base path is. */
  function ResourceSegment(base: Option<Uri>): (res: int)
    ensures -1 <= res <= 2
  {
    match DepthOf(base)
    case ObjectDepth => 2
    case InstanceDepth => 1
    case ResourceDepth => 0
    case ResourceInstanceDepth => -1
  }

  predicate PathComplete(ids: seq<nat>, res: int)
    requires |ids| == 4 && -1 <= res <= 2
  {
    && (forall k :: 0 <= k <= res ==> ids[k] != MAX_ID)
    && (res < 2 ==> ids[res + 2] == MAX_ID)
  }

  /** The value of a record put into `list`, the entries of its `k`-th path id.
      An existing plain value cannot become a multiple resource: the C code would
      read its union as a child array. */
  function Place(list: seq<Data>, rec: Record, k: nat, res: int): (r: Outcome<seq<Data>>)
    requires -1 <= res <= 2 && k <= 2 && (k <= res || k == 0)
    ensures r.Ok? ==> |list| <= |r.value| <= |list| + 1
    decreases res - k
  {
    var id := rec.ids[k];
    var at := FindItem(list, id);
    var found := at < |list|;
    var node := if found then list[at] else FreshNode(id, res - k);
    var all := if found then list else list + [node];
    if k < res then
      if !node.IsContainer() then Stuck
      else
        match Place(node.children, rec, k + 1, res)
        case Ok(below) => Ok(all[at := node.WithChildren(below)])
        case Refused => Refused
        case Stuck => Stuck
    else if k == res && rec.ids[k + 1] != MAX_ID then
      if found && !node.Multiple? then Stuck
      else
        match ConvertedValue(rec, rec.ids[k + 1])
        case None => Refused
        case Some(v) => Ok(all[at := Multiple(id, node.Children() + [v])])
    else
      match ConvertedValue(rec, id)
      case None => Refused
      case Some(v) => Ok(all[at := v])
  }

  /** One record in the loop of `prv_convertRecord`: down to its resource, then the value. */
  method PlaceRecord(list: seq<Data>, rec: Record, k: nat, res: int) returns (r: Outcome<seq<Data>>)
    requires -1 <= res <= 2 && k <= 2 && (k <= res || k == 0)
    ensures r == Place(list, rec, k, res)
    decreases res - k
  {
    hide ConvertedValue, FindItem;
    var id := rec.ids[k];
    var at := FindDataItem(list, id);
    var all, node := list, FreshNode(id, res - k);
    if at < |list| { node := list[at]; } else { all := list + [node]; }
    if k < res {
      if !node.IsContainer() { return Stuck; }
      r := PlaceRecord(node.children, rec, k + 1, res);
      if r.Ok? { r := Ok(all[at := node.WithChildren(r.value)]); }
      return;
    }
    var multiple := k == res && rec.ids[k + 1] != MAX_ID;
    if multiple && at < |list| && !node.Multiple? { return Stuck; }
    var value := ConvertValue(rec, if multiple then rec.ids[k + 1] else id);
    if value.None? { return Refused; }
    return Ok(all[at := if multiple then Multiple(id, node.Children() + [value.value]) else value.value]);
  }

  /** Records placed one after the other. */
  function PlaceAll(list: seq<Data>, records: seq<Record>, res: int): (r: Outcome<seq<Data>>)
    requires -1 <= res <= 2
    ensures r.Ok? ==> |list| <= |r.value| <= |list| + |records|
    decreases |records|
  {
    if records == [] then Ok(list)
    else if !PathComplete(records[0].ids, res) then Refused
    else
      match Place(list, records[0], 0, res)
      case Ok(next) => PlaceAll(next, records[1..], res)
      case Refused => Refused
      case Stuck => Stuck
  }

  function Padding(n: nat): seq<Data> {
    seq(n, _ => Undefined(0))
  }

  /** The nodes of the base path around the entries of the records. */
  function Wrapped(base: Option<Uri>, root: seq<Data>): (r: seq<Data>)
  {
    match base
    case None => root
    case Some(u) =>
      [Object(u.objectId,
              if u.instanceId.None? then root
              else [Instance(u.instanceId.value,
                             if u.resourceId.None? then root else [Multiple(u.resourceId.value, root)])])]
  }

  function Converted(base: Option<Uri>, records: seq<Record>): (r: Outcome<seq<Data>>)
    ensures r.Ok? ==> |r.value| == if base.None? then |records| else 1
  {
    match PlaceAll([], records, ResourceSegment(base))
    case Ok(root) =>
      Ok(Wrapped(base, root + Padding(|records| - |root|)))
    case Refused => Refused
    case Stuck => Stuck
  }

  /** `prv_convertRecord`.  The array at the root has one entry per record; what the
      records leave over stays undefined. */
  method ConvertRecord(base: Option<Uri>, records: seq<Record>) returns (r: Outcome<seq<Data>>)
    ensures r == Converted(base, records)
  {
    hide Place, Wrapped, Padding, ResourceSegment;
    var res := ResourceSegment(base);
    var root: seq<Data> := [];
    var index := 0;
    ghost var total := PlaceAll([], records, res);
    assert records[0..] == records;
    while index < |records|
      invariant 0 <= index <= |records| && |root| <= index
      invariant PlaceAll(root, records[index..], res) == total
    {
      var rec := records[index];
      assert records[index..][0] == rec && records[index..][1..] == records[index + 1..];
      var i := 0;
      while i <= res
        invariant 0 <= i <= res + 1
        invariant forall k :: 0 <= k < i ==> rec.ids[k] != MAX_ID
      {
        if rec.ids[i] == MAX_ID { return Refused; }
        i := i + 1;
      }
      if res < 2 {
        if rec.ids[res + 2] != MAX_ID { return Refused; }
      }
      var placed := PlaceRecord(root, rec, 0, res);
      if !placed.Ok? { return placed; }
      root := placed.value;
      index := index + 1;
    }
    return Ok(Wrapped(base, root + Padding(|records| - |root|)));
  }

  // ---------------------------------------------------------------- stripping

  /** The defined entries, containers stripped in turn.  Nothing left is an error.
      A container that strips to nothing makes the C code miscount; that case is
      not followed, and `JsonOutput.NeverMiscounts` shows that no parse gets there. */
  function Strip(list: seq<Data>): (r: Outcome<seq<Data>>)
    decreases list, 1
  {
    match StripAll(list)
    case Ok(kept) => if kept == [] then Refused else Ok(kept)
    case Refused => Refused
    case Stuck => Stuck
  }

  function StripAll(list: seq<Data>): (r: Outcome<seq<Data>>)
    ensures !r.Refused?
    decreases list, 0
  {
    if list == [] then Ok([])
    else
      match StripAll(list[1..])
      case Refused => Refused
      case Stuck => Stuck
      case Ok(rest) =>
        var d := list[0];
        if d.Undefined? then Ok(rest)
        else if !d.IsContainer() then Ok([d] + rest)
        else
          match Strip(d.children)
          case Ok(below) => Ok([d.WithChildren(below)] + rest)
          case Refused => Stuck
          case Stuck => Stuck
  }

  /** `prv_dataStrip`; entries are visited from the front. */
  method DataStrip(list: seq<Data>) returns (r: Outcome<seq<Data>>)
    ensures r == Strip(list)
    decreases list
  {
    hide Defined, StripAll;
    var realSize := CountDefined(list);
    StripSize(list);
    if realSize == 0 { return Refused; }
    var kept: seq<Data> := [];
    var i := 0;
    PrependedNone(StripAll(list));
    assert list[0..] == list;
    while i < |list|
      invariant 0 <= i <= |list|
      invariant StripAll(list) == Prepended(kept, StripAll(list[i..]))
    {
      var d := list[i];
      assert list[i..][0] == d && list[i..][1..] == list[i + 1..];
      StripFirst(list[i..]);
      if !d.Undefined? {
        if d.IsContainer() {
          var below := DataStrip(d.children);
          if !below.Ok? { return Stuck; }
          d := d.WithChildren(below.value);
        }
        PrependedStep(kept, d, StripAll(list[i + 1..]));
        kept := kept + [d];
      }
      i := i + 1;
    }
    StripNone(list[i..]);
    assert kept + [] == kept;
    return Ok(kept);
  }

  method CountDefined(list: seq<Data>) returns (realSize: nat)
    ensures realSize == Defined(list)
  {
    realSize := 0;
    for i := 0 to |list|
      invariant realSize == Defined(list[..i])
    {
      assert list[..i + 1][..i] == list[..i];
      if !list[i].Undefined? { realSize := realSize + 1; }
    }
    assert list[..|list|] == list;
  }

  lemma StripNone(list: seq<Data>)
    requires list == []
    ensures StripAll(list) == Ok([])
  {}

  /** One entry and the rest. */
  lemma StripFirst(list: seq<Data>)
    requires list != []
    ensures var d, rest := list[0], StripAll(list[1..]);
            StripAll(list) ==
              if d.Undefined? || rest.Stuck? then rest
              else if !d.IsContainer() then Prepended([d], rest)
              else if !Strip(d.children).Ok? then Stuck
              else Prepended([d.WithChildren(Strip(d.children).value)], rest)
  {}

  lemma PrependedNone(o: Outcome<seq<Data>>)
    ensures Prepended([], o) == o
  {
    if o.Ok? { assert [] + o.value == o.value; }
  }

  lemma PrependedStep(kept: seq<Data>, d: Data, o: Outcome<seq<Data>>)
    ensures Prepended(kept, Prepended([d], o)) == Prepended(kept + [d], o)
  {
    if o.Ok? { assert kept + ([d] + o.value) == kept + [d] + o.value; }
  }

  function Prepended(front: seq<Data>, o: Outcome<seq<Data>>): Outcome<seq<Data>> {
    match o
    case Ok(back) => Ok(front + back)
    case Refused => Refused
    case Stuck => Stuck
  }

  function Defined(list: seq<Data>): nat {
    if list == [] then 0 else Defined(list[..|list| - 1]) + if list[|list| - 1].Undefined? then 0 else 1
  }

  lemma {:induction false} DefinedFront(list: seq<Data>)
    requires list != []
    ensures Defined(list) == (if list[0].Undefined? then 0 else 1) + Defined(list[1..])
  {
    if |list| > 1 {
      DefinedFront(list[..|list| - 1]);
      assert list[..|list| - 1][1..] == list[1..][..|list| - 2];
    } else {
      assert list[..0] == list[1..];
    }
  }

  lemma {:induction false} StripSize(list: seq<Data>)
    ensures StripAll(list).Ok? ==> |StripAll(list).value| == Defined(list)
    ensures Defined(list) == 0 ==> StripAll(list) == Ok([])
  {
    if list != [] {
      DefinedFront(list);
      StripSize(list[1..]);
    }
  }
}
