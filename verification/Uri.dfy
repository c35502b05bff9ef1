/** LwM2M resource paths (src/lwm2m/core/uri.c): the printer `uri_toString` and the
    parser `lwm2m_stringToUri`. */
module Uris {
  import opened Text

  const MAX_ID := 0xFFFF

  /** A path.  A set resource id always comes with a set instance id. */
  datatype Uri = Uri(objectId: nat, instanceId: Option<nat>, resourceId: Option<nat>)

  predicate WellFormed(u: Uri) {
    && u.objectId <= MAX_ID
    && (u.instanceId.Some? ==> u.instanceId.value <= MAX_ID)
    && (u.resourceId.Some? ==> u.resourceId.value <= MAX_ID && u.instanceId.Some?)
  }

  // ---------------------------------------------------------------- printing

  datatype Depth = ObjectDepth | InstanceDepth | ResourceDepth | ResourceInstanceDepth

  function DepthOf(uri: Option<Uri>): Depth {
    match uri
    case None => ObjectDepth
    case Some(u) =>
      if u.instanceId.None? then InstanceDepth
      else if u.resourceId.None? then ResourceDepth
      else ResourceInstanceDepth
  }

  /** `head` followed by the digits of `id`, in a buffer that must keep one more
      byte free after them than the separator needs. */
  function AppendId(head: string, id: nat, length: nat): (r: Outcome<string>)
    requires |head| <= length
    ensures r.Ok? ==> |r.value| + 1 < length && |r.value| > |head|
  {
    match Render(id, length - |head|)
    case Ok(t) => if |head| + |t| + 1 >= length then Refused else Ok(head + t)
    case Refused => Refused
    case Stuck => Stuck
  }

  function UriToText(uri: Option<Uri>, length: nat): (r: Outcome<string>)
    requires length > 0
    ensures r.Ok? ==> |r.value| <= length
  {
    match uri
    case None => Ok("/")
    case Some(u) =>
      var objectPath := AppendId("/", u.objectId, length);
      if !objectPath.Ok? then objectPath
      else if u.instanceId.None? then Ok(objectPath.value + "/")
      else
        var instance := AppendId(objectPath.value + "/", u.instanceId.value, length);
        if !instance.Ok? then instance
        else if u.resourceId.None? then Ok(instance.value + "/")
        else
          var resource := AppendId(instance.value + "/", u.resourceId.value, length);
          if !resource.Ok? then resource else Ok(resource.value + "/")
  }

  /** One id of the path; `head` bytes are already in place. */
  method WriteId(id: nat, buffer: array<char>, bufferLen: nat, head: nat) returns (r: Outcome<nat>)
    requires id <= MAX_ID && head <= bufferLen <= buffer.Length
    modifies buffer
    ensures r == Counted(AppendId(old(buffer[..head]), id, bufferLen))
    ensures r.Ok? ==> buffer[..r.value] == AppendId(old(buffer[..head]), id, bufferLen).value
    ensures forall k :: bufferLen <= k < buffer.Length ==> buffer[k] == old(buffer[k])
  {
    var res := IntToText(id, buffer, head, bufferLen - head);
    if !res.Ok? { return res; }
    assert buffer[..head] == old(buffer[..head]);
    assert buffer[..head + res.value] == buffer[..head] + buffer[head..head + res.value];
    if head + res.value + 1 >= bufferLen { return Refused; }
    return Ok(head + res.value);
  }

  method PutSlash(buffer: array<char>, head: nat)
    requires head < buffer.Length
    modifies buffer
    ensures buffer[..head + 1] == old(buffer[..head]) + "/"
    ensures forall k :: head < k < buffer.Length ==> buffer[k] == old(buffer[k])
  {
    buffer[head] := '/';
  }

  /** A slash and the next id. */
  method WriteNext(id: nat, buffer: array<char>, bufferLen: nat, head: nat) returns (r: Outcome<nat>)
    requires id <= MAX_ID && head < bufferLen <= buffer.Length
    modifies buffer
    ensures r == Counted(AppendId(old(buffer[..head]) + "/", id, bufferLen))
    ensures r.Ok? ==> buffer[..r.value] == AppendId(old(buffer[..head]) + "/", id, bufferLen).value
    ensures forall k :: bufferLen <= k < buffer.Length ==> buffer[k] == old(buffer[k])
  {
    hide AppendId, Render, Decimal;
    PutSlash(buffer, head);
    r := WriteId(id, buffer, bufferLen, head + 1);
  }

  /** `uri_toString`; `bufferLen` bytes of `buffer` may be written. */
  method ToString(uri: Option<Uri>, buffer: array<char>, bufferLen: nat) returns (r: Outcome<nat>, depth: Depth)
    requires uri.Some? ==> WellFormed(uri.value)
    requires 0 < bufferLen <= buffer.Length
    modifies buffer
    ensures r == Counted(UriToText(uri, bufferLen))
    ensures r.Ok? ==> buffer[..r.value] == UriToText(uri, bufferLen).value && depth == DepthOf(uri)
    ensures forall k :: bufferLen <= k < buffer.Length ==> buffer[k] == old(buffer[k])
  {
    hide AppendId, Render, Decimal;
    depth := ObjectDepth;
    buffer[0] := '/';
    assert buffer[..1] == "/";
    if uri.None? { return Ok(1), depth; }
    var u := uri.value;
    r := WriteId(u.objectId, buffer, bufferLen, 1);
    if !r.Ok? { return; }
    depth := InstanceDepth;
    if u.instanceId.Some? {
      r := WriteNext(u.instanceId.value, buffer, bufferLen, r.value);
      if !r.Ok? { return; }
      depth := ResourceDepth;
      if u.resourceId.Some? {
        r := WriteNext(u.resourceId.value, buffer, bufferLen, r.value);
        if !r.Ok? { return; }
        depth := ResourceInstanceDepth;
      }
    }
    PutSlash(buffer, r.value);
    r := Ok(r.value + 1);
  }

  /** Eighteen bytes hold an object or instance path whatever the ids. */
  lemma InstancePathFits(u: Uri)
    requires WellFormed(u) && u.resourceId.None?
    ensures UriToText(Some(u), 18) ==
            Ok("/" + Decimal(u.objectId) + "/" +
               if u.instanceId.None? then "" else Decimal(u.instanceId.value) + "/")
  {
    DecimalLength(u.objectId);
    var objectPath := "/" + Decimal(u.objectId);
    assert AppendId("/", u.objectId, 18) == Ok(objectPath);
    if u.instanceId.Some? {
      DecimalLength(u.instanceId.value);
      assert AppendId(objectPath + "/", u.instanceId.value, 18) == Ok(objectPath + "/" + Decimal(u.instanceId.value));
      assert objectPath + "/" + Decimal(u.instanceId.value) + "/" ==
             objectPath + "/" + (Decimal(u.instanceId.value) + "/");
    } else {
      assert objectPath + "/" + "" == objectPath + "/";
    }
  }

  // ---------------------------------------------------------------- parsing

  const TWO32 := 0x1_0000_0000
  const TWO31 := 0x8000_0000

  /** A 32-bit `int`, wrapping around. */
  function Wrap32(x: int): (r: int)
    ensures -TWO31 <= r < TWO31
  {
    (x + TWO31) % TWO32 - TWO31
  }

  /** C division, truncating towards zero. */
  function TruncatedTenth(x: int): int {
    if x >= 0 then x / 10 else -(-x / 10)
  }

  /** The number `prv_parseNumber` obtains for a digit string of value `v`: the
      accumulator runs one decimal place ahead of the value and wraps. */
  function Number32(v: nat): int {
    TruncatedTenth(Wrap32(10 * v))
  }

  lemma WrapShift(x: int, k: int)
    ensures Wrap32(x + k * TWO32) == Wrap32(x)
  {
    assert (x + TWO31 + k * TWO32) % TWO32 == (x + TWO31) % TWO32;
  }

  lemma WrapStep(a: int, d: nat)
    ensures Wrap32(Wrap32(Wrap32(a) + d) * 10) == Wrap32((a + d) * 10)
  {
    var k := (a + TWO31) / TWO32;
    assert Wrap32(a) == a - k * TWO32;
    WrapShift(a + d, -k);
    var b := a + d;
    var j := (b + TWO31) / TWO32;
    assert Wrap32(b) == b - j * TWO32;
    WrapShift(b * 10, -10 * j);
  }

  /** The number read is the number written exactly when ten times it is an `int`. */
  lemma Number32Exact(v: nat)
    ensures Number32(v) == v <==> 10 * v < TWO31
  {}

  /** Which numbers pass the check against `limit`: ten times the number, taken modulo 2^32,
      must be small, or so little below 2^32 that it is truncated to zero. */
  predicate PassesRange(v: nat, limit: nat) {
    10 * v % TWO32 <= 10 * limit + 9 || 10 * v % TWO32 >= TWO32 - 9
  }

  lemma RangeExact(v: nat, limit: nat)
    requires limit <= MAX_ID
    ensures 0 <= Number32(v) <= limit <==> PassesRange(v, limit)
  {
    var r := 10 * v % TWO32;
    WrapShift(10 * v, -(10 * v / TWO32));
    assert Wrap32(10 * v) == Wrap32(r) == if r < TWO31 then r else r - TWO32;
  }

  /** The documented range is enforced on a number if and only if it lies in the range or
      does not pass; below nine digits it always is. */
  lemma RangeEnforced(v: nat, limit: nat)
    requires limit <= MAX_ID
    ensures (0 <= Number32(v) <= limit <==> v <= limit) <==> v <= limit || !PassesRange(v, limit)
    ensures v < 100_000_000 ==> (0 <= Number32(v) <= limit <==> v <= limit)
  {
    RangeExact(v, limit);
  }

  /** Where the path segment that starts at `head` ends. */
  function SegmentEnd(buffer: string, head: nat, len: nat): (e: nat)
    requires head <= len <= |buffer|
    ensures head <= e <= len
    ensures forall k :: head <= k < e ==> buffer[k] != '/'
    ensures e < len ==> buffer[e] == '/'
    decreases len - head
  {
    if head == len || buffer[head] == '/' then head else SegmentEnd(buffer, head + 1, len)
  }

  lemma {:induction false} SegmentEndUnique(buffer: string, head: nat, len: nat, e: nat)
    requires head <= e <= len <= |buffer|
    requires forall k :: head <= k < e ==> buffer[k] != '/'
    requires e < len ==> buffer[e] == '/'
    ensures SegmentEnd(buffer, head, len) == e
    decreases len - head
  {
    if head < e { SegmentEndUnique(buffer, head + 1, len, e); }
  }

  lemma {:induction false} SegmentEndReaches(buffer: string, head: nat, len: nat, k: nat)
    requires head <= k < len <= |buffer|
    requires forall j :: head <= j <= k ==> buffer[j] != '/'
    ensures SegmentEnd(buffer, head, len) > k
    decreases k - head
  {
    if head < k { SegmentEndReaches(buffer, head + 1, len, k); }
  }

  /** The number at `head`, or -1 when the segment is empty or not all digits. */
  function NumberAt(buffer: string, head: nat, len: nat): int
    requires head < len <= |buffer|
  {
    var segment := buffer[head..SegmentEnd(buffer, head, len)];
    if segment != "" && AllDigits(segment) then Number32(NatValue(segment)) else -1
  }

  /** The accumulator after the digits `s`: one decimal place ahead of their value. */
  ghost function Ahead(s: string): int
    requires AllDigits(s)
  {
    Wrap32(10 * NatValue(s))
  }

  /** Adding a digit and then multiplying by ten, both in 32 bits. */
  function Push(acc: int, d: nat): int {
    Wrap32(Wrap32(acc + d) * 10)
  }

  lemma AheadEmpty()
    ensures Ahead("") == 0
  {}

  lemma AheadStep(s: string, c: char)
    requires AllDigits(s) && IsDigit(c)
    ensures Ahead(s + [c]) == Push(Ahead(s), DigitValue(c))
  {
    assert (s + [c])[..|s|] == s;
    WrapStep(10 * NatValue(s), DigitValue(c));
  }

  lemma AheadNext(buffer: string, head: nat, k: nat)
    requires head <= k < |buffer| && IsDigit(buffer[k]) && AllDigits(buffer[head..k])
    ensures AllDigits(buffer[head..k + 1])
    ensures Ahead(buffer[head..k + 1]) == Push(Ahead(buffer[head..k]), DigitValue(buffer[k]))
  {
    hide Ahead, Push;
    AheadStep(buffer[head..k], buffer[k]);
    assert buffer[head..k + 1] == buffer[head..k] + [buffer[k]];
  }

  method ParseNumber(buffer: string, len: nat, head: nat) returns (result: int, head': nat)
    requires head < len <= |buffer|
    ensures result >= 0 ==> NumberAt(buffer, head, len) == result && head' == SegmentEnd(buffer, head, len)
    ensures result < 0 ==> NumberAt(buffer, head, len) < 0
  {
    hide Wrap32, TruncatedTenth, SegmentEnd, Push, Ahead;
    head' := head;
    if buffer[head'] == '/' {
      SegmentEndUnique(buffer, head, len, head);
      return -1, head';
    }
    AheadEmpty();
    result := 0;
    assert buffer[head..head] == "";
    while head' < len && buffer[head'] != '/'
      invariant head <= head' <= len
      invariant forall k :: head <= k < head' ==> buffer[k] != '/' && IsDigit(buffer[k])
      invariant head == head' ==> buffer[head'] != '/'
      invariant result == Ahead(buffer[head..head'])
    {
      if !('0' <= buffer[head'] && buffer[head'] <= '9') {
        SegmentEndReaches(buffer, head, len, head');
        assert buffer[head..SegmentEnd(buffer, head, len)][head' - head] == buffer[head'];
        return -1, head';
      }
      AheadNext(buffer, head, head');
      result := Push(result, DigitValue(buffer[head']));
      head' := head' + 1;
    }
    SegmentEndUnique(buffer, head, len, head');
    result := Conclude(buffer[head..head'], result);
  }

  /** The final division by ten. */
  method Conclude(ghost segment: string, acc: int) returns (result: int)
    requires AllDigits(segment) && acc == Ahead(segment)
    ensures result == Number32(NatValue(segment))
  {
    result := TruncatedTenth(acc);
  }

  predicate IsSpace(c: char) {
    c in {' ', '\t', '\n', '\U{0B}', '\U{0C}', '\r'}
  }

  /** Just past the separator at `e`, if there is one. */
  function AfterSlash(buffer: string, e: nat): nat
    requires e < |buffer|
  {
    if buffer[e] == '/' then e + 1 else e
  }

  function SpaceEnd(buffer: string, head: nat, len: nat): (e: nat)
    requires head <= len <= |buffer|
    ensures head <= e <= len
    ensures forall k :: head <= k < e ==> IsSpace(buffer[k])
    ensures e < len ==> !IsSpace(buffer[e])
    decreases len - head
  {
    if head == len || !IsSpace(buffer[head]) then head else SpaceEnd(buffer, head + 1, len)
  }

  lemma {:induction false} SpaceEndUnique(buffer: string, head: nat, len: nat, e: nat)
    requires head <= e <= len <= |buffer|
    requires forall k :: head <= k < e ==> IsSpace(buffer[k])
    requires e < len ==> !IsSpace(buffer[e])
    ensures SpaceEnd(buffer, head, len) == e
    decreases len - head
  {
    if head < e { SpaceEndUnique(buffer, head + 1, len, e); }
  }

  /** The largest id accepted at a level: 65535 is kept for "not set" below the
      object level. */
  function Limit(level: nat): nat {
    if level == 0 then MAX_ID else MAX_ID - 1
  }

  /** The ids from `p` on, at level 0 (object), 1 (instance) or 2 (resource), and
      how far reading went.  One byte beyond `len` is looked at. */
  function ReadIds(buffer: string, len: nat, p: nat, level: nat): (r: Option<(nat, seq<nat>)>)
    requires p < len < |buffer| && level < 3
    ensures r.Some? ==> 1 <= |r.value.1| <= 3 - level
    decreases 3 - level
  {
    var v := NumberAt(buffer, p, len);
    var e := SegmentEnd(buffer, p, len);
    if v < 0 || v > Limit(level) then None
    else if level == 2 then (if e != len then None else Some((len, [v])))
    else
      var q := AfterSlash(buffer, e);
      if q >= len then Some((q, [v]))
      else
        match ReadIds(buffer, len, q, level + 1)
        case None => None
        case Some(rest) => Some((rest.0, [v] + rest.1))
  }

  function UriOfIds(ids: seq<nat>): Uri
    requires 1 <= |ids| <= 3
  {
    Uri(ids[0], if |ids| > 1 then Some(ids[1]) else None, if |ids| > 2 then Some(ids[2]) else None)
  }

  /** `lwm2m_stringToUri` on the first `len` bytes: how many were read and the path,
      or `None` for the error return 0.  One byte beyond them must be readable. */
  function TextToUri(buffer: string, len: nat): Option<(nat, Uri)>
    requires len < |buffer|
  {
    var start := SpaceEnd(buffer, 0, len);
    if start == len || buffer[start] != '/' || start + 1 == len then None
    else
      match ReadIds(buffer, len, start + 1, 0)
      case None => None
      case Some(r) => Some((r.0, UriOfIds(r.1)))
  }

  /** Ids that are read are in the range of their level. */
  lemma {:induction false} ReadIdsRange(buffer: string, len: nat, p: nat, level: nat)
    requires p < len < |buffer| && level < 3
    ensures var r := ReadIds(buffer, len, p, level);
            r.Some? ==> forall k :: 0 <= k < |r.value.1| ==> r.value.1[k] <= Limit(level + k)
    decreases 3 - level
  {
    hide SegmentEnd, NumberAt;
    if level < 2 {
      var q := AfterSlash(buffer, SegmentEnd(buffer, p, len));
      if q < len { ReadIdsRange(buffer, len, q, level + 1); }
    }
  }

  /** One id in front of the next level. */
  lemma ReadStep(buffer: string, len: nat, p: nat, level: nat, v: int, q: nat)
    requires p < len < |buffer| && level < 2
    requires v == NumberAt(buffer, p, len) && q == AfterSlash(buffer, SegmentEnd(buffer, p, len))
    ensures ReadIds(buffer, len, p, level) ==
            if v < 0 || v > Limit(level) then None
            else if q >= len then Some((q, [v]))
            else match ReadIds(buffer, len, q, level + 1)
                 case None => None
                 case Some(rest) => Some((rest.0, [v] + rest.1))
  {}

  lemma ReadLast(buffer: string, len: nat, p: nat, v: int)
    requires p < len < |buffer| && v == NumberAt(buffer, p, len)
    ensures ReadIds(buffer, len, p, 2) ==
            if v < 0 || v > Limit(2) || SegmentEnd(buffer, p, len) != len then None else Some((len, [v]))
  {}

  lemma ReadFront(buffer: string, len: nat, start: nat)
    requires start <= len < |buffer| && start == SpaceEnd(buffer, 0, len)
    ensures TextToUri(buffer, len) ==
            if start == len || buffer[start] != '/' || start + 1 == len then None
            else match ReadIds(buffer, len, start + 1, 0)
                 case None => None
                 case Some(r) => Some((r.0, UriOfIds(r.1)))
  {
    hide ReadIds, SpaceEnd;
  }

  method StringToUri(buffer: string, len: nat) returns (r: Option<(nat, Uri)>)
    requires len < |buffer|
    ensures r == TextToUri(buffer, len)
  {
    hide SegmentEnd, NumberAt, Number32, SpaceEnd, ReadIds, TextToUri;
    if len == 0 { ReadFront(buffer, 0, 0); return None; }
    var head := 0;
    while head < len && IsSpace(buffer[head])
      invariant 0 <= head <= len
      invariant forall k :: 0 <= k < head ==> IsSpace(buffer[k])
    {
      head := head + 1;
    }
    SpaceEndUnique(buffer, 0, len, head);
    ReadFront(buffer, len, head);
    if head == len { return None; }
    if buffer[head] != '/' { return None; }
    head := head + 1;
    if head == len { return None; }

    ghost var p := head;
    var readNum: int;
    readNum, head := ParseNumber(buffer, len, head);
    ReadStep(buffer, len, p, 0, NumberAt(buffer, p, len), AfterSlash(buffer, SegmentEnd(buffer, p, len)));
    if readNum < 0 || readNum > MAX_ID { return None; }
    var objectId := readNum;
    if buffer[head] == '/' { head := head + 1; }
    if head >= len { return Some((head, Uri(objectId, None, None))); }

    p := head;
    readNum, head := ParseNumber(buffer, len, head);
    ReadStep(buffer, len, p, 1, NumberAt(buffer, p, len), AfterSlash(buffer, SegmentEnd(buffer, p, len)));
    if readNum < 0 || readNum >= MAX_ID { return None; }
    var instanceId := readNum;
    if buffer[head] == '/' { head := head + 1; }
    if head >= len { return Some((head, Uri(objectId, Some(instanceId), None))); }

    p := head;
    readNum, head := ParseNumber(buffer, len, head);
    ReadLast(buffer, len, p, NumberAt(buffer, p, len));
    if readNum < 0 || readNum >= MAX_ID { return None; }
    if head != len { return None; }
    return Some((head, Uri(objectId, Some(instanceId), Some(readNum))));
  }

  // ---------------------------------------------------------------- the grammar

  /** Digit segments between slashes, with or without a closing slash. */
  function Joined(segs: seq<string>, closing: bool): string
    requires segs != []
  {
    segs[0] + if |segs| > 1 then "/" + Joined(segs[1..], closing) else if closing then "/" else ""
  }

  /** The path texts the header documents, from `level` on: a closing slash may
      follow an object or an instance id but not a resource id. */
  ghost predicate Segments(segs: seq<string>, closing: bool, level: nat) {
    && 1 <= |segs| <= 3 - level
    && (closing ==> |segs| < 3 - level)
    && (forall k :: 0 <= k < |segs| ==> segs[k] != "" && AllDigits(segs[k]))
    && (forall k :: 0 <= k < |segs| ==> 0 <= Number32(NatValue(segs[k])) <= Limit(level + k))
  }

  function IdsOf(segs: seq<string>): (ids: seq<nat>)
    requires forall k :: 0 <= k < |segs| ==> AllDigits(segs[k]) && Number32(NatValue(segs[k])) >= 0
    ensures |ids| == |segs|
  {
    seq(|segs|, k requires 0 <= k < |segs| => Number32(NatValue(segs[k])))
  }

  /** A digit segment inside a larger text. */
  lemma SegmentInside(buffer: string, head: nat, len: nat, seg: string)
    requires head + |seg| <= len < |buffer|
    requires buffer[head..head + |seg|] == seg && seg != "" && AllDigits(seg)
    requires head + |seg| < len ==> buffer[head + |seg|] == '/'
    ensures SegmentEnd(buffer, head, len) == head + |seg|
    ensures NumberAt(buffer, head, len) == Number32(NatValue(seg))
  {
    forall k | head <= k < head + |seg|
      ensures buffer[k] != '/'
    {
      assert buffer[k] == seg[k - head];
    }
    SegmentEndUnique(buffer, head, len, head + |seg|);
  }

  /** Where the first segment ends and the others start. */
  lemma JoinedParts(buffer: string, len: nat, p: nat, segs: seq<string>, closing: bool)
    requires p < len < |buffer| && segs != [] && buffer[p..len] == Joined(segs, closing)
    ensures var e := p + |segs[0]|;
            && e <= len && buffer[p..e] == segs[0]
            && (|segs| > 1 ==> e + 1 <= len && buffer[e] == '/' && buffer[e + 1..len] == Joined(segs[1..], closing))
            && (|segs| == 1 ==> if closing then e + 1 == len && buffer[e] == '/' else e == len)
  {
    var e := p + |segs[0]|;
    var t := buffer[p..len];
    assert t[..|segs[0]|] == segs[0] == buffer[p..e];
    if |segs| > 1 {
      assert t[|segs[0]|] == '/' == buffer[e];
      assert buffer[e + 1..len] == t[|segs[0]| + 1..] == Joined(segs[1..], closing);
    } else if closing {
      assert t[|segs[0]|] == '/' == buffer[e];
    }
  }

  lemma {:induction false} JoinedRead(buffer: string, len: nat, p: nat, level: nat, segs: seq<string>, closing: bool)
    requires p < len < |buffer| && level < 3 && Segments(segs, closing, level)
    requires buffer[p..len] == Joined(segs, closing)
    requires !closing && |segs| < 3 - level ==> buffer[len] != '/'
    ensures ReadIds(buffer, len, p, level) == Some((len, IdsOf(segs)))
    decreases |segs|
  {
    hide Number32, NatValue, SegmentEnd, NumberAt, Limit, Joined;
    var e := p + |segs[0]|;
    JoinedParts(buffer, len, p, segs, closing);
    SegmentInside(buffer, p, len, segs[0]);
    if |segs| > 1 {
      JoinedNotEmpty(segs[1..], closing);
      JoinedRead(buffer, len, e + 1, level + 1, segs[1..], closing);
      assert IdsOf(segs) == [IdsOf(segs)[0]] + IdsOf(segs[1..]);
    } else {
      assert IdsOf(segs) == [IdsOf(segs)[0]];
    }
  }

  lemma JoinedNotEmpty(segs: seq<string>, closing: bool)
    requires segs != [] && segs[0] != ""
    ensures Joined(segs, closing) != ""
  {}

  /** What one step of reading says about the text. */
  lemma ReadFirst(buffer: string, len: nat, p: nat, level: nat, ids: seq<nat>)
    requires p < len < |buffer| && level < 3 && buffer[len] != '/'
    requires ReadIds(buffer, len, p, level) == Some((len, ids))
    ensures var e := SegmentEnd(buffer, p, len);
            var s := buffer[p..e];
            && s != "" && AllDigits(s) && ids != [] && ids[0] == Number32(NatValue(s)) <= Limit(level)
            && (if e + 1 < len && level < 2 then ReadIds(buffer, len, e + 1, level + 1) == Some((len, ids[1..]))
                else |ids| == 1 && e + 1 >= len && (level == 2 ==> e == len))
  {
    hide Wrap32, TruncatedTenth, Number32, NatValue, SegmentEnd, Limit;
  }

  lemma {:induction false} ReadJoined(buffer: string, len: nat, p: nat, level: nat, ids: seq<nat>)
    returns (segs: seq<string>, closing: bool)
    requires p < len < |buffer| && level < 3 && buffer[len] != '/'
    requires ReadIds(buffer, len, p, level) == Some((len, ids))
    ensures Segments(segs, closing, level) && IdsOf(segs) == ids
    ensures buffer[p..len] == Joined(segs, closing)
    decreases 3 - level
  {
    hide Number32, NatValue, SegmentEnd, Limit, ReadIds;
    ReadFirst(buffer, len, p, level, ids);
    var e := SegmentEnd(buffer, p, len);
    var s0 := buffer[p..e];
    if e + 1 < len && level < 2 {
      segs, closing := ReadJoined(buffer, len, e + 1, level + 1, ids[1..]);
      ghost var tail := segs;
      segs := [s0] + tail;
      assert segs[1..] == tail;
      assert buffer[p..len] == s0 + ("/" + buffer[e + 1..len]);
      assert forall k :: 1 <= k < |segs| ==> segs[k] == tail[k - 1];
      assert IdsOf(segs) == [ids[0]] + ids[1..];
    } else {
      segs, closing := [s0], e < len;
      assert buffer[p..len] == s0 + if closing then "/" else "";
    }
  }

  /** `t` belongs to the documented grammar, up to leading white space and with ids
      in range as the code computes them. */
  ghost predicate InGrammar(t: string, u: Uri) {
    exists space, segs, closing :: IsPath(t, space, segs, closing, u)
  }

  ghost predicate IsPath(t: string, space: string, segs: seq<string>, closing: bool, u: Uri) {
    && Segments(segs, closing, 0)
    && t == space + "/" + Joined(segs, closing)
    && UriOfIds(IdsOf(segs)) == u
    && forall k :: 0 <= k < |space| ==> IsSpace(space[k])
  }

  lemma PathAccepted(buffer: string, len: nat, space: string, segs: seq<string>, closing: bool, u: Uri)
    requires len < |buffer| && IsPath(buffer[..len], space, segs, closing, u)
    requires !closing && |segs| < 3 ==> buffer[len] != '/'
    ensures TextToUri(buffer, len) == Some((len, u))
  {
    assert |Joined(segs, closing)| > 0;
    var t := buffer[..len];
    assert forall k :: 0 <= k < len ==> buffer[k] == t[k];
    SpaceEndUnique(buffer, 0, len, |space|);
    assert buffer[|space| + 1..len] == t[|space| + 1..] == Joined(segs, closing);
    JoinedRead(buffer, len, |space| + 1, 0, segs, closing);
  }

  /** The parser consumes a text whole exactly on the grammar, unless a slash follows it. */
  lemma GrammarBefore(buffer: string, len: nat, u: Uri)
    requires len < |buffer| && buffer[len] != '/'
    ensures TextToUri(buffer, len) == Some((len, u)) <==> InGrammar(buffer[..len], u)
  {
    hide Segments, ReadIds, Joined;
    var t := buffer[..len];
    if TextToUri(buffer, len) == Some((len, u)) {
      var start := SpaceEnd(buffer, 0, len);
      var ids := ReadIds(buffer, len, start + 1, 0).value.1;
      var segs, closing := ReadJoined(buffer, len, start + 1, 0, ids);
      assert t == t[..start] + "/" + buffer[start + 1..len];
      assert IsPath(t, t[..start], segs, closing, u);
    }
    if InGrammar(t, u) {
      var space, segs, closing :| IsPath(t, space, segs, closing, u);
      PathAccepted(buffer, len, space, segs, closing, u);
    }
  }

  lemma GrammarExact(t: string, u: Uri)
    ensures TextToUri(t + [NUL], |t|) == Some((|t|, u)) <==> InGrammar(t, u)
  {
    hide InGrammar, TextToUri;
    assert (t + [NUL])[..|t|] == t;
    GrammarBefore(t + [NUL], |t|, u);
  }

  // ---------------------------------------------------------------- the documented grammar

  /** Digit segments that denote ids in the documented range. */
  ghost predicate PlainSegments(segs: seq<string>, closing: bool, level: nat) {
    && 1 <= |segs| <= 3 - level
    && (closing ==> |segs| < 3 - level)
    && (forall k :: 0 <= k < |segs| ==> segs[k] != "" && AllDigits(segs[k]))
    && (forall k :: 0 <= k < |segs| ==> NatValue(segs[k]) <= Limit(level + k))
  }

  function PlainIds(segs: seq<string>): (ids: seq<nat>)
    requires forall k :: 0 <= k < |segs| ==> AllDigits(segs[k])
    ensures |ids| == |segs|
  {
    seq(|segs|, k requires 0 <= k < |segs| => NatValue(segs[k]))
  }

  ghost predicate IsPlainPath(t: string, space: string, segs: seq<string>, closing: bool, u: Uri) {
    && PlainSegments(segs, closing, 0)
    && t == space + "/" + Joined(segs, closing)
    && UriOfIds(PlainIds(segs)) == u
    && forall k :: 0 <= k < |space| ==> IsSpace(space[k])
  }

  /** `t` is a documented path text for `u`, up to leading white space. */
  ghost predicate InPlainGrammar(t: string, u: Uri) {
    exists space, segs, closing :: IsPlainPath(t, space, segs, closing, u)
  }

  predicate NineDigitsAt(t: string, i: nat) {
    i + 9 <= |t| && AllDigits(t[i..i + 9])
  }

  /** No nine digits in a row. */
  ghost predicate ShortNumbers(t: string) {
    forall i: nat :: !NineDigitsAt(t, i)
  }

  lemma LongRun(t: string, p: nat, n: nat)
    requires p + n <= |t|
    ensures n >= 9 && AllDigits(t[p..p + n]) ==> NineDigitsAt(t, p)
  {
    if n >= 9 { assert t[p..p + 9] == t[p..p + n][..9]; }
  }

  function Pow10(n: nat): nat {
    if n == 0 then 1 else 10 * Pow10(n - 1)
  }

  lemma {:induction false} NatValueBelow(s: string, n: nat)
    requires AllDigits(s) && |s| <= n
    ensures NatValue(s) < Pow10(n)
  {
    if s != "" {
      NatValueBelow(s[..|s| - 1], n - 1);
    } else if n > 0 {
      NatValueBelow(s, n - 1);
    }
  }

  lemma EightDigits()
    ensures Pow10(8) == 100_000_000
  {
    assert Pow10(2) == 100 && Pow10(4) == 10_000 && Pow10(6) == 1_000_000;
  }

  /** Where segment `k` stands in the joined text. */
  lemma {:induction false} SegmentPlace(segs: seq<string>, closing: bool, k: nat) returns (at: nat)
    requires k < |segs|
    ensures at + |segs[k]| <= |Joined(segs, closing)|
    ensures Joined(segs, closing)[at..at + |segs[k]|] == segs[k]
    decreases |segs|
  {
    if k == 0 {
      at := 0;
    } else {
      var rest := SegmentPlace(segs[1..], closing, k - 1);
      at := |segs[0]| + 1 + rest;
      var tail := Joined(segs[1..], closing);
      assert Joined(segs, closing) == segs[0] + ("/" + tail);
      assert Joined(segs, closing)[at..at + |segs[k]|] == tail[rest..rest + |segs[k]|];
    }
  }

  lemma ShortSegment(t: string, space: string, segs: seq<string>, closing: bool, k: nat)
    requires ShortNumbers(t) && segs != [] && t == space + "/" + Joined(segs, closing)
    requires k < |segs| && AllDigits(segs[k])
    ensures NatValue(segs[k]) < 100_000_000
  {
    hide Joined, NatValue;
    var at := SegmentPlace(segs, closing, k);
    var p := |space| + 1 + at;
    assert t[p..p + |segs[k]|] == segs[k];
    LongRun(t, p, |segs[k]|);
    NatValueBelow(segs[k], 8);
    EightDigits();
  }

  lemma PlainPathSame(t: string, space: string, segs: seq<string>, closing: bool, u: Uri)
    requires ShortNumbers(t)
    ensures IsPath(t, space, segs, closing, u) <==> IsPlainPath(t, space, segs, closing, u)
  {
    hide Joined, NatValue, Number32, ShortNumbers, PassesRange;
    if segs != [] && t == space + "/" + Joined(segs, closing) && forall k :: 0 <= k < |segs| ==> AllDigits(segs[k]) {
      forall k | 0 <= k < |segs|
        ensures Number32(NatValue(segs[k])) == NatValue(segs[k])
      {
        ShortSegment(t, space, segs, closing, k);
        Number32Exact(NatValue(segs[k]));
      }
      assert IdsOf(segs) == PlainIds(segs);
    }
  }

  /** On texts without nine digits in a row the parser accepts exactly the documented paths,
      with the ids that are written. */
  lemma DocumentedGrammarExact(t: string, u: Uri)
    requires ShortNumbers(t)
    ensures TextToUri(t + [NUL], |t|) == Some((|t|, u)) <==> InPlainGrammar(t, u)
  {
    hide IsPath, IsPlainPath, TextToUri;
    GrammarExact(t, u);
    forall space, segs, closing
      ensures IsPath(t, space, segs, closing, u) <==> IsPlainPath(t, space, segs, closing, u)
    {
      PlainPathSame(t, space, segs, closing, u);
    }
  }

  /** An object path of digits is accepted if and only if its number passes the check. */
  lemma ObjectIdExact(d: string)
    requires d != "" && AllDigits(d)
    ensures TextToUri("/" + d + [NUL], |d| + 1).Some? <==> PassesRange(NatValue(d), MAX_ID)
  {
    hide NatValue, Number32, SegmentEnd, NumberAt, SpaceEnd, PassesRange;
    var buffer, len := "/" + d + [NUL], |d| + 1;
    assert buffer[1..len] == d;
    SpaceEndUnique(buffer, 0, len, 0);
    SegmentInside(buffer, 1, len, d);
    RangeExact(NatValue(d), MAX_ID);
  }

  /** The documented range is not enforced on nine digits and more: 429496730 wraps to a
      small number and 858993459 is truncated to zero, so both are taken for the Security
      object. */
  lemma OverlongObjectId(d: string)
    requires d != "" && AllDigits(d) && (NatValue(d) == 429496730 || NatValue(d) == 858993459)
    ensures InGrammar("/" + d, Uri(0, None, None))
  {
    assert Number32(NatValue(d)) == 0;
    assert "/" + d == "" + "/" + Joined([d], false);
    assert IsPath("/" + d, "", [d], false, Uri(0, None, None));
  }

  // ---------------------------------------------------------------- round trip

  function IdSegments(u: Uri): (segs: seq<string>)
    ensures segs != []
  {
    [Decimal(u.objectId)]
    + (if u.instanceId.Some? then [Decimal(u.instanceId.value)] else [])
    + (if u.instanceId.Some? && u.resourceId.Some? then [Decimal(u.resourceId.value)] else [])
  }

  lemma IdAppended(head: string, id: nat, length: nat)
    requires |head| <= length && AppendId(head, id, length).Ok?
    ensures AppendId(head, id, length).value == head + Decimal(id)
  {
    hide Decimal;
  }

  lemma JoinedClosed(segs: seq<string>)
    requires 1 <= |segs| <= 3
    ensures Joined(segs, true) ==
            if |segs| == 1 then segs[0] + "/"
            else if |segs| == 2 then segs[0] + ("/" + (segs[1] + "/"))
            else segs[0] + ("/" + (segs[1] + ("/" + (segs[2] + "/"))))
  {
    if |segs| > 1 {
      assert Joined(segs[1..], true) == segs[1] + if |segs| == 2 then "/" else "/" + Joined(segs[1..][1..], true);
      if |segs| == 3 { assert segs[1..][1..] == [segs[2]]; }
    }
  }

  lemma PrintedShape(u: Uri, length: nat)
    requires WellFormed(u) && length > 0 && UriToText(Some(u), length).Ok?
    ensures UriToText(Some(u), length).value == "/" + Joined(IdSegments(u), true)
  {
    hide Decimal, AppendId, Joined;
    var segs := IdSegments(u);
    JoinedClosed(segs);
    IdAppended("/", u.objectId, length);
    var t := "/" + segs[0];
    if u.instanceId.None? {
      Regroup("/", segs[0], "/");
    } else {
      IdAppended(t + "/", u.instanceId.value, length);
      var t1 := t + "/" + segs[1];
      if u.resourceId.None? {
        assert t1 + "/" == "/" + (segs[0] + ("/" + (segs[1] + "/")));
      } else {
        IdAppended(t1 + "/", u.resourceId.value, length);
        assert t1 + "/" + segs[2] + "/" == "/" + (segs[0] + ("/" + (segs[1] + ("/" + (segs[2] + "/")))));
      }
    }
  }

  lemma IdFits(head: string, id: nat, length: nat)
    requires |head| <= length
    ensures AppendId(head, id, length).Ok? <==> |head| + |Decimal(id)| + 1 < length
  {
    hide Decimal;
  }

  /** A path is printed if and only if the buffer has room for one byte more. */
  lemma PrintedExact(u: Uri, length: nat)
    requires WellFormed(u) && length > 0
    ensures UriToText(Some(u), length).Ok? <==> |"/" + Joined(IdSegments(u), true)| < length
  {
    hide Decimal, AppendId, Joined;
    JoinedClosed(IdSegments(u));
    IdFits("/", u.objectId, length);
    var t := AppendId("/", u.objectId, length);
    if t.Ok? && u.instanceId.Some? {
      IdAppended("/", u.objectId, length);
      IdFits(t.value + "/", u.instanceId.value, length);
      var t1 := AppendId(t.value + "/", u.instanceId.value, length);
      if t1.Ok? && u.resourceId.Some? {
        IdAppended(t.value + "/", u.instanceId.value, length);
        IdFits(t1.value + "/", u.resourceId.value, length);
      }
    }
  }

  /** The printed digits of an id are a segment that denotes the id. */
  lemma IdSegment(id: nat)
    requires id <= MAX_ID
    ensures Number32(NatValue(Decimal(id))) == id
  {
    DecimalValue(id);
  }

  lemma IdsReturn(u: Uri)
    requires WellFormed(u)
    ensures forall k :: 0 <= k < |IdSegments(u)| ==>
              AllDigits(IdSegments(u)[k]) && IdSegments(u)[k] != "" && Number32(NatValue(IdSegments(u)[k])) >= 0
    ensures UriOfIds(IdsOf(IdSegments(u))) == u
    ensures |IdSegments(u)| < 3 && (u.instanceId.Some? ==> u.instanceId.value < MAX_ID) ==>
              Segments(IdSegments(u), true, 0)
    ensures |IdSegments(u)| == 3 && u.instanceId.value < MAX_ID && u.resourceId.value < MAX_ID ==>
              Segments(IdSegments(u), false, 0)
  {
    hide Number32, NatValue, Decimal;
    IdSegment(u.objectId);
    if u.instanceId.Some? { IdSegment(u.instanceId.value); }
    if u.resourceId.Some? { IdSegment(u.resourceId.value); }
  }

  /** Printing a path and parsing the text returns the path exactly when no
      resource id is set: the closing slash is then one too many.  Without that
      slash resource paths return too. */
  lemma UriRoundTrip(u: Uri, length: nat, after: char)
    requires WellFormed(u) && length > 0 && UriToText(Some(u), length).Ok?
    requires u.instanceId.Some? ==> u.instanceId.value < MAX_ID
    requires u.resourceId.Some? ==> u.resourceId.value < MAX_ID
    ensures var t := UriToText(Some(u), length).value;
            TextToUri(t + [after], |t|) == Some((|t|, u)) <==> u.resourceId.None?
    ensures var t := UriToText(Some(u), length).value;
            u.resourceId.Some? ==>
              && TextToUri(t + [after], |t|) == None
              && TextToUri(t, |t| - 1) == Some((|t| - 1, u))
  {
    hide UriToText, Segments, IdsOf, ReadIds, Joined, IsPath;
    var t := UriToText(Some(u), length).value;
    var segs := IdSegments(u);
    PrintedShape(u, length);
    IdsReturn(u);
    assert (t + [after])[..|t|] == t;
    if u.resourceId.Some? {
      ClosingSlash(segs);
      assert t[..|t| - 1] == "" + "/" + Joined(segs, false);
      PathOf(segs, false, u);
      PathAccepted(t, |t| - 1, "", segs, false, u);
      ResourcePathRejected(segs, t + [after], |t|);
    } else {
      assert t == "" + "/" + Joined(segs, true);
      PathOf(segs, true, u);
      PathAccepted(t + [after], |t|, "", segs, true, u);
    }
  }

  lemma PathOf(segs: seq<string>, closing: bool, u: Uri)
    requires Segments(segs, closing, 0) && UriOfIds(IdsOf(segs)) == u
    ensures IsPath("" + "/" + Joined(segs, closing), "", segs, closing, u)
  {
    hide Segments, IdsOf, Joined;
  }

  lemma {:induction false} ClosingSlash(segs: seq<string>)
    requires segs != []
    ensures Joined(segs, true) == Joined(segs, false) + "/"
  {
    if |segs| > 1 {
      ClosingSlash(segs[1..]);
      assert segs[0] + ("/" + (Joined(segs[1..], false) + "/")) == (segs[0] + ("/" + Joined(segs[1..], false))) + "/";
    }
  }

  /** Where the three segments of a resource path with a closing slash are. */
  lemma ResourcePathLayout(segs: seq<string>, buffer: string, len: nat)
    requires |segs| == 3 && forall k :: 0 <= k < 3 ==> segs[k] != ""
    requires len < |buffer| && buffer[..len] == "/" + Joined(segs, true)
    ensures var p1 := 1 + |segs[0]| + 1;
            var p2 := p1 + |segs[1]| + 1;
            && p2 + |segs[2]| + 1 == len && buffer[0] == '/'
            && buffer[1..1 + |segs[0]|] == segs[0] && buffer[1 + |segs[0]|] == '/'
            && buffer[p1..p1 + |segs[1]|] == segs[1] && buffer[p1 + |segs[1]|] == '/'
            && buffer[p2..p2 + |segs[2]|] == segs[2] && buffer[p2 + |segs[2]|] == '/'
  {
    var t := buffer[..len];
    assert segs[1..][1..] == [segs[2]];
    assert Joined(segs[1..], true) == segs[1] + ("/" + (segs[2] + "/"));
    assert t == "/" + (segs[0] + ("/" + (segs[1] + ("/" + (segs[2] + "/")))));
    assert forall k :: 0 <= k < len ==> buffer[k] == t[k];
  }

  lemma ResourcePathRejected(segs: seq<string>, buffer: string, len: nat)
    requires |segs| == 3 && forall k :: 0 <= k < 3 ==> segs[k] != "" && AllDigits(segs[k])
    requires len < |buffer| && buffer[..len] == "/" + Joined(segs, true)
    ensures TextToUri(buffer, len) == None
  {
    hide NatValue, Number32, SegmentEnd, NumberAt, SpaceEnd, Limit, Joined, AllDigits;
    ResourcePathLayout(segs, buffer, len);
    var p1 := 1 + |segs[0]| + 1;
    var p2 := p1 + |segs[1]| + 1;
    SpaceEndUnique(buffer, 0, len, 0);
    SegmentInside(buffer, 1, len, segs[0]);
    SegmentInside(buffer, p1, len, segs[1]);
    SegmentInside(buffer, p2, len, segs[2]);
    assert ReadIds(buffer, len, p2, 2) == None;
  }
}
