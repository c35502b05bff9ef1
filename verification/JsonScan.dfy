/** The hand-written scanner of the JSON codec (src/lwm2m/core/json.c): white space,
    the key/value splitter, the item counter and the item parser.

    A buffer and its length are one string here; the C code passes sub-buffers, which
    become slices. */
module JsonScan {
  import opened Text
  import opened Uris

  predicate IsReserved(c: char) {
    c in {'[', '{', ']', '}', ':', ',', '"'}
  }

  predicate IsWhiteSpace(c: char) {
    c in {' ', '\t', '\n', '\r'}
  }

  /** The first position from `i` on that holds no white space. */
  function Skip(buf: string, i: nat): (e: nat)
    requires i <= |buf|
    ensures i <= e <= |buf|
    decreases |buf| - i
  {
    if i < |buf| && IsWhiteSpace(buf[i]) then Skip(buf, i + 1) else i
  }

  lemma {:induction false} SkipClear(buf: string, i: nat)
    requires i <= |buf|
    ensures forall k :: i <= k < Skip(buf, i) ==> IsWhiteSpace(buf[k])
    ensures Skip(buf, i) < |buf| ==> !IsWhiteSpace(buf[Skip(buf, i)])
    decreases |buf| - i
  {
    if i < |buf| && IsWhiteSpace(buf[i]) { SkipClear(buf, i + 1); }
  }

  /** White space is never skipped past another character. */
  lemma {:induction false} SkipStops(buf: string, i: nat, j: nat)
    requires i <= j < |buf| && !IsWhiteSpace(buf[j])
    ensures Skip(buf, i) <= j
    decreases j - i
  {
    if i < j { SkipStops(buf, i + 1, j); }
  }

  lemma {:induction false} SkipUnique(buf: string, i: nat, e: nat)
    requires i <= e <= |buf|
    requires forall k :: i <= k < e ==> IsWhiteSpace(buf[k])
    requires e < |buf| ==> !IsWhiteSpace(buf[e])
    ensures Skip(buf, i) == e
    decreases e - i
  {
    if i < e { SkipUnique(buf, i + 1, e); }
  }

  /** `prv_skipSpace`, returning the position instead of a count. */
  method SkipSpace(buf: string, i: nat) returns (e: nat)
    requires i <= |buf|
    ensures e == Skip(buf, i)
  {
    e := i;
    while e < |buf| && IsWhiteSpace(buf[e])
      invariant i <= e <= |buf|
      invariant forall k :: i <= k < e ==> IsWhiteSpace(buf[k])
    {
      e := e + 1;
    }
    SkipUnique(buf, i, e);
  }

  // ---------------------------------------------------------------- prv_split

  datatype Step = Start | InToken | AnySeparator | Separator | QuotedValue | Value | Done

  /** The step and the out-parameters of `prv_split`. */
  datatype Scan = Scan(step: Step, tokenStart: nat, tokenLen: nat, valueStart: nat, valueLen: nat)

  predicate SkipsSpace(s: Step) {
    s.Start? || s.AnySeparator? || s.Separator? || s.Done?
  }

  /** What the scan has established when it stands at `i`. */
  predicate ScanBounds(buf: string, i: nat, s: Scan) {
    && i <= |buf|
    && (!s.step.Start? ==> 1 <= s.tokenStart <= i)
    && (!s.step.Start? && !s.step.InToken? ==> s.tokenStart + s.tokenLen + 1 <= i)
    && (s.step.Separator? ==> s.tokenStart + s.tokenLen + 2 <= i)
    && (s.step.QuotedValue? || s.step.Value? || s.step.Done? ==>
          s.tokenStart + s.tokenLen + 2 <= s.valueStart < i)
    && (s.step.Done? ==> 1 <= s.valueLen && s.valueStart + s.valueLen <= i)
  }

  /** One iteration of the splitter on a character that is no comma. */
  function SplitStep(buf: string, i: nat, s: Scan): (r: Option<Scan>)
    requires i < |buf| && ScanBounds(buf, i, s)
    ensures r.Some? ==> ScanBounds(buf, i + 1, r.value)
  {
    var c := buf[i];
    match s.step
    case Start => if c != '"' then None else Some(s.(step := InToken, tokenStart := i + 1))
    case InToken => Some(if c == '"' then s.(step := AnySeparator, tokenLen := i - s.tokenStart) else s)
    case AnySeparator => if c != ':' then None else Some(s.(step := Separator))
    case Separator =>
      if c == '"' then Some(s.(step := QuotedValue, valueStart := i))
      else if !IsReserved(c) then Some(s.(step := Value, valueStart := i))
      else None
    case QuotedValue =>
      Some(if c == '"' && buf[i - 1] != '\\' then s.(step := Done, valueLen := i - s.valueStart + 1) else s)
    case Value =>
      Some(if IsWhiteSpace(c) then s.(step := Done, valueLen := i - s.valueStart) else s)
    case Done => None
  }

  /** The rest of the loop from `i`: the position reached and the final scan. */
  function SplitFrom(buf: string, i: nat, s: Scan): (r: Option<(nat, Scan)>)
    requires ScanBounds(buf, i, s)
    ensures r.Some? ==> i <= r.value.0 && r.value.1.step.Done? && ScanBounds(buf, r.value.0, r.value.1)
    ensures r.Some? && r.value.0 < |buf| ==> buf[r.value.0] == ','
    decreases |buf| - i
  {
    if i == |buf| || buf[i] == ',' then
      if s.step.Value? then Some((i, s.(step := Done, valueLen := i - s.valueStart)))
      else if s.step.Done? then Some((i, s))
      else None
    else
      match SplitStep(buf, i, s)
      case None => None
      case Some(t) => SplitFrom(buf, if SkipsSpace(t.step) then Skip(buf, i + 1) else i + 1, t)
  }

  const NO_SCAN := Scan(Start, 0, 0, 0, 0)

  function Split(buf: string): (r: Option<(nat, Scan)>)
    ensures r.Some? ==> 4 <= r.value.0 && r.value.1.step.Done? && ScanBounds(buf, r.value.0, r.value.1)
  {
    var i := Skip(buf, 0);
    if i == |buf| then None else SplitFrom(buf, i, NO_SCAN)
  }

  /** One round of the loop, and what is left behind it. */
  lemma SplitRound(buf: string, i: nat, s: Scan)
    requires ScanBounds(buf, i, s) && i < |buf| && buf[i] != ','
    ensures SplitFrom(buf, i, s) ==
            match SplitStep(buf, i, s)
            case None => None
            case Some(t) => SplitFrom(buf, if SkipsSpace(t.step) then Skip(buf, i + 1) else i + 1, t)
  {
    hide SplitStep;
  }

  lemma SplitEnd(buf: string, i: nat, s: Scan)
    requires ScanBounds(buf, i, s) && (i == |buf| || buf[i] == ',')
    ensures SplitFrom(buf, i, s) ==
            if s.step.Value? then Some((i, s.(step := Done, valueLen := i - s.valueStart)))
            else if s.step.Done? then Some((i, s))
            else None
  {}

  /** `prv_split`: one `"key": value` pair up to the next comma. */
  method SplitPair(buf: string) returns (r: Option<(nat, Scan)>)
    ensures r == Split(buf)
  {
    hide SplitFrom, Skip;
    var index := SkipSpace(buf, 0);
    if index == |buf| { return None; }
    var s := NO_SCAN;
    while index < |buf| && buf[index] != ','
      invariant ScanBounds(buf, index, s)
      invariant SplitFrom(buf, index, s) == Split(buf)
      decreases |buf| - index
    {
      var c := buf[index];
      SplitRound(buf, index, s);
      match s.step {
        case Start =>
          if c != '"' { return None; }
          s := s.(tokenStart := index + 1, step := InToken);
        case InToken =>
          if c == '"' { s := s.(tokenLen := index - s.tokenStart, step := AnySeparator); }
        case AnySeparator =>
          if c != ':' { return None; }
          s := s.(step := Separator);
        case Separator =>
          if c == '"' { s := s.(valueStart := index, step := QuotedValue); }
          else if !IsReserved(c) { s := s.(valueStart := index, step := Value); }
          else { return None; }
        case QuotedValue =>
          if c == '"' && buf[index - 1] != '\\' {
            s := s.(valueLen := index - s.valueStart + 1, step := Done);
          }
        case Value =>
          if IsWhiteSpace(c) { s := s.(valueLen := index - s.valueStart, step := Done); }
        case Done =>
          return None;
      }
      index := index + 1;
      if SkipsSpace(s.step) { index := SkipSpace(buf, index); }
    }
    SplitEnd(buf, index, s);
    if s.step.Value? {
      s := s.(valueLen := index - s.valueStart, step := Done);
    }
    if !s.step.Done? { return None; }
    return Some((index, s));
  }

  // ---------------------------------------------------------------- prv_countItems

  /** The macro `_GO_TO_NEXT_CHAR`; reaching the end of the buffer is an error. */
  function Next(buf: string, i: nat): (e: nat)
    requires i < |buf|
    ensures i < e <= |buf|
  {
    Skip(buf, i + 1)
  }

  /** How many items are closed from position `i` on, `inside` an item or not. */
  function CountFrom(buf: string, i: nat, inside: bool): (r: Option<nat>)
    requires i < |buf|
    ensures r.Some? ==> r.value > 0
    decreases |buf| - i
  {
    var n := Next(buf, i);
    if !inside then
      if buf[i] != '{' || n == |buf| then None else CountFrom(buf, n, true)
    else if buf[i] == '{' || n == |buf| then None
    else if buf[i] != '}' then CountFrom(buf, n, true)
    else if buf[n] == ']' then Some(1)
    else if buf[n] != ',' || Next(buf, n) == |buf| then None
    else
      match CountFrom(buf, Next(buf, n), false)
      case None => None
      case Some(c) => Some(c + 1)
  }

  function Plus(o: Option<nat>, k: nat): Option<nat> {
    if o.None? then None else Some(o.value + k)
  }

  /** The count, or -1. */
  function OrMinusOne(o: Option<nat>): int {
    if o.None? then -1 else o.value
  }

  /** `prv_countItems` on the buffer from `start`; -1 reports an error. */
  method CountItems(buf: string, start: nat) returns (count: int)
    requires start < |buf|
    ensures count == OrMinusOne(CountFrom(buf, start, false))
  {
    hide Skip, IsWhiteSpace;
    ghost var total := CountFrom(buf, start, false);
    count := 0;
    var index := start;
    var inside := false;
    while index < |buf|
      invariant start <= index < |buf| && count >= 0
      invariant total == Plus(CountFrom(buf, index, inside), count)
      decreases |buf| - index
    {
      if !inside {
        if buf[index] != '{' { return -1; }
        inside := true;
        index := SkipSpace(buf, index + 1);
        if index == |buf| { return -1; }
      } else {
        if buf[index] == '{' { return -1; }
        if buf[index] == '}' {
          inside := false;
          count := count + 1;
          index := SkipSpace(buf, index + 1);
          if index == |buf| { return -1; }
          if buf[index] == ']' { break; }
          if buf[index] != ',' { return -1; }
          index := SkipSpace(buf, index + 1);
          if index == |buf| { return -1; }
        } else {
          index := SkipSpace(buf, index + 1);
          if index == |buf| { return -1; }
        }
      }
    }
    if inside { return -1; }
  }

  // ---------------------------------------------------------------- prv_parseItem

  datatype ValueType = Unset | FalseValue | TrueValue | NumberValue | TextValue

  /** `_record_t`: four path ids, 65535 where unset, and the raw value. */
  datatype IdsAndValue = Record(ids: seq<nat>, kind: ValueType, value: string)

  type Record = r: IdsAndValue | |r.ids| == 4 witness Record([0, 0, 0, 0], Unset, "")

  const NO_RECORD: Record := Record([MAX_ID, MAX_ID, MAX_ID, MAX_ID], Unset, "")

  /** The ids of a path text between quotes: segments of digits, an empty segment
      counting as 0, at most four of them. */
  function PathIds(path: string, p: nat, ids: seq<nat>, j: nat): (r: Option<seq<nat>>)
    requires p <= |path| && |ids| == 4 && j < 4
    ensures r.Some? ==> |r.value| == 4 && r.value[..j] == ids[..j]
    decreases 4 - j
  {
    var e := SegmentEnd(path, p, |path|);
    var segment := path[p..e];
    if !AllDigits(segment) || NatValue(segment) > MAX_ID then None
    else
      var next := ids[j := NatValue(segment)];
      if e == |path| then Some(next)
      else if j + 1 == 4 then None
      else PathIds(path, e + 1, next, j + 1)
  }

  /** The value of key `n`: quoted, one leading slash ignored. */
  function NameIds(value: string, ids: seq<nat>): (r: Option<seq<nat>>)
    requires |value| > 0 && |ids| == 4
    ensures r.Some? ==> |r.value| == 4
  {
    if ids[0] != MAX_ID || |value| < 2 || value[0] != '"' || value[|value| - 1] != '"' then None
    else if value[1] != '/' then PathIds(value[1..|value| - 1], 0, ids, 0)
    else if |value| < 4 then None
    else PathIds(value[2..|value| - 1], 0, ids, 0)
  }

  /** `strncmp` of a NUL-terminated literal with the bytes of a value finds no
      difference. */
  predicate SameText(literal: string, value: string) {
    if |value| <= |literal| then value == literal[..|value|]
    else value[..|literal|] == literal && value[|literal|] == NUL
  }

  /** What one key/value pair does to the record. */
  function ApplyPair(token: string, value: string, rec: Record): (r: Option<Record>)
    requires |value| > 0
  {
    if |token| == 1 then
      match token[0]
      case 'n' =>
        (match NameIds(value, rec.ids)
         case None => None
         case Some(ids) => Some(rec.(ids := ids)))
      case 'v' => if !rec.kind.Unset? then None else Some(rec.(kind := NumberValue, value := value))
      case 't' => Some(rec)
      case _ => None
    else if |token| != 2 || token[1] != 'v' then None
    else
      match token[0]
      case 'b' =>
        if !rec.kind.Unset? then None
        else if SameText("true", value) then Some(rec.(kind := TrueValue))
        else if SameText("false", value) then Some(rec.(kind := FalseValue))
        else None
      case 'o' => if !rec.kind.Unset? then None else Some(rec)
      case 's' =>
        if !rec.kind.Unset? || |value| < 2 || value[0] != '"' || value[|value| - 1] != '"' then None
        else Some(rec.(kind := TextValue, value := value[1..|value| - 1]))
      case _ => None
  }

  function TokenOf(buf: string, s: Scan): string
    requires ScanBounds(buf, |buf|, s) && s.step.Done?
  {
    buf[s.tokenStart..s.tokenStart + s.tokenLen]
  }

  function ValueOf(buf: string, s: Scan): (v: string)
    requires ScanBounds(buf, |buf|, s) && s.step.Done?
    ensures |v| > 0
  {
    buf[s.valueStart..s.valueStart + s.valueLen]
  }

  /** The pairs of an item from `index` on, applied to `rec`. */
  function ItemFrom(buf: string, index: nat, rec: Record): (r: Option<Record>)
    requires index <= |buf|
    decreases |buf| - index
  {
    var rest := buf[index..];
    match Split(rest)
    case None => None
    case Some(pair) =>
      match ApplyPair(TokenOf(rest, pair.1), ValueOf(rest, pair.1), rec)
      case None => None
      case Some(rec') =>
        if index + pair.0 + 1 < |buf| then ItemFrom(buf, index + pair.0 + 1, rec') else Some(rec')
  }

  /** A pair is taken under six keys only.  A second value and a second path are refused, and
      only the key `n` touches the path. */
  lemma AppliedOnce(token: string, value: string, rec: Record)
    requires |value| > 0
    ensures var r := ApplyPair(token, value, rec);
            && (!rec.kind.Unset? && token in {"v", "bv", "ov", "sv"} ==> r == None)
            && (rec.ids[0] != MAX_ID && token == "n" ==> r == None)
            && (r.Some? ==>
                  && token in {"n", "v", "t", "bv", "ov", "sv"}
                  && (token != "n" ==> r.value.ids == rec.ids)
                  && (!rec.kind.Unset? ==> r.value.kind == rec.kind && r.value.value == rec.value))
  {
    hide PathIds, SameText;
    if |token| == 1 { assert token == [token[0]]; }
    if |token| == 2 { assert token == [token[0], token[1]]; }
  }

  /** Along an item the first value stays, and so does the first path. */
  lemma {:induction false} ItemKeeps(buf: string, index: nat, rec: Record)
    requires index <= |buf|
    ensures var r := ItemFrom(buf, index, rec);
            r.Some? ==>
              && (rec.ids[0] != MAX_ID ==> r.value.ids == rec.ids)
              && (!rec.kind.Unset? ==> r.value.kind == rec.kind && r.value.value == rec.value)
    decreases |buf| - index
  {
    hide ApplyPair, Split;
    var rest := buf[index..];
    var pair := Split(rest);
    if pair.Some? {
      var token, value := TokenOf(rest, pair.value.1), ValueOf(rest, pair.value.1);
      AppliedOnce(token, value, rec);
      var applied := ApplyPair(token, value, rec);
      if applied.Some? && index + pair.value.0 + 1 < |buf| {
        ItemKeeps(buf, index + pair.value.0 + 1, applied.value);
      }
    }
  }

  lemma NoDigits(s: string)
    requires s == ""
    ensures NatValue(s) == 0
  {}

  lemma OneMoreDigit(path: string, p: nat, e: nat)
    requires p <= e < |path| && AllDigits(path[p..e]) && IsDigit(path[e])
    ensures AllDigits(path[p..e + 1])
    ensures NatValue(path[p..e + 1]) == NatValue(path[p..e]) * 10 + DigitValue(path[e])
  {
    assert path[p..e + 1][..e - p] == path[p..e];
  }

  /** The inner loop over one path segment. */
  method ReadSegment(path: string, p: nat) returns (id: Option<nat>, e: nat)
    requires p <= |path|
    ensures p <= e <= |path|
    ensures var s := path[p..SegmentEnd(path, p, |path|)];
            if id.Some? then e == SegmentEnd(path, p, |path|) && AllDigits(s) && id.value == NatValue(s) <= MAX_ID
            else !AllDigits(s) || NatValue(s) > MAX_ID
  {
    hide NatValue, SegmentEnd;
    NoDigits(path[p..p]);
    var readId := 0;
    e := p;
    while e < |path| && path[e] != '/'
      invariant p <= e <= |path|
      invariant forall k :: p <= k < e ==> path[k] != '/' && IsDigit(path[k])
      invariant readId == NatValue(path[p..e]) && readId <= MAX_ID
    {
      if path[e] < '0' || path[e] > '9' {
        BadSegment(path, p, e);
        return None, e;
      }
      OneMoreDigit(path, p, e);
      readId := readId * 10 + DigitValue(path[e]);
      if readId > MAX_ID {
        LongSegment(path, p, e + 1);
        return None, e;
      }
      e := e + 1;
    }
    SegmentEndUnique(path, p, |path|, e);
    id := Some(readId);
  }

  /** One round of the loop over the segments. */
  lemma PathStep(path: string, p: nat, ids: seq<nat>, j: nat, id: Option<nat>, e: nat)
    requires p <= e <= |path| && |ids| == 4 && j < 4
    requires var s := path[p..SegmentEnd(path, p, |path|)];
             if id.Some? then e == SegmentEnd(path, p, |path|) && AllDigits(s) && id.value == NatValue(s) <= MAX_ID
             else !AllDigits(s) || NatValue(s) > MAX_ID
    ensures PathIds(path, p, ids, j) ==
            if id.None? then None
            else if e == |path| then Some(ids[j := id.value])
            else if j + 1 == 4 then None
            else PathIds(path, e + 1, ids[j := id.value], j + 1)
  {
    hide SegmentEnd, NatValue;
  }

  /** The loop over the segments. */
  method ReadSegments(path: string, ids: seq<nat>) returns (r: Option<seq<nat>>)
    requires |ids| == 4
    ensures r == PathIds(path, 0, ids, 0)
  {
    hide SegmentEnd, NatValue, PathIds;
    var out: seq<nat> := ids;
    var p, j := 0, 0;
    while true
      invariant 0 <= p <= |path| && 0 <= j < 4 && |out| == 4
      invariant PathIds(path, 0, ids, 0) == PathIds(path, p, out, j)
      decreases 4 - j
    {
      var id, e := ReadSegment(path, p);
      PathStep(path, p, out, j, id, e);
      if id.None? { return None; }
      out := out[j := id.value];
      j := j + 1;
      if e == |path| { return Some(out); }
      if j == 4 { return None; }
      p := e + 1;
    }
  }

  /** The value of key `n`, checked and read. */
  method ReadPath(value: string, ids: seq<nat>) returns (r: Option<seq<nat>>)
    requires |value| > 0 && |ids| == 4
    ensures r == NameIds(value, ids)
  {
    hide PathIds;
    if ids[0] != MAX_ID { return None; }
    if |value| < 2 || value[0] != '"' || value[|value| - 1] != '"' { return None; }
    var path := value[1..|value| - 1];
    if value[1] == '/' {
      if |value| < 4 { return None; }
      path := value[2..|value| - 1];
    }
    r := ReadSegments(path, ids);
  }

  lemma BadSegment(path: string, p: nat, k: nat)
    requires p <= k < |path| && !IsDigit(path[k])
    requires forall j :: p <= j <= k ==> path[j] != '/'
    ensures !AllDigits(path[p..SegmentEnd(path, p, |path|)])
  {
    SegmentEndReaches(path, p, |path|, k);
    assert path[p..SegmentEnd(path, p, |path|)][k - p] == path[k];
  }

  lemma LongSegment(path: string, p: nat, k: nat)
    requires p < k <= |path| && AllDigits(path[p..k]) && NatValue(path[p..k]) > MAX_ID
    requires forall j :: p <= j < k ==> path[j] != '/'
    ensures var s := path[p..SegmentEnd(path, p, |path|)]; !AllDigits(s) || NatValue(s) > MAX_ID
  {
    SegmentEndReaches(path, p, |path|, k - 1);
    var s := path[p..SegmentEnd(path, p, |path|)];
    assert s[..k - p] == path[p..k];
    if AllDigits(s) { NatValueGrows(s, k - p); }
  }

  lemma {:induction false} NatValueGrows(s: string, k: nat)
    requires AllDigits(s) && k <= |s|
    ensures NatValue(s[..k]) <= NatValue(s)
  {
    if k < |s| {
      NatValueGrows(s[..|s| - 1], k);
      assert s[..|s| - 1][..k] == s[..k];
    } else {
      assert s[..k] == s;
    }
  }

  /** The two nested switches on the key. */
  method Apply(token: string, value: string, rec: Record) returns (r: Option<Record>)
    requires |value| > 0
    ensures r == ApplyPair(token, value, rec)
  {
    match |token| {
      case 1 =>
        match token[0] {
          case 'n' =>
            var ids := ReadPath(value, rec.ids);
            if ids.None? { return None; }
            return Some(rec.(ids := ids.value));
          case 'v' =>
            if !rec.kind.Unset? { return None; }
            return Some(rec.(kind := NumberValue, value := value));
          case 't' => return Some(rec);
          case _ => return None;
        }
      case 2 =>
        if token[1] != 'v' { return None; }
        match token[0] {
          case 'b' =>
            if !rec.kind.Unset? { return None; }
            if SameText("true", value) { return Some(rec.(kind := TrueValue)); }
            if SameText("false", value) { return Some(rec.(kind := FalseValue)); }
            return None;
          case 'o' =>
            if !rec.kind.Unset? { return None; }
            return Some(rec);
          case 's' =>
            if !rec.kind.Unset? { return None; }
            if |value| < 2 || value[0] != '"' || value[|value| - 1] != '"' { return None; }
            return Some(rec.(kind := TextValue, value := value[1..|value| - 1]));
          case _ => return None;
        }
      case _ => return None;
    }
  }

  /** `prv_parseItem` on the bytes between the braces of one item. */
  method ParseItem(buf: string) returns (r: Option<Record>)
    ensures r == ItemFrom(buf, 0, NO_RECORD)
  {
    hide ApplyPair, Split;
    var rec := NO_RECORD;
    var index := 0;
    ghost var total := ItemFrom(buf, 0, NO_RECORD);
    while true
      invariant 0 <= index <= |buf|
      invariant ItemFrom(buf, index, rec) == total
      decreases |buf| - index
    {
      var rest := buf[index..];
      var pair := SplitPair(rest);
      if pair.None? { return None; }
      var (next, s) := pair.value;
      var applied := Apply(TokenOf(rest, s), ValueOf(rest, s), rec);
      if applied.None? { return None; }
      rec := applied.value;
      if index + next + 1 >= |buf| { return Some(rec); }
      index := index + next + 1;
    }
  }
}
