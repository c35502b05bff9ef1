/** How the scanner of `json_parse` reads the text of known entries: item by item, the
    array, and the whole text below a base path.

    Each layer of the scanner is run on the text the printer writes for that layer.  The
    splitter takes a key and its value whole, because nothing between the quotes ends them
    early; the item parser then finds the name and the value of one entry; the item counter
    and the item loop find one group for each entry; and the top-level scan finds the base
    path in front of them.  The texts are described by `At`, a text at a place of a buffer,
    so that a layer need not know what stands around it. */
module JsonReadBack {
  import opened Text
  import opened Uris
  import opened JsonScan
  import opened JsonTree
  import opened JsonParse
  import S = JsonSerialize

  // ---------------------------------------------------------------- splitting known pairs

  /** `s` stands in `buf` at `i`. */
  predicate At(buf: string, i: nat, s: string) {
    i + |s| <= |buf| && forall k :: 0 <= k < |s| ==> buf[i + k] == s[k]
  }

  lemma AtSplit(buf: string, i: nat, a: string, b: string)
    requires At(buf, i, a + b)
    ensures At(buf, i, a) && At(buf, i + |a|, b)
  {
    var s := a + b;
    forall k | 0 <= k < |a|
      ensures buf[i + k] == a[k]
    {
      assert s[k] == a[k];
    }
    forall k | 0 <= k < |b|
      ensures buf[i + |a| + k] == b[k]
    {
      assert s[|a| + k] == b[k];
      assert buf[i + (|a| + k)] == s[|a| + k];
    }
  }

  lemma AtSlice(buf: string, i: nat, s: string)
    requires At(buf, i, s)
    ensures buf[i..i + |s|] == s
  {}

  lemma AtFirst(buf: string, i: nat, s: string)
    requires At(buf, i, s) && s != ""
    ensures buf[i] == s[0]
  {
    assert buf[i + 0] == s[0];
  }

  lemma AtWhole(s: string)
    ensures At(s, 0, s)
  {}

  lemma {:induction false} TokenRun(buf: string, i: nat, s: Scan, j: nat)
    requires ScanBounds(buf, i, s) && s.step.InToken? && i <= j < |buf| && buf[j] == '"'
    requires forall k :: i <= k < j ==> buf[k] != '"' && buf[k] != ','
    ensures var t := s.(step := AnySeparator, tokenLen := j - s.tokenStart);
            ScanBounds(buf, Skip(buf, j + 1), t) && SplitFrom(buf, i, s) == SplitFrom(buf, Skip(buf, j + 1), t)
    decreases j - i
  {
    if i < j { TokenRun(buf, i + 1, s, j); }
  }

  /** A quote at `k` does not end a quoted value. */
  predicate Escaped(s: string, k: nat)
    requires k < |s|
  {
    s[k] == '"' ==> k > 0 && s[k - 1] == '\\'
  }

  /** A quoted value ends at the first quote that has no backslash before it. */
  lemma {:induction false} QuotedRun(buf: string, i: nat, s: Scan, j: nat)
    requires ScanBounds(buf, i, s) && s.step.QuotedValue? && i <= j < |buf|
    requires buf[j] == '"' && buf[j - 1] != '\\'
    requires forall k :: i <= k < j ==> buf[k] != ',' && Escaped(buf, k)
    ensures var t := s.(step := Done, valueLen := j - s.valueStart + 1);
            ScanBounds(buf, Skip(buf, j + 1), t) && SplitFrom(buf, i, s) == SplitFrom(buf, Skip(buf, j + 1), t)
    decreases j - i
  {
    if i < j {
      assert Escaped(buf, i);
      QuotedRun(buf, i + 1, s, j);
    }
  }

  lemma {:induction false} PlainRun(buf: string, i: nat, s: Scan, j: nat)
    requires ScanBounds(buf, i, s) && s.step.Value? && i <= j <= |buf|
    requires forall k :: i <= k < j ==> buf[k] != ',' && !IsWhiteSpace(buf[k])
    requires j < |buf| ==> buf[j] == ','
    ensures SplitFrom(buf, i, s) == Some((j, s.(step := Done, valueLen := j - s.valueStart)))
    decreases j - i
  {
    if i < j { PlainRun(buf, i + 1, s, j); }
  }

  predicate IsKey(key: string) {
    forall k :: 0 <= k < |key| ==> key[k] != '"' && key[k] != ','
  }

  /** The scan behind the colon of `"key":`. */
  lemma KeyRead(buf: string, key: string)
    requires IsKey(key) && At(buf, 0, "\"" + key + "\":")
    requires |key| + 3 < |buf| && !IsWhiteSpace(buf[|key| + 3])
    ensures var s := Scan(Separator, 1, |key|, 0, 0);
            ScanBounds(buf, |key| + 3, s) && Split(buf) == SplitFrom(buf, |key| + 3, s)
  {
    var t := "\"" + key + "\":";
    var n := |key| + 1;
    assert forall k :: 0 <= k < |t| ==> buf[k] == t[k];
    assert forall k :: 1 <= k < n ==> buf[k] == key[k - 1];
    SkipUnique(buf, 0, 0);
    TokenRun(buf, 1, Scan(InToken, 1, 0, 0, 0), n);
    SkipUnique(buf, n + 1, n + 1);
    SkipUnique(buf, n + 2, n + 2);
  }

  /** A text between quotes the splitter takes whole: no comma, each quote behind a
      backslash, and no backslash at the end. */
  predicate Quotable(s: string) {
    && (forall k :: 0 <= k < |s| ==> s[k] != ',' && Escaped(s, k))
    && (s != "" ==> s[|s| - 1] != '\\')
  }

  function QuotedPair(key: string, value: string): string {
    "\"" + key + "\":\"" + value + "\""
  }

  function PlainPair(key: string, value: string): string {
    "\"" + key + "\":" + value
  }

  /** Between its quotes a quotable value does not end early. */
  lemma QuotedClear(buf: string, q: nat, value: string)
    requires Quotable(value) && At(buf, q, "\"" + value + "\"")
    ensures var j := q + 1 + |value|;
            && j < |buf| && buf[q] == '"' && buf[j] == '"' && buf[j - 1] != '\\'
            && forall k :: q < k < j ==> buf[k] != ',' && Escaped(buf, k)
  {
    var j := q + 1 + |value|;
    assert "\"" + value + "\"" == "\"" + (value + "\"");
    AtSplit(buf, q, "\"", value + "\"");
    AtSplit(buf, q + 1, value, "\"");
    AtFirst(buf, q, "\"");
    AtFirst(buf, j, "\"");
    forall k | q < k < j
      ensures buf[k] == value[k - q - 1]
    {
      assert buf[q + 1 + (k - q - 1)] == value[k - q - 1];
    }
    forall k | q < k < j
      ensures buf[k] != ',' && Escaped(buf, k)
    {
      assert Escaped(value, k - q - 1);
    }
  }

  /** The quoted value that starts at `q`. */
  lemma QuotedRead(buf: string, q: nat, value: string, s: Scan)
    requires ScanBounds(buf, q, s) && s.step.Separator? && Quotable(value)
    requires At(buf, q, "\"" + value + "\"")
    requires q + |value| + 2 < |buf| ==> buf[q + |value| + 2] == ','
    ensures SplitFrom(buf, q, s) ==
            Some((q + |value| + 2, s.(step := Done, valueStart := q, valueLen := |value| + 2)))
  {
    hide SplitFrom, Skip, Quotable, At, Escaped;
    var j := q + 1 + |value|;
    QuotedClear(buf, q, value);
    SeparatorStep(buf, q, s);
    QuotedRun(buf, q + 1, s.(step := QuotedValue, valueStart := q), j);
    SkipUnique(buf, j + 1, j + 1);
    DoneStops(buf, j + 1, s.(step := Done, valueStart := q, valueLen := j - q + 1));
  }

  lemma SplitQuoted(buf: string, key: string, value: string)
    requires IsKey(key) && Quotable(value) && At(buf, 0, QuotedPair(key, value))
    requires |buf| > |QuotedPair(key, value)| ==> buf[|QuotedPair(key, value)|] == ','
    ensures Split(buf) ==
            Some((|QuotedPair(key, value)|, Scan(Done, 1, |key|, |key| + 3, |value| + 2)))
  {
    var a, b := "\"" + key + "\":", "\"" + value + "\"";
    assert QuotedPair(key, value) == a + b;
    AtSplit(buf, 0, a, b);
    assert buf[|a|] == b[0];
    KeyRead(buf, key);
    QuotedRead(buf, |key| + 3, value, Scan(Separator, 1, |key|, 0, 0));
  }

  lemma SeparatorStep(buf: string, i: nat, s: Scan)
    requires i < |buf| && ScanBounds(buf, i, s) && s.step.Separator?
    ensures buf[i] == '"' ==>
              ScanBounds(buf, i + 1, s.(step := QuotedValue, valueStart := i))
              && SplitFrom(buf, i, s) == SplitFrom(buf, i + 1, s.(step := QuotedValue, valueStart := i))
    ensures !IsReserved(buf[i]) ==>
              ScanBounds(buf, i + 1, s.(step := Value, valueStart := i))
              && SplitFrom(buf, i, s) == SplitFrom(buf, i + 1, s.(step := Value, valueStart := i))
  {}

  lemma DoneStops(buf: string, i: nat, s: Scan)
    requires ScanBounds(buf, i, s) && s.step.Done? && (i < |buf| ==> buf[i] == ',')
    ensures SplitFrom(buf, i, s) == Some((i, s))
  {}

  /** A bare value: no comma, no white space, not starting like a structure. */
  predicate Bare(s: string) {
    && s != "" && s[0] !in {'[', '{', ']', '}', ':', ',', '"'}
    && forall k :: 0 <= k < |s| ==> s[k] !in {',', ' ', '\t', '\n', '\r'}
  }

  lemma SplitPlain(buf: string, key: string, value: string)
    requires IsKey(key) && Bare(value) && buf == PlainPair(key, value)
    ensures Split(buf) == Some((|buf|, Scan(Done, 1, |key|, |key| + 3, |value|)))
  {
    hide SplitFrom, Split, ScanBounds, IsKey, Bare;
    var q := |key| + 3;
    var a := "\"" + key + "\":";
    assert buf == a + value;
    AtSplit(buf, 0, a, value);
    BareStart(value);
    assert buf[q] == value[0];
    KeyRead(buf, key);
    PlainRead(buf, q, value, Scan(Separator, 1, |key|, 0, 0));
  }

  lemma BareStart(value: string)
    requires Bare(value)
    ensures value != "" && !IsWhiteSpace(value[0])
  {}

  /** The bare value that ends the text. */
  lemma PlainRead(buf: string, q: nat, value: string, s: Scan)
    requires ScanBounds(buf, q, s) && s.step.Separator? && Bare(value)
    requires q + |value| == |buf| && At(buf, q, value)
    ensures SplitFrom(buf, q, s) == Some((|buf|, s.(step := Done, valueStart := q, valueLen := |value|)))
  {
    hide SplitFrom, Skip;
    assert forall k :: q <= k < |buf| ==> buf[k] == value[k - q];
    SeparatorStep(buf, q, s);
    PlainRun(buf, q + 1, s.(step := Value, valueStart := q), |buf|);
  }

  // ---------------------------------------------------------------- one item

  /** A value and its path below the base: up to object, instance, resource and resource
      instance. */
  datatype PathAndLeaf = Entry(path: seq<nat>, leaf: Data)

  predicate IsLeaf(d: Data) { d.Integer? || d.Boolean? || d.Str? }

  type Entry = e: PathAndLeaf | 1 <= |e.path| <= 4 && IsLeaf(e.leaf) witness PathAndLeaf.Entry([0], Boolean(0, false))

  /** A string that survives: it can stand between quotes and holds no brace. */
  predicate Clean(s: string) {
    Quotable(s) && NoBraces(s)
  }

  predicate NoBraces(s: string) {
    forall k :: 0 <= k < |s| ==> s[k] != '{' && s[k] != '}'
  }

  predicate GoodEntries(es: seq<Entry>) {
    forall k :: 0 <= k < |es| ==> GoodEntry(es[k])
  }

  predicate GoodEntry(e: Entry) {
    && (forall k :: 0 <= k < |e.path| ==> e.path[k] < MAX_ID)
    && (e.leaf.Str? ==> Clean(e.leaf.text))
  }

  function PathStr(path: seq<nat>): string
    requires path != []
  {
    Decimal(path[0]) + if |path| == 1 then "" else "/" + PathStr(path[1..])
  }

  /** The value pair of an item. */
  function ValueStr(d: Data): string
    requires IsLeaf(d)
  {
    match d
    case Integer(_, v) => PlainPair("v", (if v < 0 then "-" else "") + Magnitude(v))
    case Boolean(_, flag) => PlainPair("bv", if flag then "true" else "false")
    case Str(_, text) => QuotedPair("sv", text)
  }

  function Inner(e: Entry): string
  {
    QuotedPair("n", PathStr(e.path)) + "," + ValueStr(e.leaf)
  }

  function IdsOfPath(path: seq<nat>): (ids: seq<nat>)
    requires 1 <= |path| <= 4
    ensures |ids| == 4
  {
    path + seq(4 - |path|, _ => MAX_ID)
  }

  /** The record an entry is scanned into. */
  function RecordOf(e: Entry): (rec: Record)
  {
    var ids := IdsOfPath(e.path);
    match e.leaf
    case Integer(_, v) => Record(ids, NumberValue, (if v < 0 then "-" else "") + Magnitude(v))
    case Boolean(_, flag) => Record(ids, if flag then TrueValue else FalseValue, "")
    case Str(_, text) => Record(ids, TextValue, text)
  }

  lemma DigitsPlain(s: string)
    requires s != "" && AllDigits(s)
    ensures Bare(s) && Bare("-" + s) && Quotable(s)
    ensures forall k :: 0 <= k < |s| ==> s[k] != '/' && s[k] != '{' && s[k] != '}'
  {}

  lemma {:induction false} PathQuotable(path: seq<nat>)
    requires path != []
    ensures Quotable(PathStr(path)) && PathStr(path) != ""
    ensures NoBraces(PathStr(path))
    ensures PathStr(path)[0] != '/'
    decreases |path|
  {
    hide Decimal;
    DigitsPlain(Decimal(path[0]));
    if |path| > 1 {
      PathQuotable(path[1..]);
      QuotableJoin(Decimal(path[0]), PathStr(path[1..]));
    } else {
      assert Decimal(path[0]) + "" == Decimal(path[0]);
    }
  }

  lemma QuotableJoin(a: string, b: string)
    requires a != "" && AllDigits(a) && Quotable(b) && b != "" && NoBraces(b)
    ensures Quotable(a + ("/" + b)) && NoBraces(a + ("/" + b)) && (a + ("/" + b))[0] == a[0]
  {
    var t := a + ("/" + b);
    forall k | 0 <= k < |t|
      ensures t[k] != ',' && t[k] != '{' && t[k] != '}' && Escaped(t, k)
    {
      if k > |a| {
        assert t[k] == b[k - |a| - 1] && Escaped(b, k - |a| - 1);
        if k > |a| + 1 { assert t[k - 1] == b[k - |a| - 2]; }
      }
    }
  }

  /** The segment of `id` that starts at `p`. */
  lemma SegmentRead(t: string, p: nat, id: nat)
    requires At(t, p, Decimal(id)) && id <= MAX_ID
    requires p + |Decimal(id)| < |t| ==> t[p + |Decimal(id)|] == '/'
    ensures var e := SegmentEnd(t, p, |t|);
            e == p + |Decimal(id)| && AllDigits(t[p..e]) && NatValue(t[p..e]) == id
  {
    var a := Decimal(id);
    DecimalValue(id);
    DigitsPlain(a);
    AtSlice(t, p, a);
    forall k | p <= k < p + |a|
      ensures t[k] != '/'
    {
      assert t[p + (k - p)] == a[k - p];
    }
    SegmentEndUnique(t, p, |t|, p + |a|);
  }

  /** One segment of a path text: its id is stored, and reading ends with the text or
      goes on behind the slash. */
  lemma PathIdsStep(t: string, p: nat, ids: seq<nat>, j: nat, id: nat, n: nat)
    requires |ids| == 4 && j < 4 && id <= MAX_ID && At(t, p, Decimal(id)) && n == p + |Decimal(id)|
    requires n < |t| ==> t[n] == '/' && j < 3
    ensures PathIds(t, p, ids, j) ==
            if n == |t| then Some(ids[j := id]) else PathIds(t, n + 1, ids[j := id], j + 1)
  {
    hide Decimal, NatValue, SegmentEnd;
    SegmentRead(t, p, id);
  }

  /** The segments of `path` from `p` on become the ids from `j` on. */
  lemma {:induction false} PathReadFrom(t: string, p: nat, path: seq<nat>, ids: seq<nat>, j: nat)
    requires path != [] && |ids| == 4 && j + |path| <= 4 && At(t, p, PathStr(path)) && p + |PathStr(path)| == |t|
    requires forall k :: 0 <= k < |path| ==> path[k] < MAX_ID
    ensures PathIds(t, p, ids, j) == Some(ids[..j] + path + ids[j + |path|..])
    decreases |path|
  {
    hide Decimal, PathIds, At;
    var a := Decimal(path[0]);
    var next := ids[j := path[0]];
    assert next[..j + 1] == ids[..j] + [path[0]] && next[j + |path|..] == ids[j + |path|..];
    if |path| == 1 {
      assert a + "" == a;
      PathIdsStep(t, p, ids, j, path[0], |t|);
      assert next == next[..j + 1] + next[j + 1..];
      assert path == [path[0]];
    } else {
      var rest := path[1..];
      AtSplit(t, p, a, "/" + PathStr(rest));
      AtSplit(t, p + |a|, "/", PathStr(rest));
      AtFirst(t, p + |a|, "/");
      PathIdsStep(t, p, ids, j, path[0], p + |a|);
      PathReadFrom(t, p + |a| + 1, rest, next, j + 1);
      assert ids[..j] + [path[0]] + rest == ids[..j] + path;
    }
  }

  lemma PathRead(path: seq<nat>)
    requires 1 <= |path| <= 4 && forall k :: 0 <= k < |path| ==> path[k] < MAX_ID
    ensures PathIds(PathStr(path), 0, NO_RECORD.ids, 0) == Some(IdsOfPath(path))
  {
    hide PathStr, PathIds, At, IdsOfPath;
    AtWhole(PathStr(path));
    PathReadFrom(PathStr(path), 0, path, NO_RECORD.ids, 0);
    IdsPadded(path);
  }

  lemma IdsPadded(path: seq<nat>)
    requires 1 <= |path| <= 4
    ensures NO_RECORD.ids[..0] + path + NO_RECORD.ids[|path|..] == IdsOfPath(path)
  {}

  lemma NameRead(path: seq<nat>)
    requires 1 <= |path| <= 4 && forall k :: 0 <= k < |path| ==> path[k] < MAX_ID
    ensures NameIds("\"" + PathStr(path) + "\"", NO_RECORD.ids) == Some(IdsOfPath(path))
  {
    hide PathStr, PathIds;
    var t := PathStr(path);
    PathQuotable(path);
    PathRead(path);
    var v := "\"" + t + "\"";
    assert v[1..|v| - 1] == t && v[1] == t[0];
  }

  /** The splitter on a lone pair: everything is consumed, key and value come out. */
  ghost predicate PairSplit(t: string, key: string, value: string) {
    var pair := Split(t);
    && pair.Some? && pair.value.0 == |t|
    && TokenOf(t, pair.value.1) == key && ValueOf(t, pair.value.1) == value
  }

  lemma PlainPairSplit(key: string, value: string)
    requires IsKey(key) && Bare(value)
    ensures PairSplit(PlainPair(key, value), key, value)
  {
    var t := PlainPair(key, value);
    SplitPlain(t, key, value);
    assert t[1..1 + |key|] == key;
    assert t[|key| + 3..|key| + 3 + |value|] == value;
  }

  lemma QuotedPairSplit(key: string, value: string)
    requires IsKey(key) && Quotable(value)
    ensures PairSplit(QuotedPair(key, value), key, "\"" + value + "\"")
  {
    var t := QuotedPair(key, value);
    SplitQuoted(t, key, value);
    assert t[1..1 + |key|] == key;
    assert t[|key| + 3..|key| + 3 + |value| + 2] == "\"" + value + "\"";
  }

  /** The record after the value pair of a resource. */
  function WithValue(d: Data, rec: Record): Record
    requires IsLeaf(d)
  {
    match d
    case Integer(_, v) => rec.(kind := NumberValue, value := (if v < 0 then "-" else "") + Magnitude(v))
    case Boolean(_, flag) => rec.(kind := if flag then TrueValue else FalseValue)
    case Str(_, text) => rec.(kind := TextValue, value := text)
  }

  /** The pair `v` turns the record `rec` into `out`. */
  ghost predicate PairYields(v: string, rec: Record, out: Record) {
    var pair := Split(v);
    && pair.Some? && pair.value.0 == |v|
    && ApplyPair(TokenOf(v, pair.value.1), ValueOf(v, pair.value.1), rec) == Some(out)
  }

  lemma ValueRead(d: Data, rec: Record)
    requires IsLeaf(d) && (d.Str? ==> Quotable(d.text)) && rec.kind.Unset?
    ensures PairYields(ValueStr(d), rec, WithValue(d, rec))
  {
    hide Split, Quotable;
    match d {
      case Integer(_, v) =>
        MagnitudeBare(v);
        PlainPairSplit("v", (if v < 0 then "-" else "") + Magnitude(v));
      case Boolean(_, flag) =>
        PlainPairSplit("bv", if flag then "true" else "false");
        assert "true"[..4] == "true" && "false"[..5] == "false" && "false"[..4] == "fals";
      case Str(_, text) =>
        QuotedPairSplit("sv", text);
        var quoted := "\"" + text + "\"";
        assert quoted[1..|quoted| - 1] == text;
    }
  }

  lemma MagnitudeBare(v: int)
    ensures Bare((if v < 0 then "-" else "") + Magnitude(v))
    ensures NoBraces(Magnitude(v))
  {
    if v == INT64_MIN {
      assert "-" + Magnitude(v) == "-(";
    } else {
      var s := Magnitude(v);
      DigitsPlain(s);
      assert "" + s == s;
    }
  }

  lemma ItemSecond(t: string, next: nat, rec: Record, out: Record)
    requires next < |t| && PairYields(t[next..], rec, out)
    ensures ItemFrom(t, next, rec) == Some(out)
  {
    hide Split, ApplyPair;
  }

  lemma ItemFirst(t: string, n: nat, s: Scan, ids: seq<nat>)
    requires |ids| == 4 && n + 1 < |t| && ScanBounds(t, n, s) && s.step.Done?
    requires Split(t) == Some((n, s)) && TokenOf(t, s) == "n" && NameIds(ValueOf(t, s), NO_RECORD.ids) == Some(ids)
    ensures ItemFrom(t, 0, NO_RECORD) == ItemFrom(t, n + 1, NO_RECORD.(ids := ids))
  {
    hide Split, NameIds;
    assert t[0..] == t;
  }

  lemma PairSlices(name: string, rest: string)
    ensures var first := QuotedPair("n", name);
            var t := first + rest;
            && |first| == |name| + 6 && At(t, 0, first)
            && t[1..2] == "n" && t[4..4 + |name| + 2] == "\"" + name + "\""
  {
    var t := QuotedPair("n", name) + rest;
    assert t[..4] == "\"n\":";
    assert t[4..4 + |name| + 2] == "\"" + name + "\"";
  }

  lemma ItemPairs(name: string, value: string, ids: seq<nat>, out: Record)
    requires Quotable(name) && |ids| == 4 && value != ""
    requires NameIds("\"" + name + "\"", NO_RECORD.ids) == Some(ids)
    requires PairYields(value, NO_RECORD.(ids := ids), out)
    ensures ItemFrom(QuotedPair("n", name) + "," + value, 0, NO_RECORD) == Some(out)
  {
    hide Quotable, QuotedPair, NameIds, PairYields;
    var first := QuotedPair("n", name);
    var t := first + "," + value;
    var s := Scan(Done, 1, 1, 4, |name| + 2);
    PairSlices(name, "," + value);
    assert t == first + ("," + value);
    SplitQuoted(t, "n", name);
    assert t[|first| + 1..] == value;
    ItemFirst(t, |first|, s, ids);
    ItemSecond(t, |first| + 1, NO_RECORD.(ids := ids), out);
  }

  /** The item parser on the text of an entry. */
  lemma ItemRead(e: Entry)
    requires GoodEntry(e)
    ensures ItemFrom(Inner(e), 0, NO_RECORD) == Some(RecordOf(e))
  {
    PathQuotable(e.path);
    NameRead(e.path);
    var ids := IdsOfPath(e.path);
    ValueRead(e.leaf, NO_RECORD.(ids := ids));
    assert ValueStr(e.leaf) != "";
    ItemPairs(PathStr(e.path), ValueStr(e.leaf), ids, RecordOf(e));
  }

  // ---------------------------------------------------------------- the array

  lemma PairNoBraces(key: string, value: string)
    requires NoBraces(key) && NoBraces(value)
    ensures NoBraces(QuotedPair(key, value)) && NoBraces(PlainPair(key, value))
  {}

  lemma CommaNoBraces(a: string, b: string)
    requires NoBraces(a) && NoBraces(b)
    ensures NoBraces(a + "," + b)
  {}

  lemma ValueNoBraces(d: Data)
    requires IsLeaf(d) && (d.Str? ==> Clean(d.text))
    ensures NoBraces(ValueStr(d))
  {
    hide QuotedPair, PlainPair;
    match d {
      case Integer(_, v) =>
        MagnitudeBare(v);
        PairNoBraces("v", (if v < 0 then "-" else "") + Magnitude(v));
      case Boolean(_, flag) => PairNoBraces("bv", if flag then "true" else "false");
      case Str(_, text) => PairNoBraces("sv", text);
    }
  }

  lemma InnerNoBraces(e: Entry)
    requires GoodEntry(e)
    ensures NoBraces(Inner(e))
  {
    hide QuotedPair, ValueStr, PathStr;
    PathQuotable(e.path);
    PairNoBraces("n", PathStr(e.path));
    ValueNoBraces(e.leaf);
    CommaNoBraces(QuotedPair("n", PathStr(e.path)), ValueStr(e.leaf));
  }

  function ItemText(e: Entry): string
  {
    "{" + Inner(e) + "}"
  }

  /** The items of the array, separated by commas. */
  function ItemsText(es: seq<Entry>): string
    requires es != []
  {
    ItemText(es[0]) + if |es| == 1 then "" else "," + ItemsText(es[1..])
  }

  function Records(es: seq<Entry>): (r: seq<Record>)
    ensures |r| == |es|
  {
    if es == [] then [] else [RecordOf(es[0])] + Records(es[1..])
  }

  /** Counter and loop both run from inside an item to its closing brace. */
  lemma {:induction false} BraceRun(buf: string, i: nat, j: nat)
    requires i <= j < |buf| && buf[j] == '}' && j + 1 < |buf|
    requires forall k :: i <= k < j ==> buf[k] != '{' && buf[k] != '}'
    ensures CountFrom(buf, i, true) == CountFrom(buf, j, true)
    ensures Find(buf, i, {'}'}) == j
    decreases j - i
  {
    if i < j {
      var n := Next(buf, i);
      SkipStops(buf, i + 1, j);
      BraceRun(buf, n, j);
      FindUnique(buf, i, {'}'}, j);
    }
  }

  /** One item: where it ends for the counter and for the loop. */
  lemma OneItem(buf: string, i: nat, e: Entry)
    requires GoodEntry(e) && At(buf, i, ItemText(e)) && i + |ItemText(e)| < |buf|
    ensures var j := i + |ItemText(e)| - 1;
            && i < j < |buf| && buf[i] == '{' && buf[j] == '}' && Sub(buf, i + 1, j) == Inner(e)
            && CountFrom(buf, i, false) == CountFrom(buf, j, true)
            && Find(buf, i, {'}'}) == j
  {
    hide *;
    var j := i + |ItemText(e)| - 1;
    OneItemText(buf, i, e);
    SkipUnique(buf, i + 1, i + 1);
    NextIsSkip(buf, i);
    BraceRun(buf, i + 1, j);
    FindUnique(buf, i, {'}'}, j);
    OpenBrace(buf, i);
  }

  lemma OneItemText(buf: string, i: nat, e: Entry)
    requires GoodEntry(e) && At(buf, i, ItemText(e)) && i + |ItemText(e)| < |buf|
    ensures var j := i + |ItemText(e)| - 1;
            && i + 1 < j < |buf| && buf[i] == '{' && buf[j] == '}' && Sub(buf, i + 1, j) == Inner(e)
            && !IsWhiteSpace(buf[i + 1])
            && forall k :: i < k < j ==> buf[k] != '{' && buf[k] != '}'
  {
    hide Inner, GoodEntry;
    var inner := Inner(e);
    var j := i + 1 + |inner|;
    InnerNoBraces(e);
    InnerStarts(e);
    assert ItemText(e) == "{" + (inner + "}");
    AtSplit(buf, i, "{", inner + "}");
    AtSplit(buf, i + 1, inner, "}");
    AtSlice(buf, i + 1, inner);
    AtFirst(buf, i, "{");
    AtFirst(buf, i + 1, inner);
    AtFirst(buf, j, "}");
    forall k | i < k < j
      ensures buf[k] != '{' && buf[k] != '}'
    {
      assert buf[i + 1 + (k - i - 1)] == inner[k - i - 1];
    }
  }

  lemma InnerStarts(e: Entry)
    ensures |Inner(e)| > 0 && Inner(e)[0] == '"'
  {}

  lemma OpenBrace(buf: string, i: nat)
    requires i < |buf| && buf[i] == '{' && Next(buf, i) < |buf|
    ensures CountFrom(buf, i, false) == CountFrom(buf, Next(buf, i), true)
  {}

  /** Behind the closing brace at `j` comes the bracket, or a comma and an item. */
  lemma CloseBrace(buf: string, j: nat)
    requires j + 1 < |buf| && buf[j] == '}'
    ensures buf[j + 1] == ']' ==> Next(buf, j) == j + 1 && CountFrom(buf, j, true) == Some(1)
    ensures buf[j + 1] == ',' && j + 2 < |buf| && buf[j + 2] == '{' ==>
              && Next(buf, j) == j + 1 && Next(buf, j + 1) == j + 2
              && CountFrom(buf, j, true) == Plus(CountFrom(buf, j + 2, false), 1)
  {
    if buf[j + 1] == ']' || buf[j + 1] == ',' { SkipUnique(buf, j + 1, j + 1); }
    if j + 2 < |buf| && buf[j + 2] == '{' { SkipUnique(buf, j + 2, j + 2); }
  }

  /** Where the parts of the array text are. */
  lemma ItemsTextSplit(buf: string, i: nat, es: seq<Entry>)
    requires |es| > 1 && At(buf, i, ItemsText(es))
    ensures var j := i + |ItemText(es[0])| - 1;
            && At(buf, i, ItemText(es[0])) && At(buf, j + 2, ItemsText(es[1..]))
            && i < j && j + 2 < |buf| && buf[j + 1] == ',' && buf[j + 2] == '{'
            && j + 2 + |ItemsText(es[1..])| == i + |ItemsText(es)|
  {
    hide Inner;
    var t, rest := ItemText(es[0]), ItemsText(es[1..]);
    var j := i + |t| - 1;
    AtSplit(buf, i, t, "," + rest);
    AtSplit(buf, j + 1, ",", rest);
    assert buf[j + 1..j + 1 + 1] == ",";
    assert buf[j + 2..j + 2 + |rest|][0] == rest[0] == '{';
  }

  lemma LastRead(buf: string, i: nat, e: Entry)
    requires GoodEntry(e)
    requires At(buf, i, ItemText(e)) && i + |ItemText(e)| < |buf| && buf[i + |ItemText(e)|] == ']'
    ensures CountFrom(buf, i, false) == Some(1)
    ensures Items(buf, i, 1) == Some(([RecordOf(e)], i + |ItemText(e)|))
  {
    hide *;
    ItemRead(e);
    var j := i + |ItemText(e)| - 1;
    OneItem(buf, i, e);
    CloseBrace(buf, j);
    ItemsStep(buf, i, 1);
  }

  lemma NextRead(buf: string, i: nat, e: Entry, c: nat, rest: seq<Record>, end: nat)
    requires GoodEntry(e) && At(buf, i, ItemText(e)) && c > 0
    requires var j := i + |ItemText(e)| - 1;
             && j + 2 < |buf| && buf[j + 1] == ',' && buf[j + 2] == '{'
             && CountFrom(buf, j + 2, false) == Some(c)
             && Items(buf, j + 2, c) == Some((rest, end))
    ensures CountFrom(buf, i, false) == Some(c + 1)
    ensures Items(buf, i, c + 1) == Some(([RecordOf(e)] + rest, end))
  {
    hide *;
    ItemRead(e);
    var j := i + |ItemText(e)| - 1;
    OneItem(buf, i, e);
    CloseBrace(buf, j);
    PlusOne(CountFrom(buf, j + 2, false), c);
    ItemsStep(buf, i, c + 1);
    AfterItemAt(buf, i, j);
    PrependOne(RecordOf(e), rest, end);
  }

  /** The counter counts the entries and the item loop returns their records. */
  lemma {:induction false} ArrayRead(buf: string, i: nat, es: seq<Entry>)
    requires es != [] && GoodEntries(es)
    requires At(buf, i, ItemsText(es)) && i + |ItemsText(es)| < |buf| && buf[i + |ItemsText(es)|] == ']'
    ensures CountFrom(buf, i, false) == Some(|es|)
    ensures Items(buf, i, |es|) == Some((Records(es), i + |ItemsText(es)|))
    decreases |es|
  {
    hide *;
    EntriesFirst(es);
    if |es| == 1 {
      LastRead(buf, i, es[0]);
    } else {
      ItemsTextSplit(buf, i, es);
      var j := i + |ItemText(es[0])| - 1;
      ArrayRead(buf, j + 2, es[1..]);
      NextRead(buf, i, es[0], |es| - 1, Records(es[1..]), i + |ItemsText(es)|);
    }
  }

  lemma EntriesFirst(es: seq<Entry>)
    requires es != [] && GoodEntries(es)
    ensures GoodEntry(es[0]) && GoodEntries(es[1..])
    ensures Records(es) == [RecordOf(es[0])] + Records(es[1..])
    ensures |es| == 1 ==> Records(es) == [RecordOf(es[0])] && ItemsText(es) == ItemText(es[0])
  {
    hide RecordOf, Inner, GoodEntry;
  }

  lemma PrependOne(rec: Record, rest: seq<Record>, end: nat)
    ensures Prepend([rec], Some((rest, end))) == Some(([rec] + rest, end))
  {}

  lemma PlusOne(o: Option<nat>, k: nat)
    ensures o == Some(k) ==> Plus(o, 1) == Some(k + 1)
  {}

  lemma AfterItemAt(buf: string, i: nat, j: nat)
    requires i < |buf| && Find(buf, i, {'}'}) == j && j + 1 < |buf| && Next(buf, j) == j + 1
    ensures AfterItem(buf, i) == Next(buf, j + 1)
  {}

  // ---------------------------------------------------------------- the whole text

  /** The text of entries below a base path. */
  function FullText(base: string, es: seq<Entry>): string
    requires es != []
  {
    S.BN_HEADER_1 + base + S.BN_HEADER_2 + ItemsText(es) + S.FOOTER
  }

  predicate PathChars(s: string) {
    forall k :: 0 <= k < |s| ==> IsDigit(s[k]) || s[k] == '/'
  }

  /** Where the parts of the array member are. */
  lemma ArrayMemberLayout(buf: string, p: nat, items: string)
    requires At(buf, p, "e\":[" + (items + S.FOOTER)) && p + 4 + |items| + 2 == |buf|
    requires |items| >= 15 && items[0] == '{'
    ensures buf[p + 1] == '"' && buf[p + 2] == ':' && buf[p + 3] == '[' && buf[p + 4] == '{'
    ensures At(buf, p + 4, items) && buf[|buf| - 2] == ']'
    ensures |buf| - p >= MIN_ARRAY_LEN
  {
    var key := "e\":[";
    AtSplit(buf, p, key, items + S.FOOTER);
    AtSplit(buf, p + 4, items, S.FOOTER);
    assert buf[p + 1] == key[1] && buf[p + 2] == key[2] && buf[p + 3] == key[3];
    AtFirst(buf, p + 4, items);
    AtFirst(buf, |buf| - 2, S.FOOTER);
  }

  /** White space is skipped nowhere in the punctuation. */
  lemma NextAt(buf: string, i: nat)
    requires i + 1 < |buf| && !IsWhiteSpace(buf[i + 1])
    ensures Next(buf, i) == i + 1
  {
    SkipUnique(buf, i + 1, i + 1);
  }

  /** The array member of the text. */
  lemma ArrayMemberRead(buf: string, p: nat, es: seq<Entry>, t: Top)
    requires TopBounds(buf, t) && t.records.None? && es != [] && GoodEntries(es)
    requires At(buf, p, "e\":[" + (ItemsText(es) + S.FOOTER)) && p + 4 + |ItemsText(es)| + 2 == |buf|
    ensures ArrayMember(buf, p, t) == Some((t.(records := Some(Records(es))), |buf| - 2))
  {
    hide ItemsText, Items, CountFrom, GoodEntries, At, Skip, Records, Next;
    ItemsTextLong(es);
    ArrayMemberLayout(buf, p, ItemsText(es));
    NextAt(buf, p + 1);
    NextAt(buf, p + 2);
    NextAt(buf, p + 3);
    ArrayRead(buf, p + 4, es);
  }

  /** Even the shortest item is longer than the parser's minimum demands. */
  lemma ItemsTextLong(es: seq<Entry>)
    requires es != []
    ensures |ItemsText(es)| >= 15 && ItemsText(es)[0] == '{'
  {
    hide Decimal, Magnitude;
    var e := es[0];
    assert |PathStr(e.path)| >= 1;
    assert |ValueStr(e.leaf)| >= 5;
  }

  lemma BasePairText(base: string)
    ensures var pair := QuotedPair("bn", base);
            && S.BN_HEADER_1 + (base + "\",") == "{" + (pair + ",")
            && |pair| == 7 + |base| && pair[0] == '"' && pair[1] == 'b' && pair[2] == 'n' && pair[3] == '"'
  {}

  /** Where the parts of the base member are. */
  lemma BaseMemberLayout(buf: string, base: string)
    requires PathChars(base) && At(buf, 0, S.BN_HEADER_1 + (base + "\","))
    ensures var q := 8 + |base|;
            && q < |buf| && buf[0] == '{' && buf[1] == '"' && buf[2] == 'b' && buf[3] == 'n' && buf[4] == '"'
            && buf[q] == ',' && Find(buf, 1, {',', '}'}) == q && Sub(buf, 1, q) == QuotedPair("bn", base)
  {
    hide PathChars, At, Find, Sub, QuotedPair;
    var q := 8 + |base|;
    var pair := QuotedPair("bn", base);
    BasePairText(base);
    AtSplit(buf, 0, "{", pair + ",");
    AtSplit(buf, 1, pair, ",");
    AtFirst(buf, 0, "{");
    AtFirst(buf, q, ",");
    BasePairClear(base);
    BasePairAt(buf, pair, q);
  }

  lemma BasePairAt(buf: string, pair: string, q: nat)
    requires At(buf, 1, pair) && 1 + |pair| == q < |buf| && buf[q] == ',' && |pair| > 3
    requires forall k :: 0 <= k < |pair| ==> pair[k] !in {',', '}'}
    ensures Find(buf, 1, {',', '}'}) == q && Sub(buf, 1, q) == pair
    ensures buf[1] == pair[0] && buf[2] == pair[1] && buf[3] == pair[2] && buf[4] == pair[3]
  {
    forall k | 1 <= k < q
      ensures buf[k] == pair[k - 1]
    {
      assert buf[1 + (k - 1)] == pair[k - 1];
    }
    AtSlice(buf, 1, pair);
    FindUnique(buf, 1, {',', '}'}, q);
  }

  lemma BasePairClear(base: string)
    requires PathChars(base)
    ensures forall k :: 0 <= k < |QuotedPair("bn", base)| ==> QuotedPair("bn", base)[k] !in {',', '}'}
  {
    var pair := QuotedPair("bn", base);
    assert pair == "\"bn\":\"" + (base + "\"");
  }

  lemma PathCharsQuotable(s: string)
    requires PathChars(s)
    ensures Quotable(s)
  {}

  lemma BaseMemberRead(buf: string, base: string, t: Top)
    requires TopBounds(buf, t) && t.bn.None? && PathChars(base)
    requires At(buf, 0, S.BN_HEADER_1 + (base + "\","))
    ensures BaseMember(buf, 2, t) == Some((t.(bn := Some((6, |base| + 2))), 7 + |base|))
  {
    hide PathChars, Quotable, Split, Find, At, Sub;
    BaseMemberLayout(buf, base);
    PathCharsQuotable(base);
    AtWhole(QuotedPair("bn", base));
    SplitQuoted(Sub(buf, 1, 8 + |base|), "bn", base);
  }

  /** The two members of the text. */
  lemma FullTextLayout(base: string, es: seq<Entry>)
    requires PathChars(base) && es != []
    ensures var buf := FullText(base, es);
            var c := 8 + |base|;
            && |buf| == c + 8 + |ItemsText(es)|
            && At(buf, 0, S.BN_HEADER_1 + (base + "\","))
            && buf[0] == '{' && buf[1] == '"' && buf[2] == 'b' && buf[c] == ','
            && buf[c + 1] == '"' && buf[c + 2] == 'e'
            && At(buf, c + 2, "e\":[" + (ItemsText(es) + S.FOOTER))
            && buf[|buf| - 1] == '}'
  {
    hide ItemsText;
    var items := ItemsText(es);
    var buf := FullText(base, es);
    var head := S.BN_HEADER_1 + (base + "\",");
    var tail := "e\":[" + (items + S.FOOTER);
    assert buf == head + ("\"" + tail);
    AtWhole(buf);
    AtSplit(buf, 0, head, "\"" + tail);
    AtSplit(buf, |head|, "\"", tail);
    AtFirst(buf, |head|, "\"");
    AtFirst(buf, |head| + 1, tail);
    BaseMemberLayout(buf, base);
  }

  lemma MemberKinds(buf: string, i: nat, t: Top)
    requires i + 1 < |buf| && TopBounds(buf, t) && buf[i] == '"'
    ensures buf[i + 1] == 'b' ==> Member(buf, i, t) == BaseMember(buf, i + 1, t)
    ensures buf[i + 1] == 'e' ==> Member(buf, i, t) == ArrayMember(buf, i + 1, t)
  {
    hide BaseMember, ArrayMember;
  }

  lemma ScanRead(base: string, es: seq<Entry>)
    requires PathChars(base) && es != [] && GoodEntries(es)
    ensures Scanned(FullText(base, es)) == Some(Top(Some(Records(es)), Some((6, |base| + 2)), false))
  {
    hide PathChars, GoodEntries, FullText, ItemsText, At, Records, Members, Member, BaseMember, ArrayMember, Skip, Next;
    var buf := FullText(base, es);
    var c := 8 + |base|;
    FullTextLayout(base, es);
    var t := Top(None, Some((6, |base| + 2)), false);
    BaseMemberRead(buf, base, NO_TOP);
    MemberKinds(buf, 1, NO_TOP);
    ArrayMemberRead(buf, c + 2, es, t);
    MemberKinds(buf, c + 1, t);
    NextAt(buf, 0);
    NextAt(buf, c - 1);
    NextAt(buf, c);
    NextAt(buf, |buf| - 2);
    SkipUnique(buf, 0, 0);
    MembersStep(buf, 0, NO_TOP, (t, c - 1), c);
    MembersStep(buf, c, t, (t.(records := Some(Records(es))), |buf| - 2), |buf| - 1);
  }
}
