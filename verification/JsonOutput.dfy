/** What `json_parse` can return at all: invariants of the scanner's records and of the
    tree built from them, for every input text. */
module JsonOutput {
  import opened Text
  import opened Uris
  import opened JsonScan
  import opened JsonTree
  import opened JsonParse
  import opened JsonReadBack

  // ---------------------------------------------------------------- values of a pair

  /** The quoted text that starts at `v`, read up to `i`, could still be closed. */
  ghost predicate OpenQuote(buf: string, v: nat, i: nat) {
    && v < i <= |buf| && buf[v] == '"'
    && forall k :: v < k < i ==> buf[k] != ',' && (buf[k] == '"' ==> k > v + 1 && buf[k - 1] == '\\')
  }

  /** A value that starts with a quote is a quoted text. */
  ghost predicate ClosedQuote(value: string) {
    value != "" && value[0] == '"' ==>
      |value| >= 2 && value[|value| - 1] == '"' && Quotable(value[1..|value| - 1])
  }

  ghost predicate ScanClean(buf: string, i: nat, s: Scan)
    requires ScanBounds(buf, i, s)
  {
    match s.step
    case QuotedValue => OpenQuote(buf, s.valueStart, i)
    case Value => buf[s.valueStart] != '"'
    case Done => ClosedQuote(buf[s.valueStart..s.valueStart + s.valueLen])
    case _ => true
  }

  lemma QuoteCloses(buf: string, v: nat, i: nat)
    requires OpenQuote(buf, v, i) && i < |buf| && buf[i] == '"' && buf[i - 1] != '\\'
    ensures ClosedQuote(buf[v..i + 1])
  {
    var value := buf[v..i + 1];
    var inner := value[1..|value| - 1];
    forall k | 0 <= k < |inner|
      ensures inner[k] != ',' && Escaped(inner, k)
    {
      assert inner[k] == buf[v + 1 + k];
      if k > 0 { assert inner[k - 1] == buf[v + k]; }
    }
    if inner != "" { assert inner[|inner| - 1] == buf[i - 1]; }
  }

  lemma StepClean(buf: string, i: nat, s: Scan)
    requires i < |buf| && ScanBounds(buf, i, s) && ScanClean(buf, i, s) && buf[i] != ','
    ensures SplitStep(buf, i, s).Some? ==> ScanClean(buf, i + 1, SplitStep(buf, i, s).value)
  {
    if s.step.QuotedValue? && buf[i] == '"' && buf[i - 1] != '\\' {
      QuoteCloses(buf, s.valueStart, i);
    }
  }

  /** Every value the splitter finds is clean. */
  lemma {:induction false} SplitFromClean(buf: string, i: nat, s: Scan)
    requires ScanBounds(buf, i, s) && ScanClean(buf, i, s)
    ensures var r := SplitFrom(buf, i, s);
            r.Some? ==> ScanClean(buf, r.value.0, r.value.1)
    decreases |buf| - i
  {
    hide ClosedQuote, Skip, OpenQuote;
    if i == |buf| || buf[i] == ',' {
      if s.step.Value? { ValueCloses(buf, i, s); }
    } else {
      StepClean(buf, i, s);
      var t := SplitStep(buf, i, s);
      if t.Some? {
        SplitFromClean(buf, if SkipsSpace(t.value.step) then Skip(buf, i + 1) else i + 1, t.value);
      }
    }
  }

  lemma ValueCloses(buf: string, i: nat, s: Scan)
    requires ScanBounds(buf, i, s) && s.step.Value? && ScanClean(buf, i, s)
    ensures ClosedQuote(buf[s.valueStart..i])
  {}

  lemma SplitClean(buf: string)
    ensures Split(buf).Some? ==> ClosedQuote(ValueOf(buf, Split(buf).value.1))
  {
    var i := Skip(buf, 0);
    if i < |buf| {
      SplitFromClean(buf, i, NO_SCAN);
    }
  }

  // ---------------------------------------------------------------- records

  /** A record whose text is clean and whose ids are 16-bit numbers. */
  ghost predicate CleanRecord(rec: Record) {
    && (rec.kind.TextValue? ==> Clean(rec.value))
    && forall k :: 0 <= k < 4 ==> rec.ids[k] <= MAX_ID
  }

  lemma {:induction false} PathIdsSmall(path: string, p: nat, ids: seq<nat>, j: nat)
    requires p <= |path| && |ids| == 4 && j < 4 && forall k :: 0 <= k < 4 ==> ids[k] <= MAX_ID
    ensures var r := PathIds(path, p, ids, j);
            r.Some? ==> forall k :: 0 <= k < 4 ==> r.value[k] <= MAX_ID
    decreases 4 - j
  {
    hide NatValue, SegmentEnd;
    var e := SegmentEnd(path, p, |path|);
    var segment := path[p..e];
    if AllDigits(segment) && NatValue(segment) <= MAX_ID && e < |path| && j + 1 < 4 {
      PathIdsSmall(path, e + 1, ids[j := NatValue(segment)], j + 1);
    }
  }

  lemma NameIdsSmall(value: string, ids: seq<nat>)
    requires value != "" && |ids| == 4 && forall k :: 0 <= k < 4 ==> ids[k] <= MAX_ID
    ensures var r := NameIds(value, ids);
            r.Some? ==> forall k :: 0 <= k < 4 ==> r.value[k] <= MAX_ID
  {
    hide SegmentEnd, NatValue;
    if |value| >= 2 { PathIdsSmall(value[1..|value| - 1], 0, ids, 0); }
    if |value| >= 4 { PathIdsSmall(value[2..|value| - 1], 0, ids, 0); }
  }

  lemma ApplyClean(token: string, value: string, rec: Record)
    requires value != "" && CleanRecord(rec) && ClosedQuote(value) && NoBraces(value)
    ensures var r := ApplyPair(token, value, rec);
            r.Some? ==> CleanRecord(r.value)
  {
    NameIdsSmall(value, rec.ids);
  }

  lemma {:induction false} ItemClean(buf: string, index: nat, rec: Record)
    requires index <= |buf| && NoBraces(buf) && CleanRecord(rec)
    ensures var r := ItemFrom(buf, index, rec);
            r.Some? ==> CleanRecord(r.value)
    decreases |buf| - index
  {
    hide Split, ApplyPair, CleanRecord, ClosedQuote;
    var rest := buf[index..];
    SplitClean(rest);
    var pair := Split(rest);
    if pair.Some? {
      var token, value := TokenOf(rest, pair.value.1), ValueOf(rest, pair.value.1);
      assert NoBraces(value);
      ApplyClean(token, value, rec);
      var applied := ApplyPair(token, value, rec);
      if applied.Some? && index + pair.value.0 + 1 < |buf| {
        ItemClean(buf, index + pair.value.0 + 1, applied.value);
      }
    }
  }

  ghost predicate AllClean(records: seq<Record>) {
    forall k :: 0 <= k < |records| ==> CleanRecord(records[k])
  }

  /** Between the braces of a counted item there is no other brace. */
  lemma {:induction false} CountedNoBraces(buf: string, i: nat)
    requires i < |buf| && CountFrom(buf, i, true).Some?
    ensures var close := Find(buf, i, {'}'});
            close < |buf| && forall k :: i <= k < close ==> buf[k] != '{' && buf[k] != '}'
    decreases |buf| - i
  {
    if buf[i] == '}' {
      FindUnique(buf, i, {'}'}, i);
    } else {
      var n := Next(buf, i);
      CountedNoBraces(buf, n);
      SkipClear(buf, i + 1);
      FindStep(buf, i, n, {'}'});
    }
  }

  lemma GroupNoBraces(buf: string, i: nat)
    requires i < |buf| && CountFrom(buf, i, false).Some?
    ensures var close := Find(buf, i, {'}'});
            i < close < |buf| && NoBraces(Sub(buf, i + 1, close))
  {
    var n := Next(buf, i);
    CountedNoBraces(buf, n);
    SkipClear(buf, i + 1);
    FindStep(buf, i, n, {'}'});
  }

  lemma {:induction false} ItemsClean(buf: string, i: nat, c: nat)
    requires i < |buf| && CountFrom(buf, i, false) == Some(c)
    ensures Items(buf, i, c).Some? ==> AllClean(Items(buf, i, c).value.0)
    decreases c
  {
    hide ItemFrom, CountFrom, Find, Skip, Items, CleanRecord, NoBraces;
    ItemsStep(buf, i, c);
    GroupNoBraces(buf, i);
    ScannersAgree(buf, i, c);
    var inner := Sub(buf, i + 1, Find(buf, i, {'}'}));
    EmptyRecordClean();
    ItemClean(inner, 0, NO_RECORD);
    if c > 1 { ItemsClean(buf, AfterItem(buf, i), c - 1); }
  }

  lemma EmptyRecordClean()
    ensures CleanRecord(NO_RECORD)
  {}

  ghost predicate TopClean(t: Top) {
    t.records.Some? ==> AllClean(t.records.value)
  }

  lemma MemberClean(buf: string, i: nat, t: Top)
    requires i < |buf| && TopBounds(buf, t) && TopClean(t)
    ensures Member(buf, i, t).Some? ==> TopClean(Member(buf, i, t).value.0)
  {
    hide Items, CountFrom, Skip, Find, Split, AllClean;
    if i + 1 < |buf| && buf[i] == '"' && buf[i + 1] == 'e' && |buf| - (i + 1) >= MIN_ARRAY_LEN {
      var colon := Next(buf, i + 2);
      if colon < |buf| && Next(buf, colon) < |buf| {
        var first := Next(buf, Next(buf, colon));
        if first < |buf| && CountFrom(buf, first, false).Some? {
          ItemsClean(buf, first, CountFrom(buf, first, false).value);
        }
      }
    }
  }

  lemma {:induction false} MembersClean(buf: string, i: nat, t: Top)
    requires i < |buf| && TopBounds(buf, t) && TopClean(t)
    ensures Members(buf, i, t).Some? ==> TopClean(Members(buf, i, t).value.0)
    decreases |buf| - i
  {
    hide Member, Skip, TopBounds, TopClean;
    if Next(buf, i) < |buf| {
      MemberClean(buf, Next(buf, i), t);
      var m := Member(buf, Next(buf, i), t);
      if m.Some? {
        var sep := Next(buf, m.value.1);
        if sep < |buf| && buf[sep] == ',' { MembersClean(buf, sep, m.value.0); }
      }
    }
  }

  /** Every record of every text is clean. */
  lemma ScannedClean(buf: string)
    ensures Scanned(buf).Some? ==> TopClean(Scanned(buf).value)
  {
    hide Members;
    var i := Skip(buf, 0);
    if i < |buf| && buf[i] == '{' { MembersClean(buf, i, NO_TOP); }
  }

  // ---------------------------------------------------------------- the data returned

  predicate LeafReturns(d: Data) {
    && !d.Undefined? && !d.IsContainer() && d.id < MAX_ID
    && (d.Str? ==> Clean(d.text))
    && (d.Integer? ==> d.value != INT64_MIN)
  }

  predicate LeavesReturn(list: seq<Data>) {
    forall k :: 0 <= k < |list| ==> LeafReturns(list[k])
  }

  predicate ResourceReturns(d: Data) {
    if d.Multiple? then d.id < MAX_ID && d.children != [] && LeavesReturn(d.children)
    else LeafReturns(d)
  }

  predicate Distinct(list: seq<Data>) {
    forall j, k :: 0 <= j < k < |list| ==> list[j].id != list[k].id
  }

  /** Data `level` containers above the resources that a parse can return: a resource, an
      instance (level 1) or an object (level 2), no container empty. */
  predicate NodeReturns(d: Data, level: nat)
    decreases level, 0
  {
    if level == 0 then ResourceReturns(d)
    else (if level == 1 then d.Instance? else d.Object?) && d.children != [] && Faithful(d.children, level - 1)
  }

  /** Lists of such data: ids below 65535 that do not repeat, texts the splitter takes
      whole, no most negative integer, no empty container.  A lone object may have the id
      65535, because that id is read from the base path. */
  predicate Faithful(list: seq<Data>, level: nat)
    decreases level, 1
  {
    && Distinct(list)
    && (forall k :: 0 <= k < |list| ==> NodeReturns(list[k], level))
    && (SmallIds(list) || (level == 2 && |list| == 1))
  }

  predicate SmallIds(list: seq<Data>) {
    forall k :: 0 <= k < |list| ==> list[k].id < MAX_ID
  }

  lemma NodeParts(d: Data, level: nat)
    requires NodeReturns(d, level) && level > 0
    ensures d.IsContainer() && !d.Multiple? && d.children != [] && Faithful(d.children, level - 1)
    ensures level == 1 ==> d.Instance?
    ensures level != 1 ==> d.Object?
  {
    hide Faithful;
  }

  lemma NodeAt(list: seq<Data>, level: nat, k: nat)
    requires Faithful(list, level) && k < |list|
    ensures NodeReturns(list[k], level)
  {
    hide NodeReturns, Distinct;
  }

  lemma NothingFaithful(level: nat)
    ensures Faithful([], level) && SmallIds([])
  {}

  // ---------------------------------------------------------------- stripping

  lemma {:induction false} StripPlain(list: seq<Data>)
    requires forall k :: 0 <= k < |list| ==> !list[k].Undefined? && !list[k].IsContainer()
    ensures StripAll(list) == Ok(list)
  {
    if list != [] {
      StripPlain(list[1..]);
      assert [list[0]] + list[1..] == list;
    }
  }

  lemma {:induction false} StripPadding(n: nat)
    ensures StripAll(Padding(n)) == Ok([])
  {
    if n > 0 {
      StripPadding(n - 1);
      assert Padding(n)[1..] == Padding(n - 1);
    }
  }

  lemma ResourceStrips(d: Data)
    requires ResourceReturns(d)
    ensures !d.Undefined? && (d.IsContainer() ==> d.Multiple? && Strip(d.children) == Ok(d.children))
  {
    hide LeafReturns;
    if d.Multiple? {
      forall k | 0 <= k < |d.children|
        ensures !d.children[k].Undefined? && !d.children[k].IsContainer()
      {
        LeafKind(d.children[k]);
      }
      StripPlain(d.children);
    } else {
      LeafKind(d);
    }
  }

  lemma LeafKind(d: Data)
    requires LeafReturns(d)
    ensures !d.Undefined? && !d.IsContainer()
  {}

  lemma FirstKept(d: Data, rest: seq<Data>, kept: seq<Data>)
    requires !d.Undefined? && (d.IsContainer() ==> Strip(d.children) == Ok(d.children))
    requires StripAll(rest) == Ok(kept)
    ensures StripAll([d] + rest) == Ok([d] + kept)
  {
    assert ([d] + rest)[1..] == rest;
  }

  /** Stripping takes the padding away and leaves faithful data. */
  lemma {:induction false} StripPadded(list: seq<Data>, level: nat, n: nat)
    requires forall k :: 0 <= k < |list| ==> NodeReturns(list[k], level)
    ensures StripAll(list + Padding(n)) == Ok(list)
    decreases level, 1, |list|
  {
    hide NodeReturns, Faithful, Strip;
    if list == [] {
      assert list + Padding(n) == Padding(n);
      StripPadding(n);
    } else {
      StripPadded(list[1..], level, n);
      NodeStrips(list[0], level);
      FirstKept(list[0], list[1..] + Padding(n), list[1..]);
      assert [list[0]] + list[1..] == list;
      assert [list[0]] + (list[1..] + Padding(n)) == list + Padding(n);
    }
  }

  lemma NodeStrips(d: Data, level: nat)
    requires NodeReturns(d, level)
    ensures !d.Undefined? && (d.IsContainer() ==> Strip(d.children) == Ok(d.children))
    decreases level, 0, 0
  {
    hide Strip, Faithful;
    if level == 0 {
      ResourceStrips(d);
    } else {
      NodeParts(d, level);
      FaithfulKept(d.children, level - 1, 0);
      assert d.children + Padding(0) == d.children;
    }
  }

  lemma FaithfulKept(list: seq<Data>, level: nat, n: nat)
    requires Faithful(list, level) && list != []
    ensures Strip(list + Padding(n)) == Ok(list)
    decreases level, 2, 0
  {
    hide NodeReturns, StripAll, Distinct;
    StripPadded(list, level, n);
  }

  // ---------------------------------------------------------------- placing

  lemma ConvertedReturns(rec: Record, id: nat)
    requires CleanRecord(rec) && id < MAX_ID && ConvertedValue(rec, id).Some?
    ensures LeafReturns(ConvertedValue(rec, id).value)
  {
    hide Clean, Accumulate;
  }

  /** `d` put under its id, at the place of an entry with that id or behind all. */
  lemma PutFaithful(list: seq<Data>, level: nat, at: nat, d: Data)
    requires Faithful(list, level) && SmallIds(list) && at <= |list| && NodeReturns(d, level) && d.id < MAX_ID
    requires forall k :: 0 <= k < |list| ==> (list[k].id == d.id <==> k == at)
    ensures var r := if at < |list| then list[at := d] else list + [d];
            Faithful(r, level) && SmallIds(r)
  {
    hide NodeReturns;
  }

  lemma FoundAt(list: seq<Data>, level: nat, id: nat)
    requires Faithful(list, level)
    ensures var at := FindItem(list, id);
            at <= |list| && forall k :: 0 <= k < |list| ==> (list[k].id == id <==> k == at)
  {
    hide NodeReturns;
    var at := FindItem(list, id);
    forall k | 0 <= k < |list|
      ensures !list[k].Undefined?
    {
      NodeStrips(list[k], level);
    }
  }

  /** A record goes into what the nodes of its path hold. */
  lemma {:induction false} PlaceFaithful(list: seq<Data>, rec: Record, k: nat, res: int)
    requires k <= res <= 2 && Faithful(list, res - k) && SmallIds(list)
    requires CleanRecord(rec) && (forall j :: k <= j <= res ==> rec.ids[j] != MAX_ID)
    requires Place(list, rec, k, res).Ok?
    ensures var r := Place(list, rec, k, res).value; Faithful(r, res - k) && SmallIds(r) && r != []
    decreases res - k
  {
    hide ConvertedValue, CleanRecord, Clean, FindItem, SmallIds, Faithful, NodeReturns;
    CleanIds(rec);
    var id := rec.ids[k];
    var at := FindItem(list, id);
    FoundAt(list, res - k, id);
    var node := if at < |list| then list[at] else FreshNode(id, res - k);
    if at < |list| { NodeAt(list, res - k, at); }
    if k < res {
      if at < |list| { NodeParts(node, res - k); } else { NothingFaithful(res - k - 1); }
      BelowSmall(node.children, res - k - 1);
      PlaceFaithful(node.children, rec, k + 1, res);
      var below := Place(node.children, rec, k + 1, res).value;
      PlacedNode(list, at, node, node.WithChildren(below));
      NodeBuilt(node.WithChildren(below), res - k);
      PutFaithful(list, res - k, at, node.WithChildren(below));
    } else if rec.ids[k + 1] != MAX_ID {
      var v := ConvertedValue(rec, rec.ids[k + 1]).value;
      ConvertedReturns(rec, rec.ids[k + 1]);
      var grown := Multiple(id, node.Children() + [v]);
      MultipleGrows(node, id, v);
      PlacedNode(list, at, node, grown);
      PutFaithful(list, 0, at, grown);
    } else {
      var v := ConvertedValue(rec, id).value;
      ConvertedReturns(rec, id);
      LeafNode(v);
      PlacedNode(list, at, node, v);
      PutFaithful(list, 0, at, v);
    }
  }

  lemma CleanIds(rec: Record)
    requires CleanRecord(rec)
    ensures forall k :: 0 <= k < 4 ==> rec.ids[k] <= MAX_ID
  {}

  lemma BelowSmall(list: seq<Data>, level: nat)
    requires Faithful(list, level) && level < 2
    ensures SmallIds(list)
  {
    hide NodeReturns;
  }

  lemma NodeBuilt(d: Data, level: nat)
    requires level == 1 || level == 2
    requires (if level == 1 then d.Instance? else d.Object?) && d.children != [] && Faithful(d.children, level - 1)
    ensures NodeReturns(d, level)
  {
    hide Faithful;
  }

  lemma LeafNode(d: Data)
    requires LeafReturns(d)
    ensures NodeReturns(d, 0)
  {}

  lemma MultipleGrows(node: Data, id: nat, v: Data)
    requires id < MAX_ID && LeafReturns(v)
    requires node == Undefined(id) || (NodeReturns(node, 0) && node.Multiple?)
    ensures NodeReturns(Multiple(id, node.Children() + [v]), 0)
  {
    hide LeafReturns;
  }

  lemma {:induction false} PlaceAllFaithful(list: seq<Data>, records: seq<Record>, res: int)
    requires 0 <= res <= 2 && Faithful(list, res) && SmallIds(list)
    requires AllClean(records) && PlaceAll(list, records, res).Ok?
    ensures var r := PlaceAll(list, records, res).value;
            Faithful(r, res) && SmallIds(r) && (records != [] || list != [] ==> r != [])
    decreases |records|
  {
    hide Faithful, CleanRecord, Place, SmallIds;
    if records != [] {
      PlaceFaithful(list, records[0], 0, res);
      PlaceAllFaithful(Place(list, records[0], 0, res).value, records[1..], res);
    }
  }

  // ---------------------------------------------------------------- what a request gets

  /** A path without a resource id, whose instance id the path parser accepts. */
  predicate AboveResources(uri: Option<Uri>) {
    uri.Some? ==> WellFormed(uri.value) && uri.value.resourceId.None?
                  && (uri.value.instanceId.Some? ==> uri.value.instanceId.value < MAX_ID)
  }

  /** How many containers stand between what is listed below a path and the resources. */
  function LevelOf(uri: Option<Uri>): (level: nat)
    ensures level <= 2
  {
    if uri.None? then 2 else if uri.value.instanceId.None? then 1 else 0
  }

  /** `b` is `a`, or a path below it. */
  predicate Within(a: Option<Uri>, b: Option<Uri>) {
    a.Some? ==> b.Some? && b.value.objectId == a.value.objectId
                && (a.value.instanceId.Some? ==> b.value.instanceId == a.value.instanceId)
  }

  /** The nodes of the path `b` below the path `a` around a list. */
  function WrappedBelow(a: Option<Uri>, b: Option<Uri>, root: seq<Data>): seq<Data>
    requires Within(a, b)
  {
    if a.None? then Wrapped(b, root)
    else if a.value.instanceId.None? && b.value.instanceId.Some? then [Instance(b.value.instanceId.value, root)]
    else root
  }

  lemma OneKept(d: Data, x: seq<Data>, y: seq<Data>)
    requires d.IsContainer() && d.children == x && Strip(x) == Ok(y)
    ensures Strip([d]) == Ok([d.WithChildren(y)])
  {
    var none: seq<Data> := [];
    assert [d][1..] == none && StripAll(none) == Ok(none);
    assert [d.WithChildren(y)] + [] == [d.WithChildren(y)];
  }

  /** What a request for a path selects from the tree of a text whose base path lies below:
      the nodes in between and the data, without the padding. */
  lemma SelectExact(uri: Option<Uri>, base: Option<Uri>, root: seq<Data>, n: nat)
    requires AboveResources(uri) && AboveResources(base) && Within(uri, base)
    requires root != [] && Faithful(root, LevelOf(base))
    ensures Selected(uri, Wrapped(base, root + Padding(n))) == Ok(WrappedBelow(uri, base, root))
  {
    hide Faithful, Strip;
    FaithfulKept(root, LevelOf(base), n);
    var all := root + Padding(n);
    if base.Some? && base.value.instanceId.Some? {
      OneKept(Instance(base.value.instanceId.value, all), all, root);
    }
    if base.Some? && uri.None? {
      var b := base.value;
      var inner := if b.instanceId.None? then all else [Instance(b.instanceId.value, all)];
      var kept := if b.instanceId.None? then root else [Instance(b.instanceId.value, root)];
      OneKept(Object(b.objectId, inner), inner, kept);
    }
  }

  /** A node with the id whose children are the answer. */
  lemma FoundBelow(list: seq<Data>, level: nat, n: nat, id: nat)
    requires Faithful(list, level) && level > 0
    ensures var all := list + Padding(n);
            var k := FindInstance(all, id);
            k < |all| ==> k < |list| && Faithful(all[k].Children(), level - 1) && all[k].Children() != []
  {
    hide Faithful;
    var all := list + Padding(n);
    var k := FindInstance(all, id);
    forall j | |list| <= j < |all|
      ensures all[j].Children() == []
    {}
    if k < |all| {
      NodeAt(list, level, k);
      NodeParts(list[k], level);
    }
  }

  lemma ChildrenKept(list: seq<Data>, level: nat)
    requires Faithful(list, level) && list != []
    ensures Strip(list) == Ok(list)
  {
    hide Faithful, Strip;
    FaithfulKept(list, level, 0);
    assert list + Padding(0) == list;
  }

  /** Requests and base paths that do not fit are answered with faithful data too, or
      refused. */
  lemma SelectFaithful(uri: Option<Uri>, base: Option<Uri>, root: seq<Data>, n: nat)
    requires AboveResources(uri) && AboveResources(base) && root != [] && Faithful(root, LevelOf(base))
    requires base.None? ==> SmallIds(root)
    requires Selected(uri, Wrapped(base, root + Padding(n))).Ok?
    ensures Faithful(Selected(uri, Wrapped(base, root + Padding(n))).value, LevelOf(uri))
  {
    hide Faithful, Strip;
    var all := root + Padding(n);
    if Within(uri, base) {
      SelectExact(uri, base, root, n);
      WrappedFaithful(uri, base, root);
    } else if base.None? {
      NodeAt(root, 2, 0);
      NodeParts(root[0], 2);
      var list := root[0].children;
      ChildrenKept(list, 1);
      if uri.value.instanceId.Some? { SelectInstance(list, 0, uri.value.instanceId.value); }
    } else if base.value.instanceId.None? {
      if uri.value.instanceId.Some? { SelectInstance(root, n, uri.value.instanceId.value); }
    }
  }

  lemma SelectInstance(list: seq<Data>, n: nat, id: nat)
    requires Faithful(list, 1)
    ensures var all := list + Padding(n);
            var k := FindInstance(all, id);
            k < |all| ==> Strip(all[k].Children()) == Ok(all[k].Children()) && Faithful(all[k].Children(), 0)
    ensures n == 0 ==> list + Padding(n) == list
  {
    hide Faithful, Strip;
    FoundBelow(list, 1, n, id);
    var all := list + Padding(n);
    var k := FindInstance(all, id);
    if k < |all| { ChildrenKept(all[k].Children(), 0); }
  }

  lemma WrappedFaithful(uri: Option<Uri>, base: Option<Uri>, root: seq<Data>)
    requires AboveResources(uri) && AboveResources(base) && Within(uri, base)
    requires root != [] && Faithful(root, LevelOf(base))
    ensures Faithful(WrappedBelow(uri, base, root), LevelOf(uri))
  {
    if base.Some? {
      var b := base.value;
      var inner := root;
      if b.instanceId.Some? {
        LoneFaithful(Instance(b.instanceId.value, root), 1);
        inner := [Instance(b.instanceId.value, root)];
      }
      if uri.None? { LoneFaithful(Object(b.objectId, inner), 2); }
    }
  }

  lemma LoneFaithful(d: Data, level: nat)
    requires (level == 1 && d.Instance? && d.id < MAX_ID) || (level == 2 && d.Object?)
    requires d.children != [] && Faithful(d.children, level - 1)
    ensures Faithful([d], level)
  {
    hide Faithful;
    NodeBuilt(d, level);
    LoneNode(d, level);
  }

  lemma LoneNode(d: Data, level: nat)
    requires NodeReturns(d, level) && (d.id < MAX_ID || level == 2)
    ensures Faithful([d], level)
  {
    hide NodeReturns;
  }

  /** Ids of a base path that was read are in range. */
  lemma BaseRange(uri: Option<Uri>, buf: string, t: Top)
    requires TopBounds(buf, t) && AboveResources(uri)
    ensures var base := BasePath(uri, buf, t);
            base.Some? && (base.value.Some? ==> base.value.value.resourceId.None?) ==> AboveResources(base.value)
  {
    hide ReadIds;
    if t.bn.Some? {
      var (start, len) := t.bn.value;
      if len > 3 {
        var rest := buf[start + 1..];
        var head := SpaceEnd(rest, 0, len - 2);
        if head + 1 < len - 2 { ReadIdsRange(rest, len - 2, head + 1, 0); }
      }
    }
  }

  /** Whatever the text, data returned for a path above the resources is faithful, as long as
      its base path is one too. */
  lemma OutputFaithful(uri: Option<Uri>, buf: string, list: seq<Data>)
    requires AboveResources(uri) && Parsed(uri, buf) == Ok(list) && list != []
    requires Scanned(buf).Some?
    requires var base := BasePath(uri, buf, Scanned(buf).value);
             base.Some? && (base.value.Some? ==> base.value.value.resourceId.None?)
    ensures Faithful(list, LevelOf(uri))
  {
    hide Scanned, BasePath, Selected, Faithful, Wrapped, AboveResources, AllClean, PlaceAll, Padding, SmallIds;
    ScannedClean(buf);
    var t := Scanned(buf).value;
    BaseRange(uri, buf, t);
    var base := BasePath(uri, buf, t).value;
    var records := t.records.value;
    ResourceSegmentLevel(base);
    var root := PlaceAll([], records, LevelOf(base)).value;
    NothingFaithful(LevelOf(base));
    PlaceAllFaithful([], records, LevelOf(base));
    SelectFaithful(uri, base, root, |records| - |root|);
  }

  lemma ResourceSegmentLevel(base: Option<Uri>)
    requires base.Some? ==> base.value.resourceId.None?
    ensures ResourceSegment(base) == LevelOf(base)
  {}

  // ---------------------------------------------------------------- stripping never miscounts

  /** A container holds something defined, at every level. */
  predicate Sound(d: Data) {
    d.IsContainer() ==>
      && (exists k :: 0 <= k < |d.children| && !d.children[k].Undefined?)
      && forall k :: 0 <= k < |d.children| ==> Sound(d.children[k])
  }

  predicate AllSound(list: seq<Data>) {
    forall k :: 0 <= k < |list| ==> Sound(list[k])
  }

  predicate SomeDefined(list: seq<Data>) {
    exists k :: 0 <= k < |list| && !list[k].Undefined?
  }

  lemma SoundParts(d: Data)
    ensures Sound(d) <==> !d.IsContainer() || (SomeDefined(d.children) && AllSound(d.children))
  {}

  lemma TailSound(list: seq<Data>)
    requires list != [] && AllSound(list)
    ensures Sound(list[0]) && AllSound(list[1..])
    ensures SomeDefined(list) <==> !list[0].Undefined? || SomeDefined(list[1..])
  {
    hide Sound;
    var tail := list[1..];
    assert forall k :: 0 <= k < |tail| ==> tail[k] == list[k + 1];
    if SomeDefined(list) {
      var k :| 0 <= k < |list| && !list[k].Undefined?;
      if k > 0 { assert tail[k - 1] == list[k]; }
    }
  }

  /** Sound data is stripped without a skipped container, and to nothing only when nothing is
      defined. */
  lemma {:induction false} SoundStrips(list: seq<Data>)
    requires AllSound(list)
    ensures StripAll(list).Ok? && (StripAll(list).value == [] <==> !SomeDefined(list))
    decreases list
  {
    hide Sound, AllSound, SomeDefined;
    if list == [] {
      NothingDefined();
    } else {
      TailSound(list);
      SoundStrips(list[1..]);
      SoundParts(list[0]);
      if list[0].IsContainer() { SoundStrips(list[0].children); }
    }
  }

  lemma NothingDefined()
    ensures !SomeDefined([])
  {}

  lemma SoundPut(list: seq<Data>, at: nat, d: Data)
    requires AllSound(list) && at <= |list| && Sound(d) && !d.Undefined?
    ensures var r := if at < |list| then list[at := d] else list + [d];
            AllSound(r) && SomeDefined(r)
  {
    hide Sound;
    var r := if at < |list| then list[at := d] else list + [d];
    assert r[at] == d;
  }

  /** Placing a record leaves something defined at every level it goes through. */
  lemma {:induction false} PlaceSound(list: seq<Data>, rec: Record, k: nat, res: int)
    requires -1 <= res <= 2 && k <= 2 && (k <= res || k == 0)
    requires AllSound(list) && Place(list, rec, k, res).Ok?
    ensures AllSound(Place(list, rec, k, res).value) && SomeDefined(Place(list, rec, k, res).value)
    decreases res - k
  {
    hide Sound, AllSound, SomeDefined, ConvertedValue, FindItem;
    var id := rec.ids[k];
    var at := FindItem(list, id);
    var node := if at < |list| then list[at] else FreshNode(id, res - k);
    if at < |list| { SoundAt(list, at); }
    SoundParts(node);
    if k < res {
      if at == |list| { NothingSound(); }
      PlaceSound(node.children, rec, k + 1, res);
      var below := Place(node.children, rec, k + 1, res).value;
      PlacedNode(list, at, node, node.WithChildren(below));
      SoundParts(node.WithChildren(below));
      SoundPut(list, at, node.WithChildren(below));
    } else if k == res && rec.ids[k + 1] != MAX_ID {
      var v := ConvertedValue(rec, rec.ids[k + 1]).value;
      var grown := Multiple(id, node.Children() + [v]);
      SoundParts(v);
      if !node.IsContainer() { NothingSound(); }
      SoundPut(node.Children(), |node.Children()|, v);
      SoundParts(grown);
      PlacedNode(list, at, node, grown);
      SoundPut(list, at, grown);
    } else {
      var v := ConvertedValue(rec, id).value;
      SoundParts(v);
      PlacedNode(list, at, node, v);
      SoundPut(list, at, v);
    }
  }

  lemma SoundAt(list: seq<Data>, at: nat)
    requires AllSound(list) && at < |list|
    ensures Sound(list[at])
  {}

  lemma NothingSound()
    ensures AllSound([])
  {}

  lemma PlacedNode(list: seq<Data>, at: nat, node: Data, d: Data)
    requires at <= |list|
    ensures (if at < |list| then list else list + [node])[at := d] == if at < |list| then list[at := d] else list + [d]
  {}

  lemma {:induction false} PlaceAllSound(list: seq<Data>, records: seq<Record>, res: int)
    requires -1 <= res <= 2 && AllSound(list) && PlaceAll(list, records, res).Ok?
    ensures AllSound(PlaceAll(list, records, res).value)
    ensures records != [] || SomeDefined(list) ==> SomeDefined(PlaceAll(list, records, res).value)
    decreases |records|
  {
    hide Sound, AllSound, SomeDefined, Place, PathComplete;
    if records != [] {
      PlaceSound(list, records[0], 0, res);
      PlaceAllSound(Place(list, records[0], 0, res).value, records[1..], res);
    }
  }

  lemma PaddedSound(list: seq<Data>, n: nat)
    requires AllSound(list) && SomeDefined(list)
    ensures AllSound(list + Padding(n)) && SomeDefined(list + Padding(n))
  {
    hide Sound;
    var all := list + Padding(n);
    SoundParts(Undefined(0));
    var k :| 0 <= k < |list| && !list[k].Undefined?;
    assert all[k] == list[k];
  }

  lemma OneSound(d: Data)
    requires Sound(d) && !d.Undefined?
    ensures AllSound([d]) && SomeDefined([d])
  {
    hide Sound;
    assert [d][0] == d;
  }

  lemma WrappedSound(base: Option<Uri>, root: seq<Data>)
    requires AllSound(root) && SomeDefined(root)
    ensures AllSound(Wrapped(base, root)) && SomeDefined(Wrapped(base, root))
  {
    hide Sound, AllSound, SomeDefined;
    if base.Some? {
      var u := base.value;
      var list := root;
      if u.instanceId.Some? {
        if u.resourceId.Some? {
          SoundParts(Multiple(u.resourceId.value, list));
          OneSound(Multiple(u.resourceId.value, list));
          list := [Multiple(u.resourceId.value, list)];
        }
        SoundParts(Instance(u.instanceId.value, list));
        OneSound(Instance(u.instanceId.value, list));
        list := [Instance(u.instanceId.value, list)];
      }
      SoundParts(Object(u.objectId, list));
      OneSound(Object(u.objectId, list));
    }
  }

  /** The tree of any records is sound. */
  lemma ConvertedSound(base: Option<Uri>, records: seq<Record>)
    requires records != [] && Converted(base, records).Ok?
    ensures AllSound(Converted(base, records).value) && SomeDefined(Converted(base, records).value)
  {
    hide Sound, AllSound, SomeDefined, PlaceAll, Wrapped, Padding, ResourceSegment;
    NothingSound();
    PlaceAllSound([], records, ResourceSegment(base));
    var root := PlaceAll([], records, ResourceSegment(base)).value;
    PaddedSound(root, |records| - |root|);
    WrappedSound(base, root + Padding(|records| - |root|));
  }

  lemma StripFollowed(list: seq<Data>)
    requires AllSound(list)
    ensures !Strip(list).Stuck? && (Strip(list).Ok? <==> SomeDefined(list))
  {
    hide AllSound, SomeDefined, StripAll;
    SoundStrips(list);
  }

  /** Whatever the text, the clean-up never meets a container that strips to nothing, so its
      count is the number of entries it keeps. */
  lemma NeverMiscounts(uri: Option<Uri>, base: Option<Uri>, records: seq<Record>)
    requires records != [] && Converted(base, records).Ok?
    ensures Converted(base, records).value != []
    ensures !Selected(uri, Converted(base, records).value).Stuck?
  {
    hide Converted, Sound, AllSound, SomeDefined, Strip;
    var parsed := Converted(base, records).value;
    ConvertedSound(base, records);
    if parsed == [] { NothingDefined(); }
    StripFollowed(parsed);
    if uri.Some? && parsed[0].Object? {
      var u := uri.value;
      SoundAt(parsed, 0);
      SoundParts(parsed[0]);
      StripFollowed(parsed[0].children);
      if u.instanceId.Some? {
        var k := FindInstance(parsed[0].children, u.instanceId.value);
        if k < |parsed[0].children| {
          SoundAt(parsed[0].children, k);
          InstanceFollowed(parsed[0].children[k], u);
        }
      }
    }
  }

  /** A parse ends in `Stuck` exactly where placing a record does. */
  lemma ParseStuckExact(uri: Option<Uri>, buf: string)
    ensures Parsed(uri, buf).Stuck? <==>
              && Scanned(buf).Some? && Scanned(buf).value.records.Some?
              && BasePath(uri, buf, Scanned(buf).value).Some?
              && Converted(BasePath(uri, buf, Scanned(buf).value).value, Scanned(buf).value.records.value).Stuck?
  {
    hide Scanned, BasePath, Converted, Selected;
    var t := Scanned(buf);
    if t.Some? && t.value.records.Some? {
      var base := BasePath(uri, buf, t.value);
      if base.Some? && Converted(base.value, t.value.records.value).Ok? {
        NeverMiscounts(uri, base.value, t.value.records.value);
      }
    }
  }

  lemma InstanceFollowed(d: Data, u: Uri)
    requires Sound(d) && d.Children() != []
    ensures !Strip(d.Children()).Stuck?
    ensures u.resourceId.Some? ==>
              var list := d.Children();
              var j := FindResource(list, u.resourceId.value);
              j < |list| ==> !Strip([list[j]]).Stuck? && !Strip(list[j].Children()).Stuck?
  {
    hide Sound, AllSound, SomeDefined, Strip;
    var list := d.Children();
    SoundParts(d);
    StripFollowed(list);
    if u.resourceId.Some? {
      var j := FindResource(list, u.resourceId.value);
      if j < |list| {
        SoundAt(list, j);
        SoundParts(list[j]);
        AloneSound(list[j]);
        StripFollowed([list[j]]);
        if !list[j].IsContainer() { NothingSound(); }
        StripFollowed(list[j].Children());
      }
    }
  }

  lemma AloneSound(d: Data)
    requires Sound(d)
    ensures AllSound([d])
  {}
}
