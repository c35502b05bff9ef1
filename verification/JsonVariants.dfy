/** Texts of the same data are read alike (`json_parse` in src/lwm2m/core/json.c): neither the
    layout nor the way the base path is written or left out makes a difference. */
module JsonVariants {
  import opened Text
  import opened Uris
  import opened JsonScan
  import opened JsonTree
  import opened JsonParse
  import opened JsonReadBack
  import opened JsonOutput
  import opened JsonRoundTrip
  import opened JsonLayout
  import S = JsonSerialize

  /** What a base name, or none, stands for in a text read for a request. */
  ghost predicate Denotes(base: Option<string>, request: Option<Uri>, b: Option<Uri>) {
    match base
    case None => b == request
    case Some(t) => if b.None? then t == "/" else InGrammar(t, b.value)
  }

  lemma BaseDenoted(request: Option<Uri>, buf: string, t: Top, base: Option<string>, b: Option<Uri>)
    requires TopBounds(buf, t) && Denotes(base, request, b)
    requires if base.None? then t.bn.None? else t.bn.Some? && Noted(buf, t.bn.value, base.value)
    ensures BasePath(request, buf, t) == Some(b)
  {
    hide InGrammar, BasePath;
    if base.Some? {
      var v := "\"" + base.value + "\"";
      assert v[1..|v| - 1] == base.value;
      BaseExact(request, buf, t, if b.None? then Uri(0, None, None) else b.value);
    } else {
      NoBase(request, buf, t);
    }
  }

  lemma NoBase(request: Option<Uri>, buf: string, t: Top)
    requires TopBounds(buf, t) && t.bn.None?
    ensures BasePath(request, buf, t) == Some(request)
  {}

  /** The printer's own base name of a path. */
  lemma PrintedDenotes(request: Option<Uri>, b: Option<Uri>)
    requires AboveResources(b)
    ensures Denotes(Some(BaseText(UriIds(b))), request, b)
  {
    hide InGrammar;
    EmptySlashed();
    if b.Some? { PathInGrammar(b.value); }
  }

  lemma PrintedScanned(b: Option<Uri>, es: seq<Entry>)
    requires AboveResources(b) && es != [] && GoodEntries(es)
    ensures var base := BaseText(UriIds(b));
            var buf := FullText(base, es);
            && Scanned(buf) == Some(Top(Some(Records(es)), Some((6, |base| + 2)), false))
            && Noted(buf, (6, |base| + 2), base)
  {
    hide BaseText, FullText, Scanned, GoodEntries, PathChars, ItemsText, Records;
    var base := BaseText(UriIds(b));
    BaseChars(UriIds(b));
    ScanRead(base, es);
    FullTextLayout(base, es);
    BaseAt(FullText(base, es), base);
  }

  lemma ParsedFrom(request: Option<Uri>, buf: string, t: Top, records: seq<Record>, b: Option<Uri>)
    requires Scanned(buf) == Some(t) && t.records == Some(records) && BasePath(request, buf, t) == Some(b)
    ensures Parsed(request, buf) ==
            match Converted(b, records)
            case Refused => Refused
            case Stuck => Stuck
            case Ok(parsed) => Selected(request, parsed)
  {
    hide Scanned, BasePath, Converted, Selected;
  }

  /** A text of the entries in any layout, whose base name stands for a path in whatever
      spelling, is read like the text the printer writes below that path. */
  lemma LayoutParsed(request: Option<Uri>, buf: string, base: Option<string>, b: Option<Uri>, es: seq<Entry>)
    requires LaidOut(buf, base, es) && es != [] && GoodEntries(es)
    requires AboveResources(b) && Denotes(base, request, b)
    ensures Parsed(request, buf) == Parsed(request, FullText(BaseText(UriIds(b)), es))
  {
    hide LaidOut, GoodEntries, BaseText, FullText, Scanned, BasePath, Parsed, Records, Denotes, InGrammar, Noted,
         AboveResources, UriIds;
    LayoutScanned(buf, base, es);
    var t := Scanned(buf).value;
    BaseDenoted(request, buf, t, base, b);
    ParsedFrom(request, buf, t, Records(es), b);
    var printed := BaseText(UriIds(b));
    var text := FullText(printed, es);
    PrintedScanned(b, es);
    PrintedDenotes(request, b);
    var t1 := Top(Some(Records(es)), Some((6, |printed| + 2)), false);
    BaseDenoted(request, text, t1, Some(printed), b);
    ParsedFrom(request, text, t1, Records(es), b);
  }

  /** Faithful data returns from every text of its items below its path: with the path as base
      name, or with none when it is the path asked for. */
  lemma LayoutReturns(uri: Option<Uri>, list: seq<Data>, buf: string, base: Option<string>)
    requires AboveResources(uri) && list != [] && Nodes(list, LevelOf(uri)) && S.AllInRange(list)
    requires Faithful(list, LevelOf(uri)) && SmallIds(list) && Denotes(base, uri, uri)
    requires AllShallow(list, LevelOf(uri) + 1) && LaidOut(buf, base, Flatten(list, LevelOf(uri) + 1))
    ensures Parsed(uri, buf) == Ok(list)
  {
    hide Faithful, Nodes, S.AllInRange, AboveResources, SmallIds, AllShallow, LaidOut, Denotes, Flatten, FullText,
         BaseText, Parsed, Selected, Wrapped, WrappedBelow, UriIds, GoodEntries, Padding;
    var n := TextRead(uri, list, uri);
    LayoutParsed(uri, buf, base, uri, Flatten(list, LevelOf(uri) + 1));
    SamePath(uri, list);
    SelectExact(uri, uri, list, n);
  }

  lemma SamePath(uri: Option<Uri>, list: seq<Data>)
    requires AboveResources(uri)
    ensures Within(uri, uri) && WrappedBelow(uri, uri, list) == list
  {}

  /** A text with a base path and no array. */
  ghost predicate BaseAlone(buf: string, base: string) {
    exists i: nat, a: nat, q: nat ::
      i < a < |buf| && Blank(buf, 0, i) && buf[i] == '{' && Blank(buf, i + 1, a) && EndsWithBase(buf, a, base, q)
  }

  ghost predicate EndsWithBase(buf: string, a: nat, base: string, q: nat) {
    BaseMemberAt(buf, a, base, q) && buf[q] == '}'
  }

  /** It is read as no data at all, for every request. */
  lemma NothingListed(request: Option<Uri>, buf: string, base: string)
    requires BaseAlone(buf, base)
    ensures Parsed(request, buf) == Ok([])
  {
    hide Member, Members, Skip, TopBounds, At, Blank, PairIs, BasePath, Converted, Selected;
    var i: nat, a: nat, q: nat :|
      i < a < |buf| && Blank(buf, 0, i) && buf[i] == '{' && Blank(buf, i + 1, a) && EndsWithBase(buf, a, base, q);
    BlankTo(buf, 0, i);
    NothingYet(buf);
    QuoteAt(buf, a, "\"bn\"");
    var place := BaseMemberTaken(buf, a, base, q, NO_TOP);
    NothingBlank(buf, q);
    MemberThen(buf, i, a, NO_TOP, (NO_TOP.(bn := Some(place)), q - 1), q);
  }

  // ---------------------------------------------------------------- the printer's own layout

  lemma SplitPairIs(t: string, n: nat, s: Scan, key: string, value: string)
    requires Split(t) == Some((n, s)) && ScanBounds(t, |t|, s) && TokenOf(t, s) == key && ValueOf(t, s) == value
    ensures PairIs(t, n, key, value)
  {
    hide Split, IsPair;
    SplitExact(t, n, s);
    PairBounds(t, n, s);
    assert PairOf(t, n, s, key, value);
  }

  lemma PairBounds(t: string, n: nat, s: Scan)
    requires IsPair(t, n, s)
    ensures s.tokenStart + s.tokenLen <= |t| && s.valueStart + s.valueLen <= |t|
  {
    hide IsValue;
  }

  lemma PrintedName(path: seq<nat>, rest: string)
    requires 1 <= |path| <= 4
    ensures var first := QuotedPair("n", PathStr(path));
            PairIs(first + "," + rest, |first|, "n", "\"" + PathStr(path) + "\"")
  {
    hide PathStr, Split, PairIs, ScanBounds, Quotable;
    var name := PathStr(path);
    var first := QuotedPair("n", name);
    var t := first + "," + rest;
    PathQuotable(path);
    PairSlices(name, "," + rest);
    assert t == first + ("," + rest);
    SplitQuoted(t, "n", name);
    var s := Scan(Done, 1, 1, 4, |name| + 2);
    ScanFits(t, |first|, s);
    SplitPairIs(t, |first|, s, "n", "\"" + name + "\"");
  }

  lemma ScanFits(t: string, n: nat, s: Scan)
    requires Split(t) == Some((n, s))
    ensures ScanBounds(t, |t|, s)
  {
    hide SplitFrom, Skip;
  }

  lemma PrintedValue(d: Data)
    requires IsLeaf(d) && (d.Str? ==> Quotable(d.text))
    ensures PairIs(ValueStr(d), |ValueStr(d)|, ValueKey(d), RawValue(d))
  {
    hide Split, Quotable, PairIs;
    match d {
      case Integer(_, v) =>
        MagnitudeBare(v);
        PlainPairSplit("v", RawValue(d));
      case Boolean(_, flag) =>
        PlainPairSplit("bv", RawValue(d));
      case Str(_, text) =>
        QuotedPairSplit("sv", text);
    }
    var pair := Split(ValueStr(d)).value;
    SplitPairIs(ValueStr(d), pair.0, pair.1, ValueKey(d), RawValue(d));
  }

  lemma PrintedItem(e: Entry)
    requires GoodEntry(e)
    ensures IsItem(Inner(e), e)
  {
    hide PairIs, QuotedPair, PathStr, RawValue, Quotable;
    var value := ValueStr(e.leaf);
    var first := QuotedPair("n", PathStr(e.path));
    var t := first + "," + value;
    PrintedName(e.path, value);
    PrintedValue(e.leaf);
    ValueLong(e.leaf);
    assert t[|first| + 1..] == value && t[|first|] == ',';
    assert Names("\"" + PathStr(e.path) + "\"", e.path);
  }

  lemma ValueLong(d: Data)
    requires IsLeaf(d)
    ensures ValueStr(d) != ""
  {}

  lemma PrintedGroup(buf: string, i: nat, e: Entry)
    requires GoodEntry(e) && At(buf, i, ItemText(e)) && i + |ItemText(e)| < |buf|
    ensures |ItemText(e)| > 2 && GroupAt(buf, i, i + |ItemText(e)| - 1, i + |ItemText(e)|, e)
  {
    hide Inner, IsItem, At, GoodEntry;
    OneItemText(buf, i, e);
    PrintedItem(e);
  }

  lemma {:induction false} PrintedItems(buf: string, i: nat, es: seq<Entry>)
    requires es != [] && GoodEntries(es)
    requires At(buf, i, ItemsText(es)) && i + |ItemsText(es)| < |buf| && buf[i + |ItemsText(es)|] == ']'
    ensures ItemsAt(buf, i, es, i + |ItemsText(es)|)
    decreases |es|
  {
    hide At, ItemsText, ItemText, GoodEntry, GoodEntries, GroupAt, Records;
    EntriesFirst(es);
    var e, end := es[0], i + |ItemsText(es)|;
    var next := i + |ItemText(e)|;
    if |es| > 1 {
      ItemsTextSplit(buf, i, es);
      PrintedItems(buf, next + 1, es[1..]);
      NothingBlank(buf, next + 1);
      RestFollows(buf, next, next + 1, es[1..], end);
    }
    PrintedGroup(buf, i, e);
    assert RestAt(buf, next, es[1..], end);
  }

  lemma RestFollows(buf: string, next: nat, j: nat, es: seq<Entry>, end: nat)
    requires next < |buf| && buf[next] == ',' && Blank(buf, next + 1, j) && es != [] && ItemsAt(buf, j, es, end)
    ensures RestAt(buf, next, es, end)
  {
    hide Blank, GroupAt;
  }

  /** The printer's text is one of the layouts. */
  lemma PrintedLaidOut(base: string, es: seq<Entry>)
    requires PathChars(base) && es != [] && GoodEntries(es)
    ensures LaidOut(FullText(base, es), Some(base), es)
  {
    hide PathChars, GoodEntries, FullText, ItemsText, At, ItemsAt, PairIs, Blank;
    var buf := FullText(base, es);
    var c := 8 + |base|;
    FullTextLayout(base, es);
    PrintedArray(buf, c + 2, es);
    PrintedBase(buf, base);
    NothingBlank(buf, 0);
    NothingBlank(buf, 1);
    NothingBlank(buf, c);
    NothingBlank(buf, c + 1);
    NothingBlank(buf, |buf| - 1);
    assert Closing(buf, |buf| - 2, |buf| - 1);
    assert Alone(buf, c + 1, es);
    assert Comma(buf, c - 1, c, c + 1);
    assert BaseFirst(buf, 1, base, es);
    assert Laid(buf, 1, Some(base), es);
  }

  lemma PrintedArray(buf: string, p: nat, es: seq<Entry>)
    requires es != [] && GoodEntries(es) && 0 < p <= |buf| && buf[p - 1] == '"'
    requires At(buf, p, "e\":[" + (ItemsText(es) + S.FOOTER)) && p + 4 + |ItemsText(es)| + 2 == |buf|
    ensures ArrayAt(buf, p - 1, es, |buf| - 2)
  {
    hide GoodEntries, ItemsText, ItemsAt, Blank;
    ItemsTextLong(es);
    ArrayMemberLayout(buf, p, ItemsText(es));
    AtFirst(buf, p, "e\":[" + (ItemsText(es) + S.FOOTER));
    PrintedItems(buf, p + 4, es);
    NothingBlank(buf, p + 2);
    NothingBlank(buf, p + 3);
    NothingBlank(buf, p + 4);
    assert Opening(buf, p - 1, p + 2, p + 3, p + 4);
  }

  lemma PrintedBase(buf: string, base: string)
    requires PathChars(base) && At(buf, 0, S.BN_HEADER_1 + (base + "\","))
    ensures BaseMemberAt(buf, 1, base, 8 + |base|)
  {
    hide PathChars, Quotable, Split, PairIs, QuotedPair;
    var q := 8 + |base|;
    BaseMemberLayout(buf, base);
    PathCharsQuotable(base);
    QuotedPairSplit("bn", base);
    var pair := Split(QuotedPair("bn", base)).value;
    SplitPairIs(QuotedPair("bn", base), pair.0, pair.1, "bn", "\"" + base + "\"");
    FindClear(buf, 1, {',', '}'});
  }
}
