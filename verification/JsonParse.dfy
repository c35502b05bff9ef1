/** `json_parse` (src/lwm2m/core/json.c): the scan of the top-level object, the agreement
    between the item counter and the item loop, and the choice of the data returned. */
module JsonParse {
  import opened Text
  import opened Uris
  import opened JsonScan
  import opened JsonTree

  const MIN_ARRAY_LEN := 21
  const MIN_BX_LEN := 5

  /** The sub-buffer of the bytes from `i` up to `j`. */
  function Sub(buf: string, i: nat, j: nat): (s: string)
    requires i <= j <= |buf|
    ensures |s| == j - i
  {
    buf[i..j]
  }

  /** The first position from `i` on that holds a character of `stops`. */
  function Find(buf: string, i: nat, stops: set<char>): (e: nat)
    requires i <= |buf|
    ensures i <= e <= |buf| && (e < |buf| ==> buf[e] in stops)
    decreases |buf| - i
  {
    if i == |buf| || buf[i] in stops then i else Find(buf, i + 1, stops)
  }

  /** One step of the search from a position that is no stop. */
  lemma FindStep(buf: string, i: nat, n: nat, stops: set<char>)
    requires i < n <= |buf| && forall k :: i <= k < n ==> buf[k] !in stops
    ensures Find(buf, i, stops) == Find(buf, n, stops)
    decreases n - i
  {
    if i + 1 < n { FindStep(buf, i + 1, n, stops); }
  }

  lemma {:induction false} FindUnique(buf: string, i: nat, stops: set<char>, e: nat)
    requires i <= e <= |buf| && (e < |buf| ==> buf[e] in stops)
    requires forall k :: i <= k < e ==> buf[k] !in stops
    ensures Find(buf, i, stops) == e
    decreases e - i
  {
    if i < e { FindUnique(buf, i + 1, stops, e); }
  }

  // ---------------------------------------------------------------- the item loop

  /** The item loop of `json_parse` with `remaining` items to go: the records and the
      position of the closing bracket. */
  function Items(buf: string, i: nat, remaining: nat): (r: Option<(seq<Record>, nat)>)
    requires i < |buf|
    ensures r.Some? ==> |r.value.0| == remaining && i <= r.value.1 < |buf| && buf[r.value.1] == ']'
    decreases remaining
  {
    if remaining == 0 then (if buf[i] == ']' then Some(([], i)) else None)
    else if buf[i] != '{' then None
    else
      var close := Find(buf, i, {'}'});
      if close == |buf| then None
      else
        match ItemFrom(Sub(buf, i + 1, close), 0, NO_RECORD)
        case None => None
        case Some(rec) =>
          var n := Next(buf, close);
          if n == |buf| then None
          else if buf[n] == ']' then
            if remaining == 1 then Some(([rec], n)) else None
          else if buf[n] != ',' || Next(buf, n) == |buf| then None
          else
            match Items(buf, Next(buf, n), remaining - 1)
            case None => None
            case Some(rest) => Some(([rec] + rest.0, rest.1))
  }

  /** Inside an item the counter runs to the first closing brace. */
  lemma {:induction false} CountReachesBrace(buf: string, i: nat)
    requires i < |buf| && CountFrom(buf, i, true).Some?
    ensures Find(buf, i, {'}'}) < |buf|
    ensures CountFrom(buf, Find(buf, i, {'}'}), true) == CountFrom(buf, i, true)
    decreases |buf| - i
  {
    if buf[i] == '}' {
      FindUnique(buf, i, {'}'}, i);
    } else {
      var n := Next(buf, i);
      CountReachesBrace(buf, n);
      SkipClear(buf, i + 1);
      FindStep(buf, i, n, {'}'});
    }
  }

  /** Counter and loop agree on one item: it opens with a brace, its closing brace is
      in the buffer, and behind it comes the bracket or a comma and `c - 1` items. */
  lemma ScannersAgree(buf: string, i: nat, c: nat)
    requires i < |buf| && CountFrom(buf, i, false) == Some(c)
    ensures buf[i] == '{'
    ensures var close := Find(buf, i, {'}'});
            && i < close < |buf|
            && Next(buf, close) < |buf|
            && (c == 1 <==> buf[Next(buf, close)] == ']')
            && (c > 1 ==>
                  && buf[Next(buf, close)] == ','
                  && Next(buf, Next(buf, close)) < |buf|
                  && CountFrom(buf, Next(buf, Next(buf, close)), false) == Some(c - 1))
  {
    var n := Next(buf, i);
    CountReachesBrace(buf, n);
    SkipClear(buf, i + 1);
    FindStep(buf, i, n, {'}'});
  }

  function Prepend(front: seq<Record>, o: Option<(seq<Record>, nat)>): Option<(seq<Record>, nat)> {
    match o
    case None => None
    case Some(rest) => Some((front + rest.0, rest.1))
  }

  lemma PrependStep(front: seq<Record>, rec: Record, o: Option<(seq<Record>, nat)>)
    ensures Prepend(front, Prepend([rec], o)) == Prepend(front + [rec], o)
  {
    if o.Some? {
      assert front + ([rec] + o.value.0) == (front + [rec]) + o.value.0;
    }
  }

  /** Where the next item starts on counted input. */
  function AfterItem(buf: string, i: nat): (j: nat)
    requires i < |buf|
    requires Find(buf, i, {'}'}) < |buf| && Next(buf, Find(buf, i, {'}'})) < |buf|
    ensures i < j <= |buf|
  {
    Next(buf, Next(buf, Find(buf, i, {'}'})))
  }

  /** One round of the item loop on counted input. */
  lemma ItemsStep(buf: string, i: nat, c: nat)
    requires i < |buf| && CountFrom(buf, i, false) == Some(c)
    ensures var close := Find(buf, i, {'}'});
            && i < close < |buf| && Next(buf, close) < |buf|
            && (c > 1 ==> AfterItem(buf, i) < |buf|)
            && var rec := ItemFrom(Sub(buf, i + 1, close), 0, NO_RECORD);
            Items(buf, i, c) ==
              if rec.None? then None
              else if c == 1 then Some(([rec.value], Next(buf, close)))
              else Prepend([rec.value], Items(buf, AfterItem(buf, i), c - 1))
  {
    hide ItemFrom, CountFrom, Find, Skip;
    ScannersAgree(buf, i, c);
    if c == 1 {
      assert Items(buf, Next(buf, Find(buf, i, {'}'})), 0) == Some(([], Next(buf, Find(buf, i, {'}'}))));
    }
  }

  /** The brace groups the item loop visits, each as (opening, closing) position. */
  ghost function Groups(buf: string, i: nat, c: nat): (g: seq<(nat, nat)>)
    requires i < |buf| && CountFrom(buf, i, false) == Some(c)
    ensures |g| == c
    decreases c
  {
    ScannersAgree(buf, i, c);
    [(i, Find(buf, i, {'}'}))] + if c == 1 then [] else Groups(buf, AfterItem(buf, i), c - 1)
  }

  /** The text between the braces of a group is a well-formed item. */
  ghost predicate GroupParses(buf: string, g: (nat, nat)) {
    g.0 < g.1 < |buf| && ItemFrom(Sub(buf, g.0 + 1, g.1), 0, NO_RECORD).Some?
  }

  ghost predicate AllParse(buf: string, gs: seq<(nat, nat)>) {
    forall k :: 0 <= k < |gs| ==> GroupParses(buf, gs[k])
  }

  lemma AllParseSplit(buf: string, g: (nat, nat), gs: seq<(nat, nat)>)
    ensures AllParse(buf, [g] + gs) <==> GroupParses(buf, g) && AllParse(buf, gs)
  {
    var all := [g] + gs;
    assert all[0] == g;
    assert forall k :: 0 <= k < |gs| ==> gs[k] == all[k + 1];
  }

  /** The groups are pairs of matching braces inside the buffer. */
  lemma {:induction false} GroupsInBuffer(buf: string, i: nat, c: nat, k: nat)
    requires i < |buf| && CountFrom(buf, i, false) == Some(c) && k < c
    ensures var g := Groups(buf, i, c)[k];
            i <= g.0 < g.1 < |buf| && buf[g.0] == '{' && g.1 == Find(buf, g.0, {'}'}) && buf[g.1] == '}'
    decreases c
  {
    hide *;
    ScannersAgree(buf, i, c);
    GroupsUnfold(buf, i, c);
    FindUniqueEnd(buf, i);
    if k > 0 { GroupsInBuffer(buf, AfterItem(buf, i), c - 1, k - 1); }
  }

  lemma FindUniqueEnd(buf: string, i: nat)
    requires i < |buf| && Find(buf, i, {'}'}) < |buf|
    ensures buf[Find(buf, i, {'}'})] == '}'
  {}

  /** On counted input the loop visits exactly `c` brace groups (the length of
      `Groups`) and stops on the bracket; the only way it can fail is an item that
      does not parse. */
  lemma {:induction false} ItemsExact(buf: string, i: nat, c: nat)
    requires i < |buf| && CountFrom(buf, i, false) == Some(c)
    ensures Items(buf, i, c).Some? <==> AllParse(buf, Groups(buf, i, c))
    decreases c
  {
    hide *;
    ScannersAgree(buf, i, c);
    ItemsStep(buf, i, c);
    GroupsUnfold(buf, i, c);
    var close := Find(buf, i, {'}'});
    GroupParsesItem(buf, i, close);
    var rec := ItemFrom(Sub(buf, i + 1, close), 0, NO_RECORD);
    if c == 1 {
      AllParseSplit(buf, (i, close), []);
      AllParseEmpty(buf);
    } else {
      ItemsExact(buf, AfterItem(buf, i), c - 1);
      AllParseSplit(buf, (i, close), Groups(buf, AfterItem(buf, i), c - 1));
      if rec.Some? { PrependSome([rec.value], Items(buf, AfterItem(buf, i), c - 1)); }
    }
  }

  lemma GroupsUnfold(buf: string, i: nat, c: nat)
    requires i < |buf| && CountFrom(buf, i, false) == Some(c)
    ensures Find(buf, i, {'}'}) < |buf| && Next(buf, Find(buf, i, {'}'})) < |buf|
    ensures c > 1 ==> AfterItem(buf, i) < |buf| && CountFrom(buf, AfterItem(buf, i), false) == Some(c - 1)
    ensures Groups(buf, i, c) ==
            [(i, Find(buf, i, {'}'}))] + if c == 1 then [] else Groups(buf, AfterItem(buf, i), c - 1)
  {
    hide CountFrom, Find, Skip;
    ScannersAgree(buf, i, c);
  }

  lemma GroupParsesItem(buf: string, i: nat, close: nat)
    requires i < close < |buf|
    ensures GroupParses(buf, (i, close)) <==> ItemFrom(Sub(buf, i + 1, close), 0, NO_RECORD).Some?
  {
    hide ItemFrom, Sub;
  }

  lemma PrependSome(front: seq<Record>, o: Option<(seq<Record>, nat)>)
    ensures Prepend(front, o).Some? <==> o.Some?
  {}

  lemma AllParseEmpty(buf: string)
    ensures AllParse(buf, [])
  {}

  /** The item loop.  Nothing but the earlier count guards its index: that it stays in
      the buffer is the agreement of the two scanners. */
  method ParseItems(buf: string, start: nat, count: nat) returns (r: Option<(seq<Record>, nat)>)
    requires start < |buf| && CountFrom(buf, start, false) == Some(count)
    ensures r == Items(buf, start, count)
  {
    hide ItemFrom, CountFrom, Skip, Items;
    var records: seq<Record> := [];
    var index := start;
    ghost var total := Items(buf, start, count);
    assert forall rest: seq<Record> :: [] + rest == rest;
    while |records| < count
      invariant start <= index < |buf| && |records| <= count
      invariant |records| < count ==> CountFrom(buf, index, false) == Some(count - |records|)
      invariant |records| < count ==> total == Prepend(records, Items(buf, index, count - |records|))
      invariant |records| == count ==> total == Some((records, index)) && buf[index] == ']'
    {
      ScannersAgree(buf, index, count - |records|);
      ItemsStep(buf, index, count - |records|);
      if buf[index] != '{' { return None; }
      ghost var close := Find(buf, index, {'}'});
      ghost var open := index;
      var itemLen := ItemLength(buf, index);
      var rec := ParseItem(Sub(buf, index + 1, index + itemLen));
      if rec.None? { return None; }
      if |records| + 1 < count {
        PrependStep(records, rec.value, Items(buf, AfterItem(buf, open), count - |records| - 1));
      }
      records := records + [rec.value];
      index := SkipSpace(buf, index + itemLen + 1);
      if index == |buf| { return None; }
      match buf[index] {
        case ',' =>
          index := SkipSpace(buf, index + 1);
          if index == |buf| { return None; }
        case ']' =>
          if |records| != count { return None; }
        case _ => return None;
      }
    }
    if buf[index] != ']' { return None; }
    return Some((records, index));
  }

  /** The unguarded inner loop: it relies on a closing brace being there. */
  method ItemLength(buf: string, index: nat) returns (itemLen: nat)
    requires index < |buf| && Find(buf, index, {'}'}) < |buf|
    ensures index + itemLen == Find(buf, index, {'}'})
  {
    itemLen := 0;
    ghost var close := Find(buf, index, {'}'});
    while buf[index + itemLen] != '}'
      invariant index + itemLen <= close && Find(buf, index + itemLen, {'}'}) == close
      decreases close - itemLen
    {
      itemLen := itemLen + 1;
    }
  }

  // ---------------------------------------------------------------- top level

  /** What the top-level scan has found: the records of `e`, the place and length of
      the value of `bn`, and whether `bt` was seen. */
  datatype Top = Top(records: Option<seq<Record>>, bn: Option<(nat, nat)>, bt: bool)

  const NO_TOP := Top(None, None, false)

  ghost predicate TopBounds(buf: string, t: Top) {
    && t.records != Some([])
    && (t.bn.Some? ==> t.bn.value.1 > 0 && t.bn.value.0 + t.bn.value.1 <= |buf|)
  }

  /** The array after the key `e`, whose letter is at `p`. */
  function ArrayMember(buf: string, p: nat, t: Top): (r: Option<(Top, nat)>)
    requires p < |buf| && TopBounds(buf, t)
    ensures r.Some? ==> TopBounds(buf, r.value.0) && p < r.value.1 < |buf|
  {
    if |buf| - p < MIN_ARRAY_LEN || buf[p + 1] != '"' || t.records.Some? then None
    else
      var colon := Next(buf, p + 1);
      if colon == |buf| || buf[colon] != ':' then None
      else
        var bracket := Next(buf, colon);
        if bracket == |buf| || buf[bracket] != '[' then None
        else
          var first := Next(buf, bracket);
          if first == |buf| || CountFrom(buf, first, false).None? then None
          else
            match Items(buf, first, CountFrom(buf, first, false).value)
            case None => None
            case Some(items) => Some((t.(records := Some(items.0)), items.1))
  }

  /** The member after a key that starts with `b`, whose letter is at `p`. */
  function BaseMember(buf: string, p: nat, t: Top): (r: Option<(Top, nat)>)
    requires 0 < p < |buf| && TopBounds(buf, t)
    ensures r.Some? ==> TopBounds(buf, r.value.0) && p < r.value.1 < |buf|
  {
    if |buf| - p < MIN_BX_LEN then None
    else
      match buf[p + 1]
      case 't' =>
        if buf[p + 2] != '"' || t.bt then None
        else
          var q := Find(buf, p + 2, {',', '}'});
          if q == |buf| then None else Some((t.(bt := true), q - 1))
      case 'n' =>
        if buf[p + 2] != '"' || t.bn.Some? then None
        else
          var q := Find(buf, p - 1, {',', '}'});
          if q == |buf| then None
          else
            (match Split(Sub(buf, p - 1, q))
             case None => None
             case Some(pair) =>
               Some((t.(bn := Some((pair.1.valueStart + p - 1, pair.1.valueLen))), p - 1 + pair.0 - 1)))
      case _ => None
  }

  /** One member whose opening quote should be at `i`. */
  function Member(buf: string, i: nat, t: Top): (r: Option<(Top, nat)>)
    requires i < |buf| && TopBounds(buf, t)
    ensures r.Some? ==> TopBounds(buf, r.value.0) && i < r.value.1 < |buf|
  {
    if buf[i] != '"' || i + 1 == |buf| then None
    else
      match buf[i + 1]
      case 'e' => ArrayMember(buf, i + 1, t)
      case 'b' => BaseMember(buf, i + 1, t)
      case _ => None
  }

  /** The member as the code reads it.  Right behind a quote that ends the text, the switch
      looks at the byte behind the buffer, here `after`. */
  function MemberPeeking(buf: string, i: nat, t: Top, after: char): Option<(Top, nat)>
    requires i < |buf| && TopBounds(buf, t)
  {
    if buf[i] != '"' then None
    else
      match if i + 1 < |buf| then buf[i + 1] else after
      case 'e' => if |buf| - (i + 1) < MIN_ARRAY_LEN then None else ArrayMember(buf, i + 1, t)
      case 'b' => if |buf| - (i + 1) < MIN_BX_LEN then None else BaseMember(buf, i + 1, t)
      case _ => None
  }

  /** Whatever byte stands there, the text is refused. */
  lemma PeekHarmless(buf: string, i: nat, t: Top, after: char)
    requires i < |buf| && TopBounds(buf, t)
    ensures MemberPeeking(buf, i, t, after) == Member(buf, i, t)
  {
    hide Items, CountFrom, Find, Split, Skip;
  }

  /** The members from the separator at `i` on: what was found and where the scan
      stopped. */
  function Members(buf: string, i: nat, t: Top): (r: Option<(Top, nat)>)
    requires i < |buf| && TopBounds(buf, t)
    ensures r.Some? ==> TopBounds(buf, r.value.0) && i < r.value.1 < |buf|
    decreases |buf| - i
  {
    var n := Next(buf, i);
    if n == |buf| then None
    else
      match Member(buf, n, t)
      case None => None
      case Some(m) =>
        var sep := Next(buf, m.1);
        if sep == |buf| then None
        else if buf[sep] == ',' then Members(buf, sep, m.0)
        else Some((m.0, sep))
  }

  /** The scan of the whole text. */
  function Scanned(buf: string): (r: Option<Top>)
    ensures r.Some? ==> TopBounds(buf, r.value)
  {
    var i := Skip(buf, 0);
    if i == |buf| || buf[i] != '{' then None
    else
      match Members(buf, i, NO_TOP)
      case None => None
      case Some(m) => if buf[m.1] != '}' then None else Some(m.0)
  }

  method ScanArray(buf: string, p: nat, t: Top) returns (r: Option<(Top, nat)>)
    requires p < |buf| && TopBounds(buf, t)
    ensures r == ArrayMember(buf, p, t)
  {
    hide Items, CountFrom, Skip;
    if |buf| - p < MIN_ARRAY_LEN { return None; }
    var index := p + 1;
    if buf[index] != '"' { return None; }
    if t.records.Some? { return None; }
    index := SkipSpace(buf, index + 1);
    if index == |buf| { return None; }
    if buf[index] != ':' { return None; }
    index := SkipSpace(buf, index + 1);
    if index == |buf| { return None; }
    if buf[index] != '[' { return None; }
    index := SkipSpace(buf, index + 1);
    if index == |buf| { return None; }
    var count := CountItems(buf, index);
    if count <= 0 { return None; }
    var items := ParseItems(buf, index, count);
    if items.None? { return None; }
    return Some((t.(records := Some(items.value.0)), items.value.1));
  }

  method ScanBase(buf: string, p: nat, t: Top) returns (r: Option<(Top, nat)>)
    requires 0 < p < |buf| && TopBounds(buf, t)
    ensures r == BaseMember(buf, p, t)
  {
    hide Split;
    if |buf| - p < MIN_BX_LEN { return None; }
    var index := p + 1;
    match buf[index] {
      case 't' =>
        index := index + 1;
        if buf[index] != '"' { return None; }
        if t.bt { return None; }
        while index < |buf| && buf[index] != ',' && buf[index] != '}'
          invariant p + 2 <= index <= |buf|
          invariant forall k :: p + 2 <= k < index ==> buf[k] !in {',', '}'}
        {
          index := index + 1;
        }
        FindUnique(buf, p + 2, {',', '}'}, index);
        if index == |buf| { return None; }
        return Some((t.(bt := true), index - 1));
      case 'n' =>
        index := index + 1;
        if buf[index] != '"' { return None; }
        if t.bn.Some? { return None; }
        index := index - 3;
        var itemLen := 0;
        while index + itemLen < |buf| && buf[index + itemLen] != '}' && buf[index + itemLen] != ','
          invariant index + itemLen <= |buf|
          invariant forall k :: index <= k < index + itemLen ==> buf[k] !in {',', '}'}
        {
          itemLen := itemLen + 1;
        }
        FindUnique(buf, index, {',', '}'}, index + itemLen);
        if index + itemLen == |buf| { return None; }
        var pair := SplitPair(Sub(buf, index, index + itemLen));
        if pair.None? { return None; }
        var (next, s) := pair.value;
        return Some((t.(bn := Some((s.valueStart + index, s.valueLen))), index + next - 1));
      case _ => return None;
    }
  }

  method ScanMember(buf: string, i: nat, t: Top) returns (r: Option<(Top, nat)>)
    requires i < |buf| && TopBounds(buf, t)
    ensures r == Member(buf, i, t)
  {
    hide ArrayMember, BaseMember;
    if buf[i] != '"' { return None; }
    var index := i + 1;
    if index == |buf| { return None; }
    match buf[index] {
      case 'e' => r := ScanArray(buf, index, t);
      case 'b' => r := ScanBase(buf, index, t);
      case _ => return None;
    }
  }

  lemma MembersEnd(buf: string, i: nat, t: Top)
    requires i < |buf| && TopBounds(buf, t)
    requires Next(buf, i) == |buf| || Member(buf, Next(buf, i), t).None?
    ensures Members(buf, i, t) == None
  {}

  /** One round of the member loop. */
  lemma MembersStep(buf: string, i: nat, t: Top, m: (Top, nat), sep: nat)
    requires i < |buf| && TopBounds(buf, t) && Next(buf, i) < |buf|
    requires Member(buf, Next(buf, i), t) == Some(m) && sep == Next(buf, m.1)
    ensures sep < |buf| ==> TopBounds(buf, m.0) && i < sep
    ensures Members(buf, i, t) ==
            if sep == |buf| then None
            else if buf[sep] == ',' then Members(buf, sep, m.0)
            else Some((m.0, sep))
  {
    hide Member, Skip, TopBounds;
  }

  lemma NothingYet(buf: string)
    ensures TopBounds(buf, NO_TOP)
  {}

  /** The member loop from the opening brace on. */
  method ScanMembers(buf: string, start: nat) returns (r: Option<(Top, nat)>)
    requires start < |buf|
    ensures r == Members(buf, start, NO_TOP)
  {
    hide *;
    NothingYet(buf);
    var index, t := start, NO_TOP;
    ghost var total := Members(buf, start, NO_TOP);
    while true
      invariant index < |buf| && TopBounds(buf, t)
      invariant Members(buf, index, t) == total
      decreases |buf| - index
    {
      var n := SkipSpace(buf, index + 1);
      assert n == Next(buf, index) by { NextIsSkip(buf, index); }
      if n == |buf| { MembersEnd(buf, index, t); return None; }
      var m := ScanMember(buf, n, t);
      if m.None? { MembersEnd(buf, index, t); return None; }
      var sep := SkipSpace(buf, m.value.1 + 1);
      NextIsSkip(buf, m.value.1);
      MembersStep(buf, index, t, m.value, sep);
      if sep == |buf| { return None; }
      if buf[sep] != ',' { return Some((m.value.0, sep)); }
      index, t := sep, m.value.0;
    }
  }

  lemma NextIsSkip(buf: string, i: nat)
    requires i < |buf|
    ensures Next(buf, i) == Skip(buf, i + 1)
  {}

  method ScanTop(buf: string) returns (r: Option<Top>)
    ensures r == Scanned(buf)
  {
    hide Members, Skip;
    var index := SkipSpace(buf, 0);
    if index == |buf| { return None; }
    if buf[index] != '{' { return None; }
    var m := ScanMembers(buf, index);
    if m.None? { return None; }
    if buf[m.value.1] != '}' { return None; }
    return Some(m.value.0);
  }

  // ---------------------------------------------------------------- the result

  /** The path the records are relative to: the value of `bn` if there is one, else
      the path of the request.  A lone slash means the root. */
  function BasePath(uri: Option<Uri>, buf: string, t: Top): Option<Option<Uri>>
    requires TopBounds(buf, t)
  {
    match t.bn
    case None => Some(uri)
    case Some(place) =>
      var (start, len) := place;
      if len < 3 || buf[start] != '"' || buf[start + len - 1] != '"' then None
      else if len == 3 then (if buf[start + 1] == '/' then Some(None) else None)
      else
        match TextToUri(buf[start + 1..], len - 2)
        case None => None
        case Some(u) => if u.0 == len - 2 then Some(Some(u.1)) else None
  }

  predicate Quoted(v: string) {
    |v| >= 2 && v[0] == '"' && v[|v| - 1] == '"'
  }

  lemma PathNotShort(t: string, u: Uri)
    requires InGrammar(t, u)
    ensures |t| >= 2
  {
    var space, segs, closing :| IsPath(t, space, segs, closing, u);
    JoinedNotEmpty(segs, closing);
  }

  /** A base name is taken as the path `u` if and only if it is a quoted text of the path
      grammar for `u`, and as the root if and only if it is a quoted slash. */
  lemma BaseExact(uri: Option<Uri>, buf: string, t: Top, u: Uri)
    requires TopBounds(buf, t) && t.bn.Some?
    ensures var v := Sub(buf, t.bn.value.0, t.bn.value.0 + t.bn.value.1);
            && (BasePath(uri, buf, t) == Some(Some(u)) <==> Quoted(v) && InGrammar(v[1..|v| - 1], u))
            && (BasePath(uri, buf, t) == Some(None) <==> v == "\"/\"")
  {
    hide InGrammar, TextToUri, Sub;
    var (start, len) := t.bn.value;
    var v := Sub(buf, start, start + len);
    SubAt(buf, start, len);
    if len >= 4 {
      InnerText(buf, start, len);
      if Quoted(v) { GrammarBefore(buf[start + 1..], len - 2, u); }
    } else if Quoted(v) {
      ShortText(v);
      if InGrammar(v[1..len - 1], u) { PathNotShort(v[1..len - 1], u); }
    }
  }

  lemma SubAt(buf: string, start: nat, len: nat)
    requires 0 < len && start + len <= |buf|
    ensures var v := Sub(buf, start, start + len);
            |v| == len && forall k :: 0 <= k < len ==> v[k] == buf[start + k]
  {}

  lemma ShortText(v: string)
    requires Quoted(v) && |v| <= 3
    ensures v == "\"/\"" <==> |v| == 3 && v[1] == '/'
  {
    if |v| == 3 { assert v == [v[0], v[1], v[2]]; }
  }

  /** The text between the quotes, as the path parser gets it. */
  lemma InnerText(buf: string, start: nat, len: nat)
    requires 2 <= len && start + len <= |buf|
    ensures var v, rest := Sub(buf, start, start + len), buf[start + 1..];
            rest[..len - 2] == v[1..len - 1] && rest[len - 2] == v[len - 1]
  {
    var v, rest := Sub(buf, start, start + len), buf[start + 1..];
    forall i | 0 <= i < len - 2
      ensures rest[i] == v[i + 1]
    {}
  }

  /** The first child with the id that has children of its own. */
  function FindInstance(list: seq<Data>, id: nat): (k: nat)
    ensures k <= |list|
    ensures k < |list| ==> list[k].id == id && list[k].Children() != []
    ensures forall j :: 0 <= j < k ==> list[j].id != id || list[j].Children() == []
  {
    if list == [] then 0
    else if list[0].id == id && list[0].Children() != [] then 0
    else 1 + FindInstance(list[1..], id)
  }

  function FindResource(list: seq<Data>, id: nat): (k: nat)
    ensures k <= |list|
    ensures k < |list| ==> list[k].id == id
    ensures forall j :: 0 <= j < k ==> list[j].id != id
  {
    if list == [] then 0 else if list[0].id == id then 0 else 1 + FindResource(list[1..], id)
  }

  /** The part of the converted tree the request asks for, stripped. */
  function Selected(uri: Option<Uri>, parsed: seq<Data>): Outcome<seq<Data>>
    requires parsed != []
  {
    match uri
    case None => Strip(parsed)
    case Some(u) =>
      var first := parsed[0];
      if !first.Object? || first.id != u.objectId then Refused
      else if u.instanceId.None? then Strip(first.children)
      else
        var k := FindInstance(first.children, u.instanceId.value);
        if k == |first.children| then Refused
        else
          var list := first.children[k].Children();
          if u.resourceId.None? then Strip(list)
          else
            var j := FindResource(list, u.resourceId.value);
            if j == |list| then Refused
            else if !list[j].Multiple? then Strip([list[j]])
            else if list[j].children == [] then Refused
            else Strip(list[j].children)
  }

  /** `json_parse`: `Ok` with the data, empty when the text has no `e`; `Refused` for -1. */
  function Parsed(uri: Option<Uri>, buf: string): Outcome<seq<Data>> {
    match Scanned(buf)
    case None => Refused
    case Some(t) =>
      if t.records.None? then Ok([])
      else
        match BasePath(uri, buf, t)
        case None => Refused
        case Some(base) =>
          match Converted(base, t.records.value)
          case Refused => Refused
          case Stuck => Stuck
          case Ok(parsed) => Selected(uri, parsed)
  }

  method FindBase(uri: Option<Uri>, buf: string, t: Top) returns (r: Option<Option<Uri>>)
    requires TopBounds(buf, t)
    ensures r == BasePath(uri, buf, t)
  {
    if t.bn.None? { return Some(uri); }
    var (bnStart, bnLen) := t.bn.value;
    if bnLen < 3 || buf[bnStart] != '"' || buf[bnStart + bnLen - 1] != '"' { return None; }
    bnStart, bnLen := bnStart + 1, bnLen - 2;
    if bnLen == 1 {
      if buf[bnStart] != '/' { return None; }
      return Some(None);
    }
    var res := StringToUri(buf[bnStart..], bnLen);
    if res.None? || res.value.0 != bnLen { return None; }
    return Some(Some(res.value.1));
  }

  method Select(uri: Option<Uri>, parsed: seq<Data>) returns (r: Outcome<seq<Data>>)
    requires parsed != []
    ensures r == Selected(uri, parsed)
  {
    var list := parsed;
    if uri.Some? {
      var u := uri.value;
      var first := parsed[0];
      if !first.Object? || first.id != u.objectId { return Refused; }
      list := first.children;
      if u.instanceId.Some? {
        var i := 0;
        while i < |first.children| && (first.children[i].id != u.instanceId.value || first.children[i].Children() == [])
          invariant 0 <= i <= |first.children|
          invariant FindInstance(first.children, u.instanceId.value) ==
                    i + FindInstance(first.children[i..], u.instanceId.value)
        {
          i := i + 1;
        }
        if i == |first.children| { return Refused; }
        list := first.children[i].Children();
        if u.resourceId.Some? {
          i := 0;
          while i < |list| && list[i].id != u.resourceId.value
            invariant 0 <= i <= |list|
            invariant FindResource(list, u.resourceId.value) == i + FindResource(list[i..], u.resourceId.value)
          {
            i := i + 1;
          }
          if i == |list| { return Refused; }
          if list[i].Multiple? {
            list := list[i].children;
            if list == [] { return Refused; }
          } else {
            list := [list[i]];
          }
        }
      }
    }
    r := DataStrip(list);
  }

  method Parse(uri: Option<Uri>, buf: string) returns (r: Outcome<seq<Data>>)
    ensures r == Parsed(uri, buf)
  {
    hide Scanned, BasePath, Selected, Converted;
    var t := ScanTop(buf);
    if t.None? { return Refused; }
    if t.value.records.None? { return Ok([]); }
    var base := FindBase(uri, buf, t.value);
    if base.None? { return Refused; }
    var parsed := ConvertRecord(base.value, t.value.records.value);
    match parsed {
      case Refused => return Refused;
      case Stuck => return Stuck;
      case Ok(tree) =>
        r := Select(uri, tree);
    }
  }
}
