/** The texts `json_parse` (src/lwm2m/core/json.c) takes for the same data: white space
    between the tokens, in whatever order the members and pairs come. */
module JsonLayout {
  import opened Text
  import opened Uris
  import opened JsonScan
  import opened JsonTree
  import opened JsonParse
  import opened JsonReadBack

  /** White space from `i` up to `j`. */
  predicate Blank(buf: string, i: nat, j: nat) {
    i <= j <= |buf| && forall k :: i <= k < j ==> buf[k] in {' ', '\t', '\n', '\r'}
  }

  lemma SkipBlank(buf: string, i: nat, j: nat)
    requires i <= j <= |buf|
    ensures Skip(buf, i) == j <==> Blank(buf, i, j) && (j < |buf| ==> buf[j] !in {' ', '\t', '\n', '\r'})
  {
    SkipClear(buf, i);
    if Blank(buf, i, j) && (j < |buf| ==> !IsWhiteSpace(buf[j])) { SkipUnique(buf, i, j); }
  }

  lemma BlankTo(buf: string, i: nat, j: nat)
    requires Blank(buf, i, j) && (j < |buf| ==> !IsWhiteSpace(buf[j]))
    ensures i <= j <= |buf| && Skip(buf, i) == j
  {
    SkipBlank(buf, i, j);
  }

  lemma BlankNext(buf: string, i: nat, j: nat)
    requires i < j < |buf| && Blank(buf, i + 1, j) && !IsWhiteSpace(buf[j])
    ensures Next(buf, i) == j
  {
    SkipBlank(buf, i + 1, j);
  }

  // ---------------------------------------------------------------- one pair

  /** A value: between quotes, or without them up to white space or a comma. */
  ghost predicate IsValue(v: string) {
    Bare(v) || IsQuoted(v)
  }

  ghost predicate IsQuoted(v: string) {
    exists q: string :: v == "\"" + q + "\"" && Quotable(q)
  }

  /** A quoted key and a colon, with white space around them up to position `value`. */
  ghost predicate KeyAt(buf: string, start: nat, key: nat, value: nat) {
    && 1 <= start <= key < |buf|
    && Blank(buf, 0, start - 1) && buf[start - 1] == '"' && buf[key] == '"'
    && (forall k :: start <= k < key ==> buf[k] !in {'"', ','})
    && exists colon: nat :: ColonAt(buf, key, colon, value)
  }

  /** The value from `i` up to `end`, with white space behind it up to a comma or the end. */
  ghost predicate ValueAt(buf: string, i: nat, end: nat, n: nat) {
    i < end <= n <= |buf| && IsValue(buf[i..end]) && Blank(buf, end, n) && (n < |buf| ==> buf[n] == ',')
  }

  /** The first `n` bytes are a pair. */
  ghost predicate IsPair(buf: string, n: nat, s: Scan) {
    && KeyAt(buf, s.tokenStart, s.tokenStart + s.tokenLen, s.valueStart)
    && ValueAt(buf, s.valueStart, s.valueStart + s.valueLen, n)
  }

  predicate ColonAt(buf: string, key: nat, colon: nat, value: nat) {
    key < colon < value <= |buf| && buf[colon] == ':' && Blank(buf, key + 1, colon) && Blank(buf, colon + 1, value)
  }

  lemma KeyRound(buf: string, i: nat, s: Scan)
    requires ScanBounds(buf, i, s) && s.step.InToken? && i < |buf| && buf[i] != ','
    ensures if buf[i] == '"' then
              var t := s.(step := AnySeparator, tokenLen := i - s.tokenStart);
              ScanBounds(buf, Skip(buf, i + 1), t) && SplitFrom(buf, i, s) == SplitFrom(buf, Skip(buf, i + 1), t)
            else ScanBounds(buf, i + 1, s) && SplitFrom(buf, i, s) == SplitFrom(buf, i + 1, s)
  {
    hide SplitFrom, Skip;
    SplitRound(buf, i, s);
  }

  lemma FindHere(buf: string, i: nat, stops: set<char>)
    requires i <= |buf|
    ensures i == |buf| || buf[i] in stops ==> Find(buf, i, stops) == i
    ensures i < |buf| && buf[i] !in stops ==> Find(buf, i, stops) == Find(buf, i + 1, stops)
  {}

  /** Inside the key: it ends at the first quote, unless a comma comes before. */
  lemma {:induction false} KeyPhase(buf: string, i: nat, s: Scan)
    requires ScanBounds(buf, i, s) && s.step.InToken?
    ensures var j := Find(buf, i, {'"', ','});
            if j < |buf| && buf[j] == '"' then
              var t := s.(step := AnySeparator, tokenLen := j - s.tokenStart);
              ScanBounds(buf, Skip(buf, j + 1), t) && SplitFrom(buf, i, s) == SplitFrom(buf, Skip(buf, j + 1), t)
            else SplitFrom(buf, i, s).None?
    decreases |buf| - i
  {
    hide SplitFrom, Skip, Find;
    FindHere(buf, i, {'"', ','});
    if i == |buf| || buf[i] == ',' {
      SplitEnd(buf, i, s);
    } else {
      KeyRound(buf, i, s);
      if buf[i] != '"' { KeyPhase(buf, i + 1, s); }
    }
  }

  lemma ColonPhase(buf: string, i: nat, s: Scan)
    requires ScanBounds(buf, i, s) && s.step.AnySeparator?
    ensures if i < |buf| && buf[i] == ':' then
              var t := s.(step := Separator);
              ScanBounds(buf, Skip(buf, i + 1), t) && SplitFrom(buf, i, s) == SplitFrom(buf, Skip(buf, i + 1), t)
            else SplitFrom(buf, i, s).None?
  {}

  lemma ValuePhase(buf: string, i: nat, s: Scan)
    requires ScanBounds(buf, i, s) && s.step.Separator?
    ensures if i < |buf| && buf[i] == '"' then
              var t := s.(step := QuotedValue, valueStart := i);
              ScanBounds(buf, i + 1, t) && SplitFrom(buf, i, s) == SplitFrom(buf, i + 1, t)
            else if i < |buf| && !IsReserved(buf[i]) then
              var t := s.(step := Value, valueStart := i);
              ScanBounds(buf, i + 1, t) && SplitFrom(buf, i, s) == SplitFrom(buf, i + 1, t)
            else SplitFrom(buf, i, s).None?
  {}

  /** The first comma, or quote that has no backslash before it. */
  function CloseQuote(buf: string, i: nat): (j: nat)
    requires 0 < i <= |buf|
    ensures i <= j <= |buf|
    ensures j < |buf| ==> buf[j] == ',' || (buf[j] == '"' && buf[j - 1] != '\\')
    ensures forall k :: i <= k < j ==> buf[k] != ',' && (buf[k] == '"' ==> buf[k - 1] == '\\')
    decreases |buf| - i
  {
    if i == |buf| || buf[i] == ',' || (buf[i] == '"' && buf[i - 1] != '\\') then i else CloseQuote(buf, i + 1)
  }

  predicate Closes(buf: string, i: nat)
    requires 0 < i < |buf|
  {
    buf[i] == '"' && buf[i - 1] != '\\'
  }

  lemma QuotedRound(buf: string, i: nat, s: Scan)
    requires ScanBounds(buf, i, s) && s.step.QuotedValue? && i < |buf| && buf[i] != ','
    ensures if Closes(buf, i) then
              var t := s.(step := Done, valueLen := i - s.valueStart + 1);
              ScanBounds(buf, Skip(buf, i + 1), t) && SplitFrom(buf, i, s) == SplitFrom(buf, Skip(buf, i + 1), t)
            else ScanBounds(buf, i + 1, s) && SplitFrom(buf, i, s) == SplitFrom(buf, i + 1, s)
  {
    hide SplitFrom, Skip;
    SplitRound(buf, i, s);
  }

  lemma CloseQuoteStep(buf: string, i: nat)
    requires 0 < i < |buf| && buf[i] != ','
    ensures CloseQuote(buf, i) == if Closes(buf, i) then i else CloseQuote(buf, i + 1)
  {}

  lemma CloseQuoteStops(buf: string, i: nat)
    requires 0 < i <= |buf| && (i == |buf| || buf[i] == ',')
    ensures CloseQuote(buf, i) == i
  {}

  lemma {:induction false} QuotedPhase(buf: string, i: nat, s: Scan)
    requires ScanBounds(buf, i, s) && s.step.QuotedValue?
    ensures var j := CloseQuote(buf, i);
            if j < |buf| && buf[j] == '"' then
              var t := s.(step := Done, valueLen := j - s.valueStart + 1);
              ScanBounds(buf, Skip(buf, j + 1), t) && SplitFrom(buf, i, s) == SplitFrom(buf, Skip(buf, j + 1), t)
            else SplitFrom(buf, i, s).None?
    decreases |buf| - i
  {
    hide *;
    BoundsPositive(buf, i, s);
    if i == |buf| || buf[i] == ',' {
      SplitEnd(buf, i, s);
      CloseQuoteStops(buf, i);
    } else {
      QuotedRound(buf, i, s);
      CloseQuoteStep(buf, i);
      if Closes(buf, i) { ClosesQuote(buf, i); } else { QuotedPhase(buf, i + 1, s); }
    }
  }

  lemma BoundsPositive(buf: string, i: nat, s: Scan)
    requires ScanBounds(buf, i, s) && s.step.QuotedValue?
    ensures 0 < i <= |buf|
  {}

  lemma ClosesQuote(buf: string, i: nat)
    requires 0 < i < |buf| && Closes(buf, i)
    ensures buf[i] == '"'
  {}

  lemma SkipOne(buf: string, i: nat)
    requires i < |buf| && IsWhiteSpace(buf[i])
    ensures Skip(buf, i) == Skip(buf, i + 1)
  {}

  const BARE_STOPS := {',', ' ', '\t', '\n', '\r'}

  lemma BareRound(buf: string, i: nat, s: Scan)
    requires ScanBounds(buf, i, s) && s.step.Value? && i < |buf| && buf[i] != ','
    ensures if IsWhiteSpace(buf[i]) then
              var t := s.(step := Done, valueLen := i - s.valueStart);
              ScanBounds(buf, Skip(buf, i + 1), t) && SplitFrom(buf, i, s) == SplitFrom(buf, Skip(buf, i + 1), t)
            else ScanBounds(buf, i + 1, s) && SplitFrom(buf, i, s) == SplitFrom(buf, i + 1, s)
  {
    hide SplitFrom, Skip;
    SplitRound(buf, i, s);
  }

  /** A bare value that ends the pair. */
  lemma BareLast(buf: string, i: nat, s: Scan)
    requires ScanBounds(buf, i, s) && s.step.Value? && (i == |buf| || buf[i] == ',')
    ensures var t := s.(step := Done, valueLen := i - s.valueStart);
            Skip(buf, i) == i && ScanBounds(buf, i, t) && SplitFrom(buf, i, s) == SplitFrom(buf, i, t)
  {
    hide SplitFrom, Skip;
    SplitEnd(buf, i, s);
    SkipBlank(buf, i, i);
    SplitEnd(buf, i, s.(step := Done, valueLen := i - s.valueStart));
  }

  lemma {:induction false} BarePhase(buf: string, i: nat, s: Scan)
    requires ScanBounds(buf, i, s) && s.step.Value?
    ensures var j := Find(buf, i, BARE_STOPS);
            var t := s.(step := Done, valueLen := j - s.valueStart);
            ScanBounds(buf, Skip(buf, j), t) && SplitFrom(buf, i, s) == SplitFrom(buf, Skip(buf, j), t)
    decreases |buf| - i
  {
    hide SplitFrom, Skip, Find;
    FindHere(buf, i, BARE_STOPS);
    if i == |buf| || buf[i] == ',' {
      BareLast(buf, i, s);
    } else {
      BareRound(buf, i, s);
      if IsWhiteSpace(buf[i]) { SkipOne(buf, i); } else { BarePhase(buf, i + 1, s); }
    }
  }

  lemma EndPhase(buf: string, i: nat, s: Scan)
    requires ScanBounds(buf, i, s) && s.step.Done?
    ensures SplitFrom(buf, i, s) == if i == |buf| || buf[i] == ',' then Some((i, s)) else None
  {}

  lemma {:induction false} CloseQuoteUnique(buf: string, i: nat, j: nat)
    requires 0 < i <= j < |buf| && Closes(buf, j)
    requires forall k :: i <= k < j ==> buf[k] != ',' && !Closes(buf, k)
    ensures CloseQuote(buf, i) == j
    decreases j - i
  {
    if i < j { CloseQuoteUnique(buf, i + 1, j); }
  }

  lemma QuotedEnd(buf: string, i: nat, end: nat, q: string)
    requires i < end <= |buf| && buf[i..end] == "\"" + q + "\"" && Quotable(q)
    ensures CloseQuote(buf, i + 1) == end - 1 && buf[end - 1] == '"'
  {
    hide CloseQuote;
    var v, j := buf[i..end], end - 1;
    assert v[|q| + 1] == buf[j] && v[|q|] == buf[j - 1];
    forall k | i + 1 <= k < j
      ensures buf[k] != ',' && !Closes(buf, k)
    {
      assert v[k - i] == q[k - i - 1] && Escaped(q, k - i - 1);
      if k - i - 1 > 0 { assert v[k - i - 1] == q[k - i - 2]; }
    }
    CloseQuoteUnique(buf, i + 1, j);
  }

  lemma QuotedInside(buf: string, i: nat)
    requires i < |buf| && buf[i] == '"'
    requires CloseQuote(buf, i + 1) < |buf| && buf[CloseQuote(buf, i + 1)] == '"'
    ensures Quotable(buf[i + 1..CloseQuote(buf, i + 1)])
  {
    hide CloseQuote;
    var j := CloseQuote(buf, i + 1);
    var q := buf[i + 1..j];
    forall k | 0 <= k < |q|
      ensures q[k] != ',' && Escaped(q, k)
    {
      assert q[k] == buf[i + 1 + k];
      if k > 0 { assert q[k - 1] == buf[i + k]; }
    }
  }

  lemma ReservedNotBare(v: string)
    requires v != "" && IsReserved(v[0])
    ensures !Bare(v)
  {}

  /** A quoted value ends at the quote that closes it. */
  lemma QuotedExact(buf: string, i: nat, end: nat)
    requires i < end <= |buf| && buf[i] == '"'
    ensures IsValue(buf[i..end]) <==> end == CloseQuote(buf, i + 1) + 1 && buf[end - 1] == '"'
  {
    hide Quotable, Bare, CloseQuote;
    var v, j := buf[i..end], CloseQuote(buf, i + 1);
    assert v[0] == '"';
    ReservedNotBare(v);
    if q: string :| v == "\"" + q + "\"" && Quotable(q) {
      QuotedEnd(buf, i, end, q);
    }
    if end == j + 1 && buf[j] == '"' {
      QuotedInside(buf, i);
      SliceQuoted(buf, i, j);
    }
  }

  lemma SliceQuoted(buf: string, i: nat, j: nat)
    requires i < j < |buf| && buf[i] == '"' && buf[j] == '"'
    ensures buf[i..j + 1] == "\"" + buf[i + 1..j] + "\""
  {}

  /** A bare value ends at white space, a comma or the end. */
  lemma BareExact(buf: string, i: nat, end: nat)
    requires i < end <= |buf| && !IsReserved(buf[i]) && buf[i] !in BARE_STOPS
    requires end < |buf| ==> buf[end] in BARE_STOPS
    ensures IsValue(buf[i..end]) <==> end == Find(buf, i + 1, BARE_STOPS)
  {
    var v := buf[i..end];
    assert v[0] == buf[i];
    if IsValue(v) {
      forall k | i + 1 <= k < end
        ensures buf[k] !in BARE_STOPS
      {
        assert buf[k] == v[k - i];
      }
      FindUnique(buf, i + 1, BARE_STOPS, end);
    }
    if end == Find(buf, i + 1, BARE_STOPS) {
      FindClear(buf, i + 1, BARE_STOPS);
    }
  }

  lemma {:induction false} FindClear(buf: string, i: nat, stops: set<char>)
    requires i <= |buf|
    ensures forall k :: i <= k < Find(buf, i, stops) ==> buf[k] !in stops
    decreases |buf| - i
  {
    if i < |buf| && buf[i] !in stops { FindClear(buf, i + 1, stops); }
  }

  function PairFound(buf: string, n: nat, d: Scan): Option<(nat, Scan)>
    requires n <= |buf|
  {
    if n == |buf| || buf[n] == ',' then Some((n, d)) else None
  }

  lemma QuotedOutcome(buf: string, i: nat, s: Scan)
    requires ScanBounds(buf, i, s) && s.step.Separator? && i < |buf| && buf[i] == '"'
    ensures var j := CloseQuote(buf, i + 1);
            SplitFrom(buf, i, s) ==
              if j < |buf| && buf[j] == '"' then
                PairFound(buf, Skip(buf, j + 1), s.(step := Done, valueStart := i, valueLen := j + 1 - i))
              else None
  {
    hide SplitFrom, Skip, CloseQuote;
    ValuePhase(buf, i, s);
    var t := s.(step := QuotedValue, valueStart := i);
    QuotedPhase(buf, i + 1, t);
    var j := CloseQuote(buf, i + 1);
    if j < |buf| && buf[j] == '"' { EndPhase(buf, Skip(buf, j + 1), t.(step := Done, valueLen := j - i + 1)); }
  }

  lemma BareOutcome(buf: string, i: nat, s: Scan)
    requires ScanBounds(buf, i, s) && s.step.Separator? && i < |buf| && !IsReserved(buf[i])
    ensures var j := Find(buf, i + 1, BARE_STOPS);
            SplitFrom(buf, i, s) == PairFound(buf, Skip(buf, j), s.(step := Done, valueStart := i, valueLen := j - i))
  {
    hide SplitFrom, Skip, Find, IsReserved;
    NotQuote(buf[i]);
    ValuePhase(buf, i, s);
    var t := s.(step := Value, valueStart := i);
    BarePhase(buf, i + 1, t);
    var j := Find(buf, i + 1, BARE_STOPS);
    EndPhase(buf, Skip(buf, j), t.(step := Done, valueLen := j - i));
  }

  lemma NotQuote(c: char)
    requires !IsReserved(c)
    ensures c != '"'
  {}

  /** What a value that ends at `end` leaves. */
  function ValueScan(s: Scan, i: nat, end: nat): Scan
    requires i < end
  {
    s.(step := Done, valueStart := i, valueLen := end - i)
  }

  lemma QuotedTail(buf: string, i: nat, s: Scan, end: nat, n: nat)
    requires ScanBounds(buf, i, s) && s.step.Separator? && i < |buf| && buf[i] == '"' && i < end
    ensures SplitFrom(buf, i, s) == Some((n, ValueScan(s, i, end))) <==> ValueAt(buf, i, end, n)
  {
    hide SplitFrom, Skip, CloseQuote, IsValue;
    QuotedOutcome(buf, i, s);
    if end <= |buf| { QuotedExact(buf, i, end); }
    if end <= n <= |buf| { SkipBlank(buf, end, n); }
  }

  lemma BareTail(buf: string, i: nat, s: Scan, end: nat, n: nat)
    requires ScanBounds(buf, i, s) && s.step.Separator? && i < |buf| && i < end
    requires !IsReserved(buf[i]) && !IsWhiteSpace(buf[i])
    ensures SplitFrom(buf, i, s) == Some((n, ValueScan(s, i, end))) <==> ValueAt(buf, i, end, n)
  {
    hide SplitFrom, Skip, IsValue, Find, IsReserved, ScanBounds;
    var j := Find(buf, i + 1, BARE_STOPS);
    FindStops(buf, i + 1, BARE_STOPS);
    BareOutcome(buf, i, s);
    BareLimit(buf, i, end, n, j);
    if end <= n <= |buf| { SkipBlank(buf, end, n); }
  }

  lemma BareLimit(buf: string, i: nat, end: nat, n: nat, j: nat)
    requires i < |buf| && i < end && !IsReserved(buf[i]) && !IsWhiteSpace(buf[i]) && j == Find(buf, i + 1, BARE_STOPS)
    ensures ValueAt(buf, i, end, n) ==> end == j
    ensures end == j ==> i < end <= |buf| && IsValue(buf[i..end])
  {
    hide IsValue, Find;
    FindStops(buf, i + 1, BARE_STOPS);
    ReservedComma(buf[i]);
    if end <= |buf| && (end < |buf| ==> buf[end] in BARE_STOPS) { BareExact(buf, i, end); }
  }

  lemma FindStops(buf: string, i: nat, stops: set<char>)
    requires i <= |buf|
    ensures var j := Find(buf, i, stops); i <= j <= |buf| && (j < |buf| ==> buf[j] in stops)
  {}

  lemma ReservedComma(c: char)
    requires !IsReserved(c)
    ensures c != ',' && c != '"'
  {}

  /** Behind the colon. */
  lemma ValueTail(buf: string, i: nat, s: Scan, end: nat, n: nat)
    requires ScanBounds(buf, i, s) && s.step.Separator? && (i < |buf| ==> !IsWhiteSpace(buf[i])) && i < end
    ensures SplitFrom(buf, i, s) == Some((n, ValueScan(s, i, end))) <==> ValueAt(buf, i, end, n)
  {
    hide SplitFrom, IsReserved;
    if i < |buf| && buf[i] == '"' {
      QuotedTail(buf, i, s, end, n);
    } else if i < |buf| && !IsReserved(buf[i]) {
      BareTail(buf, i, s, end, n);
    } else {
      ValuePhase(buf, i, s);
      if ValueAt(buf, i, end, n) { ValueStarts(buf[i..end]); }
    }
  }

  lemma ValueStarts(v: string)
    requires IsValue(v)
    ensures v != "" && (v[0] == '"' || !IsReserved(v[0])) && !IsWhiteSpace(v[0])
  {}

  lemma StartPhase(buf: string, i: nat)
    requires i < |buf|
    ensures if buf[i] == '"' then
              var t := Scan(InToken, i + 1, 0, 0, 0);
              ScanBounds(buf, i + 1, t) && SplitFrom(buf, i, NO_SCAN) == SplitFrom(buf, i + 1, t)
            else SplitFrom(buf, i, NO_SCAN).None?
  {}

  function KeyScan(start: nat, key: nat): Scan
    requires start <= key
  {
    Scan(Separator, start, key - start, 0, 0)
  }

  /** Up to the value. */
  lemma KeyComplete(buf: string, start: nat, key: nat, value: nat)
    requires KeyAt(buf, start, key, value) && (value < |buf| ==> !IsWhiteSpace(buf[value]))
    ensures ScanBounds(buf, value, KeyScan(start, key))
    ensures Split(buf) == SplitFrom(buf, value, KeyScan(start, key))
  {
    hide SplitFrom, Skip, Find, Blank, Split;
    var colon: nat :| ColonAt(buf, key, colon, value);
    BlankTo(buf, 0, start - 1);
    SplitStart(buf, start - 1);
    FindUnique(buf, start, {'"', ','}, key);
    KeyColon(buf, start, key, colon, value);
  }

  lemma SplitStart(buf: string, i: nat)
    requires i < |buf| && Skip(buf, 0) == i && buf[i] == '"'
    ensures var s := Scan(InToken, i + 1, 0, 0, 0);
            ScanBounds(buf, i + 1, s) && Split(buf) == SplitFrom(buf, i + 1, s)
  {
    hide SplitFrom, Skip;
    StartPhase(buf, i);
  }

  /** From the first letter of the key to the value. */
  lemma KeyColon(buf: string, start: nat, key: nat, colon: nat, value: nat)
    requires 1 <= start <= key < |buf| && buf[key] == '"' && Find(buf, start, {'"', ','}) == key
    requires ColonAt(buf, key, colon, value) && (value < |buf| ==> !IsWhiteSpace(buf[value]))
    requires ScanBounds(buf, start, Scan(InToken, start, 0, 0, 0))
    ensures ScanBounds(buf, value, KeyScan(start, key))
    ensures SplitFrom(buf, start, Scan(InToken, start, 0, 0, 0)) == SplitFrom(buf, value, KeyScan(start, key))
  {
    hide SplitFrom, Skip, Find, Blank, ScanBounds;
    var s := Scan(InToken, start, 0, 0, 0);
    KeyPhase(buf, start, s);
    BlankTo(buf, key + 1, colon);
    ColonPhase(buf, colon, s.(step := AnySeparator, tokenLen := key - start));
    BlankTo(buf, colon + 1, value);
  }

  lemma KeySound(buf: string) returns (start: nat, key: nat, value: nat)
    requires Split(buf).Some?
    ensures KeyAt(buf, start, key, value) && (value < |buf| ==> !IsWhiteSpace(buf[value]))
  {
    hide SplitFrom, Skip, Find;
    start := Skip(buf, 0) + 1;
    SkipFacts(buf, 0);
    StartPhase(buf, start - 1);
    var s := Scan(InToken, start, 0, 0, 0);
    KeyPhase(buf, start, s);
    key := Find(buf, start, {'"', ','});
    FindStops(buf, start, {'"', ','});
    FindClear(buf, start, {'"', ','});
    var colon := Skip(buf, key + 1);
    SkipFacts(buf, key + 1);
    ColonPhase(buf, colon, s.(step := AnySeparator, tokenLen := key - start));
    value := Skip(buf, colon + 1);
    SkipFacts(buf, colon + 1);
    assert ColonAt(buf, key, colon, value);
  }

  lemma SkipFacts(buf: string, i: nat)
    requires i <= |buf|
    ensures var j := Skip(buf, i); i <= j <= |buf| && Blank(buf, i, j) && (j < |buf| ==> !IsWhiteSpace(buf[j]))
  {
    SkipBlank(buf, i, Skip(buf, i));
  }

  /** Behind the colon nothing but the value is still open. */
  lemma ValueShape(buf: string, i: nat, s: Scan)
    requires ScanBounds(buf, i, s) && s.step.Separator? && (i < |buf| ==> !IsWhiteSpace(buf[i]))
    requires SplitFrom(buf, i, s).Some?
    ensures var t := SplitFrom(buf, i, s).value.1;
            i < |buf| && t.valueLen > 0 && t == ValueScan(s, i, i + t.valueLen)
  {
    hide SplitFrom, Skip, Find, CloseQuote, IsReserved;
    if i < |buf| && buf[i] == '"' {
      QuotedOutcome(buf, i, s);
      CloseBehind(buf, i + 1);
    } else if i < |buf| && !IsReserved(buf[i]) {
      BareOutcome(buf, i, s);
      FindStops(buf, i + 1, BARE_STOPS);
    } else {
      ValuePhase(buf, i, s);
    }
  }

  lemma CloseBehind(buf: string, i: nat)
    requires 0 < i <= |buf|
    ensures CloseQuote(buf, i) >= i
  {}

  /** The splitter takes exactly the pairs. */
  lemma SplitExact(buf: string, n: nat, s: Scan)
    requires s.step.Done?
    ensures Split(buf) == Some((n, s)) <==> IsPair(buf, n, s)
  {
    hide Split, SplitFrom, KeyAt, IsValue;
    var key, end := s.tokenStart + s.tokenLen, s.valueStart + s.valueLen;
    if Split(buf) == Some((n, s)) {
      var start, k, value := KeySound(buf);
      KeyInside(buf, start, k, value);
      KeyComplete(buf, start, k, value);
      ValueShape(buf, value, KeyScan(start, k));
      ValueTail(buf, value, KeyScan(start, k), end, n);
    }
    if IsPair(buf, n, s) {
      ValueStarts(buf[s.valueStart..end]);
      KeyComplete(buf, s.tokenStart, key, s.valueStart);
      ValueTail(buf, s.valueStart, KeyScan(s.tokenStart, key), end, n);
    }
  }

  lemma KeyInside(buf: string, start: nat, key: nat, value: nat)
    requires KeyAt(buf, start, key, value)
    ensures 1 <= start <= key < value <= |buf|
  {}

  // ---------------------------------------------------------------- one item

  /** The first `n` bytes are a pair of this key and this value. */
  ghost predicate PairIs(t: string, n: nat, key: string, value: string) {
    exists s: Scan :: s.step.Done? && PairOf(t, n, s, key, value)
  }

  ghost predicate PairOf(t: string, n: nat, s: Scan, key: string, value: string) {
    && IsPair(t, n, s)
    && t[s.tokenStart..s.tokenStart + s.tokenLen] == key && t[s.valueStart..s.valueStart + s.valueLen] == value
  }

  lemma PairTaken(t: string, n: nat, key: string, value: string) returns (s: Scan)
    requires PairIs(t, n, key, value)
    ensures Split(t) == Some((n, s)) && ScanBounds(t, n, s) && s.step.Done? && n <= |t|
    ensures TokenOf(t, s) == key && ValueOf(t, s) == value
    ensures n >= 3 + |key| + |value|
  {
    hide Split, IsValue;
    s :| s.step.Done? && PairOf(t, n, s, key, value);
    SplitExact(t, n, s);
  }

  /** A quoted path, with or without a leading slash. */
  predicate Names(name: string, path: seq<nat>)
    requires path != []
  {
    name == "\"" + PathStr(path) + "\"" || name == "\"/" + PathStr(path) + "\""
  }

  function ValueKey(d: Data): string
    requires IsLeaf(d)
  {
    if d.Integer? then "v" else if d.Boolean? then "bv" else "sv"
  }

  function RawValue(d: Data): string
    requires IsLeaf(d)
  {
    match d
    case Integer(_, v) => (if v < 0 then "-" else "") + Magnitude(v)
    case Boolean(_, flag) => if flag then "true" else "false"
    case Str(_, text) => "\"" + text + "\""
  }

  /** The text between the braces of an item: its name and its value in either order. */
  ghost predicate IsItem(t: string, e: Entry) {
    exists n: nat, name: string ::
      Names(name, e.path) && n + 1 < |t| && t[n] == ','
      && (|| (PairIs(t, n, "n", name) && PairIs(t[n + 1..], |t| - n - 1, ValueKey(e.leaf), RawValue(e.leaf)))
          || (PairIs(t, n, ValueKey(e.leaf), RawValue(e.leaf)) && PairIs(t[n + 1..], |t| - n - 1, "n", name)))
  }

  lemma NameTaken(name: string, path: seq<nat>)
    requires 1 <= |path| <= 4 && Names(name, path) && forall k :: 0 <= k < |path| ==> path[k] < MAX_ID
    ensures |name| >= 3 && NameIds(name, NO_RECORD.ids) == Some(IdsOfPath(path))
  {
    hide PathStr, PathIds;
    var p := PathStr(path);
    NameRead(path);
    PathRead(path);
    PathQuotable(path);
    if name == "\"/" + p + "\"" { assert name[2..|name| - 1] == p; }
  }

  lemma ValueTaken(d: Data, rec: Record)
    requires IsLeaf(d) && rec.kind.Unset?
    ensures |RawValue(d)| > 0 && ApplyPair(ValueKey(d), RawValue(d), rec) == Some(WithValue(d, rec))
  {
    hide Magnitude;
    match d {
      case Integer(_, v) =>
      case Boolean(_, flag) =>
        assert "true"[..4] == "true" && "false"[..5] == "false" && "false"[..4] == "fals";
      case Str(_, text) =>
        var v := RawValue(d);
        assert v[1..|v| - 1] == text;
    }
  }

  /** The pair in front of an item. */
  lemma ItemNext(t: string, n: nat, s: Scan, mid: Record)
    requires Split(t) == Some((n, s)) && ScanBounds(t, n, s) && s.step.Done? && n + 1 < |t|
    requires ApplyPair(TokenOf(t, s), ValueOf(t, s), NO_RECORD) == Some(mid)
    ensures ItemFrom(t, 0, NO_RECORD) == ItemFrom(t, n + 1, mid)
  {
    hide Split, ApplyPair, ScanBounds;
    assert t[0..] == t;
  }

  lemma PairApplied(t: string, key: string, value: string, rec: Record, out: Record)
    requires PairIs(t, |t|, key, value) && value != "" && ApplyPair(key, value, rec) == Some(out)
    ensures PairYields(t, rec, out)
  {
    hide Split, ApplyPair, PairIs, ScanBounds;
    var s := PairTaken(t, |t|, key, value);
  }

  /** Two pairs with a comma between them. */
  lemma TwoPairs(t: string, n: nat, k1: string, v1: string, k2: string, v2: string, mid: Record, out: Record)
    requires n + 1 < |t| && t[n] == ',' && PairIs(t, n, k1, v1) && PairIs(t[n + 1..], |t| - n - 1, k2, v2)
    requires v1 != "" && ApplyPair(k1, v1, NO_RECORD) == Some(mid)
    requires v2 != "" && ApplyPair(k2, v2, mid) == Some(out)
    ensures ItemFrom(t, 0, NO_RECORD) == Some(out)
    ensures |t| >= 7 + |k1| + |v1| + |k2| + |v2|
  {
    hide Split, ApplyPair, PairIs, ItemFrom, ScanBounds, PairYields;
    var s1 := PairTaken(t, n, k1, v1);
    var s2 := PairTaken(t[n + 1..], |t| - n - 1, k2, v2);
    PairApplied(t[n + 1..], k2, v2, mid, out);
    ItemSecond(t, n + 1, mid, out);
    ItemNext(t, n, s1, mid);
  }

  lemma ItemTaken(t: string, e: Entry)
    requires IsItem(t, e) && GoodEntry(e)
    ensures ItemFrom(t, 0, NO_RECORD) == Some(RecordOf(e)) && |t| >= 13
  {
    hide PairIs, NameIds, ItemFrom, PathStr, Magnitude, IdsOfPath, RawValue;
    var n: nat, name :| Names(name, e.path) && n + 1 < |t| && t[n] == ','
      && (|| (PairIs(t, n, "n", name) && PairIs(t[n + 1..], |t| - n - 1, ValueKey(e.leaf), RawValue(e.leaf)))
          || (PairIs(t, n, ValueKey(e.leaf), RawValue(e.leaf)) && PairIs(t[n + 1..], |t| - n - 1, "n", name)));
    NameTaken(name, e.path);
    var ids, k, v := IdsOfPath(e.path), ValueKey(e.leaf), RawValue(e.leaf);
    var named := NO_RECORD.(ids := ids);
    ValueTaken(e.leaf, NO_RECORD);
    ValueTaken(e.leaf, named);
    if PairIs(t, n, "n", name) && PairIs(t[n + 1..], |t| - n - 1, k, v) {
      TwoPairs(t, n, "n", name, k, v, named, RecordOf(e));
    } else {
      TwoPairs(t, n, k, v, "n", name, WithValue(e.leaf, NO_RECORD), RecordOf(e));
    }
  }

  // ---------------------------------------------------------------- the array

  /** An item in braces, and the white space behind it up to `next`. */
  ghost predicate GroupAt(buf: string, i: nat, close: nat, next: nat, e: Entry) {
    && i + 1 < close < next < |buf| && buf[i] == '{' && buf[close] == '}'
    && (forall k :: i < k < close ==> buf[k] !in {'{', '}'})
    && IsItem(Sub(buf, i + 1, close), e) && Blank(buf, close + 1, next)
  }

  /** The items of the entries, with commas between them, and the bracket at `end`. */
  ghost predicate ItemsAt(buf: string, i: nat, es: seq<Entry>, end: nat)
    decreases |es|, 0
  {
    es != [] && exists close: nat, next: nat :: GroupAt(buf, i, close, next, es[0]) && RestAt(buf, next, es[1..], end)
  }

  ghost predicate RestAt(buf: string, next: nat, es: seq<Entry>, end: nat)
    decreases |es|, 1
  {
    && next < |buf|
    && if es == [] then buf[next] == ']' && end == next
       else buf[next] == ',' && exists j: nat :: Blank(buf, next + 1, j) && ItemsAt(buf, j, es, end)
  }

  /** The counter runs over an item to its closing brace, and so does the loop. */
  lemma GroupRun(buf: string, i: nat, close: nat, next: nat, e: Entry)
    requires GroupAt(buf, i, close, next, e)
    ensures CountFrom(buf, i, false) == CountFrom(buf, close, true)
    ensures Find(buf, i, {'}'}) == close
  {
    hide CountFrom, IsItem, Skip;
    SkipStops(buf, i + 1, close);
    NextIsSkip(buf, i);
    OpenBrace(buf, i);
    BraceRun(buf, Next(buf, i), close);
    FindUnique(buf, i, {'}'}, close);
  }

  /** Behind the closing brace. */
  lemma GroupEnd(buf: string, close: nat, next: nat)
    requires close < next < |buf| && buf[close] == '}' && Blank(buf, close + 1, next)
    ensures buf[next] in {']', ','} ==> Next(buf, close) == next
    ensures buf[next] == ']' ==> CountFrom(buf, close, true) == Some(1)
    ensures buf[next] == ',' && Next(buf, next) < |buf| ==>
              CountFrom(buf, close, true) == Plus(CountFrom(buf, Next(buf, next), false), 1)
  {
    hide Skip;
    SkipBlank(buf, close + 1, next);
    NextIsSkip(buf, close);
  }

  lemma ItemStarts(buf: string, j: nat, es: seq<Entry>, end: nat)
    requires ItemsAt(buf, j, es, end)
    ensures j < |buf| && buf[j] == '{'
  {
    hide IsItem;
  }

  lemma NextItem(buf: string, next: nat, es: seq<Entry>, end: nat) returns (j: nat)
    requires RestAt(buf, next, es, end) && es != []
    ensures next < |buf| && buf[next] == ',' && Blank(buf, next + 1, j) && ItemsAt(buf, j, es, end)
  {
    hide GroupAt;
    j :| Blank(buf, next + 1, j) && ItemsAt(buf, j, es, end);
  }

  lemma LastGroup(buf: string, i: nat, close: nat, next: nat, e: Entry)
    requires GroupAt(buf, i, close, next, e) && GoodEntry(e) && buf[next] == ']'
    ensures i + 15 <= next && CountFrom(buf, i, false) == Some(1)
    ensures Items(buf, i, 1) == Some(([RecordOf(e)], next))
  {
    hide CountFrom, Items, IsItem, ItemFrom, Skip, Find, GoodEntry, RecordOf;
    ItemTaken(Sub(buf, i + 1, close), e);
    GroupRun(buf, i, close, next, e);
    GroupEnd(buf, close, next);
    ItemsStep(buf, i, 1);
  }

  lemma NextGroup(buf: string, i: nat, close: nat, next: nat, j: nat, e: Entry, c: nat, rest: seq<Record>, end: nat)
    requires GroupAt(buf, i, close, next, e) && GoodEntry(e) && buf[next] == ',' && c > 0
    requires next < j < |buf| && Next(buf, next) == j
    requires CountFrom(buf, j, false) == Some(c) && Items(buf, j, c) == Some((rest, end))
    ensures CountFrom(buf, i, false) == Some(c + 1)
    ensures Items(buf, i, c + 1) == Some(([RecordOf(e)] + rest, end))
  {
    hide CountFrom, Items, IsItem, ItemFrom, Skip, Find, GoodEntry, RecordOf, Next;
    ItemTaken(Sub(buf, i + 1, close), e);
    GroupRun(buf, i, close, next, e);
    GroupEnd(buf, close, next);
    PlusOne(CountFrom(buf, j, false), c);
    ItemsStep(buf, i, c + 1);
    PrependOne(RecordOf(e), rest, end);
  }

  lemma GroupLong(buf: string, i: nat, close: nat, next: nat, e: Entry)
    requires GroupAt(buf, i, close, next, e)
    ensures i < next < |buf|
  {
    hide IsItem;
  }

  lemma RestEnds(buf: string, next: nat, end: nat)
    requires RestAt(buf, next, [], end)
    ensures next < |buf| && buf[next] == ']' && end == next
  {}

  /** The counter counts the entries and the item loop returns their records. */
  lemma {:induction false} ItemsTaken(buf: string, i: nat, es: seq<Entry>, end: nat)
    requires ItemsAt(buf, i, es, end) && GoodEntries(es)
    ensures i + 15 <= end < |buf| && buf[end] == ']' && CountFrom(buf, i, false) == Some(|es|)
    ensures Items(buf, i, |es|) == Some((Records(es), end))
    decreases |es|
  {
    hide CountFrom, Items, Records, Skip, GoodEntry, GoodEntries, RecordOf, GroupAt, RestAt;
    var close: nat, next: nat :| GroupAt(buf, i, close, next, es[0]) && RestAt(buf, next, es[1..], end);
    EntriesFirst(es);
    GroupLong(buf, i, close, next, es[0]);
    if es[1..] == [] {
      RestEnds(buf, next, end);
      LastGroup(buf, i, close, next, es[0]);
    } else {
      var j := NextItem(buf, next, es[1..], end);
      ItemStarts(buf, j, es[1..], end);
      BlankNext(buf, next, j);
      ItemsTaken(buf, j, es[1..], end);
      NextGroup(buf, i, close, next, j, es[0], |es| - 1, Records(es[1..]), end);
    }
  }

  // ---------------------------------------------------------------- the members

  /** The member `e` whose quote is at `p`; its array ends at `end`. */
  ghost predicate ArrayAt(buf: string, p: nat, es: seq<Entry>, end: nat) {
    && At(buf, p, "\"e\"")
    && exists colon: nat, bracket: nat, first: nat :: Opening(buf, p, colon, bracket, first)
                                                     && ItemsAt(buf, first, es, end)
  }

  /** What stands between the key at `p` and the first item. */
  predicate Opening(buf: string, p: nat, colon: nat, bracket: nat, first: nat) {
    && colon < bracket < first
    && Blank(buf, p + 3, colon) && Blank(buf, colon + 1, bracket) && Blank(buf, bracket + 1, first)
    && buf[colon] == ':' && buf[bracket] == '['
  }

  lemma ArrayTaken(buf: string, p: nat, es: seq<Entry>, end: nat, t: Top)
    requires ArrayAt(buf, p, es, end) && GoodEntries(es) && end + 1 < |buf|
    requires TopBounds(buf, t) && t.records.None?
    ensures p < end && Member(buf, p, t) == Some((t.(records := Some(Records(es))), end))
  {
    hide ItemsAt, GoodEntries, Items, CountFrom, Skip, Records, Next;
    var key := "\"e\"";
    assert buf[p + 0] == key[0] && buf[p + 1] == key[1] && buf[p + 2] == key[2];
    var colon: nat, bracket: nat, first: nat :| Opening(buf, p, colon, bracket, first) && ItemsAt(buf, first, es, end);
    ItemsTaken(buf, first, es, end);
    ItemStarts(buf, first, es, end);
    SkipBlank(buf, p + 3, colon);
    SkipBlank(buf, colon + 1, bracket);
    SkipBlank(buf, bracket + 1, first);
    NextIsSkip(buf, p + 2);
    NextIsSkip(buf, colon);
    NextIsSkip(buf, bracket);
    MemberKinds(buf, p, t);
  }

  /** The member `bn` whose quote is at `p`, with the base path in quotes; it is followed by a
      comma or the closing brace at `q`. */
  ghost predicate BaseMemberAt(buf: string, p: nat, base: string, q: nat) {
    && p + 4 < q < |buf| && buf[q] in {',', '}'} && (forall k :: p <= k < q ==> buf[k] !in {',', '}'})
    && At(buf, p, "\"bn\"") && PairIs(Sub(buf, p, q), q - p, "bn", "\"" + base + "\"")
  }

  /** What the scan notes of a base path. */
  ghost predicate Noted(buf: string, place: (nat, nat), base: string) {
    place.1 > 0 && place.0 + place.1 <= |buf| && Sub(buf, place.0, place.0 + place.1) == "\"" + base + "\""
  }

  lemma BaseKey(buf: string, p: nat)
    requires At(buf, p, "\"bn\"")
    ensures p + 4 <= |buf| && buf[p] == '"' && buf[p + 1] == 'b' && buf[p + 2] == 'n' && buf[p + 3] == '"'
  {
    var key := "\"bn\"";
    assert buf[p + 0] == key[0] && buf[p + 1] == key[1] && buf[p + 2] == key[2] && buf[p + 3] == key[3];
  }

  lemma BaseMemberTaken(buf: string, p: nat, base: string, q: nat, t: Top) returns (place: (nat, nat))
    requires BaseMemberAt(buf, p, base, q) && TopBounds(buf, t) && t.bn.None?
    ensures p + 1 < q && Noted(buf, place, base) && Member(buf, p, t) == Some((t.(bn := Some(place)), q - 1))
  {
    hide Split, Find, Skip, PairIs, At, Items, CountFrom;
    BaseKey(buf, p);
    var s := PairTaken(Sub(buf, p, q), q - p, "bn", "\"" + base + "\"");
    place := (s.valueStart + p, s.valueLen);
    FindUnique(buf, p, {',', '}'}, q);
    SubSub(buf, p, q, s.valueStart, s.valueStart + s.valueLen);
    MemberKinds(buf, p, t);
  }

  lemma SubSub(buf: string, p: nat, q: nat, a: nat, b: nat)
    requires p <= q <= |buf| && a <= b <= q - p
    ensures Sub(buf, p, q)[a..b] == Sub(buf, p + a, p + b)
  {
    var x, y := Sub(buf, p, q)[a..b], Sub(buf, p + a, p + b);
    forall k | 0 <= k < b - a
      ensures x[k] == y[k]
    {
      assert x[k] == buf[p + (a + k)];
    }
    assert x == y;
  }

  /** The member `bt` is skipped up to the comma or brace behind it, once. */
  lemma TimeSkipped(buf: string, p: nat, q: nat, t: Top)
    requires At(buf, p, "\"bt\"") && p + 4 <= q < |buf| && buf[q] in {',', '}'} && TopBounds(buf, t)
    requires p + 6 <= |buf|
    requires forall k :: p <= k < q ==> buf[k] !in {',', '}'}
    ensures Member(buf, p, t) == if t.bt then None else Some((t.(bt := true), q - 1))
  {
    hide Items, CountFrom, Split, Skip, Find;
    var key := "\"bt\"";
    assert buf[p + 0] == key[0] && buf[p + 1] == key[1] && buf[p + 2] == key[2] && buf[p + 3] == key[3];
    FindUnique(buf, p + 3, {',', '}'}, q);
    MemberKinds(buf, p, t);
  }

  // ---------------------------------------------------------------- the whole text

  /** The end of the text: whatever stands behind the closing brace is not read. */
  predicate Closing(buf: string, end: nat, z: nat) {
    end < z < |buf| && Blank(buf, end + 1, z) && buf[z] == '}'
  }

  predicate Comma(buf: string, i: nat, c: nat, next: nat) {
    i < c < next < |buf| && Blank(buf, i + 1, c) && buf[c] == ',' && Blank(buf, c + 1, next)
  }

  /** The array alone. */
  ghost predicate Alone(buf: string, a: nat, es: seq<Entry>) {
    exists end: nat, z: nat :: ArrayAt(buf, a, es, end) && Closing(buf, end, z)
  }

  /** The base path, then the array. */
  ghost predicate BaseFirst(buf: string, a: nat, base: string, es: seq<Entry>) {
    exists q: nat, next: nat :: BaseMemberAt(buf, a, base, q) && Comma(buf, q - 1, q, next) && Alone(buf, next, es)
  }

  /** The array, then the base path. */
  ghost predicate BaseLast(buf: string, a: nat, base: string, es: seq<Entry>) {
    exists end: nat, c: nat, next: nat, q: nat ::
      ArrayAt(buf, a, es, end) && Comma(buf, end, c, next) && BaseMemberAt(buf, next, base, q) && buf[q] == '}'
  }

  ghost predicate Laid(buf: string, a: nat, base: Option<string>, es: seq<Entry>) {
    if base.None? then Alone(buf, a, es) else BaseFirst(buf, a, base.value, es) || BaseLast(buf, a, base.value, es)
  }

  /** A text for the entries, below a base path if there is one. */
  ghost predicate LaidOut(buf: string, base: Option<string>, es: seq<Entry>) {
    exists i: nat, a: nat ::
      i < a < |buf| && Blank(buf, 0, i) && buf[i] == '{' && Blank(buf, i + 1, a) && Laid(buf, a, base, es)
  }

  /** The members from the opening brace or comma at `i` to the end. */
  ghost predicate Rest(buf: string, i: nat, t: Top, out: Top) {
    && i < |buf| && TopBounds(buf, t)
    && var m := Members(buf, i, t);
       m.Some? && m.value.0 == out && buf[m.value.1] == '}'
  }

  /** One member up to a comma or the end. */
  lemma MemberThen(buf: string, i: nat, a: nat, t: Top, m: (Top, nat), sep: nat)
    requires i < a < |buf| && TopBounds(buf, t) && Blank(buf, i + 1, a) && buf[a] == '"'
    requires Member(buf, a, t) == Some(m)
    requires m.1 < sep < |buf| && Blank(buf, m.1 + 1, sep) && buf[sep] in {',', '}'}
    ensures TopBounds(buf, m.0) && i < sep
    ensures Members(buf, i, t) == if buf[sep] == ',' then Members(buf, sep, m.0) else Some((m.0, sep))
  {
    hide Member, Members, Skip, Next, TopBounds;
    BlankNext(buf, i, a);
    BlankNext(buf, m.1, sep);
    MembersStep(buf, i, t, m, sep);
  }

  lemma QuoteAt(buf: string, p: nat, s: string)
    requires At(buf, p, s) && s != "" && s[0] == '"'
    ensures p < |buf| && buf[p] == '"'
  {
    AtFirst(buf, p, s);
  }

  lemma AloneTaken(buf: string, i: nat, a: nat, es: seq<Entry>, t: Top)
    requires i < a && Blank(buf, i + 1, a) && Alone(buf, a, es) && GoodEntries(es)
    requires TopBounds(buf, t) && t.records.None?
    ensures Rest(buf, i, t, t.(records := Some(Records(es))))
  {
    hide Member, Members, Skip, TopBounds, ItemsAt, GoodEntries, Records, At, Blank;
    var end: nat, z: nat :| ArrayAt(buf, a, es, end) && Closing(buf, end, z);
    QuoteAt(buf, a, "\"e\"");
    ArrayTaken(buf, a, es, end, t);
    MemberThen(buf, i, a, t, (t.(records := Some(Records(es))), end), z);
  }

  lemma BaseFirstTaken(buf: string, i: nat, a: nat, base: string, es: seq<Entry>) returns (place: (nat, nat))
    requires i < a && Blank(buf, i + 1, a) && BaseFirst(buf, a, base, es) && GoodEntries(es)
    ensures Noted(buf, place, base) && Rest(buf, i, NO_TOP, Top(Some(Records(es)), Some(place), false))
  {
    hide Member, Members, Skip, TopBounds, GoodEntries, Records, At, Blank, Alone, PairIs;
    var q: nat, next: nat :| BaseMemberAt(buf, a, base, q) && Comma(buf, q - 1, q, next) && Alone(buf, next, es);
    QuoteAt(buf, a, "\"bn\"");
    NothingYet(buf);
    place := BaseMemberTaken(buf, a, base, q, NO_TOP);
    var t := NO_TOP.(bn := Some(place));
    MemberThen(buf, i, a, NO_TOP, (t, q - 1), q);
    AloneTaken(buf, q, next, es, t);
  }

  lemma BaseLastTaken(buf: string, i: nat, a: nat, base: string, es: seq<Entry>) returns (place: (nat, nat))
    requires i < a && Blank(buf, i + 1, a) && BaseLast(buf, a, base, es) && GoodEntries(es)
    ensures Noted(buf, place, base) && Rest(buf, i, NO_TOP, Top(Some(Records(es)), Some(place), false))
  {
    hide Member, Members, Skip, TopBounds, GoodEntries, Records, At, Blank, PairIs, ItemsAt;
    var end: nat, c: nat, next: nat, q: nat :|
      ArrayAt(buf, a, es, end) && Comma(buf, end, c, next) && BaseMemberAt(buf, next, base, q) && buf[q] == '}';
    QuoteAt(buf, a, "\"e\"");
    QuoteAt(buf, next, "\"bn\"");
    NothingYet(buf);
    ArrayTaken(buf, a, es, end, NO_TOP);
    var t := NO_TOP.(records := Some(Records(es)));
    MemberThen(buf, i, a, NO_TOP, (t, end), c);
    place := BaseMemberTaken(buf, next, base, q, t);
    NothingBlank(buf, q);
    MemberThen(buf, c, next, t, (t.(bn := Some(place)), q - 1), q);
  }

  lemma NothingBlank(buf: string, q: nat)
    requires q <= |buf|
    ensures Blank(buf, q, q)
  {}

  /** The scan of a text in any layout finds the records of the entries and the base path. */
  lemma LayoutScanned(buf: string, base: Option<string>, es: seq<Entry>)
    requires LaidOut(buf, base, es) && GoodEntries(es)
    ensures var t := Scanned(buf);
            && t.Some? && t.value.records == Some(Records(es)) && t.value.bt == false
            && (base.None? <==> t.value.bn.None?)
            && (base.Some? ==> Noted(buf, t.value.bn.value, base.value))
  {
    hide Members, Skip, TopBounds, GoodEntries, Records, Blank, Alone, BaseFirst, BaseLast;
    var i: nat, a: nat :| i < a < |buf| && Blank(buf, 0, i) && buf[i] == '{' && Blank(buf, i + 1, a)
                          && Laid(buf, a, base, es);
    SkipBlank(buf, 0, i);
    NothingYet(buf);
    if base.None? {
      AloneTaken(buf, i, a, es, NO_TOP);
    } else if BaseFirst(buf, a, base.value, es) {
      var place := BaseFirstTaken(buf, i, a, base.value, es);
    } else {
      var place := BaseLastTaken(buf, i, a, base.value, es);
    }
  }
}
