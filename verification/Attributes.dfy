/** Observation attributes (src/lwm2m/core/management.c): the query options a client reads
    in `prv_readAttributes` and those a server writes in `lwm2m_dm_write_attributes`.

    The conversions between texts and floating-point numbers are parameters. */
module Attributes {
  import opened Text

  datatype Kind = MinPeriod | MaxPeriod | GreaterThan | LessThan | Step

  const NUMERIC := {GreaterThan, LessThan, Step}

  /** `lwm2m_attributes_t`; its flag bytes are sets of kinds. */
  datatype Attr = Attr(toSet: set<Kind>, toClear: set<Kind>, minPeriod: nat, maxPeriod: nat,
                       greaterThan: real, lessThan: real, step: real)

  const NO_ATTR := Attr({}, {}, 0, 0, 0.0, 0.0, 0.0)

  const UINT32 := 0x1_0000_0000

  type ToFloat = string -> Option<real>

  /** The name of a kind with its equals sign. */
  function Key(k: Kind): (s: string)
    ensures |s| > 1
  {
    match k
    case MinPeriod => "pmin="
    case MaxPeriod => "pmax="
    case GreaterThan => "gt="
    case LessThan => "lt="
    case Step => "st="
  }

  /** The name alone. */
  function Bare(k: Kind): (s: string)
    ensures Key(k) == s + "="
  {
    match k
    case MinPeriod => "pmin"
    case MaxPeriod => "pmax"
    case GreaterThan => "gt"
    case LessThan => "lt"
    case Step => "st"
  }

  predicate StartsWith(q: string, prefix: string) {
    |q| >= |prefix| && q[..|prefix|] == prefix
  }

  // ---------------------------------------------------------------- one option

  datatype Effect = SetInt(kind: Kind, n: nat) | SetReal(kind: Kind, x: real) | Clear(kind: Kind) | Bad

  /** What an option with the key of `k` and a value sets; a period is stored in 32
      bits. */
  function SetEffect(q: string, k: Kind, toFloat: ToFloat): Effect
    requires |q| >= |Key(k)|
  {
    var value := q[|Key(k)|..];
    if value == "" then Bad
    else if k.MinPeriod? || k.MaxPeriod? then
      match TextToInt(value)
      case None => Bad
      case Some(n) => if n < 0 then Bad else SetInt(k, n % UINT32)
    else
      match toFloat(value)
      case None => Bad
      case Some(x) => if k.Step? && x < 0.0 then Bad else SetReal(k, x)
  }

  function KindEffect(q: string, k: Kind, toFloat: ToFloat): Option<Effect> {
    if StartsWith(q, Key(k)) then Some(SetEffect(q, k, toFloat))
    else if StartsWith(q, Bare(k)) then Some(if |q| != |Key(k)| - 1 then Bad else Clear(k))
    else None
  }

  /** The branches of the chain, in its order. */
  function EffectOf(q: string, toFloat: ToFloat): Effect {
    match KindEffect(q, MinPeriod, toFloat)
    case Some(e) => e
    case None =>
      match KindEffect(q, MaxPeriod, toFloat)
      case Some(e) => e
      case None =>
        match KindEffect(q, GreaterThan, toFloat)
        case Some(e) => e
        case None =>
          match KindEffect(q, LessThan, toFloat)
          case Some(e) => e
          case None =>
            match KindEffect(q, Step, toFloat)
            case Some(e) => e
            case None => Bad
  }

  function Stored(a: Attr, e: Effect): Attr
    requires !e.Bad?
  {
    match e
    case Clear(k) => a.(toClear := a.toClear + {k})
    case SetInt(k, n) =>
      var b := a.(toSet := a.toSet + {k});
      if k.MinPeriod? then b.(minPeriod := n) else if k.MaxPeriod? then b.(maxPeriod := n) else b
    case SetReal(k, x) =>
      var b := a.(toSet := a.toSet + {k});
      if k.GreaterThan? then b.(greaterThan := x)
      else if k.LessThan? then b.(lessThan := x)
      else if k.Step? then b.(step := x)
      else b
  }

  /** One option on top of those already read: no kind may occur twice. */
  function Applied(a: Attr, e: Effect): Option<Attr> {
    if e.Bad? || e.kind in a.toSet + a.toClear then None else Some(Stored(a, e))
  }

  function Then(a: Option<Attr>, e: Effect): Option<Attr> {
    if a.None? then None else Applied(a.value, e)
  }

  /** `prv_readAttributes`. */
  function Read(queries: seq<string>, toFloat: ToFloat): Option<Attr> {
    if queries == [] then Some(NO_ATTR)
    else Then(Read(queries[..|queries| - 1], toFloat), EffectOf(queries[|queries| - 1], toFloat))
  }

  method ReadAttributes(queries: seq<string>, toFloat: ToFloat) returns (r: Option<Attr>)
    ensures r == Read(queries, toFloat)
  {
    hide EffectOf, Applied;
    var a := NO_ATTR;
    var i := 0;
    while i < |queries|
      invariant 0 <= i <= |queries| && Read(queries[..i], toFloat) == Some(a)
    {
      assert queries[..i + 1][..i] == queries[..i];
      var next := Applied(a, EffectOf(queries[i], toFloat));
      if next.None? {
        ReadStops(queries, i + 1, toFloat);
        return None;
      }
      a := next.value;
      i := i + 1;
    }
    assert queries[..i] == queries;
    return Some(a);
  }

  lemma {:induction false} ReadStops(queries: seq<string>, i: nat, toFloat: ToFloat)
    requires i <= |queries| && Read(queries[..i], toFloat).None?
    ensures Read(queries, toFloat).None?
    decreases |queries|
  {
    hide EffectOf, Applied;
    if i < |queries| {
      assert queries[..|queries| - 1][..i] == queries[..i];
      ReadStops(queries[..|queries| - 1], i, toFloat);
    } else {
      assert queries[..i] == queries;
    }
  }

  // ---------------------------------------------------------------- order independence

  lemma StoredCommute(a: Attr, d: Effect, e: Effect)
    requires !d.Bad? && !e.Bad? && d.kind != e.kind
    ensures Stored(Stored(a, d), e) == Stored(Stored(a, e), d)
  {
    assert a.toSet + {d.kind} + {e.kind} == a.toSet + {e.kind} + {d.kind};
    assert a.toClear + {d.kind} + {e.kind} == a.toClear + {e.kind} + {d.kind};
  }

  lemma StoredKinds(a: Attr, e: Effect)
    requires !e.Bad?
    ensures Stored(a, e).toSet + Stored(a, e).toClear == a.toSet + a.toClear + {e.kind}
    ensures Stored(a, e).toSet == (if e.Clear? then a.toSet else a.toSet + {e.kind})
    ensures Stored(a, e).toClear == (if e.Clear? then a.toClear + {e.kind} else a.toClear)
  {}

  /** Two options may change places. */
  lemma Commute(a: Option<Attr>, d: Effect, e: Effect)
    ensures Then(Then(a, d), e) == Then(Then(a, e), d)
  {
    if a.Some? && !d.Bad? && !e.Bad? && d.kind != e.kind {
      StoredCommute(a.value, d, e);
      StoredKinds(a.value, d);
      StoredKinds(a.value, e);
    }
  }

  function Removed(s: seq<string>, i: nat): seq<string>
    requires i < |s|
  {
    s[..i] + s[i + 1..]
  }

  /** Removing commutes with splitting off the last option. */
  lemma RemovedFront(s: seq<string>, i: nat)
    requires i < |s|
    ensures i == |s| - 1 ==> Removed(s, i) == s[..|s| - 1]
    ensures i < |s| - 1 ==> Removed(s, i) == Removed(s[..|s| - 1], i) + [s[|s| - 1]]
  {
    var n := |s| - 1;
    if i < n {
      var a, b := Removed(s, i), Removed(s[..n], i) + [s[n]];
      assert |a| == |b|;
      forall k | 0 <= k < |a|
        ensures a[k] == b[k]
      {
        assert a[k] == if k < i then s[k] else s[k + 1];
      }
    }
  }

  lemma ReadSplit(queries: seq<string>, q: string, toFloat: ToFloat)
    ensures Read(queries + [q], toFloat) == Then(Read(queries, toFloat), EffectOf(q, toFloat))
  {
    hide EffectOf, Then;
    assert (queries + [q])[..|queries|] == queries;
  }

  /** An option may be read last. */
  lemma {:induction false} ReadLast(queries: seq<string>, i: nat, toFloat: ToFloat)
    requires i < |queries|
    ensures Read(queries, toFloat) == Then(Read(Removed(queries, i), toFloat), EffectOf(queries[i], toFloat))
    decreases |queries|
  {
    hide *;
    var n := |queries| - 1;
    var front, last := queries[..n], queries[n];
    assert queries == front + [last];
    ReadSplit(front, last, toFloat);
    RemovedFront(queries, i);
    if i < n {
      assert front[i] == queries[i];
      ReadLast(front, i, toFloat);
      ReadSplit(Removed(front, i), last, toFloat);
      Commute(Read(Removed(front, i), toFloat), EffectOf(queries[i], toFloat), EffectOf(last, toFloat));
    }
  }

  lemma RemovedMultiset(s: seq<string>, i: nat)
    requires i < |s|
    ensures multiset(s) == multiset(Removed(s, i)) + multiset{s[i]}
  {
    assert s == s[..i] + [s[i]] + s[i + 1..];
  }

  /** The verdict and the attributes read do not depend on the order of the options. */
  lemma {:induction false} OrderIndependent(p: seq<string>, q: seq<string>, toFloat: ToFloat)
    requires multiset(p) == multiset(q)
    ensures Read(p, toFloat) == Read(q, toFloat)
    decreases |p|
  {
    hide EffectOf, Then, Removed;
    assert |p| == |multiset(p)| == |multiset(q)| == |q|;
    if p != [] {
      var n := |p| - 1;
      assert p[n] in multiset(p);
      assert p[n] in q;
      var i :| 0 <= i < |q| && q[i] == p[n];
      RemovedMultiset(p, n);
      RemovedMultiset(q, i);
      ReadLast(p, n, toFloat);
      ReadLast(q, i, toFloat);
      RemovedShorter(p, n);
      Cancel(multiset(Removed(p, n)), multiset(Removed(q, i)), p[n]);
      OrderIndependent(Removed(p, n), Removed(q, i), toFloat);
    }
  }

  lemma Cancel(a: multiset<string>, b: multiset<string>, x: string)
    requires a + multiset{x} == b + multiset{x}
    ensures a == b
  {
    forall y
      ensures a[y] == b[y]
    {
      assert (a + multiset{x})[y] == (b + multiset{x})[y];
    }
  }

  lemma RemovedShorter(s: seq<string>, i: nat)
    requires i < |s|
    ensures |Removed(s, i)| == |s| - 1
  {}

  /** What is set and what is cleared never overlap, and every option accounts for one
      kind. */
  lemma {:induction false} EachKindOnce(queries: seq<string>, toFloat: ToFloat)
    ensures var r := Read(queries, toFloat);
            r.Some? ==> r.value.toSet !! r.value.toClear && |r.value.toSet| + |r.value.toClear| == |queries|
  {
    hide EffectOf, Stored;
    if queries != [] {
      EachKindOnce(queries[..|queries| - 1], toFloat);
      var a, e := Read(queries[..|queries| - 1], toFloat), EffectOf(queries[|queries| - 1], toFloat);
      if a.Some? && !e.Bad? { StoredKinds(a.value, e); }
    }
  }

  // ---------------------------------------------------------------- writing options

  const BUFFER_SIZE := 32

  type FromFloat = real -> Option<string>

  /** The text of a value in the 32-byte buffer, behind the key. */
  function ValueText(a: Attr, k: Kind, fromFloat: FromFloat): Option<string> {
    match k
    case MinPeriod => Digits(a.minPeriod)
    case MaxPeriod => Digits(a.maxPeriod)
    case GreaterThan => fromFloat(a.greaterThan)
    case LessThan => fromFloat(a.lessThan)
    case Step => fromFloat(a.step)
  }

  function Digits(n: nat): Option<string> {
    match Render(n, BUFFER_SIZE - 5)
    case Ok(t) => Some(t)
    case _ => None
  }

  /** The options written, behind those already there. */
  function AddSet(options: Option<seq<string>>, a: Attr, k: Kind, fromFloat: FromFloat): Option<seq<string>> {
    if options.None? || k !in a.toSet then options
    else
      match ValueText(a, k, fromFloat)
      case None => None
      case Some(t) => Some(options.value + [Key(k) + t])
  }

  function AddClear(options: seq<string>, a: Attr, k: Kind): seq<string> {
    if k in a.toClear then options + [Bare(k)] else options
  }

  const KINDS := [MinPeriod, MaxPeriod, GreaterThan, LessThan, Step]

  function SetOptions(a: Attr, n: nat, fromFloat: FromFloat): Option<seq<string>>
    requires n <= |KINDS|
  {
    if n == 0 then Some([]) else AddSet(SetOptions(a, n - 1, fromFloat), a, KINDS[n - 1], fromFloat)
  }

  function ClearOptions(options: seq<string>, a: Attr, n: nat): seq<string>
    requires n <= |KINDS|
  {
    if n == 0 then options else AddClear(ClearOptions(options, a, n - 1), a, KINDS[n - 1])
  }

  /** The checks in front of the options. */
  predicate Consistent(a: Attr, onResource: bool) {
    && a.toSet !! a.toClear
    && (a.toSet * NUMERIC != {} ==> onResource)
    && (NUMERIC <= a.toSet ==> a.lessThan + 2.0 * a.step < a.greaterThan)
  }

  function Written(a: Attr, onResource: bool, fromFloat: FromFloat): Option<seq<string>> {
    if !Consistent(a, onResource) then None
    else
      match SetOptions(a, |KINDS|, fromFloat)
      case None => None
      case Some(options) => Some(ClearOptions(options, a, |KINDS|))
  }

  /** The option list of `lwm2m_dm_write_attributes`; none for an error return. */
  method WriteAttributes(a: Attr, onResource: bool, fromFloat: FromFloat) returns (r: Option<seq<string>>)
    ensures r == Written(a, onResource, fromFloat)
  {
    hide ValueText, Key, Bare;
    assert |KINDS| == 5;
    if a.toSet * a.toClear != {} { return None; }
    if a.toSet * NUMERIC != {} && !onResource { return None; }
    if NUMERIC <= a.toSet && a.lessThan + 2.0 * a.step >= a.greaterThan { return None; }
    DisjointMeet(a.toSet, a.toClear);
    var options: Option<seq<string>> := Some([]);
    options := AddSet(options, a, MinPeriod, fromFloat);
    options := AddSet(options, a, MaxPeriod, fromFloat);
    options := AddSet(options, a, GreaterThan, fromFloat);
    options := AddSet(options, a, LessThan, fromFloat);
    options := AddSet(options, a, Step, fromFloat);
    AllSet(a, fromFloat);
    if options.None? { return None; }
    var list := AddClear(options.value, a, MinPeriod);
    list := AddClear(list, a, MaxPeriod);
    list := AddClear(list, a, GreaterThan);
    list := AddClear(list, a, LessThan);
    list := AddClear(list, a, Step);
    AllCleared(options.value, a);
    return Some(list);
  }

  lemma DisjointMeet(a: set<Kind>, b: set<Kind>)
    ensures a * b == {} <==> a !! b
  {
    if a * b == {} {
      forall x | x in a
        ensures x !in b
      {
        assert x in b <==> x in a * b;
      }
    }
  }

  lemma AllSet(a: Attr, fromFloat: FromFloat)
    ensures SetOptions(a, 5, fromFloat) ==
            AddSet(AddSet(AddSet(AddSet(AddSet(Some([]), a, MinPeriod, fromFloat), a, MaxPeriod, fromFloat),
                                 a, GreaterThan, fromFloat), a, LessThan, fromFloat), a, Step, fromFloat)
  {
    hide AddSet;
    assert SetOptions(a, 1, fromFloat) == AddSet(Some([]), a, MinPeriod, fromFloat);
    assert SetOptions(a, 2, fromFloat) == AddSet(SetOptions(a, 1, fromFloat), a, MaxPeriod, fromFloat);
    assert SetOptions(a, 3, fromFloat) == AddSet(SetOptions(a, 2, fromFloat), a, GreaterThan, fromFloat);
    assert SetOptions(a, 4, fromFloat) == AddSet(SetOptions(a, 3, fromFloat), a, LessThan, fromFloat);
  }

  lemma AllCleared(options: seq<string>, a: Attr)
    ensures ClearOptions(options, a, 5) ==
            AddClear(AddClear(AddClear(AddClear(AddClear(options, a, MinPeriod), a, MaxPeriod), a, GreaterThan),
                              a, LessThan), a, Step)
  {
    hide AddClear;
    assert ClearOptions(options, a, 1) == AddClear(options, a, MinPeriod);
    assert ClearOptions(options, a, 2) == AddClear(ClearOptions(options, a, 1), a, MaxPeriod);
    assert ClearOptions(options, a, 3) == AddClear(ClearOptions(options, a, 2), a, GreaterThan);
    assert ClearOptions(options, a, 4) == AddClear(ClearOptions(options, a, 3), a, LessThan);
  }

  // ---------------------------------------------------------------- round trip

  /** The attributes without the values of kinds that are not set, restricted to the kinds
      in `sets` and `clears`. */
  function Known(a: Attr, sets: set<Kind>, clears: set<Kind>): Attr {
    var s := a.toSet * sets;
    Attr(s, a.toClear * clears,
         if MinPeriod in s then a.minPeriod else 0, if MaxPeriod in s then a.maxPeriod else 0,
         if GreaterThan in s then a.greaterThan else 0.0, if LessThan in s then a.lessThan else 0.0,
         if Step in s then a.step else 0.0)
  }

  /** The text of a number is read as that number. */
  ghost predicate Returns(x: real, toFloat: ToFloat, fromFloat: FromFloat) {
    fromFloat(x).Some? ==> fromFloat(x).value != "" && toFloat(fromFloat(x).value) == Some(x)
  }

  ghost predicate FloatsReturn(a: Attr, toFloat: ToFloat, fromFloat: FromFloat) {
    && Returns(a.greaterThan, toFloat, fromFloat)
    && Returns(a.lessThan, toFloat, fromFloat)
    && Returns(a.step, toFloat, fromFloat)
  }

  predicate Fits32(a: Attr) {
    a.minPeriod < UINT32 && a.maxPeriod < UINT32
  }

  function SetOf(a: Attr, k: Kind): Effect {
    match k
    case MinPeriod => SetInt(k, a.minPeriod)
    case MaxPeriod => SetInt(k, a.maxPeriod)
    case GreaterThan => SetReal(k, a.greaterThan)
    case LessThan => SetReal(k, a.lessThan)
    case Step => SetReal(k, a.step)
  }

  /** Only the branch of its own key takes an option. */
  lemma OwnBranch(q: string, k: Kind, toFloat: ToFloat)
    requires StartsWith(q, Bare(k))
    ensures EffectOf(q, toFloat) == KindEffect(q, k, toFloat).value
  {
    hide SetEffect;
    var b := Bare(k);
    assert forall i :: 0 <= i < |b| ==> q[i] == q[..|b|][i];
    forall j: Kind | j != k
      ensures !StartsWith(q, Bare(j)) && !StartsWith(q, Key(j))
    {
      OtherKey(q, k, j);
    }
    if StartsWith(q, Key(k)) { }
  }

  lemma OtherKey(q: string, k: Kind, j: Kind)
    requires j != k && StartsWith(q, Bare(k))
    ensures !StartsWith(q, Bare(j)) && !StartsWith(q, Key(j))
  {
    var b, c := Bare(k), Bare(j);
    StartAt(q, b, 0);
    StartAt(q, c, 0);
    StartAt(q, Key(j), 0);
    if |b| > 2 && |c| > 2 {
      StartAt(q, b, 2);
      StartAt(q, c, 2);
      StartAt(q, Key(j), 2);
    }
  }

  lemma StartAt(q: string, s: string, i: nat)
    requires i < |s|
    ensures StartsWith(q, s) ==> i < |q| && q[i] == s[i]
  {
    if StartsWith(q, s) { assert q[i] == q[..|s|][i]; }
  }

  lemma DigitsReturn(n: nat)
    requires n < UINT32 && Digits(n).Some?
    ensures Digits(n).value != "" && TextToInt(Digits(n).value) == Some(n)
  {
    IntRoundTrip(n, BUFFER_SIZE - 5);
  }

  lemma SetRead(a: Attr, k: Kind, toFloat: ToFloat, fromFloat: FromFloat)
    requires Fits32(a) && FloatsReturn(a, toFloat, fromFloat) && ValueText(a, k, fromFloat).Some?
    ensures EffectOf(Key(k) + ValueText(a, k, fromFloat).value, toFloat) ==
            if k.Step? && a.step < 0.0 then Bad else SetOf(a, k)
  {
    hide Digits, EffectOf, TextToInt, StartsWith, Bare, Key, Returns;
    var t := ValueText(a, k, fromFloat).value;
    var q := Key(k) + t;
    KeyInFront(k, t);
    OwnBranch(q, k, toFloat);
    if k.MinPeriod? { DigitsReturn(a.minPeriod); }
    if k.MaxPeriod? { DigitsReturn(a.maxPeriod); }
    RealsReturn(a, k, toFloat, fromFloat);
  }

  lemma KeyInFront(k: Kind, t: string)
    ensures var q := Key(k) + t;
            q[|Key(k)|..] == t && StartsWith(q, Key(k)) && StartsWith(q, Bare(k))
  {
    var q := Key(k) + t;
    assert q[..|Key(k)|] == Key(k);
    assert q[..|Bare(k)|] == Key(k)[..|Bare(k)|] == Bare(k);
  }

  lemma RealsReturn(a: Attr, k: Kind, toFloat: ToFloat, fromFloat: FromFloat)
    requires FloatsReturn(a, toFloat, fromFloat) && ValueText(a, k, fromFloat).Some?
    ensures k.GreaterThan? || k.LessThan? || k.Step? ==>
              && ValueText(a, k, fromFloat).value != ""
              && toFloat(ValueText(a, k, fromFloat).value) ==
                 Some(if k.GreaterThan? then a.greaterThan else if k.LessThan? then a.lessThan else a.step)
  {}

  lemma ClearRead(k: Kind, toFloat: ToFloat)
    ensures EffectOf(Bare(k), toFloat) == Clear(k)
  {
    hide EffectOf;
    var q := Bare(k);
    assert q[..|q|] == q;
    OwnBranch(q, k, toFloat);
  }

  /** A period that fits 64 bits is stored as written exactly when it fits 32. */
  lemma PeriodExact(n: nat, toFloat: ToFloat)
    requires n <= INT64_MAX
    ensures EffectOf(Key(MinPeriod) + Decimal(n), toFloat) == SetInt(MinPeriod, n) <==> n < UINT32
    ensures EffectOf(Key(MaxPeriod) + Decimal(n), toFloat) == SetInt(MaxPeriod, n) <==> n < UINT32
  {
    hide EffectOf, StartsWith, Bare, TextToInt, Decimal;
    DecimalValue(n);
    TextToIntExact(Decimal(n));
    KeyInFront(MinPeriod, Decimal(n));
    OwnBranch(Key(MinPeriod) + Decimal(n), MinPeriod, toFloat);
    KeyInFront(MaxPeriod, Decimal(n));
    OwnBranch(Key(MaxPeriod) + Decimal(n), MaxPeriod, toFloat);
  }

  // ---------------------------------------------------------------- which options are taken

  /** A value behind the key of `k`: a period is a number and not negative, a step is not
      negative. */
  predicate ValueTaken(v: string, k: Kind, toFloat: ToFloat) {
    && v != ""
    && if k in {MinPeriod, MaxPeriod} then TextToInt(v).Some? && TextToInt(v).value >= 0
       else toFloat(v).Some? && (k == Step ==> toFloat(v).value >= 0.0)
  }

  predicate Taken(q: string, k: Kind, toFloat: ToFloat) {
    q == Bare(k) || (StartsWith(q, Key(k)) && ValueTaken(q[|Key(k)|..], k, toFloat))
  }

  lemma TakenExact(q: string, k: Kind, toFloat: ToFloat)
    requires StartsWith(q, Bare(k))
    ensures var e := EffectOf(q, toFloat);
            && (!e.Bad? <==> Taken(q, k, toFloat))
            && (!e.Bad? ==> e.kind == k && (e.Clear? <==> q == Bare(k)))
            && (e.SetInt? ==> k in {MinPeriod, MaxPeriod} && e.n == TextToInt(q[|Key(k)|..]).value % UINT32)
            && (e.SetReal? ==> k in {GreaterThan, LessThan, Step} && e.x == toFloat(q[|Key(k)|..]).value)
  {
    hide EffectOf, TextToInt;
    OwnBranch(q, k, toFloat);
    assert q[..|Bare(k)|] == Bare(k);
    if |q| == |Bare(k)| { assert q == Bare(k); }
  }

  lemma NoBranch(q: string, toFloat: ToFloat)
    requires forall k :: !StartsWith(q, Bare(k))
    ensures EffectOf(q, toFloat).Bad?
  {
    hide StartsWith;
    forall k: Kind
      ensures !StartsWith(q, Key(k))
    {
      if StartsWith(q, Key(k)) { KeyStarts(q, k); }
    }
  }

  lemma KeyStarts(q: string, k: Kind)
    requires StartsWith(q, Key(k))
    ensures StartsWith(q, Bare(k))
  {
    assert q[..|Bare(k)|] == q[..|Key(k)|][..|Bare(k)|];
  }

  lemma TakenStarts(q: string, k: Kind, toFloat: ToFloat)
    requires Taken(q, k, toFloat)
    ensures StartsWith(q, Bare(k))
  {
    hide ValueTaken;
    if q != Bare(k) { KeyStarts(q, k); }
  }

  ghost predicate IsTaken(q: string, toFloat: ToFloat) {
    exists k :: Taken(q, k, toFloat)
  }

  /** Every option is taken by some kind. */
  ghost predicate AllTaken(queries: seq<string>, toFloat: ToFloat) {
    forall i :: 0 <= i < |queries| ==> IsTaken(queries[i], toFloat)
  }

  ghost predicate Named(queries: seq<string>, k: Kind) {
    exists i :: 0 <= i < |queries| && StartsWith(queries[i], Bare(k))
  }

  /** No two options start with the same name. */
  ghost predicate NamesOnce(queries: seq<string>) {
    forall i, j, k :: 0 <= i < j < |queries| && StartsWith(queries[i], Bare(k)) ==> !StartsWith(queries[j], Bare(k))
  }

  lemma LastOption(front: seq<string>, q: string, toFloat: ToFloat)
    ensures AllTaken(front + [q], toFloat) <==> AllTaken(front, toFloat) && IsTaken(q, toFloat)
    ensures NamesOnce(front + [q]) <==>
            NamesOnce(front) && forall k :: StartsWith(q, Bare(k)) ==> !Named(front, k)
    ensures forall k :: Named(front + [q], k) <==> Named(front, k) || StartsWith(q, Bare(k))
  {
    hide IsTaken, StartsWith, Bare;
    var all := front + [q];
    assert all[|front|] == q && forall i :: 0 <= i < |front| ==> all[i] == front[i];
    forall k
      ensures Named(all, k) <==> Named(front, k) || StartsWith(q, Bare(k))
    {
      if i :| 0 <= i < |front| && StartsWith(front[i], Bare(k)) { assert StartsWith(all[i], Bare(k)); }
    }
    assert AllTaken(all, toFloat) ==> IsTaken(all[|front|], toFloat);
    assert forall i :: 0 <= i < |front| && IsTaken(all[i], toFloat) ==> IsTaken(front[i], toFloat);
    LastName(front, q);
  }

  lemma LastName(front: seq<string>, q: string)
    ensures NamesOnce(front + [q]) <==>
            NamesOnce(front) && forall k :: StartsWith(q, Bare(k)) ==> !Named(front, k)
  {
    hide StartsWith, Bare;
    var all := front + [q];
    assert all[|front|] == q && forall i :: 0 <= i < |front| ==> all[i] == front[i];
    if NamesOnce(all) {
      forall i, j, k | 0 <= i < j < |front| && StartsWith(front[i], Bare(k))
        ensures !StartsWith(front[j], Bare(k))
      {
        assert StartsWith(all[i], Bare(k)) && all[j] == front[j];
      }
      forall i, k | 0 <= i < |front| && StartsWith(front[i], Bare(k))
        ensures !StartsWith(q, Bare(k))
      {
        assert StartsWith(all[i], Bare(k));
      }
    }
  }

  /** The kind whose name an option starts with, if any. */
  lemma OptionKind(q: string, toFloat: ToFloat)
    ensures var e := EffectOf(q, toFloat);
            && (!e.Bad? <==> IsTaken(q, toFloat))
            && (!e.Bad? ==> forall k :: StartsWith(q, Bare(k)) <==> k == e.kind)
  {
    hide EffectOf, Taken, StartsWith, Bare;
    if k :| StartsWith(q, Bare(k)) {
      TakenExact(q, k, toFloat);
      forall j | StartsWith(q, Bare(j)) || Taken(q, j, toFloat)
        ensures j == k
      {
        if Taken(q, j, toFloat) { TakenStarts(q, j, toFloat); }
        if j != k { OtherKey(q, k, j); }
      }
    } else {
      NoBranch(q, toFloat);
      forall j
        ensures !Taken(q, j, toFloat)
      {
        if Taken(q, j, toFloat) { TakenStarts(q, j, toFloat); }
      }
    }
  }

  /** The options are read if and only if each is taken and no two have the same name; the
      kinds set or cleared are then those named. */
  lemma {:induction false} ReadExact(queries: seq<string>, toFloat: ToFloat)
    ensures var r := Read(queries, toFloat);
            && (r.Some? <==> AllTaken(queries, toFloat) && NamesOnce(queries))
            && (r.Some? ==> forall k :: k in r.value.toSet + r.value.toClear <==> Named(queries, k))
    decreases |queries|
  {
    hide EffectOf, Stored, IsTaken, StartsWith, Bare, AllTaken, NamesOnce, Named;
    if queries == [] {
      NoOptions(toFloat);
    } else {
      var n := |queries| - 1;
      var front, q := queries[..n], queries[n];
      assert queries == front + [q];
      ReadExact(front, toFloat);
      LastOption(front, q, toFloat);
      OptionKind(q, toFloat);
      var a, e := Read(front, toFloat), EffectOf(q, toFloat);
      if a.Some? && !e.Bad? { StoredKinds(a.value, e); }
    }
  }

  lemma NoOptions(toFloat: ToFloat)
    ensures AllTaken([], toFloat) && NamesOnce([]) && forall k :: !Named([], k)
  {}

  /** What each option leaves: a bare name clears its kind, a value sets it, a period being
      stored in 32 bits. */
  lemma ReadValues(queries: seq<string>, toFloat: ToFloat, i: nat, k: Kind)
    requires i < |queries| && StartsWith(queries[i], Bare(k)) && Read(queries, toFloat).Some?
    ensures var r, q := Read(queries, toFloat).value, queries[i];
            if q == Bare(k) then k in r.toClear
            else
              && StartsWith(q, Key(k)) && k in r.toSet
              && var v := q[|Key(k)|..];
              && (k == MinPeriod ==> Some(r.minPeriod) == Modulo(TextToInt(v), UINT32))
              && (k == MaxPeriod ==> Some(r.maxPeriod) == Modulo(TextToInt(v), UINT32))
              && (k == GreaterThan ==> Some(r.greaterThan) == toFloat(v))
              && (k == LessThan ==> Some(r.lessThan) == toFloat(v))
              && (k == Step ==> Some(r.step) == toFloat(v))
  {
    hide EffectOf, StartsWith, Bare, Key, TextToInt, Removed, Read;
    ReadLast(queries, i, toFloat);
    TakenExact(queries[i], k, toFloat);
  }

  function Modulo(n: Option<int>, m: nat): Option<nat>
    requires m > 0
  {
    if n.None? then None else Some(n.value % m)
  }

  function First(n: nat): set<Kind>
    requires n <= |KINDS|
  {
    set i | 0 <= i < n :: KINDS[i]
  }

  lemma FirstNext(n: nat)
    requires n < |KINDS|
    ensures First(n + 1) == First(n) + {KINDS[n]} && KINDS[n] !in First(n)
    ensures First(0) == {} && First(|KINDS|) == {MinPeriod, MaxPeriod, GreaterThan, LessThan, Step}
  {
    assert First(n + 1) == First(n) + {KINDS[n]};
    assert KINDS[0] == MinPeriod && KINDS[1] == MaxPeriod;
    assert KINDS[2] == GreaterThan && KINDS[3] == LessThan && KINDS[4] == Step;
  }

  lemma KnownSet(a: Attr, sets: set<Kind>, k: Kind)
    requires k !in sets && a.toSet !! a.toClear
    ensures k in a.toSet ==> Applied(Known(a, sets, {}), SetOf(a, k)) == Some(Known(a, sets + {k}, {}))
    ensures k !in a.toSet ==> Known(a, sets + {k}, {}) == Known(a, sets, {})
  {
    if k in a.toSet {
      assert a.toSet * (sets + {k}) == a.toSet * sets + {k};
    } else {
      assert a.toSet * (sets + {k}) == a.toSet * sets;
    }
  }

  lemma KnownClear(a: Attr, sets: set<Kind>, clears: set<Kind>, k: Kind)
    requires k !in clears && a.toSet !! a.toClear
    ensures k in a.toClear ==> Applied(Known(a, sets, clears), Clear(k)) == Some(Known(a, sets, clears + {k}))
    ensures k !in a.toClear ==> Known(a, sets, clears + {k}) == Known(a, sets, clears)
  {
    if k in a.toClear {
      assert a.toClear * (clears + {k}) == a.toClear * clears + {k};
    } else {
      assert a.toClear * (clears + {k}) == a.toClear * clears;
    }
  }

  /** What the first set options are read as: only a negative step is refused. */
  lemma {:induction false} SetOptionsRead(a: Attr, n: nat, toFloat: ToFloat, fromFloat: FromFloat)
    requires n <= |KINDS| && Fits32(a) && FloatsReturn(a, toFloat, fromFloat) && a.toSet !! a.toClear
    requires SetOptions(a, n, fromFloat).Some?
    ensures Read(SetOptions(a, n, fromFloat).value, toFloat) ==
            if Step in a.toSet && Step in First(n) && a.step < 0.0 then None else Some(Known(a, First(n), {}))
  {
    hide EffectOf, Known, ValueText, SetOf, Applied, Key, FloatsReturn;
    if n > 0 {
      var k := KINDS[n - 1];
      FirstNext(n - 1);
      SetOptionsRead(a, n - 1, toFloat, fromFloat);
      KnownSet(a, First(n - 1), k);
      StepLast(n);
      if k in a.toSet {
        SetRead(a, k, toFloat, fromFloat);
        ReadSplit(SetOptions(a, n - 1, fromFloat).value, Key(k) + ValueText(a, k, fromFloat).value, toFloat);
        AppliedBad(Known(a, First(n - 1), {}));
      }
    } else {
      NothingKnown(a);
    }
  }

  lemma AppliedBad(a: Attr)
    ensures Applied(a, Bad) == None
  {}

  lemma StepLast(n: nat)
    requires 0 < n <= |KINDS|
    ensures Step in First(n) <==> n == 5
    ensures KINDS[n - 1] == Step <==> n == 5
    ensures Step !in First(n - 1)
  {
    assert KINDS[0] == MinPeriod && KINDS[1] == MaxPeriod;
    assert KINDS[2] == GreaterThan && KINDS[3] == LessThan && KINDS[4] == Step;
  }

  lemma NothingKnown(a: Attr)
    ensures Known(a, First(0), {}) == NO_ATTR && Step !in First(0)
  {
    assert First(0) == {} && a.toSet * {} == {} && a.toClear * {} == {};
  }

  lemma {:induction false} ClearOptionsRead(options: seq<string>, a: Attr, n: nat, sets: set<Kind>, toFloat: ToFloat)
    requires n <= |KINDS| && a.toSet !! a.toClear
    requires Read(options, toFloat).Some? ==> Read(options, toFloat) == Some(Known(a, sets, {}))
    ensures Read(ClearOptions(options, a, n), toFloat) ==
            if Read(options, toFloat).None? then None else Some(Known(a, sets, First(n)))
  {
    hide EffectOf, Known, Applied, Key;
    if n > 0 {
      var k := KINDS[n - 1];
      FirstNext(n - 1);
      ClearOptionsRead(options, a, n - 1, sets, toFloat);
      KnownClear(a, sets, First(n - 1), k);
      if k in a.toClear {
        ClearRead(k, toFloat);
        ReadSplit(ClearOptions(options, a, n - 1), Bare(k), toFloat);
      }
    } else {
      FirstNext(0);
    }
  }

  lemma PeriodPrinted(n: nat)
    requires n < UINT32
    ensures Digits(n).Some?
  {
    var a := n / 10;
    var b := a / 10;
    var c := b / 10;
    var d := c / 10;
    var e := d / 10;
    assert e < 42950;
    DecimalLength(e);
    assert |Decimal(d)| <= 6;
    assert |Decimal(c)| <= 7;
    assert |Decimal(b)| <= 8;
    assert |Decimal(a)| <= 9;
  }

  /** Attributes are written if and only if no kind is both set and cleared, the numeric ones
      are for a resource and, when all three are set, two steps fit between the limits, and
      every number set has a text. */
  lemma WrittenExact(a: Attr, onResource: bool, fromFloat: FromFloat)
    requires Fits32(a)
    ensures Written(a, onResource, fromFloat).Some? <==>
            && (forall k :: k in a.toSet ==> k !in a.toClear)
            && (GreaterThan in a.toSet || LessThan in a.toSet || Step in a.toSet ==> onResource)
            && (GreaterThan in a.toSet && LessThan in a.toSet && Step in a.toSet ==>
                  a.lessThan + 2.0 * a.step < a.greaterThan)
            && (GreaterThan in a.toSet ==> fromFloat(a.greaterThan).Some?)
            && (LessThan in a.toSet ==> fromFloat(a.lessThan).Some?)
            && (Step in a.toSet ==> fromFloat(a.step).Some?)
  {
    hide Key, Digits, SetOptions;
    AllSet(a, fromFloat);
    PeriodPrinted(a.minPeriod);
    PeriodPrinted(a.maxPeriod);
    assert GreaterThan in a.toSet * NUMERIC <==> GreaterThan in a.toSet;
    assert LessThan in a.toSet * NUMERIC <==> LessThan in a.toSet;
    assert Step in a.toSet * NUMERIC <==> Step in a.toSet;
  }

  /** Attributes written as options are read back exactly when no negative step is set. */
  lemma AttributesRoundTrip(a: Attr, onResource: bool, toFloat: ToFloat, fromFloat: FromFloat)
    requires Fits32(a) && FloatsReturn(a, toFloat, fromFloat) && Written(a, onResource, fromFloat).Some?
    ensures Read(Written(a, onResource, fromFloat).value, toFloat) == Some(Known(a, a.toSet, a.toClear)) <==>
            (Step in a.toSet ==> a.step >= 0.0)
  {
    hide EffectOf, Known, SetOptions, ClearOptions, Read, FloatsReturn;
    var options := SetOptions(a, 5, fromFloat).value;
    SetOptionsRead(a, 5, toFloat, fromFloat);
    ClearOptionsRead(options, a, 5, First(5), toFloat);
    FirstNext(0);
    AllKnown(a);
  }

  lemma AllKnown(a: Attr)
    ensures Known(a, First(5), First(5)) == Known(a, a.toSet, a.toClear)
  {
    FirstNext(0);
    forall k: Kind
      ensures k in First(5)
    {
      match k { case MinPeriod => case MaxPeriod => case GreaterThan => case LessThan => case Step => }
    }
    assert a.toSet * First(5) == a.toSet && a.toClear * First(5) == a.toClear;
    assert a.toSet * a.toSet == a.toSet && a.toClear * a.toClear == a.toClear;
  }
}
