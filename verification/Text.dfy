/** Decimal text helpers of the LwM2M core (src/lwm2m/core/utils.c).

    Bytes of a text are modelled as Dafny characters.  The C integer widths are
    written out: `uint64_t` arithmetic wraps at 2^64, `int64_t` ends at 2^63 - 1. */
module Text {

  datatype Option<+T> = None | Some(value: T)

  /** How a routine ends.  `Ok` carries what it produced (a text in a specification,
      a count in a method), `Refused` is its own error return, and `Stuck` says that
      the C code would store a byte outside its buffer or read a union member that
      was not set; a run is not followed beyond that point. */
  datatype Outcome<+T> = Ok(value: T) | Refused | Stuck

  /** The count a method returns when the specification promises a text. */
  function Counted(o: Outcome<string>): Outcome<nat> {
    match o
    case Ok(s) => Ok(|s|)
    case Refused => Refused
    case Stuck => Stuck
  }

  const UINT64_MAX := 0xFFFF_FFFF_FFFF_FFFF
  const INT64_MAX := 0x7FFF_FFFF_FFFF_FFFF
  const INT64_MIN := -0x8000_0000_0000_0000

  const NUL := '\0'

  predicate IsDigit(c: char) { '0' <= c <= '9' }

  function DigitValue(c: char): (d: nat)
    requires IsDigit(c)
    ensures d < 10
  {
    c as int - '0' as int
  }

  function DigitChar(d: nat): (c: char)
    requires d < 10
    ensures IsDigit(c) && DigitValue(c) == d
  {
    ('0' as int + d) as char
  }

  predicate AllDigits(s: string) { forall i :: 0 <= i < |s| ==> IsDigit(s[i]) }

  /** The number a digit string denotes. */
  function NatValue(s: string): nat
    requires AllDigits(s)
  {
    if s == "" then 0 else NatValue(s[..|s| - 1]) * 10 + DigitValue(s[|s| - 1])
  }

  /** The shortest decimal notation of `n`. */
  function Decimal(n: nat): (s: string)
    ensures |s| > 0 && AllDigits(s)
  {
    if n < 10 then [DigitChar(n)] else Decimal(n / 10) + [DigitChar(n % 10)]
  }

  lemma {:induction false} DecimalValue(n: nat)
    ensures NatValue(Decimal(n)) == n
  {
    if n >= 10 {
      DecimalValue(n / 10);
      assert Decimal(n)[..|Decimal(n)| - 1] == Decimal(n / 10);
    }
  }

  /** At most `d` digits are needed below 10^d; stated for the widths in use. */
  lemma DecimalLength(n: nat)
    ensures n <= 65535 ==> |Decimal(n)| <= 5
  {
    if n <= 65535 {
      var a := n / 10;
      var b := a / 10;
      var c := b / 10;
      var d := c / 10;
      assert a <= 6553 && b <= 655 && c <= 65 && d <= 6;
      assert |Decimal(d)| == 1;
      assert |Decimal(c)| <= 2;
      assert |Decimal(b)| <= 3;
      assert |Decimal(a)| <= 4;
    }
  }

  lemma Regroup(a: string, b: string, c: string)
    ensures a + (b + c) == (a + b) + c
  {}

  // ---------------------------------------------------------------- int to text

  /** The digits the extraction loop of `utils_intToText` produces for `data`.
      The most negative value cannot be negated in 64 bits: one digit is taken
      from the negative remainder, which is the character eight below '0'. */
  function Magnitude(data: int): (s: string)
    ensures |s| > 0
  {
    if data == INT64_MIN then "(" else Decimal(if data < 0 then -data else data)
  }

  /** What `utils_intToText` leaves at the front of a buffer of `length` bytes. */
  function Render(data: int, length: nat): (r: Outcome<string>)
    ensures r.Ok? ==> 0 < |r.value| <= length
  {
    var digits := Magnitude(data);
    if length == 0 then Stuck
    else if |digits| > length then Refused
    else if data >= 0 then Ok(digits)
    else if |digits| == length then Stuck
    else if |digits| + 1 == length then Refused
    else Ok("-" + digits)
  }

  /** The digits still to come, written in front of those already extracted. */
  function Pending(rest: nat, done: string): string {
    if rest > 0 then Decimal(rest) + done else done
  }

  lemma PendingStep(rest: nat, done: string)
    ensures Decimal(rest) + done == Pending(rest / 10, [DigitChar(rest % 10)] + done)
  {
    if rest >= 10 {
      assert Decimal(rest) + done == Decimal(rest / 10) + ([DigitChar(rest % 10)] + done);
    }
  }

  /** The digit extraction loop: digits of `n` are stored from the end of the
      buffer towards its front until the number or the buffer is exhausted. */
  method ExtractDigits(n: nat, buf: array<char>, off: nat, length: nat) returns (index: int, rest: nat)
    requires 0 < length && off + length <= buf.Length
    modifies buf
    ensures rest > 0 <==> |Decimal(n)| > length
    ensures rest == 0 ==> index == length - 1 - |Decimal(n)| && buf[off + index + 1..off + length] == Decimal(n)
    ensures forall k :: 0 <= k < buf.Length && !(off <= k < off + length) ==> buf[k] == old(buf[k])
  {
    rest, index := n, length - 1;
    ghost var done := "";
    ghost var text := Decimal(n);
    assert text == Decimal(rest) + done;
    while true
      invariant 0 <= index < length
      invariant |done| == length - 1 - index
      invariant buf[off + index + 1..off + length] == done
      invariant text == Decimal(rest) + done
      invariant forall k :: 0 <= k < buf.Length && !(off <= k < off + length) ==> buf[k] == old(buf[k])
      decreases index
    {
      PendingStep(rest, done);
      var c := DigitChar(rest % 10);
      buf[off + index] := c;
      done := [c] + done;
      assert buf[off + index..off + length] == done;
      rest := rest / 10;
      index := index - 1;
      if !(index >= 0 && rest > 0) { break; }
    }
  }

  /** The digits of `data` at the end of the buffer; `index` is the byte before. */
  method PlaceDigits(data: int, buf: array<char>, off: nat, length: nat) returns (index: int, fits: bool)
    requires INT64_MIN <= data <= INT64_MAX
    requires 0 < length && off + length <= buf.Length
    modifies buf
    ensures fits <==> |Magnitude(data)| <= length
    ensures fits ==> index == length - 1 - |Magnitude(data)| && buf[off + index + 1..off + length] == Magnitude(data)
    ensures forall k :: 0 <= k < buf.Length && !(off <= k < off + length) ==> buf[k] == old(buf[k])
  {
    hide Decimal;
    if data == INT64_MIN {
      buf[off + length - 1] := '(';
      return length - 2, true;
    }
    var rest;
    index, rest := ExtractDigits(if data < 0 then -data else data, buf, off, length);
    fits := rest == 0;
  }

  method IntToText(data: int, buf: array<char>, off: nat, length: nat) returns (r: Outcome<nat>)
    requires INT64_MIN <= data <= INT64_MAX
    requires off + length <= buf.Length
    modifies buf
    ensures r == Counted(Render(data, length))
    ensures r.Ok? ==> buf[off..off + r.value] == Render(data, length).value
    ensures forall k :: 0 <= k < buf.Length && !(off <= k < off + length) ==> buf[k] == old(buf[k])
  {
    hide Magnitude, Decimal;
    if length == 0 { return Stuck; }
    var index, fits := PlaceDigits(data, buf, off, length);
    if !fits { return Refused; }
    if data < 0 {
      if index == 0 { return Refused; }
      if index < 0 { return Stuck; }
      buf[off + index] := '-';
      assert buf[off + index..off + length] == "-" + Magnitude(data);
    } else {
      index := index + 1;
    }
    var result := length - index;
    assert Render(data, length) == Ok(buf[off + index..off + length]);
    if result < length {
      MoveFront(buf, off, index, result);
    }
    return Ok(result);
  }

  /** `memmove` of `count` bytes from `off + from` down to `off`. */
  method MoveFront(buf: array<char>, off: nat, from: nat, count: nat)
    requires off + from + count <= buf.Length
    modifies buf
    ensures buf[off..off + count] == old(buf[off + from..off + from + count])
    ensures forall k :: 0 <= k < buf.Length && !(off <= k < off + count) ==> buf[k] == old(buf[k])
  {
    for k := off to off + count
      invariant forall j :: off <= j < k ==> buf[j] == old(buf[j + from])
      invariant forall j :: 0 <= j < buf.Length && !(off <= j < k) ==> buf[j] == old(buf[j])
    {
      buf[k] := buf[k + from];
    }
  }

  // ---------------------------------------------------------------- text to int

  /** The accumulator of `utils_textToInt` after reading `digits`: `None` once a
      non-digit is met or the guard against overflow fires.  The guard looks at
      the value before the next digit is added, so the last step may wrap. */
  function Accumulate(digits: string): (r: Option<nat>)
    ensures r.Some? ==> r.value <= UINT64_MAX
  {
    if digits == "" then Some(0)
    else
      var c := digits[|digits| - 1];
      match Accumulate(digits[..|digits| - 1])
      case None => None
      case Some(acc) =>
        if !IsDigit(c) || acc > UINT64_MAX / 10 then None
        else Some((acc * 10 + DigitValue(c)) % (UINT64_MAX + 1))
  }

  function SignLength(text: string): (n: nat)
    ensures n <= |text|
  {
    if |text| > 0 && text[0] == '-' then 1 else 0
  }

  /** What `utils_textToInt` returns for `text`. */
  function TextToInt(text: string): Option<int> {
    if text == "" then None
    else
      match Accumulate(text[SignLength(text)..])
      case None => None
      case Some(n) =>
        if n > INT64_MAX then None
        else
          var value: int := n;
          Some(if text[0] == '-' then -value else value)
  }

  lemma {:induction false} AccumulateStops(digits: string, k: nat)
    requires k <= |digits|
    ensures Accumulate(digits[..k]).None? ==> Accumulate(digits).None?
    decreases |digits|
  {
    if k < |digits| {
      assert digits[..|digits| - 1][..k] == digits[..k];
      AccumulateStops(digits[..|digits| - 1], k);
    } else {
      assert digits[..k] == digits;
    }
  }

  lemma AccumulateEmpty()
    ensures Accumulate("") == Some(0)
  {}

  lemma AccumulateNext(digits: string, k: nat)
    requires k < |digits| && Accumulate(digits[..k]).Some?
    ensures var acc := Accumulate(digits[..k]).value;
            Accumulate(digits[..k + 1]) ==
            if !IsDigit(digits[k]) || acc > UINT64_MAX / 10 then None
            else Some((acc * 10 + DigitValue(digits[k])) % (UINT64_MAX + 1))
  {
    assert digits[..k + 1][..k] == digits[..k];
  }

  method ParseInt(text: string) returns (r: Option<int>)
    ensures r == TextToInt(text)
  {
    hide Accumulate;
    if |text| == 0 { return None; }
    var negative := text[0] == '-';
    var i := if negative then 1 else 0;
    ghost var digits := text[i..];
    ghost var start := i;
    var result := 0;
    AccumulateEmpty();
    while i < |text|
      invariant start <= i <= |text|
      invariant Accumulate(digits[..i - start]) == Some(result)
    {
      AccumulateNext(digits, i - start);
      if IsDigit(text[i]) {
        if result > UINT64_MAX / 10 {
          AccumulateStops(digits, i + 1 - start);
          return None;
        }
        result := (result * 10 + DigitValue(text[i])) % (UINT64_MAX + 1);
      } else {
        AccumulateStops(digits, i + 1 - start);
        return None;
      }
      i := i + 1;
    }
    assert digits[..i - start] == digits;
    if result > INT64_MAX { return None; }
    return Some(if negative then -result else result);
  }

  lemma {:induction false} AccumulateExact(s: string)
    requires AllDigits(s) && NatValue(s) <= UINT64_MAX
    ensures Accumulate(s) == Some(NatValue(s))
  {
    if s != "" {
      AccumulateExact(s[..|s| - 1]);
    }
  }

  /** A digit string is read as its value exactly when the value is an `int64_t`. */
  lemma TextToIntExact(s: string)
    requires s != "" && AllDigits(s)
    ensures TextToInt(s) == Some(NatValue(s)) <==> NatValue(s) <= INT64_MAX
  {
    assert s[0] != '-';
    assert s[0..] == s;
    if NatValue(s) <= UINT64_MAX {
      AccumulateExact(s);
    }
  }

  const TWO64 := 0x1_0000_0000_0000_0000

  /** The guard fires while reading `s`: some proper prefix, taken modulo 2^64, is already
      above a tenth of the largest 64-bit number. */
  ghost predicate GuardFires(s: string)
    requires AllDigits(s)
  {
    exists k :: 0 <= k < |s| && Passes(s, k)
  }

  ghost predicate Passes(s: string, k: nat)
    requires AllDigits(s) && k <= |s|
  {
    NatValue(s[..k]) % TWO64 > UINT64_MAX / 10
  }

  lemma WrapDigit(v: nat, d: nat)
    ensures (v % TWO64 * 10 + d) % TWO64 == (v * 10 + d) % TWO64
  {
    var q := v / TWO64;
    assert v * 10 + d == (v % TWO64 * 10 + d) + q * 10 * TWO64;
  }

  lemma GuardFiresStep(s: string)
    requires AllDigits(s) && s != ""
    ensures var front := s[..|s| - 1]; GuardFires(s) <==> GuardFires(front) || Passes(s, |s| - 1)
  {
    hide NatValue;
    var front := s[..|s| - 1];
    forall k | 0 <= k < |front|
      ensures Passes(front, k) <==> Passes(s, k)
    {
      assert front[..k] == s[..k];
    }
  }

  /** The accumulator on a digit string: it is refused if and only if the guard fires, and
      else it is the value modulo 2^64. */
  lemma {:induction false} AccumulateWraps(s: string)
    requires AllDigits(s)
    ensures Accumulate(s) == if GuardFires(s) then None else Some(NatValue(s) % TWO64)
  {
    if s != "" {
      var front := s[..|s| - 1];
      AccumulateWraps(front);
      GuardFiresStep(s);
      WrapDigit(NatValue(front), DigitValue(s[|s| - 1]));
    }
  }

  lemma {:induction false} AccumulateDigits(s: string)
    requires Accumulate(s).Some?
    ensures AllDigits(s)
  {
    if s != "" { AccumulateDigits(s[..|s| - 1]); }
  }

  /** Which texts are refused, and what the others are read as: a sign and digits pass if
      the guard does not fire and the value modulo 2^64 is an `int64_t`. */
  lemma TextToIntSpec(t: string)
    ensures var digits := t[SignLength(t)..];
            TextToInt(t).Some? <==>
              t != "" && AllDigits(digits) && !GuardFires(digits) && NatValue(digits) % TWO64 <= INT64_MAX
    ensures var digits := t[SignLength(t)..];
            TextToInt(t).Some? ==>
              var value: int := NatValue(digits) % TWO64;
              TextToInt(t).value == if SignLength(t) == 1 then -value else value
  {
    hide GuardFires, NatValue;
    var digits := t[SignLength(t)..];
    if Accumulate(digits).Some? { AccumulateDigits(digits); }
    if AllDigits(digits) { AccumulateWraps(digits); }
  }

  /** The promise that a number above the `int64_t` range is refused is kept if and only if
      the guard fires or what is left modulo 2^64 is out of range as well. */
  lemma OutOfRangeExact(s: string)
    requires s != "" && AllDigits(s) && NatValue(s) > INT64_MAX
    ensures TextToInt(s) == None <==> GuardFires(s) || NatValue(s) % TWO64 > INT64_MAX
  {
    hide GuardFires, NatValue, TextToInt;
    assert s[0] != '-' && s[0..] == s;
    TextToIntSpec(s);
  }

  lemma DecimalRead(n: nat)
    requires n <= UINT64_MAX
    ensures Accumulate(Decimal(n)) == Some(n)
  {
    hide Accumulate, NatValue, Decimal;
    DecimalValue(n);
    AccumulateExact(Decimal(n));
  }

  /** The accumulator is small again after the wrap. */
  lemma WrappedDecimal(n: nat)
    requires UINT64_MAX < n <= UINT64_MAX + 4
    ensures Accumulate(Decimal(n)) == Some(n - UINT64_MAX - 1)
  {
    hide Accumulate;
    var s, front := Decimal(n), Decimal(n / 10);
    assert n / 10 == UINT64_MAX / 10;
    assert s == front + [DigitChar(n % 10)];
    DecimalRead(n / 10);
    assert s[..|front|] == front && s[..|front| + 1] == s;
    AccumulateNext(s, |front|);
  }

  /** That promise is not kept for the four numbers from 2^64 on. */
  lemma TextToIntWraps(n: nat)
    requires UINT64_MAX < n <= UINT64_MAX + 4
    ensures TextToInt(Decimal(n)) == Some(n - UINT64_MAX - 1)
  {
    hide Accumulate, Decimal;
    WrappedDecimal(n);
    assert Decimal(n)[0..] == Decimal(n);
  }

  lemma DigitBehindZero(s: string, d: nat)
    requires s != "" && s[0] != '-' && Accumulate(s) == Some(0) && d < 10
    ensures TextToInt(s + [DigitChar(d)]) == Some(d)
  {
    hide Accumulate;
    var t := s + [DigitChar(d)];
    assert t[..|s|] == s && t[..|s| + 1] == t && t[0..] == t;
    AccumulateNext(t, |s|);
  }

  /** Nor for longer texts that start with 2^64: 184467440737095516165 is read as 5. */
  lemma LongerTextWraps(n: nat, d: nat)
    requires n == UINT64_MAX + 1 && d < 10
    ensures TextToInt(Decimal(n) + [DigitChar(d)]) == Some(d)
  {
    hide Accumulate, TextToInt;
    WrappedDecimal(n);
    DigitBehindZero(Decimal(n), d);
  }

  lemma BracketRefused(t: string)
    requires t == "-("
    ensures TextToInt(t) == None
  {
    assert t[1..] == "(";
  }

  /** Writing a number and reading it back: the value returns unless it is the
      most negative one, whose text holds a character that is no digit. */
  lemma IntRoundTrip(v: int, length: nat)
    requires INT64_MIN <= v <= INT64_MAX
    requires Render(v, length).Ok?
    ensures TextToInt(Render(v, length).value) == Some(v) <==> v != INT64_MIN
  {
    hide Accumulate, Decimal;
    var t := Render(v, length).value;
    if v == INT64_MIN {
      BracketRefused(t);
    } else if v < 0 {
      assert t[1..] == Decimal(-v);
      DecimalRead(-v);
    } else {
      assert IsDigit(t[0]) && t[0..] == t;
      DecimalRead(v);
    }
  }

  /** A number is written if and only if its digits fit, with two bytes more for a negative
      one.  There is no digit to write in an empty buffer, and a negative number whose digits
      fill the buffer is written past its front. */
  lemma RenderExact(v: int, length: nat)
    requires INT64_MIN < v <= INT64_MAX
    ensures var digits := |Decimal(if v < 0 then -v else v)|;
            && (Render(v, length).Ok? <==> if v < 0 then digits + 2 <= length else digits <= length)
            && (Render(v, length).Stuck? <==> length == 0 || (v < 0 && digits == length))
  {
    hide Decimal;
    assert Decimal(if v < 0 then -v else v) == Magnitude(v);
  }

  // ---------------------------------------------------------------- string copy

  /** `utils_stringCopy`: copies `str` and a terminating NUL, or fails when the
      NUL does not fit.  `str` is a C string, so it holds no NUL itself. */
  method StringCopy(buf: array<char>, off: nat, length: nat, str: string) returns (r: Option<nat>)
    requires off + length <= buf.Length
    modifies buf
    ensures r == if |str| < length then Some(|str|) else None
    ensures r.Some? ==> buf[off..off + |str|] == str && buf[off + |str|] == NUL
    ensures forall k :: 0 <= k < buf.Length && !(off <= k < off + length) ==> buf[k] == old(buf[k])
  {
    var i := 0;
    while i < length && i < |str|
      invariant 0 <= i <= length && i <= |str|
      invariant buf[off..off + i] == str[..i]
      invariant forall k :: 0 <= k < buf.Length && !(off <= k < off + length) ==> buf[k] == old(buf[k])
    {
      buf[off + i] := str[i];
      assert buf[off..off + i + 1] == buf[off..off + i] + [str[i]];
      i := i + 1;
    }
    if i == length { return None; }
    buf[off + i] := NUL;
    return Some(i);
  }
}
