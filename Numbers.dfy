/** Reading integers out of argument text: `to_int`, which is `std::stoi`,
    and `to_int_set`, which extracts integers from a `std::stringstream`
    with `>>`, discarding one separator character after each. Both skip
    leading white space, take an optional sign and then decimal digits, and
    only accept values that fit a 32-bit `int`. */
module Numbers {
  import opened Cpp

  const IntMin: int := -0x8000_0000
  const IntMax: int := 0x7FFF_FFFF

  /** The texts libc++ gives the exceptions `std::stoi` throws. */
  const StoiNoConversion: string := "stoi: no conversion"
  const StoiOutOfRange: string := "stoi: out of range"

  /** White space in the "C" locale. */
  predicate IsSpace(c: char)
  {
    c == ' ' || c == '\t' || c == '\n' || c == '\U{0B}' || c == '\U{0C}' || c == '\r'
  }

  predicate IsDigit(c: char)
  {
    '0' <= c <= '9'
  }

  predicate AllDigits(s: string)
  {
    forall i :: 0 <= i < |s| ==> IsDigit(s[i])
  }

  /** The number of leading white-space characters of `s`. */
  function SkipSpace(s: string): (n: nat)
    ensures n <= |s|
    ensures forall i :: 0 <= i < n ==> IsSpace(s[i])
    ensures n == |s| || !IsSpace(s[n])
  {
    if s != [] && IsSpace(s[0]) then 1 + SkipSpace(s[1..]) else 0
  }

  /** The number of leading decimal digits of `s`. */
  function DigitRun(s: string): (n: nat)
    ensures n <= |s| && AllDigits(s[..n])
    ensures n == |s| || !IsDigit(s[n])
  {
    if s != [] && IsDigit(s[0]) then
      var m := DigitRun(s[1..]);
      assert s[..1 + m] == [s[0]] + s[1..][..m];
      1 + m
    else 0
  }

  function DigitValue(c: char): nat
    requires IsDigit(c)
  {
    c as int - '0' as int
  }

  /** The value of a string of decimal digits, read most significant first. */
  function DigitsValue(d: string): nat
    requires AllDigits(d)
  {
    if d == [] then 0 else DigitsValue(d[..|d| - 1]) * 10 + DigitValue(d[|d| - 1])
  }

  /** A run of decimal digits at the start of `t`: its value and its
      length, or None when `t` does not start with a digit. */
  function ScanDigits(t: string): (r: Option<(nat, nat)>)
    ensures r.Some? ==> 0 < r.value.1 <= |t|
  {
    var n := DigitRun(t);
    if n == 0 then None else Some((DigitsValue(t[..n]), n))
  }

  /** An optional sign followed by at least one digit, at the start of `t`. */
  function ScanSigned(t: string): (r: Option<(int, nat)>)
    ensures r.Some? ==> 0 < r.value.1 <= |t|
  {
    if t != [] && (t[0] == '+' || t[0] == '-') then
      match ScanDigits(t[1..])
      case None => None
      case Some((v, n)) =>
        var value: int := if t[0] == '-' then -(v as int) else v;
        Some((value, n + 1))
    else
      match ScanDigits(t)
      case None => None
      case Some((v, n)) => Some((v, n))
  }

  /** What `strtol` and the stream extractor agree on: after white space, an
      optional sign and at least one digit. The result is the (unbounded)
      value and the number of characters consumed, or None when no digit
      follows. */
  function ScanInteger(s: string): (r: Option<(int, nat)>)
    ensures r.Some? ==> 0 < r.value.1 <= |s|
  {
    var w := SkipSpace(s);
    match ScanSigned(s[w..])
    case None => None
    case Some((v, n)) => Some((v, w + n))
  }

  /** `to_int`, that is `std::stoi(s)`: the leading integer of `s`; text
      after it is ignored. */
  function ToInt(s: string): (r: Result<int>)
    ensures r.Ok? ==> IntMin <= r.value <= IntMax
    ensures r.Ok? <==> ScanInteger(s).Some? && IntMin <= ScanInteger(s).value.0 <= IntMax
    ensures r.Fail? ==> r.fault == Exception(if ScanInteger(s).None? then StoiNoConversion else StoiOutOfRange)
  {
    match ScanInteger(s)
    case None => Fail(Exception(StoiNoConversion))
    case Some((v, _)) =>
      if v < IntMin || IntMax < v then Fail(Exception(StoiOutOfRange)) else Ok(v)
  }

  /** `ss >> x` for an `int x`: the value and the characters consumed, or
      None when the extraction fails (no digits, or a value too wide for
      `int`), which ends the reading loop. */
  function ReadInt(s: string): (r: Option<(int, nat)>)
    ensures r.Some? ==> IntMin <= r.value.0 <= IntMax && 0 < r.value.1 <= |s|
  {
    match ScanInteger(s)
    case None => None
    case Some((v, n)) => if v < IntMin || IntMax < v then None else Some((v, n))
  }

  /** `ss >> c` for a `char c`: skip white space, then take one character. */
  function DropSeparator(s: string): (r: string)
    ensures |r| < |s| || r == []
  {
    var w := SkipSpace(s);
    if w < |s| then s[w + 1..] else []
  }

  /** The set `to_int_set` builds from the stream contents `s`. */
  function IntsOf(s: string): set<int>
    decreases |s|
  {
    match ReadInt(s)
    case None => {}
    case Some((x, n)) => {x} + IntsOf(DropSeparator(s[n..]))
  }

  /** `to_int_set`: read an integer, discard one character, repeat until an
      integer read fails. */
  method ToIntSet(s: string) returns (st: set<int>)
    ensures st == IntsOf(s)
  {
    st := {};
    var rest := s;
    var read := ReadInt(rest);
    while read.Some?
      invariant read == ReadInt(rest)
      invariant st + IntsOf(rest) == IntsOf(s)
      decreases |rest|
    {
      var (x, n) := read.value;
      st := st + {x};
      rest := DropSeparator(rest[n..]);
      read := ReadInt(rest);
    }
  }

  /* Decimal rendering, the inverse the readers are checked against. */

  function DigitChar(d: nat): (c: char)
    requires d < 10
    ensures IsDigit(c) && DigitValue(c) == d
  {
    ('0' as int + d) as char
  }

  /** The decimal digits of `n`, without leading zeros. */
  function Digits(n: nat): (d: string)
    ensures |d| > 0 && AllDigits(d)
  {
    if n < 10 then [DigitChar(n)] else Digits(n / 10) + [DigitChar(n % 10)]
  }

  /** The usual decimal text of `x`, with a `-` when it is negative. */
  function Show(x: int): string
  {
    if x < 0 then "-" + Digits(-x) else Digits(x)
  }

  lemma {:induction false} DigitsValueOfDigits(n: nat)
    ensures DigitsValue(Digits(n)) == n
  {
    if n >= 10 {
      var d := Digits(n);
      assert d[..|d| - 1] == Digits(n / 10);
      DigitsValueOfDigits(n / 10);
    }
  }

  /** A digit run stops exactly where the digits stop. */
  lemma DigitRunOf(d: string, tail: string)
    requires AllDigits(d)
    requires tail == [] || !IsDigit(tail[0])
    ensures DigitRun(d + tail) == |d| && (d + tail)[..|d|] == d
  {
    var t := d + tail;
    assert forall i :: 0 <= i < |d| ==> IsDigit(t[i]);
    assert |d| == |t| || !IsDigit(t[|d|]);
  }

  /** A digit string followed by a non-digit scans as its value. */
  lemma ScanDigitsOf(d: string, tail: string)
    requires |d| > 0 && AllDigits(d)
    requires tail == [] || !IsDigit(tail[0])
    ensures ScanDigits(d + tail) == Some((DigitsValue(d), |d|))
  {
    DigitRunOf(d, tail);
  }

  /** Unsigned decimal text scans as its value. */
  lemma ScanUnsigned(m: nat, tail: string)
    requires tail == [] || !IsDigit(tail[0])
    ensures ScanSigned(Digits(m) + tail) == Some((m, |Digits(m)|))
  {
    var d := Digits(m);
    assert IsDigit((d + tail)[0]) by { assert (d + tail)[0] == d[0]; }
    ScanDigitsOf(d, tail);
    DigitsValueOfDigits(m);
  }

  /** A minus sign before decimal text negates its value. */
  lemma ScanNegative(m: nat, tail: string)
    requires tail == [] || !IsDigit(tail[0])
    ensures ScanSigned("-" + Digits(m) + tail) == Some((-(m as int), 1 + |Digits(m)|))
  {
    var d := Digits(m);
    assert ("-" + d + tail)[1..] == d + tail;
    ScanDigitsOf(d, tail);
    DigitsValueOfDigits(m);
  }

  /** The decimal text of `x`, sign included, scans as `x`. */
  lemma ScanSignedShow(x: int, tail: string)
    requires tail == [] || !IsDigit(tail[0])
    ensures ScanSigned(Show(x) + tail) == Some((x, |Show(x)|))
  {
    if x < 0 {
      ScanNegative(-x, tail);
    } else {
      ScanUnsigned(x, tail);
    }
  }

  /** Decimal text starts with a sign or a digit, never with white space. */
  lemma ShowStart(x: int, tail: string)
    ensures |Show(x) + tail| > 0 && !IsSpace((Show(x) + tail)[0])
  {
    if x >= 0 {
      assert IsDigit(Digits(x)[0]);
    }
  }

  /** Scanning the decimal text of `x` gives `x` back and consumes exactly
      that text, whatever non-digit text follows it. */
  lemma ScanShow(x: int, tail: string)
    requires tail == [] || !IsDigit(tail[0])
    ensures ScanInteger(Show(x) + tail) == Some((x, |Show(x)|))
  {
    var t := Show(x) + tail;
    ShowStart(x, tail);
    assert SkipSpace(t) == 0;
    assert t[0..] == t;
    ScanSignedShow(x, tail);
  }

  /** `std::stoi` reads back every `int` from its decimal text, after any
      white space and before any non-digit text. */
  lemma ToIntShow(space: string, x: int, tail: string)
    requires forall i :: 0 <= i < |space| ==> IsSpace(space[i])
    requires IntMin <= x <= IntMax
    requires tail == [] || !IsDigit(tail[0])
    ensures ToInt(space + Show(x) + tail) == Ok(x)
  {
    ShowStart(x, tail);
    ScanSignedShow(x, tail);
    ScanAfterSpace(space, Show(x) + tail);
    assert space + Show(x) + tail == space + (Show(x) + tail);
  }

  /** Leading white space does not change what the scanner reads. */
  lemma ScanAfterSpace(space: string, t: string)
    requires forall i :: 0 <= i < |space| ==> IsSpace(space[i])
    requires t == [] || !IsSpace(t[0])
    ensures ScanInteger(space + t) ==
            if ScanSigned(t).None? then None else Some((ScanSigned(t).value.0, |space| + ScanSigned(t).value.1))
  {
    var u := space + t;
    assert forall i :: 0 <= i < |space| ==> IsSpace(u[i]);
    assert |space| == |u| || !IsSpace(u[|space|]);
    assert SkipSpace(u) == |space|;
    assert u[|space|..] == t;
  }

  function JoinInts(xs: seq<int>, sep: char): string
  {
    if |xs| == 0 then ""
    else if |xs| == 1 then Show(xs[0])
    else Show(xs[0]) + [sep] + JoinInts(xs[1..], sep)
  }

  /** `to_int_set` reads back every list of `int`s written in decimal and
      separated by one character that is neither a digit nor white space;
      repeated values collapse into one element. */
  lemma {:induction false} IntsOfJoin(xs: seq<int>, sep: char)
    requires forall i :: 0 <= i < |xs| ==> IntMin <= xs[i] <= IntMax
    requires !IsDigit(sep) && !IsSpace(sep)
    ensures IntsOf(JoinInts(xs, sep)) == set x | x in xs
  {
    if |xs| == 1 {
      IntsOfLast(xs[0]);
    } else if |xs| > 1 {
      IntsOfFirst(xs[0], sep, JoinInts(xs[1..], sep));
      IntsOfJoin(xs[1..], sep);
      assert (set x | x in xs) == {xs[0]} + set x | x in xs[1..];
    }
  }

  /** The last integer of the list: nothing follows it. */
  lemma IntsOfLast(x: int)
    requires IntMin <= x <= IntMax
    ensures IntsOf(Show(x)) == {x}
  {
    ScanShow(x, []);
    assert Show(x) + [] == Show(x);
    assert Show(x)[|Show(x)|..] == [];
    assert ReadInt([]) == None;
  }

  /** An integer and its separator are read off the front of the list. */
  lemma IntsOfFirst(x: int, sep: char, rest: string)
    requires IntMin <= x <= IntMax
    requires !IsDigit(sep) && !IsSpace(sep)
    ensures IntsOf(Show(x) + [sep] + rest) == {x} + IntsOf(rest)
  {
    var s := Show(x) + [sep] + rest;
    assert s == Show(x) + ([sep] + rest);
    ReadIntShow(x, [sep] + rest);
    assert s[|Show(x)|..] == [sep] + rest;
    DropOne(sep, rest);
    IntsOfStep(s, x, |Show(x)|);
  }

  /** `ss >> x` reads back an `int` from its decimal text. */
  lemma ReadIntShow(x: int, tail: string)
    requires IntMin <= x <= IntMax
    requires tail == [] || !IsDigit(tail[0])
    ensures ReadInt(Show(x) + tail) == Some((x, |Show(x)|))
  {
    ScanShow(x, tail);
  }

  /** `ss >> c` takes a separator that is not white space. */
  lemma DropOne(sep: char, rest: string)
    requires !IsSpace(sep)
    ensures DropSeparator([sep] + rest) == rest
  {
    assert SkipSpace([sep] + rest) == 0;
    assert ([sep] + rest)[1..] == rest;
  }

  /** One turn of the reading loop of `to_int_set`. */
  lemma IntsOfStep(s: string, x: int, n: nat)
    requires ReadInt(s) == Some((x, n))
    ensures n <= |s| && IntsOf(s) == {x} + IntsOf(DropSeparator(s[n..]))
  {
  }

  /** Input whose first non-blank character cannot start an integer, such as
      the brace list `{1,2}`, yields the empty set. */
  lemma NoLeadingInteger(s: string)
    requires var w := SkipSpace(s); w < |s| && !IsDigit(s[w]) && s[w] != '+' && s[w] != '-'
    ensures IntsOf(s) == {}
  {
    var w := SkipSpace(s);
    assert DigitRun(s[w..]) == 0;
    assert ScanSigned(s[w..]) == None;
  }
}
