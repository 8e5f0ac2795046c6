/** The parts of the C++ standard library that the engine leans on, as they
    behave under libc++ on a 32-bit WebAssembly target: `std::size_t`
    arithmetic (which wraps), `std::string::find`, `rfind`, `substr` and
    `operator[]`, and C++ exceptions. */
module Cpp {

  datatype Option<+T> = None | Some(value: T)

  /** How a C++ computation ends abnormally: a thrown `std::exception` whose
      `what()` text is kept, or an operation whose behaviour the language
      leaves undefined (an out-of-range `std::vector::operator[]`). */
  datatype Fault = Exception(what: string) | Undefined

  datatype Result<+T> = Ok(value: T) | Fail(fault: Fault)

  /** `std::size_t` is 32 bits wide on wasm32. */
  const SizeModulus: nat := 0x1_0000_0000

  /** `std::string::npos`, the largest `std::size_t`. */
  const Npos: nat := 0xFFFF_FFFF

  type Size = n: nat | n < SizeModulus

  /** `a + b` on `std::size_t`: unsigned, modulo 2^32. */
  function Add(a: Size, b: Size): Size
  {
    if a + b < SizeModulus then a + b else a + b - SizeModulus
  }

  /** `a - b` on `std::size_t`: unsigned, modulo 2^32. */
  function Sub(a: Size, b: Size): Size
  {
    if a >= b then a - b else a - b + SizeModulus
  }

  /** The text libc++ gives the `std::out_of_range` thrown by `substr` when
      the start lies past the end of the string. */
  const SubstrOutOfRange: string := "basic_string"

  predicate MatchAt(s: string, pat: string, i: nat)
  {
    i + |pat| <= |s| && s[i..i + |pat|] == pat
  }

  /** `s.find(pat, from)`: the first occurrence at or after `from`, or npos. */
  function Find(s: string, pat: string, from: nat): (r: Size)
    requires |s| < Npos
    ensures r == Npos || (from <= r && MatchAt(s, pat, r))
    decreases |s| - from
  {
    if from + |pat| > |s| then Npos
    else if MatchAt(s, pat, from) then from
    else
      assert |pat| > 0 by { assert s[from..from] == []; }
      Find(s, pat, from + 1)
  }

  /** `s.find(c, from)` for a pattern of one character `c`: the first `c`
      at or after `from`, or npos. */
  function FindChar(s: string, c: char, from: nat): (r: Size)
    requires |s| < Npos
    ensures r == Npos || (from <= r < |s| && s[r] == c)
    decreases |s| - from
  {
    if from >= |s| then Npos else if s[from] == c then from else FindChar(s, c, from + 1)
  }

  /** `s.rfind(pat)`: the last occurrence, or npos. */
  function RFind(s: string, pat: string): (r: Size)
    requires |s| < Npos
    ensures r != Npos ==> MatchAt(s, pat, r)
  {
    if |pat| > |s| then Npos else RFindDown(s, pat, |s| - |pat|)
  }

  /** The last occurrence starting at or before `i`, or npos. */
  function RFindDown(s: string, pat: string, i: nat): (r: Size)
    requires |s| < Npos && i + |pat| <= |s|
    ensures r != Npos ==> r <= i && MatchAt(s, pat, r)
  {
    if MatchAt(s, pat, i) then i
    else if i == 0 then Npos
    else RFindDown(s, pat, i - 1)
  }

  /** `s.substr(pos, count)` once `pos <= s.size()` is known (otherwise it
      throws): at most `count` characters, clipped at the end of `s`. */
  function Substr(s: string, pos: nat, count: Size): (r: string)
    requires pos <= |s|
    ensures |r| == if count < |s| - pos then count else |s| - pos
    ensures r == s[pos..pos + |r|]
  {
    if count < |s| - pos then s[pos..pos + count] else s[pos..]
  }

  /** `s[i]` for `i <= s.size()`: the terminating NUL at `i == s.size()`. */
  function At(s: string, i: nat): char
    requires i <= |s|
  {
    if i < |s| then s[i] else '\0'
  }

  /** No match lies between `from` and what `Find` returns: it is the
      first one. */
  lemma {:induction false} FindFirst(s: string, pat: string, from: nat)
    requires |s| < Npos
    ensures forall i: nat :: from <= i < Find(s, pat, from) ==> !MatchAt(s, pat, i)
    decreases |s| - from
  {
    if from + |pat| <= |s| && !MatchAt(s, pat, from) {
      FindFirst(s, pat, from + 1);
    }
  }

  /** `Find` returns the first match at or after `from` whenever there is one. */
  lemma {:induction false} FoundIs(s: string, pat: string, from: nat, k: nat)
    requires |s| < Npos && from <= k && MatchAt(s, pat, k)
    requires forall i: nat :: from <= i < k ==> !MatchAt(s, pat, i)
    ensures Find(s, pat, from) == k
    decreases k - from
  {
    if from < k {
      FoundIs(s, pat, from + 1, k);
    }
  }

  /** No match starts after what `RFindDown` returns, up to `i`; npos means
      none at all up to `i`. */
  lemma {:induction false} RFindDownLast(s: string, pat: string, i: nat)
    requires |s| < Npos && i + |pat| <= |s|
    ensures var r := RFindDown(s, pat, i);
            (r != Npos ==> forall k: nat :: r < k <= i ==> !MatchAt(s, pat, k)) &&
            (r == Npos ==> forall k: nat :: k <= i ==> !MatchAt(s, pat, k))
  {
    if !MatchAt(s, pat, i) && i > 0 {
      RFindDownLast(s, pat, i - 1);
    }
  }

  /** `RFind` returns the last match; npos means there is none. */
  lemma RFindLast(s: string, pat: string)
    requires |s| < Npos
    ensures var r := RFind(s, pat);
            (r != Npos ==> forall k: nat :: r < k ==> !MatchAt(s, pat, k)) &&
            (r == Npos ==> forall k: nat :: !MatchAt(s, pat, k))
  {
    if |pat| <= |s| {
      RFindDownLast(s, pat, |s| - |pat|);
    }
  }

  /** Searching for a one-character string is searching for its character. */
  lemma {:induction false} FindCharIsFind(s: string, c: char, from: nat)
    requires |s| < Npos
    ensures FindChar(s, c, from) == Find(s, [c], from)
    decreases |s| - from
  {
    if from < |s| {
      assert MatchAt(s, [c], from) <==> s[from] == c by {
        assert s[from..from + 1] == [s[from]];
      }
      FindCharIsFind(s, c, from + 1);
    }
  }
}
