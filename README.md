# tgen_online evaluator, modelled in Dafny

This project models the string-level evaluator of tgen_online (`engine.cpp`).
The evaluator takes a piece of source text such as

    tgen::sequence<int>(1,5,10).distinct({1,2}).gen()

and does the following:

- It cuts out the generator expression, from the first `tgen::` through the
  last `.gen()`.
- It builds a root object from the constructor call `name(args)`:
  `make_object`, with `to_int` (`std::stoi`) for the numbers.
- It reads the `.method(args)` segments one by one. It skips spaces and
  newlines between them, writes a `method: <name>` trace line into the
  global `captured`, and dispatches the call through the object's method
  table (`SeqObj::call`, `PermObj::call`).
- It stops at a character other than `.`, or when a call returns a null
  pointer (`gen` does).
- Any exception replaces everything captured so far with its message.
- Arguments are cut at depth-zero commas by `split_args`. `distinct` reads
  its set with `to_int_set`.

Modules (one file each):

- `Cpp`: the parts of the C++ library the evaluator relies on, as libc++
  behaves on 32-bit WebAssembly.
  - `std::size_t` arithmetic wraps modulo 2^32, and `npos` is 2^32 - 1.
  - `find`, `rfind`, `substr` (which throws when the start is past the end)
    and `operator[]` (which reads the terminating NUL at `size()`).
  - Exceptions and undefined behaviour are the two kinds of `Fault`.
- `Numbers`: `std::stoi` and the `>>` extractor of `std::stringstream` for
  `int` and `char`, `to_int`, and `to_int_set`.
  - `to_int_set` is a `while` loop proved against its specification.
  - The round trips from decimal text back to the numbers are proved.
- `Split`: `split_args`, a `for` loop proved against a recursive
  specification.
  - Proved: join-after-split gives the text back; the number of pieces; the
    inverse on flat arguments; brace groups are kept whole.
  - The documented cases (a brace group, empty input, an empty middle
    argument, a trailing comma, a `}` before a comma) are proved as examples.
- `Objects`: the runtime objects, `make_object` and the two method tables.
  - The tgen backend appears only as the calls that built a value.
  - The text `gen()` prints comes from a `Backend` parameter.
- `Engine`: the evaluator.
  - Pure specification functions: `Extract`, `Interpret`, `Segments`,
    `Fold`, `Evaluate`.
  - The class `Engine`, whose field `captured` is the global of the same
    name. Its methods `Run`, `Chain`, `SkipBlanksFrom` and `Invoke` carry
    the loops of `run`, and each is proved to compute the specification.
  - A theory of sources as written (`Written`, `Text`, `Source`). It ends in
    `EvaluateWritten`: a source built from a constructor call and a list of
    readable calls ending in `.gen()` evaluates to the chain of exactly those
    calls, in order.
- `Examples`: two whole runs on concrete sources, derived from
  `EvaluateWritten`.

Behaviour of the code worth knowing:

- One might expect `distinct({1,2})` to exclude 1 and 2. As written,
  `to_int_set("{1,2}")` is empty: the first extraction fails on `{`
  (`Numbers.NoLeadingInteger`), so `distinct` excludes nothing.
- `pos` does not always increase in the segment loop. With no closing `)`,
  `a_end + 1` wraps to 0, and the next turn stops at the leading `t` of
  `tgen::`. So the loop still ends. `Segments` and `Chain` use a measure
  that allows this one wrap, and `Engine.SegmentAt` states when it happens.
- `PermObj::call` appends `TEST` to `captured` before looking at the method
  name. When the name is unknown, the exception replaces `captured`, so the
  `TEST` is not in the output (`Examples.UnknownPermutationMethod`).

## Model

| member | source | states |
|---|---|---|
| Cpp.Find | engine.cpp:129 | `find` returns npos or a position at or after the start where the pattern occurs |
| Cpp.Add | engine.cpp:134 | `size_t` addition modulo 2^32. It has no contract of its own: `Engine.WrappedSpan` states its wrap in `end - start + 6`, and `Engine.SegmentAt` its wrap in `a_end + 1` |
| Cpp.Sub | engine.cpp:138 | `size_t` subtraction modulo 2^32. It has no contract of its own: `Engine.WrappedSpan` and `Engine.HeaderValues` state its results in the lengths of lines 134, 138 and 141 |
| Cpp.At | engine.cpp:148-149 | `expr[pos]`, reading the NUL at `size()`. It has no contract of its own: `Engine.SkipBlanks` and `Engine.NextSegment` state what the loop reads through it |
| Cpp.FindFirst | engine.cpp:129 | no occurrence lies between the start and what `find` returns: it is the first |
| Cpp.FoundIs | engine.cpp:129 | whenever the first occurrence at or after the start is at `k`, `find` returns `k` |
| Cpp.FindChar | engine.cpp:137 | `find` of a one-character pattern returns npos or a position at or after the start holding that character |
| Cpp.FindCharIsFind | engine.cpp:137 | the one-character search agrees with the general `find` of the one-character string |
| Cpp.RFind | engine.cpp:130 | `rfind` returns npos or a position where the pattern occurs |
| Cpp.RFindDown | engine.cpp:130 | the backward scan of `rfind` returns npos or an occurrence at or before where it starts; `Cpp.RFindDownLast` makes it the last |
| Cpp.RFindDownLast | engine.cpp:130 | the backward scan finds the last occurrence up to its start, and npos only when there is none |
| Cpp.RFindLast | engine.cpp:130 | `rfind` returns the last occurrence, and npos exactly when there is none |
| Cpp.Substr | engine.cpp:134 | `substr(pos, count)` has length `min(count, size - pos)` and is the text of `s` from `pos` on |
| Numbers.ScanInteger | engine.cpp:27 | the scan shared by `stoi` and `>>` consumes at least one character and no more than the text |
| Numbers.ToInt | engine.cpp:26-28 | `stoi` succeeds exactly when an integer is read and fits `int`; otherwise it throws "stoi: no conversion" or "stoi: out of range" |
| Numbers.ReadInt | engine.cpp:34 | `ss >> x` yields an `int`-ranged value and consumes at least one character, or fails |
| Numbers.SkipSpace | engine.cpp:27 | the leading white space that `stoi` and `>>` skip: only white space is passed, and the skip stops at the first other character or the end |
| Numbers.ScanSigned | engine.cpp:27 | an optional sign, then digits, consuming at least one character and no more than the text; `Numbers.ScanSignedShow` reads every integer back from its text |
| Numbers.DropSeparator | engine.cpp:34 | `ss >> c` shortens the remaining text, unless nothing remains |
| Numbers.ToIntSet | engine.cpp:30-36 | the reading loop returns exactly the set `IntsOf` specifies |
| Numbers.IntsOf | engine.cpp:30-36 | the set the `to_int_set` loop reads. It has no contract of its own: `Numbers.IntsOfStep`, `IntsOfJoin`, `IntsOfLast`, `IntsOfFirst` and `NoLeadingInteger` characterise it |
| Numbers.DigitsValueOfDigits | engine.cpp:27 | decimal digits read back as the number they render |
| Numbers.ScanShow | engine.cpp:27 | the decimal text of any integer, followed by a non-digit, scans back as that integer and consumes exactly its text |
| Numbers.ScanAfterSpace | engine.cpp:27 | leading white space does not change the value read, only the count consumed |
| Numbers.ToIntShow | engine.cpp:26-28 | `to_int` returns every `int` from its decimal text, after any white space and before any non-digit |
| Numbers.ReadIntShow | engine.cpp:34 | `ss >> x` reads back every `int` from its decimal text |
| Numbers.DropOne | engine.cpp:34 | `ss >> c` discards exactly one separator that is not white space |
| Numbers.IntsOfStep | engine.cpp:34 | one turn of the loop: the integer read joins the set and one character after it is dropped |
| Numbers.IntsOfLast | engine.cpp:30-36 | a single decimal `int` reads as the set holding it |
| Numbers.IntsOfFirst | engine.cpp:30-36 | an integer and the separator after it are read off the front, and the rest is read on |
| Numbers.IntsOfJoin | engine.cpp:30-36 | a list of `int`s joined by a separator that is neither a digit nor white space reads back as the set of its elements, so duplicates collapse |
| Numbers.NoLeadingInteger | engine.cpp:30-36 | text whose first non-blank character cannot start an integer, such as `{1,2}`, gives the empty set |
| Split.SplitArgs | engine.cpp:109-121 | the loop over the characters returns exactly `Pieces(s)` |
| Split.Step | engine.cpp:114-115 | the brace depth after one character. It has no contract of its own: `Split.DepthAppend`, `OpenTextHasNoCut` and `NegativeDepthExample` characterise it |
| Split.IsCut | engine.cpp:116 | a comma at depth zero ends an argument. It has no contract of its own: `Split.SplitCount` counts such commas, and `JoinSplit` shows that they are the only characters dropped |
| Split.Split | engine.cpp:112-119 | the loop of `split_args` from a depth and a current argument, as a recursive function. It has no contract of its own: `Split.JoinSplit`, `SplitCount`, `SplitPrefix` and `SplitNonEmpty` characterise it |
| Split.Pieces | engine.cpp:109-121 | `split_args` from depth zero and an empty argument. It has no contract of its own: `Split.JoinPieces`, `PiecesCount` and `PiecesOfJoin` characterise it |
| Split.SplitNonEmpty | engine.cpp:119 | when text or a current argument remains, at least one argument is produced |
| Split.JoinSplit | engine.cpp:112-119 | joining the arguments with commas gives the text back, less a final depth-zero comma |
| Split.JoinKeep | engine.cpp:117 | a character that ends no argument is kept in the current argument by the join |
| Split.JoinLastCut | engine.cpp:116-119 | a final depth-zero comma pushes the current argument and is itself dropped |
| Split.JoinCutStep | engine.cpp:116 | a depth-zero comma before more text ends the argument and comes back in the join |
| Split.JoinCut | engine.cpp:116 | joining puts a comma between an argument and those that follow it |
| Split.JoinPieces | engine.cpp:109-121 | `split_args` output joined with commas is the input, except for a dropped trailing top-level comma |
| Split.SplitCount | engine.cpp:116-119 | the number of arguments is the number of depth-zero commas, plus one if text remains after the last one |
| Split.PiecesCount | engine.cpp:109-121 | the count of `split_args` output: one per depth-zero comma, plus one for a non-empty final accumulator |
| Split.SplitPrefix | engine.cpp:113-117 | text that ends no argument is carried whole into the current argument, and the depth moves on |
| Split.PiecesOfJoin | engine.cpp:109-121 | `split_args` gives back any list of flat arguments joined with commas whose last argument is not empty; empty middle arguments survive |
| Split.OpenTextHasNoCut | engine.cpp:114-116 | text read at depth one or more cuts nothing |
| Split.DepthAppend | engine.cpp:114-115 | the depth after two texts is the depth after the second one, read from the depth after the first |
| Split.NoCutAppend | engine.cpp:116 | two texts that cut nothing in turn cut nothing together |
| Split.BraceGroupIsFlat | engine.cpp:112-117 | a balanced `{...}` group is never split at its inner commas and leaves the depth at zero |
| Split.GroupExample | engine.cpp:109-121 | `"a,{1,2,3},b"` gives `["a","{1,2,3}","b"]` |
| Split.EmptyExample | engine.cpp:109-121 | empty input gives no argument |
| Split.EmptyMiddleExample | engine.cpp:109-121 | `"a,,b"` gives `["a","","b"]` |
| Split.TrailingCommaExample | engine.cpp:109-121 | `"a,b,"` gives `["a","b"]` |
| Split.NegativeDepthExample | engine.cpp:112-117 | the depth is not clamped: after `}` it is negative and the comma in `"},a"` does not split |
| Objects.IntArgs | engine.cpp:95 | the left-to-right conversion of the first `k` arguments, on success, reads `k` of them and returns `k` values |
| Objects.Arity | engine.cpp:93-101 | how many numbers each constructor reads: three for `sequence<int>` and one for `permutation`. It has no contract of its own: it appears in `Objects.MakeObject` and `ExtraArgumentsIgnored` |
| Objects.MakeObject | engine.cpp:92-105 | dispatch on the exact name: `sequence<int>` reads three numbers and `permutation` one; any other name throws "Unknown generator " + name; success exactly when the name is known and its arguments convert, and a failed conversion fails the same way (the `stoi` exception, or a read past the arguments only when there are too few) |
| Objects.SeqCall | engine.cpp:45-63 | `equal_range` converts two arguments and returns the narrowed sequence, or fails as that conversion fails; `distinct` excludes `to_int_set` of its first argument, undefined without one; `gen` emits the rendering plus a newline and is the only call returning null; any other name throws "Unknown sequence method: " + m; a returned object is a new sequence built on the receiver |
| Objects.PermCall | engine.cpp:74-86 | `TEST` is emitted first on every call; `gen` adds the rendering and a newline and returns null; any other name throws "Unknown permutation method: " + m |
| Objects.Dispatch | engine.cpp:160 | the virtual `call` returns null exactly for `gen`, and only a sequence returns a new object |
| Objects.IntArgsValues | engine.cpp:95 | a successful conversion holds the value of each of the first `k` arguments |
| Objects.IntArgsLast | engine.cpp:95 | a successful conversion of `k` arguments extends that of `k - 1` by the value of the last |
| Objects.IntArgsSucceed | engine.cpp:95 | the conversion succeeds when there are `k` arguments and each is an integer |
| Objects.UndefinedOnlyPastEnd | engine.cpp:95 | an out-of-range read happens only with fewer than `k` arguments, all of which converted |
| Objects.UndefinedPastEnd | engine.cpp:95 | with fewer than `k` arguments that all convert, the read past the end does happen |
| Objects.IntArgsUndefined | engine.cpp:95 | both directions: undefined exactly when arguments are missing and every present one converts |
| Objects.IntArgsException | engine.cpp:95 | a conversion that throws throws the exception of one of the first `k` arguments |
| Objects.IntArgsPrefix | engine.cpp:95 | arguments after the first `k` do not affect the conversion of the first `k` |
| Objects.ExtraArgumentsIgnored | engine.cpp:92-105 | a constructor ignores arguments beyond the ones it reads |
| Engine.Extract | engine.cpp:129-134 | the expression is absent exactly when `tgen::` or `.gen()` is missing; otherwise it runs from the first `tgen::` through the last `.gen()`, or to the end of the text when the length wraps |
| Engine.WrappedSpan | engine.cpp:134 | `substr(start, end - start + 6)` with wrapping `size_t` is the span through `.gen()`, or the rest of the text when that `.gen()` ends before `start` |
| Engine.ExtractedAt | engine.cpp:129-134 | when both markers are found, the expression is the `substr` `run` takes |
| Engine.EvaluateIs | engine.cpp:134-138 | an extracted expression of six or more characters starts with `tgen::`, and `run` interprets it |
| Engine.InterpretIs | engine.cpp:137-145 | the name runs from after `tgen::` to the first `(`, the arguments to the first `)`, and the loop starts after that `)` |
| Engine.HeaderIs | engine.cpp:137-143 | `run` on a source builds the object from that name and those arguments, then folds the segments after the first `)` |
| Engine.SkipBlanks | engine.cpp:148 | the skip passes only spaces and newlines, and stops at a character that is neither, the NUL at the end included |
| Engine.NextSegment | engine.cpp:147-161 | a turn finds a segment exactly when the character after the blanks is `.`; the next position is past it, or zero after a wrap |
| Engine.SegmentAt | engine.cpp:152-161 | with a `(` found from `start` and a `)` after it, the name lies between `start` and the `(`, the argument text between the `(` and the `)`, and reading goes on just past the `)`; the next position wraps to zero exactly when no `)` follows, with the rest of the text as arguments, or, when no `(` follows either, the rest as the name and the whole expression as arguments |
| Engine.Segments | engine.cpp:145-161 | the segments the loop reads from `pos`. It has no contract of its own: `Engine.SegmentsCons`, `NoSegment`, `SegmentsWritten` and `CallsAfter` characterise it |
| Engine.Call | engine.cpp:155-167 | one dispatched segment. It has no contract of its own: `Engine.CallOutcome` and `Turn` characterise it |
| Engine.Fold | engine.cpp:147-163 | the segment loop over a list of segments. It has no contract of its own: `Engine.FoldStep`, `FoldDone`, `FoldAppend`, `GenStops` and `LaterSegmentsIgnored` characterise it |
| Engine.EvaluateChain | engine.cpp:143-167 | build the object, then fold the segments from an empty `captured`; a constructor exception becomes the output. It has no contract of its own: `Engine.SourceInterpreted` and `Examples.UnknownPermutationMethod` use it |
| Engine.Interpret | engine.cpp:137-145 | read the constructor call and start the loop after its `)`. It has no contract of its own: `Engine.InterpretIs` and `HeaderFound` characterise it |
| Engine.Evaluate | engine.cpp:123-171 | what `run` returns. It has no contract of its own: `Engine.Engine.Run` computes it, and `Engine.EvaluateIs`, `HeaderIs` and `EvaluateWritten` characterise it |
| Engine.Engine.constructor | engine.cpp:12 | `captured` starts empty |
| Engine.Engine.Run | engine.cpp:123-171 | `run` returns `Evaluate(code)`, and whenever the outcome is defined, `captured` holds its text |
| Engine.Engine.Chain | engine.cpp:145-163 | the segment loop computes the fold of the segments from `pos`, starting from the `captured` on entry, and leaves its text in `captured` |
| Engine.Engine.SkipBlanksFrom | engine.cpp:148 | the inner loop stops where `SkipBlanks` does |
| Engine.Engine.Invoke | engine.cpp:150-160 | one turn reads the segment after the `.`, appends the trace line and what the call emits, and returns the dispatched reply |
| Engine.SkipBlank | engine.cpp:148 | a space or newline is skipped |
| Engine.SkipNone | engine.cpp:148 | any other character stops the skip where it stands |
| Engine.NextSegmentIs | engine.cpp:148-153 | after the blanks, a `.` starts the segment read from the next character |
| Engine.FoldStep | engine.cpp:147-163 | one turn dispatches the segment after the blanks, and the rest of the chain goes on from after it |
| Engine.NoSegment | engine.cpp:149 | a character other than `.` after the blanks ends the chain with no further dispatch |
| Engine.Turn | engine.cpp:147-162 | one turn's outcome: an exception's text replaces the output, a null return ends it with the trace and emitted text, and a new object carries on |
| Engine.FoldDone | engine.cpp:162 | once a call has failed or returned null, no later segment is dispatched |
| Engine.CallOutcome | engine.cpp:155-167 | one dispatched segment: the trace line comes before what the call emits, and an exception discards both |
| Engine.FoldAppend | engine.cpp:147-163 | folding two runs of segments is folding the second from where the first left off |
| Engine.GenStops | engine.cpp:160-162 | a chain whose last segment is `gen` has stopped by its end |
| Engine.LaterSegmentsIgnored | engine.cpp:160-162 | segments after a `gen` are never dispatched |
| Engine.TextLayout | engine.cpp:147-161 | calls written after a head are laid out one after the other from the end of the head |
| Engine.SkipBlanksOver | engine.cpp:148 | the skip passes a run of blanks and stops at the first other character |
| Engine.FirstChar | engine.cpp:152 | `find(c, from)` returns the first `c` when the text between has none |
| Engine.SegmentBetween | engine.cpp:152-158 | the name runs from after the `.` to the `(`, the argument text from the `(` to the `)`, and reading goes on after the `)` |
| Engine.ReadBack | engine.cpp:148-161 | blanks, a `.`, a name without `(`, and arguments without `)` are read back as that segment |
| Engine.SegmentsCons | engine.cpp:147-161 | a segment found at a position heads the segments from there |
| Engine.ReadWritten | engine.cpp:147-161 | a readable call as written is read back as its name and argument text, ending just past its `)` |
| Engine.SegmentsHead | engine.cpp:147-161 | a readable call laid out at a position heads the segments the loop reads from there |
| Engine.SegmentsWritten | engine.cpp:145-163 | readable calls laid out up to the end of the expression are read back as exactly those segments |
| Engine.MarkerFirst | engine.cpp:129 | a text starting with `tgen::` has its first `tgen::` at zero |
| Engine.TerminalLast | engine.cpp:130 | a text ending with `.gen()` has its last `.gen()` at its end |
| Engine.ExtractWhole | engine.cpp:129-134 | a text that starts with `tgen::` and ends with `.gen()` is extracted whole |
| Engine.HeaderOpen | engine.cpp:137 | the `(` of `tgen::name(args)` is its first when the name has none |
| Engine.HeaderClose | engine.cpp:140 | the `)` of `tgen::name(args)` is its first when neither the name nor the arguments have one |
| Engine.FindCharPrefix | engine.cpp:137-140 | a search that succeeds within a prefix ignores the text after it |
| Engine.HeaderLayout | engine.cpp:137-141 | in a source that starts with a constructor call, `(` and `)` are found where the call puts them, and the name and arguments lie between |
| Engine.HeaderValues | engine.cpp:138-145 | those positions give back the name, the argument text and the start of the loop |
| Engine.RenderGen | engine.cpp:130 | a `.gen()` call renders as its blanks followed by `.gen()` |
| Engine.SourceEnds | engine.cpp:130 | a source whose last call is `.gen()` ends with `.gen()` |
| Engine.SourceStarts | engine.cpp:129 | a source starts with `tgen::` |
| Engine.WholeInterpreted | engine.cpp:129-138 | a text that starts with `tgen::` and ends with `.gen()` is interpreted whole |
| Engine.SourceExtracted | engine.cpp:129-138 | a source as written is interpreted whole |
| Engine.HeaderRead | engine.cpp:137-143 | in a text that starts with a constructor call, the call is read as written, and the loop starts right after it |
| Engine.HeaderFound | engine.cpp:137-145 | with `(` and `)` where a constructor call puts them, `run` builds the object from the text between and starts the loop after the `)` |
| Engine.CallsAfter | engine.cpp:145-163 | calls written after a head are read back by the loop as exactly those segments |
| Engine.ChainAfter | engine.cpp:145-163 | the chain read after the head is the chain of the calls written there |
| Engine.SourceInterpreted | engine.cpp:137-163 | interpreting a source as written builds its object and folds exactly its calls |
| Engine.EvaluateWritten | engine.cpp:123-171 | `run` on `tgen::name(args)` followed by readable calls ending in `.gen()` builds that object and dispatches exactly those calls, in order |
| Examples.UnknownPermutationMethod | engine.cpp:74-86 | `tgen::permutation(3).bogus().gen()` outputs exactly "Unknown permutation method: bogus" |
| Examples.PermutationChain | engine.cpp:78-85 | on a permutation, `bogus` throws and `gen` is never reached |
| Examples.PermutationMade | engine.cpp:98-101 | `permutation(3)` builds a permutation of 3 |
| Examples.SequenceRun | engine.cpp:123-171 | `tgen::sequence<int>(1,5,10).equal_range(0,1).gen()` outputs both trace lines, then the rendering and a newline |
| Examples.SequenceChain | engine.cpp:145-163 | the chain of `sequence<int>(1,5,10)` narrows it, then prints it |
| Examples.TwoCalls | engine.cpp:155-162 | `equal_range(0,1)` then `gen`: two trace lines in order, then the rendering |
| Examples.RangeStep | engine.cpp:155-160 | `equal_range(0,1)` is traced and carries on with the narrowed sequence |
| Examples.RangeCall | engine.cpp:49-50 | `equal_range(0,1)` emits nothing and returns the narrowed sequence |
| Examples.GenCall | engine.cpp:55-59 | `gen` on a sequence is traced, appends the rendering and a newline, and ends the chain |
| Examples.SequenceMade | engine.cpp:93-96 | `sequence<int>(1,5,10)` builds the sequence with those three numbers |
| Examples.ReadsBack | engine.cpp:26-28 | `to_int` reads a small number back from its decimal text |
| Examples.PiecesOne | engine.cpp:109-121 | a flat non-empty text is one argument |

## Left out

- The Emscripten entry point (`extern "C"`, `EMSCRIPTEN_KEEPALIVE`) and the returned `captured.c_str()` pointer: host plumbing. `Run` returns the outcome as a value.
- The tgen backend (`tgen::sequence<int>`, `tgen::permutation`, `equal_range`, `distinct`, `gen`, `operator<<`): a foreign, randomised library. Builders are recorded as the calls that made them, and the printed text of `gen()` is a `Backend` parameter.
- Objects.SeqCall: assumes the backend's `equal_range`, `distinct` and `gen` never throw, because their checks are not visible. Likewise `Objects.MakeObject` for the backend constructors.
- `Object::to_string` (engine.cpp:21): `run` never calls it.
- Engine.Engine.Run: requires the source to be shorter than 2^32 - 1 characters, so that every position fits a 32-bit `size_t` and differs from `npos`.
- Objects.IntArgs: assumes the arguments of `make_object` and `equal_range` are converted left to right, as clang does. C++ leaves the order unspecified, and it decides which exception is reported when two arguments are bad.
- Undefined behaviour is an explicit outcome (`Fault.Undefined`, `Outcome.UndefinedOutput`) and is not ruled out by a precondition. This covers reading `args[i]` past the end of the vector in `make_object`, `equal_range` and `distinct`.
- Numbers.ToInt: the exception texts are libc++'s ("stoi: no conversion", "stoi: out of range"). Another standard library prints other texts.
- Cpp.Substr: the `out_of_range` text is libc++'s ("basic_string").
- Memory exhaustion (`std::bad_alloc`) is not modelled: strings and sets are unbounded.
- Locales: white space and digits are those of the "C" locale.
