/** `run`: find the generator expression in the source text, build the root
    object from its constructor call, then dispatch the `.method(args)`
    segments that follow one by one, tracing each in `captured`, until a
    character other than `.` or a call returning a null pointer ends the
    chain. Any exception replaces everything captured so far with its text. */
module Engine {
  import opened Cpp
  import opened Split
  import opened Objects

  const Marker: string := "tgen::"
  const Terminal: string := ".gen()"
  const NoExpression: string := "No generator expression found"

  /** What `run` returns: the text of `captured`, or nothing definite when
      the run reached undefined behaviour. */
  datatype Outcome = Output(text: string) | UndefinedOutput

  /** A `.method(args)` segment as the loop reads it: the method name and
      the text between the parentheses, which `split_args` cuts into the
      arguments of the call. */
  datatype Segment = Segment(name: string, argText: string)

  /** The state of the segment loop: the current object and `captured`, or
      the outcome once a call has returned a null pointer or failed. */
  datatype State = Running(obj: Obj, captured: string) | Done(outcome: Outcome)

  /* The expression and its constructor call. */

  /** `src.substr(start, end - start + 6)`, where `start` is the first
      `tgen::` and `end` the last `.gen()`; None when either is missing.
      The expression runs from that `tgen::` through that `.gen()`; when the
      `.gen()` starts more than six characters before the `tgen::`, the
      length `end - start + 6` wraps around and the rest of the text from
      `tgen::` on is taken. */
  function Extract(src: string): (r: Option<string>)
    requires |src| < Npos
    ensures r.None? <==> Find(src, Marker, 0) == Npos || RFind(src, Terminal) == Npos
    ensures r.Some? ==>
              var start, end := Find(src, Marker, 0), RFind(src, Terminal);
              start + |Marker| <= |src| && end + |Terminal| <= |src| &&
              r.value == if start <= end + 6 then src[start..end + 6] else src[start..]
    ensures r.Some? ==> |r.value| <= |src| && (|r.value| >= |Marker| ==> r.value[..|Marker|] == Marker)
  {
    var start := Find(src, Marker, 0);
    var end := RFind(src, Terminal);
    if start == Npos || end == Npos then None
    else
      var expr := Substr(src, start, Add(Sub(end, start), 6));
      assert |expr| >= 6 ==> expr[..6] == src[start..start + 6];
      WrappedSpan(src, start, end);
      Some(expr)
  }

  /** The position after a run of spaces and newlines starting at `pos`;
      `At` reads the terminating NUL at the end of the string. */
  function SkipBlanks(expr: string, pos: nat): (r: nat)
    requires pos <= |expr|
    ensures pos <= r <= |expr|
    ensures forall i :: pos <= i < r ==> expr[i] == ' ' || expr[i] == '\n'
    ensures At(expr, r) != ' ' && At(expr, r) != '\n'
    decreases |expr| - pos
  {
    if pos < |expr| && (expr[pos] == ' ' || expr[pos] == '\n') then SkipBlanks(expr, pos + 1) else pos
  }

  /** One turn of the segment loop from `pos`: None when, after the blanks,
      the next character is not `.`; otherwise the segment read and the
      next position, which is past the segment or, when no `)` closes it,
      zero (`npos + 1` wraps around). */
  function NextSegment(expr: string, pos: nat): (r: Option<(Segment, nat)>)
    requires |expr| < Npos && pos <= |expr|
    ensures r.Some? <==> At(expr, SkipBlanks(expr, pos)) == '.'
    ensures r.Some? ==> r.value.1 == 0 || pos < r.value.1 <= |expr|
    ensures r.Some? ==> SkipBlanks(expr, pos) < |expr| && r.value == SegmentAt(expr, SkipBlanks(expr, pos) + 1)
  {
    var q := SkipBlanks(expr, pos);
    if At(expr, q) != '.' then None else Some(SegmentAt(expr, q + 1))
  }

  /** The segment whose method name starts at `start`, just after its `.`:
      the name runs to the next `(`, the arguments from there to the next
      `)`, and reading goes on after that `)`. */
  function SegmentAt(expr: string, start: nat): (r: (Segment, nat))
    requires |expr| < Npos && 0 < start <= |expr|
    ensures r.1 == 0 || start < r.1 <= |expr|
    ensures var m := FindChar(expr, '(', start); var a := FindChar(expr, ')', m);
            (r.1 == 0 <==> a == Npos) &&
            (a != Npos ==> start <= m < a < |expr| && r == (Segment(expr[start..m], expr[m + 1..a]), a + 1)) &&
            (a == Npos && m != Npos ==> start <= m < |expr| && r.0 == Segment(expr[start..m], expr[m + 1..])) &&
            (m == Npos ==> r.0 == Segment(expr[start..], expr))
  {
    var mEnd := FindChar(expr, '(', start);
    var name := Substr(expr, start, Sub(mEnd, start));
    var aEnd := FindChar(expr, ')', mEnd);
    var argText := Substr(expr, Add(mEnd, 1), Sub(Sub(aEnd, mEnd), 1));
    (Segment(name, argText), Add(aEnd, 1))
  }

  /** The segments the loop reads from `pos` on. The expression starts with
      `tgen::`, so after a wrap to position zero the loop stops at once. */
  function Segments(expr: string, pos: nat): seq<Segment>
    requires |expr| < Npos && pos <= |expr| && |expr| > 0 && expr[0] == 't'
    decreases if pos == 0 then 0 else |expr| + 1 - pos
  {
    if pos >= |expr| then []
    else
      match NextSegment(expr, pos)
      case None => []
      case Some((seg, next)) => [seg] + Segments(expr, next)
  }

  /* Dispatch of the chain. */

  /** One dispatched segment: trace its name, call the method, append what
      the call emits, and go on with the returned object, or stop. */
  function Call(st: State, seg: Segment, be: Backend): State
  {
    match st
    case Done(_) => st
    case Running(obj, captured) =>
      var traced := captured + "method: " + seg.name + "\n";
      var reply := Dispatch(obj, seg.name, Pieces(seg.argText), be);
      match reply.next
      case Fail(Exception(msg)) => Done(Output(msg))
      case Fail(Undefined) => Done(UndefinedOutput)
      case Ok(None) => Done(Output(traced + reply.emitted))
      case Ok(Some(next)) => Running(next, traced + reply.emitted)
  }

  function Fold(segs: seq<Segment>, st: State, be: Backend): State
  {
    if segs == [] then st else Fold(segs[1..], Call(st, segs[0], be), be)
  }

  function Final(st: State): Outcome
  {
    match st
    case Running(_, captured) => Output(captured)
    case Done(outcome) => outcome
  }

  /** Construct the root object, then fold the segments over it, starting
      with nothing captured. */
  function EvaluateChain(name: string, args: seq<string>, segs: seq<Segment>, be: Backend): Outcome
  {
    match MakeObject(name, args)
    case Fail(Exception(msg)) => Output(msg)
    case Fail(Undefined) => UndefinedOutput
    case Ok(obj) => Final(Fold(segs, Running(obj, ""), be))
  }

  /** The constructor name runs from after `tgen::` to the first `(`; its
      arguments up to the first `)` of the expression. */
  function Interpret(expr: string, be: Backend): Outcome
    requires |expr| < Npos && |expr| >= |Marker| && expr[..|Marker|] == Marker
  {
    var p := FindChar(expr, '(', 0);
    var name := Substr(expr, 6, Sub(p, 6));
    var close := FindChar(expr, ')', 0);
    var args := Pieces(Substr(expr, Add(p, 1), Sub(Sub(close, p), 1)));
    assert expr[0] == expr[..6][0];
    EvaluateChain(name, args, Segments(expr, Add(close, 1)), be)
  }

  /** What `run(src)` returns. `substr(6, ...)` throws when the cut-out
      expression is shorter than `tgen::`. */
  function Evaluate(src: string, be: Backend): Outcome
    requires |src| < Npos
  {
    match Extract(src)
    case None => Output(NoExpression)
    case Some(expr) => if |expr| < 6 then Output(SubstrOutOfRange) else Interpret(expr, be)
  }

  /** The engine state: the global `captured`. */
  class Engine {
    var captured: string

    constructor ()
      ensures captured == ""
    {
      captured := "";
    }

    /** `run`. */
    method Run(code: string, be: Backend) returns (out: Outcome)
      requires |code| < Npos
      modifies this
      ensures out == Evaluate(code, be)
      ensures out.Output? ==> captured == out.text
    {
      captured := "";
      var src := code;
      var start := Find(src, Marker, 0);
      var end := RFind(src, Terminal);
      if start == Npos || end == Npos {
        captured := NoExpression;
        return Output(captured);
      }
      var expr := Substr(src, start, Add(Sub(end, start), 6));
      ExtractedAt(src, start, end);
      var p := FindChar(expr, '(', 0);
      if |expr| < 6 {
        captured := SubstrOutOfRange;
        return Output(captured);
      }
      var name := Substr(expr, 6, Sub(p, 6));
      var close := FindChar(expr, ')', 0);
      HeaderIs(code, be, expr, p, close);
      var args := SplitArgs(Substr(expr, Add(p, 1), Sub(Sub(close, p), 1)));
      var made := MakeObject(name, args);
      if made.Fail? {
        if made.fault.Undefined? {
          return UndefinedOutput;
        }
        captured := made.fault.what;
        return Output(captured);
      }
      out := Chain(expr, made.value, Add(close, 1), be);
    }

    /** The segment loop of `run`, from `pos` on, with `obj` the current
        object; it ends at a character other than `.`, at a null pointer, at
        an exception (whose text replaces `captured`), or at the end. */
    method Chain(expr: string, first: Obj, from: nat, be: Backend) returns (out: Outcome)
      requires |expr| < Npos && from <= |expr| && |expr| > 0 && expr[0] == 't'
      modifies this
      ensures out == Final(Fold(Segments(expr, from), Running(first, old(captured)), be))
      ensures out.Output? ==> captured == out.text
    {
      var obj, pos := first, from;
      ghost var goal := Final(Fold(Segments(expr, from), Running(first, captured), be));
      while pos < |expr|
        invariant pos <= |expr|
        invariant Final(Fold(Segments(expr, pos), Running(obj, captured), be)) == goal
        decreases if pos == 0 then 0 else |expr| + 1 - pos
      {
        ghost var top, before := pos, captured;
        pos := SkipBlanksFrom(expr, pos);
        if At(expr, pos) != '.' {
          NoSegment(expr, top, pos);
          break;
        }
        var seg, next, reply := Invoke(expr, pos, obj, be);
        Turn(expr, top, pos, obj, before, seg, next, be);
        match reply.next {
          case Fail(f) =>
            if f.Undefined? {
              return UndefinedOutput;
            }
            captured := f.what;
            return Output(captured);
          case Ok(None) =>
            pos := next;
            break;
          case Ok(Some(successor)) =>
            obj, pos := successor, next;
        }
      }
      out := Output(captured);
    }

    /** The blank-skipping loop at the head of each turn: it steps over
        spaces and newlines, reading the NUL past the end as a stop. */
    static method SkipBlanksFrom(expr: string, from: nat) returns (pos: nat)
      requires from <= |expr|
      ensures pos == SkipBlanks(expr, from)
    {
      pos := from;
      while At(expr, pos) == '\n' || At(expr, pos) == ' '
        invariant from <= pos <= |expr|
        invariant SkipBlanks(expr, from) == SkipBlanks(expr, pos)
        decreases |expr| - pos
      {
        SkipBlank(expr, pos);
        pos := pos + 1;
      }
      SkipNone(expr, pos);
    }

    /** The body of one turn once a `.` has been found at `q`: read the method
        name up to the next `(`, trace it, read the argument text up to the
        next `)`, split it and dispatch the call, appending what the object
        emits. */
    method Invoke(expr: string, q: nat, obj: Obj, be: Backend) returns (seg: Segment, next: Size, reply: Reply)
      requires |expr| < Npos && q < |expr| && expr[q] == '.'
      modifies this
      ensures (seg, next) == SegmentAt(expr, q + 1)
      ensures reply == Dispatch(obj, seg.name, Pieces(seg.argText), be)
      ensures captured == old(captured) + "method: " + seg.name + "\n" + reply.emitted
    {
      var pos := q + 1;
      var mEnd := FindChar(expr, '(', pos);
      var methodName := Substr(expr, pos, Sub(mEnd, pos));
      captured := captured + "method: " + methodName + "\n";
      var aEnd := FindChar(expr, ')', mEnd);
      var argText := Substr(expr, Add(mEnd, 1), Sub(Sub(aEnd, mEnd), 1));
      var margs := SplitArgs(argText);
      reply := Dispatch(obj, methodName, margs, be);
      captured := captured + reply.emitted;
      seg, next := Segment(methodName, argText), Add(aEnd, 1);
    }
  }

  /* Lemmas. */

  lemma ExtractedAt(src: string, start: Size, end: Size)
    requires |src| < Npos && start == Find(src, Marker, 0) && end == RFind(src, Terminal)
    requires start != Npos && end != Npos
    ensures Extract(src) == Some(Substr(src, start, Add(Sub(end, start), 6)))
  {
  }

  /** The constructor call that heads an extracted expression, and the
      position after it where the segment loop starts. */
  lemma HeaderIs(src: string, be: Backend, expr: string, p: Size, close: Size)
    requires |src| < Npos && Extract(src) == Some(expr) && |expr| >= 6
    requires p == FindChar(expr, '(', 0) && close == FindChar(expr, ')', 0)
    ensures expr[0] == 't' && Add(p, 1) <= |expr| && Add(close, 1) <= |expr|
    ensures Evaluate(src, be) ==
            EvaluateChain(Substr(expr, 6, Sub(p, 6)), Pieces(Substr(expr, Add(p, 1), Sub(Sub(close, p), 1))),
                          Segments(expr, Add(close, 1)), be)
  {
    EvaluateIs(src, be, expr);
    InterpretIs(expr, be, p, close);
  }

  /** Once an expression of at least six characters is extracted, `run`
      goes on to interpret it. */
  lemma EvaluateIs(src: string, be: Backend, expr: string)
    requires |src| < Npos && Extract(src) == Some(expr) && |expr| >= 6
    ensures |expr| < Npos && expr[..|Marker|] == Marker && Evaluate(src, be) == Interpret(expr, be)
  {
  }

  /** The constructor call at the head of the expression. */
  lemma InterpretIs(expr: string, be: Backend, p: Size, close: Size)
    requires |expr| < Npos && |expr| >= |Marker| && expr[..|Marker|] == Marker
    requires p == FindChar(expr, '(', 0) && close == FindChar(expr, ')', 0)
    ensures expr[0] == 't' && Add(p, 1) <= |expr| && Add(close, 1) <= |expr|
    ensures Interpret(expr, be) ==
            EvaluateChain(Substr(expr, 6, Sub(p, 6)), Pieces(Substr(expr, Add(p, 1), Sub(Sub(close, p), 1))),
                          Segments(expr, Add(close, 1)), be)
  {
    assert expr[0] == expr[..6][0];
  }

  /** A blank at `pos` is skipped. */
  lemma SkipBlank(expr: string, pos: nat)
    requires pos <= |expr| && (At(expr, pos) == ' ' || At(expr, pos) == '\n')
    ensures pos < |expr| && SkipBlanks(expr, pos) == SkipBlanks(expr, pos + 1)
  {
  }

  /** A character other than a blank stops the skip where it stands. */
  lemma SkipNone(expr: string, pos: nat)
    requires pos <= |expr| && At(expr, pos) != ' ' && At(expr, pos) != '\n'
    ensures SkipBlanks(expr, pos) == pos
  {
  }

  /** After the blanks, a `.` starts the segment that follows it. */
  lemma NextSegmentIs(expr: string, pos: nat, q: nat)
    requires |expr| < Npos && pos <= |expr|
    requires SkipBlanks(expr, pos) == q && At(expr, q) == '.'
    ensures q < |expr| && NextSegment(expr, pos) == Some(SegmentAt(expr, q + 1))
  {
    var r := NextSegment(expr, pos);
    assert r.Some? && r.value == SegmentAt(expr, q + 1);
  }

  /** One turn of the loop: the segment after the blanks is dispatched,
      then the segments after it. */
  lemma FoldStep(expr: string, pos: nat, q: nat, st: State, be: Backend)
    requires |expr| < Npos && pos < |expr| && expr[0] == 't'
    requires SkipBlanks(expr, pos) == q && At(expr, q) == '.'
    ensures q < |expr|
    ensures var (seg, next) := SegmentAt(expr, q + 1);
            Fold(Segments(expr, pos), st, be) == Fold(Segments(expr, next), Call(st, seg, be), be)
  {
    NextSegmentIs(expr, pos, q);
    var (seg, next) := SegmentAt(expr, q + 1);
    assert Segments(expr, pos) == [seg] + Segments(expr, next);
    assert ([seg] + Segments(expr, next))[1..] == Segments(expr, next);
  }

  /** A character other than `.` after the blanks ends the chain. */
  lemma NoSegment(expr: string, pos: nat, q: nat)
    requires |expr| < Npos && pos < |expr| && expr[0] == 't'
    requires SkipBlanks(expr, pos) == q && At(expr, q) != '.'
    ensures Segments(expr, pos) == []
  {
  }

  /** One turn of the loop from `pos`: the blanks end at `q` with a `.`, the
      segment after it is dispatched, and the chain goes on from `next`
      unless the call failed or returned a null pointer. */
  lemma Turn(expr: string, pos: nat, q: nat, obj: Obj, captured: string, seg: Segment, next: nat, be: Backend)
    requires |expr| < Npos && pos < |expr| && expr[0] == 't'
    requires SkipBlanks(expr, pos) == q && At(expr, q) == '.'
    requires q < |expr| && SegmentAt(expr, q + 1) == (seg, next)
    ensures next <= |expr|
    ensures var reply := Dispatch(obj, seg.name, Pieces(seg.argText), be);
            var traced := captured + "method: " + seg.name + "\n" + reply.emitted;
            var whole := Final(Fold(Segments(expr, pos), Running(obj, captured), be));
            if reply.next.Fail? then
              whole == if reply.next.fault.Undefined? then UndefinedOutput else Output(reply.next.fault.what)
            else if reply.next.value.None? then whole == Output(traced)
            else whole == Final(Fold(Segments(expr, next), Running(reply.next.value.value, traced), be))
  {
    FoldStep(expr, pos, q, Running(obj, captured), be);
    CallOutcome(Segments(expr, next), obj, captured, seg, be);
  }

  /** Once a call has returned a null pointer or failed, no later segment is
      dispatched. */
  lemma {:induction false} FoldDone(segs: seq<Segment>, st: State, be: Backend)
    requires st.Done?
    ensures Fold(segs, st, be) == st
  {
    if segs != [] {
      FoldDone(segs[1..], Call(st, segs[0], be), be);
    }
  }

  /** What one dispatched segment does to the rest of the chain: an
      exception's text replaces everything captured, a null pointer ends the
      chain with the trace line and what the call emitted, and a returned
      object carries on with both appended. */
  lemma CallOutcome(rest: seq<Segment>, obj: Obj, captured: string, seg: Segment, be: Backend)
    ensures var reply := Dispatch(obj, seg.name, Pieces(seg.argText), be);
            var traced := captured + "method: " + seg.name + "\n" + reply.emitted;
            var after := Fold(rest, Call(Running(obj, captured), seg, be), be);
            if reply.next.Fail? then
              Final(after) == if reply.next.fault.Undefined? then UndefinedOutput else Output(reply.next.fault.what)
            else if reply.next.value.None? then Final(after) == Output(traced)
            else after == Fold(rest, Running(reply.next.value.value, traced), be)
  {
    var st := Call(Running(obj, captured), seg, be);
    if st.Done? {
      FoldDone(rest, st, be);
    }
  }

  lemma {:induction false} FoldAppend(a: seq<Segment>, b: seq<Segment>, st: State, be: Backend)
    ensures Fold(a + b, st, be) == Fold(b, Fold(a, st, be), be)
  {
    if a == [] {
      assert a + b == b;
    } else {
      assert (a + b)[1..] == a[1..] + b;
      FoldAppend(a[1..], b, Call(st, a[0], be), be);
    }
  }

  /** A chain whose last segment is `gen` has stopped by the end of it: the
      `gen` call returns a null pointer, and an earlier call may already
      have stopped it. */
  lemma {:induction false} GenStops(segs: seq<Segment>, st: State, be: Backend)
    requires segs != [] && segs[|segs| - 1].name == "gen"
    ensures Fold(segs, st, be).Done?
  {
    if |segs| == 1 {
      assert Fold(segs, st, be) == Fold([], Call(st, segs[0], be), be);
    } else {
      GenStops(segs[1..], Call(st, segs[0], be), be);
    }
  }

  /** Segments after a `gen` are never dispatched. */
  lemma LaterSegmentsIgnored(segs: seq<Segment>, later: seq<Segment>, st: State, be: Backend)
    requires segs != [] && segs[|segs| - 1].name == "gen"
    ensures Fold(segs + later, st, be) == Fold(segs, st, be)
  {
    FoldAppend(segs, later, st, be);
    GenStops(segs, st, be);
    FoldDone(later, Fold(segs, st, be), be);
  }

  /** `s.substr(start, end - start + 6)` on `std::size_t` operands. */
  lemma WrappedSpan(s: string, start: nat, end: nat)
    requires |s| < Npos && start <= |s| && end + 6 <= |s|
    ensures Substr(s, start, Add(Sub(end, start), 6)) == if start <= end + 6 then s[start..end + 6] else s[start..]
  {
    var count := Add(Sub(end, start), 6);
    if start <= end + 6 {
      assert count == end + 6 - start;
    } else {
      assert count == end + 6 - start + SizeModulus;
    }
  }

  /* Expressions as they are written. */

  /** A `.method(args)` segment as written: the blanks before its `.`, the
      method name and the text between its parentheses. */
  datatype Written = Written(blanks: string, name: string, argText: string)

  predicate Blank(s: string)
  {
    forall i :: 0 <= i < |s| ==> s[i] == ' ' || s[i] == '\n'
  }

  predicate Lacks(s: string, c: char)
  {
    forall i :: 0 <= i < |s| ==> s[i] != c
  }

  /** The loop reads a segment back as written when the blanks are spaces
      and newlines, the name has no `(` and the arguments have no `)`. */
  predicate Readable(w: Written)
  {
    Blank(w.blanks) && Lacks(w.name, '(') && Lacks(w.argText, ')')
  }

  function Render(w: Written): string
  {
    w.blanks + "." + w.name + "(" + w.argText + ")"
  }

  function Text(ws: seq<Written>): string
  {
    if ws == [] then "" else Render(ws[0]) + Text(ws[1..])
  }

  /** The segments the written calls stand for. */
  function Parsed(ws: seq<Written>): seq<Segment>
  {
    if ws == [] then [] else [Segment(ws[0].name, ws[0].argText)] + Parsed(ws[1..])
  }

  /** `w` is rendered in `e` from position `b` on: its blanks, then `.`,
      the name, `(`, the argument text and `)`. */
  predicate LaidOut(e: string, b: nat, w: Written)
  {
    var q := b + |w.blanks|;
    var m := q + 1 + |w.name|;
    var a := m + 1 + |w.argText|;
    a < |e| && e[b..q] == w.blanks && e[q] == '.' && e[q + 1..m] == w.name &&
    e[m] == '(' && e[m + 1..a] == w.argText && e[a] == ')'
  }

  /** The calls `ws` are rendered in `e` from `b` on, up to the end of `e`. */
  predicate WrittenFrom(e: string, b: nat, ws: seq<Written>)
    decreases |ws|
  {
    if ws == [] then b == |e|
    else LaidOut(e, b, ws[0]) && WrittenFrom(e, b + |Render(ws[0])|, ws[1..])
  }

  lemma RenderLayout(e: string, head: string, w: Written, tail: string)
    requires e == head + Render(w) + tail
    ensures LaidOut(e, |head|, w) && |head + Render(w)| == |head| + |w.blanks| + |w.name| + |w.argText| + 3
  {
    assert e == head + w.blanks + "." + w.name + "(" + w.argText + ")" + tail;
  }

  lemma RenderLength(w: Written)
    ensures |Render(w)| == |w.blanks| + |w.name| + |w.argText| + 3
  {
  }

  lemma TextCons(head: string, w: Written, rest: seq<Written>)
    ensures head + Text([w] + rest) == head + Render(w) + Text(rest)
  {
    assert ([w] + rest)[1..] == rest;
  }

  /** `head + Text(ws)` holds the calls `ws` after `head`. */
  lemma {:induction false} TextLayout(e: string, head: string, ws: seq<Written>)
    requires e == head + Text(ws)
    ensures WrittenFrom(e, |head|, ws)
    decreases |ws|
  {
    if ws != [] {
      var w, rest := ws[0], ws[1..];
      var head' := head + Render(w);
      TextCons(head, w, rest);
      assert ws == [w] + rest;
      RenderLayout(e, head, w, Text(rest));
      TextLayout(e, head', rest);
    } else {
      assert e == head;
    }
  }

  /** Blanks are skipped up to the first other character. */
  lemma {:induction false} SkipBlanksOver(expr: string, pos: nat, end: nat)
    requires pos <= end < |expr|
    requires Blank(expr[pos..end]) && expr[end] != ' ' && expr[end] != '\n'
    ensures SkipBlanks(expr, pos) == end
    decreases end - pos
  {
    if pos < end {
      assert expr[pos] == expr[pos..end][0];
      assert expr[pos + 1..end] == expr[pos..end][1..];
      SkipBlanksOver(expr, pos + 1, end);
    }
  }

  /** The first `c` at or after `from` is at `at` when the text between has none. */
  lemma FirstChar(s: string, c: char, from: nat, at: nat)
    requires |s| < Npos && from <= at < |s| && s[at] == c && Lacks(s[from..at], c)
    ensures FindChar(s, c, from) == at
    decreases at - from
  {
    if from < at {
      assert s[from] == s[from..at][0];
      assert s[from + 1..at] == s[from..at][1..];
      FirstChar(s, c, from + 1, at);
    }
  }

  /** A readable segment laid out from `b` on, character by character:
      blanks up to the `.` at `q`, a name without `(` up to the `(` at `m`,
      and arguments without `)` up to the `)` at `a`. */
  lemma Landmarks(e: string, b: nat, w: Written)
    requires Readable(w) && LaidOut(e, b, w)
    ensures var q := b + |w.blanks|;
            var m := q + 1 + |w.name|;
            var a := m + 1 + |w.argText|;
            a < |e| && Blank(e[b..q]) && e[q] == '.' && e[m] == '(' && e[a] == ')' &&
            Lacks(e[q + 1..m], '(') && Lacks(e[m..a], ')') &&
            e[q + 1..m] == w.name && e[m + 1..a] == w.argText
  {
    var q := b + |w.blanks|;
    var m := q + 1 + |w.name|;
    var a := m + 1 + |w.argText|;
    assert Lacks(e[m..a], ')') by {
      assert forall i :: m < i < a ==> e[i] == w.argText[i - m - 1];
    }
  }

  /** The segment read between the `(` at `m` and the `)` at `a`. */
  lemma SegmentBetween(e: string, start: nat, m: nat, a: nat)
    requires |e| < Npos && 0 < start <= |e|
    requires FindChar(e, '(', start) == m < |e| && FindChar(e, ')', m) == a < |e|
    ensures start <= m < a
    ensures SegmentAt(e, start) == (Segment(e[start..m], e[m + 1..a]), a + 1)
  {
  }

  /** The scanner skips the blanks from `b` to the `.` at `q`, finds the
      first `(` at `m` and the first `)` after it at `a`, and reads the
      segment between them. */
  lemma ReadBack(e: string, b: nat, q: nat, m: nat, a: nat)
    requires |e| < Npos && b <= q < m < a < |e|
    requires Blank(e[b..q]) && e[q] == '.' && e[m] == '(' && e[a] == ')'
    requires Lacks(e[q + 1..m], '(') && Lacks(e[m..a], ')')
    ensures NextSegment(e, b) == Some((Segment(e[q + 1..m], e[m + 1..a]), a + 1))
  {
    SkipBlanksOver(e, b, q);
    FirstChar(e, '(', q + 1, m);
    FirstChar(e, ')', m, a);
    SegmentBetween(e, q + 1, m, a);
    NextSegmentIs(e, b, q);
  }

  /** `ReadBack` with the name and the argument text as written. */
  lemma ReadSegment(e: string, b: nat, q: nat, m: nat, a: nat, name: string, argText: string)
    requires |e| < Npos && b <= q < m < a < |e|
    requires Blank(e[b..q]) && e[q] == '.' && e[m] == '(' && e[a] == ')'
    requires Lacks(e[q + 1..m], '(') && Lacks(e[m..a], ')')
    requires e[q + 1..m] == name && e[m + 1..a] == argText
    ensures NextSegment(e, b) == Some((Segment(name, argText), a + 1))
  {
    ReadBack(e, b, q, m, a);
  }

  lemma SegmentsCons(e: string, b: nat, seg: Segment, next: nat)
    requires |e| < Npos && b < |e| && e[0] == 't' && next <= |e|
    requires NextSegment(e, b) == Some((seg, next))
    ensures Segments(e, b) == [seg] + Segments(e, next)
  {
  }

  /** A readable segment is read back as written. */
  lemma ReadWritten(e: string, b: nat, w: Written)
    requires Readable(w) && |e| < Npos && LaidOut(e, b, w)
    ensures NextSegment(e, b) == Some((Segment(w.name, w.argText), b + |Render(w)|))
    ensures b + |Render(w)| <= |e|
  {
    var q := b + |w.blanks|;
    var m := q + 1 + |w.name|;
    var a := m + 1 + |w.argText|;
    Landmarks(e, b, w);
    ReadSegment(e, b, q, m, a, w.name, w.argText);
    RenderLength(w);
  }

  /** The loop reads a readable call laid out from `b` as the head of the
      segments from `b`. */
  lemma SegmentsHead(e: string, b: nat, w: Written)
    requires |e| < Npos && 0 < b < |e| && e[0] == 't' && Readable(w) && LaidOut(e, b, w)
    ensures b + |Render(w)| <= |e|
    ensures Segments(e, b) == [Segment(w.name, w.argText)] + Segments(e, b + |Render(w)|)
  {
    var seg, next := Segment(w.name, w.argText), b + |Render(w)|;
    ReadWritten(e, b, w);
    SegmentsCons(e, b, seg, next);
  }

  /** Every call in `ws` is readable. */
  predicate AllReadable(ws: seq<Written>)
    decreases |ws|
  {
    ws == [] || (Readable(ws[0]) && AllReadable(ws[1..]))
  }

  /** The loop reads the written segments back, and stops at the end. */
  lemma {:induction false} SegmentsWritten(e: string, b: nat, ws: seq<Written>)
    requires |e| < Npos && 0 < b <= |e| && e[0] == 't' && WrittenFrom(e, b, ws) && AllReadable(ws)
    ensures Segments(e, b) == Parsed(ws)
    decreases |ws|
  {
    if ws != [] {
      var w, rest := ws[0], ws[1..];
      var next := b + |Render(w)|;
      SegmentsFirst(e, b, ws, w, rest, next);
      SegmentsWritten(e, next, rest);
      assert Parsed(ws) == [Segment(w.name, w.argText)] + Parsed(rest);
    }
  }

  /** The first of the written calls is read, and the rest are written after it. */
  lemma SegmentsFirst(e: string, b: nat, ws: seq<Written>, w: Written, rest: seq<Written>, next: nat)
    requires |e| < Npos && 0 < b <= |e| && e[0] == 't' && WrittenFrom(e, b, ws) && AllReadable(ws)
    requires ws != [] && w == ws[0] && rest == ws[1..] && next == b + |Render(w)|
    ensures 0 < next <= |e| && WrittenFrom(e, next, rest) && AllReadable(rest)
    ensures Segments(e, b) == [Segment(w.name, w.argText)] + Segments(e, next)
  {
    assert LaidOut(e, b, w) && WrittenFrom(e, next, rest);
    assert Readable(w) && AllReadable(rest);
    SegmentsHead(e, b, w);
  }

  /* Whole sources as written. */

  /** The constructor call `tgen::name(argText)`. */
  function Header(name: string, argText: string): string
  {
    Marker + name + "(" + argText + ")"
  }

  /** `tgen::name(argText)` followed by the calls `ws`. */
  function Source(name: string, argText: string, ws: seq<Written>): string
  {
    Header(name, argText) + Text(ws)
  }

  /** The text of calls written one after the other. */
  lemma {:induction false} TextAppend(a: seq<Written>, b: seq<Written>)
    ensures Text(a + b) == Text(a) + Text(b)
    decreases |a|
  {
    if a == [] {
      assert a + b == b;
    } else {
      assert (a + b)[1..] == a[1..] + b;
      TextAppend(a[1..], b);
      assert Text(a + b) == Render(a[0]) + Text(a[1..] + b);
      assert Render(a[0]) + (Text(a[1..]) + Text(b)) == Render(a[0]) + Text(a[1..]) + Text(b);
    }
  }

  /** The text of the calls ends with the text of the last one. */
  lemma TextLast(ws: seq<Written>)
    requires ws != []
    ensures Text(ws) == Text(ws[..|ws| - 1]) + Render(ws[|ws| - 1])
  {
    var init, last := ws[..|ws| - 1], ws[|ws| - 1];
    assert ws == init + [last];
    TextAppend(init, [last]);
    TextOne(last);
  }

  lemma TextOne(w: Written)
    ensures Text([w]) == Render(w)
  {
    assert [w][1..] == [];
    assert Text([w]) == Render(w) + Text([]);
  }

  /** A text that starts with `tgen::` has it first at position zero. */
  lemma MarkerFirst(s: string, rest: string)
    requires s == Marker + rest && |s| < Npos
    ensures Find(s, Marker, 0) == 0
  {
    assert s[0..|Marker|] == Marker;
  }

  /** A text that ends with `.gen()` has it last at its end. */
  lemma TerminalLast(s: string, init: string)
    requires s == init + Terminal && |s| < Npos
    ensures RFind(s, Terminal) == |init|
  {
    assert s[|init|..|init| + |Terminal|] == Terminal;
  }

  /** A text that starts with `tgen::` and ends with `.gen()` is extracted
      whole. */
  lemma ExtractWhole(s: string)
    requires |s| < Npos && |s| >= |Terminal|
    requires Find(s, Marker, 0) == 0 && RFind(s, Terminal) == |s| - |Terminal|
    ensures Extract(s) == Some(s)
  {
    assert s[0..|s|] == s;
  }

  lemma LacksAppend(a: string, b: string, c: char)
    requires Lacks(a, c) && Lacks(b, c)
    ensures Lacks(a + b, c)
  {
    assert forall i :: |a| <= i < |a + b| ==> (a + b)[i] == b[i - |a|];
  }

  /** The parts of the constructor call `tgen::name(argText)`. */
  lemma HeaderParts(name: string, argText: string)
    ensures var h, p := Header(name, argText), 6 + |name|;
            |h| == p + 2 + |argText| && h[..|Marker|] == Marker &&
            h[6..p] == name && h[p + 1..p + 1 + |argText|] == argText
  {
  }

  /** The `(` of the constructor call is its first. */
  lemma HeaderOpen(name: string, argText: string)
    requires Lacks(name, '(') && |Header(name, argText)| < Npos
    ensures FindChar(Header(name, argText), '(', 0) == 6 + |name|
  {
    var h, p := Header(name, argText), 6 + |name|;
    assert h == (Marker + name) + ("(" + argText + ")");
    assert h[0..p] == Marker + name && h[p] == '(';
    LacksAppend(Marker, name, '(');
    FirstChar(h, '(', 0, p);
  }

  /** The `)` of the constructor call is its first. */
  lemma HeaderClose(name: string, argText: string)
    requires Lacks(name, ')') && Lacks(argText, ')') && |Header(name, argText)| < Npos
    ensures FindChar(Header(name, argText), ')', 0) == 7 + |name| + |argText|
  {
    var h, c := Header(name, argText), 7 + |name| + |argText|;
    var upTo := Marker + name + "(" + argText;
    assert h == upTo + ")";
    assert h[0..c] == upTo && h[c] == ')';
    LacksAppend(Marker, name, ')');
    LacksAppend(Marker + name, "(", ')');
    LacksAppend(Marker + name + "(", argText, ')');
    FirstChar(h, ')', 0, c);
  }

  /** A search that succeeds within `h` is not changed by text after `h`. */
  lemma {:induction false} FindCharPrefix(h: string, rest: string, c: char, from: nat)
    requires |h + rest| < Npos && FindChar(h, c, from) != Npos
    ensures FindChar(h + rest, c, from) == FindChar(h, c, from)
    decreases |h| - from
  {
    if h[from] != c {
      FindCharPrefix(h, rest, c, from + 1);
    }
  }

  /** The constructor call at the head of a source as written: its `(` is
      the first of the text and its `)` the first of the text too. */
  lemma HeaderLayout(src: string, name: string, argText: string, rest: string)
    requires src == Header(name, argText) + rest && |src| < Npos
    requires Lacks(name, '(') && Lacks(name, ')') && Lacks(argText, ')')
    ensures FindChar(src, '(', 0) == 6 + |name|
    ensures FindChar(src, ')', 0) == 7 + |name| + |argText|
    ensures src[..|Marker|] == Marker && 8 + |name| + |argText| <= |src|
    ensures src[6..6 + |name|] == name && src[7 + |name|..7 + |name| + |argText|] == argText
  {
    var h := Header(name, argText);
    HeaderParts(name, argText);
    HeaderOpen(name, argText);
    HeaderClose(name, argText);
    FindCharPrefix(h, rest, '(', 0);
    FindCharPrefix(h, rest, ')', 0);
    PrefixSlices(src, h, rest, name, argText);
  }

  lemma PrefixSlices(src: string, h: string, rest: string, name: string, argText: string)
    requires src == h + rest
    requires var p := 6 + |name|;
             |h| == p + 2 + |argText| && h[..|Marker|] == Marker &&
             h[6..p] == name && h[p + 1..p + 1 + |argText|] == argText
    ensures src[..|Marker|] == Marker && 8 + |name| + |argText| <= |src|
    ensures src[6..6 + |name|] == name && src[7 + |name|..7 + |name| + |argText|] == argText
  {
    var p := 6 + |name|;
    assert src[..|h|] == h;
    assert src[..|Marker|] == h[..|Marker|];
    assert src[6..p] == h[6..p];
    assert src[p + 1..p + 1 + |argText|] == h[p + 1..p + 1 + |argText|];
  }

  /** The name, the argument text and the start of the segment loop that
      the header's positions give. */
  lemma HeaderValues(src: string, name: string, argText: string, p: Size, close: Size)
    requires |src| < Npos && p == 6 + |name| && close == p + 1 + |argText| < |src|
    requires src[6..p] == name && src[p + 1..close] == argText
    ensures Substr(src, 6, Sub(p, 6)) == name
    ensures Substr(src, Add(p, 1), Sub(Sub(close, p), 1)) == argText
    ensures Add(close, 1) == close + 1
  {
  }

  /** A source as written without its final `.gen()`. */
  function SourceInit(name: string, argText: string, ws: seq<Written>): string
    requires ws != []
  {
    Header(name, argText) + Text(ws[..|ws| - 1]) + ws[|ws| - 1].blanks
  }

  /** A source as written ends with `.gen()` when its last call is `.gen()`. */
  lemma SourceEnds(name: string, argText: string, ws: seq<Written>)
    requires ws != [] && ws[|ws| - 1].name == "gen" && ws[|ws| - 1].argText == ""
    ensures Source(name, argText, ws) == SourceInit(name, argText, ws) + Terminal
  {
    var last := ws[|ws| - 1];
    TextLast(ws);
    RenderGen(last);
    Regroup(Source(name, argText, ws), Header(name, argText), Text(ws[..|ws| - 1]), last.blanks, Text(ws));
  }

  lemma Regroup(s: string, h: string, t: string, b: string, x: string)
    requires s == h + x && x == t + (b + Terminal)
    ensures s == h + t + b + Terminal
  {
  }

  /** A source as written starts with `tgen::`. */
  lemma SourceStarts(name: string, argText: string, ws: seq<Written>)
    ensures Source(name, argText, ws) == Marker + (name + "(" + argText + ")" + Text(ws))
  {
  }

  /** The text of a `.gen()` call. */
  lemma RenderGen(w: Written)
    requires w.name == "gen" && w.argText == ""
    ensures Render(w) == w.blanks + Terminal
  {
    assert "." + "gen" + "(" + "" + ")" == Terminal;
    assert Render(w) == w.blanks + ("." + "gen" + "(" + "" + ")");
  }

  /** A text that starts with `tgen::` and ends with `.gen()` is extracted
      whole and interpreted. */
  lemma WholeInterpreted(src: string, rest: string, init: string, be: Backend)
    requires src == Marker + rest && src == init + Terminal && |src| < Npos
    ensures Evaluate(src, be) == Interpret(src, be)
  {
    TerminalLast(src, init);
    MarkerFirst(src, rest);
    ExtractWhole(src);
    EvaluateIs(src, be, src);
  }

  /** A source as written is extracted whole and interpreted. */
  lemma SourceExtracted(name: string, argText: string, ws: seq<Written>, be: Backend)
    requires ws != [] && ws[|ws| - 1].name == "gen" && ws[|ws| - 1].argText == ""
    requires |Source(name, argText, ws)| < Npos
    ensures Evaluate(Source(name, argText, ws), be) == Interpret(Source(name, argText, ws), be)
  {
    SourceEnds(name, argText, ws);
    SourceStarts(name, argText, ws);
    var rest := name + "(" + argText + ")" + Text(ws);
    WholeInterpreted(Source(name, argText, ws), rest, SourceInit(name, argText, ws), be);
  }

  /** The constructor call of a source as written. */
  lemma HeaderRead(src: string, name: string, argText: string, rest: string, be: Backend)
    requires src == Header(name, argText) + rest && |src| < Npos
    requires Lacks(name, '(') && Lacks(name, ')') && Lacks(argText, ')')
    ensures src[..|Marker|] == Marker && 8 + |name| + |argText| <= |src|
    ensures Interpret(src, be) == EvaluateChain(name, Pieces(argText), Segments(src, 8 + |name| + |argText|), be)
  {
    HeaderLayout(src, name, argText, rest);
    assert src[0] == src[..|Marker|][0];
    HeaderFound(src, name, argText, 6 + |name|, 7 + |name| + |argText|, be);
  }

  /** With `(` and `)` found where a constructor call puts them, `run` reads
      that call's name and arguments. */
  lemma HeaderFound(src: string, name: string, argText: string, p: Size, close: Size, be: Backend)
    requires |src| < Npos && 8 + |name| + |argText| <= |src| && src[..|Marker|] == Marker && src[0] == 't'
    requires p == 6 + |name| && close == 7 + |name| + |argText|
    requires FindChar(src, '(', 0) == p && FindChar(src, ')', 0) == close
    requires src[6..p] == name && src[p + 1..close] == argText
    ensures Interpret(src, be) == EvaluateChain(name, Pieces(argText), Segments(src, close + 1), be)
  {
    InterpretIs(src, be, p, close);
    HeaderValues(src, name, argText, p, close);
  }

  lemma HeadFirst(name: string, argText: string)
    ensures var h := Header(name, argText); |h| == 8 + |name| + |argText| && h[0] == 't'
  {
    assert Header(name, argText)[0] == Marker[0];
  }

  /** The chain read after a head is the chain of the calls written there. */
  lemma ChainAfter(src: string, head: string, ws: seq<Written>, n: nat,
                   name: string, pieces: seq<string>, be: Backend)
    requires src == head + Text(ws) && |src| < Npos && n == |head| > 0 && head[0] == 't'
    requires AllReadable(ws) && n <= |src| && |src| >= |Marker| && src[..|Marker|] == Marker
    requires Interpret(src, be) == EvaluateChain(name, pieces, Segments(src, n), be)
    ensures Interpret(src, be) == EvaluateChain(name, pieces, Parsed(ws), be)
  {
    CallsAfter(src, head, ws, n);
  }

  /** Calls written after a head that starts with `t` are read back. */
  lemma CallsAfter(src: string, head: string, ws: seq<Written>, n: nat)
    requires src == head + Text(ws) && |src| < Npos && n == |head| > 0 && head[0] == 't'
    requires AllReadable(ws)
    ensures n <= |src| && src[0] == 't' && Segments(src, n) == Parsed(ws)
  {
    TextLayout(src, head, ws);
    SegmentsWritten(src, n, ws);
  }

  /** The constructor call of a source as written, and its calls. */
  lemma SourceInterpreted(name: string, argText: string, ws: seq<Written>, be: Backend)
    requires Lacks(name, '(') && Lacks(name, ')') && Lacks(argText, ')') && AllReadable(ws)
    requires |Source(name, argText, ws)| < Npos
    ensures Interpret(Source(name, argText, ws), be) == EvaluateChain(name, Pieces(argText), Parsed(ws), be)
  {
    var src, head := Source(name, argText, ws), Header(name, argText);
    HeaderRead(src, name, argText, Text(ws), be);
    HeadFirst(name, argText);
    ChainAfter(src, head, ws, 8 + |name| + |argText|, name, Pieces(argText), be);
  }

  /** `run` on a source as written: it builds the object the constructor call
      describes, then dispatches the calls in the order written. The calls
      must be readable, the last one `.gen()`, the name free of parentheses
      and the argument text free of `)`. */
  lemma EvaluateWritten(name: string, argText: string, ws: seq<Written>, be: Backend)
    requires Lacks(name, '(') && Lacks(name, ')') && Lacks(argText, ')')
    requires AllReadable(ws) && ws != [] && ws[|ws| - 1].name == "gen" && ws[|ws| - 1].argText == ""
    requires |Source(name, argText, ws)| < Npos
    ensures Evaluate(Source(name, argText, ws), be) == EvaluateChain(name, Pieces(argText), Parsed(ws), be)
  {
    SourceExtracted(name, argText, ws, be);
    SourceInterpreted(name, argText, ws, be);
  }
}
