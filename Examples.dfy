/** Whole runs of `run` on concrete sources, derived from the general
    theorem `Engine.EvaluateWritten`. */
module Examples {
  import opened Cpp
  import opened Numbers
  import opened Split
  import opened Objects
  import opened Engine

  /** `tgen::permutation(3).bogus().gen()`: the permutation rejects `bogus`,
      and the exception text replaces the whole output. */
  lemma UnknownPermutationMethod(be: Backend)
    ensures Evaluate("tgen::permutation(3).bogus().gen()", be) == Output("Unknown permutation method: bogus")
  {
    var ws := [Written("", "bogus", ""), Written("", "gen", "")];
    PermutationSource(ws);
    PermutationReadable(ws);
    assert Lacks("permutation", '(') && Lacks("permutation", ')') && Lacks("3", ')');
    EvaluateWritten("permutation", "3", ws, be);
    PermutationChain(ws, be);
  }

  /** The chain of `permutation(3)`: `bogus` throws, and nothing after it runs. */
  lemma PermutationChain(ws: seq<Written>, be: Backend)
    requires ws == [Written("", "bogus", ""), Written("", "gen", "")]
    ensures EvaluateChain("permutation", Pieces("3"), Parsed(ws), be) == Output("Unknown permutation method: bogus")
  {
    PermutationMade();
    ParsedTwo(ws);
    var segs := Parsed(ws);
    assert segs[0] == Segment("bogus", "");
    assert "bogus" != "gen" by { assert "bogus"[0] != "gen"[0]; }
    var reply := Dispatch(PermObj(NewPermutation(3)), "bogus", Pieces(""), be);
    assert reply == PermCall(NewPermutation(3), "bogus", Pieces(""), be);
    assert "Unknown permutation method: " + "bogus" == "Unknown permutation method: bogus";
    assert reply.next == Fail(Exception("Unknown permutation method: bogus"));
    var st := Call(Running(PermObj(NewPermutation(3)), ""), segs[0], be);
    assert st == Done(Output("Unknown permutation method: bogus"));
    assert segs == [segs[0]] + segs[1..];
    FoldDone(segs[1..], st, be);
  }

  lemma PermutationSource(ws: seq<Written>)
    requires ws == [Written("", "bogus", ""), Written("", "gen", "")]
    ensures Source("permutation", "3", ws) == "tgen::permutation(3).bogus().gen()"
  {
    var h, a, b := "tgen::permutation(3)", ".bogus()", ".gen()";
    assert Header("permutation", "3") == h;
    assert Render(ws[0]) == a;
    GenRendered(ws[1]);
    SourceOfTwo("permutation", "3", ws, h, a, b);
    PermutationText(h, a, b);
  }

  lemma PermutationText(h: string, a: string, b: string)
    requires h == "tgen::permutation(3)" && a == ".bogus()" && b == ".gen()"
    ensures h + (a + b) == "tgen::permutation(3).bogus().gen()"
  {
  }

  /** A source with two calls, piece by piece. */
  lemma SourceOfTwo(name: string, argText: string, ws: seq<Written>, h: string, a: string, b: string)
    requires |ws| == 2 && Header(name, argText) == h && Render(ws[0]) == a && Render(ws[1]) == b
    ensures Source(name, argText, ws) == h + (a + b)
  {
    TwoTexts(ws);
  }

  lemma TwoTexts(ws: seq<Written>)
    requires |ws| == 2
    ensures Text(ws) == Render(ws[0]) + Render(ws[1])
  {
    var rest := ws[1..];
    assert rest[0] == ws[1] && rest[1..] == [];
    assert Text(rest) == Render(ws[1]) + Text([]);
  }

  lemma ParsedTwo(ws: seq<Written>)
    requires |ws| == 2
    ensures Parsed(ws) == [Segment(ws[0].name, ws[0].argText), Segment(ws[1].name, ws[1].argText)]
  {
    var rest := ws[1..];
    assert rest[0] == ws[1] && rest[1..] == [];
    assert Parsed(rest) == [Segment(ws[1].name, ws[1].argText)] + Parsed([]);
  }

  lemma PermutationReadable(ws: seq<Written>)
    requires ws == [Written("", "bogus", ""), Written("", "gen", "")]
    ensures AllReadable(ws)
  {
    assert Readable(ws[0]) && Readable(ws[1]);
    assert ws[1..][1..] == [];
  }

  /** `permutation(3)` builds a permutation of size 3. */
  lemma PermutationMade()
    ensures MakeObject("permutation", Pieces("3")) == Ok(PermObj(NewPermutation(3)))
  {
    PiecesOne("3");
    ToIntShow("", 3, "");
    assert "" + Show(3) + "" == "3";
  }

  /** A text without commas and braces is one argument. */
  lemma PiecesOne(a: string)
    requires a != [] && Flat(a)
    ensures Pieces(a) == [a]
  {
    PiecesOfJoin([a]);
  }

  /** `tgen::sequence<int>(1,5,10).equal_range(0,1).gen()`: both calls are
      traced in order, then `gen` appends the drawn sequence and ends the run. */
  lemma SequenceRun(be: Backend)
    ensures Evaluate("tgen::sequence<int>(1,5,10).equal_range(0,1).gen()", be) ==
            Output("method: equal_range\nmethod: gen\n" + be.showSequence(EqualRange(NewSequence(1, 5, 10), 0, 1)) + "\n")
  {
    var ws := [Written("", "equal_range", "0,1"), Written("", "gen", "")];
    SequenceSource(ws);
    SequenceReadable(ws);
    assert Lacks("sequence<int>", '(') && Lacks("sequence<int>", ')') && Lacks("1,5,10", ')');
    EvaluateWritten("sequence<int>", "1,5,10", ws, be);
    SequenceChain(ws, be);
  }

  lemma SequenceSource(ws: seq<Written>)
    requires ws == [Written("", "equal_range", "0,1"), Written("", "gen", "")]
    ensures Source("sequence<int>", "1,5,10", ws) == "tgen::sequence<int>(1,5,10).equal_range(0,1).gen()"
  {
    var h, a, b := "tgen::sequence<int>(1,5,10)", ".equal_range(0,1)", ".gen()";
    SequenceHeader();
    RangeRendered(ws[0]);
    GenRendered(ws[1]);
    SourceOfTwo("sequence<int>", "1,5,10", ws, h, a, b);
    SequenceText(h, a, b);
  }

  lemma SequenceText(h: string, a: string, b: string)
    requires h == "tgen::sequence<int>(1,5,10)" && a == ".equal_range(0,1)" && b == ".gen()"
    ensures h + (a + b) == "tgen::sequence<int>(1,5,10).equal_range(0,1).gen()"
  {
  }

  lemma SequenceHeader()
    ensures Header("sequence<int>", "1,5,10") == "tgen::sequence<int>(1,5,10)"
  {
  }

  lemma RangeRendered(w: Written)
    requires w == Written("", "equal_range", "0,1")
    ensures Render(w) == ".equal_range(0,1)"
  {
  }

  lemma GenRendered(w: Written)
    requires w == Written("", "gen", "")
    ensures Render(w) == ".gen()"
  {
  }

  lemma SequenceReadable(ws: seq<Written>)
    requires ws == [Written("", "equal_range", "0,1"), Written("", "gen", "")]
    ensures AllReadable(ws)
  {
    assert Readable(ws[0]) && Readable(ws[1]);
    assert ws[1..][1..] == [];
  }

  /** The chain of `sequence<int>(1,5,10)`: `equal_range(0,1)` narrows it,
      `gen` prints it. */
  lemma SequenceChain(ws: seq<Written>, be: Backend)
    requires ws == [Written("", "equal_range", "0,1"), Written("", "gen", "")]
    ensures EvaluateChain("sequence<int>", Pieces("1,5,10"), Parsed(ws), be) ==
            Output("method: equal_range\nmethod: gen\n" + be.showSequence(EqualRange(NewSequence(1, 5, 10), 0, 1)) + "\n")
  {
    var s0 := NewSequence(1, 5, 10);
    SequenceMade();
    ParsedTwo(ws);
    var segs := Parsed(ws);
    assert segs[0] == Segment("equal_range", "0,1") && segs[1] == Segment("gen", "");
    TwoCalls(segs, s0, be);
  }

  /** `equal_range(0,1)` then `gen` on a sequence. */
  lemma TwoCalls(segs: seq<Segment>, s0: SeqBuilder, be: Backend)
    requires segs == [Segment("equal_range", "0,1"), Segment("gen", "")]
    ensures Final(Fold(segs, Running(SeqObj(s0), ""), be)) ==
            Output("method: equal_range\nmethod: gen\n" + be.showSequence(EqualRange(s0, 0, 1)) + "\n")
  {
    var s1 := EqualRange(s0, 0, 1);
    var traced := "method: equal_range\n";
    var range, gen := segs[0], segs[1];
    assert range == Segment("equal_range", "0,1") && gen == Segment("gen", "");
    FoldTwo(segs, Running(SeqObj(s0), ""), be);
    RangeStep(s0, be);
    GenCall(s1, traced, be);
    TraceLines(traced);
  }

  lemma TraceLines(traced: string)
    requires traced == "method: equal_range\n"
    ensures traced + "method: gen\n" == "method: equal_range\nmethod: gen\n"
  {
  }

  /** Two segments are two calls in turn. */
  lemma FoldTwo(segs: seq<Segment>, st: State, be: Backend)
    requires |segs| == 2
    ensures Fold(segs, st, be) == Call(Call(st, segs[0], be), segs[1], be)
  {
    var rest, first := segs[1..], Call(st, segs[0], be);
    assert rest[0] == segs[1] && rest[1..] == [];
    assert Fold(segs, st, be) == Fold(rest, first, be);
    assert Fold(rest, first, be) == Fold([], Call(first, segs[1], be), be);
  }

  /** `equal_range(0,1)` is traced and returns the narrowed sequence. */
  lemma RangeStep(s: SeqBuilder, be: Backend)
    ensures Call(Running(SeqObj(s), ""), Segment("equal_range", "0,1"), be) ==
            Running(SeqObj(EqualRange(s, 0, 1)), "method: equal_range\n")
  {
    var seg := Segment("equal_range", "0,1");
    RangeCall(s, be);
    Carries(SeqObj(s), "", seg, SeqObj(EqualRange(s, 0, 1)), be);
    RangeTrace(seg.name);
  }

  lemma RangeTrace(name: string)
    requires name == "equal_range"
    ensures "" + "method: " + name + "\n" + "" == "method: equal_range\n"
  {
  }

  /** A call that returns an object goes on with it, traced. */
  lemma Carries(obj: Obj, captured: string, seg: Segment, next: Obj, be: Backend)
    requires Dispatch(obj, seg.name, Pieces(seg.argText), be).next == Ok(Some(next))
    ensures Call(Running(obj, captured), seg, be) ==
            Running(next, captured + "method: " + seg.name + "\n" + Dispatch(obj, seg.name, Pieces(seg.argText), be).emitted)
  {
  }

  /** `equal_range(0,1)` on a sequence returns the narrowed sequence. */
  lemma RangeCall(s: SeqBuilder, be: Backend)
    ensures var r := Dispatch(SeqObj(s), "equal_range", Pieces("0,1"), be);
            r.emitted == "" && r.next == Ok(Some(SeqObj(EqualRange(s, 0, 1))))
  {
    var args := ["0", "1"];
    PiecesOfJoin(args);
    assert Join(args) == "0,1";
    ReadsBack(0, "0");
    ReadsBack(1, "1");
    assert args[0] == "0" && args[1] == "1" && [] + [0] == [0] && [0] + [1] == [0, 1];
    assert IntArgs(args, 0) == Ok([]);
    assert IntArgs(args, 1) == Ok([0]);
    assert IntArgs(args, 2) == Ok([0, 1]);
  }

  /** `gen` on a sequence prints it and ends the chain. */
  lemma GenCall(s: SeqBuilder, traced: string, be: Backend)
    ensures Call(Running(SeqObj(s), traced), Segment("gen", ""), be) ==
            Done(Output(traced + "method: gen\n" + be.showSequence(s) + "\n"))
  {
    var r := Dispatch(SeqObj(s), "gen", Pieces(""), be);
    assert r.next == Ok(None) && r.emitted == be.showSequence(s) + "\n";
    assert traced + "method: " + "gen" + "\n" + r.emitted == traced + "method: gen\n" + be.showSequence(s) + "\n";
  }

  /** `sequence<int>(1,5,10)` builds the sequence with those three numbers. */
  lemma SequenceMade()
    ensures MakeObject("sequence<int>", Pieces("1,5,10")) == Ok(SeqObj(NewSequence(1, 5, 10)))
  {
    var args := ["1", "5", "10"];
    PiecesOfJoin(args);
    assert Join(args) == "1,5,10";
    ReadsBack(1, "1");
    ReadsBack(5, "5");
    ReadsBack(10, "10");
  }

  /** `std::stoi` reads back a number from its decimal text. */
  lemma ReadsBack(x: int, s: string)
    requires 0 <= x <= 99 && s == Show(x)
    ensures ToInt(s) == Ok(x)
  {
    ToIntShow("", x, "");
    assert "" + Show(x) + "" == s;
  }
}
