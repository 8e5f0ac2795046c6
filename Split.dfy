/** `split_args`: cut the text between a pair of parentheses into arguments
    at every comma met while the brace depth is zero. The depth goes up on
    `{`, down on `}`, is never reset between arguments and may go negative. */
module Split {

  /** The brace depth after reading `c` at depth `d`. */
  function Step(d: int, c: char): int
  {
    if c == '{' then d + 1 else if c == '}' then d - 1 else d
  }

  /** Reading `c` at depth `d` ends the current argument. */
  predicate IsCut(d: int, c: char)
  {
    c == ',' && Step(d, c) == 0
  }

  /** The arguments still to come when `s` is left to read at depth `d` with
      `cur` accumulated for the current argument. */
  function Split(s: string, d: int, cur: string): seq<string>
  {
    if s == [] then (if cur == [] then [] else [cur])
    else if IsCut(d, s[0]) then [cur] + Split(s[1..], Step(d, s[0]), [])
    else Split(s[1..], Step(d, s[0]), cur + [s[0]])
  }

  /** What `split_args(s)` returns. */
  function Pieces(s: string): seq<string>
  {
    Split(s, 0, [])
  }

  /** `split_args`. */
  method SplitArgs(s: string) returns (r: seq<string>)
    ensures r == Pieces(s)
  {
    r := [];
    var cur := "";
    var brace := 0;
    for i := 0 to |s|
      invariant r + Split(s[i..], brace, cur) == Pieces(s)
    {
      var c := s[i];
      assert s[i..][1..] == s[i + 1..];
      if c == '{' { brace := brace + 1; }
      if c == '}' { brace := brace - 1; }
      if c == ',' && brace == 0 {
        r := r + [cur];
        cur := "";
      } else {
        cur := cur + [c];
      }
    }
    if cur != "" {
      r := r + [cur];
    }
  }

  /* The specification's vocabulary: depth, cuts, and joining with commas. */

  /** The depth after reading all of `s` from depth `d`. */
  function Depth(s: string, d: int): int
  {
    if s == [] then d else Depth(s[1..], Step(d, s[0]))
  }

  /** Reading `s` from depth `d` never ends an argument. */
  predicate NoCut(s: string, d: int)
  {
    s == [] || (!IsCut(d, s[0]) && NoCut(s[1..], Step(d, s[0])))
  }

  /** The number of commas of `s`, read from depth `d`, that end an argument. */
  function Cuts(s: string, d: int): nat
  {
    if s == [] then 0 else (if IsCut(d, s[0]) then 1 else 0) + Cuts(s[1..], Step(d, s[0]))
  }

  /** The last character of `s`, read from depth `d`, ends an argument. */
  predicate EndsWithCut(s: string, d: int)
  {
    s != [] && (if |s| == 1 then IsCut(d, s[0]) else EndsWithCut(s[1..], Step(d, s[0])))
  }

  /** A piece of text that `split_args` keeps whole when it stands between
      two cuts: it ends no argument and leaves the depth at zero. */
  predicate Flat(a: string)
  {
    NoCut(a, 0) && Depth(a, 0) == 0
  }

  /** `s` read from depth `d` stays at depth one or more throughout. */
  predicate StaysOpen(s: string, d: int)
  {
    s == [] || (Step(d, s[0]) >= 1 && StaysOpen(s[1..], Step(d, s[0])))
  }

  /** The arguments joined again with commas. */
  function Join(args: seq<string>): string
  {
    if |args| == 0 then ""
    else if |args| == 1 then args[0]
    else args[0] + "," + Join(args[1..])
  }

  /* Lemmas. */

  lemma {:induction false} SplitNonEmpty(s: string, d: int, cur: string)
    requires s != [] || cur != []
    ensures Split(s, d, cur) != []
  {
    if s != [] && !IsCut(d, s[0]) {
      SplitNonEmpty(s[1..], Step(d, s[0]), cur + [s[0]]);
    }
  }

  /** What `split_args` drops from the end of `s`, read from depth `d`: the
      final comma when it ends an argument. */
  function DroppedComma(s: string, d: int): string
  {
    if EndsWithCut(s, d) then "," else ""
  }

  /** Joining the pieces with commas gives back the text read, except for a
      comma that ends the text at depth zero, which is dropped. */
  lemma {:induction false} JoinSplit(s: string, d: int, cur: string)
    ensures Join(Split(s, d, cur)) + DroppedComma(s, d) == cur + s
  {
    if s == [] {
      assert cur + s == cur;
    } else {
      var c, b := s[0], Step(d, s[0]);
      if !IsCut(d, c) {
        JoinSplit(s[1..], b, cur + [c]);
        JoinKeep(s, d, cur);
      } else if s[1..] == [] {
        JoinLastCut(s, d, cur);
      } else {
        JoinSplit(s[1..], b, []);
        JoinCutStep(s, d, cur);
      }
    }
  }

  /** A character that ends no argument joins the current one. */
  lemma JoinKeep(s: string, d: int, cur: string)
    requires s != [] && !IsCut(d, s[0])
    requires Join(Split(s[1..], Step(d, s[0]), cur + [s[0]])) + DroppedComma(s[1..], Step(d, s[0])) == cur + [s[0]] + s[1..]
    ensures Join(Split(s, d, cur)) + DroppedComma(s, d) == cur + s
  {
    KeepFacts(s, d, cur);
  }

  /** Unfolding one character that ends no argument. */
  lemma KeepFacts(s: string, d: int, cur: string)
    requires s != [] && !IsCut(d, s[0])
    ensures Split(s, d, cur) == Split(s[1..], Step(d, s[0]), cur + [s[0]])
    ensures DroppedComma(s, d) == DroppedComma(s[1..], Step(d, s[0]))
    ensures cur + [s[0]] + s[1..] == cur + s
  {
    assert cur + s == cur + ([s[0]] + s[1..]);
  }

  /** A comma that ends the text is dropped. */
  lemma JoinLastCut(s: string, d: int, cur: string)
    requires |s| == 1 && IsCut(d, s[0])
    ensures Join(Split(s, d, cur)) + DroppedComma(s, d) == cur + s
  {
    assert Split(s[1..], Step(d, s[0]), []) == [];
    assert s == [','];
  }

  /** A comma that ends an argument before more text comes back between
      the argument and the rest. */
  lemma JoinCutStep(s: string, d: int, cur: string)
    requires |s| > 1 && IsCut(d, s[0])
    requires Join(Split(s[1..], Step(d, s[0]), [])) + DroppedComma(s[1..], Step(d, s[0])) == [] + s[1..]
    ensures Join(Split(s, d, cur)) + DroppedComma(s, d) == cur + s
  {
    var b := Step(d, s[0]);
    var q := Split(s[1..], b, []);
    SplitNonEmpty(s[1..], b, []);
    CutFacts(s, d, cur);
    assert [] + s[1..] == s[1..];
    JoinCut(cur, s[1..], q, DroppedComma(s, d));
  }

  /** Unfolding one comma that ends an argument before more text. */
  lemma CutFacts(s: string, d: int, cur: string)
    requires |s| > 1 && IsCut(d, s[0])
    ensures Split(s, d, cur) == [cur] + Split(s[1..], Step(d, s[0]), [])
    ensures DroppedComma(s, d) == DroppedComma(s[1..], Step(d, s[0]))
    ensures cur + s == cur + "," + s[1..]
  {
    assert s == [','] + s[1..];
  }

  /** Joining puts a comma back between an argument and those after it. */
  lemma JoinCut(cur: string, rest: string, q: seq<string>, x: string)
    requires q != [] && Join(q) + x == rest
    ensures Join([cur] + q) + x == cur + "," + rest
  {
    assert ([cur] + q)[1..] == q;
    assert Join([cur] + q) == cur + "," + Join(q);
    assert cur + "," + Join(q) + x == cur + "," + (Join(q) + x);
  }

  lemma JoinPieces(s: string)
    ensures Join(Pieces(s)) + DroppedComma(s, 0) == s
  {
    JoinSplit(s, 0, []);
  }

  /** One piece per depth-zero comma, plus one more when text follows the
      last such comma (or when there is none and the text is not empty). */
  lemma {:induction false} SplitCount(s: string, d: int, cur: string)
    ensures |Split(s, d, cur)| == Cuts(s, d) + (if EndsWithCut(s, d) || cur + s == [] then 0 else 1)
  {
    if s != [] {
      var c, b := s[0], Step(d, s[0]);
      if IsCut(d, c) {
        SplitCount(s[1..], b, []);
      } else {
        SplitCount(s[1..], b, cur + [c]);
      }
    }
  }

  lemma PiecesCount(s: string)
    ensures |Pieces(s)| == Cuts(s, 0) + (if EndsWithCut(s, 0) || s == [] then 0 else 1)
  {
    SplitCount(s, 0, []);
  }

  /** Text that ends no argument is carried whole into the current one. */
  lemma {:induction false} SplitPrefix(a: string, t: string, d: int, cur: string)
    requires NoCut(a, d)
    ensures Split(a + t, d, cur) == Split(t, Depth(a, d), cur + a)
  {
    if a != [] {
      assert (a + t)[1..] == a[1..] + t;
      assert cur + [a[0]] + a[1..] == cur + a;
      SplitPrefix(a[1..], t, Step(d, a[0]), cur + [a[0]]);
    } else {
      assert a + t == t && cur + a == cur;
    }
  }

  /** `split_args` inverts `Join` on arguments it keeps whole, as long as
      the last argument is not empty; empty arguments in the middle are kept. */
  lemma {:induction false} PiecesOfJoin(args: seq<string>)
    requires forall i :: 0 <= i < |args| ==> Flat(args[i])
    requires args == [] || args[|args| - 1] != []
    ensures Pieces(Join(args)) == args
  {
    if |args| == 1 {
      SplitPrefix(args[0], [], 0, []);
      assert args[0] + [] == args[0] && [] + args[0] == args[0];
    } else if |args| > 1 {
      var a, rest := args[0], Join(args[1..]);
      SplitPrefix(a, "," + rest, 0, []);
      assert [] + a == a;
      assert a + "," + rest == a + ("," + rest);
      assert ("," + rest)[1..] == rest && ("," + rest)[0] == ',';
      assert Split("," + rest, 0, a) == [a] + Split(rest, 0, []);
      PiecesOfJoin(args[1..]);
      assert args == [a] + args[1..];
    }
  }

  lemma {:induction false} OpenTextHasNoCut(s: string, d: int)
    requires d >= 1 && StaysOpen(s, d)
    ensures NoCut(s, d) && Depth(s, d) >= 1
  {
    if s != [] {
      OpenTextHasNoCut(s[1..], Step(d, s[0]));
    }
  }

  lemma {:induction false} DepthAppend(a: string, b: string, d: int)
    ensures Depth(a + b, d) == Depth(b, Depth(a, d))
  {
    if a != [] {
      assert (a + b)[1..] == a[1..] + b;
      DepthAppend(a[1..], b, Step(d, a[0]));
    } else {
      assert a + b == b;
    }
  }

  lemma {:induction false} NoCutAppend(a: string, b: string, d: int)
    requires NoCut(a, d) && NoCut(b, Depth(a, d))
    ensures NoCut(a + b, d)
  {
    if a != [] {
      assert (a + b)[1..] == a[1..] + b;
      NoCutAppend(a[1..], b, Step(d, a[0]));
    } else {
      assert a + b == b;
    }
  }

  /** A brace group whose inside never closes it early is one argument:
      none of its commas splits, and the depth is zero again after it. */
  lemma BraceGroupIsFlat(inner: string)
    requires StaysOpen(inner, 1) && Depth(inner, 1) == 1
    ensures Flat("{" + inner + "}")
  {
    OpenTextHasNoCut(inner, 1);
    var g := "{" + inner + "}";
    assert g == "{" + (inner + "}");
    assert g[1..] == inner + "}";
    DepthAppend(inner, "}", 1);
    NoCutAppend(inner, "}", 1);
  }

  /** `"a,{1,2,3},b"` gives `a`, `{1,2,3}` and `b`. */
  lemma GroupExample()
    ensures Pieces("a,{1,2,3},b") == ["a", "{1,2,3}", "b"]
  {
    InnerOpen();
    BraceGroupIsFlat("1,2,3");
    assert Flat("a") && Flat("b");
    PiecesOfJoin(["a", "{1,2,3}", "b"]);
    assert Join(["a", "{1,2,3}", "b"]) == "a,{1,2,3},b";
  }

  /** The inside of `{1,2,3}` stays open and ends at depth one. */
  lemma InnerOpen()
    ensures StaysOpen("1,2,3", 1) && Depth("1,2,3", 1) == 1
  {
    assert "1,2,3"[1..] == ",2,3" && ",2,3"[1..] == "2,3" && "2,3"[1..] == ",3";
    assert ",3"[1..] == "3" && "3"[1..] == [];
    assert StaysOpen("3", 1) && Depth("3", 1) == 1;
    assert StaysOpen(",3", 1) && Depth(",3", 1) == 1;
    assert StaysOpen("2,3", 1) && Depth("2,3", 1) == 1;
    assert StaysOpen(",2,3", 1) && Depth(",2,3", 1) == 1;
  }

  /** Empty input gives no argument. */
  lemma EmptyExample()
    ensures Pieces("") == []
  {
    PiecesOfJoin([]);
  }

  /** Empty middle arguments are kept. */
  lemma EmptyMiddleExample()
    ensures Pieces("a,,b") == ["a", "", "b"]
  {
    assert Flat("a") && Flat("") && Flat("b");
    PiecesOfJoin(["a", "", "b"]);
    assert Join(["a", "", "b"]) == "a,,b";
  }

  /** A trailing comma is dropped. */
  lemma TrailingCommaExample()
    ensures Pieces("a,b,") == ["a", "b"]
  {
    assert Flat("a") && Flat("b");
    SplitPrefix("a", ",b,", 0, []);
    assert "a" + ",b," == "a,b," && [] + "a" == "a";
    assert ",b,"[1..] == "b,";
    assert Split(",b,", 0, "a") == ["a"] + Split("b,", 0, []);
    SplitPrefix("b", ",", 0, []);
    assert "b" + "," == "b," && [] + "b" == "b";
    assert ","[1..] == [];
    assert Split(",", 0, "b") == ["b"];
  }

  /** A `}` before a comma makes the depth negative, so that comma does not
      split. */
  lemma NegativeDepthExample()
    ensures Pieces("},a") == ["},a"]
  {
    assert "},a"[1..] == ",a" && ",a"[1..] == "a" && "a"[1..] == [];
    assert NoCut("a", -1);
    assert NoCut(",a", -1);
    assert NoCut("},a", 0);
    SplitPrefix("},a", [], 0, []);
    assert "},a" + [] == "},a" && [] + "},a" == "},a";
  }
}
