/** The runtime objects: `SeqObj`, which wraps a `tgen::sequence<int>`, and
    `PermObj`, which wraps a `tgen::permutation`; their `call` method tables;
    and the factory `make_object`, which picks a constructor by name.

    The tgen backend is not part of this model. A backend value is recorded
    as the calls that built it, and the text its `gen()` prints is supplied
    by a `Backend` parameter (generation is randomised in the backend). */
module Objects {
  import opened Cpp
  import opened Numbers

  /** A `tgen::sequence<int>`: the three numbers given to its constructor,
      in order, and the configuration calls applied since. What the numbers
      mean belongs to the backend. */
  datatype SeqBuilder =
    | NewSequence(a: int, b: int, c: int)
    | EqualRange(from: SeqBuilder, i: int, j: int)
    | Distinct(from: SeqBuilder, indices: set<int>)

  /** A `tgen::permutation` and the number given to its constructor. */
  datatype PermBuilder = NewPermutation(n: int)

  datatype Obj = SeqObj(sequence: SeqBuilder) | PermObj(permutation: PermBuilder)

  /** The text `operator<<` prints for the value `gen()` draws. */
  datatype Backend = Backend(showSequence: SeqBuilder -> string, showPermutation: PermBuilder -> string)

  /** What one `call` does: the text it appends to `captured`, and then the
      object it returns, a null pointer (None), or the fault it raises. */
  datatype Reply = Reply(emitted: string, next: Result<Option<Obj>>)

  const SequenceKind: string := "sequence<int>"
  const PermutationKind: string := "permutation"

  /** How many arguments a constructor reads. */
  function Arity(name: string): nat
  {
    if name == SequenceKind then 3 else if name == PermutationKind then 1 else 0
  }

  /** `to_int(args[0])`, ..., `to_int(args[k-1])`, evaluated left to right.
      Reading `args[i]` past the end of the vector is undefined. */
  function IntArgs(args: seq<string>, k: nat): (r: Result<seq<int>>)
    ensures r.Ok? ==> k <= |args| && |r.value| == k
  {
    if k == 0 then Ok([])
    else
      match IntArgs(args, k - 1)
      case Fail(f) => Fail(f)
      case Ok(vs) =>
        if k - 1 >= |args| then Fail(Undefined)
        else
          match ToInt(args[k - 1])
          case Fail(f) => Fail(f)
          case Ok(v) => Ok(vs + [v])
  }

  /** `make_object`: build the object the constructor `name` describes. */
  function MakeObject(name: string, args: seq<string>): (r: Result<Obj>)
    ensures name != SequenceKind && name != PermutationKind ==>
              r == Fail(Exception("Unknown generator " + name))
    ensures r.Ok? <==> (name == SequenceKind || name == PermutationKind) && IntArgs(args, Arity(name)).Ok?
    ensures r.Ok? && name == SequenceKind ==>
              |args| >= 3 && ToInt(args[0]).Ok? && ToInt(args[1]).Ok? && ToInt(args[2]).Ok? &&
              r.value == SeqObj(NewSequence(ToInt(args[0]).value, ToInt(args[1]).value, ToInt(args[2]).value))
    ensures r.Ok? && name == PermutationKind ==>
              |args| >= 1 && ToInt(args[0]).Ok? && r.value == PermObj(NewPermutation(ToInt(args[0]).value))
    ensures r == Fail(Undefined) ==> |args| < Arity(name)
    ensures (name == SequenceKind || name == PermutationKind) && IntArgs(args, Arity(name)).Fail? ==>
              r == Fail(IntArgs(args, Arity(name)).fault)
  {
    if name == SequenceKind then
      match IntArgs(args, 3)
      case Fail(f) => if f == Undefined then UndefinedOnlyPastEnd(args, 3); Fail(f) else Fail(f)
      case Ok(v) => IntArgsValues(args, 3); Ok(SeqObj(NewSequence(v[0], v[1], v[2])))
    else if name == PermutationKind then
      match IntArgs(args, 1)
      case Fail(f) => if f == Undefined then UndefinedOnlyPastEnd(args, 1); Fail(f) else Fail(f)
      case Ok(v) => IntArgsValues(args, 1); Ok(PermObj(NewPermutation(v[0])))
    else
      Fail(Exception("Unknown generator " + name))
  }

  /** `SeqObj::call`. */
  function SeqCall(s: SeqBuilder, m: string, a: seq<string>, be: Backend): (r: Reply)
    ensures r.next == Ok(None) <==> m == "gen"
    ensures m == "gen" ==> r.emitted == be.showSequence(s) + "\n"
    ensures m != "gen" ==> r.emitted == ""
    ensures r.next.Ok? && r.next.value.Some? ==>
              r.next.value.value.SeqObj? && !r.next.value.value.sequence.NewSequence? &&
              r.next.value.value.sequence.from == s
    ensures m == "equal_range" && r.next.Ok? ==>
              |a| >= 2 && ToInt(a[0]).Ok? && ToInt(a[1]).Ok? &&
              r.next.value == Some(SeqObj(EqualRange(s, ToInt(a[0]).value, ToInt(a[1]).value)))
    ensures m == "equal_range" && r.next.Fail? ==> IntArgs(a, 2) == Fail(r.next.fault)
    ensures m == "distinct" ==>
              r.next == if |a| == 0 then Fail(Undefined) else Ok(Some(SeqObj(Distinct(s, IntsOf(a[0])))))
    ensures m != "equal_range" && m != "distinct" && m != "gen" ==>
              r.next == Fail(Exception("Unknown sequence method: " + m))
  {
    if m == "equal_range" then
      match IntArgs(a, 2)
      case Fail(f) => Reply("", Fail(f))
      case Ok(v) => IntArgsValues(a, 2); Reply("", Ok(Some(SeqObj(EqualRange(s, v[0], v[1])))))
    else if m == "distinct" then
      if |a| == 0 then Reply("", Fail(Undefined))
      else Reply("", Ok(Some(SeqObj(Distinct(s, IntsOf(a[0]))))))
    else if m == "gen" then
      Reply(be.showSequence(s) + "\n", Ok(None))
    else
      Reply("", Fail(Exception("Unknown sequence method: " + m)))
  }

  /** `PermObj::call`: it appends `TEST` before looking at the name. */
  function PermCall(p: PermBuilder, m: string, a: seq<string>, be: Backend): (r: Reply)
    ensures |r.emitted| >= 4 && r.emitted[..4] == "TEST"
    ensures r.next.Ok? <==> m == "gen"
    ensures r.next.Ok? ==> r.next.value == None && r.emitted == "TEST" + be.showPermutation(p) + "\n"
    ensures m != "gen" ==> r.next == Fail(Exception("Unknown permutation method: " + m))
  {
    var test := "TEST";
    if m == "gen" then Reply(test + be.showPermutation(p) + "\n", Ok(None))
    else Reply(test, Fail(Exception("Unknown permutation method: " + m)))
  }

  /** `obj->call(m, a)`: the method table of the object's kind. A call either
      returns an object of the same kind, or a null pointer (only `gen` does
      that, on both kinds), or fails. */
  function Dispatch(obj: Obj, m: string, a: seq<string>, be: Backend): (r: Reply)
    ensures r.next == Ok(None) <==> m == "gen"
    ensures r.next.Ok? && r.next.value.Some? ==> obj.SeqObj? && r.next.value.value.SeqObj?
  {
    match obj
    case SeqObj(s) => SeqCall(s, m, a, be)
    case PermObj(p) => PermCall(p, m, a, be)
  }

  /** A successful conversion holds the value of each of the first `k`
      arguments. */
  lemma {:induction false} IntArgsValues(args: seq<string>, k: nat)
    requires IntArgs(args, k).Ok?
    ensures forall i :: 0 <= i < k ==> ToInt(args[i]) == Ok(IntArgs(args, k).value[i])
  {
    if k > 0 {
      IntArgsLast(args, k);
      IntArgsValues(args, k - 1);
      var vs, r := IntArgs(args, k - 1).value, IntArgs(args, k).value;
      forall i | 0 <= i < k
        ensures ToInt(args[i]) == Ok(r[i])
      {
        if i < k - 1 {
          assert r[i] == vs[i];
          assert ToInt(args[i]) == Ok(vs[i]);
        } else {
          assert r[i] == ToInt(args[k - 1]).value;
        }
      }
    }
  }

  /** A successful conversion of `k` arguments extends that of the first
      `k - 1` by the value of the last. */
  lemma IntArgsLast(args: seq<string>, k: nat)
    requires k > 0 && IntArgs(args, k).Ok?
    ensures IntArgs(args, k - 1).Ok? && k - 1 < |args| && ToInt(args[k - 1]).Ok?
    ensures IntArgs(args, k).value == IntArgs(args, k - 1).value + [ToInt(args[k - 1]).value]
  {
  }

  /** The conversions succeed when there are `k` arguments and each is an
      integer. */
  lemma {:induction false} IntArgsSucceed(args: seq<string>, k: nat)
    requires k <= |args| && forall i :: 0 <= i < k ==> ToInt(args[i]).Ok?
    ensures IntArgs(args, k).Ok?
  {
    if k > 0 {
      IntArgsSucceed(args, k - 1);
    }
  }

  /** Reading past the end of the vector happens only when there are fewer
      than `k` arguments and every one of them converted. */
  lemma {:induction false} UndefinedOnlyPastEnd(args: seq<string>, k: nat)
    requires IntArgs(args, k) == Fail(Undefined)
    ensures k > |args| && forall i :: 0 <= i < |args| ==> ToInt(args[i]).Ok?
  {
    if IntArgs(args, k - 1) == Fail(Undefined) {
      UndefinedOnlyPastEnd(args, k - 1);
    } else {
      IntArgsValues(args, k - 1);
    }
  }

  /** When every argument converts and `k` exceeds their number, reading
      past the end of the vector does happen. */
  lemma {:induction false} UndefinedPastEnd(args: seq<string>, k: nat)
    requires k > |args| && forall i :: 0 <= i < |args| ==> ToInt(args[i]).Ok?
    ensures IntArgs(args, k) == Fail(Undefined)
  {
    if k - 1 == |args| {
      IntArgsSucceed(args, |args|);
    } else {
      UndefinedPastEnd(args, k - 1);
    }
  }

  /** Both directions together. */
  lemma IntArgsUndefined(args: seq<string>, k: nat)
    ensures IntArgs(args, k) == Fail(Undefined) <==>
            k > |args| && forall i :: 0 <= i < |args| ==> ToInt(args[i]).Ok?
  {
    if IntArgs(args, k) == Fail(Undefined) {
      UndefinedOnlyPastEnd(args, k);
    } else if k > |args| && forall i :: 0 <= i < |args| ==> ToInt(args[i]).Ok? {
      UndefinedPastEnd(args, k);
    }
  }

  /** A conversion that throws throws the exception of some argument among
      the first `k`. */
  lemma {:induction false} IntArgsException(args: seq<string>, k: nat)
    requires IntArgs(args, k).Fail? && IntArgs(args, k).fault.Exception?
    ensures exists j :: 0 <= j < k && j < |args| && ToInt(args[j]) == Fail(IntArgs(args, k).fault)
  {
    if IntArgs(args, k - 1).Fail? {
      IntArgsException(args, k - 1);
    }
  }

  lemma {:induction false} IntArgsPrefix(args: seq<string>, extra: seq<string>, k: nat)
    requires k <= |args|
    ensures IntArgs(args + extra, k) == IntArgs(args, k)
  {
    if k > 0 {
      IntArgsPrefix(args, extra, k - 1);
      assert (args + extra)[k - 1] == args[k - 1];
    }
  }

  /** Arguments beyond the ones a constructor reads are ignored. */
  lemma ExtraArgumentsIgnored(name: string, args: seq<string>, extra: seq<string>)
    requires |args| >= Arity(name)
    ensures MakeObject(name, args + extra) == MakeObject(name, args)
  {
    IntArgsPrefix(args, extra, Arity(name));
  }
}
