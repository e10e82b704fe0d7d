/** The signature strings that `Compiler.relocate` in tjs.d.ts accepts, read
    the way its type-level mappers read them. A recipe maps each symbol to a
    string: one letter per parameter, `[...]` for a callback parameter, and an
    optional `!` followed by a one-letter result code.

    The mappers are conditional types; where none of their cases matches they
    yield `never`. Inside a tuple (`[number, ...never]`) a `never` collapses the
    whole parameter list to `never`, but a function type whose result, or one
    of whose callbacks' argument lists, is `never` is still a function type.
    The model keeps that distinction: `None` stands for `never` exactly where
    the mappers produce it, and `NoNever` says that no `never` was produced. */
module Signature {

  datatype Option<T> = None | Some(value: T)

  /** The JavaScript type a parameter letter stands for. */
  datatype ValueType = Number | Str | ArrayBuffer | BigInt

  /** A parameter of a relocated function: a value, or a callback
      `(...args) => number | void` whose argument list is None where
      SimpleParameterMapper yields never. */
  datatype Param = Value(t: ValueType) | Callback(args: Option<seq<ValueType>>)

  /** The result types ResultMapper produces. */
  datatype ResultType = NumberResult | BigIntResult | VoidResult

  /** `(...args: params) => result`, with None for a never component. */
  datatype FnType = FnType(params: Option<seq<Param>>, result: Option<ResultType>)

  /** The parameter letters: i and d for number, s and w for string, v for
      ArrayBuffer, b and p for bigint. */
  function LetterType(c: char): Option<ValueType> {
    if c == 'i' || c == 'd' then Some(Number)
    else if c == 's' || c == 'w' then Some(Str)
    else if c == 'v' then Some(ArrayBuffer)
    else if c == 'b' || c == 'p' then Some(BigInt)
    else None
  }

  predicate AllLetters(t: string) {
    forall i :: 0 <= i < |t| ==> LetterType(t[i]).Some?
  }

  /** `[x, ...rest]`: never when rest is never. */
  function Cons<T>(x: T, rest: Option<seq<T>>): Option<seq<T>> {
    match rest
    case None => None
    case Some(xs) => Some([x] + xs)
  }

  /** The position of the first c in s. */
  function IndexOf(s: string, c: char): (k: nat)
    requires c in s
    ensures k < |s| && s[k] == c && c !in s[..k]
  {
    if s[0] == c then 0 else 1 + IndexOf(s[1..], c)
  }

  /** The first c in a + [c] + b is the one after a. */
  lemma {:induction false} IndexOfAfter(a: string, c: char, b: string)
    requires c !in a
    ensures IndexOf(a + [c] + b, c) == |a|
  {
    if a != [] {
      assert a[0] in a;
      assert (a + [c] + b)[1..] == a[1..] + [c] + b;
      IndexOfAfter(a[1..], c, b);
    }
  }

  /** SimpleParameterMapper: letters only, consumed left to right, one
      parameter per letter. */
  function SimpleParams(t: string): (r: Option<seq<ValueType>>)
    ensures r.Some? ==> |r.value| == |t|
  {
    if t == "" then Some([])
    else match LetterType(t[0])
      case None => None
      case Some(v) => Cons(v, SimpleParams(t[1..]))
  }

  /** ParameterMapper: letters, and `[part]` groups read as callbacks whose
      arguments are `part`, the text up to the first `]`, read with
      SimpleParameterMapper. */
  function Params(t: string): (r: Option<seq<Param>>)
    ensures r.Some? ==> |r.value| <= |t|
    ensures r.Some? && t != "" ==> |r.value| > 0
    decreases |t|
  {
    if t == "" then Some([])
    else if LetterType(t[0]).Some? then
      Cons(Value(LetterType(t[0]).value), Params(t[1..]))
    else if t[0] == '[' && ']' in t[1..] then
      var k := IndexOf(t[1..], ']');
      Cons(Callback(SimpleParams(t[1..k + 1])), Params(t[k + 2..]))
    else None
  }

  /** ResultMapper: exactly one of the codes i, d, b, p and _. */
  function Result(t: string): (r: Option<ResultType>)
    ensures r.Some? <==> |t| == 1 && t[0] in "idbp_"
    ensures r == Some(NumberResult) <==> t == "i" || t == "d"
    ensures r == Some(BigIntResult) <==> t == "b" || t == "p"
    ensures r == Some(VoidResult) <==> t == "_"
  {
    if t == "i" || t == "d" then Some(NumberResult)
    else if t == "b" || t == "p" then Some(BigIntResult)
    else if t == "_" then Some(VoidResult)
    else None
  }

  /** FunctionMapper: split at the first `!` into parameters and result; with
      no `!` the result is void. */
  function FunctionOf(sig: string): (r: FnType)
    ensures r.result.Some? && r.result.value != VoidResult ==> '!' in sig
    ensures r.params.Some? ==> |r.params.value| <= |sig|
  {
    if '!' in sig then
      var k := IndexOf(sig, '!');
      FnType(Params(sig[..k]), Result(sig[k + 1..]))
    else
      FnType(Params(sig), Some(VoidResult))
  }

  /** Relocated: every recipe entry mapped to the function type of its
      signature string. */
  function Relocated(recipe: map<string, string>): (r: map<string, FnType>)
    ensures r.Keys == recipe.Keys
    ensures forall k :: k in recipe ==> r[k] == FunctionOf(recipe[k])
  {
    map k | k in recipe :: FunctionOf(recipe[k])
  }

  /** No callback in the list has `never` arguments. */
  predicate NoNeverParams(ps: seq<Param>) {
    forall i :: 0 <= i < |ps| ==> ps[i].Callback? ==> ps[i].args.Some?
  }

  /** No never anywhere in the function type: not in its parameter list, not
      in a callback's arguments and not in its result. */
  predicate NoNever(f: FnType) {
    f.params.Some? && NoNeverParams(f.params.value) && f.result.Some?
  }

  // --------------------------------------------------------------- lemmas

  /** SimpleParameterMapper accepts exactly the strings of parameter letters,
      and maps each letter, in order, to one parameter of its type; the empty
      string gives the empty list. */
  lemma {:induction false} SimpleParamsSpec(t: string)
    ensures SimpleParams(t).Some? <==> AllLetters(t)
    ensures SimpleParams(t).Some? ==>
      |SimpleParams(t).value| == |t| &&
      forall i :: 0 <= i < |t| ==> SimpleParams(t).value[i] == LetterType(t[i]).value
  {
    if t != "" {
      SimpleParamsSpec(t[1..]);
      if LetterType(t[0]).Some? && AllLetters(t[1..]) {
        assert AllLetters(t) by {
          forall i | 0 <= i < |t| ensures LetterType(t[i]).Some? {
            if i > 0 { assert t[i] == t[1..][i - 1]; }
          }
        }
      } else if LetterType(t[0]).Some? {
        var j :| 0 <= j < |t[1..]| && LetterType(t[1..][j]).None?;
        assert t[j + 1] == t[1..][j];
      }
    }
  }

  /** On a string of letters ParameterMapper agrees with SimpleParameterMapper:
      one value parameter per letter, in order. */
  lemma {:induction false} ParamsOfLetters(t: string)
    requires AllLetters(t)
    ensures Params(t).Some? && |Params(t).value| == |t|
    ensures forall i :: 0 <= i < |t| ==> Params(t).value[i] == Value(LetterType(t[i]).value)
  {
    if t != "" {
      assert AllLetters(t[1..]) by {
        forall i | 0 <= i < |t[1..]| ensures LetterType(t[1..][i]).Some? {
          assert t[1..][i] == t[i + 1];
        }
      }
      assert LetterType(t[0]).Some?;
      ParamsOfLetters(t[1..]);
    }
  }

  /** A `[part]` group yields exactly one callback parameter whose arguments
      are part read by SimpleParameterMapper, followed by the parameters of
      what comes after the group. */
  lemma CallbackGroup(part: string, next: string)
    requires ']' !in part
    ensures Params("[" + part + "]" + next) == Cons(Callback(SimpleParams(part)), Params(next))
  {
    var t := "[" + part + "]" + next;
    assert t[1..] == part + "]" + next;
    IndexOfAfter(part, ']', next);
    assert t[1..|part| + 1] == part;
    assert t[|part| + 2..] == next;
  }

  /** The group has no bracket case of its own: a `[` inside a callback group
      makes that callback's arguments never, so the parameter list is never
      or holds a callback with never arguments. */
  lemma NestedCallbackRejected(part: string, next: string)
    requires ']' !in part && '[' in part
    ensures Params("[" + part + "]" + next) == Cons(Callback(None), Params(next))
    ensures var ps := Params("[" + part + "]" + next); ps.None? || !NoNeverParams(ps.value)
  {
    CallbackGroup(part, next);
    SimpleParamsSpec(part);
    var j :| 0 <= j < |part| && part[j] == '[';
    assert LetterType(part[j]).None?;
    var ps := Params("[" + part + "]" + next);
    if ps.Some? {
      assert ps.value[0] == Callback(None);
    }
  }

  /** A signature with `!` splits at the first one: parameters on the left,
      result code on the right. */
  lemma FunctionOfSplit(args: string, res: string)
    requires '!' !in args
    ensures FunctionOf(args + "!" + res) == FnType(Params(args), Result(res))
  {
    var sig := args + "!" + res;
    IndexOfAfter(args, '!', res);
    assert sig[..|args|] == args && sig[|args| + 1..] == res;
  }

  /** Cons keeps a never, and keeps a callback with never arguments. */
  lemma ConsKeepsRejection(x: Param, rest: Option<seq<Param>>)
    requires rest.None? || !NoNeverParams(rest.value)
    ensures Cons(x, rest).None? || !NoNeverParams(Cons(x, rest).value)
  {
    if rest.Some? {
      var i :| 0 <= i < |rest.value| && rest.value[i].Callback? && rest.value[i].args.None?;
      assert Cons(x, rest).value[i + 1] == rest.value[i];
    }
  }

  /** An unknown character inside the first group gives its callback never
      arguments. */
  lemma UnknownInGroup(t: string, c: char, j: nat)
    requires t != "" && t[0] == '[' && ']' in t[1..]
    requires 1 <= j <= IndexOf(t[1..], ']') && t[j] == c && c !in "idswvbp[]"
    ensures Params(t).None? || !NoNeverParams(Params(t).value)
  {
    var k := IndexOf(t[1..], ']');
    var part := t[1..k + 1];
    assert part[j - 1] == c;
    SimpleParamsSpec(part);
    assert LetterType(part[j - 1]).None?;
    if Params(t[k + 2..]).Some? {
      assert Params(t).value[0] == Callback(None);
    }
  }

  /** A parameter string containing a character outside the grammar's
      alphabet makes ParameterMapper never, or gives one of its callbacks
      never arguments. */
  lemma {:induction false} ParamsRejectUnknown(t: string, c: char)
    requires c in t && c !in "idswvbp[]"
    ensures Params(t).None? || !NoNeverParams(Params(t).value)
    decreases |t|
  {
    var j :| 0 <= j < |t| && t[j] == c;
    if LetterType(t[0]).Some? {
      assert t[1..][j - 1] == c;
      ParamsRejectUnknown(t[1..], c);
      ConsKeepsRejection(Value(LetterType(t[0]).value), Params(t[1..]));
    } else if t[0] == '[' && ']' in t[1..] {
      var k := IndexOf(t[1..], ']');
      var part, next := t[1..k + 1], t[k + 2..];
      assert t[1..][j - 1] == c;
      if j <= k {
        UnknownInGroup(t, c, j);
      } else {
        assert next[j - k - 2] == c;
        ParamsRejectUnknown(next, c);
        ConsKeepsRejection(Callback(SimpleParams(part)), Params(next));
      }
    }
  }

  /** Any character outside `idswvbp[]!_` anywhere in a signature yields a
      never in the parameter list, in a callback's arguments, or in the
      result. */
  lemma UnknownCharRejected(sig: string, c: char)
    requires c in sig && c !in "idswvbp[]!_"
    ensures !NoNever(FunctionOf(sig))
  {
    var j :| 0 <= j < |sig| && sig[j] == c;
    if '!' in sig {
      var k := IndexOf(sig, '!');
      if j < k {
        assert sig[..k][j] == c;
        ParamsRejectUnknown(sig[..k], c);
      } else {
        assert sig[k + 1..][j - k - 1] == c;
      }
    } else {
      ParamsRejectUnknown(sig, c);
    }
  }

  /** The value parameters a string of letters stands for, one per letter. */
  function LetterParams(a: string): seq<Param>
    requires AllLetters(a)
  {
    seq(|a|, i requires 0 <= i < |a| => Value(LetterType(a[i]).value))
  }

  /** Every recipe entry whose parameters are plain letters: `a!c` becomes
      `(...LetterParams(a)) => ResultMapper<c>`, and `a` alone becomes
      `(...LetterParams(a)) => void`. */
  lemma RelocatedOfLetters(recipe: map<string, string>, k: string, a: string, c: string)
    requires k in recipe && AllLetters(a)
    ensures recipe[k] == a + "!" + c ==>
      Relocated(recipe)[k] == FnType(Some(LetterParams(a)), Result(c))
    ensures recipe[k] == a ==>
      Relocated(recipe)[k] == FnType(Some(LetterParams(a)), Some(VoidResult))
  {
    assert '!' !in a;
    ParamsOfLetters(a);
    assert Params(a).value == LetterParams(a);
    if recipe[k] == a + "!" + c {
      FunctionOfSplit(a, c);
    }
  }

  /** The recipe of linux.js: `"s"` becomes `(string) => void` and `"dd!d"`
      becomes `(number, number) => number`. */
  lemma LinuxRecipe()
    ensures var r := Relocated(map["hello" := "s", "add" := "dd!d"]);
      r.Keys == {"hello", "add"} &&
      r["hello"] == FnType(Some([Value(Str)]), Some(VoidResult)) &&
      r["add"] == FnType(Some([Value(Number), Value(Number)]), Some(NumberResult))
  {
    FunctionOfSplit("dd", "d");
    assert "dd" + "!" + "d" == "dd!d";
    ParamsOfLetters("dd");
    ParamsOfLetters("s");
    assert Params("dd").value == [Value(Number), Value(Number)];
    assert Params("s").value == [Value(Str)];
    assert '!' !in "s";
  }
}
