/** The browser stand-in for the Node.js `util` module: `format`, `inspect`,
    `deprecate` and the argument check of `callbackify`. */
module UtilPolyfill {
  import opened Strings
  import opened Wrappers

  /** A JavaScript value, as far as these helpers look into it. An object is
      its own enumerable keys in `Object.keys` order. */
  datatype Value =
    | Undefined
    | Null
    | Bool(b: bool)
    | Num(x: real)
    | Str(s: string)
    | Arr(items: seq<Value>)
    | Obj(fields: seq<Field>)
    | Func(name: string)

  datatype Field = Field(key: string, val: Value)

  /** The runtime conversions `format` and `inspect` call: `String(v)`,
      `String(Number(v))` and `JSON.stringify(v)`. They stay abstract. */
  datatype Conversions = Conversions(str: Value -> string, num: Value -> string, json: Value -> string)

  /** A two-character match of `/%[sdj%]/` at the start of `s`. */
  predicate PlaceholderAt(s: string) {
    |s| >= 2 && s[0] == '%' && s[1] in "sdj%"
  }

  /** The replacement for one consuming placeholder. */
  function Substitute(spec: char, arg: Value, conv: Conversions): string {
    if spec == 's' then conv.str(arg)
    else if spec == 'd' then conv.num(arg)
    else if spec == 'j' then conv.json(arg)
    else ['%', spec]
  }

  /** What `format` makes of the string `s` with the arguments still unused:
      the non-overlapping left-to-right matches of `/%[sdj%]/` are replaced,
      `%%` by `%`, any other by the next argument or, when none is left, by
      itself. */
  function Expand(s: string, args: seq<Value>, conv: Conversions): (r: string)
    ensures '%' !in s ==> r == s  // text without '%' comes back unchanged
    decreases |s|
  {
    if PlaceholderAt(s) then
      if s[1] == '%' then "%" + Expand(s[2..], args, conv)
      else if args == [] then s[..2] + Expand(s[2..], args, conv)
      else Substitute(s[1], args[0], conv) + Expand(s[2..], args[1..], conv)
    else if s == [] then ""
    else
      assert '%' !in s ==> '%' !in s[1..] by {
        assert forall c :: c in s[1..] ==> c in s;
      }
      assert [s[0]] + s[1..] == s;
      [s[0]] + Expand(s[1..], args, conv)
  }

  /** How many arguments a full scan of `s` would consume. */
  function Placeholders(s: string): nat
    decreases |s|
  {
    if PlaceholderAt(s) then (if s[1] == '%' then 0 else 1) + Placeholders(s[2..])
    else if s == [] then 0
    else Placeholders(s[1..])
  }

  /** The arguments left over after `n` have been consumed. */
  function Drop(args: seq<Value>, n: nat): seq<Value> {
    if n >= |args| then [] else args[n..]
  }

  /** The text one placeholder at the start of `s` turns into. */
  function PlaceholderText(s: string, args: seq<Value>, conv: Conversions): string
    requires PlaceholderAt(s)
  {
    if s[1] == '%' then "%" else if args == [] then s[..2] else Substitute(s[1], args[0], conv)
  }

  /** The arguments left after the placeholder at the start of `s`. */
  function ArgsAfter(s: string, args: seq<Value>): seq<Value>
    requires PlaceholderAt(s)
  {
    if s[1] == '%' || args == [] then args else args[1..]
  }

  lemma ExpandAtPlaceholder(s: string, args: seq<Value>, conv: Conversions)
    requires PlaceholderAt(s)
    ensures Expand(s, args, conv) == PlaceholderText(s, args, conv) + Expand(s[2..], ArgsAfter(s, args), conv)
  {
  }

  lemma ExpandAtChar(s: string, args: seq<Value>, conv: Conversions)
    requires s != [] && !PlaceholderAt(s)
    ensures Expand(s, args, conv) == [s[0]] + Expand(s[1..], args, conv)
  {
  }

  /** `format(fmt, ...args)`, with the source's running argument index. */
  method Format(fmt: Value, args: seq<Value>, conv: Conversions) returns (r: Value)
    ensures !fmt.Str? ==> r == fmt
    ensures fmt.Str? ==> r == Str(Expand(fmt.s, args, conv))
  {
    if !fmt.Str? {
      return fmt;
    }
    var s := fmt.s;
    var out := "";
    var i := 0;
    var index := 0;
    while i < |s|
      invariant 0 <= i <= |s| && 0 <= index <= |args|
      invariant out + Expand(s[i..], args[index..], conv) == Expand(s, args, conv)
      decreases |s| - i
    {
      ghost var rest, left := s[i..], args[index..];
      var piece: string;
      if i + 1 < |s| && s[i] == '%' && s[i + 1] in "sdj%" {
        assert PlaceholderAt(rest) && rest[2..] == s[i + 2..];
        ExpandAtPlaceholder(rest, left, conv);
        if s[i + 1] == '%' {
          piece := "%";
        } else if index >= |args| {
          assert rest[..2] == s[i..i + 2];
          piece := s[i..i + 2];
        } else {
          assert left[0] == args[index] && left[1..] == args[index + 1..];
          piece := Substitute(s[i + 1], args[index], conv);
          index := index + 1;
        }
        assert piece == PlaceholderText(rest, left, conv);
        assert args[index..] == ArgsAfter(rest, left);
        i := i + 2;
      } else {
        assert !PlaceholderAt(rest) && rest[1..] == s[i + 1..];
        ExpandAtChar(rest, left, conv);
        piece := [s[i]];
        i := i + 1;
      }
      AppendAssoc(out, piece, Expand(s[i..], args[index..], conv));
      out := out + piece;
    }
    assert s[|s|..] == [];
    return Str(out);
  }

  /** Without arguments and without `%%`, every placeholder stays verbatim. */
  lemma {:induction false} ExpandNoArgs(s: string, conv: Conversions)
    requires !Contains(s, "%%")
    ensures Expand(s, [], conv) == s
    decreases |s|
  {
    if PlaceholderAt(s) {
      assert s[1] != '%' by {
        assert s[..2] == "%%" ==> StartsWith(s, "%%");
      }
      assert !Contains(s[1..], "%%");
      assert s[1..] != [] && !Contains(s[2..], "%%");
      ExpandNoArgs(s[2..], conv);
      assert s[..2] + s[2..] == s;
    } else if s != [] {
      assert !Contains(s[1..], "%%");
      ExpandNoArgs(s[1..], conv);
      assert [s[0]] + s[1..] == s;
    }
  }

  /** Arguments beyond the placeholders are silently dropped. */
  lemma {:induction false} ExpandSurplus(s: string, args: seq<Value>, extra: seq<Value>, conv: Conversions)
    requires Placeholders(s) <= |args|
    ensures Expand(s, args + extra, conv) == Expand(s, args, conv)
    decreases |s|
  {
    if PlaceholderAt(s) {
      if s[1] == '%' {
        ExpandSurplus(s[2..], args, extra, conv);
      } else {
        assert (args + extra)[0] == args[0];
        assert (args + extra)[1..] == args[1..] + extra;
        ExpandSurplus(s[2..], args[1..], extra, conv);
      }
    } else if s != [] {
      ExpandSurplus(s[1..], args, extra, conv);
    }
  }

  /** Arguments are consumed strictly left to right: expanding a concatenation
      expands the second part with what the first part left over, provided
      the first part does not end in an unfinished '%'. */
  lemma {:induction false} ExpandConcat(a: string, b: string, args: seq<Value>, conv: Conversions)
    requires a == [] || a[|a| - 1] != '%'
    ensures Expand(a + b, args, conv) == Expand(a, args, conv) + Expand(b, Drop(args, Placeholders(a)), conv)
    decreases |a|, 1
  {
    if a == [] {
      assert a + b == b;
      assert Drop(args, 0) == args;
    } else if PlaceholderAt(a) {
      ExpandConcatAtPlaceholder(a, b, args, conv);
    } else {
      ExpandConcatAtChar(a, b, args, conv);
    }
  }

  lemma {:induction false} ExpandConcatAtPlaceholder(a: string, b: string, args: seq<Value>, conv: Conversions)
    requires PlaceholderAt(a) && a[|a| - 1] != '%'
    ensures Expand(a + b, args, conv) == Expand(a, args, conv) + Expand(b, Drop(args, Placeholders(a)), conv)
    decreases |a|, 0
  {
    var a2 := a[2..];
    assert PlaceholderAt(a + b) && (a + b)[1] == a[1];
    assert (a + b)[..2] == a[..2];
    assert (a + b)[2..] == a2 + b;
    assert a2 == [] || a2[|a2| - 1] == a[|a| - 1];
    ExpandAtPlaceholder(a + b, args, conv);
    ExpandAtPlaceholder(a, args, conv);
    assert PlaceholderText(a + b, args, conv) == PlaceholderText(a, args, conv);
    assert ArgsAfter(a + b, args) == ArgsAfter(a, args);
    ExpandConcat(a2, b, ArgsAfter(a, args), conv);
    DropAfterPlaceholder(a, args);
    AppendAssoc(PlaceholderText(a, args, conv), Expand(a2, ArgsAfter(a, args), conv),
                Expand(b, Drop(args, Placeholders(a)), conv));
  }

  /** What a placeholder leaves over, minus what the rest consumes, is what
      the whole string leaves over. */
  lemma DropAfterPlaceholder(a: string, args: seq<Value>)
    requires PlaceholderAt(a)
    ensures Drop(ArgsAfter(a, args), Placeholders(a[2..])) == Drop(args, Placeholders(a))
  {
    var p := Placeholders(a[2..]);
    if a[1] != '%' && args != [] {
      assert Placeholders(a) == p + 1;
      if p + 1 < |args| {
        assert args[1..][p..] == args[p + 1..];
      }
    }
  }

  lemma {:induction false} ExpandConcatAtChar(a: string, b: string, args: seq<Value>, conv: Conversions)
    requires a != [] && !PlaceholderAt(a) && a[|a| - 1] != '%'
    ensures Expand(a + b, args, conv) == Expand(a, args, conv) + Expand(b, Drop(args, Placeholders(a)), conv)
    decreases |a|, 0
  {
    assert (a + b)[0] == a[0];
    assert |a| >= 2 ==> (a + b)[1] == a[1];
    assert !PlaceholderAt(a + b);
    assert (a + b)[1..] == a[1..] + b;
    ExpandAtChar(a + b, args, conv);
    ExpandAtChar(a, args, conv);
    ExpandConcat(a[1..], b, args, conv);
    AppendAssoc([a[0]], Expand(a[1..], args, conv), Expand(b, Drop(args, Placeholders(a)), conv));
  }

  /** `inspect(obj)`: strings verbatim, numbers and functions through
      `String`, arrays bracketed with ', ', objects as `{ k: v, ... }`. */
  function Inspect(v: Value, conv: Conversions): (r: string)
    ensures v.Str? ==> r == v.s
    ensures v.Num? || v.Func? ==> r == conv.str(v)
    ensures v.Bool? ==> r == (if v.b then "true" else "false")
    ensures v.Null? ==> r == "null"
    ensures v.Undefined? ==> r == "undefined"
    ensures v.Arr? ==> r == "[" + InspectItems(v.items, conv) + "]"
    ensures v == Obj([]) ==> r == "{}"
    ensures v.Obj? && v.fields != [] ==> r == "{ " + InspectFields(v.fields, conv) + " }"
    decreases v
  {
    match v
    case Str(s) => s
    case Num(_) => conv.str(v)
    case Bool(b) => if b then "true" else "false"
    case Null => "null"
    case Undefined => "undefined"
    case Arr(items) =>
      var texts := seq(|items|, i requires 0 <= i < |items| => Inspect(items[i], conv));
      "[" + JoinWith(texts, ", ") + "]"
    case Obj(fields) =>
      if fields == [] then "{}"
      else
        var texts := seq(|fields|, i requires 0 <= i < |fields| =>
          fields[i].key + ": " + Inspect(fields[i].val, conv));
        "{ " + JoinWith(texts, ", ") + " }"
    case Func(_) => conv.str(v)
  }

  /** The text between the brackets of an inspected array. */
  function InspectItems(items: seq<Value>, conv: Conversions): string {
    JoinWith(seq(|items|, i requires 0 <= i < |items| => Inspect(items[i], conv)), ", ")
  }

  /** The text between the braces of an inspected object: each key, ': '
      and its value's text, joined with ', '. */
  function InspectFields(fields: seq<Field>, conv: Conversions): string {
    JoinWith(seq(|fields|, i requires 0 <= i < |fields| => fields[i].key + ": " + Inspect(fields[i].val, conv)), ", ")
  }

  /** Inspecting the concatenation of two non-empty arrays joins the two
      element lists with ', '. */
  lemma InspectArrayConcat(a: seq<Value>, b: seq<Value>, conv: Conversions)
    requires a != [] && b != []
    ensures Inspect(Arr(a + b), conv) == "[" + InspectItems(a, conv) + ", " + InspectItems(b, conv) + "]"
  {
    var ta := seq(|a|, i requires 0 <= i < |a| => Inspect(a[i], conv));
    var tb := seq(|b|, i requires 0 <= i < |b| => Inspect(b[i], conv));
    var tab := seq(|a + b|, i requires 0 <= i < |a + b| => Inspect((a + b)[i], conv));
    assert tab == ta + tb;
    JoinConcat(ta, tb, ", ");
    assert Inspect(Arr(a + b), conv) == "[" + JoinWith(tab, ", ") + "]";
    assert InspectItems(a, conv) == JoinWith(ta, ", ");
    assert InspectItems(b, conv) == JoinWith(tb, ", ");
    assert "[" + (JoinWith(ta, ", ") + ", " + JoinWith(tb, ", ")) + "]"
      == "[" + JoinWith(ta, ", ") + ", " + JoinWith(tb, ", ") + "]";
  }

  /** An object with one key prints as `{ key: value }`. */
  lemma InspectSingleField(key: string, val: Value, conv: Conversions)
    ensures Inspect(Obj([Field(key, val)]), conv) == "{ " + key + ": " + Inspect(val, conv) + " }"
  {
    var fields := [Field(key, val)];
    var texts := seq(|fields|, i requires 0 <= i < |fields| =>
      fields[i].key + ": " + Inspect(fields[i].val, conv));
    assert texts == [key + ": " + Inspect(val, conv)];
  }

  /** A one-element array prints its element in brackets. */
  lemma InspectSingleton(v: Value, conv: Conversions)
    ensures InspectItems([v], conv) == Inspect(v, conv)
    ensures Inspect(Arr([v]), conv) == "[" + Inspect(v, conv) + "]"
  {
    var one := [v];
    assert seq(|one|, i requires 0 <= i < |one| => Inspect(one[i], conv)) == [Inspect(v, conv)];
  }

  /** Inspect does not quote strings, so a string and the value it names
      print alike. */
  lemma InspectStringAmbiguity(conv: Conversions)
    ensures Inspect(Str("null"), conv) == Inspect(Null, conv)
    ensures Inspect(Arr([Str("a, b")]), conv) == Inspect(Arr([Str("a"), Str("b")]), conv)
  {
    InspectArrayConcat([Str("a")], [Str("b")], conv);
    InspectSingleton(Str("a, b"), conv);
    InspectSingleton(Str("a"), conv);
    InspectSingleton(Str("b"), conv);
    assert [Str("a")] + [Str("b")] == [Str("a"), Str("b")];
    assert "[" + "a" + ", " + "b" + "]" == "[" + "a, b" + "]";
  }

  /** The console text `deprecate` writes. */
  function DeprecationWarning(message: string): string {
    "DeprecationWarning: " + message
  }

  /** The wrapper `deprecate(fn, message)` returns, with its own `warned` flag
      and the warnings it has written to the console. */
  class Deprecated {
    const fn: seq<Value> -> Value
    const message: string
    var warned: bool
    var warnings: seq<string>

    /** The console shows exactly one warning once the flag is set, none before. */
    predicate Valid()
      reads this
    {
      warnings == if warned then [DeprecationWarning(message)] else []
    }

    constructor(fn: seq<Value> -> Value, message: string)
      ensures Valid() && !warned
      ensures this.fn == fn && this.message == message
    {
      this.fn := fn;
      this.message := message;
      warned := false;
      warnings := [];
    }

    /** One call of the wrapper: warn on the first call only, always forward. */
    method Call(args: seq<Value>) returns (r: Value)
      requires Valid()
      modifies this
      ensures Valid() && warned
      ensures r == fn(args)
      ensures warnings == [DeprecationWarning(message)]
      ensures old(warned) ==> warnings == old(warnings)
    {
      if !warned {
        warnings := warnings + [DeprecationWarning(message)];
        warned := true;
      }
      r := fn(args);
    }
  }

  /** What the wrapped function does when applied: returns a value (or a
      promise that fulfils with it), returns a promise that rejects, or
      throws synchronously. */
  datatype FnOutcome = Returned(value: Value) | Rejected(reason: Value) | Threw(error: Value)

  /** The arguments one callback call receives: `(null, result)` or `(err)`. */
  datatype CallbackArgs = CallbackArgs(err: Value, result: Option<Value>)

  /** What a call of the wrapper does: the arguments it forwards and the
      callback calls that follow. */
  datatype Invocation = Invocation(forwarded: seq<Value>, callbacks: seq<CallbackArgs>)

  /** What a call of the wrapper throws synchronously. */
  datatype Thrown = TypeError(message: string) | Rethrown(error: Value)

  const CallbackNotFunction := "The last argument must be a function."

  /** One call of the wrapper `callbackify(fn)` returns. The last argument is
      taken as the callback; `callbackThrows` is what the callback throws when
      handed a result, which the promise chain catches and hands back to the
      same callback. */
  function CallbackifyCall(args: seq<Value>, outcome: FnOutcome, callbackThrows: Option<Value>): (r: Result<Invocation, Thrown>)
    ensures r == Failure(TypeError(CallbackNotFunction)) <==> args == [] || !args[|args| - 1].Func?
    ensures r.Success? ==> r.value.forwarded == args[..|args| - 1]
    ensures r.Success? ==> 1 <= |r.value.callbacks| <= 2
    ensures r.Success? && outcome.Returned? ==> r.value.callbacks[0] == CallbackArgs(Null, Some(outcome.value))
    ensures r.Success? && outcome.Rejected? ==> r.value.callbacks == [CallbackArgs(outcome.reason, None)]
    ensures r.Failure? && r.error.Rethrown? ==> outcome.Threw?
    ensures args != [] && args[|args| - 1].Func? && outcome.Threw? ==> r == Failure(Rethrown(outcome.error))
    ensures r.Success? && outcome.Returned? ==> (|r.value.callbacks| == 2 <==> callbackThrows.Some?)
    ensures r.Success? && outcome.Returned? && callbackThrows.Some? ==>
      r.value.callbacks[1] == CallbackArgs(callbackThrows.value, None)
  {
    if args == [] || !args[|args| - 1].Func? then Failure(TypeError(CallbackNotFunction))
    else
      var forwarded := args[..|args| - 1];
      match outcome
      case Threw(e) => Failure(Rethrown(e))
      case Rejected(reason) => Success(Invocation(forwarded, [CallbackArgs(reason, None)]))
      case Returned(v) =>
        var first := CallbackArgs(Null, Some(v));
        match callbackThrows
        case None => Success(Invocation(forwarded, [first]))
        case Some(e) => Success(Invocation(forwarded, [first, CallbackArgs(e, None)]))
  }
}
