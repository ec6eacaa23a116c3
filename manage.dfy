/** The argument plumbing of the `trove-manage` command line
    (`trove/cmd/manage.py`): the `args` decorator that records an action's
    arguments, the public-method listing of a command object, and how the
    parsed values of an action's arguments are fetched. */
module Manage {
  import opened Wrappers

  /** One `@args(*args, **kwargs)` record: the positional names (`'--name'`,
      `'-n'`, ...) and the keyword options. */
  datatype ArgSpec = ArgSpec(names: seq<string>, kwargs: seq<(string, string)>)

  datatype ManageError =
    | IndexError               // indexing past the end of a string or tuple
    | AttributeError(name: string)

  /** `get_arg_string(args)`: the option name without its dashes. `--name`
      loses two characters, any other `-`-prefixed string three (the short
      form `-n value` is expected), and a string without `-` is returned as
      it is. */
  function GetArgString(args: string): (r: Result<string, ManageError>)
    ensures r.Failure? <==> |args| == 0 || args == "-"
    ensures r.Success? && args[0] != '-' ==> r.value == args
    ensures r.Success? && args[0] == '-' && args[1] == '-' ==> r.value == args[2..]
    ensures r.Success? && args[0] == '-' && args[1] != '-' ==>
      (|args| <= 3 ==> r.value == "") && (|args| > 3 ==> r.value == args[3..])
  {
    if |args| == 0 then Failure(IndexError)
    else if args[0] == '-' then
      if |args| < 2 then Failure(IndexError)
      else if args[1] == '-' then Success(args[2..])
      else Success(args[if |args| < 3 then |args| else 3..])
  else Success(args)
  }

  /** A long option gives back the name it was spelled from. */
  lemma LongOptionRoundTrip(name: string)
    ensures GetArgString("--" + name) == Success(name)
  {
    assert ("--" + name)[2..] == name;
  }

  /** A short option of the form `-n name` gives back the name. */
  lemma ShortOptionRoundTrip(flag: char, name: string)
    requires flag != '-'
    ensures GetArgString(['-', flag, ' '] + name) == Success(name)
  {
    assert (['-', flag, ' '] + name)[3..] == name;
  }

  /** An action function and its `args` attribute (None until the first
      decorator runs). */
  class Action {
    var argSpecs: Option<seq<ArgSpec>>

    constructor ()
      ensures argSpecs == None
    {
      argSpecs := None;
    }

    /** Specs recorded so far (`getattr(func, 'args', [])`). */
    function Recorded(): seq<ArgSpec>
      reads this
    {
      if argSpecs.Some? then argSpecs.value else []
    }

    /** One `args(...)` decorator applied: its record goes in front. */
    method Decorate(spec: ArgSpec)
      modifies this
      ensures argSpecs == Some([spec] + old(Recorded()))
    {
      var current: seq<ArgSpec>;
      if argSpecs.None? {
        current := [];
      } else {
        current := argSpecs.value;
      }
      argSpecs := Some([spec] + current);
    }
  }

  /** Decorators stacked above a function, written top to bottom as `specs`:
      Python applies the bottom one first, and the records end in the order
      they are written. */
  method ApplyStacked(action: Action, specs: seq<ArgSpec>)
    modifies action
    ensures action.argSpecs == (if |specs| == 0 then old(action.argSpecs) else Some(specs + old(action.Recorded())))
  {
    ghost var before := action.Recorded();
    var i := |specs|;
    while i > 0
      invariant 0 <= i <= |specs|
      invariant i == |specs| ==> action.argSpecs == old(action.argSpecs) && action.Recorded() == before
      invariant i < |specs| ==> action.argSpecs == Some(specs[i..] + before)
    {
      i := i - 1;
      action.Decorate(specs[i]);
      if i + 1 < |specs| {
        assert [specs[i]] + (specs[i + 1..] + before) == specs[i..] + before;
      } else {
        assert [specs[i]] + before == specs[i..] + before;
      }
    }
  }

  /** One attribute name of `dir(obj)` and whether its value is callable. */
  datatype Attribute = Attribute(name: string, callable: bool)

  predicate IsPublicMethod(a: Attribute) {
    a.callable && !(|a.name| > 0 && a.name[0] == '_')
  }

  /** The callable attributes whose names do not start with `_`, in `dir`
      order. */
  function PublicMethods(attrs: seq<Attribute>): (r: seq<Attribute>)
    ensures |r| <= |attrs|
    ensures multiset(r) <= multiset(attrs)
  {
    if |attrs| == 0 then []
    else
      var last := attrs[|attrs| - 1];
      assert attrs == attrs[..|attrs| - 1] + [last];
      PublicMethods(attrs[..|attrs| - 1]) + (if IsPublicMethod(last) then [last] else [])
  }

  /** Exactly the public callable attributes are listed. */
  lemma {:induction false} PublicMethodsIff(attrs: seq<Attribute>)
    ensures forall a :: a in PublicMethods(attrs) <==> a in attrs && IsPublicMethod(a)
  {
    if |attrs| > 0 {
      var init := attrs[..|attrs| - 1];
      PublicMethodsIff(init);
      assert attrs == init + [attrs[|attrs| - 1]];
    }
  }

  /** `methods_of(obj)`, given `dir(obj)` with callability. */
  method MethodsOf(attrs: seq<Attribute>) returns (result: seq<Attribute>)
    ensures result == PublicMethods(attrs)
  {
    result := [];
    for i := 0 to |attrs|
      invariant result == PublicMethods(attrs[..i])
    {
      assert attrs[..i + 1][..i] == attrs[..i];
      var a := attrs[i];
      if a.callable && !(|a.name| > 0 && a.name[0] == '_') {
        result := result + [a];
      }
    }
    assert attrs[..|attrs|] == attrs;
  }

  /** The value of one recorded argument: its first name, stripped of its
      dashes, looked up among the parsed options of the category. */
  function FetchOne(spec: ArgSpec, parsed: map<string, string>): Result<string, ManageError> {
    if |spec.names| == 0 then Failure(IndexError)
    else
      var arg :- GetArgString(spec.names[0]);
      if arg in parsed then Success(parsed[arg]) else Failure(AttributeError(arg))
  }

  /** The values of all recorded arguments, stopping at the first failure. */
  function FetchAll(specs: seq<ArgSpec>, parsed: map<string, string>): Result<seq<string>, ManageError> {
    if |specs| == 0 then Success([])
    else
      var v :- FetchOne(specs[0], parsed);
      var rest :- FetchAll(specs[1..], parsed);
      Success([v] + rest)
  }

  /** Every spec before position `i` yields a value. */
  predicate FetchedUpTo(specs: seq<ArgSpec>, parsed: map<string, string>, i: nat)
    requires i <= |specs|
  {
    forall j :: 0 <= j < i ==> FetchOne(specs[j], parsed).Success?
  }

  /** One value per recorded argument, in record order; otherwise the error
      of the first argument that cannot be fetched. */
  lemma {:induction false} FetchAllCases(specs: seq<ArgSpec>, parsed: map<string, string>)
    ensures FetchAll(specs, parsed).Success? <==> FetchedUpTo(specs, parsed, |specs|)
    ensures FetchAll(specs, parsed).Success? ==>
      |FetchAll(specs, parsed).value| == |specs| &&
      forall i :: 0 <= i < |specs| ==> FetchAll(specs, parsed).value[i] == FetchOne(specs[i], parsed).value
    ensures FetchAll(specs, parsed).Failure? ==>
      exists i :: 0 <= i < |specs| && FetchedUpTo(specs, parsed, i) &&
        FetchOne(specs[i], parsed) == Failure(FetchAll(specs, parsed).error)
    decreases |specs|
  {
    if |specs| > 0 {
      var rest := specs[1..];
      FetchAllCases(rest, parsed);
      assert forall j :: 1 <= j < |specs| ==> specs[j] == rest[j - 1];
      if FetchOne(specs[0], parsed).Success? && FetchAll(rest, parsed).Failure? {
        var i :| 0 <= i < |rest| && FetchedUpTo(rest, parsed, i) &&
          FetchOne(rest[i], parsed) == Failure(FetchAll(rest, parsed).error);
        assert FetchedUpTo(specs, parsed, i + 1);
      }
      if FetchOne(specs[0], parsed).Failure? {
        assert FetchedUpTo(specs, parsed, 0);
      }
    }
  }

  /** A result with `acc` put in front of its values. */
  function Prefixed(acc: seq<string>, r: Result<seq<string>, ManageError>): Result<seq<string>, ManageError> {
    match r
    case Success(rest) => Success(acc + rest)
    case Failure(e) => Failure(e)
  }

  lemma PrefixedEmpty(r: Result<seq<string>, ManageError>)
    ensures Prefixed([], r) == r
  {
    if r.Success? {
      assert [] + r.value == r.value;
    }
  }

  lemma PrefixedAppend(acc: seq<string>, v: string, r: Result<seq<string>, ManageError>)
    ensures Prefixed(acc + [v], r) == Prefixed(acc, Prefixed([v], r))
  {
    if r.Success? {
      assert acc + [v] + r.value == acc + ([v] + r.value);
    }
  }

  /** `fetch_func_args(func)`, with the parsed options of the chosen category
      as a map. */
  method FetchFuncArgs(action: Action, parsed: map<string, string>) returns (r: Result<seq<string>, ManageError>)
    ensures r == FetchAll(action.Recorded(), parsed)
  {
    var specs := action.Recorded();
    var fnArgs: seq<string> := [];
    var i := 0;
    assert specs[0..] == specs;
    PrefixedEmpty(FetchAll(specs, parsed));
    while i < |specs|
      invariant 0 <= i <= |specs|
      invariant FetchAll(specs, parsed) == Prefixed(fnArgs, FetchAll(specs[i..], parsed))
    {
      assert specs[i..][0] == specs[i] && specs[i..][1..] == specs[i + 1..];
      var spec := specs[i];
      if |spec.names| == 0 {
        assert FetchAll(specs[i..], parsed) == Failure(IndexError);
        return Failure(IndexError);
      }
      var arg := GetArgString(spec.names[0]);
      if arg.Failure? {
        assert FetchAll(specs[i..], parsed) == Failure(arg.error);
        return Failure(arg.error);
      }
      if arg.value !in parsed {
        assert FetchAll(specs[i..], parsed) == Failure(AttributeError(arg.value));
        return Failure(AttributeError(arg.value));
      }
      PrefixedAppend(fnArgs, parsed[arg.value], FetchAll(specs[i + 1..], parsed));
      fnArgs := fnArgs + [parsed[arg.value]];
      i := i + 1;
    }
    assert specs[i..] == [];
    assert fnArgs + [] == fnArgs;
    r := Success(fnArgs);
  }
}
