/** `trove/common/configurations.py`: whether a batch of configuration
    overrides can be applied without a restart, and the comment filter applied
    to rendered my.cnf text before it is parsed (the same filter is repeated in
    the config template module). */
module CommonConfigurations {
  import opened Wrappers
  import opened Text
  import opened ValidationRules

  /** `_get_item` returns None for a key no rule names, and the classifier then
      calls `.get` on None (AttributeError). */
  datatype RestartError = UnknownKey(key: string)

  /** The early-return loop over the override keys, in iteration order. */
  function KeysRequireRestart(keys: seq<string>, rules: seq<Rule>): Result<bool, RestartError> {
    if |keys| == 0 then Success(false)
    else
      match RuleFor(rules, keys[0])
      case None => Failure(UnknownKey(keys[0]))
      case Some(rule) => if !rule.dynamic then Success(true) else KeysRequireRestart(keys[1..], rules)
  }

  /** `do_configs_require_restart(overrides)`, given the keys of `overrides` in
      iteration order, the `apply_dynamic_configuration` option and the rules. */
  function DoConfigsRequireRestart(
    overrideKeys: seq<string>, applyDynamicConfiguration: bool, rules: seq<Rule>): (r: Result<bool, RestartError>)
    ensures !applyDynamicConfiguration ==> r == Success(true)
  {
    if !applyDynamicConfiguration then Success(true) else KeysRequireRestart(overrideKeys, rules)
  }

  /** The key has a rule and that rule is dynamic. */
  predicate KnownDynamic(key: string, rules: seq<Rule>) {
    RuleFor(rules, key).Some? && RuleFor(rules, key).value.dynamic
  }

  /** Every key before position `i` has a dynamic rule. */
  predicate DynamicUpTo(keys: seq<string>, rules: seq<Rule>, i: nat)
    requires i <= |keys|
  {
    forall j :: 0 <= j < i ==> KnownDynamic(keys[j], rules)
  }

  lemma {:induction false} KeysRequireRestartCases(keys: seq<string>, rules: seq<Rule>)
    ensures KeysRequireRestart(keys, rules) == Success(false) <==> DynamicUpTo(keys, rules, |keys|)
    ensures KeysRequireRestart(keys, rules) == Success(true) <==>
      exists i :: 0 <= i < |keys| && DynamicUpTo(keys, rules, i) &&
                  RuleFor(rules, keys[i]).Some? && !RuleFor(rules, keys[i]).value.dynamic
    ensures KeysRequireRestart(keys, rules).Failure? <==>
      exists i :: 0 <= i < |keys| && DynamicUpTo(keys, rules, i) && RuleFor(rules, keys[i]).None?
    decreases |keys|
  {
    if |keys| > 0 {
      var rest := keys[1..];
      assert forall j :: 1 <= j < |keys| ==> keys[j] == rest[j - 1];
      match RuleFor(rules, keys[0])
      case None =>
        assert DynamicUpTo(keys, rules, 0);
      case Some(rule) =>
        if rule.dynamic {
          KeysRequireRestartCases(rest, rules);
          assert forall i :: 0 <= i < |rest| ==>
            (DynamicUpTo(rest, rules, i) <==> DynamicUpTo(keys, rules, i + 1));
          if exists i :: 0 <= i < |keys| && DynamicUpTo(keys, rules, i) && RuleFor(rules, keys[i]).Some? &&
                         !RuleFor(rules, keys[i]).value.dynamic {
            var i :| 0 <= i < |keys| && DynamicUpTo(keys, rules, i) && RuleFor(rules, keys[i]).Some? &&
                     !RuleFor(rules, keys[i]).value.dynamic;
            assert i > 0 && DynamicUpTo(rest, rules, i - 1) && rest[i - 1] == keys[i];
          }
          if exists i :: 0 <= i < |keys| && DynamicUpTo(keys, rules, i) && RuleFor(rules, keys[i]).None? {
            var i :| 0 <= i < |keys| && DynamicUpTo(keys, rules, i) && RuleFor(rules, keys[i]).None?;
            assert i > 0 && DynamicUpTo(rest, rules, i - 1) && rest[i - 1] == keys[i];
          }
        } else {
          assert DynamicUpTo(keys, rules, 0);
        }
    }
  }

  /** No restart is needed exactly when dynamic application is enabled and every
      key has a dynamic rule; in particular an empty batch needs none. A key
      with no rule is an error, never a "no restart" answer. */
  lemma NoRestartIff(overrideKeys: seq<string>, applyDynamicConfiguration: bool, rules: seq<Rule>)
    ensures DoConfigsRequireRestart(overrideKeys, applyDynamicConfiguration, rules) == Success(false) <==>
      applyDynamicConfiguration && forall i :: 0 <= i < |overrideKeys| ==> KnownDynamic(overrideKeys[i], rules)
  {
    KeysRequireRestartCases(overrideKeys, rules);
  }

  /** With dynamic application enabled, a restart is reported exactly when some
      key has a non-dynamic rule and every key before it has a dynamic one. */
  lemma RestartIff(overrideKeys: seq<string>, rules: seq<Rule>)
    ensures DoConfigsRequireRestart(overrideKeys, true, rules) == Success(true) <==>
      exists i :: 0 <= i < |overrideKeys| && DynamicUpTo(overrideKeys, rules, i) &&
                  RuleFor(rules, overrideKeys[i]).Some? && !RuleFor(rules, overrideKeys[i]).value.dynamic
  {
    KeysRequireRestartCases(overrideKeys, rules);
  }

  /** With dynamic application enabled, the classifier fails exactly when a
      key without a rule is reached before any non-dynamic key. */
  lemma UnknownKeyFailsIff(overrideKeys: seq<string>, rules: seq<Rule>)
    ensures DoConfigsRequireRestart(overrideKeys, true, rules).Failure? <==>
      exists i :: 0 <= i < |overrideKeys| && DynamicUpTo(overrideKeys, rules, i) && RuleFor(rules, overrideKeys[i]).None?
  {
    KeysRequireRestartCases(overrideKeys, rules);
  }

  /** Line boundaries of `str.splitlines()` on a byte string. */
  predicate IsLineBreak(c: char) {
    c == '\n' || c == '\r'
  }

  predicate NoBreaks(line: string) {
    forall j :: 0 <= j < |line| ==> !IsLineBreak(line[j])
  }

  /** Position of the first line break, or the length when there is none. */
  function FirstBreak(s: string): (k: nat)
    ensures k <= |s|
    ensures forall j :: 0 <= j < k ==> !IsLineBreak(s[j])
    ensures k < |s| ==> IsLineBreak(s[k])
  {
    if |s| == 0 || IsLineBreak(s[0]) then 0 else 1 + FirstBreak(s[1..])
  }

  /** `s.splitlines()`: the lines without their terminators (`\n`, `\r` or
      `\r\n`); a terminator at the very end does not start another line. */
  function SplitLines(s: string): (lines: seq<string>)
    ensures forall i :: 0 <= i < |lines| ==> NoBreaks(lines[i])
    decreases |s|
  {
    if |s| == 0 then []
    else
      var k := FirstBreak(s);
      if k == |s| then [s]
      else
        var next := if s[k] == '\r' && k + 1 < |s| && s[k + 1] == '\n' then k + 2 else k + 1;
        [s[..k]] + SplitLines(s[next..])
  }

  /** A line that `_remove_commented_lines` drops: it starts with `#`, `!` or `:`. */
  predicate IsCommentedLine(line: string) {
    |line| > 0 && (line[0] == '#' || line[0] == '!' || line[0] == ':')
  }

  /** The lines that survive the filter, in their original order. */
  function KeptLines(lines: seq<string>): (kept: seq<string>)
    ensures |kept| <= |lines|
    ensures forall i :: 0 <= i < |kept| ==> !IsCommentedLine(kept[i])
    ensures forall x :: x in kept ==> x in lines
  {
    if |lines| == 0 then []
    else
      var last := lines[|lines| - 1];
      KeptLines(lines[..|lines| - 1]) + (if IsCommentedLine(last) then [] else [last])
  }

  /** The filter works line by line: filtering a concatenation is concatenating
      the filtered parts, so kept lines keep their relative order. */
  lemma {:induction false} KeptLinesAppend(a: seq<string>, b: seq<string>)
    ensures KeptLines(a + b) == KeptLines(a) + KeptLines(b)
    decreases |b|
  {
    if |b| > 0 {
      var ab := a + b;
      assert ab[..|ab| - 1] == a + b[..|b| - 1];
      KeptLinesAppend(a, b[..|b| - 1]);
    } else {
      assert a + b == a;
    }
  }

  /** `_remove_commented_lines`: the kept lines joined with newlines. */
  method RemoveCommentedLines(configStr: string) returns (rendered: string)
    ensures rendered == Join(KeptLines(SplitLines(configStr)), "\n")
  {
    var lines := SplitLines(configStr);
    var ret: seq<string> := [];
    for i := 0 to |lines|
      invariant ret == KeptLines(lines[..i])
    {
      var line := lines[i];
      assert lines[..i + 1][..i] == lines[..i];
      if |line| > 0 && line[0] == '#' {
      } else if |line| > 0 && line[0] == '!' {
      } else if |line| > 0 && line[0] == ':' {
      } else {
        ret := ret + [line];
      }
    }
    assert lines[..|lines|] == lines;
    rendered := Join(ret, "\n");
  }

  lemma {:induction false} FirstBreakOfLineThenBreak(l: string, rest: string)
    requires NoBreaks(l) && |rest| > 0 && IsLineBreak(rest[0])
    ensures FirstBreak(l + rest) == |l|
    decreases |l|
  {
    if |l| > 0 {
      assert (l + rest)[1..] == l[1..] + rest;
      FirstBreakOfLineThenBreak(l[1..], rest);
    }
  }

  lemma {:induction false} FirstBreakOfLine(l: string)
    requires NoBreaks(l)
    ensures FirstBreak(l) == |l|
    decreases |l|
  {
    if |l| > 0 {
      FirstBreakOfLine(l[1..]);
    }
  }

  /** Splitting lines joined with `\n` gives back only lines that were joined
      (an empty last line is lost, nothing is invented). */
  lemma {:induction false} SplitJoinedLines(ls: seq<string>)
    requires forall i :: 0 <= i < |ls| ==> NoBreaks(ls[i])
    ensures forall x :: x in SplitLines(Join(ls, "\n")) ==> x in ls
    decreases |ls|
  {
    if |ls| == 1 {
      if |ls[0]| > 0 {
        FirstBreakOfLine(ls[0]);
      }
    } else if |ls| > 1 {
      var tail := Join(ls[1..], "\n");
      var s := ls[0] + "\n" + tail;
      assert s == ls[0] + ("\n" + tail);
      FirstBreakOfLineThenBreak(ls[0], "\n" + tail);
      var k := |ls[0]|;
      assert s[..k] == ls[0] && s[k] == '\n';
      assert s[k + 1..] == tail;
      SplitJoinedLines(ls[1..]);
    }
  }

  /** No line of the filter's output starts with `#`, `!` or `:`. */
  lemma OutputHasNoCommentedLine(configStr: string)
    ensures forall x :: x in SplitLines(Join(KeptLines(SplitLines(configStr)), "\n")) ==> !IsCommentedLine(x)
  {
    var lines := SplitLines(configStr);
    var kept := KeptLines(lines);
    forall i | 0 <= i < |kept|
      ensures NoBreaks(kept[i])
    {
      assert kept[i] in lines;
      var j :| 0 <= j < |lines| && lines[j] == kept[i];
    }
    SplitJoinedLines(kept);
  }
}
