/** `trove/common/template.py`: the my.cnf reader `MyConfigParser._read`, the
    template file name of a single-instance configuration, and the server id
    derived from the instance id.

    `_read` works on the lines of the file with their line terminators removed:
    every branch of the reader gives the same result on a line with or without
    its trailing newline, and an empty element stands for a blank line. The
    options of a section are a map; the insertion order the reader's ordered
    dictionaries keep is not modelled. */
module ConfigTemplate {
  import opened Wrappers
  import opened Text

  /** A section's options; a value-less option maps to None. */
  type Section = map<string, Option<string>>

  /** Where option lines go: nowhere yet, the defaults, or a named section. */
  datatype Cursor = NoSection | InDefaults | InSection(name: string)

  /** The reader's state: `_sections`, `_defaults`, `cursect` and `optname`. */
  datatype ParserState = ParserState(
    sections: map<string, Section>, defaults: Section, cursor: Cursor, optname: Option<string>)

  datatype ParseError = MissingSectionHeader(lineno: nat, line: string)

  /** The state when the reader stops, and the error it raised, if any. */
  datatype RunResult = RunResult(state: ParserState, error: Option<ParseError>)

  const DefaultSect: string := "DEFAULT"

  /** The cursor names an existing section, and the current option (if the
      cursor is set) is a key of the current section. */
  predicate WellFormed(st: ParserState) {
    (st.cursor.InSection? ==> st.cursor.name in st.sections) &&
    (st.cursor != NoSection && st.optname.Some? ==> st.optname.value in CurrentSection(st))
  }

  /** The dictionary `cursect` refers to. */
  function CurrentSection(st: ParserState): Section
    requires st.cursor.InSection? ==> st.cursor.name in st.sections
  {
    match st.cursor
    case NoSection => map[]
    case InDefaults => st.defaults
    case InSection(n) => st.sections[n]
  }

  /** `cursect[key] = v`. */
  function Store(st: ParserState, key: string, v: Option<string>): (r: ParserState)
    requires st.cursor != NoSection && (st.cursor.InSection? ==> st.cursor.name in st.sections)
    ensures r.cursor == st.cursor && r.optname == st.optname
    ensures r.cursor.InSection? ==> r.cursor.name in r.sections
    ensures CurrentSection(r) == CurrentSection(st)[key := v]
    ensures r.sections.Keys == st.sections.Keys
  {
    match st.cursor
    case InDefaults => st.(defaults := st.defaults[key := v])
    case InSection(n) => st.(sections := st.sections[n := st.sections[n][key := v]])
  }

  /** `"%s" % v`: None prints as `None`. */
  function Render(v: Option<string>): string {
    match v
    case None => "None"
    case Some(s) => s
  }

  /** The text up to the first whitespace character (`line.split(None, 1)[0]`
      for a line without leading whitespace). */
  function FirstWord(s: string): (w: string)
    ensures |w| <= |s| && w == s[..|w|]
    ensures forall i :: 0 <= i < |w| ==> !IsSpace(w[i])
    ensures |w| < |s| ==> IsSpace(s[|w|])
  {
    if |s| == 0 || IsSpace(s[0]) then "" else [s[0]] + FirstWord(s[1..])
  }

  /** A blank line or one starting with `#` or `;`. */
  predicate IsBlankOrComment(line: string) {
    Strip(line) == "" || line[0] == '#' || line[0] == ';'
  }

  /** An unindented `rem` line, in any letter case. */
  predicate IsRemLine(line: string) {
    |line| > 0 && (line[0] == 'r' || line[0] == 'R') && Lower(FirstWord(line)) == "rem"
  }

  /** The first position of `c` at or after `from`, or the length. */
  function IndexOf(s: string, c: char, from: nat): (k: nat)
    requires from <= |s|
    ensures from <= k <= |s|
    ensures forall i :: from <= i < k ==> s[i] != c
    ensures k < |s| ==> s[k] == c
    decreases |s| - from
  {
    if from == |s| || s[from] == c then from else IndexOf(s, c, from + 1)
  }

  /** The first position of `:` or `=`, or the length. */
  function FirstSeparator(s: string): (k: nat)
    ensures k <= |s|
    ensures forall i :: 0 <= i < k ==> s[i] != ':' && s[i] != '='
    ensures k < |s| ==> s[k] == ':' || s[k] == '='
  {
    if |s| == 0 || s[0] == ':' || s[0] == '=' then 0 else 1 + FirstSeparator(s[1..])
  }

  /** `SECTCRE.match(line)`: `[`, one or more characters other than `]`, then
      `]`; the header is the text between the brackets. */
  function SectionHeader(line: string): (r: Option<string>)
    ensures r.Some? <==>
      |line| > 2 && line[0] == '[' && line[1] != ']' && exists j :: 2 <= j < |line| && line[j] == ']'
    ensures r.Some? ==>
      |r.value| > 0 && |line| >= |r.value| + 2 && line[0] == '[' &&
      line[1..|r.value| + 1] == r.value && line[|r.value| + 1] == ']' &&
      forall i :: 0 <= i < |r.value| ==> r.value[i] != ']'
  {
    if |line| > 0 && line[0] == '[' then
      var j := IndexOf(line, ']', 1);
      if 2 <= j < |line| then Some(line[1..j]) else None
    else None
  }

  /** Python's `s[pos - 1]`: for `pos` 0 the index -1 is the last character. */
  function CharBefore(s: string, pos: nat): char
    requires pos < |s|
  {
    if pos == 0 then s[|s| - 1] else s[pos - 1]
  }

  /** The value after the `;` rule: only the first `;` is looked at, and it
      starts a comment when the character before it is whitespace; for a
      leading `;` that character is the last one of the value. A value kept
      whole has no first `;` after whitespace. */
  function CutComment(optval: string): (r: string)
    ensures r == optval ||
      (|r| < |optval| && optval[|r|] == ';' && r == optval[..|r|] &&
       (forall i :: 0 <= i < |r| ==> optval[i] != ';') && IsSpace(CharBefore(optval, |r|)))
    ensures r == optval ==>
      forall k :: 0 <= k < |optval| && optval[k] == ';' && (forall i :: 0 <= i < k ==> optval[i] != ';') ==>
        !IsSpace(CharBefore(optval, k))
  {
    var pos := IndexOf(optval, ';', 0);
    if pos == |optval| then optval
    else if IsSpace(CharBefore(optval, pos)) then optval[..pos]
    else optval
  }

  /** An option value as stored: comment cut, stripped, `""` read as empty. */
  function OptionValue(raw: string): string {
    var stripped := Strip(CutComment(raw));
    if stripped == "\"\"" then "" else stripped
  }

  /** `OPTCRE.match(line)` and what the reader stores for it: the option name
      (right-stripped and lower-cased) and the value. The name starts with a
      character other than `:`, `=` or whitespace and runs to the first `:`
      or `=`. */
  function OptionLine(line: string): (r: Option<(string, string)>)
    ensures r.Some? <==>
      |line| > 0 && line[0] != ':' && line[0] != '=' && !IsSpace(line[0]) &&
      exists k :: 0 < k < |line| && (line[k] == ':' || line[k] == '=')
    ensures r.Some? ==> |r.value.0| > 0
  {
    if |line| == 0 || line[0] == ':' || line[0] == '=' || IsSpace(line[0]) then None
    else
      var k := FirstSeparator(line);
      if k == |line| then None
      else
        var name := RStrip(line[..k]);
        assert |name| > 0 by {
          assert !IsSpace(line[..k][0]);
        }
        Some((Lower(name), OptionValue(LStrip(line[k + 1..]))))
  }

  /** A line `[h]` followed by anything, `h` non-empty and without `]`, is a
      header naming `h`. */
  lemma HeaderLineRecognized(h: string, rest: string)
    requires |h| > 0 && ']' !in h
    ensures SectionHeader("[" + h + "]" + rest) == Some(h)
  {
    var line := "[" + h + "]" + rest;
    assert line[|h| + 1] == ']';
    assert forall i :: 1 <= i < |h| + 1 ==> line[i] == h[i - 1];
    assert line[1..|h| + 1] == h;
  }

  /** A name that starts with neither whitespace nor a separator and holds no
      `:` or `=`, a separator, and the rest: the option is the name
      right-stripped and lower-cased, its value the rest left-stripped, its
      comment cut, stripped and `""` read as empty. */
  lemma OptionLineParts(name: string, sep: char, rest: string)
    requires |name| > 0 && !IsSpace(name[0])
    requires forall i :: 0 <= i < |name| ==> name[i] != ':' && name[i] != '='
    requires sep == ':' || sep == '='
    ensures OptionLine(name + [sep] + rest) == Some((Lower(RStrip(name)), OptionValue(LStrip(rest))))
  {
    var line := name + [sep] + rest;
    assert line[0] == name[0];
    assert line[|name|] == sep;
    assert forall i :: 0 <= i < |name| ==> line[i] == name[i];
    assert FirstSeparator(line) == |name|;
    assert line[..|name|] == name;
    assert line[|name| + 1..] == rest;
  }

  /** One line of `_read`, numbered `lineno` (from 1). */
  function Step(st: ParserState, line: string, lineno: nat): (r: Result<ParserState, ParseError>)
    requires WellFormed(st)
    ensures r.Success? ==> WellFormed(r.value)
    ensures r.Success? ==> st.sections.Keys <= r.value.sections.Keys
    ensures r.Success? && DefaultSect !in st.sections ==> DefaultSect !in r.value.sections
    ensures r.Failure? ==> r.error == MissingSectionHeader(lineno, line)
  {
    if IsBlankOrComment(line) then Success(st)
    else if IsRemLine(line) then Success(st)
    else if IsSpace(line[0]) && st.cursor != NoSection && st.optname.Some? && st.optname.value != "" then
      var value := Strip(line);
      if value != "" then
        Success(Store(st, st.optname.value, Some(Render(CurrentSection(st)[st.optname.value]) + "\n" + value)))
      else
        Success(st)
    else
      match SectionHeader(line)
      case Some(h) =>
        if h in st.sections then Success(st.(cursor := InSection(h), optname := None))
        else if h == DefaultSect then Success(st.(cursor := InDefaults, optname := None))
        else Success(st.(sections := st.sections[h := map["__name__" := Some(h)]], cursor := InSection(h), optname := None))
      case None =>
        if st.cursor == NoSection then Failure(MissingSectionHeader(lineno, line))
        else
          match OptionLine(line)
          case Some(opt) => Success(Store(st, opt.0, Some(opt.1)).(optname := Some(opt.0)))
          case None => Success(Store(st, Strip(line), None).(optname := Some(Strip(line))))
  }

  /** `_read` over the remaining lines, the previous one being number `lineno`. */
  function Run(st: ParserState, lines: seq<string>, lineno: nat): (r: RunResult)
    requires WellFormed(st)
    ensures WellFormed(r.state)
    decreases |lines|
  {
    if |lines| == 0 then RunResult(st, None)
    else
      match Step(st, lines[0], lineno + 1)
      case Failure(e) => RunResult(st, Some(e))
      case Success(next) => Run(next, lines[1..], lineno + 1)
  }

  /** Blank lines, `#`/`;` comments and `rem` lines change nothing. */
  lemma SkippedLinesChangeNothing(st: ParserState, line: string, lineno: nat)
    requires WellFormed(st) && (IsBlankOrComment(line) || IsRemLine(line))
    ensures Step(st, line, lineno) == Success(st)
  {
  }

  /** An indented line right after an option, inside a section, continues that
      option's value on a new line. */
  lemma ContinuationAppends(st: ParserState, line: string, lineno: nat)
    requires WellFormed(st) && !IsBlankOrComment(line) && !IsRemLine(line)
    requires IsSpace(line[0]) && st.cursor != NoSection && st.optname.Some? && st.optname.value != ""
    ensures Step(st, line, lineno).Success?
    ensures var next := Step(st, line, lineno).value;
      next.cursor == st.cursor && next.optname == st.optname &&
      CurrentSection(next) == CurrentSection(st)[st.optname.value :=
        Some(Render(CurrentSection(st)[st.optname.value]) + "\n" + Strip(line))]
  {
  }

  /** A header re-opens an existing section without touching it; `DEFAULT`
      selects the defaults; any other name creates a section holding
      `__name__`. Either way no option is current afterwards, so the next line
      cannot be a continuation. */
  lemma HeaderSelectsSection(st: ParserState, line: string, lineno: nat)
    requires WellFormed(st) && !IsBlankOrComment(line) && !IsRemLine(line) && SectionHeader(line).Some?
    ensures Step(st, line, lineno).Success?
    ensures var h := SectionHeader(line).value; var next := Step(st, line, lineno).value;
      next.optname.None? && next.defaults == st.defaults &&
      (h in st.sections ==> next.sections == st.sections && next.cursor == InSection(h)) &&
      (h !in st.sections && h == DefaultSect ==> next.sections == st.sections && next.cursor == InDefaults) &&
      (h !in st.sections && h != DefaultSect ==>
        next.sections == st.sections[h := map["__name__" := Some(h)]] && next.cursor == InSection(h))
  {
    assert line[0] == '[' && !IsSpace(line[0]);
  }

  /** With no current option (as right after a header), an indented line
      inside a section is not a continuation: it is kept as a value-less
      option named by its stripped text. */
  lemma IndentedLineWithoutOption(st: ParserState, line: string, lineno: nat)
    requires WellFormed(st) && st.cursor != NoSection && st.optname.None?
    requires !IsBlankOrComment(line) && IsSpace(line[0])
    ensures Step(st, line, lineno).Success?
    ensures var next := Step(st, line, lineno).value;
      next.optname == Some(Strip(line)) && CurrentSection(next) == CurrentSection(st)[Strip(line) := None]
  {
    assert !IsRemLine(line);
    assert SectionHeader(line).None?;
    assert OptionLine(line).None?;
  }

  /** A line that is neither skipped, a continuation nor a header, read
      before any section, raises MissingSectionHeaderError with its number. */
  lemma MissingHeaderRaises(st: ParserState, line: string, lineno: nat)
    requires WellFormed(st) && st.cursor == NoSection
    requires !IsBlankOrComment(line) && !IsRemLine(line) && SectionHeader(line).None?
    ensures Step(st, line, lineno) == Failure(MissingSectionHeader(lineno, line))
  {
  }

  /** An option line stores the processed value under the lower-cased name
      and makes it the current option; any other line inside a section is a
      value-less option named by its stripped text. */
  lemma OptionLinesStored(st: ParserState, line: string, lineno: nat)
    requires WellFormed(st) && st.cursor != NoSection
    requires !IsBlankOrComment(line) && !IsRemLine(line) && SectionHeader(line).None?
    requires !(IsSpace(line[0]) && st.optname.Some? && st.optname.value != "")
    ensures Step(st, line, lineno).Success?
    ensures var next := Step(st, line, lineno).value;
      next.cursor == st.cursor &&
      (OptionLine(line).Some? ==>
        next.optname == Some(OptionLine(line).value.0) &&
        CurrentSection(next) == CurrentSection(st)[OptionLine(line).value.0 := Some(OptionLine(line).value.1)]) &&
      (OptionLine(line).None? ==>
        next.optname == Some(Strip(line)) && CurrentSection(next) == CurrentSection(st)[Strip(line) := None])
  {
  }

  /** A `;` right after whitespace starts a comment: the value is the text
      before it, stripped, whatever follows. */
  lemma CommentAfterSpaceCut(a: string, b: string)
    requires ';' !in a && |a| > 0 && IsSpace(a[|a| - 1])
    ensures CutComment(a + ";" + b) == a
    ensures OptionValue(a + ";" + b) == if Strip(a) == "\"\"" then "" else Strip(a)
  {
    var v := a + ";" + b;
    assert v[|a|] == ';' && v[..|a|] == a;
    assert forall i :: 0 <= i < |a| ==> v[i] == a[i];
  }

  /** A `;` glued to the text before it is part of the value. */
  lemma CommentGluedKept(a: string, b: string)
    requires ';' !in a && |a| > 0 && !IsSpace(a[|a| - 1])
    ensures CutComment(a + ";" + b) == a + ";" + b
  {
    var v := a + ";" + b;
    assert v[|a|] == ';' && v[..|a|] == a;
    assert forall i :: 0 <= i < |a| ==> v[i] == a[i];
  }

  /** `""` stands for the empty string. */
  lemma QuotedEmptyValue()
    ensures OptionValue("\"\"") == ""
  {
    assert IndexOf("\"\"", ';', 0) == 2;
    assert LStrip("\"\"") == "\"\"";
    assert RStrip("\"\"") == "\"\"";
  }

  /** The reader's error is MissingSectionHeaderError for one of the lines
      read, carrying that line and its number, counted from 1. */
  lemma {:induction false} RunErrorLocatesLine(st: ParserState, lines: seq<string>, lineno: nat)
    requires WellFormed(st)
    ensures var r := Run(st, lines, lineno);
      r.error.Some? ==>
        exists k :: 0 <= k < |lines| && r.error.value == MissingSectionHeader(lineno + 1 + k, lines[k])
    decreases |lines|
  {
    if |lines| > 0 {
      var step := Step(st, lines[0], lineno + 1);
      if step.Success? {
        var rest := lines[1..];
        RunErrorLocatesLine(step.value, rest, lineno + 1);
        var r := Run(step.value, rest, lineno + 1);
        if r.error.Some? {
          var k :| 0 <= k < |rest| && r.error.value == MissingSectionHeader(lineno + 2 + k, rest[k]);
          assert rest[k] == lines[k + 1];
        }
      } else {
        assert Run(st, lines, lineno).error.value == MissingSectionHeader(lineno + 1, lines[0]);
      }
    }
  }

  /** Sections are never dropped, and `DEFAULT` never becomes a section. */
  lemma {:induction false} SectionsOnlyGrow(st: ParserState, lines: seq<string>, lineno: nat)
    requires WellFormed(st)
    ensures st.sections.Keys <= Run(st, lines, lineno).state.sections.Keys
    ensures DefaultSect !in st.sections ==> DefaultSect !in Run(st, lines, lineno).state.sections
    decreases |lines|
  {
    if |lines| > 0 {
      match Step(st, lines[0], lineno + 1)
      case Failure(e) =>
      case Success(next) =>
        assert st.sections.Keys <= next.sections.Keys;
        assert DefaultSect !in st.sections ==> DefaultSect !in next.sections;
        SectionsOnlyGrow(next, lines[1..], lineno + 1);
    }
  }

  /** The step for a continuation line. */
  lemma StepContinuation(st: ParserState, line: string, lineno: nat)
    requires WellFormed(st) && !IsBlankOrComment(line) && !IsRemLine(line)
    requires IsSpace(line[0]) && st.cursor != NoSection && st.optname.Some? && st.optname.value != ""
    ensures Step(st, line, lineno) == Success(
      if Strip(line) != "" then
        Store(st, st.optname.value, Some(Render(CurrentSection(st)[st.optname.value]) + "\n" + Strip(line)))
      else st)
  {
  }

  /** The step for a section header. */
  lemma StepHeader(st: ParserState, line: string, lineno: nat)
    requires WellFormed(st) && !IsBlankOrComment(line) && !IsRemLine(line) && SectionHeader(line).Some?
    ensures var h := SectionHeader(line).value;
      Step(st, line, lineno) == Success(
        if h in st.sections then st.(cursor := InSection(h), optname := None)
        else if h == DefaultSect then st.(cursor := InDefaults, optname := None)
        else st.(sections := st.sections[h := map["__name__" := Some(h)]], cursor := InSection(h), optname := None))
  {
    assert !IsSpace(line[0]);
  }

  /** The step for an option line, or an unparsable line inside a section. */
  lemma StepOption(st: ParserState, line: string, lineno: nat)
    requires WellFormed(st) && st.cursor != NoSection
    requires !IsBlankOrComment(line) && !IsRemLine(line) && SectionHeader(line).None?
    requires !(IsSpace(line[0]) && st.optname.Some? && st.optname.value != "")
    ensures Step(st, line, lineno) == Success(
      if OptionLine(line).Some? then
        Store(st, OptionLine(line).value.0, Some(OptionLine(line).value.1)).(optname := Some(OptionLine(line).value.0))
      else Store(st, Strip(line), None).(optname := Some(Strip(line))))
  {
  }

  /** A line read without error hands the rest of the run its state. */
  lemma RunAdvances(st: ParserState, next: ParserState, lines: seq<string>, n: nat)
    requires WellFormed(st) && n < |lines| && Step(st, lines[n], n + 1) == Success(next)
    ensures WellFormed(next)
    ensures Run(st, lines[n..], n) == Run(next, lines[n + 1..], n + 1)
  {
    assert lines[n..][0] == lines[n] && lines[n..][1..] == lines[n + 1..];
  }

  /** A line that raises ends the run with its error and the state before it. */
  lemma RunStops(st: ParserState, lines: seq<string>, n: nat)
    requires WellFormed(st) && n < |lines| && Step(st, lines[n], n + 1).Failure?
    ensures Run(st, lines[n..], n) == RunResult(st, Some(MissingSectionHeader(n + 1, lines[n])))
  {
    assert lines[n..][0] == lines[n];
  }

  /** A two-line file read without error ends in the state of its second line. */
  lemma RunTwoLines(st: ParserState, a: string, b: string, s1: ParserState, s2: ParserState)
    requires WellFormed(st) && Step(st, a, 1) == Success(s1) && WellFormed(s1) && Step(s1, b, 2) == Success(s2)
    ensures Run(st, [a, b], 0) == RunResult(s2, None)
  {
    RunFirstOfTwo(st, s1, a, b);
    RunLastLine(s1, s2, b, 1);
  }

  /** The first of two lines read without error leaves the second to run. */
  lemma RunFirstOfTwo(st: ParserState, s1: ParserState, a: string, b: string)
    requires WellFormed(st) && Step(st, a, 1) == Success(s1) && WellFormed(s1)
    ensures Run(st, [a, b], 0) == Run(s1, [b], 1)
  {
    assert [a, b][0] == a && [a, b][1..] == [b];
  }

  /** A last line read without error ends the run in the state after it. */
  lemma RunLastLine(st: ParserState, next: ParserState, b: string, n: nat)
    requires WellFormed(st) && Step(st, b, n + 1) == Success(next)
    ensures Run(st, [b], n) == RunResult(next, None)
  {
    assert [b][0] == b && [b][1..] == [];
  }

  /** The state after a header line for a section other than `DEFAULT`. */
  function Opened(st: ParserState, h: string): ParserState {
    if h in st.sections then st.(cursor := InSection(h), optname := None)
    else st.(sections := st.sections[h := map["__name__" := Some(h)]], cursor := InSection(h), optname := None)
  }

  /** A header line for a section other than `DEFAULT` opens that section. */
  lemma HeaderOpens(st: ParserState, header: string)
    requires WellFormed(st) && !IsBlankOrComment(header) && !IsRemLine(header) && SectionHeader(header).Some?
    requires SectionHeader(header).value != DefaultSect
    ensures var h := SectionHeader(header).value;
      Step(st, header, 1) == Success(Opened(st, h)) && WellFormed(Opened(st, h)) &&
      Opened(st, h).cursor == InSection(h) && h in Opened(st, h).sections
  {
    StepHeader(st, header, 1);
  }

  /** An option line inside section `h` stores its option there. */
  lemma OptionStoredIn(st: ParserState, option: string, h: string)
    requires WellFormed(st) && st.cursor == InSection(h)
    requires !IsBlankOrComment(option) && !IsRemLine(option) && SectionHeader(option).None? && OptionLine(option).Some?
    ensures var opt := OptionLine(option).value;
      var last := Store(st, opt.0, Some(opt.1)).(optname := Some(opt.0));
      Step(st, option, 2) == Success(last) && h in last.sections &&
      opt.0 in last.sections[h] && last.sections[h][opt.0] == Some(opt.1)
  {
    StepOption(st, option, 2);
  }

  /** Over a whole file: a header for a section other than `DEFAULT` followed
      by an option line leaves that option, with its processed value, in that
      section. */
  lemma HeaderThenOption(st: ParserState, header: string, option: string)
    requires WellFormed(st)
    requires !IsBlankOrComment(header) && !IsRemLine(header) && SectionHeader(header).Some?
    requires SectionHeader(header).value != DefaultSect
    requires !IsBlankOrComment(option) && !IsRemLine(option) && SectionHeader(option).None? && OptionLine(option).Some?
    ensures var h := SectionHeader(header).value; var opt := OptionLine(option).value;
      var r := Run(st, [header, option], 0);
      && r.error.None? && h in r.state.sections
      && opt.0 in r.state.sections[h] && r.state.sections[h][opt.0] == Some(opt.1)
  {
    var h := SectionHeader(header).value;
    var opt := OptionLine(option).value;
    HeaderOpens(st, header);
    var next := Opened(st, h);
    OptionStoredIn(next, option, h);
    RunTwoLines(st, header, option, next, Store(next, opt.0, Some(opt.1)).(optname := Some(opt.0)));
  }

  /** The reader. `_sections` and `_defaults` are its fields. */
  class IniParser {
    var sections: map<string, Section>
    var defaults: Section

    constructor ()
      ensures sections == map[] && defaults == map[]
    {
      sections := map[];
      defaults := map[];
    }

    /** `_read(fp, fpname)`: the fields end as the reader leaves them, also
        when it raises. */
    method Read(lines: seq<string>) returns (r: Outcome<ParseError>)
      modifies this
      ensures var run := Run(ParserState(old(sections), old(defaults), NoSection, None), lines, 0);
        sections == run.state.sections && defaults == run.state.defaults &&
        (if run.error.Some? then r == Fail(run.error.value) else r == Pass)
    {
      var cursect: Cursor := NoSection;
      var optname: Option<string> := None;
      var lineno: nat := 0;
      ghost var start := ParserState(sections, defaults, NoSection, None);
      while lineno < |lines|
        invariant lineno <= |lines|
        invariant WellFormed(ParserState(sections, defaults, cursect, optname))
        invariant Run(start, lines, 0) == Run(ParserState(sections, defaults, cursect, optname), lines[lineno..], lineno)
        decreases |lines| - lineno
      {
        var line := lines[lineno];
        ghost var st := ParserState(sections, defaults, cursect, optname);
        ghost var n := lineno;
        lineno := lineno + 1;
        if IsBlankOrComment(line) {
          SkippedLinesChangeNothing(st, line, n + 1);
          RunAdvances(st, st, lines, n);
          continue;
        }
        if IsRemLine(line) {
          SkippedLinesChangeNothing(st, line, n + 1);
          RunAdvances(st, st, lines, n);
          continue;
        }
        if IsSpace(line[0]) && cursect != NoSection && optname.Some? && optname.value != "" {
          StepContinuation(st, line, n + 1);
          var value := Strip(line);
          if value != "" {
            var key := optname.value;
            if cursect == InDefaults {
              defaults := defaults[key := Some(Render(defaults[key]) + "\n" + value)];
            } else {
              var sect := sections[cursect.name];
              sections := sections[cursect.name := sect[key := Some(Render(sect[key]) + "\n" + value)]];
            }
          }
          assert Step(st, line, n + 1) == Success(ParserState(sections, defaults, cursect, optname));
        } else {
          var header := SectionHeader(line);
          if header.Some? {
            StepHeader(st, line, n + 1);
            var h := header.value;
            if h in sections {
              cursect := InSection(h);
            } else if h == DefaultSect {
              cursect := InDefaults;
            } else {
              sections := sections[h := map["__name__" := Some(h)]];
              cursect := InSection(h);
            }
            optname := None;
            assert Step(st, line, n + 1) == Success(ParserState(sections, defaults, cursect, optname));
          } else if cursect == NoSection {
            MissingHeaderRaises(st, line, n + 1);
            RunStops(st, lines, n);
            return Fail(MissingSectionHeader(lineno, line));
          } else {
            StepOption(st, line, n + 1);
            var opt := OptionLine(line);
            var key: string;
            var value: Option<string>;
            if opt.Some? {
              key, value := opt.value.0, Some(opt.value.1);
            } else {
              key, value := Strip(line), None;
            }
            if cursect == InDefaults {
              defaults := defaults[key := value];
            } else {
              sections := sections[cursect.name := sections[cursect.name][key := value]];
            }
            optname := Some(key);
            assert Step(st, line, n + 1) == Success(ParserState(sections, defaults, cursect, optname));
          }
        }
        RunAdvances(st, ParserState(sections, defaults, cursect, optname), lines, n);
      }
      r := Pass;
    }
  }

  /** The template `SingleInstanceConfigTemplate` loads for a datastore type. */
  function TemplateFilename(serviceType: string, overrides: bool): (f: string)
    ensures |f| > |serviceType| && f[..|serviceType|] == serviceType
    ensures overrides ==> f[|serviceType|..] == ".override.config.template"
    ensures !overrides ==> f[|serviceType|..] == ".config.template"
  {
    serviceType + (if overrides then ".override.config.template" else ".config.template")
  }

  /** The two template names of one datastore type differ. */
  lemma OverrideTemplateDiffers(serviceType: string)
    ensures TemplateFilename(serviceType, true) != TemplateFilename(serviceType, false)
  {
    var a := TemplateFilename(serviceType, true);
    var b := TemplateFilename(serviceType, false);
    assert |a| != |b|;
  }

  /** `_calculate_unique_id`: `abs(hash(instance_id) % 2**31)`, with Python's
      hash as a parameter. Python's `%` by a positive modulus never yields a
      negative number, so `abs` changes nothing. */
  function UniqueId(instanceId: string, hash: string -> int): (id: int)
    ensures 0 <= id < 0x8000_0000
  {
    var m := hash(instanceId) % 0x8000_0000;
    if m < 0 then -m else m
  }
}
