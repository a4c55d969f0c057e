/** The embedded code block: the mode machine that finds the closing brace, and re-indentation. */
module YslCode {
  import opened CodeUnits
  import opened Wrappers

  datatype Mode = Code | SingleQuote | DoubleQuote | Template | LineComment | BlockComment | Regex

  /** The local variables of the scanning loop, apart from the text read so far. */
  datatype Control = Control(mode: Mode, depth: nat, escaped: bool, inClass: bool, templateDepths: seq<nat>)

  datatype CodeState = CodeState(control: Control, content: Text)

  const CLEAN: CodeState := CodeState(Control(Code, 0, false, false, []), [])

  // ---------------------------------------------------------------- canStartRegex

  predicate IsRegexPunctuation(u: Unit) {
    u in Ascii("([{:;,=!?&|+-*%^~<>")
  }

  predicate IsWordUnit(u: Unit) {
    IsAlpha(u) || IsDigit(u) || u == DOLLAR
  }

  predicate IsRegexKeyword(w: Text) {
    || w == Ascii("await") || w == Ascii("case") || w == Ascii("delete") || w == Ascii("in")
    || w == Ascii("instanceof") || w == Ascii("of") || w == Ascii("return") || w == Ascii("throw")
    || w == Ascii("typeof") || w == Ascii("void") || w == Ascii("yield")
  }

  /** The longest run of word units at the end of a text. */
  function WordSuffix(t: Text): Text {
    if t != [] && IsWordUnit(t[|t| - 1]) then WordSuffix(t[..|t| - 1]) + [t[|t| - 1]] else []
  }

  /** The leftmost match of an identifier inside a run of word units: leading digits are skipped. */
  function DropDigits(w: Text): Text {
    if w != [] && IsDigit(w[0]) then DropDigits(w[1..]) else w
  }

  predicate CanStartRegex(content: Text) {
    var trimmed := TrimEnd(content);
    || trimmed == []
    || IsRegexPunctuation(trimmed[|trimmed| - 1])
    || IsRegexKeyword(DropDigits(WordSuffix(trimmed)))
  }

  // ---------------------------------------------------------------- one turn of the loop

  /** What a turn of the loop does: break, or read one or two units and go on. */
  datatype Turn = Stop | Read(control: Control, count: nat)

  /** The next unit but one, or -1 at the end of the text. */
  function Second(s: Text): int {
    if |s| > 1 then s[1] else -1
  }

  /** Inside quotes: escapes are resolved before the delimiter is looked for. */
  function QuotedTurn(k: Control, c: Unit, delimiter: Unit): Turn {
    if k.escaped then Read(k.(escaped := false), 1)
    else if c == BACKSLASH then Read(k.(escaped := true), 1)
    else if c == delimiter then Read(k.(mode := Code), 1)
    else Read(k, 1)
  }

  function RegexTurn(k: Control, c: Unit): Turn {
    if k.escaped then Read(k.(escaped := false), 1)
    else if c == BACKSLASH then Read(k.(escaped := true), 1)
    else if c == LSQUARE then Read(k.(inClass := true), 1)
    else if c == RSQUARE then Read(k.(inClass := false), 1)
    else if c == SLASH && !k.inClass then Read(k.(mode := Code), 1)
    else if c == NEWLINE then Read(k.(mode := Code), 1)
    else Read(k, 1)
  }

  function TemplateTurn(k: Control, c: Unit, next: int): Turn {
    if k.escaped then Read(k.(escaped := false), 1)
    else if c == BACKSLASH then Read(k.(escaped := true), 1)
    else if c == BACKTICK then Read(k.(mode := Code), 1)
    else if c == DOLLAR && next == LCURLY then
      Read(k.(mode := Code, depth := k.depth + 1, templateDepths := k.templateDepths + [k.depth + 1]), 2)
    else Read(k, 1)
  }

  function PlainTurn(k: Control, c: Unit, next: int, regexAllowed: bool): Turn {
    if c == SLASH && next == SLASH then Read(k.(mode := LineComment), 2)
    else if c == SLASH && next == STAR then Read(k.(mode := BlockComment), 2)
    else if c == SINGLE_QUOTE then Read(k.(mode := SingleQuote), 1)
    else if c == DOUBLE_QUOTE then Read(k.(mode := DoubleQuote), 1)
    else if c == BACKTICK then Read(k.(mode := Template), 1)
    else if c == SLASH && regexAllowed then Read(k.(mode := Regex, inClass := false), 1)
    else if c == LCURLY then Read(k.(depth := k.depth + 1), 1)
    else if c == RCURLY then
      if k.depth == 0 then Stop
      else if k.templateDepths != [] && k.templateDepths[|k.templateDepths| - 1] == k.depth then
        Read(k.(mode := Template, depth := k.depth - 1,
                templateDepths := k.templateDepths[..|k.templateDepths| - 1]), 1)
      else Read(k.(depth := k.depth - 1), 1)
    else Read(k, 1)
  }

  function TurnOf(k: Control, c: Unit, next: int, regexAllowed: bool): (r: Turn)
    ensures r.Read? ==> 1 <= r.count <= 2
    ensures r.Read? && r.count == 2 ==> next in {SLASH, STAR, LCURLY}
  {
    match k.mode
    case LineComment => Read(if c == NEWLINE then k.(mode := Code) else k, 1)
    case BlockComment => if c == STAR && next == SLASH then Read(k.(mode := Code), 2) else Read(k, 1)
    case SingleQuote => QuotedTurn(k, c, SINGLE_QUOTE)
    case DoubleQuote => QuotedTurn(k, c, DOUBLE_QUOTE)
    case Regex => RegexTurn(k, c)
    case Template => TemplateTurn(k, c, next)
    case Code => PlainTurn(k, c, next, regexAllowed)
  }

  datatype StepResult = Halt | Go(state: CodeState, count: nat)

  /** A turn on the unread text s. */
  function CodeStep(st: CodeState, s: Text): (r: StepResult)
    requires s != []
    ensures r.Go? ==> 1 <= r.count <= Min(2, |s|) && r.state.content == st.content + s[..r.count]
  {
    match TurnOf(st.control, s[0], Second(s), CanStartRegex(st.content))
    case Stop => Halt
    case Read(k, n) => Go(CodeState(k, st.content + s[..n]), n)
  }

  datatype CodeScan = CodeScan(state: CodeState, rest: Text)

  /** The whole loop: it ends at an unmatched closing brace or at the end of the text. */
  function CodeRun(st: CodeState, s: Text): CodeScan
    decreases |s|
  {
    if s == [] then CodeScan(st, s)
    else match CodeStep(st, s)
      case Halt => CodeScan(st, s)
      case Go(st', n) => CodeRun(st', s[n..])
  }

  // ---------------------------------------------------------------- serialization

  /** Inserts the indentation after every newline. */
  function Shift(indent: Text, s: Text): Text {
    if s == [] then []
    else (if s[0] == NEWLINE then [NEWLINE] + indent else [s[0]]) + Shift(indent, s[1..])
  }

  /** split('\n'). */
  function Lines(s: Text): (lines: seq<Text>)
    ensures lines != []
  {
    if s == [] then [[]]
    else
      var lines := Lines(s[1..]);
      if s[0] == NEWLINE then [[]] + lines else [[s[0]] + lines[0]] + lines[1..]
  }

  /** Every line behind the indentation and with a newline. */
  function JoinLines(indent: Text, lines: seq<Text>): Text {
    if lines == [] then [] else indent + lines[0] + [NEWLINE] + JoinLines(indent, lines[1..])
  }

  /** Two ways to cut a text agree if and only if the cuts are at the same place. */
  lemma SplitAt(a: Text, b: Text, a': Text, b': Text)
    requires a + b == a' + b'
    ensures |b| == |b'| ==> a == a' && b == b'
    ensures a == a' ==> b == b'
  {
    assert |a + b| == |a' + b'|;
    if |a| == |a'| {
      assert a == (a + b)[..|a|] && a' == (a' + b')[..|a|];
      assert b == (a + b)[|a|..] && b' == (a' + b')[|a|..];
    }
  }

  lemma HeadSwap(indent: Text, line: Text, c: Unit, tail: Text, x: Text)
    requires indent + line + [NEWLINE] + tail == indent + x
    ensures indent + ([c] + line) + [NEWLINE] + tail == indent + ([c] + x)
  {
    var y := line + [NEWLINE] + tail;
    assert indent + line + [NEWLINE] + tail == indent + y;
    SplitAt(indent, y, indent, x);
    assert indent + ([c] + line) + [NEWLINE] + tail == indent + ([c] + y);
  }

  lemma JoinHead(indent: Text, lines: seq<Text>, c: Unit, x: Text)
    requires lines != [] && JoinLines(indent, lines) == indent + x
    ensures JoinLines(indent, [[c] + lines[0]] + lines[1..]) == indent + ([c] + x)
  {
    var first := [c] + lines[0];
    assert ([first] + lines[1..])[1..] == lines[1..];
    var tail := JoinLines(indent, lines[1..]);
    assert JoinLines(indent, lines) == indent + lines[0] + [NEWLINE] + tail;
    assert JoinLines(indent, [first] + lines[1..]) == indent + first + [NEWLINE] + tail;
    hide JoinLines;
    HeadSwap(indent, lines[0], c, tail, x);
  }

  lemma JoinBlank(indent: Text, lines: seq<Text>)
    ensures JoinLines(indent, [[]] + lines) == indent + ([NEWLINE] + JoinLines(indent, lines))
  {
    assert ([[]] + lines)[1..] == lines;
  }

  lemma {:induction false} LinesAreShifted(indent: Text, s: Text)
    ensures JoinLines(indent, Lines(s)) == indent + (Shift(indent, s) + [NEWLINE])
  {
    if s == [] {
      assert Lines(s)[1..] == [];
    } else {
      var lines := Lines(s[1..]);
      LinesAreShifted(indent, s[1..]);
      var x := Shift(indent, s[1..]) + [NEWLINE];
      hide JoinLines;
      if s[0] == NEWLINE {
        JoinBlank(indent, lines);
        assert [NEWLINE] + (indent + x) == Shift(indent, s) + [NEWLINE];
      } else {
        JoinHead(indent, lines, s[0], x);
        assert [s[0]] + x == Shift(indent, s) + [NEWLINE];
      }
    }
  }

  /** Everything the serializer writes between the two braces of a code block. */
  function CodeInner(indent: Text, outer: Text, value: Text): Text {
    Shift(indent, [NEWLINE] + Trim(value)) + [NEWLINE] + outer
  }

  /**
   * The trimmed body with a newline brings the machine back to code mode at depth 0,
   * and no closing brace in it is unmatched.
   */
  predicate CleanBody(value: Text) {
    EndsClean(CodeRun(CLEAN, Trim(value) + [NEWLINE]))
  }

  // ---------------------------------------------------------------- proofs

  predicate AllSpaces(s: Text) {
    forall i | 0 <= i < |s| :: s[i] == SPACE
  }

  lemma {:induction false} ShiftConcat(indent: Text, a: Text, b: Text)
    ensures Shift(indent, a + b) == Shift(indent, a) + Shift(indent, b)
  {
    if a == [] {
      assert a + b == b;
    } else {
      assert (a + b)[1..] == a[1..] + b;
      ShiftConcat(indent, a[1..], b);
    }
  }

  lemma ShiftSnoc(indent: Text, s: Text)
    requires s != []
    ensures Shift(indent, s)
         == Shift(indent, s[..|s| - 1]) + (if s[|s| - 1] == NEWLINE then [NEWLINE] + indent else [s[|s| - 1]])
  {
    var init, last := s[..|s| - 1], s[|s| - 1];
    ShiftConcat(indent, init, [last]);
    assert init + [last] == s;
    assert [last][1..] == [];
  }

  lemma {:induction false} ShiftTrimEnd(indent: Text, s: Text)
    requires AllSpaces(indent)
    ensures TrimEnd(Shift(indent, s)) == Shift(indent, TrimEnd(s))
  {
    if s != [] {
      var init, last := s[..|s| - 1], s[|s| - 1];
      var tail := if last == NEWLINE then [NEWLINE] + indent else [last];
      ShiftSnoc(indent, s);
      if IsWhite(last) {
        TrimEndSkipsWhite(Shift(indent, init), tail);
        ShiftTrimEnd(indent, init);
      }
    }
  }

  lemma {:induction false} ShiftWordSuffix(indent: Text, t: Text)
    requires AllSpaces(indent)
    ensures WordSuffix(Shift(indent, t)) == WordSuffix(t)
  {
    if t != [] {
      ShiftSnoc(indent, t);
      if IsWordUnit(t[|t| - 1]) {
        var u := Shift(indent, t);
        assert u[..|u| - 1] == Shift(indent, t[..|t| - 1]);
        ShiftWordSuffix(indent, t[..|t| - 1]);
      }
    }
  }

  lemma {:induction false} NewlineWordSuffix(t: Text)
    ensures WordSuffix([NEWLINE] + t) == WordSuffix(t)
  {
    var u := [NEWLINE] + t;
    if t != [] {
      assert u[..|u| - 1] == [NEWLINE] + t[..|t| - 1];
      NewlineWordSuffix(t[..|t| - 1]);
    }
  }

  lemma {:induction false} NewlineTrimEnd(c: Text)
    ensures TrimEnd([NEWLINE] + c) == if TrimEnd(c) == [] then [] else [NEWLINE] + TrimEnd(c)
  {
    var u := [NEWLINE] + c;
    if c == [] {
      assert u[..0] == [];
    } else {
      assert u[..|u| - 1] == [NEWLINE] + c[..|c| - 1];
      if IsWhite(c[|c| - 1]) { NewlineTrimEnd(c[..|c| - 1]); }
    }
  }

  /** Whether a slash starts a regular expression does not depend on the indentation. */
  lemma RegexVerdictIgnoresIndent(indent: Text, content: Text)
    requires AllSpaces(indent)
    ensures CanStartRegex(Shift(indent, [NEWLINE] + content)) == CanStartRegex(content)
  {
    var t := TrimEnd(content);
    ShiftTrimEnd(indent, [NEWLINE] + content);
    NewlineTrimEnd(content);
    if t != [] {
      ShiftSnoc(indent, [NEWLINE] + t);
      TrimEndEdge(content);
      ShiftWordSuffix(indent, [NEWLINE] + t);
      NewlineWordSuffix(t);
    }
  }

  /** The state of the machine on the re-indented text that corresponds to st on the original. */
  function Lift(indent: Text, st: CodeState): CodeState {
    st.(content := Shift(indent, [NEWLINE] + st.content))
  }

  predicate Settled(st: CodeState) {
    st.control.mode in {SingleQuote, DoubleQuote, Template, Regex} ==> !st.control.escaped
  }

  lemma RunAfterGo(st: CodeState, s: Text, r: StepResult)
    requires s != [] && CodeStep(st, s) == r && r.Go?
    ensures CodeRun(st, s) == CodeRun(r.state, s[r.count..])
  {
  }

  lemma SpaceStep(st: CodeState, s: Text)
    requires s != [] && s[0] == SPACE && Settled(st)
    ensures CodeStep(st, s) == Go(CodeState(st.control, st.content + [SPACE]), 1)
  {
    hide CanStartRegex;
    assert s[..1] == [SPACE];
  }

  /** Spaces read outside an escape change nothing but the content. */
  lemma {:induction false} SpacesKeepState(st: CodeState, spaces: Text, s: Text)
    requires AllSpaces(spaces) && Settled(st)
    ensures CodeRun(st, spaces + s) == CodeRun(st.(content := st.content + spaces), s)
    decreases |spaces|
  {
    hide CanStartRegex, CodeStep, CodeRun;
    if spaces == [] {
      assert spaces + s == s;
      assert st.content + spaces == st.content;
    } else {
      var u := spaces + s;
      SpaceStep(st, u);
      var st' := CodeState(st.control, st.content + [SPACE]);
      RunAfterGo(st, u, CodeStep(st, u));
      assert u[1..] == spaces[1..] + s;
      SpacesKeepState(st', spaces[1..], s);
      assert spaces == [SPACE] + spaces[1..];
      assert st.content + spaces == st'.content + spaces[1..];
    }
  }

  /** A step that does not read a newline is the same step on the re-indented text. */
  lemma LiftedStep(indent: Text, st: CodeState, s: Text, t: Text)
    requires AllSpaces(indent)
    requires s != [] && t != [] && s[0] == t[0] != NEWLINE
    requires |s| > 1 && |t| > 1 && s[1] == t[1]
    ensures CodeStep(st, s).Halt? <==> CodeStep(Lift(indent, st), t).Halt?
    ensures CodeStep(st, s).Go? ==>
              var r := CodeStep(st, s);
              CodeStep(Lift(indent, st), t) == Go(Lift(indent, r.state), r.count) && (r.count == 2 ==> s[1] != NEWLINE)
  {
    RegexVerdictIgnoresIndent(indent, st.content);
    var r := CodeStep(st, s);
    if r.Go? {
      assert s[..r.count] == t[..r.count];
      ShiftConcat(indent, [NEWLINE] + st.content, s[..r.count]);
      assert [NEWLINE] + st.content + s[..r.count] == [NEWLINE] + (st.content + s[..r.count]);
      ShiftKeepsPlain(indent, s[..r.count]);
    }
  }

  lemma {:induction false} ShiftKeepsPlain(indent: Text, s: Text)
    requires NEWLINE !in s
    ensures Shift(indent, s) == s
  {
    if s != [] { ShiftKeepsPlain(indent, s[1..]); }
  }

  function AfterNewline(k: Control): Control {
    match k.mode
    case LineComment => k.(mode := Code)
    case Regex => if k.escaped then k.(escaped := false) else k.(mode := Code)
    case SingleQuote => k.(escaped := false)
    case DoubleQuote => k.(escaped := false)
    case Template => k.(escaped := false)
    case BlockComment => k
    case Code => k
  }

  lemma NewlineStep(st: CodeState, s: Text)
    requires s != [] && s[0] == NEWLINE
    ensures CodeStep(st, s).Go? && CodeStep(st, s).count == 1 && Settled(CodeStep(st, s).state)
    ensures CodeStep(st, s).state == CodeState(AfterNewline(st.control), st.content + [NEWLINE])
  {
    hide CanStartRegex;
    assert s[..1] == [NEWLINE];
  }

  /** What the machine does on the re-indented text, given what it does on the original. */
  ghost predicate Simulates(indent: Text, r: CodeScan, r': CodeScan, tail: Text) {
    if r.rest != [] then r'.rest != [] && |r'.rest| > |tail|
    else
      && |r.state.content| > 0
      && var body := r.state.content[..|r.state.content| - 1];
      && Settled(r.state)
      && r' == CodeRun(r.state.(content := Shift(indent, [NEWLINE] + body) + [NEWLINE]), tail)
  }

  lemma IndentEnd(indent: Text, st: CodeState, tail: Text)
    requires AllSpaces(indent)
    ensures Simulates(indent, CodeRun(st, [NEWLINE]), CodeRun(Lift(indent, st), [NEWLINE] + tail), tail)
  {
    NewlineStep(st, [NEWLINE]);
    NewlineStep(Lift(indent, st), [NEWLINE] + tail);
    var st1 := CodeStep(st, [NEWLINE]).state;
    assert CodeRun(st, [NEWLINE]) == CodeRun(st1, []);
    assert ([NEWLINE] + tail)[1..] == tail;
    assert st1.content[..|st1.content| - 1] == st.content;
  }

  lemma RunAtHalt(st: CodeState, s: Text)
    requires s != [] && CodeStep(st, s).Halt?
    ensures CodeRun(st, s) == CodeScan(st, s)
  {
  }

  lemma LiftNewline(indent: Text, content: Text)
    ensures Shift(indent, [NEWLINE] + (content + [NEWLINE])) == Shift(indent, [NEWLINE] + content) + [NEWLINE] + indent
  {
    ShiftSnoc(indent, [NEWLINE] + (content + [NEWLINE]));
    assert ([NEWLINE] + (content + [NEWLINE]))[..|content| + 1] == [NEWLINE] + content;
    assert Shift(indent, [NEWLINE] + content) + ([NEWLINE] + indent)
        == Shift(indent, [NEWLINE] + content) + [NEWLINE] + indent;
  }

  lemma NewlineRun(st: CodeState, rest: Text)
    ensures var st1 := CodeState(AfterNewline(st.control), st.content + [NEWLINE]);
            Settled(st1) && CodeRun(st, [NEWLINE] + rest) == CodeRun(st1, rest)
  {
    hide CanStartRegex, CodeRun, CodeStep;
    var s := [NEWLINE] + rest;
    NewlineStep(st, s);
    RunAfterGo(st, s, CodeStep(st, s));
    assert s[1..] == rest;
  }

  /** Both machines read a newline, and the second one the indentation after it. */
  lemma IndentNewline(indent: Text, st: CodeState, x: Text, tail: Text) returns (st1: CodeState)
    requires AllSpaces(indent) && x != [] && x[0] == NEWLINE
    ensures CodeRun(st, x + [NEWLINE]) == CodeRun(st1, x[1..] + [NEWLINE])
    ensures CodeRun(Lift(indent, st), Shift(indent, x) + [NEWLINE] + tail)
         == CodeRun(Lift(indent, st1), Shift(indent, x[1..]) + [NEWLINE] + tail)
  {
    hide CanStartRegex, CodeRun, AfterNewline, Settled;
    var t' := Shift(indent, x[1..]) + [NEWLINE] + tail;
    var lifted := Lift(indent, st);
    assert x + [NEWLINE] == [NEWLINE] + (x[1..] + [NEWLINE]);
    assert Shift(indent, x) + [NEWLINE] + tail == [NEWLINE] + (indent + t');
    NewlineRun(st, x[1..] + [NEWLINE]);
    NewlineRun(lifted, indent + t');
    st1 := CodeState(AfterNewline(st.control), st.content + [NEWLINE]);
    SpacesKeepState(CodeState(AfterNewline(st.control), lifted.content + [NEWLINE]), indent, t');
    LiftNewline(indent, st.content);
  }

  lemma ShiftedStart(indent: Text, x: Text, tail: Text)
    requires x != [] && x[0] != NEWLINE && tail != [] && tail[0] == NEWLINE
    ensures var t := Shift(indent, x) + tail; |t| > 1 && t[0] == x[0] && t[1] == (x + [NEWLINE])[1]
  {
    if |x| > 1 { assert Shift(indent, x[1..])[0] == x[1]; }
  }

  lemma ShiftedTail(indent: Text, x: Text, n: nat)
    requires n <= |x| && NEWLINE !in x[..n]
    ensures Shift(indent, x) == x[..n] + Shift(indent, x[n..])
  {
    ShiftConcat(indent, x[..n], x[n..]);
    assert x[..n] + x[n..] == x;
    ShiftKeepsPlain(indent, x[..n]);
  }

  /** Both machines make the same step when the next unit is not a newline. */
  lemma IndentUnits(indent: Text, st: CodeState, x: Text, tail: Text) returns (r: StepResult)
    requires AllSpaces(indent) && x != [] && x[0] != NEWLINE
    ensures var a := CodeRun(st, x + [NEWLINE]);
            var b := CodeRun(Lift(indent, st), Shift(indent, x) + [NEWLINE] + tail);
            && (r.Halt? ==> a.rest != [] && |b.rest| > |tail|)
            && (r.Go? ==> && 1 <= r.count <= |x|
                          && a == CodeRun(r.state, x[r.count..] + [NEWLINE])
                          && b == CodeRun(Lift(indent, r.state), Shift(indent, x[r.count..]) + [NEWLINE] + tail))
  {
    hide CanStartRegex, CodeStep, CodeRun, Shift;
    var s, t := x + [NEWLINE], Shift(indent, x) + [NEWLINE] + tail;
    ShiftedStart(indent, x, [NEWLINE] + tail);
    assert t == Shift(indent, x) + ([NEWLINE] + tail);
    LiftedStep(indent, st, s, t);
    r := CodeStep(st, s);
    if r.Go? {
      var n := r.count;
      assert n <= |x|;
      RunAfterGo(st, s, r);
      RunAfterGo(Lift(indent, st), t, CodeStep(Lift(indent, st), t));
      assert s[n..] == x[n..] + [NEWLINE];
      ShiftedTail(indent, x, n);
      assert t == x[..n] + (Shift(indent, x[n..]) + [NEWLINE] + tail);
      assert t[n..] == Shift(indent, x[n..]) + [NEWLINE] + tail;
    } else {
      RunAtHalt(st, s);
      RunAtHalt(Lift(indent, st), t);
    }
  }

  /**
   * The machine on the re-indented text follows the machine on the original: it stops inside
   * the body exactly when the original does, and otherwise reaches the newline in the same state.
   */
  lemma {:induction false} IndentSimulation(indent: Text, st: CodeState, x: Text, tail: Text)
    requires AllSpaces(indent)
    ensures Simulates(indent, CodeRun(st, x + [NEWLINE]),
                      CodeRun(Lift(indent, st), Shift(indent, x) + [NEWLINE] + tail), tail)
    decreases |x|
  {
    if x == [] {
      assert Shift(indent, x) + [NEWLINE] + tail == [NEWLINE] + tail;
      IndentEnd(indent, st, tail);
      assert x + [NEWLINE] == [NEWLINE];
    } else if x[0] == NEWLINE {
      var st1 := IndentNewline(indent, st, x, tail);
      IndentSimulation(indent, st1, x[1..], tail);
    } else {
      var r := IndentUnits(indent, st, x, tail);
      if r.Go? { IndentSimulation(indent, r.state, x[r.count..], tail); }
    }
  }

  /** The machine never loses or reorders text: what it has read is a prefix of the input. */
  lemma {:induction false} CodeRunSplits(st: CodeState, s: Text)
    ensures var r := CodeRun(st, s); r.state.content + r.rest == st.content + s
    decreases |s|
  {
    hide CanStartRegex;
    if s != [] {
      var r := CodeStep(st, s);
      if r.Go? {
        CodeRunSplits(r.state, s[r.count..]);
        assert s == s[..r.count] + s[r.count..];
      }
    }
  }

  lemma {:induction false} CodeRunShrinks(st: CodeState, s: Text)
    ensures |CodeRun(st, s).rest| <= |s|
    decreases |s|
  {
    if s != [] {
      var r := CodeStep(st, s);
      if r.Go? { CodeRunShrinks(r.state, s[r.count..]); }
    }
  }

  /** A closing brace ends the loop in code mode at depth 0, and is read in every other state. */
  lemma BraceStep(st: CodeState, rest: Text)
    ensures var r := CodeRun(st, [RCURLY] + rest);
            if st.control.mode == Code && st.control.depth == 0 then r.rest == [RCURLY] + rest else |r.rest| <= |rest|
  {
    hide CanStartRegex;
    var brace := [RCURLY] + rest;
    var r := CodeStep(st, brace);
    if r.Go? { CodeRunShrinks(r.state, brace[r.count..]); }
  }

  /** From the newline after the body on: the closing brace is met in the state that the body left. */
  lemma ClosingBrace(st: CodeState, outer: Text, rest: Text)
    requires AllSpaces(outer) && Settled(st)
    ensures var r := CodeRun(st, outer + [RCURLY] + rest);
            if st.control.mode == Code && st.control.depth == 0 then r.rest == [RCURLY] + rest else |r.rest| <= |rest|
  {
    hide CanStartRegex;
    var brace := [RCURLY] + rest;
    SpacesKeepState(st, outer, brace);
    assert outer + brace == outer + [RCURLY] + rest;
    BraceStep(st.(content := st.content + outer), rest);
  }

  /** The serialized block from its first newline: the indented run from the clean state. */
  lemma BlockStart(indent: Text, body: Text, t: Text)
    requires AllSpaces(indent)
    ensures CodeRun(CLEAN, Shift(indent, [NEWLINE] + body) + t) == CodeRun(Lift(indent, CLEAN), Shift(indent, body) + t)
  {
    hide CanStartRegex, CodeRun, CodeStep;
    var u := Shift(indent, body) + t;
    var text := [NEWLINE] + (indent + u);
    ShiftConcat(indent, [NEWLINE], body);
    assert [NEWLINE][1..] == [];
    assert Shift(indent, [NEWLINE]) == [NEWLINE] + indent;
    assert Shift(indent, [NEWLINE] + body) + t == text;
    NewlineStep(CLEAN, text);
    RunAfterGo(CLEAN, text, CodeStep(CLEAN, text));
    assert text[1..] == indent + u;
    var st1 := CodeStep(CLEAN, text).state;
    SpacesKeepState(st1, indent, u);
    assert [] + [NEWLINE] == [NEWLINE] == [NEWLINE] + [];
    assert st1.content + indent == Lift(indent, CLEAN).content;
  }

  predicate EndsClean(r: CodeScan) {
    r.rest == [] && r.state.control.mode == Code && r.state.control.depth == 0
  }

  /** The unread text left by the serialized block starts at its own brace exactly for clean bodies. */
  lemma BlockStopsAtBrace(indent: Text, outer: Text, body: Text, rest: Text)
    requires AllSpaces(indent) && AllSpaces(outer)
    ensures var text := Shift(indent, [NEWLINE] + body) + [NEWLINE] + outer + [RCURLY] + rest;
            var r := CodeRun(CLEAN, text);
            if EndsClean(CodeRun(CLEAN, body + [NEWLINE])) then r.rest == [RCURLY] + rest
            else |r.rest| != 1 + |rest|
  {
    hide CanStartRegex, CodeStep, Shift, CodeRun;
    var tail := outer + [RCURLY] + rest;
    var shifted := Shift(indent, [NEWLINE] + body);
    assert shifted + [NEWLINE] + outer + [RCURLY] + rest == shifted + ([NEWLINE] + tail);
    BlockStart(indent, body, [NEWLINE] + tail);
    assert Shift(indent, body) + ([NEWLINE] + tail) == Shift(indent, body) + [NEWLINE] + tail;
    IndentSimulation(indent, CLEAN, body, tail);
    var r := CodeRun(CLEAN, body + [NEWLINE]);
    if r.rest == [] {
      CodeRunSplits(CLEAN, body + [NEWLINE]);
      assert r.state.content == r.state.content + r.rest == [] + (body + [NEWLINE]) == body + [NEWLINE];
      assert r.state.content[..|r.state.content| - 1] == body;
      ClosingBrace(r.state.(content := shifted + [NEWLINE]), outer, rest);
    }
  }

  /**
   * Scanning the serialized block reads exactly the serializer's own text and stops at its own
   * closing brace if and only if the body is clean.
   */
  lemma CodeBlockReadsBack(indent: Text, outer: Text, value: Text, rest: Text)
    requires AllSpaces(indent) && AllSpaces(outer)
    ensures var inner := CodeInner(indent, outer, value);
            var r := CodeRun(CLEAN, inner + [RCURLY] + rest);
            && (CleanBody(value) ==> r.state.content == inner && r.rest == [RCURLY] + rest)
            && (!CleanBody(value) ==> r.state.content != inner)
  {
    hide CanStartRegex, CodeStep, Shift, TrimEnd, CodeRun;
    var inner := CodeInner(indent, outer, value);
    var brace := [RCURLY] + rest;
    var r := CodeRun(CLEAN, inner + [RCURLY] + rest);
    BlockStopsAtBrace(indent, outer, Trim(value), rest);
    CodeRunSplits(CLEAN, inner + [RCURLY] + rest);
    assert [] + (inner + [RCURLY] + rest) == inner + brace;
    SplitAt(r.state.content, r.rest, inner, brace);
  }

  /** The value that is read back has the same lines: trimmed, it is the trimmed original with shifted lines. */
  lemma ReadBackIsReindented(indent: Text, outer: Text, value: Text)
    requires AllSpaces(indent) && AllSpaces(outer)
    ensures Trim(CodeInner(indent, outer, value)) == Shift(indent, Trim(value))
  {
    var body := Trim(value);
    var core := Shift(indent, body);
    ShiftConcat(indent, [NEWLINE], body);
    assert [NEWLINE][1..] == [];
    assert Shift(indent, [NEWLINE]) == [NEWLINE] + indent;
    var before, behind := [NEWLINE] + indent, [NEWLINE] + outer;
    var inner := CodeInner(indent, outer, value);
    assert inner == before + (core + behind);
    TrimStartSkipsWhite(before, core + behind);
    TrimEdges(value);
    if body == [] {
      assert core + behind == behind + [];
      TrimStartSkipsWhite(behind, []);
    } else {
      ShiftSnoc(indent, body);
      assert core[0] == body[0];
      assert TrimStart(core + behind) == core + behind;
      TrimEndSkipsWhite(core, behind);
      assert core[|core| - 1] == body[|body| - 1];
    }
  }
}
