/** Interpolator: {{name}} expressions in texts and JSON values. */
module Interpolation {
  import opened CodeUnits
  import opened YslScanner
  import opened JsonTree
  import opened Replacing

  const OPENING: Text := [LCURLY, LCURLY]
  const CLOSING: Text := [RCURLY, RCURLY]
  const ESCAPED: Text := [BACKSLASH, LCURLY, LCURLY]
  const SENTINEL: Text := [0] + Ascii("YASUMU_ESCAPED_OPEN") + [0]

  function Protect(t: Text): Text { ReplaceAll(t, ESCAPED, SENTINEL) }

  function Restore(t: Text): Text { ReplaceAll(t, SENTINEL, OPENING) }

  // ---------------------------------------------------------------- the expression pattern

  datatype Match = NoMatch | Match(length: nat, key: Text)

  predicate IsNameUnit(u: Unit) {
    IsAlpha(u) || IsDigit(u) || u == DOT || u == MINUS
  }

  function WhiteRun(s: Text): (n: nat)
    ensures n <= |s| && (n < |s| ==> !IsWhite(s[n])) && forall i | 0 <= i < n :: IsWhite(s[i])
  {
    if s != [] && IsWhite(s[0]) then 1 + WhiteRun(s[1..]) else 0
  }

  function NameRun(s: Text): (n: nat)
    ensures n <= |s| && (n < |s| ==> !IsNameUnit(s[n])) && forall i | 0 <= i < n :: IsNameUnit(s[i])
  {
    if s != [] && IsNameUnit(s[0]) then 1 + NameRun(s[1..]) else 0
  }

  /** Two braces, white space, a name, white space, two braces, at the start of s. */
  function MatchHere(s: Text): (m: Match)
    ensures m.Match? ==> 5 <= m.length <= |s| && m.key != []
  {
    if !(OPENING <= s) then NoMatch
    else
      var from := 2 + WhiteRun(s[2..]);
      if from == |s| || !IsAlpha(s[from]) then NoMatch
      else
        var to := from + NameRun(s[from..]);
        var end := to + WhiteRun(s[to..]);
        if CLOSING <= s[end..] then Match(end + 2, s[from..to]) else NoMatch
  }

  /** An expression with nothing but white space around it. */
  function MatchExact(s: Text): Match {
    var before := WhiteRun(s);
    var m := MatchHere(s[before..]);
    if m.Match? && AllWhite(s[before + m.length..]) then m else NoMatch
  }

  predicate HasExpression(s: Text) {
    exists i | 0 <= i <= |s| :: MatchHere(s[i..]).Match?
  }

  // ---------------------------------------------------------------- the interpolator

  datatype Missing = AsError | Preserve | Empty

  datatype Error = TooDeep | MissingVariable(key: Text) | Cycle(chain: seq<Text>) | KeyNotText

  datatype Outcome<+T> = Ok(value: T) | Failed(error: Error)

  datatype Resolved = Absent | Found(value: Tree)

  datatype Interpolator = Interpolator(variables: map<Text, Tree>, secrets: map<Text, Text>, missing: Missing, maxDepth: int)

  const VARIABLES: Text := Ascii("variables.")
  const SECRETS: Text := Ascii("secrets.")

  /** The value of a name: a qualified name is looked up in its own scope first, a secret hides a variable. */
  function Lookup(p: Interpolator, key: Text): Resolved {
    if VARIABLES <= key && key[|VARIABLES|..] in p.variables then Found(p.variables[key[|VARIABLES|..]])
    else if SECRETS <= key && key[|SECRETS|..] in p.secrets then Found(String(p.secrets[key[|SECRETS|..]]))
    else if key in p.secrets then Found(String(p.secrets[key]))
    else if key in p.variables then Found(p.variables[key])
    else Absent
  }

  function MissingValue(p: Interpolator, token: Text, key: Text): Outcome<Text> {
    match p.missing
    case Preserve => Ok(token)
    case Empty => Ok([])
    case AsError => Failed(MissingVariable(key))
  }

  /** How a resolved value is written into a longer text. */
  function TextOf(v: Tree): Text {
    if v.String? then v.s else ToJson(v)
  }

  function Room(p: Interpolator, depth: nat): nat {
    if depth > p.maxDepth then 0 else p.maxDepth + 1 - depth
  }

  function InterpolateText(p: Interpolator, input: Text, stack: seq<Text>, depth: nat): Outcome<Tree>
    decreases Room(p, depth), 2, 0
  {
    if depth > p.maxDepth then Failed(TooDeep)
    else
      var guarded := Protect(input);
      var exact := MatchExact(guarded);
      if exact.Match? then
        var resolved := Resolve(p, exact.key, stack, depth + 1);
        if resolved.Failed? then Failed(resolved.error)
        else if resolved.value.Absent? then
          var m := MissingValue(p, input, exact.key);
          if m.Failed? then Failed(m.error) else Ok(String(m.value))
        else if resolved.value.value.String? then Ok(String(Restore(resolved.value.value.s)))
        else Ok(resolved.value.value)
      else
        var output := Expand(p, guarded, stack, depth);
        if output.Failed? then Failed(output.error)
        else if output.value == guarded then Ok(String(Restore(output.value)))
        else InterpolateText(p, Restore(output.value), stack, depth + 1)
  }

  /** Every expression in s gives way to the text of its value, from left to right. */
  function Expand(p: Interpolator, s: Text, stack: seq<Text>, depth: nat): Outcome<Text>
    requires depth <= p.maxDepth
    decreases Room(p, depth), 1, |s|
  {
    if s == [] then Ok([])
    else
      var m := MatchHere(s);
      if m.NoMatch? then
        var rest := Expand(p, s[1..], stack, depth);
        if rest.Failed? then rest else Ok([s[0]] + rest.value)
      else
        var r := Replacement(p, s[..m.length], m.key, stack, depth);
        if r.Failed? then r
        else
          var rest := Expand(p, s[m.length..], stack, depth);
          if rest.Failed? then rest else Ok(r.value + rest.value)
  }

  function Replacement(p: Interpolator, token: Text, key: Text, stack: seq<Text>, depth: nat): Outcome<Text>
    requires depth <= p.maxDepth
    decreases Room(p, depth), 0, 0
  {
    var resolved := Resolve(p, key, stack, depth + 1);
    if resolved.Failed? then Failed(resolved.error)
    else if resolved.value.Absent? then MissingValue(p, token, key)
    else Ok(TextOf(resolved.value.value))
  }

  function Resolve(p: Interpolator, key: Text, stack: seq<Text>, depth: nat): Outcome<Resolved>
    decreases Room(p, depth), 3, 0
  {
    var found := Lookup(p, key);
    if found.Absent? then
      if p.missing == AsError then Failed(MissingVariable(key)) else Ok(Absent)
    else if key in stack then Failed(Cycle(stack + [key]))
    else if found.value.String? then
      var r := InterpolateText(p, found.value.s, stack + [key], depth);
      if r.Failed? then Failed(r.error) else Ok(Found(r.value))
    else Ok(found)
  }

  function InterpolateValue(p: Interpolator, v: Tree, depth: nat): Outcome<Tree>
    decreases v, 1
  {
    if depth > p.maxDepth then Failed(TooDeep)
    else
      match v
      case String(s) => InterpolateText(p, s, [], depth)
      case List(items) =>
        var r := InterpolateItems(p, v, |items|, depth);
        if r.Failed? then Failed(r.error) else Ok(List(r.value))
      case Record(entries) =>
        var r := InterpolateEntries(p, v, |entries|, depth);
        if r.Failed? then Failed(r.error) else Ok(Record(r.value))
      case _ => Ok(v)
  }

  function InterpolateItems(p: Interpolator, v: Tree, n: nat, depth: nat): Outcome<seq<Tree>>
    requires v.List? && n <= |v.items|
    decreases v, 0, n
  {
    if n == 0 then Ok([])
    else
      var before := InterpolateItems(p, v, n - 1, depth);
      if before.Failed? then before
      else
        var item := InterpolateValue(p, v.items[n - 1], depth + 1);
        if item.Failed? then Failed(item.error) else Ok(before.value + [item.value])
  }

  function InterpolateEntries(p: Interpolator, v: Tree, n: nat, depth: nat): Outcome<seq<Entry>>
    requires v.Record? && n <= |v.entries|
    decreases v, 0, n
  {
    if n == 0 then Ok([])
    else
      var before := InterpolateEntries(p, v, n - 1, depth);
      if before.Failed? then before
      else
        var key := InterpolateText(p, v.entries[n - 1].key, [], depth + 1);
        if key.Failed? then Failed(key.error)
        else if !key.value.String? then Failed(KeyNotText)
        else
          var value := InterpolateValue(p, v.entries[n - 1].value, depth + 1);
          if value.Failed? then Failed(value.error) else Ok(Put(before.value, key.value.s, value.value))
  }

  /** The loop that fills the result object. */
  method InterpolateRecord(p: Interpolator, v: Tree, depth: nat) returns (r: Outcome<Tree>)
    requires v.Record? && depth <= p.maxDepth
    ensures r == InterpolateValue(p, v, depth)
  {
    RecordUnfolds(p, v, depth);
    hide *;
    var result: seq<Entry> := [];
    NoEntries(p, v, depth);
    for i := 0 to |v.entries|
      invariant InterpolateEntries(p, v, i, depth) == Ok(result)
    {
      NextEntry(p, v, i, depth);
      var key := InterpolateText(p, v.entries[i].key, [], depth + 1);
      if key.Failed? {
        EntriesFail(p, v, i, |v.entries|, depth);
        return Failed(key.error);
      }
      if !key.value.String? {
        EntriesFail(p, v, i, |v.entries|, depth);
        return Failed(KeyNotText);
      }
      var value := InterpolateValue(p, v.entries[i].value, depth + 1);
      if value.Failed? {
        EntriesFail(p, v, i, |v.entries|, depth);
        return Failed(value.error);
      }
      result := Put(result, key.value.s, value.value);
    }
    r := Ok(Record(result));
  }

  lemma NoEntries(p: Interpolator, v: Tree, depth: nat)
    requires v.Record?
    ensures InterpolateEntries(p, v, 0, depth) == Ok([])
  {
  }

  lemma NextEntry(p: Interpolator, v: Tree, i: nat, depth: nat)
    requires v.Record? && i < |v.entries| && InterpolateEntries(p, v, i, depth).Ok?
    ensures var key := InterpolateText(p, v.entries[i].key, [], depth + 1);
            var value := InterpolateValue(p, v.entries[i].value, depth + 1);
            InterpolateEntries(p, v, i + 1, depth) == (
              if key.Failed? then Failed(key.error)
              else if !key.value.String? then Failed(KeyNotText)
              else if value.Failed? then Failed(value.error)
              else Ok(Put(InterpolateEntries(p, v, i, depth).value, key.value.s, value.value)))
  {
    hide InterpolateText, InterpolateValue, Put;
  }

  lemma RecordUnfolds(p: Interpolator, v: Tree, depth: nat)
    requires v.Record? && depth <= p.maxDepth
    ensures InterpolateValue(p, v, depth)
         == (var r := InterpolateEntries(p, v, |v.entries|, depth); if r.Failed? then Failed(r.error) else Ok(Record(r.value)))
  {
  }

  /** The first entry that fails decides the outcome. */
  lemma {:induction false} EntriesFail(p: Interpolator, v: Tree, i: nat, n: nat, depth: nat)
    requires v.Record? && i < n <= |v.entries| && InterpolateEntries(p, v, i + 1, depth).Failed?
    ensures InterpolateEntries(p, v, n, depth) == InterpolateEntries(p, v, i + 1, depth)
  {
    if i + 1 < n { EntriesFail(p, v, i, n - 1, depth); }
  }

  // ---------------------------------------------------------------- texts that need no protection

  predicate ReadyAt(s: Text, i: nat)
    requires i < |s|
  {
    s[i] != 0 && (s[i] == BACKSLASH ==> i + 1 < |s| && s[i + 1] != LCURLY)
  }

  /** Holds no NUL, does not end with a backslash, and no backslash stands before a brace. */
  predicate IsReady(s: Text) {
    forall i | 0 <= i < |s| :: ReadyAt(s, i)
  }

  lemma ReadyTail(s: Text, k: nat)
    requires IsReady(s) && k <= |s|
    ensures IsReady(s[k..])
  {
    forall i | 0 <= i < |s[k..]| ensures ReadyAt(s[k..], i) { assert ReadyAt(s, k + i); }
  }

  lemma ReadyConcat(s: Text, t: Text)
    requires IsReady(s) && IsReady(t)
    ensures IsReady(s + t)
  {
    forall i | 0 <= i < |s + t| ensures ReadyAt(s + t, i) {
      assert if i < |s| then ReadyAt(s, i) else ReadyAt(t, i - |s|);
    }
  }

  lemma NotReady(s: Text, u: Text)
    requires Contains(s, u) && (u == ESCAPED || u == SENTINEL)
    ensures !IsReady(s)
  {
    var i := ContainsIndex(s, u);
    assert s[i + 0] == u[0] && s[i + 1] == u[1];
    assert !ReadyAt(s, i);
  }

  lemma ReadyIsUntouched(s: Text)
    requires IsReady(s)
    ensures Protect(s) == s && Restore(s) == s
  {
    if Contains(s, ESCAPED) { NotReady(s, ESCAPED); }
    if Contains(s, SENTINEL) { NotReady(s, SENTINEL); }
    ReplaceNothing(s, ESCAPED, SENTINEL);
    ReplaceNothing(s, SENTINEL, OPENING);
  }

  // ---------------------------------------------------------------- matches

  lemma {:induction false} WhiteRunOf(s: Text, n: nat)
    requires n < |s| && !IsWhite(s[n]) && forall i | 0 <= i < n :: IsWhite(s[i])
    ensures WhiteRun(s) == n
  {
    if n > 0 { WhiteRunOf(s[1..], n - 1); }
  }

  lemma {:induction false} NameRunOf(s: Text, n: nat)
    requires n < |s| && !IsNameUnit(s[n]) && forall i | 0 <= i < n :: IsNameUnit(s[i])
    ensures NameRun(s) == n
  {
    if n > 0 { NameRunOf(s[1..], n - 1); }
  }

  /** Where the parts of a match lie. */
  predicate Shape(s: Text, from: nat, to: nat, end: nat) {
    && 2 <= from < to <= end && end + 2 <= |s|
    && s[0] == LCURLY && s[1] == LCURLY && IsAlpha(s[from]) && s[end] == RCURLY && s[end + 1] == RCURLY
    && (forall i | 2 <= i < from :: IsWhite(s[i]))
    && (forall i | from <= i < to :: IsNameUnit(s[i]))
    && (forall i | to <= i < end :: IsWhite(s[i]))
  }

  lemma ShapeMatches(s: Text, from: nat, to: nat, end: nat)
    requires Shape(s, from, to, end)
    ensures MatchHere(s) == Match(end + 2, s[from..to])
  {
    hide WhiteRun, NameRun;
    WhiteRunOf(s[2..], from - 2);
    NameRunOf(s[from..], to - from);
    WhiteRunOf(s[to..], end - to);
    assert s[..2] == OPENING;
    assert s[end..][..2] == CLOSING;
  }

  lemma MatchHasShape(s: Text) returns (from: nat, to: nat, end: nat)
    requires MatchHere(s).Match?
    ensures Shape(s, from, to, end) && MatchHere(s) == Match(end + 2, s[from..to])
  {
    hide WhiteRun, NameRun;
    from := 2 + WhiteRun(s[2..]);
    to := from + NameRun(s[from..]);
    end := to + WhiteRun(s[to..]);
    assert s[0] == OPENING[0] && s[1] == OPENING[1];
    assert s[end] == s[end..][0] == CLOSING[0] && s[end + 1] == s[end..][1] == CLOSING[1];
    assert forall i | 2 <= i < from :: s[i] == s[2..][i - 2];
    assert forall i | from <= i < to :: s[i] == s[from..][i - from];
    assert forall i | to <= i < end :: s[i] == s[to..][i - to];
    assert to < |s| ==> s[to] == s[to..][0];
  }

  /** A match does not depend on what comes after it. */
  lemma MatchStays(s: Text, t: Text)
    requires MatchHere(s).Match? && MatchHere(s).length <= |t| && t[..MatchHere(s).length] == s[..MatchHere(s).length]
    ensures MatchHere(t) == MatchHere(s)
  {
    hide MatchHere;
    var from, to, end := MatchHasShape(s);
    assert forall i | 0 <= i < end + 2 :: s[i] == s[..end + 2][i] == t[i];
    assert Shape(t, from, to, end);
    ShapeMatches(t, from, to, end);
    assert t[from..to] == s[from..to];
  }

  // ---------------------------------------------------------------- what comes out holds no expression

  predicate IsFinal(s: Text) {
    IsReady(s) && !HasExpression(s)
  }

  /** A text that is ready, or another value whose JSON text needs no interpolation. */
  predicate IsPlain(v: Tree) {
    IsReady(TextOf(v)) && (v.String? || !HasExpression(TextOf(v)))
  }

  ghost predicate PlainValues(p: Interpolator) {
    (forall k | k in p.variables :: IsPlain(p.variables[k])) && (forall k | k in p.secrets :: IsReady(p.secrets[k]))
  }

  lemma LookupIsPlain(p: Interpolator, key: Text)
    requires PlainValues(p) && Lookup(p, key).Found?
    ensures IsPlain(Lookup(p, key).value)
  {
    hide IsReady;
    assert forall k | k in p.secrets :: IsPlain(String(p.secrets[k]));
  }

  lemma EmptyIsFinal()
    ensures IsFinal([])
  {
  }

  lemma {:induction false} ResolvedIsFinal(p: Interpolator, key: Text, stack: seq<Text>, depth: nat)
    requires PlainValues(p) && p.missing != Preserve
    ensures var r := Resolve(p, key, stack, depth); r.Ok? && r.value.Found? ==> IsFinal(TextOf(r.value.value))
    decreases Room(p, depth), 3, 0
  {
    var found := Lookup(p, key);
    if found.Found? && key !in stack {
      LookupIsPlain(p, key);
      if found.value.String? { TextIsFinal(p, found.value.s, stack + [key], depth); }
    }
  }

  lemma {:induction false} ReplacementIsFinal(p: Interpolator, token: Text, key: Text, stack: seq<Text>, depth: nat)
    requires PlainValues(p) && p.missing != Preserve && depth <= p.maxDepth
    ensures var r := Replacement(p, token, key, stack, depth); r.Ok? ==> IsFinal(r.value)
    decreases Room(p, depth), 0, 0
  {
    hide IsFinal, TextOf, Resolve, PlainValues;
    EmptyIsFinal();
    ResolvedIsFinal(p, key, stack, depth + 1);
  }

  lemma {:induction false} ExpandIsReady(p: Interpolator, s: Text, stack: seq<Text>, depth: nat)
    requires PlainValues(p) && p.missing != Preserve && depth <= p.maxDepth && IsReady(s)
    ensures var r := Expand(p, s, stack, depth);
            r.Ok? ==> IsReady(r.value) && (s != [] && s[0] != LCURLY ==> r.value != [] && r.value[0] == s[0])
    decreases Room(p, depth), 1, |s|
  {
    hide PlainValues, MatchHere, HasExpression;
    if s != [] && Expand(p, s, stack, depth).Ok? {
      var m := MatchHere(s);
      if m.Match? {
        MatchStarts(s);
        ReadyTail(s, m.length);
        ReplacementIsFinal(p, s[..m.length], m.key, stack, depth);
        ExpandIsReady(p, s[m.length..], stack, depth);
        ReadyConcat(Replacement(p, s[..m.length], m.key, stack, depth).value, Expand(p, s[m.length..], stack, depth).value);
      } else {
        ReadyTail(s, 1);
        ExpandIsReady(p, s[1..], stack, depth);
        ReadyCons(s, Expand(p, s[1..], stack, depth).value);
      }
    }
  }

  lemma OpeningHead(s: Text)
    ensures OPENING <= s <==> |s| >= 2 && s[0] == LCURLY && s[1] == LCURLY
  {
  }

  lemma MatchStarts(s: Text)
    requires MatchHere(s).Match?
    ensures |s| >= 2 && s[0] == LCURLY && s[1] == LCURLY
  {
    OpeningHead(s);
  }

  lemma ReadyCons(s: Text, t: Text)
    requires IsReady(s) && s != [] && IsReady(t)
    requires |s| > 1 && s[1] != LCURLY ==> t != [] && t[0] == s[1]
    ensures IsReady([s[0]] + t)
  {
    assert ReadyAt(s, 0);
    forall i | 0 <= i < |[s[0]] + t| ensures ReadyAt([s[0]] + t, i) {
      assert i > 0 ==> ReadyAt(t, i - 1);
    }
  }

  /** A replacement that reaches over its own expression would hold that expression. */
  lemma HoldsMatch(s: Text, r: Text, d: nat)
    requires MatchHere(s).Match? && d + MatchHere(s).length <= |r|
    requires r[d..d + MatchHere(s).length] == s[..MatchHere(s).length]
    ensures HasExpression(r)
  {
    assert r[d..][..MatchHere(s).length] == s[..MatchHere(s).length];
    MatchStays(s, r[d..]);
  }

  lemma ExpandStep(p: Interpolator, s: Text, stack: seq<Text>, depth: nat)
    requires depth <= p.maxDepth && s != [] && Expand(p, s, stack, depth).Ok?
    ensures var m, r := MatchHere(s), Expand(p, s, stack, depth).value;
            if m.Match? then
              var head, tail := Replacement(p, s[..m.length], m.key, stack, depth), Expand(p, s[m.length..], stack, depth);
              head.Ok? && tail.Ok? && r == head.value + tail.value
            else Expand(p, s[1..], stack, depth).Ok? && r == [s[0]] + Expand(p, s[1..], stack, depth).value
  {
    hide MatchHere, Replacement;
  }

  /**
   * A text that expands to itself holds no expression. Behind position a the output has fallen d units back;
   * an expression whose replacement catches up would contain it, one whose replacement does not leaves the
   * output behind to the end.
   */
  lemma {:induction false} FixedPoint(p: Interpolator, whole: Text, a: nat, d: nat, stack: seq<Text>, depth: nat)
    requires PlainValues(p) && p.missing != Preserve && depth <= p.maxDepth && d <= a <= |whole|
    requires Expand(p, whole[a..], stack, depth) == Ok(whole[a - d..])
    ensures d == 0
    ensures forall i | a <= i <= |whole| :: MatchHere(whole[i..]).NoMatch?
    decreases Room(p, depth), 1, |whole| - a
  {
    hide PlainValues, MatchHere, HasExpression, IsReady, Replacement, Expand;
    var s := whole[a..];
    if s == [] {
      EmptyHasNoMatch();
      NothingExpands(p, stack, depth);
    } else {
      ExpandStep(p, s, stack, depth);
      var m := MatchHere(s);
      if m.Match? {
        var r := Replacement(p, s[..m.length], m.key, stack, depth).value;
        var rest := Expand(p, s[m.length..], stack, depth).value;
        ReplacementIsFinal(p, s[..m.length], m.key, stack, depth);
        assert whole[a - d..] == r + rest;
        if |r| >= d + m.length {
          assert r[d..d + m.length] == whole[a - d..][d..d + m.length] == s[..m.length];
          HoldsMatch(s, r, d);
        } else {
          assert whole[a + m.length..] == s[m.length..];
          assert whole[a - d + |r|..] == whole[a - d..][|r|..] == rest;
          FixedPoint(p, whole, a + m.length, d + m.length - |r|, stack, depth);
        }
      } else {
        var rest := Expand(p, s[1..], stack, depth).value;
        assert whole[a + 1..] == s[1..];
        assert whole[a - d + 1..] == whole[a - d..][1..] == rest;
        FixedPoint(p, whole, a + 1, d, stack, depth);
      }
    }
  }

  lemma NothingExpands(p: Interpolator, stack: seq<Text>, depth: nat)
    requires depth <= p.maxDepth
    ensures Expand(p, [], stack, depth) == Ok([])
  {
  }

  lemma EmptyHasNoMatch()
    ensures MatchHere([]).NoMatch?
  {
  }

  /** Whatever text interpolation returns is ready and holds no expression. */
  lemma {:induction false} TextIsFinal(p: Interpolator, input: Text, stack: seq<Text>, depth: nat)
    requires PlainValues(p) && p.missing != Preserve && IsReady(input)
    ensures var r := InterpolateText(p, input, stack, depth); r.Ok? ==> IsFinal(TextOf(r.value))
    decreases Room(p, depth), 2, 0
  {
    if depth <= p.maxDepth && InterpolateText(p, input, stack, depth).Ok? {
      ReadyUnfolds(p, input, stack, depth);
      hide PlainValues, MatchHere, HasExpression, IsReady, Protect, Restore, Resolve, Expand, IsFinal, InterpolateText, ToJson;
      var exact := MatchExact(input);
      if exact.Match? {
        ResolvedIsFinal(p, exact.key, stack, depth + 1);
        EmptyIsFinal();
        var resolved := Resolve(p, exact.key, stack, depth + 1).value;
        if resolved.Found? { FinalIsUntouched(TextOf(resolved.value)); }
      } else {
        var output := Expand(p, input, stack, depth).value;
        if output == input {
          assert input[0..] == input;
          FixedPoint(p, input, 0, 0, stack, depth);
          UnmatchedIsFinal(input);
          FinalIsUntouched(input);
        } else {
          ExpandIsReady(p, input, stack, depth);
          ReadyIsUntouched(output);
          TextIsFinal(p, output, stack, depth + 1);
        }
      }
    }
  }

  /** How a ready text that is within the depth limit and does not fail is interpolated. */
  lemma ReadyUnfolds(p: Interpolator, input: Text, stack: seq<Text>, depth: nat)
    requires IsReady(input) && depth <= p.maxDepth && p.missing != Preserve
    requires InterpolateText(p, input, stack, depth).Ok?
    ensures var r, exact := InterpolateText(p, input, stack, depth).value, MatchExact(input);
            if exact.Match? then
              var resolved := Resolve(p, exact.key, stack, depth + 1);
              resolved.Ok? && r == (if resolved.value.Absent? then String([])
                                    else if resolved.value.value.String? then String(Restore(resolved.value.value.s))
                                    else resolved.value.value)
            else
              var output := Expand(p, input, stack, depth);
              output.Ok? && if output.value == input then r == String(Restore(input))
                            else InterpolateText(p, Restore(output.value), stack, depth + 1) == Ok(r)
  {
    ReadyIsUntouched(input);
    hide MatchHere, IsReady, Protect, Restore, Resolve, Expand;
  }

  lemma UnmatchedIsFinal(s: Text)
    requires IsReady(s) && forall i | 0 <= i <= |s| :: MatchHere(s[i..]).NoMatch?
    ensures IsFinal(s)
  {
  }

  lemma FinalIsUntouched(s: Text)
    requires IsFinal(s)
    ensures Restore(s) == s
  {
    ReadyIsUntouched(s);
  }

  // ---------------------------------------------------------------- interpolating again

  lemma NoExpressionTail(s: Text, k: nat)
    requires !HasExpression(s) && k <= |s|
    ensures !HasExpression(s[k..]) && MatchHere(s[k..]).NoMatch?
  {
    forall i | 0 <= i <= |s[k..]| ensures MatchHere(s[k..][i..]).NoMatch? {
      assert s[k..][i..] == s[k + i..];
    }
  }

  lemma {:induction false} NothingToExpand(p: Interpolator, s: Text, stack: seq<Text>, depth: nat)
    requires !HasExpression(s) && depth <= p.maxDepth
    ensures Expand(p, s, stack, depth) == Ok(s)
    decreases |s|
  {
    hide MatchHere, HasExpression;
    if s != [] {
      NoExpressionTail(s, 0);
      NoExpressionTail(s, 1);
      assert s[0..] == s == [s[0]] + s[1..];
      NothingToExpand(p, s[1..], stack, depth);
    }
  }

  /** A final text is returned as it is, by every interpolator. */
  lemma FinalIsFixed(p: Interpolator, s: Text, stack: seq<Text>, depth: nat)
    requires IsFinal(s) && depth <= p.maxDepth
    ensures InterpolateText(p, s, stack, depth) == Ok(String(s))
  {
    hide MatchHere, IsReady, HasExpression, Protect, Restore;
    ReadyIsUntouched(s);
    NoExpressionTail(s, WhiteRun(s));
    NothingToExpand(p, s, stack, depth);
  }

  /** A text that interpolation returned holds no expression, and interpolating it again changes nothing. */
  lemma InterpolateTextTwice(p: Interpolator, q: Interpolator, input: Text)
    requires PlainValues(p) && p.missing != Preserve && IsReady(input) && q.maxDepth >= 0
    ensures var r := InterpolateText(p, input, [], 0);
            r.Ok? && r.value.String? ==> !HasExpression(r.value.s) && InterpolateText(q, r.value.s, [], 0) == r
  {
    hide IsReady, HasExpression, InterpolateText, PlainValues;
    TextIsFinal(p, input, [], 0);
    var r := InterpolateText(p, input, [], 0);
    if r.Ok? && r.value.String? { FinalIsFixed(q, r.value.s, [], 0); }
  }

  // ---------------------------------------------------------------- values

  /** Values that a text shows without braces, backslashes or NUL. */
  ghost predicate ScalarValues(p: Interpolator) {
    (forall k | k in p.variables :: IsScalar(p.variables[k]) && (p.variables[k].String? ==> IsReady(p.variables[k].s)))
    && (forall k | k in p.secrets :: IsReady(p.secrets[k]))
  }

  lemma UnbracedIsFinal(s: Text)
    requires forall i | 0 <= i < |s| :: s[i] != 0 && s[i] != BACKSLASH && s[i] != LCURLY
    ensures IsFinal(s)
  {
    forall i | 0 <= i < |s| ensures ReadyAt(s, i) {}
    forall i | 0 <= i <= |s| ensures MatchHere(s[i..]).NoMatch? {
      if MatchHere(s[i..]).Match? { MatchStarts(s[i..]); }
    }
  }

  lemma ScalarIsPlain(v: Tree)
    requires IsScalar(v) && (v.String? ==> IsReady(v.s))
    ensures IsPlain(v)
  {
    if !v.String? { UnbracedIsFinal(ToJson(v)); }
  }

  lemma ScalarsArePlain(p: Interpolator)
    requires ScalarValues(p)
    ensures PlainValues(p)
  {
    forall k | k in p.variables ensures IsPlain(p.variables[k]) { ScalarIsPlain(p.variables[k]); }
  }

  /** Every text and key is ready. */
  predicate ReadyTree(v: Tree)
    decreases v
  {
    match v
    case String(s) => IsReady(s)
    case List(items) => forall i | 0 <= i < |items| :: ReadyTree(items[i])
    case Record(entries) => forall i | 0 <= i < |entries| :: IsReady(entries[i].key) && ReadyTree(entries[i].value)
    case _ => true
  }

  /** Every text and key is final, every key occurs once, and the nesting stays within the depth limit. */
  predicate Settled(p: Interpolator, v: Tree, depth: nat)
    decreases v
  {
    depth <= p.maxDepth &&
    match v
    case String(s) => IsFinal(s)
    case List(items) => forall i | 0 <= i < |items| :: Settled(p, items[i], depth + 1)
    case Record(entries) =>
      UniqueKeys(entries) && forall i | 0 <= i < |entries| :: SettledEntry(p, entries[i], depth + 1)
    case _ => true
  }

  predicate SettledEntryList(p: Interpolator, entries: seq<Entry>, depth: nat) {
    UniqueKeys(entries) && forall i | 0 <= i < |entries| :: SettledEntry(p, entries[i], depth)
  }

  predicate SettledEntry(p: Interpolator, e: Entry, depth: nat)
    decreases e
  {
    depth <= p.maxDepth && IsFinal(e.key) && Settled(p, e.value, depth)
  }

  /** With scalars to choose from, a text becomes a settled value. */
  lemma TextIsSettled(p: Interpolator, s: Text, depth: nat)
    requires ScalarValues(p) && p.missing != Preserve && IsReady(s)
    ensures var r := InterpolateText(p, s, [], depth); r.Ok? ==> IsScalar(r.value) && Settled(p, r.value, depth)
  {
    hide IsFinal, ScalarValues, InterpolateText, PlainValues, IsReady;
    ScalarsArePlain(p);
    TextIsFinal(p, s, [], depth);
    TextIsScalar(p, s, [], depth);
    TooDeepFails(p, s, [], depth);
  }

  lemma TooDeepFails(p: Interpolator, s: Text, stack: seq<Text>, depth: nat)
    ensures depth > p.maxDepth ==> InterpolateText(p, s, stack, depth).Failed?
  {
  }

  lemma {:induction false} TextIsScalar(p: Interpolator, s: Text, stack: seq<Text>, depth: nat)
    requires ScalarValues(p)
    ensures var r := InterpolateText(p, s, stack, depth); r.Ok? ==> IsScalar(r.value)
    decreases Room(p, depth), 0
  {
    hide IsReady, MatchHere, Protect, Restore;
    if depth <= p.maxDepth {
      var exact := MatchExact(Protect(s));
      if exact.Match? {
        ResolvedIsScalar(p, exact.key, stack, depth + 1);
      } else {
        var output := Expand(p, Protect(s), stack, depth);
        if output.Ok? { TextIsScalar(p, Restore(output.value), stack, depth + 1); }
      }
    }
  }

  lemma {:induction false} ResolvedIsScalar(p: Interpolator, key: Text, stack: seq<Text>, depth: nat)
    requires ScalarValues(p)
    ensures var r := Resolve(p, key, stack, depth); r.Ok? && r.value.Found? ==> IsScalar(r.value.value)
    decreases Room(p, depth), 1
  {
    var found := Lookup(p, key);
    if found.Found? && found.value.String? { TextIsScalar(p, found.value.s, stack + [key], depth); }
  }

  /** Whatever value interpolation returns is settled at every depth. */
  lemma {:induction false} ValueIsSettled(p: Interpolator, v: Tree, depth: nat)
    requires ScalarValues(p) && p.missing != Preserve && ReadyTree(v)
    ensures var r := InterpolateValue(p, v, depth); r.Ok? ==> Settled(p, r.value, depth)
    decreases v, 1
  {
    hide InterpolateText, ScalarValues, IsFinal, IsReady, UniqueKeys, SettledEntry;
    match v
    case String(s) => TextIsSettled(p, s, depth);
    case List(items) => ItemsAreSettled(p, v, |items|, depth);
    case Record(entries) => EntriesAreSettled(p, v, |entries|, depth);
    case _ =>
  }

  lemma {:induction false} ItemsAreSettled(p: Interpolator, v: Tree, n: nat, depth: nat)
    requires ScalarValues(p) && p.missing != Preserve && ReadyTree(v) && v.List? && n <= |v.items|
    ensures var r := InterpolateItems(p, v, n, depth);
            r.Ok? ==> |r.value| == n && forall i | 0 <= i < n :: Settled(p, r.value[i], depth + 1)
    decreases v, 0, n
  {
    hide ScalarValues, Settled;
    if n > 0 {
      ItemsAreSettled(p, v, n - 1, depth);
      ValueIsSettled(p, v.items[n - 1], depth + 1);
    }
  }

  lemma EntriesStep(p: Interpolator, v: Tree, n: nat, depth: nat)
    requires v.Record? && 0 < n <= |v.entries| && InterpolateEntries(p, v, n, depth).Ok?
    ensures InterpolateEntries(p, v, n - 1, depth).Ok?
    ensures var key, value := InterpolateText(p, v.entries[n - 1].key, [], depth + 1),
                              InterpolateValue(p, v.entries[n - 1].value, depth + 1);
            key.Ok? && key.value.String? && value.Ok? && InterpolateEntries(p, v, n, depth).value
              == Put(InterpolateEntries(p, v, n - 1, depth).value, key.value.s, value.value)
  {
    hide InterpolateText, InterpolateValue, Put;
  }

  lemma {:induction false} EntriesAreSettled(p: Interpolator, v: Tree, n: nat, depth: nat)
    requires ScalarValues(p) && p.missing != Preserve && ReadyTree(v) && v.Record? && n <= |v.entries|
    ensures var r := InterpolateEntries(p, v, n, depth);
            r.Ok? ==> SettledEntryList(p, r.value, depth + 1)
    decreases v, 0, n
  {
    assert SettledEntryList(p, [], depth + 1);
    NoEntries(p, v, depth);
    hide *;
    if n > 0 && InterpolateEntries(p, v, n, depth).Ok? {
      var e := v.entries[n - 1];
      EntriesStep(p, v, n, depth);
      EntriesAreSettled(p, v, n - 1, depth);
      ReadyEntry(v, n - 1);
      TextIsSettled(p, e.key, depth + 1);
      ValueIsSettled(p, e.value, depth + 1);
      var before := InterpolateEntries(p, v, n - 1, depth).value;
      var key := InterpolateText(p, e.key, [], depth + 1).value.s;
      var value := InterpolateValue(p, e.value, depth + 1).value;
      ScalarText(InterpolateText(p, e.key, [], depth + 1).value);
      NewEntryIsSettled(p, key, value, depth + 1);
      PutSettled(p, before, key, value, depth + 1);
    }
  }

  lemma ScalarText(v: Tree)
    ensures v.String? ==> v == String(v.s)
  {
  }

  lemma ReadyEntry(v: Tree, i: nat)
    requires v.Record? && ReadyTree(v) && i < |v.entries|
    ensures IsReady(v.entries[i].key) && ReadyTree(v.entries[i].value)
  {
  }

  lemma NewEntryIsSettled(p: Interpolator, key: Text, value: Tree, depth: nat)
    requires Settled(p, String(key), depth) && Settled(p, value, depth)
    ensures SettledEntry(p, Entry(key, value), depth)
  {
  }

  lemma PutSettled(p: Interpolator, entries: seq<Entry>, key: Text, value: Tree, depth: nat)
    requires SettledEntryList(p, entries, depth) && SettledEntry(p, Entry(key, value), depth)
    ensures SettledEntryList(p, Put(entries, key, value), depth)
  {
    hide SettledEntry, UniqueKeys, Put;
    PutKeepsUnique(entries, key, value);
    var r := Put(entries, key, value);
    forall i | 0 <= i < |r| ensures SettledEntry(p, r[i], depth) {
      assert r[i] in r;
    }
  }

  /** A settled value is returned as it is. */
  lemma {:induction false} SettledIsFixed(p: Interpolator, v: Tree, depth: nat)
    requires Settled(p, v, depth)
    ensures InterpolateValue(p, v, depth) == Ok(v)
    decreases v, 1
  {
    hide InterpolateText, IsFinal, UniqueKeys;
    match v
    case String(s) => FinalIsFixed(p, s, [], depth);
    case List(items) =>
      SettledItems(p, v, |items|, depth);
      assert items[..|items|] == items;
    case Record(entries) =>
      SettledEntries(p, v, |entries|, depth);
      assert entries[..|entries|] == entries;
      FromEntriesIdentity(entries);
    case _ =>
  }

  lemma {:induction false} SettledItems(p: Interpolator, v: Tree, n: nat, depth: nat)
    requires Settled(p, v, depth) && v.List? && n <= |v.items|
    ensures InterpolateItems(p, v, n, depth) == Ok(v.items[..n])
    decreases v, 0, n
  {
    if n > 0 {
      SettledItems(p, v, n - 1, depth);
      SettledIsFixed(p, v.items[n - 1], depth + 1);
      assert v.items[..n] == v.items[..n - 1] + [v.items[n - 1]];
    }
  }

  lemma PutNext(entries: seq<Entry>, i: nat)
    requires UniqueKeys(entries) && i < |entries|
    ensures Put(entries[..i], entries[i].key, entries[i].value) == entries[..i + 1]
  {
    PutNew(entries[..i], entries[i].key, entries[i].value);
    assert entries[..i + 1] == entries[..i] + [entries[i]];
  }

  lemma {:induction false} SettledEntries(p: Interpolator, v: Tree, n: nat, depth: nat)
    requires Settled(p, v, depth) && v.Record? && n <= |v.entries|
    ensures InterpolateEntries(p, v, n, depth) == Ok(v.entries[..n])
    decreases v, 0, n
  {
    if n > 0 {
      var e := v.entries[n - 1];
      SettledEntries(p, v, n - 1, depth);
      assert SettledEntry(p, e, depth + 1) && UniqueKeys(v.entries);
      hide InterpolateText, IsFinal, Settled, Put;
      FinalIsFixed(p, e.key, [], depth + 1);
      SettledIsFixed(p, e.value, depth + 1);
      PutNext(v.entries, n - 1);
    }
  }

  /** With scalar values, interpolating an interpolated value again changes nothing. */
  lemma InterpolateValueTwice(p: Interpolator, v: Tree)
    requires ScalarValues(p) && p.missing != Preserve && ReadyTree(v)
    ensures var r := InterpolateValue(p, v, 0); r.Ok? ==> Settled(p, r.value, 0) && InterpolateValue(p, r.value, 0) == r
  {
    hide InterpolateValue, Settled, ScalarValues;
    ValueIsSettled(p, v, 0);
    if InterpolateValue(p, v, 0).Ok? { SettledIsFixed(p, InterpolateValue(p, v, 0).value, 0); }
  }

  // ---------------------------------------------------------------- escaped openings

  /** Writes a backslash before every opening. */
  function EscapeOpenings(s: Text): Text { ReplaceAll(s, OPENING, ESCAPED) }

  function Guarded(s: Text): Text { ReplaceAll(s, OPENING, SENTINEL) }

  lemma EscapedHead(s: Text)
    ensures ESCAPED <= s ==> |s| >= 2 && s[0] == BACKSLASH && s[1] == LCURLY
  {
    assert ESCAPED[0] == BACKSLASH && ESCAPED[1] == LCURLY;
  }

  lemma {:induction false} ProtectEscaped(s: Text)
    requires IsReady(s)
    ensures Protect(EscapeOpenings(s)) == Guarded(s)
    decreases |s|
  {
    OpeningHead(s);
    var e := EscapeOpenings(s);
    if s != [] {
      if OPENING <= s {
        ReadyTail(s, 2);
        ProtectEscaped(s[2..]);
        assert e[|ESCAPED|..] == EscapeOpenings(s[2..]);
      } else {
        ReadyTail(s, 1);
        assert ReadyAt(s, 0);
        ProtectEscaped(s[1..]);
        assert e[1..] == EscapeOpenings(s[1..]);
        if |s| > 1 { OpeningHead(s[1..]); }
        EscapedHead(e);
      }
    }
  }

  lemma {:induction false} RestoreGuarded(s: Text)
    requires IsReady(s)
    ensures Restore(Guarded(s)) == s
    decreases |s|
  {
    OpeningHead(s);
    var g := Guarded(s);
    if s != [] {
      if OPENING <= s {
        ReadyTail(s, 2);
        RestoreGuarded(s[2..]);
        assert g[|SENTINEL|..] == Guarded(s[2..]);
      } else {
        ReadyTail(s, 1);
        RestoreGuarded(s[1..]);
        assert g[1..] == Guarded(s[1..]);
        assert ReadyAt(s, 0);
        assert SENTINEL[0] == 0;
      }
    }
  }

  lemma {:induction false} GuardedHoldsNone(s: Text)
    ensures !HasExpression(Guarded(s))
    decreases |s|
  {
    hide MatchHere;
    var g := Guarded(s);
    OpeningHead(s);
    if s == [] {
      EmptyHasNoMatch();
    } else {
      var head, n := if OPENING <= s then SENTINEL else [s[0]], if OPENING <= s then 2 else 1;
      GuardedHoldsNone(s[n..]);
      assert g == head + Guarded(s[n..]);
      forall i | 0 <= i <= |g| ensures MatchHere(g[i..]).NoMatch? {
        if i >= |head| {
          NoExpressionTail(Guarded(s[n..]), i - |head|);
          assert g[i..] == Guarded(s[n..])[i - |head|..];
        } else {
          if |s| > n { OpeningHead(s[n..]); }
          assert i + 1 < |g| ==> g[i..][0] == g[i] && g[i..][1] == g[i + 1] && !(g[i] == LCURLY && g[i + 1] == LCURLY);
          if MatchHere(g[i..]).Match? { MatchStarts(g[i..]); }
        }
      }
    }
  }

  /** A text whose openings are escaped comes back as it was, whatever the values are. */
  lemma EscapedTextComesBack(p: Interpolator, s: Text)
    requires IsReady(s) && p.maxDepth >= 0
    ensures InterpolateText(p, EscapeOpenings(s), [], 0) == Ok(String(s))
  {
    hide MatchHere, IsReady, HasExpression, Protect, Restore, EscapeOpenings, Guarded;
    ProtectEscaped(s);
    RestoreGuarded(s);
    GuardedHoldsNone(s);
    NoExpressionTail(Guarded(s), WhiteRun(Guarded(s)));
    NothingToExpand(p, Guarded(s), [], 0);
  }
}
