/** SecretRedactor: no secret survives in the text it returns. */
module Redaction {
  import opened CodeUnits
  import opened JsonTree
  import opened Replacing

  const MARKER: Text := Ascii("[REDACTED]")
  const WORD: Text := Ascii("REDACTED")

  // ---------------------------------------------------------------- the list of secrets

  /** Drops the empty texts and every text seen before. */
  function Distinct(values: seq<Text>): (r: seq<Text>)
    ensures forall s :: s in r <==> s in values && s != []
  {
    if values == [] then []
    else
      var init, last := values[..|values| - 1], values[|values| - 1];
      assert values == init + [last];
      if last == [] || last in init then Distinct(init) else Distinct(init) + [last]
  }

  /** A stable insertion by falling length. */
  function InsertByLength(s: Text, sorted: seq<Text>): (r: seq<Text>)
    ensures forall x :: x in r <==> x == s || x in sorted
  {
    if sorted == [] then [s]
    else
      var init, last := sorted[..|sorted| - 1], sorted[|sorted| - 1];
      assert sorted == init + [last];
      if |last| >= |s| then sorted + [s] else InsertByLength(s, init) + [last]
  }

  function SortByLength(values: seq<Text>): (r: seq<Text>)
    ensures forall x :: x in r <==> x in values
  {
    if values == [] then []
    else
      assert values == values[..|values| - 1] + [values[|values| - 1]];
      InsertByLength(values[|values| - 1], SortByLength(values[..|values| - 1]))
  }

  /** The constructor: the distinct non-empty values, longest first. */
  function Secrets(values: seq<Text>): (r: seq<Text>)
    ensures forall s :: s in r <==> s in values && s != []
  {
    SortByLength(Distinct(values))
  }

  predicate LongestFirst(secrets: seq<Text>) {
    forall i, j | 0 <= i < j < |secrets| :: |secrets[i]| >= |secrets[j]|
  }

  predicate AllDistinct(secrets: seq<Text>) {
    forall i, j | 0 <= i < j < |secrets| :: secrets[i] != secrets[j]
  }

  lemma {:induction false} DistinctIsDistinct(values: seq<Text>)
    ensures AllDistinct(Distinct(values))
  {
    if values != [] { DistinctIsDistinct(values[..|values| - 1]); }
  }

  lemma AppendSorts(r: seq<Text>, last: Text)
    requires LongestFirst(r) && AllDistinct(r) && forall i | 0 <= i < |r| :: |r[i]| >= |last| && r[i] != last
    ensures LongestFirst(r + [last]) && AllDistinct(r + [last])
  {
  }

  lemma {:induction false} InsertSorts(s: Text, sorted: seq<Text>)
    requires LongestFirst(sorted) && AllDistinct(sorted) && s !in sorted
    ensures LongestFirst(InsertByLength(s, sorted)) && AllDistinct(InsertByLength(s, sorted))
  {
    if sorted != [] {
      var init, last := sorted[..|sorted| - 1], sorted[|sorted| - 1];
      if |last| >= |s| {
        AppendSorts(sorted, s);
      } else {
        InsertSorts(s, init);
        var r := InsertByLength(s, init);
        forall i | 0 <= i < |r| ensures |r[i]| >= |last| && r[i] != last { assert r[i] in r; }
        AppendSorts(r, last);
      }
    }
  }

  lemma {:induction false} SortSorts(values: seq<Text>)
    requires AllDistinct(values)
    ensures LongestFirst(SortByLength(values)) && AllDistinct(SortByLength(values))
  {
    if values != [] {
      var init, last := values[..|values| - 1], values[|values| - 1];
      SortSorts(init);
      assert last !in init;
      InsertSorts(last, SortByLength(init));
    }
  }

  lemma SecretsAreOrdered(values: seq<Text>)
    ensures LongestFirst(Secrets(values)) && AllDistinct(Secrets(values)) && NoneEmpty(Secrets(values))
  {
    DistinctIsDistinct(values);
    SortSorts(Distinct(values));
    var r := Secrets(values);
    forall i | 0 <= i < |r| ensures r[i] != [] { assert r[i] in r; }
  }

  // ---------------------------------------------------------------- redaction

  predicate NoneEmpty(secrets: seq<Text>) {
    forall i | 0 <= i < |secrets| :: secrets[i] != []
  }

  /** redact: the secrets are replaced one after the other, each in the text that the earlier ones left. */
  function Redact(secrets: seq<Text>, t: Text): Text
    requires NoneEmpty(secrets)
  {
    if secrets == [] then t
    else ReplaceAll(Redact(secrets[..|secrets| - 1], t), secrets[|secrets| - 1], MARKER)
  }

  function RedactValue(secrets: seq<Text>, v: Tree): Tree
    requires NoneEmpty(secrets)
    decreases v, 1
  {
    match v
    case String(s) => String(Redact(secrets, s))
    case List(items) => List(RedactItems(secrets, v, |items|))
    case Record(entries) => Record(FromEntries(RedactEntries(secrets, v, |entries|)))
    case _ => v
  }

  function RedactItems(secrets: seq<Text>, v: Tree, n: nat): (r: seq<Tree>)
    requires NoneEmpty(secrets) && v.List? && n <= |v.items|
    ensures |r| == n && forall i | 0 <= i < n :: r[i] == RedactValue(secrets, v.items[i])
    decreases v, 0, n
  {
    if n == 0 then [] else RedactItems(secrets, v, n - 1) + [RedactValue(secrets, v.items[n - 1])]
  }

  function RedactEntries(secrets: seq<Text>, v: Tree, n: nat): (r: seq<Entry>)
    requires NoneEmpty(secrets) && v.Record? && n <= |v.entries|
    ensures |r| == n
    ensures forall i | 0 <= i < n ::
      r[i] == Entry(Redact(secrets, v.entries[i].key), RedactValue(secrets, v.entries[i].value))
    decreases v, 0, n
  {
    if n == 0 then []
    else
      RedactEntries(secrets, v, n - 1)
      + [Entry(Redact(secrets, v.entries[n - 1].key), RedactValue(secrets, v.entries[n - 1].value))]
  }

  // ---------------------------------------------------------------- the imperative form

  class SecretRedactor {
    const secrets: seq<Text>

    constructor (values: seq<Text>)
      ensures secrets == Secrets(values)
    {
      secrets := Secrets(values);
    }

    method RedactText(value: Text) returns (redacted: Text)
      requires NoneEmpty(secrets)
      ensures redacted == Redact(secrets, value)
    {
      redacted := value;
      for i := 0 to |secrets|
        invariant redacted == Redact(secrets[..i], value)
      {
        assert secrets[..i + 1][..i] == secrets[..i];
        redacted := ReplaceAll(redacted, secrets[i], MARKER);
      }
      assert secrets[..|secrets|] == secrets;
    }
  }

  // ---------------------------------------------------------------- secrets and the marker

  /** A non-empty end of a is a beginning of b. */
  predicate Overlaps(a: Text, b: Text) {
    exists k | 0 <= k < |a| :: a[k..] <= b
  }

  /** Neither text holds the other, and neither can go on where the other ends. */
  predicate IsApart(s: Text) {
    s != [] && !Contains(MARKER, s) && !Contains(s, MARKER) && !Overlaps(MARKER, s) && !Overlaps(s, MARKER)
  }

  predicate BracketFree(s: Text) {
    forall i | 0 <= i < |s| :: s[i] != LSQUARE && s[i] != RSQUARE
  }

  lemma MarkerShape()
    ensures MARKER == [LSQUARE] + WORD + [RSQUARE]
  {
  }

  /** A bracket-free text inside a bracketed word is a part of that word. */
  lemma PartOfBrackets(word: Text, u: Text, i: nat)
    requires u != [] && BracketFree(u) && i < |word| + 2 && u <= ([LSQUARE] + word + [RSQUARE])[i..]
    ensures Contains(word, u)
  {
    var out := [LSQUARE] + word + [RSQUARE];
    assert out[0] == LSQUARE && out[|word| + 1] == RSQUARE;
    assert u[0] == out[i..][0] == out[i];
    var m := if |word| + 1 - i < |u| then |word| + 1 - i else 0;
    assert u[m] == out[i..][m] == out[i + m];
    assert 1 <= i && i + |u| <= |word| + 1;
    assert u == out[i..i + |u|] == word[i - 1..][..|u|];
    ContainsAt(word, u, i - 1);
  }

  /** In particular a secret without brackets is apart, unless it is a part of the word REDACTED. */
  lemma BracketFreeIsApart(s: Text)
    requires s != [] && BracketFree(s) && !Contains(WORD, s)
    ensures IsApart(s)
  {
    MarkerShape();
    assert MARKER[0] == LSQUARE && MARKER[|MARKER| - 1] == RSQUARE;
    forall i | 0 <= i <= |MARKER| ensures !(s <= MARKER[i..]) {
      if i < |MARKER| && s <= MARKER[i..] { PartOfBrackets(WORD, s, i); }
    }
    forall i | 0 <= i <= |s| ensures !(MARKER <= s[i..]) { assert i < |s| ==> s[i..][0] == s[i]; }
    forall k | 0 <= k < |MARKER| ensures !(MARKER[k..] <= s) { EndsInBracket(k); }
    forall k | 0 <= k < |s| ensures !(s[k..] <= MARKER) { assert s[k..][0] == s[k]; }
  }

  lemma EndsInBracket(k: nat)
    requires k < |MARKER|
    ensures MARKER[k..][|MARKER[k..]| - 1] == RSQUARE
  {
    MarkerShape();
  }

  // ---------------------------------------------------------------- no secret survives

  /** What begins inside a marker is a part of it or goes on where it ends. */
  lemma BeginsInMarker(u: Text, rest: Text, i: nat)
    requires u != [] && i < |MARKER| && u <= (MARKER + rest)[i..]
    ensures Contains(MARKER, u) || Overlaps(MARKER, u)
  {
    var tail := MARKER[i..];
    assert (MARKER + rest)[i..] == tail + rest;
    if |u| <= |tail| {
      assert u == (tail + rest)[..|u|] == tail[..|u|];
      ContainsAt(MARKER, u, i);
    } else {
      assert tail == (tail + rest)[..|tail|] == u[..|tail|];
    }
  }

  lemma OneInTheOther(u: Text, m: Text, rest: Text)
    requires u <= m + rest
    ensures u <= m || m <= u
  {
    assert if |u| <= |m| then u == (m + rest)[..|u|] == m[..|u|] else m == (m + rest)[..|m|] == u[..|m|];
  }

  /** A text at the start of a replacement was there before, unless a marker continues it. */
  lemma {:induction false} PrefixWasThere(t: Text, s: Text, u: Text)
    requires s != [] && !Contains(u, MARKER) && !Overlaps(u, MARKER) && u <= ReplaceAll(t, s, MARKER)
    ensures u <= t
    decreases |t|
  {
    if u != [] {
      var out := ReplaceAll(t, s, MARKER);
      assert u[0..] == u;
      if s <= t {
        OneInTheOther(u, MARKER, ReplaceAll(t[|s|..], s, MARKER));
      } else {
        var rest := ReplaceAll(t[1..], s, MARKER);
        assert u[0] == out[0];
        assert rest[..|u| - 1] == out[1..][..|u| - 1] == u[1..];
        if Contains(u[1..], MARKER) { ContainsTail(u, MARKER, 1); }
        forall k | 0 <= k < |u[1..]| ensures !(u[1..][k..] <= MARKER) { assert u[1..][k..] == u[k + 1..]; }
        PrefixWasThere(t[1..], s, u[1..]);
        assert t == [t[0]] + t[1..] && u == [u[0]] + u[1..];
      }
    }
  }

  /** A text that is apart and begins in the first piece of the result was at the start before. */
  lemma BeginsInFirst(t: Text, s: Text, u: Text, i: nat)
    requires s != [] && t != [] && IsApart(u) && i < (if s <= t then |MARKER| else 1)
    requires i <= |ReplaceAll(t, s, MARKER)| && u <= ReplaceAll(t, s, MARKER)[i..]
    ensures !(s <= t) && u <= t
  {
    if s <= t {
      BeginsInMarker(u, ReplaceAll(t[|s|..], s, MARKER), i);
    } else {
      assert ReplaceAll(t, s, MARKER)[0..] == ReplaceAll(t, s, MARKER);
      PrefixWasThere(t, s, u);
    }
  }

  /** Replacing one secret creates no text that is apart, and leaves no occurrence of the secret itself if it is apart. */
  lemma {:induction false} ReplacingIsClean(t: Text, s: Text, u: Text)
    requires s != [] && IsApart(u) && Contains(ReplaceAll(t, s, MARKER), u)
    ensures Contains(t, u) && u != s
    decreases |t|
  {
    assert u != [];
    var out := ReplaceAll(t, s, MARKER);
    var i :| 0 <= i <= |out| && u <= out[i..];
    if t != [] {
      var n, head := if s <= t then |s| else 1, if s <= t then MARKER else [t[0]];
      var rest := ReplaceAll(t[n..], s, MARKER);
      assert out == head + rest;
      hide IsApart, ReplaceAll, Contains, Ascii;
      if i >= |head| {
        ContainsBehind(head, rest, u, i);
        ReplacingIsClean(t[n..], s, u);
        ContainsTail(t, u, n);
      } else {
        BeginsInFirst(t, s, u, i);
        ContainsAt(t, u, 0);
      }
    }
  }

  lemma ContainsBehind(head: Text, rest: Text, u: Text, i: nat)
    requires |head| <= i <= |head + rest| && u <= (head + rest)[i..]
    ensures Contains(rest, u)
  {
    assert (head + rest)[i..] == rest[i - |head|..];
    ContainsAt(rest, u, i - |head|);
  }

  /** No text holds any secret. */
  predicate Clean(secrets: seq<Text>, t: Text) {
    forall i | 0 <= i < |secrets| :: !Contains(t, secrets[i])
  }

  /** No later replacement brings back an earlier secret that is apart. */
  lemma {:induction false} ApartIsGone(secrets: seq<Text>, j: nat, t: Text)
    requires NoneEmpty(secrets) && j < |secrets| && IsApart(secrets[j])
    ensures !Contains(Redact(secrets, t), secrets[j])
  {
    var init, last := secrets[..|secrets| - 1], secrets[|secrets| - 1];
    hide IsApart, Contains, ReplaceAll;
    if Contains(Redact(secrets, t), secrets[j]) {
      ReplacingIsClean(Redact(init, t), last, secrets[j]);
      if j < |init| {
        assert init[j] == secrets[j];
        ApartIsGone(init, j, t);
      }
    }
  }

  /** Every secret is apart from the marker, or holds another secret that is. */
  predicate AllCovered(secrets: seq<Text>) {
    NoneEmpty(secrets) && forall i | 0 <= i < |secrets| :: Covered(secrets, secrets[i])
  }

  predicate Covered(secrets: seq<Text>, s: Text) {
    exists j | 0 <= j < |secrets| :: IsApart(secrets[j]) && Contains(s, secrets[j])
  }

  lemma RedactIsClean(secrets: seq<Text>, t: Text)
    requires AllCovered(secrets)
    ensures Clean(secrets, Redact(secrets, t))
  {
    hide IsApart, Redact, Contains;
    forall i | 0 <= i < |secrets| ensures !Contains(Redact(secrets, t), secrets[i]) {
      assert Covered(secrets, secrets[i]);
      var j :| 0 <= j < |secrets| && IsApart(secrets[j]) && Contains(secrets[i], secrets[j]);
      ApartIsGone(secrets, j, t);
      if Contains(Redact(secrets, t), secrets[i]) { ContainsTransitive(Redact(secrets, t), secrets[i], secrets[j]); }
    }
  }

  lemma {:induction false} CleanIsUntouched(secrets: seq<Text>, t: Text)
    requires NoneEmpty(secrets) && Clean(secrets, t)
    ensures Redact(secrets, t) == t
  {
    if secrets != [] {
      CleanIsUntouched(secrets[..|secrets| - 1], t);
      ReplaceNothing(t, secrets[|secrets| - 1], MARKER);
    }
  }

  /** Every string leaf and every key is clean. */
  predicate CleanTree(secrets: seq<Text>, v: Tree)
    decreases v
  {
    match v
    case String(s) => Clean(secrets, s)
    case List(items) => forall i | 0 <= i < |items| :: CleanTree(secrets, items[i])
    case Record(entries) =>
      UniqueKeys(entries) && forall i | 0 <= i < |entries| :: Clean(secrets, entries[i].key) && CleanTree(secrets, entries[i].value)
    case _ => true
  }

  /** After redaction no key and no string at any depth contains any secret. */
  lemma {:induction false} RedactValueIsClean(secrets: seq<Text>, v: Tree)
    requires AllCovered(secrets)
    ensures CleanTree(secrets, RedactValue(secrets, v))
    decreases v
  {
    assert NoneEmpty(secrets);
    hide Redact, Clean, FromEntries, AllCovered, NoneEmpty;
    match v
    case String(s) => RedactIsClean(secrets, s);
    case List(items) =>
      forall i | 0 <= i < |items| ensures CleanTree(secrets, RedactValue(secrets, items[i])) {
        RedactValueIsClean(secrets, items[i]);
      }
    case Record(entries) =>
      var redacted := RedactEntries(secrets, v, |entries|);
      forall i | 0 <= i < |entries| ensures Clean(secrets, redacted[i].key) && CleanTree(secrets, redacted[i].value) {
        RedactIsClean(secrets, entries[i].key);
        RedactValueIsClean(secrets, entries[i].value);
      }
      FromEntriesUnique(redacted);
      forall e | e in FromEntries(redacted) ensures Clean(secrets, e.key) && CleanTree(secrets, e.value) {
        assert e in redacted;
      }
    case _ =>
  }

  /** A clean value is left alone. */
  lemma {:induction false} CleanTreeIsUntouched(secrets: seq<Text>, v: Tree)
    requires NoneEmpty(secrets) && CleanTree(secrets, v)
    ensures RedactValue(secrets, v) == v
    decreases v
  {
    hide Redact, Clean, FromEntries;
    match v
    case String(s) => CleanIsUntouched(secrets, s);
    case List(items) =>
      forall i | 0 <= i < |items| ensures RedactValue(secrets, items[i]) == items[i] {
        CleanTreeIsUntouched(secrets, items[i]);
      }
      assert RedactItems(secrets, v, |items|) == items;
    case Record(entries) =>
      forall i | 0 <= i < |entries|
        ensures Redact(secrets, entries[i].key) == entries[i].key && RedactValue(secrets, entries[i].value) == entries[i].value
      {
        CleanIsUntouched(secrets, entries[i].key);
        CleanTreeIsUntouched(secrets, entries[i].value);
      }
      assert RedactEntries(secrets, v, |entries|) == entries;
      FromEntriesIdentity(entries);
    case _ =>
  }

  /** Redacting a redacted value changes nothing. */
  lemma RedactTwice(secrets: seq<Text>, v: Tree)
    requires AllCovered(secrets)
    ensures RedactValue(secrets, RedactValue(secrets, v)) == RedactValue(secrets, v)
  {
    RedactValueIsClean(secrets, v);
    CleanTreeIsUntouched(secrets, RedactValue(secrets, v));
  }

  // ---------------------------------------------------------------- exactly when redaction works

  /** A head in which no match begins stays as it is. */
  lemma {:induction false} HeadStays(head: Text, rest: Text, s: Text, r: Text)
    requires s != [] && forall k | 0 <= k < |head| :: !(s <= (head + rest)[k..])
    ensures ReplaceAll(head + rest, s, r) == head + ReplaceAll(rest, s, r)
  {
    var t := head + rest;
    if head == [] {
      assert t == rest;
    } else {
      assert t[0..] == t && t[1..] == head[1..] + rest;
      forall k | 0 <= k < |head[1..]| ensures !(s <= (head[1..] + rest)[k..]) {
        assert (head[1..] + rest)[k..] == t[k + 1..];
      }
      HeadStays(head[1..], rest, s, r);
    }
  }

  /**
   * The marker and the secret do not hold each other, the secret does not go on where a marker ends, and where it ends in a
   * beginning of the marker, it begins with that beginning too.
   */
  predicate NeverReturns(s: Text) {
    && !Contains(MARKER, s) && !Contains(s, MARKER) && !Overlaps(MARKER, s)
    && forall k | 0 <= k < |s| && s[k..] <= MARKER :: s[k..] <= s
  }

  lemma {:induction false} FirstMatch(t: Text, s: Text) returns (n: nat)
    requires Contains(t, s)
    ensures n <= |t| && s <= t[n..] && forall k | 0 <= k < n :: !(s <= t[k..])
    decreases |t|
  {
    assert t[0..] == t;
    if s <= t {
      n := 0;
    } else {
      var i :| 0 <= i <= |t| && s <= t[i..];
      assert t[1..][i - 1..] == t[i..];
      ContainsAt(t[1..], s, i - 1);
      var m := FirstMatch(t[1..], s);
      n := m + 1;
      assert t[1..][n - 1..] == t[n..];
      forall k | 0 <= k < n ensures !(s <= t[k..]) { if k > 0 { assert t[1..][k - 1..] == t[k..]; } }
    }
  }

  /** A secret that begins before the first match of the text ends neither in the marker nor behind it. */
  lemma BeginsBeforeMarker(t: Text, s: Text, n: nat, i: nat, rest: Text)
    requires s != [] && NeverReturns(s) && i < n <= |t| && s <= t[n..]
    requires s <= t[i..n] + MARKER + rest
    ensures s <= t[i..]
  {
    var a, out := t[i..n], t[i..n] + MARKER + rest;
    assert t[i..] == a + t[n..];
    if |s| <= |a| {
      assert s == out[..|s|] == a[..|s|] == (a + t[n..])[..|s|];
    } else {
      var k := |a|;
      assert s[..k] == out[..|s|][..k] == a;
      assert s[k..] == out[..|s|][k..] == (MARKER + rest)[..|s| - k];
      OneInTheOther(s[k..], MARKER, rest);
      assert s[k..] <= s <= t[n..];
      assert s == a + s[k..];
    }
  }

  lemma {:induction false} SecretIsGone(t: Text, s: Text)
    requires s != [] && NeverReturns(s)
    ensures !Contains(ReplaceAll(t, s, MARKER), s)
    decreases |t|
  {
    if !Contains(t, s) {
      ReplaceNothing(t, s, MARKER);
    } else {
      var n := FirstMatch(t, s);
      var head, tail := t[..n], t[n + |s|..];
      assert t == head + t[n..] && t[n..][|s|..] == tail;
      HeadStays(head, t[n..], s, MARKER);
      var rest, out := ReplaceAll(tail, s, MARKER), ReplaceAll(t, s, MARKER);
      assert out == head + MARKER + rest;
      SecretIsGone(tail, s);
      hide ReplaceAll, NeverReturns, Contains;
      forall i | 0 <= i <= |out| ensures !(s <= out[i..]) { NotHere(t, s, n, i, rest); }
      NowhereThere(out, s);
    }
  }

  lemma NowhereThere(t: Text, s: Text)
    requires forall i | 0 <= i <= |t| :: !(s <= t[i..])
    ensures !Contains(t, s)
  {
  }

  /** Behind the first match the secret is not there any more, wherever one looks. */
  lemma NotHere(t: Text, s: Text, n: nat, i: nat, rest: Text)
    requires s != [] && NeverReturns(s) && n <= |t| && s <= t[n..] && forall k | 0 <= k < n :: !(s <= t[k..])
    requires !Contains(rest, s) && i <= |t[..n] + MARKER + rest|
    ensures !(s <= (t[..n] + MARKER + rest)[i..])
  {
    var out := t[..n] + MARKER + rest;
    if i >= n + |MARKER| {
      assert out[i..] == rest[i - n - |MARKER|..];
    } else if i >= n {
      assert out[i..] == (MARKER + rest)[i - n..];
      if s <= out[i..] { BeginsInMarker(s, rest, i - n); }
    } else {
      assert out[i..] == t[i..n] + MARKER + rest;
      if s <= out[i..] { BeginsBeforeMarker(t, s, n, i, rest); }
    }
  }

  /** A text that occurs again inside its own beginning repeats itself. */
  lemma {:induction false} Repeats(s: Text, k: nat, j: nat, i: nat)
    requires j < k <= |s| && s <= (s[..k] + s)[j..] && j + i < |s|
    ensures s[j + i] == s[i]
    decreases i
  {
    var whole := s[..k] + s;
    assert s[i] == whole[j..][i] == whole[j + i];
    if j + i >= k {
      var p := k - j;
      assert s[i] == s[i - p];
      assert s[j + i] == whole[j..][j + i] == whole[j + j + i];
      Repeats(s, k, j, i - p);
      assert s[j + i] == s[j + i - p];
    }
  }

  /** If the secret matches too early behind its own beginning, then it begins with its own end. */
  lemma EarlyMatch(s: Text, k: nat, j: nat)
    requires j < k <= |s| && s <= (s[..k] + s)[j..]
    ensures s[k..] <= s
  {
    var whole, p := s[..k] + s, k - j;
    forall i | 0 <= i < |s| - k ensures s[k..][i] == s[i] {
      assert s[k + i] == whole[j..][k + i] == whole[j + k + i] == s[j + i];
      Repeats(s, k, j, i);
    }
  }

  lemma GoesOn(m: Text, s: Text, k: nat)
    requires k < |m| && m[k..] <= s
    ensures (m + s[|m| - k..])[k..] == s
  {
    assert (m + s[|m| - k..])[k..] == m[k..] + s[|m| - k..];
  }

  lemma ReturnsBehindMarker(s: Text, k: nat) returns (t: Text)
    requires s != [] && k < |MARKER| && MARKER[k..] <= s
    ensures Contains(ReplaceAll(t, s, MARKER), s)
  {
    var end := s[|MARKER| - k..];
    GoesOn(MARKER, s, k);
    t := s + end;
    MatchAtStart(s, end);
    hide ReplaceAll;
    ContainsAt(MARKER + end, s, k);
  }

  /** One match at the start, and too little behind it for another. */
  lemma MatchAtStart(s: Text, end: Text)
    requires |end| < |s|
    ensures ReplaceAll(s + end, s, MARKER) == MARKER + end
  {
    assert (s + end)[|s|..] == end;
    if Contains(end, s) { ContainsIsShorter(end, s); }
    ReplaceNothing(end, s, MARKER);
  }

  lemma MatchesAtLast(s: Text, k: nat, end: Text)
    requires k < |s| && !(s[k..] <= s)
    ensures forall j | 0 <= j < k :: !(s <= (s[..k] + (s + end))[j..])
  {
    var t := s[..k] + (s + end);
    forall j | 0 <= j < k ensures !(s <= t[j..]) {
      if s <= t[j..] {
        assert t[j..][..|s|] == (s[..k] + s)[j..][..|s|];
        EarlyMatch(s, k, j);
      }
    }
  }

  lemma ReturnsBeforeMarker(s: Text, k: nat, end: Text) returns (t: Text)
    requires k < |s| && s[k..] <= MARKER + end && !(s[k..] <= s) && |end| < |s|
    ensures Contains(ReplaceAll(t, s, MARKER), s)
  {
    hide Ascii, ReplaceAll, Contains;
    var head := s[..k];
    t := head + (s + end);
    MatchesAtLast(s, k, end);
    HeadStays(head, s + end, s, MARKER);
    MatchAtStart(s, end);
    var out := head + (MARKER + end);
    assert s == head + s[k..] == out[..|s|];
    assert out[0..] == out;
    ContainsAt(out, s, 0);
  }

  /** A secret that does not meet the condition comes back in some text. */
  lemma SecretReturns(s: Text) returns (t: Text)
    requires s != [] && !NeverReturns(s)
    ensures Contains(ReplaceAll(t, s, MARKER), s)
  {
    if Contains(MARKER, s) {
      t := s;
      ReplaceWhole(s);
    } else if Overlaps(MARKER, s) {
      var k :| 0 <= k < |MARKER| && MARKER[k..] <= s;
      t := ReturnsBehindMarker(s, k);
    } else if Contains(s, MARKER) {
      var k := FirstMatch(s, MARKER);
      var end := s[k + |MARKER|..];
      assert s[k..] == MARKER + end;
      assert s[0..] == s && MARKER[0..] == MARKER;
      assert s[k..] <= s ==> MARKER <= s;
      t := ReturnsBeforeMarker(s, k, end);
    } else {
      var k :| 0 <= k < |s| && s[k..] <= MARKER && !(s[k..] <= s);
      assert MARKER + [] == MARKER;
      t := ReturnsBeforeMarker(s, k, []);
    }
  }

  lemma ReplaceWhole(s: Text)
    requires s != []
    ensures ReplaceAll(s, s, MARKER) == MARKER
  {
    assert s[|s|..] == [];
    assert MARKER + [] == MARKER;
  }

  /** A single secret of any shape: every text is redacted clean if and only if the secret never returns. */
  lemma SingleSecretIsExact(s: Text)
    requires s != []
    ensures Secrets([s]) == [s]
    ensures (forall t :: Clean([s], Redact([s], t))) <==> NeverReturns(s)
  {
    hide NeverReturns, Contains, ReplaceAll;
    SingleSecret(s);
    forall t ensures Redact([s], t) == ReplaceAll(t, s, MARKER) { RedactLast([s], t); }
    if NeverReturns(s) {
      forall t ensures Clean([s], Redact([s], t)) { SecretIsGone(t, s); }
    } else {
      var t := SecretReturns(s);
      assert Contains(Redact([s], t), [s][0]);
    }
  }

  lemma DistinctOne(s: Text)
    requires s != []
    ensures Distinct([s]) == [s]
  {
    assert [s][..0] == [] && Distinct([]) == [];
  }

  lemma SortOne(s: Text)
    ensures SortByLength([s]) == [s]
  {
    assert [s][..0] == [] && SortByLength([]) == [];
    assert InsertByLength(s, []) == [s];
  }

  lemma SingleSecret(s: Text)
    requires s != []
    ensures Secrets([s]) == [s] && NoneEmpty([s]) && [s][..0] == [] && [s][0] == s
  {
    DistinctOne(s);
    SortOne(s);
    hide Distinct, SortByLength;
  }

  lemma RedactLast(secrets: seq<Text>, t: Text)
    requires NoneEmpty(secrets) && secrets != []
    ensures Redact(secrets, t) == ReplaceAll(Redact(secrets[..|secrets| - 1], t), secrets[|secrets| - 1], MARKER)
  {
  }

  // ---------------------------------------------------------------- lists of secrets

  /** Secrets that are not part of a text leave it alone, whatever came before them. */
  lemma {:induction false} RedactOn(secrets: seq<Text>, k: nat, t: Text, u: Text)
    requires NoneEmpty(secrets) && k <= |secrets| && Redact(secrets[..k], t) == u
    requires forall i | k <= i < |secrets| :: !Contains(u, secrets[i])
    ensures Redact(secrets, t) == u
  {
    if |secrets| == k {
      assert secrets[..k] == secrets;
    } else {
      var init := secrets[..|secrets| - 1];
      assert init[..k] == secrets[..k];
      RedactOn(init, k, t, u);
      ReplaceNothing(u, secrets[|secrets| - 1], MARKER);
    }
  }

  /** The longer secrets and the others of the same length do not touch a secret. */
  lemma OwnMarker(secrets: seq<Text>, k: nat)
    requires NoneEmpty(secrets) && LongestFirst(secrets) && AllDistinct(secrets) && k < |secrets|
    ensures Redact(secrets[..k + 1], secrets[k]) == MARKER
  {
    hide Redact, ReplaceAll, Contains;
    var s, before := secrets[k], secrets[..k];
    forall i | 0 <= i < k ensures !Contains(s, before[i]) {
      if Contains(s, before[i]) { ContainsIsShorter(s, before[i]); }
    }
    CleanIsUntouched(before, s);
    assert secrets[..k + 1][..k] == before && secrets[..k + 1][k] == s;
    ReplaceWhole(s);
    RedactLast(secrets[..k + 1], s);
  }

  lemma {:induction false} LastPart(secrets: seq<Text>) returns (k: nat)
    requires exists i | 0 <= i < |secrets| :: Contains(MARKER, secrets[i])
    ensures k < |secrets| && Contains(MARKER, secrets[k])
    ensures forall i | k < i < |secrets| :: !Contains(MARKER, secrets[i])
  {
    hide Contains;
    var last := |secrets| - 1;
    if Contains(MARKER, secrets[last]) {
      k := last;
    } else {
      var init := secrets[..last];
      var i :| 0 <= i < |secrets| && Contains(MARKER, secrets[i]);
      assert Contains(MARKER, init[i]);
      k := LastPart(init);
      forall j | k < j < |secrets| ensures !Contains(MARKER, secrets[j]) {
        assert j < last ==> init[j] == secrets[j];
      }
    }
  }

  /** Whatever the other secrets are: a secret that is a part of the marker is shown by the redaction of such a secret. */
  lemma PartOfMarkerShows(values: seq<Text>) returns (t: Text)
    requires exists i | 0 <= i < |Secrets(values)| :: Contains(MARKER, Secrets(values)[i])
    ensures NoneEmpty(Secrets(values)) && Redact(Secrets(values), t) == MARKER && !Clean(Secrets(values), MARKER)
  {
    var secrets := Secrets(values);
    SecretsAreOrdered(values);
    hide Secrets, Redact, Contains;
    var k := LastPart(secrets);
    t := secrets[k];
    OwnMarker(secrets, k);
    RedactOn(secrets, k + 1, t, MARKER);
  }

  /**
   * For any list in which every secret is a part of the marker or holds a secret that is apart from it: every text is
   * redacted clean if and only if no secret is a part of the marker.
   */
  lemma RedactionIsExact(values: seq<Text>)
    requires forall s | s in Secrets(values) :: Contains(MARKER, s) || Covered(Secrets(values), s)
    ensures var secrets := Secrets(values);
            NoneEmpty(secrets)
            && ((forall t :: Clean(secrets, Redact(secrets, t))) <==> forall s | s in secrets :: !Contains(MARKER, s))
  {
    var secrets := Secrets(values);
    SecretsAreOrdered(values);
    if s :| s in secrets && Contains(MARKER, s) {
      var i :| 0 <= i < |secrets| && secrets[i] == s;
      var t := PartOfMarkerShows(values);
    } else {
      assert AllCovered(secrets);
      hide Secrets, Redact, AllCovered, Contains;
      forall t ensures Clean(secrets, Redact(secrets, t)) { RedactIsClean(secrets, t); }
    }
  }

  /** Secrets without square brackets meet that condition: what counts is whether one is a part of the word REDACTED. */
  lemma BracketFreeIsExact(values: seq<Text>)
    requires forall s | s in values :: BracketFree(s)
    ensures var secrets := Secrets(values);
            NoneEmpty(secrets)
            && ((forall t :: Clean(secrets, Redact(secrets, t))) <==> forall s | s in secrets :: !Contains(WORD, s))
  {
    var secrets := Secrets(values);
    SecretsAreOrdered(values);
    MarkerHoldsWord();
    forall s | s in secrets ensures (Contains(MARKER, s) || Covered(secrets, s)) && (Contains(WORD, s) <==> Contains(MARKER, s)) {
      if Contains(WORD, s) {
        ContainsTransitive(MARKER, WORD, s);
      } else {
        BracketFreeIsApart(s);
        ContainsSelf(s);
        var i :| 0 <= i < |secrets| && secrets[i] == s;
      }
    }
    hide Secrets, Redact, Contains;
    RedactionIsExact(values);
  }

  lemma MarkerHoldsWord()
    ensures Contains(MARKER, WORD)
  {
    MarkerShape();
    assert MARKER[1..][..|WORD|] == WORD;
    ContainsAt(MARKER, WORD, 1);
  }

  // ---------------------------------------------------------------- secrets with a bracket

  /** The text behind a marker completes this one. */
  lemma BracketedSecretReturns()
    ensures var s := Ascii("]a"); !NeverReturns(s) && exists t :: !Clean([s], Redact([s], t))
  {
    var s := Ascii("]a");
    assert MARKER[9..] == [RSQUARE] <= s;
    SingleSecretIsExact(s);
  }

  /** This one overlaps the marker, and yet it never returns. */
  lemma OverlapMayBeHarmless()
    ensures var s := Ascii("[["); Overlaps(s, MARKER) && forall t :: Clean([s], Redact([s], t))
  {
    var s := Ascii("[[");
    MarkerShape();
    assert s[1..] == [LSQUARE] <= MARKER;
    assert MARKER[0] == LSQUARE && forall i | 0 < i < |MARKER| :: MARKER[i] != LSQUARE;
    forall i | 0 <= i <= |MARKER| ensures !(s <= MARKER[i..]) { assert i + 1 < |MARKER| ==> MARKER[i..][1] == MARKER[i + 1]; }
    forall k | 0 <= k < |MARKER| ensures !(MARKER[k..] <= s) { EndsInBracket(k); }
    forall k | 0 <= k < |s| && s[k..] <= MARKER ensures s[k..] <= s {
      assert s[0..] == s;
    }
    SingleSecretIsExact(s);
  }

  const SMALL_A: Unit := 0x61
  const ENDS: Text := [RSQUARE, SMALL_A]
  const TWICE: Text := [SMALL_A, SMALL_A]

  predicate NoPair(t: Text, a: Unit, b: Unit) {
    forall i | 0 <= i < |t| - 1 :: !(t[i] == a && t[i + 1] == b)
  }

  lemma NoPairIs(t: Text, a: Unit, b: Unit)
    ensures NoPair(t, a, b) <==> !Contains(t, [a, b])
  {
    var u := [a, b];
    if Contains(t, u) {
      var i := ContainsIndex(t, u);
      assert u[0] == a && u[1] == b && t[i + 0] == u[0] && t[i + 1] == u[1];
    }
    forall i | 0 <= i < |t| - 1 && t[i] == a && t[i + 1] == b ensures Contains(t, [a, b]) {
      assert t[i..][..2] == [a, b];
    }
  }

  /** Where the second secret was replaced before, replacing the first one leaves neither. */
  lemma {:induction false} EndsIsGone(t: Text)
    requires NoPair(t, SMALL_A, SMALL_A)
    ensures var r := ReplaceAll(t, ENDS, MARKER);
            && NoPair(r, SMALL_A, SMALL_A) && NoPair(r, RSQUARE, SMALL_A)
            && (r != [] && r[0] == SMALL_A ==> t != [] && t[0] == SMALL_A)
    decreases |t|
  {
    MarkerShape();
    if t != [] {
      if ENDS <= t {
        assert t[0] == ENDS[0] && t[1] == ENDS[1];
        EndsIsGone(t[2..]);
        assert |t| > 2 ==> t[2..][0] == t[2];
      } else {
        EndsIsGone(t[1..]);
        assert |t| > 1 ==> t[1..][0] == t[1];
        assert |t| > 1 && t[0] == RSQUARE ==> t[1] != SMALL_A by { assert |t| > 1 ==> t[..2] == [t[0], t[1]]; }
      }
    }
  }

  /** The same two secrets, neither a part of the other: whether one can come back depends on which is replaced first. */
  lemma OrderMatters()
    ensures (forall t :: Clean([TWICE, ENDS], Redact([TWICE, ENDS], t))) && exists t :: !Clean([ENDS, TWICE], Redact([ENDS, TWICE], t))
  {
    forall t ensures Clean([TWICE, ENDS], Redact([TWICE, ENDS], t)) { TwiceFirst(t); }
    EndsFirst();
    assert !Clean([ENDS, TWICE], Redact([ENDS, TWICE], [RSQUARE, SMALL_A, SMALL_A])) by {
      assert [ENDS, TWICE][0] == ENDS;
    }
  }

  lemma TwoSecrets(s: Text, r: Text, t: Text)
    requires s != [] && r != []
    ensures Redact([s, r], t) == ReplaceAll(ReplaceAll(t, s, MARKER), r, MARKER)
  {
    hide ReplaceAll;
    assert [s, r][..1] == [s] && [s][..0] == [];
    assert Redact([s], t) == ReplaceAll(Redact([], t), s, MARKER);
  }

  lemma TwiceFirst(t: Text)
    ensures Clean([TWICE, ENDS], Redact([TWICE, ENDS], t))
  {
    var u := ReplaceAll(t, TWICE, MARKER);
    TwiceIsApart();
    hide ReplaceAll, IsApart, NoPair, Contains;
    TwoSecrets(TWICE, ENDS, t);
    if Contains(u, TWICE) { ReplacingIsClean(t, TWICE, TWICE); }
    NoPairIs(u, SMALL_A, SMALL_A);
    EndsIsGone(u);
    NoPairIs(ReplaceAll(u, ENDS, MARKER), SMALL_A, SMALL_A);
    NoPairIs(ReplaceAll(u, ENDS, MARKER), RSQUARE, SMALL_A);
  }

  lemma TwiceIsApart()
    ensures IsApart(TWICE)
  {
    forall i | 0 <= i <= |WORD| ensures !(TWICE <= WORD[i..]) {
      assert TWICE[0] == SMALL_A;
      assert i < |WORD| ==> WORD[i..][0] == WORD[i] && WORD[i] != SMALL_A;
    }
    BracketFreeIsApart(TWICE);
  }

  lemma EndsFirst()
    ensures Contains(Redact([ENDS, TWICE], [RSQUARE, SMALL_A, SMALL_A]), ENDS)
  {
    var t, u := [RSQUARE, SMALL_A, SMALL_A], MARKER + [SMALL_A];
    MarkerShape();
    assert ENDS <= t && t[2..] == [SMALL_A] && [SMALL_A][1..] == [];
    assert ReplaceAll([SMALL_A], ENDS, MARKER) == [SMALL_A] by {
      assert !(ENDS <= [SMALL_A]);
      assert ReplaceAll([], ENDS, MARKER) == [];
    }
    assert ReplaceAll(t, ENDS, MARKER) == u;
    TwoSecrets(ENDS, TWICE, t);
    assert NoPair(u, SMALL_A, SMALL_A);
    NoPairIs(u, SMALL_A, SMALL_A);
    ReplaceNothing(u, TWICE, MARKER);
    assert u[|MARKER| - 1..] == ENDS;
    ContainsAt(u, ENDS, |MARKER| - 1);
  }
}
