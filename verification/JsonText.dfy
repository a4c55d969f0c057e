/** JSON values, their canonical text, and the proof that the text determines the value. */
module JsonText {
  import opened CodeUnits
  import opened YslScanner

  // ---------------------------------------------------------------- the order of Array.prototype.sort on strings

  predicate Less(a: Text, b: Text) {
    b != [] && (a == [] || a[0] < b[0] || (a[0] == b[0] && Less(a[1..], b[1..])))
  }

  lemma {:induction false} LessIsTotal(a: Text, b: Text)
    ensures a == b || Less(a, b) || Less(b, a)
    ensures !(Less(a, b) && (a == b || Less(b, a)))
  {
    if a != [] && b != [] {
      LessIsTotal(a[1..], b[1..]);
      if a[0] == b[0] && a[1..] == b[1..] { assert a == [a[0]] + a[1..] == b; }
    }
  }

  lemma {:induction false} LessIsTransitive(a: Text, b: Text, c: Text)
    requires Less(a, b) && Less(b, c)
    ensures Less(a, c)
  {
    if a != [] && a[0] == b[0] && b[0] == c[0] { LessIsTransitive(a[1..], b[1..], c[1..]); }
  }

  predicate IsLeast(k: Text, keys: set<Text>) {
    k in keys && forall x | x in keys :: x == k || Less(k, x)
  }

  lemma {:induction false} LeastExists(keys: set<Text>)
    requires keys != {}
    ensures exists k :: IsLeast(k, keys)
    decreases |keys|
  {
    var x :| x in keys;
    if keys == {x} {
      assert IsLeast(x, keys);
    } else {
      LeastExists(keys - {x});
      var k :| IsLeast(k, keys - {x});
      LessIsTotal(k, x);
      if Less(x, k) {
        forall y | y in keys && y != x ensures Less(x, y) {
          if y != k { LessIsTransitive(x, k, y); }
        }
        assert IsLeast(x, keys);
      } else {
        assert IsLeast(k, keys);
      }
    }
  }

  function Least(keys: set<Text>): (k: Text)
    requires keys != {}
    ensures IsLeast(k, keys)
  {
    LeastExists(keys);
    assert forall a, b | IsLeast(a, keys) && IsLeast(b, keys) :: a == b by {
      forall a, b | IsLeast(a, keys) && IsLeast(b, keys) ensures a == b { LessIsTotal(a, b); }
    }
    var k :| k in keys && IsLeast(k, keys);
    k
  }

  /** The keys in ascending order. */
  function SortedKeys(keys: set<Text>): (s: seq<Text>)
    ensures forall k :: k in s <==> k in keys
    decreases |keys|
  {
    if keys == {} then [] else var k := Least(keys); [k] + SortedKeys(keys - {k})
  }

  // ---------------------------------------------------------------- values

  predicate IsNumberUnit(u: Unit) {
    IsDigit(u) || u == PLUS || u == MINUS || u == DOT || u == LOWER_E || u == UPPER_E
  }

  /** A finite number, represented by the text that JSON.stringify gives it. */
  type NumberText = s: Text | s != [] && (IsDigit(s[0]) || s[0] == MINUS) && forall i | 0 <= i < |s| :: IsNumberUnit(s[i])
    witness [0x30]

  datatype Json =
    | JNull
    | JBool(b: bool)
    | JNumber(text: NumberText)
    | JString(s: Text)
    | JArray(items: seq<Json>)
    | JObject(members: map<Text, Json>)

  /** A value or undefined. */
  datatype Maybe = Undefined | Present(value: Json)

  const WORD_UNDEFINED: Text := Ascii("undefined")

  function Stringify(j: Json): Text
    decreases j, 1
  {
    match j
    case JNull => WORD_NULL
    case JBool(b) => if b then WORD_TRUE else WORD_FALSE
    case JNumber(text) => text
    case JString(s) => Quote(s)
    case JArray(items) => [LSQUARE] + StringifyItems(j, 0) + [RSQUARE]
    case JObject(members) => [LCURLY] + StringifyMembers(j, SortedKeys(members.Keys)) + [RCURLY]
  }

  /** The entries from position i on, joined by commas. */
  function StringifyItems(j: Json, i: nat): Text
    requires j.JArray? && i <= |j.items|
    decreases j, 0, |j.items| - i
  {
    if i == |j.items| then []
    else Stringify(j.items[i]) + (if i + 1 == |j.items| then [] else [COMMA] + StringifyItems(j, i + 1))
  }

  function StringifyMembers(j: Json, keys: seq<Text>): Text
    requires j.JObject? && forall k | k in keys :: k in j.members
    decreases j, 0, |keys|
  {
    if keys == [] then []
    else
      Quote(keys[0]) + [COLON] + Stringify(j.members[keys[0]])
      + (if |keys| == 1 then [] else [COMMA] + StringifyMembers(j, keys[1..]))
  }

  function StableStringify(v: Maybe): Text {
    if v.Undefined? then WORD_UNDEFINED else Stringify(v.value)
  }

  predicate IsEqual(left: Maybe, right: Maybe) {
    StableStringify(left) == StableStringify(right)
  }

  // ---------------------------------------------------------------- quoted strings

  lemma HexDigitUnique(m: nat, n: nat)
    requires m < 16 && n < 16 && HexDigit(m) == HexDigit(n)
    ensures m == n
  {
  }

  lemma HexDigitsSum(u: Unit)
    ensures u == 0x1000 * (u / 0x1000) + 0x100 * (u / 0x100 % 0x10) + 0x10 * (u / 0x10 % 0x10) + u % 0x10
  {
    assert u / 0x100 == u / 0x10 / 0x10;
    assert u / 0x1000 == u / 0x100 / 0x10;
  }

  lemma UnicodeEscapeUnique(u: Unit, v: Unit)
    requires UnicodeEscape(u) == UnicodeEscape(v)
    ensures u == v
  {
    var a, b := UnicodeEscape(u), UnicodeEscape(v);
    assert a[2] == b[2] && a[3] == b[3] && a[4] == b[4] && a[5] == b[5];
    hide UnicodeEscape;
    HexDigitUnique(u / 0x1000, v / 0x1000);
    HexDigitUnique(u / 0x100 % 0x10, v / 0x100 % 0x10);
    HexDigitUnique(u / 0x10 % 0x10, v / 0x10 % 0x10);
    HexDigitUnique(u % 0x10, v % 0x10);
    HexDigitsSum(u);
    HexDigitsSum(v);
  }

  /** How many units of s the first piece of QuoteBody(s) stands for, and that piece. */
  function PieceLength(s: Text): nat {
    if PairAt(s) then 2 else 1
  }

  function Piece(s: Text): Text
    requires s != []
  {
    if PairAt(s) then s[..2] else QuoteUnit(s[0])
  }

  lemma PieceShape(s: Text)
    requires s != []
    ensures var p := Piece(s);
            && 1 <= |p| && p[0] != DOUBLE_QUOTE
            && (p[0] == BACKSLASH ==> !PairAt(s) && |p| >= 2 && |p| == if p[1] == LETTER_U then 6 else 2)
            && (IsHighSurrogate(p[0]) ==> PairAt(s) && |p| == 2)
            && (p[0] != BACKSLASH && !IsHighSurrogate(p[0]) ==> !PairAt(s) && p == [s[0]])
  {
  }

  lemma EscapesUnique(u: Unit, v: Unit)
    requires QuoteUnit(u) == QuoteUnit(v) && QuoteUnit(u)[0] == BACKSLASH
    ensures u == v
  {
    var p, q := QuoteUnit(u), QuoteUnit(v);
    if |p| == 6 {
      UnicodeEscapeUnique(u, v);
    } else {
      assert p[1] == q[1];
    }
  }

  /** The first piece of a quoted string can be told from the text, whatever follows. */
  lemma PieceUnique(s: Text, t: Text, x: Text, y: Text)
    requires s != [] && t != [] && Piece(s) + x == Piece(t) + y
    ensures PieceLength(s) == PieceLength(t) && s[..PieceLength(s)] == t[..PieceLength(t)] && x == y
  {
    hide QuoteUnit, PairAt;
    var p, q := Piece(s), Piece(t);
    PieceShape(s);
    PieceShape(t);
    assert (p + x)[0] == p[0] && (q + y)[0] == q[0];
    if p[0] == BACKSLASH { assert (p + x)[1] == p[1] && (q + y)[1] == q[1]; }
    assert |p| == |q|;
    assert p == (p + x)[..|p|] && q == (q + y)[..|q|] && x == (p + x)[|p|..] && y == (q + y)[|q|..];
    if p[0] == BACKSLASH { EscapesUnique(s[0], t[0]); }
  }

  lemma {:induction false} QuoteBodyUnique(s: Text, t: Text, x: Text, y: Text)
    requires QuoteBody(s) + [DOUBLE_QUOTE] + x == QuoteBody(t) + [DOUBLE_QUOTE] + y
    ensures s == t && x == y
    decreases |s|
  {
    hide Piece, QuoteUnit;
    var a, b := QuoteBody(s) + [DOUBLE_QUOTE] + x, QuoteBody(t) + [DOUBLE_QUOTE] + y;
    if s != [] { QuoteBodyPiece(s, x); PieceShape(s); }
    if t != [] { QuoteBodyPiece(t, y); PieceShape(t); }
    if s == [] || t == [] {
      assert s == [] ==> a[0] == DOUBLE_QUOTE;
      assert t == [] ==> b[0] == DOUBLE_QUOTE;
      assert s == t;
      assert a[1..] == x && b[1..] == y;
    } else {
      var m, n := PieceLength(s), PieceLength(t);
      PieceUnique(s, t, QuoteBody(s[m..]) + [DOUBLE_QUOTE] + x, QuoteBody(t[n..]) + [DOUBLE_QUOTE] + y);
      QuoteBodyUnique(s[m..], t[n..], x, y);
      assert s == s[..m] + s[m..] && t == t[..n] + t[n..];
    }
  }

  lemma QuoteBodyUnfold(s: Text)
    requires s != []
    ensures PieceLength(s) <= |s| && QuoteBody(s) == Piece(s) + QuoteBody(s[PieceLength(s)..])
  {
    hide QuoteUnit;
    if PairAt(s) { assert s[..2] == [s[0], s[1]]; }
  }

  lemma QuoteBodyPiece(s: Text, x: Text)
    requires s != []
    ensures PieceLength(s) <= |s|
    ensures QuoteBody(s) + [DOUBLE_QUOTE] + x == Piece(s) + (QuoteBody(s[PieceLength(s)..]) + [DOUBLE_QUOTE] + x)
  {
    hide QuoteBody, Piece, PieceLength;
    QuoteBodyUnfold(s);
    Reassociate(Piece(s), QuoteBody(s[PieceLength(s)..]), [DOUBLE_QUOTE], x);
  }

  lemma Reassociate(a: Text, b: Text, c: Text, d: Text)
    ensures a + b + c + d == a + (b + c + d)
  {
  }

  lemma QuoteUnique(s: Text, t: Text, x: Text, y: Text)
    requires Quote(s) + x == Quote(t) + y
    ensures s == t && x == y
  {
    assert (Quote(s) + x)[1..] == QuoteBody(s) + [DOUBLE_QUOTE] + x;
    assert (Quote(t) + y)[1..] == QuoteBody(t) + [DOUBLE_QUOTE] + y;
    QuoteBodyUnique(s, t, x, y);
  }

  // ---------------------------------------------------------------- values

  /** What may follow a value inside a larger text. */
  predicate IsEnd(x: Text) {
    x == [] || x[0] in {COMMA, RSQUARE, RCURLY}
  }

  /** The first unit of a text tells the kind of the value. */
  lemma KindOfFirst(j: Json)
    ensures var t := Stringify(j);
            && t != []
            && match j
               case JNull => t[0] == 0x6E
               case JBool(b) => t[0] == if b then 0x74 else 0x66
               case JNumber(_) => IsDigit(t[0]) || t[0] == MINUS
               case JString(_) => t[0] == DOUBLE_QUOTE
               case JArray(_) => t[0] == LSQUARE
               case JObject(_) => t[0] == LCURLY
  {
    hide QuoteBody;
  }

  lemma NumberStops(s: Text, x: Text)
    requires (forall i | 0 <= i < |s| :: IsNumberUnit(s[i])) && IsEnd(x)
    ensures s == [] <==> IsEnd(s + x)
  {
    if s == [] { assert s + x == x; } else { assert (s + x)[0] == s[0]; }
  }

  lemma {:induction false} NumberUnique(s: Text, t: Text, x: Text, y: Text)
    requires (forall i | 0 <= i < |s| :: IsNumberUnit(s[i])) && (forall i | 0 <= i < |t| :: IsNumberUnit(t[i]))
    requires IsEnd(x) && IsEnd(y) && s + x == t + y
    ensures s == t && x == y
  {
    NumberStops(s, x);
    NumberStops(t, y);
    if s == [] {
      assert s + x == x && t + y == y;
    } else {
      assert (s + x)[0] == s[0] && (t + y)[0] == t[0];
      assert (s + x)[1..] == s[1..] + x && (t + y)[1..] == t[1..] + y;
      NumberUnique(s[1..], t[1..], x, y);
      assert s == [s[0]] + s[1..] && t == [t[0]] + t[1..];
    }
  }

  /** Two values with a common text, up to what follows them, are equal. */
  lemma {:induction false} StringifyUnique(a: Json, b: Json, x: Text, y: Text)
    requires IsEnd(x) && IsEnd(y) && Stringify(a) + x == Stringify(b) + y
    ensures a == b && x == y
    decreases a, 1
  {
    KindOfFirst(a);
    KindOfFirst(b);
    assert (Stringify(a) + x)[0] == Stringify(a)[0] && (Stringify(b) + y)[0] == Stringify(b)[0];
    match a
    case JNull => SameLength(WORD_NULL, WORD_NULL, x, y);
    case JBool(c) => SameLength(Stringify(a), Stringify(b), x, y);
    case JNumber(s) => NumberUnique(s, b.text, x, y);
    case JString(s) => QuoteUnique(s, b.s, x, y);
    case JArray(items) =>
      Behind(LSQUARE, StringifyItems(a, 0), [RSQUARE], x, LSQUARE, StringifyItems(b, 0), [RSQUARE], y);
      ItemsUnique(a, b, 0, x, y);
    case JObject(members) =>
      var ks, ls := SortedKeys(members.Keys), SortedKeys(b.members.Keys);
      Behind(LCURLY, StringifyMembers(a, ks), [RCURLY], x, LCURLY, StringifyMembers(b, ls), [RCURLY], y);
      MembersUnique(a, b, ks, ls, x, y);
      assert members.Keys == b.members.Keys;
      assert members == b.members;
  }

  lemma SameLength(s: Text, t: Text, x: Text, y: Text)
    requires s + x == t + y && |s| == |t|
    ensures s == t && x == y
  {
    assert s == (s + x)[..|s|] && t == (t + y)[..|t|] && x == (s + x)[|s|..] && y == (t + y)[|t|..];
  }

  lemma Behind(c: Unit, s: Text, m: Text, x: Text, d: Unit, t: Text, n: Text, y: Text)
    requires [c] + s + m + x == [d] + t + n + y
    ensures s + m + x == t + n + y
  {
    assert ([c] + s + m + x)[1..] == s + m + x;
    assert ([d] + t + n + y)[1..] == t + n + y;
  }

  lemma {:induction false} ItemsUnique(a: Json, b: Json, i: nat, x: Text, y: Text)
    requires a.JArray? && b.JArray? && i <= |a.items| && i <= |b.items|
    requires StringifyItems(a, i) + [RSQUARE] + x == StringifyItems(b, i) + [RSQUARE] + y
    requires a.items[..i] == b.items[..i]
    ensures a == b && x == y
    decreases a, 0, |a.items| - i
  {
    var s, t := StringifyItems(a, i) + [RSQUARE] + x, StringifyItems(b, i) + [RSQUARE] + y;
    ItemsStart(a, i, x);
    ItemsStart(b, i, y);
    if i == |a.items| || i == |b.items| {
      assert i == |a.items| == |b.items|;
      assert a.items == a.items[..i] && b.items == b.items[..i];
      assert s[1..] == x && t[1..] == y;
    } else {
      var p, q := ItemsTail(a, i, x), ItemsTail(b, i, y);
      StringifyUnique(a.items[i], b.items[i], p, q);
      assert a.items[..i + 1] == a.items[..i] + [a.items[i]] == b.items[..i + 1];
      if i + 1 == |a.items| || i + 1 == |b.items| {
        assert p[0] == if i + 1 == |a.items| then RSQUARE else COMMA;
        assert q[0] == if i + 1 == |b.items| then RSQUARE else COMMA;
        assert a.items == a.items[..i + 1] && b.items == b.items[..i + 1];
        assert p[1..] == x && q[1..] == y;
      } else {
        assert p[1..] == StringifyItems(a, i + 1) + [RSQUARE] + x;
        assert q[1..] == StringifyItems(b, i + 1) + [RSQUARE] + y;
        ItemsUnique(a, b, i + 1, x, y);
      }
    }
  }

  function ItemsTail(a: Json, i: nat, x: Text): (t: Text)
    requires a.JArray? && i < |a.items|
    ensures t != [] && IsEnd(t)
  {
    (if i + 1 == |a.items| then [] else [COMMA] + StringifyItems(a, i + 1)) + [RSQUARE] + x
  }

  lemma ItemsStart(a: Json, i: nat, x: Text)
    requires a.JArray? && i <= |a.items|
    ensures var s := StringifyItems(a, i) + [RSQUARE] + x;
            && s != []
            && (i == |a.items| <==> s[0] == RSQUARE)
            && (i < |a.items| ==> s == Stringify(a.items[i]) + ItemsTail(a, i, x))
  {
    if i < |a.items| { KindOfFirst(a.items[i]); }
  }

  predicate KeysOf(a: Json, keys: seq<Text>) {
    a.JObject? && forall k | k in keys :: k in a.members
  }

  function MembersTail(a: Json, keys: seq<Text>, x: Text): (t: Text)
    requires KeysOf(a, keys) && keys != []
    ensures t != [] && IsEnd(t)
  {
    (if |keys| == 1 then [] else [COMMA] + StringifyMembers(a, keys[1..])) + [RCURLY] + x
  }

  lemma MembersStart(a: Json, keys: seq<Text>, x: Text)
    requires KeysOf(a, keys)
    ensures var s := StringifyMembers(a, keys) + [RCURLY] + x;
            && s != []
            && (keys == [] <==> s[0] == RCURLY)
            && (keys == [] ==> s[1..] == x)
            && (keys != [] ==>
                  s == Quote(keys[0]) + ([COLON] + (Stringify(a.members[keys[0]]) + MembersTail(a, keys, x))))
  {
    hide Stringify, QuoteBody;
    var s := StringifyMembers(a, keys) + [RCURLY] + x;
    if keys != [] {
      assert s[0] == DOUBLE_QUOTE;
      var more := if |keys| == 1 then [] else [COMMA] + StringifyMembers(a, keys[1..]);
      MemberShape(Quote(keys[0]), Stringify(a.members[keys[0]]), more, x);
    }
  }

  lemma MemberShape(q: Text, v: Text, more: Text, x: Text)
    ensures q + [COLON] + v + more + [RCURLY] + x == q + ([COLON] + (v + (more + [RCURLY] + x)))
  {
  }

  lemma {:induction false} MembersUnique(a: Json, b: Json, ks: seq<Text>, ls: seq<Text>, x: Text, y: Text)
    requires KeysOf(a, ks) && KeysOf(b, ls)
    requires StringifyMembers(a, ks) + [RCURLY] + x == StringifyMembers(b, ls) + [RCURLY] + y
    ensures ks == ls && x == y && forall k | k in ks :: a.members[k] == b.members[k]
    decreases a, 0, |ks|
  {
    hide StringifyMembers, Quote, Stringify;
    MembersStart(a, ks, x);
    MembersStart(b, ls, y);
    if ks != [] {
      var p, q := MembersTail(a, ks, x), MembersTail(b, ls, y);
      var v, w := Stringify(a.members[ks[0]]) + p, Stringify(b.members[ls[0]]) + q;
      QuoteUnique(ks[0], ls[0], [COLON] + v, [COLON] + w);
      assert ([COLON] + v)[1..] == v && ([COLON] + w)[1..] == w;
      StringifyUnique(a.members[ks[0]], b.members[ls[0]], p, q);
      MembersTailStart(a, ks, x);
      MembersTailStart(b, ls, y);
      if |ks| == 1 {
        assert ks == [ks[0]] && ls == [ls[0]];
      } else {
        MembersUnique(a, b, ks[1..], ls[1..], x, y);
        assert ks == [ks[0]] + ks[1..] && ls == [ls[0]] + ls[1..];
      }
    }
  }

  lemma MembersTailStart(a: Json, keys: seq<Text>, x: Text)
    requires KeysOf(a, keys) && keys != []
    ensures var t := MembersTail(a, keys, x);
            && (|keys| == 1 <==> t[0] == RCURLY)
            && t[1..] == if |keys| == 1 then x else StringifyMembers(a, keys[1..]) + [RCURLY] + x
  {
    hide StringifyMembers;
    var t := MembersTail(a, keys, x);
    if |keys| == 1 {
      assert t == [RCURLY] + x;
    } else {
      assert t == [COMMA] + (StringifyMembers(a, keys[1..]) + [RCURLY] + x);
    }
  }

  // ---------------------------------------------------------------- main results

  /** Equality of the canonical texts is equality of the values, undefined included. */
  lemma IsEqualDecidesEquality(left: Maybe, right: Maybe)
    ensures IsEqual(left, right) <==> left == right
  {
    if IsEqual(left, right) {
      if left.Present? { KindOfFirst(left.value); }
      if right.Present? { KindOfFirst(right.value); }
      assert WORD_UNDEFINED[0] == 0x75;
      if left.Present? {
        assert Stringify(left.value) + [] == Stringify(right.value) + [];
        StringifyUnique(left.value, right.value, [], []);
      }
    }
  }
}
