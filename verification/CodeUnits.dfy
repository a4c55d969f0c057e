/** Text as JavaScript sees it: a sequence of UTF-16 code units. */
module CodeUnits {

  type Unit = u: int | 0 <= u < 0x1_0000
  type Text = seq<Unit>

  const TAB: Unit := 0x09
  const NEWLINE: Unit := 0x0A
  const VTAB: Unit := 0x0B
  const FORM_FEED: Unit := 0x0C
  const RETURN: Unit := 0x0D
  const SPACE: Unit := 0x20
  const DOUBLE_QUOTE: Unit := 0x22   // "
  const DOLLAR: Unit := 0x24         // $
  const SINGLE_QUOTE: Unit := 0x27   // '
  const STAR: Unit := 0x2A           // *
  const PLUS: Unit := 0x2B           // +
  const COMMA: Unit := 0x2C          // ,
  const MINUS: Unit := 0x2D          // -
  const DOT: Unit := 0x2E            // .
  const SLASH: Unit := 0x2F          // /
  const ZERO: Unit := 0x30           // 0
  const COLON: Unit := 0x3A          // :
  const AT: Unit := 0x40             // @
  const LSQUARE: Unit := 0x5B        // [
  const BACKSLASH: Unit := 0x5C      // \
  const RSQUARE: Unit := 0x5D        // ]
  const UNDERSCORE: Unit := 0x5F     // _
  const BACKTICK: Unit := 0x60       // `
  const LCURLY: Unit := 0x7B         // {
  const RCURLY: Unit := 0x7D         // }

  /** The units that String.prototype.trim removes. */
  predicate IsWhite(u: Unit) {
    0x09 <= u <= 0x0D || u == 0x20 || u == 0xA0 || u == 0x1680 || 0x2000 <= u <= 0x200A
    || u == 0x2028 || u == 0x2029 || u == 0x202F || u == 0x205F || u == 0x3000 || u == 0xFEFF
  }

  predicate IsDigit(u: Unit) {
    0x30 <= u <= 0x39
  }

  /** Letters and the underscore. */
  predicate IsAlpha(u: Unit) {
    u == UNDERSCORE || 0x41 <= u <= 0x5A || 0x61 <= u <= 0x7A
  }

  predicate AllWhite(s: Text) {
    forall i | 0 <= i < |s| :: IsWhite(s[i])
  }

  function TrimStart(s: Text): Text {
    if s != [] && IsWhite(s[0]) then TrimStart(s[1..]) else s
  }

  function TrimEnd(s: Text): Text {
    if s != [] && IsWhite(s[|s| - 1]) then TrimEnd(s[..|s| - 1]) else s
  }

  function Trim(s: Text): Text {
    TrimEnd(TrimStart(s))
  }

  /** The code units of an ASCII literal. */
  function Ascii(s: string): (t: Text)
    ensures |t| == |s|
  {
    seq(|s|, i requires 0 <= i < |s| => if s[i] < '\U{0080}' then s[i] as int else 0)
  }

  function Spaces(n: nat): (s: Text)
    ensures |s| == n && forall i | 0 <= i < n :: s[i] == SPACE
  {
    seq(n, _ => SPACE)
  }

  /** The decimal digits of a natural number. */
  function Digits(n: nat): (s: Text)
    ensures s != [] && forall i | 0 <= i < |s| :: IsDigit(s[i])
  {
    if n < 10 then [ZERO + n] else Digits(n / 10) + [ZERO + n % 10]
  }

  /** What Number.prototype.toString prints for an integer. */
  function IntText(n: int): (s: Text)
    ensures s != []
  {
    if n < 0 then [MINUS] + Digits(-n) else Digits(n)
  }

  /** The value of a run of decimal digits. */
  function DigitsValue(s: Text): nat
    requires forall i | 0 <= i < |s| :: IsDigit(s[i])
  {
    if s == [] then 0 else assert IsDigit(s[|s| - 1]); 10 * DigitsValue(s[..|s| - 1]) + (s[|s| - 1] - ZERO)
  }

  lemma {:induction false} DigitsReadBack(n: nat)
    ensures DigitsValue(Digits(n)) == n
  {
    if n >= 10 {
      DigitsReadBack(n / 10);
      assert Digits(n)[..|Digits(n)| - 1] == Digits(n / 10);
    } else {
      assert Digits(n)[..0] == [];
    }
  }

  lemma {:induction false} TrimStartSkipsWhite(w: Text, s: Text)
    requires AllWhite(w)
    ensures TrimStart(w + s) == TrimStart(s)
  {
    if w == [] {
      assert w + s == s;
    } else {
      assert (w + s)[1..] == w[1..] + s;
      TrimStartSkipsWhite(w[1..], s);
    }
  }

  lemma {:induction false} TrimEndSkipsWhite(s: Text, w: Text)
    requires AllWhite(w)
    ensures TrimEnd(s + w) == TrimEnd(s)
  {
    if w == [] {
      assert s + w == s;
    } else {
      var w' := w[..|w| - 1];
      assert (s + w)[..|s + w| - 1] == s + w';
      TrimEndSkipsWhite(s, w');
    }
  }

  /** Trimming leaves a text whose two ends are not white. */
  lemma {:induction false} TrimStartEdge(s: Text)
    ensures TrimStart(s) != [] ==> !IsWhite(TrimStart(s)[0])
  {
    if s != [] && IsWhite(s[0]) { TrimStartEdge(s[1..]); }
  }

  lemma {:induction false} TrimEndEdge(s: Text)
    ensures TrimEnd(s) <= s
    ensures TrimEnd(s) != [] ==> !IsWhite(TrimEnd(s)[|TrimEnd(s)| - 1])
  {
    if s != [] && IsWhite(s[|s| - 1]) { TrimEndEdge(s[..|s| - 1]); }
  }

  lemma TrimEdges(s: Text)
    ensures Trim(s) != [] ==> !IsWhite(Trim(s)[0]) && !IsWhite(Trim(s)[|Trim(s)| - 1])
  {
    TrimStartEdge(s);
    TrimEndEdge(TrimStart(s));
  }
}
