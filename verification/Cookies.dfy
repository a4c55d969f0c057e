/** The cookie jar of a workspace: Set-Cookie headers, the repository, and the Cookie header. */
module Cookies {
  import opened CodeUnits
  import opened Wrappers

  datatype Result<+T> = Ok(value: T) | Err

  datatype SameSite = Unset | Strict | Lax | Unrestricted

  /** The parts of a parsed http or https URL. */
  datatype Url = Url(https: bool, hostname: Text, pathname: Text)

  /** What a cookie is made of before it is stored. */
  datatype Draft = Draft(name: Text, value: Text, domain: Text, path: Text, expiresAt: Option<int>,
                         secure: bool, httpOnly: bool, sameSite: SameSite, hostOnly: bool)

  /** A stored cookie; rank is the place of its id in the collation order. */
  datatype Cookie = Cookie(id: Text, rank: int, workspace: Text, draft: Draft, createdAt: int, updatedAt: int)

  const SEMICOLON: Unit := 0x3B
  const EQUALS: Unit := 0x3D
  const ROOT: Text := [SLASH]

  // ---------------------------------------------------------------- texts

  function Lower(s: Text): (r: Text)
    ensures |r| == |s|
  {
    seq(|s|, i requires 0 <= i < |s| => if 0x41 <= s[i] <= 0x5A then s[i] + 0x20 else s[i])
  }

  function StripDots(s: Text): Text {
    if s != [] && s[0] == DOT then StripDots(s[1..]) else s
  }

  predicate IsControl(u: Unit) {
    u < 0x20 || u == 0x7F
  }

  predicate HasControl(s: Text) {
    exists i | 0 <= i < |s| :: IsControl(s[i])
  }

  predicate IsAlnum(u: Unit) {
    IsDigit(u) || 0x61 <= u <= 0x7A
  }

  predicate IsNameUnit(u: Unit) {
    IsDigit(u) || IsAlpha(u) || u in Ascii("!#$%&'*+-.^`|~")
  }

  predicate IsCookieName(s: Text) {
    s != [] && forall i | 0 <= i < |s| :: IsNameUnit(s[i])
  }

  function IndexOf(s: Text, u: Unit): (n: nat)
    ensures n <= |s| && (n < |s| ==> s[n] == u)
  {
    if s == [] || s[0] == u then 0 else 1 + IndexOf(s[1..], u)
  }

  function Split(s: Text, u: Unit): (parts: seq<Text>)
    ensures parts != []
    decreases |s|
  {
    var n := IndexOf(s, u);
    if n == |s| then [s] else [s[..n]] + Split(s[n + 1..], u)
  }

  /** One label of a domain: letters, digits and inner hyphens, at most 63 of them. */
  predicate IsLabel(s: Text) {
    1 <= |s| <= 63 && IsAlnum(s[0]) && IsAlnum(s[|s| - 1]) && forall i | 0 <= i < |s| :: IsAlnum(s[i]) || s[i] == MINUS
  }

  predicate IsDomain(s: Text) {
    forall i | 0 <= i < |Split(s, DOT)| :: IsLabel(Split(s, DOT)[i])
  }

  /** An IPv6 address in brackets. */
  predicate IsBracketed(s: Text) {
    |s| >= 3 && s[0] == LSQUARE && s[|s| - 1] == RSQUARE
    && forall i | 0 < i < |s| - 1 :: IsDigit(s[i]) || 0x61 <= s[i] <= 0x66 || s[i] == COLON
  }

  function NormalizeDomain(value: Text): Result<Text> {
    var domain := Lower(StripDots(Trim(value)));
    if domain == [] || !(IsDomain(domain) || IsBracketed(domain)) then Err else Ok(domain)
  }

  function EndsWith(s: Text, t: Text): bool {
    |t| <= |s| && s[|s| - |t|..] == t
  }

  predicate DomainMatches(hostname: Text, domain: Text) {
    Lower(hostname) == domain || EndsWith(Lower(hostname), [DOT] + domain)
  }

  predicate PathMatches(request: Text, path: Text) {
    request == path
    || (path <= request && ((path != [] && path[|path| - 1] == SLASH) || (|path| < |request| && request[|path|] == SLASH)))
  }

  /** The position behind the last slash; 0 if there is none. */
  function AfterLastSlash(s: Text): (n: nat)
    ensures n <= |s| && (n > 0 ==> s[n - 1] == SLASH) && forall i | n <= i < |s| :: s[i] != SLASH
  {
    if s == [] || s[|s| - 1] == SLASH then |s| else AfterLastSlash(s[..|s| - 1])
  }

  function DefaultPath(pathname: Text): Text {
    if !(ROOT <= pathname) || pathname == ROOT then ROOT
    else
      var n := AfterLastSlash(pathname);
      if n <= 1 then ROOT else pathname[..n - 1]
  }

  // ---------------------------------------------------------------- Set-Cookie

  /** validateCookieInput; the expiry is a finite number here. */
  function Validate(d: Draft): Result<Draft> {
    var domain := NormalizeDomain(d.domain);
    var path := if Trim(d.path) == [] then ROOT else Trim(d.path);
    if domain.Err? then Err
    else if !IsCookieName(Trim(d.name)) then Err
    else if HasControl(d.value) || SEMICOLON in d.value then Err
    else if !(ROOT <= path) || HasControl(path) || SEMICOLON in path then Err
    else if d.sameSite.Unrestricted? && !d.secure then Err
    else Ok(d.(name := Trim(d.name), domain := domain.value, path := path))
  }

  datatype Attribute = Attribute(key: Text, value: Text)

  function AttributeOf(raw: Text): Attribute {
    var s := Trim(raw);
    var n := IndexOf(s, EQUALS);
    Attribute(Lower(Trim(s[..n])), if n == |s| then [] else Trim(s[n + 1..]))
  }

  function Unsigned(s: Text): Text {
    if s != [] && s[0] == MINUS then s[1..] else s
  }

  predicate IsInteger(s: Text) {
    Unsigned(s) != [] && forall i | 0 <= i < |Unsigned(s)| :: IsDigit(Unsigned(s)[i])
  }

  function IntegerOf(s: Text): int
    requires IsInteger(s)
  {
    var n: int := DigitsValue(Unsigned(s));
    if s[0] == MINUS then -n else n
  }

  /** The attributes read so far; the last of each kind counts. */
  datatype Attributes = Attributes(domain: Text, hostOnly: bool, path: Text, expires: Option<int>, maxAge: Option<int>,
                                   secure: bool, httpOnly: bool, sameSite: SameSite)

  function SameSiteOf(s: Text, otherwise: SameSite): SameSite {
    if Lower(s) == Ascii("strict") then Strict
    else if Lower(s) == Ascii("lax") then Lax
    else if Lower(s) == Ascii("none") then Unrestricted
    else otherwise
  }

  const KEY_DOMAIN: Text := Ascii("domain")
  const KEY_PATH: Text := Ascii("path")

  predicate SetsDomain(a: Attribute) { a.key == KEY_DOMAIN && a.value != [] }

  predicate SetsPath(a: Attribute) { a.key == KEY_PATH && ROOT <= a.value }

  /** One turn of the loop over the attributes; parseDate stands for Date.parse. */
  function TakeAttribute(s: Attributes, a: Attribute, url: Url, parseDate: Text -> Option<int>): Result<Attributes> {
    if SetsDomain(a) then
      var candidate := NormalizeDomain(a.value);
      if candidate.Err? || !DomainMatches(url.hostname, candidate.value) then Err
      else Ok(s.(domain := candidate.value, hostOnly := false))
    else if SetsPath(a) then Ok(s.(path := a.value))
    else if a.key == Ascii("expires") then
      Ok(if parseDate(a.value).Some? then s.(expires := parseDate(a.value)) else s)
    else if a.key == Ascii("max-age") && IsInteger(a.value) then Ok(s.(maxAge := Some(IntegerOf(a.value))))
    else if a.key == Ascii("secure") then Ok(s.(secure := true))
    else if a.key == Ascii("httponly") then Ok(s.(httpOnly := true))
    else if a.key == Ascii("samesite") then Ok(s.(sameSite := SameSiteOf(a.value, s.sameSite)))
    else Ok(s)
  }

  function NoAttributes(url: Url): Attributes {
    Attributes(Lower(url.hostname), true, DefaultPath(url.pathname), None, None, false, false, Unset)
  }

  function TakeAttributes(parts: seq<Text>, n: nat, url: Url, parseDate: Text -> Option<int>): Result<Attributes>
    requires n <= |parts|
  {
    if n == 0 then Ok(NoAttributes(url))
    else
      var before := TakeAttributes(parts, n - 1, url, parseDate);
      if before.Err? || Trim(parts[n - 1]) == [] then before
      else TakeAttribute(before.value, AttributeOf(parts[n - 1]), url, parseDate)
  }

  function Expiry(s: Attributes, now: int): Option<int> {
    if s.maxAge.None? then s.expires
    else if s.maxAge.value <= 0 then Some(0)
    else Some(now + s.maxAge.value * 1000)
  }

  /** parseSetCookie */
  function ParseSetCookie(value: Text, url: Url, now: int, parseDate: Text -> Option<int>): Result<Draft> {
    var parts := Split(value, SEMICOLON);
    var pair := Trim(parts[0]);
    var n := IndexOf(pair, EQUALS);
    if n == 0 || n == |pair| then Err
    else
      var r := TakeAttributes(parts[1..], |parts| - 1, url, parseDate);
      if r.Err? then Err
      else
        var s := r.value;
        Validate(Draft(Trim(pair[..n]), Trim(pair[n + 1..]), s.domain, s.path, Expiry(s, now),
                       s.secure, s.httpOnly, s.sameSite, s.hostOnly))
  }

  method ParseHeader(value: Text, url: Url, now: int, parseDate: Text -> Option<int>) returns (r: Result<Draft>)
    ensures r == ParseSetCookie(value, url, now, parseDate)
  {
    hide Trim, IndexOf, Validate, TakeAttribute, AttributeOf, NoAttributes;
    var parts := Split(value, SEMICOLON);
    var pair, rest := Trim(parts[0]), parts[1..];
    var n := IndexOf(pair, EQUALS);
    if n == 0 || n == |pair| { return Err; }
    var s := NoAttributes(url);
    for i := 0 to |rest|
      invariant TakeAttributes(rest, i, url, parseDate) == Ok(s)
    {
      if Trim(rest[i]) != [] {
        var next := TakeAttribute(s, AttributeOf(rest[i]), url, parseDate);
        if next.Err? {
          RefusedStays(rest, i + 1, |rest|, url, parseDate);
          return Err;
        }
        s := next.value;
      }
    }
    r := Validate(Draft(Trim(pair[..n]), Trim(pair[n + 1..]), s.domain, s.path, Expiry(s, now),
                        s.secure, s.httpOnly, s.sameSite, s.hostOnly));
  }

  lemma {:induction false} RefusedStays(parts: seq<Text>, i: nat, n: nat, url: Url, parseDate: Text -> Option<int>)
    requires i <= n <= |parts| && TakeAttributes(parts, i, url, parseDate).Err?
    ensures TakeAttributes(parts, n, url, parseDate).Err?
  {
    if i < n { RefusedStays(parts, i, n - 1, url, parseDate); }
  }

  // ---------------------------------------------------------------- matching

  predicate Expired(d: Draft, now: int) {
    d.expiresAt.Some? && d.expiresAt.value <= now
  }

  /** matchesRequest */
  predicate Matches(d: Draft, url: Url, now: int) {
    && !Expired(d, now)
    && (d.secure ==> url.https)
    && (if d.hostOnly then Lower(url.hostname) == d.domain else DomainMatches(url.hostname, d.domain))
    && PathMatches(if url.pathname == [] then ROOT else url.pathname, d.path)
  }

  /** What the URL parser guarantees of its parts: lower-case hosts, visible ASCII, paths from the root. */
  predicate IsParsed(u: Url) {
    && (forall i | 0 <= i < |u.hostname| :: 0x21 <= u.hostname[i] <= 0x7E && !(0x41 <= u.hostname[i] <= 0x5A))
    && (forall i | 0 <= i < |u.pathname| :: 0x21 <= u.pathname[i] <= 0x7E)
    && ROOT <= u.pathname
  }

  predicate SomeSetsDomain(parts: seq<Text>) {
    exists i | 0 <= i < |parts| :: Trim(parts[i]) != [] && SetsDomain(AttributeOf(parts[i]))
  }

  predicate SomeSetsPath(parts: seq<Text>) {
    exists i | 0 <= i < |parts| :: Trim(parts[i]) != [] && SetsPath(AttributeOf(parts[i]))
  }

  lemma DefaultPathMatches(pathname: Text)
    requires ROOT <= pathname
    ensures PathMatches(pathname, DefaultPath(pathname)) && ROOT <= DefaultPath(pathname) && DefaultPath(pathname) <= pathname
  {
    var n := AfterLastSlash(pathname);
    assert pathname[0] == ROOT[0];
    if pathname != ROOT && n > 1 {
      assert pathname[n - 1] == SLASH;
      assert pathname[..n - 1][0] == SLASH;
    }
  }

  lemma {:induction false} TrimNothing(s: Text)
    requires s != [] ==> !IsWhite(s[0]) && !IsWhite(s[|s| - 1])
    ensures Trim(s) == s
  {
  }

  lemma LowerNothing(s: Text)
    requires forall i | 0 <= i < |s| :: !(0x41 <= s[i] <= 0x5A)
    ensures Lower(s) == s
  {
  }

  lemma LowerIsLower(s: Text)
    ensures forall i | 0 <= i < |s| :: !(0x41 <= Lower(s)[i] <= 0x5A)
  {
  }

  /** A valid domain starts and ends with a letter or digit, or is bracketed. */
  lemma {:induction false} DomainEnds(s: Text)
    requires IsDomain(s)
    ensures s != [] && IsAlnum(s[0]) && IsAlnum(s[|s| - 1])
    decreases |s|
  {
    var n := IndexOf(s, DOT);
    var parts := Split(s, DOT);
    assert IsLabel(parts[0]);
    if n < |s| {
      var rest := s[n + 1..];
      assert Split(rest, DOT) == parts[1..];
      forall i | 0 <= i < |Split(rest, DOT)| ensures IsLabel(Split(rest, DOT)[i]) { assert IsLabel(parts[i + 1]); }
      DomainEnds(rest);
      assert s[0] == parts[0][0] && s[|s| - 1] == rest[|rest| - 1];
    }
  }

  /** Normalizing a normalized domain changes nothing. */
  lemma NormalizeTwice(value: Text)
    requires NormalizeDomain(value).Ok?
    ensures NormalizeDomain(NormalizeDomain(value).value) == NormalizeDomain(value)
  {
    var d := NormalizeDomain(value).value;
    LowerIsLower(StripDots(Trim(value)));
    LowerNothing(d);
    if IsDomain(d) { DomainEnds(d); }
    hide IsDomain, Trim, Lower;
    TrimNothing(d);
  }

  lemma {:induction false} StripShortens(s: Text)
    ensures |StripDots(s)| <= |s|
  {
    if s != [] && s[0] == DOT { StripShortens(s[1..]); }
  }

  /** The host of a parsed URL is its own normalized domain exactly if it does not begin with a dot. */
  lemma HostNormalizes(host: Text)
    requires forall i | 0 <= i < |host| :: 0x21 <= host[i] <= 0x7E && !(0x41 <= host[i] <= 0x5A)
    requires NormalizeDomain(host).Ok?
    ensures NormalizeDomain(host).value == host <==> host[0] != DOT
    ensures host != []
  {
    LowerNothing(host);
    TrimNothing(host);
    assert StripDots([]) == [];
    if host != [] && host[0] == DOT {
      StripShortens(host[1..]);
    }
  }

  lemma {:induction false} AttributesKeep(parts: seq<Text>, n: nat, url: Url, parseDate: Text -> Option<int>)
    requires n <= |parts| && TakeAttributes(parts, n, url, parseDate).Ok?
    ensures var s := TakeAttributes(parts, n, url, parseDate).value;
            && (!SomeSetsPath(parts[..n]) ==> s.path == DefaultPath(url.pathname))
            && (s.hostOnly <==> !SomeSetsDomain(parts[..n]))
            && (if s.hostOnly then s.domain == Lower(url.hostname)
                else DomainMatches(url.hostname, s.domain) && NormalizeDomain(s.domain) == Ok(s.domain))
  {
    hide AttributeOf, Trim, DomainMatches, NormalizeDomain, DefaultPath, Lower, TakeAttribute, SomeSetsPath, SomeSetsDomain;
    if n > 0 {
      var part := parts[n - 1];
      AttributesKeep(parts, n - 1, url, parseDate);
      var before := TakeAttributes(parts, n - 1, url, parseDate).value;
      assert parts[..n] == parts[..n - 1] + [part];
      SetsMore(parts[..n - 1], part);
      if Trim(part) != [] { OneAttributeKeeps(before, AttributeOf(part), url, parseDate); }
    } else {
      NoneSets(parts[..0]);
    }
  }

  lemma NoneSets(parts: seq<Text>)
    requires parts == []
    ensures !SomeSetsPath(parts) && !SomeSetsDomain(parts)
  {
  }

  lemma OneAttributeKeeps(s: Attributes, a: Attribute, url: Url, parseDate: Text -> Option<int>)
    requires TakeAttribute(s, a, url, parseDate).Ok?
    ensures var t := TakeAttribute(s, a, url, parseDate).value;
            && (!SetsPath(a) ==> t.path == s.path)
            && (t.hostOnly <==> s.hostOnly && !SetsDomain(a))
            && (if SetsDomain(a) then DomainMatches(url.hostname, t.domain) && NormalizeDomain(t.domain) == Ok(t.domain)
                else t.domain == s.domain)
  {
    assert KEY_DOMAIN != KEY_PATH by { assert KEY_DOMAIN[0] != KEY_PATH[0]; }
    if SetsDomain(a) && NormalizeDomain(a.value).Ok? { NormalizeTwice(a.value); }
    hide DomainMatches, NormalizeDomain, Lower, SameSiteOf, IntegerOf, IsInteger;
  }

  lemma SetsMore(before: seq<Text>, part: Text)
    ensures SomeSetsPath(before + [part]) <==> SomeSetsPath(before) || (Trim(part) != [] && SetsPath(AttributeOf(part)))
    ensures SomeSetsDomain(before + [part]) <==> SomeSetsDomain(before) || (Trim(part) != [] && SetsDomain(AttributeOf(part)))
  {
    hide AttributeOf, Trim, SetsPath, SetsDomain;
    var now := before + [part];
    assert now[|before|] == part && forall i | 0 <= i < |before| :: now[i] == before[i];
    if SomeSetsPath(before) {
      var i :| 0 <= i < |before| && Trim(before[i]) != [] && SetsPath(AttributeOf(before[i]));
      assert Trim(now[i]) != [] && SetsPath(AttributeOf(now[i]));
    }
    if SomeSetsDomain(before) {
      var i :| 0 <= i < |before| && Trim(before[i]) != [] && SetsDomain(AttributeOf(before[i]));
      assert Trim(now[i]) != [] && SetsDomain(AttributeOf(now[i]));
    }
  }

  /**
   * A cookie that is accepted without a Path attribute, not expired, and not Secure over http, matches its own
   * response URL if and only if it names a domain or the host does not begin with a dot.
   */
  lemma OwnUrlMatchesExactly(value: Text, url: Url, now: int, later: int, parseDate: Text -> Option<int>)
    requires IsParsed(url) && ParseSetCookie(value, url, now, parseDate).Ok?
    requires !SomeSetsPath(Split(value, SEMICOLON)[1..])
    requires var d := ParseSetCookie(value, url, now, parseDate).value; !Expired(d, later) && (d.secure ==> url.https)
    ensures Matches(ParseSetCookie(value, url, now, parseDate).value, url, later)
       <==> SomeSetsDomain(Split(value, SEMICOLON)[1..]) || !([DOT] <= url.hostname)
  {
    var parts := Split(value, SEMICOLON);
    var rest := parts[1..];
    var s := TakeAttributes(rest, |rest|, url, parseDate).value;
    AttributesKeep(rest, |rest|, url, parseDate);
    assert rest[..|rest|] == rest;
    LowerNothing(url.hostname);
    var path := DefaultPath(url.pathname);
    DefaultPathMatches(url.pathname);
    assert forall i | 0 <= i < |path| :: path[i] == url.pathname[i];
    TrimNothing(path);
    if s.hostOnly {
      HostNormalizes(url.hostname);
      assert [DOT] <= url.hostname <==> url.hostname[0] == DOT;
    }
    hide TakeAttributes, Split, NormalizeDomain, DefaultPath, PathMatches, DomainMatches, SomeSetsDomain, SomeSetsPath, Trim, Lower;
  }
}
