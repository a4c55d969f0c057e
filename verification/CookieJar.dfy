/** The repository of cookies, what a jar keeps, and the Cookie header it sends. */
module CookieJar {
  import opened CodeUnits
  import opened Cookies
  import opened Wrappers

  // ---------------------------------------------------------------- the repository

  predicate SameIdentity(a: Cookie, b: Cookie) {
    a.workspace == b.workspace && a.draft.name == b.draft.name && a.draft.domain == b.draft.domain && a.draft.path == b.draft.path
  }

  /** The position of a cookie in insertion order; the number of cookies if there is none with the id. */
  function Position(store: seq<Cookie>, id: Text): (i: nat)
    ensures i <= |store| && (i < |store| ==> store[i].id == id) && forall k | 0 <= k < i :: store[k].id != id
  {
    if store == [] || store[0].id == id then 0 else 1 + Position(store[1..], id)
  }

  function Upsert(store: seq<Cookie>, c: Cookie): Result<seq<Cookie>> {
    var i := Position(store, c.id);
    if exists k | 0 <= k < |store| :: SameIdentity(store[k], c) && store[k].id != c.id then Err
    else if i == |store| then Ok(store + [c])
    else if store[i].workspace != c.workspace then Err
    else Ok(store[i := c])
  }

  function Filter(store: seq<Cookie>, keep: Cookie -> bool): (r: seq<Cookie>)
    ensures forall c :: c in r <==> c in store && keep(c)
  {
    if store == [] then []
    else if keep(store[|store| - 1]) then Filter(store[..|store| - 1], keep) + [store[|store| - 1]]
    else Filter(store[..|store| - 1], keep)
  }

  function Except(workspace: Text, id: Text): Cookie -> bool { (c: Cookie) => !(c.workspace == workspace && c.id == id) }

  function Outside(workspace: Text): Cookie -> bool { (c: Cookie) => c.workspace != workspace }

  function Unexpired(workspace: Text, now: int): Cookie -> bool {
    (c: Cookie) => !(c.workspace == workspace && Expired(c.draft, now))
  }

  function Due(workspace: Text, url: Url, now: int): Cookie -> bool {
    (c: Cookie) => c.workspace == workspace && Matches(c.draft, url, now)
  }

  function Delete(store: seq<Cookie>, workspace: Text, id: Text): seq<Cookie> {
    Filter(store, Except(workspace, id))
  }

  function Clear(store: seq<Cookie>, workspace: Text): seq<Cookie> {
    Filter(store, Outside(workspace))
  }

  function DeleteExpired(store: seq<Cookie>, workspace: Text, now: int): seq<Cookie> {
    Filter(store, Unexpired(workspace, now))
  }

  datatype Operation =
    | Put(cookie: Cookie)
    | Remove(workspace: Text, id: Text)
    | Empty(workspace: Text)
    | Expire(workspace: Text, now: int)

  function Apply(store: seq<Cookie>, op: Operation): seq<Cookie> {
    match op
    case Put(c) => if Upsert(store, c).Ok? then Upsert(store, c).value else store
    case Remove(workspace, id) => Delete(store, workspace, id)
    case Empty(workspace) => Clear(store, workspace)
    case Expire(workspace, now) => DeleteExpired(store, workspace, now)
  }

  function ApplyAll(store: seq<Cookie>, ops: seq<Operation>): seq<Cookie> {
    if ops == [] then store else Apply(ApplyAll(store, ops[..|ops| - 1]), ops[|ops| - 1])
  }

  /** Ids are unique, and no workspace has two cookies with one name, domain and path. */
  predicate IsJar(store: seq<Cookie>) {
    forall i, j | 0 <= i < j < |store| :: store[i].id != store[j].id && !SameIdentity(store[i], store[j])
  }

  lemma {:induction false} FilterKeepsJar(store: seq<Cookie>, keep: Cookie -> bool)
    requires IsJar(store)
    ensures IsJar(Filter(store, keep))
  {
    if store != [] {
      var init, last := store[..|store| - 1], store[|store| - 1];
      FilterKeepsJar(init, keep);
      hide SameIdentity;
      forall i | 0 <= i < |Filter(init, keep)|
        ensures Filter(init, keep)[i].id != last.id && !SameIdentity(Filter(init, keep)[i], last)
      {
        assert Filter(init, keep)[i] in Filter(init, keep);
        var k :| 0 <= k < |init| && init[k] == Filter(init, keep)[i];
        assert store[k] == init[k];
      }
    }
  }

  lemma UpsertKeepsJar(store: seq<Cookie>, c: Cookie)
    requires IsJar(store) && Upsert(store, c).Ok?
    ensures IsJar(Upsert(store, c).value)
  {
    var i := Position(store, c.id);
    var r := Upsert(store, c).value;
    assert forall k | 0 <= k < |store| :: SameIdentity(store[k], c) ==> store[k].id == c.id;
    assert forall k | 0 <= k < |store| && k != i :: r[k] == store[k] && store[k].id != c.id;
  }

  /** Every sequence of repository operations, whoever makes them, leaves a jar. */
  lemma {:induction false} EveryJarIsUnique(store: seq<Cookie>, ops: seq<Operation>)
    requires IsJar(store)
    ensures IsJar(ApplyAll(store, ops))
  {
    if ops != [] {
      EveryJarIsUnique(store, ops[..|ops| - 1]);
      var before, op := ApplyAll(store, ops[..|ops| - 1]), ops[|ops| - 1];
      hide IsJar, Upsert, Filter;
      match op
      case Put(c) => if Upsert(before, c).Ok? { UpsertKeepsJar(before, c); }
      case Remove(workspace, id) => FilterKeepsJar(before, Except(workspace, id));
      case Empty(workspace) => FilterKeepsJar(before, Outside(workspace));
      case Expire(workspace, now) => FilterKeepsJar(before, Unexpired(workspace, now));
    }
  }

  // ---------------------------------------------------------------- the order of the header

  /** compareRequestCookies(a, b) < 0 */
  predicate Before(a: Cookie, b: Cookie) {
    if |a.draft.path| != |b.draft.path| then |a.draft.path| > |b.draft.path|
    else if a.createdAt != b.createdAt then a.createdAt < b.createdAt
    else a.rank < b.rank
  }

  predicate Sorted(s: seq<Cookie>) {
    forall i, j | 0 <= i < j < |s| :: !Before(s[j], s[i])
  }

  /** A stable insertion. */
  function Insert(c: Cookie, sorted: seq<Cookie>): (r: seq<Cookie>)
    ensures multiset(r) == multiset(sorted) + multiset{c}
  {
    if sorted == [] then [c]
    else
      var init, last := sorted[..|sorted| - 1], sorted[|sorted| - 1];
      assert sorted == init + [last];
      if Before(c, last) then Insert(c, init) + [last] else sorted + [c]
  }

  function Sort(s: seq<Cookie>): (r: seq<Cookie>)
    ensures multiset(r) == multiset(s)
  {
    if s == [] then []
    else
      assert s == s[..|s| - 1] + [s[|s| - 1]];
      Insert(s[|s| - 1], Sort(s[..|s| - 1]))
  }

  lemma InMultiset(s: seq<Cookie>, c: Cookie)
    ensures c in s <==> c in multiset(s)
  {
  }

  lemma BeforeOneWay(a: Cookie, b: Cookie)
    requires Before(a, b)
    ensures !Before(b, a)
  {
  }

  lemma NotBefore(a: Cookie, b: Cookie, c: Cookie)
    ensures !Before(a, b) && (b == c || !Before(b, c)) ==> !Before(a, c)
  {
  }

  lemma {:induction false} InsertSorts(c: Cookie, sorted: seq<Cookie>)
    requires Sorted(sorted)
    ensures Sorted(Insert(c, sorted))
  {
    hide Before;
    if sorted != [] {
      var init, last := sorted[..|sorted| - 1], sorted[|sorted| - 1];
      if Before(c, last) {
        assert Sorted(init);
        InsertSorts(c, init);
        var r := Insert(c, init);
        BeforeOneWay(c, last);
        forall i | 0 <= i < |r| ensures !Before(last, r[i]) {
          InMultiset(r, r[i]);
          if r[i] != c {
            InMultiset(init, r[i]);
            var k :| 0 <= k < |init| && init[k] == r[i];
            assert !Before(sorted[|sorted| - 1], sorted[k]);
          }
        }
      } else {
        forall i | 0 <= i < |sorted| ensures !Before(c, sorted[i]) {
          assert i < |sorted| - 1 ==> !Before(last, sorted[i]);
          NotBefore(c, last, sorted[i]);
        }
      }
    }
  }

  lemma {:induction false} SortSorts(s: seq<Cookie>)
    ensures Sorted(Sort(s))
  {
    if s != [] {
      SortSorts(s[..|s| - 1]);
      InsertSorts(s[|s| - 1], Sort(s[..|s| - 1]));
    }
  }

  // ---------------------------------------------------------------- the header

  /** The cookies that getCookieHeader sends, in its order. */
  function RequestCookies(store: seq<Cookie>, workspace: Text, url: Url, now: int): seq<Cookie> {
    Sort(Filter(DeleteExpired(store, workspace, now), Due(workspace, url, now)))
  }

  function PairOf(c: Cookie): Text {
    c.draft.name + [EQUALS] + c.draft.value
  }

  function JoinPairs(cookies: seq<Cookie>): Text {
    if cookies == [] then []
    else if |cookies| == 1 then PairOf(cookies[0])
    else JoinPairs(cookies[..|cookies| - 1]) + [SEMICOLON, SPACE] + PairOf(cookies[|cookies| - 1])
  }

  /** A stored cookie that the request is due. */
  predicate IsDue(store: seq<Cookie>, workspace: Text, url: Url, now: int, c: Cookie) {
    c in store && c.workspace == workspace && Matches(c.draft, url, now)
  }

  predicate NoRepeat(s: seq<Cookie>) {
    forall i, j | 0 <= i < j < |s| :: s[i] != s[j]
  }

  lemma {:induction false} DistinctMultiset(s: seq<Cookie>)
    requires forall i, j | 0 <= i < j < |s| :: s[i] != s[j]
    ensures forall c :: multiset(s)[c] <= 1
  {
    if s != [] {
      var init, last := s[..|s| - 1], s[|s| - 1];
      DistinctMultiset(init);
      assert s == init + [last];
      forall c ensures multiset(s)[c] <= 1 {
        InMultiset(init, c);
        if c in init {
          var k :| 0 <= k < |init| && init[k] == c;
          assert s[k] == c;
        }
      }
    }
  }

  lemma {:induction false} MultisetDistinct(s: seq<Cookie>)
    requires forall c :: multiset(s)[c] <= 1
    ensures NoRepeat(s)
  {
    if s != [] {
      var init, last := s[..|s| - 1], s[|s| - 1];
      assert s == init + [last];
      forall c ensures multiset(init)[c] <= 1 { assert multiset(s)[c] <= 1; }
      MultisetDistinct(init);
      InMultiset(init, last);
      assert multiset(s)[last] == multiset(init)[last] + 1;
      forall i, j | 0 <= i < j < |s| ensures s[i] != s[j] {
        assert s[i] == init[i];
        assert j < |init| ==> s[j] == init[j];
      }
    }
  }

  /** The header lists exactly the due cookies, each once, longer paths first and older cookies first among equal paths. */
  lemma HeaderIsExact(store: seq<Cookie>, workspace: Text, url: Url, now: int)
    requires IsJar(store)
    ensures var r := RequestCookies(store, workspace, url, now);
            Sorted(r) && NoRepeat(r) && forall c :: c in r <==> IsDue(store, workspace, url, now, c)
  {
    var kept := DeleteExpired(store, workspace, now);
    var due := Filter(kept, Due(workspace, url, now));
    var r := RequestCookies(store, workspace, url, now);
    SortSorts(due);
    FilterKeepsJar(store, Unexpired(workspace, now));
    FilterKeepsJar(kept, Due(workspace, url, now));
    assert r == Sort(due) && multiset(r) == multiset(due);
    assert forall c :: c in due <==> IsDue(store, workspace, url, now, c);
    hide Sort, Filter, Matches, DeleteExpired, Sorted, RequestCookies, IsDue, SameIdentity;
    DistinctMultiset(due);
    MultisetDistinct(r);
    forall c ensures c in r <==> c in due {
      InMultiset(r, c);
      InMultiset(due, c);
    }
  }

  // ---------------------------------------------------------------- storing a response

  predicate HasIdentity(c: Cookie, workspace: Text, d: Draft) {
    c.workspace == workspace && c.draft.name == d.name && c.draft.domain == d.domain && c.draft.path == d.path
  }

  /** The first cookie of the workspace with the identity of a parsed cookie. */
  function Existing(store: seq<Cookie>, workspace: Text, d: Draft): (i: nat)
    ensures i <= |store| && (i < |store| ==> HasIdentity(store[i], workspace, d))
    ensures forall k | 0 <= k < i :: !HasIdentity(store[k], workspace, d)
  {
    if store == [] || HasIdentity(store[0], workspace, d) then 0 else 1 + Existing(store[1..], workspace, d)
  }

  datatype Stored = Stored(store: seq<Cookie>, rejected: nat)

  /** One Set-Cookie header; id and rank are those of the next generated id. */
  function StoreOne(s: Stored, workspace: Text, value: Text, url: Url, now: int, parseDate: Text -> Option<int>,
                    id: Text, rank: int): Stored
  {
    var parsed := ParseSetCookie(value, url, now, parseDate);
    if parsed.Err? then s.(rejected := s.rejected + 1)
    else
      var d := parsed.value;
      var i := Existing(s.store, workspace, d);
      if Expired(d, now) then
        if i < |s.store| then s.(store := Delete(s.store, workspace, s.store[i].id)) else s
      else
        var r := Upsert(s.store, CookieFor(s.store, i, workspace, d, now, id, rank));
        if r.Ok? then s.(store := r.value) else s.(rejected := s.rejected + 1)
  }

  /** An existing cookie keeps its id and its creation time. */
  function CookieFor(store: seq<Cookie>, i: nat, workspace: Text, d: Draft, now: int, id: Text, rank: int): Cookie {
    if i < |store| then Cookie(store[i].id, store[i].rank, workspace, d, store[i].createdAt, now)
    else Cookie(id, rank, workspace, d, now, now)
  }

  function StoreHeaders(store: seq<Cookie>, workspace: Text, values: seq<Text>, n: nat, url: Url, now: int,
                        parseDate: Text -> Option<int>, ids: nat -> Text, ranks: nat -> int): Stored
    requires n <= |values|
  {
    if n == 0 then Stored(store, 0)
    else
      StoreOne(StoreHeaders(store, workspace, values, n - 1, url, now, parseDate, ids, ranks),
               workspace, values[n - 1], url, now, parseDate, ids(n - 1), ranks(n - 1))
  }

  /** storeFromResponse */
  function StoreFromResponse(store: seq<Cookie>, workspace: Text, values: seq<Text>, url: Url, now: int,
                             parseDate: Text -> Option<int>, ids: nat -> Text, ranks: nat -> int): Stored
  {
    var s := StoreHeaders(store, workspace, values, |values|, url, now, parseDate, ids, ranks);
    s.(store := DeleteExpired(s.store, workspace, now))
  }

  /** When nobody stores in between, an accepted cookie that is not expired is always stored, with a new id or that of the cookie it replaces. */
  lemma StoreOneStores(store: seq<Cookie>, workspace: Text, d: Draft, now: int, id: Text, rank: int)
    requires IsJar(store) && forall k | 0 <= k < |store| :: store[k].id != id
    ensures var c := CookieFor(store, Existing(store, workspace, d), workspace, d, now, id, rank);
            Upsert(store, c).Ok? && c in Upsert(store, c).value
  {
    var i := Existing(store, workspace, d);
    var c := CookieFor(store, i, workspace, d, now, id, rank);
    if i < |store| {
      assert Position(store, c.id) == i;
      forall k | 0 <= k < |store| && SameIdentity(store[k], c) ensures store[k].id == c.id {
        assert SameIdentity(store[k], store[i]) && HasIdentity(store[k], workspace, d);
      }
      assert store[i := c][i] == c;
    } else {
      assert Position(store, id) == |store|;
      forall k | 0 <= k < |store| ensures !SameIdentity(store[k], c) {
        assert !HasIdentity(store[k], workspace, d);
      }
      assert (store + [c])[|store|] == c;
    }
  }

  /**
   * Others may store between the listing and the upsert. The upsert of a cookie that was composed from an older listing is refused if and
   * only if by then a cookie with its identity is there under another id, or its id is that of a cookie of another workspace; otherwise
   * the cookie is stored.
   */
  lemma UpsertRefusedExactly(listed: seq<Cookie>, live: seq<Cookie>, workspace: Text, d: Draft, now: int, id: Text, rank: int)
    requires IsJar(live)
    ensures var c := CookieFor(listed, Existing(listed, workspace, d), workspace, d, now, id, rank);
            && (Upsert(live, c).Err? <==>
                  || (exists k | 0 <= k < |live| :: HasIdentity(live[k], workspace, d) && live[k].id != c.id)
                  || (exists k | 0 <= k < |live| :: live[k].id == c.id && live[k].workspace != workspace))
            && (Upsert(live, c).Ok? ==> c in Upsert(live, c).value && IsJar(Upsert(live, c).value))
  {
    var c := CookieFor(listed, Existing(listed, workspace, d), workspace, d, now, id, rank);
    var i := Position(live, c.id);
    forall k | 0 <= k < |live| ensures SameIdentity(live[k], c) <==> HasIdentity(live[k], workspace, d) {}
    forall k | 0 <= k < |live| && live[k].id == c.id ensures k == i {}
    if Upsert(live, c).Ok? {
      UpsertKeepsJar(live, c);
      if i == |live| { assert (live + [c])[i] == c; } else { assert live[i := c][i] == c; }
    }
    hide IsJar, Existing, Position;
  }

  /** Two responses that set the same new cookie at the same time: both have listed the store, and the second one is refused. */
  lemma SecondIsRefused(store: seq<Cookie>, workspace: Text, d: Draft, e: Draft, now: int, later: int,
                        first: Text, second: Text, rank: int)
    requires IsJar(store) && Existing(store, workspace, d) == |store| && first != second
    requires e.name == d.name && e.domain == d.domain && e.path == d.path
    requires forall k | 0 <= k < |store| :: store[k].id != first && store[k].id != second
    ensures var a := CookieFor(store, Existing(store, workspace, d), workspace, d, now, first, rank);
            var b := CookieFor(store, Existing(store, workspace, e), workspace, e, later, second, rank);
            Upsert(store, a).Ok? && Upsert(Upsert(store, a).value, b).Err?
  {
    StoreOneStores(store, workspace, d, now, first, rank);
    var a := CookieFor(store, Existing(store, workspace, d), workspace, d, now, first, rank);
    var b := CookieFor(store, Existing(store, workspace, e), workspace, e, later, second, rank);
    SameListing(store, workspace, d, e);
    assert b == Cookie(second, rank, workspace, e, later, later) && a.id == first;
    var live := Upsert(store, a).value;
    hide Upsert, Existing, IsJar;
    var k :| 0 <= k < |live| && live[k] == a;
    TwinIsRefused(live, b, k);
  }

  lemma TwinIsRefused(store: seq<Cookie>, c: Cookie, k: nat)
    requires k < |store| && SameIdentity(store[k], c) && store[k].id != c.id
    ensures Upsert(store, c).Err?
  {
  }

  lemma {:induction false} SameListing(store: seq<Cookie>, workspace: Text, d: Draft, e: Draft)
    requires e.name == d.name && e.domain == d.domain && e.path == d.path
    ensures Existing(store, workspace, e) == Existing(store, workspace, d)
  {
    if store != [] { SameListing(store[1..], workspace, d, e); }
  }

  /**
   * A response cookie without a Path attribute comes back to its own URL: the request is due the cookie just stored
   * if and only if the cookie names a domain or the host does not begin with a dot.
   */
  lemma ResponseCookieComesBack(store: seq<Cookie>, workspace: Text, value: Text, url: Url, now: int, later: int,
                                parseDate: Text -> Option<int>, id: Text, rank: int)
    requires IsJar(store) && forall k | 0 <= k < |store| :: store[k].id != id
    requires IsParsed(url) && ParseSetCookie(value, url, now, parseDate).Ok? && !SomeSetsPath(Split(value, SEMICOLON)[1..])
    requires var d := ParseSetCookie(value, url, now, parseDate).value;
             !Expired(d, now) && !Expired(d, later) && (d.secure ==> url.https)
    ensures var d := ParseSetCookie(value, url, now, parseDate).value;
            var c := CookieFor(store, Existing(store, workspace, d), workspace, d, now, id, rank);
            var s := StoreOne(Stored(store, 0), workspace, value, url, now, parseDate, id, rank);
            s.rejected == 0 && IsJar(s.store) && c in s.store && c.draft == d
            && (c in RequestCookies(s.store, workspace, url, later)
                <==> SomeSetsDomain(Split(value, SEMICOLON)[1..]) || !([DOT] <= url.hostname))
  {
    var d := ParseSetCookie(value, url, now, parseDate).value;
    var c := CookieFor(store, Existing(store, workspace, d), workspace, d, now, id, rank);
    StoreOneStores(store, workspace, d, now, id, rank);
    UpsertKeepsJar(store, c);
    var s := StoreOne(Stored(store, 0), workspace, value, url, now, parseDate, id, rank);
    assert s == Stored(Upsert(store, c).value, 0) by { hide ParseSetCookie, Existing, Upsert; }
    OwnUrlMatchesExactly(value, url, now, later, parseDate);
    hide ParseSetCookie, Existing, Upsert, StoreOne, IsJar, RequestCookies, Matches, Split, SomeSetsPath, SomeSetsDomain, Expired;
    HeaderIsExact(s.store, workspace, url, later);
  }

  /** Storing the headers of a response, good or bad, leaves a jar. */
  lemma {:induction false} StoringKeepsJar(store: seq<Cookie>, workspace: Text, values: seq<Text>, n: nat, url: Url, now: int,
                                           parseDate: Text -> Option<int>, ids: nat -> Text, ranks: nat -> int)
    requires IsJar(store) && n <= |values|
    ensures IsJar(StoreHeaders(store, workspace, values, n, url, now, parseDate, ids, ranks).store)
  {
    if n > 0 {
      hide IsJar, StoreOne;
      StoringKeepsJar(store, workspace, values, n - 1, url, now, parseDate, ids, ranks);
      var s := StoreHeaders(store, workspace, values, n - 1, url, now, parseDate, ids, ranks);
      StoreOneKeepsJar(s, workspace, values[n - 1], url, now, parseDate, ids(n - 1), ranks(n - 1));
    }
  }

  lemma StoreOneKeepsJar(s: Stored, workspace: Text, value: Text, url: Url, now: int, parseDate: Text -> Option<int>,
                         id: Text, rank: int)
    requires IsJar(s.store)
    ensures IsJar(StoreOne(s, workspace, value, url, now, parseDate, id, rank).store)
  {
    hide IsJar, ParseSetCookie, Existing, Upsert, Filter, Except, Expired, CookieFor;
    var parsed := ParseSetCookie(value, url, now, parseDate);
    if parsed.Ok? {
      var i := Existing(s.store, workspace, parsed.value);
      var c := CookieFor(s.store, i, workspace, parsed.value, now, id, rank);
      if i < |s.store| { FilterKeepsJar(s.store, Except(workspace, s.store[i].id)); }
      if Upsert(s.store, c).Ok? { UpsertKeepsJar(s.store, c); }
    }
  }

  // ---------------------------------------------------------------- the imperative form

  class Jar {
    var cookies: seq<Cookie>

    constructor ()
      ensures cookies == []
    {
      cookies := [];
    }

    method Keep(keep: Cookie -> bool)
      modifies this
      ensures cookies == Filter(old(cookies), keep)
    {
      var kept: seq<Cookie> := [];
      for i := 0 to |cookies|
        invariant cookies == old(cookies) && kept == Filter(cookies[..i], keep)
      {
        assert cookies[..i + 1][..i] == cookies[..i];
        if keep(cookies[i]) { kept := kept + [cookies[i]]; }
      }
      assert cookies[..|cookies|] == cookies;
      cookies := kept;
    }

    method GetCookieHeader(workspace: Text, url: Url, now: int) returns (header: Option<Text>)
      modifies this
      ensures cookies == DeleteExpired(old(cookies), workspace, now)
      ensures var due := RequestCookies(old(cookies), workspace, url, now);
              header == if due == [] then None else Some(JoinPairs(due))
    {
      Keep(Unexpired(workspace, now));
      var due := Sort(Filter(cookies, Due(workspace, url, now)));
      header := if due == [] then None else Some(JoinPairs(due));
    }

    /** One header: the body of the try statement, and whether it threw. */
    method StoreHeader(workspace: Text, value: Text, url: Url, now: int, parseDate: Text -> Option<int>,
                       id: Text, rank: int, ghost rejected: nat)
      returns (refused: bool)
      modifies this
      ensures Stored(cookies, if refused then rejected + 1 else rejected)
           == StoreOne(Stored(old(cookies), rejected), workspace, value, url, now, parseDate, id, rank)
    {
      hide ParseSetCookie, Upsert, Existing, Filter;
      var parsed := ParseHeader(value, url, now, parseDate);
      if parsed.Err? { return true; }
      var d := parsed.value;
      var existing := Existing(cookies, workspace, d);
      if Expired(d, now) {
        if existing < |cookies| {
          var known := cookies[existing].id;
          cookies := Delete(cookies, workspace, known);
        }
        return false;
      }
      var r := Upsert(cookies, CookieFor(cookies, existing, workspace, d, now, id, rank));
      if r.Ok? { cookies := r.value; }
      refused := r.Err?;
    }

    method StoreResponse(workspace: Text, values: seq<Text>, url: Url, now: int,
                         parseDate: Text -> Option<int>, ids: nat -> Text, ranks: nat -> int)
      returns (rejected: nat)
      modifies this
      ensures Stored(cookies, rejected) == StoreFromResponse(old(cookies), workspace, values, url, now, parseDate, ids, ranks)
    {
      hide StoreOne;
      rejected := 0;
      for n := 0 to |values|
        invariant Stored(cookies, rejected) == StoreHeaders(old(cookies), workspace, values, n, url, now, parseDate, ids, ranks)
      {
        var refused := StoreHeader(workspace, values[n], url, now, parseDate, ids(n), ranks(n), rejected);
        if refused { rejected := rejected + 1; }
      }
      Keep(Unexpired(workspace, now));
    }
  }
}
