/** The bearer challenge of the Docker Registry HTTP API v2 token flow, as
    `update_token` reads it: the header value is matched against
      ^Bearer\s+realm="(.+)",service="(.+)",scope="(.+)",?
    with Python's `re.match`, only the first comma-separated part of the
    scope is kept, and the token URL is built by plain concatenation. */
module Challenge {
  import opened Wrappers
  import opened Http

  datatype Challenge = Challenge(realm: string, service: string, scope: string)

  const Keyword := "Bearer"
  const RealmOpen := "realm=\""
  const ServiceMid := "\",service=\""
  const ScopeMid := "\",scope=\""
  const Quote := "\""

  predicate AllSpace(w: string) {
    forall i :: 0 <= i < |w| ==> IsSpace(w[i])
  }

  /** Length of the leading run of whitespace, all of which `\s+` takes. */
  function SpaceRun(s: string): (n: nat)
    ensures n <= |s| && AllSpace(s[..n])
    ensures n < |s| ==> !IsSpace(s[n])
  {
    if s != [] && IsSpace(s[0]) then
      var n := 1 + SpaceRun(s[1..]);
      assert s[..n] == [s[0]] + s[1..][..n - 1];
      n
    else 0
  }

  /** The text of x before the first sep; all of x when sep does not occur.
      With ',' this is `x.split(',')[0]`; with '\n' it is the first line,
      the only one a `.`-pattern can reach. */
  function Before(x: string, sep: char): (r: string)
    ensures r <= x && sep !in r
    ensures |r| < |x| ==> x[|r|] == sep
  {
    if x == [] || x[0] == sep then [] else [x[0]] + Before(x[1..], sep)
  }

  /** The literal lit occurs in l at position p. */
  predicate At(l: string, p: nat, lit: string) {
    p + |lit| <= |l| && l[p..p + |lit|] == lit
  }

  // Group 3 closes at a quote, group 2 at a `",scope="` and group 1 at a
  // `",service="`, all on the first line l of the text after `realm="`.
  // Greedy `.+` with backtracking makes group 1 as long as possible, then
  // group 2, then group 3; on one line that means: the LAST quote, the last
  // `",scope="` leaving room for a non-empty group 3 before that quote, and
  // the last `",service="` leaving room for a non-empty group 2 before that.

  /** A `",scope="` at b opens a non-empty group 3 that the quote at c closes. */
  predicate OpensScope(l: string, b: nat, c: nat) {
    At(l, b, ScopeMid) && b + |ScopeMid| < c
  }

  /** A `",service="` at a ends a non-empty group 1 and opens a non-empty
      group 2 that the `",scope="` at b closes. */
  predicate OpensService(l: string, a: nat, b: nat) {
    0 < a && At(l, a, ServiceMid) && a + |ServiceMid| < b
  }

  /** The three groups can end at a, b and c. */
  predicate Fits(l: string, a: nat, b: nat, c: nat) {
    OpensService(l, a, b) && OpensScope(l, b, c) && c < |l| && l[c] == '"'
  }

  /** The last quote below hi. */
  function LastQuote(l: string, hi: nat): (c: Option<nat>)
    requires hi <= |l|
    ensures c.Some? ==> c.value < hi && l[c.value] == '"'
  {
    if hi == 0 then None else if l[hi - 1] == '"' then Some(hi - 1) else LastQuote(l, hi - 1)
  }

  /** The last `",scope="` below hi that leaves group 3 room before c. */
  function LastScope(l: string, hi: nat, c: nat): (b: Option<nat>)
    ensures b.Some? ==> b.value < hi && OpensScope(l, b.value, c)
  {
    if hi == 0 then None else if OpensScope(l, hi - 1, c) then Some(hi - 1) else LastScope(l, hi - 1, c)
  }

  /** The last `",service="` below hi that leaves group 2 room before b. */
  function LastService(l: string, hi: nat, b: nat): (a: Option<nat>)
    ensures a.Some? ==> a.value < hi && OpensService(l, a.value, b)
  {
    if hi == 0 then None else if OpensService(l, hi - 1, b) then Some(hi - 1) else LastService(l, hi - 1, b)
  }

  /** Each search finds a position at or beyond every one that qualifies. */
  lemma {:induction false} LastQuoteMax(l: string, hi: nat, c: nat)
    requires c < hi <= |l| && l[c] == '"'
    ensures LastQuote(l, hi).Some? && LastQuote(l, hi).value >= c
  {
    if l[hi - 1] != '"' { LastQuoteMax(l, hi - 1, c); }
  }

  lemma {:induction false} LastScopeMax(l: string, hi: nat, c: nat, b: nat)
    requires b < hi && OpensScope(l, b, c)
    ensures LastScope(l, hi, c).Some? && LastScope(l, hi, c).value >= b
  {
    if !OpensScope(l, hi - 1, c) { LastScopeMax(l, hi - 1, c, b); }
  }

  lemma {:induction false} LastServiceMax(l: string, hi: nat, b: nat, a: nat)
    requires a < hi && OpensService(l, a, b)
    ensures LastService(l, hi, b).Some? && LastService(l, hi, b).value >= a
  {
    if !OpensService(l, hi - 1, b) { LastServiceMax(l, hi - 1, b, a); }
  }

  /** Where the three groups of the pattern end on the line l, or None. */
  function Ends(l: string): (e: Option<(nat, nat, nat)>)
    ensures e.Some? ==> Fits(l, e.value.0, e.value.1, e.value.2)
  {
    match LastQuote(l, |l|)
    case None => None
    case Some(c) =>
      match LastScope(l, |l|, c)
      case None => None
      case Some(b) =>
        match LastService(l, |l|, b)
        case None => None
        case Some(a) => Some((a, b, c))
  }

  /** The text after `Bearer`, the whitespace run and `realm="`, when the
      header starts that way (the anchored part of the pattern). */
  function Prologue(h: string): (r: Option<string>)
    ensures r.Some? ==>
      && |Keyword| < |h| - |r.value| - |RealmOpen|
      && var w := h[|Keyword|..|h| - |r.value| - |RealmOpen|];
         h == Keyword + w + RealmOpen + r.value && AllSpace(w)
  {
    if |h| < |Keyword| || h[..|Keyword|] != Keyword then None
    else
      var rest := h[|Keyword|..];
      var n := SpaceRun(rest);
      if n == 0 || |rest| - n < |RealmOpen| || rest[n..n + |RealmOpen|] != RealmOpen then None
      else
        var t := rest[n + |RealmOpen|..];
        assert h == Keyword + rest[..n] + RealmOpen + t;
        Some(t)
  }

  /** The groups, read from the text t after `realm="`. */
  function Groups(t: string): Option<(string, string, string)> {
    var l := Before(t, '\n');
    match Ends(l)
    case None => None
    case Some(e) => Some((l[..e.0], l[e.0 + |ServiceMid|..e.1], l[e.1 + |ScopeMid|..e.2]))
  }

  /** The three groups of the pattern, or None when `re.match` fails. */
  function Match(h: string): Option<(string, string, string)> {
    match Prologue(h)
    case None => None
    case Some(t) => Groups(t)
  }

  /** The challenge `update_token` extracts from the header value. */
  function Parse(h: string): Option<Challenge> {
    match Match(h)
    case None => None
    case Some(g) => Some(Challenge(g.0, g.1, Before(g.2, ',')))
  }

  const ServiceQuery := "?service="
  const ScopeQuery := "&expires_in=900&scope="

  /** The token-issuance URL: the parts are concatenated without encoding. */
  function TokenUrl(c: Challenge): string {
    c.realm + ServiceQuery + c.service + ScopeQuery + c.scope
  }

  /** Reads a token URL back into its parts, taking the realm up to the
      first '?' and the service up to the first '&'. */
  function SplitTokenUrl(u: string): Option<Challenge> {
    var realm := Before(u, '?');
    match After(ServiceQuery, u[|realm|..])
    case None => None
    case Some(afterService) =>
      var service := Before(afterService, '&');
      match After(ScopeQuery, afterService[|service|..])
      case None => None
      case Some(scope) => Some(Challenge(realm, service, scope))
  }

  /** The text after a leading literal p, if u starts with it. */
  function After(p: string, u: string): (r: Option<string>)
    ensures r.Some? ==> u == p + r.value
  {
    if p <= u then Some(u[|p|..]) else None
  }

  lemma AfterConcat(p: string, v: string)
    ensures After(p, p + v) == Some(v)
  {
    assert (p + v)[..|p|] == p;
  }

  // ---------------------------------------------------------------------
  // The anchored prologue `^Bearer\s+realm="`.

  lemma {:induction false} SpaceRunAll(w: string, rest: string)
    requires AllSpace(w) && (rest == [] || !IsSpace(rest[0]))
    ensures SpaceRun(w + rest) == |w|
  {
    if w != [] {
      assert (w + rest)[1..] == w[1..] + rest;
      SpaceRunAll(w[1..], rest);
    }
  }

  /** Every header of the form `Bearer`, whitespace, `realm="`, t has the
      prologue t. */
  lemma PrologueComplete(h: string, w: string, t: string)
    requires h == Keyword + w + RealmOpen + t && w != [] && AllSpace(w)
    ensures Prologue(h) == Some(t)
  {
    assert h[..|Keyword|] == Keyword;
    var rest := h[|Keyword|..];
    assert rest == w + (RealmOpen + t);
    assert !IsSpace((RealmOpen + t)[0]);
    SpaceRunAll(w, RealmOpen + t);
    assert rest[|w|..] == RealmOpen + t;
  }

  // ---------------------------------------------------------------------
  // Soundness and greediness of Match.

  /** r, s and x are a way for the three groups to match the text t after
      `realm="`: each non-empty and free of newlines, in their places
      between the delimiters and the closing quote. */
  ghost predicate Splits(t: string, r: string, s: string, x: string) {
    Delimited(t, r, s, x, ServiceMid, ScopeMid)
  }

  /** t starts with r, m1, s, m2, x and a quote, where r, s and x are
      non-empty and hold no newline. */
  ghost predicate Delimited(t: string, r: string, s: string, x: string, m1: string, m2: string) {
    && 0 < |r| && 0 < |s| && 0 < |x|
    && '\n' !in r && '\n' !in s && '\n' !in x
    && var a := |r|; var b := a + |m1| + |s|; var c := b + |m2| + |x|;
       && c < |t| && t[..a] == r && At(t, a, m1) && t[a + |m1|..b] == s
       && At(t, b, m2) && t[b + |m2|..c] == x && t[c] == '"'
  }

  /** Lexicographic order on the lengths of the three groups. */
  ghost predicate AtLeastAsLong(g: (string, string, string), r: string, s: string, x: string) {
    || |g.0| > |r|
    || (|g.0| == |r| && (|g.1| > |s| || (|g.1| == |s| && |g.2| >= |x|)))
  }

  /** A character absent from l is absent from each slice of it. */
  lemma AbsentFromSlice(l: string, i: nat, j: nat, ch: char)
    requires i <= j <= |l| && ch !in l
    ensures ch !in l[i..j]
  {
  }

  /** Positions that fit on the first line cut out a way to match. */
  lemma SplitsFromFit(t: string, a: nat, b: nat, c: nat)
    requires Fits(Before(t, '\n'), a, b, c)
    ensures var l := Before(t, '\n');
      Splits(t, l[..a], l[a + |ServiceMid|..b], l[b + |ScopeMid|..c])
  {
    var l := Before(t, '\n');
    CutOut(t, l, a, b, c, ServiceMid, ScopeMid);
  }

  /** Cutting the first line around two delimiters is a way to match. */
  lemma CutOut(t: string, l: string, a: nat, b: nat, c: nat, m1: string, m2: string)
    requires l <= t && '\n' !in l
    requires 0 < a && a + |m1| < b && b + |m2| < c < |l|
    requires l[a..a + |m1|] == m1 && l[b..b + |m2|] == m2 && l[c] == '"'
    ensures Delimited(t, l[..a], l[a + |m1|..b], l[b + |m2|..c], m1, m2)
  {
    CutPieces(t, l, a, b, c, m1, m2);
  }

  /** The pieces of the first line between and around two delimiters are
      pieces of t. */
  lemma CutPieces(t: string, l: string, a: nat, b: nat, c: nat, m1: string, m2: string)
    requires l <= t && '\n' !in l
    requires 0 < a && a + |m1| < b && b + |m2| < c < |l|
    requires l[a..a + |m1|] == m1 && l[b..b + |m2|] == m2 && l[c] == '"'
    ensures && '\n' !in l[..a] && '\n' !in l[a + |m1|..b] && '\n' !in l[b + |m2|..c]
            && c < |t| && t[..a] == l[..a] && t[a..a + |m1|] == m1 && t[a + |m1|..b] == l[a + |m1|..b]
            && t[b..b + |m2|] == m2 && t[b + |m2|..c] == l[b + |m2|..c] && t[c] == '"'
  {
    AbsentFromSlice(l, 0, a, '\n');
    AbsentFromSlice(l, a + |m1|, b, '\n');
    AbsentFromSlice(l, b + |m2|, c, '\n');
    assert l == t[..|l|];
    SamePrefix(t, l, |l|, 0, a);
    SamePrefix(t, l, |l|, a, a + |m1|);
    SamePrefix(t, l, |l|, a + |m1|, b);
    SamePrefix(t, l, |l|, b, b + |m2|);
    SamePrefix(t, l, |l|, b + |m2|, c);
  }

  /** The groups Groups returns are a way for the pattern to match. */
  lemma GroupsSound(t: string)
    ensures Groups(t).Some? ==> Splits(t, Groups(t).value.0, Groups(t).value.1, Groups(t).value.2)
  {
    var l := Before(t, '\n');
    if Ends(l).Some? {
      var e := Ends(l).value;
      assert Groups(t) == Some((l[..e.0], l[e.0 + |ServiceMid|..e.1], l[e.1 + |ScopeMid|..e.2]));
      SplitsFromFit(t, e.0, e.1, e.2);
    }
  }

  /** The groups Match returns are a way for the pattern to match. */
  lemma MatchSound(h: string)
    ensures Match(h).Some? ==> Prologue(h).Some? && Splits(Prologue(h).value, Match(h).value.0, Match(h).value.1, Match(h).value.2)
  {
    if Prologue(h).Some? {
      GroupsSound(Prologue(h).value);
    }
  }

  /** No character ch in t between lo and hi. */
  lemma Avoids(t: string, lo: nat, hi: nat, ch: char)
    requires lo <= hi <= |t| && ch !in t[lo..hi]
    ensures forall i :: lo <= i < hi ==> t[i] != ch
  {
    forall i | lo <= i < hi
      ensures t[i] != ch
    {
      assert t[i] == t[lo..hi][i - lo];
    }
  }

  /** A position p with no newline at or before it lies on the first line. */
  lemma OnFirstLine(t: string, p: nat)
    requires p < |t| && forall i :: 0 <= i <= p ==> t[i] != '\n'
    ensures p < |Before(t, '\n')| && Before(t, '\n')[..p + 1] == t[..p + 1]
  {
  }

  /** Text that agrees with t up to k has t's slices below k. */
  lemma SamePrefix(t: string, l: string, k: nat, i: nat, j: nat)
    requires k <= |t| && k <= |l| && l[..k] == t[..k] && i <= j <= k
    ensures l[i..j] == t[i..j]
  {
    forall m | 0 <= m < j - i
      ensures l[i..j][m] == t[i..j][m]
    {
      assert l[i + m] == l[..k][i + m];
      assert t[i + m] == t[..k][i + m];
    }
  }

  /** No character of a way to match is a newline. */
  lemma SplitsOneLine(t: string, r: string, s: string, x: string)
    requires Splits(t, r, s, x)
    ensures forall i :: 0 <= i <= |r| + |ServiceMid| + |s| + |ScopeMid| + |x| ==> t[i] != '\n'
  {
    var a := |r|;
    var b := a + |ServiceMid| + |s|;
    var c := b + |ScopeMid| + |x|;
    assert '\n' !in ServiceMid && '\n' !in ScopeMid;
    Avoids(t, 0, a, '\n');
    Avoids(t, a, a + |ServiceMid|, '\n');
    Avoids(t, a + |ServiceMid|, b, '\n');
    Avoids(t, b, b + |ScopeMid|, '\n');
    Avoids(t, b + |ScopeMid|, c, '\n');
  }

  /** A way to match lies on the first line, at positions that fit. */
  lemma SplitsFit(t: string, r: string, s: string, x: string)
    requires Splits(t, r, s, x)
    ensures var l := Before(t, '\n'); var a := |r|; var b := a + |ServiceMid| + |s|; var c := b + |ScopeMid| + |x|;
      && Fits(l, a, b, c) && l[..a] == r && l[a + |ServiceMid|..b] == s && l[b + |ScopeMid|..c] == x
  {
    var l := Before(t, '\n');
    var a := |r|;
    var b := a + |ServiceMid| + |s|;
    var c := b + |ScopeMid| + |x|;
    SplitsOneLine(t, r, s, x);
    OnFirstLine(t, c);
    SamePrefix(t, l, c + 1, 0, a);
    SamePrefix(t, l, c + 1, a, a + |ServiceMid|);
    SamePrefix(t, l, c + 1, a + |ServiceMid|, b);
    SamePrefix(t, l, c + 1, b, b + |ScopeMid|);
    SamePrefix(t, l, c + 1, b + |ScopeMid|, c);
    SamePrefix(t, l, c + 1, c, c + 1);
    assert l[c] == l[c..c + 1][0];
  }

  /** Ends finds, in each component, positions at or beyond any that fit. */
  lemma EndsGreatest(l: string, a: nat, b: nat, c: nat)
    requires Fits(l, a, b, c)
    ensures Ends(l).Some?
    ensures Ends(l).value.0 >= a && Ends(l).value.1 >= b && Ends(l).value.2 >= c
  {
    LastQuoteMax(l, |l|, c);
    var c' := LastQuote(l, |l|).value;
    LastScopeMax(l, |l|, c', b);
    var b' := LastScope(l, |l|, c').value;
    LastServiceMax(l, |l|, b', a);
  }

  /** The groups Groups returns are at least as long, in the order greedy
      backtracking tries them, as those of any way to match. */
  lemma GroupsGreedy(t: string, r: string, s: string, x: string)
    requires Splits(t, r, s, x)
    ensures Groups(t).Some? && AtLeastAsLong(Groups(t).value, r, s, x)
  {
    SplitsFit(t, r, s, x);
    var a := |r|;
    var b := a + |ServiceMid| + |s|;
    GroupsLongest(t, a, b, b + |ScopeMid| + |x|);
  }

  /** Groups ends its groups, in order, at or beyond any positions that fit. */
  lemma GroupsLongest(t: string, a: nat, b: nat, c: nat)
    requires Fits(Before(t, '\n'), a, b, c)
    ensures Groups(t).Some?
    ensures var g := Groups(t).value;
      || |g.0| > a
      || (|g.0| == a && (|g.1| > b - a - |ServiceMid| || (|g.1| == b - a - |ServiceMid| && |g.2| >= c - b - |ScopeMid|)))
  {
    var l := Before(t, '\n');
    EndsGreatest(l, a, b, c);
  }

  /** When the pattern can match at all, Match succeeds, and its groups are
      the ones greedy backtracking selects: the first as long as possible,
      then the second, then the third. */
  lemma MatchGreedy(h: string, t: string, r: string, s: string, x: string)
    requires Prologue(h) == Some(t) && Splits(t, r, s, x)
    ensures Match(h).Some? && AtLeastAsLong(Match(h).value, r, s, x)
  {
    GroupsGreedy(t, r, s, x);
  }

  // ---------------------------------------------------------------------
  // A challenge whose values hold no quote parses to exactly those values.

  /** The character at offset k of a literal found at p. */
  lemma AtChar(l: string, p: nat, lit: string, k: nat)
    requires At(l, p, lit) && k < |lit|
    ensures l[p + k] == lit[k]
  {
    assert l[p + k] == l[p..p + |lit|][k];
  }

  /** When the only quotes after a are those of the delimiters at a and b
      and the one at c, the searches stop at exactly a, b and c. */
  lemma EndsExactly(l: string, a: nat, b: nat, c: nat)
    requires Fits(l, a, b, c)
    requires '"' !in l[a + |ServiceMid|..b] && '"' !in l[b + |ScopeMid|..c] && '"' !in l[c + 1..]
    ensures Ends(l) == Some((a, b, c))
  {
    DelimiterQuotes(l, a, b);
    Avoids(l, a + |ServiceMid|, b, '"');
    Avoids(l, b + |ScopeMid|, c, '"');
    Avoids(l, c + 1, |l|, '"');
    SearchesStop(l, a, b, c);
  }

  lemma SearchesStop(l: string, a: nat, b: nat, c: nat)
    requires Fits(l, a, b, c)
    requires forall i :: a < i < b && i != a + 10 ==> l[i] != '"'
    requires forall i :: b < i < c && i != b + 8 ==> l[i] != '"'
    requires forall i :: c < i < |l| ==> l[i] != '"'
    ensures Ends(l) == Some((a, b, c))
  {
    LastQuoteMax(l, |l|, c);
    LastScopeMax(l, |l|, c, b);
    var b' := LastScope(l, |l|, c).value;
    AtChar(l, b', ScopeMid, 0);
    AtChar(l, b', ScopeMid, 8);
    LastServiceMax(l, |l|, b, a);
    var a' := LastService(l, |l|, b).value;
    AtChar(l, a', ServiceMid, 0);
    AtChar(l, a', ServiceMid, 10);
  }

  /** The pieces of a concatenation, found again by position. */
  lemma Pieces(r: string, d1: string, s: string, d2: string, x: string, d3: string, tail: string)
    ensures var t := r + d1 + s + d2 + x + d3 + tail;
      var a := |r|; var b := a + |d1| + |s|; var c := b + |d2| + |x|;
      && t[..a] == r && t[a..a + |d1|] == d1 && t[a + |d1|..b] == s && t[b..b + |d2|] == d2
      && t[b + |d2|..c] == x && t[c..c + |d3|] == d3 && t[c + |d3|..] == tail
  {
  }

  /** Inside the delimiters only their outer characters are quotes. */
  lemma DelimiterQuotes(l: string, a: nat, b: nat)
    requires At(l, a, ServiceMid) && At(l, b, ScopeMid)
    ensures forall i :: a < i < a + 10 ==> l[i] != '"'
    ensures forall i :: b < i < b + 8 ==> l[i] != '"'
  {
    assert l[a + 1..a + 10] == ServiceMid[1..10];
    assert l[b + 1..b + 8] == ScopeMid[1..8];
    Avoids(l, a + 1, a + 10, '"');
    Avoids(l, b + 1, b + 8, '"');
  }

  /** The canonical text is a way to match. */
  lemma SplitsOf(t: string, r: string, s: string, x: string, tail: string)
    requires 0 < |r| && 0 < |s| && 0 < |x|
    requires '\n' !in r && '\n' !in s && '\n' !in x
    requires t == r + ServiceMid + s + ScopeMid + x + Quote + tail
    ensures Splits(t, r, s, x)
    ensures t[|r| + |ServiceMid| + |s| + |ScopeMid| + |x| + 1..] == tail
  {
    Pieces(r, ServiceMid, s, ScopeMid, x, Quote, tail);
    var c := |r| + |ServiceMid| + |s| + |ScopeMid| + |x|;
    assert t[c] == t[c..c + 1][0];
  }

  /** A way to match whose groups hold no quote, and after whose closing
      quote no quote follows, is the one Groups finds. */
  lemma GroupsExactly(t: string, r: string, s: string, x: string)
    requires Splits(t, r, s, x)
    requires '"' !in r && '"' !in s && '"' !in x
    requires '"' !in t[|r| + |ServiceMid| + |s| + |ScopeMid| + |x| + 1..]
    ensures Groups(t) == Some((r, s, x))
  {
    var a := |r|;
    var b := a + |ServiceMid| + |s|;
    var c := b + |ScopeMid| + |x|;
    SplitsFit(t, r, s, x);
    var l := Before(t, '\n');
    PrefixAvoids(t, l, c + 1, '"');
    EndsExactly(l, a, b, c);
  }

  /** A prefix of t avoids a character beyond k when t does. */
  lemma PrefixAvoids(t: string, l: string, k: nat, ch: char)
    requires l <= t && k <= |l| && ch !in t[k..]
    ensures ch !in l[k..]
  {
    assert l[k..] == t[k..][..|l| - k];
  }

  /** The header `Bearer realm="R",service="S",scope="X"`, followed by text
      holding no quote, matches with exactly R, S and X as its groups, when
      none of them holds a quote or a newline. */
  lemma MatchCanonical(w: string, r: string, s: string, x: string, tail: string)
    requires w != [] && AllSpace(w)
    requires 0 < |r| && 0 < |s| && 0 < |x|
    requires '"' !in r && '"' !in s && '"' !in x && '"' !in tail
    requires '\n' !in r && '\n' !in s && '\n' !in x
    ensures Match(Keyword + w + RealmOpen + r + ServiceMid + s + ScopeMid + x + Quote + tail) == Some((r, s, x))
  {
    var t := r + ServiceMid + s + ScopeMid + x + Quote + tail;
    var h := Keyword + w + RealmOpen + r + ServiceMid + s + ScopeMid + x + Quote + tail;
    assert h == Keyword + w + RealmOpen + t;
    PrologueComplete(h, w, t);
    SplitsOf(t, r, s, x, tail);
    GroupsExactly(t, r, s, x);
  }

  /** Only the part before the first separator is kept. */
  lemma {:induction false} BeforeSeparator(a: string, sep: char, b: string)
    requires sep !in a
    ensures Before(a + [sep] + b, sep) == a
  {
    if a != [] {
      assert (a + [sep] + b)[1..] == a[1..] + [sep] + b;
      BeforeSeparator(a[1..], sep, b);
    }
  }

  /** For the canonical header, Parse yields realm R, service S and the
      first comma-separated part of X as scope. */
  lemma ParseCanonical(w: string, r: string, s: string, x: string, tail: string)
    requires w != [] && AllSpace(w)
    requires 0 < |r| && 0 < |s| && 0 < |x|
    requires '"' !in r && '"' !in s && '"' !in x && '"' !in tail
    requires '\n' !in r && '\n' !in s && '\n' !in x
    ensures Parse(Keyword + w + RealmOpen + r + ServiceMid + s + ScopeMid + x + Quote + tail)
         == Some(Challenge(r, s, Before(x, ',')))
  {
    MatchCanonical(w, r, s, x, tail);
  }

  // ---------------------------------------------------------------------
  // The token URL.

  /** Text glued to a at a separator not in a splits back at it. */
  lemma {:induction false} SplitGlued(a: string, d: string, b: string)
    requires d != [] && d[0] !in a
    ensures Before(a + d + b, d[0]) == a && (a + d + b)[|a|..] == d + b
  {
    if a != [] {
      assert (a + d + b)[1..] == a[1..] + d + b;
      SplitGlued(a[1..], d, b);
    }
  }

  /** The URL gives the challenge back when the realm holds no '?' and the
      service no '&'. */
  lemma TokenUrlRoundTrip(c: Challenge)
    requires '?' !in c.realm && '&' !in c.service
    ensures SplitTokenUrl(TokenUrl(c)) == Some(c)
  {
    var afterService := c.service + ScopeQuery + c.scope;
    assert TokenUrl(c) == c.realm + ServiceQuery + afterService;
    SplitGlued(c.realm, ServiceQuery, afterService);
    AfterConcat(ServiceQuery, afterService);
    ServicePart(c.service, c.scope);
    AfterConcat(ScopeQuery, c.scope);
  }

  lemma ServicePart(service: string, scope: string)
    requires '&' !in service
    ensures var v := service + ScopeQuery + scope;
      Before(v, '&') == service && v[|service|..] == ScopeQuery + scope
  {
    SplitGlued(service, ScopeQuery, scope);
  }

  /** Without that restriction two challenges can share one URL: nothing
      is escaped. */
  lemma TokenUrlAmbiguous(realm: string, s: string, x: string, d: string)
    ensures TokenUrl(Challenge(realm, s + ScopeQuery + x, d)) == TokenUrl(Challenge(realm, s, x + ScopeQuery + d))
  {
  }
}
