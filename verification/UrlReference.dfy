/** URI references as RFC 3986 describes them: components, recomposition and the resolution of references. */
module UrlReference {
  import opened Options

  datatype Url = Url(scheme: Option<string>, authority: Option<string>, path: string,
                     query: Option<string>, fragment: Option<string>)

  predicate IsHash(c: char) { c == '#' }

  predicate EndsPath(c: char) { c == '?' || c == '#' }

  predicate EndsAuthority(c: char) { c == '/' || EndsPath(c) }

  predicate EndsScheme(c: char) { c == ':' || EndsAuthority(c) }

  /** No character up to `to` stops, and the one at `to`, if any, does. */
  predicate StopsAt(s: string, stop: char -> bool, from: nat, to: nat)
  {
    from <= to <= |s| && (forall i :: from <= i < to ==> !stop(s[i])) && (to < |s| ==> stop(s[to]))
  }

  function First(s: string, stop: char -> bool, from: nat): (r: nat)
    requires from <= |s|
    ensures StopsAt(s, stop, from, r)
    decreases |s| - from
  {
    if from == |s| || stop(s[from]) then from else First(s, stop, from + 1)
  }

  predicate Avoids(s: string, stop: char -> bool)
  {
    forall i :: 0 <= i < |s| ==> !stop(s[i])
  }

  // Appendix B of RFC 3986: where the components of a reference lie.

  function SchemeEnd(s: string): (r: nat)
    ensures r <= |s|
  {
    var i := First(s, EndsScheme, 0);
    if 0 < i < |s| && s[i] == ':' then i + 1 else 0
  }

  predicate HasAuthority(s: string)
  {
    var a := SchemeEnd(s);
    a + 2 <= |s| && s[a] == '/' && s[a + 1] == '/'
  }

  function PathStart(s: string): (r: nat)
    ensures SchemeEnd(s) <= r <= |s|
  {
    if HasAuthority(s) then First(s, EndsAuthority, SchemeEnd(s) + 2) else SchemeEnd(s)
  }

  function PathEnd(s: string): (r: nat)
    ensures PathStart(s) <= r <= |s|
  {
    First(s, EndsPath, PathStart(s))
  }

  function QueryEnd(s: string): (r: nat)
    ensures PathEnd(s) <= r <= |s|
  {
    First(s, IsHash, PathEnd(s))
  }

  function QueryOf(s: string): Option<string>
  {
    Marked(s, PathEnd(s), QueryEnd(s))
  }

  function FragmentOf(s: string): Option<string>
  {
    Marked(s, QueryEnd(s), |s|)
  }

  /** What follows a one-character mark. */
  function Marked(s: string, from: nat, to: nat): Option<string>
    requires from <= to <= |s|
  {
    if from < to then Some(s[from + 1..to]) else None
  }

  function Parse(s: string): Url
  {
    var a, p := SchemeEnd(s), PathStart(s);
    Url(if a > 0 then Some(s[..a - 1]) else None,
        if HasAuthority(s) then Some(s[a + 2..p]) else None,
        s[p..PathEnd(s)], QueryOf(s), FragmentOf(s))
  }

  // Section 5.3.

  /** A component behind its mark, if there is one. */
  function Part(mark: char, value: Option<string>): string
  {
    if value.Some? then [mark] + value.value else []
  }

  function SchemePart(u: Url): string
  {
    if u.scheme.Some? then u.scheme.value + ":" else []
  }

  function AuthorityPart(u: Url): string
  {
    if u.authority.Some? then "//" + u.authority.value else []
  }

  function QueryPart(u: Url): string
  {
    Part('?', u.query)
  }

  function FragmentPart(u: Url): string
  {
    Part('#', u.fragment)
  }

  function Recompose(u: Url): string
  {
    SchemePart(u) + (AuthorityPart(u) + (u.path + (QueryPart(u) + FragmentPart(u))))
  }

  // Section 5.2.3.

  function UpToLastSlash(path: string): string
  {
    if path == [] || path[|path| - 1] == '/' then path else UpToLastSlash(path[..|path| - 1])
  }

  function Merge(base: Url, path: string): string
  {
    if base.authority.Some? && base.path == [] then "/" + path else UpToLastSlash(base.path) + path
  }

  /** Section 5.2.2, without the removal of dot segments. */
  function Transform(base: Url, r: Url): Url
  {
    if r.scheme.Some? then r
    else if r.authority.Some? then r.(scheme := base.scheme)
    else if r.path == [] then
      Url(base.scheme, base.authority, base.path, if r.query.Some? then r.query else base.query, r.fragment)
    else if r.path[0] == '/' then r.(scheme := base.scheme, authority := base.authority)
    else r.(scheme := base.scheme, authority := base.authority, path := Merge(base, r.path))
  }

  // Parsing and recomposition undo each other.

  lemma FrontOfParse(s: string)
    ensures SchemePart(Parse(s)) == s[..SchemeEnd(s)]
    ensures AuthorityPart(Parse(s)) == s[SchemeEnd(s)..PathStart(s)]
  {
    var a := SchemeEnd(s);
    assert a > 0 ==> s[a - 1] == ':' && s[..a] == s[..a - 1] + [s[a - 1]];
    assert HasAuthority(s) ==> s[a..PathStart(s)] == [s[a], s[a + 1]] + s[a + 2..PathStart(s)];
  }

  lemma TailOfParse(s: string)
    ensures QueryPart(Parse(s)) == s[PathEnd(s)..QueryEnd(s)]
    ensures FragmentPart(Parse(s)) == s[QueryEnd(s)..]
  {
    var q, f := PathEnd(s), QueryEnd(s);
    assert q < f ==> s[q] == '?' && s[q..f] == [s[q]] + s[q + 1..f];
    assert f < |s| ==> s[f..] == [s[f]] + s[f + 1..];
  }

  lemma Pieces(s: string, a: nat, b: nat, c: nat, d: nat)
    requires a <= b <= c <= d <= |s|
    ensures s[..a] + (s[a..b] + (s[b..c] + (s[c..d] + s[d..]))) == s
  {
    assert s[c..d] + s[d..] == s[c..];
    assert s[b..c] + s[c..] == s[b..];
    assert s[a..b] + s[b..] == s[a..];
  }

  /** Every string is the recomposition of its own components. */
  lemma RecomposeOfParse(s: string)
    ensures Recompose(Parse(s)) == s
  {
    FrontOfParse(s);
    TailOfParse(s);
    Pieces(s, SchemeEnd(s), PathStart(s), PathEnd(s), QueryEnd(s));
  }

  /** Components that cannot be mistaken for others, with a scheme and an authority. */
  predicate Proper(u: Url)
  {
    && u.scheme.Some? && u.scheme.value != [] && Avoids(u.scheme.value, EndsScheme)
    && u.authority.Some? && Avoids(u.authority.value, EndsAuthority)
    && (u.path == [] || u.path[0] == '/') && Avoids(u.path, EndsPath)
    && (u.query.Some? ==> Avoids(u.query.value, IsHash))
  }

  /** A stop found after a prefix without one is found at the same place. */
  lemma FirstAfter(a: string, b: string, stop: char -> bool, from: nat)
    requires from <= |a| && (forall i :: from <= i < |a| ==> !stop(a[i])) && (b != [] ==> stop(b[0]))
    ensures First(a + b, stop, from) == |a|
  {
    assert forall i :: from <= i < |a| ==> !stop((a + b)[i]);
    assert b != [] ==> (a + b)[|a|] == b[0];
  }

  lemma Regroup(a: string, b: string, c: string, d: string)
    ensures a + ((b + c) + d) == (a + b) + (c + d)
    ensures a + (b + d) == (a + b) + d
  {
  }

  /** A slice that starts where a prefix ends. */
  lemma Middle(s: string, a: string, b: string, c: string)
    requires s == a + (b + c)
    ensures |a + b| <= |s| && s[|a|..|a + b|] == b && s[|a + b|..] == c && s[..|a|] == a
  {
  }

  /** Components are recovered from the text they make. */
  lemma ParseOfRecompose(u: Url)
    requires Proper(u)
    ensures Parse(Recompose(u)) == u
  {
    var s := Recompose(u);
    var scheme, authority, tail := u.scheme.value, u.authority.value, QueryPart(u) + FragmentPart(u);
    var upToPath := SchemePart(u) + AuthorityPart(u);
    Layout(scheme, authority, u.path + tail);
    SchemeRecovered(s, scheme, "//" + authority + (u.path + tail));
    AuthorityRecovered(s, scheme + ":" + "//", authority, u.path + tail);
    PathRecovered(s, upToPath, u.path, tail);
    TailRecovered(s, upToPath + u.path, u.query, u.fragment);
  }

  /** The same text, taken apart at each of the first components. */
  lemma Layout(scheme: string, authority: string, rest: string)
    ensures var s := scheme + ":" + ("//" + authority + rest);
      && s == scheme + (":" + ("//" + authority + rest))
      && s == (scheme + ":" + "//") + (authority + rest)
      && s == (scheme + ":" + ("//" + authority)) + rest
      && scheme + ":" + "//" + authority == scheme + ":" + ("//" + authority)
  {
    Regroup(scheme, ":", [], "//" + authority + rest);
    Regroup(scheme + ":", "//", authority, rest);
    Regroup(scheme + ":", "//" + authority, [], rest);
    assert "//" + authority + rest == "//" + (authority + rest);
  }

  lemma SchemeRecovered(s: string, scheme: string, rest: string)
    requires scheme != [] && Avoids(scheme, EndsScheme) && s == scheme + (":" + rest)
    ensures SchemeEnd(s) == |scheme| + 1 && s[..|scheme|] == scheme && s[|scheme| + 1..] == rest
  {
    FirstAfter(scheme, ":" + rest, EndsScheme, 0);
    Middle(s, scheme, ":", rest);
  }

  lemma AuthorityRecovered(s: string, front: string, authority: string, rest: string)
    requires s == front + (authority + rest) && SchemeEnd(s) + 2 == |front| && HasAuthority(s)
    requires Avoids(authority, EndsAuthority) && (rest != [] ==> EndsAuthority(rest[0]))
    ensures PathStart(s) == |front + authority| && s[SchemeEnd(s) + 2..PathStart(s)] == authority
  {
    Middle(s, front, authority, rest);
    Regroup(front, authority, [], rest);
    FirstAfter(front + authority, rest, EndsAuthority, |front|);
  }

  lemma PathRecovered(s: string, front: string, path: string, tail: string)
    requires s == front + (path + tail) && PathStart(s) == |front|
    requires Avoids(path, EndsPath) && (tail != [] ==> EndsPath(tail[0]))
    ensures PathEnd(s) == |front + path| && s[PathStart(s)..PathEnd(s)] == path && s == (front + path) + tail
  {
    Middle(s, front, path, tail);
    Regroup(front, path, [], tail);
    FirstAfter(front + path, tail, EndsPath, |front|);
  }

  lemma PartsRecovered(s: string, front: string, m: char, query: Option<string>, n: char, fragment: Option<string>)
    requires s == front + (Part(m, query) + Part(n, fragment))
    ensures var q, f := |front|, |front + Part(m, query)|;
      f <= |s| && Marked(s, q, f) == query && Marked(s, f, |s|) == fragment
  {
    var q, f := |front|, |front + Part(m, query)|;
    Middle(s, front, Part(m, query), Part(n, fragment));
    if query.Some? {
      assert s[q + 1..f] == s[q..f][1..] == query.value;
    }
    if fragment.Some? {
      assert s[f + 1..|s|] == s[f..][1..] == fragment.value;
    }
  }

  lemma TailRecovered(s: string, front: string, query: Option<string>, fragment: Option<string>)
    requires s == front + (Part('?', query) + Part('#', fragment)) && PathEnd(s) == |front|
    requires query.Some? ==> Avoids(query.value, IsHash)
    ensures QueryOf(s) == query && FragmentOf(s) == fragment
  {
    var upToFragment := front + Part('?', query);
    PartsRecovered(s, front, '?', query, '#', fragment);
    Regroup(front, Part('?', query), [], Part('#', fragment));
    FirstAfter(upToFragment, Part('#', fragment), IsHash, |front|);
  }
}
