/** Resolving the target of a link against the address of the page it is on. The base and the output hold bytes, one
    character for each; the target holds Unicode characters, and only an ASCII target is ever copied. */
module LinkResolver {
  import opened Options
  import opened UrlReference

  /** The characters of Unicode's White_Space property. */
  predicate IsSpace(c: char)
  {
    var n := c as int;
    || 9 <= n <= 13 || n == 0x20 || n == 0x85 || n == 0xA0 || n == 0x1680 || 0x2000 <= n <= 0x200A
    || n == 0x2028 || n == 0x2029 || n == 0x202F || n == 0x205F || n == 0x3000
  }

  function TrimStart(s: string): (r: string)
    ensures r == [] || !IsSpace(r[0])
    ensures |r| <= |s| && r == s[|s| - |r|..] && forall i :: 0 <= i < |s| - |r| ==> IsSpace(s[i])
  {
    if s == [] || !IsSpace(s[0]) then s else TrimStart(s[1..])
  }

  function TrimEnd(s: string): (r: string)
    ensures r == [] || !IsSpace(r[|r| - 1])
    ensures |r| <= |s| && r == s[..|r|] && forall i :: |r| <= i < |s| ==> IsSpace(s[i])
  {
    if s == [] || !IsSpace(s[|s| - 1]) then s else TrimEnd(s[..|s| - 1])
  }

  function Trim(s: string): string
  {
    TrimEnd(TrimStart(s))
  }

  predicate IsAscii(s: string)
  {
    forall i :: 0 <= i < |s| ==> s[i] as int < 128
  }

  predicate StartsWith(s: string, prefix: string)
  {
    |prefix| <= |s| && s[..|prefix|] == prefix
  }

  predicate IsAbsolute(target: string)
  {
    StartsWith(target, "http://") || StartsWith(target, "https://") || StartsWith(target, "expos://")
  }

  predicate IsQuestion(c: char) { c == '?' }

  predicate IsMark(s: string, i: nat)
  {
    i + 3 <= |s| && s[i] == ':' && s[i + 1] == '/' && s[i + 2] == '/'
  }

  /** Where "://" first stands. */
  function FindMark(s: string, from: nat): (r: Option<nat>)
    requires from <= |s|
    ensures r.Some? ==> from <= r.value && IsMark(s, r.value) && forall i :: from <= i < r.value ==> !IsMark(s, i)
    ensures r.None? ==> forall i :: from <= i ==> !IsMark(s, i)
    decreases |s| - from
  {
    if from == |s| then None else if IsMark(s, from) then Some(from) else FindMark(s, from + 1)
  }

  /** Where the last slash stands. */
  function LastSlash(s: string): (r: Option<nat>)
    ensures r.Some? ==> r.value < |s| && s[r.value] == '/' && forall i :: r.value < i < |s| ==> s[i] != '/'
    ensures r.None? ==> forall i :: 0 <= i < |s| ==> s[i] != '/'
  {
    if s == [] then None else if s[|s| - 1] == '/' then Some(|s| - 1) else LastSlash(s[..|s| - 1])
  }

  /** The two strings that are written one after the other. */
  datatype Joined = Joined(left: string, right: string)

  /** What a trimmed target becomes, before the length of the output matters. */
  function Link(base: string, target: string): Option<Joined>
  {
    if target == [] || !IsAscii(target) then None
    else if IsAbsolute(target) then Some(Joined([], target))
    else if StartsWith(target, "//") then
      if StartsWith(base, "https://") then Some(Joined("https:", target))
      else if StartsWith(base, "http://") then Some(Joined("http:", target))
      else None
    else if target[0] == '#' then Some(Joined(base[..First(base, IsHash, 0)], target))
    else
      var mark := FindMark(base, 0);
      if mark.None? then None else Some(Joined(Kept(base, mark.value + 3, target[0]), target))
  }

  /** How much of the base is kept in front of a target that starts with the given character. */
  function Kept(base: string, schemeEnd: nat, head: char): string
    requires schemeEnd <= |base|
  {
    var authorityEnd := First(base, EndsAuthority, schemeEnd);
    if head == '/' then base[..authorityEnd]
    else
      var fragmentStart := First(base, IsHash, 0);
      var cleanEnd := First(base[..fragmentStart], IsQuestion, 0);
      if head == '?' then
        if authorityEnd == cleanEnd then base[..authorityEnd] + "/" else base[..cleanEnd]
      else
        var pathStart := if authorityEnd < cleanEnd then authorityEnd else cleanEnd;
        if pathStart == cleanEnd then base[..authorityEnd] + "/"
        else
          var slash := LastSlash(base[pathStart..cleanEnd]);
          if slash.Some? then base[..pathStart + slash.value + 1] else base[..pathStart + 1]
  }

  function Text(j: Joined): string
  {
    j.left + j.right
  }

  /** A text is at the start of the buffer and the rest is as it was, or the text does not fit and nothing changed. */
  ghost predicate Written(text: string, before: string, after: string, r: Option<nat>)
  {
    if |text| > |before| then r.None? && after == before
    else r == Some(|text|) && after == text + before[|text|..]
  }

  /** Writes the link into the output buffer. On a well-formed base and a supported target the link is the reference
      resolved by RFC 3986. */
  method ResolveBrowserLink(base: string, target: string, output: array<char>) returns (r: Option<nat>)
    modifies output
    ensures Link(base, Trim(target)).None? ==> r.None? && output[..] == old(output[..])
    ensures Link(base, Trim(target)).Some? ==>
      Written(Text(Link(base, Trim(target)).value), old(output[..]), output[..], r)
    ensures WellFormed(base) && Trim(target) != [] && IsAscii(Trim(target)) && Supported(base, Trim(target)) ==>
      Written(Recompose(Expected(Parse(base), Parse(Trim(target)))), old(output[..]), output[..], r)
  {
    if WellFormed(base) && Trim(target) != [] && IsAscii(Trim(target)) {
      AgreesWhenSupported(base, Trim(target));
    }
    var link := Link(base, Trim(target));
    if link.None? {
      return None;
    }
    r := JoinBrowserUrl(output, link.value.left, link.value.right);
  }

  method JoinBrowserUrl(output: array<char>, left: string, right: string) returns (r: Option<nat>)
    modifies output
    ensures Written(left + right, old(output[..]), output[..], r)
  {
    var length := |left| + |right|;
    if length > output.Length {
      return None;
    }
    forall i | 0 <= i < |left| {
      output[i] := left[i];
    }
    forall i | 0 <= i < |right| {
      output[|left| + i] := right[i];
    }
    assert output[..] == (left + right) + old(output[..])[length..];
    return Some(length);
  }

  // Agreement with RFC 3986.

  /** A base with a scheme and an authority. */
  predicate WellFormed(base: string)
  {
    SchemeEnd(base) > 0 && HasAuthority(base)
  }

  /** A reference to a page: one of the three schemes, or a relative reference, where one that names its own
      authority needs a base whose scheme is http or https. */
  predicate Supported(base: string, target: string)
  {
    || IsAbsolute(target)
    || (&& Parse(target).scheme.None?
        && (Parse(target).authority.Some? ==>
              Parse(base).scheme == Some("http") || Parse(base).scheme == Some("https")))
  }

  /** The reference resolved by section 5.2.2, except that a bare query on an empty path gains a slash. */
  function Expected(base: Url, r: Url): Url
  {
    var u := Transform(base, r);
    if r.scheme.None? && r.authority.None? && r.path == [] && r.query.Some? && base.path == [] then u.(path := "/")
    else u
  }

  /** Where the code cuts a well-formed base. */
  lemma Cuts(base: string)
    requires WellFormed(base)
    ensures FindMark(base, 0) == Some(SchemeEnd(base) - 1)
    ensures First(base, EndsAuthority, SchemeEnd(base) + 2) == PathStart(base)
    ensures First(base, IsHash, 0) == QueryEnd(base)
    ensures First(base[..QueryEnd(base)], IsQuestion, 0) == PathEnd(base)
  {
    var i := SchemeEnd(base) - 1;
    assert IsMark(base, i);
    assert forall j :: 0 <= j < i ==> !EndsScheme(base[j]);
    NothingBefore(base);
    var f := QueryEnd(base);
    assert PathEnd(base) < f ==> base[..f][PathEnd(base)] == '?';
  }

  lemma NothingBefore(base: string)
    requires WellFormed(base)
    ensures forall j :: 0 <= j < PathEnd(base) ==> !EndsPath(base[j])
  {
    var a := SchemeEnd(base);
    assert forall j :: 0 <= j < a - 1 ==> !EndsScheme(base[j]);
    assert base[a - 1] == ':' && base[a] == '/' && base[a + 1] == '/';
    assert forall j :: a + 2 <= j < PathStart(base) ==> !EndsAuthority(base[j]);
    assert forall j :: PathStart(base) <= j < PathEnd(base) ==> !EndsPath(base[j]);
  }

  /** The kept parts of a well-formed base, in terms of its components. */
  lemma BasePrefixes(base: string)
    requires WellFormed(base)
    ensures var b := Parse(base);
      && base[..PathStart(base)] == SchemePart(b) + AuthorityPart(b)
      && base[..PathEnd(base)] == base[..PathStart(base)] + b.path
      && base[..QueryEnd(base)] == base[..PathEnd(base)] + QueryPart(b)
  {
    FrontOfParse(base);
    TailOfParse(base);
  }

  /** A relative reference without an authority is its path, query and fragment. */
  lemma RelativeText(target: string)
    requires SchemeEnd(target) == 0 && !HasAuthority(target)
    ensures var r := Parse(target);
      r.scheme.None? && r.authority.None? && target == r.path + (QueryPart(r) + FragmentPart(r))
  {
    RecomposeOfParse(target);
  }

  /** A reference with the scheme and authority of the base, written out. */
  lemma Recomposed(base: string, u: Url)
    requires WellFormed(base) && u.scheme == Parse(base).scheme && u.authority == Parse(base).authority
    ensures Recompose(u) == base[..PathStart(base)] + (u.path + (QueryPart(u) + FragmentPart(u)))
  {
    BasePrefixes(base);
    Regroup(SchemePart(u), AuthorityPart(u), [], u.path + (QueryPart(u) + FragmentPart(u)));
  }

  ghost predicate Agrees(base: string, target: string)
  {
    var link := Link(base, target);
    link.Some? && Text(link.value) == Recompose(Expected(Parse(base), Parse(target)))
  }

  /** A scheme followed by a colon and two slashes is found as the scheme. */
  lemma SchemeOf(s: string, scheme: string)
    requires scheme != [] && Avoids(scheme, EndsScheme)
    requires |scheme| + 3 <= |s| && s[..|scheme|] == scheme && IsMark(s, |scheme|)
    ensures SchemeEnd(s) == |scheme| + 1 && HasAuthority(s) && Parse(s).scheme == Some(scheme)
  {
    FirstAfter(scheme, s[|scheme|..], EndsScheme, 0);
    assert s == scheme + s[|scheme|..];
  }

  lemma AbsoluteIsWellFormed(target: string)
    requires IsAbsolute(target)
    ensures WellFormed(target)
  {
    if StartsWith(target, "http://") {
      PrefixIsScheme(target, "http");
    } else if StartsWith(target, "https://") {
      PrefixIsScheme(target, "https");
    } else {
      PrefixIsScheme(target, "expos");
    }
  }

  lemma PrefixIsScheme(s: string, scheme: string)
    requires scheme != [] && Avoids(scheme, EndsScheme) && StartsWith(s, scheme + "://")
    ensures SchemeEnd(s) == |scheme| + 1 && HasAuthority(s) && Parse(s).scheme == Some(scheme)
  {
    var n := |scheme|;
    assert s[..n] == s[..n + 3][..n] == scheme;
    assert forall i :: 0 <= i < n + 3 ==> s[i] == s[..n + 3][i];
    SchemeOf(s, scheme);
  }

  // What the code makes of each kind of relative target.

  lemma LinkOfFragment(base: string, target: string)
    requires WellFormed(base) && IsAscii(target) && target != [] && target[0] == '#'
    ensures Link(base, target) == Some(Joined(base[..QueryEnd(base)], target))
  {
    Cuts(base);
  }

  lemma LinkOfOther(base: string, target: string)
    requires WellFormed(base) && IsAscii(target) && target != [] && target[0] != '#'
    requires !IsAbsolute(target) && !StartsWith(target, "//")
    ensures Link(base, target) == Some(Joined(Kept(base, SchemeEnd(base) + 2, target[0]), target))
  {
    Cuts(base);
  }

  // What the reference is in each case.

  lemma FragmentReference(target: string)
    requires target != [] && target[0] == '#'
    ensures var r := Parse(target);
      r == Url(None, None, [], None, r.fragment) && r.fragment.Some? && FragmentPart(r) == target
  {
    RecomposeOfParse(target);
    assert First(target, EndsScheme, 0) == 0;
  }

  lemma QueryReference(target: string)
    requires target != [] && target[0] == '?'
    ensures var r := Parse(target);
      r == Url(None, None, [], r.query, r.fragment) && r.query.Some? && QueryPart(r) + FragmentPart(r) == target
  {
    RecomposeOfParse(target);
    assert First(target, EndsScheme, 0) == 0;
  }

  lemma PathReference(target: string)
    requires target != [] && !EndsPath(target[0]) && SchemeEnd(target) == 0 && !StartsWith(target, "//")
    ensures var r := Parse(target);
      && r.scheme.None? && r.authority.None? && r.path != [] && r.path[0] == target[0]
      && r.path + (QueryPart(r) + FragmentPart(r)) == target
  {
    assert |target| >= 2 ==> target[..2] == [target[0], target[1]];
    RelativeText(target);
  }

  lemma Chain(a: string, b: string, c: string, d: string)
    ensures a + (b + (c + d)) == ((a + b) + c) + d
  {
    Regroup(a, b, [], c + d);
    Regroup(a + b, c, [], d);
  }

  lemma FragmentOnly(base: string, target: string)
    requires WellFormed(base) && IsAscii(target) && target != [] && target[0] == '#'
    ensures Agrees(base, target)
  {
    LinkOfFragment(base, target);
    FragmentReference(target);
    var b, r := Parse(base), Parse(target);
    ExpectedOfFragment(b, r);
    WithFragment(base, Expected(b, r));
  }

  lemma ExpectedOfFragment(b: Url, r: Url)
    requires r == Url(None, None, [], None, r.fragment)
    ensures Expected(b, r) == b.(fragment := r.fragment)
  {
  }

  lemma WithFragment(base: string, u: Url)
    requires WellFormed(base) && u == Parse(base).(fragment := u.fragment)
    ensures Recompose(u) == base[..QueryEnd(base)] + FragmentPart(u)
  {
    Recomposed(base, u);
    BasePrefixes(base);
    Chain(base[..PathStart(base)], u.path, QueryPart(u), FragmentPart(u));
  }

  lemma AbsolutePath(base: string, target: string)
    requires WellFormed(base) && IsAscii(target) && target != [] && target[0] == '/' && !StartsWith(target, "//")
    ensures Agrees(base, target)
  {
    LinkOfOther(base, target);
    PathReference(target);
    Cuts(base);
    Recomposed(base, Expected(Parse(base), Parse(target)));
  }

  lemma QueryOnly(base: string, target: string)
    requires WellFormed(base) && IsAscii(target) && target != [] && target[0] == '?'
    ensures Agrees(base, target)
  {
    LinkOfOther(base, target);
    QueryReference(target);
    BasePrefixes(base);
    Cuts(base);
    var b, r := Parse(base), Parse(target);
    var u := Url(b.scheme, b.authority, if b.path == [] then "/" else b.path, r.query, r.fragment);
    assert Expected(b, r) == u;
    Recomposed(base, u);
    Regroup(base[..PathStart(base)], u.path, [], target);
  }

  lemma {:induction false} LastSlashCuts(path: string)
    ensures UpToLastSlash(path) == if LastSlash(path).Some? then path[..LastSlash(path).value + 1] else []
  {
    if path != [] && path[|path| - 1] != '/' {
      LastSlashCuts(path[..|path| - 1]);
    }
  }

  /** The path of a well-formed base is empty or starts with a slash. */
  lemma PathOfBase(base: string)
    requires WellFormed(base)
    ensures Parse(base).path == [] || Parse(base).path[0] == '/'
  {
  }

  lemma RelativePath(base: string, target: string)
    requires WellFormed(base) && IsAscii(target) && target != [] && !EndsAuthority(target[0]) && SchemeEnd(target) == 0
    ensures Agrees(base, target)
  {
    assert !IsAbsolute(target) by {
      if IsAbsolute(target) {
        AbsoluteIsWellFormed(target);
      }
    }
    LinkOfOther(base, target);
    PathReference(target);
    var b, r := Parse(base), Parse(target);
    KeptIsMerge(base, target[0], r.path);
    var u := r.(scheme := b.scheme, authority := b.authority, path := Merge(b, r.path));
    assert Expected(b, r) == u;
    Recomposed(base, u);
    Regroup(Kept(base, SchemeEnd(base) + 2, target[0]), r.path, [], QueryPart(r) + FragmentPart(r));
    Regroup(base[..PathStart(base)], u.path, [], QueryPart(r) + FragmentPart(r));
  }

  /** Up to the last slash of a stretch that starts with one. */
  lemma CutAtLastSlash(base: string, p: nat, q: nat)
    requires p < q <= |base| && base[p] == '/'
    ensures var slash := LastSlash(base[p..q]);
      slash.Some? && base[..p + slash.value + 1] == base[..p] + UpToLastSlash(base[p..q])
  {
    var path := base[p..q];
    assert path[0] == '/';
    LastSlashCuts(path);
    var k := LastSlash(path).value + 1;
    assert base[..p + k] == base[..p] + path[..k];
  }

  lemma KeptDirectory(base: string, head: char)
    requires WellFormed(base) && !EndsAuthority(head)
    ensures var p, q := PathStart(base), PathEnd(base);
      Kept(base, SchemeEnd(base) + 2, head) == base[..p] + if p == q then "/" else UpToLastSlash(base[p..q])
  {
    Cuts(base);
    PathOfBase(base);
    var p, q := PathStart(base), PathEnd(base);
    if p < q {
      assert base[p] == base[p..q][0];
      CutAtLastSlash(base, p, q);
    }
  }

  lemma KeptIsMerge(base: string, head: char, path: string)
    requires WellFormed(base) && !EndsAuthority(head)
    ensures Kept(base, SchemeEnd(base) + 2, head) + path == base[..PathStart(base)] + Merge(Parse(base), path)
  {
    KeptDirectory(base, head);
    var p, q := PathStart(base), PathEnd(base);
    Regroup(base[..p], if p == q then "/" else UpToLastSlash(base[p..q]), [], path);
  }

  lemma Absolute(base: string, target: string)
    requires IsAscii(target) && IsAbsolute(target)
    ensures Agrees(base, target)
  {
    AbsoluteIsWellFormed(target);
    RecomposeOfParse(target);
  }

  lemma SchemeIsPrefix(base: string, scheme: string)
    requires WellFormed(base) && scheme != [] && Avoids(scheme, EndsScheme)
    ensures StartsWith(base, scheme + "://") <==> Parse(base).scheme == Some(scheme)
  {
    if StartsWith(base, scheme + "://") {
      PrefixIsScheme(base, scheme);
    }
    if Parse(base).scheme == Some(scheme) {
      var n := |scheme|;
      assert base[..n + 3] == base[..n] + [base[n], base[n + 1], base[n + 2]];
    }
  }

  lemma NetworkReference(target: string)
    requires StartsWith(target, "//")
    ensures SchemeEnd(target) == 0 && HasAuthority(target)
    ensures var r := Parse(target);
      r.scheme.None? && r.authority.Some? && AuthorityPart(r) + (r.path + (QueryPart(r) + FragmentPart(r))) == target
  {
    assert target[0] == target[..2][0] && target[1] == target[..2][1];
    assert First(target, EndsScheme, 0) == 0;
    RecomposeOfParse(target);
  }

  lemma LinkOfNetwork(base: string, target: string)
    requires IsAscii(target) && StartsWith(target, "//")
    ensures Link(base, target) ==
      if StartsWith(base, "https://") then Some(Joined("https:", target))
      else if StartsWith(base, "http://") then Some(Joined("http:", target))
      else None
  {
    assert target[0] == target[..2][0] == '/';
    assert !IsAbsolute(target);
  }

  lemma NetworkPath(base: string, target: string)
    requires WellFormed(base) && IsAscii(target) && StartsWith(target, "//")
    ensures Agrees(base, target) <==> Parse(base).scheme == Some("http") || Parse(base).scheme == Some("https")
  {
    WebBase(base);
    LinkOfNetwork(base, target);
    NetworkReference(target);
    RecomposeOfNetwork(Parse(base), Parse(target), target);
  }

  lemma WebBase(base: string)
    requires WellFormed(base)
    ensures StartsWith(base, "http://") <==> Parse(base).scheme == Some("http")
    ensures StartsWith(base, "https://") <==> Parse(base).scheme == Some("https")
    ensures Parse(base).scheme == Some("http") ==> SchemePart(Parse(base)) == "http:" && "http" != "https"
    ensures Parse(base).scheme == Some("https") ==> SchemePart(Parse(base)) == "https:"
  {
    SchemeIsPrefix(base, "http");
    SchemeIsPrefix(base, "https");
  }

  lemma RecomposeOfNetwork(b: Url, r: Url, target: string)
    requires r.scheme.None? && r.authority.Some?
    requires AuthorityPart(r) + (r.path + (QueryPart(r) + FragmentPart(r))) == target
    ensures Recompose(Expected(b, r)) == SchemePart(b) + target
  {
  }

  /** A scheme of any other kind is taken for the start of a path, and the result is a longer text. */
  lemma OtherScheme(base: string, target: string)
    requires WellFormed(base) && IsAscii(target) && SchemeEnd(target) > 0 && !IsAbsolute(target)
    ensures !Agrees(base, target)
  {
    assert !EndsScheme(target[0]);
    LinkOfOther(base, target);
    RecomposeOfParse(target);
    ExpectedWithScheme(Parse(base), Parse(target));
    SomethingKept(base, SchemeEnd(base) + 2, target[0]);
  }

  lemma ExpectedWithScheme(b: Url, r: Url)
    requires r.scheme.Some?
    ensures Expected(b, r) == r
  {
  }

  lemma SomethingKept(base: string, schemeEnd: nat, head: char)
    requires 0 < schemeEnd <= |base| && !EndsAuthority(head)
    ensures Kept(base, schemeEnd, head) != []
  {
  }

  /** The code agrees with RFC 3986 on exactly the supported references. */
  lemma AgreesWhenSupported(base: string, target: string)
    requires WellFormed(base) && target != [] && IsAscii(target)
    ensures Agrees(base, target) <==> Supported(base, target)
  {
    if IsAbsolute(target) {
      Absolute(base, target);
    } else if SchemeEnd(target) > 0 {
      OtherScheme(base, target);
    } else if StartsWith(target, "//") {
      NetworkReference(target);
      NetworkPath(base, target);
    } else {
      if target[0] == '#' {
        FragmentOnly(base, target);
        FragmentReference(target);
      } else if target[0] == '?' {
        QueryOnly(base, target);
        QueryReference(target);
      } else {
        if target[0] == '/' {
          AbsolutePath(base, target);
        } else {
          RelativePath(base, target);
        }
        PathReference(target);
      }
    }
  }

  // The components of the result.

  lemma ParsedParts(s: string)
    ensures var u := Parse(s);
      && (u.scheme.Some? ==> u.scheme.value != [] && Avoids(u.scheme.value, EndsScheme))
      && (u.authority.Some? ==> Avoids(u.authority.value, EndsAuthority) && (u.path == [] || u.path[0] == '/'))
      && Avoids(u.path, EndsPath)
      && (u.query.Some? ==> Avoids(u.query.value, IsHash))
  {
  }

  lemma {:induction false} UpToLastSlashIsPrefix(path: string)
    ensures |UpToLastSlash(path)| <= |path| && UpToLastSlash(path) == path[..|UpToLastSlash(path)|]
    ensures path != [] && path[0] == '/' ==> UpToLastSlash(path) != []
  {
    if path != [] && path[|path| - 1] != '/' {
      UpToLastSlashIsPrefix(path[..|path| - 1]);
    }
  }

  lemma ExpectedIsProper(b: Url, target: string)
    requires Proper(b)
    requires var r := Parse(target); r.scheme.Some? ==> r.authority.Some?
    ensures Proper(Expected(b, Parse(target)))
  {
    ParsedParts(target);
    UpToLastSlashIsPrefix(b.path);
  }

  /** The result of a supported reference has exactly the components that section 5.2.2 gives it, so a relative
      reference that names no authority keeps the scheme and the authority of the base. */
  lemma ResultComponents(base: string, target: string)
    requires WellFormed(base) && target != [] && IsAscii(target) && Supported(base, target)
    ensures var link := Link(base, target);
      && link.Some?
      && var result, r := Parse(Text(link.value)), Parse(target);
         && result == Expected(Parse(base), r)
         && (r.scheme.None? ==> result.scheme == Parse(base).scheme)
         && (r.scheme.None? && r.authority.None? ==> result.authority == Parse(base).authority)
  {
    AgreesWhenSupported(base, target);
    if IsAbsolute(target) {
      AbsoluteIsWellFormed(target);
    }
    ParsedParts(base);
    ExpectedIsProper(Parse(base), target);
    ParseOfRecompose(Expected(Parse(base), Parse(target)));
  }

  lemma NoMarkBehind(target: string, scheme: string, rest: string)
    requires scheme != [] && Avoids(scheme, EndsScheme) && target == scheme + (":" + rest)
    requires scheme != "http" && scheme != "https" && scheme != "expos"
    ensures SchemeEnd(target) > 0 && !IsAbsolute(target)
  {
    SchemeRecovered(target, scheme, rest);
    if IsAbsolute(target) {
      assert target[..SchemeEnd(target) - 1] == scheme;
      if StartsWith(target, "http://") {
        PrefixIsScheme(target, "http");
      } else if StartsWith(target, "https://") {
        PrefixIsScheme(target, "https");
      } else {
        PrefixIsScheme(target, "expos");
      }
    }
  }

  /** Every mail address is one of the references the code gets wrong. */
  lemma MailAddress(base: string, address: string)
    requires WellFormed(base) && IsAscii("mailto" + (":" + address))
    ensures !Agrees(base, "mailto" + (":" + address))
  {
    var scheme, target := "mailto", "mailto" + (":" + address);
    assert scheme[0] == 'm';
    NoMarkBehind(target, scheme, address);
    OtherScheme(base, target);
  }
}
