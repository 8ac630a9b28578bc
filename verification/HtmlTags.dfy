/** The tags of a page: what stands between `<` and the next `>`. */
module HtmlTags {
  import opened JsonText
  import opened Slices

  /** The tags found from a point on; `open` is what has been read of a tag that is not closed yet, or nothing. */
  function TagsFrom(open: string, s: string): seq<string>
    decreases |s|
  {
    if s == [] then []
    else if open == [] then TagsFrom(if s[0] == '<' then [s[0]] else [], s[1..])
    else if s[0] == '>' then [open + [s[0]]] + TagsFrom([], s[1..])
    else TagsFrom(open + [s[0]], s[1..])
  }

  /** What has been read of a tag that is not closed at the end. */
  function OpenAfter(open: string, s: string): string
    decreases |s|
  {
    if s == [] then open
    else if open == [] then OpenAfter(if s[0] == '<' then [s[0]] else [], s[1..])
    else OpenAfter(if s[0] == '>' then [] else open + [s[0]], s[1..])
  }

  function Tags(s: string): seq<string>
  {
    TagsFrom([], s)
  }

  /** Every tag is closed, and no character reference stands in it. */
  predicate Clean(s: string)
  {
    OpenAfter([], s) == [] && '&' !in s
  }

  lemma {:induction false} TagsAppend(open: string, a: string, b: string)
    ensures TagsFrom(open, a + b) == TagsFrom(open, a) + TagsFrom(OpenAfter(open, a), b)
    ensures OpenAfter(open, a + b) == OpenAfter(OpenAfter(open, a), b)
    decreases |a|
  {
    if a == [] {
      assert a + b == b;
    } else {
      assert (a + b)[0] == a[0] && (a + b)[1..] == a[1..] + b;
      if open == [] {
        TagsAppend(if a[0] == '<' then [a[0]] else [], a[1..], b);
      } else if a[0] == '>' {
        TagsAppend([], a[1..], b);
        Regroup([open + [a[0]]], TagsFrom([], a[1..]), TagsFrom(OpenAfter([], a[1..]), b));
      } else {
        TagsAppend(open + [a[0]], a[1..], b);
      }
    }
  }

  lemma Regroup(a: seq<string>, b: seq<string>, c: seq<string>)
    ensures a + (b + c) == (a + b) + c
  {
  }

  /** Clean pieces may be read one after the other. */
  lemma CleanAppend(a: string, b: string)
    requires Clean(a) && Clean(b)
    ensures Clean(a + b) && Tags(a + b) == Tags(a) + Tags(b)
  {
    TagsAppend([], a, b);
  }

  /** Text without markup has no tags. */
  lemma {:induction false} TagsOfText(s: string)
    requires NoMarkup(s)
    ensures Clean(s) && Tags(s) == []
  {
    if s != [] {
      TagsOfText(s[1..]);
      assert s == [s[0]] + s[1..];
    }
  }

  lemma {:induction false} RestOfTag(open: string, name: string)
    requires open != [] && NoMarkup(name)
    ensures TagsFrom(open, name + ['>']) == [open + name + ['>']] && OpenAfter(open, name + ['>']) == []
    decreases |name|
  {
    var s := name + ['>'];
    if name == [] {
      assert s[0] == '>' && s[1..] == [];
      assert open + name + ['>'] == open + ['>'];
    } else {
      assert s[0] == name[0] && s[1..] == name[1..] + ['>'];
      RestOfTag(open + [name[0]], name[1..]);
      assert (open + [name[0]]) + name[1..] + ['>'] == open + name + ['>'];
    }
  }

  function Tag(name: string): string
  {
    ['<'] + name + ['>']
  }

  /** A single tag is the one tag in it. */
  lemma TagsOfTag(name: string)
    requires NoMarkup(name)
    ensures Clean(Tag(name)) && Tags(Tag(name)) == [Tag(name)]
  {
    RestOfTag(['<'], name);
    assert Tag(name)[0] == '<' && Tag(name)[1..] == name + ['>'];
  }

  lemma TagThen(name: string, rest: string)
    requires NoMarkup(name) && Clean(rest)
    ensures Clean(Tag(name) + rest) && Tags(Tag(name) + rest) == [Tag(name)] + Tags(rest)
  {
    TagsOfTag(name);
    CleanAppend(Tag(name), rest);
  }

  lemma TextThen(text: string, rest: string)
    requires NoMarkup(text) && Clean(rest)
    ensures Clean(text + rest) && Tags(text + rest) == Tags(rest)
  {
    TagsOfText(text);
    CleanAppend(text, rest);
    assert [] + Tags(rest) == Tags(rest);
  }

  lemma NoMarkupAppend(a: string, b: string)
    requires NoMarkup(a) && NoMarkup(b)
    ensures NoMarkup(a + b)
  {
  }

  function EachTags(parts: seq<string>): (r: seq<seq<string>>)
    ensures |r| == |parts| && forall i :: 0 <= i < |r| ==> r[i] == Tags(parts[i])
  {
    seq(|parts|, i requires 0 <= i < |parts| => Tags(parts[i]))
  }

  /** The tags of clean parts, written one after the other. */
  lemma {:induction false} TagsOfParts(parts: seq<string>)
    requires forall i :: 0 <= i < |parts| ==> Clean(parts[i])
    ensures Clean(Flatten(parts)) && Tags(Flatten(parts)) == Flatten(EachTags(parts))
  {
    if parts != [] {
      var n := |parts| - 1;
      TagsOfParts(parts[..n]);
      CleanAppend(Flatten(parts[..n]), parts[n]);
      assert EachTags(parts)[..n] == EachTags(parts[..n]);
    }
  }
}
