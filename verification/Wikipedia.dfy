/** Cutting a long text into paragraphs at blanks. */
module Paragraphs {

  /** A paragraph, as a range of the text. */
  datatype Piece = Piece(from: nat, to: nat)

  predicate BlankBetween(text: string, a: nat, b: nat)
    requires a <= b <= |text|
  {
    forall i :: a <= i < b ==> text[i] == ' '
  }

  predicate NoBlankBetween(text: string, a: nat, b: nat)
    requires a <= b <= |text|
  {
    forall i :: a <= i < b ==> text[i] != ' '
  }

  /** The rest of the text if it is at most 470 characters; otherwise up to the last blank among the next 470,
      or all 470 of them if there is none. */
  predicate GoodPiece(text: string, p: Piece)
  {
    && p.from <= p.to <= |text|
    && if |text| - p.from <= 470 then p.to == |text|
       else && p.to <= p.from + 470
            && (p.to < p.from + 470 ==> text[p.to] == ' ' && NoBlankBetween(text, p.to + 1, p.from + 470))
            && (p.to == p.from + 470 ==> NoBlankBetween(text, p.from, p.to))
  }

  /** The pieces follow one another, only blanks are left out between them, and none starts on a skipped blank. */
  predicate Chained(text: string, pieces: seq<Piece>, end: nat)
    requires end <= |text|
  {
    && (forall i :: 0 <= i < |pieces| ==> GoodPiece(text, pieces[i]))
    && (pieces != [] ==> pieces[0].from == 0)
    && (forall i :: 0 < i < |pieces| ==>
          pieces[i - 1].to <= pieces[i].from && BlankBetween(text, pieces[i - 1].to, pieces[i].from))
    && (pieces == [] ==> end == 0)
    && (pieces != [] ==> pieces[|pieces| - 1].to <= end && BlankBetween(text, pieces[|pieces| - 1].to, end))
  }

  /** Every piece starts inside the text, and all but the first on a character that is not a blank. */
  predicate WellStarted(text: string, pieces: seq<Piece>)
  {
    forall i :: 0 <= i < |pieces| ==> pieces[i].from < |text| && (i > 0 ==> text[pieces[i].from] != ' ')
  }

  /** Where the paragraph that starts at `cursor` ends. */
  method FindSplit(text: string, cursor: nat) returns (split: nat)
    requires cursor < |text|
    ensures GoodPiece(text, Piece(cursor, cursor + split))
    ensures split == 0 ==> text[cursor] == ' '
  {
    var remaining := |text| - cursor;
    var limit := if remaining < 470 then remaining else 470;
    if limit == remaining {
      return limit;
    }
    split := limit;
    while split > 0
      invariant 0 <= split <= limit
      invariant NoBlankBetween(text, cursor + split, cursor + limit)
    {
      split := split - 1;
      if text[cursor + split] == ' ' {
        return split;
      }
    }
    return limit;
  }

  method SkipBlanks(text: string, from: nat) returns (cursor: nat)
    requires from <= |text|
    ensures from <= cursor <= |text| && BlankBetween(text, from, cursor)
    ensures cursor == |text| || text[cursor] != ' '
  {
    cursor := from;
    while cursor < |text| && text[cursor] == ' '
      invariant from <= cursor <= |text| && BlankBetween(text, from, cursor)
    {
      cursor := cursor + 1;
    }
  }

  lemma ChainedAppend(text: string, pieces: seq<Piece>, p: Piece, end: nat)
    requires p.from <= |text| && Chained(text, pieces, p.from) && GoodPiece(text, p)
    requires p.to <= end <= |text| && BlankBetween(text, p.to, end)
    ensures Chained(text, pieces + [p], end)
  {
    var longer := pieces + [p];
    forall i | 0 <= i < |longer| ensures GoodPiece(text, longer[i]) {
      assert i < |pieces| ==> longer[i] == pieces[i];
    }
    forall i | 0 < i < |longer|
      ensures longer[i - 1].to <= longer[i].from && BlankBetween(text, longer[i - 1].to, longer[i].from)
    {
      assert i < |pieces| ==> longer[i] == pieces[i] && longer[i - 1] == pieces[i - 1];
    }
  }

  /** The splitting loop. A split of length 0 happens only at a blank, which the skip then passes. */
  method Split(text: string) returns (pieces: seq<Piece>)
    ensures Chained(text, pieces, |text|)
    ensures WellStarted(text, pieces)
  {
    pieces := [];
    var cursor := 0;
    while cursor < |text|
      invariant cursor <= |text| && Chained(text, pieces, cursor)
      invariant WellStarted(text, pieces)
      invariant pieces != [] && cursor < |text| ==> text[cursor] != ' '
      decreases |text| - cursor
    {
      var split := FindSplit(text, cursor);
      var next := SkipBlanks(text, cursor + split);
      ChainedAppend(text, pieces, Piece(cursor, cursor + split), next);
      pieces := pieces + [Piece(cursor, cursor + split)];
      cursor := next;
    }
  }

  /** The two conditions leave only one way to cut a text. */
  lemma {:induction false} CutIsUnique(text: string, pieces: seq<Piece>, pieces': seq<Piece>, n: nat)
    requires Chained(text, pieces, |text|) && WellStarted(text, pieces)
    requires Chained(text, pieces', |text|) && WellStarted(text, pieces')
    requires n <= |pieces|
    ensures n <= |pieces'| && pieces[..n] == pieces'[..n]
  {
    if n > 0 {
      CutIsUnique(text, pieces, pieces', n - 1);
      var k := n - 1;
      SamePiece(pieces, pieces', k);
      AnotherPiece(text, pieces, pieces', k);
      SameStart(text, pieces, pieces', k);
      OneMore(pieces, pieces', k);
    }
  }

  lemma SamePiece(a: seq<Piece>, b: seq<Piece>, k: nat)
    requires k <= |a| && k <= |b| && a[..k] == b[..k]
    ensures k > 0 ==> a[k - 1] == b[k - 1]
  {
    assert k > 0 ==> a[k - 1] == a[..k][k - 1] == b[..k][k - 1];
  }

  lemma OneMore(a: seq<Piece>, b: seq<Piece>, k: nat)
    requires k < |a| && k < |b| && a[..k] == b[..k] && a[k] == b[k]
    ensures a[..k + 1] == b[..k + 1]
  {
    assert a[..k + 1] == a[..k] + [a[k]];
  }

  lemma AnotherPiece(text: string, pieces: seq<Piece>, pieces': seq<Piece>, k: nat)
    requires Chained(text, pieces, |text|) && WellStarted(text, pieces)
    requires Chained(text, pieces', |text|)
    requires k < |pieces| && k <= |pieces'| && (k > 0 ==> pieces[k - 1] == pieces'[k - 1])
    ensures k < |pieces'|
  {
    var at := pieces[k].from;
    assert at < |text| && (k > 0 ==> text[at] != ' ' && pieces[k - 1].to <= at);
    assert k == |pieces'| > 0 ==> BlankBetween(text, pieces'[k - 1].to, |text|);
  }

  lemma SameStart(text: string, pieces: seq<Piece>, pieces': seq<Piece>, k: nat)
    requires Chained(text, pieces, |text|) && WellStarted(text, pieces)
    requires Chained(text, pieces', |text|) && WellStarted(text, pieces')
    requires k < |pieces| && k < |pieces'| && (k > 0 ==> pieces[k - 1] == pieces'[k - 1])
    ensures pieces[k] == pieces'[k]
  {
    assert pieces[k].from == pieces'[k].from;
    assert GoodPiece(text, pieces[k]) && GoodPiece(text, pieces'[k]);
  }

  /** A maximal run of characters that are not blanks. */
  predicate Word(text: string, a: nat, b: nat)
  {
    && a < b <= |text| && NoBlankBetween(text, a, b)
    && (a == 0 || text[a - 1] == ' ') && (b == |text| || text[b] == ' ')
  }

  /** No piece ends inside a word of at most 470 characters. */
  lemma WordNotCut(text: string, p: Piece, a: nat, b: nat)
    requires GoodPiece(text, p) && Word(text, a, b) && b - a <= 470
    ensures !(a < p.to < b)
  {
    assert a > p.from ==> text[a - 1] == ' ';
  }

  /** So every such word lies in one piece or outside all of them, and none is cut by where a piece starts. */
  lemma WordsStayWhole(text: string, pieces: seq<Piece>, i: nat, a: nat, b: nat)
    requires Chained(text, pieces, |text|) && i < |pieces| && Word(text, a, b) && b - a <= 470
    ensures b <= pieces[i].from || pieces[i].to <= a || (pieces[i].from <= a && b <= pieces[i].to)
  {
    var p := pieces[i];
    WordNotCut(text, p, a, b);
    if i > 0 {
      var q := pieces[i - 1];
      WordNotCut(text, q, a, b);
      assert q.to < p.from ==> text[p.from - 1] == ' ';
    }
  }

  /** Every character that is not a blank lies in a piece. */
  lemma {:induction false} NothingElseDropped(text: string, pieces: seq<Piece>, end: nat, k: nat)
    requires end <= |text| && Chained(text, pieces, end) && k < end && text[k] != ' '
    ensures exists i :: 0 <= i < |pieces| && pieces[i].from <= k < pieces[i].to
    decreases |pieces|
  {
    var n := |pieces| - 1;
    if k < pieces[n].from {
      var front := pieces[..n];
      assert Chained(text, front, pieces[n].from);
      NothingElseDropped(text, front, pieces[n].from, k);
      var i :| 0 <= i < |front| && front[i].from <= k < front[i].to;
      assert pieces[i] == front[i];
    } else {
      assert pieces[n].from <= k < pieces[n].to;
    }
  }
}

/** The reader page for a Wikipedia summary. */
module Wikipedia {
  import opened HtmlTags
  import opened JsonText
  import opened Options
  import opened Paragraphs
  import opened Slices

  const STYLE: string :=
    "h1{color:#74bcc7}" + (".wiki{background:#111820;" + ("border:1px solid #32404a;padding:8px}" + "a{color:#74bcc7}"))
  const HEAD: string := HeadOf("style", STYLE, "/style", "title", "Wikipedia", "/title", "h1", "Wikipedia // ")
  const AFTER_TITLE: string := Tag("/h1") + Tag("p class='wiki'")
  const AFTER_DESCRIPTION: string := Tag("/p")
  const TAIL: string :=
    TailOf("p class='wiki'", "Verified HTTPS summary from Wikipedia. ", "Use Up, Down, Space, or H to read.", "/p")

  /** Five tags with a text after the first, the third and the fifth. */
  function HeadOf(a: string, s: string, b: string, c: string, t: string, d: string, e: string, u: string): string
  {
    Tag(a) + (s + (Tag(b) + (Tag(c) + (t + (Tag(d) + (Tag(e) + u))))))
  }

  function TailOf(a: string, s: string, t: string, b: string): string
  {
    Tag(a) + (s + (t + Tag(b)))
  }

  /** The extract's paragraphs, each in its own tags. */
  function Tagged(texts: seq<string>): seq<string>
  {
    if texts == [] then [] else Tagged(texts[..|texts| - 1]) + [Tag("p"), texts[|texts| - 1], Tag("/p")]
  }

  /** What is written to the page, in order. */
  function Parts(title: string, description: string, texts: seq<string>): seq<string>
  {
    [HEAD, title, AFTER_TITLE, description, AFTER_DESCRIPTION] + Tagged(texts) + [TAIL]
  }

  function Document(title: string, description: string, texts: seq<string>): string
  {
    Flatten(Parts(title, description, texts))
  }

  /** The title is the heading, and the description stands below it. */
  lemma PageStarts(title: string, description: string, texts: seq<string>)
    ensures HEAD + title + AFTER_TITLE + description + AFTER_DESCRIPTION <= Document(title, description, texts)
  {
    var front := [HEAD, title, AFTER_TITLE, description, AFTER_DESCRIPTION];
    var parts := Parts(title, description, texts);
    FlattenFive(HEAD, title, AFTER_TITLE, description, AFTER_DESCRIPTION);
    assert parts[..5] == front;
    FlattenPrefix(parts, 5);
  }

  lemma {:induction false} FlattenPrefix(parts: seq<string>, n: nat)
    requires n <= |parts|
    ensures Flatten(parts[..n]) <= Flatten(parts)
    decreases |parts|
  {
    if n < |parts| {
      var front := parts[..|parts| - 1];
      FlattenPrefix(front, n);
      assert front[..n] == parts[..n];
    } else {
      assert parts[..n] == parts;
    }
  }

  function TextsOf(text: string, pieces: seq<Piece>): (r: seq<string>)
    requires forall i :: 0 <= i < |pieces| ==> pieces[i].from <= pieces[i].to <= |text|
    ensures |r| == |pieces| && forall i :: 0 <= i < |pieces| ==> r[i] == text[pieces[i].from..pieces[i].to]
  {
    seq(|pieces|, i requires 0 <= i < |pieces| => text[pieces[i].from..pieces[i].to])
  }

  // The tags of the page.

  /** The tags of the extract's paragraphs. */
  function ParagraphTags(n: nat): seq<string>
  {
    if n == 0 then [] else ParagraphTags(n - 1) + [Tag("p"), Tag("/p")]
  }

  /** The tags of the template around n paragraphs. */
  function TemplateTags(n: nat): seq<string>
  {
    [Tag("style"), Tag("/style"), Tag("title"), Tag("/title"), Tag("h1")]
    + [Tag("/h1"), Tag("p class='wiki'")] + [Tag("/p")]
    + ParagraphTags(n) + [Tag("p class='wiki'"), Tag("/p")]
  }

  lemma TagsOfHeadOf(a: string, s: string, b: string, c: string, t: string, d: string, e: string, u: string)
    requires NoMarkup(a) && NoMarkup(s) && NoMarkup(b) && NoMarkup(c)
    requires NoMarkup(t) && NoMarkup(d) && NoMarkup(e) && NoMarkup(u)
    ensures Clean(HeadOf(a, s, b, c, t, d, e, u))
    ensures Tags(HeadOf(a, s, b, c, t, d, e, u)) == [Tag(a), Tag(b), Tag(c), Tag(d), Tag(e)]
  {
    TagsOfText(u);
    var end := Tag(d) + (Tag(e) + u);
    TagThen(e, u);
    TagThen(d, Tag(e) + u);
    TextThen(t, end);
    TagThen(c, t + end);
    TagThen(b, Tag(c) + (t + end));
    TextThen(s, Tag(b) + (Tag(c) + (t + end)));
    TagThen(a, s + (Tag(b) + (Tag(c) + (t + end))));
  }

  lemma TagsOfTailOf(a: string, s: string, t: string, b: string)
    requires NoMarkup(a) && NoMarkup(s) && NoMarkup(t) && NoMarkup(b)
    ensures Clean(TailOf(a, s, t, b)) && Tags(TailOf(a, s, t, b)) == [Tag(a), Tag(b)]
  {
    TagsOfTag(b);
    TextThen(t, Tag(b));
    TextThen(s, t + Tag(b));
    TagThen(a, s + (t + Tag(b)));
  }

  lemma TagsOfPair(a: string, b: string)
    requires NoMarkup(a) && NoMarkup(b)
    ensures Clean(Tag(a) + Tag(b)) && Tags(Tag(a) + Tag(b)) == [Tag(a), Tag(b)]
  {
    TagsOfTag(b);
    TagThen(a, Tag(b));
  }

  lemma StyleHasNoMarkup()
    ensures NoMarkup(STYLE)
  {
    NoMarkupAppend("border:1px solid #32404a;padding:8px}", "a{color:#74bcc7}");
    NoMarkupAppend(".wiki{background:#111820;", "border:1px solid #32404a;padding:8px}" + "a{color:#74bcc7}");
    NoMarkupAppend("h1{color:#74bcc7}",
                   ".wiki{background:#111820;" + ("border:1px solid #32404a;padding:8px}" + "a{color:#74bcc7}"));
  }

  lemma TagsOfHead()
    ensures Clean(HEAD) && Tags(HEAD) == [Tag("style"), Tag("/style"), Tag("title"), Tag("/title"), Tag("h1")]
  {
    StyleHasNoMarkup();
    TagsOfHeadOf("style", STYLE, "/style", "title", "Wikipedia", "/title", "h1", "Wikipedia // ");
  }

  lemma TagsOfTail()
    ensures Clean(TAIL) && Tags(TAIL) == [Tag("p class='wiki'"), Tag("/p")]
  {
    TagsOfTailOf("p class='wiki'", "Verified HTTPS summary from Wikipedia. ", "Use Up, Down, Space, or H to read.",
                 "/p");
  }

  lemma {:induction false} TagsOfTagged(texts: seq<string>)
    requires forall i :: 0 <= i < |texts| ==> NoMarkup(texts[i])
    ensures forall i :: 0 <= i < |Tagged(texts)| ==> Clean(Tagged(texts)[i])
    ensures Flatten(EachTags(Tagged(texts))) == ParagraphTags(|texts|)
  {
    if texts != [] {
      var n := |texts| - 1;
      TagsOfTagged(texts[..n]);
      TagsOfParagraph(Tagged(texts[..n]), "p", texts[n], "/p");
    }
  }

  lemma TagsOfParagraph(front: seq<string>, a: string, text: string, b: string)
    requires (forall i :: 0 <= i < |front| ==> Clean(front[i])) && NoMarkup(a) && NoMarkup(text) && NoMarkup(b)
    ensures var parts := front + [Tag(a), text, Tag(b)];
      && (forall i :: 0 <= i < |parts| ==> Clean(parts[i]))
      && Flatten(EachTags(parts)) == Flatten(EachTags(front)) + [Tag(a), Tag(b)]
  {
    TagsOfTag(a);
    TagsOfText(text);
    TagsOfTag(b);
    var last := [[Tag(a)], [], [Tag(b)]];
    assert EachTags(front + [Tag(a), text, Tag(b)]) == EachTags(front) + last;
    FlattenAppend(EachTags(front), last);
    FlattenThree([Tag(a)], [], [Tag(b)]);
  }

  /** The page's tags are exactly the template's, and no character reference stands in it. */
  lemma TagsAreTheTemplates(title: string, description: string, texts: seq<string>)
    requires NoMarkup(title) && NoMarkup(description) && forall i :: 0 <= i < |texts| ==> NoMarkup(texts[i])
    ensures Clean(Document(title, description, texts))
    ensures Tags(Document(title, description, texts)) == TemplateTags(|texts|)
  {
    TagsOfFront(title, description);
    TagsOfTagged(texts);
    TagsOfTail();
    TagsOfSections([HEAD, title, AFTER_TITLE, description, AFTER_DESCRIPTION], Tagged(texts), TAIL);
  }

  lemma TagsOfSections(front: seq<string>, middle: seq<string>, tail: string)
    requires forall i :: 0 <= i < |front| ==> Clean(front[i])
    requires forall i :: 0 <= i < |middle| ==> Clean(middle[i])
    requires Clean(tail)
    ensures var page := Flatten(front + middle + [tail]);
      Clean(page) && Tags(page) == Flatten(EachTags(front)) + Flatten(EachTags(middle)) + Tags(tail)
  {
    TagsOfParts(front);
    TagsOfParts(middle);
    CleanAppend(Flatten(front), Flatten(middle));
    CleanAppend(Flatten(front) + Flatten(middle), tail);
    FlattenAppend(front, middle);
    FlattenAppend(front + middle, [tail]);
    FlattenOne(tail);
  }

  lemma TagsOfFront(title: string, description: string)
    requires NoMarkup(title) && NoMarkup(description)
    ensures var front := [HEAD, title, AFTER_TITLE, description, AFTER_DESCRIPTION];
      && (forall i :: 0 <= i < 5 ==> Clean(front[i]))
      && Flatten(EachTags(front))
         == [Tag("style"), Tag("/style"), Tag("title"), Tag("/title"), Tag("h1")] + [Tag("/h1"), Tag("p class='wiki'")]
            + [Tag("/p")]
  {
    TagsOfHead();
    TagsOfText(title);
    TagsOfPair("/h1", "p class='wiki'");
    TagsOfText(description);
    TagsOfTag("/p");
    TagsOfFive(HEAD, title, AFTER_TITLE, description, AFTER_DESCRIPTION);
  }

  lemma TagsOfFive(a: string, b: string, c: string, d: string, e: string)
    ensures Flatten(EachTags([a, b, c, d, e])) == Tags(a) + Tags(b) + Tags(c) + Tags(d) + Tags(e)
  {
    assert EachTags([a, b, c, d, e]) == [Tags(a), Tags(b), Tags(c), Tags(d), Tags(e)];
    FlattenFive(Tags(a), Tags(b), Tags(c), Tags(d), Tags(e));
  }

  // Reading the summary and writing the page.

  predicate MatchesAt(haystack: string, needle: string, i: nat)
  {
    i + |needle| <= |haystack| && haystack[i..i + |needle|] == needle
  }

  ghost predicate FirstAt(haystack: string, needle: string, i: nat)
  {
    MatchesAt(haystack, needle, i) && forall j: nat :: j < i ==> !MatchesAt(haystack, needle, j)
  }

  ghost predicate Nowhere(haystack: string, needle: string)
  {
    forall i: nat :: !FirstAt(haystack, needle, i)
  }

  /** The first place where the needle stands; an empty needle stands nowhere. */
  method FindBytes(haystack: string, needle: string) returns (r: Option<nat>)
    ensures r.Some? ==> needle != [] && FirstAt(haystack, needle, r.value)
    ensures r.None? ==> needle == [] || Nowhere(haystack, needle)
  {
    if needle == [] {
      return None;
    }
    var i := 0;
    while i + |needle| <= |haystack|
      invariant forall j: nat :: j < i ==> !MatchesAt(haystack, needle, j)
    {
      if haystack[i..i + |needle|] == needle {
        return Some(i);
      }
      i := i + 1;
    }
    return None;
  }

  function Pattern(field: string): string
  {
    ['"'] + field + ['"', ':', '"']
  }

  function TextOf(decoded: Option<Decoded>): Option<string>
  {
    if decoded.Some? then Some(decoded.value.text) else None
  }

  /** The string behind the first occurrence of a field's name, decoded into a buffer; names are at most 36 bytes. */
  ghost function Field(json: string, field: string, capacity: nat): Option<string>
  {
    if |field| > 36 || Nowhere(json, Pattern(field)) then None
    else var i: nat :| FirstAt(json, Pattern(field), i); TextOf(Decode(json[i + |Pattern(field)|..], capacity))
  }

  lemma FieldAt(json: string, field: string, capacity: nat, i: nat)
    requires |field| <= 36 && FirstAt(json, Pattern(field), i)
    ensures Field(json, field, capacity) == TextOf(Decode(json[i + |Pattern(field)|..], capacity))
  {
    forall k: nat | FirstAt(json, Pattern(field), k) ensures k == i {
      assert k < i ==> !MatchesAt(json, Pattern(field), k);
      assert i < k ==> !MatchesAt(json, Pattern(field), i);
    }
  }

  lemma FieldNowhere(json: string, field: string, capacity: nat)
    requires |field| > 36 || Nowhere(json, Pattern(field))
    ensures Field(json, field, capacity).None?
  {
  }

  method JsonStringField(json: string, field: string, capacity: nat) returns (r: Option<string>)
    ensures r == Field(json, field, capacity)
  {
    if |field| + 4 > 40 {
      FieldNowhere(json, field, capacity);
      return None;
    }
    var at := FindBytes(json, Pattern(field));
    if at.None? {
      FieldNowhere(json, field, capacity);
      return None;
    }
    r := StringBehind(json, field, capacity, at.value);
  }

  method StringBehind(json: string, field: string, capacity: nat, at: nat) returns (r: Option<string>)
    requires |field| <= 36 && FirstAt(json, Pattern(field), at)
    ensures r == Field(json, field, capacity)
  {
    FieldAt(json, field, capacity, at);
    var decoded := DecodeJsonString(json[at + |Pattern(field)|..], capacity);
    r := TextOf(decoded);
  }

  /** A field's text has no markup and leaves room in its buffer. */
  lemma FieldHasNoMarkup(json: string, field: string, capacity: nat)
    requires Field(json, field, capacity).Some?
    ensures NoMarkup(Field(json, field, capacity).value) && |Field(json, field, capacity).value| < capacity
  {
    var i: nat :| FirstAt(json, Pattern(field), i);
    FieldAt(json, field, capacity, i);
    DecodedHasNoMarkup(json[i + |Pattern(field)|..], capacity);
  }

  /** Writes parts one after another until one does not fit. */
  method WriteParts(parts: seq<string>, capacity: nat) returns (r: Option<string>)
    ensures r == if |Flatten(parts)| <= capacity then Some(Flatten(parts)) else None
  {
    var output := [];
    assert parts[..0] == [];
    for i := 0 to |parts|
      invariant output == Flatten(parts[..i]) && |output| <= capacity
    {
      assert parts[..i + 1][..i] == parts[..i];
      if |output| + |parts[i]| > capacity {
        FlattenPrefix(parts, i + 1);
        return None;
      }
      output := output + parts[i];
    }
    assert parts[..|parts|] == parts;
    return Some(output);
  }

  lemma PiecesHaveNoMarkup(text: string, pieces: seq<Piece>)
    requires NoMarkup(text) && Chained(text, pieces, |text|)
    ensures forall i :: 0 <= i < |pieces| ==> NoMarkup(TextsOf(text, pieces)[i])
  {
  }

  /** The page of a title, a description and an extract cut into paragraphs. */
  ghost predicate IsPage(page: string, title: string, description: string, extract: string)
  {
    exists pieces :: PageOf(page, title, description, extract, pieces)
  }

  ghost predicate PageOf(page: string, title: string, description: string, extract: string, pieces: seq<Piece>)
  {
    && Chained(extract, pieces, |extract|) && WellStarted(extract, pieces)
    && page == Document(title, description, TextsOf(extract, pieces))
    && Clean(page) && Tags(page) == TemplateTags(|pieces|)
  }

  /** The page for a summary; there is none without a title or an extract, and a missing description is left empty. */
  ghost predicate IsPageFor(json: string, page: string)
  {
    var title, description := Field(json, "title", 512), Field(json, "description", 512);
    var extract := Field(json, "extract", 8192);
    title.Some? && extract.Some? && IsPage(page, title.value, TextOr(description), extract.value)
  }

  /** Fails exactly when there is no page that fits. */
  method WikipediaDocument(json: string, capacity: nat) returns (r: Option<string>)
    ensures r.None? <==> forall page :: IsPageFor(json, page) ==> |page| > capacity
    ensures r.Some? ==> |r.value| <= capacity && IsPageFor(json, r.value)
  {
    var title := JsonStringField(json, "title", 512);
    if title.None? {
      return None;
    }
    var description := JsonStringField(json, "description", 512);
    var extract := JsonStringField(json, "extract", 8192);
    if extract.None? {
      return None;
    }
    FieldHasNoMarkup(json, "title", 512);
    FieldHasNoMarkup(json, "extract", 8192);
    if description.Some? {
      FieldHasNoMarkup(json, "description", 512);
    }
    r := WritePage(title.value, TextOr(description), extract.value, capacity);
  }

  function TextOr(text: Option<string>): string
  {
    if text.Some? then text.value else []
  }

  method WritePage(title: string, description: string, extract: string, capacity: nat) returns (r: Option<string>)
    requires NoMarkup(title) && NoMarkup(description) && NoMarkup(extract)
    ensures r.None? <==> forall page :: IsPage(page, title, description, extract) ==> |page| > capacity
    ensures r.Some? ==> |r.value| <= capacity && IsPage(r.value, title, description, extract)
  {
    var pieces := Split(extract);
    PiecesHaveNoMarkup(extract, pieces);
    ghost var page := Document(title, description, TextsOf(extract, pieces));
    TagsAreTheTemplates(title, description, TextsOf(extract, pieces));
    assert PageOf(page, title, description, extract, pieces);
    OnePage(title, description, extract, page);
    r := WriteParts(Parts(title, description, TextsOf(extract, pieces)), capacity);
  }

  /** A text has only one page. */
  lemma OnePage(title: string, description: string, extract: string, page: string)
    requires IsPage(page, title, description, extract)
    ensures forall page' :: IsPage(page', title, description, extract) ==> page' == page
  {
    var pieces :| PageOf(page, title, description, extract, pieces);
    forall page' | IsPage(page', title, description, extract) ensures page' == page {
      var pieces' :| PageOf(page', title, description, extract, pieces');
      CutIsUnique(extract, pieces, pieces', |pieces|);
      CutIsUnique(extract, pieces', pieces, |pieces'|);
      assert pieces == pieces[..|pieces|] == pieces'[..|pieces'|] == pieces';
    }
  }
}
