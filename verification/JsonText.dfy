/** Decoding the text of a JSON string, for display. Bytes are characters with codes below 256. */
module JsonText {
  import opened Options

  /** What stands between the quotes: a byte, an escaped character, or \u and four bytes. */
  datatype Item = Plain(byte: char) | Escape(letter: char) | Unicode(hex: string)

  predicate IsMarkup(c: char) { c == '<' || c == '>' || c == '&' }
  predicate IsBlankEscape(c: char) { c == 'n' || c == 'r' || c == 't' }
  predicate IsEscape(c: char) { c == '"' || c == '\\' || c == '/' || IsBlankEscape(c) }

  predicate ValidItem(i: Item)
  {
    match i
    case Plain(byte) => byte != '"' && byte != '\\'
    case Escape(letter) => IsEscape(letter)
    case Unicode(hex) => |hex| == 4
  }

  predicate ValidItems(items: seq<Item>)
  {
    forall i :: 0 <= i < |items| ==> ValidItem(items[i])
  }

  function PrintItem(i: Item): (r: string)
    requires ValidItem(i)
    ensures |r| >= 1 && r[0] != '"'
  {
    match i
    case Plain(byte) => [byte]
    case Escape(letter) => ['\\', letter]
    case Unicode(hex) => ['\\', 'u'] + hex
  }

  /** Markup characters and control escapes become blanks, \u and non-ASCII leading bytes a question mark,
      continuation bytes nothing. */
  function ItemText(i: Item): (r: string)
    requires ValidItem(i)
    ensures |r| <= 1 && NoMarkup(r)
  {
    match i
    case Plain(byte) =>
      if ' ' <= byte < 128 as char then (if IsMarkup(byte) then [' '] else [byte])
      else if 128 as char <= byte < 192 as char then []
      else ['?']
    case Escape(letter) => if IsBlankEscape(letter) then [' '] else [letter]
    case Unicode(_) => ['?']
  }

  function Print(items: seq<Item>): string
    requires ValidItems(items)
  {
    if items == [] then [] else PrintItem(items[0]) + Print(items[1..])
  }

  function Text(items: seq<Item>): string
    requires ValidItems(items)
  {
    if items == [] then [] else ItemText(items[0]) + Text(items[1..])
  }

  predicate NoMarkup(s: string)
  {
    forall i :: 0 <= i < |s| ==> !IsMarkup(s[i])
  }

  lemma {:induction false} TextHasNoMarkup(items: seq<Item>)
    requires ValidItems(items)
    ensures NoMarkup(Text(items))
  {
    if items != [] {
      TextHasNoMarkup(items[1..]);
    }
  }

  datatype Decoded = Decoded(text: string, consumed: nat)

  /** The first item of an input that does not start with a quote; None if it is cut off or has an unknown escape. */
  function FirstItem(input: string): (r: Option<Item>)
    requires input != [] && input[0] != '"'
    ensures r.Some? ==> ValidItem(r.value) && PrintItem(r.value) <= input
  {
    if input[0] != '\\' then Some(Plain(input[0]))
    else if |input| < 2 then None
    else if IsEscape(input[1]) then Some(Escape(input[1]))
    else if input[1] == 'u' && |input| >= 6 then Some(Unicode(input[2..6]))
    else None
  }

  /** The text up to the closing quote, while there is room for one more character. */
  function Decode(input: string, room: nat): Option<Decoded>
    decreases |input|
  {
    if input == [] || room == 0 then None
    else if input[0] == '"' then Some(Decoded([], 1))
    else match FirstItem(input)
      case None => None
      case Some(item) =>
        Prepend(ItemText(item), |PrintItem(item)|, Decode(input[|PrintItem(item)|..], room - |ItemText(item)|))
  }

  function Prepend(text: string, n: nat, d: Option<Decoded>): Option<Decoded>
  {
    if d.None? then None else Some(Decoded(text + d.value.text, n + d.value.consumed))
  }

  /** The kernel's loop, filling a buffer of `capacity` bytes. */
  method DecodeJsonString(input: string, capacity: nat) returns (r: Option<Decoded>)
    ensures r == Decode(input, capacity)
  {
    var source, output := 0, [];
    assert input[0..] == input;
    PrependNothing(Decode(input, capacity));
    while source < |input| && |output| < capacity
      invariant |output| <= capacity && source <= |input|
      invariant Decode(input, capacity) == Whole(input, source, output, capacity)
    {
      var step := StepAt(input, source, output, capacity);
      if step.Stop? {
        return step.result;
      }
      source, output := step.source, step.output;
    }
    return None;
  }

  datatype Step = Stop(result: Option<Decoded>) | Go(source: nat, output: string)

  /** What the input decodes to, once everything before `source` has become `output`. */
  ghost function Whole(input: string, source: nat, output: string, capacity: nat): Option<Decoded>
    requires source <= |input| && |output| <= capacity
  {
    Prepend(output, source, Decode(input[source..], capacity - |output|))
  }

  /** One pass of the loop. */
  method StepAt(input: string, source: nat, output: string, capacity: nat) returns (step: Step)
    requires source < |input| && |output| < capacity
    ensures step.Stop? ==> step.result == Whole(input, source, output, capacity)
    ensures step.Go? ==> source < step.source <= |input| && |step.output| <= capacity
    ensures step.Go? ==>
      Whole(input, source, output, capacity) == Whole(input, step.source, step.output, capacity)
  {
    if input[source] == '"' {
      WholeAtQuote(input, source, output, capacity);
      return Stop(Some(Decoded(output, source + 1)));
    }
    var item := NextItem(input, source);
    if item.None? || item.value.consumed > |input| {
      WholeStuck(input, source, output, capacity);
      return Stop(None);
    }
    WholeMoves(input, source, output, capacity);
    return Go(item.value.consumed, output + item.value.text);
  }

  lemma WholeAtQuote(input: string, source: nat, output: string, capacity: nat)
    requires source < |input| && |output| < capacity && input[source] == '"'
    ensures Whole(input, source, output, capacity) == Some(Decoded(output, source + 1))
  {
    DecodeQuote(input[source..], output, source, capacity - |output|);
  }

  lemma WholeStuck(input: string, source: nat, output: string, capacity: nat)
    requires source < |input| && |output| < capacity && input[source] != '"' && FirstItem(input[source..]).None?
    ensures Whole(input, source, output, capacity).None?
  {
    DecodeNothing(input[source..], capacity - |output|);
  }

  lemma WholeMoves(input: string, source: nat, output: string, capacity: nat)
    requires source < |input| && |output| < capacity && input[source] != '"' && FirstItem(input[source..]).Some?
    ensures var item := FirstItem(input[source..]).value;
      && source + |PrintItem(item)| <= |input|
      && Whole(input, source, output, capacity)
         == Whole(input, source + |PrintItem(item)|, output + ItemText(item), capacity)
  {
    var rest := input[source..];
    var item := FirstItem(rest).value;
    var after := input[source + |PrintItem(item)|..];
    assert rest[|PrintItem(item)|..] == after;
    DecodeStep(rest, after, item, output, source, capacity - |output|);
  }

  lemma DecodeQuote(rest: string, done: string, at: nat, room: nat)
    requires room > 0 && rest != [] && rest[0] == '"'
    ensures Prepend(done, at, Decode(rest, room)) == Some(Decoded(done, at + 1))
  {
    assert done + [] == done;
  }

  lemma DecodeNothing(rest: string, room: nat)
    requires rest != [] && rest[0] != '"' && FirstItem(rest).None?
    ensures Decode(rest, room).None?
  {
  }

  lemma PrependNothing(d: Option<Decoded>)
    ensures Prepend([], 0, d) == d
  {
    if d.Some? {
      assert [] + d.value.text == d.value.text;
    }
  }

  /** One item at `source`: what it stands for and where it ends, which for \\u may be past the input. */
  method NextItem(input: string, source: nat) returns (r: Option<Decoded>)
    requires source < |input| && input[source] != '"'
    ensures r.None? ==> FirstItem(input[source..]).None?
    ensures r.Some? ==> r.value.consumed > source && |r.value.text| <= 1
    ensures r.Some? && r.value.consumed > |input| ==> FirstItem(input[source..]).None?
    ensures r.Some? && r.value.consumed <= |input| ==>
      && FirstItem(input[source..]).Some?
      && r.value == Decoded(ItemText(FirstItem(input[source..]).value),
                            source + |PrintItem(FirstItem(input[source..]).value)|)
  {
    ghost var rest := input[source..];
    var byte := input[source];
    assert rest[0] == byte;
    if byte == '\\' {
      if source + 1 >= |input| {
        return None;
      }
      var escaped := input[source + 1];
      assert rest[1] == escaped;
      if escaped == '"' || escaped == '\\' || escaped == '/' {
        return Some(Decoded([escaped], source + 2));
      } else if escaped == 'n' || escaped == 'r' || escaped == 't' {
        return Some(Decoded([' '], source + 2));
      } else if escaped == 'u' {
        return Some(Decoded(['?'], source + 6));
      }
      return None;
    }
    if ' ' <= byte < 128 as char {
      return Some(Decoded(if byte == '<' || byte == '>' || byte == '&' then [' '] else [byte], source + 1));
    }
    return Some(Decoded(if 128 as char <= byte < 192 as char then [] else ['?'], source + 1));
  }

  /** Taking one item off the front of the input. */
  lemma DecodeStep(rest: string, after: string, item: Item, done: string, at: nat, room: nat)
    requires room > 0 && rest != [] && rest[0] != '"'
    requires FirstItem(rest) == Some(item) && after == rest[|PrintItem(item)|..]
    ensures Prepend(done, at, Decode(rest, room))
            == Prepend(done + ItemText(item), at + |PrintItem(item)|, Decode(after, room - |ItemText(item)|))
  {
    var d := Decode(after, room - |ItemText(item)|);
    assert Decode(rest, room) == Prepend(ItemText(item), |PrintItem(item)|, d);
    PrependTwice(done, at, ItemText(item), |PrintItem(item)|, d);
  }

  lemma PrependTwice(a: string, m: nat, b: string, n: nat, d: Option<Decoded>)
    ensures Prepend(a, m, Prepend(b, n, d)) == Prepend(a + b, m + n, d)
  {
    if d.Some? {
      assert a + (b + d.value.text) == (a + b) + d.value.text;
    }
  }

  lemma FirstOfPrinted(item: Item, rest: string)
    requires ValidItem(item)
    ensures FirstItem(PrintItem(item) + rest) == Some(item) && (PrintItem(item) + rest)[|PrintItem(item)|..] == rest
  {
    var s := PrintItem(item) + rest;
    if item.Unicode? {
      assert s[2..6] == item.hex;
    }
  }

  lemma DecodeItem(item: Item, tail: string, room: nat)
    requires ValidItem(item) && room > 0
    ensures Decode(PrintItem(item) + tail, room)
            == Prepend(ItemText(item), |PrintItem(item)|, Decode(tail, room - |ItemText(item)|))
  {
    FirstOfPrinted(item, tail);
  }

  lemma PrintedStart(items: seq<Item>, rest: string)
    requires ValidItems(items) && items != []
    ensures Print(items) + ['"'] + rest == PrintItem(items[0]) + (Print(items[1..]) + ['"'] + rest)
  {
    var a, b, c := PrintItem(items[0]), Print(items[1..]), ['"'] + rest;
    assert (a + b) + c == a + (b + c);
    assert Print(items) + ['"'] + rest == Print(items) + c;
    assert b + ['"'] + rest == b + c;
  }

  lemma ItemsGrow(item: Item, rest: seq<Item>)
    requires ValidItem(item) && ValidItems(rest)
    ensures ValidItems([item] + rest) && Text([item] + rest) == ItemText(item) + Text(rest)
    ensures Print([item] + rest) == PrintItem(item) + Print(rest)
    ensures Print([item] + rest) + ['"'] == PrintItem(item) + (Print(rest) + ['"'])
  {
    assert ([item] + rest)[1..] == rest;
  }

  /** A text that leaves room in the buffer. */
  function Fitting(text: string, n: nat, room: nat): Option<Decoded>
  {
    if |text| < room then Some(Decoded(text, n)) else None
  }

  /** Every string of valid items decodes to its text, provided the text leaves room in the buffer. */
  lemma {:induction false} DecodeOfPrinted(items: seq<Item>, rest: string, room: nat)
    requires ValidItems(items)
    ensures Decode(Print(items) + ['"'] + rest, room)
            == Fitting(Text(items), |Print(items)| + 1, room)
    decreases |items|
  {
    if items == [] {
      assert (Print(items) + ['"'] + rest)[0] == '"';
    } else {
      var item, more := items[0], items[1..];
      assert items == [item] + more;
      ItemsGrow(item, more);
      PrintedStart(items, rest);
      if room > 0 {
        var left, tail := room - |ItemText(item)|, Print(more) + ['"'] + rest;
        DecodeOfPrinted(more, rest, left);
        DecodeOfPrintedItem(item, tail, room, Text(more), |Print(more)| + 1, Decode(tail, left));
      }
    }
  }

  lemma PrependOutcome(start: string, m: nat, text: string, n: nat, room: nat, d: Option<Decoded>)
    requires |start| <= room && d == Fitting(text, n, room - |start|)
    ensures Prepend(start, m, d) == Fitting(start + text, m + n, room)
  {
  }

  lemma DecodeOfPrintedItem(item: Item, tail: string, room: nat, text: string, n: nat, d: Option<Decoded>)
    requires ValidItem(item) && room > 0 && d == Decode(tail, room - |ItemText(item)|)
    requires d == Fitting(text, n, room - |ItemText(item)|)
    ensures Decode(PrintItem(item) + tail, room) == Fitting(ItemText(item) + text, |PrintItem(item)| + n, room)
  {
    DecodeItem(item, tail, room);
    PrependOutcome(ItemText(item), |PrintItem(item)|, text, n, room, d);
  }

  lemma PrefixJoined(input: string, a: string, b: string)
    requires a <= input && b <= input[|a|..]
    ensures a + b <= input
  {
    assert input == a + input[|a|..];
  }

  /** A decoded string that is not empty starts with an item, and the rest decodes too. */
  lemma DecodedStart(input: string, room: nat)
    requires Decode(input, room).Some? && input[0] != '"'
    ensures FirstItem(input).Some?
    ensures var item := FirstItem(input).value;
      && ValidItem(item) && 0 < |PrintItem(item)| <= |input| && PrintItem(item) <= input && |ItemText(item)| <= room
      && var d := Decode(input[|PrintItem(item)|..], room - |ItemText(item)|);
         && d.Some?
         && Decode(input, room).value == Decoded(ItemText(item) + d.value.text, |PrintItem(item)| + d.value.consumed)
  {
  }

  /** And whatever decodes was the print of valid items. */
  lemma {:induction false} ItemsOfDecoded(input: string, room: nat) returns (items: seq<Item>)
    requires Decode(input, room).Some?
    ensures ValidItems(items) && Decode(input, room).value == Decoded(Text(items), |Print(items)| + 1)
    ensures Print(items) + ['"'] <= input
    decreases |input|
  {
    if input[0] == '"' {
      items := [];
      assert Print(items) + ['"'] == ['"'];
    } else {
      DecodedStart(input, room);
      var item := FirstItem(input).value;
      var rest := ItemsOfDecoded(input[|PrintItem(item)|..], room - |ItemText(item)|);
      items := [item] + rest;
      ItemsGrow(item, rest);
      PrefixJoined(input, PrintItem(item), Print(rest) + ['"']);
    }
  }

  /** So the decoded text never holds markup, and leaves room in the buffer. */
  lemma {:induction false} DecodedHasNoMarkup(input: string, room: nat)
    requires Decode(input, room).Some?
    ensures NoMarkup(Decode(input, room).value.text) && |Decode(input, room).value.text| < room
  {
    var items := ItemsOfDecoded(input, room);
    TextHasNoMarkup(items);
    DecodedFits(input, room);
  }

  lemma {:induction false} DecodedFits(input: string, room: nat)
    requires Decode(input, room).Some?
    ensures |Decode(input, room).value.text| < room
    decreases |input|
  {
    if input[0] != '"' {
      DecodedStart(input, room);
      var item := FirstItem(input).value;
      DecodedFits(input[|PrintItem(item)|..], room - |ItemText(item)|);
    }
  }
}
