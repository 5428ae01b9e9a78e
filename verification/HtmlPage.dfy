/**
 Reading a page: the part of a browser's tokenizer (section 13.2.5 of the HTML standard) that
 finds tags, double-quoted attributes and characters, and the balance of its tags.
 */
module HtmlPages {
  import opened ByteStrings
  import opened HtmlEscaping

  /** An attribute as it stands in a tag; one without a value is a flag. */
  datatype Printed = Printed(name: string, value: Option<string>)

  datatype Token = Open(tag: string, attrs: seq<Printed>) | Close(tag: string) | Char(c: char)

  predicate Blank(c: char) { c == ' ' || c == '\t' || c == '\n' || c == '\r' || c == '\U{000C}' }

  /** What ends a name. */
  predicate Delimiter(c: char) { Blank(c) || c == '/' || c == '>' || c == '=' }

  predicate Letter(c: char) { 'a' <= c <= 'z' || 'A' <= c <= 'Z' }

  predicate IsName(name: string) { forall i | 0 <= i < |name| :: !Delimiter(name[i]) }

  predicate IsTagName(tag: string) { tag != [] && Letter(tag[0]) && IsName(tag) }

  predicate IsAttributeName(name: string) { name != [] && IsName(name) }

  function NameLength(s: string): (n: nat)
    ensures n <= |s| && (s != [] && !Delimiter(s[0]) ==> n > 0)
  {
    if s == [] || Delimiter(s[0]) then 0 else 1 + NameLength(s[1..])
  }

  /** Up to the closing quote, or to the end. */
  function ValueLength(s: string): (n: nat)
    ensures n <= |s|
  {
    if s == [] || s[0] == '"' then 0 else 1 + ValueLength(s[1..])
  }

  function Behind(s: string, n: nat): (r: string)
    ensures |r| <= |s| && (n > 0 && s != [] ==> |r| < |s|)
  {
    if n <= |s| then s[n..] else []
  }

  /** An attribute's value in double quotes, or none, and what stands behind it. */
  function ReadValue(s: string): (r: (Option<string>, string))
    ensures |r.1| <= |s|
  {
    if "=\"" <= s then
      var m := ValueLength(s[2..]);
      (Some(Decode(s[2..][..m])), Behind(s[2..], m + 1))
    else (None, s)
  }

  /** The attributes up to the end of the tag, and what stands behind it. */
  function ReadAttributes(s: string): (r: (seq<Printed>, string))
    ensures |r.1| <= |s|
    decreases |s|
  {
    if s == [] then ([], [])
    else if s[0] == '>' then ([], s[1..])
    else if Delimiter(s[0]) then ReadAttributes(s[1..])
    else
      var n := NameLength(s);
      var (value, behind) := ReadValue(s[n..]);
      var (more, rest) := ReadAttributes(behind);
      ([Printed(s[..n], value)] + more, rest)
  }

  function Chars(text: string): seq<Token> {
    if text == [] then [] else [Char(text[0])] + Chars(text[1..])
  }

  /** Elements whose content is text as it stands, without tags or character references. */
  const RAW_TEXT_ELEMENTS: set<string> := {"script", "style", "xmp", "iframe", "noembed", "noframes"}

  /** Up to the closing tag of the element, or to the end. */
  function RawLength(s: string, tag: string): (n: nat)
    ensures n <= |s|
  {
    if s == [] || "</" + tag <= s then 0 else 1 + RawLength(s[1..], tag)
  }

  function Tokens(s: string): seq<Token>
    decreases |s|
  {
    if s == [] then []
    else if s[0] == '<' && |s| > 1 && Letter(s[1]) then
      var n := NameLength(s[1..]);
      var (attrs, rest) := ReadAttributes(s[1 + n..]);
      var tag := s[1..1 + n];
      if tag in RAW_TEXT_ELEMENTS then
        var m := RawLength(rest, tag);
        [Open(tag, attrs)] + (Chars(rest[..m]) + Tokens(rest[m..]))
      else [Open(tag, attrs)] + Tokens(rest)
    else if s[0] == '<' && |s| > 2 && s[1] == '/' && Letter(s[2]) then
      var n := NameLength(s[2..]);
      [Close(s[2..2 + n])] + Tokens(ReadAttributes(s[2 + n..]).1)
    else
      var (c, n) := Reference(s);
      [Char(c)] + Tokens(s[n..])
  }

  // ─── Balance ─────────────────────────────────────────────────────────

  /** The void elements of section 13.1.2 of the HTML standard, which have no closing tag. */
  const VOID_ELEMENTS: set<string> :=
    {"area", "base", "br", "col", "embed", "hr", "img", "input", "link", "meta", "source", "track", "wbr"}

  /** Every closing tag closes the innermost open element, and none stays open. */
  predicate Balanced(tokens: seq<Token>, open: seq<string>)
    decreases |tokens|
  {
    if tokens == [] then open == []
    else
      match tokens[0]
      case Open(tag, _) => Balanced(tokens[1..], if tag in VOID_ELEMENTS then open else [tag] + open)
      case Close(tag) => open != [] && open[0] == tag && Balanced(tokens[1..], open[1..])
      case Char(_) => Balanced(tokens[1..], open)
  }

  /** An element's text from that of its attributes and of what is in it. */
  function ElementText(tag: string, own: string, inner: string): string {
    "<" + tag + own + if tag in VOID_ELEMENTS then " />" else ">" + (inner + ("</" + tag + ">"))
  }

  function TaggedTokens(tag: string, attrs: seq<Printed>, inner: seq<Token>): seq<Token> {
    if tag in VOID_ELEMENTS then [Open(tag, attrs)] else [Open(tag, attrs)] + (inner + [Close(tag)])
  }

  /** The text is read as these tokens wherever it stands. */
  ghost predicate Reads(text: string, tokens: seq<Token>) {
    forall rest :: Tokens(text + rest) == tokens + Tokens(rest)
  }

  /** The text goes on with a blank or with the end of the tag. */
  predicate TagGoesOn(s: string) { s != [] && (s[0] == ' ' || s[0] == '>') }

  /** Inside a tag the text is read as these attributes. */
  ghost predicate ReadsInTag(text: string, attrs: seq<Printed>) {
    forall rest | TagGoesOn(rest) ::
      var r := ReadAttributes(rest);
      TagGoesOn(text + rest) && ReadAttributes(text + rest) == (attrs + r.0, r.1)
  }

  datatype Reading = Reading(text: string, tokens: seq<Token>)

  /** A piece of a page, with what it is read as. */
  type Piece = r: Reading | Reads(r.text, r.tokens)
    ghost witness (NothingReads(); Reading([], []))

  datatype TagReading = TagReading(text: string, attrs: seq<Printed>)

  /** A piece of a tag, with what it is read as. */
  type TagPiece = r: TagReading | ReadsInTag(r.text, r.attrs)
    ghost witness (NothingReads(); TagReading([], []))

  /** The tokens open and close what they should wherever they stand. */
  ghost predicate Level(tokens: seq<Token>) {
    forall rest, open :: Balanced(tokens + rest, open) == Balanced(rest, open)
  }

  lemma {:induction false} CharsLength(text: string)
    ensures |Chars(text)| == |text|
  {
    if text != [] { CharsLength(text[1..]); }
  }

  lemma {:induction false} NothingIsLevel()
    ensures Level([])
  {
    forall rest: seq<Token>, open: seq<string> ensures Balanced([] + rest, open) == Balanced(rest, open) {
      assert [] + rest == rest;
    }
  }

  lemma {:induction false} LevelJoins(a: seq<Token>, b: seq<Token>)
    requires Level(a) && Level(b)
    ensures Level(a + b)
  {
    forall rest, open ensures Balanced(a + b + rest, open) == Balanced(rest, open) {
      assert a + b + rest == a + (b + rest);
    }
  }

  lemma {:induction false} CharsAreLevel(text: string)
    ensures Level(Chars(text))
  {
    if text == [] {
      NothingIsLevel();
    } else {
      forall rest: seq<Token>, open ensures Balanced([Char(text[0])] + rest, open) == Balanced(rest, open) {
        assert ([Char(text[0])] + rest)[1..] == rest;
      }
      CharsAreLevel(text[1..]);
      LevelJoins([Char(text[0])], Chars(text[1..]));
    }
  }

  lemma {:induction false} VoidIsLevel(tag: string, attrs: seq<Printed>)
    ensures tag in VOID_ELEMENTS ==> Level([Open(tag, attrs)])
  {
    forall rest, open | tag in VOID_ELEMENTS
      ensures Balanced([Open(tag, attrs)] + rest, open) == Balanced(rest, open)
    {
      assert ([Open(tag, attrs)] + rest)[1..] == rest;
    }
  }

  lemma {:induction false} TaggedIsLevel(tag: string, attrs: seq<Printed>, inner: seq<Token>)
    requires Level(inner)
    ensures Level(TaggedTokens(tag, attrs, inner))
  {
    VoidIsLevel(tag, attrs);
    PairIsLevel(tag, attrs, inner);
  }

  lemma {:induction false} PairIsLevel(tag: string, attrs: seq<Printed>, inner: seq<Token>)
    requires Level(inner)
    ensures tag !in VOID_ELEMENTS ==> Level([Open(tag, attrs)] + (inner + [Close(tag)]))
  {
    forall rest, open | tag !in VOID_ELEMENTS
      ensures Balanced([Open(tag, attrs)] + (inner + [Close(tag)]) + rest, open) == Balanced(rest, open)
    {
      assert ([Open(tag, attrs)] + (inner + [Close(tag)]) + rest)[1..] == inner + ([Close(tag)] + rest);
      assert ([Close(tag)] + rest)[1..] == rest && ([tag] + open)[1..] == open;
    }
  }

  // ─── Reading what was written ────────────────────────────────────────

  lemma {:induction false} NameIsRead(name: string, s: string)
    requires IsName(name) && s != [] && Delimiter(s[0])
    ensures NameLength(name + s) == |name| && (name + s)[..|name|] == name && (name + s)[|name|..] == s
  {
    if name == [] {
      assert name + s == s;
    } else {
      assert (name + s)[1..] == name[1..] + s;
      NameIsRead(name[1..], s);
    }
  }

  lemma {:induction false} ValueIsRead(value: string, s: string)
    requires '"' !in value
    ensures var t := value + "\"" + s;
            ValueLength(t) == |value| && t[..|value|] == value && Behind(t, |value| + 1) == s
  {
    if value != [] {
      assert (value + "\"" + s)[1..] == value[1..] + "\"" + s;
      ValueIsRead(value[1..], s);
    }
  }

  /** An attribute with a value. */
  lemma {:induction false} AttributeIsRead(name: string, value: string, s: string)
    requires IsAttributeName(name) && '"' !in value
    ensures ReadAttributes(" " + name + "=\"" + value + "\"" + s)
         == ([Printed(name, Some(Decode(value)))] + ReadAttributes(s).0, ReadAttributes(s).1)
  {
    var quoted := value + "\"" + s;
    var t := name + ("=\"" + quoted);
    Joined(name, value, s);
    assert (" " + t)[1..] == t;
    NameIsRead(name, "=\"" + quoted);
    ValueIsRead(value, s);
    assert ("=\"" + quoted)[2..] == quoted;
    assert ReadValue(t[|name|..]) == (Some(Decode(value)), s);
  }

  lemma {:induction false} Joined(name: string, value: string, s: string)
    ensures " " + name + "=\"" + value + "\"" + s == " " + (name + ("=\"" + (value + "\"" + s)))
  {
  }

  /** An attribute without a value. */
  lemma {:induction false} FlagIsRead(name: string, s: string)
    requires IsAttributeName(name) && s != [] && (s[0] == ' ' || s[0] == '>')
    ensures ReadAttributes(" " + name + s)
         == ([Printed(name, None)] + ReadAttributes(s).0, ReadAttributes(s).1)
  {
    assert " " + name + s == " " + (name + s);
    assert (" " + (name + s))[1..] == name + s;
    NameIsRead(name, s);
  }

  lemma {:induction false} TagEndIsRead(s: string)
    ensures ReadAttributes(">" + s) == ([], s) && ReadAttributes(" />" + s) == ([], s)
  {
    assert (">" + s)[1..] == s;
    assert (" />" + s)[1..] == "/>" + s && ("/>" + s)[1..] == ">" + s;
  }

  lemma {:induction false} OpenIsRead(tag: string, s: string)
    requires IsTagName(tag) && s != [] && Delimiter(s[0])
    ensures var (attrs, rest) := ReadAttributes(s);
            Tokens("<" + tag + s) == [Open(tag, attrs)] +
              if tag in RAW_TEXT_ELEMENTS then
                Chars(rest[..RawLength(rest, tag)]) + Tokens(rest[RawLength(rest, tag)..])
              else Tokens(rest)
  {
    var t := "<" + tag + s;
    assert t[1..] == tag + s;
    NameIsRead(tag, s);
    assert t[1..1 + |tag|] == tag && t[1 + |tag|..] == s;
  }

  lemma {:induction false} CloseIsRead(tag: string, s: string)
    requires IsTagName(tag)
    ensures Tokens("</" + tag + ">" + s) == [Close(tag)] + Tokens(s)
  {
    var t := "</" + tag + ">" + s;
    assert t[2..] == tag + (">" + s);
    NameIsRead(tag, ">" + s);
    TagEndIsRead(s);
    assert t[2..2 + |tag|] == tag && t[2 + |tag|..] == ">" + s;
  }

  lemma {:induction false} Regroup<T>(a: seq<T>, b: seq<T>, c: seq<T>)
    ensures a + b + c == a + (b + c)
  {
  }

  lemma {:induction false} NothingReads()
    ensures Reads([], []) && ReadsInTag([], [])
  {
    forall rest: string ensures [] + rest == rest {}
    forall tokens: seq<Token> ensures [] + tokens == tokens {}
    forall attrs: seq<Printed> ensures [] + attrs == attrs {}
  }

  lemma {:induction false} Join(a: Piece, b: Piece) returns (r: Piece)
    ensures r == Reading(a.text + b.text, a.tokens + b.tokens)
  {
    forall rest ensures Tokens(a.text + b.text + rest) == a.tokens + b.tokens + Tokens(rest) {
      Regroup(a.text, b.text, rest);
      Regroup(a.tokens, b.tokens, Tokens(rest));
    }
    r := Reading(a.text + b.text, a.tokens + b.tokens);
  }

  lemma {:induction false} TagJoin(a: TagPiece, b: TagPiece) returns (r: TagPiece)
    ensures r == TagReading(a.text + b.text, a.attrs + b.attrs)
  {
    forall rest | TagGoesOn(rest)
      ensures TagGoesOn(a.text + b.text + rest) && ReadAttributes(a.text + b.text + rest)
           == (a.attrs + b.attrs + ReadAttributes(rest).0, ReadAttributes(rest).1)
    {
      Regroup(a.text, b.text, rest);
      Regroup(a.attrs, b.attrs, ReadAttributes(rest).0);
    }
    r := TagReading(a.text + b.text, a.attrs + b.attrs);
  }

  lemma {:induction false} NoPiece() returns (r: Piece)
    ensures r == Reading([], [])
  {
    NothingReads();
    r := Reading([], []);
  }

  lemma {:induction false} NoTagPiece() returns (r: TagPiece)
    ensures r == TagReading([], [])
  {
    NothingReads();
    r := TagReading([], []);
  }

  lemma {:induction false} ValueReads(name: string, value: string) returns (r: TagPiece)
    requires IsAttributeName(name) && '"' !in value
    ensures r == TagReading(" " + name + "=\"" + value + "\"", [Printed(name, Some(Decode(value)))])
  {
    forall rest { AttributeIsRead(name, value, rest); }
    r := TagReading(" " + name + "=\"" + value + "\"", [Printed(name, Some(Decode(value)))]);
  }

  lemma {:induction false} FlagReads(name: string) returns (r: TagPiece)
    requires IsAttributeName(name)
    ensures r == TagReading(" " + name, [Printed(name, None)])
  {
    forall rest | TagGoesOn(rest) { FlagIsRead(name, rest); }
    r := TagReading(" " + name, [Printed(name, None)]);
  }

  lemma {:induction false} EndReads(end: string, rest: string)
    requires end == ">" || end == " />"
    ensures TagGoesOn(end + rest) && ReadAttributes(end + rest) == ([], rest)
  {
    TagEndIsRead(rest);
  }

  lemma {:induction false} OwnReads(own: TagPiece, end: string, rest: string)
    requires TagGoesOn(end) && ReadAttributes(end) == ([], rest)
    ensures TagGoesOn(own.text + end) && ReadAttributes(own.text + end) == (own.attrs, rest)
  {
    assert own.attrs + [] == own.attrs;
  }

  /** A tag with these attributes, with or without the slash. */
  lemma {:induction false} OpenReads(tag: string, own: TagPiece, end: string) returns (r: Piece)
    requires IsTagName(tag) && tag !in RAW_TEXT_ELEMENTS && (end == ">" || end == " />")
    ensures r == Reading("<" + tag + own.text + end, [Open(tag, own.attrs)])
  {
    var s := "<" + tag + own.text;
    forall rest ensures Tokens(s + end + rest) == [Open(tag, own.attrs)] + Tokens(rest) {
      EndReads(end, rest);
      OwnReads(own, end + rest, rest);
      OpenIsRead(tag, own.text + (end + rest));
      Regroup(s, end, rest);
      Regroup("<" + tag, own.text, end + rest);
    }
    r := Reading(s + end, [Open(tag, own.attrs)]);
  }

  /** Escaped text is read as its characters, whatever follows. */
  lemma {:induction false} TextIsRead(text: string, s: string)
    ensures Tokens(EscapeHtml(text) + s) == Chars(text) + Tokens(s)
  {
    if text == [] {
      assert [] + s == s && [] + Tokens(s) == Tokens(s);
    } else {
      var e, tail := EscapeChar(text[0]), EscapeHtml(text[1..]) + s;
      assert EscapeHtml(text) + s == e + tail;
      CharDecodes(text[0], e, tail);
      assert (e + tail)[0] == e[0] != '<';
      TextIsRead(text[1..], s);
      assert Chars(text) + Tokens(s) == [Char(text[0])] + (Chars(text[1..]) + Tokens(s));
    }
  }

  lemma {:induction false} CloseReads(tag: string) returns (r: Piece)
    requires IsTagName(tag)
    ensures r == Reading("</" + tag + ">", [Close(tag)])
  {
    forall rest { CloseIsRead(tag, rest); }
    r := Reading("</" + tag + ">", [Close(tag)]);
  }

  lemma {:induction false} TextReads(text: string) returns (r: Piece)
    ensures r == Reading(EscapeHtml(text), Chars(text))
  {
    forall rest { TextIsRead(text, rest); }
    r := Reading(EscapeHtml(text), Chars(text));
  }

  /** Text without tags stands between the tags of a raw text element as it is. */
  lemma {:induction false} RawIsRead(text: string, tag: string, s: string)
    requires '<' !in text
    ensures var t := text + ("</" + tag + ">" + s);
            RawLength(t, tag) == |text| && t[..|text|] == text && t[|text|..] == "</" + tag + ">" + s
  {
    var t := text + ("</" + tag + ">" + s);
    if text == [] {
      assert t == "</" + tag + (">" + s);
    } else {
      assert t[0] != '<' && t[1..] == text[1..] + ("</" + tag + ">" + s);
      RawIsRead(text[1..], tag, s);
    }
  }

  lemma {:induction false} RawReads(tag: string, own: TagPiece, text: string) returns (r: Piece)
    requires IsTagName(tag) && tag in RAW_TEXT_ELEMENTS && '<' !in text
    ensures r.text == ElementText(tag, own.text, text)
    ensures r.tokens == TaggedTokens(tag, own.attrs, Chars(text))
  {
    var inner := text + ("</" + tag + ">");
    var opening := "<" + tag + own.text;
    var tokens := [Open(tag, own.attrs)] + (Chars(text) + [Close(tag)]);
    forall rest ensures Tokens(opening + (">" + inner) + rest) == tokens + Tokens(rest) {
      var behind := text + ("</" + tag + ">" + rest);
      EndReads(">", behind);
      OwnReads(own, ">" + behind, behind);
      OpenIsRead(tag, own.text + (">" + behind));
      RawIsRead(text, tag, rest);
      CloseIsRead(tag, rest);
      RawRegrouped("<" + tag, own.text, text, "</" + tag + ">", rest);
      RawTokensRegrouped(Open(tag, own.attrs), Chars(text), Close(tag), Tokens(rest));
    }
    r := Reading(opening + (">" + inner), tokens);
  }

  lemma {:induction false} RawRegrouped(opening: string, own: string, text: string, closing: string, rest: string)
    ensures opening + own + (">" + (text + closing)) + rest == opening + (own + (">" + (text + (closing + rest))))
  {
    Regroup(opening + own, ">" + (text + closing), rest);
    Regroup(opening, own, ">" + (text + closing) + rest);
    Regroup(">", text + closing, rest);
    Regroup(text, closing, rest);
  }

  lemma {:induction false} RawTokensRegrouped(a: Token, b: seq<Token>, c: Token, rest: seq<Token>)
    ensures [a] + (b + [c]) + rest == [a] + (b + ([c] + rest))
  {
    Regroup([a], b + [c], rest);
    Regroup(b, [c], rest);
  }

  /** A whole element. */
  lemma {:induction false} ElementReads(tag: string, own: TagPiece, inner: Piece) returns (r: Piece)
    requires IsTagName(tag) && tag !in RAW_TEXT_ELEMENTS
    ensures r.text == ElementText(tag, own.text, inner.text)
    ensures r.tokens == TaggedTokens(tag, own.attrs, inner.tokens)
  {
    if tag in VOID_ELEMENTS {
      r := OpenReads(tag, own, " />");
    } else {
      var opening := OpenReads(tag, own, ">");
      var closing := CloseReads(tag);
      var rest := Join(inner, closing);
      r := Join(opening, rest);
      Regroup("<" + tag + own.text, ">", rest.text);
    }
  }
}
