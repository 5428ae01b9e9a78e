/** Escaping text and attribute values for HTML. */
module HtmlEscaping {

  function EscapeChar(c: char): string {
    match c
    case '<' => "&lt;"
    case '>' => "&gt;"
    case '&' => "&amp;"
    case _ => [c]
  }

  function EscapeHtml(s: string): string {
    if s == [] then [] else EscapeChar(s[0]) + EscapeHtml(s[1..])
  }

  function EscapeAttributeChar(c: char): string {
    match c
    case '"' => "&quot;"
    case '<' => "&lt;"
    case '&' => "&amp;"
    case _ => [c]
  }

  function EscapeAttribute(s: string): string {
    if s == [] then [] else EscapeAttributeChar(s[0]) + EscapeAttribute(s[1..])
  }

  /** A character reference at the head of a text, with its length; any other character stands for itself. */
  function Reference(s: string): (r: (char, nat))
    requires s != []
    ensures 0 < r.1 <= |s|
  {
    if "&lt;" <= s then ('<', 4)
    else if "&gt;" <= s then ('>', 4)
    else if "&amp;" <= s then ('&', 5)
    else if "&quot;" <= s then ('"', 6)
    else (s[0], 1)
  }

  /** What a browser reads. */
  function Decode(s: string): string {
    if s == [] then []
    else
      var (c, n) := Reference(s);
      [c] + Decode(s[n..])
  }

  lemma {:induction false} CharDecodes(c: char, escaped: string, rest: string)
    requires escaped == EscapeChar(c) || escaped == EscapeAttributeChar(c)
    ensures Reference(escaped + rest) == (c, |escaped|) && (escaped + rest)[|escaped|..] == rest
  {
    var s := escaped + rest;
    assert "&lt;"[0] == "&gt;"[0] == "&amp;"[0] == "&quot;"[0] == '&';
    assert "&lt;"[1] == 'l' && "&gt;"[1] == 'g' && "&amp;"[1] == 'a' && "&quot;"[1] == 'q';
    assert s[0] == escaped[0];
    if |escaped| > 1 { assert s[1] == escaped[1] && escaped <= s; }
  }

  /** Text is read back as it was, and no tag can begin or end in it. */
  lemma {:induction false} EscapedTextIsRead(s: string)
    ensures Decode(EscapeHtml(s)) == s
    ensures '<' !in EscapeHtml(s) && '>' !in EscapeHtml(s)
  {
    if s != [] {
      CharDecodes(s[0], EscapeChar(s[0]), EscapeHtml(s[1..]));
      EscapedTextIsRead(s[1..]);
    }
  }

  /** A value is read back as it was, and its quotes cannot close in it. */
  lemma {:induction false} EscapedAttributeIsRead(s: string)
    ensures Decode(EscapeAttribute(s)) == s
    ensures '"' !in EscapeAttribute(s) && '<' !in EscapeAttribute(s)
  {
    if s != [] {
      CharDecodes(s[0], EscapeAttributeChar(s[0]), EscapeAttribute(s[1..]));
      EscapedAttributeIsRead(s[1..]);
    }
  }

  method EscapedHtml(s: string) returns (out: string)
    ensures out == EscapeHtml(s)
  {
    out := [];
    for i := 0 to |s|
      invariant out + EscapeHtml(s[i..]) == EscapeHtml(s)
    {
      TextStep(out, s, i);
      out := out + EscapeChar(s[i]);
    }
  }

  method EscapedAttribute(s: string) returns (out: string)
    ensures out == EscapeAttribute(s)
  {
    out := [];
    for i := 0 to |s|
      invariant out + EscapeAttribute(s[i..]) == EscapeAttribute(s)
    {
      AttributeStep(out, s, i);
      out := out + EscapeAttributeChar(s[i]);
    }
  }

  /** Escaping leaves text as it is if and only if there is nothing to escape; otherwise it gets longer. */
  lemma {:induction false} EscapingGrows(s: string)
    ensures if '<' !in s && '>' !in s && '&' !in s then EscapeHtml(s) == s else |EscapeHtml(s)| > |s|
    ensures |EscapeHtml(s)| >= |s|
  {
    if s != [] {
      EscapingGrows(s[1..]);
      assert s == [s[0]] + s[1..];
    }
  }

  /** Text without references reads as it stands. */
  lemma {:induction false} PlainIsRead(s: string)
    requires '&' !in s
    ensures Decode(s) == s
  {
    if s != [] {
      assert "&lt;"[0] == "&gt;"[0] == "&amp;"[0] == "&quot;"[0] == '&';
      PlainIsRead(s[1..]);
    }
  }

  lemma {:induction false} TextStep(out: string, s: string, i: nat)
    requires i < |s|
    ensures out + EscapeHtml(s[i..]) == out + EscapeChar(s[i]) + EscapeHtml(s[i + 1..])
  {
    assert s[i..][0] == s[i] && s[i..][1..] == s[i + 1..];
    assert out + (EscapeChar(s[i]) + EscapeHtml(s[i + 1..])) == out + EscapeChar(s[i]) + EscapeHtml(s[i + 1..]);
  }

  lemma {:induction false} AttributeStep(out: string, s: string, i: nat)
    requires i < |s|
    ensures out + EscapeAttribute(s[i..]) == out + EscapeAttributeChar(s[i]) + EscapeAttribute(s[i + 1..])
  {
    assert s[i..][0] == s[i] && s[i..][1..] == s[i + 1..];
    assert out + (EscapeAttributeChar(s[i]) + EscapeAttribute(s[i + 1..]))
      == out + EscapeAttributeChar(s[i]) + EscapeAttribute(s[i + 1..]);
  }
}
