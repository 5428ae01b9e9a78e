/**
 The JSON text of a render batch, and the extractor that finds a string field by its first
 textual occurrence: what comes out of each field, for every batch.
 */
module RenderBatchJson {
  import opened ByteStrings

  datatype Batch = Batch(batchId: string, anchor: string, html: string)

  // ─── Escaping ────────────────────────────────────────────────────────

  function HexDigit(n: nat): char
    requires n < 16
  {
    "0123456789abcdef"[n]
  }

  /** Four lower-case digits. */
  function Hex4(n: nat): string
    requires n < 0x100
  {
    ['0', '0', HexDigit(n / 16), HexDigit(n % 16)]
  }

  function EscapeChar(c: char): (r: string)
    ensures r != []
  {
    if c == '\\' then "\\\\"
    else if c == '"' then "\\\""
    else if c == '\n' then "\\n"
    else if c == '\r' then "\\r"
    else if c == '\t' then "\\t"
    else if (c as int) < 0x20 then "\\u" + Hex4(c as int)
    else [c]
  }

  function EscapeJson(s: string): string {
    if s == [] then [] else EscapeChar(s[0]) + EscapeJson(s[1..])
  }

  method EscapedJson(s: string) returns (out: string)
    ensures out == EscapeJson(s)
  {
    if s == [] { return []; }
    out := [];
    for i := 0 to |s|
      invariant out + EscapeJson(s[i..]) == EscapeJson(s)
    {
      EscapeStep(out, s, i);
      out := out + EscapeChar(s[i]);
    }
  }

  lemma {:induction false} EscapeStep(out: string, s: string, i: nat)
    requires i < |s|
    ensures out + EscapeJson(s[i..]) == out + EscapeChar(s[i]) + EscapeJson(s[i + 1..])
  {
    assert s[i..][0] == s[i] && s[i..][1..] == s[i + 1..];
    assert out + (EscapeChar(s[i]) + EscapeJson(s[i + 1..])) == out + EscapeChar(s[i]) + EscapeJson(s[i + 1..]);
  }

  // ─── Encoding ────────────────────────────────────────────────────────

  const HEAD := "{\"batchId\":\""

  const ANCHOR_KEY := "\",\"anchor\":\""

  const HTML_KEY := "\",\"html\":\""

  const TAIL := "\"}"

  function EncodeBatch(b: Batch): string {
    HEAD + EscapeJson(b.batchId) + ANCHOR_KEY + EscapeJson(b.anchor) + HTML_KEY + EscapeJson(b.html) + TAIL
  }

  // ─── Extracting ──────────────────────────────────────────────────────

  predicate OccursAt(s: string, t: string, i: nat) {
    i + |t| <= |s| && s[i..i + |t|] == t
  }

  /** The first occurrence from `i` on, or -1. */
  function IndexOf(s: string, t: string, i: nat): (r: int)
    ensures r == -1 || (i <= r && OccursAt(s, t, r))
    decreases if i <= |s| then |s| - i + 1 else 0
  {
    if i > |s| then -1 else if OccursAt(s, t, i) then i else IndexOf(s, t, i + 1)
  }

  function Unescape(c: char): char {
    if c == 'n' then '\n' else if c == 'r' then '\r' else if c == 't' then '\t' else c
  }

  /** A string up to its closing quote; an escape stands for the character after the backslash. */
  function ReadString(s: string): string {
    if s == [] then []
    else if s[0] == '\\' && |s| > 1 then [Unescape(s[1])] + ReadString(s[2..])
    else if s[0] == '"' then []
    else [s[0]] + ReadString(s[1..])
  }

  function Marker(field: string): string { "\"" + field + "\":\"" }

  function Extracted(json: string, field: string): Option<string> {
    var i := IndexOf(json, Marker(field), 0);
    if i < 0 then None else Some(ReadString(json[i + |Marker(field)|..]))
  }

  method ExtractJsonString(json: string, field: string) returns (r: Option<string>)
    ensures r == Extracted(json, field)
  {
    var marker := Marker(field);
    var i := IndexOf(json, marker, 0);
    if i < 0 { return None; }
    i := i + |marker|;
    var end: nat, sb := i, [];
    while end < |json|
      invariant i <= end <= |json| && sb + ReadString(json[end..]) == ReadString(json[i..])
      decreases |json| - end
    {
      var c := json[end];
      ReadStep(sb, json, end);
      if c == '\\' && end + 1 < |json| {
        var esc := json[end + 1];
        if esc == 'n' { sb := sb + ['\n']; }
        else if esc == 'r' { sb := sb + ['\r']; }
        else if esc == 't' { sb := sb + ['\t']; }
        else { sb := sb + [esc]; }
        end := end + 2;
        continue;
      }
      if c == '"' { return Some(sb); }
      sb := sb + [c];
      end := end + 1;
    }
    assert json[|json|..] == [] && sb + [] == sb;
    r := Some(sb);
  }

  lemma {:induction false} ReadStep(sb: string, json: string, end: nat)
    requires end < |json|
    ensures sb + ReadString(json[end..]) ==
      if json[end] == '\\' && end + 1 < |json| then sb + [Unescape(json[end + 1])] + ReadString(json[end + 2..])
      else if json[end] == '"' then sb
      else sb + [json[end]] + ReadString(json[end + 1..])
  {
    var s := json[end..];
    assert s[0] == json[end] && s[1..] == json[end + 1..] && sb + [] == sb;
    if |s| > 1 {
      assert s[1] == json[end + 1] && s[2..] == json[end + 2..];
      assert sb + ([Unescape(s[1])] + ReadString(s[2..])) == sb + [Unescape(s[1])] + ReadString(s[2..]);
    }
    assert sb + ([s[0]] + ReadString(s[1..])) == sb + [s[0]] + ReadString(s[1..]);
  }

  // ─── What an escaped field reads back as ─────────────────────────────

  /** A control character whose escape the extractor does not know. */
  predicate IsDirty(c: char) { (c as int) < 0x20 && c != '\n' && c != '\r' && c != '\t' }

  /** Dirty characters come back as their escape without the backslash. */
  function ReadBack(s: string): string {
    if s == [] then []
    else (if IsDirty(s[0]) then "u" + Hex4(s[0] as int) else [s[0]]) + ReadBack(s[1..])
  }

  /** Characters that are neither quote nor backslash stand for themselves. */
  lemma {:induction false} PlainsAreRead(d: string, rest: string)
    requires forall k | 0 <= k < |d| :: d[k] != '\\' && d[k] != '"'
    ensures ReadString(d + rest) == d + ReadString(rest)
  {
    if d == [] {
      assert d + rest == rest;
    } else {
      assert (d + rest)[1..] == d[1..] + rest;
      PlainsAreRead(d[1..], rest);
    }
  }

  lemma {:induction false} CharIsRead(c: char, rest: string)
    ensures ReadString(EscapeChar(c) + rest)
         == (if IsDirty(c) then "u" + Hex4(c as int) else [c]) + ReadString(rest)
  {
    var e := EscapeChar(c);
    if IsDirty(c) {
      var d := Hex4(c as int);
      assert (e + rest)[2..] == d + rest;
      PlainsAreRead(d, rest);
      assert ['u'] + (d + ReadString(rest)) == "u" + d + ReadString(rest);
    } else {
      assert (e + rest)[|e|..] == rest;
    }
  }

  /** What a field's text reads back as, whatever follows its quote. */
  lemma {:induction false} FieldIsRead(s: string, rest: string)
    ensures ReadString(EscapeJson(s) + "\"" + rest) == ReadBack(s)
  {
    if s != [] {
      var tail := EscapeJson(s[1..]) + "\"" + rest;
      assert EscapeJson(s) + "\"" + rest == EscapeChar(s[0]) + tail;
      CharIsRead(s[0], tail);
      FieldIsRead(s[1..], rest);
    }
  }

  function DirtyCount(s: string): nat {
    if s == [] then 0 else (if IsDirty(s[0]) then 1 else 0) + DirtyCount(s[1..])
  }

  predicate Clean(s: string) { forall i | 0 <= i < |s| :: !IsDirty(s[i]) }

  /** A field comes back as it was if and only if it is clean; every dirty character makes it four longer. */
  lemma {:induction false} ReadBackIff(s: string)
    ensures |ReadBack(s)| == |s| + 4 * DirtyCount(s)
    ensures DirtyCount(s) == 0 <==> Clean(s)
    ensures Clean(s) ==> ReadBack(s) == s
  {
    if s != [] {
      ReadBackIff(s[1..]);
      assert s == [s[0]] + s[1..];
      if DirtyCount(s) == 0 {
        forall i | 0 <= i < |s| ensures !IsDirty(s[i]) { if i > 0 { assert s[i] == s[1..][i - 1]; } }
      }
    }
  }

  // ─── Where keys end ──────────────────────────────────────────────────

  /** A quote between this character and a colon, as at the end of a key. */
  predicate KeyEndsAt(s: string, q: nat, last: char) {
    0 < q && q + 1 < |s| && s[q - 1] == last && s[q] == '"' && s[q + 1] == ':'
  }

  /** Escaped text has no quote without a backslash before it. */
  lemma {:induction false} EscapedQuotesAreMarked(s: string, i: nat)
    requires i < |EscapeJson(s)| && EscapeJson(s)[i] == '"'
    ensures i > 0 && EscapeJson(s)[i - 1] == '\\'
  {
    var e := EscapeChar(s[0]);
    if i >= |e| { EscapedQuotesAreMarked(s[1..], i - |e|); }
  }

  /** No key ends inside an escaped value. */
  lemma {:induction false} NoKeyEndsInValue(pre: string, value: string, post: string, q: nat, last: char)
    requires last != '\\' && |pre| <= q < |pre| + |EscapeJson(value)|
    ensures !KeyEndsAt(pre + EscapeJson(value) + post, q, last)
  {
    var e, s := EscapeJson(value), pre + EscapeJson(value) + post;
    assert s[q] == e[q - |pre|];
    if e[q - |pre|] == '"' {
      EscapedQuotesAreMarked(value, q - |pre|);
      assert s[q - 1] == e[q - 1 - |pre|];
    }
  }

  predicate IsLetter(c: char) { 'a' <= c <= 'z' }

  /** Behind a value, a key ends only where the key of the literal text does. */
  lemma {:induction false} KeyEndInLiteral(pre: string, key: string, post: string, q: nat, last: char, end: nat)
    requires IsLetter(last) && |pre| <= q < |pre| + |key| && KeyEndsAt(pre + key + post, q, last)
    requires 2 < end < |key| && key[0] == '"' && key[1] == ',' && |key| == end + 3 && key[end + 1] == ':'
    requires forall j | 0 <= j < |key| && key[j] == '"' :: j == 0 || j == 2 || j == end || j == end + 2
    ensures q == |pre| + end && key[end - 1] == last
  {
    var s := pre + key + post;
    assert forall j | 0 <= j < |key| :: s[|pre| + j] == key[j];
    var j := q - |pre|;
    assert s[|pre| + j] == key[j] == '"';
    assert j > 0 ==> s[|pre| + (j - 1)] == key[j - 1];
    assert j + 1 < |key| ==> s[|pre| + (j + 1)] == key[j + 1];
  }

  lemma {:induction false} Brackets(h: string, b: string, k: string, a: string, l: string, m: string, t: string)
    ensures var text := h + b + k + a + l + m + t;
            && text == h + (b + k + a + l + m + t)
            && text == h + b + (k + a + l + m + t)
            && text == (h + b) + k + (a + l + m + t)
            && text == (h + b + k) + a + (l + m + t)
            && text == (h + b + k + a) + l + (m + t)
            && text == (h + b + k + a + l) + m + t
  {
    assert h + b + k + a + l + (m + t) == h + b + k + a + l + m + t;
    assert h + b + k + a + (l + m + t) == h + b + k + a + l + m + t;
    assert h + b + k + (a + l + m + t) == h + b + k + a + l + m + t;
    assert h + b + (k + a + l + m + t) == h + b + k + a + l + m + t;
    assert h + (b + k + a + l + m + t) == h + b + k + a + l + m + t;
  }

  /** No key ends in the closing literal. */
  lemma {:induction false} NoKeyEndsInTail(pre: string, q: nat, last: char)
    requires |pre| <= q
    ensures !KeyEndsAt(pre + TAIL, q, last)
  {
    assert (pre + TAIL)[|pre|..] == TAIL;
    if q + 1 < |pre + TAIL| { assert (pre + TAIL)[q + 1] == TAIL[q + 1 - |pre|]; }
  }

  lemma {:induction false} AnchorKeyEnd(pre: string, post: string, q: nat, last: char)
    requires IsLetter(last) && |pre| <= q < |pre| + |ANCHOR_KEY| && KeyEndsAt(pre + ANCHOR_KEY + post, q, last)
    ensures q == |pre| + 9 && last == 'r'
  {
    KeyEndInLiteral(pre, ANCHOR_KEY, post, q, last, 9);
  }

  lemma {:induction false} HtmlKeyEnd(pre: string, post: string, q: nat, last: char)
    requires IsLetter(last) && |pre| <= q < |pre| + |HTML_KEY| && KeyEndsAt(pre + HTML_KEY + post, q, last)
    ensures q == |pre| + 7 && last == 'l'
  {
    KeyEndInLiteral(pre, HTML_KEY, post, q, last, 7);
  }

  /** The three keys end where they should, and nothing else in the text ends like one. */
  lemma {:induction false} KeyEnds(b: Batch, q: nat, last: char)
    requires IsLetter(last) && KeyEndsAt(EncodeBatch(b), q, last)
    ensures (q == 9 && last == 'd')
         || (q == |HEAD| + |EscapeJson(b.batchId)| + 9 && last == 'r')
         || (q == |HEAD| + |EscapeJson(b.batchId)| + |ANCHOR_KEY| + |EscapeJson(b.anchor)| + 7 && last == 'l')
  {
    var h, i, k, a := HEAD, EscapeJson(b.batchId), ANCHOR_KEY, EscapeJson(b.anchor);
    var l, m, t := HTML_KEY, EscapeJson(b.html), TAIL;
    Brackets(h, i, k, a, l, m, t);
    if q < |h| {
      HeadKeyEnd(i + k + a + l + m + t, q, last);
    } else if q < |h + i| {
      NoKeyEndsInValue(h, b.batchId, k + a + l + m + t, q, last);
    } else if q < |h + i + k| {
      AnchorKeyEnd(h + i, a + l + m + t, q, last);
    } else if q < |h + i + k + a| {
      NoKeyEndsInValue(h + i + k, b.anchor, l + m + t, q, last);
    } else if q < |h + i + k + a + l| {
      HtmlKeyEnd(h + i + k + a, m + t, q, last);
    } else if q < |h + i + k + a + l + m| {
      NoKeyEndsInValue(h + i + k + a + l, b.html, t, q, last);
    } else {
      NoKeyEndsInTail(h + i + k + a + l + m, q, last);
    }
  }

  lemma {:induction false} HeadKeyEnd(rest: string, q: nat, last: char)
    requires q < |HEAD| && IsLetter(last) && KeyEndsAt(HEAD + rest, q, last)
    ensures q == 9 && last == 'd'
  {
    assert forall j | 0 <= j < |HEAD| :: (HEAD + rest)[j] == HEAD[j];
    assert HEAD[0] == '{' && HEAD[10] == ':' && HEAD[8] == 'd';
    assert HEAD[q] == '"' ==> q == 1 || q == 9 || q == 11;
  }

  // ─── The round trip ──────────────────────────────────────────────────

  lemma {:induction false} FirstOccurrence(s: string, t: string, i: nat, target: nat)
    requires i <= target && OccursAt(s, t, target) && forall k | i <= k < target :: !OccursAt(s, t, k)
    ensures IndexOf(s, t, i) == target
    decreases target - i
  {
    if i < target { FirstOccurrence(s, t, i + 1, target); }
  }

  lemma {:induction false} MarkerEndsKey(json: string, field: string, p: nat)
    requires field != [] && OccursAt(json, Marker(field), p)
    ensures KeyEndsAt(json, p + |field| + 1, field[|field| - 1])
  {
    var m := Marker(field);
    var found := json[p..p + |m|];
    assert found[|field|] == m[|field|] == field[|field| - 1];
    assert found[|field| + 1] == m[|field| + 1] == '"' && found[|field| + 2] == m[|field| + 2] == ':';
  }

  /** A field is found when no key ends with its last letter before it. */
  lemma {:induction false} FieldExtracted(json: string, pre: string, field: string, last: char, value: string,
      post: string)
    requires field != [] && last == field[|field| - 1]
    requires json == pre + Marker(field) + EscapeJson(value) + ("\"" + post)
    requires forall q: nat | KeyEndsAt(json, q, last) :: q > |pre| + |field|
    ensures Extracted(json, field) == Some(ReadBack(value))
  {
    var m := Marker(field);
    Split(pre + m, EscapeJson(value), "\"", post);
    MarkerIsFirst(json, pre, field, last, json[|pre + m|..]);
    StringBehind(json, pre + m, EscapeJson(value), post);
    FieldIsRead(value, post);
  }

  lemma {:induction false} StringBehind(json: string, pre: string, text: string, post: string)
    requires json == pre + text + ("\"" + post)
    ensures json[|pre|..] == text + "\"" + post
  {
  }

  lemma {:induction false} MarkerIsFirst(json: string, pre: string, field: string, last: char, rest: string)
    requires field != [] && last == field[|field| - 1] && json == pre + Marker(field) + rest
    requires forall q: nat | KeyEndsAt(json, q, last) :: q > |pre| + |field|
    ensures IndexOf(json, Marker(field), 0) == |pre|
  {
    var m := Marker(field);
    assert json[|pre|..|pre| + |m|] == m;
    forall k | 0 <= k < |pre| ensures !OccursAt(json, m, k) {
      if OccursAt(json, m, k) { MarkerEndsKey(json, field, k); }
    }
    FirstOccurrence(json, m, 0, |pre|);
  }

  lemma {:induction false} Literals()
    ensures HEAD == "{" + Marker("batchId")
    ensures ANCHOR_KEY == "\"," + Marker("anchor") && ANCHOR_KEY == "\"" + ANCHOR_KEY[1..]
    ensures HTML_KEY == "\"," + Marker("html") && HTML_KEY == "\"" + HTML_KEY[1..]
    ensures TAIL == "\"" + "}"
  {
  }

  lemma {:induction false} JoinAfter(quote: string, k: string, rest: string, tail: string)
    requires k == quote + rest
    ensures k + tail == quote + (rest + tail)
  {
  }

  lemma {:induction false} BatchIdExtracted(b: Batch)
    ensures Extracted(EncodeBatch(b), "batchId") == Some(ReadBack(b.batchId))
  {
    var i, a, m := EscapeJson(b.batchId), EscapeJson(b.anchor), EscapeJson(b.html);
    var tail := a + HTML_KEY + m + TAIL;
    Literals();
    Split(HEAD, i, ANCHOR_KEY, tail);
    Brackets(HEAD, i, ANCHOR_KEY, a, HTML_KEY, m, TAIL);
    JoinAfter("\"", ANCHOR_KEY, ANCHOR_KEY[1..], tail);
    forall q: nat | KeyEndsAt(EncodeBatch(b), q, 'd') ensures q > 8 { KeyEnds(b, q, 'd'); }
    FieldExtracted(EncodeBatch(b), "{", "batchId", 'd', b.batchId, ANCHOR_KEY[1..] + tail);
  }

  lemma {:induction false} Split(h: string, i: string, k: string, tail: string)
    ensures h + i + k + tail == h + i + (k + tail)
  {
  }

  lemma {:induction false} AnchorExtracted(b: Batch)
    ensures Extracted(EncodeBatch(b), "anchor") == Some(ReadBack(b.anchor))
  {
    var i, a, m := EscapeJson(b.batchId), EscapeJson(b.anchor), EscapeJson(b.html);
    var pre, tail := HEAD + i + "\",", m + TAIL;
    Literals();
    Split(HEAD, i, "\",", Marker("anchor"));
    Brackets(HEAD, i, ANCHOR_KEY, a, HTML_KEY, m, TAIL);
    Split(HEAD + i + ANCHOR_KEY, a, HTML_KEY, tail);
    JoinAfter("\"", HTML_KEY, HTML_KEY[1..], tail);
    forall q: nat | KeyEndsAt(EncodeBatch(b), q, 'r') ensures q > |pre| + 6 { KeyEnds(b, q, 'r'); }
    FieldExtracted(EncodeBatch(b), pre, "anchor", 'r', b.anchor, HTML_KEY[1..] + tail);
  }

  lemma {:induction false} HtmlExtracted(b: Batch)
    ensures Extracted(EncodeBatch(b), "html") == Some(ReadBack(b.html))
  {
    var i, a, m := EscapeJson(b.batchId), EscapeJson(b.anchor), EscapeJson(b.html);
    var before := HEAD + i + ANCHOR_KEY + a;
    var pre := before + "\",";
    Literals();
    assert before + ("\"," + Marker("html")) == pre + Marker("html");
    forall q: nat | KeyEndsAt(EncodeBatch(b), q, 'l') ensures q > |pre| + 4 { KeyEnds(b, q, 'l'); }
    FieldExtracted(EncodeBatch(b), pre, "html", 'l', b.html, "}");
  }

  /** Each field is extracted exactly if and only if it is clean, whatever the other two hold. */
  lemma {:induction false} BatchRoundTrip(b: Batch)
    ensures Extracted(EncodeBatch(b), "batchId") == Some(b.batchId) <==> Clean(b.batchId)
    ensures Extracted(EncodeBatch(b), "anchor") == Some(b.anchor) <==> Clean(b.anchor)
    ensures Extracted(EncodeBatch(b), "html") == Some(b.html) <==> Clean(b.html)
  {
    BatchIdExtracted(b);
    AnchorExtracted(b);
    HtmlExtracted(b);
    ReadBackIff(b.batchId);
    ReadBackIff(b.anchor);
    ReadBackIff(b.html);
  }

  // ─── A reader of JSON ────────────────────────────────────────────────

  function HexValue(c: char): Option<nat> {
    if '0' <= c <= '9' then Some(c as int - '0' as int)
    else if 'a' <= c <= 'f' then Some(c as int - 'a' as int + 10)
    else if 'A' <= c <= 'F' then Some(c as int - 'A' as int + 10)
    else None
  }

  function HexNumber(s: string, n: nat): Option<nat> {
    if s == [] then Some(n)
    else if HexValue(s[0]).None? then None
    else HexNumber(s[1..], 16 * n + HexValue(s[0]).value)
  }

  /** The character that four digits name; halves of surrogate pairs, which are never written, are not read. */
  function UnicodeEscape(digits: string): Option<char> {
    var n := HexNumber(digits, 0);
    if n.None? || n.value >= 0x1_0000 || 0xD800 <= n.value < 0xE000 then None else Some(n.value as char)
  }

  /** The escapes of one letter in section 7 of RFC 8259. */
  function LetterEscape(c: char): Option<char> {
    match c
    case '"' => Some('"')
    case '\\' => Some('\\')
    case '/' => Some('/')
    case 'b' => Some('\U{0008}')
    case 'f' => Some('\U{000C}')
    case 'n' => Some('\n')
    case 'r' => Some('\r')
    case 't' => Some('\t')
    case _ => None
  }

  /** The first character of a string, and what stands behind it. */
  function JsonChar(s: string): (r: Option<(char, string)>)
    requires s != []
    ensures r.Some? ==> |r.value.1| < |s|
  {
    if (s[0] as int) < 0x20 then None
    else if s[0] != '\\' then Some((s[0], s[1..]))
    else if |s| >= 6 && s[1] == 'u' then
      match UnicodeEscape(s[2..6])
      case None => None
      case Some(c) => Some((c, s[6..]))
    else if |s| < 2 then None
    else
      match LetterEscape(s[1])
      case None => None
      case Some(c) => Some((c, s[2..]))
  }

  /** A string behind its opening quote, and what stands behind its closing one. */
  function JsonString(s: string): (r: Option<(string, string)>)
    ensures r.Some? ==> |r.value.1| < |s|
    decreases |s|
  {
    if s == [] then None
    else if s[0] == '"' then Some(([], s[1..]))
    else
      var first := JsonChar(s);
      if first.None? then None
      else
        var more := JsonString(first.value.1);
        if more.None? then None else Some(([first.value.0] + more.value.0, more.value.1))
  }

  function SkipBlanks(s: string): (r: string)
    ensures |r| <= |s|
  {
    if s != [] && (s[0] == ' ' || s[0] == '\t' || s[0] == '\n' || s[0] == '\r') then SkipBlanks(s[1..]) else s
  }

  /** What stands behind the character, which comes next. */
  function Expect(s: string, c: char): (r: Option<string>)
    ensures r.Some? ==> |r.value| < |s|
  {
    var t := SkipBlanks(s);
    if t != [] && t[0] == c then Some(t[1..]) else None
  }

  type Member = (string, string)

  function JsonQuoted(s: string): (r: Option<(string, string)>)
    ensures r.Some? ==> |r.value.1| < |s|
  {
    var open := Expect(s, '"');
    if open.None? then None else JsonString(open.value)
  }

  function JsonMember(s: string): (r: Option<(Member, string)>)
    ensures r.Some? ==> |r.value.1| < |s|
  {
    var key := JsonQuoted(s);
    if key.None? then None
    else
      var colon := Expect(key.value.1, ':');
      if colon.None? then None
      else
        var value := JsonQuoted(colon.value);
        if value.None? then None else Some(((key.value.0, value.value.0), value.value.1))
  }

  /** Members up to the closing brace, behind which nothing stands. */
  function JsonMembers(s: string): Option<seq<Member>>
    decreases |s|
  {
    var first := JsonMember(s);
    if first.None? then None
    else if Expect(first.value.1, '}').Some? then
      if SkipBlanks(Expect(first.value.1, '}').value) == [] then Some([first.value.0]) else None
    else
      var comma := Expect(first.value.1, ',');
      if comma.None? then None
      else
        var more := JsonMembers(comma.value);
        if more.None? then None else Some([first.value.0] + more.value)
  }

  /** An object whose members are strings. */
  function JsonObject(s: string): Option<seq<Member>> {
    var open := Expect(s, '{');
    if open.None? then None else JsonMembers(open.value)
  }

  // ─── What is written is JSON ─────────────────────────────────────────

  /** Escaped text holds no control character. */
  lemma {:induction false} NoControlIsWritten(s: string)
    ensures forall i | 0 <= i < |EscapeJson(s)| :: EscapeJson(s)[i] as int >= 0x20
  {
    if s != [] {
      NoControlIsWritten(s[1..]);
      var e, tail := EscapeChar(s[0]), EscapeJson(s[1..]);
      forall i | 0 <= i < |e| ensures e[i] as int >= 0x20 { }
      forall i | 0 <= i < |EscapeJson(s)| ensures EscapeJson(s)[i] as int >= 0x20 {
        assert EscapeJson(s)[i] == if i < |e| then e[i] else tail[i - |e|];
      }
    }
  }

  lemma {:induction false} HexDigitIsRead(n: nat)
    requires n < 16
    ensures HexValue(HexDigit(n)) == Some(n)
  {
  }

  lemma {:induction false} HexStep(c: char, rest: string, n: nat)
    requires HexValue(c).Some?
    ensures HexNumber([c] + rest, n) == HexNumber(rest, 16 * n + HexValue(c).value)
  {
    assert ([c] + rest)[1..] == rest;
  }

  lemma {:induction false} Hex4IsRead(n: nat)
    requires n < 0x100
    ensures HexNumber(Hex4(n), 0) == Some(n)
  {
    var high, low := HexDigit(n / 16), HexDigit(n % 16);
    HexDigitIsRead(n / 16);
    HexDigitIsRead(n % 16);
    HexStep('0', ['0', high, low], 0);
    HexStep('0', [high, low], 0);
    HexStep(high, [low], 0);
    HexStep(low, [], n / 16);
    assert ['0'] + ['0', high, low] == Hex4(n) && ['0'] + [high, low] == ['0', high, low];
    assert [high] + [low] == [high, low] && [low] + [] == [low];
  }

  lemma {:induction false} CharIsJson(c: char, rest: string)
    ensures JsonChar(EscapeChar(c) + rest) == Some((c, rest)) && (EscapeChar(c) + rest)[0] != '"'
  {
    var e, s := EscapeChar(c), EscapeChar(c) + rest;
    assert s[|e|..] == rest && s[0] == e[0];
    if IsDirty(c) {
      Hex4IsRead(c as int);
      assert s[2..6] == Hex4(c as int);
    } else if |e| > 1 {
      assert s[1] == e[1];
    }
  }

  /** Every string is read back as it was, control characters included, whatever follows its quote. */
  lemma {:induction false} EscapedIsJson(s: string, rest: string)
    ensures JsonString(EscapeJson(s) + "\"" + rest) == Some((s, rest))
  {
    if s == [] {
      assert (EscapeJson(s) + "\"" + rest)[1..] == rest;
    } else {
      var tail := EscapeJson(s[1..]) + "\"" + rest;
      assert EscapeJson(s) + "\"" + rest == EscapeChar(s[0]) + tail;
      CharIsJson(s[0], tail);
      EscapedIsJson(s[1..], rest);
      assert [s[0]] + s[1..] == s;
    }
  }

  /** A key without quote, backslash or control character stands for itself. */
  lemma {:induction false} KeyIsJson(key: string, rest: string)
    requires forall i | 0 <= i < |key| :: key[i] != '"' && key[i] != '\\' && key[i] as int >= 0x20
    ensures JsonString(key + "\"" + rest) == Some((key, rest))
  {
    var s := key + "\"" + rest;
    if key == [] {
      assert s[1..] == rest;
    } else {
      assert s[0] == key[0] && s[1..] == key[1..] + "\"" + rest;
      KeyIsJson(key[1..], rest);
      assert JsonChar(s) == Some((s[0], s[1..])) && [key[0]] + key[1..] == key;
    }
  }

  lemma {:induction false} ExpectFinds(c: char, rest: string)
    requires (c as int) > 0x20
    ensures Expect([c] + rest, c) == Some(rest)
    ensures forall d | d != c :: Expect([c] + rest, d) == None
  {
    assert ([c] + rest)[1..] == rest;
    assert SkipBlanks([c] + rest) == [c] + rest;
  }

  /** A member's text, with what stands behind it. */
  function Written(key: string, value: string, rest: string): string {
    Marker(key) + (EscapeJson(value) + "\"" + rest)
  }

  predicate IsKey(key: string) {
    forall i | 0 <= i < |key| :: key[i] != '"' && key[i] != '\\' && key[i] as int >= 0x20
  }

  /** A member with any value. */
  lemma {:induction false} MemberIsJson(key: string, value: string, rest: string)
    requires IsKey(key)
    ensures JsonMember(Written(key, value, rest)) == Some(((key, value), rest))
  {
    var quoted := EscapeJson(value) + "\"" + rest;
    var behind := ":" + ("\"" + quoted);
    MarkerOpens(key, quoted);
    ExpectFinds('"', key + "\"" + behind);
    KeyIsJson(key, behind);
    ExpectFinds(':', "\"" + quoted);
    ExpectFinds('"', quoted);
    EscapedIsJson(value, rest);
  }

  lemma {:induction false} MarkerOpens(key: string, rest: string)
    ensures Marker(key) + rest == "\"" + (key + "\"" + (":" + ("\"" + rest)))
  {
  }

  lemma {:induction false} MembersGoOn(key: string, value: string, rest: string)
    requires IsKey(key)
    ensures JsonMembers(Written(key, value, "," + rest))
         == if JsonMembers(rest).None? then None else Some([(key, value)] + JsonMembers(rest).value)
  {
    MemberIsJson(key, value, "," + rest);
    ExpectFinds(',', rest);
  }

  lemma {:induction false} MembersEnd(key: string, value: string)
    requires IsKey(key)
    ensures JsonMembers(Written(key, value, "}")) == Some([(key, value)])
  {
    MemberIsJson(key, value, "}");
    ExpectFinds('}', []);
    assert ['}'] + [] == "}";
  }

  /** The literals between the values are the ends and beginnings of members. */
  lemma {:induction false} Nested(o: string, x: string, i: string, q: string, c: string, y: string, a: string,
      z: string, m: string, e: string)
    ensures (o + x) + i + (q + (c + y)) + a + (q + (c + z)) + m + (q + e)
         == o + (x + (i + q + (c + (y + (a + q + (c + (z + (m + q + e))))))))
  {
    var last := z + (m + q + e);
    var middle := y + (a + q + (c + last));
    assert (q + (c + z)) + m + (q + e) == q + (c + last);
    assert (q + (c + y)) + (a + (q + (c + last))) == q + (c + middle);
    assert (o + x) + i + (q + (c + y)) + a + (q + (c + z)) + m + (q + e)
        == (o + x) + i + ((q + (c + y)) + (a + ((q + (c + z)) + m + (q + e))));
    assert (o + x) + i + (q + (c + middle)) == o + (x + (i + q + (c + middle)));
  }

  lemma {:induction false} BatchText(b: Batch, html: string, anchor: string)
    requires html == Written("html", b.html, "}") && anchor == Written("anchor", b.anchor, "," + html)
    ensures EncodeBatch(b) == "{" + Written("batchId", b.batchId, "," + anchor)
  {
    Literals();
    MarkerBehind("anchor");
    MarkerBehind("html");
    Nested("{", Marker("batchId"), EscapeJson(b.batchId), "\"", ",", Marker("anchor"), EscapeJson(b.anchor),
           Marker("html"), EscapeJson(b.html), "}");
  }

  lemma {:induction false} MarkerBehind(key: string)
    ensures "\"," + Marker(key) == "\"" + ("," + Marker(key))
  {
  }

  lemma {:induction false} ThreeAreRead(a: Member, b: Member, c: Member)
    requires IsKey(a.0) && IsKey(b.0) && IsKey(c.0)
    ensures JsonMembers(Written(a.0, a.1, "," + Written(b.0, b.1, "," + Written(c.0, c.1, "}")))) == Some([a, b, c])
  {
    var last := Written(c.0, c.1, "}");
    MembersEnd(c.0, c.1);
    MembersGoOn(b.0, b.1, last);
    MembersGoOn(a.0, a.1, Written(b.0, b.1, "," + last));
    assert [b] + [c] == [b, c] && [a] + [b, c] == [a, b, c];
  }

  /** For every batch the text is a JSON object of exactly its three fields. */
  lemma {:induction false} BatchIsJson(b: Batch)
    ensures JsonObject(EncodeBatch(b)) == Some([("batchId", b.batchId), ("anchor", b.anchor), ("html", b.html)])
  {
    var html := Written("html", b.html, "}");
    var anchor := Written("anchor", b.anchor, "," + html);
    BatchText(b, html, anchor);
    ThreeAreRead(("batchId", b.batchId), ("anchor", b.anchor), ("html", b.html));
    ObjectOpens(Written("batchId", b.batchId, "," + anchor));
  }

  lemma {:induction false} ObjectOpens(members: string)
    ensures JsonObject("{" + members) == JsonMembers(members)
  {
    ExpectFinds('{', members);
  }
}
