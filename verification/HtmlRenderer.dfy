/**
 Rendering component trees to HTML from the flat frame arrays they are kept in, with the
 event handlers found on the way.
 */
module HtmlRenderers {
  import opened ByteStrings
  import opened HtmlEscaping
  import opened HtmlPages

  // ─── Frames and trees ────────────────────────────────────────────────

  /** An event callback or delegate, known by a number. */
  type Handler = nat

  const EMPTY_CALLBACK: Handler := 0

  /** An attribute's value; `text` is how it prints. */
  datatype Value =
    | Callback(callback: Handler, inner: Option<Handler>, text: string)
    | Delegate(handler: Handler, text: string)
    | Boolean(on: bool)
    | Null
    | Other(text: string)

  datatype Frame =
    | Element(name: string, subtreeLength: nat)
    | Text(text: string)
    | Markup(markup: string)
    | Component(id: nat, subtreeLength: nat)
    | Region(subtreeLength: nat)
    | Attribute(name: string, value: Value)
    | Capture

  datatype Attr = Attr(name: string, value: Value)

  /** Trees; a component holds its own tree, and `params` is what stands in its parent's array. */
  datatype Node =
    | ElementNode(tag: string, attrs: seq<Attr>, children: seq<Node>)
    | TextNode(text: string)
    | MarkupNode(markup: string)
    | ComponentNode(id: nat, params: seq<Frame>, body: seq<Node>)
    | RegionNode(children: seq<Node>)
    | CaptureNode

  function Size(nodes: seq<Node>): nat {
    if nodes == [] then 0
    else
      1 + Size(nodes[1..]) +
      match nodes[0]
      case ElementNode(_, _, children) => Size(children)
      case ComponentNode(_, _, body) => Size(body)
      case RegionNode(children) => Size(children)
      case _ => 0
  }

  function AttributeFrames(attrs: seq<Attr>): (fs: seq<Frame>)
    ensures |fs| == |attrs| && forall i | 0 <= i < |fs| :: fs[i] == Attribute(attrs[i].name, attrs[i].value)
  {
    seq(|attrs|, i requires 0 <= i < |attrs| => Attribute(attrs[i].name, attrs[i].value))
  }

  /** One node, in preorder, with its subtree length. */
  function Flat(n: Node): (fs: seq<Frame>)
    ensures |fs| > 0
    decreases Size([n]), 0
  {
    match n
    case ElementNode(tag, attrs, children) =>
      assert Size([n]) > Size(children);
      var inner := AttributeFrames(attrs) + Flatten(children);
      [Element(tag, 1 + |inner|)] + inner
    case TextNode(text) => [Text(text)]
    case MarkupNode(markup) => [Markup(markup)]
    case ComponentNode(id, params, body) => [Component(id, 1 + |params|)] + params
    case RegionNode(children) =>
      assert Size([n]) > Size(children);
      [Region(1 + |Flatten(children)|)] + Flatten(children)
    case CaptureNode => [Capture]
  }

  function Flatten(nodes: seq<Node>): seq<Frame>
    decreases Size(nodes), 1
  {
    if nodes == [] then []
    else
      assert Size(nodes) >= Size([nodes[0]]) && Size(nodes) > Size(nodes[1..]);
      Flat(nodes[0]) + Flatten(nodes[1..])
  }

  // ─── Rendering trees ─────────────────────────────────────────────────

  /** An event attribute met while rendering: the key its id is made from, and what to call. */
  datatype Binding = Binding(key: string, callback: Handler, raw: Option<Handler>)

  datatype Output = Output(html: string, bindings: seq<Binding>)

  const NOTHING := Output([], [])

  function Plus(a: Output, b: Output): Output { Output(a.html + b.html, a.bindings + b.bindings) }

  function Html(s: string): Output { Output(s, []) }

  function LowerChar(c: char): char { if 'A' <= c <= 'Z' then (c as int + 32) as char else c }

  function Lower(s: string): (r: string)
    ensures |r| == |s| && forall i | 0 <= i < |s| :: r[i] == LowerChar(s[i])
  {
    seq(|s|, i requires 0 <= i < |s| => LowerChar(s[i]))
  }

  predicate IsEventName(name: string) { |name| >= 2 && Lower(name[..2]) == "on" }

  /** What an event id is the truncated hash of. */
  function EventKey(cid: nat, index: nat, name: string): string {
    Digits(cid) + ":" + Digits(index) + ":" + name
  }

  function EventMarker(name: string, id: string): string
    requires |name| >= 2
  {
    " data-wasp-evt-" + Lower(name[2..]) + "=\"" + id + "\""
  }

  predicate IsEvent(name: string, value: Value) {
    IsEventName(name) && (value.Callback? || value.Delegate?)
  }

  /** A delegate's callback entry is the empty callback. */
  function BindingOf(cid: nat, index: nat, name: string, value: Value): Binding
    requires IsEvent(name, value)
  {
    match value
    case Callback(callback, inner, _) => Binding(EventKey(cid, index, name), callback, inner)
    case Delegate(handler, _) => Binding(EventKey(cid, index, name), EMPTY_CALLBACK, Some(handler))
  }

  type IdOf = string -> string

  function RenderAttribute(idOf: IdOf, cid: nat, index: nat, name: string, value: Value): Output {
    if IsEvent(name, value) then
      Output(EventMarker(name, idOf(EventKey(cid, index, name))), [BindingOf(cid, index, name, value)])
    else
      match value
      case Boolean(on) => if on then Html(" " + name) else NOTHING
      case Null => NOTHING
      case _ => Html(" " + name + "=\"" + EscapeAttribute(value.text) + "\"")
  }

  function RenderAttributes(idOf: IdOf, cid: nat, index: nat, attrs: seq<Attr>): Output
    decreases |attrs|
  {
    if attrs == [] then NOTHING
    else
      Plus(RenderAttribute(idOf, cid, index, attrs[0].name, attrs[0].value),
           RenderAttributes(idOf, cid, index + 1, attrs[1..]))
  }

  predicate IsVoidElement(tag: string) {
    tag in ["area", "base", "br", "col", "embed", "hr", "img", "input", "link", "meta", "source", "track", "wbr"]
  }

  /** `at` is where the nodes' frames start in the array of component `cid`. */
  function Render(idOf: IdOf, cid: nat, at: nat, nodes: seq<Node>): Output
    decreases Size(nodes), 1
  {
    if nodes == [] then NOTHING
    else
      assert Size(nodes) >= Size([nodes[0]]) && Size(nodes) > Size(nodes[1..]);
      Plus(RenderNode(idOf, cid, at, nodes[0]), Render(idOf, cid, at + |Flat(nodes[0])|, nodes[1..]))
  }

  function RenderNode(idOf: IdOf, cid: nat, at: nat, n: Node): Output
    decreases Size([n]), 0
  {
    match n
    case TextNode(text) => Html(EscapeHtml(text))
    case MarkupNode(markup) => Html(markup)
    case CaptureNode => NOTHING
    case RegionNode(children) =>
      assert Size([n]) > Size(children);
      Render(idOf, cid, at + 1, children)
    case ComponentNode(id, _, body) =>
      assert Size([n]) > Size(body);
      Render(idOf, id, 0, body)
    case ElementNode(tag, attrs, children) =>
      assert Size([n]) > Size(children);
      RenderElement(idOf, cid, at, tag, attrs, children)
  }

  function RenderElement(idOf: IdOf, cid: nat, at: nat, tag: string, attrs: seq<Attr>, children: seq<Node>): Output
    decreases Size(children), 3
  {
    var head := Plus(Html("<" + tag), RenderAttributes(idOf, cid, at + 1, attrs));
    Plus(head, if IsVoidElement(tag) then Html(" />") else RenderInside(idOf, cid, at + 1 + |attrs|, tag, children))
  }

  /** An element's children and closing tag. */
  function RenderInside(idOf: IdOf, cid: nat, at: nat, tag: string, children: seq<Node>): Output
    decreases Size(children), 2
  {
    Plus(Html(">"), Plus(Render(idOf, cid, at, children), Html("</" + tag + ">")))
  }

  // ─── The renderer ────────────────────────────────────────────────────

  type FrameTable = map<nat, seq<Frame>>

  /** The table holds the frames of every component in the trees. */
  predicate Backed(table: FrameTable, nodes: seq<Node>)
    decreases Size(nodes)
  {
    if nodes == [] then true
    else
      && Backed(table, nodes[1..])
      && match nodes[0]
         case ElementNode(_, _, children) => Backed(table, children)
         case RegionNode(children) => Backed(table, children)
         case ComponentNode(id, _, body) => id in table && table[id] == Flatten(body) && Backed(table, body)
         case _ => true
  }

  function Callbacks(idOf: IdOf, handlers: map<string, Handler>, bs: seq<Binding>): map<string, Handler>
    decreases |bs|
  {
    if bs == [] then handlers else Callbacks(idOf, handlers[idOf(bs[0].key) := bs[0].callback], bs[1..])
  }

  function Raws(idOf: IdOf, raws: map<string, Handler>, bs: seq<Binding>): map<string, Handler>
    decreases |bs|
  {
    if bs == [] then raws
    else Raws(idOf, if bs[0].raw.Some? then raws[idOf(bs[0].key) := bs[0].raw.value] else raws, bs[1..])
  }

  lemma {:induction false} CallbacksSnoc(idOf: IdOf, m: map<string, Handler>, bs: seq<Binding>, b: Binding)
    ensures Callbacks(idOf, m, bs + [b]) == Callbacks(idOf, m, bs)[idOf(b.key) := b.callback]
    decreases |bs|
  {
    if bs == [] {
      assert ([b] + [])[1..] == [];
    } else {
      assert (bs + [b])[1..] == bs[1..] + [b];
      CallbacksSnoc(idOf, m[idOf(bs[0].key) := bs[0].callback], bs[1..], b);
    }
  }

  lemma {:induction false} RawsSnoc(idOf: IdOf, m: map<string, Handler>, bs: seq<Binding>, b: Binding)
    ensures Raws(idOf, m, bs + [b])
         == if b.raw.Some? then Raws(idOf, m, bs)[idOf(b.key) := b.raw.value] else Raws(idOf, m, bs)
    decreases |bs|
  {
    if bs == [] {
      assert ([b] + [])[1..] == [];
    } else {
      assert (bs + [b])[1..] == bs[1..] + [b];
      RawsSnoc(idOf, if bs[0].raw.Some? then m[idOf(bs[0].key) := bs[0].raw.value] else m, bs[1..], b);
    }
  }

  lemma {:induction false} PlusIsAssociative(a: Output, b: Output, c: Output)
    ensures Plus(Plus(a, b), c) == Plus(a, Plus(b, c))
  {
    assert a.html + b.html + c.html == a.html + (b.html + c.html);
    assert a.bindings + b.bindings + c.bindings == a.bindings + (b.bindings + c.bindings);
  }

  lemma {:induction false} ElementJoins(w: Output, idOf: IdOf, cid: nat, at: nat, tag: string, attrs: seq<Attr>,
      children: seq<Node>)
      returns (own: Output, tail: Output, all: Output)
    ensures own == RenderAttributes(idOf, cid, at + 1, attrs)
    ensures tail == if IsVoidElement(tag) then Html(" />") else RenderInside(idOf, cid, at + 1 + |attrs|, tag, children)
    ensures all == RenderElement(idOf, cid, at, tag, attrs, children)
    ensures Plus(Plus(Plus(w, Html("<" + tag)), own), tail) == Plus(w, all)
  {
    own, all := RenderAttributes(idOf, cid, at + 1, attrs), RenderElement(idOf, cid, at, tag, attrs, children);
    tail := if IsVoidElement(tag) then Html(" />") else RenderInside(idOf, cid, at + 1 + |attrs|, tag, children);
    PlusIsAssociative(w, Html("<" + tag), own);
    PlusIsAssociative(w, Plus(Html("<" + tag), own), tail);
  }

  lemma {:induction false} AttributesJoin(w: Output, idOf: IdOf, cid: nat, index: nat, attrs: seq<Attr>)
      returns (first: Output, others: Output)
    requires attrs != []
    ensures first == RenderAttribute(idOf, cid, index, attrs[0].name, attrs[0].value)
    ensures others == RenderAttributes(idOf, cid, index + 1, attrs[1..])
    ensures Plus(Plus(w, first), others) == Plus(w, RenderAttributes(idOf, cid, index, attrs))
  {
    first := RenderAttribute(idOf, cid, index, attrs[0].name, attrs[0].value);
    others := RenderAttributes(idOf, cid, index + 1, attrs[1..]);
    PlusIsAssociative(w, first, others);
  }

  lemma {:induction false} HtmlJoins(w: Output, a: string, b: string, c: string)
    ensures Plus(Plus(Plus(w, Html(a)), Html(b)), Html(c)) == Plus(w, Html(a + b + c))
  {
    assert w.html + a + b + c == w.html + (a + b + c);
    assert w.bindings + [] + [] + [] == w.bindings + [];
  }

  lemma {:induction false} PlusNothing(a: Output)
    ensures Plus(a, NOTHING) == a && Plus(NOTHING, a) == a
  {
    assert a.html + [] == a.html == [] + a.html && a.bindings + [] == a.bindings == [] + a.bindings;
  }

  /** `written` is what has been rendered; text and handler tables are kept in step with it. */
  class WaspHtmlRenderer {
    const table: FrameTable
    const idOf: IdOf
    var sb: string
    var handlers: map<string, Handler>
    var rawHandlers: map<string, Handler>
    ghost var written: Output

    ghost predicate Valid()
      reads this
    {
      && sb == written.html
      && handlers == Callbacks(idOf, map[], written.bindings)
      && rawHandlers == Raws(idOf, map[], written.bindings)
    }

    constructor (table: FrameTable, idOf: IdOf)
      ensures this.table == table && this.idOf == idOf && Valid() && written == NOTHING
    {
      this.table, this.idOf := table, idOf;
      sb, handlers, rawHandlers, written := [], map[], map[], NOTHING;
    }

    /** Renders the root component of a fresh renderer. */
    method RenderToHtml(cid: nat, ghost body: seq<Node>) returns (html: string)
      requires cid in table && table[cid] == Flatten(body) && Backed(table, body) && Valid() && written == NOTHING
      modifies this
      ensures var out := Render(idOf, cid, 0, body);
              && html == out.html && handlers == Callbacks(idOf, map[], out.bindings)
              && rawHandlers == Raws(idOf, map[], out.bindings)
      ensures HexIds(idOf) && Readable(body) ==> Tokens(html) == PageTokens(idOf, cid, 0, body)
      ensures HexIds(idOf) && Readable(body) && MarkupLevel(body) ==> Balanced(Tokens(html), [])
    {
      WriteComponent(cid, body);
      PlusNothing(Render(idOf, cid, 0, body));
      html := sb;
      if HexIds(idOf) && Readable(body) { WholePageIsRead(idOf, cid, body); }
    }

    method Append(s: string)
      requires Valid()
      modifies this
      ensures Valid() && written == Plus(old(written), Html(s))
    {
      sb := sb + s;
      written := Plus(written, Html(s));
      assert written.bindings == old(written).bindings;
    }

    method WriteComponent(cid: nat, ghost body: seq<Node>)
      requires Valid() && cid in table && table[cid] == Flatten(body) && Backed(table, body)
      modifies this
      ensures Valid() && written == Plus(old(written), Render(idOf, cid, 0, body))
      decreases Size(body), 3
    {
      var frames := table[cid];
      assert frames[0..|frames|] == frames;
      var end := WriteFrames(cid, 0, |frames|, body);
    }

    /** Returns the index behind the last frame written. */
    method WriteFrames(cid: nat, start: nat, end: nat, ghost nodes: seq<Node>) returns (i: nat)
      requires Valid() && cid in table && Backed(table, nodes)
      requires Stands(table[cid], start, Flatten(nodes)) && end == start + |Flatten(nodes)|
      modifies this
      ensures Valid() && written == Plus(old(written), Render(idOf, cid, start, nodes)) && i == end
      decreases Size(nodes), 2
    {
      i := start;
      ghost var rest, todo := nodes, Render(idOf, cid, start, nodes);
      ghost var goal := Plus(written, todo);
      while i < end
        invariant Valid() && Left(table, cid, i, end, rest) && Size(rest) <= Size(nodes)
        invariant todo == Render(idOf, cid, i, rest) && Plus(written, todo) == goal
        decreases end - i
      {
        ghost var n, more, first, others := LoopStep(table, idOf, cid, i, end, rest, written, goal);
        i := WriteNode(cid, i, n);
        rest, todo := more, others;
      }
      NothingLeft(idOf, cid, i, rest, written);
    }

    /** One turn of the loop over the frames. */
    method WriteNode(cid: nat, start: nat, ghost n: Node) returns (i: nat)
      requires Valid() && cid in table && Stands(table[cid], start, Flat(n)) && Backed(table, [n])
      modifies this
      ensures Valid() && written == Plus(old(written), RenderNode(idOf, cid, start, n)) && i == start + |Flat(n)|
      decreases Size([n]), 1
    {
      FirstStands(table[cid], start, n);
      var frame := table[cid][start];
      if frame.Element? {
        i := WriteElement(cid, start, n);
      } else if frame.Text? {
        var escaped := EscapedHtml(frame.text);
        Append(escaped);
        i := start + 1;
      } else if frame.Markup? {
        Append(frame.markup);
        i := start + 1;
      } else if frame.Component? {
        WriteComponent(frame.id, n.body);
        i := start + frame.subtreeLength;
      } else if frame.Region? {
        RegionStands(table[cid], start, n);
        var regionEnd := start + frame.subtreeLength;
        var end := WriteFrames(cid, start + 1, regionEnd, n.children);
        i := regionEnd;
      } else {
        PlusNothing(written);
        i := start + 1;
      }
    }

    method WriteElement(cid: nat, start: nat, ghost n: Node) returns (subtreeEnd: nat)
      requires Valid() && cid in table && n.ElementNode? && Stands(table[cid], start, Flat(n)) && Backed(table, [n])
      modifies this
      ensures Valid() && written == Plus(old(written), RenderNode(idOf, cid, start, n))
               && subtreeEnd == start + |Flat(n)|
      decreases Size([n]), 0
    {
      FirstStands(table[cid], start, n);
      ElementStands(table[cid], start, n);
      subtreeEnd := start + table[cid][start].subtreeLength;
      WriteTagged(cid, start, subtreeEnd, table[cid][start].name, n.attrs, n.children);
    }

    method WriteTagged(cid: nat, start: nat, subtreeEnd: nat, tag: string, ghost attrs: seq<Attr>,
        ghost children: seq<Node>)
      requires Valid() && cid in table && Stands(table[cid], start + 1, AttributeFrames(attrs))
               && Backed(table, children)
      requires Stands(table[cid], start + 1 + |attrs|, Flatten(children))
      requires subtreeEnd == start + 1 + |attrs| + |Flatten(children)|
      modifies this
      ensures Valid() && written == Plus(old(written), RenderElement(idOf, cid, start, tag, attrs, children))
      decreases Size(children), 4
    {
      ghost var own, tail, all := ElementJoins(written, idOf, cid, start, tag, attrs, children);
      Append("<" + tag);
      if children != [] { FirstIsNoAttribute(table[cid], start + 1 + |attrs|, children); }
      var j := WriteAttributes(cid, start + 1, subtreeEnd, attrs);
      if IsVoidElement(tag) {
        Append(" />");
      } else {
        WriteChildren(cid, j, subtreeEnd, tag, children);
      }
    }

    method WriteChildren(cid: nat, start: nat, subtreeEnd: nat, tag: string, ghost children: seq<Node>)
      requires Valid() && cid in table && Backed(table, children)
      requires Stands(table[cid], start, Flatten(children)) && subtreeEnd == start + |Flatten(children)|
      modifies this
      ensures Valid() && written == Plus(old(written), RenderInside(idOf, cid, start, tag, children))
      decreases Size(children), 3
    {
      Append(">");
      var end := WriteFrames(cid, start, subtreeEnd, children);
      Append("</" + tag + ">");
      ghost var inner, close := Render(idOf, cid, start, children), Html("</" + tag + ">");
      PlusIsAssociative(old(written), Html(">"), inner);
      PlusIsAssociative(old(written), Plus(Html(">"), inner), close);
      PlusIsAssociative(Html(">"), inner, close);
    }

    /** Attributes up to the first other frame or the end of the element. */
    method WriteAttributes(cid: nat, start: nat, subtreeEnd: nat, ghost attrs: seq<Attr>) returns (j: nat)
      requires Valid() && cid in table && Stands(table[cid], start, AttributeFrames(attrs))
      requires start + |attrs| <= subtreeEnd <= |table[cid]|
      requires start + |attrs| < subtreeEnd ==> !table[cid][start + |attrs|].Attribute?
      modifies this
      ensures Valid() && written == Plus(old(written), RenderAttributes(idOf, cid, start, attrs))
               && j == start + |attrs|
    {
      j := start;
      ghost var rest := attrs;
      while j < subtreeEnd
        invariant Valid() && j + |rest| == start + |attrs| && Stands(table[cid], j, AttributeFrames(rest))
        invariant Plus(written, RenderAttributes(idOf, cid, j, rest))
                 == Plus(old(written), RenderAttributes(idOf, cid, start, attrs))
        decreases subtreeEnd - j
      {
        if rest != [] { AttributeStands(table[cid], j, rest); }
        if !table[cid][j].Attribute? { break; }
        ghost var first, others := AttributesJoin(written, idOf, cid, j, rest);
        WriteAttribute(cid, j);
        j := j + 1;
        rest := rest[1..];
      }
      assert rest == [];
      PlusNothing(written);
    }

    method WriteAttribute(cid: nat, frameIndex: nat)
      requires Valid() && cid in table && frameIndex < |table[cid]| && table[cid][frameIndex].Attribute?
      modifies this
      ensures var attr := table[cid][frameIndex];
              Valid() && written == Plus(old(written), RenderAttribute(idOf, cid, frameIndex, attr.name, attr.value))
    {
      var name, value := table[cid][frameIndex].name, table[cid][frameIndex].value;
      if value.Callback? && IsEventName(name) {
        var id := idOf(EventKey(cid, frameIndex, name));
        handlers := handlers[id := value.callback];
        if value.inner.Some? { rawHandlers := rawHandlers[id := value.inner.value]; }
        sb := sb + EventMarker(name, id);
        RecordEvent(cid, frameIndex, name, value);
      } else if value.Delegate? && IsEventName(name) {
        var id := idOf(EventKey(cid, frameIndex, name));
        handlers := handlers[id := EMPTY_CALLBACK];
        rawHandlers := rawHandlers[id := value.handler];
        sb := sb + EventMarker(name, id);
        RecordEvent(cid, frameIndex, name, value);
      } else if value.Boolean? {
        PlusNothing(written);
        if value.on { Append(" " + name); }
      } else if value.Null? {
        PlusNothing(written);
      } else {
        WriteValue(name, value.text);
      }
    }

    /** Brings `written` up to date after an event attribute. */
    ghost method RecordEvent(cid: nat, index: nat, name: string, value: Value)
      requires IsEvent(name, value)
      requires var b := BindingOf(cid, index, name, value);
               && sb == written.html + EventMarker(name, idOf(b.key))
               && handlers == Callbacks(idOf, map[], written.bindings)[idOf(b.key) := b.callback]
               && rawHandlers == (if b.raw.Some? then Raws(idOf, map[], written.bindings)[idOf(b.key) := b.raw.value]
                                  else Raws(idOf, map[], written.bindings))
      modifies `written
      ensures Valid() && written == Plus(old(written), RenderAttribute(idOf, cid, index, name, value))
    {
      var b := BindingOf(cid, index, name, value);
      CallbacksSnoc(idOf, map[], written.bindings, b);
      RawsSnoc(idOf, map[], written.bindings, b);
      written := Plus(written, RenderAttribute(idOf, cid, index, name, value));
    }

    method WriteValue(name: string, text: string)
      requires Valid()
      modifies this
      ensures Valid() && written == Plus(old(written), Html(" " + name + "=\"" + EscapeAttribute(text) + "\""))
    {
      var escaped := EscapedAttribute(text);
      Append(" " + name + "=\"");
      Append(escaped);
      Append("\"");
      HtmlJoins(old(written), " " + name + "=\"", escaped, "\"");
    }

    /**
     Finds what was rendered under an id, and nothing under any other; as long as ids agree,
     the handlers found are those of every frame that carries the id.
     */
    method TryGetHandler(id: string) returns (callback: Option<Handler>, raw: Option<Handler>)
      requires Valid()
      ensures callback.Some? <==> exists b :: b in written.bindings && idOf(b.key) == id
      ensures callback == None ==> raw == None
      ensures IdsAgree(idOf, written.bindings) ==>
                forall b | b in written.bindings && idOf(b.key) == id :: callback == Some(b.callback) && raw == b.raw
    {
      callback := if id in handlers then Some(handlers[id]) else None;
      raw := if callback.Some? && id in rawHandlers then Some(rawHandlers[id]) else None;
      BoundIffRendered(idOf, map[], written.bindings, id);
      if IdsAgree(idOf, written.bindings) { AgreeingIdsLead(idOf, written.bindings); }
    }
  }

  // ─── Where frames stand ──────────────────────────────────────────────

  predicate Stands(frames: seq<Frame>, at: nat, fs: seq<Frame>) {
    at + |fs| <= |frames| && frames[at..at + |fs|] == fs
  }

  lemma {:induction false} StandsSplit(frames: seq<Frame>, at: nat, a: seq<Frame>, b: seq<Frame>)
    requires Stands(frames, at, a + b)
    ensures Stands(frames, at, a) && Stands(frames, at + |a|, b)
  {
    assert frames[at..at + |a|] == (a + b)[..|a|] == a;
    assert frames[at + |a|..at + |a| + |b|] == (a + b)[|a|..] == b;
  }

  lemma {:induction false} FirstStands(frames: seq<Frame>, at: nat, n: Node)
    requires Stands(frames, at, Flat(n))
    ensures at < |frames| && frames[at] == Flat(n)[0]
  {
    assert frames[at..at + |Flat(n)|][0] == frames[at];
  }

  lemma {:induction false} RegionStands(frames: seq<Frame>, at: nat, n: Node)
    requires n.RegionNode? && Stands(frames, at, Flat(n))
    ensures Stands(frames, at + 1, Flatten(n.children)) && |Flat(n)| == 1 + |Flatten(n.children)|
  {
    StandsSplit(frames, at, [Flat(n)[0]], Flatten(n.children));
  }

  lemma {:induction false} ElementStands(frames: seq<Frame>, at: nat, n: Node)
    requires n.ElementNode? && Stands(frames, at, Flat(n))
    ensures Stands(frames, at + 1, AttributeFrames(n.attrs)) && Stands(frames, at + 1 + |n.attrs|, Flatten(n.children))
    ensures |Flat(n)| == 1 + |n.attrs| + |Flatten(n.children)|
  {
    StandsSplit(frames, at, [Flat(n)[0]], AttributeFrames(n.attrs) + Flatten(n.children));
    StandsSplit(frames, at + 1, AttributeFrames(n.attrs), Flatten(n.children));
  }

  lemma {:induction false} AttributeStands(frames: seq<Frame>, at: nat, attrs: seq<Attr>)
    requires attrs != [] && Stands(frames, at, AttributeFrames(attrs))
    ensures frames[at] == Attribute(attrs[0].name, attrs[0].value)
             && Stands(frames, at + 1, AttributeFrames(attrs[1..]))
  {
    assert frames[at..at + |attrs|][0] == frames[at];
    assert AttributeFrames(attrs) == [AttributeFrames(attrs)[0]] + AttributeFrames(attrs[1..]);
    StandsSplit(frames, at, [AttributeFrames(attrs)[0]], AttributeFrames(attrs[1..]));
  }

  /** Children never begin with an attribute frame. */
  lemma {:induction false} FirstIsNoAttribute(frames: seq<Frame>, at: nat, nodes: seq<Node>)
    requires Stands(frames, at, Flatten(nodes)) && nodes != []
    ensures at < |frames| && !frames[at].Attribute?
  {
    assert frames[at..at + |Flatten(nodes)|][0] == frames[at];
    assert Flatten(nodes)[0] == Flat(nodes[0])[0];
  }

  /** The nodes still to be written stand from `at` to the end. */
  ghost predicate Left(table: FrameTable, cid: nat, at: nat, end: nat, nodes: seq<Node>) {
    && cid in table && Stands(table[cid], at, Flatten(nodes)) && at + |Flatten(nodes)| == end
    && Backed(table, nodes)
  }

  /** One turn of the loop: the first node is written, and the others are left. */
  lemma {:induction false} LoopStep(table: FrameTable, idOf: IdOf, cid: nat, at: nat, end: nat, nodes: seq<Node>,
      written: Output, goal: Output)
      returns (n: Node, more: seq<Node>, first: Output, others: Output)
    requires Left(table, cid, at, end, nodes) && at < end && Plus(written, Render(idOf, cid, at, nodes)) == goal
    ensures Stands(table[cid], at, Flat(n)) && Backed(table, [n]) && Left(table, cid, at + |Flat(n)|, end, more)
    ensures Size([n]) <= Size(nodes) && Size(more) < Size(nodes)
    ensures first == RenderNode(idOf, cid, at, n) && others == Render(idOf, cid, at + |Flat(n)|, more)
    ensures Plus(Plus(written, first), others) == goal
  {
    n, more := FirstNode(table, cid, at, nodes);
    first, others := FirstRendered(idOf, cid, at, nodes);
    PlusIsAssociative(written, first, others);
  }

  lemma {:induction false} FirstRendered(idOf: IdOf, cid: nat, at: nat, nodes: seq<Node>)
      returns (first: Output, others: Output)
    requires nodes != []
    ensures first == RenderNode(idOf, cid, at, nodes[0])
    ensures others == Render(idOf, cid, at + |Flat(nodes[0])|, nodes[1..])
    ensures Render(idOf, cid, at, nodes) == Plus(first, others)
  {
    first := RenderNode(idOf, cid, at, nodes[0]);
    others := Render(idOf, cid, at + |Flat(nodes[0])|, nodes[1..]);
  }

  /** The first node stands first, and the others behind it. */
  lemma {:induction false} FirstNode(table: FrameTable, cid: nat, at: nat, nodes: seq<Node>)
      returns (n: Node, more: seq<Node>)
    requires cid in table && nodes != [] && Stands(table[cid], at, Flatten(nodes)) && Backed(table, nodes)
    ensures n == nodes[0] && more == nodes[1..]
    ensures Stands(table[cid], at, Flat(n)) && Stands(table[cid], at + |Flat(n)|, Flatten(more))
    ensures |Flatten(nodes)| == |Flat(n)| + |Flatten(more)| && Backed(table, [n]) && Backed(table, more)
    ensures Size([n]) <= Size(nodes) && Size(more) < Size(nodes)
  {
    n, more := nodes[0], nodes[1..];
    StandsSplit(table[cid], at, Flat(n), Flatten(more));
    assert [n][1..] == [];
  }

  lemma {:induction false} NoNodes(idOf: IdOf, cid: nat, at: nat, nodes: seq<Node>)
    requires |Flatten(nodes)| == 0
    ensures nodes == [] && Render(idOf, cid, at, nodes) == NOTHING
  {
  }

  lemma {:induction false} NothingLeft(idOf: IdOf, cid: nat, at: nat, nodes: seq<Node>, written: Output)
    requires |Flatten(nodes)| == 0
    ensures Plus(written, Render(idOf, cid, at, nodes)) == written
  {
    NoNodes(idOf, cid, at, nodes);
    PlusNothing(written);
  }

  // ─── The page as it is read ──────────────────────────────────────────

  predicate IsHex(s: string) { forall i | 0 <= i < |s| :: '0' <= s[i] <= '9' || 'a' <= s[i] <= 'f' }

  ghost predicate HexIds(idOf: IdOf) { forall key :: IsHex(idOf(key)) }

  /** What an attribute should be read as: event markers carry the id their key has. */
  function AttributePrinted(idOf: IdOf, cid: nat, index: nat, a: Attr): seq<Printed> {
    if IsEvent(a.name, a.value) then
      [Printed("data-wasp-evt-" + Lower(a.name[2..]), Some(idOf(EventKey(cid, index, a.name))))]
    else
      match a.value
      case Boolean(on) => if on then [Printed(a.name, None)] else []
      case Null => []
      case _ => [Printed(a.name, Some(a.value.text))]
  }

  function AttributesPrinted(idOf: IdOf, cid: nat, index: nat, attrs: seq<Attr>): seq<Printed>
    decreases |attrs|
  {
    if attrs == [] then []
    else AttributePrinted(idOf, cid, index, attrs[0]) + AttributesPrinted(idOf, cid, index + 1, attrs[1..])
  }

  /** The text of a raw text element: text nodes with their escapes, which nothing decodes there, and markup. */
  function RawText(nodes: seq<Node>): string
    decreases Size(nodes)
  {
    if nodes == [] then []
    else
      (match nodes[0]
       case TextNode(text) => EscapeHtml(text)
       case MarkupNode(markup) => markup
       case RegionNode(children) => RawText(children)
       case ComponentNode(_, _, body) => RawText(body)
       case _ => []) + RawText(nodes[1..])
  }

  /** No element and no tag in markup. */
  predicate OnlyText(nodes: seq<Node>)
    decreases Size(nodes)
  {
    if nodes == [] then true
    else
      && OnlyText(nodes[1..])
      && match nodes[0]
         case ElementNode(_, _, _) => false
         case MarkupNode(markup) => '<' !in markup
         case RegionNode(children) => OnlyText(children)
         case ComponentNode(_, _, body) => OnlyText(body)
         case _ => true
  }

  /** Tags in preorder, each with its attributes, and the characters between them. */
  function PageTokens(idOf: IdOf, cid: nat, at: nat, nodes: seq<Node>): seq<Token>
    decreases Size(nodes), 1
  {
    if nodes == [] then []
    else
      assert Size(nodes) >= Size([nodes[0]]) && Size(nodes) > Size(nodes[1..]);
      NodeTokens(idOf, cid, at, nodes[0]) + PageTokens(idOf, cid, at + |Flat(nodes[0])|, nodes[1..])
  }

  function NodeTokens(idOf: IdOf, cid: nat, at: nat, n: Node): seq<Token>
    decreases Size([n]), 0
  {
    match n
    case TextNode(text) => Chars(text)
    case MarkupNode(markup) => Tokens(markup)
    case CaptureNode => []
    case RegionNode(children) =>
      assert Size([n]) > Size(children);
      PageTokens(idOf, cid, at + 1, children)
    case ComponentNode(id, _, body) =>
      assert Size([n]) > Size(body);
      PageTokens(idOf, id, 0, body)
    case ElementNode(tag, attrs, children) =>
      assert Size([n]) > Size(children);
      ElementTokens(idOf, cid, at, tag, attrs, children)
  }

  function ElementTokens(idOf: IdOf, cid: nat, at: nat, tag: string, attrs: seq<Attr>, children: seq<Node>): seq<Token>
    decreases Size(children), 2
  {
    TaggedTokens(tag, AttributesPrinted(idOf, cid, at + 1, attrs),
                 if tag in RAW_TEXT_ELEMENTS then Chars(RawText(children))
                 else PageTokens(idOf, cid, at + 1 + |attrs|, children))
  }

  predicate NamesReadable(attrs: seq<Attr>) {
    forall i | 0 <= i < |attrs| :: IsAttributeName(attrs[i].name)
  }

  /** Names hold no delimiters, markup is read by itself, and raw text elements hold text only. */
  ghost predicate Readable(nodes: seq<Node>)
    decreases Size(nodes)
  {
    if nodes == [] then true
    else
      && Readable(nodes[1..])
      && match nodes[0]
         case ElementNode(tag, attrs, children) =>
           IsTagName(tag) && NamesReadable(attrs)
           && if tag in RAW_TEXT_ELEMENTS then OnlyText(children) else Readable(children)
         case RegionNode(children) => Readable(children)
         case ComponentNode(_, _, body) => Readable(body)
         case MarkupNode(markup) => Reads(markup, Tokens(markup))
         case _ => true
  }

  /** The tags in every markup balance. */
  ghost predicate MarkupLevel(nodes: seq<Node>)
    decreases Size(nodes)
  {
    if nodes == [] then true
    else
      && MarkupLevel(nodes[1..])
      && match nodes[0]
         case ElementNode(_, _, children) => MarkupLevel(children)
         case RegionNode(children) => MarkupLevel(children)
         case ComponentNode(_, _, body) => MarkupLevel(body)
         case MarkupNode(markup) => Level(Tokens(markup))
         case _ => true
  }

  lemma {:induction false} LowerIsName(name: string)
    requires IsName(name)
    ensures IsName(Lower(name))
  {
    forall i | 0 <= i < |name| ensures !Delimiter(Lower(name)[i]) {
      assert !Delimiter(name[i]) && Lower(name)[i] == LowerChar(name[i]);
    }
  }

  lemma {:induction false} HexIsPlain(s: string)
    requires IsHex(s)
    ensures Decode(s) == s && '"' !in s
  {
    PlainIsRead(s);
  }

  lemma {:induction false} EventNameIsRead(name: string)
    requires IsAttributeName(name) && |name| >= 2
    ensures IsAttributeName("data-wasp-evt-" + Lower(name[2..]))
  {
    LowerIsName(name[2..]);
    var a, b := "data-wasp-evt-", Lower(name[2..]);
    assert IsName(a);
    forall i | 0 <= i < |a + b| ensures !Delimiter((a + b)[i]) {
      assert (a + b)[i] == if i < |a| then a[i] else b[i - |a|];
    }
  }

  lemma {:induction false} AttributeReads(idOf: IdOf, cid: nat, index: nat, a: Attr) returns (r: TagPiece)
    requires HexIds(idOf) && IsAttributeName(a.name)
    ensures r == TagReading(RenderAttribute(idOf, cid, index, a.name, a.value).html,
                            AttributePrinted(idOf, cid, index, a))
  {
    if IsEvent(a.name, a.value) {
      var id := idOf(EventKey(cid, index, a.name));
      HexIsPlain(id);
      EventNameIsRead(a.name);
      r := ValueReads("data-wasp-evt-" + Lower(a.name[2..]), id);
      assert EventMarker(a.name, id) == " " + ("data-wasp-evt-" + Lower(a.name[2..])) + "=\"" + id + "\"";
    } else if a.value.Null? || a.value == Boolean(false) {
      r := NoTagPiece();
    } else if a.value.Boolean? {
      r := FlagReads(a.name);
    } else {
      EscapedAttributeIsRead(a.value.text);
      r := ValueReads(a.name, EscapeAttribute(a.value.text));
    }
  }

  lemma {:induction false} AttributesRead(idOf: IdOf, cid: nat, index: nat, attrs: seq<Attr>) returns (r: TagPiece)
    requires HexIds(idOf) && NamesReadable(attrs)
    ensures r == TagReading(RenderAttributes(idOf, cid, index, attrs).html, AttributesPrinted(idOf, cid, index, attrs))
    decreases |attrs|
  {
    if attrs == [] {
      r := NoTagPiece();
    } else {
      var first := AttributeReads(idOf, cid, index, attrs[0]);
      r := AttributesRead(idOf, cid, index + 1, attrs[1..]);
      r := TagJoin(first, r);
    }
  }

  /** Every page is read as its trees say, wherever it stands. */
  lemma {:induction false} PageReads(idOf: IdOf, cid: nat, at: nat, nodes: seq<Node>) returns (r: Piece)
    requires HexIds(idOf) && Readable(nodes)
    ensures r == Reading(Render(idOf, cid, at, nodes).html, PageTokens(idOf, cid, at, nodes))
    decreases Size(nodes), 1
  {
    if nodes == [] {
      r := NoPiece();
    } else {
      var n, next := nodes[0], at + |Flat(nodes[0])|;
      assert Size(nodes) >= Size([n]) && Size(nodes) > Size(nodes[1..]) && [n][1..] == [];
      var first := NodeReads(idOf, cid, at, n);
      r := PageReads(idOf, cid, next, nodes[1..]);
      r := Join(first, r);
    }
  }

  lemma {:induction false} NodeReads(idOf: IdOf, cid: nat, at: nat, n: Node) returns (r: Piece)
    requires HexIds(idOf) && Readable([n])
    ensures r == Reading(RenderNode(idOf, cid, at, n).html, NodeTokens(idOf, cid, at, n))
    decreases Size([n]), 0
  {
    match n
    case TextNode(text) => r := TextReads(text);
    case MarkupNode(markup) => r := Reading(markup, Tokens(markup));
    case CaptureNode => r := NoPiece();
    case RegionNode(children) => r := PageReads(idOf, cid, at + 1, children);
    case ComponentNode(id, _, body) => r := PageReads(idOf, id, 0, body);
    case ElementNode(tag, attrs, children) =>
      var own := AttributesRead(idOf, cid, at + 1, attrs);
      if tag in RAW_TEXT_ELEMENTS {
        TextIsRendered(idOf, cid, at + 1 + |attrs|, children);
        TextHasNoTag(children);
        r := RawReads(tag, own, RawText(children));
      } else {
        var inner := PageReads(idOf, cid, at + 1 + |attrs|, children);
        r := ElementReads(tag, own, inner);
      }
      ElementParts(idOf, cid, at, tag, attrs, children);
  }

  lemma {:induction false} TextIsRendered(idOf: IdOf, cid: nat, at: nat, nodes: seq<Node>)
    requires OnlyText(nodes)
    ensures Render(idOf, cid, at, nodes).html == RawText(nodes)
    decreases Size(nodes)
  {
    if nodes != [] {
      var first, others := FirstRendered(idOf, cid, at, nodes);
      TextIsRendered(idOf, cid, at + |Flat(nodes[0])|, nodes[1..]);
      match nodes[0]
      case RegionNode(children) => TextIsRendered(idOf, cid, at + 1, children);
      case ComponentNode(id, _, body) => TextIsRendered(idOf, id, 0, body);
      case _ =>
    }
  }

  lemma {:induction false} TextHasNoTag(nodes: seq<Node>)
    requires OnlyText(nodes)
    ensures '<' !in RawText(nodes)
    decreases Size(nodes)
  {
    if nodes != [] {
      TextHasNoTag(nodes[1..]);
      match nodes[0]
      case TextNode(text) => EscapedTextIsRead(text);
      case RegionNode(children) => TextHasNoTag(children);
      case ComponentNode(_, _, body) => TextHasNoTag(body);
      case _ =>
    }
  }

  /** Text in a raw text element is read as it was written if and only if nothing in it is escaped. */
  lemma {:induction false} RawTextIsReadIff(text: string)
    ensures Chars(RawText([TextNode(text)])) == Chars(text) <==> '<' !in text && '>' !in text && '&' !in text
  {
    assert [TextNode(text)][1..] == [] && EscapeHtml(text) + [] == EscapeHtml(text);
    EscapingGrows(text);
    CharsLength(text);
    CharsLength(EscapeHtml(text));
  }

  lemma {:induction false} ElementParts(idOf: IdOf, cid: nat, at: nat, tag: string, attrs: seq<Attr>,
      children: seq<Node>)
    ensures RenderElement(idOf, cid, at, tag, attrs, children).html
         == ElementText(tag, RenderAttributes(idOf, cid, at + 1, attrs).html,
                        Render(idOf, cid, at + 1 + |attrs|, children).html)
  {
  }

  /** Tags open and close in pairs around the children, for any tree. */
  lemma {:induction false} PageIsLevel(idOf: IdOf, cid: nat, at: nat, nodes: seq<Node>)
    requires MarkupLevel(nodes)
    ensures Level(PageTokens(idOf, cid, at, nodes))
    decreases Size(nodes), 1
  {
    if nodes == [] {
      NothingIsLevel();
    } else {
      var n, next := nodes[0], at + |Flat(nodes[0])|;
      assert Size(nodes) >= Size([n]) && Size(nodes) > Size(nodes[1..]) && [n][1..] == [];
      NodeIsLevel(idOf, cid, at, n);
      PageIsLevel(idOf, cid, next, nodes[1..]);
      LevelJoins(NodeTokens(idOf, cid, at, n), PageTokens(idOf, cid, next, nodes[1..]));
    }
  }

  lemma {:induction false} NodeIsLevel(idOf: IdOf, cid: nat, at: nat, n: Node)
    requires MarkupLevel([n])
    ensures Level(NodeTokens(idOf, cid, at, n))
    decreases Size([n]), 0
  {
    match n
    case TextNode(text) => CharsAreLevel(text);
    case MarkupNode(markup) =>
    case CaptureNode => NothingIsLevel();
    case RegionNode(children) => PageIsLevel(idOf, cid, at + 1, children);
    case ComponentNode(id, _, body) => PageIsLevel(idOf, id, 0, body);
    case ElementNode(tag, attrs, children) =>
      PageIsLevel(idOf, cid, at + 1 + |attrs|, children);
      CharsAreLevel(RawText(children));
      TaggedIsLevel(tag, AttributesPrinted(idOf, cid, at + 1, attrs),
                    if tag in RAW_TEXT_ELEMENTS then Chars(RawText(children))
                    else PageTokens(idOf, cid, at + 1 + |attrs|, children));
  }

  lemma {:induction false} ReadAlone(page: Piece)
    ensures Tokens(page.text) == page.tokens
  {
    assert page.text + [] == page.text && page.tokens + Tokens([]) == page.tokens;
  }

  lemma {:induction false} LevelAlone(tokens: seq<Token>)
    requires Level(tokens)
    ensures Balanced(tokens, [])
  {
    assert tokens + [] == tokens && Balanced([], []);
  }

  /** Reading gives the page's tags, attributes and text back, and the tags balance. */
  lemma {:induction false} WholePageIsRead(idOf: IdOf, cid: nat, body: seq<Node>)
    requires HexIds(idOf) && Readable(body)
    ensures var html := Render(idOf, cid, 0, body).html;
            && Tokens(html) == PageTokens(idOf, cid, 0, body)
            && (MarkupLevel(body) ==> Balanced(Tokens(html), []))
  {
    var page := PageReads(idOf, cid, 0, body);
    ReadAlone(page);
    if MarkupLevel(body) {
      PageIsLevel(idOf, cid, 0, body);
      LevelAlone(PageTokens(idOf, cid, 0, body));
    }
  }

  /** A rendered page can stand as markup in another. */
  lemma {:induction false} RenderedIsMarkup(idOf: IdOf, cid: nat, body: seq<Node>)
    requires HexIds(idOf) && Readable(body) && MarkupLevel(body)
    ensures var markup := MarkupNode(Render(idOf, cid, 0, body).html);
            Readable([markup]) && MarkupLevel([markup])
  {
    var page := PageReads(idOf, cid, 0, body);
    PageIsLevel(idOf, cid, 0, body);
    ReadAlone(page);
    var markup := MarkupNode(Render(idOf, cid, 0, body).html);
    assert [markup][1..] == [];
  }

  // ─── Event ids ───────────────────────────────────────────────────────

  lemma {:induction false} ColonSplits(a: string, x: string, b: string, y: string)
    requires ':' !in a && ':' !in b && a + ":" + x == b + ":" + y
    ensures a == b && x == y
  {
    var s := a + ":" + x;
    assert s[|a|] == ':' && s[|b|] == (b + ":" + y)[|b|] == ':';
    assert s[..|a|] == a && s[|a| + 1..] == x;
    assert (b + ":" + y)[..|b|] == b && (b + ":" + y)[|b| + 1..] == y;
  }

  /** Component, position and name can be told from the key. */
  lemma {:induction false} EventKeyIsInjective(c: nat, i: nat, name: string, d: nat, j: nat, other: string)
    requires EventKey(c, i, name) == EventKey(d, j, other)
    ensures c == d && i == j && name == other
  {
    var left, right := Digits(i) + ":" + name, Digits(j) + ":" + other;
    assert EventKey(c, i, name) == Digits(c) + ":" + left && EventKey(d, j, other) == Digits(d) + ":" + right;
    ColonSplits(Digits(c), left, Digits(d), right);
    ColonSplits(Digits(i), name, Digits(j), other);
    DigitsInjective(c, d);
    DigitsInjective(i, j);
  }

  /** The binding comes from the frame its key names. */
  predicate OwnFrame(table: FrameTable, b: Binding, c: nat, i: nat) {
    && c in table && i < |table[c]| && table[c][i].Attribute?
    && IsEvent(table[c][i].name, table[c][i].value)
    && b == BindingOf(c, i, table[c][i].name, table[c][i].value)
  }

  ghost predicate FromFrame(table: FrameTable, b: Binding) {
    exists c: nat, i: nat :: OwnFrame(table, b, c, i)
  }

  ghost predicate AllFromFrames(table: FrameTable, bs: seq<Binding>) {
    forall k | 0 <= k < |bs| :: FromFrame(table, bs[k])
  }

  lemma {:induction false} AllJoin(table: FrameTable, a: seq<Binding>, b: seq<Binding>)
    requires AllFromFrames(table, a) && AllFromFrames(table, b)
    ensures AllFromFrames(table, a + b)
  {
  }

  lemma {:induction false} AttributesFromFrames(table: FrameTable, idOf: IdOf, cid: nat, at: nat, attrs: seq<Attr>)
      returns (bs: seq<Binding>)
    requires cid in table && Stands(table[cid], at, AttributeFrames(attrs))
    ensures bs == RenderAttributes(idOf, cid, at, attrs).bindings && AllFromFrames(table, bs)
    decreases |attrs|
  {
    bs := [];
    if attrs != [] {
      AttributeStands(table[cid], at, attrs);
      bs := AttributesFromFrames(table, idOf, cid, at + 1, attrs[1..]);
      var name, value := attrs[0].name, attrs[0].value;
      if IsEvent(name, value) {
        assert OwnFrame(table, BindingOf(cid, at, name, value), cid, at);
        AllJoin(table, [BindingOf(cid, at, name, value)], bs);
      }
      bs := RenderAttribute(idOf, cid, at, name, value).bindings + bs;
    }
  }

  lemma {:induction false} BindingsFromFrames(table: FrameTable, idOf: IdOf, cid: nat, at: nat, nodes: seq<Node>)
      returns (bs: seq<Binding>)
    requires cid in table && Stands(table[cid], at, Flatten(nodes)) && Backed(table, nodes)
    ensures bs == Render(idOf, cid, at, nodes).bindings && AllFromFrames(table, bs)
    decreases Size(nodes), 1
  {
    bs := [];
    if nodes != [] {
      var n, more := FirstNode(table, cid, at, nodes);
      var own := NodeBindingsFromFrames(table, idOf, cid, at, n);
      bs := BindingsFromFrames(table, idOf, cid, at + |Flat(n)|, more);
      AllJoin(table, own, bs);
      bs := own + bs;
      var first, others := FirstRendered(idOf, cid, at, nodes);
      assert bs == Plus(first, others).bindings;
    }
  }

  lemma {:induction false} NodeBindingsFromFrames(table: FrameTable, idOf: IdOf, cid: nat, at: nat, n: Node)
      returns (bs: seq<Binding>)
    requires cid in table && Stands(table[cid], at, Flat(n)) && Backed(table, [n])
    ensures bs == RenderNode(idOf, cid, at, n).bindings && AllFromFrames(table, bs)
    decreases Size([n]), 0
  {
    bs := [];
    match n
    case ElementNode(_, attrs, children) =>
      bs := ElementFromFrames(table, idOf, cid, at, n);
    case ComponentNode(id, _, body) =>
      assert table[id][0..|table[id]|] == table[id];
      bs := BindingsFromFrames(table, idOf, id, 0, body);
    case RegionNode(children) =>
      RegionStands(table[cid], at, n);
      bs := BindingsFromFrames(table, idOf, cid, at + 1, children);
    case _ =>
  }

  lemma {:induction false} ElementFromFrames(table: FrameTable, idOf: IdOf, cid: nat, at: nat, n: Node)
      returns (bs: seq<Binding>)
    requires cid in table && n.ElementNode? && Stands(table[cid], at, Flat(n)) && Backed(table, n.children)
    ensures bs == RenderElement(idOf, cid, at, n.tag, n.attrs, n.children).bindings && AllFromFrames(table, bs)
    decreases Size(n.children), 2
  {
    ElementStands(table[cid], at, n);
    var own := AttributesFromFrames(table, idOf, cid, at + 1, n.attrs);
    var inner := BindingsFromFrames(table, idOf, cid, at + 1 + |n.attrs|, n.children);
    AllJoin(table, own, inner);
    bs := ElementBindings(idOf, cid, at, n.tag, n.attrs, n.children, own, inner);
  }

  lemma {:induction false} ElementBindings(idOf: IdOf, cid: nat, at: nat, tag: string, attrs: seq<Attr>,
      children: seq<Node>, own: seq<Binding>, inner: seq<Binding>)
      returns (bs: seq<Binding>)
    requires own == RenderAttributes(idOf, cid, at + 1, attrs).bindings
    requires inner == Render(idOf, cid, at + 1 + |attrs|, children).bindings
    ensures bs == RenderElement(idOf, cid, at, tag, attrs, children).bindings && (bs == own || bs == own + inner)
  {
    bs := if IsVoidElement(tag) then own else own + inner;
    assert [] + own == own && [] + (inner + []) == inner && own + [] == own;
  }

  /** Bindings with one key are one binding. */
  lemma {:induction false} KeyDecidesBinding(table: FrameTable, a: Binding, b: Binding)
    requires FromFrame(table, a) && FromFrame(table, b) && a.key == b.key
    ensures a == b
  {
    var c: nat, i: nat :| OwnFrame(table, a, c, i);
    var d: nat, j: nat :| OwnFrame(table, b, d, j);
    EventKeyIsInjective(c, i, table[c][i].name, d, j, table[d][j].name);
  }

  predicate SameHandlers(a: Binding, b: Binding) { a.callback == b.callback && a.raw == b.raw }

  /** Bindings that share an id share their handlers. */
  predicate IdsAgree(idOf: IdOf, bs: seq<Binding>) {
    forall i, j | 0 <= i < |bs| && 0 <= j < |bs| && idOf(bs[i].key) == idOf(bs[j].key) :: SameHandlers(bs[i], bs[j])
  }

  /** No two keys on the page have one id. */
  predicate IdsDiffer(idOf: IdOf, bs: seq<Binding>) {
    forall i, j | 0 <= i < |bs| && 0 <= j < |bs| && idOf(bs[i].key) == idOf(bs[j].key) :: bs[i].key == bs[j].key
  }

  /** Under the binding's id the tables have its callback, and its raw delegate or none. */
  predicate Leads(idOf: IdOf, bs: seq<Binding>, b: Binding) {
    var id, callbacks, raws := idOf(b.key), Callbacks(idOf, map[], bs), Raws(idOf, map[], bs);
    && id in callbacks && callbacks[id] == b.callback
    && if b.raw.None? then id !in raws else id in raws && raws[id] == b.raw.value
  }

  /** No binding in the list has the id and other handlers. */
  predicate IdIsOwn(idOf: IdOf, b: Binding, bs: seq<Binding>) {
    forall k | 0 <= k < |bs| :: idOf(bs[k].key) == idOf(b.key) ==> SameHandlers(bs[k], b)
  }

  lemma {:induction false} BoundTo(idOf: IdOf, m: map<string, Handler>, r: map<string, Handler>, bs: seq<Binding>,
      b: Binding)
    requires IdIsOwn(idOf, b, bs)
    requires b in bs || (idOf(b.key) in m && m[idOf(b.key)] == b.callback)
    requires b in bs || b.raw.None? || (idOf(b.key) in r && r[idOf(b.key)] == b.raw.value)
    requires b.raw.None? ==> idOf(b.key) !in r
    ensures idOf(b.key) in Callbacks(idOf, m, bs) && Callbacks(idOf, m, bs)[idOf(b.key)] == b.callback
    ensures if b.raw.None? then idOf(b.key) !in Raws(idOf, r, bs)
            else idOf(b.key) in Raws(idOf, r, bs) && Raws(idOf, r, bs)[idOf(b.key)] == b.raw.value
    decreases |bs|
  {
    if bs != [] {
      var first := bs[0];
      var m' := m[idOf(first.key) := first.callback];
      var r' := if first.raw.Some? then r[idOf(first.key) := first.raw.value] else r;
      assert idOf(first.key) == idOf(b.key) ==> SameHandlers(first, b);
      assert bs == [first] + bs[1..];
      BoundTo(idOf, m', r', bs[1..], b);
    }
  }

  lemma {:induction false} BoundIffRendered(idOf: IdOf, m: map<string, Handler>, bs: seq<Binding>, id: string)
    ensures id in Callbacks(idOf, m, bs) <==> id in m || exists b :: b in bs && idOf(b.key) == id
    decreases |bs|
  {
    if bs != [] {
      var first := bs[0];
      BoundIffRendered(idOf, m[idOf(first.key) := first.callback], bs[1..], id);
      assert bs == [first] + bs[1..];
    }
  }

  lemma {:induction false} AgreeingIdsLead(idOf: IdOf, bs: seq<Binding>)
    requires IdsAgree(idOf, bs)
    ensures forall b | b in bs :: Leads(idOf, bs, b)
  {
    forall b | b in bs ensures Leads(idOf, bs, b) {
      var k :| 0 <= k < |bs| && bs[k] == b;
      assert IdIsOwn(idOf, b, bs);
      BoundTo(idOf, map[], map[], bs, b);
    }
  }

  lemma {:induction false} LeadingIdsAgree(idOf: IdOf, bs: seq<Binding>)
    requires forall b | b in bs :: Leads(idOf, bs, b)
    ensures IdsAgree(idOf, bs)
  {
    forall i, j | 0 <= i < |bs| && 0 <= j < |bs| && idOf(bs[i].key) == idOf(bs[j].key)
      ensures SameHandlers(bs[i], bs[j])
    {
      assert Leads(idOf, bs, bs[i]) && Leads(idOf, bs, bs[j]);
    }
  }

  /**
   Every event id in a page leads to the callback, and the raw delegate or none, of the very
   frame it is written beside, if and only if bindings of the page that share an id share
   their handlers; that is so when the truncated hash separates the keys on the page.
   */
  lemma {:induction false} IdsLeadToOwnHandlers(table: FrameTable, idOf: IdOf, cid: nat, body: seq<Node>)
    requires cid in table && table[cid] == Flatten(body) && Backed(table, body)
    ensures var bs := Render(idOf, cid, 0, body).bindings;
            && AllFromFrames(table, bs)
            && ((forall b | b in bs :: Leads(idOf, bs, b)) <==> IdsAgree(idOf, bs))
            && (IdsDiffer(idOf, bs) ==> IdsAgree(idOf, bs))
  {
    var bs := Render(idOf, cid, 0, body).bindings;
    assert table[cid][0..|table[cid]|] == table[cid];
    var found := BindingsFromFrames(table, idOf, cid, 0, body);
    if IdsAgree(idOf, bs) { AgreeingIdsLead(idOf, bs); }
    if forall b | b in bs :: Leads(idOf, bs, b) { LeadingIdsAgree(idOf, bs); }
    if IdsDiffer(idOf, bs) { DifferingIdsAgree(table, idOf, bs); }
  }

  lemma {:induction false} DifferingIdsAgree(table: FrameTable, idOf: IdOf, bs: seq<Binding>)
    requires AllFromFrames(table, bs) && IdsDiffer(idOf, bs)
    ensures IdsAgree(idOf, bs)
  {
    forall i, j | 0 <= i < |bs| && 0 <= j < |bs| && idOf(bs[i].key) == idOf(bs[j].key)
      ensures SameHandlers(bs[i], bs[j])
    {
      KeyDecidesBinding(table, bs[i], bs[j]);
    }
  }
}
