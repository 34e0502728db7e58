/** A page body as the pipeline sees it: serialised HTML cut into the pieces
    that the body-rewriting regular expressions act on. `Html` is markup that
    holds no empty `data-id` div; `Anchor` is the empty div `make_anchor`
    writes (`id` first); `Placeholder` is the empty div of the placeholder
    scheme (`data-id` first, optional `data-filename`); `Filled` is a div whose
    opening tag was kept and whose content was injected. */
module Markup {
  import opened Wrappers
  import opened Text

  datatype Token =
    | Html(s: string)
    | Anchor(id: string)
    | Placeholder(id: string, filename: string)
    | Filled(open: string, inner: string)

  const AnchorPrefix: string := "<div id='"

  /** The opening tag of `make_anchor`'s div. */
  function AnchorOpen(segId: string): string {
    var e := Escape(segId);
    AnchorPrefix + e + "' data-id='" + e + "'>"
  }

  /** `make_anchor(seg_id)`: an empty div whose `id` and `data-id` carry the
      same escaped segment id, from which the id is recovered exactly. */
  function MakeAnchor(segId: string): (r: string)
    ensures ParseAnchor(r) == Some(segId)
  {
    var e := Escape(segId);
    assert AnchorOpen(segId) + "</div>" == AnchorPrefix + (e + ("' data-id='" + e + "'></div>"));
    EscapeNoQuote(segId);
    ParseAnchorOf(e);
    EscapeRoundTrip(segId);
    AnchorOpen(segId) + "</div>"
  }

  /** The opening tag of a placeholder div; an empty `filename` means the
      `data-filename` attribute is absent. */
  function PlaceholderOpen(id: string, filename: string): string {
    "<div data-id='" + id + "'" + (if filename == "" then "" else " data-filename='" + filename + "'") + ">"
  }

  function Render(t: Token): string {
    match t
    case Html(s) => s
    case Anchor(id) => MakeAnchor(id)
    case Placeholder(id, fn) => PlaceholderOpen(id, fn) + "</div>"
    case Filled(open, inner) => open + inner + "</div>"
  }

  function Renders(ts: seq<Token>): (r: seq<string>)
    ensures |r| == |ts|
  {
    seq(|ts|, i requires 0 <= i < |ts| => Render(ts[i]))
  }

  /** The HTML text of a body. */
  function RenderAll(ts: seq<Token>): string {
    if ts == [] then "" else Render(ts[0]) + RenderAll(ts[1..])
  }

  /** `"\n".join(pieces)` on pieces that are one token each. */
  function JoinLines(ts: seq<Token>): seq<Token> {
    if ts == [] then [] else if |ts| == 1 then ts else [ts[0], Html("\n")] + JoinLines(ts[1..])
  }

  /** The segment ids of the anchors of a body, in document order. */
  function AnchorIds(ts: seq<Token>): (r: seq<string>)
    ensures |r| <= |ts|
  {
    if ts == [] then [] else (if ts[0].Anchor? then [ts[0].id] else []) + AnchorIds(ts[1..])
  }

  lemma {:induction false} AnchorIdsAppend(a: seq<Token>, b: seq<Token>)
    ensures AnchorIds(a + b) == AnchorIds(a) + AnchorIds(b)
  {
    if a == [] {
      assert a + b == b;
    } else {
      assert (a + b)[0] == a[0];
      assert (a + b)[1..] == a[1..] + b;
      AnchorIdsAppend(a[1..], b);
    }
  }

  /** Joining pieces with newlines adds no anchor and loses none. */
  lemma {:induction false} JoinLinesAnchors(ts: seq<Token>)
    ensures AnchorIds(JoinLines(ts)) == AnchorIds(ts)
  {
    if |ts| > 1 {
      JoinLinesAnchors(ts[1..]);
      AnchorIdsAppend([ts[0], Html("\n")], JoinLines(ts[1..]));
      AnchorIdsAppend([ts[0]], ts[1..]);
      assert [ts[0]] + ts[1..] == ts;
      assert AnchorIds([ts[0], Html("\n")]) == AnchorIds([ts[0]]) by {
        assert [ts[0], Html("\n")][1..] == [Html("\n")];
      }
    }
  }

  /** The token form of `"\n".join` renders to Python's `"\n".join` of the
      rendered pieces. */
  lemma {:induction false} RenderJoinLines(ts: seq<Token>)
    ensures RenderAll(JoinLines(ts)) == JoinWith("\n", Renders(ts))
  {
    if |ts| == 1 {
      assert RenderAll(ts) == Render(ts[0]) + RenderAll([]);
    } else if |ts| > 1 {
      RenderJoinLines(ts[1..]);
      var rest := JoinLines(ts[1..]);
      var j := [ts[0], Html("\n")] + rest;
      assert j[0] == ts[0] && j[1..] == [Html("\n")] + rest;
      assert ([Html("\n")] + rest)[1..] == rest;
      assert Renders(ts)[1..] == Renders(ts[1..]);
    }
  }

  /** Reads back the segment id of an anchor div: the text must be
      `<div id='X' data-id='X'></div>` with the same escaped `X` twice. */
  function ParseAnchor(h: string): Option<string> {
    if |h| >= |AnchorPrefix| && h[..|AnchorPrefix|] == AnchorPrefix && '\'' in h[|AnchorPrefix|..] then
      var rest := h[|AnchorPrefix|..];
      var k := IndexOf(rest, '\'');
      var x := rest[..k];
      if rest[k..] == "' data-id='" + x + "'></div>" then Some(Unescape(x)) else None
    else None
  }

  /** Escaped text holds no single quote, so it cannot close an attribute. */
  lemma EscapeNoQuote(s: string)
    ensures '\'' !in Escape(s)
  {
    var e := Escape(s);
    forall i | 0 <= i < |e| ensures e[i] != '\'' {
      assert !IsMarkupChar(e[i]);
    }
  }

  /** An anchor div around quote-free text `e` reads back as `Unescape(e)`. */
  lemma ParseAnchorOf(e: string)
    requires '\'' !in e
    ensures ParseAnchor(AnchorPrefix + (e + ("' data-id='" + e + "'></div>"))) == Some(Unescape(e))
  {
    var tail := "' data-id='" + e + "'></div>";
    var h := AnchorPrefix + (e + tail);
    assert h[..|AnchorPrefix|] == AnchorPrefix;
    var rest := h[|AnchorPrefix|..];
    assert rest == e + tail;
    assert tail[0] == '\'';
    IndexOfAppend(e, tail, '\'');
    assert rest[..|e|] == e;
    assert rest[|e|..] == tail;
  }
}
