/**
  Injection of an inline script into an HTML page (web/ScriptInjector.go):
  the wrapped script goes just before the last closing body tag, and a page
  without one gets a fixed comment appended instead.
 */
module ScriptInjector {
  import opened GoStrings

  const ClosingBody := "</body>"
  const MissingBodyComment := "<!--" + " COULD NOT FIND CLOSING BODY TAG TO INJECT SCRIPT " + "-->"
  const ScriptClose := "</script>"

  /** The opening script tag: type "module" or type "javascript". */
  function ScriptOpen(isModule: bool): (r: string)
    ensures |r| == (if isModule then 22 else 26)
  {
    "<script type=\"" + (if isModule then "module" else "javascript") + "\">"
  }

  /** wrapInlineJavascript: the script between an opening and a closing script tag. */
  function WrapInlineJavascript(inline: string, isModule: bool): (r: string)
    ensures |r| == |ScriptOpen(isModule)| + |inline| + |ScriptClose|
    ensures HasPrefix(r, ScriptOpen(isModule)) && HasSuffix(r, ScriptClose)
    ensures r[|ScriptOpen(isModule)|..|r| - |ScriptClose|] == inline
  {
    var r := ScriptOpen(isModule) + inline + ScriptClose;
    assert r[|ScriptOpen(isModule)|..|r| - |ScriptClose|] == inline;
    r
  }

  /** Different scripts or different kinds give different wrapped text. */
  lemma WrapInjective(a: string, m: bool, b: string, n: bool)
    requires WrapInlineJavascript(a, m) == WrapInlineJavascript(b, n)
    ensures a == b && m == n
  {
    var w := WrapInlineJavascript(a, m);
    assert w[14] == ScriptOpen(m)[14] == ScriptOpen(n)[14];
    assert ScriptOpen(true)[14] == 'm' && ScriptOpen(false)[14] == 'j';
  }

  /**
    InjectInlineJavascript: when the last closing body tag starts after
    position 0, the wrapped script is inserted in front of it; otherwise the
    comment is appended to the page.
   */
  function InjectInlineJavascript(html: string, script: string, isModule: bool): (r: string)
    ensures var p := LastIndex(html, ClosingBody);
            var w := WrapInlineJavascript(script, isModule);
            && (p > 0 ==> |r| == |html| + |w| && r[..p] == html[..p] && r[p..p + |w|] == w && r[p + |w|..] == html[p..])
            && (p <= 0 ==> r == html + MissingBodyComment)
  {
    var closingBodyPos := LastIndex(html, ClosingBody);
    if closingBodyPos > 0 then
      var wrappedScript := WrapInlineJavascript(script, isModule);
      var r := html[..closingBodyPos] + wrappedScript + html[closingBodyPos..];
      assert r[..closingBodyPos] == html[..closingBodyPos];
      assert r[closingBodyPos..closingBodyPos + |wrappedScript|] == wrappedScript;
      assert r[closingBodyPos + |wrappedScript|..] == html[closingBodyPos..];
      r
    else
      html + MissingBodyComment
  }

  /**
    Taking the inserted script back out gives the page back, and the
    script is followed by the page's last closing body tag.
   */
  lemma InjectionRemovable(html: string, script: string, isModule: bool)
    requires LastIndex(html, ClosingBody) > 0
    ensures var p := LastIndex(html, ClosingBody);
            var w := WrapInlineJavascript(script, isModule);
            var r := InjectInlineJavascript(html, script, isModule);
            && r[..p] + r[p + |w|..] == html
            && OccursAt(r, w + ClosingBody, p)
  {
    var p := LastIndex(html, ClosingBody);
    var w := WrapInlineJavascript(script, isModule);
    var r := InjectInlineJavascript(html, script, isModule);
    SpliceRemovable(html, w, r, p, ClosingBody);
  }

  /** Text spliced in at `p`, in front of an occurrence of `tag`, can be cut out again and is followed by `tag`. */
  lemma SpliceRemovable(html: string, w: string, r: string, p: nat, tag: string)
    requires p <= |html| && |r| == |html| + |w|
    requires r[..p] == html[..p] && r[p..p + |w|] == w && r[p + |w|..] == html[p..]
    requires OccursAt(html, tag, p)
    ensures r[..p] + r[p + |w|..] == html
    ensures OccursAt(r, w + tag, p)
  {
    assert html == html[..p] + html[p..];
    assert r[p..p + |w| + |tag|] == r[p..p + |w|] + r[p + |w|..][..|tag|];
    assert html[p..][..|tag|] == tag;
  }

  /** A page without a closing body tag keeps its text and gains a comment at the end. */
  lemma MissingBodyAppendsComment(html: string, script: string, isModule: bool)
    requires !Contains(html, ClosingBody)
    ensures var r := InjectInlineJavascript(html, script, isModule);
            HasPrefix(r, html) && HasPrefix(r[|html|..], "<!--") && HasSuffix(r, "-->")
  {
    var r := InjectInlineJavascript(html, script, isModule);
    assert r[|html|..] == MissingBodyComment;
    assert r[|r| - 3..] == MissingBodyComment[|MissingBodyComment| - 3..];
  }

  /** A closing body tag at the very start of the page does not count: the comment is appended. */
  lemma BodyAtStartVector(html: string, script: string, isModule: bool)
    requires html == ClosingBody
    ensures InjectInlineJavascript(html, script, isModule) == html + MissingBodyComment
  {
    assert OccursAt(html, ClosingBody, 0);
  }

  /** When the text after `pre` starts with `sub` and holds no later copy of it, the last copy is at |pre|. */
  lemma LastIndexAtJoin(pre: string, post: string, sub: string)
    requires OccursAt(post, sub, 0)
    requires forall j :: 0 < j ==> !OccursAt(post, sub, j)
    ensures LastIndex(pre + post, sub) == |pre|
  {
    var s := pre + post;
    assert s[|pre|..|pre| + |sub|] == post[..|sub|];
    assert OccursAt(s, sub, |pre|);
    forall j | j > |pre|
      ensures !OccursAt(s, sub, j)
    {
      if j + |sub| <= |s| {
        assert s[j..j + |sub|] == post[j - |pre|..j - |pre| + |sub|];
        assert !OccursAt(post, sub, j - |pre|);
      }
    }
  }

  /** The tail of the test page holds exactly one closing body tag, at its start. */
  lemma TestPageTail(post: string)
    requires post == "</body></html>"
    ensures OccursAt(post, ClosingBody, 0)
    ensures forall j :: 0 < j ==> !OccursAt(post, ClosingBody, j)
  {
    assert post[..7] == ClosingBody;
    forall j | 0 < j
      ensures !OccursAt(post, ClosingBody, j)
    {
      if j + 7 <= |post| {
        assert post[j..j + 7][0] == post[j] && post[j..j + 7][2] == post[j + 2];
        if j == 7 {
          assert post[j + 2] == 'h';
        } else {
          assert post[j] != '<';
        }
      }
    }
  }

  /**
    The injection tests: the page text before and after its closing body
    tag, with the script wrapped in between.
   */
  lemma InjectVector(pre: string, post: string, script: string, isModule: bool)
    requires pre == "<html><head><title /></head><body><div></div>"
    requires post == "</body></html>"
    ensures InjectInlineJavascript(pre + post, script, isModule)
            == pre + ScriptOpen(isModule) + script + ScriptClose + post
  {
    var html := pre + post;
    TestPageTail(post);
    LastIndexAtJoin(pre, post, ClosingBody);
    var w := WrapInlineJavascript(script, isModule);
    SpliceAtJoin(pre, post, w, InjectInlineJavascript(html, script, isModule));
    WrappedBetween(pre, ScriptOpen(isModule), script, ScriptClose, post);
  }

  /** Regrouping a wrapped script between two texts. */
  lemma WrappedBetween(pre: string, open: string, script: string, close: string, post: string)
    ensures pre + (open + script + close) + post == pre + open + script + close + post
  {
  }

  /** Text spliced in where `pre` meets `post` sits between them. */
  lemma SpliceAtJoin(pre: string, post: string, w: string, r: string)
    requires |r| == |pre| + |post| + |w|
    requires r[..|pre|] == (pre + post)[..|pre|] && r[|pre|..|pre| + |w|] == w
    requires r[|pre| + |w|..] == (pre + post)[|pre|..]
    ensures r == pre + w + post
  {
    assert (pre + post)[..|pre|] == pre && (pre + post)[|pre|..] == post;
    assert r == r[..|pre|] + r[|pre|..|pre| + |w|] + r[|pre| + |w|..];
  }
}
