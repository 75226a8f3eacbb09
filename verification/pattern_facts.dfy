/** What individual patterns of the cleaning chains guarantee about the
    text they leave behind. */
module PatternFacts {
  import opened Common
  import opened Text
  import opened Patterns

  // ---------------------------------------------------------------------------
  // <[^>]+>

  /** No position of `r` starts a tag. */
  predicate TagFree(r: string) {
    forall i :: 0 <= i < |r| ==> MatchAt(Tag, r, i).None?
  }

  /** No `>` after position `k`. */
  predicate NoGtAfter(r: string, k: nat) {
    forall m :: k < m < |r| ==> r[m] != '>'
  }

  /** Every `<` is either directly followed by `>` or has no `>` after it. */
  predicate LtHarmless(r: string) {
    forall k :: 0 <= k < |r| && r[k] == '<' ==>
      (k + 1 < |r| && r[k + 1] == '>') || NoGtAfter(r, k)
  }

  lemma HarmlessIsTagFree(r: string)
    requires LtHarmless(r)
    ensures TagFree(r)
  {
    forall i | 0 <= i < |r| ensures MatchAt(Tag, r, i).None? {
      if r[i] == '<' {
        var e := RunEnd(r, i + 1, NotGt);
        assert e < |r| ==> r[e] == '>';
      }
    }
  }

  lemma {:induction false} StripTagsHarmless(s: string, i: nat)
    requires i <= |s|
    ensures LtHarmless(SubFrom(Tag, s, "", i))
    decreases |s| - i
  {
    if i < |s| {
      var m := MatchAt(Tag, s, i);
      if m.Some? {
        StripTagsHarmless(s, m.value);
        DeleteAtMatch(Tag, s, i, m.value);
      } else {
        var rest := SubFrom(Tag, s, "", i + 1);
        SubNoMatch(Tag, s, "", i);
        StripTagsHarmless(s, i + 1);
        if s[i] == '<' {
          if i + 1 < |s| && s[i + 1] == '>' {
            SubNoMatch(Tag, s, "", i + 1);
          } else {
            UnclosedTagTail(s, i);
          }
        }
        LtHarmlessCons(s[i], rest);
      }
    }
  }

  /** A `<` that opens no tag, and is not followed by `>`, has no `>`
      anywhere after it: nothing after it survives with a `>`. */
  lemma UnclosedTagTail(s: string, i: nat)
    requires i < |s| && s[i] == '<' && MatchAt(Tag, s, i).None?
    requires !(i + 1 < |s| && s[i + 1] == '>')
    ensures '>' !in SubFrom(Tag, s, "", i + 1)
  {
    assert RunEnd(s, i + 1, NotGt) == |s|;
    var t := s[i + 1..];
    forall j | 0 <= j < |t| ensures t[j] != '>' {
      assert t[j] == s[i + 1 + j];
    }
    DeleteKeepsOnlyInput(Tag, s, i + 1);
  }

  /** Putting a character in front keeps `LtHarmless` when that character,
      if it is a `<`, is followed by `>` or by no `>` at all. */
  lemma LtHarmlessCons(c: char, rest: string)
    requires LtHarmless(rest)
    requires c == '<' ==> (rest != [] && rest[0] == '>') || '>' !in rest
    ensures LtHarmless([c] + rest)
  {
    var r := [c] + rest;
    forall k | 0 <= k < |r| && r[k] == '<'
      ensures (k + 1 < |r| && r[k + 1] == '>') || NoGtAfter(r, k)
    {
      if k == 0 {
        if !(rest != [] && rest[0] == '>') {
          forall j | 0 < j < |r| ensures r[j] != '>' {
            assert r[j] == rest[j - 1] && rest[j - 1] in rest;
          }
        }
      } else {
        assert r[k] == rest[k - 1];
        assert forall j :: k < j < |r| ==> r[j] == rest[j - 1];
      }
    }
  }

  /** Tag stripping leaves no tag behind, so running it twice is running it
      once. */
  lemma StripTagsIdempotent(s: string)
    ensures TagFree(Sub(Tag, s, ""))
    ensures Sub(Tag, Sub(Tag, s, ""), "") == Sub(Tag, s, "")
  {
    StripTagsHarmless(s, 0);
    HarmlessIsTagFree(Sub(Tag, s, ""));
    SubUnchanged(Tag, Sub(Tag, s, ""), "");
  }

  // ---------------------------------------------------------------------------
  // <style[^>]*>.*?</style> and <script[^>]*>.*?</script>

  /** Only `<` lower-cases to `<`. */
  lemma LowerCharLt(c: char)
    ensures LowerChar(c) == '<' <==> c == '<'
  {
  }

  /** `a` and `b` are the same word up to the case of ASCII letters. */
  predicate SameIgnoringCase(a: string, b: string) {
    |a| == |b| && forall j :: 0 <= j < |a| ==> LowerChar(a[j]) == LowerChar(b[j])
  }

  /** `<name attrs>`. */
  function OpenTag(name: string, attrs: string): string {
    "<" + name + attrs + ">"
  }

  /** `</name>`. */
  function CloseTag(name: string): string {
    "</" + name + ">"
  }

  /** The parts of a block that `Block(tag)` matches whole: both tag names
      are `tag` up to case, the attributes hold no `>`, and no closing tag
      of `tag` starts inside the body. */
  predicate BlockParts(tag: string, open: string, attrs: string, body: string, close: string) {
    SameIgnoringCase(open, tag) && SameIgnoringCase(close, tag) && '>' !in attrs
    && forall k :: 0 <= k < |body| ==> !OccursAt(body + CloseTag(close), k, CloseTag(tag), true)
  }

  /** The opening tag at `i` ends at `g`, and the first closing tag after it
      is at `c`: the block matched at `i` ends at `e`, after that closing tag. */
  lemma BlockMatch(s: string, tag: string, i: nat, g: nat, c: nat, e: nat)
    requires i < g < c <= |s| && e == c + |tag| + 3
    requires OccursAt(s, i, "<" + tag, true)
    requires RunEnd(s, i + 1 + |tag|, NotGt) == g
    requires OccursAt(s, c, CloseTag(tag), true)
    requires forall k :: g < k < c ==> !OccursAt(s, k, CloseTag(tag), true)
    ensures MatchAt(Block(tag), s, i) == Some(e)
  {
    assert Find(s, g + 1, CloseTag(tag), true) == Some(c);
  }

  /** From `i` on, the text reads `<open attrs> body </close> post`, where
      the tag names are `tag` up to case, the attributes hold no `>` and no
      closing tag starts inside the body: a block of `tag` is matched at
      `i`, and it ends where `post` starts. */
  lemma BlockLayoutAt(s: string, tag: string, m: string, open: string, attrs: string,
                      body: string, close: string, post: string, i: nat)
    requires m == OpenTag(open, attrs) + body + CloseTag(close) + post
    requires i + |m| == |s| && s[i..] == m
    requires BlockParts(tag, open, attrs, body, close)
    ensures i < |s|
    ensures MatchAt(Block(tag), s, i) == Some(|s| - |post|)
  {
    var g := i + 1 + |tag| + |attrs|;
    var c := g + 1 + |body|;
    LayoutOpen(s, tag, m, open, attrs, body, close, post, i);
    LayoutGt(s, tag, m, open, attrs, body, close, post, i, g);
    LayoutClose(s, tag, m, open, attrs, body, close, post, i, c);
    LayoutBody(s, tag, m, open, attrs, body, close, post, i, g, c);
    BlockMatch(s, tag, i, g, c, |s| - |post|);
  }

  /** `<open` at `i` is `<tag` up to case. */
  lemma LayoutOpen(s: string, tag: string, m: string, open: string, attrs: string,
                   body: string, close: string, post: string, i: nat)
    requires m == OpenTag(open, attrs) + body + CloseTag(close) + post
    requires i + |m| == |s| && s[i..] == m
    requires SameIgnoringCase(open, tag)
    ensures OccursAt(s, i, "<" + tag, true)
  {
    assert s[i] == m[0] == '<';
    forall j | 1 <= j < 1 + |tag| ensures LowerChar(s[i + j]) == LowerChar(("<" + tag)[j]) {
      assert s[i + j] == m[j] == open[j - 1];
    }
  }

  /** `[^>]*` after `<open` stops at the `>` that ends the attributes. */
  lemma LayoutGt(s: string, tag: string, m: string, open: string, attrs: string,
                 body: string, close: string, post: string, i: nat, g: nat)
    requires m == OpenTag(open, attrs) + body + CloseTag(close) + post
    requires i + |m| == |s| && s[i..] == m
    requires |open| == |tag| && '>' !in attrs
    requires g == i + 1 + |tag| + |attrs|
    ensures g < |s| && RunEnd(s, i + 1 + |tag|, NotGt) == g
  {
    forall k | i + 1 + |tag| <= k < g ensures s[k] != '>' {
      assert s[k] == m[k - i] == attrs[k - i - 1 - |tag|];
      assert attrs[k - i - 1 - |tag|] in attrs;
    }
    assert s[g] == m[g - i] == '>';
    RunEndIs(s, i + 1 + |tag|, g, NotGt);
  }

  /** `</close>` at `c` is `</tag>` up to case, and `post` starts after it. */
  lemma LayoutClose(s: string, tag: string, m: string, open: string, attrs: string,
                    body: string, close: string, post: string, i: nat, c: nat)
    requires m == OpenTag(open, attrs) + body + CloseTag(close) + post
    requires i + |m| == |s| && s[i..] == m
    requires |open| == |tag| && SameIgnoringCase(close, tag)
    requires c == i + |tag| + |attrs| + 2 + |body|
    ensures c + |tag| + 3 == |s| - |post|
    ensures OccursAt(s, c, CloseTag(tag), true)
  {
    var d := c - i;
    assert s[c] == m[d] == '<' && s[c + 1] == m[d + 1] == '/';
    assert s[c + 2 + |tag|] == m[d + 2 + |tag|] == '>';
    forall j | 2 <= j < 2 + |tag| ensures LowerChar(s[c + j]) == LowerChar(CloseTag(tag)[j]) {
      assert s[c + j] == m[d + j] == close[j - 2];
    }
  }

  /** No closing tag starts inside the body. */
  lemma LayoutBody(s: string, tag: string, m: string, open: string, attrs: string,
                   body: string, close: string, post: string, i: nat, g: nat, c: nat)
    requires m == OpenTag(open, attrs) + body + CloseTag(close) + post
    requires i + |m| == |s| && s[i..] == m
    requires |open| == |tag| && |close| == |tag|
    requires forall k :: 0 <= k < |body| ==> !OccursAt(body + CloseTag(close), k, CloseTag(tag), true)
    requires g == i + |tag| + |attrs| + 1 && c == g + 1 + |body|
    ensures forall k :: g < k < c ==> !OccursAt(s, k, CloseTag(tag), true)
  {
    var w := body + CloseTag(close);
    assert forall x :: 0 <= x < |w| ==> s[g + 1 + x] == m[g + 1 - i + x] == w[x];
    forall k | g < k < c ensures !OccursAt(s, k, CloseTag(tag), true) {
      OccursInWindow(s, w, g + 1, k, CloseTag(tag), true);
    }
  }

  /** `re.sub(r'<tag[^>]*>.*?</tag>', '', ..., flags=re.DOTALL | re.IGNORECASE)`
      scanning the suffix `rest`: the text `pre`, in which no block starts,
      is kept, the block after it is deleted with its content, and the
      scan goes on right after its closing tag. */
  lemma BlockRemovedFrom(s: string, tag: string, rest: string, pre: string, open: string,
                         attrs: string, body: string, close: string, post: string)
    requires rest == pre + OpenTag(open, attrs) + body + CloseTag(close) + post
    requires |rest| <= |s| && s[|s| - |rest|..] == rest
    requires BlockParts(tag, open, attrs, body, close)
    requires forall k :: |s| - |rest| <= k < |s| - |rest| + |pre| ==> MatchAt(Block(tag), s, k).None?
    ensures SubFrom(Block(tag), s, "", |s| - |rest|) == pre + SubFrom(Block(tag), s, "", |s| - |post|)
  {
    var m := OpenTag(open, attrs) + body + CloseTag(close) + post;
    PrefixThen(rest, pre, m, OpenTag(open, attrs), body, CloseTag(close), post);
    BlockInTail(s, tag, rest, pre, m, open, attrs, body, close, post);
  }

  /** The block that follows `pre` in the suffix `rest` of `s`, matched
      where `m`, the rest of `rest`, starts, is removed. */
  lemma BlockInTail(s: string, tag: string, rest: string, pre: string, m: string, open: string,
                    attrs: string, body: string, close: string, post: string)
    requires rest == pre + m && m == OpenTag(open, attrs) + body + CloseTag(close) + post
    requires |rest| <= |s| && s[|s| - |rest|..] == rest
    requires BlockParts(tag, open, attrs, body, close)
    requires forall k :: |s| - |rest| <= k < |s| - |rest| + |pre| ==> MatchAt(Block(tag), s, k).None?
    ensures SubFrom(Block(tag), s, "", |s| - |rest|) == pre + SubFrom(Block(tag), s, "", |s| - |post|)
  {
    SuffixOfSuffix(s, rest, pre, m);
    BlockLayoutTail(s, tag, m, open, attrs, body, close, post);
    MatchRemovedFrom(Block(tag), s, pre, m, rest, post);
  }

  /** `BlockLayoutAt` for a suffix `m` of `s`. */
  lemma BlockLayoutTail(s: string, tag: string, m: string, open: string, attrs: string,
                        body: string, close: string, post: string)
    requires m == OpenTag(open, attrs) + body + CloseTag(close) + post
    requires |m| <= |s| && s[|s| - |m|..] == m
    requires BlockParts(tag, open, attrs, body, close)
    ensures MatchAt(Block(tag), s, |s| - |m|) == Some(|s| - |post|)
  {
    BlockLayoutAt(s, tag, m, open, attrs, body, close, post, |s| - |m|);
  }

  /** The same from the start of the text. */
  lemma BlockRemoved(s: string, tag: string, pre: string, open: string, attrs: string,
                     body: string, close: string, post: string)
    requires s == pre + OpenTag(open, attrs) + body + CloseTag(close) + post
    requires BlockParts(tag, open, attrs, body, close)
    requires forall k :: 0 <= k < |pre| ==> MatchAt(Block(tag), s, k).None?
    ensures Sub(Block(tag), s, "") == pre + SubFrom(Block(tag), s, "", |s| - |post|)
  {
    BlockAfterPre(s, tag, pre, open, attrs, body, close, post);
    FirstMatchReplaced(Block(tag), s, "", pre, post);
    DropEmpty(Sub(Block(tag), s, ""), pre, SubFrom(Block(tag), s, "", |s| - |post|));
  }

  /** The block that follows `pre` at the start of the text. */
  lemma BlockAfterPre(s: string, tag: string, pre: string, open: string, attrs: string,
                      body: string, close: string, post: string)
    requires s == pre + OpenTag(open, attrs) + body + CloseTag(close) + post
    requires BlockParts(tag, open, attrs, body, close)
    ensures |pre| < |s| && |post| <= |s| && forall k :: 0 <= k < |pre| ==> s[k] == pre[k]
    ensures MatchAt(Block(tag), s, |pre|) == Some(|s| - |post|)
  {
    var m := OpenTag(open, attrs) + body + CloseTag(close) + post;
    assert s == pre + m;
    assert s[|pre|..] == m;
    BlockLayoutAt(s, tag, m, open, attrs, body, close, post, |pre|);
  }

  /** Replacing by the empty string. */
  lemma PrefixThen(rest: string, pre: string, m: string, a: string, b: string, c: string, d: string)
    requires rest == pre + a + b + c + d && m == a + b + c + d
    ensures rest == pre + m
  {
    assert pre + a + b + c + d == pre + (a + b + c + d);
  }

  lemma DropEmpty(a: string, x: string, z: string)
    requires a == x + "" + z
    ensures a == x + z
  {
    assert x + "" == x;
  }

  /** A tail in which no `<tag` starts, up to case, is copied. */
  lemma BlockFreeTail(s: string, tag: string, post: string)
    requires |post| <= |s| && s[|s| - |post|..] == post
    requires forall k :: 0 <= k < |post| ==> !OccursAt(post, k, "<" + tag, true)
    ensures SubFrom(Block(tag), s, "", |s| - |post|) == post
  {
    NoBlockInTail(s, tag, post);
    SubCopiesTail(Block(tag), s, "", post);
  }

  /** No block starts in such a tail. */
  lemma NoBlockInTail(s: string, tag: string, post: string)
    requires |post| <= |s| && s[|s| - |post|..] == post
    requires forall k :: 0 <= k < |post| ==> !OccursAt(post, k, "<" + tag, true)
    ensures forall k :: |s| - |post| <= k < |s| ==> MatchAt(Block(tag), s, k).None?
  {
    var e := |s| - |post|;
    assert forall x :: 0 <= x < |post| ==> s[e + x] == post[x];
    forall k | e <= k < |s| ensures !OccursAt(s, k, "<" + tag, true) {
      if k + |"<" + tag| <= |s| {
        OccursInWindow(s, post, e, k, "<" + tag, true);
      }
    }
  }

  /** Blocks delete only themselves: with the text before the block free of
      matches and the text after it free of `<tag`, the result is the text
      around the block. */
  lemma BlockBetweenText(s: string, tag: string, pre: string, open: string, attrs: string,
                         body: string, close: string, post: string)
    requires s == pre + OpenTag(open, attrs) + body + CloseTag(close) + post
    requires BlockParts(tag, open, attrs, body, close)
    requires forall k :: 0 <= k < |pre| ==> MatchAt(Block(tag), s, k).None?
    requires forall k :: 0 <= k < |post| ==> !OccursAt(post, k, "<" + tag, true)
    ensures Sub(Block(tag), s, "") == pre + post
  {
    BlockRemoved(s, tag, pre, open, attrs, body, close, post);
    SuffixAt(s, pre + OpenTag(open, attrs) + body + CloseTag(close), post);
    BlockFreeTail(s, tag, post);
  }

  /** No block starts in `pre` when each `<` in it is followed by something
      other than the first letter of the tag. */
  lemma NoBlockBefore(s: string, tag: string, pre: string, rest: string)
    requires s == pre + rest && tag != []
    requires forall k :: 0 <= k < |pre| && s[k] == '<' ==>
               k + 1 < |s| && LowerChar(s[k + 1]) != LowerChar(tag[0])
    ensures forall k :: 0 <= k < |pre| ==> MatchAt(Block(tag), s, k).None?
  {
    forall k | 0 <= k < |pre| ensures !OccursAt(s, k, "<" + tag, true) {
      LowerCharLt(s[k]);
      if s[k] == '<' {
        assert LowerChar(s[k + 1]) != LowerChar(("<" + tag)[1]);
      } else {
        assert LowerChar(s[k]) != LowerChar(("<" + tag)[0]);
      }
    }
  }

  /** No `</tag>` starts inside a body without `<`. */
  lemma NoCloseTagIn(body: string, close: string, tag: string)
    requires '<' !in body
    ensures forall k :: 0 <= k < |body| ==> !OccursAt(body + CloseTag(close), k, CloseTag(tag), true)
  {
    forall k | 0 <= k < |body| ensures !OccursAt(body + CloseTag(close), k, CloseTag(tag), true) {
      assert (body + CloseTag(close))[k] == body[k];
      assert body[k] in body;
      LowerCharLt(body[k]);
      assert LowerChar(body[k]) != LowerChar(CloseTag(tag)[0]);
    }
  }

  /** No `<tag` starts in text in which each `<` is followed by something
      other than the first letter of the tag. */
  lemma NoOpenTagIn(t: string, tag: string)
    requires tag != []
    requires forall k :: 0 <= k < |t| && t[k] == '<' ==>
               k + 1 < |t| && LowerChar(t[k + 1]) != LowerChar(tag[0])
    ensures forall k :: 0 <= k < |t| ==> !OccursAt(t, k, "<" + tag, true)
  {
    forall k | 0 <= k < |t| ensures !OccursAt(t, k, "<" + tag, true) {
      LowerCharLt(t[k]);
      if t[k] == '<' {
        assert LowerChar(t[k + 1]) != LowerChar(("<" + tag)[1]);
      } else {
        assert LowerChar(t[k]) != LowerChar(("<" + tag)[0]);
      }
    }
  }

  /** `re.sub(r'<style[^>]*>.*?</style>', '', "<style>a</style>b</style>", ...)`
      is `"b</style>"`: the lazy body stops at the first closing tag, and a
      second closing tag is kept as text. */
  lemma FirstCloseTagEndsBlock(s: string)
    requires s == "<style>a</style>b</style>"
    ensures Sub(Block("style"), s, "") == "b</style>"
  {
    FirstCloseTagLayout(s);
    NoCloseTagIn("a", "style", "style");
    NoOpenTagIn("b</style>", "style");
    BlockBetweenText(s, "style", [], "style", "", "a", "style", "b</style>");
    assert [] + "b</style>" == "b</style>";
  }

  lemma FirstCloseTagLayout(s: string)
    requires s == "<style>a</style>b</style>"
    ensures s == [] + OpenTag("style", "") + "a" + CloseTag("style") + "b</style>"
  {
    assert OpenTag("style", "") == "<style>";
    assert CloseTag("style") == "</style>";
  }

  /** The tag is matched whatever the case of its letters, and with
      attributes: `"a<STYLE x>b</Style>c"` becomes `"ac"`. */
  lemma UpperCaseBlockRemoved(s: string)
    requires s == "a<STYLE x>b</Style>c"
    ensures Sub(Block("style"), s, "") == "ac"
  {
    UpperCaseLayout(s);
    NoBlockBefore(s, "style", "a", "<STYLE x>b</Style>c");
    NoCloseTagIn("b", "Style", "style");
    NoOpenTagIn("c", "style");
    BlockBetweenText(s, "style", "a", "STYLE", " x", "b", "Style", "c");
  }

  lemma UpperCaseLayout(s: string)
    requires s == "a<STYLE x>b</Style>c"
    ensures s == "a" + OpenTag("STYLE", " x") + "b" + CloseTag("Style") + "c"
    ensures s == "a" + "<STYLE x>b</Style>c"
    ensures SameIgnoringCase("STYLE", "style") && SameIgnoringCase("Style", "style")
    ensures '>' !in " x"
  {
    assert OpenTag("STYLE", " x") == "<STYLE x>";
    assert CloseTag("Style") == "</Style>";
  }

  /** A style block inside an HTML comment is removed and the comment
      markers are kept: `"<!--<style>x</style>-->"` becomes `"<!---->"`. */
  lemma CommentedBlockRemoved(s: string)
    requires s == "<!--<style>x</style>-->"
    ensures Sub(Block("style"), s, "") == "<!---->"
  {
    CommentedLayout(s);
    NoBlockBefore(s, "style", "<!--", "<style>x</style>-->");
    NoCloseTagIn("x", "style", "style");
    NoOpenTagIn("-->", "style");
    BlockBetweenText(s, "style", "<!--", "style", "", "x", "style", "-->");
  }

  lemma CommentedLayout(s: string)
    requires s == "<!--<style>x</style>-->"
    ensures s == "<!--" + OpenTag("style", "") + "x" + CloseTag("style") + "-->"
    ensures s == "<!--" + "<style>x</style>-->"
  {
    assert OpenTag("style", "") == "<style>";
    assert CloseTag("style") == "</style>";
  }

  /** Every block is removed, not only the first:
      `"<style>a</style>b<style>c</style>d"` becomes `"bd"`. */
  lemma EveryBlockRemoved(s: string)
    requires s == "<style>a</style>b<style>c</style>d"
    ensures Sub(Block("style"), s, "") == "bd"
  {
    var rest := "b<style>c</style>d";
    FirstOfTwoLayout(s);
    NoCloseTagIn("a", "style", "style");
    NoCloseTagIn("c", "style", "style");
    BlockRemoved(s, "style", [], "style", "", "a", "style", rest);
    SecondOfTwoLayout(s, rest);
    BlockRemovedFrom(s, "style", rest, "b", "style", "", "c", "style", "d");
    SuffixAt(s, "<style>a</style>b<style>c</style>", "d");
    NoOpenTagIn("d", "style");
    BlockFreeTail(s, "style", "d");
    assert [] + "b" + "d" == "bd";
  }

  lemma FirstOfTwoLayout(s: string)
    requires s == "<style>a</style>b<style>c</style>d"
    ensures s == [] + OpenTag("style", "") + "a" + CloseTag("style") + "b<style>c</style>d"
  {
    FirstBlockText("<style>a</style>");
    assert s == "<style>a</style>" + "b<style>c</style>d";
  }

  lemma FirstBlockText(x: string)
    requires x == "<style>a</style>"
    ensures x == [] + OpenTag("style", "") + "a" + CloseTag("style")
  {
    assert OpenTag("style", "") == "<style>";
    assert CloseTag("style") == "</style>";
  }

  /** The second block follows `b`, where no block starts. */
  lemma SecondOfTwoLayout(s: string, rest: string)
    requires s == "<style>a</style>b<style>c</style>d" && rest == "b<style>c</style>d"
    ensures rest == "b" + OpenTag("style", "") + "c" + CloseTag("style") + "d"
    ensures |rest| <= |s| && s[|s| - |rest|..] == rest
    ensures forall k :: |s| - |rest| <= k < |s| - |rest| + |"b"| ==> MatchAt(Block("style"), s, k).None?
  {
    SecondBlockLayout(rest);
    assert s == "<style>a</style>" + rest;
    NoBlockAtB(s, |s| - |rest|);
  }

  lemma SecondBlockLayout(rest: string)
    requires rest == "b<style>c</style>d"
    ensures rest == "b" + OpenTag("style", "") + "c" + CloseTag("style") + "d"
  {
    assert OpenTag("style", "") == "<style>";
    assert CloseTag("style") == "</style>";
  }

  lemma NoBlockAtB(s: string, i: nat)
    requires i < |s| && s[i] == 'b'
    ensures forall k :: i <= k < i + |"b"| ==> MatchAt(Block("style"), s, k).None?
  {
    LowerCharLt(s[i]);
    assert LowerChar(s[i]) != LowerChar(("<" + "style")[0]);
  }

  // ---------------------------------------------------------------------------
  // \s+ and str.strip()

  /** " " when `t` starts with whitespace. */
  function LeadPad(t: string): string {
    if t != [] && IsSpace(t[0]) then " " else ""
  }

  /** " " when `t` has a word and ends with whitespace. */
  function TrailPad(t: string): string {
    if SplitWords(t) != [] && IsSpace(t[|t| - 1]) then " " else ""
  }

  /** The whitespace-collapsed form of `t`: its normal form, with one space
      in front when `t` starts with whitespace and one behind when it ends
      with whitespace after a word. */
  function Padded(t: string): string {
    LeadPad(t) + Normalize(t) + TrailPad(t)
  }

  /** The padded form, given how its three parts relate to those of the
      text after a whitespace run. */
  lemma PaddedAfterSpace(t: string, u: string)
    requires LeadPad(t) == " " && LeadPad(u) == ""
    requires Normalize(t) == Normalize(u) && TrailPad(t) == TrailPad(u)
    ensures Padded(t) == " " + Padded(u)
  {
    Regroup(" ", "", Normalize(u), TrailPad(u));
  }

  /** The text starts with whitespace, the rest after the run does not. */
  lemma LeadPads(t: string, a: nat)
    requires 0 < a <= |t| && IsSpace(t[0])
    requires a == |t| || !IsSpace(t[a])
    ensures LeadPad(t) == " " && LeadPad(t[a..]) == ""
  {
    if a < |t| {
      assert t[a..][0] == t[a];
    }
  }

  /** A suffix with the same words ends as the text does. */
  lemma TrailPadSuffix(t: string, a: nat)
    requires a <= |t| && SplitWords(t) == SplitWords(t[a..])
    ensures TrailPad(t) == TrailPad(t[a..])
  {
    var u := t[a..];
    if SplitWords(u) != [] {
      assert u != [];
      assert t[|t| - 1] == u[|u| - 1];
    }
  }

  /** `a + b + c + d == a + (b + c + d)`. */
  lemma Regroup(a: string, b: string, c: string, d: string)
    ensures a + b + c + d == a + (b + c + d)
  {
  }

  /** Splitting a text that starts with a word. */
  lemma WordSplit(t: string, n: nat)
    requires 0 < n == WordLen(t)
    ensures SplitWords(t) == [t[..n]] + SplitWords(t[n..])
  {
  }

  /** Joining with a word in front. */
  lemma JoinFront(x: string, ws: seq<string>)
    ensures JoinWith(" ", [x] + ws) == if ws == [] then x else x + " " + JoinWith(" ", ws)
  {
    if ws != [] {
      assert ([x] + ws)[1..] == ws;
    }
  }

  /** A leading word is copied in front of the rest. */
  lemma WordStep(t: string, n: nat)
    requires 0 < n == WordLen(t)
    ensures Padded(t) == t[..n] + Padded(t[n..])
  {
    WordSplit(t, n);
    JoinFront(t[..n], SplitWords(t[n..]));
    if SplitWords(t[n..]) == [] {
      LastWordStep(t, n);
    } else {
      MoreWordsStep(t, n);
    }
  }

  /** The leading word is the only word. */
  lemma LastWordStep(t: string, n: nat)
    requires 0 < n == WordLen(t) && SplitWords(t[n..]) == []
    requires Normalize(t) == t[..n]
    ensures Padded(t) == t[..n] + Padded(t[n..])
  {
    var u := t[n..];
    assert LeadPad(t) == "" && Normalize(u) == [] && TrailPad(u) == "";
    if u != [] {
      NoWordsAllSpace(u);
      assert t[|t| - 1] == u[|u| - 1];
      assert u[0] == t[n];
    } else {
      assert t[|t| - 1] == t[n - 1];
    }
    assert TrailPad(t) == LeadPad(u);
    Regroup("", t[..n], LeadPad(u), "");
    Regroup(t[..n], LeadPad(u), "", "");
  }

  /** More words follow the leading one. */
  lemma MoreWordsStep(t: string, n: nat)
    requires 0 < n == WordLen(t) && SplitWords(t[n..]) != []
    requires Normalize(t) == t[..n] + " " + Normalize(t[n..])
    ensures Padded(t) == t[..n] + Padded(t[n..])
  {
    MoreWordsPads(t, n);
    PaddedAfterWord(t, t[..n], t[n..]);
  }

  /** The padded form, given how its three parts relate to those of the
      text after a leading word that more words follow. */
  lemma PaddedAfterWord(t: string, x: string, u: string)
    requires LeadPad(t) == "" && LeadPad(u) == " "
    requires Normalize(t) == x + " " + Normalize(u) && TrailPad(t) == TrailPad(u)
    ensures Padded(t) == x + Padded(u)
  {
    Regroup("", x + " " + Normalize(u), TrailPad(u), "");
    Regroup(x, " ", Normalize(u), TrailPad(u));
  }

  /** The padding around a leading word that more words follow. */
  lemma MoreWordsPads(t: string, n: nat)
    requires 0 < n == WordLen(t) && SplitWords(t[n..]) != []
    ensures LeadPad(t) == "" && LeadPad(t[n..]) == " " && TrailPad(t) == TrailPad(t[n..])
  {
    var u := t[n..];
    assert u[0] == t[n];
    assert t[|t| - 1] == u[|u| - 1];
  }

  /** Replacing each whitespace run by one space gives the normalised words,
      with one space in front when the text starts with whitespace and one
      behind when it ends with whitespace after a word. */
  lemma {:induction false} CollapseShape(s: string, i: nat)
    requires i <= |s|
    ensures SubFrom(WhitespaceRun, s, " ", i) == Padded(s[i..])
    decreases |s| - i
  {
    if i == |s| {
      assert s[i..] == [];
    } else if IsSpace(s[i]) {
      var a := RunEnd(s, i, Space);
      CollapseShape(s, a);
      CollapseSpace(s, i, a);
    } else {
      var w := i + WordLen(s[i..]);
      CollapseShape(s, w);
      CollapseWord(s, i, w);
    }
  }

  /** A whitespace run becomes one space in front of the rest. */
  lemma CollapseSpace(s: string, i: nat, a: nat)
    requires i < |s| && IsSpace(s[i]) && a == RunEnd(s, i, Space)
    requires SubFrom(WhitespaceRun, s, " ", a) == Padded(s[a..])
    ensures SubFrom(WhitespaceRun, s, " ", i) == Padded(s[i..])
  {
    SpaceRunMatched(s, i, a);
    SubAtMatch(WhitespaceRun, s, " ", i, a);
    SpaceStepAt(s, i, a);
  }

  /** The whitespace run at `i` becomes one space in front of the padded
      form of the rest. */
  lemma SpaceStepAt(s: string, i: nat, a: nat)
    requires i < |s| && IsSpace(s[i]) && a == RunEnd(s, i, Space)
    ensures Padded(s[i..]) == " " + Padded(s[a..])
  {
    SplitFromRun(s, i);
    LeadPadsAt(s, i, a);
    TrailPadsAt(s, i, a);
    PaddedAfterSpace(s[i..], s[a..]);
  }

  /** Leading whitespace does not change the split. */
  lemma {:induction false} SplitFromRun(s: string, i: nat)
    requires i <= |s|
    ensures SplitWords(s[i..]) == SplitWords(s[RunEnd(s, i, Space)..])
    decreases |s| - i
  {
    if i < |s| && IsSpace(s[i]) {
      assert s[i..][1..] == s[i + 1..];
      SplitFromRun(s, i + 1);
    }
  }

  /** The text starts with whitespace, the rest after the run does not. */
  lemma LeadPadsAt(s: string, i: nat, a: nat)
    requires i < |s| && IsSpace(s[i]) && a == RunEnd(s, i, Space)
    ensures LeadPad(s[i..]) == " " && LeadPad(s[a..]) == ""
  {
    assert s[i..][0] == s[i];
    if a < |s| {
      assert s[a..][0] == s[a];
    }
  }

  /** A suffix with the same words ends as the text does. */
  lemma TrailPadsAt(s: string, i: nat, a: nat)
    requires i <= a <= |s| && SplitWords(s[i..]) == SplitWords(s[a..])
    ensures TrailPad(s[i..]) == TrailPad(s[a..])
  {
    var t := s[i..];
    var u := s[a..];
    if SplitWords(u) != [] {
      assert u != [];
      assert t[|t| - 1] == s[|s| - 1] == u[|u| - 1];
    }
  }

  /** `\s+` matches the whole whitespace run. */
  lemma SpaceRunMatched(s: string, i: nat, a: nat)
    requires i < |s| && IsSpace(s[i]) && a == RunEnd(s, i, Space)
    ensures MatchAt(WhitespaceRun, s, i) == Some(a)
  {
    assert MatchWhitespace(s, i) == Some(a);
  }

  /** A word is copied in front of the rest. */
  lemma CollapseWord(s: string, i: nat, w: nat)
    requires i < |s| && !IsSpace(s[i]) && w == i + WordLen(s[i..])
    requires SubFrom(WhitespaceRun, s, " ", w) == Padded(s[w..])
    ensures SubFrom(WhitespaceRun, s, " ", i) == Padded(s[i..])
  {
    WordCopied(s, i, w);
    SliceOfSlice(s, i, w);
    WordStep(s[i..], w - i);
  }

  /** The two halves of `s[i..]` cut at `w`. */
  lemma SliceOfSlice(s: string, i: nat, w: nat)
    requires i <= w <= |s|
    ensures s[i..][..w - i] == s[i..w] && s[i..][w - i..] == s[w..]
  {
  }

  /** The part of `s[c..] == u + v` that `u` covers. */
  lemma SliceHead(s: string, c: nat, e: nat, u: string, v: string)
    requires c <= |s| && s[c..] == u + v && e == c + |u|
    ensures s[c..e] == u
  {
    assert forall k :: c <= k < e ==> s[k] == u[k - c];
  }

  /** `\s+` matches nowhere inside a word. */
  lemma WordCopied(s: string, i: nat, w: nat)
    requires i < |s| && w == i + WordLen(s[i..])
    ensures SubFrom(WhitespaceRun, s, " ", i) == s[i..w] + SubFrom(WhitespaceRun, s, " ", w)
  {
    forall k | i <= k < w ensures MatchAt(WhitespaceRun, s, k).None? {
      assert s[k] == s[i..][k - i];
      assert MatchWhitespace(s, k).None?;
    }
    SubSkip(WhitespaceRun, s, " ", i, w);
  }

  /** `re.sub(r'\s+', ' ', s).strip()` equals `" ".join(s.split())`: the two
      whitespace normalisations of the email program agree. */
  lemma CollapseThenStrip(s: string)
    ensures Strip(Sub(WhitespaceRun, s, " ")) == Normalize(s)
  {
    CollapseShape(s, 0);
    assert s[0..] == s;
    JoinNormal(SplitWords(s));
    StripPadded(Normalize(s), LeadPad(s), TrailPad(s));
  }

  // ---------------------------------------------------------------------------
  // ^\d+\s+

  /** A digit run and the whitespace after it are removed from the start of
      the text, and nothing else is touched. */
  lemma LeadingNumberRemoved(digits: string, blanks: string, rest: string)
    requires digits != [] && AllDigits(digits)
    requires blanks != [] && forall k :: 0 <= k < |blanks| ==> IsSpace(blanks[k])
    requires rest == [] || !IsSpace(rest[0])
    ensures Sub(LeadingNumber, digits + blanks + rest, "") == rest
  {
    var s := digits + blanks + rest;
    var a := |digits|;
    var b := a + |blanks|;
    assert forall k :: 0 <= k < a ==> s[k] == digits[k];
    assert forall k :: a <= k < b ==> s[k] == blanks[k - a];
    assert s[a] == blanks[0];
    assert b < |s| ==> s[b] == rest[0];
    assert RunEnd(s, 0, Digit) == a;
    assert RunEnd(s, a, Space) == b;
    assert MatchAt(LeadingNumber, s, 0) == Some(b);
    SubSkip(LeadingNumber, s, "", b, |s|);
    assert s[b..|s|] == rest;
    assert SubFrom(LeadingNumber, s, "", |s|) == "";
  }

  /** Text that does not open with a digit run and whitespace is left as it is. */
  lemma LeadingNumberAbsent(s: string)
    requires s == [] || MatchAt(LeadingNumber, s, 0).None?
    ensures Sub(LeadingNumber, s, "") == s
  {
    SubUnchanged(LeadingNumber, s, "");
  }

  // ---------------------------------------------------------------------------
  // \s+\d+\s+ and \b[a-zA-Z-]+\s*:\s*[^;{}\n]+;

  /** `str.replace` of a search string one of whose characters does not
      occur in the text changes nothing. */
  lemma LiteralNeedsChar(t: string, s: string, rep: string, j: nat)
    requires j < |t| && t[j] !in s
    ensures Sub(Literal(t), s, rep) == s
  {
    forall k | 0 <= k < |s| ensures MatchAt(Literal(t), s, k).None? {
      if k + |t| <= |s| {
        assert s[k + j] in s;
      }
    }
    SubUnchanged(Literal(t), s, rep);
  }

  /** An HTML comment needs `!`: text without one is left as it is. */
  lemma HtmlCommentNeedsBang(s: string)
    requires '!' !in s
    ensures Sub(HtmlComment, s, "") == s
  {
    forall k | 0 <= k < |s| ensures MatchAt(HtmlComment, s, k).None? {
      assert "<!--"[1] == '!';
      if k + 4 <= |s| {
        assert s[k + 1] in s;
      }
    }
    SubUnchanged(HtmlComment, s, "");
  }

  /** Text without digits keeps its whitespace runs as they are. */
  lemma SpacedNumberNeedsDigit(s: string)
    requires forall k :: 0 <= k < |s| ==> !IsDigit(s[k])
    ensures Sub(SpacedNumber, s, " ") == s
  {
    forall k | 0 <= k < |s| ensures MatchAt(SpacedNumber, s, k).None? {
      var a := RunEnd(s, k, Space);
      assert a < |s| ==> !IsDigit(s[a]);
    }
    SubUnchanged(SpacedNumber, s, " ");
  }

  /** No match starts in a stretch without digits that runs to the end of
      the text: the scan copies it. */
  lemma DigitFreeTail(s: string, e: nat)
    requires e <= |s|
    requires forall k :: e <= k < |s| ==> !IsDigit(s[k])
    ensures SubFrom(SpacedNumber, s, " ", e) == s[e..]
  {
    forall k | e <= k < |s| ensures MatchAt(SpacedNumber, s, k).None? {
      var a := RunEnd(s, k, Space);
      assert a < |s| ==> !IsDigit(s[a]);
    }
    SubSkip(SpacedNumber, s, " ", e, |s|);
    assert s[e..|s|] == s[e..];
  }

  /** A piece of class `k` placed at `i`, with no character of that class
      right after it, is a maximal run. */
  lemma RunOfPiece(s: string, i: nat, m: string, k: CharClass)
    requires i + |m| <= |s|
    requires forall j :: i <= j < i + |m| ==> s[j] == m[j - i]
    requires forall j :: 0 <= j < |m| ==> InClass(m[j], k)
    requires i + |m| == |s| || !InClass(s[i + |m|], k)
    ensures RunEnd(s, i, k) == i + |m|
  {
    forall j | i <= j < i + |m| ensures InClass(s[j], k) {
      assert s[j] == m[j - i];
    }
    RunEndIs(s, i, i + |m|, k);
  }

  /** Where the three runs of `pre b1 d b2 post` end. */
  lemma SpacedLayout(s: string, pre: string, b1: string, d: string, b2: string, post: string)
    requires s == pre + b1 + d + b2 + post
    requires b1 != [] && AllSpace(b1) && d != [] && AllDigits(d) && b2 != [] && AllSpace(b2)
    requires post == [] || !IsSpace(post[0])
    ensures RunEnd(s, |pre|, Space) == |pre| + |b1|
    ensures RunEnd(s, |pre| + |b1|, Digit) == |pre| + |b1| + |d|
    ensures RunEnd(s, |pre| + |b1| + |d|, Space) == |pre| + |b1| + |d| + |b2|
  {
    LayoutLeadBlanks(s, pre, b1, d, b2, post);
    LayoutDigits(s, pre, b1, d, b2, post);
    LayoutTrailBlanks(s, pre, b1, d, b2, post);
  }

  lemma LayoutLeadBlanks(s: string, pre: string, b1: string, d: string, b2: string, post: string)
    requires s == pre + b1 + d + b2 + post
    requires AllSpace(b1) && d != [] && AllDigits(d)
    ensures RunEnd(s, |pre|, Space) == |pre| + |b1|
  {
    var a := |pre| + |b1|;
    assert forall k :: |pre| <= k < a ==> s[k] == b1[k - |pre|];
    assert s[a] == d[0];
    RunOfPiece(s, |pre|, b1, Space);
  }

  lemma LayoutDigits(s: string, pre: string, b1: string, d: string, b2: string, post: string)
    requires s == pre + b1 + d + b2 + post
    requires AllDigits(d) && b2 != [] && AllSpace(b2)
    ensures RunEnd(s, |pre| + |b1|, Digit) == |pre| + |b1| + |d|
  {
    var a := |pre| + |b1|;
    var b := a + |d|;
    assert forall k :: a <= k < b ==> s[k] == d[k - a];
    assert s[b] == b2[0];
    RunOfPiece(s, a, d, Digit);
  }

  lemma LayoutTrailBlanks(s: string, pre: string, b1: string, d: string, b2: string, post: string)
    requires s == pre + b1 + d + b2 + post
    requires AllSpace(b2) && (post == [] || !IsSpace(post[0]))
    ensures RunEnd(s, |pre| + |b1| + |d|, Space) == |pre| + |b1| + |d| + |b2|
  {
    var b := |pre| + |b1| + |d|;
    var c := b + |b2|;
    assert forall k :: b <= k < c ==> s[k] == b2[k - b];
    assert c < |s| ==> s[c] == post[0];
    RunOfPiece(s, b, b2, Space);
  }

  /** Blanks, a number and blanks at `|pre|` form a match that ends where
      the blanks do. */
  lemma SpacedMatch(s: string, pre: string, b1: string, d: string, b2: string, post: string)
    requires s == pre + b1 + d + b2 + post
    requires b1 != [] && AllSpace(b1) && d != [] && AllDigits(d) && b2 != [] && AllSpace(b2)
    requires post == [] || !IsSpace(post[0])
    ensures |pre| < |s| && forall k :: 0 <= k < |pre| ==> s[k] == pre[k]
    ensures MatchAt(SpacedNumber, s, |pre|) == Some(|s| - |post|)
  {
    SpacedLayout(s, pre, b1, d, b2, post);
    assert |pre| + |b1| + |d| + |b2| == |s| - |post|;
  }

  /** `re.sub(r'\s+\d+\s+', ' ', s)`: blanks, a number and blanks, with no
      match before them, become a single space, and the scan goes on right
      after the blanks. */
  lemma SpacedNumberReplaced(s: string, pre: string, b1: string, d: string, b2: string, post: string)
    requires s == pre + b1 + d + b2 + post
    requires b1 != [] && AllSpace(b1) && d != [] && AllDigits(d) && b2 != [] && AllSpace(b2)
    requires post == [] || !IsSpace(post[0])
    requires forall k :: 0 <= k < |pre| ==> MatchAt(SpacedNumber, s, k).None?
    ensures Sub(SpacedNumber, s, " ") == pre + " " + SubFrom(SpacedNumber, s, " ", |s| - |post|)
  {
    SpacedMatch(s, pre, b1, d, b2, post);
    FirstMatchReplaced(SpacedNumber, s, " ", pre, post);
  }

  /** The same, when no digit follows the blanks: the rest is kept as it
      is. */
  lemma SpacedNumberBeforeText(s: string, pre: string, b1: string, d: string, b2: string, post: string)
    requires s == pre + b1 + d + b2 + post
    requires b1 != [] && AllSpace(b1) && d != [] && AllDigits(d) && b2 != [] && AllSpace(b2)
    requires post == [] || !IsSpace(post[0])
    requires forall k :: 0 <= k < |pre| ==> MatchAt(SpacedNumber, s, k).None?
    requires forall k :: 0 <= k < |post| ==> !IsDigit(post[k])
    ensures Sub(SpacedNumber, s, " ") == pre + " " + post
  {
    SpacedNumberReplaced(s, pre, b1, d, b2, post);
    SuffixAt(s, pre + b1 + d + b2, post);
    DigitFreePost(s, post);
  }

  /** A digit-free tail is copied. */
  lemma DigitFreePost(s: string, post: string)
    requires |post| <= |s| && s[|s| - |post|..] == post
    requires forall k :: 0 <= k < |post| ==> !IsDigit(post[k])
    ensures SubFrom(SpacedNumber, s, " ", |s| - |post|) == post
  {
    var c := |s| - |post|;
    forall k | c <= k < |s| ensures !IsDigit(s[k]) {
      assert s[k] == post[k - c];
    }
    DigitFreeTail(s, c);
  }

  /** Two numbers that share the blank between them: the first match takes
      that blank, so the second number is no match and stays, with the
      blanks after it; the scan goes on after those blanks. */
  lemma AdjacentNumbersShareBlank(s: string, pre: string, b1: string, d1: string, b2: string,
                                  d2: string, b3: string, post: string)
    requires s == pre + b1 + d1 + b2 + (d2 + b3 + post)
    requires b1 != [] && AllSpace(b1) && d1 != [] && AllDigits(d1) && b2 != [] && AllSpace(b2)
    requires d2 != [] && AllDigits(d2) && AllSpace(b3)
    requires post == [] || (!IsSpace(post[0]) && !IsDigit(post[0]))
    requires forall k :: 0 <= k < |pre| ==> MatchAt(SpacedNumber, s, k).None?
    ensures Sub(SpacedNumber, s, " ") == pre + " " + d2 + b3 + SubFrom(SpacedNumber, s, " ", |s| - |post|)
  {
    var rest := d2 + b3 + post;
    assert rest[0] == d2[0];
    SpacedNumberReplaced(s, pre, b1, d1, b2, rest);
    SuffixAt(s, pre + b1 + d1 + b2, rest);
    KeptNoMatch(s, d2, b3, post, rest);
    SubCopiesUpTo(SpacedNumber, s, " ", d2 + b3, post, rest);
    JoinTail(Sub(SpacedNumber, s, " "), pre + " ", SubFrom(SpacedNumber, s, " ", |s| - |rest|),
             d2, b3, SubFrom(SpacedNumber, s, " ", |s| - |post|));
  }

  lemma SuffixOfSuffix(s: string, rest: string, pre: string, m: string)
    requires rest == pre + m && |rest| <= |s| && s[|s| - |rest|..] == rest
    ensures |m| <= |s| && s[|s| - |m|..] == m
  {
    assert s[|s| - |m|..] == rest[|pre|..];
  }

  lemma SuffixAt(s: string, x: string, r: string)
    requires s == x + r
    ensures s[|s| - |r|..] == r
  {
  }

  lemma JoinTail(a: string, w: string, y: string, d: string, b: string, x: string)
    requires a == w + y && y == d + b + x
    ensures a == w + d + b + x
  {
    assert w + (d + b + x) == w + d + b + x;
  }

  /** Digits and blanks with neither a blank nor a digit after them start
      no match. */
  lemma KeptNoMatch(s: string, d: string, b: string, post: string, rest: string)
    requires rest == d + b + post && |rest| <= |s| && s[|s| - |rest|..] == rest
    requires AllDigits(d) && AllSpace(b)
    requires post == [] || (!IsSpace(post[0]) && !IsDigit(post[0]))
    ensures forall k :: |s| - |rest| <= k < |s| - |post| ==> MatchAt(SpacedNumber, s, k).None?
  {
    var c := |s| - |rest|;
    var e := c + |d| + |b|;
    assert forall k :: c <= k < c + |d| ==> s[k] == d[k - c];
    assert forall k :: c + |d| <= k < e ==> s[k] == b[k - c - |d|];
    assert e < |s| ==> s[e] == post[0];
    forall k | c <= k < e ensures MatchAt(SpacedNumber, s, k).None? {
      if k < c + |d| {
        DigitStartsNoMatch(s, k);
      } else {
        BlanksBeforeTextNoMatch(s, k, e);
      }
    }
  }

  /** A match starts with a blank, never with a digit. */
  lemma DigitStartsNoMatch(s: string, k: nat)
    requires k < |s| && IsDigit(s[k])
    ensures MatchAt(SpacedNumber, s, k).None?
  {
    RunEndIs(s, k, k, Space);
  }

  /** Blanks followed by the end of the text or by a character that is
      neither a blank nor a digit start no match. */
  lemma BlanksBeforeTextNoMatch(s: string, k: nat, e: nat)
    requires k < e <= |s|
    requires forall j :: k <= j < e ==> IsSpace(s[j])
    requires e == |s| || (!IsSpace(s[e]) && !IsDigit(s[e]))
    ensures MatchAt(SpacedNumber, s, k).None?
  {
    RunEndIs(s, k, e, Space);
    if e < |s| {
      RunEndIs(s, e, e, Digit);
    }
  }

  /** No match starts in a text without digits that does not end in a
      blank. */
  lemma NoSpacedNumberBefore(s: string, pre: string, rest: string)
    requires s == pre + rest
    requires forall k :: 0 <= k < |pre| ==> !IsDigit(pre[k])
    requires pre == [] || !IsSpace(pre[|pre| - 1])
    ensures forall k :: 0 <= k < |pre| ==> MatchAt(SpacedNumber, s, k).None?
  {
    forall k | 0 <= k < |pre| ensures MatchAt(SpacedNumber, s, k).None? {
      var a := RunEnd(s, k, Space);
      assert s[|pre| - 1] == pre[|pre| - 1];
      assert a < |pre|;
      assert s[a] == pre[a];
    }
  }

  /** `re.sub(r'\s+\d+\s+', ' ', "a 1 2 b")` is `"a 2 b"`: of two numbers
      sharing a blank only the first is removed. */
  lemma AdjacentNumbersExample(s: string)
    requires s == "a 1 2 b"
    ensures Sub(SpacedNumber, s, " ") == "a 2 b"
  {
    var post := "b";
    assert s == "a" + " " + "1" + " " + ("2" + " " + post);
    NoSpacedNumberBefore(s, "a", " 1 2 b");
    AdjacentNumbersShareBlank(s, "a", " ", "1", " ", "2", " ", post);
    SuffixAt(s, "a 1 2 ", post);
    DigitFreePost(s, post);
  }

  /** A CSS declaration needs a colon: text without one is left as it is. */
  lemma CssDeclarationNeedsColon(s: string)
    requires ':' !in s
    ensures Sub(CssDeclaration, s, "") == s
  {
    forall k | 0 <= k < |s| ensures MatchAt(CssDeclaration, s, k).None? {
      if WordBoundary(s, k) {
        var a := RunEnd(s, k, Name);
        var b := RunEnd(s, a, Space);
        assert b < |s| ==> s[b] in s;
      }
    }
    SubUnchanged(CssDeclaration, s, "");
  }

  /** `name: value;` at the start of the text, with a name that starts
      with a letter, is matched whole. */
  lemma CssDeclarationMatched(s: string, name: string, value: string, post: string)
    requires s == name + ": " + value + ";" + post
    requires name != [] && IsAsciiLetter(name[0])
    requires forall k :: 0 <= k < |name| ==> IsAsciiLetter(name[k]) || name[k] == '-'
    requires value != [] && !IsSpace(value[0])
    requires forall k :: 0 <= k < |value| ==> InClass(value[k], DeclValue)
    ensures MatchAt(CssDeclaration, s, 0) == Some(|s| - |post|)
  {
    var a := |name|;
    var q := a + 2;
    var e := q + |value|;
    assert forall k :: 0 <= k < a ==> s[k] == name[k];
    assert s[a] == ':' && s[a + 1] == ' ';
    assert forall k :: q <= k < e ==> s[k] == value[k - q];
    assert s[e] == ';';
    CssRuns(s, a, q, e);
  }

  /** The runs of `\b[a-zA-Z-]+\s*:\s*[^;{}\n]+;` over `name: value;`
      laid out with the colon at `a` and the value from `q` to `e`. */
  lemma CssRuns(s: string, a: nat, q: nat, e: nat)
    requires 0 < a && q == a + 2 < e < |s|
    requires IsAsciiLetter(s[0])
    requires forall k :: 0 <= k < a ==> IsAsciiLetter(s[k]) || s[k] == '-'
    requires s[a] == ':' && s[a + 1] == ' ' && !IsSpace(s[q])
    requires forall k :: q <= k < e ==> InClass(s[k], DeclValue)
    requires s[e] == ';'
    ensures MatchAt(CssDeclaration, s, 0) == Some(e + 1)
  {
    assert WordBoundary(s, 0);
    assert RunEnd(s, 0, Name) == a;
    assert RunEnd(s, a, Space) == a;
    assert RunEnd(s, a + 1, Space) == q;
    assert RunEnd(s, q, DeclValue) == e;
  }

  // ---------------------------------------------------------------------------
  // Chains of str.replace

  /** A search string at the front of text whose rest lacks the search
      string's second character is replaced exactly once. */
  lemma DecodeLeading(s: string, t: string, rep: string, rest: string)
    requires |t| >= 2 && s == t + rest && t[1] !in rest
    ensures ReplaceAll(s, t, rep) == rep + rest
  {
    assert OccursAt(s, 0, t, false);
    SubAtMatch(Literal(t), s, rep, 0, |t|);
    forall k | |t| <= k < |s| ensures MatchAt(Literal(t), s, k).None? {
    }
    SubSkip(Literal(t), s, rep, |t|, |s|);
    assert s[|t|..|s|] == rest;
    assert rep + rest + "" == rep + rest;
  }

  /** A search string at the end of text whose front lacks its first
      character is replaced exactly once. */
  lemma DecodeTrailing(s: string, front: string, t: string, rep: string)
    requires t != [] && s == front + t && t[0] !in front
    ensures ReplaceAll(s, t, rep) == front + rep
  {
    forall k | 0 <= k < |front| ensures MatchAt(Literal(t), s, k).None? {
    }
    SubSkip(Literal(t), s, rep, 0, |front|);
    assert OccursAt(s, |front|, t, false);
    SubAtMatch(Literal(t), s, rep, |front|, |s|);
    assert s[0..|front|] == front;
  }

  /** A four-entry rewrite table is four successive replacements. */
  lemma ChainOfFour(s: string, table: seq<(string, string)>)
    requires |table| == 4
    ensures ReplaceChain(s, table) ==
              ReplaceAll(ReplaceAll(ReplaceAll(ReplaceAll(s, table[0].0, table[0].1),
                table[1].0, table[1].1), table[2].0, table[2].1), table[3].0, table[3].1)
  {
    var a := ReplaceAll(s, table[0].0, table[0].1);
    var b := ReplaceAll(a, table[1].0, table[1].1);
    var c := ReplaceAll(b, table[2].0, table[2].1);
    assert ReplaceChain(s, table) == ReplaceChain(a, table[1..]);
    assert ReplaceChain(a, table[1..]) == ReplaceChain(b, table[2..]);
    assert ReplaceChain(b, table[2..]) == ReplaceChain(c, table[3..]);
    assert ReplaceChain(c, table[3..]) == ReplaceChain(ReplaceAll(c, table[3].0, table[3].1), []);
  }

  /** When the first `n` replacements leave no `c` and every later search
      string starts with `c`, the later replacements change nothing. */
  lemma ChainRestWithoutLeadChar(s: string, table: seq<(string, string)>, n: nat, u: string, c: char)
    requires n <= |table| && ReplaceChain(s, table[..n]) == u && c !in u
    requires forall k :: n <= k < |table| ==> table[k].0 != [] && table[k].0[0] == c
    ensures ReplaceChain(s, table) == u
  {
    var head, tail := table[..n], table[n..];
    assert table == head + tail;
    ChainAppend(s, head, tail);
    assert forall k :: 0 <= k < |tail| ==> tail[k] == table[k + n];
    ChainWithoutLeadChar(u, tail, c);
  }
}
