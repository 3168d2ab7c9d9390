/**
 * What the scanner does to texts of a simple shape: a text without
 * parentheses or separators is one fragment, a separator splits the text into
 * fragments in order, a nested block drops what was accumulated before it and
 * leaves the depth at one, and a `<digits> x <body>` block counts its digits.
 */
module ScannerLaws {
  import opened Wrappers
  import opened Text
  import opened Types
  import opened Scanner

  /** No parenthesis, and at depth zero no `x` either: every character just joins the fragment. */
  predicate QuietChar(c: char, depth: int) {
    c != '(' && c != ')' && (depth != 0 || c != 'x')
  }

  predicate Quiet(s: string, depth: int) {
    forall k | 0 <= k < |s| :: QuietChar(s[k], depth)
  }

  /** The stretch `[i, j)` of the text is quiet. */
  predicate QuietIn(text: string, i: nat, j: nat, depth: int)
    requires i <= j <= |text|
  {
    forall k | i <= k < j :: QuietChar(text[k], depth)
  }

  /** Scanning a quiet stretch only grows the fragment. */
  lemma {:induction false} ScanQuiet(text: string, i: nat, j: nat, cur: string, depth: int)
    requires |cur| <= i <= j <= |text|
    requires QuietIn(text, i, j, depth)
    ensures ScanFrom(text, i, cur, depth) == ScanFrom(text, j, cur + text[i..j], depth)
    decreases j - i
  {
    if i == j {
      assert cur + text[i..j] == cur;
    } else {
      assert Delta(text[i]) == 0;
      ScanChar(text, i, cur, depth);
      ScanQuiet(text, i + 1, j, cur + [text[i]], depth);
      assert cur + [text[i]] + text[i + 1..j] == cur + text[i..j];
    }
  }

  /** At the end of the text the fragment goes through the final flush. */
  lemma ScanEnd(text: string, cur: string, depth: int)
    requires |cur| <= |text|
    ensures ScanFrom(text, |text|, cur, depth) == FinalItems(cur)
  {
  }

  /** A text without parentheses and separators is a single fragment, flushed at the end. */
  lemma PlainText(text: string)
    requires Quiet(text, 0)
    ensures StepsFromText(text) == FinalItems(text)
  {
    ScanQuietTail(text, 0, 0);
    assert text[0..|text|] == text;
  }

  /** A quiet stretch from `i` to the end of the text, scanned from an empty fragment, is flushed as one. */
  lemma ScanQuietTail(t: string, i: nat, depth: int)
    requires i <= |t| && QuietIn(t, i, |t|, depth)
    ensures ScanFrom(t, i, [], depth) == FinalItems(t[i..|t|])
  {
    ScanQuiet(t, i, |t|, [], depth);
    assert [] + t[i..|t|] == t[i..|t|];
    ScanEnd(t, t[i..|t|], depth);
  }

  /** A quiet stretch from the start of the text, scanned from an empty fragment, becomes the fragment. */
  lemma ScanQuietHead(t: string, j: nat, depth: int)
    requires j <= |t| && QuietIn(t, 0, j, depth)
    ensures ScanFrom(t, 0, [], depth) == ScanFrom(t, j, t[0..j], depth)
  {
    ScanQuiet(t, 0, j, [], depth);
    assert [] + t[0..j] == t[0..j];
  }

  /** A separator at `p` followed by a space, after a fragment that is not blank; `m` is where scanning resumes. */
  lemma SeparatorThenSpace(t: string, p: nat, m: nat, f: string)
    requires 0 < p && |f| <= p && m == p + 2 && m <= |t|
    requires t[p] == 'x' && t[p - 1] == ' ' && t[p + 1] == ' '
    requires !IsBlank(f)
    ensures ScanFrom(t, p, f, 0) == FragmentItems(f) + ScanFrom(t, m, [], 0)
  {
    ScanSeparator(t, p, f, 0);
    assert AfterSeparator(t, p) == m;
    assert ClearedFragment(f) == [];
  }

  /** The separator at `p`, laid out in an abstract text: `f` ending in a space, the `x`, a space, then `g` from `m`. */
  lemma SeparatorAt(t: string, p: nat, m: nat, f: string, g: string)
    requires 0 < p && m == p + 2 && m <= |t|
    requires t[p] == 'x' && t[p - 1] == ' ' && t[p + 1] == ' '
    requires t[0..p] == f && t[m..|t|] == g
    requires QuietIn(t, 0, p, 0) && QuietIn(t, m, |t|, 0) && !IsBlank(f)
    ensures StepsFromText(t) == FragmentItems(f) + FinalItems(g)
  {
    ScanQuietHead(t, p, 0);
    SeparatorThenSpace(t, p, m, f);
    ScanQuietTail(t, m, 0);
  }

  /** A quiet slice is a quiet stretch. */
  lemma QuietSlice(t: string, i: nat, j: nat, depth: int)
    requires i <= j <= |t| && Quiet(t[i..j], depth)
    ensures QuietIn(t, i, j, depth)
  {
    assert forall k | i <= k < j :: t[k] == t[i..j][k - i];
  }

  /** Where the parts of `a + " x " + b` lie: the `x` at `p`, `b` from `m`. */
  lemma SeparatorLayout(a: string, b: string, t: string, p: nat, m: nat)
    requires t == a + " x " + b && p == |a| + 1 && m == p + 2
    ensures 0 < p && m <= |t|
    ensures t[p] == 'x' && t[p - 1] == ' ' && t[p + 1] == ' '
    ensures t[0..p] == a + " " && t[m..|t|] == b
  {
  }

  /** A space after a quiet fragment that is not blank keeps it so. */
  lemma SpaceAfter(a: string)
    requires Quiet(a, 0) && !IsBlank(a)
    ensures Quiet(a + " ", 0) && !IsBlank(a + " ")
  {
    assert forall k | 0 <= k < |a| :: (a + " ")[k] == a[k];
  }

  /**
   * ` x ` splits the text: the fragment before it is flushed first, without the
   * `x`, and the text after it, without the space that follows the `x`, is the
   * next fragment.
   */
  lemma SeparatorSplits(a: string, b: string)
    requires Quiet(a, 0) && Quiet(b, 0) && !IsBlank(a)
    ensures StepsFromText(a + " x " + b) == FragmentItems(a + " ") + FinalItems(b)
  {
    var t := a + " x " + b;
    var n := |a|;
    var p := n + 1;
    var m := p + 2;
    SeparatorLayout(a, b, t, p, m);
    SpaceAfter(a);
    QuietSlice(t, 0, p, 0);
    QuietSlice(t, m, |t|, 0);
    SeparatorAt(t, p, m, a + " ", b);
  }

  /** The inner `while` stops one past the first `)` when no parenthesis comes before it. */
  lemma {:induction false} CloseAt(text: string, j: nat, k: nat)
    requires j <= k < |text| && text[k] == ')'
    requires forall m | j <= m < k :: text[m] != '(' && text[m] != ')'
    ensures CloseIndex(text, j, 1) == k + 1
    decreases k - j
  {
    if j < k {
      assert Delta(text[j]) == 0;
      CloseAt(text, j + 1, k);
    } else {
      assert CloseIndex(text, k + 1, 0) == k + 1;
    }
  }

  /** The `(` at `n` whose content `[c, k)` has no parenthesis and is a block opens that block, ending at `j`. */
  lemma NestedBlockIs(t: string, n: nat, c: nat, k: nat, j: nat, content: string)
    requires n < k < |t| && c == n + 1 && j == k + 1 && t[n] == '(' && t[k] == ')'
    requires QuietIn(t, c, k, 1) && t[c..k] == content
    requires HeaderAt(content) && RepetitionBlock(content).Some?
    ensures NestedBlock(t, n) == Some((RepetitionBlock(content).value, j))
  {
    CloseAt(t, c, k);
    assert JsSubstring(t, c, j - 1) == content;
    NestedSpanIs(t, n, j, content);
    NestedBlockOf(t, n, j, content);
  }

  /** A nested block laid out in an abstract text: `pre` up to `n`, the block up to `j`, then `post`. */
  lemma NestedAtLayout(t: string, n: nat, j: nat, pre: string, post: string, b: Item)
    requires n < |t| && j <= |t| && t[n] == '('
    requires NestedBlock(t, n) == Some((b, j))
    requires t[0..n] == pre && t[j..|t|] == post
    requires QuietIn(t, 0, n, 0) && QuietIn(t, j, |t|, 1)
    ensures StepsFromText(t) == [b] + FinalItems(post)
  {
    ScanQuietHead(t, n, 0);
    ScanNested(t, n, pre, 0, b, j);
    ScanQuietTail(t, j, 1);
  }

  /** Where the parts of `pre + "(" + content + ")" + post` lie: `(` at `n`, `content` from `c`, `)` at `k`, `post` from `j`. */
  lemma NestedLayout(pre: string, content: string, post: string, t: string, n: nat, c: nat, k: nat, j: nat)
    requires t == pre + "(" + content + ")" + post
    requires n == |pre| && c == n + 1 && k == c + |content| && j == k + 1
    ensures n < k < |t| && j <= |t| && t[n] == '(' && t[k] == ')'
    ensures t[0..n] == pre && t[c..k] == content && t[j..|t|] == post
  {
  }

  /**
   * A nested block at depth one: what was accumulated before its `(` is lost,
   * and because the depth is not lowered after its `)`, an `x` after it no
   * longer separates, so all the rest is one fragment.
   */
  lemma NestedDropsPrefix(pre: string, content: string, post: string)
    requires Quiet(pre, 0) && Quiet(content, 1) && Quiet(post, 1)
    requires HeaderAt(content) && RepetitionBlock(content).Some?
    ensures StepsFromText(pre + "(" + content + ")" + post) == [RepetitionBlock(content).value] + FinalItems(post)
  {
    var t := pre + "(" + content + ")" + post;
    var n := |pre|;
    var c := n + 1;
    var k := c + |content|;
    var j := k + 1;
    NestedLayout(pre, content, post, t, n, c, k, j);
    QuietSlice(t, 0, n, 0);
    QuietSlice(t, c, k, 1);
    QuietSlice(t, j, |t|, 1);
    NestedBlockIs(t, n, c, k, j, content);
    NestedAtLayout(t, n, j, pre, post, RepetitionBlock(content).value);
  }

  /** `<digits> x <body>`: the count is the digits' value and the group is the body. */
  lemma RepetitionMatchOf(ds: string, body: string)
    requires ds != [] && AllDigits(ds)
    requires body != [] && !IsSpace(body[0]) && NoLineTerminator(body)
    ensures RepetitionMatch(ds + " x " + body) == Some((DigitsValue(ds), body))
  {
    var t := ds + " x " + body;
    var d := |ds|;
    assert forall k | 0 <= k < d :: t[k] == ds[k];
    SpanIs(t, 0, IsDigit, d);
    SpanIs(t, d, IsSpace, d + 1);
    SpanIs(t, d + 2, IsSpace, d + 3);
    assert t[..d] == ds;
    assert t[d + 3..] == body;
  }

  /**
   * A block whose body has no parentheses and no separator: the count is the
   * digits' value, zero included, and the items are the body read as one
   * fragment; no block when that fragment gives nothing.
   */
  lemma PlainBlock(ds: string, body: string)
    requires ds != [] && AllDigits(ds)
    requires body != [] && !IsSpace(body[0]) && !IsSpace(body[|body| - 1])
    requires Quiet(body, 0) && NoLineTerminator(body)
    ensures var r := RepetitionBlock(ds + " x " + body);
      && (r.None? <==> FinalItems(body) == [])
      && (r.Some? ==> r.value == Repetition(DigitsValue(ds), FinalItems(body)))
  {
    RepetitionMatchOf(ds, body);
    TrimNoop(body);
    assert BlockBody(ds + " x " + body) == Some(body);
    PlainText(body);
  }
}
