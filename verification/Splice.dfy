/** Taking the text of a definition apart at any token or gap, and putting it together again with a change. */
module Splice {
  import opened Tokens
  import opened Spelling

  // ---------- Streams ----------

  function Join(s: Stream, k: Stream): (r: Stream)
    ensures Length(r) == Length(s) + Length(k)
  {
    match s
    case Done => k
    case More(t, tail) => More(t, Join(tail, k))
  }

  lemma {:induction false} JoinAssociates(a: Stream, b: Stream, c: Stream)
    ensures Join(Join(a, b), c) == Join(a, Join(b, c))
  {
    if a.More? {
      JoinAssociates(a.tail, b, c);
    }
  }

  // ---------- Texts ----------

  /** The text of some tokens, each with the gap before it. */
  function PreText(s: Stream, gaps: seq<Gap>): string
    requires |gaps| == Length(s)
  {
    match s
    case Done => ""
    case More(t, tail) => GapText(gaps[0]) + (Spell(t) + PreText(tail, gaps[1..]))
  }

  lemma TextUnfolds(t: Token, tail: Stream, g: Gap, gaps: seq<Gap>)
    requires |gaps| == Length(tail) + 1
    ensures Text(More(t, tail), [g] + gaps) == GapText(g) + (Spell(t) + Text(tail, gaps))
  {
    assert ([g] + gaps)[1..] == gaps;
  }

  lemma {:induction false} TextJoins(s: Stream, k: Stream, pre: seq<Gap>, post: seq<Gap>)
    requires |pre| == Length(s) && |post| == Length(k) + 1
    ensures Text(Join(s, k), pre + post) == PreText(s, pre) + Text(k, post)
  {
    hide Text, Spell, GapText;
    match s
    case Done =>
      assert pre + post == post;
      assert "" + Text(k, post) == Text(k, post);
    case More(t, tail) =>
      var (g, more) := (pre[0], pre[1..]);
      assert pre + post == [g] + (more + post);
      TextUnfolds(t, Join(tail, k), g, more + post);
      TextJoins(tail, k, more, post);
      Associates(Spell(t), PreText(tail, more), Text(k, post));
      Associates(GapText(g), Spell(t) + PreText(tail, more), Text(k, post));
  }

  lemma {:induction false} GapTextJoins(g: Gap, h: Gap)
    ensures GapText(g + h) == GapText(g) + GapText(h)
  {
    if g == [] {
      assert g + h == h;
    } else {
      assert (g + h)[1..] == g[1..] + h;
      GapTextJoins(g[1..], h);
      Associates(BlankText(g[0]), GapText(g[1..]), GapText(h));
    }
  }

  lemma FirstGap(ts: Stream, g: Gap, h: Gap, gaps: seq<Gap>)
    requires |gaps| == Length(ts)
    ensures Text(ts, [g + h] + gaps) == GapText(g) + Text(ts, [h] + gaps)
  {
    GapTextJoins(g, h);
    match ts
    case Done =>
    case More(t, tail) =>
      TextUnfolds(t, tail, g + h, gaps);
      TextUnfolds(t, tail, h, gaps);
      Associates(GapText(g), GapText(h), Spell(t) + Text(tail, gaps));
  }

  /** A text is what comes before a gap, the gap, and the rest. */
  lemma TextAround(s: Stream, k: Stream, pre: seq<Gap>, g: Gap, post: seq<Gap>)
    requires |pre| == Length(s) && |post| == Length(k)
    ensures Text(Join(s, k), pre + ([g] + post)) == PreText(s, pre) + (GapText(g) + Text(k, [[]] + post))
  {
    hide Text, GapText;
    TextJoins(s, k, pre, [g] + post);
    FirstGap(k, g, [], post);
    assert g + [] == g;
  }

  // ---------- Spacing ----------

  lemma SpacedUnfolds(t: Token, tail: Stream, g: Gap, gaps: seq<Gap>)
    requires |gaps| == Length(tail) + 1
    ensures Spaced(More(t, tail), [g] + gaps) <==>
            GapOk(g) && Breaks(t, Head(Text(tail, gaps))) && Spaced(tail, gaps)
  {
    assert ([g] + gaps)[1..] == gaps;
  }

  lemma SpacedFirst(ts: Stream, g: Gap, h: Gap, gaps: seq<Gap>)
    requires |gaps| == Length(ts)
    ensures Spaced(ts, [g + h] + gaps) <==> GapOk(g) && Spaced(ts, [h] + gaps)
  {
    hide Text, BlankOk;
    assert forall b :: b in g + h <==> b in g || b in h;
    match ts
    case Done =>
    case More(t, tail) =>
      SpacedUnfolds(t, tail, g + h, gaps);
      SpacedUnfolds(t, tail, h, gaps);
  }

  /** The first gap may be any, since nothing comes before it. */
  lemma FirstGapFree(ts: Stream, g: Gap, h: Gap, gaps: seq<Gap>)
    requires |gaps| == Length(ts) && Spaced(ts, [g] + gaps) && GapOk(h)
    ensures Spaced(ts, [h] + gaps)
  {
    hide Text;
    assert g == g + [] && h == h + [];
    SpacedFirst(ts, g, [], gaps);
    SpacedFirst(ts, h, [], gaps);
  }

  /** Some tokens with their gaps, when character c comes after the last. */
  ghost predicate PreSpaced(s: Stream, gaps: seq<Gap>, c: char)
    requires |gaps| == Length(s)
  {
    match s
    case Done => true
    case More(t, tail) =>
      GapOk(gaps[0]) && Breaks(t, Head(PreText(tail, gaps[1..]) + [c])) && PreSpaced(tail, gaps[1..], c)
  }

  lemma {:induction false} SpacedJoins(s: Stream, k: Stream, pre: seq<Gap>, post: seq<Gap>)
    requires |pre| == Length(s) && |post| == Length(k) + 1
    ensures Spaced(Join(s, k), pre + post) <==> PreSpaced(s, pre, Head(Text(k, post))) && Spaced(k, post)
  {
    hide Text, PreText, GapText, Breaks;
    match s
    case Done =>
      assert pre + post == post;
    case More(t, tail) =>
      var (g, more) := (pre[0], pre[1..]);
      assert pre + post == [g] + (more + post);
      SpacedUnfolds(t, Join(tail, k), g, more + post);
      SpacedJoins(tail, k, more, post);
      TextJoins(tail, k, more, post);
      assert Head(PreText(tail, more) + Text(k, post)) == Head(PreText(tail, more) + [Head(Text(k, post))]);
  }

  /** No token runs into a character that is neither alphanumeric nor '='. */
  predicate Separates(c: char) { !IsAlnum(c) && c != '=' }

  lemma {:induction false} SeparatorSuffices(s: Stream, gaps: seq<Gap>, c: char, d: char)
    requires |gaps| == Length(s) && PreSpaced(s, gaps, c) && Separates(d)
    ensures PreSpaced(s, gaps, d)
  {
    hide PreText, GapOk;
    if s.More? {
      SeparatorSuffices(s.tail, gaps[1..], c, d);
      var rest := PreText(s.tail, gaps[1..]);
      if rest == "" {
        assert Head(rest + [d]) == d;
      } else {
        assert Head(rest + [d]) == rest[0] == Head(rest + [c]);
      }
    }
  }

  lemma GapSeparates(g: Gap, s: string)
    requires GapOk(g) && g != []
    ensures Separates(Head(GapText(g) + s))
  {
    assert BlankOk(g[0]);
    assert Head(GapText(g) + s) == BlankText(g[0])[0];
  }

  lemma TextSeparates(k: Stream, h: Gap, post: seq<Gap>)
    requires |post| == Length(k) && GapOk(h) && h != []
    ensures Separates(Head(Text(k, [h] + post)))
  {
    hide Text, GapText, Separates;
    FirstGap(k, h, [], post);
    assert h + [] == h;
    GapSeparates(h, Text(k, [[]] + post));
  }

  /** Another gap before the rest keeps the spacing. */
  lemma SpacedAround(s: Stream, k: Stream, pre: seq<Gap>, g: Gap, post: seq<Gap>, k': Stream, h: Gap, post': seq<Gap>)
    requires |pre| == Length(s) && |post| == Length(k) && |post'| == Length(k')
    requires Spaced(Join(s, k), pre + ([g] + post)) && Spaced(k', [h] + post') && h != []
    ensures Spaced(Join(s, k'), pre + ([h] + post'))
  {
    hide Text, PreSpaced, Spaced, GapOk, Join, Separates;
    SpacedJoins(s, k, pre, [g] + post);
    SpacedJoins(s, k', pre, [h] + post');
    FirstGapOk(k', h, post');
    TextSeparates(k', h, post');
    SeparatorSuffices(s, pre, Head(Text(k, [g] + post)), Head(Text(k', [h] + post')));
  }

  lemma FirstGapOk(k: Stream, g: Gap, post: seq<Gap>)
    requires |post| == Length(k) && Spaced(k, [g] + post)
    ensures GapOk(g)
  {
    assert ([g] + post)[0] == g;
  }

  // ---------- Places in a gap ----------

  lemma BlankEnds(b: Blank, n: nat)
    requires BlankOk(b) && n < |BlankText(b)|
    ensures BlankText(b)[n] == '\n' ==> n == |BlankText(b)| - 1
    ensures b.Comment? ==> BlankText(b)[|BlankText(b)| - 1] == '\n'
    ensures b.Comment? && 2 <= n < |BlankText(b)| - 1 ==> BlankText(b)[n] == b.text[n - 2]
    ensures !IsSpace(BlankText(b)[n]) && BlankText(b)[n] != '/' ==> b.Comment? && 2 <= n < |BlankText(b)| - 1
  {
    if b.Comment? {
      assert BlankText(b) == "//" + (b.text + "\n");
      if 2 <= n < |BlankText(b)| - 1 {
        assert BlankText(b)[n] == b.text[n - 2] && b.text[n - 2] in b.text;
      }
    }
  }

  lemma GapTextUnfolds(g: Gap)
    requires g != []
    ensures GapText(g) == BlankText(g[0]) + GapText(g[1..])
  {
  }

  /** Behind a line end in a gap the gap can be split. */
  lemma {:induction false} SplitGap(g: Gap, n: nat) returns (h1: Gap, h2: Gap)
    requires GapOk(g) && 0 < n <= |GapText(g)| && GapText(g)[n - 1] == '\n'
    ensures g == h1 + h2 && |GapText(h1)| == n
    decreases |g|
  {
    hide BlankText;
    var b := g[0];
    assert BlankOk(b);
    GapTextUnfolds(g);
    var len := |BlankText(b)|;
    if n <= len {
      BlankEnds(b, n - 1);
      h1, h2 := [b], g[1..];
      GapTextUnfolds(h1);
      assert GapText(h1[1..]) == "";
    } else {
      var h;
      h, h2 := SplitGap(g[1..], n - len);
      h1 := [b] + h;
      assert h1[1..] == h;
      GapTextUnfolds(h1);
      assert g == h1 + h2;
    }
  }

  /** A brace in a gap is in a comment, so a line end follows it. */
  lemma {:induction false} BraceInGap(g: Gap, n: nat) returns (m: nat)
    requires GapOk(g) && n < |GapText(g)| && GapText(g)[n] == '{'
    ensures n < m < |GapText(g)| && GapText(g)[m] == '\n'
    decreases |g|
  {
    hide BlankText;
    var b := g[0];
    assert BlankOk(b);
    GapTextUnfolds(g);
    var len := |BlankText(b)|;
    if n < len {
      BlankEnds(b, n);
      m := len - 1;
    } else {
      m := BraceInGap(g[1..], n - len);
      m := m + len;
    }
  }

  lemma CommentFrom(c: string, more: string, j: nat)
    requires 2 <= j < |c| + 2
    ensures (BlankText(Comment(c)) + more)[j..] == c[j - 2..] + "\n" + more
  {
    var start := "//" + c;
    assert start[j..] == c[j - 2..];
    assert BlankText(Comment(c)) == start + "\n";
    assert (start + "\n" + more)[j..] == start[j..] + "\n" + more;
  }

  lemma CommentUpTo(c: string, more: string, i: nat)
    requires 2 <= i < |c| + 2
    ensures (BlankText(Comment(c)) + more)[..i + 1] == "//" + c[..i - 1]
  {
    var start := "//" + c;
    assert start[..i + 1] == "//" + c[..i - 1];
    assert BlankText(Comment(c)) == start + "\n";
    assert (start + "\n" + more)[..i + 1] == start[..i + 1];
  }

  lemma PartOfComment(c: string, i: nat, j: nat)
    requires BlankOk(Comment(c)) && i <= j <= |c|
    ensures BlankOk(Comment(c[i..j]))
  {
  }

  /** The text of a gap from a place inside a comment on is the end of a comment and a gap. */
  lemma {:induction false} GapFrom(g: Gap, j: nat) returns (c: string, rest: Gap)
    requires GapOk(g) && j < |GapText(g)| && GapText(g)[j] == ';'
    ensures GapText(g)[j..] == c + "\n" + GapText(rest)
    ensures BlankOk(Comment(c)) && GapOk(rest)
    decreases |g|
  {
    hide BlankText, BlankOk;
    var b := g[0];
    assert BlankOk(b);
    GapTextUnfolds(g);
    var len := |BlankText(b)|;
    if j < len {
      BlankEnds(b, j);
      CommentLength(b);
      c, rest := b.text[j - 2..], g[1..];
      PartOfComment(b.text, j - 2, |b.text|);
      assert b.text[j - 2..|b.text|] == c;
      CommentFrom(b.text, GapText(rest), j);
    } else {
      c, rest := GapFrom(g[1..], j - len);
      assert GapText(g)[j..] == GapText(g[1..])[j - len..];
    }
  }

  lemma CommentLength(b: Blank)
    requires b.Comment?
    ensures b == Comment(b.text) && |BlankText(b)| == |b.text| + 3
  {
  }

  /** Replacing what is between an '=' and a ';' of one gap gives another gap. */
  lemma {:induction false} SpliceGap(g: Gap, i: nat, j: nat, value: string) returns (h: Gap)
    requires GapOk(g) && i < j < |GapText(g)| && GapText(g)[i] == '=' && GapText(g)[j] == ';'
    requires BlankOk(Comment(value))
    ensures GapOk(h) && h != [] && GapText(h) == GapText(g)[..i + 1] + value + GapText(g)[j..]
    decreases |g|
  {
    hide BlankText, BlankOk;
    var b := g[0];
    assert BlankOk(b);
    GapTextUnfolds(g);
    var len := |BlankText(b)|;
    if i < len {
      BlankEnds(b, i);
      CommentLength(b);
      h := SpliceComment(g, i, j, value);
    } else {
      var more := SpliceGap(g[1..], i - len, j - len, value);
      h := [b] + more;
      assert h[1..] == more;
      GapTextUnfolds(h);
      var rest := GapText(g[1..]);
      assert GapText(g)[..i + 1] == BlankText(b) + rest[..i - len + 1];
      assert GapText(g)[j..] == rest[j - len..];
      SplicedMore(BlankText(b), rest[..i - len + 1], value, rest[j - len..]);
    }
  }

  lemma SpliceComment(g: Gap, i: nat, j: nat, value: string) returns (h: Gap)
    requires GapOk(g) && g != [] && g[0].Comment? && 2 <= i < |g[0].text| + 2
    requires i < j < |GapText(g)| && GapText(g)[j] == ';' && BlankOk(Comment(value))
    ensures GapOk(h) && h != [] && GapText(h) == GapText(g)[..i + 1] + value + GapText(g)[j..]
  {
    hide BlankText;
    var start := g[0].text[..i - 1];
    assert BlankOk(g[0]);
    GapTextUnfolds(g);
    CommentUpTo(g[0].text, GapText(g[1..]), i);
    var c, rest := GapFrom(g, j);
    var text := start + value + c;
    h := [Comment(text)] + rest;
    assert h[1..] == rest;
    GapTextUnfolds(h);
    assert BlankText(Comment(text)) == "//" + (start + value + c) + "\n" by { TextOfComment(text); }
    SplicedText(start, value, c, GapText(rest));
  }

  lemma TextOfComment(text: string)
    ensures BlankText(Comment(text)) == "//" + text + "\n"
  {
  }

  lemma SplicedText(start: string, value: string, c: string, rest: string)
    ensures ("//" + (start + value + c) + "\n") + rest == ("//" + start) + value + (c + "\n" + rest)
  {
  }

  lemma SplicedMore(b: string, start: string, value: string, end: string)
    ensures b + (start + value + end) == (b + start) + value + end
  {
  }
}
