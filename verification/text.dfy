/** Python string operations the core relies on: `sep.join(parts)`, `str.split()`
    with no argument, and `str(n)` for a non-negative integer. */
module Text {

  /** `sep.join(parts)`. */
  function Join(sep: string, parts: seq<string>): string
  {
    if |parts| == 0 then ""
    else if |parts| == 1 then parts[0]
    else parts[0] + sep + Join(sep, parts[1..])
  }

  /** The characters Python's `str.isspace` accepts, which are the separators of
      `str.split()` without arguments. */
  predicate IsSpace(c: char)
  {
    || ('\U{0009}' <= c <= '\U{000D}')
    || ('\U{001C}' <= c <= '\U{0020}')
    || c == '\U{0085}' || c == '\U{00A0}' || c == '\U{1680}'
    || ('\U{2000}' <= c <= '\U{200A}')
    || c == '\U{2028}' || c == '\U{2029}' || c == '\U{202F}'
    || c == '\U{205F}' || c == '\U{3000}'
  }

  predicate NoSpace(s: string)
  {
    forall i :: 0 <= i < |s| ==> !IsSpace(s[i])
  }

  /** A word as `str.split()` produces it: non-empty and free of whitespace. */
  predicate IsWord(w: string)
  {
    |w| > 0 && NoSpace(w)
  }

  predicate AllWords(ws: seq<string>)
  {
    forall i :: 0 <= i < |ws| ==> IsWord(ws[i])
  }

  /** Scans `s` left to right; `cur` holds the characters of the word being read. */
  function SplitFrom(s: string, cur: string): seq<string>
    decreases |s|
  {
    if |s| == 0 then (if cur == "" then [] else [cur])
    else if IsSpace(s[0]) then (if cur == "" then [] else [cur]) + SplitFrom(s[1..], "")
    else SplitFrom(s[1..], cur + [s[0]])
  }

  /** `s.split()`: maximal runs of non-whitespace, empty pieces dropped. */
  function Split(s: string): seq<string>
  {
    SplitFrom(s, "")
  }

  lemma {:induction false} SplitFromYieldsWords(s: string, cur: string)
    requires NoSpace(cur)
    ensures AllWords(SplitFrom(s, cur))
    decreases |s|
  {
    if |s| == 0 {
    } else if IsSpace(s[0]) {
      SplitFromYieldsWords(s[1..], "");
    } else {
      SplitFromYieldsWords(s[1..], cur + [s[0]]);
    }
  }

  /** Every piece of `s.split()` is a word. */
  lemma SplitYieldsWords(s: string)
    ensures AllWords(Split(s))
  {
    SplitFromYieldsWords(s, "");
  }

  lemma {:induction false} SplitFromSkipsWord(w: string, t: string, cur: string)
    requires NoSpace(w)
    ensures SplitFrom(w + t, cur) == SplitFrom(t, cur + w)
    decreases |w|
  {
    if |w| == 0 {
      assert w + t == t;
      assert cur + w == cur;
    } else {
      assert (w + t)[0] == w[0];
      assert (w + t)[1..] == w[1..] + t;
      SplitFromSkipsWord(w[1..], t, cur + [w[0]]);
      assert cur + [w[0]] + w[1..] == cur + w;
    }
  }

  /** Splitting a space-join of words gives the words back. */
  lemma {:induction false} SplitJoin(ws: seq<string>)
    requires AllWords(ws)
    ensures Split(Join(" ", ws)) == ws
    decreases |ws|
  {
    if |ws| == 0 {
    } else if |ws| == 1 {
      SplitFromSkipsWord(ws[0], "", "");
      assert ws[0] + "" == ws[0];
      assert "" + ws[0] == ws[0];
    } else {
      var rest := Join(" ", ws[1..]);
      assert Join(" ", ws) == ws[0] + (" " + rest);
      SplitFromSkipsWord(ws[0], " " + rest, "");
      assert "" + ws[0] == ws[0];
      assert (" " + rest)[1..] == rest;
      SplitJoin(ws[1..]);
      assert ws == [ws[0]] + ws[1..];
    }
  }

  // ---------------------------------------------------------------------------
  // An independent description of `str.split()`: `" ".join(s.split())` trims the
  // text and turns every whitespace run into one space.

  predicate AllSpace(s: string)
  {
    forall i :: 0 <= i < |s| ==> IsSpace(s[i])
  }

  /** `s.lstrip()`. */
  function TrimLeft(s: string): string
    decreases |s|
  {
    if |s| > 0 && IsSpace(s[0]) then TrimLeft(s[1..]) else s
  }

  /** `s.rstrip()`. */
  function TrimRight(s: string): string
    decreases |s|
  {
    if |s| > 0 && IsSpace(s[|s| - 1]) then TrimRight(s[..|s| - 1]) else s
  }

  /** Every run of whitespace becomes a single space; other characters stay. */
  function Squeeze(s: string): string
    decreases |s|
  {
    if |s| == 0 then ""
    else if !IsSpace(s[0]) then [s[0]] + Squeeze(s[1..])
    else if |s| > 1 && IsSpace(s[1]) then Squeeze(s[1..])
    else " " + Squeeze(s[1..])
  }

  /** The text trimmed, with each inner whitespace run collapsed to one space. */
  function Collapse(s: string): string
  {
    Squeeze(TrimLeft(TrimRight(s)))
  }

  lemma {:induction false} SqueezePrefix(p: string, q: string)
    requires NoSpace(p)
    ensures Squeeze(p + q) == p + Squeeze(q)
    decreases |p|
  {
    if |p| > 0 {
      var x := p + q;
      assert x[0] == p[0] && !IsSpace(x[0]);
      assert x[1..] == p[1..] + q;
      assert Squeeze(x) == [p[0]] + Squeeze(p[1..] + q);
      SqueezePrefix(p[1..], q);
      assert p == [p[0]] + p[1..];
    } else {
      assert p + q == q;
    }
  }

  lemma {:induction false} SqueezeNonEmpty(s: string)
    requires |s| > 0
    ensures |Squeeze(s)| > 0
    decreases |s|
  {
    if IsSpace(s[0]) && |s| > 1 && IsSpace(s[1]) {
      SqueezeNonEmpty(s[1..]);
    }
  }

  lemma {:induction false} TrimRightAllSpace(s: string)
    requires AllSpace(s)
    ensures TrimRight(s) == ""
    decreases |s|
  {
    if |s| > 0 {
      TrimRightAllSpace(s[..|s| - 1]);
    }
  }

  lemma {:induction false} TrimRightEndsInWord(s: string)
    requires !AllSpace(s)
    ensures |TrimRight(s)| > 0 && !IsSpace(TrimRight(s)[|TrimRight(s)| - 1])
    decreases |s|
  {
    if IsSpace(s[|s| - 1]) {
      var i :| 0 <= i < |s| && !IsSpace(s[i]);
      assert s[..|s| - 1][i] == s[i];
      TrimRightEndsInWord(s[..|s| - 1]);
    }
  }

  lemma {:induction false} TrimRightAppend(p: string, q: string)
    ensures AllSpace(q) ==> TrimRight(p + q) == TrimRight(p)
    ensures !AllSpace(q) ==> TrimRight(p + q) == p + TrimRight(q)
    decreases |q|
  {
    if |q| == 0 {
      assert p + q == p;
    } else if IsSpace(q[|q| - 1]) {
      var q' := q[..|q| - 1];
      assert (p + q)[..|p + q| - 1] == p + q';
      assert AllSpace(q) <==> AllSpace(q') by {
        assert forall i :: 0 <= i < |q'| ==> q'[i] == q[i];
      }
      TrimRightAppend(p, q');
    }
  }

  lemma {:induction false} TrimLeftKeepsWord(s: string)
    requires |s| > 0 && !IsSpace(s[|s| - 1])
    ensures |TrimLeft(s)| > 0
    decreases |s|
  {
    if IsSpace(s[0]) {
      TrimLeftKeepsWord(s[1..]);
    }
  }

  /** After a space, a text with a word contributes one space and its trimmed rest. */
  lemma {:induction false} SpaceThenSqueeze(c: char, v: string)
    requires IsSpace(c) && !AllSpace(v)
    ensures Squeeze([c] + v) == " " + Squeeze(TrimLeft(v))
    decreases |v|
  {
    assert ([c] + v)[1..] == v;
    if IsSpace(v[0]) {
      assert !AllSpace(v[1..]) by {
        var i :| 0 <= i < |v| && !IsSpace(v[i]);
        assert v[1..][i - 1] == v[i];
      }
      assert v == [v[0]] + v[1..];
      SpaceThenSqueeze(v[0], v[1..]);
    }
  }

  /** A text collapses to nothing exactly when it is all whitespace. */
  lemma CollapseEmpty(s: string)
    ensures Collapse(s) == "" <==> AllSpace(s)
  {
    if AllSpace(s) {
      TrimRightAllSpace(s);
    } else {
      TrimRightEndsInWord(s);
      TrimLeftKeepsWord(TrimRight(s));
      SqueezeNonEmpty(TrimLeft(TrimRight(s)));
    }
  }

  lemma CollapseWord(w: string)
    requires NoSpace(w)
    ensures Collapse(w) == w
  {
    SqueezePrefix(w, "");
    assert w + "" == w;
  }

  lemma CollapseSkipsSpace(s: string)
    requires |s| > 0 && IsSpace(s[0])
    ensures Collapse(s) == Collapse(s[1..])
  {
    if AllSpace(s) {
      TrimRightAllSpace(s);
      TrimRightAllSpace(s[1..]);
    } else {
      assert !AllSpace(s[1..]) by {
        var i :| 0 <= i < |s| && !IsSpace(s[i]);
        assert s[1..][i - 1] == s[i];
      }
      assert s == [s[0]] + s[1..];
      TrimRightAppend([s[0]], s[1..]);
      assert ([s[0]] + TrimRight(s[1..]))[1..] == TrimRight(s[1..]);
    }
  }

  /** A word followed by whitespace: the word, then one space if another word follows. */
  lemma CollapseAfterWord(w: string, c: char, t: string)
    requires |w| > 0 && NoSpace(w) && IsSpace(c)
    ensures AllSpace(t) ==> Collapse(w + [c] + t) == w
    ensures !AllSpace(t) ==> Collapse(w + [c] + t) == w + " " + Collapse(t)
  {
    TrimRightAppend(w + [c], t);
    if AllSpace(t) {
      TrimRightAppend(w, [c]);
      CollapseWord(w);
    } else {
      var v := TrimRight(t);
      var x := w + [c] + v;
      assert x[0] == w[0];
      assert TrimLeft(x) == x;
      assert x == w + ([c] + v);
      SqueezePrefix(w, [c] + v);
      TrimRightEndsInWord(t);
      assert !AllSpace(v);
      SpaceThenSqueeze(c, v);
    }
  }

  lemma JoinEmpty(ws: seq<string>)
    requires AllWords(ws)
    ensures Join(" ", ws) == "" <==> ws == []
  {
    if |ws| > 1 {
      assert |Join(" ", ws)| >= |ws[0]|;
    }
  }

  lemma JoinCons(w: string, ws: seq<string>)
    ensures ws == [] ==> Join(" ", [w] + ws) == w
    ensures ws != [] ==> Join(" ", [w] + ws) == w + " " + Join(" ", ws)
  {
    assert ([w] + ws)[1..] == ws;
  }

  /** The step of `SplitFrom` that ends a word at a whitespace character. */
  lemma WordEndCollapse(c: char, t: string, cur: string)
    requires |cur| > 0 && NoSpace(cur) && IsSpace(c)
    requires Join(" ", SplitFrom(t, "")) == Collapse(t)
    ensures Join(" ", [cur] + SplitFrom(t, "")) == Collapse(cur + [c] + t)
  {
    var rest := SplitFrom(t, "");
    SplitFromYieldsWords(t, "");
    JoinEmpty(rest);
    CollapseEmpty(t);
    JoinCons(cur, rest);
    CollapseAfterWord(cur, c, t);
  }

  lemma EndCollapse(cur: string)
    requires NoSpace(cur)
    ensures Join(" ", SplitFrom("", cur)) == Collapse(cur + "")
  {
    assert cur + "" == cur;
    CollapseWord(cur);
  }

  lemma ConsTail(cur: string, s: string)
    requires |s| > 0
    ensures cur + [s[0]] + s[1..] == cur + s
    ensures "" + s == s && "" + s[1..] == s[1..]
  {
    assert s == [s[0]] + s[1..];
  }

  lemma LeadingSpaceCollapse(s: string)
    requires |s| > 0 && IsSpace(s[0])
    requires Join(" ", SplitFrom(s[1..], "")) == Collapse("" + s[1..])
    ensures Join(" ", SplitFrom(s, "")) == Collapse("" + s)
  {
    ConsTail("", s);
    assert SplitFrom(s, "") == [] + SplitFrom(s[1..], "") == SplitFrom(s[1..], "");
    CollapseSkipsSpace(s);
  }

  lemma WordCharCollapse(s: string, cur: string)
    requires |s| > 0 && !IsSpace(s[0])
    requires Join(" ", SplitFrom(s[1..], cur + [s[0]])) == Collapse(cur + [s[0]] + s[1..])
    ensures Join(" ", SplitFrom(s, cur)) == Collapse(cur + s)
  {
    ConsTail(cur, s);
    assert SplitFrom(s, cur) == SplitFrom(s[1..], cur + [s[0]]);
  }

  lemma SpaceAfterWordCollapse(s: string, cur: string)
    requires |s| > 0 && IsSpace(s[0]) && |cur| > 0 && NoSpace(cur)
    requires Join(" ", SplitFrom(s[1..], "")) == Collapse("" + s[1..])
    ensures Join(" ", SplitFrom(s, cur)) == Collapse(cur + s)
  {
    ConsTail(cur, s);
    assert SplitFrom(s, cur) == [cur] + SplitFrom(s[1..], "");
    WordEndCollapse(s[0], s[1..], cur);
  }

  lemma {:induction false} SplitFromCollapse(s: string, cur: string)
    requires NoSpace(cur)
    ensures Join(" ", SplitFrom(s, cur)) == Collapse(cur + s)
    decreases |s|
  {
    if |s| == 0 {
      assert s == "";
      EndCollapse(cur);
    } else if !IsSpace(s[0]) {
      SplitFromCollapse(s[1..], cur + [s[0]]);
      WordCharCollapse(s, cur);
    } else {
      SplitFromCollapse(s[1..], "");
      if cur == "" {
        LeadingSpaceCollapse(s);
      } else {
        SpaceAfterWordCollapse(s, cur);
      }
    }
  }

  /** `" ".join(s.split())` is `s` trimmed with every whitespace run collapsed. */
  lemma SplitCollapses(s: string)
    ensures Join(" ", Split(s)) == Collapse(s)
  {
    SplitFromCollapse(s, "");
    assert "" + s == s;
  }

  /** `s.split()` is the only list of words whose space-join is `Collapse(s)`. */
  lemma SplitDetermined(s: string, ws: seq<string>)
    requires AllWords(ws) && Join(" ", ws) == Collapse(s)
    ensures ws == Split(s)
  {
    SplitCollapses(s);
    SplitYieldsWords(s);
    SplitJoin(ws);
    SplitJoin(Split(s));
  }

  /** The decimal digit for `d`. */
  function Digit(d: nat): (c: char)
    requires d < 10
    ensures '0' <= c <= '9'
    ensures c as int - '0' as int == d
  {
    ('0' as int + d) as char
  }

  predicate IsDigits(s: string)
  {
    forall i :: 0 <= i < |s| ==> '0' <= s[i] <= '9'
  }

  /** `str(n)` for a non-negative integer: its decimal numeral, without leading zeros. */
  function Decimal(n: nat): (s: string)
    ensures |s| >= 1 && IsDigits(s)
    ensures n >= 10 ==> |s| >= 2
    ensures s[0] != '0' || n == 0
  {
    if n < 10 then [Digit(n)] else Decimal(n / 10) + [Digit(n % 10)]
  }

  /** Distinct numbers have distinct numerals. */
  lemma {:induction false} DecimalInjective(a: nat, b: nat)
    requires Decimal(a) == Decimal(b)
    ensures a == b
    decreases a
  {
    var s := Decimal(a);
    if a < 10 && b < 10 {
      assert Digit(a) == s[0] == Digit(b);
    } else if a >= 10 && b >= 10 {
      assert Digit(a % 10) == s[|s| - 1] == Digit(b % 10);
      assert Decimal(a / 10) == s[..|s| - 1] == Decimal(b / 10);
      DecimalInjective(a / 10, b / 10);
    }
  }
}
