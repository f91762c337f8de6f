/** The Python 2 byte-string operations the calibration parser relies on:
    str.strip(), str.split(sep), str.split() and str.startswith(). */
module Text {

  /** The six ASCII characters Python 2's str.strip() and str.split() treat as whitespace. */
  predicate IsSpace(c: char) {
    c == ' ' || c == '\t' || c == '\n' || c == '\r' || c == '\U{000B}' || c == '\U{000C}'
  }

  predicate AllSpace(s: string) {
    forall k :: 0 <= k < |s| ==> IsSpace(s[k])
  }

  predicate NoSpace(s: string) {
    forall k :: 0 <= k < |s| ==> !IsSpace(s[k])
  }

  /** A string that strip() leaves alone: empty, or not starting or ending with whitespace. */
  predicate Stripped(s: string) {
    s == [] || (!IsSpace(s[0]) && !IsSpace(s[|s| - 1]))
  }

  predicate StartsWith(s: string, prefix: string) {
    |prefix| <= |s| && s[..|prefix|] == prefix
  }

  // ---------------------------------------------------------------------------
  // str.strip()

  function StripLeft(s: string): (r: string)
    ensures |r| <= |s| && r == s[|s| - |r|..]
    ensures AllSpace(s[..|s| - |r|])
    ensures r == [] || !IsSpace(r[0])
    decreases |s|
  {
    if |s| > 0 && IsSpace(s[0]) then
      var r := StripLeft(s[1..]);
      assert s[..|s| - |r|] == [s[0]] + s[1..][..|s| - 1 - |r|];
      r
    else s
  }

  function StripRight(s: string): (r: string)
    ensures |r| <= |s| && r == s[..|r|]
    ensures AllSpace(s[|r|..])
    ensures r == [] || !IsSpace(r[|r| - 1])
    decreases |s|
  {
    if |s| > 0 && IsSpace(s[|s| - 1]) then
      var r := StripRight(s[..|s| - 1]);
      assert s[|r|..] == s[..|s| - 1][|r|..] + [s[|s| - 1]];
      r
    else s
  }

  /** Python's str.strip(): s without its leading and trailing whitespace. */
  function Strip(s: string): (r: string)
    ensures Stripped(r)
  {
    StripRight(StripLeft(s))
  }

  /** strip() only removes whitespace, and only from the two ends. */
  lemma StripInfix(s: string)
    ensures var r := Strip(s);
            exists i, j :: 0 <= i <= j <= |s| && r == s[i..j] && AllSpace(s[..i]) && AllSpace(s[j..])
  {
    var l := StripLeft(s);
    var r := StripRight(l);
    assert r == s[|s| - |l|..|s| - |l| + |r|];
    assert s[|s| - |l| + |r|..] == l[|r|..];
  }

  lemma {:induction false} StripLeftPadded(a: string, m: string)
    requires AllSpace(a)
    requires m == [] || !IsSpace(m[0])
    ensures StripLeft(a + m) == m
    decreases |a|
  {
    if a != [] {
      assert (a + m)[1..] == a[1..] + m;
      StripLeftPadded(a[1..], m);
    } else {
      assert a + m == m;
    }
  }

  lemma {:induction false} StripRightPadded(m: string, b: string)
    requires AllSpace(b)
    requires m == [] || !IsSpace(m[|m| - 1])
    ensures StripRight(m + b) == m
    decreases |b|
  {
    if b != [] {
      assert (m + b)[..|m + b| - 1] == m + b[..|b| - 1];
      StripRightPadded(m, b[..|b| - 1]);
    } else {
      assert m + b == m;
    }
  }

  /** strip() removes exactly the surrounding whitespace and nothing else. */
  lemma StripPadded(a: string, m: string, b: string)
    requires AllSpace(a) && AllSpace(b) && Stripped(m)
    ensures Strip(a + m + b) == m
  {
    if m == [] {
      assert a + m + b == a + b;
      StripLeftPadded(a + b, []);
      assert a + b + [] == a + b;
      StripRightPadded([], []);
    } else {
      assert a + m + b == a + (m + b);
      StripLeftPadded(a, m + b);
      StripRightPadded(m, b);
    }
  }

  /** strip() is idempotent. */
  lemma StripIdempotent(s: string)
    ensures Strip(Strip(s)) == Strip(s)
  {
    var m := Strip(s);
    assert [] + m + [] == m;
    StripPadded([], m, []);
  }

  // ---------------------------------------------------------------------------
  // str.split(sep) and its inverse sep.join(parts)

  /** sep.join(parts) */
  function Join(parts: seq<string>, sep: char): string
    decreases |parts|
  {
    if |parts| == 0 then ""
    else if |parts| == 1 then parts[0]
    else parts[0] + [sep] + Join(parts[1..], sep)
  }

  /** Python's str.split(sep) for a one-character separator. */
  function Split(s: string, sep: char): (r: seq<string>)
    ensures |r| >= 1
    ensures forall k :: 0 <= k < |r| ==> sep !in r[k]
    ensures Join(r, sep) == s
    decreases |s|
  {
    if |s| == 0 then [""]
    else
      var rest := Split(s[1..], sep);
      if s[0] == sep then
        assert ([""] + rest)[1..] == rest;
        [""] + rest
      else
        var r := [[s[0]] + rest[0]] + rest[1..];
        assert |rest| > 1 ==> r[1..] == rest[1..] && Join(rest, sep) == rest[0] + [sep] + Join(rest[1..], sep);
        r
  }

  lemma {:induction false} SplitNoSeparator(p: string, sep: char)
    requires sep !in p
    ensures Split(p, sep) == [p]
    decreases |p|
  {
    if p != [] {
      SplitNoSeparator(p[1..], sep);
    }
  }

  lemma {:induction false} SplitAfterPart(p: string, rest: string, sep: char)
    requires sep !in p
    ensures Split(p + [sep] + rest, sep) == [p] + Split(rest, sep)
    decreases |p|
  {
    var s := p + [sep] + rest;
    if p == [] {
      assert s[1..] == rest;
    } else {
      assert s[1..] == p[1..] + [sep] + rest;
      SplitAfterPart(p[1..], rest, sep);
      assert [p[0]] + p[1..] == p;
    }
  }

  /** Splitting the joined parts gives the parts back, when none holds the separator. */
  lemma {:induction false} SplitJoin(parts: seq<string>, sep: char)
    requires |parts| >= 1
    requires forall k :: 0 <= k < |parts| ==> sep !in parts[k]
    ensures Split(Join(parts, sep), sep) == parts
    decreases |parts|
  {
    if |parts| == 1 {
      SplitNoSeparator(parts[0], sep);
    } else {
      SplitJoin(parts[1..], sep);
      SplitAfterPart(parts[0], Join(parts[1..], sep), sep);
      assert [parts[0]] + parts[1..] == parts;
    }
  }

  // ---------------------------------------------------------------------------
  // str.split() with no separator

  /** The longest whitespace-free prefix of s. */
  function Word(s: string): (w: string)
    ensures |w| <= |s| && w == s[..|w|]
    ensures NoSpace(w)
    ensures |w| == |s| || IsSpace(s[|w|])
    decreases |s|
  {
    if |s| == 0 || IsSpace(s[0]) then [] else [s[0]] + Word(s[1..])
  }

  /** Python's str.split() with no argument: the maximal runs of non-whitespace. */
  function Tokens(s: string): seq<string>
    decreases |s|
  {
    if |s| == 0 then []
    else if IsSpace(s[0]) then Tokens(s[1..])
    else
      var w := Word(s);
      [w] + Tokens(s[|w|..])
  }

  /** Every token is a nonempty run of non-whitespace. */
  lemma {:induction false} TokensAreWords(s: string)
    ensures forall k :: 0 <= k < |Tokens(s)| ==> Tokens(s)[k] != [] && NoSpace(Tokens(s)[k])
    decreases |s|
  {
    if |s| > 0 {
      if IsSpace(s[0]) {
        TokensAreWords(s[1..]);
      } else {
        var w := Word(s);
        TokensAreWords(s[|w|..]);
        assert forall k :: 1 <= k < |Tokens(s)| ==> Tokens(s)[k] == Tokens(s[|w|..])[k - 1];
      }
    }
  }

  lemma {:induction false} TokensAfterSpace(a: string, s: string)
    requires AllSpace(a)
    ensures Tokens(a + s) == Tokens(s)
    decreases |a|
  {
    if a == [] {
      assert a + s == s;
    } else {
      assert (a + s)[1..] == a[1..] + s;
      TokensAfterSpace(a[1..], s);
    }
  }

  lemma {:induction false} WordOf(w: string, s: string)
    requires NoSpace(w)
    requires s == [] || IsSpace(s[0])
    ensures Word(w + s) == w
    decreases |w|
  {
    if w == [] {
      assert w + s == s;
    } else {
      assert (w + s)[1..] == w[1..] + s;
      WordOf(w[1..], s);
    }
  }

  lemma TokensAfterWord(w: string, s: string)
    requires w != [] && NoSpace(w)
    requires s == [] || IsSpace(s[0])
    ensures Tokens(w + s) == [w] + Tokens(s)
  {
    WordOf(w, s);
    assert (w + s)[|w|..] == s;
  }

  lemma ConcatAssoc<T>(a: seq<T>, b: seq<T>, c: seq<T>)
    ensures a + (b + c) == a + b + c
  {
  }

  lemma ConcatRight<T>(a: seq<T>, b: seq<T>, c: seq<T>, d: seq<T>)
    ensures a + b + c + d == a + (b + (c + d))
  {
  }

  /** A word followed by whitespace contributes exactly that word. */
  lemma TokensWordGap(w: string, gap: string, s: string)
    requires w != [] && NoSpace(w) && gap != [] && AllSpace(gap)
    ensures Tokens(w + (gap + s)) == [w] + Tokens(s)
  {
    assert IsSpace((gap + s)[0]);
    TokensAfterWord(w, gap + s);
    TokensAfterSpace(gap, s);
  }

  /** A word followed only by whitespace is the only token. */
  lemma TokensLastWord(w: string, tail: string)
    requires w != [] && NoSpace(w) && AllSpace(tail)
    ensures Tokens(w + tail) == [w]
  {
    assert tail == [] || IsSpace(tail[0]);
    TokensAfterWord(w, tail);
    assert tail + [] == tail;
    TokensAfterSpace(tail, []);
  }

  /** A line holding two whitespace-free tokens separated and followed by
      whitespace splits into exactly those two tokens. */
  lemma TokensOfPair(a: string, gap: string, b: string, tail: string)
    requires a != [] && NoSpace(a) && b != [] && NoSpace(b)
    requires gap != [] && AllSpace(gap) && AllSpace(tail)
    ensures Tokens(a + gap + b + tail) == [a, b]
  {
    var rest := gap + (b + tail);
    assert a + gap + b + tail == a + rest by {
      ConcatRight(a, gap, b, tail);
    }
    TokensWordGap(a, gap, b + tail);
    TokensLastWord(b, tail);
  }

  /** The words of toks, each followed by its gap of whitespace. */
  function Spread(toks: seq<string>, gaps: seq<string>): string
    requires |gaps| == |toks|
    decreases |toks|
  {
    if toks == [] then "" else toks[0] + gaps[0] + Spread(toks[1..], gaps[1..])
  }

  /** Leading whitespace, nonempty whitespace-free words, and one gap of
      whitespace after each word, where only the last gap may be empty. */
  predicate Spacing(lead: string, toks: seq<string>, gaps: seq<string>) {
    && AllSpace(lead) && |gaps| == |toks|
    && (forall k :: 0 <= k < |toks| ==> toks[k] != [] && NoSpace(toks[k]))
    && (forall k :: 0 <= k < |gaps| ==> AllSpace(gaps[k]))
    && (forall k :: 0 <= k < |gaps| - 1 ==> gaps[k] != [])
  }

  /** s is lead, then the words toks, each followed by its gap. */
  predicate Layout(s: string, lead: string, toks: seq<string>, gaps: seq<string>) {
    Spacing(lead, toks, gaps) && s == lead + Spread(toks, gaps)
  }

  lemma {:induction false} TokensSpread(toks: seq<string>, gaps: seq<string>)
    requires Spacing("", toks, gaps)
    ensures Tokens(Spread(toks, gaps)) == toks
    decreases |toks|
  {
    if toks != [] {
      var w, g := toks[0], gaps[0];
      var rest := Spread(toks[1..], gaps[1..]);
      assert Spread(toks, gaps) == w + (g + rest) by {
        ConcatRight(w, g, rest, "");
        assert rest + "" == rest;
      }
      assert Spacing("", toks[1..], gaps[1..]) by {
        forall k | 0 <= k < |toks| - 1
          ensures toks[1..][k] != [] && NoSpace(toks[1..][k]) && AllSpace(gaps[1..][k])
        {
          assert toks[1..][k] == toks[k + 1] && gaps[1..][k] == gaps[k + 1];
        }
        forall k | 0 <= k < |gaps| - 2 ensures gaps[1..][k] != [] {
          assert gaps[1..][k] == gaps[k + 1];
        }
      }
      TokensSpread(toks[1..], gaps[1..]);
      if |toks| > 1 {
        TokensWordGap(w, g, rest);
      } else {
        assert rest == "" && g + rest == g;
        TokensLastWord(w, g);
      }
      assert [w] + toks[1..] == toks;
    }
  }

  /** str.split() returns the words of any layout of s. */
  lemma TokensOfLayout(s: string, lead: string, toks: seq<string>, gaps: seq<string>)
    requires Layout(s, lead, toks, gaps)
    ensures Tokens(s) == toks
  {
    TokensSpread(toks, gaps);
    TokensAfterSpace(lead, Spread(toks, gaps));
  }

  /** Whitespace in front of a layout joins its lead. */
  lemma LayoutSpace(s: string, lead: string, toks: seq<string>, gaps: seq<string>)
    requires s != [] && IsSpace(s[0]) && Layout(s[1..], lead, toks, gaps)
    ensures Layout(s, [s[0]] + lead, toks, gaps)
  {
    var c := s[0];
    assert s == [c] + s[1..];
    assert [c] + (lead + Spread(toks, gaps)) == ([c] + lead) + Spread(toks, gaps);
    forall k | 0 <= k < |[c] + lead| ensures IsSpace(([c] + lead)[k]) {
      if k > 0 { assert ([c] + lead)[k] == lead[k - 1]; }
    }
  }

  /** A word in front of a layout whose text starts with whitespace becomes
      its first word, and the old lead becomes that word's gap. */
  lemma LayoutWord(w: string, rest: string, lead: string, toks: seq<string>, gaps: seq<string>)
    requires w != [] && NoSpace(w) && (rest == [] || IsSpace(rest[0]))
    requires Layout(rest, lead, toks, gaps)
    ensures Layout(w + rest, "", [w] + toks, [lead] + gaps)
  {
    var toks', gaps' := [w] + toks, [lead] + gaps;
    assert toks'[1..] == toks && gaps'[1..] == gaps;
    assert Spread(toks', gaps') == w + lead + Spread(toks, gaps);
    assert w + rest == "" + Spread(toks', gaps');
    if toks != [] {
      var sp := Spread(toks, gaps);
      assert sp == toks[0] + (gaps[0] + Spread(toks[1..], gaps[1..]));
      assert !IsSpace(sp[0]);
    }
    forall k | 0 <= k < |toks'| ensures toks'[k] != [] && NoSpace(toks'[k]) && AllSpace(gaps'[k]) {
      if k > 0 { assert toks'[k] == toks[k - 1] && gaps'[k] == gaps[k - 1]; }
    }
    forall k | 0 <= k < |gaps'| - 1 ensures gaps'[k] != [] {
      if k > 0 { assert gaps'[k] == gaps[k - 1]; }
    }
  }

  /** A layout of s[1..] extends to s when s starts with whitespace. */
  lemma TokensLayoutSpace(s: string)
    requires s != [] && IsSpace(s[0])
    requires exists lead, gaps :: Layout(s[1..], lead, Tokens(s[1..]), gaps)
    ensures exists lead, gaps :: Layout(s, lead, Tokens(s), gaps)
  {
    var lead, gaps :| Layout(s[1..], lead, Tokens(s[1..]), gaps);
    assert Tokens(s) == Tokens(s[1..]);
    LayoutSpace(s, lead, Tokens(s), gaps);
  }

  /** A layout of what follows the first word extends to s. */
  lemma TokensLayoutWord(s: string)
    requires s != [] && !IsSpace(s[0])
    requires exists lead, gaps :: Layout(s[|Word(s)|..], lead, Tokens(s[|Word(s)|..]), gaps)
    ensures exists lead, gaps :: Layout(s, lead, Tokens(s), gaps)
  {
    var w := Word(s);
    var rest := s[|w|..];
    var lead, gaps :| Layout(rest, lead, Tokens(rest), gaps);
    LayoutWord(w, rest, lead, Tokens(rest), gaps);
    assert w + rest == s;
    assert Tokens(s) == [w] + Tokens(rest);
    assert Layout(s, "", Tokens(s), [lead] + gaps);
  }

  /** Every string has a layout whose words are what str.split() returns. */
  lemma {:induction false} TokensLayout(s: string)
    ensures exists lead, gaps :: Layout(s, lead, Tokens(s), gaps)
    decreases |s|
  {
    if s == [] {
      assert Tokens(s) == [] && s == "" + Spread([], []);
      assert Layout(s, "", Tokens(s), []);
    } else if IsSpace(s[0]) {
      TokensLayout(s[1..]);
      TokensLayoutSpace(s);
    } else {
      TokensLayout(s[|Word(s)|..]);
      TokensLayoutWord(s);
    }
  }

  /** str.split() returns toks exactly when s is laid out as whitespace,
      then the words toks separated by whitespace, then whitespace. */
  lemma TokensIff(s: string, toks: seq<string>)
    ensures Tokens(s) == toks <==> exists lead, gaps :: Layout(s, lead, toks, gaps)
  {
    TokensLayout(s);
    if exists lead, gaps :: Layout(s, lead, toks, gaps) {
      var lead, gaps :| Layout(s, lead, toks, gaps);
      TokensOfLayout(s, lead, toks, gaps);
    }
  }

  /** str.split() of a line is empty exactly when the line is all whitespace. */
  lemma {:induction false} TokensEmpty(s: string)
    ensures Tokens(s) == [] <==> AllSpace(s)
    decreases |s|
  {
    if s != [] {
      if IsSpace(s[0]) {
        TokensEmpty(s[1..]);
        assert AllSpace(s) <==> AllSpace(s[1..]) by {
          if AllSpace(s[1..]) {
            forall k | 0 <= k < |s| ensures IsSpace(s[k]) {
              if k > 0 { assert s[k] == s[1..][k - 1]; }
            }
          }
        }
      }
    }
  }

  /** ''.join(words) */
  function Concat(ws: seq<string>): string
    decreases |ws|
  {
    if ws == [] then "" else ws[0] + Concat(ws[1..])
  }

  /** s with every whitespace character removed. */
  function NonSpace(s: string): string
    decreases |s|
  {
    if s == [] then "" else (if IsSpace(s[0]) then "" else [s[0]]) + NonSpace(s[1..])
  }

  lemma {:induction false} NonSpaceWord(s: string, n: nat)
    requires n <= |s| && NoSpace(s[..n])
    ensures NonSpace(s) == s[..n] + NonSpace(s[n..])
    decreases n
  {
    if n > 0 {
      assert !IsSpace(s[..n][0]);
      var t := s[1..][..n - 1];
      assert NoSpace(t) by {
        forall k | 0 <= k < |t| ensures !IsSpace(t[k]) {
          assert t[k] == s[..n][k + 1];
        }
      }
      NonSpaceWord(s[1..], n - 1);
      assert s[1..][n - 1..] == s[n..];
      assert s[..n] == [s[0]] + s[1..][..n - 1];
    } else {
      assert s[..0] + NonSpace(s[0..]) == NonSpace(s);
    }
  }

  /** The tokens, joined without separators, are the line with its whitespace removed. */
  lemma {:induction false} TokensCover(s: string)
    ensures Concat(Tokens(s)) == NonSpace(s)
    decreases |s|
  {
    if s != [] {
      if IsSpace(s[0]) {
        TokensCover(s[1..]);
      } else {
        var w := Word(s);
        TokensCover(s[|w|..]);
        NonSpaceWord(s, |w|);
        assert ([w] + Tokens(s[|w|..]))[1..] == Tokens(s[|w|..]);
      }
    }
  }
}
