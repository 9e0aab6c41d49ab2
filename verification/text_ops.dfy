/**
 * The Python string operations the service is built from, as functions on
 * `string`: `str.isspace`, `str.strip`, `str.split()` (on whitespace),
 * `str.split(c)`, `sep.join`, `re.sub(r'\s+', ' ', s)`, `re.split(r'[.!?]+', s)`,
 * `str.lower` and the `in` substring test, with the facts about them that the
 * rest of the model needs.
 */
module TextOps {

  // ---------------------------------------------------------------------------
  // Characters
  // ---------------------------------------------------------------------------

  /** The characters for which Python's `str.isspace()` holds (and which `\s` matches). */
  predicate IsSpace(c: char) {
    c == ' ' || ('\t' <= c <= '\r') || ('\U{1c}' <= c <= '\U{1f}')
    || c == '\U{85}' || c == '\U{a0}' || c == '\U{1680}'
    || ('\U{2000}' <= c <= '\U{200a}') || c == '\U{2028}' || c == '\U{2029}'
    || c == '\U{202f}' || c == '\U{205f}' || c == '\U{3000}'
  }

  predicate AllSpace(s: string) {
    forall i :: 0 <= i < |s| ==> IsSpace(s[i])
  }

  predicate NoSpace(s: string) {
    forall i :: 0 <= i < |s| ==> !IsSpace(s[i])
  }

  /** A word as `str.split()` yields it: non-empty and free of whitespace. */
  predicate IsWord(w: string) {
    w != [] && NoSpace(w)
  }

  /** No whitespace at either end. */
  predicate Trimmed(s: string) {
    s == [] || (!IsSpace(s[0]) && !IsSpace(s[|s| - 1]))
  }

  /** Every whitespace character is a plain space, and no two whitespace characters are adjacent. */
  predicate SingleSpaced(s: string) {
    && (forall i :: 0 <= i < |s| && IsSpace(s[i]) ==> s[i] == ' ')
    && (forall i, j :: 0 <= i < |s| && j == i + 1 && j < |s| ==> !IsSpace(s[i]) || !IsSpace(s[j]))
  }

  /** The normal form of whitespace: trimmed and single-spaced. */
  predicate Normal(s: string) {
    Trimmed(s) && SingleSpaced(s)
  }

  // ---------------------------------------------------------------------------
  // str.strip()
  // ---------------------------------------------------------------------------

  function StripLeft(s: string): string
    decreases |s|
  {
    if s != [] && IsSpace(s[0]) then StripLeft(s[1..]) else s
  }

  /** `StripLeft` drops a whitespace prefix and leaves a suffix that does not start with whitespace. */
  lemma {:induction false} StripLeftSpec(s: string)
    ensures |StripLeft(s)| <= |s| && StripLeft(s) == s[|s| - |StripLeft(s)|..]
    ensures StripLeft(s) != [] ==> !IsSpace(StripLeft(s)[0])
    ensures AllSpace(s[..|s| - |StripLeft(s)|])
    decreases |s|
  {
    if s != [] && IsSpace(s[0]) {
      StripLeftSpec(s[1..]);
      var n := |s| - |StripLeft(s)|;
      forall i | 0 <= i < n ensures IsSpace(s[i]) {
        if i > 0 {
          assert s[i] == s[1..][..n - 1][i - 1];
        }
      }
    } else {
      assert s[..0] == [];
    }
  }

  function StripRight(s: string): string
    decreases |s|
  {
    if s != [] && IsSpace(s[|s| - 1]) then StripRight(s[..|s| - 1]) else s
  }

  /** `StripRight` drops a whitespace suffix and leaves a prefix that does not end with whitespace. */
  lemma {:induction false} StripRightSpec(s: string)
    ensures |StripRight(s)| <= |s| && StripRight(s) == s[..|StripRight(s)|]
    ensures StripRight(s) != [] ==> !IsSpace(StripRight(s)[|StripRight(s)| - 1])
    ensures AllSpace(s[|StripRight(s)|..])
    decreases |s|
  {
    if s != [] && IsSpace(s[|s| - 1]) {
      var t := s[..|s| - 1];
      StripRightSpec(t);
      var n := |StripRight(s)|;
      forall i | n <= i < |s| ensures IsSpace(s[i]) {
        if i < |s| - 1 {
          assert s[i] == t[n..][i - n];
        }
      }
      assert s[..n] == t[..n];
    } else {
      assert s[|s|..] == [];
      assert s[..|s|] == s;
    }
  }

  /** Python's `s.strip()`: whitespace removed from both ends. */
  function Strip(s: string): (r: string)
    ensures Trimmed(r)
    ensures r == [] <==> AllSpace(s)
  {
    var l := StripLeft(s);
    var r := StripRight(l);
    StripLeftSpec(s);
    StripRightSpec(l);
    assert r != [] ==> r[0] == l[0];
    assert l == [] ==> s[..|s| - |l|] == s;
    assert l != [] ==> s[|s| - |l|] == l[0] && !IsSpace(s[|s| - |l|]);
    r
  }

  /** `Strip(s)` is the slice of `s` left after dropping whitespace at both ends. */
  lemma StripSlice(s: string) returns (k: nat)
    ensures k + |Strip(s)| <= |s| && Strip(s) == s[k..k + |Strip(s)|]
    ensures AllSpace(s[..k]) && AllSpace(s[k + |Strip(s)|..])
  {
    var l := StripLeft(s);
    var r := StripRight(l);
    StripLeftSpec(s);
    StripRightSpec(l);
    k := |s| - |l|;
    assert r == s[k..k + |r|];
    forall i | k + |r| <= i < |s| ensures IsSpace(s[i]) {
      assert s[i] == l[|r|..][i - k - |r|];
    }
  }

  /** Stripping text that is already trimmed changes nothing. */
  lemma StripTrimmed(s: string)
    requires Trimmed(s)
    ensures Strip(s) == s
  {
  }

  /** Leading whitespace in front of trimmed text is exactly what `Strip` removes. */
  lemma {:induction false} StripPadded(pad: string, x: string)
    requires AllSpace(pad) && Trimmed(x) && x != []
    ensures Strip(pad + x) == x
    decreases |pad|
  {
    if pad == [] {
      assert pad + x == x;
    } else {
      assert (pad + x)[1..] == pad[1..] + x;
      StripPadded(pad[1..], x);
    }
  }

  /** Properties about every character survive taking a slice. */
  lemma SingleSpacedSlice(s: string, i: nat, j: nat)
    requires i <= j <= |s| && SingleSpaced(s)
    ensures SingleSpaced(s[i..j])
  {
    var t := s[i..j];
    forall k, l | 0 <= k && l == k + 1 && l < |t| ensures !IsSpace(t[k]) || !IsSpace(t[l]) {
      assert t[k] == s[i + k] && t[l] == s[i + l];
    }
  }

  // ---------------------------------------------------------------------------
  // str.split() on whitespace
  // ---------------------------------------------------------------------------

  /** Length of the run of non-whitespace characters that `s` starts with. */
  function WordLen(s: string): (n: nat)
    ensures n <= |s|
    ensures NoSpace(s[..n])
    ensures n < |s| ==> IsSpace(s[n])
    decreases |s|
  {
    if s == [] || IsSpace(s[0]) then 0
    else
      var n := 1 + WordLen(s[1..]);
      assert s[..n] == [s[0]] + s[1..][..n - 1];
      n
  }

  /** Length of the run of whitespace characters that `s` starts with. */
  function SpaceLen(s: string): (n: nat)
    ensures n <= |s|
    ensures AllSpace(s[..n])
    ensures n < |s| ==> !IsSpace(s[n])
    decreases |s|
  {
    if s == [] || !IsSpace(s[0]) then 0
    else
      var n := 1 + SpaceLen(s[1..]);
      assert s[..n] == [s[0]] + s[1..][..n - 1];
      n
  }

  /** Python's `s.split()`: the maximal runs of non-whitespace characters, in order. */
  function Words(s: string): seq<string>
    decreases |s|
  {
    if s == [] then []
    else if IsSpace(s[0]) then Words(s[1..])
    else
      var n := WordLen(s);
      [s[..n]] + Words(s[n..])
  }

  /** Every element of `s.split()` is a word. */
  lemma {:induction false} WordsAreWords(s: string)
    ensures forall k :: 0 <= k < |Words(s)| ==> IsWord(Words(s)[k])
    decreases |s|
  {
    if s != [] {
      if IsSpace(s[0]) {
        WordsAreWords(s[1..]);
      } else {
        var n := WordLen(s);
        WordsAreWords(s[n..]);
        assert Words(s) == [s[..n]] + Words(s[n..]);
      }
    }
  }

  /** The number of words `len(s.split())`. */
  function WordCount(s: string): nat {
    |Words(s)|
  }

  /** Whitespace has no words. */
  lemma {:induction false} WordsOfSpace(s: string)
    requires AllSpace(s)
    ensures Words(s) == []
    decreases |s|
  {
    if s != [] {
      WordsOfSpace(s[1..]);
    }
  }

  /** A word splits into itself. */
  lemma WordsOfWord(w: string)
    requires IsWord(w)
    ensures Words(w) == [w]
  {
    assert WordLen(w) == |w|;
    assert w[..|w|] == w;
  }

  /** The leading non-whitespace run is unaffected by what follows a whitespace boundary. */
  lemma {:induction false} WordLenAppend(a: string, b: string)
    requires WordLen(a) < |a| || b == [] || IsSpace(b[0])
    ensures WordLen(a + b) == WordLen(a)
    decreases |a|
  {
    if a != [] && !IsSpace(a[0]) {
      assert (a + b)[1..] == a[1..] + b;
      WordLenAppend(a[1..], b);
    }
  }

  /** Words split at a whitespace boundary are the words of the two sides. */
  lemma {:induction false} WordsAppend(a: string, b: string)
    requires a == [] || b == [] || IsSpace(a[|a| - 1]) || IsSpace(b[0])
    ensures Words(a + b) == Words(a) + Words(b)
    decreases |a|, 1
  {
    if a == [] {
      assert a + b == b;
    } else if IsSpace(a[0]) {
      var ab := a + b;
      assert ab[0] == a[0];
      assert ab[1..] == a[1..] + b;
      assert Words(ab) == Words(ab[1..]);
      WordsAppend(a[1..], b);
    } else {
      WordsAppendAfterWord(a, b);
    }
  }

  /** The case of `WordsAppend` where `a` starts with a word. */
  lemma {:induction false} WordsAppendAfterWord(a: string, b: string)
    requires a != [] && !IsSpace(a[0])
    requires b == [] || IsSpace(a[|a| - 1]) || IsSpace(b[0])
    ensures Words(a + b) == Words(a) + Words(b)
    decreases |a|, 0
  {
    var n := WordLen(a);
    var ab := a + b;
    assert n == |a| ==> a[..n][|a| - 1] == a[|a| - 1];
    WordLenAppend(a, b);
    assert ab[0] == a[0];
    assert ab[..n] == a[..n];
    assert ab[n..] == a[n..] + b;
    assert Words(ab) == [ab[..n]] + Words(ab[n..]);
    assert Words(a) == [a[..n]] + Words(a[n..]);
    WordsAppend(a[n..], b);
  }

  /** Leading whitespace does not change the words. */
  lemma WordsDropSpace(s: string, k: nat)
    requires k <= |s| && AllSpace(s[..k])
    ensures Words(s) == Words(s[k..])
  {
    assert s == s[..k] + s[k..];
    WordsAppend(s[..k], s[k..]);
    WordsOfSpace(s[..k]);
  }

  /** Stripping does not change the words. */
  lemma WordsStrip(s: string)
    ensures Words(Strip(s)) == Words(s)
  {
    var k := StripSlice(s);
    var r := Strip(s);
    var pre, post := s[..k], s[k + |r|..];
    assert s == pre + (r + post);
    WordsPadded(pre, r, post);
  }

  /** Whitespace around a text adds no words. */
  lemma WordsPadded(pre: string, r: string, post: string)
    requires AllSpace(pre) && AllSpace(post)
    ensures Words(pre + (r + post)) == Words(r)
  {
    assert Words(r + post) == Words(r) by {
      WordsAppend(r, post);
      WordsOfSpace(post);
    }
    WordsAppend(pre, r + post);
    WordsOfSpace(pre);
  }

  // ---------------------------------------------------------------------------
  // sep.join(parts)
  // ---------------------------------------------------------------------------

  /** Python's `sep.join(parts)`. */
  function Join(sep: string, parts: seq<string>): string
    decreases |parts|
  {
    if |parts| == 0 then ""
    else if |parts| == 1 then parts[0]
    else parts[0] + sep + Join(sep, parts[1..])
  }

  /** Joining one more part at the end. */
  lemma {:induction false} JoinSnoc(sep: string, parts: seq<string>, last: string)
    requires parts != []
    ensures Join(sep, parts + [last]) == Join(sep, parts) + sep + last
    decreases |parts|
  {
    if |parts| == 1 {
      assert parts + [last] == [parts[0], last];
      assert [parts[0], last][1..] == [last];
    } else {
      assert (parts + [last])[1..] == parts[1..] + [last];
      JoinSnoc(sep, parts[1..], last);
    }
  }

  /** The words of each part, one after the other. */
  function ConcatWords(parts: seq<string>): seq<string>
    decreases |parts|
  {
    if parts == [] then [] else Words(parts[0]) + ConcatWords(parts[1..])
  }

  lemma {:induction false} ConcatWordsAppend(a: seq<string>, b: seq<string>)
    ensures ConcatWords(a + b) == ConcatWords(a) + ConcatWords(b)
    decreases |a|
  {
    if a != [] {
      assert (a + b)[0] == a[0];
      assert (a + b)[1..] == a[1..] + b;
      ConcatWordsAppend(a[1..], b);
    } else {
      assert a + b == b;
    }
  }

  /** Joining with whitespace keeps the parts' words apart and in order. */
  lemma {:induction false} WordsJoin(sep: string, parts: seq<string>)
    requires sep != [] && AllSpace(sep)
    ensures Words(Join(sep, parts)) == ConcatWords(parts)
    decreases |parts|
  {
    if |parts| == 1 {
      assert ConcatWords(parts[1..]) == [];
    } else if |parts| > 1 {
      var rest := Join(sep, parts[1..]);
      assert parts[0] + sep + rest == parts[0] + (sep + rest);
      WordsAppend(parts[0], sep + rest);
      WordsAppend(sep, rest);
      WordsOfSpace(sep);
      WordsJoin(sep, parts[1..]);
    }
  }

  /** A list of words is its own word list. */
  lemma {:induction false} ConcatWordsOfWords(ws: seq<string>)
    requires forall k :: 0 <= k < |ws| ==> IsWord(ws[k])
    ensures ConcatWords(ws) == ws
    decreases |ws|
  {
    if ws != [] {
      WordsOfWord(ws[0]);
      ConcatWordsOfWords(ws[1..]);
    }
  }

  /** Words joined by single spaces are in whitespace normal form. */
  lemma {:induction false} NormalJoin(ws: seq<string>)
    requires forall k :: 0 <= k < |ws| ==> IsWord(ws[k])
    ensures Normal(Join(" ", ws))
    ensures ws != [] ==> Join(" ", ws) != [] && Join(" ", ws)[0] == ws[0][0]
    decreases |ws|
  {
    if |ws| > 1 {
      NormalJoin(ws[1..]);
      var w, rest := ws[0], Join(" ", ws[1..]);
      var s := w + " " + rest;
      forall i | 0 <= i < |s| && IsSpace(s[i]) ensures s[i] == ' ' {
        if i > |w| { assert s[i] == rest[i - |w| - 1]; }
      }
      forall i, j | 0 <= i && j == i + 1 && j < |s| ensures !IsSpace(s[i]) || !IsSpace(s[j]) {
        if i > |w| { assert s[i] == rest[i - |w| - 1] && s[j] == rest[j - |w| - 1]; }
      }
      assert s[|s| - 1] == rest[|rest| - 1];
    }
  }

  /** Text in whitespace normal form is its words joined by single spaces. */
  lemma {:induction false} NormalIsJoinOfWords(s: string)
    requires Normal(s)
    ensures Join(" ", Words(s)) == s
    decreases |s|
  {
    if s != [] {
      var n := WordLen(s);
      if n == |s| {
        assert s[..n] == s;
        assert Words(s) == [s];
      } else {
        NormalHead(s);
        var t := s[n + 1..];
        NormalIsJoinOfWords(t);
        JoinCons(" ", s[..n], Words(t));
      }
    }
  }

  /** Normal text with a space in it: its first word, one space, and normal text starting with a word. */
  lemma NormalHead(s: string)
    requires Normal(s) && s != [] && WordLen(s) < |s|
    ensures var n := WordLen(s);
            && n + 1 < |s|
            && s == s[..n] + " " + s[n + 1..]
            && Normal(s[n + 1..]) && s[n + 1..] != []
            && Words(s) == [s[..n]] + Words(s[n + 1..])
  {
    NormalAfterSpace(s, WordLen(s));
    WordsHead(s);
  }

  /** After a space inside normal text comes normal, non-empty text. */
  lemma NormalAfterSpace(s: string, n: nat)
    requires Normal(s) && 0 < n < |s| && IsSpace(s[n])
    ensures n + 1 < |s| && s == s[..n] + " " + s[n + 1..]
    ensures Normal(s[n + 1..]) && s[n + 1..] != []
  {
    var t := s[n + 1..];
    SingleSpacedSlice(s, n + 1, |s|);
    assert t[0] == s[n + 1];
    assert t[|t| - 1] == s[|s| - 1];
    assert s == s[..n] + [s[n]] + t;
  }

  /** Text that starts with a word followed by whitespace: that word, then the words after the whitespace. */
  lemma WordsHead(s: string)
    requires s != [] && !IsSpace(s[0]) && WordLen(s) < |s|
    ensures Words(s) == [s[..WordLen(s)]] + Words(s[WordLen(s) + 1..])
  {
    var n := WordLen(s);
    assert IsWord(s[..n]) by { assert s[0] == s[..n][0]; }
    WordsOfWord(s[..n]);
    WordsAtSpace(s, n);
  }

  /** Joining two or more parts: the first, the separator, then the rest joined. */
  lemma JoinCons(sep: string, head: string, tail: seq<string>)
    requires tail != []
    ensures Join(sep, [head] + tail) == head + sep + Join(sep, tail)
  {
    assert ([head] + tail)[1..] == tail;
  }

  // ---------------------------------------------------------------------------
  // re.sub(r'\s+', ' ', s)
  // ---------------------------------------------------------------------------

  /** Python's `re.sub(r'\s+', ' ', s)`: every maximal whitespace run becomes one space. */
  function Collapse(s: string): (r: string)
    ensures r == [] <==> s == []
    ensures r != [] ==> (IsSpace(r[0]) <==> IsSpace(s[0]))
    decreases |s|
  {
    if s == [] then []
    else if IsSpace(s[0]) then " " + Collapse(s[SpaceLen(s)..])
    else s[..WordLen(s)] + Collapse(s[WordLen(s)..])
  }

  /** Collapsing whitespace leaves single spaces only. */
  lemma {:induction false} CollapseSingleSpaced(s: string)
    ensures SingleSpaced(Collapse(s))
    decreases |s|
  {
    if s != [] {
      if IsSpace(s[0]) {
        var rest := s[SpaceLen(s)..];
        CollapseSingleSpaced(rest);
        var c := Collapse(rest);
        var r := " " + c;
        forall i | 0 <= i < |r| && IsSpace(r[i]) ensures r[i] == ' ' {
          if i > 0 { assert r[i] == c[i - 1]; }
        }
        forall i, j | 0 <= i && j == i + 1 && j < |r| ensures !IsSpace(r[i]) || !IsSpace(r[j]) {
          assert r[j] == c[j - 1];
          if i > 0 { assert r[i] == c[i - 1]; }
        }
      } else {
        var n := WordLen(s);
        var rest := s[n..];
        CollapseSingleSpaced(rest);
        var c := Collapse(rest);
        var w := s[..n];
        var r := w + c;
        forall i | 0 <= i < |r| ensures IsSpace(r[i]) ==> r[i] == ' ' {
          if i >= n { assert r[i] == c[i - n]; } else { assert r[i] == w[i]; }
        }
        forall i, j | 0 <= i && j == i + 1 && j < |r| ensures !IsSpace(r[i]) || !IsSpace(r[j]) {
          if i >= n { assert r[i] == c[i - n] && r[j] == c[j - n]; }
          else { assert r[i] == w[i]; }
        }
      }
    }
  }

  /** The leading word and what follows it split the words. */
  lemma WordsSplitAtWord(s: string)
    ensures Words(s) == Words(s[..WordLen(s)]) + Words(s[WordLen(s)..])
  {
    var n := WordLen(s);
    assert s == s[..n] + s[n..];
    WordsAppend(s[..n], s[n..]);
  }

  /** A leading space does not change the words. */
  lemma WordsAfterSpace(s: string)
    ensures Words(" " + s) == Words(s)
  {
    assert (" " + s)[1..] == s;
  }

  /** Collapsing whitespace does not change the words. */
  lemma {:induction false} WordsCollapse(s: string)
    ensures Words(Collapse(s)) == Words(s)
    decreases |s|
  {
    if s != [] {
      if IsSpace(s[0]) {
        var k := SpaceLen(s);
        WordsCollapse(s[k..]);
        WordsAfterSpace(Collapse(s[k..]));
        WordsDropSpace(s, k);
      } else {
        var n := WordLen(s);
        WordsCollapse(s[n..]);
        WordsAppend(s[..n], Collapse(s[n..]));
        WordsSplitAtWord(s);
      }
    }
  }

  // ---------------------------------------------------------------------------
  // str.split(c) for one character
  // ---------------------------------------------------------------------------

  /** Index of the first `c` in `s`, or `|s|` when there is none. */
  function IndexOf(s: string, c: char): (i: nat)
    ensures i <= |s|
    ensures i < |s| ==> s[i] == c
    decreases |s|
  {
    if s == [] then 0 else if s[0] == c then 0 else 1 + IndexOf(s[1..], c)
  }

  /** No `c` occurs before `IndexOf(s, c)`. */
  lemma {:induction false} IndexOfIsFirst(s: string, c: char, j: nat)
    requires j < IndexOf(s, c)
    ensures s[j] != c
    decreases |s|
  {
    if j > 0 {
      IndexOfIsFirst(s[1..], c, j - 1);
    }
  }

  /** Python's `s.split(c)` for a single-character separator. */
  function SplitOn(s: string, c: char): (parts: seq<string>)
    ensures |parts| >= 1
    decreases |s|
  {
    var i := IndexOf(s, c);
    if i == |s| then [s] else [s[..i]] + SplitOn(s[i + 1..], c)
  }

  /** Splitting on a whitespace character keeps every word. */
  lemma {:induction false} WordsSplitOn(s: string, c: char)
    requires IsSpace(c)
    ensures ConcatWords(SplitOn(s, c)) == Words(s)
    decreases |s|
  {
    var i := IndexOf(s, c);
    if i == |s| {
      assert SplitOn(s, c) == [s];
      ConcatWordsOne(s);
    } else {
      var head, rest := s[..i], s[i + 1..];
      assert SplitOn(s, c) == [head] + SplitOn(rest, c);
      WordsSplitOn(rest, c);
      ConcatWordsCons(head, SplitOn(rest, c));
      WordsAtSpace(s, i);
    }
  }

  lemma ConcatWordsOne(part: string)
    ensures ConcatWords([part]) == Words(part)
  {
    assert ConcatWords([part]) == Words(part) + ConcatWords([]);
  }

  /** A whitespace character separates the words on its two sides. */
  lemma WordsAtSpace(s: string, i: nat)
    requires i < |s| && IsSpace(s[i])
    ensures Words(s) == Words(s[..i]) + Words(s[i + 1..])
  {
    assert s == s[..i] + ([s[i]] + s[i + 1..]);
    WordsAroundSpace(s[..i], s[i], s[i + 1..]);
  }

  /** Two texts with a whitespace character between them: the words of the first, then of the second. */
  lemma WordsAroundSpace(a: string, c: char, b: string)
    requires IsSpace(c)
    ensures Words(a + ([c] + b)) == Words(a) + Words(b)
  {
    WordsAppend(a, [c] + b);
    WordsAppend([c], b);
    WordsOfSpace([c]);
  }

  /** The words of one more part in front. */
  lemma ConcatWordsCons(head: string, tail: seq<string>)
    ensures ConcatWords([head] + tail) == Words(head) + ConcatWords(tail)
  {
    assert ([head] + tail)[1..] == tail;
  }

  // ---------------------------------------------------------------------------
  // [p.strip() for p in parts if p.strip()]
  // ---------------------------------------------------------------------------

  function KeepIfNonBlank(p: string): seq<string> {
    if Strip(p) != "" then [Strip(p)] else []
  }

  /** `[p.strip() for p in parts if p.strip()]`. */
  function NonBlank(parts: seq<string>): seq<string>
    decreases |parts|
  {
    if parts == [] then [] else NonBlank(parts[..|parts| - 1]) + KeepIfNonBlank(parts[|parts| - 1])
  }

  lemma {:induction false} NonBlankAppend(a: seq<string>, b: seq<string>)
    ensures NonBlank(a + b) == NonBlank(a) + NonBlank(b)
    decreases |b|
  {
    if b == [] {
      assert a + b == a;
    } else {
      var init, last := b[..|b| - 1], b[|b| - 1];
      assert a + b == (a + init) + [last];
      assert (a + b)[..|a + b| - 1] == a + init;
      assert (a + b)[|a + b| - 1] == last;
      NonBlankAppend(a, init);
      assert NonBlank(a + b) == NonBlank(a + init) + KeepIfNonBlank(last);
      assert NonBlank(b) == NonBlank(init) + KeepIfNonBlank(last);
    }
  }

  /** Dropping blank parts and stripping the rest keeps every word. */
  lemma {:induction false} ConcatWordsNonBlank(parts: seq<string>)
    ensures ConcatWords(NonBlank(parts)) == ConcatWords(parts)
    decreases |parts|
  {
    if parts != [] {
      var init, last := parts[..|parts| - 1], parts[|parts| - 1];
      ConcatWordsNonBlank(init);
      ConcatWordsAppend(NonBlank(init), KeepIfNonBlank(last));
      ConcatWordsSnoc(parts);
      ConcatWordsKeep(last);
    }
  }

  /** The words of the parts: those of all but the last, then those of the last. */
  lemma ConcatWordsSnoc(parts: seq<string>)
    requires parts != []
    ensures ConcatWords(parts) == ConcatWords(parts[..|parts| - 1]) + Words(parts[|parts| - 1])
  {
    var init, last := parts[..|parts| - 1], parts[|parts| - 1];
    assert parts == init + [last];
    ConcatWordsAppend(init, [last]);
    assert ConcatWords([last]) == Words(last) + ConcatWords([]);
  }

  /** Keeping a part only when it is not blank, stripped, keeps its words. */
  lemma ConcatWordsKeep(p: string)
    ensures ConcatWords(KeepIfNonBlank(p)) == Words(p)
  {
    WordsStrip(p);
    if Strip(p) != "" {
      assert ConcatWords([Strip(p)]) == Words(Strip(p)) + ConcatWords([]);
    }
  }

  // ---------------------------------------------------------------------------
  // re.split(r'[.!?]+', s)
  // ---------------------------------------------------------------------------

  predicate IsTerminator(c: char) {
    c == '.' || c == '!' || c == '?'
  }

  predicate NoTerminator(s: string) {
    forall i :: 0 <= i < |s| ==> !IsTerminator(s[i])
  }

  /** Index of the first sentence terminator in `s`, or `|s|` when there is none. */
  function TerminatorIndex(s: string): (i: nat)
    ensures i <= |s|
    ensures NoTerminator(s[..i])
    ensures i < |s| ==> IsTerminator(s[i])
    decreases |s|
  {
    if s == [] || IsTerminator(s[0]) then 0
    else
      var i := 1 + TerminatorIndex(s[1..]);
      assert s[..i] == [s[0]] + s[1..][..i - 1];
      i
  }

  /** Length of the run of terminators that `s` starts with. */
  function TerminatorRun(s: string): (n: nat)
    ensures n <= |s|
    ensures s != [] && IsTerminator(s[0]) ==> n >= 1
    ensures n < |s| ==> !IsTerminator(s[n])
    decreases |s|
  {
    if s == [] || !IsTerminator(s[0]) then 0 else 1 + TerminatorRun(s[1..])
  }

  /** Python's `re.split(r'[.!?]+', s)`: the text between maximal runs of `.`, `!` and `?`. */
  function Pieces(s: string): (ps: seq<string>)
    ensures |ps| >= 1
    ensures forall k :: 0 <= k < |ps| ==> NoTerminator(ps[k])
    decreases |s|
  {
    var i := TerminatorIndex(s);
    if i == |s| then
      assert s[..i] == s;
      [s]
    else
      [s[..i]] + Pieces(s[i + TerminatorRun(s[i..])..])
  }

  /** A sentence as the regular-expression splitter yields it once stripped. */
  predicate IsSentence(x: string) {
    x != [] && Trimmed(x) && NoTerminator(x)
  }

  /** The fallback sentence splitter: `[s.strip() for s in re.split(r'[.!?]+', text) if s.strip()]`. */
  function Sentences(text: string): seq<string> {
    NonBlank(Pieces(text))
  }

  /** `". ".join(xs) + "."`, the way the service writes sentences back out. */
  function Render(xs: seq<string>): string {
    Join(". ", xs) + "."
  }

  /** Stripping a terminator-free piece leaves it terminator-free. */
  lemma StripNoTerminator(p: string)
    requires NoTerminator(p)
    ensures NoTerminator(Strip(p))
  {
    var k := StripSlice(p);
    var r := Strip(p);
    forall i | 0 <= i < |r| ensures !IsTerminator(r[i]) { assert r[i] == p[k + i]; }
  }

  lemma {:induction false} NonBlankOfTerminatorFree(ps: seq<string>)
    requires forall k :: 0 <= k < |ps| ==> NoTerminator(ps[k])
    ensures forall k :: 0 <= k < |NonBlank(ps)| ==> IsSentence(NonBlank(ps)[k])
    decreases |ps|
  {
    if ps != [] {
      NonBlankOfTerminatorFree(ps[..|ps| - 1]);
      StripNoTerminator(ps[|ps| - 1]);
    }
  }

  /** Every sentence the fallback splitter yields is non-empty, stripped and terminator-free. */
  lemma SentencesAreSentences(text: string)
    ensures forall k :: 0 <= k < |Sentences(text)| ==> IsSentence(Sentences(text)[k])
  {
    NonBlankOfTerminatorFree(Pieces(text));
  }

  /** The first terminator is found after a terminator-free prefix. */
  lemma {:induction false} TerminatorIndexAfter(a: string, b: string)
    requires NoTerminator(a) && b != [] && IsTerminator(b[0])
    ensures TerminatorIndex(a + b) == |a|
    decreases |a|
  {
    if a == [] {
      assert a + b == b;
    } else {
      assert (a + b)[0] == a[0];
      assert (a + b)[1..] == a[1..] + b;
      TerminatorIndexAfter(a[1..], b);
    }
  }

  /** A terminator-free head followed by exactly one terminator is split off as the first piece. */
  lemma PiecesAfterHead(head: string, rest: string)
    requires NoTerminator(head) && rest != [] && IsTerminator(rest[0])
    requires |rest| == 1 || !IsTerminator(rest[1])
    ensures Pieces(head + rest) == [head] + Pieces(rest[1..])
  {
    var s := head + rest;
    TerminatorIndexAfter(head, rest);
    assert s[|head|..] == rest;
    assert |rest| > 1 ==> rest[1..][0] == rest[1];
    assert TerminatorRun(rest) == 1;
    assert s[..|head|] == head;
    assert s[|head| + 1..] == rest[1..];
  }

  /** The first rendered sentence behind leading whitespace, stripped, is the sentence itself. */
  lemma PaddedHead(pad: string, x: string)
    requires AllSpace(pad) && IsSentence(x)
    ensures NoTerminator(pad + x) && NonBlank([pad + x]) == [x]
  {
    var head := pad + x;
    forall i | 0 <= i < |head| ensures !IsTerminator(head[i]) {
      if i < |pad| { assert head[i] == pad[i]; } else { assert head[i] == x[i - |pad|]; }
    }
    StripPadded(pad, x);
    assert NonBlank([head]) == NonBlank([]) + KeepIfNonBlank(head);
  }

  lemma DotSpaceTail(r: string)
    ensures (". " + r)[0] == '.' && (". " + r)[1] == ' ' && (". " + r)[1..] == " " + r
  {
  }

  /** Rendering two or more sentences behind a pad: the padded first sentence, then `". "` and the rest. */
  lemma PadRenderCons(pad: string, xs: seq<string>)
    requires |xs| >= 2
    ensures pad + Render(xs) == (pad + xs[0]) + (". " + Render(xs[1..]))
  {
    assert Join(". ", xs) == xs[0] + ". " + Join(". ", xs[1..]);
  }

  /** Re-splitting one rendered sentence behind leading whitespace gives it back. */
  lemma SentencesOfPaddedSingle(pad: string, x: string)
    requires AllSpace(pad) && IsSentence(x)
    ensures NonBlank(Pieces(pad + Render([x]))) == [x]
  {
    var head := pad + x;
    PaddedHead(pad, x);
    assert Join(". ", [x]) == x;
    assert pad + Render([x]) == head + ".";
    PiecesAfterHead(head, ".");
    assert "."[1..] == "";
    assert Pieces("") == [""];
    NonBlankAppend([head], [""]);
    assert NonBlank([""]) == NonBlank([]) + KeepIfNonBlank("");
  }

  /** A terminator-free head, then `". "` and a tail: the head's sentence, then the tail's. */
  lemma SentencesOfHeadDotSpace(head: string, x: string, r: string, ys: seq<string>)
    requires NoTerminator(head) && NonBlank([head]) == [x]
    requires NonBlank(Pieces(" " + r)) == ys
    ensures NonBlank(Pieces(head + (". " + r))) == [x] + ys
  {
    DotSpaceTail(r);
    PiecesAfterHead(head, ". " + r);
    NonBlankAppend([head], Pieces(" " + r));
  }

  /** The step of `SentencesOfPaddedRender`: the first sentence, then the rest behind one space. */
  lemma SentencesOfPaddedStep(pad: string, xs: seq<string>)
    requires AllSpace(pad) && |xs| >= 2 && IsSentence(xs[0])
    requires NonBlank(Pieces(" " + Render(xs[1..]))) == xs[1..]
    ensures NonBlank(Pieces(pad + Render(xs))) == xs
  {
    PaddedHead(pad, xs[0]);
    PadRenderCons(pad, xs);
    SentencesOfHeadDotSpace(pad + xs[0], xs[0], Render(xs[1..]), xs[1..]);
    assert xs == [xs[0]] + xs[1..];
  }

  /** Re-splitting rendered sentences, behind leading whitespace, gives them back. */
  lemma {:induction false} SentencesOfPaddedRender(pad: string, xs: seq<string>)
    requires AllSpace(pad) && xs != []
    requires forall k :: 0 <= k < |xs| ==> IsSentence(xs[k])
    ensures NonBlank(Pieces(pad + Render(xs))) == xs
    decreases |xs|
  {
    if |xs| == 1 {
      assert xs == [xs[0]];
      SentencesOfPaddedSingle(pad, xs[0]);
    } else {
      SentencesOfPaddedRender(" ", xs[1..]);
      SentencesOfPaddedStep(pad, xs);
    }
  }

  /** Sentences written out with `Render` split back into the same sentences. */
  lemma SentencesOfRender(xs: seq<string>)
    requires xs != []
    requires forall k :: 0 <= k < |xs| ==> IsSentence(xs[k])
    ensures Sentences(Render(xs)) == xs
  {
    assert "" + Render(xs) == Render(xs);
    SentencesOfPaddedRender("", xs);
  }

  // ---------------------------------------------------------------------------
  // str.lower() and substring search
  // ---------------------------------------------------------------------------

  function LowerChar(c: char): char {
    if 'A' <= c <= 'Z' then (c as int + 32) as char else c
  }

  /** `s.lower()` on ASCII letters. */
  function Lower(s: string): (r: string)
    ensures |r| == |s|
    ensures forall i :: 0 <= i < |s| && 'A' <= s[i] <= 'Z' ==>
              'a' <= r[i] <= 'z' && r[i] as int - 'a' as int == s[i] as int - 'A' as int
    ensures forall i :: 0 <= i < |s| && !('A' <= s[i] <= 'Z') ==> r[i] == s[i]
  {
    seq(|s|, i requires 0 <= i < |s| => LowerChar(s[i]))
  }

  /** Python's `sub in s`. */
  predicate Contains(s: string, sub: string)
    decreases |s|
  {
    |sub| <= |s| && (s[..|sub|] == sub || Contains(s[1..], sub))
  }

  /** `any(k in s for k in keywords)`. */
  predicate ContainsAny(s: string, keywords: seq<string>)
    decreases |keywords|
  {
    |keywords| > 0 && (Contains(s, keywords[0]) || ContainsAny(s, keywords[1..]))
  }

  /** Text holding a non-empty keyword is at least as long as that keyword. */
  lemma {:induction false} ContainsAnyNonEmpty(s: string, keywords: seq<string>)
    requires forall k :: 0 <= k < |keywords| ==> keywords[k] != []
    requires ContainsAny(s, keywords)
    ensures s != []
    decreases |keywords|
  {
    if !Contains(s, keywords[0]) {
      ContainsAnyNonEmpty(s, keywords[1..]);
    }
  }

  // ---------------------------------------------------------------------------
  // Non-whitespace content
  // ---------------------------------------------------------------------------

  /** The non-whitespace characters of `s`, in order. */
  function NonSpace(s: string): string
    decreases |s|
  {
    if s == [] then [] else (if IsSpace(s[0]) then [] else [s[0]]) + NonSpace(s[1..])
  }

  /** All the strings of `ws` one after the other. */
  function Flatten(ws: seq<string>): string
    decreases |ws|
  {
    if ws == [] then [] else ws[0] + Flatten(ws[1..])
  }

  lemma {:induction false} NonSpaceAppend(a: string, b: string)
    ensures NonSpace(a + b) == NonSpace(a) + NonSpace(b)
    decreases |a|
  {
    if a != [] {
      assert (a + b)[0] == a[0];
      assert (a + b)[1..] == a[1..] + b;
      NonSpaceAppend(a[1..], b);
    } else {
      assert a + b == b;
    }
  }

  lemma {:induction false} NonSpaceOfNoSpace(s: string)
    requires NoSpace(s)
    ensures NonSpace(s) == s
    decreases |s|
  {
    if s != [] {
      NonSpaceOfNoSpace(s[1..]);
    }
  }

  /** The non-whitespace characters are exactly the characters of the words. */
  lemma {:induction false} NonSpaceIsFlattenedWords(s: string)
    ensures NonSpace(s) == Flatten(Words(s))
    decreases |s|
  {
    if s != [] && !IsSpace(s[0]) {
      var n := WordLen(s);
      assert s == s[..n] + s[n..];
      NonSpaceAppend(s[..n], s[n..]);
      NonSpaceOfNoSpace(s[..n]);
      NonSpaceIsFlattenedWords(s[n..]);
    } else if s != [] {
      NonSpaceIsFlattenedWords(s[1..]);
    }
  }

  // ---------------------------------------------------------------------------
  // xs[:n]
  // ---------------------------------------------------------------------------

  /** Python's `xs[:n]`: the first `n` elements, or all of them when there are fewer. */
  function Take<T>(xs: seq<T>, n: nat): (r: seq<T>)
    ensures |r| == if |xs| < n then |xs| else n
    ensures r == xs[..|r|]
  {
    if |xs| < n then xs else xs[..n]
  }
}
