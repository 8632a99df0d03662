/** The few Python `str` operations the application relies on, written out
    over `seq<char>`: `strip`, `split(sep)`, `sep.join`, `split()` with and
    without `maxsplit`, `lower`, `replace`, `startswith`, `in`, `isdigit`,
    `int(...)` and `os.path.splitext`.  Characters are code points; only the
    whitespace and upper-case letters below code point 256 are classified. */
module Text {
  import opened Wrappers

  /** Python's `str.isspace` restricted to code points below 256. */
  predicate IsSpace(c: char) {
    c == ' ' || c == '\t' || c == '\n' || c == '\r' || c == '\U{B}' || c == '\U{C}'
    || c == '\U{1C}' || c == '\U{1D}' || c == '\U{1E}' || c == '\U{1F}'
    || c == '\U{85}' || c == '\U{A0}'
  }

  predicate AllSpace(s: string) {
    forall i :: 0 <= i < |s| ==> IsSpace(s[i])
  }

  predicate NoSpace(s: string) {
    forall i :: 0 <= i < |s| ==> !IsSpace(s[i])
  }

  /** `s.lstrip()`: `s` without its leading whitespace (see `LStripShape`). */
  function LStrip(s: string): (r: string)
    ensures |r| <= |s|
    decreases |s|
  {
    if |s| > 0 && IsSpace(s[0]) then LStrip(s[1..]) else s
  }

  /** `lstrip` leaves a suffix, removes only whitespace, and stops at the
      first non-space character. */
  lemma {:induction false} LStripShape(s: string)
    ensures var r := LStrip(s);
      && r == s[|s| - |r|..]
      && AllSpace(s[..|s| - |r|])
      && (|r| > 0 ==> !IsSpace(r[0]))
    decreases |s|
  {
    if |s| > 0 && IsSpace(s[0]) {
      LStripShape(s[1..]);
      var r := LStrip(s[1..]);
      assert s[1..][..|s[1..]| - |r|] == s[1..|s| - |r|];
    }
  }

  /** `s.rstrip()`: `s` without its trailing whitespace (see `RStripShape`). */
  function RStrip(s: string): (r: string)
    ensures |r| <= |s|
    decreases |s|
  {
    if |s| > 0 && IsSpace(s[|s| - 1]) then RStrip(s[..|s| - 1]) else s
  }

  /** `rstrip` leaves a prefix, removes only whitespace, and stops at the
      last non-space character. */
  lemma {:induction false} RStripShape(s: string)
    ensures var r := RStrip(s);
      && r == s[..|r|]
      && AllSpace(s[|r|..])
      && (|r| > 0 ==> !IsSpace(r[|r| - 1]))
    decreases |s|
  {
    if |s| > 0 && IsSpace(s[|s| - 1]) {
      RStripShape(s[..|s| - 1]);
      var r := RStrip(s[..|s| - 1]);
      assert s[..|s| - 1][..|r|] == s[..|r|];
    }
  }

  /** `s.strip()`. */
  function Strip(s: string): string {
    RStrip(LStrip(s))
  }

  /** `strip` keeps a middle slice of `s`, removes only whitespace, from the
      two ends, and leaves no whitespace at either end. */
  lemma StripShape(s: string)
    ensures var r := Strip(s);
      var i := |s| - |LStrip(s)|;
      && |r| <= |LStrip(s)| <= |s|
      && (|r| > 0 ==> !IsSpace(r[0]) && !IsSpace(r[|r| - 1]))
      && r == s[i..i + |r|]
      && AllSpace(s[..i])
      && AllSpace(s[i + |r|..])
  {
    var t := LStrip(s);
    LStripShape(s);
    RStripShape(t);
    var r := RStrip(t);
    var i := |s| - |t|;
    assert r == t[..|r|];
    assert s[i + |r|..] == t[|r|..];
  }

  /** `s == s.strip()`: nothing to strip at either end. */
  predicate IsStripped(s: string) {
    |s| == 0 || (!IsSpace(s[0]) && !IsSpace(s[|s| - 1]))
  }

  lemma StripStripped(s: string)
    requires IsStripped(s)
    ensures Strip(s) == s
  {
  }

  /** Index of the first occurrence of `c` in `s`, as `s.find(c)` without the -1. */
  function IndexOf(s: string, c: char): (r: Option<nat>)
    ensures r.None? <==> c !in s
    ensures r.Some? ==> r.value < |s| && s[r.value] == c && c !in s[..r.value]
    decreases |s|
  {
    if |s| == 0 then None
    else if s[0] == c then Some(0)
    else
      match IndexOf(s[1..], c)
      case None => None
      case Some(k) =>
        assert s[..k + 1] == [s[0]] + s[1..][..k];
        Some(k + 1)
  }

  /** `sep.join(parts)` for a one-character separator. */
  function Join(parts: seq<string>, sep: char): string
    decreases |parts|
  {
    if |parts| == 0 then ""
    else if |parts| == 1 then parts[0]
    else parts[0] + [sep] + Join(parts[1..], sep)
  }

  /** `s.split(sep)` for a one-character separator: never empty, no piece
      contains the separator, and joining the pieces gives `s` back. */
  function Split(s: string, sep: char): (parts: seq<string>)
    ensures |parts| >= 1
    ensures forall i :: 0 <= i < |parts| ==> sep !in parts[i]
    ensures Join(parts, sep) == s
    decreases |s|
  {
    match IndexOf(s, sep)
    case None => [s]
    case Some(k) =>
      var rest := Split(s[k + 1..], sep);
      var parts := [s[..k]] + rest;
      assert parts[1..] == rest;
      assert s == s[..k] + [sep] + s[k + 1..];
      parts
  }

  /** Splitting what `Join` built gives the pieces back, provided there is at
      least one piece and no piece contains the separator. */
  lemma {:induction false} SplitJoin(parts: seq<string>, sep: char)
    requires |parts| >= 1
    requires forall i :: 0 <= i < |parts| ==> sep !in parts[i]
    ensures Split(Join(parts, sep), sep) == parts
    decreases |parts|
  {
    if |parts| == 1 {
      assert IndexOf(parts[0], sep).None?;
    } else {
      var tail := Join(parts[1..], sep);
      var s := parts[0] + [sep] + tail;
      assert s[..|parts[0]|] == parts[0];
      assert sep !in s[..|parts[0]|];
      assert s[|parts[0]|] == sep;
      IndexOfFirst(s, sep, |parts[0]|);
      assert s[|parts[0]| + 1..] == tail;
      SplitJoin(parts[1..], sep);
    }
  }

  /** The first position holding `c`, when nothing before it does, is what `IndexOf` finds. */
  lemma IndexOfFirst(s: string, c: char, k: nat)
    requires k < |s| && s[k] == c && c !in s[..k]
    ensures IndexOf(s, c) == Some(k)
  {
  }

  /** Leading run of non-whitespace characters of `s`. */
  function TakeWord(s: string): (w: string)
    ensures |w| <= |s| && w == s[..|w|]
    ensures NoSpace(w)
    ensures |w| < |s| ==> IsSpace(s[|w|])
    decreases |s|
  {
    if |s| == 0 || IsSpace(s[0]) then ""
    else
      var w := TakeWord(s[1..]);
      assert [s[0]] + w == s[..|w| + 1];
      [s[0]] + w
  }

  /** Python's `s.split(None, budget)`: whitespace-separated words, at most
      `budget` splits when `budget >= 0`, unlimited when it is negative.
      Once the budget is used up, the rest of the string after the next run
      of whitespace is returned as one final piece, trailing whitespace and
      all. */
  function SplitWs(s: string, budget: int): (parts: seq<string>)
    ensures forall i :: 0 <= i < |parts| ==> |parts[i]| > 0 && !IsSpace(parts[i][0])
    decreases |s|
  {
    var t := LStrip(s);
    LStripShape(s);
    if |t| == 0 then []
    else if budget == 0 then [t]
    else
      var w := TakeWord(t);
      [w] + SplitWs(t[|w|..], if budget > 0 then budget - 1 else budget)
  }

  /** Python's `s.split()`. */
  function Words(s: string): seq<string> {
    SplitWs(s, -1)
  }

  /** Joining non-empty, whitespace-free words with single spaces and then
      splitting with a budget of `|words|` splits gives every word back and
      keeps the rest, spaces and all, as the last piece. */
  lemma {:induction false} SplitWsJoined(words: seq<string>, rest: string)
    requires forall i :: 0 <= i < |words| ==> |words[i]| > 0 && NoSpace(words[i])
    requires |rest| > 0 && !IsSpace(rest[0])
    ensures SplitWs(JoinSpaced(words, rest), |words|) == words + [rest]
    decreases |words|
  {
    if |words| == 0 {
      assert LStrip(rest) == rest;
    } else {
      var w, more := words[0], words[1..];
      var tail := JoinSpaced(more, rest);
      JoinSpacedStart(more, rest);
      calc {
        SplitWs(JoinSpaced(words, rest), |words|);
        SplitWs(w + " " + tail, |words|);
        { SplitWsWord(w, tail, |words|); }
        [w] + SplitWs(tail, |more|);
        { SplitWsJoined(more, rest); }
        [w] + (more + [rest]);
        { assert words == [w] + more; }
        words + [rest];
      }
    }
  }

  /** One step of `SplitWs` over `w + " " + tail`: the word `w` comes off and
      the budget drops by one. */
  lemma SplitWsWord(w: string, tail: string, budget: nat)
    requires |w| > 0 && NoSpace(w)
    requires |tail| > 0 && !IsSpace(tail[0])
    requires budget > 0
    ensures SplitWs(w + " " + tail, budget) == [w] + SplitWs(tail, budget - 1)
  {
    var s := w + " " + tail;
    assert LStrip(s) == s;
    TakeWordOf(w, " " + tail);
    assert s == w + (" " + tail);
    assert s[|w|..] == " " + tail;
    assert LStrip(" " + tail) == tail by {
      assert (" " + tail)[1..] == tail;
    }
  }

  /** `w1 + " " + w2 + " " + ... + " " + rest`. */
  function JoinSpaced(words: seq<string>, rest: string): string
    decreases |words|
  {
    if |words| == 0 then rest else words[0] + " " + JoinSpaced(words[1..], rest)
  }

  lemma {:induction false} JoinSpacedStart(words: seq<string>, rest: string)
    requires forall i :: 0 <= i < |words| ==> |words[i]| > 0 && NoSpace(words[i])
    requires |rest| > 0 && !IsSpace(rest[0])
    ensures |JoinSpaced(words, rest)| > 0 && !IsSpace(JoinSpaced(words, rest)[0])
  {
    if |words| > 0 {
      assert JoinSpaced(words, rest)[0] == words[0][0];
    }
  }

  lemma {:induction false} TakeWordOf(w: string, rest: string)
    requires NoSpace(w)
    requires |rest| > 0 && IsSpace(rest[0])
    ensures TakeWord(w + rest) == w
    decreases |w|
  {
    if |w| > 0 {
      assert (w + rest)[1..] == w[1..] + rest;
      TakeWordOf(w[1..], rest);
      assert w == [w[0]] + w[1..];
    }
  }

  /** Python's `sub in s`. */
  predicate Contains(s: string, sub: string)
    decreases |s|
  {
    StartsWith(s, sub) || (|s| > 0 && Contains(s[1..], sub))
  }

  /** Python's `s.startswith(p)`. */
  predicate StartsWith(s: string, p: string) {
    |p| <= |s| && s[..|p|] == p
  }

  /** Python's `str.lower` below code point 256: `A`-`Z` and the Latin-1
      capitals `À`-`Þ` (but not `×`) move up by 32. */
  function LowerChar(c: char): char {
    if 'A' <= c <= 'Z' || ('\U{C0}' <= c <= '\U{DE}' && c != '\U{D7}') then (c as int + 32) as char else c
  }

  function Lower(s: string): (r: string)
    ensures |r| == |s|
    ensures forall i :: 0 <= i < |s| ==> r[i] == LowerChar(s[i])
  {
    seq(|s|, i requires 0 <= i < |s| => LowerChar(s[i]))
  }

  /** Python's `s.replace(a, b)` for single characters. */
  function ReplaceChar(s: string, a: char, b: char): (r: string)
    ensures |r| == |s|
    ensures forall i :: 0 <= i < |s| ==> r[i] == (if s[i] == a then b else s[i])
  {
    seq(|s|, i requires 0 <= i < |s| => if s[i] == a then b else s[i])
  }

  predicate IsDigit(c: char) {
    '0' <= c <= '9'
  }

  /** Python's `s.isdigit()`, ASCII digits only: false on the empty string. */
  predicate IsDigits(s: string) {
    |s| > 0 && forall i :: 0 <= i < |s| ==> IsDigit(s[i])
  }

  /** Decimal value of a string of digits. */
  function DigitsValue(s: string): nat
    requires forall i :: 0 <= i < |s| ==> IsDigit(s[i])
    decreases |s|
  {
    if |s| == 0 then 0
    else
      assert IsDigit(s[|s| - 1]);
      DigitsValue(s[..|s| - 1]) * 10 + (s[|s| - 1] as int - '0' as int)
  }

  /** Decimal rendering of a natural number, no leading zeros. */
  function ShowNat(n: nat): (s: string)
    ensures IsDigits(s)
    decreases n
  {
    if n < 10 then [('0' as int + n) as char]
    else ShowNat(n / 10) + [('0' as int + n % 10) as char]
  }

  lemma {:induction false} ShowNatValue(n: nat)
    ensures DigitsValue(ShowNat(n)) == n
    decreases n
  {
    if n >= 10 {
      var s := ShowNat(n);
      assert s[..|s| - 1] == ShowNat(n / 10);
      ShowNatValue(n / 10);
    }
  }

  /** Python's `int(s)` on a string: surrounding whitespace, an optional sign
      and at least one ASCII digit; anything else raises `ValueError`,
      modelled as `None`. */
  function ParseInt(s: string): (r: Option<int>)
    ensures IsDigits(s) ==> r == Some(DigitsValue(s))
  {
    var t := Strip(s);
    if IsDigits(t) then Some(DigitsValue(t) as int)
    else if |t| > 1 && t[0] == '-' && IsDigits(t[1..]) then Some(-(DigitsValue(t[1..]) as int))
    else if |t| > 1 && t[0] == '+' && IsDigits(t[1..]) then Some(DigitsValue(t[1..]))
    else None
  }

  /** `os.path.splitext(name)[1]` for a bare file name (no separators): the
      suffix from the last dot, unless everything before that dot is dots,
      in which case there is no extension (`.bashrc`, `..x`). */
  function SplitExt(name: string): (ext: string)
    ensures |ext| <= |name|
    ensures ext == "" || (ext[0] == '.' && ext == name[|name| - |ext|..])
    ensures |ext| > 0 ==> '.' !in ext[1..]
  {
    match LastIndexOf(name, '.')
    case None => ""
    case Some(k) =>
      if AllDots(name[..k]) then "" else name[k..]
  }

  predicate AllDots(s: string) {
    forall i :: 0 <= i < |s| ==> s[i] == '.'
  }

  /** Index of the last occurrence of `c` in `s`. */
  function LastIndexOf(s: string, c: char): (r: Option<nat>)
    ensures r.None? <==> c !in s
    ensures r.Some? ==> r.value < |s| && s[r.value] == c && c !in s[r.value + 1..]
    decreases |s|
  {
    if |s| == 0 then None
    else if s[|s| - 1] == c then
      Some(|s| - 1)
    else
      assert s == s[..|s| - 1] + [s[|s| - 1]];
      match LastIndexOf(s[..|s| - 1], c)
      case None => None
      case Some(k) =>
        assert s[k + 1..] == s[..|s| - 1][k + 1..] + [s[|s| - 1]];
        Some(k)
  }

  /** `s.strip()` is empty exactly when `s` is all whitespace. */
  lemma StripEmpty(s: string)
    ensures Strip(s) == "" <==> AllSpace(s)
  {
    StripShape(s);
    LStripShape(s);
    var i := |s| - |LStrip(s)|;
    if Strip(s) == "" {
      assert i == |s|;
      forall k | 0 <= k < |s| ensures IsSpace(s[k]) {
        assert s[..i][k] == s[k];
      }
    }
  }

  /** Leading whitespace in front of a word-initial string is all `lstrip` removes. */
  lemma {:induction false} LStripSpaces(pre: string, y: string)
    requires AllSpace(pre)
    requires |y| > 0 && !IsSpace(y[0])
    ensures LStrip(pre + y) == y
    decreases |pre|
  {
    if |pre| > 0 {
      assert (pre + y)[1..] == pre[1..] + y;
      LStripSpaces(pre[1..], y);
    }
  }

  /** Trailing whitespace behind a string ending in a non-space is all `rstrip` removes. */
  lemma {:induction false} RStripSpaces(y: string, post: string)
    requires |y| > 0 && !IsSpace(y[|y| - 1])
    requires AllSpace(post)
    ensures RStrip(y + post) == y
    decreases |post|
  {
    if |post| > 0 {
      assert (y + post)[..|y + post| - 1] == y + post[..|post| - 1];
      RStripSpaces(y, post[..|post| - 1]);
    } else {
      assert y + post == y;
    }
  }

  /** Stripping whitespace padding off a stripped, non-empty string gives it back. */
  lemma StripPadded(pre: string, x: string, post: string)
    requires AllSpace(pre) && AllSpace(post)
    requires |x| > 0 && IsStripped(x)
    ensures Strip(pre + x + post) == x
  {
    assert pre + x + post == pre + (x + post);
    LStripSpaces(pre, x + post);
    RStripSpaces(x, post);
  }

  /** The first and last characters of a join are those of the first and last pieces. */
  lemma {:induction false} JoinEnds(parts: seq<string>, sep: char)
    requires |parts| >= 1 && |parts[0]| > 0 && |parts[|parts| - 1]| > 0
    ensures var j := Join(parts, sep);
      |j| > 0 && j[0] == parts[0][0] && j[|j| - 1] == parts[|parts| - 1][|parts[|parts| - 1]| - 1]
    decreases |parts|
  {
    if |parts| > 1 {
      JoinEndsTail(parts, sep);
    }
  }

  lemma {:induction false} JoinEndsTail(parts: seq<string>, sep: char)
    requires |parts| >= 2 && |parts[|parts| - 1]| > 0
    ensures var j := Join(parts, sep);
      |j| > 0 && j[|j| - 1] == parts[|parts| - 1][|parts[|parts| - 1]| - 1]
    decreases |parts|
  {
    var rest := parts[1..];
    assert rest[|rest| - 1] == parts[|parts| - 1];
    if |rest| > 1 {
      JoinEndsTail(rest, sep);
    }
  }

  /** `b in (a + b)`. */
  lemma {:induction false} ContainsSuffix(a: string, b: string)
    ensures Contains(a + b, b)
    decreases |a|
  {
    if |a| == 0 {
      assert a + b == b;
      assert (a + b)[..|b|] == b;
    } else {
      assert (a + b)[1..] == a[1..] + b;
      ContainsSuffix(a[1..], b);
    }
  }

  /** A text without `c` contains nothing that starts with `c`. */
  lemma {:induction false} NotContainsMark(x: string, c: char, w: string)
    requires c !in x
    ensures !Contains(x, [c] + w)
    decreases |x|
  {
    if |x| > 0 {
      assert x[0] != c;
      NotContainsMark(x[1..], c, w);
    }
  }

  /** When `c` occurs in `a + [c] + b` only between `a` and `b`, the text
      contains `[c] + w` exactly when `b` starts with `w`. */
  lemma {:induction false} ContainsAtMark(a: string, c: char, b: string, w: string)
    requires c !in a && c !in b
    ensures Contains(a + [c] + b, [c] + w) <==> StartsWith(b, w)
    decreases |a|
  {
    var s := a + [c] + b;
    if |a| == 0 {
      assert s == [c] + b;
      assert s[1..] == b;
      NotContainsMark(b, c, w);
      if StartsWith(b, w) {
        assert s[..|w| + 1] == [c] + b[..|w|];
      }
      if StartsWith(s, [c] + w) {
        assert b[..|w|] == s[..|w| + 1][1..];
      }
    } else {
      assert s[0] != c;
      assert s[1..] == a[1..] + [c] + b;
      ContainsAtMark(a[1..], c, b, w);
    }
  }

  /** The first piece of `(a + [sep] + b).split(sep)` is `a` when `a` has no separator. */
  lemma SplitHead(a: string, sep: char, b: string)
    requires sep !in a
    ensures Split(a + [sep] + b, sep)[0] == a
  {
    var s := a + [sep] + b;
    assert s[..|a|] == a;
    IndexOfFirst(s, sep, |a|);
  }

  /** Python's `' '.join(words).split()` gives the words back when each is
      non-empty and free of whitespace. */
  lemma {:induction false} WordsOfJoin(words: seq<string>)
    requires |words| >= 1
    requires forall i :: 0 <= i < |words| ==> |words[i]| > 0 && NoSpace(words[i])
    ensures Words(Join(words, ' ')) == words
    decreases |words|
  {
    var w := words[0];
    if |words| == 1 {
      assert Join(words, ' ') == w;
      WordsSingle(w);
    } else {
      var tail := Join(words[1..], ' ');
      JoinEnds(words[1..], ' ');
      assert Join(words, ' ') == w + " " + tail;
      WordsWord(w, tail);
      WordsOfJoin(words[1..]);
      assert words == [w] + words[1..];
    }
  }

  lemma WordsSingle(w: string)
    requires |w| > 0 && NoSpace(w)
    ensures Words(w) == [w]
  {
    assert LStrip(w) == w;
    assert TakeWord(w) == w;
    assert w[|w|..] == "";
    assert SplitWs(w, -1) == [w] + SplitWs("", -1);
    assert LStrip("") == "";
  }

  /** One step of `split()` over `w + " " + tail`: the word `w` comes off. */
  lemma WordsWord(w: string, tail: string)
    requires |w| > 0 && NoSpace(w)
    requires |tail| > 0 && !IsSpace(tail[0])
    ensures Words(w + " " + tail) == [w] + Words(tail)
  {
    var s := w + " " + tail;
    assert LStrip(s) == s;
    TakeWordOf(w, " " + tail);
    assert s == w + (" " + tail);
    assert s[|w|..] == " " + tail;
    assert LStrip(" " + tail) == tail by {
      assert (" " + tail)[1..] == tail;
    }
    assert LStrip(tail) == tail;
    assert SplitWs(" " + tail, -1) == SplitWs(tail, -1);
    assert SplitWs(s, -1) == [w] + SplitWs(" " + tail, -1);
  }

  /** Lines that, joined with newlines, make a text starting and ending
      with a non-space character. */
  predicate TextLines(lines: seq<string>) {
    && |lines| >= 1 && |lines[0]| > 0 && |lines[|lines| - 1]| > 0
    && !IsSpace(lines[0][0]) && !IsSpace(lines[|lines| - 1][|lines[|lines| - 1]| - 1])
    && forall i :: 0 <= i < |lines| ==> '\n' !in lines[i]
  }

  /** Splitting on newlines what was joined with newlines and padded with
      whitespace gives the lines back, when the text starts and ends with a
      non-space character. */
  lemma SplitStrippedLines(lines: seq<string>, pad: string)
    requires TextLines(lines)
    requires AllSpace(pad)
    ensures Split(Strip(Join(lines, '\n') + pad), '\n') == lines
  {
    var x := Join(lines, '\n');
    JoinEnds(lines, '\n');
    StripPadded("", x, pad);
    assert "" + x + pad == x + pad;
    SplitJoin(lines, '\n');
  }
}
