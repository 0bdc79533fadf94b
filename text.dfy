/**
 * The handful of Python string and path operations the two pipeline files rely on:
 * str.split() / str.strip(), str.split(sep), sep.join(...), os.path.join,
 * os.path.basename, os.path.splitext, int(...) and '{}'.format(n) for integers.
 */
module Text {
  import opened Wrappers

  /** Python's str.isspace() for one character; this is the set str.split() and str.strip() use. */
  predicate IsSpace(c: char) {
    || c == ' '
    || ('\t' <= c <= '\r')
    || ('\U{1C}' <= c <= '\U{1F}')
    || c == '\U{85}' || c == '\U{A0}' || c == '\U{1680}'
    || ('\U{2000}' <= c <= '\U{200A}')
    || c == '\U{2028}' || c == '\U{2029}' || c == '\U{202F}' || c == '\U{205F}' || c == '\U{3000}'
  }

  predicate NoSpace(s: string) {
    forall i | 0 <= i < |s| :: !IsSpace(s[i])
  }

  predicate AllSpace(s: string) {
    forall i | 0 <= i < |s| :: IsSpace(s[i])
  }

  /** Length of the run of whitespace at the start of `s`. */
  function SpaceRun(s: string): (n: nat)
    ensures n <= |s|
    ensures forall i | 0 <= i < n :: IsSpace(s[i])
    ensures n < |s| ==> !IsSpace(s[n])
  {
    if s == [] || !IsSpace(s[0]) then 0 else 1 + SpaceRun(s[1..])
  }

  /** Length of the run of non-whitespace at the start of `s`. */
  function WordRun(s: string): (n: nat)
    ensures n <= |s|
    ensures forall i | 0 <= i < n :: !IsSpace(s[i])
    ensures n < |s| ==> IsSpace(s[n])
  {
    if s == [] || IsSpace(s[0]) then 0 else 1 + WordRun(s[1..])
  }

  /** Length of the run of whitespace at the end of `s`. */
  function TrailingSpaceRun(s: string): (n: nat)
    ensures n <= |s|
    ensures forall i | |s| - n <= i < |s| :: IsSpace(s[i])
    ensures n < |s| ==> !IsSpace(s[|s| - n - 1])
  {
    if s == [] || !IsSpace(s[|s| - 1]) then 0 else 1 + TrailingSpaceRun(s[..|s| - 1])
  }

  /** Python's str.split() with no argument: the maximal runs of non-whitespace, in order. */
  function Tokens(s: string): seq<string>
    decreases |s|
  {
    if s == [] then []
    else if IsSpace(s[0]) then Tokens(s[1..])
    else
      var n := WordRun(s);
      [s[..n]] + Tokens(s[n..])
  }

  /** Every token is a non-empty run of non-whitespace, and there are none exactly for all-whitespace text. */
  lemma {:induction false} TokensShape(s: string)
    ensures forall t | t in Tokens(s) :: t != [] && NoSpace(t)
    ensures Tokens(s) == [] <==> AllSpace(s)
    decreases |s|
  {
    if s != [] {
      if IsSpace(s[0]) {
        TokensShape(s[1..]);
        assert AllSpace(s) <==> AllSpace(s[1..]) by {
          assert forall i | 1 <= i < |s| :: s[i] == s[1..][i - 1];
        }
      } else {
        var n := WordRun(s);
        TokensShape(s[n..]);
        assert !AllSpace(s);
      }
    }
  }

  /** Python's str.strip() with no argument. */
  function Strip(s: string): string {
    var t := s[SpaceRun(s)..];
    t[..|t| - TrailingSpaceRun(t)]
  }

  /** The strip is empty exactly for all-whitespace text, and otherwise starts and ends with non-whitespace. */
  lemma StripTrims(s: string)
    ensures Strip(s) == [] <==> AllSpace(s)
    ensures Strip(s) != [] ==> !IsSpace(Strip(s)[0]) && !IsSpace(Strip(s)[|Strip(s)| - 1])
  {
  }

  /** A string that neither starts nor ends with whitespace is its own strip. */
  lemma StripUnchanged(s: string)
    requires s == [] || (!IsSpace(s[0]) && !IsSpace(s[|s| - 1]))
    ensures Strip(s) == s
  {
    if s != [] {
      assert SpaceRun(s) == 0;
      assert s[0..] == s;
      assert TrailingSpaceRun(s) == 0;
    }
  }

  /** The first position of `c` in `s` (str.find). */
  function FirstIndex(s: string, c: char): (k: nat)
    requires c in s
    ensures k < |s| && s[k] == c && c !in s[..k]
  {
    if s[0] == c then 0 else 1 + FirstIndex(s[1..], c)
  }

  /** Python's str.split(sep) for a one-character separator: empty pieces are kept. */
  function SplitOn(s: string, sep: char): (r: seq<string>)
    ensures |r| >= 1
    ensures forall p | p in r :: sep !in p
    decreases |s|
  {
    if sep !in s then [s]
    else
      var k := FirstIndex(s, sep);
      [s[..k]] + SplitOn(s[k + 1..], sep)
  }

  /** Python's sep.join(parts). */
  function Join(parts: seq<string>, sep: string): string {
    if |parts| == 0 then []
    else if |parts| == 1 then parts[0]
    else parts[0] + sep + Join(parts[1..], sep)
  }

  /** Splitting on a separator and joining back with it gives the original string. */
  lemma {:induction false} JoinSplitOn(s: string, sep: char)
    ensures Join(SplitOn(s, sep), [sep]) == s
    decreases |s|
  {
    if sep in s {
      var k := FirstIndex(s, sep);
      var rest := SplitOn(s[k + 1..], sep);
      JoinSplitOn(s[k + 1..], sep);
      assert SplitOn(s, sep) == [s[..k]] + rest;
      assert ([s[..k]] + rest)[1..] == rest;
      calc {
        Join(SplitOn(s, sep), [sep]);
        s[..k] + [sep] + Join(rest, [sep]);
        s[..k] + [sep] + s[k + 1..];
        { assert s == s[..k] + [s[k]] + s[k + 1..]; }
        s;
      }
    }
  }

  /** The first separator of `a + [sep] + b` is the one after `a` when `a` has none. */
  lemma {:induction false} FirstIndexAfter(a: string, sep: char, b: string)
    requires sep !in a
    ensures sep in a + [sep] + b && FirstIndex(a + [sep] + b, sep) == |a|
  {
    var s := a + [sep] + b;
    assert s[|a|] == sep;
    if a != [] {
      assert s[0] == a[0];
      assert s[1..] == a[1..] + [sep] + b;
      FirstIndexAfter(a[1..], sep, b);
    }
  }

  /** Joining separator-free pieces and splitting again gives the pieces back. */
  lemma {:induction false} SplitOnJoin(parts: seq<string>, sep: char)
    requires |parts| >= 1
    requires forall p | p in parts :: sep !in p
    ensures SplitOn(Join(parts, [sep]), sep) == parts
  {
    if |parts| > 1 {
      var head, rest := parts[0], parts[1..];
      var tail := Join(rest, [sep]);
      assert SplitOn(tail, sep) == rest by {
        assert forall p | p in rest :: p in parts;
        SplitOnJoin(rest, sep);
      }
      assert sep !in head by { assert head in parts; }
      SplitAfterFirst(head, sep, tail);
      assert Join(parts, [sep]) == head + [sep] + tail;
      assert parts == [head] + rest;
    }
  }

  /** Splitting `a + [sep] + b` when `a` has no separator. */
  lemma SplitAfterFirst(a: string, sep: char, b: string)
    requires sep !in a
    ensures SplitOn(a + [sep] + b, sep) == [a] + SplitOn(b, sep)
  {
    var s := a + [sep] + b;
    FirstIndexAfter(a, sep, b);
    assert s[..|a|] == a;
    assert s[|a| + 1..] == b;
  }

  /** A word followed by a separator (or nothing) is read up to its end. */
  lemma {:induction false} WordRunOfWord(w: string, rest: string)
    requires NoSpace(w)
    requires rest == [] || IsSpace(rest[0])
    ensures WordRun(w + rest) == |w|
  {
    if w != [] {
      assert (w + rest)[1..] == w[1..] + rest;
      WordRunOfWord(w[1..], rest);
    } else {
      assert w + rest == rest;
    }
  }

  /** Leading whitespace does not change the tokens. */
  lemma TokensAfterSpace(c: char, x: string)
    requires IsSpace(c)
    ensures Tokens([c] + x) == Tokens(x)
  {
    assert ([c] + x)[1..] == x;
  }

  /** A non-empty whitespace-free word followed by whitespace or nothing is the first token. */
  lemma TokensOfWordThen(w: string, rest: string)
    requires w != [] && NoSpace(w)
    requires rest == [] || IsSpace(rest[0])
    ensures Tokens(w + rest) == [w] + Tokens(rest)
  {
    var s := w + rest;
    WordRunOfWord(w, rest);
    assert s[0] == w[0];
    assert s[..|w|] == w;
    assert s[|w|..] == rest;
  }

  /** A word, a space and more text: the word is the first token and the rest are the text's. */
  lemma TokensOfWordSpace(w: string, tail: string)
    requires w != [] && NoSpace(w)
    ensures Tokens(w + ([' '] + tail)) == [w] + Tokens(tail)
  {
    assert IsSpace(([' '] + tail)[0]);
    TokensOfWordThen(w, [' '] + tail);
    TokensAfterSpace(' ', tail);
  }

  /** A join of two or more parts is the first part, the separator, and the join of the rest. */
  lemma JoinCons(parts: seq<string>, sep: string)
    requires |parts| > 1
    ensures Join(parts, sep) == parts[0] + (sep + Join(parts[1..], sep))
  {
  }

  /** Joining whitespace-free, non-empty words with single spaces and splitting again gives the words back. */
  lemma {:induction false} TokensOfJoin(words: seq<string>)
    requires forall w | w in words :: w != [] && NoSpace(w)
    ensures Tokens(Join(words, " ")) == words
  {
    if |words| == 1 {
      assert words[0] in words;
      TokensOfWordThen(words[0], []);
      assert words[0] + [] == words[0];
    } else if |words| > 1 {
      assert words[0] in words;
      JoinCons(words, " ");
      TokensOfWordSpace(words[0], Join(words[1..], " "));
      assert forall x | x in words[1..] :: x in words;
      TokensOfJoin(words[1..]);
      assert words == [words[0]] + words[1..];
    }
  }

  /** Python's str.endswith. */
  predicate EndsWith(s: string, suffix: string) {
    |suffix| <= |s| && s[|s| - |suffix|..] == suffix
  }

  /** Python's os.path.join(a, b) for POSIX paths. */
  function PathJoin(a: string, b: string): string {
    if b != [] && b[0] == '/' then b
    else if a == [] || a[|a| - 1] == '/' then a + b
    else a + "/" + b
  }

  /**
   * An absolute second component replaces the first; otherwise the result
   * starts with the first component and ends with the second, with exactly
   * one '/' between them when the first does not already end in one.
   */
  lemma PathJoinShape(a: string, b: string)
    ensures b != [] && b[0] == '/' ==> PathJoin(a, b) == b
    ensures !(b != [] && b[0] == '/') ==>
      && a <= PathJoin(a, b)
      && EndsWith(PathJoin(a, b), b)
      && (a != [] && a[|a| - 1] != '/' ==> PathJoin(a, b) == a + "/" + b)
  {
    var r := PathJoin(a, b);
    if !(b != [] && b[0] == '/') {
      assert r[|r| - |b|..] == b;
    }
  }

  /** Python's os.path.basename(p): everything after the last '/'. */
  function Basename(p: string): string {
    if p == [] || p[|p| - 1] == '/' then []
    else Basename(p[..|p| - 1]) + [p[|p| - 1]]
  }

  /** The base name is the slash-free tail of the path that starts right after a '/' or at the start. */
  lemma {:induction false} BasenameIsLastComponent(p: string)
    ensures '/' !in Basename(p)
    ensures |Basename(p)| <= |p| && p[|p| - |Basename(p)|..] == Basename(p)
    ensures |Basename(p)| < |p| ==> p[|p| - |Basename(p)| - 1] == '/'
  {
    if p != [] && p[|p| - 1] != '/' {
      var q := p[..|p| - 1];
      var b := Basename(q);
      BasenameIsLastComponent(q);
      assert Basename(p) == b + [p[|p| - 1]];
      assert p[|p| - |b| - 1..] == q[|q| - |b|..] + [p[|p| - 1]];
      if |b| < |q| {
        assert p[|p| - |b| - 2] == q[|q| - |b| - 1];
      }
    }
  }

  /**
   * The index of the last '.' of p[..i] that no '/' follows, scanning back
   * from i (the extension's dot candidate of os.path.splitext).
   */
  function DotScan(p: string, i: nat): (r: Option<nat>)
    requires i <= |p|
    ensures r.Some? ==> r.value < i
  {
    if i == 0 || p[i - 1] == '/' then None
    else if p[i - 1] == '.' then Some(i - 1)
    else DotScan(p, i - 1)
  }

  /** The candidate is a '.' with neither '.' nor '/' after it up to i. */
  lemma {:induction false} DotScanFinds(p: string, i: nat)
    requires i <= |p| && DotScan(p, i).Some?
    ensures var d := DotScan(p, i).value;
      p[d] == '.' && forall k | d < k < i :: p[k] != '.' && p[k] != '/'
  {
    if p[i - 1] != '.' {
      DotScanFinds(p, i - 1);
    }
  }

  /** Whether p[..j] has, after its last '/', a character other than '.'. */
  function NonDotBefore(p: string, j: nat): bool
    requires j <= |p|
  {
    if j == 0 || p[j - 1] == '/' then false
    else if p[j - 1] != '.' then true
    else NonDotBefore(p, j - 1)
  }

  /** Where os.path.splitext cuts p: at the extension's dot, or at the end when there is no extension. */
  function ExtStart(p: string): (c: nat)
    ensures c <= |p|
  {
    match DotScan(p, |p|)
    case None => |p|
    case Some(d) => if NonDotBefore(p, d) then d else |p|
  }

  /**
   * Python's os.path.splitext(p): the extension starts at the last '.' of the
   * base name, provided something other than dots precedes it there.
   */
  function SplitExt(p: string): (r: (string, string)) {
    (p[..ExtStart(p)], p[ExtStart(p)..])
  }

  /** The two parts make up the path, and a non-empty extension is a '.' followed by neither '.' nor '/'. */
  lemma SplitExtParts(p: string)
    ensures SplitExt(p).0 + SplitExt(p).1 == p
    ensures var ext := SplitExt(p).1; ext != [] ==> ext[0] == '.' && '.' !in ext[1..] && '/' !in ext
  {
    var c := ExtStart(p);
    assert p[..c] + p[c..] == p;
    if c < |p| {
      DotScanFinds(p, |p|);
    }
    var ext := p[c..];
    if ext != [] {
      forall k | 1 <= k < |ext|
        ensures ext[k] != '.' && ext[k] != '/'
      {
        assert ext[k] == p[c + k];
      }
    }
  }

  /** The base name of s has a character other than '.', so an extension appended to s is one splitext recognises. */
  predicate BaseNameNotAllDots(s: string) {
    NonDotBefore(s, |s|)
  }

  /** Scanning back over a run of characters that are neither '.' nor '/' finds the '.' before them. */
  lemma {:induction false} DotScanOverRun(p: string, i: nat, d: nat)
    requires d < i <= |p| && p[d] == '.'
    requires forall k | d < k < i :: p[k] != '.' && p[k] != '/'
    ensures DotScan(p, i) == Some(d)
  {
    if i - 1 > d {
      DotScanOverRun(p, i - 1, d);
    }
  }

  /** NonDotBefore(p, j) reads only p[..j]. */
  lemma {:induction false} NonDotBeforePrefix(p: string, q: string, j: nat)
    requires j <= |p| && j <= |q| && p[..j] == q[..j]
    ensures NonDotBefore(p, j) == NonDotBefore(q, j)
  {
    if j > 0 {
      assert p[j - 1] == p[..j][j - 1] && q[j - 1] == q[..j][j - 1];
      assert p[..j - 1] == p[..j][..j - 1] && q[..j - 1] == q[..j][..j - 1];
      NonDotBeforePrefix(p, q, j - 1);
    }
  }

  /** splitext gives back an extension appended to a stem whose base name is not all dots. */
  lemma SplitExtOfAppended(stem: string, ext: string)
    requires |ext| >= 1 && ext[0] == '.' && '.' !in ext[1..] && '/' !in ext
    requires BaseNameNotAllDots(stem)
    ensures SplitExt(stem + ext) == (stem, ext)
  {
    var p := stem + ext;
    forall k | |stem| < k < |p|
      ensures p[k] != '.' && p[k] != '/'
    {
      assert p[k] == ext[1..][k - |stem| - 1];
      assert p[k] == ext[k - |stem|];
    }
    DotScanOverRun(p, |p|, |stem|);
    assert p[..|stem|] == stem;
    NonDotBeforePrefix(p, stem, |stem|);
    assert p[|stem|..] == ext;
  }

  predicate IsDigit(c: char) {
    '0' <= c <= '9'
  }

  predicate AllDigits(s: string) {
    forall i | 0 <= i < |s| :: IsDigit(s[i])
  }

  /** Decimal text of a natural number, as '{}'.format(n) writes it. */
  function NatToString(n: nat): (r: string)
    ensures r != [] && AllDigits(r)
  {
    if n < 10 then [('0' as int + n) as char]
    else NatToString(n / 10) + [('0' as int + n % 10) as char]
  }

  /** Value of a string of decimal digits. */
  function DigitsValue(s: string): nat
    requires AllDigits(s)
  {
    if s == [] then 0 else DigitsValue(s[..|s| - 1]) * 10 + (s[|s| - 1] as int - '0' as int)
  }

  lemma {:induction false} DigitsValueOfNatToString(n: nat)
    ensures DigitsValue(NatToString(n)) == n
  {
    if n >= 10 {
      var r := NatToString(n);
      DigitsValueOfNatToString(n / 10);
      assert r[..|r| - 1] == NatToString(n / 10);
    }
  }

  /** Decimal text of an integer, as '{}'.format(i) or str(i) writes it. */
  function IntToString(i: int): (r: string)
    ensures r != [] && !IsSpace(r[0]) && !IsSpace(r[|r| - 1])
  {
    if i < 0 then "-" + NatToString(-i) else NatToString(i)
  }

  /**
   * Python's int(s) on decimal text: whitespace around it is ignored, one
   * optional sign, then at least one digit; anything else raises ValueError (None).
   */
  function ParseInt(s: string): (r: Option<int>)
    ensures r.Some? ==> Strip(s) != []
  {
    var t := Strip(s);
    if t != [] && (t[0] == '-' || t[0] == '+') then
      var digits := t[1..];
      if digits != [] && AllDigits(digits) then
        Some(if t[0] == '-' then -(DigitsValue(digits) as int) else DigitsValue(digits))
      else None
    else if t != [] && AllDigits(t) then Some(DigitsValue(t))
    else None
  }

  /** int(str(i)) == i. */
  lemma ParseIntOfIntToString(i: int)
    ensures ParseInt(IntToString(i)) == Some(i)
  {
    var r := IntToString(i);
    StripUnchanged(r);
    if i < 0 {
      assert r[1..] == NatToString(-i);
      DigitsValueOfNatToString(-i);
    } else {
      DigitsValueOfNatToString(i);
    }
  }
}
