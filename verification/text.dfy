/** The string operations the keyword adapter relies on: `str.split()`, the truthiness of
    `str.strip()`, ASCII `str.lower()`, `sub in s`, `s.count(sub)` and `"\n".join`. */
module Text {

  /** The ASCII characters Python treats as whitespace. */
  predicate IsSpace(c: char) {
    c == ' ' || c == '\t' || c == '\n' || c == '\r' || c == '\U{0B}' || c == '\U{0C}'
    || ('\U{1C}' <= c <= '\U{1F}')
  }

  /** Length of the leading run of non-space characters. */
  function WordLength(s: string): (n: nat)
    ensures n <= |s|
    ensures forall i :: 0 <= i < n ==> !IsSpace(s[i])
    ensures n < |s| ==> IsSpace(s[n])
  {
    if |s| == 0 || IsSpace(s[0]) then 0 else 1 + WordLength(s[1..])
  }

  /** Every character of `s` is whitespace. */
  predicate Blank(s: string) {
    forall i :: 0 <= i < |s| ==> IsSpace(s[i])
  }

  /** `s.split()`: the maximal runs of non-space characters, in order. */
  function Split(s: string): (words: seq<string>)
    ensures forall k :: 0 <= k < |words| ==> |words[k]| > 0 && !Blank(words[k])
    ensures forall k :: 0 <= k < |words| ==> forall i :: 0 <= i < |words[k]| ==> !IsSpace(words[k][i])
    ensures |words| == 0 <==> Blank(s)
    decreases |s|
  {
    if |s| == 0 then []
    else if IsSpace(s[0]) then
      var rest := Split(s[1..]);
      assert Blank(s[1..]) ==> Blank(s) by {
        if Blank(s[1..]) {
          forall i | 0 <= i < |s|
            ensures IsSpace(s[i])
          {
            if i > 0 {
              assert s[i] == s[1..][i - 1];
            }
          }
        }
      }
      rest
    else
      var n := WordLength(s);
      [s[..n]] + Split(s[n..])
  }

  /** `" ".join(words)`. */
  function JoinWithSpace(words: seq<string>): string {
    if |words| == 0 then ""
    else if |words| == 1 then words[0]
    else words[0] + " " + JoinWithSpace(words[1..])
  }

  /** The words are the maximal non-space runs: joining space-free words with single spaces
      and splitting again gives them back. */
  lemma {:induction false} SplitJoinRoundTrip(words: seq<string>)
    requires forall k :: 0 <= k < |words| ==> |words[k]| > 0
    requires forall k :: 0 <= k < |words| ==> forall i :: 0 <= i < |words[k]| ==> !IsSpace(words[k][i])
    ensures Split(JoinWithSpace(words)) == words
    decreases |words|
  {
    if |words| == 1 {
      var w := words[0];
      WordLengthOfWord(w, "");
      assert w[..|w|] + [] == w;
      assert w + "" == w;
      assert w[|w|..] == "";
    } else if |words| > 1 {
      var w, rest := words[0], JoinWithSpace(words[1..]);
      var s := w + " " + rest;
      assert s == w + (" " + rest);
      WordLengthOfWord(w, " " + rest);
      assert s[..|w|] == w;
      assert s[|w|..] == " " + rest;
      assert (" " + rest)[1..] == rest;
      SplitJoinRoundTrip(words[1..]);
      assert Split(s[|w|..]) == words[1..];
      assert Split(s) == [w] + words[1..];
    }
  }

  /** A space-free word followed by nothing or by whitespace is one leading run. */
  lemma {:induction false} WordLengthOfWord(w: string, rest: string)
    requires forall i :: 0 <= i < |w| ==> !IsSpace(w[i])
    requires |rest| == 0 || IsSpace(rest[0])
    ensures WordLength(w + rest) == |w|
    decreases |w|
  {
    if |w| == 0 {
      assert w + rest == rest;
    } else {
      assert (w + rest)[1..] == w[1..] + rest;
      WordLengthOfWord(w[1..], rest);
    }
  }

  /** All non-space characters of `s`, in order. */
  function NonSpace(s: string): string {
    if |s| == 0 then "" else (if IsSpace(s[0]) then "" else [s[0]]) + NonSpace(s[1..])
  }

  function Concat(words: seq<string>): string {
    if |words| == 0 then "" else words[0] + Concat(words[1..])
  }

  lemma {:induction false} NonSpaceAppend(a: string, b: string)
    ensures NonSpace(a + b) == NonSpace(a) + NonSpace(b)
    decreases |a|
  {
    if |a| > 0 {
      assert (a + b)[1..] == a[1..] + b;
      NonSpaceAppend(a[1..], b);
    } else {
      assert a + b == b;
    }
  }

  lemma {:induction false} NonSpaceOfWord(w: string)
    requires forall i :: 0 <= i < |w| ==> !IsSpace(w[i])
    ensures NonSpace(w) == w
    decreases |w|
  {
    if |w| > 0 {
      NonSpaceOfWord(w[1..]);
    }
  }

  /** Splitting loses exactly the whitespace: the words, joined back, are the non-space text. */
  lemma {:induction false} SplitKeepsText(s: string)
    ensures Concat(Split(s)) == NonSpace(s)
    decreases |s|
  {
    if |s| == 0 {
    } else if IsSpace(s[0]) {
      SplitKeepsText(s[1..]);
    } else {
      var n := WordLength(s);
      SplitKeepsText(s[n..]);
      assert s == s[..n] + s[n..];
      NonSpaceAppend(s[..n], s[n..]);
      NonSpaceOfWord(s[..n]);
      assert ([s[..n]] + Split(s[n..]))[1..] == Split(s[n..]);
    }
  }

  /** `bool(s.strip())`: something is left once whitespace is trimmed from both ends. */
  predicate StripNonEmpty(s: string) {
    !Blank(s)
  }

  function LowerChar(c: char): char {
    if 'A' <= c <= 'Z' then (c as int - 'A' as int + 'a' as int) as char else c
  }

  /** `s.lower()` on ASCII letters. */
  function Lower(s: string): (r: string)
    ensures |r| == |s|
    ensures forall i :: 0 <= i < |s| ==> r[i] == LowerChar(s[i])
  {
    seq(|s|, i requires 0 <= i < |s| => LowerChar(s[i]))
  }

  predicate IsPrefix(p: string, s: string) {
    |p| <= |s| && s[..|p|] == p
  }

  /** `sub in s`. */
  predicate Contains(s: string, sub: string)
    decreases |s|
  {
    IsPrefix(sub, s) || (|s| > 0 && Contains(s[1..], sub))
  }

  /** `s.count(sub)`: non-overlapping occurrences scanned left to right; an empty `sub`
      occurs `|s| + 1` times. */
  function Count(s: string, sub: string): (r: nat)
    ensures |sub| == 0 ==> r == |s| + 1
    ensures |sub| > 0 ==> r * |sub| <= |s|
    decreases |s|
  {
    if |sub| == 0 then |s| + 1
    else if |s| < |sub| then 0
    else if IsPrefix(sub, s) then
      var rest := Count(s[|sub|..], sub);
      assert (1 + rest) * |sub| == |sub| + rest * |sub|;
      1 + rest
    else Count(s[1..], sub)
  }

  /** A positive count is the same thing as containment. */
  lemma {:induction false} CountPositiveIffContains(s: string, sub: string)
    ensures Count(s, sub) > 0 <==> Contains(s, sub)
    decreases |s|
  {
    if |sub| == 0 {
    } else if |s| < |sub| {
      NotContainsWhenShorter(s, sub);
    } else if IsPrefix(sub, s) {
    } else {
      CountPositiveIffContains(s[1..], sub);
    }
  }

  lemma {:induction false} NotContainsWhenShorter(s: string, sub: string)
    requires |s| < |sub|
    ensures !Contains(s, sub)
    decreases |s|
  {
    if |s| > 0 {
      NotContainsWhenShorter(s[1..], sub);
    }
  }

  /** `"\n".join(lines)`. */
  function JoinLines(lines: seq<string>): string {
    if |lines| == 0 then ""
    else if |lines| == 1 then lines[0]
    else lines[0] + "\n" + JoinLines(lines[1..])
  }

  /** Length of the leading run of characters other than a newline. */
  function LineLength(s: string): (n: nat)
    ensures n <= |s|
    ensures forall i :: 0 <= i < n ==> s[i] != '\n'
    ensures n < |s| ==> s[n] == '\n'
  {
    if |s| == 0 || s[0] == '\n' then 0 else 1 + LineLength(s[1..])
  }

  /** A newline-free line followed by nothing or by a newline is one leading run. */
  lemma {:induction false} LineLengthOfLine(l: string, rest: string)
    requires forall i :: 0 <= i < |l| ==> l[i] != '\n'
    requires |rest| == 0 || rest[0] == '\n'
    ensures LineLength(l + rest) == |l|
    decreases |l|
  {
    if |l| == 0 {
      assert l + rest == rest;
    } else {
      assert (l + rest)[1..] == l[1..] + rest;
      LineLengthOfLine(l[1..], rest);
    }
  }

  /** `s.split("\n")`: the text between newlines, an empty string included. */
  function SplitNewlines(s: string): (lines: seq<string>)
    ensures |lines| > 0
    decreases |s|
  {
    var n := LineLength(s);
    if n == |s| then [s] else [s[..n]] + SplitNewlines(s[n + 1..])
  }

  /** Joining newline-free lines loses nothing: splitting at the newlines gives them back. */
  lemma {:induction false} JoinLinesRoundTrip(lines: seq<string>)
    requires |lines| > 0
    requires forall k :: 0 <= k < |lines| ==> forall i :: 0 <= i < |lines[k]| ==> lines[k][i] != '\n'
    ensures SplitNewlines(JoinLines(lines)) == lines
    decreases |lines|
  {
    var l := lines[0];
    if |lines| == 1 {
      LineLengthOfLine(l, "");
      assert l + "" == l;
    } else {
      var rest := JoinLines(lines[1..]);
      var s := l + "\n" + rest;
      assert s == l + ("\n" + rest);
      LineLengthOfLine(l, "\n" + rest);
      assert s[..|l|] == l;
      assert s[|l| + 1..] == rest;
      JoinLinesRoundTrip(lines[1..]);
      assert SplitNewlines(s) == [l] + lines[1..];
    }
  }
}
