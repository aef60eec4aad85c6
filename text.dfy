/** The string operations of Python that the scripts rely on, restricted to what they need:
    `str.strip`, `str.lower` (ASCII letters only), `re.findall(r"\b\w+\b", ...)` (ASCII word
    characters), `sep.join`, `str.split(sep)`, string ordering and `sorted` of a set of strings. */
module Text {

  /** The code points for which Python's `str.isspace` holds; `str.strip()` and the regex
      class `\s` remove or match exactly these. */
  predicate IsSpace(c: char) {
    || c == ' ' || '\t' <= c <= '\r' || '\U{1c}' <= c <= '\U{1f}' || c == '\U{85}' || c == '\U{a0}'
    || c == '\U{1680}' || '\U{2000}' <= c <= '\U{200a}' || c == '\U{2028}' || c == '\U{2029}'
    || c == '\U{202f}' || c == '\U{205f}' || c == '\U{3000}'
  }

  predicate IsAlnum(c: char) {
    'a' <= c <= 'z' || 'A' <= c <= 'Z' || '0' <= c <= '9'
  }

  /** The regex class `\w`, restricted to ASCII. */
  predicate IsWordChar(c: char) {
    IsAlnum(c) || c == '_'
  }

  predicate IsUpper(c: char) {
    'A' <= c <= 'Z'
  }

  function LowerChar(c: char): (d: char)
    ensures !IsUpper(d)
    ensures IsWordChar(d) == IsWordChar(c) && IsAlnum(d) == IsAlnum(c) && IsSpace(d) == IsSpace(c)
  {
    if IsUpper(c) then (c as int + 32) as char else c
  }

  /** `s.lower()` on ASCII letters; every other character is kept. */
  function Lower(s: string): (r: string)
    ensures |r| == |s|
    ensures forall k :: 0 <= k < |r| ==> !IsUpper(r[k])
    ensures forall k :: 0 <= k < |r| ==> r[k] == LowerChar(s[k])
  {
    seq(|s|, k requires 0 <= k < |s| => LowerChar(s[k]))
  }

  // ---------------------------------------------------------------------------------------
  // str.strip()

  /** The first position at or after `i` that does not hold whitespace, or `|s|`. */
  function SkipSpaces(s: string, i: nat): (j: nat)
    requires i <= |s|
    ensures i <= j <= |s|
    ensures forall k :: i <= k < j ==> IsSpace(s[k])
    ensures j < |s| ==> !IsSpace(s[j])
    decreases |s| - i
  {
    if i < |s| && IsSpace(s[i]) then SkipSpaces(s, i + 1) else i
  }

  /** The end of `s[lo..hi]` once its trailing whitespace is cut off. */
  function TrimEnd(s: string, lo: nat, hi: nat): (j: nat)
    requires lo <= hi <= |s|
    ensures lo <= j <= hi
    ensures forall k :: j <= k < hi ==> IsSpace(s[k])
    ensures j > lo ==> !IsSpace(s[j - 1])
    decreases hi
  {
    if hi > lo && IsSpace(s[hi - 1]) then TrimEnd(s, lo, hi - 1) else hi
  }

  /** `s.strip()`: `s` without its leading and trailing whitespace. The result is the slice
      `s[a..b]` with everything before `a` and from `b` on whitespace, and it neither starts
      nor ends with whitespace, so it is empty exactly when `s` is all whitespace. */
  function Strip(s: string): (r: string)
    ensures |r| <= |s|
  {
    var a := SkipSpaces(s, 0);
    var b := TrimEnd(s, a, |s|);
    s[a..b]
  }

  /** What `Strip` leaves: a slice of `s` that neither starts nor ends with whitespace, empty
      exactly when `s` is all whitespace; what it cuts off on either side is whitespace. */
  lemma StripTrims(s: string)
    ensures var r := Strip(s);
            && (r != [] ==> !IsSpace(r[0]) && !IsSpace(r[|r| - 1]))
            && (r == [] <==> forall k :: 0 <= k < |s| ==> IsSpace(s[k]))
            && exists a, b :: && 0 <= a <= b <= |s| && r == s[a..b]
                              && (forall k :: 0 <= k < a ==> IsSpace(s[k]))
                              && (forall k :: b <= k < |s| ==> IsSpace(s[k]))
  {
    var a := SkipSpaces(s, 0);
    var b := TrimEnd(s, a, |s|);
    assert a < b ==> s[a..b][0] == s[a];
  }

  lemma StripKeeps(s: string)
    requires s == [] || (!IsSpace(s[0]) && !IsSpace(s[|s| - 1]))
    ensures Strip(s) == s
  {
  }

  // ---------------------------------------------------------------------------------------
  // re.findall(r"\b\w+\b", s)

  predicate IsWord(w: string) {
    w != [] && forall k :: 0 <= k < |w| ==> IsWordChar(w[k])
  }

  /** Length of the longest prefix of `s` made of word characters. */
  function WordRunLength(s: string): (n: nat)
    ensures n <= |s|
    ensures forall k :: 0 <= k < n ==> IsWordChar(s[k])
    ensures n < |s| ==> !IsWordChar(s[n])
  {
    if s != [] && IsWordChar(s[0]) then 1 + WordRunLength(s[1..]) else 0
  }

  /** `re.findall(r"\b\w+\b", s)`: the maximal runs of word characters, left to right. */
  function Words(s: string): (ws: seq<string>)
    ensures forall k :: 0 <= k < |ws| ==> IsWord(ws[k])
    decreases |s|
  {
    if s == [] then []
    else if !IsWordChar(s[0]) then Words(s[1..])
    else
      var n := WordRunLength(s);
      [s[..n]] + Words(s[n..])
  }

  /** A single word is its own only token. */
  lemma WordsOfWord(w: string)
    requires IsWord(w)
    ensures Words(w) == [w]
  {
    WordsOfWordThen(w, "");
    assert w + "" == w;
  }

  /** A character that is not a word character separates tokens: the tokens on its two
      sides are found independently. */
  lemma {:induction false} WordsSplitAt(a: string, c: char, b: string)
    requires !IsWordChar(c)
    ensures Words(a + [c] + b) == Words(a) + Words(b)
    decreases |a|
  {
    var s := a + [c] + b;
    if a == [] {
      assert s[1..] == b;
    } else if !IsWordChar(a[0]) {
      assert s[1..] == a[1..] + [c] + b;
      WordsSplitAt(a[1..], c, b);
    } else {
      var n := WordRunLength(a);
      WordRunOfConcat(a, [c] + b);
      assert s == a + ([c] + b);
      assert s[..n] == a[..n];
      assert s[n..] == a[n..] + [c] + b;
      WordsSplitAt(a[n..], c, b);
    }
  }

  /** A word run that stops inside `a`, or at its end before a non-word character, is the
      same run in `a + t`. */
  lemma {:induction false} WordRunOfConcat(a: string, t: string)
    requires t != [] && !IsWordChar(t[0])
    ensures WordRunLength(a + t) == WordRunLength(a)
    decreases |a|
  {
    if a != [] && IsWordChar(a[0]) {
      assert (a + t)[1..] == a[1..] + t;
      WordRunOfConcat(a[1..], t);
    }
  }

  // ---------------------------------------------------------------------------------------
  // sep.join(parts) and s.split(sep)

  /** `sep.join(parts)`. */
  function Join(parts: seq<string>, sep: string): string {
    if |parts| == 0 then ""
    else if |parts| == 1 then parts[0]
    else parts[0] + sep + Join(parts[1..], sep)
  }

  predicate OccursAt(s: string, sep: string, i: nat) {
    i + |sep| <= |s| && s[i..i + |sep|] == sep
  }

  /** `s.find(sep, i)`: the first position at or after `i` where `sep` occurs in `s`, or -1. */
  function FindFrom(s: string, sep: string, i: nat): (k: int)
    requires sep != [] && i <= |s|
    ensures -1 <= k <= |s|
    ensures k == -1 ==> forall j: nat :: i <= j ==> !OccursAt(s, sep, j)
    ensures k >= 0 ==> i <= k && OccursAt(s, sep, k)
                       && forall j: nat :: i <= j < k ==> !OccursAt(s, sep, j)
    decreases |s| - i
  {
    if i + |sep| > |s| then -1
    else if s[i..i + |sep|] == sep then i
    else FindFrom(s, sep, i + 1)
  }

  /** `s.find(sep)`. */
  function Find(s: string, sep: string): (k: int)
    requires sep != []
    ensures -1 <= k <= |s|
    ensures k == -1 ==> forall j: nat :: !OccursAt(s, sep, j)
    ensures k >= 0 ==> OccursAt(s, sep, k) && forall j: nat :: j < k ==> !OccursAt(s, sep, j)
  {
    FindFrom(s, sep, 0)
  }

  lemma OccursInPrefix(s: string, sep: string, k: nat, i: nat)
    requires k <= |s|
    ensures OccursAt(s[..k], sep, i) ==> OccursAt(s, sep, i) && i + |sep| <= k
  {
    if OccursAt(s[..k], sep, i) {
      assert s[..k][i..i + |sep|] == s[i..i + |sep|];
    }
  }

  /** `s.split(sep)` for a non-empty separator: the pieces between the leftmost
      non-overlapping occurrences of `sep`; none of them contains `sep`. */
  function Split(s: string, sep: string): (r: seq<string>)
    requires sep != []
    ensures |r| >= 1
    ensures forall j, i: nat :: 0 <= j < |r| ==> !OccursAt(r[j], sep, i)
    decreases |s|
  {
    var k := Find(s, sep);
    if k == -1 then [s]
    else
      assert forall i: nat :: !OccursAt(s[..k], sep, i) by {
        forall i: nat ensures !OccursAt(s[..k], sep, i) {
          OccursInPrefix(s, sep, k, i);
        }
      }
      [s[..k]] + Split(s[k + |sep|..], sep)
  }

  /** Splitting and joining again gives back the string. */
  lemma {:induction false} JoinSplit(s: string, sep: string)
    requires sep != []
    ensures Join(Split(s, sep), sep) == s
    decreases |s|
  {
    var k := Find(s, sep);
    if k != -1 {
      var rest := s[k + |sep|..];
      var tail := Split(rest, sep);
      JoinSplit(rest, sep);
      assert Split(s, sep) == [s[..k]] + tail;
      assert |tail| >= 1;
      assert Join([s[..k]] + tail, sep) == s[..k] + sep + Join(tail, sep) by {
        assert ([s[..k]] + tail)[1..] == tail;
      }
      assert s[k..k + |sep|] == sep;
      assert s == s[..k] + s[k..k + |sep|] + rest;
    }
  }

  lemma FindIs(s: string, sep: string, k: nat)
    requires sep != [] && OccursAt(s, sep, k)
    requires forall j: nat :: j < k ==> !OccursAt(s, sep, j)
    ensures Find(s, sep) == k
  {
  }

  /** Joining pieces none of which contains the first character of `sep`, then splitting
      on `sep`, gives back exactly the pieces. */
  lemma {:induction false} SplitJoin(parts: seq<string>, sep: string)
    requires sep != [] && parts != []
    requires forall j :: 0 <= j < |parts| ==> sep[0] !in parts[j]
    ensures Split(Join(parts, sep), sep) == parts
  {
    var p := parts[0];
    if |parts| == 1 {
      assert Join(parts, sep) == p;
      forall i: nat ensures !OccursAt(p, sep, i) {
        if i < |p| { assert p[i] in p; }
      }
    } else {
      var rest := Join(parts[1..], sep);
      var s := p + sep + rest;
      assert Join(parts, sep) == s;
      forall i: nat | i < |p| ensures !OccursAt(s, sep, i) {
        assert s[i] == p[i] && p[i] in p;
      }
      assert s[|p|..|p| + |sep|] == sep;
      FindIs(s, sep, |p|);
      assert s[..|p|] == p;
      assert s[|p| + |sep|..] == rest;
      SplitJoin(parts[1..], sep);
      assert Split(s, sep) == [p] + parts[1..];
    }
  }

  /** Joining words with single spaces and tokenising again gives back the words: the
      normalised text of a document normalises to itself. */
  lemma {:induction false} WordsOfJoin(ws: seq<string>)
    requires forall k :: 0 <= k < |ws| ==> IsWord(ws[k])
    ensures Words(Join(ws, " ")) == ws
  {
    if |ws| == 1 {
      assert Join(ws, " ") == ws[0] + "";
      WordsOfWordThen(ws[0], "");
    } else if |ws| > 1 {
      var tail := Join(ws[1..], " ");
      var rest := " " + tail;
      assert Join(ws, " ") == ws[0] + rest;
      WordsOfWordThen(ws[0], rest);
      assert rest[1..] == tail;
      WordsOfJoin(ws[1..]);
      assert ws == [ws[0]] + ws[1..];
    }
  }

  /** A word followed by nothing or by a non-word character is the first token. */
  lemma WordsOfWordThen(w: string, rest: string)
    requires IsWord(w) && (rest == [] || !IsWordChar(rest[0]))
    ensures Words(w + rest) == [w] + Words(rest)
  {
    var s := w + rest;
    WordRunOfPrefix(w, rest);
    assert s[..|w|] == w && s[|w|..] == rest;
  }

  lemma {:induction false} WordRunOfPrefix(w: string, rest: string)
    requires IsWord(w)
    requires rest == [] || !IsWordChar(rest[0])
    ensures WordRunLength(w + rest) == |w|
    decreases |w|
  {
    var s := w + rest;
    if |w| > 1 {
      assert s[1..] == w[1..] + rest;
      WordRunOfPrefix(w[1..], rest);
    } else {
      assert s[1..] == rest;
    }
  }

  // ---------------------------------------------------------------------------------------
  // Python string ordering and sorted(set_of_strings)

  /** Python's `a <= b` on strings: lexicographic by code point, a prefix first. */
  predicate LexLe(a: string, b: string)
    decreases |a|
  {
    a == [] || (b != [] && (a[0] < b[0] || (a[0] == b[0] && LexLe(a[1..], b[1..]))))
  }

  lemma {:induction false} LexLeTotal(a: string, b: string)
    ensures LexLe(a, b) || LexLe(b, a)
    decreases |a|
  {
    if a != [] && b != [] && a[0] == b[0] { LexLeTotal(a[1..], b[1..]); }
  }

  lemma {:induction false} LexLeAntisymmetric(a: string, b: string)
    requires LexLe(a, b) && LexLe(b, a)
    ensures a == b
    decreases |a|
  {
    if a != [] {
      LexLeAntisymmetric(a[1..], b[1..]);
      assert a == [a[0]] + a[1..] && b == [b[0]] + b[1..];
    }
  }

  lemma {:induction false} LexLeTransitive(a: string, b: string, c: string)
    requires LexLe(a, b) && LexLe(b, c)
    ensures LexLe(a, c)
    decreases |a|
  {
    if a != [] && a[0] == b[0] && b[0] == c[0] { LexLeTransitive(a[1..], b[1..], c[1..]); }
  }

  predicate IsLeast(m: string, s: set<string>) {
    m in s && forall x :: x in s ==> LexLe(m, x)
  }

  lemma {:induction false} LeastExists(s: set<string>)
    requires s != {}
    ensures exists m :: IsLeast(m, s)
    decreases |s|
  {
    var y :| y in s;
    var rest := s - {y};
    if rest == {} {
      assert s == {y};
      LexLeTotal(y, y);
      assert IsLeast(y, s);
    } else {
      LeastExists(rest);
      var m :| IsLeast(m, rest);
      LexLeTotal(m, y);
      if LexLe(m, y) {
        assert IsLeast(m, s);
      } else {
        forall x | x in s ensures LexLe(y, x) {
          if x != y { LexLeTransitive(y, m, x); } else { LexLeTotal(y, y); }
        }
        assert IsLeast(y, s);
      }
    }
  }

  lemma LeastUnique(s: set<string>)
    ensures forall m, n :: IsLeast(m, s) && IsLeast(n, s) ==> m == n
  {
    forall m, n | IsLeast(m, s) && IsLeast(n, s) ensures m == n {
      LexLeAntisymmetric(m, n);
    }
  }

  predicate SortedLex(r: seq<string>) {
    forall i, j :: 0 <= i < j < |r| ==> LexLe(r[i], r[j])
  }

  /** `sorted(s)` for a set of strings: each element exactly once, in ascending order. */
  function SortedElements(s: set<string>): (r: seq<string>)
    ensures |r| == |s|
    ensures forall x :: x in r <==> x in s
    ensures SortedLex(r)
    decreases |s|
  {
    if s == {} then []
    else
      LeastExists(s);
      LeastUnique(s);
      var m :| IsLeast(m, s);
      var tail := SortedElements(s - {m});
      assert forall x :: x in tail ==> LexLe(m, x);
      [m] + tail
  }
}
