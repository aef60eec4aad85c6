/** index_extraction.py: every text file under the converted tree is tokenised, each
    occurrence of the token "index" or "indices" yields the phrase made of it and up to three
    tokens before it, the phrases of a file are stored as one "; "-joined string, and a second
    pass splits those strings again, normalises each phrase and inverts them into a
    dictionary from normalised phrase to the files it was found in, which is then summarised. */
module IndexExtraction {
  import opened Outcomes
  import opened Text
  import opened Paths
  import opened Summary

  // ---------------------------------------------------------------------------------------
  // Tokens and keyword windows

  /** A token as the tokeniser produces it: a run of word characters with no upper-case
      letter, since the text is lower-cased first. */
  predicate IsToken(w: string) {
    IsWord(w) && forall k :: 0 <= k < |w| ==> !IsUpper(w[k])
  }

  /** A character of a "; "-free, lower-case phrase: a word character or a space. */
  predicate IsPhraseChar(c: char) {
    c == ' ' || (IsWordChar(c) && !IsUpper(c))
  }

  /** The word runs of a text without upper-case letters have none either. */
  lemma {:induction false} WordsOfLowerText(s: string)
    requires forall k :: 0 <= k < |s| ==> !IsUpper(s[k])
    ensures forall k :: 0 <= k < |Words(s)| ==> IsToken(Words(s)[k])
    decreases |s|
  {
    if s != [] {
      if !IsWordChar(s[0]) {
        WordsOfLowerText(s[1..]);
      } else {
        var n := WordRunLength(s);
        WordsOfLowerText(s[n..]);
        assert Words(s) == [s[..n]] + Words(s[n..]);
      }
    }
  }

  /** `re.findall(r"\b\w+\b", text.lower())`: the lower-cased word runs of the text. */
  function Tokens(text: string): (ts: seq<string>)
    ensures forall k :: 0 <= k < |ts| ==> IsToken(ts[k])
  {
    WordsOfLowerText(Lower(text));
    Words(Lower(text))
  }

  predicate IsKeyword(t: string) {
    t == "index" || t == "indices"
  }

  /** `max(i - 3, 0)`: the window reaches back at most three tokens. */
  function WindowStart(i: nat): nat {
    if i >= 3 then i - 3 else 0
  }

  /** `" ".join(tokens[start:i+1]).strip()`. */
  function Window(tokens: seq<string>, i: nat): string
    requires i < |tokens|
  {
    Strip(Join(tokens[WindowStart(i)..i + 1], " "))
  }

  /** The phrases of one text: the window of every keyword token. */
  function Phrases(tokens: seq<string>): set<string> {
    set i: nat | i < |tokens| && IsKeyword(tokens[i]) :: Window(tokens, i)
  }

  /** The loop of step 1 over one file's tokens. */
  method FindPhrases(tokens: seq<string>) returns (found: set<string>)
    ensures found == Phrases(tokens)
  {
    found := {};
    for i := 0 to |tokens|
      invariant found == set k: nat | k < i && IsKeyword(tokens[k]) :: Window(tokens, k)
    {
      if tokens[i] == "index" || tokens[i] == "indices" {
        var start := if i - 3 > 0 then i - 3 else 0;
        var phrase := Strip(Join(tokens[start..i + 1], " "));
        found := found + {phrase};
      }
    }
  }

  /** Lower-case tokens joined by single spaces: only phrase characters, a word character
      first, and the last token at the end, after a space when there are several tokens. */
  lemma {:induction false} JoinTokensShape(ws: seq<string>)
    requires |ws| >= 1
    requires forall k :: 0 <= k < |ws| ==> IsToken(ws[k])
    ensures var s := Join(ws, " ");
            var last := ws[|ws| - 1];
            && (forall j :: 0 <= j < |s| ==> IsPhraseChar(s[j]))
            && |last| <= |s| && s[|s| - |last|..] == last
            && |s| > 0 && IsWordChar(s[0])
            && (|ws| >= 2 ==> |last| < |s| && s[|s| - |last| - 1] == ' ')
  {
    var s := Join(ws, " ");
    if |ws| == 1 {
      assert s == ws[0];
    } else {
      var tail := Join(ws[1..], " ");
      JoinTokensShape(ws[1..]);
      assert s == ws[0] + " " + tail;
      forall j | 0 <= j < |s| ensures IsPhraseChar(s[j]) {
        if j > |ws[0]| {
          assert s[j] == tail[j - |ws[0]| - 1];
        }
      }
      assert s[0] == ws[0][0];
      var last := ws[|ws| - 1];
      assert s[|s| - |tail|..] == tail;
      if |ws| == 2 {
        assert tail == last;
        assert s[|s| - |last| - 1] == ' ';
      } else {
        assert s[|s| - |last| - 1] == tail[|tail| - |last| - 1];
      }
    }
  }

  /** Stripping a joined window changes nothing. */
  lemma WindowIsJoin(tokens: seq<string>, i: nat)
    requires i < |tokens| && IsKeyword(tokens[i])
    requires forall k :: 0 <= k < |tokens| ==> IsToken(tokens[k])
    ensures var ws := tokens[WindowStart(i)..i + 1];
            var w := Join(ws, " ");
            && Window(tokens, i) == w
            && (forall j :: 0 <= j < |w| ==> IsPhraseChar(w[j]))
            && IsWordChar(w[0])
            && |tokens[i]| <= |w| && w[|w| - |tokens[i]|..] == tokens[i]
            && (|w| == |tokens[i]| || w[|w| - |tokens[i]| - 1] == ' ')
  {
    var ws := tokens[WindowStart(i)..i + 1];
    assert ws[|ws| - 1] == tokens[i];
    JoinTokensShape(ws);
    var w := Join(ws, " ");
    assert IsWordChar(w[|w| - 1]) by {
      assert w[|w| - 1] == tokens[i][|tokens[i]| - 1];
    }
    StripKeeps(w);
  }

  /** Shape of a phrase: it is the one to four window tokens joined by single spaces, it
      ends with the keyword itself, after a space unless the keyword is the first token, and
      it holds only lower-case word characters and spaces, so neither a ';' nor the sentinel
      "None". */
  lemma WindowShape(tokens: seq<string>, i: nat)
    requires i < |tokens| && IsKeyword(tokens[i])
    requires forall k :: 0 <= k < |tokens| ==> IsToken(tokens[k])
    ensures var w := Window(tokens, i);
            && 1 <= |tokens[WindowStart(i)..i + 1]| <= 4
            && w != [] && PhraseChars(w)
            && ';' !in w && w != "None"
  {
    WindowTail(tokens, i);
    PhraseHasNoSeparator(Window(tokens, i));
  }

  /** A lower-case phrase holds no ';' and is not the sentinel "None". */
  lemma PhraseHasNoSeparator(w: string)
    requires PhraseChars(w)
    ensures ';' !in w && w != "None"
  {
    forall j | 0 <= j < |w| ensures w[j] != ';' {
      assert IsPhraseChar(w[j]);
    }
    if |w| == 4 {
      assert IsPhraseChar(w[0]);
    }
  }

  /** Tokenising a phrase gives back its window: the phrase is exactly those tokens. */
  lemma WindowWords(tokens: seq<string>, i: nat)
    requires i < |tokens| && IsKeyword(tokens[i])
    requires forall k :: 0 <= k < |tokens| ==> IsToken(tokens[k])
    ensures Words(Window(tokens, i)) == tokens[WindowStart(i)..i + 1]
  {
    WindowIsJoin(tokens, i);
    SliceOfWords(tokens, WindowStart(i), i + 1);
    WordsOfJoin(tokens[WindowStart(i)..i + 1]);
  }

  lemma SliceOfWords(tokens: seq<string>, a: nat, b: nat)
    requires a <= b <= |tokens| && forall k :: 0 <= k < |tokens| ==> IsToken(tokens[k])
    ensures forall k :: 0 <= k < b - a ==> IsWord(tokens[a..b][k])
  {
    forall k | 0 <= k < b - a ensures IsWord(tokens[a..b][k]) {
      assert tokens[a..b][k] == tokens[a + k];
    }
  }

  // ---------------------------------------------------------------------------------------
  // normalize_index_phrase

  /** The first letter or digit at or after `i`, or `|s|`; `[\W_]` is everything else. */
  function FirstAlnum(s: string, i: nat): (j: nat)
    requires i <= |s|
    ensures i <= j <= |s|
    ensures forall k :: i <= k < j ==> !IsAlnum(s[k])
    ensures j < |s| ==> IsAlnum(s[j])
    decreases |s| - i
  {
    if i < |s| && !IsAlnum(s[i]) then FirstAlnum(s, i + 1) else i
  }

  /** The end of `s[lo..hi]` once its trailing non-alphanumeric run is cut off. */
  function EndAlnum(s: string, lo: nat, hi: nat): (j: nat)
    requires lo <= hi <= |s|
    ensures lo <= j <= hi
    ensures forall k :: j <= k < hi ==> !IsAlnum(s[k])
    ensures j > lo ==> IsAlnum(s[j - 1])
    decreases hi
  {
    if hi > lo && !IsAlnum(s[hi - 1]) then EndAlnum(s, lo, hi - 1) else hi
  }

  /** `re.sub(r'^[\W_]+|[\W_]+$', '', s)`: the leading and the trailing run of characters
      other than letters and digits are removed. */
  function TrimNonWord(s: string): string {
    var a := FirstAlnum(s, 0);
    s[a..EndAlnum(s, a, |s|)]
  }

  const Stopwords: seq<string> := ["the", "of", "a", "an", "and"]

  /** `s` starts with the word `w` followed by whitespace. */
  predicate StopwordAt(s: string, w: string) {
    |w| < |s| && s[..|w|] == w && IsSpace(s[|w|])
  }

  /** The length of the first word of `ws` that starts `s` and is followed by whitespace,
      or 0 when there is none: the alternation `(the|of|a|an|and)\s` tried in order. */
  function StopwordLength(s: string, ws: seq<string>): (n: nat)
    ensures n == 0 ==> forall k :: 0 <= k < |ws| && ws[k] != [] ==> !StopwordAt(s, ws[k])
    ensures n > 0 ==> n < |s| && IsSpace(s[n]) && s[..n] in ws
  {
    if ws == [] then 0
    else if ws[0] != [] && StopwordAt(s, ws[0]) then |ws[0]|
    else StopwordLength(s, ws[1..])
  }

  /** Where the text left by `re.sub(r'^(the|of|a|an|and)\s+', '', s)` starts: after the
      stopword and the whole run of whitespace that follows it, or at 0. */
  function StopwordCut(s: string): (j: nat)
    ensures j <= |s|
    ensures j > 0 ==> IsSpace(s[j - 1]) && StopwordLength(s, Stopwords) > 0
    ensures j == 0 ==> StopwordLength(s, Stopwords) == 0
  {
    var n := StopwordLength(s, Stopwords);
    if n == 0 then 0 else SkipSpaces(s, n)
  }

  /** `re.sub(r'^(the|of|a|an|and)\s+', '', s)`: one leading stopword and the whitespace
      after it are removed. */
  function DropStopword(s: string): string {
    s[StopwordCut(s)..]
  }

  /** `normalize_index_phrase(phrase)`. */
  function Normalize(phrase: string): string {
    DropStopword(TrimNonWord(Strip(Lower(phrase))))
  }

  predicate HasAlnum(s: string) {
    exists k :: 0 <= k < |s| && IsAlnum(s[k])
  }

  predicate NoUpper(s: string) {
    forall k :: 0 <= k < |s| ==> !IsUpper(s[k])
  }

  lemma AlnumIsNotSpace(c: char)
    requires IsAlnum(c)
    ensures !IsSpace(c)
  {
  }

  lemma SliceNoUpper(s: string, a: nat, b: nat)
    requires a <= b <= |s| && NoUpper(s)
    ensures NoUpper(s[a..b])
  {
    assert forall k :: 0 <= k < b - a ==> s[a..b][k] == s[a + k];
  }

  /** Lower-casing leaves no upper-case letter and keeps letters and digits. */
  lemma LowerSpec(s: string)
    ensures NoUpper(Lower(s))
    ensures HasAlnum(Lower(s)) <==> HasAlnum(s)
  {
    var l := Lower(s);
    if HasAlnum(s) {
      var k :| 0 <= k < |s| && IsAlnum(s[k]);
      assert IsAlnum(l[k]);
    }
    if HasAlnum(l) {
      var k :| 0 <= k < |l| && IsAlnum(l[k]);
      assert IsAlnum(s[k]);
    }
  }

  /** Stripping white space keeps letters and digits. */
  lemma StripHasAlnum(s: string)
    ensures HasAlnum(Strip(s)) <==> HasAlnum(s)
  {
    var a := SkipSpaces(s, 0);
    var b := TrimEnd(s, a, |s|);
    assert Strip(s) == s[a..b];
    if HasAlnum(s) {
      var k :| 0 <= k < |s| && IsAlnum(s[k]);
      AlnumIsNotSpace(s[k]);
      SliceHasAlnum(s, a, b, k);
    }
    if HasAlnum(s[a..b]) {
      var k :| 0 <= k < b - a && IsAlnum(s[a..b][k]);
      SliceHasAlnum(s, a, b, a + k);
    }
  }

  lemma SliceHasAlnum(s: string, a: nat, b: nat, k: nat)
    requires a <= k < b <= |s|
    ensures s[a..b][k - a] == s[k]
    ensures IsAlnum(s[k]) ==> HasAlnum(s) && HasAlnum(s[a..b])
  {
  }

  /** Trimming the non-alphanumeric ends leaves nothing exactly when there is no letter or
      digit, and otherwise a text that starts and ends with one. */
  lemma TrimNonWordSpec(s: string)
    ensures var t := TrimNonWord(s);
            && (t == [] <==> !HasAlnum(s))
            && (t != [] ==> IsAlnum(t[0]) && IsAlnum(t[|t| - 1]))
  {
    var a := FirstAlnum(s, 0);
    var b := EndAlnum(s, a, |s|);
    if a < |s| {
      assert b > a;
      assert TrimNonWord(s)[0] == s[a];
    } else {
      assert forall k :: 0 <= k < |s| ==> !IsAlnum(s[k]);
    }
  }

  /** Dropping a stopword from a text that ends with a letter or digit never empties it. */
  lemma DropStopwordSpec(t: string)
    requires t == [] || IsAlnum(t[|t| - 1])
    ensures var r := DropStopword(t);
            && (r == [] <==> t == [])
            && (r != [] ==> r[|r| - 1] == t[|t| - 1])
  {
    var j := StopwordCut(t);
    if t != [] && j > 0 {
      AlnumIsNotSpace(t[|t| - 1]);
    }
  }

  /** A normalised phrase has no upper-case letter, is empty exactly when the phrase holds
      no letter or digit, and otherwise ends with a letter or digit. */
  lemma NormalizeSpec(phrase: string)
    ensures var r := Normalize(phrase);
            && NoUpper(r)
            && (r == [] <==> !HasAlnum(phrase))
            && (r != [] ==> IsAlnum(r[|r| - 1]))
  {
    var l := Lower(phrase);
    LowerSpec(phrase);
    var s := Strip(l);
    StripHasAlnum(l);
    SliceNoUpper(l, SkipSpaces(l, 0), TrimEnd(l, SkipSpaces(l, 0), |l|));
    var t := TrimNonWord(s);
    TrimNonWordSpec(s);
    var a := FirstAlnum(s, 0);
    SliceNoUpper(s, a, EndAlnum(s, a, |s|));
    DropStopwordSpec(t);
    SliceNoUpper(t, StopwordCut(t), |t|);
  }

  /** The stopword is dropped once only: "the of index" keeps its "of". */
  lemma NormalizeDropsOneStopword()
    ensures Normalize("the of index") == "of index"
  {
    var s := "the of index";
    ExamplePhrase();
    NormalizeOfPhrase(s);
    TrimKeepsAlnumTail(s, 1);
    assert FirstAlnum(s, 0) == 0;
    ExampleCut();
    assert s[4..] == "of index";
  }

  lemma ExamplePhrase()
    ensures var s := "the of index";
            PhraseChars(s) && s != [] && !IsSpace(s[0]) && !IsSpace(s[|s| - 1]) && AlnumTail(s, 1)
  {
    var s := "the of index";
    forall j | 0 <= j < |s| ensures IsPhraseChar(s[j]) {
    }
  }

  lemma ExampleCut()
    ensures StopwordCut("the of index") == 4
  {
    var s := "the of index";
    assert StopwordAt(s, "the");
    assert StopwordLength(s, Stopwords) == 3;
    assert SkipSpaces(s, 3) == 4;
  }

  /** The last `n` characters of `s` are letters or digits. */
  predicate AlnumTail(s: string, n: nat) {
    n <= |s| && forall j :: |s| - n <= j < |s| ==> IsAlnum(s[j])
  }

  lemma AlnumTailOfSuffix(s: string, a: nat, n: nat)
    requires AlnumTail(s, n) && a <= |s| - n
    ensures AlnumTail(s[a..], n)
  {
    assert forall j :: |s| - a - n <= j < |s| - a ==> s[a..][j] == s[a + j];
  }

  lemma SliceOfSuffix(s: string, a: nat, j: nat)
    requires a + j <= |s|
    ensures s[a..][j..] == s[a + j..]
  {
  }

  /** Trimming keeps a tail of `n` letters and digits. */
  lemma TrimKeepsAlnumTail(s: string, n: nat)
    requires 1 <= n && AlnumTail(s, n)
    ensures FirstAlnum(s, 0) <= |s| - n
    ensures TrimNonWord(s) == s[FirstAlnum(s, 0)..]
  {
    assert IsAlnum(s[|s| - n]);
    assert IsAlnum(s[|s| - 1]);
  }

  /** Dropping a stopword keeps a tail of `n` letters and digits. */
  lemma DropKeepsAlnumTail(t: string, n: nat)
    requires AlnumTail(t, n)
    ensures StopwordCut(t) <= |t| - n
  {
    var j := StopwordCut(t);
    if j > |t| - n {
      AlnumIsNotSpace(t[j - 1]);
    }
  }

  /** Characters of a lower-case phrase: word characters and spaces only. */
  predicate PhraseChars(s: string) {
    forall j :: 0 <= j < |s| ==> IsPhraseChar(s[j])
  }

  /** A lower-case phrase is its own lower-case form. */
  lemma LowerOfPhrase(s: string)
    requires PhraseChars(s)
    ensures Lower(s) == s
  {
    forall j | 0 <= j < |s| ensures Lower(s)[j] == s[j] {
      assert IsPhraseChar(s[j]);
    }
  }

  /** On a lower-case phrase without surrounding white space, normalising only trims the
      non-alphanumeric ends and drops a stopword. */
  lemma NormalizeOfPhrase(s: string)
    requires PhraseChars(s) && s != [] && !IsSpace(s[0]) && !IsSpace(s[|s| - 1])
    ensures Normalize(s) == DropStopword(TrimNonWord(s))
  {
    LowerOfPhrase(s);
    StripKeeps(s);
  }

  /** Trimming and dropping a stopword cut a text ending in `n` letters or digits to one of
      its suffixes that still holds those `n`. */
  lemma DropTrimKeepsTail(s: string, n: nat) returns (k: nat)
    requires 1 <= n && AlnumTail(s, n)
    ensures k <= |s| - n && DropStopword(TrimNonWord(s)) == s[k..]
  {
    TrimKeepsAlnumTail(s, n);
    var a := FirstAlnum(s, 0);
    var t := s[a..];
    AlnumTailOfSuffix(s, a, n);
    DropKeepsAlnumTail(t, n);
    var j := StopwordCut(t);
    SliceOfSuffix(s, a, j);
    k := a + j;
  }

  /** A phrase ending in a keyword of letters keeps that keyword: its normal form is the
      suffix of the phrase from some position `k` on, and the keyword lies after `k`. */
  lemma NormalizeKeepsKeyword(s: string, n: nat) returns (k: nat)
    requires PhraseChars(s) && 1 <= n && AlnumTail(s, n) && !IsSpace(s[0])
    ensures k <= |s| - n && Normalize(s) == s[k..]
  {
    AlnumIsNotSpace(s[|s| - 1]);
    NormalizeOfPhrase(s);
    k := DropTrimKeepsTail(s, n);
  }

  /** A keyword window starts with a word character and ends with the keyword's letters. */
  lemma WindowTail(tokens: seq<string>, i: nat)
    requires i < |tokens| && IsKeyword(tokens[i])
    requires forall k :: 0 <= k < |tokens| ==> IsToken(tokens[k])
    ensures var w := Window(tokens, i);
            && PhraseChars(w) && |w| > 0 && !IsSpace(w[0])
            && |tokens[i]| <= |w| && w[|w| - |tokens[i]|..] == tokens[i]
  {
    WindowIsJoin(tokens, i);
  }

  /** A text ending with a keyword ends with that many letters. */
  lemma KeywordTail(w: string, kw: string)
    requires IsKeyword(kw) && |kw| <= |w| && w[|w| - |kw|..] == kw
    ensures AlnumTail(w, |kw|)
  {
    assert forall k :: 0 <= k < |kw| ==> IsAlnum(kw[k]);
    forall j | |w| - |kw| <= j < |w| ensures IsAlnum(w[j]) {
      assert w[j] == kw[j - (|w| - |kw|)];
    }
  }

  /** The normal form of a keyword phrase is a suffix of it that still ends with the keyword:
      trimming and dropping a stopword never reach into the keyword. */
  lemma NormalizedWindowEndsWithKeyword(tokens: seq<string>, i: nat)
    requires i < |tokens| && IsKeyword(tokens[i])
    requires forall k :: 0 <= k < |tokens| ==> IsToken(tokens[k])
    ensures var w := Window(tokens, i);
            var r := Normalize(w);
            var kw := tokens[i];
            && |kw| <= |r| <= |w| && r == w[|w| - |r|..]
            && r[|r| - |kw|..] == kw
  {
    WindowTail(tokens, i);
    NormalizeKeepsEnd(Window(tokens, i), tokens[i]);
  }

  /** A lower-case phrase ending with a keyword normalises to a suffix of itself that
      still ends with the keyword. */
  lemma NormalizeKeepsEnd(s: string, kw: string)
    requires IsKeyword(kw) && PhraseChars(s) && |s| > 0 && !IsSpace(s[0])
    requires |kw| <= |s| && s[|s| - |kw|..] == kw
    ensures var r := Normalize(s);
            && |kw| <= |r| <= |s| && r == s[|s| - |r|..]
            && r[|r| - |kw|..] == kw
  {
    KeywordTail(s, kw);
    var k := NormalizeKeepsKeyword(s, |kw|);
    SuffixKeepsEnd(s, k, kw);
  }

  /** A suffix of `w` that starts before its last `|kw|` characters ends with them too. */
  lemma SuffixKeepsEnd(w: string, k: nat, kw: string)
    requires k + |kw| <= |w| && w[|w| - |kw|..] == kw
    ensures var r := w[k..];
            && |kw| <= |r| <= |w| && r == w[|w| - |r|..]
            && r[|r| - |kw|..] == kw
  {
    SliceOfSuffix(w, k, |w| - k - |kw|);
  }

  // ---------------------------------------------------------------------------------------
  // Step 1: one result row per text file

  /** One row of step 1: the file's folder, its name, and its phrases joined by "; ". */
  datatype ResultRow = ResultRow(folder: string, filename: string, indicesFound: string)

  /** The phrase recorded for a file in which no keyword occurs. */
  const NoIndices := "None"

  const PhraseSeparator := "; "

  /** A name `rglob("*.txt")` matches. */
  predicate IsTxtName(name: string) {
    |name| >= 4 && name[|name| - 4..] == ".txt"
  }

  /** `str(folder)` of a directory relative to the walked root: "." for the root itself. */
  function Folder(dir: Path): string {
    if dir == [] then "." else Join(dir, "/")
  }

  /** The phrase recorded for a file that cannot be read. */
  function ErrorPhrase(name: string, cause: string): string {
    "Error reading " + name + ": " + cause
  }

  /** The phrases of one file: the windows of its keywords, the error phrase when it cannot
      be read, and the sentinel when that leaves nothing. */
  function Found(f: TextFile): set<string> {
    var raw := match f.content
      case Ok(text) => Phrases(Tokens(text))
      case Fails(cause) => {ErrorPhrase(f.name, cause)};
    if raw == {} then {NoIndices} else raw
  }

  /** The row step 1 appends for a file; `f"{txt_path.stem}.txt"` is its file name. */
  function ResultOf(f: TextFile): ResultRow
    requires IsTxtName(f.name)
  {
    ResultRow(Folder(f.dir), Stem(f.name) + ".txt", Join(SortedElements(Found(f)), PhraseSeparator))
  }

  /** The body of step 1's loop for one file. */
  method FileResult(f: TextFile) returns (row: ResultRow)
    requires IsTxtName(f.name)
    ensures row == ResultOf(f)
  {
    var found: set<string>;
    match f.content {
      case Ok(text) =>
        found := FindPhrases(Tokens(text));
      case Fails(cause) =>
        found := {ErrorPhrase(f.name, cause)};
    }
    if found == {} {
      found := {NoIndices};
    }
    row := ResultRow(Folder(f.dir), Stem(f.name) + ".txt", Join(SortedElements(found), PhraseSeparator));
  }

  /** No phrase is found exactly when no token is a keyword. */
  lemma PhrasesEmpty(tokens: seq<string>)
    ensures Phrases(tokens) == {} <==> forall i :: 0 <= i < |tokens| ==> !IsKeyword(tokens[i])
  {
    if i :| 0 <= i < |tokens| && IsKeyword(tokens[i]) {
      assert Window(tokens, i) in Phrases(tokens);
    }
  }

  /** Every phrase of a text is the window of one of its keywords, and is a lower-case
      phrase ending with that keyword. */
  lemma PhraseIsWindow(text: string, q: string) returns (i: nat)
    requires q in Phrases(Tokens(text))
    ensures var tokens := Tokens(text);
            && i < |tokens| && IsKeyword(tokens[i]) && q == Window(tokens, i)
            && PhraseChars(q) && q != [] && ';' !in q && q != NoIndices
  {
    var tokens := Tokens(text);
    i :| i < |tokens| && IsKeyword(tokens[i]) && q == Window(tokens, i);
    WindowShape(tokens, i);
  }

  /** A file's phrases are never empty, and hold the sentinel exactly when the file was read
      and none of its tokens is a keyword; the sentinel then stands alone. */
  lemma FoundSentinel(f: TextFile)
    ensures Found(f) != {}
    ensures NoIndices in Found(f) <==>
              f.content.Ok? && forall i :: 0 <= i < |Tokens(f.content.value)| ==> !IsKeyword(Tokens(f.content.value)[i])
    ensures NoIndices in Found(f) ==> Found(f) == {NoIndices}
  {
    match f.content {
      case Ok(text) =>
        PhrasesEmpty(Tokens(text));
        if NoIndices in Phrases(Tokens(text)) {
          var i := PhraseIsWindow(text, NoIndices);
        }
      case Fails(cause) =>
        assert ErrorPhrase(f.name, cause)[0] == 'E';
    }
  }

  /** What a file's phrases consist of: the windows of its keywords when it can be read, the
      error phrase alone when it cannot. */
  lemma FoundElements(f: TextFile, q: string)
    requires q in Found(f) && q != NoIndices
    ensures f.content.Ok? ==> exists i :: 0 <= i < |Tokens(f.content.value)| && IsKeyword(Tokens(f.content.value)[i])
                                          && q == Window(Tokens(f.content.value), i)
    ensures f.content.Fails? ==> q == ErrorPhrase(f.name, f.content.cause)
  {
    if f.content.Ok? {
      var i := PhraseIsWindow(f.content.value, q);
    }
  }

  /** A file's phrases hold no ';', as long as its error phrase holds none. */
  lemma FoundHasNoSeparator(f: TextFile)
    requires f.content.Fails? ==> ';' !in ErrorPhrase(f.name, f.content.cause)
    ensures forall q :: q in Found(f) ==> ';' !in q
  {
    forall q | q in Found(f) ensures ';' !in q {
      if f.content.Ok? && q != NoIndices {
        var i := PhraseIsWindow(f.content.value, q);
      }
    }
  }

  /** The "; "-joined phrases of a row split back into the file's phrases, sorted and each
      once; this needs an error phrase free of ';', which the script does not ensure. */
  lemma ResultRoundTrip(f: TextFile)
    requires IsTxtName(f.name)
    requires f.content.Fails? ==> ';' !in ErrorPhrase(f.name, f.content.cause)
    ensures Split(ResultOf(f).indicesFound, PhraseSeparator) == SortedElements(Found(f))
  {
    var sorted := SortedElements(Found(f));
    FoundSentinel(f);
    FoundHasNoSeparator(f);
    assert forall j :: 0 <= j < |sorted| ==> sorted[j] in Found(f);
    SplitJoin(sorted, PhraseSeparator);
  }

  /** The reported file name is the file's own name whenever it is more than ".txt". */
  lemma FilenameIsName(name: string)
    requires IsTxtName(name) && |name| > 4
    ensures Stem(name) + ".txt" == name
  {
    RFindIs(name, '.', |name| - 4);
    assert Suffix(name) == ".txt";
  }

  /** A file called ".txt" has no suffix, so it is reported as ".txt.txt". */
  lemma DotTxtExample()
    ensures Stem(".txt") + ".txt" == ".txt.txt"
  {
    RFindIs(".txt", '.', 0);
  }

  /** Step 1's loop over the files of the walk. */
  method ExtractPhrases(files: seq<TextFile>) returns (results: seq<ResultRow>)
    requires forall i :: 0 <= i < |files| ==> IsTxtName(files[i].name)
    ensures |results| == |files|
    ensures forall i :: 0 <= i < |files| ==> results[i] == ResultOf(files[i])
  {
    results := [];
    for i := 0 to |files|
      invariant |results| == i
      invariant forall k :: 0 <= k < i ==> results[k] == ResultOf(files[k])
    {
      var row := FileResult(files[i]);
      AppendRow(results, files, row);
      results := results + [row];
    }
  }

  lemma AppendRow(results: seq<ResultRow>, files: seq<TextFile>, row: ResultRow)
    requires |results| < |files| && forall k :: 0 <= k < |files| ==> IsTxtName(files[k].name)
    requires forall k :: 0 <= k < |results| ==> results[k] == ResultOf(files[k])
    requires row == ResultOf(files[|results|])
    ensures forall k :: 0 <= k <= |results| ==> (results + [row])[k] == ResultOf(files[k])
  {
  }

  // ---------------------------------------------------------------------------------------
  // Step 2: from rows to a dictionary of normalised phrases

  /** `f"{folder}/{filename}"`: how a row names its document. */
  function DocName(r: ResultRow): string {
    r.folder + "/" + r.filename
  }

  /** `phrase and phrase != "None"`: the pieces step 2 keeps. */
  predicate Kept(p: string) {
    p != "" && p != NoIndices
  }

  /** The `(key, document)` pairs the inner loop adds for the pieces of one row. */
  function PhrasePairs(pieces: seq<string>, doc: string): seq<(string, string)> {
    if pieces == [] then []
    else
      var p := pieces[|pieces| - 1];
      PhrasePairs(pieces[..|pieces| - 1], doc) + (if Kept(p) then [(Normalize(p), doc)] else [])
  }

  /** The pieces of a row. */
  function Pieces(r: ResultRow): seq<string> {
    Split(r.indicesFound, PhraseSeparator)
  }

  /** The pairs step 2 adds for one row. */
  function RowPairs(r: ResultRow): seq<(string, string)> {
    PhrasePairs(Pieces(r), DocName(r))
  }

  /** The pairs of each row, row by row. */
  function RowPairsOf(rows: seq<ResultRow>): (runs: seq<seq<(string, string)>>)
    ensures |runs| == |rows| && forall i :: 0 <= i < |rows| ==> runs[i] == RowPairs(rows[i])
  {
    seq(|rows|, i requires 0 <= i < |rows| => RowPairs(rows[i]))
  }

  /** The pairs step 2 adds for all rows, in order. */
  function Pairs(rows: seq<ResultRow>): seq<(string, string)> {
    Concat(RowPairsOf(rows))
  }

  /** `index_to_files` after step 2. */
  function IndexOf(rows: seq<ResultRow>): (g: Grouping)
    ensures ValidGrouping(g)
  {
    AddAllValid(EmptyGrouping, Pairs(rows));
    AddAll(EmptyGrouping, Pairs(rows))
  }

  /** Some kept piece normalises to `k`. */
  predicate PiecesGive(pieces: seq<string>, k: string) {
    exists p :: p in pieces && Kept(p) && Normalize(p) == k
  }

  /** A row contributes key `k`: one of its kept pieces normalises to `k`. */
  predicate RowGives(r: ResultRow, k: string) {
    PiecesGive(Pieces(r), k)
  }

  lemma {:induction false} PhrasePairsMember(pieces: seq<string>, doc: string, k: string, d: string)
    ensures (k, d) in PhrasePairs(pieces, doc) <==> d == doc && PiecesGive(pieces, k)
  {
    if pieces != [] {
      var init := pieces[..|pieces| - 1];
      var p := pieces[|pieces| - 1];
      PhrasePairsMember(init, doc, k, d);
      assert pieces == init + [p];
      if PiecesGive(pieces, k) {
        var q :| q in pieces && Kept(q) && Normalize(q) == k;
        assert q in init || q == p;
      }
      if PiecesGive(init, k) {
        var q :| q in init && Kept(q) && Normalize(q) == k;
        assert q in pieces;
      }
    }
  }

  /** The pairs of the rows up to `i + 1`: those up to `i`, then those of row `i`. */
  lemma PairsStep(rows: seq<ResultRow>, i: nat)
    requires i < |rows|
    ensures Pairs(rows[..i + 1]) == Pairs(rows[..i]) + RowPairs(rows[i])
  {
    var runs := RowPairsOf(rows[..i + 1]);
    assert runs[..i] == RowPairsOf(rows[..i]);
  }

  /** Some row among `rows` gives key `k` and is named `d`. */
  predicate SomeRowGives(rows: seq<ResultRow>, k: string, d: string) {
    exists i :: 0 <= i < |rows| && d == DocName(rows[i]) && RowGives(rows[i], k)
  }

  /** The dictionary lists document `d` under key `k` exactly when some row named `d` has a
      kept piece normalising to `k`. */
  lemma IndexMember(rows: seq<ResultRow>, k: string, d: string)
    ensures var g := IndexOf(rows);
            k in g.docs && d in g.docs[k] <==> SomeRowGives(rows, k, d)
  {
    ConcatMember(RowPairsOf(rows), (k, d));
    AddAllMembers(EmptyGrouping, Pairs(rows));
    if i :| 0 <= i < |rows| && (k, d) in RowPairs(rows[i]) {
      PhrasePairsMember(Pieces(rows[i]), DocName(rows[i]), k, d);
    }
    if i :| 0 <= i < |rows| && d == DocName(rows[i]) && RowGives(rows[i], k) {
      PhrasePairsMember(Pieces(rows[i]), DocName(rows[i]), k, d);
    }
  }

  /** The pairs of a row's first `j + 1` pieces: those of its first `j`, then the last
      piece's pair if it is kept. */
  lemma PhrasePairsStep(pieces: seq<string>, j: nat, doc: string)
    requires j < |pieces|
    ensures PhrasePairs(pieces[..j + 1], doc) ==
              PhrasePairs(pieces[..j], doc) + (if Kept(pieces[j]) then [(Normalize(pieces[j]), doc)] else [])
  {
    assert pieces[..j + 1][..j] == pieces[..j];
  }

  /** The inner loop of step 2: the pieces of one row are added under their normal forms. */
  method AddPieces(index: SetIndex, pieces: seq<string>, doc: string)
    modifies index
    ensures index.State() == AddAll(old(index.State()), PhrasePairs(pieces, doc))
  {
    ghost var start := index.State();
    for j := 0 to |pieces|
      invariant index.State() == AddAll(start, PhrasePairs(pieces[..j], doc))
    {
      var phrase := pieces[j];
      PhrasePairsStep(pieces, j, doc);
      ghost var done := PhrasePairs(pieces[..j], doc);
      if phrase != "" && phrase != "None" {
        var cleaned := Normalize(phrase);
        index.Add(cleaned, doc);
        assert (done + [(cleaned, doc)])[..|done|] == done;
      } else {
        assert done + [] == done;
      }
    }
    assert pieces[..|pieces|] == pieces;
  }

  /** Step 2's loops, adding into the dictionary in place. */
  method BuildIndex(rows: seq<ResultRow>) returns (index: SetIndex)
    ensures fresh(index) && index.State() == IndexOf(rows)
  {
    index := new SetIndex();
    for i := 0 to |rows|
      invariant index.State() == AddAll(EmptyGrouping, Pairs(rows[..i]))
    {
      var r := rows[i];
      var pieces := Split(r.indicesFound, PhraseSeparator);
      var doc := r.folder + "/" + r.filename;
      AddPieces(index, pieces, doc);
      AddAllAppend(EmptyGrouping, Pairs(rows[..i]), PhrasePairs(pieces, doc));
      PairsStep(rows, i);
    }
    assert rows[..|rows|] == rows;
  }

  // ---------------------------------------------------------------------------------------
  // From files to keys

  /** A file contributes key `k`: one of its kept phrases normalises to `k`. */
  predicate FileGives(f: TextFile, k: string) {
    exists q :: q in Found(f) && Kept(q) && Normalize(q) == k
  }

  /** A file's row gives exactly the keys the file's phrases give. */
  lemma RowGivesOfFile(f: TextFile, k: string)
    requires IsTxtName(f.name)
    requires f.content.Fails? ==> ';' !in ErrorPhrase(f.name, f.content.cause)
    ensures RowGives(ResultOf(f), k) <==> FileGives(f, k)
  {
    ResultRoundTrip(f);
    assert Pieces(ResultOf(f)) == SortedElements(Found(f));
  }

  /** A readable file gives exactly the normal forms of its keyword windows. */
  lemma ReadableGives(f: TextFile, k: string)
    requires f.content.Ok?
    ensures var tokens := Tokens(f.content.value);
            FileGives(f, k) <==> exists i :: 0 <= i < |tokens| && IsKeyword(tokens[i]) && Normalize(Window(tokens, i)) == k
  {
    var text := f.content.value;
    var tokens := Tokens(text);
    if FileGives(f, k) {
      var q :| q in Found(f) && Kept(q) && Normalize(q) == k;
      var i := PhraseIsWindow(text, q);
    }
    if i :| 0 <= i < |tokens| && IsKeyword(tokens[i]) && Normalize(Window(tokens, i)) == k {
      var w := Window(tokens, i);
      assert w in Phrases(tokens);
      var j := PhraseIsWindow(text, w);
      assert w in Found(f);
    }
  }

  /** The dictionary built from the files' rows lists document `d` under key `k` exactly
      when some file reported as `d` has a phrase normalising to `k`. */
  lemma IndexOfFiles(files: seq<TextFile>, results: seq<ResultRow>, k: string, d: string)
    requires forall i :: 0 <= i < |files| ==> IsTxtName(files[i].name)
    requires forall i :: 0 <= i < |files| ==>
               files[i].content.Fails? ==> ';' !in ErrorPhrase(files[i].name, files[i].content.cause)
    requires |results| == |files| && forall i :: 0 <= i < |files| ==> results[i] == ResultOf(files[i])
    ensures var g := IndexOf(results);
            k in g.docs && d in g.docs[k] <==>
              exists i :: 0 <= i < |files| && d == DocName(ResultOf(files[i])) && FileGives(files[i], k)
  {
    IndexMember(results, k, d);
    if i :| 0 <= i < |files| && d == DocName(ResultOf(files[i])) && FileGives(files[i], k) {
      RowGivesOfFile(files[i], k);
      assert d == DocName(results[i]) && RowGives(results[i], k);
    }
    if i :| 0 <= i < |results| && d == DocName(results[i]) && RowGives(results[i], k) {
      RowGivesOfFile(files[i], k);
    }
  }

  /** `k` ends with one of the two keywords. */
  predicate EndsWithKeyword(k: string) {
    (|k| >= 5 && k[|k| - 5..] == "index") || (|k| >= 7 && k[|k| - 7..] == "indices")
  }

  lemma EndsWithKeywordOf(r: string, kw: string)
    requires IsKeyword(kw) && |kw| <= |r| && r[|r| - |kw|..] == kw
    ensures EndsWithKeyword(r)
  {
  }

  /** The normal form of a keyword window ends with a keyword. */
  lemma WindowKeyEnds(tokens: seq<string>, i: nat)
    requires i < |tokens| && IsKeyword(tokens[i])
    requires forall k :: 0 <= k < |tokens| ==> IsToken(tokens[k])
    ensures EndsWithKeyword(Normalize(Window(tokens, i)))
  {
    WindowTail(tokens, i);
    NormalizeKeepsEnd(Window(tokens, i), tokens[i]);
    EndsWithKeywordOf(Normalize(Window(tokens, i)), tokens[i]);
  }

  /** A key given by a readable file is the normal form of one of its keyword windows. */
  lemma GivenKeyIsWindow(f: TextFile, k: string) returns (i: nat)
    requires f.content.Ok? && FileGives(f, k)
    ensures var tokens := Tokens(f.content.value);
            i < |tokens| && IsKeyword(tokens[i]) && Normalize(Window(tokens, i)) == k
  {
    var q :| q in Found(f) && Kept(q) && Normalize(q) == k;
    i := PhraseIsWindow(f.content.value, q);
  }

  lemma KeyOfReadableFile(f: TextFile, k: string)
    requires f.content.Ok? && FileGives(f, k)
    ensures EndsWithKeyword(k)
  {
    var i := GivenKeyIsWindow(f, k);
    WindowKeyEnds(Tokens(f.content.value), i);
  }

  /** When every file can be read, every key of the dictionary is a phrase ending with
      "index" or "indices": normalising never cuts into the keyword. */
  lemma KeysEndWithKeyword(files: seq<TextFile>, results: seq<ResultRow>, k: string)
    requires forall i :: 0 <= i < |files| ==> IsTxtName(files[i].name) && files[i].content.Ok?
    requires |results| == |files| && forall i :: 0 <= i < |files| ==> results[i] == ResultOf(files[i])
    requires k in IndexOf(results).docs
    ensures EndsWithKeyword(k)
  {
    var g := IndexOf(results);
    AddAllMembers(EmptyGrouping, Pairs(results));
    var d :| (k, d) in Pairs(results);
    IndexOfFiles(files, results, k, d);
    var i :| 0 <= i < |files| && d == DocName(ResultOf(files[i])) && FileGives(files[i], k);
    KeyOfReadableFile(files[i], k);
  }

  /** The whole script on the text files of the walk: step 1's rows, step 2's dictionary
      built in place, and step 3's summary of it. */
  method ExtractIndices(files: seq<TextFile>) returns (results: seq<ResultRow>, summary: seq<SummaryRow>)
    requires forall i :: 0 <= i < |files| ==> IsTxtName(files[i].name)
    ensures |results| == |files| && forall i :: 0 <= i < |files| ==> results[i] == ResultOf(files[i])
    ensures summary == Summarize(Items(IndexOf(results)))
  {
    results := ExtractPhrases(files);
    var index := BuildIndex(results);
    summary := Summarize(Items(index.State()));
  }
}
