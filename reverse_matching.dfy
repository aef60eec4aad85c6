/** reverse_matching.py: every text file under the converted tree is reduced to its
    lower-case word tokens joined by single spaces, each known index is searched for with
    its patterns in that text, a document is recorded under every index one of whose
    patterns matches it, and the dictionary is summarised by document count. The pattern
    dictionary and the regular-expression engine are parameters: `known` lists the index
    keys with their patterns in dictionary order, and `search` tells what `re.search` does
    with one pattern on one text. */
module ReverseMatching {
  import opened Outcomes
  import opened Text
  import opened Paths
  import opened Summary
  import opened IndexExtraction

  /** What `re.search(pattern, text)` does: it finds a match, finds none, or raises. */
  datatype Search = Hit | Miss | Raises

  /** The regular-expression engine, as a function of a pattern and a text. */
  type Searcher = (string, string) -> Search

  /** `known_indices_dict.items()`: each index key with its patterns, in dictionary order. */
  type Known = seq<(string, seq<string>)>

  /** A dictionary's keys are distinct. */
  predicate DistinctKeys(known: Known) {
    forall i, j :: 0 <= i < j < |known| ==> known[i].0 != known[j].0
  }

  // ---------------------------------------------------------------------------------------
  // The normalised text

  /** `" ".join(re.findall(r"\b\w+\b", text.lower()))`: the same tokens as in
      index_extraction.py, joined by single spaces. */
  function NormalizedText(text: string): string {
    Join(Tokens(text), " ")
  }

  /** The normalised text holds exactly the tokens of the text, and normalising it again
      changes nothing. */
  lemma NormalizedTextTokens(text: string)
    ensures Words(NormalizedText(text)) == Tokens(text)
    ensures NormalizedText(NormalizedText(text)) == NormalizedText(text)
  {
    var tokens := Tokens(text);
    var s := NormalizedText(text);
    assert forall k :: 0 <= k < |tokens| ==> IsWord(tokens[k]);
    WordsOfJoin(tokens);
    if tokens != [] {
      JoinTokensShape(tokens);
      LowerOfPhrase(s);
    }
    assert Lower(s) == s;
  }

  // ---------------------------------------------------------------------------------------
  // One document

  /** The patterns of one key tried in order until one matches (`break`) or raises. */
  function FirstOutcome(search: Searcher, patterns: seq<string>, text: string): Search {
    if patterns == [] then Miss
    else match search(patterns[0], text)
      case Hit => Hit
      case Raises => Raises
      case Miss => FirstOutcome(search, patterns[1..], text)
  }

  /** The inner loop over one key's patterns. */
  method SearchPatterns(search: Searcher, patterns: seq<string>, text: string) returns (o: Search)
    ensures o == FirstOutcome(search, patterns, text)
  {
    var j := 0;
    while j < |patterns|
      invariant 0 <= j <= |patterns|
      invariant FirstOutcome(search, patterns, text) == FirstOutcome(search, patterns[j..], text)
    {
      assert patterns[j..][1..] == patterns[j + 1..];
      var found := search(patterns[j], text);
      if found != Miss {
        return found;
      }
      j := j + 1;
    }
    return Miss;
  }

  /** Pattern `j` is the first one that does not come back empty-handed. */
  predicate FirstNonMiss(search: Searcher, patterns: seq<string>, text: string, j: nat) {
    && j < |patterns| && search(patterns[j], text) != Miss
    && forall m :: 0 <= m < j ==> search(patterns[m], text) == Miss
  }

  /** A key comes back empty-handed exactly when every pattern does; otherwise the outcome
      is that of the first pattern that matches or raises. */
  lemma {:induction false} FirstOutcomeSpec(search: Searcher, patterns: seq<string>, text: string)
    ensures FirstOutcome(search, patterns, text) == Miss <==>
              forall k :: 0 <= k < |patterns| ==> search(patterns[k], text) == Miss
    ensures FirstOutcome(search, patterns, text) != Miss ==>
              exists j: nat :: FirstNonMiss(search, patterns, text, j)
                          && FirstOutcome(search, patterns, text) == search(patterns[j], text)
    ensures forall j: nat :: FirstNonMiss(search, patterns, text, j) ==>
              FirstOutcome(search, patterns, text) == search(patterns[j], text)
  {
    if patterns != [] && search(patterns[0], text) == Miss {
      var rest := patterns[1..];
      FirstOutcomeSpec(search, rest, text);
      assert forall k :: 1 <= k < |patterns| ==> patterns[k] == rest[k - 1];
      if FirstOutcome(search, patterns, text) != Miss {
        var j: nat :| FirstNonMiss(search, rest, text, j)
                 && FirstOutcome(search, rest, text) == search(rest[j], text);
        assert FirstNonMiss(search, patterns, text, j + 1);
      }
      forall j: nat | FirstNonMiss(search, patterns, text, j)
        ensures FirstOutcome(search, patterns, text) == search(patterns[j], text)
      {
        assert j > 0 && FirstNonMiss(search, rest, text, j - 1);
      }
    } else if patterns != [] {
      forall j: nat | FirstNonMiss(search, patterns, text, j)
        ensures FirstOutcome(search, patterns, text) == search(patterns[j], text)
      {
        assert j == 0;
      }
      assert FirstNonMiss(search, patterns, text, 0);
    }
  }

  /** When no pattern of the key raises, the key is found exactly when one of its patterns
      matches the text. */
  lemma FoundWithoutRaise(search: Searcher, patterns: seq<string>, text: string)
    requires forall j :: 0 <= j < |patterns| ==> search(patterns[j], text) != Raises
    ensures FirstOutcome(search, patterns, text) != Raises
    ensures FirstOutcome(search, patterns, text) == Hit <==>
              exists j :: 0 <= j < |patterns| && search(patterns[j], text) == Hit
  {
    FirstOutcomeSpec(search, patterns, text);
  }

  /** The keys recorded for one document, in dictionary order: those found, up to the first
      key whose search raises, which ends the document. */
  function MatchedKeys(search: Searcher, known: Known, text: string): seq<string> {
    if known == [] then []
    else match FirstOutcome(search, known[0].1, text)
      case Hit => [known[0].0] + MatchedKeys(search, known[1..], text)
      case Miss => MatchedKeys(search, known[1..], text)
      case Raises => []
  }

  /** No key before position `j` raises. */
  predicate Reached(search: Searcher, known: Known, text: string, j: nat) {
    forall m :: 0 <= m < j && m < |known| ==> FirstOutcome(search, known[m].1, text) != Raises
  }

  /** A key is recorded for a document exactly when it is found there and no earlier key
      raised. */
  lemma {:induction false} MatchedKeysMember(search: Searcher, known: Known, text: string, key: string)
    ensures key in MatchedKeys(search, known, text) <==>
              exists j :: 0 <= j < |known| && known[j].0 == key
                          && FirstOutcome(search, known[j].1, text) == Hit && Reached(search, known, text, j)
  {
    if known != [] {
      var rest := known[1..];
      MatchedKeysMember(search, rest, text, key);
      var first := FirstOutcome(search, known[0].1, text);
      if j :| 0 <= j < |known| && known[j].0 == key
              && FirstOutcome(search, known[j].1, text) == Hit && Reached(search, known, text, j) {
        if j > 0 {
          assert first != Raises;
          assert rest[j - 1] == known[j];
          assert Reached(search, rest, text, j - 1) by {
            forall m | 0 <= m < j - 1 ensures FirstOutcome(search, rest[m].1, text) != Raises {
              assert rest[m] == known[m + 1];
            }
          }
        }
      }
      if first != Raises {
        if j :| 0 <= j < |rest| && rest[j].0 == key
                && FirstOutcome(search, rest[j].1, text) == Hit && Reached(search, rest, text, j) {
          assert known[j + 1] == rest[j];
          assert Reached(search, known, text, j + 1) by {
            forall m | 0 <= m < j + 1 ensures FirstOutcome(search, known[m].1, text) != Raises {
              if m > 0 {
                assert known[m] == rest[m - 1];
              }
            }
          }
        }
      }
    }
  }

  /** A key whose search raises ends the document: the keys recorded are those recorded for
      the keys before it, and none after it is searched for. */
  lemma {:induction false} RaiseKeepsEarlierKeys(search: Searcher, known: Known, text: string, j: nat)
    requires j < |known| && Reached(search, known, text, j)
    requires FirstOutcome(search, known[j].1, text) == Raises
    ensures MatchedKeys(search, known, text) == MatchedKeys(search, known[..j], text)
  {
    if j > 0 {
      var rest := known[1..];
      assert known[..j][1..] == rest[..j - 1];
      assert rest[j - 1] == known[j];
      assert Reached(search, rest, text, j - 1) by {
        forall m | 0 <= m < j - 1 ensures FirstOutcome(search, rest[m].1, text) != Raises {
          assert rest[m] == known[m + 1];
        }
      }
      assert FirstOutcome(search, known[0].1, text) != Raises;
      RaiseKeepsEarlierKeys(search, rest, text, j - 1);
    }
  }

  /** With distinct keys, a document is recorded under a key at most once: the `break`
      stops at the first matching pattern. */
  lemma {:induction false} MatchedKeysDistinct(search: Searcher, known: Known, text: string)
    requires DistinctKeys(known)
    ensures var r := MatchedKeys(search, known, text);
            forall i, j :: 0 <= i < j < |r| ==> r[i] != r[j]
  {
    if known != [] {
      var rest := known[1..];
      assert DistinctKeys(rest) by {
        forall i, j | 0 <= i < j < |rest| ensures rest[i].0 != rest[j].0 {
          assert rest[i] == known[i + 1] && rest[j] == known[j + 1];
        }
      }
      MatchedKeysDistinct(search, rest, text);
      var tail := MatchedKeys(search, rest, text);
      if FirstOutcome(search, known[0].1, text) == Hit {
        MatchedKeysMember(search, rest, text, known[0].0);
        forall j | 0 <= j < |rest| ensures rest[j].0 != known[0].0 {
          assert rest[j] == known[j + 1];
        }
        assert known[0].0 !in tail;
        var r := [known[0].0] + tail;
        forall i, j | 0 <= i < j < |r| ensures r[i] != r[j] {
          if i == 0 {
            assert r[j] == tail[j - 1] && r[j] in tail;
          } else {
            assert r[i] == tail[i - 1] && r[j] == tail[j - 1];
          }
        }
      }
    }
  }

  /** The pairs `index[key].add(doc)` adds for the keys of one document. */
  function KeyPairs(keys: seq<string>, doc: string): (r: seq<(string, string)>)
    ensures |r| == |keys| && forall i :: 0 <= i < |keys| ==> r[i] == (keys[i], doc)
  {
    seq(|keys|, i requires 0 <= i < |keys| => (keys[i], doc))
  }

  lemma KeyPairsMember(keys: seq<string>, doc: string, key: string, d: string)
    ensures (key, d) in KeyPairs(keys, doc) <==> key in keys && d == doc
  {
    var r := KeyPairs(keys, doc);
    if key in keys {
      var i :| 0 <= i < |keys| && keys[i] == key;
      assert r[i] == (key, doc);
    }
  }

  /** Recording one more key is one more `index[key].add(doc)`. */
  lemma AddKeyStep(g: Grouping, keys: seq<string>, key: string, doc: string)
    ensures AddAll(g, KeyPairs(keys + [key], doc)) == AddPair(AddAll(g, KeyPairs(keys, doc)), key, doc)
  {
    var before := KeyPairs(keys, doc);
    var after := KeyPairs(keys + [key], doc);
    assert after == before + [(key, doc)];
    assert after[..|before|] == before;
  }

  /** What the keys from position `k` on record, by the outcome of key `k`. */
  lemma MatchedKeysStep(search: Searcher, known: Known, text: string, k: nat)
    requires k < |known|
    ensures var rest := MatchedKeys(search, known[k + 1..], text);
            MatchedKeys(search, known[k..], text) ==
              match FirstOutcome(search, known[k].1, text)
                case Hit => [known[k].0] + rest
                case Miss => rest
                case Raises => []
  {
    assert known[k..][1..] == known[k + 1..];
  }

  /** One turn of the loop over the keys: with `added` recorded before key `k`, what is
      recorded overall, by the outcome of key `k`. */
  lemma MatchTurn(search: Searcher, known: Known, text: string, added: seq<string>, k: nat)
    requires k < |known|
    requires MatchedKeys(search, known, text) == added + MatchedKeys(search, known[k..], text)
    ensures var o := FirstOutcome(search, known[k].1, text);
            var rest := MatchedKeys(search, known[k + 1..], text);
            && (o == Hit ==> MatchedKeys(search, known, text) == (added + [known[k].0]) + rest)
            && (o == Miss ==> MatchedKeys(search, known, text) == added + rest)
            && (o == Raises ==> MatchedKeys(search, known, text) == added)
  {
    MatchedKeysStep(search, known, text, k);
    var rest := MatchedKeys(search, known[k + 1..], text);
    assert added + ([known[k].0] + rest) == (added + [known[k].0]) + rest;
    assert added + [] == added;
  }

  /** The body of the loop over `known_indices_dict` for one document: each key found is
      added, and a key whose search raises ends the document, keeping what was added. */
  method MatchDocument(search: Searcher, known: Known, text: string, doc: string, index: SetIndex)
    modifies index
    ensures index.State() == AddAll(old(index.State()), KeyPairs(MatchedKeys(search, known, text), doc))
  {
    ghost var start := index.State();
    ghost var added: seq<string> := [];
    var k := 0;
    while k < |known|
      invariant 0 <= k <= |known|
      invariant MatchedKeys(search, known, text) == added + MatchedKeys(search, known[k..], text)
      invariant index.State() == AddAll(start, KeyPairs(added, doc))
    {
      var key := known[k].0;
      var outcome := SearchPatterns(search, known[k].1, text);
      MatchTurn(search, known, text, added, k);
      if outcome == Raises {
        return;
      }
      if outcome == Hit {
        index.Add(key, doc);
        AddKeyStep(start, added, key, doc);
        added := added + [key];
      }
      k := k + 1;
    }
    assert known[k..] == [];
    assert added + [] == added;
  }

  // ---------------------------------------------------------------------------------------
  // The walk

  /** `str(txt_path.relative_to(output_root))`. */
  function DocumentOf(f: TextFile): string {
    Join(f.dir + [f.name], "/")
  }

  /** The keys recorded for one file: none when it cannot be read. */
  function FileKeys(search: Searcher, known: Known, f: TextFile): seq<string> {
    match f.content
      case Fails(_) => []
      case Ok(text) => MatchedKeys(search, known, NormalizedText(text))
  }

  function FilePairs(search: Searcher, known: Known, f: TextFile): seq<(string, string)> {
    KeyPairs(FileKeys(search, known, f), DocumentOf(f))
  }

  /** The pairs of each file, file by file. */
  function FilePairsOf(search: Searcher, known: Known, files: seq<TextFile>): (runs: seq<seq<(string, string)>>)
    ensures |runs| == |files| && forall i :: 0 <= i < |files| ==> runs[i] == FilePairs(search, known, files[i])
  {
    seq(|files|, i requires 0 <= i < |files| => FilePairs(search, known, files[i]))
  }

  /** `index_to_documents` after the walk. */
  function Matched(search: Searcher, known: Known, files: seq<TextFile>): (g: Grouping)
    ensures ValidGrouping(g)
  {
    AddAllValid(EmptyGrouping, Concat(FilePairsOf(search, known, files)));
    AddAll(EmptyGrouping, Concat(FilePairsOf(search, known, files)))
  }

  lemma WalkStep(search: Searcher, known: Known, files: seq<TextFile>, i: nat)
    requires i < |files|
    ensures Concat(FilePairsOf(search, known, files[..i + 1]))
            == Concat(FilePairsOf(search, known, files[..i])) + FilePairs(search, known, files[i])
  {
    var runs := FilePairsOf(search, known, files[..i + 1]);
    assert runs[..i] == FilePairsOf(search, known, files[..i]);
  }

  /** The `try` body for one file: an unreadable file is skipped. */
  method MatchFile(search: Searcher, known: Known, f: TextFile, index: SetIndex)
    modifies index
    ensures index.State() == AddAll(old(index.State()), FilePairs(search, known, f))
  {
    match f.content {
      case Fails(_) =>
        assert FilePairs(search, known, f) == [];
      case Ok(text) =>
        var tokens := Tokens(text);
        var normalized := Join(tokens, " ");
        var relativePath := Join(f.dir + [f.name], "/");
        MatchDocument(search, known, normalized, relativePath, index);
    }
  }

  /** The loop over the files of the walk. */
  method ReverseMatch(search: Searcher, known: Known, files: seq<TextFile>) returns (index: SetIndex)
    ensures fresh(index) && index.State() == Matched(search, known, files)
  {
    index := new SetIndex();
    for i := 0 to |files|
      invariant index.State() == AddAll(EmptyGrouping, Concat(FilePairsOf(search, known, files[..i])))
    {
      MatchFile(search, known, files[i], index);
      AddAllAppend(EmptyGrouping, Concat(FilePairsOf(search, known, files[..i])), FilePairs(search, known, files[i]));
      WalkStep(search, known, files, i);
    }
    assert files[..|files|] == files;
  }

  /** The dictionary lists document `d` under `key` exactly when some file of the walk is
      `d` and recorded `key`; what one file records does not depend on any other file. */
  lemma MatchedMember(search: Searcher, known: Known, files: seq<TextFile>, key: string, d: string)
    ensures var g := Matched(search, known, files);
            key in g.docs && d in g.docs[key] <==>
              exists i :: 0 <= i < |files| && d == DocumentOf(files[i]) && key in FileKeys(search, known, files[i])
  {
    var runs := FilePairsOf(search, known, files);
    ConcatMember(runs, (key, d));
    AddAllMembers(EmptyGrouping, Concat(runs));
    if i :| 0 <= i < |files| && d == DocumentOf(files[i]) && key in FileKeys(search, known, files[i]) {
      KeyPairsMember(FileKeys(search, known, files[i]), DocumentOf(files[i]), key, d);
      assert (key, d) in runs[i];
    }
    if i :| 0 <= i < |runs| && (key, d) in runs[i] {
      KeyPairsMember(FileKeys(search, known, files[i]), DocumentOf(files[i]), key, d);
    }
  }

  /** For a readable file on which no pattern raises, the file is recorded under a key
      exactly when one of the key's patterns matches its normalised text. */
  lemma ReadableFileKeys(search: Searcher, known: Known, f: TextFile, key: string)
    requires f.content.Ok?
    requires forall j, m :: 0 <= j < |known| && 0 <= m < |known[j].1| ==>
               search(known[j].1[m], NormalizedText(f.content.value)) != Raises
    ensures key in FileKeys(search, known, f) <==>
              exists j, m :: 0 <= j < |known| && known[j].0 == key && 0 <= m < |known[j].1|
                             && search(known[j].1[m], NormalizedText(f.content.value)) == Hit
  {
    var text := NormalizedText(f.content.value);
    MatchedKeysMember(search, known, text, key);
    forall j | 0 <= j < |known| ensures FirstOutcome(search, known[j].1, text) != Raises {
      FoundWithoutRaise(search, known[j].1, text);
    }
    if j, m :| 0 <= j < |known| && known[j].0 == key && 0 <= m < |known[j].1|
               && search(known[j].1[m], text) == Hit {
      FoundWithoutRaise(search, known[j].1, text);
      assert Reached(search, known, text, j);
    }
    if j :| 0 <= j < |known| && known[j].0 == key
            && FirstOutcome(search, known[j].1, text) == Hit && Reached(search, known, text, j) {
      FoundWithoutRaise(search, known[j].1, text);
    }
  }

  // ---------------------------------------------------------------------------------------
  // The summary

  /** The loop building `summary_data` over the sorted items. */
  method SummaryRows(index: SetIndex) returns (rows: seq<SummaryRow>)
    requires ValidGrouping(index.State())
    ensures rows == Summarize(Items(index.State()))
  {
    var items := SortByCount(Items(index.State()));
    rows := [];
    for i := 0 to |items|
      invariant |rows| == i
      invariant forall k :: 0 <= k < i ==> rows[k] == Row(items[k])
    {
      var idx := items[i].key;
      var docs := items[i].docs;
      rows := rows + [SummaryRow(idx, |docs|, Join(SortedElements(docs), "; "))];
    }
    SortByCountPermutes(Items(index.State()));
  }

  /** The whole script on the text files of the walk. */
  method RunReverseMatching(search: Searcher, known: Known, files: seq<TextFile>) returns (summary: seq<SummaryRow>)
    ensures summary == Summarize(Items(Matched(search, known, files)))
  {
    var index := ReverseMatch(search, known, files);
    summary := SummaryRows(index);
  }
}
