/** What index_extraction.py and reverse_matching.py have in common: a `defaultdict(set)`
    from a key (an index phrase, or an index name) to the documents it was found in, kept in
    the order keys were first used, and the summary table built from it, whose rows come in
    descending order of document count, ties kept in dictionary order. */
module Summary {
  import opened Text

  // ---------------------------------------------------------------------------------------
  // The dictionary

  /** The contents of a `defaultdict(set)`: its keys in insertion order and their sets. */
  datatype Grouping = Grouping(keys: seq<string>, docs: map<string, set<string>>)

  const EmptyGrouping := Grouping([], map[])

  /** The keys are exactly those of the map, each once. */
  ghost predicate ValidGrouping(g: Grouping) {
    && (forall k :: k in g.docs <==> k in g.keys)
    && (forall i, j :: 0 <= i < j < |g.keys| ==> g.keys[i] != g.keys[j])
  }

  /** `index[key].add(doc)`: a new key is appended to the insertion order. */
  function AddPair(g: Grouping, key: string, doc: string): Grouping {
    if key in g.docs then Grouping(g.keys, g.docs[key := g.docs[key] + {doc}])
    else Grouping(g.keys + [key], g.docs[key := {doc}])
  }

  /** The dictionary after `index[k].add(d)` for every `(k, d)` of `pairs`, in order. */
  function AddAll(g: Grouping, pairs: seq<(string, string)>): Grouping
    decreases |pairs|
  {
    if pairs == [] then g
    else AddPair(AddAll(g, pairs[..|pairs| - 1]), pairs[|pairs| - 1].0, pairs[|pairs| - 1].1)
  }

  /** Adding two runs of pairs one after the other is adding their concatenation. */
  lemma {:induction false} AddAllAppend(g: Grouping, a: seq<(string, string)>, b: seq<(string, string)>)
    ensures AddAll(AddAll(g, a), b) == AddAll(g, a + b)
    decreases |b|
  {
    if b == [] {
      assert a + b == a;
    } else {
      var init := b[..|b| - 1];
      AddAllAppend(g, a, init);
      assert (a + b)[..|a + b| - 1] == a + init;
    }
  }

  /** The runs of `runs`, one after the other. */
  function Concat(runs: seq<seq<(string, string)>>): seq<(string, string)> {
    if runs == [] then []
    else Concat(runs[..|runs| - 1]) + runs[|runs| - 1]
  }

  /** A pair is in a concatenation exactly when it is in one of the runs. */
  lemma {:induction false} ConcatMember(runs: seq<seq<(string, string)>>, pair: (string, string))
    ensures pair in Concat(runs) <==> exists i :: 0 <= i < |runs| && pair in runs[i]
  {
    if runs != [] {
      var init := runs[..|runs| - 1];
      ConcatMember(init, pair);
      if i :| 0 <= i < |runs| && pair in runs[i] {
        if i < |init| {
          assert init[i] == runs[i];
        }
      }
      if i :| 0 <= i < |init| && pair in init[i] {
        assert init[i] == runs[i];
      }
    }
  }

  /** One addition keeps the dictionary well formed and only ever appends a key. */
  lemma AddPairValid(g: Grouping, key: string, doc: string)
    requires ValidGrouping(g)
    ensures ValidGrouping(AddPair(g, key, doc)) && g.keys <= AddPair(g, key, doc).keys
  {
    var r := AddPair(g, key, doc);
    if key !in g.docs {
      forall i, j | 0 <= i < j < |r.keys| ensures r.keys[i] != r.keys[j] {
        if j == |r.keys| - 1 {
          assert r.keys[i] == g.keys[i] && g.keys[i] in g.docs;
        }
      }
    }
  }

  /** Adding pairs keeps the dictionary well formed and only ever appends keys. */
  lemma {:induction false} AddAllValid(g: Grouping, pairs: seq<(string, string)>)
    requires ValidGrouping(g)
    ensures ValidGrouping(AddAll(g, pairs)) && g.keys <= AddAll(g, pairs).keys
    decreases |pairs|
  {
    if pairs != [] {
      var prefix := pairs[..|pairs| - 1];
      AddAllValid(g, prefix);
      AddPairValid(AddAll(g, prefix), pairs[|pairs| - 1].0, pairs[|pairs| - 1].1);
    }
  }

  /** A document is recorded under a key exactly when it was there before or the pair was
      added; a key is present exactly when it was before or some pair used it. */
  lemma {:induction false} AddAllMembers(g: Grouping, pairs: seq<(string, string)>)
    ensures var r := AddAll(g, pairs);
            && (forall k :: k in r.docs <==> k in g.docs || exists d :: (k, d) in pairs)
            && (forall k, d :: k in r.docs && d in r.docs[k] <==>
                                (k in g.docs && d in g.docs[k]) || (k, d) in pairs)
    decreases |pairs|
  {
    if pairs != [] {
      var prefix := pairs[..|pairs| - 1];
      var last := pairs[|pairs| - 1];
      AddAllMembers(g, prefix);
      AddPairMembers(AddAll(g, prefix), last.0, last.1);
      assert pairs == prefix + [last];
      assert forall x :: x in pairs <==> x in prefix || x == last;
      assert last in pairs;
    }
  }

  /** One `index[key].add(doc)`: the key and the pair are added, nothing else changes. */
  lemma AddPairMembers(g: Grouping, key: string, doc: string)
    ensures var r := AddPair(g, key, doc);
            && (forall k :: k in r.docs <==> k in g.docs || k == key)
            && (forall k, d :: k in r.docs && d in r.docs[k] <==> (k in g.docs && d in g.docs[k]) || (k, d) == (key, doc))
  {
  }

  /** A document is never recorded twice under one key: every key's value is a set, so a
      file counts once per key however often it matched. */
  lemma AddPairIdempotent(g: Grouping, key: string, doc: string)
    ensures AddPair(AddPair(g, key, doc), key, doc) == AddPair(g, key, doc)
  {
    var once := AddPair(g, key, doc);
    assert once.docs[key] + {doc} == once.docs[key];
    assert once.docs[key := once.docs[key]] == once.docs;
  }

  /** The dictionary as an in-place object, as the scripts hold it. */
  class SetIndex {
    var keys: seq<string>
    var docs: map<string, set<string>>

    function State(): Grouping
      reads this
    {
      Grouping(keys, docs)
    }

    /** `defaultdict(set)`. */
    constructor ()
      ensures State() == EmptyGrouping
    {
      keys := [];
      docs := map[];
    }

    /** `index[key].add(doc)`. */
    method Add(key: string, doc: string)
      modifies this
      ensures State() == AddPair(old(State()), key, doc)
    {
      if key in docs {
        docs := docs[key := docs[key] + {doc}];
      } else {
        keys := keys + [key];
        docs := docs[key := {doc}];
      }
    }
  }

  // ---------------------------------------------------------------------------------------
  // sorted(index.items(), key=lambda x: -len(x[1]))

  /** One item of the dictionary. */
  datatype Entry = Entry(key: string, docs: set<string>)

  /** `index.items()`, in insertion order: one entry per key of the dictionary, no key
      twice, each with the key's set of documents. */
  function Items(g: Grouping): (es: seq<Entry>)
    requires ValidGrouping(g)
    ensures |es| == |g.keys| && forall i :: 0 <= i < |es| ==> es[i].key == g.keys[i]
    ensures forall i, j :: 0 <= i < j < |es| ==> es[i].key != es[j].key
    ensures forall k :: k in g.docs <==> exists i :: 0 <= i < |es| && es[i].key == k
    ensures forall i :: 0 <= i < |es| ==> es[i].key in g.docs && es[i].docs == g.docs[es[i].key]
  {
    seq(|g.keys|, i requires 0 <= i < |g.keys| => Entry(g.keys[i], g.docs[g.keys[i]]))
  }

  function Count(e: Entry): nat {
    |e.docs|
  }

  /** The entries of `es` with exactly `c` documents, in their order in `es`. */
  function WithCount(es: seq<Entry>, c: nat): (r: seq<Entry>)
    ensures forall e :: e in r <==> e in es && Count(e) == c
  {
    if es == [] then []
    else (if Count(es[0]) == c then [es[0]] else []) + WithCount(es[1..], c)
  }

  lemma {:induction false} WithCountConcat(a: seq<Entry>, b: seq<Entry>, c: nat)
    ensures WithCount(a + b, c) == WithCount(a, c) + WithCount(b, c)
  {
    if a == [] {
      assert a + b == b;
    } else {
      var head := if Count(a[0]) == c then [a[0]] else [];
      assert (a + b)[0] == a[0];
      assert (a + b)[1..] == a[1..] + b;
      WithCountConcat(a[1..], b, c);
      assert WithCount(a + b, c) == head + WithCount(a[1..] + b, c);
      assert WithCount(a, c) == head + WithCount(a[1..], c);
    }
  }

  lemma {:induction false} WithCountTwice(es: seq<Entry>, c: nat, d: nat)
    ensures WithCount(WithCount(es, d), c) == if c == d then WithCount(es, d) else []
  {
    if es != [] {
      WithCountTwice(es[1..], c, d);
      WithCountConcat(if Count(es[0]) == d then [es[0]] else [], WithCount(es[1..], d), c);
    }
  }

  lemma {:induction false} WithCountMultiplicity(es: seq<Entry>, c: nat, e: Entry)
    ensures multiset(WithCount(es, c))[e] == if Count(e) == c then multiset(es)[e] else 0
  {
    if es != [] {
      WithCountMultiplicity(es[1..], c, e);
      assert es == [es[0]] + es[1..];
    }
  }

  /** No entry has count `c`: nothing is selected. */
  lemma {:induction false} WithCountAbsent(es: seq<Entry>, c: nat)
    ensures (forall i :: 0 <= i < |es| ==> Count(es[i]) != c) ==> WithCount(es, c) == []
  {
    if es != [] {
      WithCountAbsent(es[1..], c);
      assert forall i :: 1 <= i < |es| ==> es[i] == es[1..][i - 1];
    }
  }

  /** The largest document count in `es`. */
  function MaxCount(es: seq<Entry>): (m: nat)
    ensures forall i :: 0 <= i < |es| ==> Count(es[i]) <= m
  {
    if es == [] then 0
    else
      var rest := MaxCount(es[1..]);
      assert forall i :: 1 <= i < |es| ==> es[i] == es[1..][i - 1];
      if Count(es[0]) > rest then Count(es[0]) else rest
  }

  predicate CountsDescending(r: seq<Entry>) {
    forall i, j :: 0 <= i < j < |r| ==> Count(r[i]) >= Count(r[j])
  }

  /** The entries with `c` documents, then those with `c - 1`, down to those with none. */
  function Buckets(es: seq<Entry>, c: nat): seq<Entry> {
    if c == 0 then WithCount(es, 0) else WithCount(es, c) + Buckets(es, c - 1)
  }

  /** The buckets up to `c` hold no count above `c`, and come in descending order. */
  lemma {:induction false} BucketsDescending(es: seq<Entry>, c: nat)
    ensures var r := Buckets(es, c);
            && (forall i :: 0 <= i < |r| ==> Count(r[i]) <= c)
            && CountsDescending(r)
  {
    var top := WithCount(es, c);
    assert forall i :: 0 <= i < |top| ==> top[i] in top;
    if c > 0 {
      BucketsDescending(es, c - 1);
      ConcatDescending(top, Buckets(es, c - 1), c);
    }
  }

  /** A run of entries with count `c` followed by a descending run of smaller counts is
      descending. */
  lemma ConcatDescending(top: seq<Entry>, rest: seq<Entry>, c: nat)
    requires forall i :: 0 <= i < |top| ==> Count(top[i]) == c
    requires forall i :: 0 <= i < |rest| ==> Count(rest[i]) < c
    requires CountsDescending(rest)
    ensures forall i :: 0 <= i < |top + rest| ==> Count((top + rest)[i]) <= c
    ensures CountsDescending(top + rest)
  {
    assert forall i :: |top| <= i < |top + rest| ==> (top + rest)[i] == rest[i - |top|];
  }

  /** Python's `sorted(es, key=lambda x: -len(x[1]))`. Its result is in descending order of
      count (this contract), keeps the entries of each count in their original order
      (`SortByCountStable`) and is a permutation of `es` (`SortByCountPermutes`). */
  function SortByCount(es: seq<Entry>): (r: seq<Entry>)
    ensures CountsDescending(r)
  {
    BucketsDescending(es, MaxCount(es));
    Buckets(es, MaxCount(es))
  }

  /** Bucket `d` of the buckets up to `c` is bucket `d` of the input, or empty above `c`. */
  lemma {:induction false} BucketsWithCount(es: seq<Entry>, c: nat, d: nat)
    ensures WithCount(Buckets(es, c), d) == if d <= c then WithCount(es, d) else []
  {
    var top := WithCount(es, c);
    WithCountTwice(es, d, c);
    if c == 0 {
      assert Buckets(es, c) == top;
    } else {
      var rest := Buckets(es, c - 1);
      assert Buckets(es, c) == top + rest;
      WithCountConcat(top, rest, d);
      BucketsWithCount(es, c - 1, d);
    }
  }

  /** Sorting is stable: for every count, the entries having it come out in the order they
      came in. */
  lemma SortByCountStable(es: seq<Entry>, c: nat)
    ensures WithCount(SortByCount(es), c) == WithCount(es, c)
  {
    BucketsWithCount(es, MaxCount(es), c);
    WithCountAbsent(es, c);
  }

  /** Sorting neither drops nor duplicates an entry. */
  lemma SortByCountPermutes(es: seq<Entry>)
    ensures multiset(SortByCount(es)) == multiset(es)
    ensures |SortByCount(es)| == |es|
  {
    var r := SortByCount(es);
    forall e ensures multiset(r)[e] == multiset(es)[e] {
      SortByCountStable(es, Count(e));
      WithCountMultiplicity(r, Count(e), e);
      WithCountMultiplicity(es, Count(e), e);
    }
    assert multiset(r) == multiset(es);
    assert |multiset(r)| == |multiset(es)|;
  }

  // ---------------------------------------------------------------------------------------
  // The summary rows

  /** One row of the summary table: the key, `len(docs)` and `"; ".join(sorted(docs))`. */
  datatype SummaryRow = SummaryRow(key: string, mentionCount: nat, documents: string)

  const DocumentSeparator := "; "

  function Row(e: Entry): SummaryRow {
    SummaryRow(e.key, |e.docs|, Join(SortedElements(e.docs), DocumentSeparator))
  }

  /** A row's document list can be read back: splitting it on "; " gives the documents in
      ascending order, one piece per document, as long as no document name holds a ';'. */
  lemma RowDocumentsRoundTrip(e: Entry)
    requires e.docs != {}
    requires forall d :: d in e.docs ==> ';' !in d
    ensures var pieces := Split(Row(e).documents, DocumentSeparator);
            && pieces == SortedElements(e.docs)
            && |pieces| == Row(e).mentionCount
            && (forall d :: d in pieces <==> d in e.docs)
  {
    var sorted := SortedElements(e.docs);
    assert forall j :: 0 <= j < |sorted| ==> sorted[j] in e.docs;
    SplitJoin(sorted, DocumentSeparator);
  }

  /** The summary table of a dictionary's items: one row per item, the rows ordered by
      descending mention count. */
  function Summarize(es: seq<Entry>): (rows: seq<SummaryRow>)
    ensures |rows| == |es|
    ensures forall i, j :: 0 <= i < j < |rows| ==> rows[i].mentionCount >= rows[j].mentionCount
  {
    var sorted := SortByCount(es);
    SortByCountPermutes(es);
    seq(|sorted|, i requires 0 <= i < |sorted| => Row(sorted[i]))
  }

  /** Every item gets its row, and every row is the row of an item. */
  lemma SummaryRowsAreItems(es: seq<Entry>)
    ensures forall e :: e in es ==> Row(e) in Summarize(es)
    ensures forall row :: row in Summarize(es) ==> exists e :: e in es && row == Row(e)
  {
    var sorted := SortByCount(es);
    var rows := Summarize(es);
    SortByCountPermutes(es);
    forall e | e in es ensures Row(e) in rows {
      assert multiset(es)[e] > 0;
      assert e in sorted by { assert multiset(sorted)[e] > 0; }
      var i :| 0 <= i < |sorted| && sorted[i] == e;
      assert rows[i] == Row(e);
    }
    forall row | row in rows ensures exists e :: e in es && row == Row(e) {
      var i :| 0 <= i < |rows| && rows[i] == row;
      var e := sorted[i];
      assert multiset(sorted)[e] > 0;
      assert e in es by { assert multiset(es)[e] > 0; }
    }
  }
}
