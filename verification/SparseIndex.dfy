/** An inverted index with BM25 IDF weights, refining a full scan of the documents. */
module SparseIndex {
  import opened Common
  import opened Sorting
  import opened RankFusion

  /** An encoded text: its terms with their weights. */
  type Vector = seq<(int, real)>

  type Rows = seq<(nat, real)>

  // ---------------------------------------------------------------- the full scan

  /** What one occurrence adds: query weight, document weight, IDF. */
  type Part = (int, real, real) -> real

  /** One query term against every entry of a document. */
  function ScanTerm(part: Part, document: Vector, term: int, weight: real): real {
    if document == [] then 0.0
    else
      var last := document[|document| - 1];
      ScanTerm(part, document[..|document| - 1], term, weight)
      + if last.0 == term then part(term, weight, last.1) else 0.0
  }

  /** The dot product of query and document. */
  function ScanScore(part: Part, document: Vector, query: Vector): real {
    if query == [] then 0.0
    else
      var last := query[|query| - 1];
      ScanScore(part, document, query[..|query| - 1]) + ScanTerm(part, document, last.0, last.1)
  }

  predicate HasTerm(vector: Vector, term: int) {
    exists entry :: entry in vector && entry.0 == term
  }

  predicate Shares(document: Vector, query: Vector) {
    exists entry :: entry in query && HasTerm(document, entry.0)
  }

  /** The documents that share a term with the query. */
  function Matches(documents: seq<Vector>, query: Vector): set<int> {
    set d | 0 <= d < |documents| && Shares(documents[d], query)
  }

  // ---------------------------------------------------------------- the postings

  function RowsOf(index: nat, document: Vector, term: int): Rows {
    if document == [] then []
    else
      var last := document[|document| - 1];
      RowsOf(index, document[..|document| - 1], term) + if last.0 == term then [(index, last.1)] else []
  }

  /** A term's postings: its entries in every document, in document order. */
  function PostingsOf(documents: seq<Vector>, term: int): Rows {
    if documents == [] then []
    else
      var index := |documents| - 1;
      PostingsOf(documents[..index], term) + RowsOf(index, documents[index], term)
  }

  function Row(postings: map<int, Rows>, term: int): Rows {
    if term in postings then postings[term] else []
  }

  /** Only terms that occur have a list. */
  ghost predicate Indexes(postings: map<int, Rows>, documents: seq<Vector>) {
    forall term :: Row(postings, term) == PostingsOf(documents, term)
                   && (term in postings <==> PostingsOf(documents, term) != [])
  }

  /** The index while the first entries of the next document are being appended. */
  ghost predicate IndexesPart(postings: map<int, Rows>, documents: seq<Vector>, index: nat, part: Vector) {
    forall term :: IndexesTerm(postings, PostingsOf(documents, term), RowsOf(index, part, term), term)
  }

  ghost predicate IndexesTerm(postings: map<int, Rows>, rows: Rows, more: Rows, term: int) {
    Row(postings, term) == rows + more && (term in postings <==> rows + more != [])
  }

  lemma NextEntryOfTerm(postings: map<int, Rows>, rows: Rows, more: Rows, row: (nat, real), own: int, term: int)
    requires IndexesTerm(postings, rows, more, term)
    ensures IndexesTerm(postings[own := Row(postings, own) + [row]], rows,
                        more + if term == own then [row] else [], term)
  {
    assert rows + (more + [row]) == (rows + more) + [row];
    assert more + [] == more;
  }

  lemma NextEntry(postings: map<int, Rows>, documents: seq<Vector>, index: nat, document: Vector, n: nat)
    requires n < |document| && IndexesPart(postings, documents, index, document[..n])
    ensures var (term, weight) := document[n];
            IndexesPart(postings[term := Row(postings, term) + [(index, weight)]], documents, index, document[..n + 1])
  {
    var (own, weight) := document[n];
    var next := postings[own := Row(postings, own) + [(index, weight)]];
    var upTo := document[..n + 1];
    assert upTo[..|upTo| - 1] == document[..n] && upTo[|upTo| - 1] == (own, weight);
    forall term
      ensures IndexesTerm(next, PostingsOf(documents, term), RowsOf(index, upTo, term), term)
    {
      var rows, more := PostingsOf(documents, term), RowsOf(index, document[..n], term);
      assert IndexesTerm(postings, rows, more, term);
      NextEntryOfTerm(postings, rows, more, (index, weight), own, term);
    }
  }

  lemma StartDocument(postings: map<int, Rows>, documents: seq<Vector>, index: nat)
    requires Indexes(postings, documents)
    ensures IndexesPart(postings, documents, index, [])
  {
    forall term
      ensures IndexesTerm(postings, PostingsOf(documents, term), RowsOf(index, [], term), term)
    {
      assert PostingsOf(documents, term) + [] == PostingsOf(documents, term);
      assert Row(postings, term) == PostingsOf(documents, term);
    }
  }

  lemma DocumentJoins(postings: map<int, Rows>, documents: seq<Vector>, index: nat)
    requires index < |documents| && IndexesPart(postings, documents[..index], index, documents[index])
    ensures Indexes(postings, documents[..index + 1])
  {
    var upTo := documents[..index + 1];
    assert upTo[..index] == documents[..index] && upTo[index] == documents[index];
    forall term
      ensures Row(postings, term) == PostingsOf(upTo, term) && (term in postings <==> PostingsOf(upTo, term) != [])
    {
      assert IndexesTerm(postings, PostingsOf(documents[..index], term), RowsOf(index, documents[index], term), term);
    }
  }

  /** A term has one posting for each of its entries in the documents. */
  lemma {:induction false} PostingsCountEntries(documents: seq<Vector>, document: Vector, own: (int, real), term: int)
    ensures |PostingsOf([], term)| == 0
    ensures |PostingsOf(documents + [document], term)| == |PostingsOf(documents, term)| + |PostingsOf([document], term)|
    ensures |PostingsOf([document + [own]], term)| == |PostingsOf([document], term)| + if own.0 == term then 1 else 0
    ensures document == [] ==> |PostingsOf([document], term)| == 0
  {
    assert (documents + [document])[..|documents|] == documents;
    RowsCount(|documents|, 0, document, term);
    assert [document][..0] == [] && [document + [own]][..0] == [];
    assert (document + [own])[..|document|] == document;
    assert PostingsOf([document], term) == RowsOf(0, document, term);
    assert PostingsOf([document + [own]], term) == RowsOf(0, document + [own], term);
  }

  lemma {:induction false} RowsCount(i: nat, j: nat, document: Vector, term: int)
    ensures |RowsOf(i, document, term)| == |RowsOf(j, document, term)|
    decreases |document|
  {
    if document != [] {
      RowsCount(i, j, document[..|document| - 1], term);
    }
  }

  /** A term's postings summed for one document. */
  function PostingScore(part: Part, rows: Rows, d: int, term: int, weight: real): real {
    if rows == [] then 0.0
    else
      var last := rows[|rows| - 1];
      PostingScore(part, rows[..|rows| - 1], d, term, weight) + if last.0 == d then part(term, weight, last.1) else 0.0
  }

  predicate Listed(rows: Rows, d: int) {
    exists row :: row in rows && row.0 == d
  }

  lemma {:induction false} PostingScoreSplits(part: Part, a: Rows, b: Rows, d: int, term: int, weight: real)
    ensures PostingScore(part, a + b, d, term, weight) ==
            PostingScore(part, a, d, term, weight) + PostingScore(part, b, d, term, weight)
    decreases |b|
  {
    if b == [] {
      assert a + b == a;
    } else {
      PostingScoreSplits(part, a, b[..|b| - 1], d, term, weight);
      assert (a + b)[..|a + b| - 1] == a + b[..|b| - 1];
    }
  }

  lemma {:induction false} OneDocumentsRows(part: Part, index: nat, document: Vector, d: int, term: int, weight: real)
    ensures PostingScore(part, RowsOf(index, document, term), d, term, weight) ==
            if d == index then ScanTerm(part, document, term, weight) else 0.0
    decreases |document|
  {
    if document != [] {
      var before, last := document[..|document| - 1], document[|document| - 1];
      OneDocumentsRows(part, index, before, d, term, weight);
      if last.0 == term {
        var rows := RowsOf(index, document, term);
        assert rows[..|rows| - 1] == RowsOf(index, before, term);
      } else {
        assert RowsOf(index, document, term) == RowsOf(index, before, term);
      }
    }
  }

  lemma {:induction false} OneDocumentsListing(index: nat, document: Vector, d: int, term: int)
    ensures Listed(RowsOf(index, document, term), d) <==> d == index && HasTerm(document, term)
    decreases |document|
  {
    if document != [] {
      var before, last := document[..|document| - 1], document[|document| - 1];
      OneDocumentsListing(index, before, d, term);
      var own := if last.0 == term then [(index, last.1)] else [];
      ListedInEither(RowsOf(index, before, term), own, d);
      assert document == before + [last];
      HasTermInEither(before, last, term);
      if last.0 == term {
        assert (index, last.1) in own;
      }
    }
  }

  lemma HasTermInEither(before: Vector, last: (int, real), term: int)
    ensures HasTerm(before + [last], term) <==> HasTerm(before, term) || last.0 == term
  {
    assert forall entry :: entry in before + [last] <==> entry in before || entry == last;
  }

  /** Summing a term's postings for a document is scanning that document for the term. */
  lemma {:induction false} PostingsScanTheDocument(
      part: Part, documents: seq<Vector>, d: int, term: int, weight: real)
    ensures PostingScore(part, PostingsOf(documents, term), d, term, weight) ==
            if 0 <= d < |documents| then ScanTerm(part, documents[d], term, weight) else 0.0
    ensures Listed(PostingsOf(documents, term), d) <==> 0 <= d < |documents| && HasTerm(documents[d], term)
    decreases |documents|
  {
    if documents != [] {
      var index := |documents| - 1;
      var before := documents[..index];
      PostingsScanTheDocument(part, before, d, term, weight);
      OneDocumentsRows(part, index, documents[index], d, term, weight);
      OneDocumentsListing(index, documents[index], d, term);
      PostingScoreSplits(part, PostingsOf(before, term), RowsOf(index, documents[index], term), d, term, weight);
      ListedInEither(PostingsOf(before, term), RowsOf(index, documents[index], term), d);
    }
  }

  lemma ListedInEither(a: Rows, b: Rows, d: int)
    ensures Listed(a + b, d) <==> Listed(a, d) || Listed(b, d)
  {
    assert forall row :: row in a + b <==> row in a || row in b;
  }

  // ---------------------------------------------------------------- accumulating scores

  /** A query's score along the postings. */
  function IndexScore(part: Part, documents: seq<Vector>, query: Vector, d: int): real {
    if query == [] then 0.0
    else
      var last := query[|query| - 1];
      IndexScore(part, documents, query[..|query| - 1], d)
      + PostingScore(part, PostingsOf(documents, last.0), d, last.0, last.1)
  }

  ghost predicate Reached(documents: seq<Vector>, query: Vector, d: int) {
    exists entry :: entry in query && Listed(PostingsOf(documents, entry.0), d)
  }

  lemma {:induction false} IndexScoresAreScans(part: Part, documents: seq<Vector>, query: Vector, d: int)
    ensures 0 <= d < |documents| ==> IndexScore(part, documents, query, d) == ScanScore(part, documents[d], query)
    ensures Reached(documents, query, d) <==> d in Matches(documents, query)
    decreases |query|
  {
    forall entry | entry in query
      ensures Listed(PostingsOf(documents, entry.0), d) <==> 0 <= d < |documents| && HasTerm(documents[d], entry.0)
    {
      PostingsScanTheDocument(part, documents, d, entry.0, entry.1);
    }
    if query != [] {
      IndexScoresAreScans(part, documents, query[..|query| - 1], d);
      PostingsScanTheDocument(part, documents, d, query[|query| - 1].0, query[|query| - 1].1);
    }
  }

  /** The scores dict after some query terms and the first `n` rows of the next term's postings. */
  ghost predicate Accumulated(scores: map<int, real>, part: Part, documents: seq<Vector>, query: Vector,
                              rows: Rows, term: int, weight: real) {
    && (forall d :: d in scores <==> Reached(documents, query, d) || Listed(rows, d))
    && (forall d :: d in scores ==>
          scores[d] == IndexScore(part, documents, query, d) + PostingScore(part, rows, d, term, weight))
  }

  lemma {:induction false} UnlistedScoresNothing(part: Part, rows: Rows, d: int, term: int, weight: real)
    requires !Listed(rows, d)
    ensures PostingScore(part, rows, d, term, weight) == 0.0
    decreases |rows|
  {
    if rows != [] {
      var before := rows[..|rows| - 1];
      assert rows[|rows| - 1] in rows;
      assert !Listed(before, d);
      UnlistedScoresNothing(part, before, d, term, weight);
    }
  }

  lemma {:induction false} UnreachedScoresNothing(part: Part, documents: seq<Vector>, query: Vector, d: int)
    requires !Reached(documents, query, d)
    ensures IndexScore(part, documents, query, d) == 0.0
    decreases |query|
  {
    if query != [] {
      var before := query[..|query| - 1];
      assert query[|query| - 1] in query;
      assert !Reached(documents, before, d);
      UnreachedScoresNothing(part, documents, before, d);
      var last := query[|query| - 1];
      UnlistedScoresNothing(part, PostingsOf(documents, last.0), d, last.0, last.1);
    }
  }

  lemma NextRow(scores: map<int, real>, part: Part, documents: seq<Vector>, query: Vector,
                rows: Rows, n: nat, term: int, weight: real)
    requires n < |rows| && Accumulated(scores, part, documents, query, rows[..n], term, weight)
    ensures Accumulated(scores[rows[n].0 := ScoreIn(scores)(rows[n].0) + part(term, weight, rows[n].1)],
                        part, documents, query, rows[..n + 1], term, weight)
  {
    var upTo, document := rows[..n + 1], rows[n].0;
    assert upTo[..|upTo| - 1] == rows[..n];
    assert upTo == rows[..n] + [rows[n]];
    forall d
      ensures Listed(upTo, d) <==> Listed(rows[..n], d) || d == document
    {
      ListedInEither(rows[..n], [rows[n]], d);
      assert rows[n] in [rows[n]];
    }
    if document !in scores {
      UnlistedScoresNothing(part, rows[..n], document, term, weight);
      UnreachedScoresNothing(part, documents, query, document);
    }
  }

  lemma {:induction false} NextTerm(scores: map<int, real>, part: Part, documents: seq<Vector>, query: Vector, n: nat)
    requires n < |query|
    requires Accumulated(scores, part, documents, query[..n], PostingsOf(documents, query[n].0), query[n].0, query[n].1)
    ensures Accumulated(scores, part, documents, query[..n + 1], [], 0, 0.0)
  {
    var upTo := query[..n + 1];
    assert upTo[..|upTo| - 1] == query[..n];
    forall d
      ensures Reached(documents, upTo, d) <==>
                Reached(documents, query[..n], d) || Listed(PostingsOf(documents, query[n].0), d)
    {
      assert forall entry :: entry in upTo <==> entry in query[..n] || entry == query[n];
    }
  }

  // ---------------------------------------------------------------- the corpus

  function Idf(ln: real -> real, documents: nat, rows: nat): real {
    ln(1.0 + (documents as real - rows as real + 0.5) / (rows as real + 0.5))
  }

  /** The logarithm's argument is one more than the documents over half more than the term's entries. */
  lemma IdfInClosedForm(ln: real -> real, documents: nat, rows: nat)
    ensures Idf(ln, documents, rows) == ln((documents + 1) as real / (rows as real + 0.5))
  {
    var n := rows as real + 0.5;
    assert 1.0 + (documents as real - rows as real + 0.5) / n == (documents + 1) as real / n by {
      QuotientsAdd(n, documents as real - rows as real + 0.5, n);
    }
  }

  lemma QuotientsAdd(x: real, y: real, n: real)
    requires n > 0.0
    ensures x / n + y / n == (x + y) / n && n / n == 1.0
  {
  }

  /** Under an increasing logarithm a rarer term weighs more. */
  lemma ARarerTermWeighsMore(ln: real -> real, documents: nat, few: nat, many: nat)
    requires few < many && forall x, y :: 0.0 < x < y ==> ln(x) < ln(y)
    ensures Idf(ln, documents, few) > Idf(ln, documents, many)
  {
    IdfInClosedForm(ln, documents, few);
    IdfInClosedForm(ln, documents, many);
    LesserDivisor((documents + 1) as real, few as real + 0.5, many as real + 0.5);
  }

  class SparseCorpus {
    var postings: map<int, Rows>
    var idf: map<int, real>
    ghost var documents: seq<Vector>
    ghost var ln: real -> real

    /** The fields index the documents, and every indexed term has its IDF. */
    ghost predicate Valid()
      reads this
    {
      && Indexes(postings, documents)
      && idf.Keys == postings.Keys
      && forall term :: term in idf ==> idf[term] == Idf(ln, |documents|, |PostingsOf(documents, term)|)
    }

    /** Query weight times document weight times the IDF of the term's document frequency. */
    ghost function Weighting(): Part
      reads this
    {
      var documents, ln := documents, ln;
      (term, weight, value) => weight * value * Idf(ln, |documents|, |PostingsOf(documents, term)|)
    }

    constructor (encoded: seq<Vector>, log: real -> real)
      ensures Valid() && documents == encoded && ln == log
    {
      var index: map<int, Rows> := map[];
      for i := 0 to |encoded|
        invariant Indexes(index, encoded[..i])
      {
        index := AppendDocument(index, encoded, i);
      }
      assert encoded[..|encoded|] == encoded;
      postings := index;
      idf := map term | term in index :: Idf(log, |encoded|, |index[term]|);
      documents, ln := encoded, log;
    }

    /** The best `k` of the documents that share a term with the query, by score and lower index,
        and whether the query had no terms at all. */
    method Retrieve(query: Vector, k: nat) returns (top: seq<int>, emptyQuery: bool)
      requires Valid()
      ensures emptyQuery <==> query == []
      ensures exists ranked ::
                && IsListing(RankOrder(IntLeq, DocumentScore(Weighting(), documents, query)),
                             Matches(documents, query), ranked)
                && top == Take(ranked, k)
    {
      var scores := ScoreQuery(query);
      RankOrderIsTotal(IntLeq, ScoreIn(scores));
      var ranked := SortedListing(RankOrder(IntLeq, ScoreIn(scores)), scores.Keys);
      AccumulatedScoresAreScans(scores, Weighting(), documents, query, ranked);
      top, emptyQuery := Take(ranked, k), query == [];
    }

    /** The scores dict over all the query's terms. */
    method ScoreQuery(query: Vector) returns (scores: map<int, real>)
      requires Valid()
      ensures Accumulated(scores, Weighting(), documents, query, [], 0, 0.0)
    {
      scores := map[];
      for i := 0 to |query|
        invariant Accumulated(scores, Weighting(), documents, query[..i], [], 0, 0.0)
      {
        scores := AddTerm(scores, query, i);
      }
      assert query[..|query|] == query;
    }

    method AddTerm(before: map<int, real>, query: Vector, i: nat) returns (scores: map<int, real>)
      requires Valid() && i < |query|
      requires Accumulated(before, Weighting(), documents, query[..i], [], 0, 0.0)
      ensures Accumulated(scores, Weighting(), documents, query[..i + 1], [], 0, 0.0)
    {
      var (term, weight) := query[i];
      scores := before;
      ghost var part := Weighting();
      StartTerm(scores, part, documents, query[..i], term, weight);
      assert Row(postings, term) == PostingsOf(documents, term);
      if term in postings {
        WeightingOfIndexedTerm(term, weight);
        scores := AddRows(scores, part, documents, query[..i], postings[term], term, weight, idf[term]);
      }
      NextTerm(scores, part, documents, query, i);
    }

    /** What a pair of entries adds: both weights times the logarithm of the term's rarity. */
    lemma WeightingInClosedForm(term: int, weight: real, value: real)
      ensures Weighting()(term, weight, value) ==
              weight * value * ln((|documents| + 1) as real / (|PostingsOf(documents, term)| as real + 0.5))
    {
      IdfInClosedForm(ln, |documents|, |PostingsOf(documents, term)|);
    }

    lemma WeightingOfIndexedTerm(term: int, weight: real)
      requires Valid() && term in postings
      ensures forall value :: Weighting()(term, weight, value) == weight * value * idf[term]
    {
    }
  }

  /** The inner loop of indexing: appends a document's entries to the postings of their terms. */
  method AppendDocument(before: map<int, Rows>, documents: seq<Vector>, index: nat) returns (postings: map<int, Rows>)
    requires index < |documents| && Indexes(before, documents[..index])
    ensures Indexes(postings, documents[..index + 1])
  {
    var document := documents[index];
    postings := before;
    StartDocument(postings, documents[..index], index);
    assert document[..0] == [];
    for n := 0 to |document|
      invariant IndexesPart(postings, documents[..index], index, document[..n])
    {
      NextEntry(postings, documents[..index], index, document, n);
      var (term, weight) := document[n];
      postings := postings[term := Row(postings, term) + [(index, weight)]];
    }
    assert document[..|document|] == document;
    DocumentJoins(postings, documents, index);
  }

  /** The scores' entry for one row of a query term's postings. */
  method AddRow(before: map<int, real>, ghost part: Part, row: (nat, real), term: int, weight: real, idf: real)
    returns (scores: map<int, real>)
    requires part(term, weight, row.1) == weight * row.1 * idf
    ensures scores == before[row.0 := ScoreIn(before)(row.0) + part(term, weight, row.1)]
  {
    var (document, value) := row;
    var gain := weight * value * idf;
    assert gain == part(term, weight, value);
    scores := before[document := ScoreIn(before)(document) + gain];
  }

  /** The inner loop of retrieval: adds one query term along its postings. */
  method AddRows(before: map<int, real>, ghost part: Part, ghost documents: seq<Vector>, ghost query: Vector,
                 rows: Rows, term: int, weight: real, idf: real)
    returns (scores: map<int, real>)
    requires Accumulated(before, part, documents, query, [], term, weight)
    requires forall value :: part(term, weight, value) == weight * value * idf
    ensures Accumulated(scores, part, documents, query, rows, term, weight)
  {
    scores := before;
    for j := 0 to |rows|
      invariant Accumulated(scores, part, documents, query, rows[..j], term, weight)
    {
      NextRow(scores, part, documents, query, rows, j, term, weight);
      scores := AddRow(scores, part, rows[j], term, weight, idf);
    }
    assert rows[..|rows|] == rows;
  }

  lemma StartTerm(scores: map<int, real>, part: Part, documents: seq<Vector>, query: Vector, term: int, weight: real)
    requires Accumulated(scores, part, documents, query, [], 0, 0.0)
    ensures Accumulated(scores, part, documents, query, [], term, weight)
  {
  }

  /** A document's score in the full scan; nothing for an index that is not a document. */
  function DocumentScore(part: Part, documents: seq<Vector>, query: Vector): int -> real {
    d => if 0 <= d < |documents| && Shares(documents[d], query) then ScanScore(part, documents[d], query) else 0.0
  }

  /** What is retrieved: the documents sharing a term, each once, a higher scan score first and of equal
      scores the lower index; cut at `k`. */
  lemma RetrievedInOrder(part: Part, documents: seq<Vector>, query: Vector, ranked: seq<int>, i: nat, j: nat)
    requires IsListing(RankOrder(IntLeq, DocumentScore(part, documents, query)), Matches(documents, query), ranked)
    requires i < j < |ranked|
    ensures 0 <= ranked[i] < |documents| && 0 <= ranked[j] < |documents| && ranked[i] != ranked[j]
    ensures ScanScore(part, documents[ranked[i]], query) >= ScanScore(part, documents[ranked[j]], query)
    ensures ScanScore(part, documents[ranked[i]], query) == ScanScore(part, documents[ranked[j]], query) ==>
              ranked[i] < ranked[j]
  {
    assert RankOrder(IntLeq, DocumentScore(part, documents, query))(ranked[i], ranked[j]);
    assert ranked[i] in Elements(ranked) && ranked[j] in Elements(ranked);
  }

  /** A document is matched exactly when some term is in it and in the query. */
  lemma MatchedExactlyWhen(documents: seq<Vector>, query: Vector, d: int)
    ensures d in Matches(documents, query) <==>
              && 0 <= d < |documents|
              && exists i, j :: 0 <= i < |documents[d]| && 0 <= j < |query| && documents[d][i].0 == query[j].0
  {
    if d in Matches(documents, query) {
      var entry :| entry in query && HasTerm(documents[d], entry.0);
      var own :| own in documents[d] && own.0 == entry.0;
      var i :| 0 <= i < |documents[d]| && documents[d][i] == own;
      var j :| 0 <= j < |query| && query[j] == entry;
    }
    if 0 <= d < |documents| {
      if i, j :| 0 <= i < |documents[d]| && 0 <= j < |query| && documents[d][i].0 == query[j].0 {
        assert documents[d][i] in documents[d] && query[j] in query;
      }
    }
  }

  /** The scan adds up over the query's entries and over the document's, and each pair of entries of one term
      adds the product of their weights and the term's IDF. */
  lemma ScanAddsUp(part: Part, document: Vector, query: Vector, own: (int, real), entry: (int, real))
    ensures ScanScore(part, document, []) == 0.0 && ScanScore(part, [], [entry]) == 0.0
    ensures ScanScore(part, document, query + [entry]) ==
            ScanScore(part, document, query) + ScanScore(part, document, [entry])
    ensures ScanScore(part, document + [own], [entry]) ==
            ScanScore(part, document, [entry]) + if own.0 == entry.0 then part(entry.0, entry.1, own.1) else 0.0
  {
    assert (query + [entry])[..|query|] == query;
    assert [entry][..0] == [];
    assert (document + [own])[..|document|] == document;
    assert ScanTerm(part, [], entry.0, entry.1) == 0.0;
  }

  lemma AccumulatedScoresAreScans(scores: map<int, real>, part: Part, documents: seq<Vector>, query: Vector,
                                  ranked: seq<int>)
    requires Accumulated(scores, part, documents, query, [], 0, 0.0)
    requires IsListing(RankOrder(IntLeq, ScoreIn(scores)), scores.Keys, ranked)
    ensures IsListing(RankOrder(IntLeq, DocumentScore(part, documents, query)), Matches(documents, query), ranked)
  {
    forall d
      ensures d in scores <==> d in Matches(documents, query)
      ensures ScoreIn(scores)(d) == DocumentScore(part, documents, query)(d)
    {
      IndexScoresAreScans(part, documents, query, d);
    }
    assert scores.Keys == Matches(documents, query);
    SameComparisonsSameListing(IntLeq, ScoreIn(scores), DocumentScore(part, documents, query), scores.Keys, ranked);
  }
}
