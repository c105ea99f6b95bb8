/**
 * `handle_rag_query` of modules/rag_tool.py: the semantic index first, then
 * the document table, then a fixed sentence, with every failure turned into
 * an error message.
 *
 * The document table is searched by substring containment in id order. The
 * SQL query diverges from that in three ways that are not modelled: LIKE is
 * ASCII case-insensitive, '%' and '_' inside the query act as wildcards, and
 * `fetchone()` without ORDER BY does not fix which matching row comes back.
 */
module RagTool {
  import opened Wrappers
  import opened Strings
  import opened SeedPassages

  /** What a data source yields for this query, or the text of the exception it raised. */
  datatype Source<T> = Available(value: T) | Failed(detail: string)

  const NoInformation: string := "No relevant information found."
  const ErrorPrefix: string := "Error while searching: "

  /** Document `i` is the first one, in id order, that contains `query`. */
  predicate IsFirstMatch(documents: seq<string>, query: string, i: nat)
  {
    i < |documents| && Contains(documents[i], query)
    && forall j :: 0 <= j < i ==> !Contains(documents[j], query)
  }

  /** `SELECT content FROM documents WHERE content LIKE '%query%'` and `fetchone()`. */
  function FirstContaining(documents: seq<string>, query: string): (r: Option<nat>)
    ensures r.Some? ==> IsFirstMatch(documents, query, r.value)
    ensures r.None? ==> forall j :: 0 <= j < |documents| ==> !Contains(documents[j], query)
    decreases |documents|
  {
    if documents == [] then None
    else if Contains(documents[0], query) then Some(0)
    else
      match FirstContaining(documents[1..], query)
      case None => None
      case Some(i) => Some(i + 1)
  }

  /**
   * `handle_rag_query(query)`. `index` is None when no vector store exists, or
   * else the passages the similarity search returns for this query;
   * `documents` is the document table in id order. A failure of the semantic
   * tier is reported, not followed by the fallback: both sit in one `try`.
   */
  function HandleRagQuery(query: string, index: Source<Option<seq<string>>>,
                          documents: Source<seq<string>>): (answer: string)
    ensures index.Failed? ==> answer == ErrorPrefix + index.detail
    ensures index.Available? && index.value.Some? && index.value.value != [] ==>
              answer == index.value.value[0]
    ensures index.Available? && (index.value.None? || index.value.value == []) ==>
              match documents
              case Failed(detail) => answer == ErrorPrefix + detail
              case Available(docs) =>
                || (exists i: nat :: IsFirstMatch(docs, query, i) && answer == docs[i])
                || ((forall j :: 0 <= j < |docs| ==> !Contains(docs[j], query)) && answer == NoInformation)
  {
    match index
    case Failed(detail) => ErrorPrefix + detail
    case Available(passages) =>
      if passages.Some? && passages.value != [] then passages.value[0]
      else
        match documents
        case Failed(detail) => ErrorPrefix + detail
        case Available(docs) =>
          match FirstContaining(docs, query)
          case Some(i) => docs[i]
          case None => NoInformation
  }

  /** No index and no semantic result behave alike. */
  predicate NoSemanticAnswer(index: Source<Option<seq<string>>>)
  {
    index.Available? && (index.value.None? || index.value.value == [])
  }

  // ------------------------------------------------------------ properties

  /** The semantic answer wins whatever the document table holds, even a failing one. */
  lemma SemanticFirst(query: string, passages: seq<string>, d1: Source<seq<string>>, d2: Source<seq<string>>)
    requires passages != []
    ensures HandleRagQuery(query, Available(Some(passages)), d1) == passages[0]
    ensures HandleRagQuery(query, Available(Some(passages)), d1)
         == HandleRagQuery(query, Available(Some(passages)), d2)
  {
  }

  /** Without a semantic answer, the answer is the sentence exactly when no document matches. */
  lemma {:induction false} SentinelIffNoMatch(query: string, index: Source<Option<seq<string>>>, docs: seq<string>)
    requires NoSemanticAnswer(index)
    requires NoInformation !in docs
    ensures HandleRagQuery(query, index, Available(docs)) == NoInformation
        <==> forall j :: 0 <= j < |docs| ==> !Contains(docs[j], query)
  {
    var r := FirstContaining(docs, query);
    if r.Some? {
      assert docs[r.value] in docs;
    }
  }

  /** With no semantic answer the empty query matches every document, so it returns the first. */
  lemma {:induction false} EmptyQueryReturnsFirst(index: Source<Option<seq<string>>>, docs: seq<string>)
    requires NoSemanticAnswer(index) && docs != []
    ensures HandleRagQuery("", index, Available(docs)) == docs[0]
  {
    ContainsEmpty(docs[0]);
  }

  const SeedDocuments: seq<string> := [Seed0, Seed1, Seed2, Seed3, Seed4]

  lemma FreeTradeHelper(docs: seq<string>, query: string)
    requires docs == SeedDocuments && query == "Free Trade"
    ensures FirstContaining(docs, query) == Some(0)
  {
    assert docs[0][25..35] == query;
    assert OccursAt(docs[0], query, 25);
  }

  /** On the seeded table, "Free Trade" returns the first passage. */
  lemma FreeTradeQuery(index: Source<Option<seq<string>>>)
    requires NoSemanticAnswer(index)
    ensures HandleRagQuery("Free Trade", index, Available(SeedDocuments)) == SeedDocuments[0]
  {
    FreeTradeHelper(SeedDocuments, "Free Trade");
  }

  lemma UnknownTermHelper(docs: seq<string>, query: string)
    requires docs == SeedDocuments && query == "nonexistent-term-xyz"
    ensures forall j :: 0 <= j < |docs| ==> !Contains(docs[j], query)
  {
    assert 'z' in query by { assert query[19] == 'z'; }
    Seed0LacksZ();
    Seed1LacksZ();
    Seed2LacksZ();
    Seed3LacksZ();
    Seed4LacksZ();
    forall j | 0 <= j < |docs| ensures !Contains(docs[j], query) {
      MissingCharNotContains(docs[j], query, 'z');
    }
  }

  /** On the seeded table, a term found nowhere gives exactly the sentence. */
  lemma UnknownTermQuery(index: Source<Option<seq<string>>>)
    requires NoSemanticAnswer(index)
    ensures HandleRagQuery("nonexistent-term-xyz", index, Available(SeedDocuments)) == NoInformation
  {
    UnknownTermHelper(SeedDocuments, "nonexistent-term-xyz");
  }
}
