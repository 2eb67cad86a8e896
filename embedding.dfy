/**
 * Turning text chunks into retrieval documents (embeding.py, `create_documents`):
 * chunks whose stripped length is below 50 are dropped, every other chunk becomes a
 * document with the unstripped chunk as content and `{"source": source}` as metadata.
 */
module Embedding {
  import opened Strings
  import opened Sequences

  const MinLength := 50
  const DefaultSource := "extracted_text.txt"

  /** A chunk as the splitter hands it over: a string, or some other object
      (on which `.strip()` raises `AttributeError`). */
  datatype Chunk = TextChunk(text: string) | OtherChunk

  /** A LangChain `Document` with its metadata reduced to the `source` key. */
  datatype Document = Document(pageContent: string, source: string)

  /** Long enough to be kept. */
  predicate Meaningful(text: string) {
    |Strip(text)| >= MinLength
  }

  predicate AllText(chunks: seq<Chunk>) {
    forall k :: 0 <= k < |chunks| ==> chunks[k].TextChunk?
  }

  /** The comprehension at embeding.py line 58, for chunks that are all strings. */
  function KeptDocuments(chunks: seq<Chunk>, source: string): (docs: seq<Document>)
    requires AllText(chunks)
    ensures forall d :: d in docs ==> Meaningful(d.pageContent) && d.source == source
    ensures forall k :: 0 <= k < |chunks| && Meaningful(chunks[k].text) ==> Document(chunks[k].text, source) in docs
    ensures |docs| <= |chunks|
  {
    if chunks == [] then []
    else
      var rest := KeptDocuments(chunks[1..], source);
      assert forall k :: 1 <= k < |chunks| ==> chunks[k] == chunks[1..][k - 1];
      if Meaningful(chunks[0].text) then [Document(chunks[0].text, source)] + rest else rest
  }

  /** `create_documents(chunks, source)`: any exception while building yields `[]`. */
  function CreateDocuments(chunks: seq<Chunk>, source: string := DefaultSource): (docs: seq<Document>)
    ensures !AllText(chunks) ==> docs == []
    ensures AllText(chunks) ==> docs == KeptDocuments(chunks, source)
  {
    if AllText(chunks) then KeptDocuments(chunks, source) else []
  }

  /** The contents of the chunks, for chunks that are all strings. */
  function Texts(chunks: seq<Chunk>): (ts: seq<string>)
    requires AllText(chunks)
    ensures |ts| == |chunks| && forall k :: 0 <= k < |chunks| ==> ts[k] == chunks[k].text
  {
    if chunks == [] then [] else [chunks[0].text] + Texts(chunks[1..])
  }

  function Contents(docs: seq<Document>): (cs: seq<string>)
    ensures |cs| == |docs| && forall k :: 0 <= k < |docs| ==> cs[k] == docs[k].pageContent
  {
    if docs == [] then [] else [docs[0].pageContent] + Contents(docs[1..])
  }

  /** The documents' contents are the input chunks, unstripped, in input order with some left out. */
  lemma {:induction false} ContentsInOrder(chunks: seq<Chunk>, source: string)
    requires AllText(chunks)
    ensures IsSubsequence(Contents(KeptDocuments(chunks, source)), Texts(chunks))
  {
    if chunks != [] {
      ContentsInOrder(chunks[1..], source);
      var rest := KeptDocuments(chunks[1..], source);
      assert Texts(chunks)[1..] == Texts(chunks[1..]);
      if Meaningful(chunks[0].text) {
        assert Contents([Document(chunks[0].text, source)] + rest)[1..] == Contents(rest);
      } else {
        SubsequenceOfTail(Contents(rest), chunks[0].text, Texts(chunks[1..]));
        assert [chunks[0].text] + Texts(chunks[1..]) == Texts(chunks);
      }
    }
  }

  /** Each text occurs among the documents' contents exactly as often as among the chunks
      when it is long enough, and not at all otherwise. */
  lemma {:induction false} KeptMultiplicity(chunks: seq<Chunk>, source: string)
    requires AllText(chunks)
    ensures forall t ::
              multiset(Contents(KeptDocuments(chunks, source)))[t] ==
              if Meaningful(t) then multiset(Texts(chunks))[t] else 0
  {
    if chunks != [] {
      KeptMultiplicity(chunks[1..], source);
      var rest := KeptDocuments(chunks[1..], source);
      var c := chunks[0].text;
      assert Texts(chunks) == [c] + Texts(chunks[1..]);
      if Meaningful(c) {
        assert Contents([Document(c, source)] + rest) == [c] + Contents(rest);
      }
    }
  }

  /** Called without `source`, every document is tagged "extracted_text.txt". */
  lemma DefaultSourceTag(chunks: seq<Chunk>)
    ensures forall d :: d in CreateDocuments(chunks) ==> d.source == "extracted_text.txt"
  {
  }
}
