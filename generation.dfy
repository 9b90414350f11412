/** `generate_answer` (generation_pipeline.py): retrieval, context assembly, prompting
    and source deduplication. The retriever (embedding plus Qdrant top-k search) and the
    LLM chain are parameters; only the string and set shaping around them is modelled. */
module Generation {
  import opened Text

  /** One retrieved chunk, as the retriever formats a search hit. */
  datatype Retrieved = Retrieved(text: string, source: string, page: nat, chunkId: string, score: real)

  /** The result record: the answer, the deduplicated sources and the retrieval list. */
  datatype Answer = Answer(answer: string, sources: set<string>, retrievedChunks: seq<Retrieved>)

  /** `[Source: s, Page: p]` and a newline, the header above each chunk in the context. */
  function Header(c: Retrieved): string {
    "[Source: " + c.source + ", Page: " + Decimal(c.page) + "]\n"
  }

  function Block(c: Retrieved): (r: string)
    ensures |r| > |Header(c)| || (c.text == [] && r == Header(c))
    ensures r[..|Header(c)|] == Header(c) && r[|Header(c)|..] == c.text
  {
    Header(c) + c.text
  }

  function Blocks(retrieved: seq<Retrieved>): (r: seq<string>)
    ensures |r| == |retrieved|
    ensures forall i :: 0 <= i < |r| ==> r[i] == Block(retrieved[i])
  {
    seq(|retrieved|, i requires 0 <= i < |retrieved| => Block(retrieved[i]))
  }

  /** The context: the blocks, in retrieval order, separated by blank lines. It is
      empty exactly when nothing was retrieved. */
  function Context(retrieved: seq<Retrieved>): (r: string)
    ensures r == [] <==> retrieved == []
  {
    Join(Blocks(retrieved), "\n\n")
  }

  /** Each further chunk adds a blank line and its block at the end of the context. */
  lemma ContextSnoc(retrieved: seq<Retrieved>, c: Retrieved)
    requires retrieved != []
    ensures Context(retrieved + [c]) == Context(retrieved) + "\n\n" + Block(c)
  {
    assert Blocks(retrieved + [c]) == Blocks(retrieved) + [Block(c)];
    JoinSnoc(Blocks(retrieved), Block(c), "\n\n");
  }

  /** The context for one chunk is its block alone. */
  lemma ContextSingle(c: Retrieved)
    ensures Context([c]) == Header(c) + c.text
  {
    assert Blocks([c]) == [Block(c)];
  }

  /** The context holds every block and one blank line between neighbours. */
  lemma ContextLength(retrieved: seq<Retrieved>)
    ensures |Context(retrieved)| == TotalLength(Blocks(retrieved)) + (if retrieved == [] then 0 else 2 * (|retrieved| - 1))
  {
    JoinLength(Blocks(retrieved), "\n\n");
  }

  /** `source (Page p)`, the label of a retrieved chunk in the source list. */
  function SourceLabel(source: string, page: nat): string {
    source + " (Page " + Decimal(page) + ")"
  }

  function LabelOf(c: Retrieved): string {
    SourceLabel(c.source, c.page)
  }

  /** The labels of the retrieved chunks, in retrieval order and with repeats. */
  function Labels(retrieved: seq<Retrieved>): (r: seq<string>)
    ensures |r| == |retrieved|
    ensures forall i :: 0 <= i < |r| ==> r[i] == LabelOf(retrieved[i])
  {
    seq(|retrieved|, i requires 0 <= i < |retrieved| => LabelOf(retrieved[i]))
  }

  /** The set of source labels: every retrieved chunk's label and nothing else, never
      more entries than chunks. */
  function Sources(retrieved: seq<Retrieved>): (r: set<string>)
    ensures forall i :: 0 <= i < |retrieved| ==> LabelOf(retrieved[i]) in r
    ensures forall s :: s in r ==> exists i :: 0 <= i < |retrieved| && LabelOf(retrieved[i]) == s
    ensures |r| <= |retrieved|
  {
    var labels := Labels(retrieved);
    ElementsAtMostLength(labels);
    set s | s in labels
  }

  /** A list has at most as many distinct elements as entries. */
  lemma {:induction false} ElementsAtMostLength<T>(xs: seq<T>)
    ensures |set x | x in xs| <= |xs|
  {
    if xs != [] {
      ElementsAtMostLength(xs[1..]);
      assert (set x | x in xs) == (set x | x in xs[1..]) + {xs[0]};
    }
  }

  /** Two chunks share a label exactly when they share source and page, so the label
      set deduplicates (source, page) pairs. */
  lemma LabelInjective(s1: string, p1: nat, s2: string, p2: nat)
    requires SourceLabel(s1, p1) == SourceLabel(s2, p2)
    ensures s1 == s2 && p1 == p2
  {
    var l := SourceLabel(s1, p1);
    var body := l[..|l| - 1];
    assert body == (s1 + " (Page ") + Decimal(p1);
    assert body == (s2 + " (Page ") + Decimal(p2);
    DigitSuffixCut(s1 + " (Page ", Decimal(p1), s2 + " (Page ", Decimal(p2));
    assert s1 == (s1 + " (Page ")[..|s1|];
    DecimalInjective(p1, p2);
  }

  function Pairs(retrieved: seq<Retrieved>): set<(string, nat)> {
    set c | c in retrieved :: (c.source, c.page)
  }

  /** The label set is the image of the (source, page) pairs under labelling. */
  lemma SourcesImage(retrieved: seq<Retrieved>)
    ensures Sources(retrieved) == set p | p in Pairs(retrieved) :: SourceLabel(p.0, p.1)
  {
    var labels := Sources(retrieved);
    var pairs := Pairs(retrieved);
    forall s | s in labels
      ensures s in set p | p in pairs :: SourceLabel(p.0, p.1)
    {
      var i :| 0 <= i < |retrieved| && LabelOf(retrieved[i]) == s;
      assert (retrieved[i].source, retrieved[i].page) in pairs;
    }
    forall p | p in pairs
      ensures SourceLabel(p.0, p.1) in labels
    {
      var c :| c in retrieved && (c.source, c.page) == p;
      var i :| 0 <= i < |retrieved| && retrieved[i] == c;
    }
  }

  /** The source list has one entry per distinct (source, page) pair among the chunks. */
  lemma {:induction false} SourcesCount(retrieved: seq<Retrieved>)
    ensures |Sources(retrieved)| == |Pairs(retrieved)|
  {
    var pairs := Pairs(retrieved);
    var toLabel := (p: (string, nat)) => SourceLabel(p.0, p.1);
    SourcesImage(retrieved);
    assert Sources(retrieved) == set p | p in pairs :: toLabel(p);
    forall p, q | p in pairs && q in pairs && toLabel(p) == toLabel(q)
      ensures p == q
    {
      LabelInjective(p.0, p.1, q.0, q.1);
    }
    InjectiveImage(pairs, toLabel);
  }

  lemma {:induction false} InjectiveImage(pairs: set<(string, nat)>, f: ((string, nat)) -> string)
    requires forall p, q :: p in pairs && q in pairs && f(p) == f(q) ==> p == q
    ensures |set p | p in pairs :: f(p)| == |pairs|
    decreases |pairs|
  {
    if pairs != {} {
      var p :| p in pairs;
      var rest := pairs - {p};
      InjectiveImage(rest, f);
      assert (set q | q in pairs :: f(q)) == (set q | q in rest :: f(q)) + {f(p)};
    }
  }

  const PROMPT_HEAD: string := "\nYou are an interview preparation assistant. Use the provided context to answer the user's question accurately and concisely.\n\nContext:\n"
  const PROMPT_MIDDLE: string := "\n\nQuestion:\n"
  const PROMPT_TAIL: string := "\n\nAnswer:\n"

  /** The prompt template with the context and the question filled in. */
  function Prompt(context: string, question: string): (r: string)
    ensures |r| == |PROMPT_HEAD| + |context| + |PROMPT_MIDDLE| + |question| + |PROMPT_TAIL|
    ensures r[..|PROMPT_HEAD|] == PROMPT_HEAD
    ensures r[|r| - |PROMPT_TAIL|..] == PROMPT_TAIL
  {
    PROMPT_HEAD + context + PROMPT_MIDDLE + question + PROMPT_TAIL
  }

  /** The prompt is the head, the context, the middle, the question and the tail, in
      that order, so the context and the question can be read back from it. */
  lemma PromptSlots(context: string, question: string)
    ensures var p := Prompt(context, question);
      |p| == |PROMPT_HEAD| + |context| + |PROMPT_MIDDLE| + |question| + |PROMPT_TAIL| &&
      p[..|PROMPT_HEAD|] == PROMPT_HEAD &&
      p[|PROMPT_HEAD|..|PROMPT_HEAD| + |context|] == context &&
      p[|PROMPT_HEAD| + |context|..|PROMPT_HEAD| + |context| + |PROMPT_MIDDLE|] == PROMPT_MIDDLE &&
      p[|p| - |PROMPT_TAIL| - |question|..|p| - |PROMPT_TAIL|] == question &&
      p[|p| - |PROMPT_TAIL|..] == PROMPT_TAIL
  {
    var p := Prompt(context, question);
    var h := |PROMPT_HEAD|;
    assert p[h..h + |context|] == context;
  }

  /** The default number of chunks `generate_answer` retrieves. */
  const TOP_K: int := 5

  /** `generate_answer`: retrieve `topK` chunks, build the context, ask the chain with
      the filled-in prompt, and return the answer, the label set and the retrieval
      list unchanged. */
  function GenerateAnswer(question: string, topK: int,
                          retrieve: (string, int) -> seq<Retrieved>,
                          chain: string -> string): (r: Answer)
    ensures r.retrievedChunks == retrieve(question, topK)
    ensures r.answer == chain(Prompt(Context(r.retrievedChunks), question))
    ensures forall i :: 0 <= i < |r.retrievedChunks| ==> LabelOf(r.retrievedChunks[i]) in r.sources
    ensures forall s :: s in r.sources ==> exists i :: 0 <= i < |r.retrievedChunks| && LabelOf(r.retrievedChunks[i]) == s
    ensures |r.sources| <= |r.retrievedChunks|
  {
    var retrieved := retrieve(question, topK);
    var context := Context(retrieved);
    var answer := chain(Prompt(context, question));
    Answer(answer, Sources(retrieved), retrieved)
  }

  /** With nothing retrieved the prompt's context slot is empty and there are no sources. */
  lemma NothingRetrieved(question: string, topK: int,
                         retrieve: (string, int) -> seq<Retrieved>,
                         chain: string -> string)
    requires retrieve(question, topK) == []
    ensures GenerateAnswer(question, topK, retrieve, chain) ==
              Answer(chain(PROMPT_HEAD + PROMPT_MIDDLE + question + PROMPT_TAIL), {}, [])
  {
    assert Sources([]) == {};
    assert PROMPT_HEAD + Context([]) == PROMPT_HEAD;
  }
}
