/** `clean_text` and the short-chunk filter of `clean_data` (data_cleaning.py).
    NLTK's `word_tokenize` and its English stop-word list are outside the model:
    they are a function parameter and a set parameter. */
module DataCleaning {
  import opened Text
  import opened Chunks

  /** Chunks whose cleaned, stripped text is not longer than this are dropped. */
  const MIN_CLEAN_LENGTH: nat := 20

  /** In the range `\x00-\x7f` of the non-ASCII pattern. */
  predicate IsAscii(c: char) {
    c as int < 128
  }

  predicate IsUpper(c: char) {
    'A' <= c <= 'Z'
  }

  /** `str.lower()` on one character (ASCII letters only; see README). */
  function LowerChar(c: char): char {
    if IsUpper(c) then (c as int + 32) as char else c
  }

  /** Step 1, `text.lower()`. */
  function Lower(s: string): (r: string)
    ensures |r| == |s|
    ensures forall i :: 0 <= i < |r| ==> !IsUpper(r[i])
    ensures forall i :: 0 <= i < |r| ==> (IsAscii(r[i]) <==> IsAscii(s[i]))
    ensures forall i :: 0 <= i < |r| ==> !IsUpper(s[i]) ==> r[i] == s[i]
    ensures forall i :: 0 <= i < |r| ==> IsUpper(s[i]) ==>
              'a' <= r[i] <= 'z' && r[i] as int - 'a' as int == s[i] as int - 'A' as int
  {
    seq(|s|, i requires 0 <= i < |s| => LowerChar(s[i]))
  }

  /** Step 2, `re.sub(r'[^\x00-\x7f]+', ' ', text)`: a non-ASCII character yields a
      space when it ends its run and nothing otherwise. */
  function CollapseNonAscii(s: string): (r: string)
    ensures forall i :: 0 <= i < |r| ==> IsAscii(r[i])
    ensures |r| <= |s|
  {
    if s == [] then []
    else if IsAscii(s[0]) then [s[0]] + CollapseNonAscii(s[1..])
    else if |s| > 1 && !IsAscii(s[1]) then CollapseNonAscii(s[1..])
    else [' '] + CollapseNonAscii(s[1..])
  }

  predicate AllAscii(s: string) {
    forall i :: 0 <= i < |s| ==> IsAscii(s[i])
  }

  /** ASCII text passes through step 2 unchanged. */
  lemma {:induction false} CollapseAsciiPrefix(a: string, b: string)
    requires AllAscii(a)
    ensures CollapseNonAscii(a + b) == a + CollapseNonAscii(b)
  {
    if a != [] {
      assert (a + b)[1..] == a[1..] + b;
      CollapseAsciiPrefix(a[1..], b);
    } else {
      assert a + b == b;
    }
  }

  /** A maximal run of non-ASCII characters becomes exactly one space. */
  lemma {:induction false} CollapseRun(run: string, b: string)
    requires run != [] && forall i :: 0 <= i < |run| ==> !IsAscii(run[i])
    requires b == [] || IsAscii(b[0])
    ensures CollapseNonAscii(run + b) == " " + CollapseNonAscii(b)
  {
    assert (run + b)[1..] == run[1..] + b;
    if |run| > 1 {
      CollapseRun(run[1..], b);
    } else {
      assert run[1..] + b == b;
    }
  }

  /** The allow-list of step 3: `[a-z0-9\.\s#/@(),:;\-\+%A-Z&]`. */
  predicate Allowed(c: char) {
    || ('a' <= c <= 'z') || ('0' <= c <= '9') || IsUpper(c)
    || IsWhitespace(c)
    || c in {'.', '#', '/', '@', '(', ')', ',', ':', ';', '-', '+', '%', '&'}
  }

  /** Step 3, `re.sub(r'[^...]', ' ', text)`: every character outside the allow-list
      becomes one space, so the length is kept. */
  function AllowList(s: string): (r: string)
    ensures |r| == |s|
    ensures forall i :: 0 <= i < |r| ==> Allowed(r[i])
    ensures forall i :: 0 <= i < |r| ==> Allowed(s[i]) ==> r[i] == s[i]
    ensures forall i :: 0 <= i < |r| ==> !Allowed(s[i]) ==> r[i] == ' '
  {
    seq(|s|, i requires 0 <= i < |s| => if Allowed(s[i]) then s[i] else ' ')
  }

  /** Steps 1 to 3 of `clean_text`. */
  function Normalize(s: string): string {
    AllowList(CollapseNonAscii(Lower(s)))
  }

  /** A character that can survive steps 1 to 3. */
  predicate IsCleanChar(c: char) {
    || ('a' <= c <= 'z') || ('0' <= c <= '9')
    || (IsAscii(c) && IsWhitespace(c))
    || c in {'.', '#', '/', '@', '(', ')', ',', ':', ';', '-', '+', '%', '&'}
  }

  /** After steps 1 to 3 only lower-case letters, digits, ASCII whitespace and the
      punctuation `. # / @ ( ) , : ; - + % &` remain. */
  lemma NormalizeChars(s: string)
    ensures forall i :: 0 <= i < |Normalize(s)| ==> IsCleanChar(Normalize(s)[i])
  {
    var l := Lower(s);
    var c := CollapseNonAscii(l);
    var r := AllowList(c);
    forall i | 0 <= i < |r| ensures IsCleanChar(r[i]) {
      if Allowed(c[i]) {
        assert r[i] == c[i];
        assert IsAscii(c[i]);
        assert !IsUpper(c[i]) by {
          CollapseKeepsLower(l);
        }
      }
    }
  }

  /** Step 2 introduces no upper-case letter. */
  lemma {:induction false} CollapseKeepsLower(s: string)
    requires forall i :: 0 <= i < |s| ==> !IsUpper(s[i])
    ensures forall i :: 0 <= i < |CollapseNonAscii(s)| ==> !IsUpper(CollapseNonAscii(s)[i])
  {
    if s != [] {
      CollapseKeepsLower(s[1..]);
    }
  }

  /** Cleaning steps 1 to 3 twice is cleaning them once. */
  lemma NormalizeIdempotent(s: string)
    ensures Normalize(Normalize(s)) == Normalize(s)
  {
    var t := Normalize(s);
    NormalizeChars(s);
    assert Lower(t) == t;
    CollapseAsciiPrefix(t, []);
    assert t + [] == t;
    assert CollapseNonAscii(t) == t;
    assert AllowList(t) == t;
  }

  /** `a` is `b` with some elements left out, the rest in their order. */
  ghost predicate IsSubsequence<T>(a: seq<T>, b: seq<T>)
    decreases |b|
  {
    if a == [] then true
    else if b == [] then false
    else if a[0] == b[0] then IsSubsequence(a[1..], b[1..])
    else IsSubsequence(a, b[1..])
  }

  /** Step 5, `[t for t in tokens if t not in STOPWORDS]`: no stop word survives,
      every other token survives as often as it occurs, in its order. */
  function RemoveStopWords(tokens: seq<string>, stopWords: set<string>): (r: seq<string>)
    ensures forall i :: 0 <= i < |r| ==> r[i] !in stopWords
    ensures forall t :: multiset(r)[t] == if t in stopWords then 0 else multiset(tokens)[t]
    ensures IsSubsequence(r, tokens)
  {
    if tokens == [] then []
    else
      var rest := RemoveStopWords(tokens[1..], stopWords);
      assert tokens == [tokens[0]] + tokens[1..];
      if tokens[0] in stopWords then
        SubsequenceSkip(rest, tokens[1..], tokens[0]);
        rest
      else
        [tokens[0]] + rest
  }

  lemma {:induction false} SubsequenceSkip<T>(a: seq<T>, b: seq<T>, x: T)
    requires IsSubsequence(a, b)
    ensures IsSubsequence(a, [x] + b)
    decreases |b|, 1
  {
    if a != [] && a[0] == x {
      // a[0] == x: match x with a[0], then a[1..] must be a subsequence of b.
      SubsequenceTail(a, b);
    }
    assert ([x] + b)[1..] == b;
  }

  lemma {:induction false} SubsequenceTail<T>(a: seq<T>, b: seq<T>)
    requires a != [] && IsSubsequence(a, b)
    ensures IsSubsequence(a[1..], b)
    decreases |b|, 0
  {
    if a[0] == b[0] {
      SubsequenceSkip(a[1..], b[1..], b[0]);
      assert [b[0]] + b[1..] == b;
    } else {
      SubsequenceTail(a, b[1..]);
      SubsequenceSkip(a[1..], b[1..], b[0]);
      assert [b[0]] + b[1..] == b;
    }
  }

  /** `clean_text`: steps 1 to 3, tokenization, stop-word removal, single-space join. */
  function CleanText(text: string, tokenize: string -> seq<string>, stopWords: set<string>): string {
    Join(RemoveStopWords(tokenize(Normalize(text)), stopWords), " ")
  }

  /** The cleaned text holds every surviving token and one space between neighbours. */
  lemma CleanTextLength(text: string, tokenize: string -> seq<string>, stopWords: set<string>)
    ensures var ts := RemoveStopWords(tokenize(Normalize(text)), stopWords);
            |CleanText(text, tokenize, stopWords)| == TotalLength(ts) + (if ts == [] then 0 else |ts| - 1)
  {
    JoinLength(RemoveStopWords(tokenize(Normalize(text)), stopWords), " ");
  }

  /** The cleaned text is the surviving tokens separated by single spaces: splitting it
      on ' ' gives them back, when there is at least one and none holds a space. */
  lemma CleanTextTokens(text: string, tokenize: string -> seq<string>, stopWords: set<string>)
    requires var ts := RemoveStopWords(tokenize(Normalize(text)), stopWords);
             ts != [] && forall i :: 0 <= i < |ts| ==> ' ' !in ts[i]
    ensures Split(CleanText(text, tokenize, stopWords), ' ') == RemoveStopWords(tokenize(Normalize(text)), stopWords)
  {
    SplitJoin(RemoveStopWords(tokenize(Normalize(text)), stopWords), ' ');
  }

  /** The quality gate: `len(cleaned_text.strip()) > 20`. */
  predicate Kept(cleaned: string) {
    |Strip(cleaned)| > MIN_CLEAN_LENGTH
  }

  /** The record `{"text": cleaned_text, "metadata": chunk["metadata"]}`. */
  function CleanChunk(c: Chunk, tokenize: string -> seq<string>, stopWords: set<string>): Chunk {
    Chunk(CleanText(c.text, tokenize, stopWords), c.metadata, None)
  }

  /** `cleaned_chunks` for a list of chunks. */
  function CleanChunks(chunks: seq<Chunk>, tokenize: string -> seq<string>, stopWords: set<string>): (r: seq<Chunk>)
    ensures |r| <= |chunks|
    ensures forall k :: 0 <= k < |r| ==> Kept(r[k].text)
  {
    if chunks == [] then []
    else
      var c := CleanChunk(chunks[|chunks| - 1], tokenize, stopWords);
      CleanChunks(chunks[..|chunks| - 1], tokenize, stopWords) + (if Kept(c.text) then [c] else [])
  }

  /** A chunk reaches the output exactly when its cleaned text passes the gate, and
      every output record is such a chunk with its metadata unchanged. */
  lemma {:induction false} CleanChunksMembers(chunks: seq<Chunk>, tokenize: string -> seq<string>, stopWords: set<string>)
    ensures forall c :: c in chunks ==>
              (CleanChunk(c, tokenize, stopWords) in CleanChunks(chunks, tokenize, stopWords)
               <==> Kept(CleanText(c.text, tokenize, stopWords)))
    ensures forall k :: k in CleanChunks(chunks, tokenize, stopWords) ==>
              exists c :: c in chunks && k == CleanChunk(c, tokenize, stopWords) && k.metadata == c.metadata
  {
    if chunks != [] {
      var init := chunks[..|chunks| - 1];
      CleanChunksMembers(init, tokenize, stopWords);
      assert chunks == init + [chunks[|chunks| - 1]];
      forall k | k in CleanChunks(chunks, tokenize, stopWords)
        ensures Kept(k.text)
      {
        var r := CleanChunks(chunks, tokenize, stopWords);
        var i :| 0 <= i < |r| && r[i] == k;
      }
    }
  }

  /** Every chunk cleaned, none dropped. */
  function CleanAll(chunks: seq<Chunk>, tokenize: string -> seq<string>, stopWords: set<string>): seq<Chunk> {
    if chunks == [] then []
    else CleanAll(chunks[..|chunks| - 1], tokenize, stopWords) + [CleanChunk(chunks[|chunks| - 1], tokenize, stopWords)]
  }

  lemma {:induction false} SubsequenceSnoc<T>(a: seq<T>, b: seq<T>, x: T, keep: bool)
    requires IsSubsequence(a, b)
    ensures IsSubsequence(a + (if keep then [x] else []), b + [x])
    decreases |b|
  {
    if a == [] {
      if keep {
        EndsInSubsequence(b, x);
        assert a + [x] == [x];
      }
    } else if a[0] == b[0] {
      SubsequenceSnoc(a[1..], b[1..], x, keep);
      assert (a + (if keep then [x] else []))[1..] == a[1..] + (if keep then [x] else []);
      assert (b + [x])[1..] == b[1..] + [x];
    } else {
      SubsequenceSnoc(a, b[1..], x, keep);
      assert (b + [x])[1..] == b[1..] + [x];
    }
  }

  lemma {:induction false} EndsInSubsequence<T>(b: seq<T>, x: T)
    ensures IsSubsequence([x], b + [x])
    decreases |b|
  {
    if b != [] {
      EndsInSubsequence(b[1..], x);
      assert (b + [x])[1..] == b[1..] + [x];
    } else {
      assert [x][1..] == [];
    }
  }

  /** The kept records appear in the order of their chunks. */
  lemma {:induction false} CleanChunksInOrder(chunks: seq<Chunk>, tokenize: string -> seq<string>, stopWords: set<string>)
    ensures IsSubsequence(CleanChunks(chunks, tokenize, stopWords), CleanAll(chunks, tokenize, stopWords))
  {
    if chunks != [] {
      var init := chunks[..|chunks| - 1];
      var c := CleanChunk(chunks[|chunks| - 1], tokenize, stopWords);
      CleanChunksInOrder(init, tokenize, stopWords);
      SubsequenceSnoc(CleanChunks(init, tokenize, stopWords), CleanAll(init, tokenize, stopWords), c, Kept(c.text));
    }
  }

  /** One more chunk appends its cleaned record exactly when that record is kept. */
  lemma CleanChunksStep(chunks: seq<Chunk>, i: nat, tokenize: string -> seq<string>, stopWords: set<string>)
    requires i < |chunks|
    ensures var t := CleanText(chunks[i].text, tokenize, stopWords);
            CleanChunks(chunks[..i + 1], tokenize, stopWords) ==
              CleanChunks(chunks[..i], tokenize, stopWords) + (if Kept(t) then [Chunk(t, chunks[i].metadata, None)] else [])
  {
    assert chunks[..i + 1][..i] == chunks[..i];
  }

  /** The per-file loop of `clean_data` over the chunk list. */
  method CleanData(chunks: seq<Chunk>, tokenize: string -> seq<string>, stopWords: set<string>)
    returns (cleaned: seq<Chunk>)
    ensures cleaned == CleanChunks(chunks, tokenize, stopWords)
  {
    cleaned := [];
    var i := 0;
    while i < |chunks|
      invariant 0 <= i <= |chunks|
      invariant cleaned == CleanChunks(chunks[..i], tokenize, stopWords)
    {
      CleanChunksStep(chunks, i, tokenize, stopWords);
      var cleanedText := CleanText(chunks[i].text, tokenize, stopWords);
      if |Strip(cleanedText)| > MIN_CLEAN_LENGTH {
        cleaned := cleaned + [Chunk(cleanedText, chunks[i].metadata, None)];
      }
      i := i + 1;
    }
    assert chunks[..i] == chunks;
  }
}
