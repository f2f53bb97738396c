/** ner_service.py: the chunker, the two entity-merge passes and the flow of
    the NER endpoint, with the token classifier passed in as a function. */
module NerService {
  import opened Text
  import opened Entities
  import opened CapitalizedRuns

  /** Default of the `WORD_LIMIT` configuration value (ner_service.py:33). */
  const DEFAULT_WORD_LIMIT: int := 400

  // ===========================================================================
  // Chunker: split_text_into_chunks

  /** State of the chunking loop: the chunks already emitted and the words of
      the chunk being filled (`chunks`, `current_chunk`). */
  datatype Packing = Packing(closed: seq<string>, open: seq<string>)

  /** One iteration: `w` joins the open chunk if it still has room, otherwise
      the open chunk is closed and `w` starts the next one. */
  function PackStep(p: Packing, w: string, limit: int): Packing {
    if |p.open| + 1 <= limit then Packing(p.closed, p.open + [w])
    else Packing(p.closed + [Join(p.open)], [w])
  }

  /** The loop state after the words `words`, one word at a time. */
  function Pack(words: seq<string>, limit: int): Packing
    decreases |words|
  {
    if words == [] then Packing([], [])
    else PackStep(Pack(words[..|words| - 1], limit), words[|words| - 1], limit)
  }

  /** The result of `split_text_into_chunks(text, limit)`. */
  function Chunks(text: string, limit: int): seq<string> {
    var p := Pack(Words(text), limit);
    p.closed + (if p.open != [] then [Join(p.open)] else [])
  }

  /** The words of all chunks, chunk after chunk. */
  function WordsOfAll(chunks: seq<string>): seq<string>
    decreases |chunks|
  {
    if chunks == [] then []
    else WordsOfAll(chunks[..|chunks| - 1]) + Words(chunks[|chunks| - 1])
  }

  method SplitTextIntoChunks(text: string, wordLimit: int) returns (chunks: seq<string>)
    ensures chunks == Chunks(text, wordLimit)
  {
    var words := Words(text);
    chunks := [];
    var currentChunk: seq<string> := [];
    for i := 0 to |words|
      invariant Pack(words[..i], wordLimit) == Packing(chunks, currentChunk)
    {
      assert words[..i + 1][..i] == words[..i];
      if |currentChunk| + 1 <= wordLimit {
        currentChunk := currentChunk + [words[i]];
      } else {
        chunks := chunks + [Join(currentChunk)];
        currentChunk := [words[i]];
      }
    }
    assert words[..|words|] == words;
    if currentChunk != [] {
      chunks := chunks + [Join(currentChunk)];
    }
  }

  lemma WordsOfAllSnoc(chunks: seq<string>, c: string)
    ensures WordsOfAll(chunks + [c]) == WordsOfAll(chunks) + Words(c)
  {
    assert (chunks + [c])[..|chunks|] == chunks;
  }

  predicate AllWords(ws: seq<string>) {
    forall k :: 0 <= k < |ws| ==> IsWord(ws[k])
  }

  /** What the chunking loop keeps true: the closed chunks' words followed by
      the open chunk are the words read so far, and the open chunk is empty
      exactly when no word has been read. */
  predicate Covers(p: Packing, words: seq<string>) {
    && WordsOfAll(p.closed) + p.open == words
    && AllWords(p.open)
    && (words == [] <==> p.open == [])
  }

  /** One iteration of the chunking loop keeps `Covers`. */
  lemma PackStepCovers(p: Packing, words: seq<string>, w: string, limit: int)
    requires Covers(p, words) && IsWord(w)
    ensures Covers(PackStep(p, w, limit), words + [w])
  {
    if |p.open| + 1 > limit {
      var j := Join(p.open);
      WordsOfJoin(p.open);
      WordsOfAllSnoc(p.closed, j);
    } else {
      assert WordsOfAll(p.closed) + (p.open + [w]) == words + [w];
    }
  }

  /** `Covers` holds after every prefix of the words, whatever the limit. */
  lemma {:induction false} PackCovers(words: seq<string>, limit: int)
    requires AllWords(words)
    ensures Covers(Pack(words, limit), words)
    decreases |words|
  {
    if words != [] {
      var init, w := words[..|words| - 1], words[|words| - 1];
      var p := Pack(init, limit);
      assert init + [w] == words;
      assert Pack(words, limit) == PackStep(p, w, limit);
      assert AllWords(init) && IsWord(w);
      PackCovers(init, limit);
      PackStepCovers(p, init, w, limit);
    }
  }

  /** Every closed chunk is its own words joined by single spaces. */
  lemma {:induction false} PackClosedNormal(words: seq<string>, limit: int, k: nat)
    requires AllWords(words)
    requires k < |Pack(words, limit).closed|
    ensures var c := Pack(words, limit).closed[k]; c == Join(Words(c))
    decreases |words|
  {
    var init := words[..|words| - 1];
    var p := Pack(init, limit);
    PackCovers(init, limit);
    assert forall i :: 0 <= i < |init| ==> init[i] == words[i];
    if k < |p.closed| {
      PackClosedNormal(init, limit, k);
    } else {
      WordsOfJoin(p.open);
    }
  }

  /** With a positive limit, closed chunks hold exactly `limit` words and the
      open one at most `limit`. */
  lemma {:induction false} PackSizes(words: seq<string>, limit: int)
    requires AllWords(words) && limit >= 1
    ensures var p := Pack(words, limit);
      && |p.open| <= limit
      && forall k :: 0 <= k < |p.closed| ==> |Words(p.closed[k])| == limit
    decreases |words|
  {
    if words != [] {
      var init := words[..|words| - 1];
      PackSizes(init, limit);
      PackCovers(init, limit);
      var p := Pack(init, limit);
      if |p.open| + 1 > limit {
        WordsOfJoin(p.open);
      }
    }
  }

  /** With a limit below 1 the first word closes an empty chunk and every later
      word closes the one before it. */
  lemma {:induction false} PackNoRoom(words: seq<string>, limit: int)
    requires limit < 1 && words != []
    ensures Pack(words, limit) == Packing([""] + words[..|words| - 1], [words[|words| - 1]])
    decreases |words|
  {
    var init := words[..|words| - 1];
    if init != [] {
      PackNoRoom(init, limit);
      assert init[..|init| - 1] + [init[|init| - 1]] == init;
    }
  }

  /** No word is dropped, duplicated or reordered: the chunks' words, in order,
      are the words of the text; each chunk is its words joined by single spaces. */
  lemma ChunksCoverWords(text: string, limit: int)
    ensures WordsOfAll(Chunks(text, limit)) == Words(text)
    ensures forall k :: 0 <= k < |Chunks(text, limit)| ==>
              Chunks(text, limit)[k] == Join(Words(Chunks(text, limit)[k]))
    ensures Chunks(text, limit) == [] <==> Words(text) == []
  {
    var words := Words(text);
    PackCovers(words, limit);
    var p := Pack(words, limit);
    forall k | 0 <= k < |p.closed|
      ensures p.closed[k] == Join(Words(p.closed[k]))
    {
      PackClosedNormal(words, limit, k);
    }
    if p.open != [] {
      WordsOfJoin(p.open);
      WordsOfAllSnoc(p.closed, Join(p.open));
    } else {
      assert p.closed + [] == p.closed;
    }
  }

  /** The size of chunk `k` for a positive limit. */
  lemma ChunkSize(text: string, limit: int, k: nat)
    requires limit >= 1 && k < |Chunks(text, limit)|
    ensures 1 <= |Words(Chunks(text, limit)[k])| <= limit
    ensures k < |Chunks(text, limit)| - 1 ==> |Words(Chunks(text, limit)[k])| == limit
  {
    var words := Words(text);
    PackCovers(words, limit);
    PackSizes(words, limit);
    var p := Pack(words, limit);
    if k == |p.closed| {
      WordsOfJoin(p.open);
    }
  }

  /** For a positive limit every chunk holds between 1 and `limit` words, and
      every chunk but the last holds exactly `limit`. */
  lemma ChunkSizes(text: string, limit: int)
    requires limit >= 1
    ensures forall k :: 0 <= k < |Chunks(text, limit)| ==>
              1 <= |Words(Chunks(text, limit)[k])| <= limit
    ensures forall k :: 0 <= k < |Chunks(text, limit)| - 1 ==>
              |Words(Chunks(text, limit)[k])| == limit
  {
    forall k | 0 <= k < |Chunks(text, limit)| {
      ChunkSize(text, limit, k);
    }
  }

  /** Text without any word yields no chunk. */
  lemma ChunksOfBlankText(text: string, limit: int)
    requires forall k :: 0 <= k < |text| ==> IsSpace(text[k])
    ensures Chunks(text, limit) == []
  {
    WordsOfBlank(text);
  }

  /** With a limit below 1 the size test never passes: the first word closes an
      empty chunk, so the result is "" followed by one chunk per word. */
  lemma ChunksWithoutRoom(text: string, limit: int)
    requires limit < 1
    ensures Words(text) != [] ==> Chunks(text, limit) == [""] + Words(text)
  {
    var words := Words(text);
    if words != [] {
      PackNoRoom(words, limit);
      assert words[..|words| - 1] + [words[|words| - 1]] == words;
    }
  }

  // ===========================================================================
  // Pass 1: merge_adjacent_entities

  /** A WordPiece continuation fragment: the word starts with "##". */
  predicate IsContinuation(e: Entity) {
    |e.word| >= 2 && e.word[0] == '#' && e.word[1] == '#'
  }

  /** Whether token `e` is merged into the open span rather than opening a new one. */
  predicate JoinsSpan(span: Entity, e: Entity) {
    IsContinuation(e) || (e.entity == span.entity && e.entity != "I-PER")
  }

  /** The open span after it absorbed `e`: a fragment is glued on, any other
      token is added after one space; the score becomes the pairwise average. */
  function Absorb(span: Entity, e: Entity): Entity {
    var word := if IsContinuation(e) then span.word + StripMarkers(e.word)
                else span.word + " " + StripMarkers(e.word);
    span.(word := word, score := Average(span.score, e.score))
  }

  /** One iteration of the loop: `e` joins the open (last) span or opens a new one. */
  function AdjacentStep(spans: seq<Entity>, e: Entity): seq<Entity> {
    if spans != [] && JoinsSpan(spans[|spans| - 1], e) then spans[..|spans| - 1] + [Absorb(spans[|spans| - 1], e)]
    else spans + [e]
  }

  /** The spans after scanning `es` from left to right; the last one is open. */
  function AdjacentMerge(es: seq<Entity>): (spans: seq<Entity>)
    ensures |spans| <= |es|
    ensures spans == [] <==> es == []
    decreases |es|
  {
    if es == [] then [] else AdjacentStep(AdjacentMerge(es[..|es| - 1]), es[|es| - 1])
  }

  method MergeAdjacentEntities(entities: seq<Entity>) returns (mergedEntities: seq<Entity>)
    ensures mergedEntities == AdjacentMerge(entities)
  {
    if entities == [] {
      return [];
    }
    mergedEntities := [entities[0]];
    AdjacentMergeAt(entities, 0);
    for i := 1 to |entities|
      invariant mergedEntities == AdjacentMerge(entities[..i])
    {
      var entity := entities[i];
      AdjacentMergeAt(entities, i);
      var prevEntity := mergedEntities[|mergedEntities| - 1];
      if IsContinuation(entity) {
        // glue the fragment on, without its markers
        assert JoinsSpan(prevEntity, entity);
        mergedEntities := mergedEntities[..|mergedEntities| - 1] + [Absorb(prevEntity, entity)];
      } else if entity.entity == prevEntity.entity && entity.entity != "I-PER" {
        // same type, not a person: join after a space
        assert JoinsSpan(prevEntity, entity);
        mergedEntities := mergedEntities[..|mergedEntities| - 1] + [Absorb(prevEntity, entity)];
      } else {
        assert !JoinsSpan(prevEntity, entity);
        mergedEntities := mergedEntities + [entity];
      }
    }
    assert entities[..|entities|] == entities;
  }

  /** One step of the scan, seen from the spans built so far. */
  lemma AdjacentMergeStep(es: seq<Entity>, e: Entity)
    ensures AdjacentMerge(es + [e]) == AdjacentStep(AdjacentMerge(es), e)
  {
    assert (es + [e])[..|es|] == es;
  }

  /** The same step, for the loop over positions of one input list. */
  lemma AdjacentMergeAt(es: seq<Entity>, i: nat)
    requires i < |es|
    ensures AdjacentMerge(es[..i + 1]) == AdjacentStep(AdjacentMerge(es[..i]), es[i])
  {
    assert es[..i + 1] == es[..i] + [es[i]];
    AdjacentMergeStep(es[..i], es[i]);
  }

  /** Indices of the tokens that opened each span. */
  ghost function Openers(es: seq<Entity>): seq<nat>
    decreases |es|
  {
    if es == [] then []
    else
      var m := AdjacentMerge(es[..|es| - 1]);
      if m != [] && JoinsSpan(m[|m| - 1], es[|es| - 1]) then Openers(es[..|es| - 1])
      else Openers(es[..|es| - 1]) + [|es| - 1]
  }

  /** Spans and openers correspond one to one; openers are increasing
      positions of the input and the first is position 0. */
  lemma {:induction false} OpenersAreOrdered(es: seq<Entity>)
    ensures var op := Openers(es);
      && |op| == |AdjacentMerge(es)|
      && (es != [] ==> op[0] == 0)
      && (forall j :: 0 <= j < |op| ==> op[j] < |es|)
      && (forall j, k :: 0 <= j < k < |op| ==> op[j] < op[k])
    decreases |es|
  {
    if es != [] {
      OpenersAreOrdered(es[..|es| - 1]);
    }
  }

  /** `span` could have grown from `opener`: same entity type, word extended at the end. */
  predicate GrewFrom(span: Entity, opener: Entity) {
    span.entity == opener.entity && StartsWith(span.word, opener.word)
  }

  lemma AbsorbGrows(span: Entity, opener: Entity, e: Entity)
    requires GrewFrom(span, opener)
    ensures GrewFrom(Absorb(span, e), opener)
  {
    var w := Absorb(span, e).word;
    assert w[..|span.word|] == span.word;
    assert w[..|opener.word|] == span.word[..|opener.word|];
  }

  /** Adding a token keeps the openers found so far. */
  lemma OpenersKeepPrefix(es: seq<Entity>, j: nat)
    requires es != [] && j < |Openers(es[..|es| - 1])|
    ensures j < |Openers(es)| && Openers(es)[j] == Openers(es[..|es| - 1])[j] < |es| - 1
  {
    OpenersAreOrdered(es[..|es| - 1]);
  }

  /** Adding a token leaves each earlier span as it was, or lets the last one absorb it. */
  lemma SpansKeepPrefix(es: seq<Entity>, j: nat)
    requires es != [] && j < |AdjacentMerge(es[..|es| - 1])|
    ensures var m := AdjacentMerge(es[..|es| - 1]);
      && j < |AdjacentMerge(es)|
      && (AdjacentMerge(es)[j] == m[j] || AdjacentMerge(es)[j] == Absorb(m[j], es[|es| - 1]))
  {
    var m := AdjacentMerge(es[..|es| - 1]);
    assert AdjacentMerge(es) == AdjacentStep(m, es[|es| - 1]);
  }

  /** When the last token opens a span, that span is the token itself, and it is
      not a fragment unless it is the first span. */
  lemma NewSpan(es: seq<Entity>, j: nat)
    requires es != [] && j == |Openers(es[..|es| - 1])| < |Openers(es)|
    ensures Openers(es)[j] == |es| - 1
    ensures j < |AdjacentMerge(es)| && AdjacentMerge(es)[j] == es[|es| - 1]
    ensures j > 0 ==> !IsContinuation(es[|es| - 1])
  {
    var init := es[..|es| - 1];
    OpenersAreOrdered(init);
    if j > 0 {
      assert AdjacentMerge(init) != [];
    }
  }

  /** Span `j` keeps the entity type of the token that opened it, and its word
      begins with that token's word: merging only appends to words and
      re-averages scores. */
  lemma {:induction false} SpanGrewFromOpener(es: seq<Entity>, j: nat)
    requires j < |AdjacentMerge(es)|
    ensures |Openers(es)| == |AdjacentMerge(es)|
    ensures Openers(es)[j] < |es| && GrewFrom(AdjacentMerge(es)[j], es[Openers(es)[j]])
    decreases |es|
  {
    OpenersAreOrdered(es);
    var init := es[..|es| - 1];
    OpenersAreOrdered(init);
    if j < |Openers(init)| {
      var m := AdjacentMerge(init);
      var opener := init[Openers(init)[j]];
      OpenersKeepPrefix(es, j);
      SpanGrewFromOpener(init, j);
      assert es[Openers(es)[j]] == opener;
      SpansKeepPrefix(es, j);
      AbsorbGrows(m[j], opener, es[|es| - 1]);
    } else {
      NewSpan(es, j);
      assert es[|es| - 1].word[..|es[|es| - 1].word|] == es[|es| - 1].word;
    }
  }

  /** A "##" fragment never opens a span, except as the very first token. */
  lemma {:induction false} FragmentsNeverOpen(es: seq<Entity>, j: nat)
    requires 0 < j < |Openers(es)|
    ensures Openers(es)[j] < |es| && !IsContinuation(es[Openers(es)[j]])
    decreases |es|
  {
    var init := es[..|es| - 1];
    if j < |Openers(init)| {
      OpenersKeepPrefix(es, j);
      FragmentsNeverOpen(init, j);
      assert es[Openers(init)[j]] == init[Openers(init)[j]];
    } else {
      OpenersKeepPrefix(es, j - 1);
      NewSpan(es, j);
    }
  }

  /** The first span is opened by the first token. */
  lemma FirstSpanOpenedByFirstToken(es: seq<Entity>)
    requires es != []
    ensures GrewFrom(AdjacentMerge(es)[0], es[0])
  {
    OpenersAreOrdered(es);
    SpanGrewFromOpener(es, 0);
  }

  /** A "##" fragment is glued to the open span with no space, whatever its
      entity type; every "##" in it is removed and the score is averaged. */
  lemma ContinuationIsGlued(es: seq<Entity>, e: Entity)
    requires es != [] && IsContinuation(e)
    ensures var m := AdjacentMerge(es); var open := m[|m| - 1];
      AdjacentMerge(es + [e])
        == m[..|m| - 1] + [Entity(open.word + StripMarkers(e.word), Average(open.score, e.score), open.entity)]
  {
    assert (es + [e])[..|es|] == es;
  }

  /** A token without "##" joins the open span, after one space, iff its entity
      type equals the span's and is not "I-PER"; otherwise it opens a new span. */
  lemma PlainTokenJoinsIff(es: seq<Entity>, e: Entity)
    requires es != [] && !IsContinuation(e)
    ensures var m := AdjacentMerge(es); var open := m[|m| - 1]; var r := AdjacentMerge(es + [e]);
      && (|r| == |m| <==> e.entity == open.entity && e.entity != "I-PER")
      && (|r| == |m| ==>
            r == m[..|m| - 1] + [Entity(open.word + " " + StripMarkers(e.word), Average(open.score, e.score), open.entity)])
      && (|r| != |m| ==> r == m + [e])
  {
    assert (es + [e])[..|es|] == es;
  }

  /** Two person tokens are never fused: a plain "I-PER" token always opens a span. */
  lemma PersonTokenOpensSpan(es: seq<Entity>, e: Entity)
    requires e.entity == "I-PER" && !IsContinuation(e)
    ensures AdjacentMerge(es + [e]) == AdjacentMerge(es) + [e]
  {
    assert (es + [e])[..|es|] == es;
  }

  /** Two plain tokens of the same non-person type become one span whose word is
      the two words joined by a space and whose score is their mean. */
  lemma TwoTokensOfOneType(a: Entity, b: Entity)
    requires a.entity == b.entity && a.entity != "I-PER"
    requires !HasMarker(b.word)
    ensures AdjacentMerge([a, b]) == [Entity(a.word + " " + b.word, (a.score + b.score) / 2.0, a.entity)]
  {
    assert !IsContinuation(b) by {
      MarkerAtStart(b.word);
    }
    StripMarkersKeepsPlainText(b.word);
    assert [a][..0] == [];
    assert AdjacentMerge([a]) == [a];
    assert [a, b][..1] == [a];
    assert AdjacentMerge([a, b]) == AdjacentStep([a], b);
  }

  // ===========================================================================
  // Pass 2: merge_capitalized_sequences

  /** The span that `matching_entities[0]` picks and `merged_entities.index(entity)`
      locates: the first span whose word is `w`. No earlier span can equal it,
      since its word differs, so `index` returns this very position. */
  function FirstWithWord(spans: seq<Entity>, w: string): (r: Option<nat>)
    ensures r.None? ==> forall k :: 0 <= k < |spans| ==> spans[k].word != w
    ensures r.Some? ==> r.value < |spans| && spans[r.value].word == w
    ensures r.Some? ==> forall k :: 0 <= k < r.value ==> spans[k].word != w
    decreases |spans|
  {
    if spans == [] then None
    else if spans[0].word == w then Some(0)
    else
      match FirstWithWord(spans[1..], w)
      case None => None
      case Some(k) => Some(k + 1)
  }

  /** The spans a token removes: its bare word or its "##" form. */
  predicate IsPieceOf(e: Entity, token: string) {
    e.word == token || e.word == "##" + token
  }

  /** `token_entities`: the spans that are pieces of `token`, in order. */
  function Pieces(spans: seq<Entity>, token: string): (ps: seq<Entity>)
    ensures forall k :: 0 <= k < |ps| ==> IsPieceOf(ps[k], token)
    decreases |spans|
  {
    if spans == [] then []
    else if IsPieceOf(spans[0], token) then [spans[0]] + Pieces(spans[1..], token)
    else Pieces(spans[1..], token)
  }

  /** All spans except the pieces of `token`, in order. */
  function WithoutPieces(spans: seq<Entity>, token: string): seq<Entity>
    decreases |spans|
  {
    if spans == [] then []
    else if IsPieceOf(spans[0], token) then WithoutPieces(spans[1..], token)
    else [spans[0]] + WithoutPieces(spans[1..], token)
  }

  /** `list.remove(x)`: deletes the first element equal to `x`. */
  function RemoveFirst(spans: seq<Entity>, x: Entity): seq<Entity>
    requires x in spans
  {
    if spans[0] == x then spans[1..] else [spans[0]] + RemoveFirst(spans[1..], x)
  }

  /** `spans` with its first `n` pieces of `token` deleted. */
  function DropPieces(spans: seq<Entity>, token: string, n: nat): seq<Entity>
    decreases |spans|
  {
    if spans == [] || n == 0 then spans
    else if IsPieceOf(spans[0], token) then DropPieces(spans[1..], token, n - 1)
    else [spans[0]] + DropPieces(spans[1..], token, n)
  }

  /** Once the first `i` pieces are gone, `remove` of the next piece deletes
      exactly that one: every earlier equal element was a piece already removed. */
  lemma {:induction false} RemoveNextPiece(spans: seq<Entity>, token: string, i: nat)
    requires i < |Pieces(spans, token)|
    ensures Pieces(spans, token)[i] in DropPieces(spans, token, i)
    ensures RemoveFirst(DropPieces(spans, token, i), Pieces(spans, token)[i])
              == DropPieces(spans, token, i + 1)
    decreases |spans|
  {
    var x := Pieces(spans, token)[i];
    if IsPieceOf(spans[0], token) {
      if i > 0 {
        RemoveNextPiece(spans[1..], token, i - 1);
      }
    } else {
      RemoveNextPiece(spans[1..], token, i);
      assert spans[0] != x;
    }
  }

  lemma {:induction false} DropAllPieces(spans: seq<Entity>, token: string)
    ensures DropPieces(spans, token, |Pieces(spans, token)|) == WithoutPieces(spans, token)
    decreases |spans|
  {
    if spans != [] {
      DropAllPieces(spans[1..], token);
      if !IsPieceOf(spans[0], token) && |Pieces(spans, token)| == 0 {
        DropNothing(spans[1..], token);
      }
    }
  }

  lemma {:induction false} DropNothing(spans: seq<Entity>, token: string)
    requires |Pieces(spans, token)| == 0
    ensures WithoutPieces(spans, token) == spans
    decreases |spans|
  {
    if spans != [] {
      assert !IsPieceOf(spans[0], token) && |Pieces(spans[1..], token)| == 0;
      DropNothing(spans[1..], token);
      assert spans == [spans[0]] + spans[1..];
    }
  }

  /** The inner loop at lines 109-111 for one token. */
  method RemoveTokenPieces(spans: seq<Entity>, token: string) returns (kept: seq<Entity>)
    ensures kept == WithoutPieces(spans, token)
  {
    var tokenEntities := Pieces(spans, token);
    kept := spans;
    for i := 0 to |tokenEntities|
      invariant kept == DropPieces(spans, token, i)
    {
      RemoveNextPiece(spans, token, i);
      kept := RemoveFirst(kept, tokenEntities[i]);
    }
    DropAllPieces(spans, token);
  }

  /** The removal loop over `sequence_tokens[1:]`, one token after another. */
  function WithoutAllPieces(spans: seq<Entity>, tokens: seq<string>): seq<Entity>
    decreases |tokens|
  {
    if tokens == [] then spans
    else WithoutAllPieces(WithoutPieces(spans, tokens[0]), tokens[1..])
  }

  /** The loop at lines 108-111 over the remaining tokens of a sequence. */
  method RemoveSequenceTokens(spans: seq<Entity>, tokens: seq<string>) returns (kept: seq<Entity>)
    ensures kept == WithoutAllPieces(spans, tokens)
  {
    kept := spans;
    for t := 0 to |tokens|
      invariant WithoutAllPieces(kept, tokens[t..]) == WithoutAllPieces(spans, tokens)
    {
      assert tokens[t..][1..] == tokens[t + 1..];
      kept := RemoveTokenPieces(kept, tokens[t]);
    }
    assert tokens[|tokens|..] == [];
  }

  /** Whether sequence `run` is merged into the spans: it has two or more
      tokens, the text does not start with it, some span's word is its first
      token and the span right after the first such span has its second token. */
  predicate Merges(text: string, spans: seq<Entity>, run: string) {
    var tokens := Words(run);
    && |tokens| >= 2
    && !StartsWith(text, run)
    && FirstWithWord(spans, tokens[0]).Some?
    && FirstWithWord(spans, tokens[0]).value + 1 < |spans|
    && spans[FirstWithWord(spans, tokens[0]).value + 1].word == tokens[1]
  }

  /** One iteration of the loop over the capitalised sequences. */
  function ApplyRun(text: string, spans: seq<Entity>, run: string): seq<Entity> {
    if Merges(text, spans, run) then
      var k := FirstWithWord(spans, Words(run)[0]).value;
      WithoutAllPieces(spans[k := spans[k].(word := run)], Words(run)[1..])
    else spans
  }

  /** The loop over the sequences, in the order they were found. */
  function ApplyRuns(text: string, spans: seq<Entity>, runs: seq<string>): seq<Entity>
    decreases |runs|
  {
    if runs == [] then spans
    else ApplyRuns(text, ApplyRun(text, spans, runs[0]), runs[1..])
  }

  /** The result of `merge_capitalized_sequences(text, spans)`. */
  function CapitalizedMerge(text: string, spans: seq<Entity>): seq<Entity> {
    ApplyRuns(text, spans, CapitalizedSequences(text))
  }

  method MergeCapitalizedSequences(text: string, entities: seq<Entity>) returns (mergedEntities: seq<Entity>)
    ensures mergedEntities == CapitalizedMerge(text, entities)
  {
    var capitalizedSequences := CapitalizedSequences(text);
    mergedEntities := entities;
    for i := 0 to |capitalizedSequences|
      invariant ApplyRuns(text, mergedEntities, capitalizedSequences[i..]) == CapitalizedMerge(text, entities)
    {
      var sequence := capitalizedSequences[i];
      assert capitalizedSequences[i..][1..] == capitalizedSequences[i + 1..];
      assert sequence in capitalizedSequences;
      var sequenceTokens := Words(sequence);
      if |sequenceTokens| == 1 || StartsWith(text, sequence) {
        continue;
      }
      var found := FirstWithWord(mergedEntities, sequenceTokens[0]);
      if found.Some? {
        var entityIndex := found.value;
        var nextEntityIndex := entityIndex + 1;
        if nextEntityIndex < |mergedEntities| && mergedEntities[nextEntityIndex].word == sequenceTokens[1] {
          mergedEntities := mergedEntities[entityIndex := mergedEntities[entityIndex].(word := sequence)];
          mergedEntities := RemoveSequenceTokens(mergedEntities, sequenceTokens[1..]);
        }
      }
    }
    assert capitalizedSequences[|capitalizedSequences|..] == [];
  }

  /** A span survives the removal of `tokens` when it is a piece of none of them. */
  predicate KeptBy(e: Entity, tokens: seq<string>) {
    forall j :: 0 <= j < |tokens| ==> !IsPieceOf(e, tokens[j])
  }

  /** Removing the pieces of one token keeps the other spans, in order, and
      nothing else. */
  lemma {:induction false} WithoutPiecesKeeps(spans: seq<Entity>, token: string)
    ensures Subseq(WithoutPieces(spans, token), spans)
    ensures forall e :: e in WithoutPieces(spans, token) <==> e in spans && !IsPieceOf(e, token)
    decreases |spans|
  {
    if spans != [] {
      WithoutPiecesKeeps(spans[1..], token);
      assert forall e :: e in spans <==> e == spans[0] || e in spans[1..];
    }
  }

  /** Removing the pieces of every token of `tokens` keeps exactly the spans
      that are pieces of none of them, in their order. */
  lemma {:induction false} WithoutAllPiecesKeeps(spans: seq<Entity>, tokens: seq<string>)
    ensures Subseq(WithoutAllPieces(spans, tokens), spans)
    ensures forall e :: e in WithoutAllPieces(spans, tokens) <==> e in spans && KeptBy(e, tokens)
    decreases |tokens|
  {
    if tokens == [] {
      SubseqReflexive(spans);
    } else {
      var rest := WithoutPieces(spans, tokens[0]);
      WithoutPiecesKeeps(spans, tokens[0]);
      WithoutAllPiecesKeeps(rest, tokens[1..]);
      SubseqTransitive(WithoutAllPieces(rest, tokens[1..]), rest, spans);
      forall e
        ensures KeptBy(e, tokens) <==> !IsPieceOf(e, tokens[0]) && KeptBy(e, tokens[1..])
      {
        if !IsPieceOf(e, tokens[0]) && KeptBy(e, tokens[1..]) {
          forall j | 1 <= j < |tokens|
            ensures !IsPieceOf(e, tokens[j])
          {
            assert tokens[j] == tokens[1..][j - 1];
          }
        }
      }
    }
  }

  /** Deleting elements from a sequence that leave out one of its members
      makes it strictly shorter. */
  lemma {:induction false} SubseqMissing<T>(a: seq<T>, b: seq<T>, x: T)
    requires Subseq(a, b) && x in b && x !in a
    ensures |a| < |b|
    decreases |b|
  {
    if a == [] {
    } else if a[0] == b[0] && Subseq(a[1..], b[1..]) {
      assert x != b[0];
      SubseqMissing(a[1..], b[1..], x);
    } else {
      SubseqLength(a, b[1..]);
    }
  }

  /** A text with no whitespace is a single token. */
  lemma WordsOfWord(w: string)
    requires IsWord(w)
    ensures Words(w) == [w]
  {
    WordsOfWordThen(w, "");
    assert w + "" == w;
  }

  /** The rewritten span is never taken for a piece of one of the sequence's
      own tokens: its word holds whitespace, a token or its "##" form does not. */
  lemma RunIsNoPiece(e: Entity, run: string, t: string)
    requires |Words(run)| >= 2 && IsWord(t) && e.word == run
    ensures !IsPieceOf(e, t)
  {
    if e.word == t {
      WordsOfWord(t);
    } else if e.word == "##" + t {
      assert IsWord("##" + t);
      WordsOfWord("##" + t);
    }
  }

  /** The effect of one merged sequence: the span holding its first token now
      holds the whole sequence (same score and type) and survives; no piece of
      any later token of the sequence remains; the other spans keep their order;
      the list gets strictly shorter, so a sequence changes the spans exactly
      when it merges; and the scores and types are an ordered selection of the
      old ones. */
  lemma ApplyRunEffect(text: string, spans: seq<Entity>, run: string)
    ensures Merges(text, spans, run) <==> ApplyRun(text, spans, run) != spans
    ensures Merges(text, spans, run) ==>
              var k := FirstWithWord(spans, Words(run)[0]).value;
              var r := ApplyRun(text, spans, run);
              && spans[k].(word := run) in r
              && |r| < |spans|
              && (forall e :: e in r ==> KeptBy(e, Words(run)[1..]))
              && Subseq(r, spans[k := spans[k].(word := run)])
    ensures Subseq(Tags(ApplyRun(text, spans, run)), Tags(spans))
  {
    if Merges(text, spans, run) {
      var tokens := Words(run);
      var k := FirstWithWord(spans, tokens[0]).value;
      var s := spans[k := spans[k].(word := run)];
      var r := WithoutAllPieces(s, tokens[1..]);
      WithoutAllPiecesKeeps(s, tokens[1..]);
      forall j | 0 <= j < |tokens[1..]|
        ensures !IsPieceOf(s[k], tokens[1..][j])
      {
        RunIsNoPiece(s[k], run, tokens[1..][j]);
      }
      assert s[k] in r;
      assert IsPieceOf(s[k + 1], tokens[1..][0]);
      assert s[k + 1] !in r;
      SubseqMissing(r, s, s[k + 1]);
      SubseqTags(r, s);
      RewordKeepsTags(spans, k, run);
    } else {
      SubseqReflexive(Tags(spans));
    }
  }

  /** Over all sequences: the list never grows, and scores and entity types are
      an ordered selection of the input ones (pass 2 only rewrites words and
      deletes spans). */
  lemma {:induction false} ApplyRunsKeepsTags(text: string, spans: seq<Entity>, runs: seq<string>)
    ensures |ApplyRuns(text, spans, runs)| <= |spans|
    ensures Subseq(Tags(ApplyRuns(text, spans, runs)), Tags(spans))
    decreases |runs|
  {
    if runs == [] {
      SubseqReflexive(Tags(spans));
    } else {
      var next := ApplyRun(text, spans, runs[0]);
      ApplyRunEffect(text, spans, runs[0]);
      ApplyRunsKeepsTags(text, next, runs[1..]);
      SubseqTransitive(Tags(ApplyRuns(text, next, runs[1..])), Tags(next), Tags(spans));
    }
  }

  /** `merge_capitalized_sequences` never adds spans and never changes a score
      or an entity type; it only rewrites words and deletes spans. */
  lemma CapitalizedMergeKeepsTags(text: string, spans: seq<Entity>)
    ensures |CapitalizedMerge(text, spans)| <= |spans|
    ensures Subseq(Tags(CapitalizedMerge(text, spans)), Tags(spans))
  {
    ApplyRunsKeepsTags(text, spans, CapitalizedSequences(text));
  }

  /** A one-word sequence never changes the spans. */
  lemma SingleWordSkipped(text: string, spans: seq<Entity>, run: string)
    requires IsWord(run)
    ensures ApplyRun(text, spans, run) == spans
  {
    WordsOfWord(run);
  }

  /** A sequence found at the very start of the text is never merged. */
  lemma LeadingSequenceSkipped(text: string, spans: seq<Entity>, run: string)
    requires StartsWith(text, run)
    ensures ApplyRun(text, spans, run) == spans
  {
  }

  // ===========================================================================
  // The endpoint: named_entity_recognition

  /** What the classifier is called on: the chunks when the text has more words
      than the limit, otherwise the whole text. */
  function ClassifierInputs(text: string, limit: int): seq<string> {
    if |Words(text)| > limit then Chunks(text, limit) else [text]
  }

  /** The classifier's entities for each input, concatenated in input order. */
  function ClassifyAll(classify: string -> seq<Entity>, inputs: seq<string>): seq<Entity>
    decreases |inputs|
  {
    if inputs == [] then []
    else ClassifyAll(classify, inputs[..|inputs| - 1]) + classify(inputs[|inputs| - 1])
  }

  /** The entities of the whole request, before any merging. */
  function RawEntities(text: string, classify: string -> seq<Entity>, limit: int): seq<Entity> {
    ClassifyAll(classify, ClassifierInputs(text, limit))
  }

  /** The entities the endpoint reports (before their formatting as strings). */
  function Recognize(text: string, classify: string -> seq<Entity>, limit: int): seq<Entity> {
    CapitalizedMerge(text, AdjacentMerge(RawEntities(text, classify, limit)))
  }

  /** The chunk loop of the endpoint: classify each chunk and extend the list. */
  method ClassifyChunks(classify: string -> seq<Entity>, chunks: seq<string>) returns (entities: seq<Entity>)
    ensures entities == ClassifyAll(classify, chunks)
  {
    entities := [];
    for i := 0 to |chunks|
      invariant entities == ClassifyAll(classify, chunks[..i])
    {
      assert chunks[..i + 1][..i] == chunks[..i];
      entities := entities + classify(chunks[i]);
    }
    assert chunks[..|chunks|] == chunks;
  }

  /** The body of the endpoint; `classify` stands for the transformer pipeline
      and `wordLimit` for the configured `WORD_LIMIT`. */
  method NamedEntityRecognition(text: string, classify: string -> seq<Entity>, wordLimit: int)
    returns (entities: seq<Entity>)
    ensures entities == Recognize(text, classify, wordLimit)
  {
    var words := Words(text);
    if |words| > wordLimit {
      var chunks := SplitTextIntoChunks(text, wordLimit);
      entities := ClassifyChunks(classify, chunks);
    } else {
      entities := classify(text);
      assert [text][..0] == [];
      assert ClassifyAll(classify, [text]) == [] + entities;
    }
    assert entities == RawEntities(text, classify, wordLimit);
    entities := MergeAdjacentEntities(entities);
    entities := MergeCapitalizedSequences(text, entities);
  }

  /** With a positive limit the classifier never sees more than `limit` words
      in one call, and it sees every word of the text, once, in order. */
  lemma ClassifierInputsFit(text: string, limit: int)
    requires limit >= 1
    ensures forall k :: 0 <= k < |ClassifierInputs(text, limit)| ==>
              |Words(ClassifierInputs(text, limit)[k])| <= limit
    ensures WordsOfAll(ClassifierInputs(text, limit)) == Words(text)
  {
    if |Words(text)| > limit {
      ChunkSizes(text, limit);
      ChunksCoverWords(text, limit);
    } else {
      assert [text][..0] == [];
    }
  }

  /** Merging never invents entities: the endpoint reports at most as many
      entities as the classifier produced, and none when it produced none. */
  lemma RecognizeBound(text: string, classify: string -> seq<Entity>, limit: int)
    ensures |Recognize(text, classify, limit)| <= |RawEntities(text, classify, limit)|
    ensures RawEntities(text, classify, limit) == [] ==> Recognize(text, classify, limit) == []
  {
    CapitalizedMergeKeepsTags(text, AdjacentMerge(RawEntities(text, classify, limit)));
  }
}
