/** tmp_ner.py: the alternate merge helpers (everything but the HTTP client). */
module TmpNer {
  import opened Text
  import opened Entities

  // ===========================================================================
  // merge_consecutive_entities

  /** The loop state: the spans already emitted and the open span `prev_entity`. */
  datatype Coalescing = Coalescing(done: seq<Entity>, prev: Option<Entity>)

  /** Whether token `e` is merged into the open span `prev`: same label, score above 0.5. */
  predicate Extends(prev: Entity, e: Entity) {
    prev.entity == e.entity && e.score > 0.5
  }

  /** The open span after `e` joined it: one space between the words, scores averaged. */
  function Extend(prev: Entity, e: Entity): Entity {
    prev.(word := prev.word + " " + e.word, score := Average(prev.score, e.score))
  }

  /** The emitted spans followed by the open one, if any. */
  function Flush(c: Coalescing): seq<Entity> {
    c.done + (if c.prev.Some? then [c.prev.value] else [])
  }

  /** One iteration of the loop. */
  function CoalesceStep(c: Coalescing, e: Entity): Coalescing {
    if c.prev.Some? && Extends(c.prev.value, e) then Coalescing(c.done, Some(Extend(c.prev.value, e)))
    else Coalescing(Flush(c), Some(e))
  }

  /** The loop state after the tokens `es`. */
  function Coalesce(es: seq<Entity>): Coalescing
    decreases |es|
  {
    if es == [] then Coalescing([], None) else CoalesceStep(Coalesce(es[..|es| - 1]), es[|es| - 1])
  }

  /** The result of `merge_consecutive_entities(es)`. */
  function ConsecutiveMerge(es: seq<Entity>): seq<Entity> {
    Flush(Coalesce(es))
  }

  method MergeConsecutiveEntities(entities: seq<Entity>) returns (mergedEntities: seq<Entity>)
    ensures mergedEntities == ConsecutiveMerge(entities)
  {
    mergedEntities := [];
    var prevEntity: Option<Entity> := None;
    for i := 0 to |entities|
      invariant Coalesce(entities[..i]) == Coalescing(mergedEntities, prevEntity)
    {
      var entity := entities[i];
      assert entities[..i + 1][..i] == entities[..i];
      if prevEntity.Some? && prevEntity.value.entity == entity.entity && entity.score > 0.5 {
        prevEntity := Some(Extend(prevEntity.value, entity));
      } else {
        if prevEntity.Some? {
          mergedEntities := mergedEntities + [prevEntity.value];
        }
        prevEntity := Some(entity);
      }
    }
    assert entities[..|entities|] == entities;
    if prevEntity.Some? {
      mergedEntities := mergedEntities + [prevEntity.value];
    }
  }

  /** The open span exists exactly when a token was read, and it carries the
      label of the last token read (a token only joins a span of its own label). */
  lemma {:induction false} OpenSpanLabel(es: seq<Entity>)
    ensures Coalesce(es).prev.Some? <==> es != []
    ensures es != [] ==> Coalesce(es).prev.value.entity == es[|es| - 1].entity
    decreases |es|
  {
    if es != [] {
      OpenSpanLabel(es[..|es| - 1]);
    }
  }

  /** Appending a token: it joins the last span iff it has the label of the
      token before it and a score above 0.5; joining puts one space between
      the words and averages the scores; otherwise it is appended as it is.
      There is no exception for persons. */
  lemma ConsecutiveJoinIff(es: seq<Entity>, e: Entity)
    requires es != []
    ensures var m := ConsecutiveMerge(es); var r := ConsecutiveMerge(es + [e]);
      && m != []
      && (|r| == |m| <==> e.entity == es[|es| - 1].entity && e.score > 0.5)
      && (|r| == |m| ==> r == m[..|m| - 1] + [Extend(m[|m| - 1], e)])
      && (|r| != |m| ==> r == m + [e])
  {
    OpenSpanLabel(es);
    assert (es + [e])[..|es|] == es;
    var c := Coalesce(es);
    assert Flush(c) == c.done + [c.prev.value];
  }

  /** Number of tokens that join the span before them. */
  function JoinCount(es: seq<Entity>): (n: nat)
    decreases |es|
  {
    if |es| < 2 then 0
    else JoinCount(es[..|es| - 1]) + (if Extends(es[|es| - 2], es[|es| - 1]) then 1 else 0)
  }

  /** Each token either opens a span or joins one: the output has one span per
      token that does not join, so it is empty exactly for the empty input and
      never longer than the input. */
  lemma {:induction false} ConsecutiveLength(es: seq<Entity>)
    ensures |ConsecutiveMerge(es)| == |es| - JoinCount(es)
    ensures ConsecutiveMerge(es) == [] <==> es == []
    decreases |es|
  {
    if es != [] {
      var init := es[..|es| - 1];
      var e := es[|es| - 1];
      ConsecutiveLength(init);
      assert init + [e] == es;
      if init != [] {
        ConsecutiveJoinIff(init, e);
        assert es[|es| - 2] == init[|init| - 1];
      } else {
        assert Coalesce(es) == Coalescing([], Some(e));
      }
    }
  }

  // ===========================================================================
  // refine_merged_entities

  /** The entities whose word is one of `expected`, in order. */
  function Keep(es: seq<Entity>, expected: seq<string>): seq<Entity>
    decreases |es|
  {
    if es == [] then []
    else Keep(es[..|es| - 1], expected) + (if es[|es| - 1].word in expected then [es[|es| - 1]] else [])
  }

  method RefineMergedEntities(mergedEntities: seq<Entity>, expectedEntities: seq<string>)
    returns (refinedEntities: seq<Entity>)
    ensures refinedEntities == Keep(mergedEntities, expectedEntities)
  {
    refinedEntities := [];
    for i := 0 to |mergedEntities|
      invariant refinedEntities == Keep(mergedEntities[..i], expectedEntities)
    {
      var entity := mergedEntities[i];
      assert mergedEntities[..i + 1][..i] == mergedEntities[..i];
      var word := entity.word;
      var score := entity.score;
      var entType := entity.entity;
      if word in expectedEntities {
        refinedEntities := refinedEntities + [Entity(word, score, entType)];
      }
    }
    assert mergedEntities[..|mergedEntities|] == mergedEntities;
  }

  /** Exactly the entities whose word is expected are kept, unchanged and in
      their original order. */
  lemma {:induction false} KeepSelects(es: seq<Entity>, expected: seq<string>)
    ensures forall e :: e in Keep(es, expected) <==> e in es && e.word in expected
    ensures Subseq(Keep(es, expected), es)
    decreases |es|
  {
    if es == [] {
    } else {
      var init := es[..|es| - 1];
      var last := es[|es| - 1];
      KeepSelects(init, expected);
      assert es == init + [last];
      SubseqSnoc(Keep(init, expected), init, last, last.word in expected);
    }
  }

  /** Extending both sequences by the same element, or only the larger one,
      keeps the subsequence relation. */
  lemma {:induction false} SubseqSnoc<T>(a: seq<T>, b: seq<T>, x: T, both: bool)
    requires Subseq(a, b)
    ensures Subseq(a + (if both then [x] else []), b + [x])
    decreases |b|
  {
    var a' := a + (if both then [x] else []);
    if b == [] {
      if both {
        assert a' == [x];
        assert Subseq(a'[1..], []);
      }
    } else if a != [] && a[0] == b[0] && Subseq(a[1..], b[1..]) {
      SubseqSnoc(a[1..], b[1..], x, both);
      assert a'[1..] == a[1..] + (if both then [x] else []);
      assert (b + [x])[1..] == b[1..] + [x];
    } else if a == [] {
      if both {
        assert a' == [x];
        SubseqOfLast(b, x);
      }
    } else {
      SubseqSnoc(a, b[1..], x, both);
      assert (b + [x])[1..] == b[1..] + [x];
    }
  }

  lemma {:induction false} SubseqOfLast<T>(b: seq<T>, x: T)
    ensures Subseq([x], b + [x])
    decreases |b|
  {
    if b == [] {
      assert [x][1..] == [];
    } else {
      SubseqOfLast(b[1..], x);
      assert (b + [x])[1..] == b[1..] + [x];
    }
  }

  /** Filtering twice with the same list is filtering once. */
  lemma {:induction false} KeepIdempotent(es: seq<Entity>, expected: seq<string>)
    ensures Keep(Keep(es, expected), expected) == Keep(es, expected)
    decreases |es|
  {
    if es != [] {
      var init := es[..|es| - 1];
      var last := es[|es| - 1];
      KeepIdempotent(init, expected);
      var k := Keep(init, expected);
      if last.word in expected {
        assert (k + [last])[..|k|] == k;
        assert Keep(k + [last], expected) == Keep(k, expected) + [last];
        assert Keep(es, expected) == k + [last];
      } else {
        assert Keep(es, expected) == k;
      }
    }
  }

  // ===========================================================================
  // merge_based_on_capitalization

  /** `s.split()[0]`, which raises IndexError when `s` has no word. */
  function FirstWord(s: string): (r: Result<string>)
    ensures r.Ok? <==> Words(s) != []
    ensures r.Ok? ==> r.value == Words(s)[0] && IsWord(r.value)
  {
    if Words(s) == [] then Err(IndexError) else Ok(Words(s)[0])
  }

  /** Where an emitted entity comes from: input entity `index`, whose first
      word was found at word `at` of the text and whose words were followed by
      `extension` (no word or one word of the text), or a capitalised word of
      the text matched by no entity. */
  datatype Origin = Matched(index: nat, at: nat, extension: seq<string>) | Guessed

  /** The loop state: `current_entity_index`, the emitted entities and, beside
      them, where each one comes from. */
  datatype Capitalizing = Capitalizing(cur: nat, out: seq<Entity>, origins: seq<Origin>)

  predicate AllWords(ws: seq<string>) {
    forall k :: 0 <= k < |ws| ==> IsWord(ws[k])
  }

  /** A word starting with an upper-case letter (`w[0].isupper()`). */
  predicate Capitalized(w: string) {
    w != [] && IsUpper(w[0])
  }

  /** Emitting the current entity, its words followed by `ext`. */
  function EmitMatch(c: Capitalizing, es: seq<Entity>, i: nat, ext: seq<string>): Capitalizing
    requires c.cur < |es|
  {
    var e := es[c.cur];
    Capitalizing(c.cur + 1, c.out + [Entity(Join(Words(e.word) + ext), e.score, e.entity)],
                 c.origins + [Matched(c.cur, i, ext)])
  }

  /** The `elif` branch: a capitalised word becomes an "I-MISC" entity with
      score 0.5; any other word is dropped. */
  function GuessOrSkip(c: Capitalizing, w: string): Capitalizing {
    if Capitalized(w) then Capitalizing(c.cur, c.out + [Entity(w, 0.5, "I-MISC")], c.origins + [Guessed])
    else c
  }

  /** The extension test for a matched entity whose last word sits at `last`:
      the following word is capitalised and is not the first word of the next
      entity (which raises IndexError when that entity has no word). */
  function Extension(words: seq<string>, es: seq<Entity>, cur: nat, last: int): Result<seq<string>>
    requires AllWords(words) && cur < |es|
  {
    if 0 <= last + 1 < |words| && Capitalized(words[last + 1]) then
      if cur == |es| - 1 then Ok([words[last + 1]])
      else match FirstWord(es[cur + 1].word)
        case Err(e) => Err(e)
        case Ok(next) => Ok(if words[last + 1] != next then [words[last + 1]] else [])
    else Ok([])
  }

  /** One iteration, for word `i`. */
  function CapStep(words: seq<string>, es: seq<Entity>, i: nat, c: Capitalizing): Result<Capitalizing>
    requires AllWords(words) && i < |words|
  {
    if c.cur < |es| then
      match FirstWord(es[c.cur].word)
      case Err(e) => Err(e)
      case Ok(first) =>
        if words[i] == first then
          match Extension(words, es, c.cur, i + |Words(es[c.cur].word)| - 1)
          case Err(e) => Err(e)
          case Ok(ext) => Ok(EmitMatch(c, es, i, ext))
        else Ok(GuessOrSkip(c, words[i]))
    else Ok(GuessOrSkip(c, words[i]))
  }

  /** The loop state after the first `n` words; an error stops the loop. */
  function CapFold(words: seq<string>, es: seq<Entity>, n: nat): Result<Capitalizing>
    requires AllWords(words) && n <= |words|
  {
    if n == 0 then Ok(Capitalizing(0, [], []))
    else match CapFold(words, es, n - 1)
      case Err(e) => Err(e)
      case Ok(c) => CapStep(words, es, n - 1, c)
  }

  /** The result of `merge_based_on_capitalization(text, es)`. */
  function CapitalizationMerge(text: string, es: seq<Entity>): Result<seq<Entity>> {
    var words := Words(text);
    match CapFold(words, es, |words|)
    case Err(e) => Err(e)
    case Ok(c) => Ok(c.out)
  }

  /** Lines 52-62: the extension of a matched entity whose words end at `endIndex`. */
  method ExtendMatch(words: seq<string>, entities: seq<Entity>, cur: nat, endIndex: int)
    returns (r: Result<seq<string>>)
    requires AllWords(words) && cur < |entities|
    ensures r == Extension(words, entities, cur, endIndex)
  {
    if 0 <= endIndex + 1 < |words| && Capitalized(words[endIndex + 1]) {
      if cur == |entities| - 1 {
        return Ok([words[endIndex + 1]]);
      }
      var next := FirstWord(entities[cur + 1].word);
      if next.Err? {
        return Err(IndexError);
      }
      if words[endIndex + 1] != next.value {
        return Ok([words[endIndex + 1]]);
      }
    }
    return Ok([]);
  }

  /** Lines 48-70: the entity emitted for a match of entity `cur` at word `i`. */
  method MatchedEntity(words: seq<string>, entities: seq<Entity>, cur: nat, i: nat)
    returns (r: Result<Entity>, ghost ext: seq<string>)
    requires AllWords(words) && cur < |entities|
    ensures var x := Extension(words, entities, cur, i + |Words(entities[cur].word)| - 1);
      && (r.Ok? <==> x.Ok?)
      && (r.Ok? ==>
            && ext == x.value
            && r.value == Entity(Join(Words(entities[cur].word) + ext), entities[cur].score, entities[cur].entity))
  {
    var entityWords := Words(entities[cur].word);
    var extension := ExtendMatch(words, entities, cur, i + |entityWords| - 1);
    if extension.Err? {
      return Err(IndexError), [];
    }
    ext := extension.value;
    var entity := entities[cur];
    r := Ok(Entity(Join(entityWords + extension.value), entity.score, entity.entity));
  }

  method MergeBasedOnCapitalization(text: string, entities: seq<Entity>) returns (r: Result<seq<Entity>>)
    ensures r == CapitalizationMerge(text, entities)
  {
    var words := Words(text);
    var currentEntityIndex := 0;
    var mergedEntities: seq<Entity> := [];
    ghost var origins: seq<Origin> := [];
    for i := 0 to |words|
      invariant CapFold(words, entities, i) == Ok(Capitalizing(currentEntityIndex, mergedEntities, origins))
    {
      var next;
      ghost var nextOrigins;
      next, nextOrigins := CapitalizeWord(words, entities, i, currentEntityIndex, mergedEntities, origins);
      CapFoldUnfold(words, entities, i + 1);
      if next.Err? {
        CapFoldStopsAt(words, entities, i + 1);
        return Err(IndexError);
      }
      currentEntityIndex, mergedEntities, origins := next.value.0, next.value.1, nextOrigins;
    }
    return Ok(mergedEntities);
  }

  /** The body of the loop (lines 44-79) for word `i`: the new entity index
      and emitted entities, or the IndexError raised on the way. */
  method CapitalizeWord(words: seq<string>, entities: seq<Entity>, i: nat,
                        currentEntityIndex: nat, mergedEntities: seq<Entity>, ghost origins: seq<Origin>)
    returns (r: Result<(nat, seq<Entity>)>, ghost nextOrigins: seq<Origin>)
    requires AllWords(words) && i < |words|
    ensures var step := CapStep(words, entities, i, Capitalizing(currentEntityIndex, mergedEntities, origins));
      && (r.Ok? <==> step.Ok?)
      && (r.Ok? ==> step.value == Capitalizing(r.value.0, r.value.1, nextOrigins))
  {
    ghost var c := Capitalizing(currentEntityIndex, mergedEntities, origins);
    var matches := false;
    if currentEntityIndex < |entities| {
      var first := FirstWord(entities[currentEntityIndex].word);
      if first.Err? {
        CapStepNoWord(words, entities, i, c);
        return Err(IndexError), origins;
      }
      matches := words[i] == first.value;
    }
    if matches {
      var merged, ext := MatchedEntity(words, entities, currentEntityIndex, i);
      if merged.Err? {
        CapStepNoNextWord(words, entities, i, c);
        return Err(IndexError), origins;
      }
      CapStepMatch(words, entities, i, c, ext);
      r := Ok((currentEntityIndex + 1, mergedEntities + [merged.value]));
      nextOrigins := origins + [Matched(currentEntityIndex, i, ext)];
    } else {
      CapStepGuess(words, entities, i, c);
      if Capitalized(words[i]) {
        r := Ok((currentEntityIndex, mergedEntities + [Entity(words[i], 0.5, "I-MISC")]));
        nextOrigins := origins + [Guessed];
      } else {
        r := Ok((currentEntityIndex, mergedEntities));
        nextOrigins := origins;
      }
    }
  }

  /** The step for a word that starts the current entity. */
  lemma CapStepMatch(words: seq<string>, es: seq<Entity>, i: nat, c: Capitalizing, ext: seq<string>)
    requires AllWords(words) && i < |words| && c.cur < |es| && FirstWord(es[c.cur].word) == Ok(words[i])
    requires Extension(words, es, c.cur, i + |Words(es[c.cur].word)| - 1) == Ok(ext)
    ensures CapStep(words, es, i, c) == Ok(EmitMatch(c, es, i, ext))
  {
  }

  /** The step for any other word. */
  lemma CapStepGuess(words: seq<string>, es: seq<Entity>, i: nat, c: Capitalizing)
    requires AllWords(words) && i < |words|
    requires c.cur < |es| ==> FirstWord(es[c.cur].word).Ok? && FirstWord(es[c.cur].word).value != words[i]
    ensures CapStep(words, es, i, c) == Ok(GuessOrSkip(c, words[i]))
  {
  }

  /** The step raises when the current entity has no word... */
  lemma CapStepNoWord(words: seq<string>, es: seq<Entity>, i: nat, c: Capitalizing)
    requires AllWords(words) && i < |words| && c.cur < |es| && FirstWord(es[c.cur].word).Err?
    ensures CapStep(words, es, i, c).Err?
  {
  }

  /** ... or when the extension test looks at a next entity that has none. */
  lemma CapStepNoNextWord(words: seq<string>, es: seq<Entity>, i: nat, c: Capitalizing)
    requires AllWords(words) && i < |words| && c.cur < |es| && FirstWord(es[c.cur].word) == Ok(words[i])
    requires Extension(words, es, c.cur, i + |Words(es[c.cur].word)| - 1).Err?
    ensures CapStep(words, es, i, c).Err?
  {
  }

  /** Once the loop has failed, the whole call fails. */
  lemma {:induction false} CapFoldStopsAt(words: seq<string>, es: seq<Entity>, i: nat)
    requires AllWords(words) && i <= |words| && CapFold(words, es, i).Err?
    ensures CapFold(words, es, |words|).Err?
    decreases |words| - i
  {
    if i < |words| {
      CapFoldStopsAt(words, es, i + 1);
    }
  }

  /** Number of emitted entities that come from input entities. */
  function MatchCount(os: seq<Origin>): nat
    decreases |os|
  {
    if os == [] then 0 else MatchCount(os[..|os| - 1]) + (if os[|os| - 1].Matched? then 1 else 0)
  }

  /** Emitted entity `e`, with origin `o`, after `before` matched entities:
      a matched one is input entity number `before` (so the matched entities
      are the input's first ones, in order), keeps its score and label, and
      its word is its own words plus at most one more: the text word right
      after them, capitalised and not the next entity's first word. A guessed
      one is a capitalised word of the text with score 0.5 and label "I-MISC". */
  predicate Explains(words: seq<string>, es: seq<Entity>, o: Origin, e: Entity, before: nat) {
    match o
    case Matched(k, at, ext) =>
      && k == before && k < |es| && at < |words|
      && ExplainsMatch(words, es[k], Words(es[k].word), at, ext, e)
      && (ext != [] && k + 1 < |es| ==> Words(es[k + 1].word) != [] && ext[0] != Words(es[k + 1].word)[0])
    case Guessed =>
      e.word in words && Capitalized(e.word) && e.score == 0.5 && e.entity == "I-MISC"
  }

  /** Emitted entity `e` is input entity `src`, whose words `own` start at
      word `at` of the text, extended by `ext`. */
  predicate ExplainsMatch(words: seq<string>, src: Entity, own: seq<string>, at: nat, ext: seq<string>, e: Entity) {
    && at < |words| && own != [] && words[at] == own[0]
    && e == Entity(Join(own + ext), src.score, src.entity)
    && |ext| <= 1
    && (ext != [] ==> at + |own| < |words| && ext[0] == words[at + |own|] && Capitalized(ext[0]))
  }

  /** Every emitted entity is explained by its origin, given the number of
      matched entities emitted before it; built up one entity at a time. */
  predicate ExplainedOut(words: seq<string>, es: seq<Entity>, os: seq<Origin>, out: seq<Entity>)
    decreases |os|
  {
    && |os| == |out|
    && (os != [] ==>
          && ExplainedOut(words, es, os[..|os| - 1], out[..|out| - 1])
          && Explains(words, es, os[|os| - 1], out[|out| - 1], MatchCount(os[..|os| - 1])))
  }

  /** What holds of the loop state after `n` words. */
  predicate Explained(words: seq<string>, es: seq<Entity>, n: nat, c: Capitalizing) {
    && |c.out| <= n
    && c.cur == MatchCount(c.origins) <= |es|
    && ExplainedOut(words, es, c.origins, c.out)
  }

  /** Appending one explained entity keeps the state explained. */
  lemma AppendExplained(words: seq<string>, es: seq<Entity>, n: nat, c: Capitalizing, o: Origin, e: Entity)
    requires Explained(words, es, n, c)
    requires Explains(words, es, o, e, MatchCount(c.origins))
    ensures Explained(words, es, n + 1,
              Capitalizing(c.cur + (if o.Matched? then 1 else 0), c.out + [e], c.origins + [o]))
  {
    var os := c.origins + [o];
    assert os[..|c.origins|] == c.origins;
    assert (c.out + [e])[..|c.out|] == c.out;
  }

  /** The recursive description, entity by entity. */
  lemma {:induction false} ExplainedEach(words: seq<string>, es: seq<Entity>, os: seq<Origin>, out: seq<Entity>)
    requires ExplainedOut(words, es, os, out)
    ensures |os| == |out|
    ensures forall j :: 0 <= j < |out| ==> Explains(words, es, os[j], out[j], MatchCount(os[..j]))
    decreases |os|
  {
    if os != [] {
      var n := |os| - 1;
      var os', out' := os[..n], out[..n];
      ExplainedEach(words, es, os', out');
      forall j | 0 <= j < |out|
        ensures Explains(words, es, os[j], out[j], MatchCount(os[..j]))
      {
        if j < n {
          assert os'[..j] == os[..j];
          assert os'[j] == os[j] && out'[j] == out[j];
          assert Explains(words, es, os'[j], out'[j], MatchCount(os'[..j]));
        }
      }
    }
  }

  lemma MatchExplained(words: seq<string>, es: seq<Entity>, i: nat, c: Capitalizing, ext: seq<string>)
    requires AllWords(words) && i < |words| && Explained(words, es, i, c) && c.cur < |es|
    requires Words(es[c.cur].word) != [] && words[i] == Words(es[c.cur].word)[0]
    requires Extension(words, es, c.cur, i + |Words(es[c.cur].word)| - 1) == Ok(ext)
    ensures Explained(words, es, i + 1, EmitMatch(c, es, i, ext))
  {
    var own := Words(es[c.cur].word);
    ExtensionExplained(words, es, c.cur, i + |own| - 1);
    var e := Entity(Join(own + ext), es[c.cur].score, es[c.cur].entity);
    var o := Matched(c.cur, i, ext);
    assert ExplainsMatch(words, es[c.cur], own, i, ext, e);
    assert Explains(words, es, o, e, MatchCount(c.origins));
    AppendExplained(words, es, i, c, o, e);
    assert EmitMatch(c, es, i, ext) == Capitalizing(c.cur + 1, c.out + [e], c.origins + [o]);
  }

  lemma GuessExplained(words: seq<string>, es: seq<Entity>, i: nat, c: Capitalizing)
    requires AllWords(words) && i < |words| && Explained(words, es, i, c)
    ensures Explained(words, es, i + 1, GuessOrSkip(c, words[i]))
  {
    if Capitalized(words[i]) {
      AppendExplained(words, es, i, c, Guessed, Entity(words[i], 0.5, "I-MISC"));
    }
  }

  lemma CapStepExplained(words: seq<string>, es: seq<Entity>, i: nat, c: Capitalizing)
    requires AllWords(words) && i < |words| && Explained(words, es, i, c)
    requires CapStep(words, es, i, c).Ok?
    ensures Explained(words, es, i + 1, CapStep(words, es, i, c).value)
  {
    if c.cur < |es| {
      var first := FirstWord(es[c.cur].word);
      assert first.Ok?;
      if words[i] == first.value {
        var ext := Extension(words, es, c.cur, i + |Words(es[c.cur].word)| - 1);
        assert ext.Ok? && CapStep(words, es, i, c) == Ok(EmitMatch(c, es, i, ext.value));
        MatchExplained(words, es, i, c, ext.value);
      } else {
        assert CapStep(words, es, i, c) == Ok(GuessOrSkip(c, words[i]));
        GuessExplained(words, es, i, c);
      }
    } else {
      assert CapStep(words, es, i, c) == Ok(GuessOrSkip(c, words[i]));
      GuessExplained(words, es, i, c);
    }
  }

  /** What a successful extension test guarantees. */
  lemma ExtensionExplained(words: seq<string>, es: seq<Entity>, cur: nat, last: int)
    requires AllWords(words) && cur < |es| && Extension(words, es, cur, last).Ok?
    ensures var ext := Extension(words, es, cur, last).value;
      && |ext| <= 1
      && (ext != [] ==>
            && 0 <= last + 1 < |words| && ext[0] == words[last + 1] && Capitalized(ext[0])
            && (cur + 1 < |es| ==> Words(es[cur + 1].word) != [] && ext[0] != Words(es[cur + 1].word)[0]))
  {
  }

  /** A run that gets past word `n - 1` got past every earlier word. */
  lemma CapFoldOkBefore(words: seq<string>, es: seq<Entity>, n: nat)
    requires AllWords(words) && 0 < n <= |words| && CapFold(words, es, n).Ok?
    ensures CapFold(words, es, n - 1).Ok?
  {
  }

  lemma CapFoldStepExplained(words: seq<string>, es: seq<Entity>, n: nat)
    requires AllWords(words) && 0 < n <= |words| && CapFold(words, es, n).Ok?
    requires CapFold(words, es, n - 1).Ok? && Explained(words, es, n - 1, CapFold(words, es, n - 1).value)
    ensures Explained(words, es, n, CapFold(words, es, n).value)
  {
    var c := CapFold(words, es, n - 1).value;
    CapFoldUnfold(words, es, n);
    CapStepExplained(words, es, n - 1, c);
  }

  /** After a successful prefix, the fold takes one more step. */
  lemma CapFoldUnfold(words: seq<string>, es: seq<Entity>, n: nat)
    requires AllWords(words) && 0 < n <= |words| && CapFold(words, es, n - 1).Ok?
    ensures CapFold(words, es, n) == CapStep(words, es, n - 1, CapFold(words, es, n - 1).value)
  {
  }

  /** The properties of every successful run, word by word. */
  lemma {:induction false} CapFoldExplained(words: seq<string>, es: seq<Entity>, n: nat)
    requires AllWords(words) && n <= |words|
    ensures CapFold(words, es, n).Ok? ==> Explained(words, es, n, CapFold(words, es, n).value)
  {
    if n > 0 && CapFold(words, es, n).Ok? {
      CapFoldOkBefore(words, es, n);
      CapFoldExplained(words, es, n - 1);
      CapFoldStepExplained(words, es, n);
    }
  }

  /** `merge_based_on_capitalization` emits at most one entity per word of the
      text; the entities it takes from the input are the input's first ones,
      in order, with their scores and labels (see `Explains`). */
  lemma CapitalizationMergeExplained(text: string, es: seq<Entity>)
    ensures var words := Words(text); var r := CapFold(words, es, |words|);
      && (CapitalizationMerge(text, es).Ok? <==> r.Ok?)
      && (r.Ok? ==>
            var c := r.value;
            && CapitalizationMerge(text, es).value == c.out
            && |c.out| == |c.origins| <= |words|
            && c.cur == MatchCount(c.origins) <= |es|
            && forall j :: 0 <= j < |c.out| ==> Explains(words, es, c.origins[j], c.out[j], MatchCount(c.origins[..j])))
  {
    var words := Words(text);
    CapFoldExplained(words, es, |words|);
    var r := CapFold(words, es, |words|);
    if r.Ok? {
      ExplainedEach(words, es, r.value.origins, r.value.out);
    }
  }

  /** The call only fails on an input entity whose word holds no word at all. */
  lemma {:induction false} CapFoldFails(words: seq<string>, es: seq<Entity>, n: nat)
    requires AllWords(words) && n <= |words| && CapFold(words, es, n).Err?
    ensures exists k :: 0 <= k < |es| && Words(es[k].word) == []
  {
    if CapFold(words, es, n - 1).Err? {
      CapFoldFails(words, es, n - 1);
    } else {
      var c := CapFold(words, es, n - 1).value;
      if FirstWord(es[c.cur].word).Err? {
        assert Words(es[c.cur].word) == [];
      } else {
        assert Words(es[c.cur + 1].word) == [];
      }
    }
  }

  // ===========================================================================
  // merge_names_with_initials

  /** An initial: a two-character word whose second character is '.'. */
  predicate IsInitial(w: string) {
    |w| == 2 && w[1] == '.'
  }

  /** A further name part: longer than two characters, starting upper-case. */
  predicate IsNamePart(w: string) {
    |w| > 2 && IsUpper(w[0])
  }

  function WordsOf(es: seq<Entity>): (ws: seq<string>)
    ensures |ws| == |es|
    ensures forall k :: 0 <= k < |es| ==> ws[k] == es[k].word
  {
    if es == [] then [] else [es[0].word] + WordsOf(es[1..])
  }

  function Labels(es: seq<Entity>): (ls: seq<string>)
    ensures |ls| == |es|
    ensures forall k :: 0 <= k < |es| ==> ls[k] == es[k].entity
  {
    if es == [] then [] else [es[0].entity] + Labels(es[1..])
  }

  /** The last index the `while` loop reaches from `j`: it moves on while the
      next entity is a name part. */
  function NameEnd(es: seq<Entity>, j: nat): (last: nat)
    requires j < |es|
    ensures j <= last < |es|
    decreases |es| - j
  {
    if j + 1 < |es| && IsNamePart(es[j + 1].word) then NameEnd(es, j + 1) else j
  }

  /** The running average `s` after the entities `j + 1 .. last` were absorbed. */
  function ScoreFrom(es: seq<Entity>, j: nat, last: nat, s: real): real
    requires j <= last < |es|
    decreases last - j
  {
    if j == last then s else ScoreFrom(es, j + 1, last, Average(s, es[j + 1].score))
  }

  /** The last entity a merge starting at initial `i` takes in: the name parts
      after a second initial, or just the next entity. */
  function MergeEnd(es: seq<Entity>, i: nat): (last: nat)
    requires i + 1 < |es|
    ensures i + 1 <= last < |es|
  {
    if IsInitial(es[i + 1].word) then NameEnd(es, i + 1) else i + 1
  }

  /** The entity emitted for a merge starting at initial `i`: the words of
      entities `i .. MergeEnd` joined by spaces, their running average score,
      and the label of the first initial. */
  function MergedAt(es: seq<Entity>, i: nat): Entity
    requires i + 1 < |es|
  {
    var last := MergeEnd(es, i);
    Entity(Join(WordsOf(es[i..last + 1])), ScoreFrom(es, i + 1, last, Average(es[i].score, es[i + 1].score)), es[i].entity)
  }

  /** Whether the entity at `i` starts a merge: an initial that is not the last entity. */
  predicate StartsMerge(es: seq<Entity>, i: nat)
    requires i < |es|
  {
    IsInitial(es[i].word) && i != |es| - 1
  }

  /** The output from index `i` on, as written: after a merge only the next
      index is skipped, whatever the `while` loop took in. */
  function InitialsFrom(es: seq<Entity>, i: nat): seq<Entity>
    requires i <= |es|
    decreases |es| - i
  {
    if i == |es| then []
    else if StartsMerge(es, i) then [MergedAt(es, i)] + InitialsFrom(es, i + 2)
    else [es[i]] + InitialsFrom(es, i + 1)
  }

  /** Taking one more entity into a merged word adds a space and its word. */
  lemma JoinWordsSnoc(es: seq<Entity>, i: nat, j: nat)
    requires i < j < |es|
    ensures Join(WordsOf(es[i..j + 1])) == Join(WordsOf(es[i..j])) + " " + es[j].word
  {
    assert WordsOf(es[i..j + 1]) == WordsOf(es[i..j]) + [es[j].word];
    JoinSnoc(WordsOf(es[i..j]), es[j].word);
  }

  /** The loop at lines 110-114: extends the merged word and score while the
      next entity is a name part. */
  method AbsorbNameParts(entities: seq<Entity>, i: nat, word: string, score: real)
    returns (j: nat, mergedWord: string, currentScore: real)
    requires i + 1 < |entities| && word == Join(WordsOf(entities[i..i + 2]))
    ensures j == NameEnd(entities, i + 1)
    ensures mergedWord == Join(WordsOf(entities[i..j + 1]))
    ensures currentScore == ScoreFrom(entities, i + 1, j, score)
  {
    ghost var last := NameEnd(entities, i + 1);
    j := i + 1;
    mergedWord := word;
    currentScore := score;
    while j + 1 < |entities| && IsNamePart(entities[j + 1].word)
      invariant i + 1 <= j <= last
      invariant NameEnd(entities, j) == last
      invariant mergedWord == Join(WordsOf(entities[i..j + 1]))
      invariant ScoreFrom(entities, j, last, currentScore) == ScoreFrom(entities, i + 1, last, score)
      decreases |entities| - j
    {
      j := j + 1;
      JoinWordsSnoc(entities, i, j);
      mergedWord := mergedWord + " " + entities[j].word;
      currentScore := Average(currentScore, entities[j].score);
    }
  }

  /** Lines 100-122: the entity emitted for a merge starting at initial `i`. */
  method MergeInitial(entities: seq<Entity>, i: nat) returns (merged: Entity)
    requires i + 1 < |entities| && IsInitial(entities[i].word)
    ensures merged == MergedAt(entities, i)
  {
    var entity := entities[i];
    var nextEntity := entities[i + 1];
    var mergedWord := entity.word + " " + nextEntity.word;
    var currentScore := Average(entity.score, nextEntity.score);
    assert WordsOf(entities[i..i + 2]) == [entity.word, nextEntity.word];
    assert Join([entity.word, nextEntity.word]) == entity.word + " " + Join([nextEntity.word]);
    if IsInitial(nextEntity.word) {
      var j;
      j, mergedWord, currentScore := AbsorbNameParts(entities, i, mergedWord, currentScore);
    }
    merged := Entity(mergedWord, currentScore, entity.entity);
  }

  method MergeNamesWithInitials(entities: seq<Entity>) returns (mergedEntities: seq<Entity>)
    ensures mergedEntities == InitialsFrom(entities, 0)
  {
    mergedEntities := [];
    var skipNext := false;
    for i := 0 to |entities|
      invariant skipNext ==> i < |entities|
      invariant skipNext ==> mergedEntities + InitialsFrom(entities, i + 1) == InitialsFrom(entities, 0)
      invariant !skipNext ==> mergedEntities + InitialsFrom(entities, i) == InitialsFrom(entities, 0)
    {
      if skipNext {
        skipNext := false;
        continue;
      }
      var entity := entities[i];
      if IsInitial(entity.word) && i != |entities| - 1 {
        var merged := MergeInitial(entities, i);
        InitialsMergeStep(entities, i);
        mergedEntities := mergedEntities + [merged];
        skipNext := true;
      } else {
        InitialsKeepStep(entities, i);
        mergedEntities := mergedEntities + [entity];
      }
    }
  }

  lemma InitialsMergeStep(es: seq<Entity>, i: nat)
    requires i < |es| && StartsMerge(es, i)
    ensures InitialsFrom(es, i) == [MergedAt(es, i)] + InitialsFrom(es, i + 2)
  {
  }

  lemma InitialsKeepStep(es: seq<Entity>, i: nat)
    requires i < |es| && !StartsMerge(es, i)
    ensures InitialsFrom(es, i) == [es[i]] + InitialsFrom(es, i + 1)
  {
  }

  /** Number of merges the loop performs from index `i` on. */
  function MergesFrom(es: seq<Entity>, i: nat): nat
    requires i <= |es|
    decreases |es| - i
  {
    if i == |es| then 0
    else if StartsMerge(es, i) then 1 + MergesFrom(es, i + 2)
    else MergesFrom(es, i + 1)
  }

  /** Each merge turns two visited indices into one output entity, every other
      index gives one: the output is shorter than the input by the number of merges. */
  lemma {:induction false} InitialsLength(es: seq<Entity>, i: nat)
    requires i <= |es|
    ensures |InitialsFrom(es, i)| == |es| - i - MergesFrom(es, i)
    decreases |es| - i
  {
    if i < |es| {
      if StartsMerge(es, i) {
        InitialsLength(es, i + 2);
      } else {
        InitialsLength(es, i + 1);
      }
    }
  }

  /** Every visited index emits one entity and a merge also consumes the next
      index: the output has between half of and all the remaining entities,
      and its labels are those of the entities that start each output entity,
      in order. */
  lemma {:induction false} InitialsShape(es: seq<Entity>, i: nat)
    requires i <= |es|
    ensures |InitialsFrom(es, i)| <= |es| - i <= 2 * |InitialsFrom(es, i)|
    ensures Subseq(Labels(InitialsFrom(es, i)), Labels(es[i..]))
    decreases |es| - i
  {
    if i < |es| {
      var ls := Labels(es[i..]);
      assert ls[0] == es[i].entity;
      assert ls[1..] == Labels(es[i + 1..]);
      if StartsMerge(es, i) {
        InitialsShape(es, i + 2);
        assert Labels(es[i + 1..])[1..] == Labels(es[i + 2..]);
        assert Subseq(Labels(InitialsFrom(es, i + 2)), Labels(es[i + 1..]));
        assert Labels(InitialsFrom(es, i)) == [es[i].entity] + Labels(InitialsFrom(es, i + 2));
      } else {
        InitialsShape(es, i + 1);
        assert Labels(InitialsFrom(es, i)) == [es[i].entity] + Labels(InitialsFrom(es, i + 1));
      }
    }
  }

  /** Without an initial before the last entity nothing is merged. */
  lemma {:induction false} InitialsKeepAll(es: seq<Entity>, i: nat)
    requires i <= |es|
    requires forall k :: i <= k < |es| - 1 ==> !IsInitial(es[k].word)
    ensures InitialsFrom(es, i) == es[i..]
    decreases |es| - i
  {
    if i < |es| {
      InitialsKeepAll(es, i + 1);
      assert es[i..] == [es[i]] + es[i + 1..];
    }
  }

  /** An initial before the last entity, with no initial before it, starts a
      merge, so the output is shorter than the input. */
  lemma {:induction false} InitialsShorten(es: seq<Entity>, i: nat, k: nat)
    requires i <= k < |es| - 1 && IsInitial(es[k].word)
    ensures |InitialsFrom(es, i)| < |es| - i
    decreases k - i
  {
    if StartsMerge(es, i) {
      InitialsShape(es, i + 2);
    } else {
      InitialsShorten(es, i + 1, k);
    }
  }

  /** The output is as long as the input iff no entity but the last is an initial. */
  lemma InitialsLengthIff(es: seq<Entity>)
    ensures |InitialsFrom(es, 0)| == |es| <==> forall k :: 0 <= k < |es| - 1 ==> !IsInitial(es[k].word)
  {
    if forall k :: 0 <= k < |es| - 1 ==> !IsInitial(es[k].word) {
      InitialsKeepAll(es, 0);
    } else {
      var k :| 0 <= k < |es| - 1 && IsInitial(es[k].word);
      InitialsShorten(es, 0, k);
    }
  }

  /** The example of the doc comment, as the code runs it: "J.", "K.",
      "Rowling" gives "J. K. Rowling" and then "Rowling" again, because the
      `while` loop's `i += 1` does not move the `for` loop past "Rowling". */
  lemma RowlingAsWritten(es: seq<Entity>)
    requires |es| == 3 && es[0].word == "J." && es[1].word == "K." && es[2].word == "Rowling"
    ensures InitialsFrom(es, 0)
         == [Entity("J. K. Rowling", Average(Average(es[0].score, es[1].score), es[2].score), es[0].entity), es[2]]
  {
    RowlingMerged(es);
    assert !StartsMerge(es, 2);
    assert InitialsFrom(es, 2) == [es[2]] + InitialsFrom(es, 3);
  }

  /** The entity the merge at "J." emits. */
  lemma RowlingMerged(es: seq<Entity>)
    requires |es| == 3 && es[0].word == "J." && es[1].word == "K." && es[2].word == "Rowling"
    ensures StartsMerge(es, 0) && MergeEnd(es, 0) == 2
    ensures MergedAt(es, 0)
         == Entity("J. K. Rowling", Average(Average(es[0].score, es[1].score), es[2].score), es[0].entity)
  {
    assert IsInitial(es[0].word) && IsInitial(es[1].word);
    assert NameEnd(es, 2) == 2;
    assert IsNamePart(es[2].word);
    assert NameEnd(es, 1) == 2;
    assert WordsOf(es[0..3]) == ["J.", "K.", "Rowling"];
    JoinRowling();
  }

  lemma JoinRowling()
    ensures Join(["J.", "K.", "Rowling"]) == "J. K. Rowling"
  {
    assert Join(["K.", "Rowling"]) == "K." + " " + Join(["Rowling"]);
    assert ["J.", "K.", "Rowling"][1..] == ["K.", "Rowling"];
  }

  /** The words of the output, joined, are the words of the input joined. */
  predicate KeepsWords(out: seq<Entity>, es: seq<Entity>) {
    Join(WordsOf(out)) == Join(WordsOf(es))
  }

  /** The code as written repeats "Rowling": it loses the property above. */
  lemma RowlingRepeated(es: seq<Entity>)
    requires |es| == 3 && es[0].word == "J." && es[1].word == "K." && es[2].word == "Rowling"
    ensures !KeepsWords(InitialsFrom(es, 0), es)
  {
    RowlingAsWritten(es);
    var out := InitialsFrom(es, 0);
    assert WordsOf(out) == ["J. K. Rowling", "Rowling"];
    assert WordsOf(es) == ["J.", "K.", "Rowling"];
    assert |Join(WordsOf(out))| == 21;
    assert |Join(WordsOf(es))| == 13;
  }

  /** The output from index `i` on, as the doc comment intends: after a merge
      the loop goes on after the last entity the merge took in. */
  function InitialsIntendedFrom(es: seq<Entity>, i: nat): seq<Entity>
    requires i <= |es|
    decreases |es| - i
  {
    if i == |es| then []
    else if StartsMerge(es, i) then [MergedAt(es, i)] + InitialsIntendedFrom(es, MergeEnd(es, i) + 1)
    else [es[i]] + InitialsIntendedFrom(es, i + 1)
  }

  /** Where the intended loop goes on after index `i`. */
  function IntendedNext(es: seq<Entity>, i: nat): (next: nat)
    requires i < |es|
    ensures i < next <= |es|
  {
    if StartsMerge(es, i) then MergeEnd(es, i) + 1 else i + 1
  }

  /** The entity emitted at a visited index `i` is the words of the entities
      it covers, joined. */
  lemma EmittedWord(es: seq<Entity>, i: nat)
    requires i < |es|
    ensures (if StartsMerge(es, i) then MergedAt(es, i) else es[i]).word == Join(WordsOf(es[i..IntendedNext(es, i)]))
  {
    if !StartsMerge(es, i) {
      assert WordsOf(es[i..i + 1]) == [es[i].word];
    }
  }

  lemma WordsOfSplit(es: seq<Entity>, i: nat, j: nat)
    requires i <= j <= |es|
    ensures WordsOf(es[i..]) == WordsOf(es[i..j]) + WordsOf(es[j..])
  {
  }

  /** Joining `[w] + ws` and `a + b` when `w` is `a` joined and `ws`, `b` agree. */
  lemma JoinCons(w: string, rest: seq<string>, a: seq<string>, b: seq<string>)
    requires a != [] && w == Join(a) && Join(rest) == Join(b) && (rest == [] <==> b == [])
    ensures Join([w] + rest) == Join(a + b)
  {
    if b != [] {
      JoinAppend(a, b);
      JoinAppend([w], rest);
    } else {
      assert a + b == a;
    }
  }

  /** The intended merge neither loses nor repeats a word: joining the output
      words gives the input words joined. */
  lemma {:induction false} InitialsIntendedKeepsWords(es: seq<Entity>, i: nat)
    requires i <= |es|
    ensures KeepsWords(InitialsIntendedFrom(es, i), es[i..])
    ensures InitialsIntendedFrom(es, i) == [] <==> i == |es|
    decreases |es| - i
  {
    if i < |es| {
      var next := IntendedNext(es, i);
      var head := if StartsMerge(es, i) then MergedAt(es, i) else es[i];
      var rest := InitialsIntendedFrom(es, next);
      InitialsIntendedKeepsWords(es, next);
      assert InitialsIntendedFrom(es, i) == [head] + rest;
      assert WordsOf([head] + rest) == [head.word] + WordsOf(rest);
      EmittedWord(es, i);
      WordsOfSplit(es, i, next);
      JoinCons(head.word, WordsOf(rest), WordsOf(es[i..next]), WordsOf(es[next..]));
    }
  }

  /** The doc comment's example under the intended merge: one entity. */
  lemma RowlingIntended(es: seq<Entity>)
    requires |es| == 3 && es[0].word == "J." && es[1].word == "K." && es[2].word == "Rowling"
    ensures InitialsIntendedFrom(es, 0)
         == [Entity("J. K. Rowling", Average(Average(es[0].score, es[1].score), es[2].score), es[0].entity)]
  {
    RowlingMerged(es);
    assert InitialsIntendedFrom(es, 3) == [];
  }
}
