/** Worked examples of the whole endpoint on two short sentences with the same
    two person tokens: a name inside the text is merged by the second pass, the
    same name at the very start of the text is not. */
module Scenarios {
  import opened Text
  import opened Entities
  import opened CapitalizedRuns
  import opened NerService

  const Barack := Entity("Barack", 0.99, "I-PER")
  const Obama := Entity("Obama", 0.98, "I-PER")

  /** A classifier that tags the two names whatever the text. */
  function TagsTheName(text: string): seq<Entity> {
    [Barack, Obama]
  }

  // ---------------------------------------------------------------------------
  // Generic unfolding steps of the pattern search

  /** No match starts at a position without an upper-case letter. */
  lemma {:induction false} NoMatchIn(s: string, p: nat, q: nat)
    requires p <= q <= |s|
    requires forall k :: p <= k < q ==> !IsUpper(s[k])
    ensures Scan(s, p) == Scan(s, q)
    decreases q - p
  {
    if p < q {
      NoMatchAt(s, p);
      NoMatchIn(s, p + 1, q);
    }
  }

  /** The search moves on from a position without an upper-case letter. */
  lemma NoMatchAt(s: string, p: nat)
    requires p < |s| && !IsUpper(s[p])
    ensures Scan(s, p) == Scan(s, p + 1)
  {
    assert CapWordEnd(s, p) == p;
  }

  lemma MatchAt(s: string, p: nat)
    requires p < |s| && (p == 0 || !IsWordChar(s[p - 1])) && CapWordEnd(s, p) > p
    ensures Scan(s, p) == [s[p..RunEnd(s, CapWordEnd(s, p))]] + Scan(s, RunEnd(s, CapWordEnd(s, p)))
  {
  }

  // ---------------------------------------------------------------------------
  // "He met Barack Obama."

  lemma MetHe(s: string)
    requires s == "He met Barack Obama."
    ensures Scan(s, 0) == ["He"] + Scan(s, 2)
  {
    LowerLenIs(s, 1, 1);
    assert RunEnd(s, 2) == 2 by { assert CapWordEnd(s, 3) == 3; }
    assert s[0..2] == "He";
    MatchAt(s, 0);
  }

  lemma MetSkip(s: string)
    requires s == "He met Barack Obama."
    ensures Scan(s, 2) == Scan(s, 7)
  {
    NoMatchIn(s, 2, 7);
  }

  lemma MetWords(s: string)
    requires s == "He met Barack Obama."
    ensures CapWordEnd(s, 7) == 13 && CapWordEnd(s, 14) == 19
  {
    LowerLenIs(s, 8, 5);
    LowerLenIs(s, 15, 4);
  }

  lemma MetName(s: string)
    requires s == "He met Barack Obama."
    ensures Scan(s, 7) == ["Barack Obama"]
  {
    MetWords(s);
    assert RunEnd(s, 19) == 19;
    NoMatchIn(s, 19, 20);
    MatchAt(s, 7);
    assert s[7..19] == "Barack Obama";
  }

  lemma MetSequences(s: string)
    requires s == "He met Barack Obama."
    ensures CapitalizedSequences(s) == ["He", "Barack Obama"]
  {
    MetHe(s);
    MetSkip(s);
    MetName(s);
  }

  // ---------------------------------------------------------------------------
  // "Barack Obama visited Paris."

  lemma VisitedFirstWord(t: string)
    requires t == "Barack Obama visited Paris."
    ensures CapWordEnd(t, 0) == 6
  {
    LowerLenIs(t, 1, 5);
  }

  lemma VisitedSecondWord(t: string)
    requires t == "Barack Obama visited Paris."
    ensures CapWordEnd(t, 7) == 12 && CapWordEnd(t, 13) == 13
  {
    LowerLenIs(t, 8, 4);
    assert !IsUpper(t[13]);
  }

  lemma VisitedName(t: string)
    requires t == "Barack Obama visited Paris."
    ensures Scan(t, 0) == ["Barack Obama"] + Scan(t, 12)
  {
    VisitedFirstWord(t);
    VisitedSecondWord(t);
    assert RunEnd(t, 12) == 12;
    assert RunEnd(t, 6) == 12;
    MatchAt(t, 0);
    assert t[0..12] == "Barack Obama";
  }

  lemma VisitedPlaceWord(t: string)
    requires t == "Barack Obama visited Paris."
    ensures CapWordEnd(t, 21) == 26 && RunEnd(t, 26) == 26
  {
    LowerLenIs(t, 22, 4);
  }

  lemma VisitedPlace(t: string)
    requires t == "Barack Obama visited Paris."
    ensures Scan(t, 12) == ["Paris"]
  {
    NoMatchIn(t, 12, 21);
    VisitedPlaceWord(t);
    NoMatchIn(t, 26, 27);
    MatchAt(t, 21);
    assert t[21..26] == "Paris";
  }

  lemma VisitedSequences(t: string)
    requires t == "Barack Obama visited Paris."
    ensures CapitalizedSequences(t) == ["Barack Obama", "Paris"]
  {
    VisitedName(t);
    VisitedPlace(t);
  }

  // ---------------------------------------------------------------------------
  // The endpoint on both sentences

  /** Both tokens are persons, so the first pass keeps them apart. */
  lemma NamesStayApart()
    ensures AdjacentMerge([Barack, Obama]) == [Barack, Obama]
  {
    assert [Barack][..0] == [];
    assert Obama.word[..2] != "##" by { assert Obama.word[0] != '#'; }
    PersonTokenOpensSpan([Barack], Obama);
    assert [Barack] + [Obama] == [Barack, Obama];
  }

  /** A short text is classified in one call. */
  lemma ShortTextUnchunked(text: string)
    requires |text| <= DEFAULT_WORD_LIMIT
    ensures RawEntities(text, TagsTheName, DEFAULT_WORD_LIMIT) == [Barack, Obama]
  {
    WordsCount(text);
    assert [text][..0] == [];
    assert ClassifyAll(TagsTheName, [text]) == [] + TagsTheName(text);
  }

  /** A two-word sequence whose words are the words of two consecutive spans
      fuses them, when the text does not start with it. */
  lemma PairMerged(text: string, a: Entity, b: Entity, run: string)
    requires IsWord(a.word) && IsWord(b.word) && a.word != b.word
    requires run == a.word + " " + b.word && !StartsWith(text, run)
    ensures ApplyRun(text, [a, b], run) == [a.(word := run)]
  {
    WordsOfJoin([a.word, b.word]);
    assert Join([a.word, b.word]) == a.word + " " + Join([b.word]);
    var tokens := Words(run);
    assert tokens[1..] == [b.word];
    assert FirstWithWord([a, b], tokens[0]) == Some(0);
    assert Merges(text, [a, b], run);
    var merged := a.(word := run);
    assert [a, b][0 := merged] == [merged, b];
    RunIsNoPiece(merged, run, b.word);
    assert WithoutPieces([b], b.word) == [];
    assert WithoutPieces([merged, b], b.word) == [merged] + WithoutPieces([b], b.word);
    assert WithoutAllPieces([merged, b], [b.word]) == WithoutAllPieces([merged], []);
  }

  /** The loop over two sequences, one after the other. */
  lemma TwoRuns(text: string, spans: seq<Entity>, first: string, second: string)
    ensures ApplyRuns(text, spans, [first, second]) == ApplyRun(text, ApplyRun(text, spans, first), second)
  {
    var once := ApplyRun(text, spans, first);
    var twice := ApplyRun(text, once, second);
    assert [first, second][1..] == [second];
    assert [second][1..] == [];
    assert ApplyRuns(text, once, [second]) == ApplyRuns(text, twice, []);
  }

  /** A one-word sequence followed by the pair's sequence fuses the pair. */
  lemma WordThenPair(text: string, a: Entity, b: Entity, w: string, run: string)
    requires CapitalizedSequences(text) == [w, run] && IsWord(w)
    requires IsWord(a.word) && IsWord(b.word) && a.word != b.word
    requires run == a.word + " " + b.word && !StartsWith(text, run)
    ensures CapitalizedMerge(text, [a, b]) == [a.(word := run)]
  {
    TwoRuns(text, [a, b], w, run);
    SingleWordSkipped(text, [a, b], w);
    PairMerged(text, a, b, run);
  }

  /** Inside the text, "Barack Obama" is found as one sequence and fuses the two spans. */
  lemma MetMerges(s: string)
    requires CapitalizedSequences(s) == ["He", "Barack Obama"] && s != [] && s[0] == 'H'
    ensures CapitalizedMerge(s, [Barack, Obama]) == [Entity("Barack Obama", 0.99, "I-PER")]
  {
    var run := "Barack Obama";
    assert run == Barack.word + " " + Obama.word;
    assert !StartsWith(s, run) by { assert s[0] != run[0]; }
    assert IsWord("He") && IsWord(Barack.word) && IsWord(Obama.word);
    WordThenPair(s, Barack, Obama, "He", run);
  }

  /** "He met Barack Obama.": the two person tokens come out as one entity. */
  lemma MetReportsOneName(s: string)
    requires s == "He met Barack Obama."
    ensures Recognize(s, TagsTheName, DEFAULT_WORD_LIMIT) == [Entity("Barack Obama", 0.99, "I-PER")]
  {
    ShortTextUnchunked(s);
    NamesStayApart();
    MetSequences(s);
    MetMerges(s);
  }

  /** At the start of the text the sequence is skipped and the spans stay apart. */
  lemma VisitedKeeps(t: string)
    requires CapitalizedSequences(t) == ["Barack Obama", "Paris"] && StartsWith(t, "Barack Obama")
    ensures CapitalizedMerge(t, [Barack, Obama]) == [Barack, Obama]
  {
    var run := "Barack Obama";
    var place := "Paris";
    var names := [Barack, Obama];
    LeadingSequenceSkipped(t, names, run);
    SingleWordSkipped(t, names, place);
    assert ApplyRuns(t, names, []) == names;
    assert ApplyRuns(t, names, [place]) == ApplyRuns(t, names, []);
    assert [run, place][1..] == [place];
    assert ApplyRuns(t, names, [run, place]) == ApplyRuns(t, names, [place]);
  }

  /** "Barack Obama visited Paris.": the two person tokens stay two entities. */
  lemma VisitedReportsTwoNames(t: string)
    requires t == "Barack Obama visited Paris."
    ensures Recognize(t, TagsTheName, DEFAULT_WORD_LIMIT) == [Barack, Obama]
  {
    ShortTextUnchunked(t);
    NamesStayApart();
    VisitedSequences(t);
    assert t[..12] == "Barack Obama";
    VisitedKeeps(t);
  }
}
