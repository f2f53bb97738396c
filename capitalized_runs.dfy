/** The pattern search of `merge_capitalized_sequences`:
    `re.findall(r'\b([A-Z][a-z]+(?:\s[A-Z][a-z]+)*)\b', text)` on ASCII text.

    Because `[a-z]+` is greedy and must be followed by the closing `\b`, a
    capitalised word only counts when the character after it is not a word
    character (or the text ends there). The starred group is greedy too; if its
    last repetition ends next to a word character the matcher backs off that
    repetition, so a match is one capitalised word followed by as many
    "whitespace character + capitalised word" pieces as can be taken while each
    such word is itself properly terminated. `findall` then resumes at the end
    of the match, or one character further after a failed attempt. */
module CapitalizedRuns {
  import opened Text

  /** A token of the pattern: one upper-case letter, then one or more lower-case ones. */
  predicate IsCapWord(w: string) {
    |w| >= 2 && IsUpper(w[0]) && forall k :: 1 <= k < |w| ==> IsLower(w[k])
  }

  /** What `sequence.split()` of a match looks like: at least one token, all capitalised. */
  predicate IsCapRun(r: string) {
    Words(r) != [] && forall j :: 0 <= j < |Words(r)| ==> IsCapWord(Words(r)[j])
  }

  /** Number of lower-case letters starting at `p`. */
  function LowerLen(s: string, p: nat): (n: nat)
    requires p <= |s|
    ensures p + n <= |s|
    ensures forall k :: p <= k < p + n ==> IsLower(s[k])
    ensures p + n < |s| ==> !IsLower(s[p + n])
    decreases |s| - p
  {
    if p < |s| && IsLower(s[p]) then 1 + LowerLen(s, p + 1) else 0
  }

  /** The end of the word `[A-Z][a-z]+` at `p` when the closing `\b` holds after
      it; `p` itself when no such word starts at `p`. */
  function CapWordEnd(s: string, p: nat): (q: nat)
    requires p <= |s|
    ensures p <= q <= |s|
    ensures q > p ==> IsCapWord(s[p..q]) && (q == |s| || !IsWordChar(s[q]))
    ensures p < |s| && !IsUpper(s[p]) ==> q == p
  {
    if p < |s| && IsUpper(s[p]) then
      var q := p + 1 + LowerLen(s, p + 1);
      if q >= p + 2 && (q == |s| || !IsWordChar(s[q])) then q else p
    else p
  }

  /** Extends a match ending at `e` by `\s[A-Z][a-z]+` pieces for as long as possible. */
  function RunEnd(s: string, e: nat): (f: nat)
    requires e <= |s|
    ensures e <= f <= |s|
    decreases |s| - e
  {
    if e < |s| && IsSpace(s[e]) && CapWordEnd(s, e + 1) > e + 1 then RunEnd(s, CapWordEnd(s, e + 1))
    else e
  }

  /** All matches starting at or after position `p`, left to right, non-overlapping. */
  function Scan(s: string, p: nat): seq<string>
    requires p <= |s|
    decreases |s| - p
  {
    if p == |s| then []
    else
      var q := CapWordEnd(s, p);
      if (p == 0 || !IsWordChar(s[p - 1])) && q > p then
        var e := RunEnd(s, q);
        [s[p..e]] + Scan(s, e)
      else
        Scan(s, p + 1)
  }

  /** `capitalized_sequences` of ner_service.py. */
  function CapitalizedSequences(text: string): (runs: seq<string>)
    ensures forall r :: r in runs ==> IsCapRun(r)
  {
    ScanFindsRuns(text, 0);
    Scan(text, 0)
  }

  // ---------------------------------------------------------------------------
  // Lemmas

  lemma CapWordIsWord(w: string)
    requires IsCapWord(w)
    ensures IsWord(w)
  {
  }

  /** What a run adds after its first word: nothing, or whitespace followed by
      capitalised words only. */
  predicate IsCapTail(t: string) {
    (t == [] || IsSpace(t[0])) && forall j :: 0 <= j < |Words(t)| ==> IsCapWord(Words(t)[j])
  }

  /** Prefixing "whitespace + capitalised word" to a tail gives a tail. */
  lemma CapTailCons(c: char, w: string, rest: string)
    requires IsSpace(c) && IsCapWord(w) && IsCapTail(rest)
    ensures IsCapTail([c] + (w + rest))
  {
    CapWordIsWord(w);
    WordsOfSpaceThen(c, w + rest);
    WordsOfWordThen(w, rest);
  }

  /** Everything `RunEnd` adds after position `q` is a tail. */
  lemma {:induction false} RunTailWords(s: string, q: nat)
    requires q <= |s|
    ensures IsCapTail(s[q..RunEnd(s, q)])
    decreases |s| - q
  {
    var f := RunEnd(s, q);
    if q < |s| && IsSpace(s[q]) && CapWordEnd(s, q + 1) > q + 1 {
      var q2 := CapWordEnd(s, q + 1);
      RunTailWords(s, q2);
      CapTailCons(s[q], s[q + 1..q2], s[q2..f]);
      assert f == RunEnd(s, q2) && q + 1 < q2 <= f <= |s|;
      assert s[q + 1..f] == s[q + 1..q2] + s[q2..f];
      assert s[q..f] == [s[q]] + s[q + 1..f];
    } else {
      assert s[q..f] == [];
    }
  }

  /** `LowerLen` counts exactly the lower-case letters up to the first other character. */
  lemma {:induction false} LowerLenIs(s: string, p: nat, n: nat)
    requires p + n <= |s|
    requires forall k :: p <= k < p + n ==> IsLower(s[k])
    requires p + n == |s| || !IsLower(s[p + n])
    ensures LowerLen(s, p) == n
    decreases n
  {
    if n > 0 {
      LowerLenIs(s, p + 1, n - 1);
    }
  }

  /** The converse of `CapWordEnd`'s contract: a word `[A-Z][a-z]+` at `p` that
      the closing `\b` ends is found, and its end is reported exactly. */
  lemma CapWordEndFinds(s: string, p: nat, r: nat)
    requires p + 2 <= r <= |s| && IsCapWord(s[p..r])
    requires r == |s| || !IsWordChar(s[r])
    ensures CapWordEnd(s, p) == r
  {
    forall k | p + 1 <= k < r
      ensures IsLower(s[k])
    {
      assert s[k] == s[p..r][k - p];
    }
    assert s[p] == s[p..r][0];
    LowerLenIs(s, p + 1, r - (p + 1));
  }

  /** Every match splits into one or more capitalised tokens. */
  lemma {:induction false} ScanFindsRuns(s: string, p: nat)
    requires p <= |s|
    ensures forall r :: r in Scan(s, p) ==> IsCapRun(r)
    decreases |s| - p
  {
    if p < |s| {
      var q := CapWordEnd(s, p);
      if (p == 0 || !IsWordChar(s[p - 1])) && q > p {
        var e := RunEnd(s, q);
        ScanFindsRuns(s, e);
        RunTailWords(s, q);
        var w := s[p..q];
        CapWordIsWord(w);
        assert s[p..e] == w + s[q..e];
        WordsOfWordThen(w, s[q..e]);
        assert Scan(s, p) == [s[p..e]] + Scan(s, e);
      } else {
        ScanFindsRuns(s, p + 1);
      }
    }
  }
}
