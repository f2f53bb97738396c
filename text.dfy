/** String helpers standing for the Python built-ins the entity post-processing
    relies on: `str.split()`, `" ".join(...)`, `str.startswith` and
    `str.replace("##", "")`. Only ASCII behaviour is modelled. */
module Text {

  /** `str.isspace` restricted to ASCII: tab, line feed, vertical tab, form feed,
      carriage return (9..13), the four information separators (28..31) and space (32).
      Python's `str.split()` and the regex class `\s` both use this set. */
  predicate IsSpace(c: char) {
    9 <= c as int <= 13 || 28 <= c as int <= 32
  }

  predicate IsUpper(c: char) { 'A' <= c <= 'Z' }

  predicate IsLower(c: char) { 'a' <= c <= 'z' }

  /** The regex class `\w` on ASCII: letters, digits and underscore. */
  predicate IsWordChar(c: char) {
    IsUpper(c) || IsLower(c) || ('0' <= c <= '9') || c == '_'
  }

  /** A word as `str.split()` produces it: non-empty, no whitespace inside. */
  predicate IsWord(w: string) {
    w != [] && forall k :: 0 <= k < |w| ==> !IsSpace(w[k])
  }

  predicate StartsWith(s: string, prefix: string) {
    |prefix| <= |s| && s[..|prefix|] == prefix
  }

  /** Length of the longest whitespace-free prefix of `s`. */
  function WordLen(s: string): (n: nat)
    ensures n <= |s|
    ensures forall k :: 0 <= k < n ==> !IsSpace(s[k])
    ensures n < |s| ==> IsSpace(s[n])
  {
    if s == [] || IsSpace(s[0]) then 0 else 1 + WordLen(s[1..])
  }

  /** `s.split()`: the maximal runs of non-whitespace characters, in order. */
  function Words(s: string): (ws: seq<string>)
    ensures forall k :: 0 <= k < |ws| ==> IsWord(ws[k])
    decreases |s|
  {
    if s == [] then []
    else if IsSpace(s[0]) then Words(s[1..])
    else
      var n := WordLen(s);
      [s[..n]] + Words(s[n..])
  }

  /** `" ".join(ws)`. */
  function Join(ws: seq<string>): string {
    if ws == [] then ""
    else if |ws| == 1 then ws[0]
    else ws[0] + " " + Join(ws[1..])
  }

  /** `s.replace("##", "")`: every non-overlapping "##", scanning from the left, is dropped. */
  function StripMarkers(s: string): (r: string)
    ensures |r| <= |s|
    decreases |s|
  {
    if s == [] then []
    else if |s| >= 2 && s[0] == '#' && s[1] == '#' then StripMarkers(s[2..])
    else [s[0]] + StripMarkers(s[1..])
  }

  predicate HasMarker(s: string) {
    exists k :: 0 <= k < |s| - 1 && s[k] == '#' && s[k + 1] == '#'
  }

  // ---------------------------------------------------------------------------
  // Lemmas

  lemma {:induction false} WordLenOfWord(w: string, t: string)
    requires IsWord(w)
    requires t == [] || IsSpace(t[0])
    ensures WordLen(w + t) == |w|
    decreases |w|
  {
    if |w| > 1 {
      assert (w + t)[1..] == w[1..] + t;
      WordLenOfWord(w[1..], t);
    } else {
      assert (w + t)[1..] == t;
    }
  }

  /** A word followed by whitespace (or nothing) is split off as the first word. */
  lemma {:induction false} WordsOfWordThen(w: string, t: string)
    requires IsWord(w)
    requires t == [] || IsSpace(t[0])
    ensures Words(w + t) == [w] + Words(t)
  {
    WordLenOfWord(w, t);
    assert (w + t)[..|w|] == w;
    assert (w + t)[|w|..] == t;
  }

  /** Leading whitespace is ignored by the split. */
  lemma WordsOfSpaceThen(c: char, t: string)
    requires IsSpace(c)
    ensures Words([c] + t) == Words(t)
  {
    assert ([c] + t)[1..] == t;
  }

  /** Splitting a space-joined list of words gives the words back. */
  lemma {:induction false} WordsOfJoin(ws: seq<string>)
    requires forall k :: 0 <= k < |ws| ==> IsWord(ws[k])
    ensures Words(Join(ws)) == ws
  {
    if ws == [] {
    } else if |ws| == 1 {
      WordsOfWordThen(ws[0], "");
      assert ws[0] + "" == ws[0];
    } else {
      var rest := Join(ws[1..]);
      WordsOfJoin(ws[1..]);
      WordsOfSpaceThen(' ', rest);
      WordsOfWordThen(ws[0], " " + rest);
      assert ws[0] + " " + rest == ws[0] + (" " + rest);
      assert ws == [ws[0]] + ws[1..];
    }
  }

  /** A split never yields more words than the text has characters. */
  lemma {:induction false} WordsCount(s: string)
    ensures |Words(s)| <= |s|
    decreases |s|
  {
    if s != [] {
      if IsSpace(s[0]) {
        WordsCount(s[1..]);
      } else {
        WordsCount(s[WordLen(s)..]);
      }
    }
  }

  /** Adding a word at the end of a non-empty list adds one space and the word. */
  lemma {:induction false} JoinSnoc(ws: seq<string>, w: string)
    requires ws != []
    ensures Join(ws + [w]) == Join(ws) + " " + w
  {
    if |ws| == 1 {
      assert (ws + [w])[1..] == [w];
    } else {
      JoinSnoc(ws[1..], w);
      assert (ws + [w])[1..] == ws[1..] + [w];
    }
  }

  /** Joining two non-empty lists one after the other. */
  lemma {:induction false} JoinAppend(a: seq<string>, b: seq<string>)
    requires a != [] && b != []
    ensures Join(a + b) == Join(a) + " " + Join(b)
    decreases |a|
  {
    if |a| == 1 {
      assert (a + b)[1..] == b;
    } else {
      JoinAppend(a[1..], b);
      assert (a + b)[1..] == a[1..] + b;
    }
  }

  /** Text with no non-space character splits into no words. */
  lemma {:induction false} WordsOfBlank(s: string)
    requires forall k :: 0 <= k < |s| ==> IsSpace(s[k])
    ensures Words(s) == []
  {
    if s != [] {
      WordsOfBlank(s[1..]);
    }
  }

  /** A text with no "##" does not start with one. */
  lemma MarkerAtStart(s: string)
    requires !HasMarker(s)
    ensures !(|s| >= 2 && s[0] == '#' && s[1] == '#')
  {
  }

  /** Text with no "##" in it is left as it is. */
  lemma {:induction false} StripMarkersKeepsPlainText(s: string)
    requires !HasMarker(s)
    ensures StripMarkers(s) == s
  {
    if s != [] {
      if |s| >= 2 && s[0] == '#' && s[1] == '#' {
        assert false;
      }
      assert !HasMarker(s[1..]) by {
        forall k | 0 <= k < |s[1..]| - 1
          ensures !(s[1..][k] == '#' && s[1..][k + 1] == '#')
        {
          assert s[1..][k] == s[k + 1] && s[1..][k + 1] == s[k + 1 + 1];
        }
      }
      StripMarkersKeepsPlainText(s[1..]);
    }
  }

  /** `replace` removes every occurrence, so no "##" survives in the result
      (a kept '#' is never followed by another '#'). */
  lemma {:induction false} StripMarkersRemovesAll(s: string)
    ensures !HasMarker(StripMarkers(s))
    decreases |s|
  {
    if s == [] {
    } else if |s| >= 2 && s[0] == '#' && s[1] == '#' {
      StripMarkersRemovesAll(s[2..]);
    } else {
      var tail := StripMarkers(s[1..]);
      StripMarkersRemovesAll(s[1..]);
      if s[0] == '#' && tail != [] {
        // s[1] is not '#', so it is kept and heads the tail
        assert |s| >= 2 && s[1] != '#';
        assert tail == [s[1]] + StripMarkers(s[2..]);
      }
      var r := [s[0]] + tail;
      forall k | 0 <= k < |r| - 1
        ensures !(r[k] == '#' && r[k + 1] == '#')
      {
        if k > 0 {
          assert r[k] == tail[k - 1] && r[k + 1] == tail[k];
        }
      }
    }
  }
}
