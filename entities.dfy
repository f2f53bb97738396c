/** The record every post-processing step works on, and the small helpers
    shared by the merge passes. */
module Entities {

  /** One recognised entity: the dictionary `{word, score, entity}` of the
      token classifier. The score is a real number in this model. */
  datatype Entity = Entity(word: string, score: real, entity: string)

  datatype Option<+T> = None | Some(value: T)

  /** The only exception the modelled code can raise: indexing `[0]` into the
      empty list `"".split()`. */
  datatype Error = IndexError

  datatype Result<+T> = Ok(value: T) | Err(error: Error)

  /** The running average used by every merge: `(a + b) / 2`. */
  function Average(a: real, b: real): (m: real)
    ensures a <= b ==> a <= m <= b
    ensures b <= a ==> b <= m <= a
  {
    (a + b) / 2.0
  }

  /** Everything a merge must leave untouched: the score and the entity type. */
  function Tag(e: Entity): (real, string) {
    (e.score, e.entity)
  }

  function Tags(es: seq<Entity>): (ts: seq<(real, string)>)
    ensures |ts| == |es|
    ensures forall k :: 0 <= k < |es| ==> ts[k] == Tag(es[k])
  {
    if es == [] then [] else [Tag(es[0])] + Tags(es[1..])
  }

  /** `a` is obtained from `b` by deleting elements (order kept). */
  predicate Subseq<T(==)>(a: seq<T>, b: seq<T>)
    decreases |b|
  {
    a == [] || (b != [] && ((a[0] == b[0] && Subseq(a[1..], b[1..])) || Subseq(a, b[1..])))
  }

  lemma {:induction false} SubseqLength<T>(a: seq<T>, b: seq<T>)
    requires Subseq(a, b)
    ensures |a| <= |b|
    decreases |b|
  {
    if a != [] {
      if a[0] == b[0] && Subseq(a[1..], b[1..]) {
        SubseqLength(a[1..], b[1..]);
      } else {
        SubseqLength(a, b[1..]);
      }
    }
  }

  lemma {:induction false} SubseqReflexive<T>(a: seq<T>)
    ensures Subseq(a, a)
  {
    if a != [] {
      SubseqReflexive(a[1..]);
    }
  }

  lemma {:induction false} SubseqTransitive<T>(a: seq<T>, b: seq<T>, c: seq<T>)
    requires Subseq(a, b) && Subseq(b, c)
    ensures Subseq(a, c)
    decreases |c|
  {
    if a != [] {
      assert b != [] && c != [];
      if Subseq(b, c[1..]) {
        SubseqTransitive(a, b, c[1..]);
      } else {
        assert b[0] == c[0] && Subseq(b[1..], c[1..]);
        if a[0] == b[0] && Subseq(a[1..], b[1..]) {
          SubseqTransitive(a[1..], b[1..], c[1..]);
        } else {
          SubseqTransitive(a, b[1..], c[1..]);
        }
      }
    }
  }

  /** Deleting entities deletes their tags: scores and labels keep their order. */
  lemma {:induction false} SubseqTags(a: seq<Entity>, b: seq<Entity>)
    requires Subseq(a, b)
    ensures Subseq(Tags(a), Tags(b))
    decreases |b|
  {
    if a != [] {
      if a[0] == b[0] && Subseq(a[1..], b[1..]) {
        SubseqTags(a[1..], b[1..]);
      } else {
        SubseqTags(a, b[1..]);
      }
    }
  }

  /** Replacing only the word of one entity leaves the tags as they were. */
  lemma RewordKeepsTags(es: seq<Entity>, k: nat, w: string)
    requires k < |es|
    ensures Tags(es[k := es[k].(word := w)]) == Tags(es)
  {
  }
}
