/** Where a known run of bytes sits inside a stream, and the facts about it that
    the decoders' proofs use. */
module ByteStreams {
  import opened JavaLang

  /** `w` sits in `s` at `pos`. */
  predicate At(s: seq<Byte>, pos: nat, w: seq<Byte>) {
    pos + |w| <= |s| && forall k {:trigger w[k]} :: 0 <= k < |w| ==> s[pos + k] == w[k]
  }

  lemma AtConcat(s: seq<Byte>, pos: nat, a: seq<Byte>, b: seq<Byte>)
    requires At(s, pos, a + b)
    ensures At(s, pos, a) && At(s, pos + |a|, b)
  {
    forall k | 0 <= k < |a| ensures s[pos + k] == a[k] {
      assert (a + b)[k] == a[k];
    }
    forall k | 0 <= k < |b| ensures s[pos + |a| + k] == b[k] {
      assert (a + b)[|a| + k] == b[k];
    }
  }

  /** `whole` followed by `tail`, where `whole` is `first` then `rest`. */
  lemma AtConcatRest(s: seq<Byte>, pos: nat, whole: seq<Byte>, first: seq<Byte>, rest: seq<Byte>,
                     tail: seq<Byte>)
    requires At(s, pos, whole + tail) && whole == first + rest
    ensures At(s, pos, first) && At(s, pos + |first|, rest + tail)
  {
    assert whole + tail == first + (rest + tail);
    AtConcat(s, pos, first, rest + tail);
  }

  lemma AtIndex(s: seq<Byte>, pos: nat, w: seq<Byte>, j: nat)
    requires At(s, pos, w) && j < |w|
    ensures s[pos + j] == w[j]
  {
  }

  lemma AtSlice(s: seq<Byte>, pos: nat, w: seq<Byte>)
    requires At(s, pos, w)
    ensures s[pos..pos + |w|] == w
  {
    assert forall k :: 0 <= k < |w| ==> s[pos..pos + |w|][k] == w[k];
  }

  lemma AtOfSlice(s: seq<Byte>, pos: nat, w: seq<Byte>)
    requires pos + |w| <= |s| && s[pos..pos + |w|] == w
    ensures At(s, pos, w)
  {
    forall k | 0 <= k < |w| ensures s[pos + k] == w[k] {
      assert s[pos..pos + |w|][k] == s[pos + k];
    }
  }
}
