/** skip_trailing_space of m_string.h: the word-at-a-time form, over absolute addresses,
    against the plain backward loop. */
module SkipSpace {
  type Byte = b: int | 0 <= b < 256

  const SPACE: Byte := 0x20

  /** SIZEOF_INT, a compile-time constant: each size gives its own linear arithmetic. */
  type WordSize = w: int | w == 4 || w == 8 witness 4

  function Words(a: nat, w: WordSize): nat { if w == 4 then a / 4 else a / 8 }

  function Times(k: nat, w: WordSize): nat { if w == 4 then 4 * k else 8 * k }

  predicate Aligned(a: nat, w: WordSize) { Times(Words(a, w), w) == a }

  /** The bytes at [start, start + |bytes|) of memory. */
  datatype Buffer = Buffer(start: nat, bytes: seq<Byte>)
  {
    function End(): nat { start + |bytes| }

    /** Reading is allowed inside the buffer only. */
    function At(a: nat): Byte
      requires start <= a < End()
    {
      bytes[a - start]
    }

    /** An int read is allowed at an aligned address, inside the buffer only. */
    function WordAt(a: nat, w: WordSize): nat
      requires Aligned(a, w) && start <= a && a + w <= End()
    {
      Value(bytes[a - start..a - start + w])
    }
  }

  /** The number a little-endian machine reads from the bytes. */
  function Value(bytes: seq<Byte>): nat {
    if bytes == [] then 0 else bytes[0] + 256 * Value(bytes[1..])
  }

  function SpaceInt(w: WordSize): nat
  {
    if w == 4 then 0x20202020 else 0x2020202020202020
  }

  ghost predicate AllSpaces(bytes: seq<Byte>) {
    forall i :: 0 <= i < |bytes| ==> bytes[i] == SPACE
  }

  lemma {:induction false} ValueInjective(a: seq<Byte>, b: seq<Byte>)
    requires |a| == |b| && Value(a) == Value(b)
    ensures a == b
  {
    if a != [] {
      ValueInjective(a[1..], b[1..]);
      assert a == [a[0]] + a[1..] && b == [b[0]] + b[1..];
    }
  }

  function Spaces(n: nat): (r: seq<Byte>)
    ensures |r| == n && AllSpaces(r)
  {
    if n == 0 then [] else [SPACE] + Spaces(n - 1)
  }

  lemma ValueOfSpaces(n: nat)
    requires n > 0
    ensures Value(Spaces(n)) == 0x20 + 256 * Value(Spaces(n - 1))
  {
  }

  /** SPACE_INT is the word full of spaces. */
  lemma SpaceIntIsSpaces(w: WordSize)
    ensures Value(Spaces(w)) == SpaceInt(w)
  {
    ValueOfSpaces(1);
    ValueOfSpaces(2);
    ValueOfSpaces(3);
    ValueOfSpaces(4);
    if w == 8 {
      ValueOfSpaces(5);
      ValueOfSpaces(6);
      ValueOfSpaces(7);
      ValueOfSpaces(8);
    }
  }

  /** A word equals SPACE_INT exactly when each of its bytes is a space. */
  lemma WordOfSpaces(bytes: seq<Byte>, w: WordSize)
    requires |bytes| == w
    ensures Value(bytes) == SpaceInt(w) <==> AllSpaces(bytes)
  {
    SpaceIntIsSpaces(w);
    if Value(bytes) == SpaceInt(w) {
      ValueInjective(bytes, Spaces(w));
    }
    if AllSpaces(bytes) {
      assert bytes == Spaces(w);
    }
  }

  /** The plain backward loop from `end` on. */
  function PlainEnd(b: Buffer, end: nat): nat
    requires b.start <= end <= b.End()
  {
    if end > b.start && b.At(end - 1) == SPACE then PlainEnd(b, end - 1) else end
  }

  /** What the loop looks for: everything after the result is spaces, and the result is
      the start of the buffer or follows another character. */
  lemma {:induction false} PlainEndSpec(b: Buffer, end: nat)
    requires b.start <= end <= b.End()
    ensures var r := PlainEnd(b, end);
            && b.start <= r <= end
            && (forall a :: r <= a < end ==> b.At(a) == SPACE)
            && (r > b.start ==> b.At(r - 1) != SPACE)
  {
    if end > b.start && b.At(end - 1) == SPACE {
      PlainEndSpec(b, end - 1);
    }
  }

  lemma {:induction false} PlainEndSkips(b: Buffer, from: nat, end: nat)
    requires b.start <= from <= end <= b.End()
    requires forall a :: from <= a < end ==> b.At(a) == SPACE
    ensures PlainEnd(b, end) == PlainEnd(b, from)
    decreases end
  {
    if from < end {
      PlainEndSkips(b, from, end - 1);
    }
  }

  /** `end_words` is `end` rounded down and `start_words` is `ptr` rounded up; both guards
      of the fast part hold when the buffer is longer than 20 bytes. */
  lemma WordZone(b: Buffer, w: WordSize)
    requires |b.bytes| > 20
    ensures var endWords, startWords := Times(Words(b.End(), w), w), Times(Words(b.start + w - 1, w), w);
            && Aligned(endWords, w) && Aligned(startWords, w)
            && b.start <= startWords < b.start + w && b.End() < endWords + w
            && b.start < endWords <= b.End() && startWords < endWords
            && Words(endWords - startWords, w) <= Words(|b.bytes|, w)
  {
  }

  method SkipTrailingSpace(b: Buffer, w: WordSize) returns (end: nat, ghost rounds: nat)
    ensures end == PlainEnd(b, b.End())
    ensures |b.bytes| > 20 && w == 4 ==> rounds <= 6 + |b.bytes| / 4
    ensures |b.bytes| > 20 && w == 8 ==> rounds <= 14 + |b.bytes| / 8
    ensures |b.bytes| <= 20 ==> rounds <= |b.bytes|
  {
    end := b.End();
    rounds := 0;
    if |b.bytes| > 20 {
      WordZone(b, w);
      var endWords := Times(Words(end, w), w);
      var startWords := Times(Words(b.start + w - 1, w), w);
      if endWords > b.start {
        while end > endWords && b.At(end - 1) == SPACE
          invariant endWords <= end <= b.End() && rounds == b.End() - end
          invariant PlainEnd(b, end) == PlainEnd(b, b.End())
        {
          end := end - 1;
          rounds := rounds + 1;
        }
        if b.At(end - 1) == SPACE && startWords < endWords {
          ghost var words;
          end, words := SkipWords(b, w, startWords, endWords);
          rounds := rounds + words;
        }
      }
    }
    PlainEndSpec(b, end);
    ghost var before, left := rounds, end - PlainEnd(b, end);
    while end > b.start && b.At(end - 1) == SPACE
      invariant b.start <= end <= b.End()
      invariant PlainEnd(b, end) == PlainEnd(b, b.End())
      invariant rounds - before + end - PlainEnd(b, end) == left
    {
      end := end - 1;
      rounds := rounds + 1;
    }
  }

  /** The loop over whole words: it stops where at most w - 1 spaces are left. */
  method SkipWords(b: Buffer, w: WordSize, startWords: nat, endWords: nat) returns (end: nat, ghost words: nat)
    requires Aligned(endWords, w) && Aligned(startWords, w)
    requires b.start <= startWords < b.start + w && startWords < endWords <= b.End()
    ensures startWords <= end <= endWords
    ensures PlainEnd(b, end) == PlainEnd(b, endWords)
    ensures words <= Words(endWords - startWords, w) && end - PlainEnd(b, end) <= w - 1
  {
    end := endWords;
    words := 0;
    WordBefore(end, startWords, w);
    while end > startWords && b.WordAt(end - w, w) == SpaceInt(w)
      invariant startWords <= end <= endWords
      invariant end > startWords ==> startWords + w <= end && Aligned(end - w, w)
      invariant PlainEnd(b, end) == PlainEnd(b, endWords)
      invariant Times(words, w) == endWords - end
    {
      SpaceWord(b, end, w);
      end := end - w;
      words := words + 1;
      WordBefore(end, startWords, w);
    }
    PlainEndSpec(b, end);
    if end > startWords {
      LastWord(b, end, w);
    }
  }

  /** Between two aligned addresses there is a whole word. */
  lemma WordBefore(end: nat, start: nat, w: WordSize)
    requires Aligned(end, w) && Aligned(start, w)
    ensures end > start ==> start + w <= end && Aligned(end - w, w)
  {
  }

  /** A word of spaces is skipped as a whole. */
  lemma SpaceWord(b: Buffer, end: nat, w: WordSize)
    requires end >= w && Aligned(end - w, w)
    requires b.start <= end - w && end <= b.End()
    requires b.WordAt(end - w, w) == SpaceInt(w)
    ensures PlainEnd(b, end) == PlainEnd(b, end - w)
  {
    var k := end - w - b.start;
    WordOfSpaces(b.bytes[k..k + w], w);
    forall a | end - w <= a < end ensures b.At(a) == SPACE {
      assert b.bytes[k..k + w][a - (end - w)] == b.At(a);
    }
    PlainEndSkips(b, end - w, end);
  }

  /** In a word that is not all spaces, the plain loop stops within w - 1 rounds. */
  lemma LastWord(b: Buffer, end: nat, w: WordSize)
    requires end >= w && Aligned(end - w, w)
    requires b.start <= end - w && end <= b.End()
    requires b.WordAt(end - w, w) != SpaceInt(w)
    ensures end - PlainEnd(b, end) <= w - 1
  {
    var word := b.bytes[end - w - b.start..end - b.start];
    WordOfSpaces(word, w);
    var i :| 0 <= i < w && word[i] != SPACE;
    assert b.At(end - w + i) == word[i];
    PlainEndSpec(b, end);
  }
}
