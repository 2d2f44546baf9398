/** The words of a trie and their prefixes, as values: what the state of an
    Aho-Corasick automaton spells after reading a text, and which occurrences of
    the words its `leaf` fields report. */
module WordPrefixes {
  type Byte = b: int | 0 <= b < 256
  type Word = seq<Byte>

  /** The strings that label a node of the trie: the prefixes of the words. */
  ghost predicate IsNode(words: set<Word>, p: Word) {
    p == [] || exists w :: w in words && p <= w
  }

  ghost predicate IsSuffix(s: Word, t: Word) {
    |s| <= |t| && t[|t| - |s|..] == s
  }

  /** The longest suffix of `t` that labels a node. */
  ghost function Longest(words: set<Word>, t: Word): (s: Word)
    ensures |s| <= |t|
  {
    if IsNode(words, t) then t else Longest(words, t[1..])
  }

  lemma {:induction false} LongestIsLongest(words: set<Word>, t: Word)
    ensures var s := Longest(words, t);
            && IsNode(words, s) && IsSuffix(s, t)
            && forall u :: IsSuffix(u, t) && IsNode(words, u) ==> |u| <= |s|
  {
    if !IsNode(words, t) {
      var s := Longest(words, t[1..]);
      LongestIsLongest(words, t[1..]);
      forall u | IsSuffix(u, t) && IsNode(words, u) ensures |u| <= |s| {
        assert t[1..][|t| - 1 - |u|..] == t[|t| - |u|..];
      }
      assert t[|t| - |s|..] == t[1..][|t| - 1 - |s|..];
    }
  }

  lemma SuffixUnique(s: Word, u: Word, t: Word)
    requires IsSuffix(s, t) && IsSuffix(u, t) && |s| == |u|
    ensures s == u
  {
  }

  lemma SuffixOfSuffix(s: Word, u: Word, t: Word)
    requires IsSuffix(s, t) && IsSuffix(u, t) && |s| <= |u|
    ensures IsSuffix(s, u)
  {
  }

  lemma PrefixOfNode(words: set<Word>, p: Word, c: Byte)
    requires IsNode(words, p + [c])
    ensures IsNode(words, p)
  {
  }

  /** Reading one more character only needs the node reached so far: longer
      suffixes of the text cannot become nodes again. */
  lemma {:induction false} LongestExtend(words: set<Word>, t: Word, c: Byte)
    ensures Longest(words, t + [c]) == Longest(words, Longest(words, t) + [c])
  {
    if !IsNode(words, t) {
      if IsNode(words, t + [c]) {
        PrefixOfNode(words, t, c);
      }
      assert (t + [c])[1..] == t[1..] + [c];
      LongestExtend(words, t[1..], c);
    }
  }

  /** The step along a `fail` link: when `p` does not extend by `c`, going on from
      the longest suffix of `p` that is a node loses nothing. */
  lemma LongestFail(words: set<Word>, p: Word, c: Byte)
    requires p != [] && !IsNode(words, p + [c])
    ensures Longest(words, p + [c]) == Longest(words, Longest(words, p[1..]) + [c])
  {
    assert (p + [c])[1..] == p[1..] + [c];
    LongestExtend(words, p[1..], c);
  }

  /** What the automaton reports after `text`: the `leaf` field of its node, that
      is the depth of the node when the node is a word and 0 otherwise. */
  ghost function Report(words: set<Word>, text: Word): nat {
    var s := Longest(words, text);
    if s in words then |s| else 0
  }

  /** A nonzero report r: the last r characters are a word, and no longer word
      ends here. A zero report: the node reached is not a word. */
  lemma ReportIsLongestWord(words: set<Word>, text: Word)
    requires [] !in words
    ensures var r := Report(words, text);
            && r <= |text|
            && (r > 0 ==> text[|text| - r..] in words)
            && (r > 0 ==> forall w :: w in words && IsSuffix(w, text) ==> |w| <= r)
            && (r == 0 <==> Longest(words, text) !in words)
  {
  }

  /** Exactly which occurrences are reported: a word that ends the text is reported
      if and only if no longer suffix of the text is a prefix of some word. */
  lemma ReportedOccurrence(words: set<Word>, text: Word, w: Word)
    requires w in words && w != [] && IsSuffix(w, text)
    ensures Report(words, text) == |w| <==>
            forall u :: IsSuffix(u, text) && IsNode(words, u) ==> |u| <= |w|
  {
    var s := Longest(words, text);
    LongestIsLongest(words, text);
    assert IsNode(words, w);
    if forall u :: IsSuffix(u, text) && IsNode(words, u) ==> |u| <= |w| {
      SuffixUnique(s, w, text);
    }
  }

  ghost predicate OccursAt(w: Word, u: Word, k: nat) {
    k + |w| <= |u| && u[k..k + |w|] == w
  }

  /** No word occurs inside a word anywhere but at its beginning. */
  ghost predicate NoInnerWord(words: set<Word>) {
    forall w, u, k: nat :: w in words && u in words && k > 0 ==> !OccursAt(w, u, k)
  }

  /** Every occurrence of every word is reported at its last character. */
  ghost predicate ReportsEveryOccurrence(words: set<Word>) {
    forall text, w :: w in words && IsSuffix(w, text) ==> Report(words, text) == |w|
  }

  /** The matcher misses no occurrence on any text if and only if no word occurs
      inside a word at an offset other than 0. */
  lemma CompleteExactly(words: set<Word>)
    requires [] !in words
    ensures ReportsEveryOccurrence(words) <==> NoInnerWord(words)
  {
    if NoInnerWord(words) {
      forall text, w | w in words && IsSuffix(w, text)
        ensures Report(words, text) == |w|
      {
        LongestIsTheWord(words, text, w);
      }
    }
    if !NoInnerWord(words) {
      var w, u, k: nat :| w in words && u in words && k > 0 && OccursAt(w, u, k);
      var text := u[..k + |w|];
      assert IsNode(words, text);
      assert text[|text| - |w|..] == w;
      assert text[0..] == text;
      assert IsSuffix(w, text) && Report(words, text) != |w|;
    }
  }

  /** Reading 2 1 with the words 1 and 2 1 3, the word 1 ends the text and nothing is
      reported: the node reached is the longer one, for the prefix 2 1. */
  lemma MissedOccurrence()
    ensures var words: set<Word>, text: Word := {[1], [2, 1, 3]}, [2, 1];
            [1] in words && IsSuffix([1], text) && Report(words, text) == 0
  {
  }

  lemma LongestIsTheWord(words: set<Word>, text: Word, w: Word)
    requires NoInnerWord(words) && w in words && IsSuffix(w, text)
    ensures Longest(words, text) == w
  {
    var s := Longest(words, text);
    LongestIsLongest(words, text);
    assert IsNode(words, w);
    SuffixOfSuffix(w, s, text);
    if |w| < |s| {
      var u :| u in words && s <= u;
      assert u[|s| - |w|..|s|] == s[|s| - |w|..];
      assert OccursAt(w, u, |s| - |w|);
      assert false;
    }
    assert s[0..] == s;
  }

  /** Looking a key up and matching it from the root agree: the key is a word
      exactly when the report on its last character is its whole length. */
  lemma LookupIsFullReport(words: set<Word>, key: Word)
    requires key != []
    ensures key in words <==> Report(words, key) == |key|
  {
  }
}
