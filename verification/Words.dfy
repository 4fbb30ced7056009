/** White-space separated words, and splitting a text after its sentences. */
module Words {
  import opened Text

  function WordEnd(s: string): (n: nat)
    ensures n <= |s|
    ensures forall k :: 0 <= k < n ==> !IsSpace(s[k])
    ensures n < |s| ==> IsSpace(s[n])
    ensures s != "" && !IsSpace(s[0]) ==> n > 0
  {
    if s != "" && !IsSpace(s[0]) then 1 + WordEnd(s[1..]) else 0
  }

  /** `s.split()`. */
  function WordsOf(s: string): seq<string>
    decreases |s|
  {
    if s == "" then []
    else if IsSpace(s[0]) then WordsOf(s[1..])
    else [s[..WordEnd(s)]] + WordsOf(s[WordEnd(s)..])
  }

  function AllWords(pieces: seq<string>): seq<string> {
    if pieces == [] then [] else WordsOf(pieces[0]) + AllWords(pieces[1..])
  }

  lemma {:induction false} WordEndStops(a: string, gap: string, b: string)
    requires gap != "" && IsSpace(gap[0])
    ensures WordEnd(a + gap + b) == WordEnd(a)
  {
    var s := a + gap + b;
    if a != "" && !IsSpace(a[0]) {
      assert s[1..] == a[1..] + gap + b;
      WordEndStops(a[1..], gap, b);
    }
  }

  /** A white-space character never stands inside a word. */
  lemma {:induction false} WordsAcross(a: string, gap: char, b: string)
    requires IsSpace(gap)
    ensures WordsOf(a + [gap] + b) == WordsOf(a) + WordsOf(b)
    decreases |a|
  {
    hide IsSpace;
    var s := a + [gap] + b;
    if a == "" {
      assert s[1..] == b;
    } else if IsSpace(a[0]) {
      assert s[1..] == a[1..] + [gap] + b;
      WordsAcross(a[1..], gap, b);
    } else {
      WordEndStops(a, [gap], b);
      var n := WordEnd(a);
      assert s[n..] == a[n..] + [gap] + b;
      assert s[..n] == a[..n];
      WordsAcross(a[n..], gap, b);
      assert [a[..n]] + (WordsOf(a[n..]) + WordsOf(b)) == [a[..n]] + WordsOf(a[n..]) + WordsOf(b);
    }
  }

  // --- Sentences ---

  /** The space at `i` follows a full stop, an exclamation or a question mark. */
  predicate Cuts(s: string, i: nat)
    requires i < |s|
  {
    i > 0 && s[i] == ' ' && s[i - 1] in ".!?"
  }

  function NextCut(s: string, i: nat): (c: nat)
    requires i <= |s|
    ensures i <= c <= |s|
    ensures c < |s| ==> Cuts(s, c)
    ensures forall k :: i <= k < c ==> !Cuts(s, k)
    decreases |s| - i
  {
    if i == |s| || Cuts(s, i) then i else NextCut(s, i + 1)
  }

  /** `s[start..]` split at every cut. */
  function Sentences(s: string, start: nat): (pieces: seq<string>)
    requires start <= |s|
    ensures pieces != []
    decreases |s| - start
  {
    var c := NextCut(s, start);
    if c == |s| then [s[start..]] else [s[start..c]] + Sentences(s, c + 1)
  }

  lemma CutIsSpace(s: string, c: nat)
    requires c < |s| && Cuts(s, c)
    ensures IsSpace(s[c])
  {
  }

  /** Splitting into sentences loses and reorders no word. */
  lemma {:induction false} SentencesKeepWords(s: string, start: nat)
    requires start <= |s|
    ensures AllWords(Sentences(s, start)) == WordsOf(s[start..])
    decreases |s| - start
  {
    hide WordsOf, IsSpace;
    var c := NextCut(s, start);
    if c == |s| {
      assert WordsOf(s[start..]) + [] == WordsOf(s[start..]);
    } else {
      SentencesKeepWords(s, c + 1);
      assert s[start..] == s[start..c] + [s[c]] + s[c + 1..];
      CutIsSpace(s, c);
      WordsAcross(s[start..c], s[c], s[c + 1..]);
      assert ([s[start..c]] + Sentences(s, c + 1))[1..] == Sentences(s, c + 1);
    }
  }

  // --- Joining words ---

  predicate IsWord(w: string) {
    w != "" && forall k :: 0 <= k < |w| ==> !IsSpace(w[k])
  }

  lemma {:induction false} WordsAreWords(s: string)
    ensures forall k :: 0 <= k < |WordsOf(s)| ==> IsWord(WordsOf(s)[k])
    decreases |s|
  {
    hide IsSpace;
    if s != "" {
      if IsSpace(s[0]) {
        WordsAreWords(s[1..]);
      } else {
        WordsAreWords(s[WordEnd(s)..]);
        assert IsWord(s[..WordEnd(s)]);
      }
    }
  }

  lemma {:induction false} WholeWord(w: string)
    requires IsWord(w)
    ensures WordsOf(w) == [w]
  {
    assert w[..|w|] == w && w[|w|..] == "";
  }

  /** Splitting inverts joining words with single spaces. */
  lemma {:induction false} WordsOfJoined(words: seq<string>)
    requires forall k :: 0 <= k < |words| ==> IsWord(words[k])
    ensures WordsOf(Join(words, ' ')) == words
  {
    if |words| == 1 {
      WholeWord(words[0]);
    } else if |words| > 1 {
      WholeWord(words[0]);
      WordsOfJoined(words[1..]);
      WordsAcross(words[0], ' ', Join(words[1..], ' '));
      assert words == [words[0]] + words[1..];
    }
  }
}
