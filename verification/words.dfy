/** Texts as words between separators, and texts within texts. */
module Words {

  predicate Includes(text: string, part: string) {
    exists i | 0 <= i <= |text| :: part <= text[i..]
  }

  /** One text is in another exactly if something before and something after make it the other. */
  lemma {:induction false} IncludesIff(text: string, part: string)
    ensures Includes(text, part) <==> exists before, after :: text == before + part + after
  {
    if Includes(text, part) {
      var i :| 0 <= i <= |text| && part <= text[i..];
      assert text == text[..i] + part + text[i + |part|..];
    }
    if before, after :| text == before + part + after {
      assert text[|before|..] == part + after;
      assert part <= text[|before|..];
    }
  }

  /** The nonempty runs of other characters between separators, from left to right. */
  function Split(text: string, separates: char -> bool, word: string): seq<string> {
    if text == [] then (if word == [] then [] else [word])
    else if separates(text[0]) then (if word == [] then [] else [word]) + Split(text[1..], separates, [])
    else Split(text[1..], separates, word + [text[0]])
  }

  /** The gaps and the words in turn, a gap first and last. */
  function Weave(words: seq<string>, gaps: seq<string>): string
    requires |gaps| == |words| + 1
  {
    if words == [] then gaps[0] else gaps[0] + words[0] + Weave(words[1..], gaps[1..])
  }

  predicate IsWord(w: string, separates: char -> bool) { w != [] && forall i | 0 <= i < |w| :: !separates(w[i]) }

  predicate IsGap(g: string, separates: char -> bool) { forall i | 0 <= i < |g| :: separates(g[i]) }

  /** Words are nonempty and without separators, gaps are made of them, and only the outer gaps may be empty. */
  ghost predicate Woven(words: seq<string>, gaps: seq<string>, separates: char -> bool) {
    && |gaps| == |words| + 1
    && (forall i | 0 <= i < |words| :: IsWord(words[i], separates))
    && (forall i | 0 <= i < |gaps| :: IsGap(gaps[i], separates))
    && (forall i | 0 < i < |words| :: gaps[i] != [])
  }

  lemma {:induction false} SplitGap(gap: string, rest: string, separates: char -> bool)
    requires IsGap(gap, separates)
    ensures Split(gap + rest, separates, []) == Split(rest, separates, [])
  {
    if gap == [] {
      assert gap + rest == rest;
    } else {
      assert (gap + rest)[0] == gap[0] && (gap + rest)[1..] == gap[1..] + rest;
      assert IsGap(gap[1..], separates);
      SplitGap(gap[1..], rest, separates);
    }
  }

  lemma {:induction false} SplitWord(w: string, rest: string, separates: char -> bool, before: string)
    requires forall i | 0 <= i < |w| :: !separates(w[i])
    ensures Split(w + rest, separates, before) == Split(rest, separates, before + w)
  {
    if w == [] {
      assert w + rest == rest && before + w == before;
    } else {
      assert (w + rest)[0] == w[0] && (w + rest)[1..] == w[1..] + rest;
      SplitWord(w[1..], rest, separates, before + [w[0]]);
      assert before + [w[0]] + w[1..] == before + w;
    }
  }

  lemma {:induction false} WovenRest(words: seq<string>, gaps: seq<string>, separates: char -> bool)
    requires Woven(words, gaps, separates) && words != []
    ensures Woven(words[1..], gaps[1..], separates)
  {
    assert forall i | 0 <= i < |words[1..]| :: IsWord(words[1..][i], separates);
    assert forall i | 0 <= i < |gaps[1..]| :: IsGap(gaps[1..][i], separates);
  }

  /** The separator that ends a word. */
  lemma {:induction false} SplitAfterWord(w: string, words: seq<string>, gaps: seq<string>, separates: char -> bool)
    requires IsWord(w, separates) && Woven(words, gaps, separates) && (words != [] ==> gaps[0] != [])
    ensures Split(Weave(words, gaps), separates, w) == [w] + Split(Weave(words, gaps), separates, [])
  {
    var text := Weave(words, gaps);
    if text != [] {
      assert IsGap(gaps[0], separates) && text[0] == gaps[0][0];
      assert Split(text, separates, []) == [] + Split(text[1..], separates, []);
    }
  }

  /** Splitting gives exactly the words that a text is woven of. */
  lemma {:induction false} SplitReadsWords(words: seq<string>, gaps: seq<string>, separates: char -> bool)
    requires Woven(words, gaps, separates)
    ensures Split(Weave(words, gaps), separates, []) == words
  {
    if words == [] {
      SplitGap(gaps[0], [], separates);
      assert gaps[0] + [] == gaps[0];
    } else {
      var rest := Weave(words[1..], gaps[1..]);
      assert IsWord(words[0], separates) && IsGap(gaps[0], separates);
      WovenRest(words, gaps, separates);
      SplitReadsWords(words[1..], gaps[1..], separates);
      assert gaps[0] + words[0] + rest == gaps[0] + (words[0] + rest);
      SplitGap(gaps[0], words[0] + rest, separates);
      SplitWord(words[0], rest, separates, []);
      assert [] + words[0] == words[0];
      SplitAfterWord(words[0], words[1..], gaps[1..], separates);
    }
  }

  /** And every text is woven of words and gaps. */
  lemma {:induction false} EveryTextIsWoven(text: string, separates: char -> bool)
    returns (words: seq<string>, gaps: seq<string>)
    ensures Woven(words, gaps, separates) && Weave(words, gaps) == text
  {
    if text == [] {
      words, gaps := [], [[]];
    } else {
      var ws, gs := EveryTextIsWoven(text[1..], separates);
      var c := text[0];
      assert text == [c] + text[1..];
      if separates(c) {
        words, gaps := ws, [[c] + gs[0]] + gs[1..];
        assert IsGap(gs[0], separates);
        forall i | 0 <= i < |gaps| ensures IsGap(gaps[i], separates) { if i > 0 { assert gaps[i] == gs[i]; } }
        assert gaps[1..] == gs[1..];
      } else if ws != [] && gs[0] == [] {
        words, gaps := [[c] + ws[0]] + ws[1..], gs;
        assert IsWord(ws[0], separates);
        forall i | 0 <= i < |words| ensures IsWord(words[i], separates) { if i > 0 { assert words[i] == ws[i]; } }
        assert words[1..] == ws[1..];
      } else {
        words, gaps := [[c]] + ws, [[]] + gs;
        forall i | 0 <= i < |words| ensures IsWord(words[i], separates) { if i > 0 { assert words[i] == ws[i - 1]; } }
        forall i | 0 <= i < |gaps| ensures IsGap(gaps[i], separates) { if i > 0 { assert gaps[i] == gs[i - 1]; } }
        assert words[1..] == ws && gaps[1..] == gs;
      }
    }
  }
}
