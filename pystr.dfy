/** The two Python string builtins the authentication gateway relies on:
    str.split() with no separator (split on runs of whitespace, dropping
    leading and trailing whitespace) and str.lower(). */
module PyStr {

  /** The characters for which Python's str.isspace() holds; these are the
      separators str.split() uses when it is given no argument. */
  predicate IsSpace(c: char)
  {
    || ('\t' <= c <= '\r')              // \t \n \x0b \x0c \r
    || ('\U{1C}' <= c <= ' ')           // \x1c-\x1f and the space
    || c == '\U{85}' || c == '\U{A0}' || c == '\U{1680}'
    || ('\U{2000}' <= c <= '\U{200A}')
    || c == '\U{2028}' || c == '\U{2029}' || c == '\U{202F}' || c == '\U{205F}' || c == '\U{3000}'
  }

  /** A non-empty run of non-whitespace characters: what str.split() yields. */
  predicate IsWord(w: string)
  {
    |w| > 0 && forall i :: 0 <= i < |w| ==> !IsSpace(w[i])
  }

  predicate AllSpace(s: string)
  {
    forall i :: 0 <= i < |s| ==> IsSpace(s[i])
  }

  /** Length of the longest whitespace-free prefix of s. */
  function WordLength(s: string): (n: nat)
    ensures n <= |s|
    ensures forall i :: 0 <= i < n ==> !IsSpace(s[i])
    ensures n < |s| ==> IsSpace(s[n])
  {
    if s == [] || IsSpace(s[0]) then 0 else 1 + WordLength(s[1..])
  }

  /** str.split(): the maximal whitespace-free runs of s, in order. */
  function Split(s: string): (parts: seq<string>)
    ensures forall i :: 0 <= i < |parts| ==> IsWord(parts[i])
    decreases |s|
  {
    if s == [] then []
    else if IsSpace(s[0]) then Split(s[1..])
    else
      var n := WordLength(s);
      [s[..n]] + Split(s[n..])
  }

  /** ' '.join(words): the words separated by single spaces. */
  function Join(words: seq<string>): string
  {
    if |words| == 0 then ""
    else if |words| == 1 then words[0]
    else words[0] + " " + Join(words[1..])
  }

  /** A string made only of whitespace splits into nothing at all. */
  lemma {:induction false} SplitAllSpace(s: string)
    requires AllSpace(s)
    ensures Split(s) == []
    decreases |s|
  {
    if s != [] {
      SplitAllSpace(s[1..]);
    }
  }

  /** A word followed by nothing, or by whitespace, is split off whole. */
  lemma SplitWordThen(w: string, rest: string)
    requires IsWord(w)
    requires rest == [] || IsSpace(rest[0])
    ensures Split(w + rest) == [w] + Split(rest)
  {
    var s := w + rest;
    WordLengthOfWord(w, rest);
    assert s[..|w|] == w && s[|w|..] == rest;
  }

  lemma {:induction false} WordLengthOfWord(w: string, rest: string)
    requires forall i :: 0 <= i < |w| ==> !IsSpace(w[i])
    requires rest == [] || IsSpace(rest[0])
    ensures WordLength(w + rest) == |w|
    decreases |w|
  {
    if w != [] {
      assert (w + rest)[1..] == w[1..] + rest;
      WordLengthOfWord(w[1..], rest);
    }
  }

  /** Splitting words joined by single spaces gives the words back. */
  lemma {:induction false} SplitJoin(words: seq<string>)
    requires forall i :: 0 <= i < |words| ==> IsWord(words[i])
    ensures Split(Join(words)) == words
  {
    if |words| == 1 {
      SplitWordThen(words[0], []);
      assert words[0] + [] == words[0];
    } else if |words| > 1 {
      var tail := Join(words[1..]);
      SplitWordThen(words[0], " " + tail);
      assert words[0] + " " + tail == words[0] + (" " + tail);
      assert Split(" " + tail) == Split(tail) by {
        assert (" " + tail)[1..] == tail;
      }
      SplitJoin(words[1..]);
    }
  }

  // ----- Split as the maximal runs of s: words separated by whitespace gaps -----

  /** gaps[0] + words[0] + gaps[1] + ... + words[n-1] + gaps[n]. */
  function Interleave(gaps: seq<string>, words: seq<string>): string
    requires |gaps| == |words| + 1
  {
    if words == [] then gaps[0] else gaps[0] + words[0] + Interleave(gaps[1..], words[1..])
  }

  /** Whitespace gaps around and between words: the outer two may be empty,
      the inner ones may not. */
  predicate IsGapSequence(gaps: seq<string>)
  {
    && |gaps| >= 1
    && (forall i :: 0 <= i < |gaps| ==> AllSpace(gaps[i]))
    && (forall i :: 0 < i < |gaps| - 1 ==> gaps[i] != [])
  }

  /** The whitespace that str.split() drops from s: the run before the first
      word, the runs between words, and the run after the last word. */
  function SplitGaps(s: string): (gaps: seq<string>)
    ensures |gaps| == |Split(s)| + 1
    ensures IsGapSequence(gaps)
    ensures s != [] && IsSpace(s[0]) ==> gaps[0] != []
    decreases |s|
  {
    if s == [] then [""]
    else if IsSpace(s[0]) then
      var rest := SplitGaps(s[1..]);
      [[s[0]] + rest[0]] + rest[1..]
    else
      [""] + SplitGaps(s[WordLength(s)..])
  }

  /** Every string is its split words put back between the gaps SplitGaps
      finds: no character is dropped, added or moved. */
  lemma {:induction false} SplitReassembles(s: string)
    ensures Interleave(SplitGaps(s), Split(s)) == s
    decreases |s|
  {
    if s == [] {
    } else if IsSpace(s[0]) {
      var t := s[1..];
      SplitReassembles(t);
      assert Split(s) == Split(t);
      InterleaveWiderFirstGap(s[0], SplitGaps(t), Split(t));
      assert [s[0]] + t == s;
    } else {
      var n := WordLength(s);
      var w, t := s[..n], s[n..];
      SplitReassembles(t);
      assert SplitGaps(s) == [""] + SplitGaps(t);
      assert Split(s) == [w] + Split(t);
      InterleaveLeadingWord(w, SplitGaps(t), Split(t));
      assert w + t == s;
    }
  }

  /** One more character at the front of the first gap is one more
      character at the front of the whole string. */
  lemma InterleaveWiderFirstGap(c: char, gaps: seq<string>, words: seq<string>)
    requires |gaps| == |words| + 1
    ensures Interleave([[c] + gaps[0]] + gaps[1..], words) == [c] + Interleave(gaps, words)
  {
    var wider := [[c] + gaps[0]] + gaps[1..];
    assert wider[0] == [c] + gaps[0] && wider[1..] == gaps[1..];
    if words != [] {
      assert [c] + gaps[0] + words[0] + Interleave(gaps[1..], words[1..])
          == [c] + (gaps[0] + words[0] + Interleave(gaps[1..], words[1..]));
    }
  }

  /** A word with an empty gap before it is simply put in front. */
  lemma InterleaveLeadingWord(w: string, gaps: seq<string>, words: seq<string>)
    requires |gaps| == |words| + 1
    ensures Interleave([""] + gaps, [w] + words) == w + Interleave(gaps, words)
  {
    assert ([""] + gaps)[1..] == gaps && ([w] + words)[1..] == words;
    assert "" + w == w;
  }

  /** A string of whitespace gaps and words splits into exactly those words. */
  lemma {:induction false} SplitInterleave(gaps: seq<string>, words: seq<string>)
    requires |gaps| == |words| + 1
    requires IsGapSequence(gaps)
    requires forall i :: 0 <= i < |words| ==> IsWord(words[i])
    ensures Split(Interleave(gaps, words)) == words
    decreases |words|
  {
    if words == [] {
      SplitAllSpace(gaps[0]);
    } else {
      var rest := Interleave(gaps[1..], words[1..]);
      assert IsGapSequence(gaps[1..]);
      SplitInterleave(gaps[1..], words[1..]);
      assert rest == [] || IsSpace(rest[0]) by {
        if words[1..] != [] {
          assert gaps[1] != [];
          assert rest == gaps[1] + (words[1] + Interleave(gaps[2..], words[2..]));
        } else {
          assert rest == gaps[1];
        }
      }
      SplitWordThen(words[0], rest);
      SkipSpaceSplit(gaps[0], words[0] + rest);
      assert gaps[0] + words[0] + rest == gaps[0] + (words[0] + rest);
    }
  }

  /** Leading whitespace does not change what a string splits into. */
  lemma {:induction false} SkipSpaceSplit(g: string, s: string)
    requires AllSpace(g)
    ensures Split(g + s) == Split(s)
    decreases |g|
  {
    if g == [] {
      assert g + s == s;
    } else {
      assert (g + s)[0] == g[0] && (g + s)[1..] == g[1..] + s;
      SkipSpaceSplit(g[1..], s);
    }
  }

  /** Two words with any leading and trailing whitespace and a non-empty run
      of whitespace between them split into exactly those two words. */
  lemma SplitTwoWords(before: string, first: string, between: string, second: string, after: string)
    requires AllSpace(before) && AllSpace(between) && AllSpace(after) && between != []
    requires IsWord(first) && IsWord(second)
    ensures Split(before + first + between + second + after) == [first, second]
  {
    var gaps, words := [before, between, after], [first, second];
    assert IsGapSequence(gaps);
    assert Interleave(gaps[2..], words[2..]) == after;
    assert Interleave(gaps[1..], words[1..]) == between + second + after;
    assert Interleave(gaps, words) == before + first + (between + second + after);
    assert before + first + between + second + after == before + first + (between + second + after);
    SplitInterleave(gaps, words);
  }

  /** A string that splits into two words is those two words with a
      non-empty whitespace gap between them and whitespace around them. */
  lemma SplitTwoShape(s: string)
    requires |Split(s)| == 2
    ensures var parts, gaps := Split(s), SplitGaps(s);
            && |gaps| == 3
            && s == gaps[0] + parts[0] + gaps[1] + parts[1] + gaps[2]
            && AllSpace(gaps[0]) && AllSpace(gaps[1]) && AllSpace(gaps[2]) && gaps[1] != []
  {
    var parts, gaps := Split(s), SplitGaps(s);
    SplitReassembles(s);
    assert Interleave(gaps[2..], parts[2..]) == gaps[2];
    assert Interleave(gaps[1..], parts[1..]) == gaps[1] + parts[1] + gaps[2];
    assert s == gaps[0] + parts[0] + (gaps[1] + parts[1] + gaps[2]);
  }

  /** Python's str.lower() restricted to what can matter when the result is
      compared with an ASCII lower-case word: A-Z become a-z. */
  function LowerChar(c: char): char
  {
    if 'A' <= c <= 'Z' then (c as int + ('a' as int - 'A' as int)) as char else c
  }

  /** str.lower(), character by character. */
  function Lower(s: string): (r: string)
    ensures |r| == |s|
    ensures forall i :: 0 <= i < |s| ==> r[i] == LowerChar(s[i])
  {
    if s == [] then [] else [LowerChar(s[0])] + Lower(s[1..])
  }

  /** A character lower-cases to a lower-case ASCII letter exactly when it is
      that letter or the same letter in upper case. */
  lemma LowerCharIs(c: char, lower: char, upper: char)
    requires 'a' <= lower <= 'z' && upper as int == lower as int - 32
    ensures LowerChar(c) == lower <==> c == lower || c == upper
  {
  }

  /** A string lower-cases to a given lower-case ASCII word exactly when each
      of its characters is that word's letter or the same letter in upper case. */
  lemma LowerEqualsIff(s: string, lower: string, upper: string)
    requires |lower| == |upper|
    requires forall i :: 0 <= i < |lower| ==> 'a' <= lower[i] <= 'z' && upper[i] as int == lower[i] as int - 32
    ensures Lower(s) == lower <==> |s| == |lower| && forall i :: 0 <= i < |s| ==> s[i] == lower[i] || s[i] == upper[i]
  {
    if |s| == |lower| {
      forall i | 0 <= i < |s|
        ensures Lower(s)[i] == lower[i] <==> s[i] == lower[i] || s[i] == upper[i]
      {
        LowerCharIs(s[i], lower[i], upper[i]);
      }
    }
  }
}
