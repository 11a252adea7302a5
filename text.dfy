/** The string operations the recommender relies on: Python's substring test,
    `' '.join(...)` and whitespace splitting `str.split()`. */
module Text {

  /** Python's `str.isspace` for one character: the separators `str.split()` uses. */
  predicate IsSpace(c: char)
  {
    var n := c as int;
    n == 0x20 || 0x09 <= n <= 0x0D || 0x1C <= n <= 0x1F || n == 0x85 || n == 0xA0
    || n == 0x1680 || 0x2000 <= n <= 0x200A || n == 0x2028 || n == 0x2029
    || n == 0x202F || n == 0x205F || n == 0x3000
  }

  /** A token of `str.split()`: non-empty and free of whitespace. */
  predicate IsWord(w: string)
  {
    |w| > 0 && forall j :: 0 <= j < |w| ==> !IsSpace(w[j])
  }

  /** `needle in hay` for Python strings (every string contains ""). */
  predicate Contains(hay: string, needle: string)
    decreases |hay|
  {
    needle <= hay || (|hay| > 0 && Contains(hay[1..], needle))
  }

  /** The needle occurs in the hay starting at position i. */
  predicate OccursAt(hay: string, i: int, needle: string)
  {
    0 <= i <= |hay| - |needle| && hay[i..i + |needle|] == needle
  }

  /** Contains holds exactly when the needle occurs at some position of the hay. */
  lemma {:induction false} ContainsIff(hay: string, needle: string)
    ensures Contains(hay, needle) <==> exists i :: OccursAt(hay, i, needle)
    decreases |hay|
  {
    if Contains(hay, needle) {
      if needle <= hay {
        assert OccursAt(hay, 0, needle);
      } else {
        ContainsIff(hay[1..], needle);
        var i :| OccursAt(hay[1..], i, needle);
        assert OccursAt(hay, i + 1, needle);
      }
    }
    if exists i :: OccursAt(hay, i, needle) {
      var i :| OccursAt(hay, i, needle);
      ContainsAt(hay, i, needle);
    }
  }

  lemma {:induction false} ContainsAt(hay: string, i: nat, needle: string)
    requires OccursAt(hay, i, needle)
    ensures Contains(hay, needle)
    decreases i
  {
    if i == 0 {
      assert needle == hay[..|needle|];
    } else {
      assert OccursAt(hay[1..], i - 1, needle);
      ContainsAt(hay[1..], i - 1, needle);
    }
  }

  /** Text found in a suffix is found in the whole string. */
  lemma {:induction false} ContainsInSuffix(prefix: string, s: string, needle: string)
    requires Contains(s, needle)
    ensures Contains(prefix + s, needle)
    decreases |prefix|
  {
    if |prefix| > 0 {
      assert (prefix + s)[1..] == prefix[1..] + s;
      ContainsInSuffix(prefix[1..], s, needle);
      assert Contains((prefix + s)[1..], needle);
    } else {
      assert prefix + s == s;
    }
  }

  /** Python's `' '.join(words)`. */
  function JoinSpace(words: seq<string>): string
  {
    if |words| == 0 then ""
    else if |words| == 1 then words[0]
    else words[0] + " " + JoinSpace(words[1..])
  }

  /** Every joined word can be found again in the joined string. */
  lemma {:induction false} JoinContainsWord(words: seq<string>, k: nat)
    requires k < |words|
    ensures Contains(JoinSpace(words), words[k])
    decreases |words|
  {
    if k == 0 {
      ContainsAt(JoinSpace(words), 0, words[0]);
    } else {
      JoinContainsWord(words[1..], k - 1);
      ContainsInSuffix(words[0] + " ", JoinSpace(words[1..]), words[k]);
      assert JoinSpace(words) == (words[0] + " ") + JoinSpace(words[1..]);
    }
  }

  /** The end of the run of non-space characters that starts at i. */
  function WordEnd(s: string, i: nat): (k: nat)
    requires i <= |s|
    ensures i <= k <= |s|
    ensures forall j :: i <= j < k ==> !IsSpace(s[j])
    ensures k == |s| || IsSpace(s[k])
    decreases |s| - i
  {
    if i == |s| || IsSpace(s[i]) then i else WordEnd(s, i + 1)
  }

  /** Python's `s.split()`: the maximal runs of non-whitespace characters, in order. */
  function Tokens(s: string): seq<string>
    decreases |s|
  {
    if |s| == 0 then []
    else if IsSpace(s[0]) then Tokens(s[1..])
    else
      var k := WordEnd(s, 0);
      [s[..k]] + Tokens(s[k..])
  }

  /** Every token is a word occurring in the split string. */
  lemma {:induction false} TokensAreWords(s: string)
    ensures forall t :: t in Tokens(s) ==> IsWord(t) && Contains(s, t)
    decreases |s|
  {
    if |s| > 0 {
      if IsSpace(s[0]) {
        TokensAreWords(s[1..]);
        assert s == [s[0]] + s[1..];
        forall t | t in Tokens(s[1..]) ensures Contains(s, t) {
          ContainsInSuffix([s[0]], s[1..], t);
        }
      } else {
        var k := WordEnd(s, 0);
        TokensAreWords(s[k..]);
        assert s == s[..k] + s[k..];
        ContainsAt(s, 0, s[..k]);
        forall t | t in Tokens(s[k..]) ensures Contains(s, t) {
          ContainsInSuffix(s[..k], s[k..], t);
        }
      }
    }
  }

  /** A word splits into itself. */
  lemma WordTokens(w: string)
    requires IsWord(w)
    ensures Tokens(w) == [w]
  {
    WordEndOfWord(w, 0);
    assert w[..|w|] == w;
    assert w[|w|..] == [];
  }

  lemma {:induction false} WordEndOfWord(w: string, i: nat)
    requires i <= |w| && forall j :: 0 <= j < |w| ==> !IsSpace(w[j])
    ensures WordEnd(w, i) == |w|
    decreases |w| - i
  {
    if i < |w| {
      WordEndOfWord(w, i + 1);
    }
  }

  lemma {:induction false} WordEndBeforeSpace(a: string, b: string, i: nat)
    requires i <= |a|
    ensures WordEnd(a + " " + b, i) == WordEnd(a, i)
    decreases |a| - i
  {
    var s := a + " " + b;
    if i == |a| {
      assert s[i] == ' ';
    } else {
      assert s[i] == a[i];
      if !IsSpace(a[i]) {
        WordEndBeforeSpace(a, b, i + 1);
      }
    }
  }

  /** A single space separates tokens: splitting `a + " " + b` splits both halves. */
  lemma {:induction false} TokensAroundSpace(a: string, b: string)
    ensures Tokens(a + " " + b) == Tokens(a) + Tokens(b)
    decreases |a|
  {
    var s := a + " " + b;
    if |a| == 0 {
      assert s[1..] == b;
    } else if IsSpace(a[0]) {
      assert s[0] == a[0];
      assert s[1..] == a[1..] + " " + b;
      TokensAroundSpace(a[1..], b);
    } else {
      assert s[0] == a[0];
      var k := WordEnd(a, 0);
      WordEndBeforeSpace(a, b, 0);
      assert s[..k] == a[..k];
      assert s[k..] == a[k..] + " " + b;
      TokensAroundSpace(a[k..], b);
    }
  }

  /** The tokens of each string of a list, concatenated in order. */
  function TokensOfEach(words: seq<string>): seq<string>
  {
    if |words| == 0 then [] else Tokens(words[0]) + TokensOfEach(words[1..])
  }

  /** Splitting a space-joined list yields the tokens of the parts, in order. */
  lemma {:induction false} JoinThenSplit(words: seq<string>)
    ensures Tokens(JoinSpace(words)) == TokensOfEach(words)
    decreases |words|
  {
    if |words| == 1 {
      assert TokensOfEach(words[1..]) == [];
    } else if |words| > 1 {
      TokensAroundSpace(words[0], JoinSpace(words[1..]));
      JoinThenSplit(words[1..]);
    }
  }

  /** The round trip: `' '.join(ws).split() == ws` when every part is a word. */
  lemma {:induction false} JoinThenSplitWords(words: seq<string>)
    requires forall k :: 0 <= k < |words| ==> IsWord(words[k])
    ensures Tokens(JoinSpace(words)) == words
  {
    JoinThenSplit(words);
    TokensOfWords(words);
  }

  lemma {:induction false} TokensOfWords(words: seq<string>)
    requires forall k :: 0 <= k < |words| ==> IsWord(words[k])
    ensures TokensOfEach(words) == words
    decreases |words|
  {
    if |words| > 0 {
      WordTokens(words[0]);
      TokensOfWords(words[1..]);
    }
  }
}
