/**
 * `check_spelling` of rendercv/data_model.py: normalises a sentence into
 * words, asks the spell checker's dictionary about them, and warns about
 * every unknown word that is not on the allow-list. The sentence itself is
 * returned unchanged.
 */
module Spelling {

  /** Words never reported, whatever the dictionary says. */
  const AllowList: seq<string> := [
    "aerostructures", "sportsperson", "cern", "mechatronics", "calculix",
    "microcontroller", "ansys", "nx", "aselsan", "hrjet", "simularge",
    "siemens", "dynamometer", "dc"
  ]

  /** Python's `str.isspace`, which both `\s` and `str.split()` use. */
  predicate IsSpace(c: char)
  {
    c == ' ' || ('\U{9}' <= c <= '\U{D}') || ('\U{1C}' <= c <= '\U{1F}')
    || c == '\U{85}' || c == '\U{A0}' || c == '\U{1680}' || ('\U{2000}' <= c <= '\U{200A}')
    || c == '\U{2028}' || c == '\U{2029}' || c == '\U{202F}' || c == '\U{205F}' || c == '\U{3000}'
  }

  function ToLower(c: char): char
  {
    if 'A' <= c <= 'Z' then (c as int + 32) as char else c
  }

  /** `sentence.lower()`, for the ASCII letters. */
  function Lower(s: string): (r: string)
    ensures |r| == |s|
    ensures forall i :: 0 <= i < |r| ==> !('A' <= r[i] <= 'Z')
    // each capital becomes the same letter in lower case; every other character stays
    ensures forall i :: 0 <= i < |s| && 'A' <= s[i] <= 'Z' ==>
      'a' <= r[i] <= 'z' && r[i] as int - 'a' as int == s[i] as int - 'A' as int
    ensures forall i :: 0 <= i < |s| && !('A' <= s[i] <= 'Z') ==> r[i] == s[i]
  {
    seq(|s|, i requires 0 <= i < |s| => ToLower(s[i]))
  }

  /** Lower-casing works character by character, so it distributes over concatenation. */
  lemma LowerAppend(a: string, b: string)
    ensures Lower(a + b) == Lower(a) + Lower(b)
  {
    assert forall i :: 0 <= i < |a| ==> (a + b)[i] == a[i];
    assert forall i :: |a| <= i < |a| + |b| ==> (a + b)[i] == b[i - |a|];
  }

  /** Drops the run of `c` at the front. */
  function DropRun(s: string, c: char): (r: string)
    ensures |r| <= |s| && (s != [] && s[0] == c ==> |r| < |s|)
    ensures r == [] || r[0] != c
  {
    if s != [] && s[0] == c then DropRun(s[1..], c) else s
  }

  /** `re.sub(r"\-+", " ", s)`: each run of hyphens becomes one space. */
  function CollapseHyphens(s: string): (r: string)
    ensures forall i :: 0 <= i < |r| ==> r[i] != '-'
    ensures |r| <= |s|
    decreases |s|
  {
    if s == [] then []
    else if s[0] == '-' then " " + CollapseHyphens(DropRun(s, '-'))
    else [s[0]] + CollapseHyphens(s[1..])
  }

  /** `n` hyphens. */
  function Hyphens(n: nat): (r: string)
    ensures |r| == n && forall i :: 0 <= i < n ==> r[i] == '-'
  {
    if n == 0 then [] else "-" + Hyphens(n - 1)
  }

  /** A run of hyphens not followed by another hyphen is dropped as a whole. */
  lemma {:induction false} DropHyphens(n: nat, s: string)
    requires s == [] || s[0] != '-'
    ensures DropRun(Hyphens(n) + s, '-') == s
  {
    if n > 0 {
      var t := Hyphens(n - 1) + s;
      assert Hyphens(n) + s == "-" + t;
      assert ("-" + t)[1..] == t;
      DropHyphens(n - 1, s);
    } else {
      assert Hyphens(n) + s == s;
    }
  }

  /** A whole run of hyphens, however long, becomes exactly one space. */
  lemma CollapseHyphensRun(n: nat, s: string)
    requires n > 0 && (s == [] || s[0] != '-')
    ensures CollapseHyphens(Hyphens(n) + s) == " " + CollapseHyphens(s)
  {
    DropHyphens(n, s);
    assert (Hyphens(n) + s)[0] == '-';
  }

  /** Text without hyphens in front of the rest is copied through unchanged. */
  lemma {:induction false} CollapseHyphensKeepsPrefix(w: string, s: string)
    requires forall i :: 0 <= i < |w| ==> w[i] != '-'
    ensures CollapseHyphens(w + s) == w + CollapseHyphens(s)
  {
    if w == [] {
      assert w + s == s;
    } else {
      assert (w + s)[0] == w[0] && (w + s)[1..] == w[1..] + s;
      CollapseHyphensKeepsPrefix(w[1..], s);
      assert w == [w[0]] + w[1..];
    }
  }

  /** A text without hyphens is left as it is. */
  lemma {:induction false} CollapseHyphensNoHyphen(s: string)
    requires forall i :: 0 <= i < |s| ==> s[i] != '-'
    ensures CollapseHyphens(s) == s
  {
    if s != [] {
      CollapseHyphensNoHyphen(s[1..]);
    }
  }

  predicate IsWordChar(c: char)
  {
    'a' <= c <= 'z' || IsSpace(c) || c == '-' || c == '\''
  }

  /** `re.sub("[^a-z\s\-']", "", s)`: keeps lower-case letters, whitespace, hyphens and apostrophes. */
  function KeepWordChars(s: string): (r: string)
    ensures forall i :: 0 <= i < |r| ==> IsWordChar(r[i])
    ensures forall i :: 0 <= i < |r| ==> r[i] in s
  {
    if s == [] then []
    else (if IsWordChar(s[0]) then [s[0]] else []) + KeepWordChars(s[1..])
  }

  /** The filter works character by character, so it distributes over concatenation. */
  lemma {:induction false} KeepWordCharsAppend(a: string, b: string)
    ensures KeepWordChars(a + b) == KeepWordChars(a) + KeepWordChars(b)
  {
    if a == [] {
      assert a + b == b;
    } else {
      assert (a + b)[0] == a[0] && (a + b)[1..] == a[1..] + b;
      KeepWordCharsAppend(a[1..], b);
    }
  }

  /** One character is kept exactly when it is a word character. */
  lemma KeepWordCharsOne(c: char)
    ensures KeepWordChars([c]) == if IsWordChar(c) then [c] else []
  {
    assert [c][1..] == [];
  }

  /** Length of the run of non-space characters at the front. */
  function WordLength(s: string): (n: nat)
    ensures n <= |s|
    ensures forall i :: 0 <= i < n ==> !IsSpace(s[i])
    ensures n < |s| ==> IsSpace(s[n])
    ensures s != [] && !IsSpace(s[0]) ==> n > 0
  {
    if s == [] || IsSpace(s[0]) then 0 else 1 + WordLength(s[1..])
  }

  /** No character of `w` is whitespace. */
  predicate NoSpace(w: string)
  {
    forall i :: 0 <= i < |w| ==> !IsSpace(w[i])
  }

  /** Every character of `w` is a lower-case letter, an apostrophe or whitespace. */
  predicate Lettered(w: string)
  {
    forall i :: 0 <= i < |w| ==> 'a' <= w[i] <= 'z' || w[i] == '\'' || IsSpace(w[i])
  }

  /** `s.split()`: the maximal runs of non-space characters, in order. */
  function Split(s: string): (r: seq<string>)
    ensures forall k :: 0 <= k < |r| ==> r[k] != [] && NoSpace(r[k])
    decreases |s|
  {
    if s == [] then []
    else if IsSpace(s[0]) then Split(s[1..])
    else
      var n := WordLength(s);
      [s[..n]] + Split(s[n..])
  }

  /** The run of non-space characters at the front is determined by where the first space is. */
  lemma WordLengthIs(s: string, n: nat)
    requires n <= |s| && (forall i :: 0 <= i < n ==> !IsSpace(s[i])) && (n < |s| ==> IsSpace(s[n]))
    ensures WordLength(s) == n
  {
  }

  /** A whitespace character ends the run of non-space characters at the front. */
  lemma {:induction false} WordLengthBeforeSpace(a: string, c: char, b: string)
    requires IsSpace(c)
    ensures WordLength(a + [c] + b) == WordLength(a)
  {
    var s := a + [c] + b;
    if a == [] {
      assert s[0] == c;
    } else {
      assert s[0] == a[0];
      if !IsSpace(a[0]) {
        assert s[1..] == a[1..] + [c] + b;
        WordLengthBeforeSpace(a[1..], c, b);
      }
    }
  }

  /** A non-empty text without whitespace is one word. */
  lemma SplitWord(w: string)
    requires w != [] && NoSpace(w)
    ensures Split(w) == [w]
  {
    WordLengthIs(w, |w|);
    assert w[..|w|] == w && w[|w|..] == [];
  }

  /** Whitespace separates words: what lies on either side of it is split independently. */
  lemma {:induction false} SplitSeparated(a: string, c: char, b: string)
    requires IsSpace(c)
    ensures Split(a + [c] + b) == Split(a) + Split(b)
    decreases |a|
  {
    var s := a + [c] + b;
    if a == [] {
      assert s[0] == c && s[1..] == b;
    } else if IsSpace(a[0]) {
      assert s[0] == a[0] && s[1..] == a[1..] + [c] + b;
      SplitSeparated(a[1..], c, b);
    } else {
      var n := WordLength(a);
      assert s[0] == a[0];
      WordLengthBeforeSpace(a, c, b);
      assert s[..n] == a[..n];
      assert s[n..] == a[n..] + [c] + b;
      SplitSeparated(a[n..], c, b);
    }
  }

  lemma LetteredSlice(s: string, a: nat, b: nat)
    requires Lettered(s) && a <= b <= |s|
    ensures Lettered(s[a..b])
  {
    forall i | 0 <= i < b - a ensures 'a' <= s[a..b][i] <= 'z' || s[a..b][i] == '\'' || IsSpace(s[a..b][i]) {
      assert s[a..b][i] == s[a + i];
    }
  }

  /** Splitting a text of letters, apostrophes and whitespace gives words of letters and apostrophes. */
  lemma {:induction false} SplitLettered(s: string)
    requires Lettered(s)
    ensures forall k :: 0 <= k < |Split(s)| ==> Lettered(Split(s)[k])
    decreases |s|
  {
    if s == [] {
    } else if IsSpace(s[0]) {
      LetteredSlice(s, 1, |s|);
      assert s[1..|s|] == s[1..];
      SplitLettered(s[1..]);
    } else {
      var n := WordLength(s);
      LetteredSlice(s, 0, n);
      LetteredSlice(s, n, |s|);
      assert s[0..n] == s[..n] && s[n..|s|] == s[n..];
      SplitLettered(s[n..]);
    }
  }

  function NonSpaces(s: string): string
  {
    if s == [] then [] else (if IsSpace(s[0]) then [] else [s[0]]) + NonSpaces(s[1..])
  }

  function Concat(words: seq<string>): string
  {
    if words == [] then [] else words[0] + Concat(words[1..])
  }

  lemma {:induction false} NonSpacesAppend(a: string, b: string)
    ensures NonSpaces(a + b) == NonSpaces(a) + NonSpaces(b)
  {
    if a == [] {
      assert a + b == b;
    } else {
      assert (a + b)[0] == a[0] && (a + b)[1..] == a[1..] + b;
      NonSpacesAppend(a[1..], b);
    }
  }

  lemma {:induction false} NonSpacesOfWord(w: string)
    requires forall i :: 0 <= i < |w| ==> !IsSpace(w[i])
    ensures NonSpaces(w) == w
  {
    if w != [] {
      NonSpacesOfWord(w[1..]);
    }
  }

  /** Splitting loses exactly the whitespace: the words, joined, are the non-space characters. */
  lemma {:induction false} SplitKeepsNonSpaces(s: string)
    ensures Concat(Split(s)) == NonSpaces(s)
    decreases |s|
  {
    if s == [] {
    } else if IsSpace(s[0]) {
      SplitKeepsNonSpaces(s[1..]);
    } else {
      var n := WordLength(s);
      assert s == s[..n] + s[n..];
      NonSpacesAppend(s[..n], s[n..]);
      NonSpacesOfWord(s[..n]);
      SplitKeepsNonSpaces(s[n..]);
      assert Concat(Split(s)) == s[..n] + Concat(Split(s[n..]));
    }
  }

  /** The words `check_spelling` hands to the spell checker. */
  function Words(sentence: string): seq<string>
  {
    Split(KeepWordChars(CollapseHyphens(Lower(sentence))))
  }

  /** Every word is non-empty and made only of lower-case letters and apostrophes. */
  lemma WordsShape(sentence: string)
    ensures forall k :: 0 <= k < |Words(sentence)| ==> Words(sentence)[k] != []
    ensures forall k, i :: 0 <= k < |Words(sentence)| && 0 <= i < |Words(sentence)[k]| ==>
      'a' <= Words(sentence)[k][i] <= 'z' || Words(sentence)[k][i] == '\''
  {
    var c := CollapseHyphens(Lower(sentence));
    var kept := KeepWordChars(c);
    var ws := Split(kept);
    assert Lettered(kept) by {
      forall i | 0 <= i < |kept| ensures 'a' <= kept[i] <= 'z' || kept[i] == '\'' || IsSpace(kept[i]) {
        assert IsWordChar(kept[i]) && kept[i] != '-';
      }
    }
    SplitLettered(kept);
    forall k, i | 0 <= k < |ws| && 0 <= i < |ws[k]| ensures 'a' <= ws[k][i] <= 'z' || ws[k][i] == '\''
    {
      assert Lettered(ws[k]) && NoSpace(ws[k]);
    }
  }

  /** `spell.unknown(words)`: the words the checker's dictionary does not hold. */
  function Unknown(words: seq<string>, inDictionary: string -> bool): set<string>
  {
    set w | w in words && !inDictionary(w)
  }

  /** `w` is a word of `sentence` that `check_spelling` warns about. */
  predicate Misspelled(w: string, sentence: string, inDictionary: string -> bool)
  {
    w in Words(sentence) && !inDictionary(w) && w !in AllowList
  }

  /**
   * `check_spelling`: returns the sentence unchanged and reports (as
   * `warnings`, the words the source logs) every unknown word not on the
   * allow-list.
   */
  method CheckSpelling(sentence: string, inDictionary: string -> bool) returns (r: string, warnings: set<string>)
    ensures r == sentence
    ensures forall w :: w in warnings <==> Misspelled(w, sentence, inDictionary)
  {
    var words := Words(sentence);
    var misspelled := Unknown(words, inDictionary);
    warnings := {};
    if |misspelled| > 0 {
      var remaining := misspelled;
      while remaining != {}
        invariant remaining <= misspelled
        invariant forall w :: w in warnings <==> w in misspelled - remaining && w !in AllowList
        decreases remaining
      {
        var word :| word in remaining;
        if word !in AllowList {
          warnings := warnings + {word};
        }
        remaining := remaining - {word};
      }
    }
    r := sentence;
  }
}
