/** The two string operations the program applies to what the user types:
    `str.lower()` and `str.title()`, on ASCII letters. */
module Text {

  predicate IsUpper(c: char) { 'A' <= c <= 'Z' }

  predicate IsLower(c: char) { 'a' <= c <= 'z' }

  /** A cased character, in the sense `str.title()` uses to find word starts. */
  predicate IsLetter(c: char) { IsUpper(c) || IsLower(c) }

  function ToLowerChar(c: char): (r: char)
    ensures IsUpper(c) ==> r as int == c as int + 32
    ensures !IsUpper(c) ==> r == c
    ensures !IsUpper(r)
    ensures IsLetter(r) <==> IsLetter(c)
  {
    if IsUpper(c) then (c as int + 32) as char else c
  }

  function ToUpperChar(c: char): (r: char)
    ensures IsLower(c) ==> r as int == c as int - 32
    ensures !IsLower(c) ==> r == c
    ensures !IsLower(r)
    ensures IsLetter(r) <==> IsLetter(c)
  {
    if IsLower(c) then (c as int - 32) as char else c
  }

  predicate NoUpper(s: string) { forall i :: 0 <= i < |s| ==> !IsUpper(s[i]) }

  /** `s.lower()`: every upper-case letter replaced by its lower-case form. */
  function Lower(s: string): (r: string)
    ensures |r| == |s|
    ensures forall i :: 0 <= i < |s| ==> r[i] == ToLowerChar(s[i])
    ensures NoUpper(r)
  {
    if s == [] then [] else [ToLowerChar(s[0])] + Lower(s[1..])
  }

  /** A string with no upper-case letter is its own lower-case form. */
  lemma {:induction false} LowerOfNoUpper(s: string)
    requires NoUpper(s)
    ensures Lower(s) == s
  {
    if s != [] {
      assert NoUpper(s[1..]) by {
        forall i | 0 <= i < |s| - 1 ensures !IsUpper(s[1..][i]) {
          assert s[1..][i] == s[i + 1];
        }
      }
      LowerOfNoUpper(s[1..]);
    }
  }

  /** `x` and `y` are the same character, or the upper- and lower-case
      forms of one letter. */
  predicate SameLetterUpToCase(x: char, y: char)
  {
    || x == y
    || (IsUpper(x) && y as int == x as int + 32)
    || (IsUpper(y) && x as int == y as int + 32)
  }

  /** `a` and `b` differ at most in the case of their letters. */
  predicate SameUpToCase(a: string, b: string)
  {
    |a| == |b| && forall i :: 0 <= i < |a| ==> SameLetterUpToCase(a[i], b[i])
  }

  /** Two characters that agree up to case lower-case to the same one. */
  lemma LowerCharIgnoresCase(x: char, y: char)
    requires SameLetterUpToCase(x, y)
    ensures ToLowerChar(x) == ToLowerChar(y)
  {
  }

  /** Two strings that differ only in letter case lower-case alike. */
  lemma {:induction false} LowerIgnoresCase(a: string, b: string)
    requires SameUpToCase(a, b)
    ensures Lower(a) == Lower(b)
  {
    forall i | 0 <= i < |a|
      ensures Lower(a)[i] == Lower(b)[i]
    {
      LowerCharIgnoresCase(a[i], b[i]);
    }
  }

  /** Lower-casing twice is lower-casing once. */
  lemma LowerIdempotent(s: string)
    ensures Lower(Lower(s)) == Lower(s)
  {
    LowerOfNoUpper(Lower(s));
  }

  /** `s.title()`: a letter that follows a letter is lower-cased, any other
      letter is upper-cased; `afterLetter` says whether the character before
      `s` was a letter. */
  function TitleFrom(s: string, afterLetter: bool): (r: string)
    ensures |r| == |s|
    ensures forall i :: 0 <= i < |s| ==> (IsLetter(r[i]) <==> IsLetter(s[i]))
    ensures forall i :: 0 <= i < |s| && !IsLetter(s[i]) ==> r[i] == s[i]
  {
    if s == [] then []
    else
      var c := s[0];
      if IsLetter(c) then
        [if afterLetter then ToLowerChar(c) else ToUpperChar(c)] + TitleFrom(s[1..], true)
      else
        [c] + TitleFrom(s[1..], false)
  }

  function Title(s: string): (r: string)
    ensures |r| == |s|
    ensures forall i :: 0 <= i < |s| ==> (IsLetter(r[i]) <==> IsLetter(s[i]))
    ensures forall i :: 0 <= i < |s| && !IsLetter(s[i]) ==> r[i] == s[i]
    ensures SameUpToCase(r, s)
  {
    TitleSameUpToCase(s, false);
    TitleFrom(s, false)
  }

  /** Title-casing only changes the case of letters: each character of the
      result is the input's character, or the same letter in the other case. */
  lemma {:induction false} TitleSameUpToCase(s: string, afterLetter: bool)
    ensures SameUpToCase(TitleFrom(s, afterLetter), s)
  {
    if s != [] {
      var r := TitleFrom(s, afterLetter);
      var tail := TitleFrom(s[1..], IsLetter(s[0]));
      TitleSameUpToCase(s[1..], IsLetter(s[0]));
      assert r[1..] == tail;
      forall i | 0 <= i < |s|
        ensures SameLetterUpToCase(r[i], s[i])
      {
        if i > 0 {
          assert r[i] == tail[i - 1];
          assert s[i] == s[1..][i - 1];
        }
      }
    }
  }

  /** In a title-cased string every letter that starts a word is upper case
      and every other letter is lower case. */
  lemma {:induction false} TitleCasing(s: string, afterLetter: bool, i: nat)
    requires i < |s|
    ensures var r := TitleFrom(s, afterLetter);
            var wordStart := if i == 0 then !afterLetter else !IsLetter(s[i - 1]);
            (IsLetter(r[i]) <==> IsLetter(s[i]))
            && (IsLetter(s[i]) && wordStart ==> !IsLower(r[i]))
            && (IsLetter(s[i]) && !wordStart ==> !IsUpper(r[i]))
  {
    if i > 0 {
      TitleCasing(s[1..], IsLetter(s[0]), i - 1);
      assert s[1..][i - 1] == s[i];
      if i > 1 {
        assert s[1..][i - 2] == s[i - 1];
      }
    }
  }

  /** A word of lower-case letters title-cases to the same word with its
      first letter upper-cased. */
  lemma TitleOfLowerWord(w: string)
    requires w != [] && forall i :: 0 <= i < |w| ==> IsLower(w[i])
    ensures Title(w) == [ToUpperChar(w[0])] + w[1..]
  {
    TitleKeepsLowerTail(w[1..]);
  }

  lemma {:induction false} TitleKeepsLowerTail(s: string)
    requires forall i :: 0 <= i < |s| ==> IsLower(s[i])
    ensures TitleFrom(s, true) == s
  {
    if s != [] {
      assert forall i :: 0 <= i < |s[1..]| ==> s[1..][i] == s[i + 1];
      TitleKeepsLowerTail(s[1..]);
    }
  }
}
