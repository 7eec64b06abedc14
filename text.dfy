/** The two Python string methods the script relies on, `str.lower` and
    `str.title`, over ASCII letters (every option and table name in the
    script is ASCII). Characters that are not ASCII letters are left as
    they are. */
module Text {

  predicate IsUpper(c: char) { 'A' <= c <= 'Z' }

  predicate IsLower(c: char) { 'a' <= c <= 'z' }

  /** A character that has an upper- and a lower-case form. */
  predicate IsCased(c: char) { IsUpper(c) || IsLower(c) }

  function LowerChar(c: char): (r: char)
    ensures !IsUpper(r) && IsCased(r) == IsCased(c)
    ensures IsLower(c) || !IsCased(c) ==> r == c
  {
    if IsUpper(c) then (c as int + 32) as char else c
  }

  function UpperChar(c: char): (r: char)
    ensures !IsLower(r) && IsCased(r) == IsCased(c)
    ensures IsUpper(c) || !IsCased(c) ==> r == c
  {
    if IsLower(c) then (c as int - 32) as char else c
  }

  /** `s.lower()`: same length, no upper-case letter left, every other
      character kept. */
  function Lower(s: string): (r: string)
    ensures |r| == |s|
    ensures forall i :: 0 <= i < |s| ==> !IsUpper(r[i]) && LowerChar(s[i]) == r[i]
  {
    seq(|s|, i requires 0 <= i < |s| => LowerChar(s[i]))
  }

  /** `s.title()`: a letter that follows a letter is lowered, any other
      letter is raised. `afterCased` says whether the character before `s`
      was a letter. */
  function TitleFrom(s: string, afterCased: bool): (r: string)
    ensures |r| == |s|
  {
    if s == [] then []
    else
      var c := if afterCased then LowerChar(s[0]) else UpperChar(s[0]);
      [c] + TitleFrom(s[1..], IsCased(s[0]))
  }

  function Title(s: string): (r: string)
    ensures |r| == |s|
  {
    TitleFrom(s, false)
  }

  /** A word the way `DAYS` spells it: one upper-case letter, then lower-case
      letters only. */
  predicate Capitalized(w: string)
  {
    |w| > 0 && IsUpper(w[0]) && forall i :: 1 <= i < |w| ==> IsLower(w[i])
  }

  /** The title-case rule, one character at a time: a character that
      follows a letter is lowered, any other character is raised. */
  lemma {:induction false} TitleFromAt(s: string, afterCased: bool, i: nat)
    requires i < |s|
    ensures TitleFrom(s, afterCased)[i]
         == if (if i == 0 then afterCased else IsCased(s[i - 1]))
            then LowerChar(s[i]) else UpperChar(s[i])
  {
    if i > 0 {
      TitleFromAt(s[1..], IsCased(s[0]), i - 1);
    }
  }

  /** `title()` changes only the case of letters: lowering its result
      gives the lowered input. */
  lemma TitleFromKeepsLetters(s: string, afterCased: bool)
    ensures Lower(TitleFrom(s, afterCased)) == Lower(s)
  {
    var t := TitleFrom(s, afterCased);
    forall i | 0 <= i < |s| ensures Lower(t)[i] == Lower(s)[i] {
      TitleFromAt(s, afterCased, i);
    }
  }

  lemma TitleKeepsLetters(s: string)
    ensures Lower(Title(s)) == Lower(s)
  {
    TitleFromKeepsLetters(s, false);
  }

  /** Lowering is idempotent. */
  lemma LowerIdempotent(s: string)
    ensures Lower(Lower(s)) == Lower(s)
  {
  }

  /** `title()` does not look at the case of its input. */
  lemma {:induction false} TitleFromIgnoresCase(s: string, afterCased: bool)
    ensures TitleFrom(Lower(s), afterCased) == TitleFrom(s, afterCased)
  {
    if s != [] {
      var l := Lower(s);
      assert l[1..] == Lower(s[1..]);
      TitleFromIgnoresCase(s[1..], IsCased(s[0]));
    }
  }

  lemma TitleIgnoresCase(s: string)
    ensures Title(Lower(s)) == Title(s)
  {
    TitleFromIgnoresCase(s, false);
  }

  /** A tail of lower-case letters after a letter is left unchanged. */
  lemma {:induction false} TitleFromKeepsLowerTail(s: string)
    requires forall i :: 0 <= i < |s| ==> IsLower(s[i])
    ensures TitleFrom(s, true) == s
  {
    if s != [] {
      TitleFromKeepsLowerTail(s[1..]);
    }
  }

  /** `w.title() == w` for a capitalised word, so any spelling of it that
      differs only in case is title-cased back to `w`. */
  lemma {:induction false} TitleOfCapitalized(w: string, s: string)
    requires Capitalized(w) && Lower(s) == Lower(w)
    ensures Title(s) == w
  {
    TitleFromKeepsLowerTail(w[1..]);
    assert Title(w) == w;
    TitleIgnoresCase(w);
    TitleIgnoresCase(s);
  }
}
