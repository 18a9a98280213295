/** The two string operations the login gate applies to a display name:
    str.strip() and str.title(), over the ASCII range. */
module Text {

  /** Python's str.isspace() restricted to ASCII: tab, line feed, vertical tab,
      form feed, carriage return, the four separators 0x1C..0x1F and space. */
  predicate IsSpace(c: char) {
    (9 <= c as int <= 13) || (28 <= c as int <= 31) || c == ' '
  }

  /** A cased character: in ASCII, a letter. */
  predicate IsLetter(c: char) {
    ('a' <= c <= 'z') || ('A' <= c <= 'Z')
  }

  function Upper(c: char): (u: char)
    ensures IsLetter(u) == IsLetter(c)
    ensures !IsLetter(c) ==> u == c
  {
    if 'a' <= c <= 'z' then (c as int - 32) as char else c
  }

  function Lower(c: char): (l: char)
    ensures IsLetter(l) == IsLetter(c)
    ensures !IsLetter(c) ==> l == c
  {
    if 'A' <= c <= 'Z' then (c as int + 32) as char else c
  }

  predicate AllSpace(s: string) {
    forall i | 0 <= i < |s| :: IsSpace(s[i])
  }

  /** Drops the leading whitespace of s: what is left is a suffix of s that
      does not start with whitespace, and everything dropped was whitespace. */
  function TrimStart(s: string): (r: string)
    ensures |r| <= |s| && r == s[|s| - |r|..]
    ensures AllSpace(s[..|s| - |r|])
    ensures r == [] || !IsSpace(r[0])
  {
    if s != [] && IsSpace(s[0]) then
      var r := TrimStart(s[1..]);
      assert s[..|s| - |r|] == [s[0]] + s[1..][..|s| - 1 - |r|];
      r
    else s
  }

  /** Drops the trailing whitespace of s: what is left is a prefix of s that
      does not end with whitespace, and everything dropped was whitespace. */
  function TrimEnd(s: string): (r: string)
    ensures |r| <= |s| && r == s[..|r|]
    ensures AllSpace(s[|r|..])
    ensures r == [] || !IsSpace(r[|r| - 1])
  {
    if s != [] && IsSpace(s[|s| - 1]) then
      var r := TrimEnd(s[..|s| - 1]);
      assert s[|r|..] == s[..|s| - 1][|r|..] + [s[|s| - 1]];
      r
    else s
  }

  /** str.strip(): neither end of the result is whitespace. */
  function Strip(s: string): (r: string)
    ensures |r| <= |s|
    ensures r == [] || (!IsSpace(r[0]) && !IsSpace(r[|r| - 1]))
  {
    var t := TrimStart(s);
    var r := TrimEnd(t);
    assert r != [] ==> r[0] == t[0];
    r
  }

  /** Strip returns the middle of s between two runs of whitespace. */
  lemma StripIsMiddle(s: string)
    ensures exists i, j | 0 <= i <= j <= |s| ::
      Strip(s) == s[i..j] && AllSpace(s[..i]) && AllSpace(s[j..])
  {
    var t := TrimStart(s);
    var r := TrimEnd(t);
    var i := |s| - |t|;
    var j := i + |r|;
    assert r == s[i..j];
    assert s[j..] == t[|r|..];
  }

  /** A name is blank after strip() exactly when it is all whitespace. */
  lemma StripEmptyIffAllSpace(s: string)
    ensures Strip(s) == [] <==> AllSpace(s)
  {
    var t := TrimStart(s);
    if t != [] {
      assert !IsSpace(s[|s| - |t|]);
      assert TrimEnd(t) != [];
    }
  }

  /** Title-cases s: each letter becomes upper case when the character before
      it is not a letter (or it is the first) and lower case otherwise. */
  function TitleFrom(s: string, afterLetter: bool): (r: string)
    ensures |r| == |s|
  {
    if s == [] then []
    else [if afterLetter then Lower(s[0]) else Upper(s[0])] + TitleFrom(s[1..], IsLetter(s[0]))
  }

  /** The character at position i of the title-cased string, stated without recursion. */
  predicate TitledAt(s: string, t: string, i: int)
    requires 0 <= i < |s| && |t| == |s|
  {
    t[i] == if i > 0 && IsLetter(s[i - 1]) then Lower(s[i]) else Upper(s[i])
  }

  lemma {:induction false} TitleFromAt(s: string, afterLetter: bool, i: int)
    requires 0 <= i < |s|
    ensures TitleFrom(s, afterLetter)[i] ==
      if i == 0 then (if afterLetter then Lower(s[0]) else Upper(s[0]))
      else if IsLetter(s[i - 1]) then Lower(s[i]) else Upper(s[i])
  {
    if i > 0 {
      TitleFromAt(s[1..], IsLetter(s[0]), i - 1);
    }
  }

  /** str.title(): same length, and each position is cased by the character
      before it. */
  function Title(s: string): (r: string)
    ensures |r| == |s|
    ensures forall i | 0 <= i < |s| :: TitledAt(s, r, i)
  {
    var r := TitleFrom(s, false);
    assert forall i | 0 <= i < |s| :: TitledAt(s, r, i) by {
      forall i | 0 <= i < |s| ensures TitledAt(s, r, i) {
        TitleFromAt(s, false, i);
      }
    }
    r
  }

  /** Title changes only letters: every other character, whitespace included,
      stays where it was, and letters stay letters. */
  lemma TitleKeepsNonLetters(s: string)
    ensures |Title(s)| == |s|
    ensures forall i | 0 <= i < |s| :: IsLetter(Title(s)[i]) == IsLetter(s[i])
    ensures forall i | 0 <= i < |s| && !IsLetter(s[i]) :: Title(s)[i] == s[i]
  {
    forall i | 0 <= i < |s| ensures IsLetter(Title(s)[i]) == IsLetter(s[i]) {
      assert TitledAt(s, Title(s), i);
    }
    forall i | 0 <= i < |s| && !IsLetter(s[i]) ensures Title(s)[i] == s[i] {
      assert TitledAt(s, Title(s), i);
    }
  }

  lemma CaseIdempotent(c: char)
    ensures Upper(Upper(c)) == Upper(c) && Lower(Upper(c)) == Lower(c)
    ensures Lower(Lower(c)) == Lower(c) && Upper(Lower(c)) == Upper(c)
  {
  }

  /** Title-casing a title-cased string changes nothing. */
  lemma TitleIdempotent(s: string)
    ensures Title(Title(s)) == Title(s)
  {
    var t := Title(s);
    TitleKeepsNonLetters(s);
    forall i | 0 <= i < |s| ensures Title(t)[i] == t[i] {
      assert TitledAt(s, t, i);
      assert TitledAt(t, Title(t), i);
      CaseIdempotent(s[i]);
    }
  }

  /** A name that strip() leaves non-empty is still non-empty and still has no
      surrounding whitespace after title(). */
  lemma TitleOfStripped(s: string)
    requires Strip(s) != []
    ensures Title(Strip(s)) != []
    ensures Strip(Title(Strip(s))) == Title(Strip(s))
  {
    var m := Strip(s);
    var t := Title(m);
    TitleKeepsNonLetters(m);
    assert !IsSpace(t[0]) by {
      if !IsLetter(m[0]) { assert t[0] == m[0]; }
    }
    assert !IsSpace(t[|t| - 1]) by {
      if !IsLetter(m[|m| - 1]) { assert t[|t| - 1] == m[|m| - 1]; }
    }
    assert TrimStart(t) == t;
    assert TrimEnd(t) == t;
  }

  lemma TrimStartNoSpace()
    ensures TrimStart("alice  ") == "alice  "
  {
    assert !IsSpace('a');
  }

  lemma TrimStartExample()
    ensures TrimStart("  alice  ") == "alice  "
  {
    var raw := "  alice  ";
    assert IsSpace(raw[0]) && raw[1..] == " alice  " && " alice  "[1..] == "alice  ";
    TrimStartNoSpace();
  }

  lemma TrimEndExample()
    ensures TrimEnd("alice  ") == "alice"
  {
    var t := "alice  ";
    assert IsSpace(t[6]) && t[..6] == "alice " && "alice "[..5] == "alice";
    assert TrimEnd("alice") == "alice" by { assert !IsSpace('e'); }
  }

  lemma TitleExample()
    ensures Title("alice") == "Alice"
  {
    assert TitledAt("alice", Title("alice"), 0);
    assert Upper('a') == 'A';
  }
}
