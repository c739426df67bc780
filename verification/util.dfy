/** The string and vector helpers of the engine's utility header, as their
    unit tests pin them down: `startsWith`, `contains`, `trim`,
    `toLowerCase` and the whitespace `splitString`. */
module Util {

  /** `startsWith(str, prefix)`: compares characters from the front. */
  function StartsWith(s: string, prefix: string): (r: bool)
    ensures r <==> |prefix| <= |s| && s[..|prefix|] == prefix
  {
    if |prefix| == 0 then true
    else if |s| == 0 then false
    else s[0] == prefix[0] && StartsWith(s[1..], prefix[1..])
  }

  /** `contains(v, x)`: a linear search of the vector. */
  function Contains<T(==)>(v: seq<T>, x: T): (r: bool)
    ensures r <==> exists i | 0 <= i < |v| :: v[i] == x
  {
    if |v| == 0 then false
    else v[0] == x || Contains(v[1..], x)
  }

  /** Contains agrees with sequence membership, so a duplicate does not
      hide the element and the empty vector contains nothing. */
  lemma ContainsIsMembership<T>(v: seq<T>, x: T)
    ensures Contains(v, x) <==> x in v
    ensures v == [] ==> !Contains(v, x)
  {
  }

  /** The characters `trim` strips: spaces and tabs. */
  predicate IsBlank(c: char) {
    c == ' ' || c == '\t'
  }

  predicate AllBlank(s: string) {
    forall i | 0 <= i < |s| :: IsBlank(s[i])
  }

  /** Drops the blanks at the front. */
  function TrimLeft(s: string): (r: string)
    ensures |r| <= |s| && r == s[|s| - |r|..]
    ensures AllBlank(s[..|s| - |r|])
    ensures r != [] ==> !IsBlank(r[0])
  {
    if |s| > 0 && IsBlank(s[0]) then TrimLeft(s[1..]) else s
  }

  /** Drops the blanks at the back. */
  function TrimRight(s: string): (r: string)
    ensures |r| <= |s| && r == s[..|r|]
    ensures AllBlank(s[|r|..])
    ensures r != [] ==> !IsBlank(r[|r| - 1])
  {
    if |s| > 0 && IsBlank(s[|s| - 1]) then
      var t := s[..|s| - 1];
      var r := TrimRight(t);
      assert s[|r|..] == t[|r|..] + [s[|s| - 1]];
      r
    else s
  }

  /** `trim(s)`: the part of `s` between its leading and its trailing
      blanks.  The result is a slice of `s`, only blanks are cut off, and
      it neither starts nor ends with a blank. */
  function Trim(s: string): (r: string)
    ensures exists i, j | 0 <= i <= j <= |s| :: r == s[i..j] && AllBlank(s[..i]) && AllBlank(s[j..])
    ensures r != [] ==> !IsBlank(r[0]) && !IsBlank(r[|r| - 1])
  {
    var l := TrimLeft(s);
    var r := TrimRight(l);
    var i := |s| - |l|;
    assert r == s[i..i + |r|];
    assert s[i + |r|..] == l[|r|..];
    r
  }

  /** Trimming blanks around a text that neither starts nor ends with a
      blank gives back that text, interior blanks included: the answer of
      `Trim` is determined by its contract. */
  lemma {:induction false} TrimSurrounded(a: string, x: string, b: string)
    requires AllBlank(a) && AllBlank(b)
    requires x != [] ==> !IsBlank(x[0]) && !IsBlank(x[|x| - 1])
    ensures Trim(a + x + b) == x
  {
    if x == [] {
      assert a + x + b == (a + b) + [];
      TrimLeftBlanks(a + b, []);
    } else {
      assert a + x + b == a + (x + b);
      TrimLeftBlanks(a, x + b);
      TrimRightBlanks(x, b);
    }
  }

  lemma {:induction false} TrimLeftBlanks(a: string, y: string)
    requires AllBlank(a)
    requires y != [] ==> !IsBlank(y[0])
    ensures TrimLeft(a + y) == y
    decreases |a|
  {
    if a == [] {
      assert a + y == y;
    } else {
      assert (a + y)[1..] == a[1..] + y;
      TrimLeftBlanks(a[1..], y);
    }
  }

  lemma {:induction false} TrimRightBlanks(x: string, b: string)
    requires AllBlank(b)
    requires x != [] ==> !IsBlank(x[|x| - 1])
    ensures TrimRight(x + b) == x
    decreases |b|
  {
    if b == [] {
      assert x + b == x;
    } else {
      var b' := b[..|b| - 1];
      assert (x + b)[..|x + b| - 1] == x + b';
      TrimRightBlanks(x, b');
    }
  }

  /** Trimming twice is trimming once. */
  lemma TrimIdempotent(s: string)
    ensures Trim(Trim(s)) == Trim(s)
  {
    var t := Trim(s);
    TrimSurrounded([], t, []);
    assert [] + t + [] == t;
  }

  /** The two examples of the unit test: interior blanks stay, a leading
      tab goes. */
  lemma TrimExampleSpaces()
    ensures Trim(" asdf  adf  ") == "asdf  adf"
  {
    assert AllBlank(" ") && AllBlank("  ");
    TrimSurrounded(" ", "asdf  adf", "  ");
    assert " " + "asdf  adf" + "  " == " asdf  adf  ";
  }

  lemma TrimExampleTab()
    ensures Trim("\t asdf xyz") == "asdf xyz"
  {
    assert AllBlank("\t ") && AllBlank("");
    TrimSurrounded("\t ", "asdf xyz", "");
    assert "\t " + "asdf xyz" + "" == "\t asdf xyz";
  }

  /** `toLowerCase`: ASCII capitals become small letters, every other
      character is kept. */
  function Lower(c: char): char {
    if 'A' <= c <= 'Z' then (c as int - 'A' as int + 'a' as int) as char else c
  }

  /** The capitals and the small letters, in alphabetical order. */
  const Capitals: string := "ABCDEFGHIJKLMNOPQRSTUVWXYZ"
  const Smalls: string := "abcdefghijklmnopqrstuvwxyz"

  /** Every capital is replaced by the small letter at the same place in
      the alphabet, and every other character is kept. */
  function ToLowerCase(s: string): (r: string)
    ensures |r| == |s|
    ensures forall i | 0 <= i < |s| && s[i] !in Capitals :: r[i] == s[i]
    ensures forall i, j | 0 <= i < |s| && 0 <= j < |Capitals| && s[i] == Capitals[j] :: r[i] == Smalls[j]
  {
    CapitalsInOrder();
    seq(|s|, i requires 0 <= i < |s| => Lower(s[i]))
  }

  /** The two alphabets are the code-point ranges 'A'..'Z' and 'a'..'z'. */
  lemma CapitalsInOrder()
    ensures |Capitals| == |Smalls| == 26
    ensures forall j | 0 <= j < 26 :: Capitals[j] == ('A' as int + j) as char
    ensures forall j | 0 <= j < 26 :: Smalls[j] == ('a' as int + j) as char
    ensures forall c: char :: c in Capitals <==> 'A' <= c <= 'Z'
  {
    forall c: char | 'A' <= c <= 'Z'
      ensures c in Capitals
    {
      assert Capitals[c as int - 'A' as int] == c;
    }
  }

  /** Lower-casing leaves no capital behind, so doing it twice changes
      nothing. */
  lemma ToLowerCaseIdempotent(s: string)
    ensures forall i | 0 <= i < |s| :: !('A' <= ToLowerCase(s)[i] <= 'Z')
    ensures ToLowerCase(ToLowerCase(s)) == ToLowerCase(s)
  {
  }

  lemma ToLowerCaseExample()
    ensures ToLowerCase("Peter") == "peter"
  {
  }

  /** The separators of the whitespace `splitString`. */
  predicate IsSpace(c: char) {
    c == ' ' || c == '\t' || c == '\n' || c == '\r' || c == '\U{B}' || c == '\U{C}'
  }

  /** Skips leading whitespace. */
  function DropSpaces(s: string): (r: string)
    ensures |r| <= |s| && r == s[|s| - |r|..]
    ensures r != [] ==> !IsSpace(r[0])
  {
    if |s| > 0 && IsSpace(s[0]) then DropSpaces(s[1..]) else s
  }

  /** The longest prefix without whitespace. */
  function Word(s: string): (w: string)
    ensures |w| <= |s| && w == s[..|w|]
    ensures forall i | 0 <= i < |w| :: !IsSpace(w[i])
    ensures |w| < |s| ==> IsSpace(s[|w|])
  {
    if |s| > 0 && !IsSpace(s[0]) then [s[0]] + Word(s[1..]) else []
  }

  /** `splitString(str, out)`: the maximal runs of non-whitespace
      characters, in order. */
  function Tokens(s: string): (ts: seq<string>)
    ensures forall k | 0 <= k < |ts| :: IsToken(ts[k])
    decreases |s|
  {
    var t := DropSpaces(s);
    if |t| == 0 then []
    else
      var w := Word(t);
      assert w != [] && w[0] == t[0];
      [w] + Tokens(t[|w|..])
  }

  /** A token is a non-empty word without whitespace. */
  predicate IsToken(w: string) {
    w != [] && forall i | 0 <= i < |w| :: !IsSpace(w[i])
  }

  /** Tokens joined by single spaces. */
  function JoinSpaced(ts: seq<string>): string {
    if |ts| == 0 then []
    else if |ts| == 1 then ts[0]
    else ts[0] + (" " + JoinSpaced(ts[1..]))
  }

  /** Round trip: splitting tokens joined by spaces gives back the
      tokens. */
  lemma {:induction false} TokensOfJoined(ts: seq<string>)
    requires forall k | 0 <= k < |ts| :: IsToken(ts[k])
    ensures Tokens(JoinSpaced(ts)) == ts
    decreases |ts|
  {
    if |ts| == 0 {
      NoTokens();
    } else if |ts| == 1 {
      SingleToken(ts[0]);
      HeadAndTail(ts);
    } else {
      var rest := JoinSpaced(ts[1..]);
      TokensCons(ts[0], " " + rest);
      LeadingSpace(rest);
      TokensOfJoined(ts[1..]);
      HeadAndTail(ts);
    }
  }

  lemma NoTokens()
    ensures Tokens([]) == []
  {
    assert DropSpaces([]) == [];
  }

  lemma SingleToken(w: string)
    requires IsToken(w)
    ensures Tokens(w) == [w]
  {
    TokensCons(w, []);
    assert w + [] == w;
    NoTokens();
  }

  lemma HeadAndTail(ts: seq<string>)
    requires |ts| > 0
    ensures ts == [ts[0]] + ts[1..]
  {
  }

  /** A token followed by nothing or by whitespace is the first token. */
  lemma TokensCons(w: string, tail: string)
    requires IsToken(w)
    requires tail != [] ==> IsSpace(tail[0])
    ensures Tokens(w + tail) == [w] + Tokens(tail)
  {
    assert DropSpaces(w + tail) == w + tail;
    WordOfToken(w, tail);
    assert (w + tail)[|w|..] == tail;
  }

  /** A token followed by nothing or by whitespace is read as one word. */
  lemma {:induction false} WordOfToken(w: string, tail: string)
    requires IsToken(w)
    requires tail != [] ==> IsSpace(tail[0])
    ensures Word(w + tail) == w
    decreases |w|
  {
    if |w| == 1 {
      assert (w + tail)[1..] == tail;
    } else {
      assert (w + tail)[1..] == w[1..] + tail;
      WordOfToken(w[1..], tail);
      assert w == [w[0]] + w[1..];
    }
  }

  /** Leading whitespace does not change the tokens. */
  lemma LeadingSpace(s: string)
    ensures Tokens(" " + s) == Tokens(s)
  {
    assert (" " + s)[1..] == s;
  }

  /** The example of the unit test. */
  lemma TokensExample()
    ensures Tokens("a b c def") == ["a", "b", "c", "def"]
  {
    var ts := ["a", "b", "c", "def"];
    assert IsToken("a") && IsToken("b") && IsToken("c") && IsToken("def");
    assert ts[1..] == ["b", "c", "def"] && ts[2..] == ["c", "def"] && ts[3..] == ["def"];
    assert JoinSpaced(["def"]) == "def";
    assert JoinSpaced(["c", "def"]) == "c def";
    assert JoinSpaced(["b", "c", "def"]) == "b c def";
    assert JoinSpaced(ts) == "a b c def";
    TokensOfJoined(ts);
  }

  /** The examples of the unit test for `startsWith` and `contains`. */
  lemma StartsWithExamples()
    ensures StartsWith("Peter", "Pe") && StartsWith("Peter", "Peter")
    ensures !StartsWith("Peter", "PeterO") && !StartsWith("Peter", "Pex") && !StartsWith("Peter", "eter")
  {
    assert "Peter"[..2] == "Pe";
    assert "Peter"[..3] != "Pex" by { assert "Peter"[..3][2] != "Pex"[2]; }
    assert "Peter"[..4] != "eter" by { assert "Peter"[..4][0] != "eter"[0]; }
  }

  lemma ContainsExamples()
    ensures Contains([1, 2, 3, 4], 3) && !Contains([1, 2, 3, 4], 5)
    ensures Contains([1, 3, 2, 3, 4], 3)
    ensures !Contains([], 0) && !Contains([], 1)
  {
    assert [1, 2, 3, 4][2] == 3;
    assert [1, 3, 2, 3, 4][1] == 3;
  }
}
