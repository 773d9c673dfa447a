/** The Python string primitives the acronym check is built from:
    `str.strip()`, `str.split(" ")`, `" ".join`, `str.upper()` and the
    alphabets of the `string` module. */
module Text {

  /** Python's `str.isspace` for one character (the Unicode whitespace code points). */
  predicate IsSpace(c: char) {
    || c == ' ' || ('\t' <= c && c <= '\r') || (0x1C <= c as int && c as int <= 0x1F) || c as int == 0x85
    || c as int == 0xA0 || c as int == 0x1680 || (0x2000 <= c as int && c as int <= 0x200A)
    || c as int == 0x2028 || c as int == 0x2029 || c as int == 0x202F || c as int == 0x205F
    || c as int == 0x3000
  }

  /** `s.lstrip()`: whitespace is cut from the front. */
  function TrimStart(s: string): (r: string)
    ensures |r| <= |s|
  {
    if s != [] && IsSpace(s[0]) then TrimStart(s[1..]) else s
  }

  /** `lstrip` keeps the longest suffix that does not start with whitespace. */
  lemma {:induction false} TrimStartMeaning(s: string)
    ensures TrimStart(s) == s[|s| - |TrimStart(s)|..]
    ensures forall i :: 0 <= i < |s| - |TrimStart(s)| ==> IsSpace(s[i])
    ensures TrimStart(s) == [] || !IsSpace(TrimStart(s)[0])
    decreases |s|
  {
    if s != [] && IsSpace(s[0]) {
      TrimStartMeaning(s[1..]);
      assert forall i :: 1 <= i < |s| ==> s[i] == s[1..][i - 1];
    }
  }

  /** `s.rstrip()`: whitespace is cut from the back. */
  function TrimEnd(s: string): (r: string)
    ensures |r| <= |s|
  {
    if s != [] && IsSpace(s[|s| - 1]) then TrimEnd(s[..|s| - 1]) else s
  }

  /** `rstrip` keeps the longest prefix that does not end with whitespace. */
  lemma {:induction false} TrimEndMeaning(s: string)
    ensures TrimEnd(s) == s[..|TrimEnd(s)|]
    ensures forall i :: |TrimEnd(s)| <= i < |s| ==> IsSpace(s[i])
    ensures TrimEnd(s) == [] || !IsSpace(TrimEnd(s)[|TrimEnd(s)| - 1])
    decreases |s|
  {
    if s != [] && IsSpace(s[|s| - 1]) {
      TrimEndMeaning(s[..|s| - 1]);
      assert forall i :: 0 <= i < |s| - 1 ==> s[i] == s[..|s| - 1][i];
    }
  }

  /** `s.strip()`: whitespace is cut from both ends. */
  function Strip(s: string): (r: string)
    ensures |r| <= |s|
  {
    TrimEnd(TrimStart(s))
  }

  /** `strip` keeps the slice of `s` between its leading and its trailing
      whitespace, and that slice neither starts nor ends with whitespace. */
  lemma StripMeaning(s: string)
    ensures |s| - |TrimStart(s)| + |Strip(s)| <= |s|
    ensures Strip(s) == s[|s| - |TrimStart(s)|..|s| - |TrimStart(s)| + |Strip(s)|]
    ensures forall i :: 0 <= i < |s| - |TrimStart(s)| ==> IsSpace(s[i])
    ensures forall i :: |s| - |TrimStart(s)| + |Strip(s)| <= i < |s| ==> IsSpace(s[i])
    ensures Strip(s) == [] || (!IsSpace(Strip(s)[0]) && !IsSpace(Strip(s)[|Strip(s)| - 1]))
  {
    var t := TrimStart(s);
    var r := TrimEnd(t);
    TrimStartMeaning(s);
    TrimEndMeaning(t);
    var k := |s| - |t|;
    assert t == s[k..];
    assert r == t[..|r|];
    assert r == s[k..k + |r|];
    forall i | k + |r| <= i < |s| ensures IsSpace(s[i]) {
      assert s[i] == t[i - k];
    }
  }

  /** `strip` is idempotent, and yields "" exactly for all-whitespace text. */
  lemma StripFacts(s: string)
    ensures Strip(Strip(s)) == Strip(s)
    ensures Strip(s) == [] <==> forall i :: 0 <= i < |s| ==> IsSpace(s[i])
  {
    StripMeaning(s);
    var r := Strip(s);
    if r != [] {
      assert TrimStart(r) == r;
      assert TrimEnd(r) == r;
    }
  }

  /** `s.split(" ")`: the pieces between single spaces, empty pieces included;
      `"".split(" ")` is `[""]`. */
  function Split(s: string): (words: seq<string>)
    ensures |words| >= 1
    ensures forall i :: 0 <= i < |words| ==> ' ' !in words[i]
  {
    if s == [] then [[]]
    else
      var rest := Split(s[1..]);
      if s[0] == ' ' then [[]] + rest
      else [[s[0]] + rest[0]] + rest[1..]
  }

  /** `" ".join(words)`. */
  function Join(words: seq<string>): string
  {
    if words == [] then []
    else if |words| == 1 then words[0]
    else words[0] + " " + Join(words[1..])
  }

  lemma JoinPrepend(c: char, words: seq<string>)
    requires |words| >= 1
    ensures Join([[c] + words[0]] + words[1..]) == [c] + Join(words)
  {
    var lhs := [[c] + words[0]] + words[1..];
    if |words| > 1 {
      assert lhs[1..] == words[1..];
    }
  }

  /** Joining the pieces of a split with single spaces gives the text back. */
  lemma {:induction false} JoinSplit(s: string)
    ensures Join(Split(s)) == s
    decreases |s|
  {
    if s != [] {
      JoinSplit(s[1..]);
      var rest := Split(s[1..]);
      if s[0] == ' ' {
        assert ([[]] + rest)[1..] == rest;
        assert s == " " + s[1..];
      } else {
        JoinPrepend(s[0], rest);
        assert s == [s[0]] + s[1..];
      }
    }
  }

  lemma {:induction false} SplitWordThenSpace(w: string, t: string)
    requires ' ' !in w
    ensures Split(w + " " + t) == [w] + Split(t)
    decreases |w|
  {
    var s := w + " " + t;
    if w == [] {
      assert s[1..] == t;
    } else {
      assert s[1..] == w[1..] + " " + t;
      SplitWordThenSpace(w[1..], t);
      assert [w[0]] + w[1..] == w;
    }
  }

  lemma {:induction false} SplitWord(w: string)
    requires ' ' !in w
    ensures Split(w) == [w]
    decreases |w|
  {
    if w != [] {
      SplitWord(w[1..]);
      assert [w[0]] + w[1..] == w;
    }
  }

  /** Splitting the single-space join of space-free pieces gives the pieces back. */
  lemma {:induction false} SplitJoin(words: seq<string>)
    requires |words| >= 1
    requires forall i :: 0 <= i < |words| ==> ' ' !in words[i]
    ensures Split(Join(words)) == words
    decreases |words|
  {
    if |words| == 1 {
      SplitWord(words[0]);
    } else {
      SplitJoin(words[1..]);
      SplitWordThenSpace(words[0], Join(words[1..]));
      assert [words[0]] + words[1..] == words;
    }
  }

  /** A leading space splits off an empty first piece. */
  lemma SplitSpace(s: string)
    requires s != [] && s[0] == ' '
    ensures Split(s) == [[]] + Split(s[1..])
  {
  }

  /** A leading non-space joins the first piece. */
  lemma SplitNonSpace(s: string)
    requires s != [] && s[0] != ' '
    ensures Split(s) == [[s[0]] + Split(s[1..])[0]] + Split(s[1..])[1..]
  {
  }

  /** Two spaces in a row leave an empty piece between them, never the
      first piece; `i` is its position. */
  lemma {:induction false} SplitDoubleSpace(s: string, k: nat) returns (i: nat)
    requires k + 1 < |s| && s[k] == ' ' && s[k + 1] == ' '
    ensures 1 <= i < |Split(s)| && Split(s)[i] == []
    decreases k
  {
    var rest := Split(s[1..]);
    if k == 0 {
      SplitSpace(s);
      SplitSpace(s[1..]);
      i := 1;
    } else {
      var j := SplitDoubleSpace(s[1..], k - 1);
      if s[0] == ' ' {
        SplitSpace(s);
        i := j + 1;
      } else {
        SplitNonSpace(s);
        i := j;
      }
    }
  }

  /** What `str.upper()` does to one ASCII character; other characters are kept. */
  function UpperChar(c: char): char
  {
    if 'a' <= c && c <= 'z' then (c as int - 32) as char else c
  }

  /** `s.upper()`, character by character. */
  function Upper(s: string): (r: string)
    ensures |r| == |s|
    ensures forall i :: 0 <= i < |s| ==> r[i] == UpperChar(s[i])
  {
    seq(|s|, i requires 0 <= i < |s| => UpperChar(s[i]))
  }

  /** `string.ascii_lowercase`. */
  function AsciiLowercase(): (s: string)
    ensures |s| == 26 && forall i :: 0 <= i < 26 ==> s[i] == (0x61 + i) as char
  {
    seq(26, i requires 0 <= i < 26 => (0x61 + i) as char)
  }

  /** `string.ascii_uppercase`. */
  function AsciiUppercase(): (s: string)
    ensures |s| == 26 && forall i :: 0 <= i < 26 ==> s[i] == (0x41 + i) as char
  {
    seq(26, i requires 0 <= i < 26 => (0x41 + i) as char)
  }

  /** `string.digits`. */
  function Digits(): (s: string)
    ensures |s| == 10 && forall i :: 0 <= i < 10 ==> s[i] == (0x30 + i) as char
  {
    seq(10, i requires 0 <= i < 10 => (0x30 + i) as char)
  }
}
