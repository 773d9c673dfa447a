/** Acronyms: `gen_acro`, which draws a random one, and the test that
    `Round.add_submission` applies to a phrase before accepting it. */
module Acronym {
  import opened Wrappers
  import opened Domain
  import opened Text

  /** A letter `gen_acro` can produce: one of `string.ascii_uppercase`. */
  predicate IsAcronymLetter(c: char) {
    'A' <= c && c <= 'Z'
  }

  /** The random draws behind one `gen_acro(low, hi)` call: `n` from
      `random.randint(low, hi)`, then one index into `string.ascii_uppercase`
      per letter (`range(n)` is empty when `n` is negative). When the range is
      empty `randint` raises before drawing anything. */
  predicate ValidDraw(low: int, hi: int, n: int, picks: seq<nat>) {
    low <= hi ==>
      && low <= n <= hi
      && |picks| == (if n < 0 then 0 else n)
      && forall i :: 0 <= i < |picks| ==> picks[i] < |AsciiUppercase()|
  }

  /** `gen_acro(low, hi)` for the given draws; None is the ValueError that
      `randint` raises on an empty range. */
  function GenAcro(low: int, hi: int, n: int, picks: seq<nat>): (r: Option<string>)
    requires ValidDraw(low, hi, n, picks)
    ensures r.None? <==> hi < low
    ensures r.Some? && 0 <= low ==> low <= |r.value| <= hi
    ensures r.Some? ==> forall i :: 0 <= i < |r.value| ==> IsAcronymLetter(r.value[i])
  {
    if hi < low then None
    else Some(seq(|picks|, i requires 0 <= i < |picks| => AsciiUppercase()[picks[i]]))
  }

  /** The index of an uppercase letter in `string.ascii_uppercase`. */
  function LetterIndex(c: char): (k: nat)
    requires IsAcronymLetter(c)
    ensures k < |AsciiUppercase()| && AsciiUppercase()[k] == c
  {
    c as int - 0x41
  }

  /** The draws that make `gen_acro` produce the uppercase string `s`. */
  function LetterPicks(s: string): (picks: seq<nat>)
    requires forall i :: 0 <= i < |s| ==> IsAcronymLetter(s[i])
    ensures |picks| == |s|
    ensures forall i :: 0 <= i < |s| ==> picks[i] < |AsciiUppercase()| && AsciiUppercase()[picks[i]] == s[i]
  {
    if s == [] then [] else [LetterIndex(s[0])] + LetterPicks(s[1..])
  }

  /** Every uppercase string whose length lies in [low, hi] is a possible
      result of `gen_acro(low, hi)`: the generator's range is exactly that set. */
  lemma GenAcroCovers(low: int, hi: int, s: string)
    requires 0 <= low <= |s| <= hi
    requires forall i :: 0 <= i < |s| ==> IsAcronymLetter(s[i])
    ensures ValidDraw(low, hi, |s|, LetterPicks(s))
    ensures GenAcro(low, hi, |s|, LetterPicks(s)) == Some(s)
  {
    var r := GenAcro(low, hi, |s|, LetterPicks(s));
    assert r.value == s;
  }

  /** The initial of every word, or None when some word is empty (the
      `IndexError` that `word[0]` raises). */
  function Initials(words: seq<string>): (r: Option<string>)
    ensures r.Some? ==> |r.value| == |words|
  {
    if words == [] then Some([])
    else if words[0] == [] then None
    else match Initials(words[1..])
      case None => None
      case Some(rest) => Some([words[0][0]] + rest)
  }

  /** The initials exist exactly when no word is empty, and are then the
      first character of each word, in order. */
  lemma {:induction false} InitialsMeaning(words: seq<string>)
    ensures Initials(words).None? <==> exists i :: 0 <= i < |words| && words[i] == []
    ensures Initials(words).Some? ==> forall i :: 0 <= i < |words| ==> Initials(words).value[i] == words[i][0]
    decreases |words|
  {
    if words != [] {
      InitialsMeaning(words[1..]);
      assert forall i :: 1 <= i < |words| ==> words[i] == words[1..][i - 1];
      if words[0] == [] {
        assert words[0] == [];
      }
    }
  }

  /** The words `add_submission` takes the initials of: `text.strip().split(" ")`. */
  function Words(text: string): (words: seq<string>)
  {
    Split(Strip(text))
  }

  /** `Round.add_submission`'s test of `text` against `acro`:
      `"".join(word[0] for word in text.strip().split(" ")).upper() != acro`. */
  function CheckAcro(text: string, acro: string): (r: Outcome<Error>)
  {
    match Initials(Words(text))
    case None => Fail(EmptyWord)
    case Some(initials) => if Upper(initials) == acro then Pass else Fail(SubmissionDoesNotMatchAcro)
  }

  /** The test fails with an empty word exactly when one of the words is
      empty, passes exactly when every word's upper-cased initial is the
      matching letter of the acronym, and otherwise reports a mismatch. */
  lemma CheckAcroMeaning(text: string, acro: string)
    ensures CheckAcro(text, acro) == Fail(EmptyWord) <==>
      exists i :: 0 <= i < |Words(text)| && Words(text)[i] == []
    ensures CheckAcro(text, acro) == Pass <==>
      && |Words(text)| == |acro|
      && forall i :: 0 <= i < |Words(text)| ==> Words(text)[i] != [] && UpperChar(Words(text)[i][0]) == acro[i]
    ensures CheckAcro(text, acro) in {Pass, Fail(EmptyWord), Fail(SubmissionDoesNotMatchAcro)}
  {
    var words := Words(text);
    var ini := Initials(words);
    InitialsMeaning(words);
    if ini.Some? && |words| == |acro| {
      if forall i :: 0 <= i < |words| ==> UpperChar(words[i][0]) == acro[i] {
        assert Upper(ini.value) == acro;
      }
    }
  }

  /** A phrase of non-empty words free of whitespace, joined by single
      spaces, passes exactly when its upper-cased initials spell the acronym. */
  lemma {:induction false} AcceptsJoinedWords(words: seq<string>, acro: string)
    requires |words| >= 1
    requires forall i :: 0 <= i < |words| ==> words[i] != []
    requires forall i, j :: 0 <= i < |words| && 0 <= j < |words[i]| ==> !IsSpace(words[i][j])
    ensures Words(Join(words)) == words
    ensures CheckAcro(Join(words), acro) == Pass <==>
      |words| == |acro| && forall i :: 0 <= i < |words| ==> UpperChar(words[i][0]) == acro[i]
  {
    assert forall i :: 0 <= i < |words| ==> ' ' !in words[i];
    JoinEnds(words);
    var s := Join(words);
    assert TrimStart(s) == s;
    assert TrimEnd(s) == s;
    SplitJoin(words);
    CheckAcroMeaning(s, acro);
  }

  /** The single-space join of non-empty, whitespace-free words neither starts
      nor ends with whitespace. */
  lemma {:induction false} JoinEnds(words: seq<string>)
    requires |words| >= 1
    requires forall i :: 0 <= i < |words| ==> words[i] != []
    requires forall i, j :: 0 <= i < |words| && 0 <= j < |words[i]| ==> !IsSpace(words[i][j])
    ensures Join(words) != []
    ensures !IsSpace(Join(words)[0]) && !IsSpace(Join(words)[|Join(words)| - 1])
    decreases |words|
  {
    if |words| > 1 {
      JoinEnds(words[1..]);
      var s := Join(words);
      assert s == words[0] + " " + Join(words[1..]);
      assert s[0] == words[0][0];
      assert s[|s| - 1] == Join(words[1..])[|Join(words[1..])| - 1];
    } else {
      assert !IsSpace(words[0][0]);
      assert !IsSpace(words[0][|words[0]| - 1]);
    }
  }

  /** Blank text (empty or all whitespace) raises the empty-word error, never a mismatch. */
  lemma BlankIsEmptyWord(text: string, acro: string)
    requires forall i :: 0 <= i < |text| ==> IsSpace(text[i])
    ensures CheckAcro(text, acro) == Fail(EmptyWord)
  {
    StripFacts(text);
    assert Strip(text) == [];
    var words := Words(text);
    assert words == [[]] && words[0] == [];
  }

  /** Two consecutive spaces inside the stripped text raise the empty-word
      error, never a mismatch. */
  lemma DoubleSpaceIsEmptyWord(text: string, acro: string, k: nat)
    requires k + 1 < |Strip(text)| && Strip(text)[k] == ' ' && Strip(text)[k + 1] == ' '
    ensures CheckAcro(text, acro) == Fail(EmptyWord)
  {
    var i := SplitDoubleSpace(Strip(text), k);
    InitialsMeaning(Words(text));
  }
}
