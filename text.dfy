/**
 * ASCII string helpers used by the extractors: digit filtering, case mapping
 * (Python's `str.lower` and `str.title` restricted to ASCII), whitespace
 * splitting (`str.split()` with spaces as the only whitespace), `str.join`
 * and substring containment (`in` on strings).
 */
module Text {

  predicate IsDigit(c: char) { '0' <= c <= '9' }

  predicate IsUpper(c: char) { 'A' <= c <= 'Z' }

  predicate IsLower(c: char) { 'a' <= c <= 'z' }

  /** A cased character in the sense of `str.title`: an ASCII letter. */
  predicate IsLetter(c: char) { IsUpper(c) || IsLower(c) }

  /** A character matched by the regular-expression class `\w`. */
  predicate IsWordChar(c: char) { IsLetter(c) || IsDigit(c) || c == '_' }

  predicate AllDigits(s: string) { forall i :: 0 <= i < |s| ==> IsDigit(s[i]) }

  predicate NoSpaces(s: string) { forall i :: 0 <= i < |s| ==> s[i] != ' ' }

  predicate IsSuffix(a: string, b: string) { |a| <= |b| && b[|b| - |a|..] == a }

  function LowerChar(c: char): (d: char)
    ensures IsLetter(c) <==> IsLetter(d)
    ensures !IsUpper(d)
  {
    if IsUpper(c) then (c as int - 'A' as int + 'a' as int) as char else c
  }

  function UpperChar(c: char): (d: char)
    ensures IsLetter(c) <==> IsLetter(d)
    ensures LowerChar(d) == LowerChar(c)
  {
    if IsLower(c) then (c as int - 'a' as int + 'A' as int) as char else c
  }

  /** `s.lower()` on ASCII text. */
  function Lower(s: string): (r: string)
    ensures |r| == |s|
    ensures forall i :: 0 <= i < |s| ==> r[i] == LowerChar(s[i])
  {
    if s == [] then [] else [LowerChar(s[0])] + Lower(s[1..])
  }

  /** `re.sub(r'\D', '', s)`: the digits of `s`, in order. */
  function DigitsOnly(s: string): (r: string)
    ensures AllDigits(r)
    ensures |r| <= |s|
  {
    if s == [] then []
    else if IsDigit(s[0]) then [s[0]] + DigitsOnly(s[1..])
    else DigitsOnly(s[1..])
  }

  /** The digit filter works character by character: it distributes over concatenation. */
  lemma {:induction false} DigitsOnlyAppend(a: string, b: string)
    ensures DigitsOnly(a + b) == DigitsOnly(a) + DigitsOnly(b)
  {
    if a == [] {
      assert a + b == b;
    } else {
      assert (a + b)[0] == a[0];
      assert (a + b)[1..] == a[1..] + b;
      DigitsOnlyAppend(a[1..], b);
    }
  }

  /** A single character passes the digit filter exactly when it is a digit. */
  lemma DigitsOnlyOfChar(c: char)
    ensures IsDigit(c) ==> DigitsOnly([c]) == [c]
    ensures !IsDigit(c) ==> DigitsOnly([c]) == []
  {
    assert [c][1..] == [];
  }

  /** Filtering the digits out of a string that is all digits gives it back. */
  lemma {:induction false} DigitsOnlyOfDigits(s: string)
    requires AllDigits(s)
    ensures DigitsOnly(s) == s
  {
    if s != [] {
      DigitsOnlyOfDigits(s[1..]);
    }
  }

  /**
   * `str.title` on ASCII text: a letter is upper-cased when the character
   * before it is not a letter, and lower-cased otherwise; every other
   * character is kept. `afterLetter` says whether the preceding character
   * was a letter.
   */
  function TitleFrom(afterLetter: bool, s: string): (r: string)
    ensures |r| == |s|
    decreases |s|
  {
    if s == [] then []
    else if IsLetter(s[0]) then
      [if afterLetter then LowerChar(s[0]) else UpperChar(s[0])] + TitleFrom(true, s[1..])
    else [s[0]] + TitleFrom(false, s[1..])
  }

  function Title(s: string): (r: string)
    ensures |r| == |s|
  {
    TitleFrom(false, s)
  }

  /** Title-casing keeps every character that is not a letter where it was. */
  lemma {:induction false} TitleKeepsNonLetters(b: bool, s: string)
    ensures forall i :: 0 <= i < |s| && !IsLetter(s[i]) ==> TitleFrom(b, s)[i] == s[i]
    ensures forall i :: 0 <= i < |s| ==> (IsLetter(TitleFrom(b, s)[i]) <==> IsLetter(s[i]))
    decreases |s|
  {
    if s != [] {
      TitleKeepsNonLetters(IsLetter(s[0]), s[1..]);
    }
  }

  /** Title-casing changes only case: lower-casing undoes it. */
  lemma {:induction false} LowerOfTitle(b: bool, s: string)
    ensures Lower(TitleFrom(b, s)) == Lower(s)
    decreases |s|
  {
    if s != [] {
      LowerOfTitle(IsLetter(s[0]), s[1..]);
      assert Lower(TitleFrom(b, s))[0] == Lower(s)[0];
      assert Lower(TitleFrom(b, s))[1..] == Lower(TitleFrom(IsLetter(s[0]), s[1..]));
    }
  }

  /** A space ends a word for `str.title`, so title-casing splits at spaces. */
  lemma {:induction false} TitleAcrossSpace(b: bool, a: string, c: string)
    ensures TitleFrom(b, a + " " + c) == TitleFrom(b, a) + " " + TitleFrom(false, c)
    decreases |a|
  {
    if a == [] {
      assert a + " " + c == [' '] + c;
      assert (a + " " + c)[1..] == c;
    } else {
      assert (a + " " + c)[0] == a[0];
      assert (a + " " + c)[1..] == a[1..] + " " + c;
      TitleAcrossSpace(IsLetter(a[0]), a[1..], c);
    }
  }

  /** Number of leading characters of `s` before the first space. */
  function WordLen(s: string): (n: nat)
    ensures n <= |s|
    ensures forall i :: 0 <= i < n ==> s[i] != ' '
    ensures n < |s| ==> s[n] == ' '
  {
    if s == [] || s[0] == ' ' then 0 else 1 + WordLen(s[1..])
  }

  /** `s.split()`: the maximal runs of non-space characters, in order. */
  function Words(s: string): (ws: seq<string>)
    ensures forall i :: 0 <= i < |ws| ==> ws[i] != [] && NoSpaces(ws[i])
    decreases |s|
  {
    if s == [] then []
    else if s[0] == ' ' then Words(s[1..])
    else
      var n := WordLen(s);
      [s[..n]] + Words(s[n..])
  }

  /** `sep.join(ws)`. */
  function Join(ws: seq<string>, sep: string): string
  {
    if ws == [] then ""
    else if |ws| == 1 then ws[0]
    else ws[0] + sep + Join(ws[1..], sep)
  }

  /** Joining one more part adds the separator and the part at the end. */
  lemma {:induction false} JoinSnoc(ws: seq<string>, w: string, sep: string)
    requires ws != []
    ensures Join(ws + [w], sep) == Join(ws, sep) + sep + w
  {
    if |ws| == 1 {
      assert ws + [w] == [ws[0], w];
    } else {
      assert (ws + [w])[1..] == ws[1..] + [w];
      JoinSnoc(ws[1..], w, sep);
    }
  }

  predicate ProperWords(ws: seq<string>)
  {
    forall i :: 0 <= i < |ws| ==> ws[i] != [] && NoSpaces(ws[i])
  }

  lemma {:induction false} WordLenOfWord(w: string, rest: string)
    requires NoSpaces(w)
    ensures WordLen(w + rest) >= |w|
    ensures rest != [] && rest[0] == ' ' ==> WordLen(w + rest) == |w|
  {
    if w != [] {
      assert (w + rest)[1..] == w[1..] + rest;
      WordLenOfWord(w[1..], rest);
    }
  }

  /** Splitting a space-joined list of proper words gives the list back. */
  lemma {:induction false} WordsOfJoin(ws: seq<string>)
    requires ProperWords(ws)
    ensures Words(Join(ws, " ")) == ws
  {
    if ws == [] {
    } else if |ws| == 1 {
      var w := ws[0];
      WordLenOfWord(w, []);
      assert w + [] == w;
      assert w[..|w|] == w && w[|w|..] == [];
    } else {
      var w, s := ws[0], ws[0] + " " + Join(ws[1..], " ");
      WordLenOfWord(w, " " + Join(ws[1..], " "));
      assert s == w + (" " + Join(ws[1..], " "));
      assert s[..|w|] == w;
      assert s[|w|..] == " " + Join(ws[1..], " ");
      assert (" " + Join(ws[1..], " "))[1..] == Join(ws[1..], " ");
      WordsOfJoin(ws[1..]);
    }
  }

  /** Title-casing a space-joined list title-cases each part. */
  lemma {:induction false} TitleOfJoin(ws: seq<string>)
    ensures Title(Join(ws, " ")) == Join(seq(|ws|, i requires 0 <= i < |ws| => Title(ws[i])), " ")
  {
    var ts := seq(|ws|, i requires 0 <= i < |ws| => Title(ws[i]));
    if |ws| > 1 {
      TitleAcrossSpace(false, ws[0], Join(ws[1..], " "));
      TitleOfJoin(ws[1..]);
      assert ts[1..] == seq(|ws[1..]|, i requires 0 <= i < |ws[1..]| => Title(ws[1..][i]));
    }
  }

  /** Title-casing a proper word gives a proper word. */
  lemma TitleOfProperWord(w: string)
    requires w != [] && NoSpaces(w)
    ensures Title(w) != [] && NoSpaces(Title(w))
  {
    TitleKeepsNonLetters(false, w);
  }

  /** The substring test `needle in hay`. */
  predicate Contains(hay: string, needle: string)
    ensures Contains(hay, needle) ==> |needle| <= |hay|
    decreases |hay|
  {
    needle <= hay || (hay != [] && Contains(hay[1..], needle))
  }

  /** `needle` occurs in `hay` starting at offset `k`. */
  predicate OccursAt(hay: string, needle: string, k: int)
  {
    0 <= k <= |hay| - |needle| && hay[k..k + |needle|] == needle
  }

  /** A match found by `Contains` is an occurrence at some offset. */
  lemma {:induction false} ContainsFindsOccurrence(hay: string, needle: string)
    requires Contains(hay, needle)
    ensures exists k :: OccursAt(hay, needle, k)
    decreases |hay|
  {
    if needle <= hay {
      assert OccursAt(hay, needle, 0);
    } else {
      var tail := hay[1..];
      ContainsFindsOccurrence(tail, needle);
      var k :| OccursAt(tail, needle, k);
      assert hay[k + 1..k + 1 + |needle|] == tail[k..k + |needle|];
      assert OccursAt(hay, needle, k + 1);
    }
  }

  /** Every occurrence of `needle` in `hay` is found by `Contains`. */
  lemma {:induction false} OccurrenceIsContained(hay: string, needle: string, k: int)
    requires OccursAt(hay, needle, k)
    ensures Contains(hay, needle)
    decreases k
  {
    if k == 0 {
      assert hay[..|needle|] == needle;
    } else {
      var tail := hay[1..];
      assert tail[k - 1..k - 1 + |needle|] == hay[k..k + |needle|];
      OccurrenceIsContained(tail, needle, k - 1);
    }
  }
}
