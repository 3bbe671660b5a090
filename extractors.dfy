module Wrappers {
  datatype Option<+T> = None | Some(value: T)
}

/**
 * The three text extractors of the lead agent (agent_logic.py): the phone
 * number, the customer's name and the first project of the catalogue that a
 * text mentions. All of them are total: a miss is `None`, never an error.
 */
module Extractors {
  import opened Wrappers
  import opened Text

  /* ---------------- phone ---------------- */

  /** A stored phone number: exactly ten ASCII digits. */
  predicate IsPhoneNumber(s: string) { |s| == 10 && AllDigits(s) }

  /** The digits after the optional "91" country prefix and the optional leading 0 are removed. */
  function StripPrefixes(digits: string): (d: string)
    ensures IsSuffix(d, digits)
    ensures |digits| <= 10 ==> d == digits
    ensures |digits| == 11 && "91" <= digits ==> |d| == 9
    ensures |digits| >= 11 && !(|digits| == 11 && "91" <= digits) ==> |d| >= 10
  {
    var d1 := if "91" <= digits && |digits| > 10 then digits[2..] else digits;
    var d2 := if "0" <= d1 && |d1| > 10 then d1[1..] else d1;
    d2
  }

  /**
   * extract_phone_from_message: keep the digits, strip one "91" and then one
   * "0" while more than ten digits remain, and accept exactly ten digits or
   * the last ten of a longer run.
   */
  function ExtractPhone(message: string): (r: Option<string>)
    ensures r.Some? ==> IsPhoneNumber(r.value)
    ensures r.Some? ==> IsSuffix(r.value, DigitsOnly(message))
    ensures var d := DigitsOnly(message);
      r.None? <==> |d| < 10 || (|d| == 11 && "91" <= d)
    ensures |DigitsOnly(message)| == 10 ==> r == Some(DigitsOnly(message))
  {
    var d := StripPrefixes(DigitsOnly(message));
    if |d| == 10 then Some(d)
    else if |d| > 10 then Some(d[|d| - 10..])
    else None
  }

  /** The prefix forms of an Indian mobile number all normalise to the bare ten digits. */
  lemma PhonePrefixForms(message: string, p: string)
    requires IsPhoneNumber(p)
    ensures DigitsOnly(message) == p ==> ExtractPhone(message) == Some(p)
    ensures DigitsOnly(message) == "91" + p ==> ExtractPhone(message) == Some(p)
    ensures DigitsOnly(message) == "0" + p ==> ExtractPhone(message) == Some(p)
    ensures DigitsOnly(message) == "910" + p ==> ExtractPhone(message) == Some(p)
  {
    var d := DigitsOnly(message);
    if d == "91" + p {
      assert d[2..] == p;
    }
    if d == "0" + p {
      assert d[0] == '0';
      assert d[1..] == p;
    }
    if d == "910" + p {
      assert d[2..] == "0" + p;
      assert d[2..][1..] == p;
    }
  }

  /** The digits of the written country code "+91 " are "91". */
  lemma DigitsOfCountryCode()
    ensures DigitsOnly("+91 ") == "91"
  {
    assert "+91 "[1..] == "91 " && "91 "[1..] == "1 " && "1 "[1..] == " " && " "[1..] == "";
  }

  /** Digits appended to a text pass the filter unchanged. */
  lemma DigitsOnlyThenDigits(x: string, y: string)
    requires AllDigits(y)
    ensures DigitsOnly(x + y) == DigitsOnly(x) + y
  {
    DigitsOnlyAppend(x, y);
    DigitsOnlyOfDigits(y);
  }

  /** A dash appended to a text is dropped by the filter. */
  lemma DigitsOnlyThenDash(x: string)
    ensures DigitsOnly(x + "-") == DigitsOnly(x)
  {
    DigitsOnlyAppend(x, "-");
    DigitsOnlyOfChar('-');
    assert "-" == ['-'];
  }

  /**
   * A number written as "+91 98765-43210" keeps its twelve digits, the space
   * and the dash are dropped, and it extracts to the bare ten digits.
   */
  lemma PhoneWithSeparators(p: string)
    requires IsPhoneNumber(p)
    ensures DigitsOnly("+91 " + p[..5] + "-" + p[5..]) == "91" + p
    ensures ExtractPhone("+91 " + p[..5] + "-" + p[5..]) == Some(p)
  {
    var a := "+91 " + p[..5];
    var b := a + "-";
    var m := b + p[5..];
    DigitsOfCountryCode();
    DigitsOnlyThenDigits("+91 ", p[..5]);
    DigitsOnlyThenDash(a);
    DigitsOnlyThenDigits(b, p[5..]);
    assert ("91" + p[..5]) + p[5..] == "91" + p;
    PhonePrefixForms(m, p);
  }

  /** A stored phone number, read back as a message, extracts to itself. */
  lemma {:induction false} ExtractPhoneOfPhone(p: string)
    requires IsPhoneNumber(p)
    ensures ExtractPhone(p) == Some(p)
  {
    DigitsOnlyOfDigits(p);
  }

  /** Extraction is idempotent: an extracted number extracts to itself. */
  lemma ExtractPhoneIdempotent(message: string)
    requires ExtractPhone(message).Some?
    ensures ExtractPhone(ExtractPhone(message).value) == ExtractPhone(message)
  {
    ExtractPhoneOfPhone(ExtractPhone(message).value);
  }

  /* ---------------- name ---------------- */

  /** The `common_phrases` list: words that are never part of a name. */
  const StopWords: seq<string> :=
    ["hi", "hello", "yes", "no", "okay", "sure", "haan", "nahi", "my", "name", "is"]

  predicate IsStopWord(w: string) { Lower(w) in StopWords }

  /** The words of a message that are not stop words, in order. */
  function NonStopWords(ws: seq<string>): (kept: seq<string>)
    ensures |kept| <= |ws|
    ensures forall i :: 0 <= i < |kept| ==> !IsStopWord(kept[i]) && kept[i] in ws
    ensures forall i :: 0 <= i < |ws| && !IsStopWord(ws[i]) ==> ws[i] in kept
  {
    if ws == [] then []
    else if IsStopWord(ws[0]) then NonStopWords(ws[1..])
    else [ws[0]] + NonStopWords(ws[1..])
  }

  /** The filter keeps one word exactly when it is not a stop word. */
  lemma NonStopWordsOfOne(w: string)
    ensures IsStopWord(w) ==> NonStopWords([w]) == []
    ensures !IsStopWord(w) ==> NonStopWords([w]) == [w]
  {
    assert [w][1..] == [];
  }

  /**
   * The filter works word by word: the kept words of a concatenation are the
   * kept words of each part, in order.
   */
  lemma {:induction false} NonStopWordsAppend(a: seq<string>, b: seq<string>)
    ensures NonStopWords(a + b) == NonStopWords(a) + NonStopWords(b)
  {
    if a == [] {
      assert a + b == b;
    } else {
      assert (a + b)[0] == a[0];
      assert (a + b)[1..] == a[1..] + b;
      NonStopWordsAppend(a[1..], b);
    }
  }

  /** Length of the run of `\w` characters at the start of `s`. */
  function WordRun(s: string): (n: nat)
    ensures n <= |s|
    ensures forall i :: 0 <= i < n ==> IsWordChar(s[i])
    ensures n < |s| ==> !IsWordChar(s[n])
  {
    if s == [] || !IsWordChar(s[0]) then 0 else 1 + WordRun(s[1..])
  }

  /** Length of the run of spaces at the start of `s`. */
  function SpaceRun(s: string): (n: nat)
    ensures n <= |s|
    ensures forall i :: 0 <= i < n ==> s[i] == ' '
    ensures n < |s| ==> s[n] != ' '
  {
    if s == [] || s[0] != ' ' then 0 else 1 + SpaceRun(s[1..])
  }

  /** `s[from..to]` is made of spaces only. */
  predicate SpacesBetween(s: string, from: int, to: int)
  {
    0 <= from <= to <= |s| && forall i :: from <= i < to ==> s[i] == ' '
  }

  /** `s[from..to]` is made of `\w` characters only. */
  predicate WordCharsBetween(s: string, from: int, to: int)
  {
    0 <= from <= to <= |s| && forall i :: from <= i < to ==> IsWordChar(s[i])
  }

  /**
   * The optional part `(?:\s+\w+)` can start its word at offset `j` of `s`
   * when the first word ends at `n`: at least one space, then a word character.
   */
  predicate SecondWordAt(s: string, n: int, j: int)
  {
    n < j < |s| && SpacesBetween(s, n, j) && IsWordChar(s[j])
  }

  /** The run of spaces after offset `n` of `s` is non-empty and a word character follows it. */
  predicate SpacesThenWord(s: string, n: nat)
    requires n <= |s|
  {
    var k := SpaceRun(s[n..]);
    0 < k && n + k < |s| && IsWordChar(s[n + k])
  }

  /**
   * The capture group `(\w+(?:\s+\w+)?)` of the greedy match starting at the
   * beginning of `s`: one word, and a second word when spaces and a word
   * follow it.
   */
  function NameGroup(s: string): (g: string)
    requires s != [] && IsWordChar(s[0])
    ensures g != [] && g <= s
    ensures 0 < WordRun(s) <= |g|
    ensures s[..WordRun(s)] <= g
  {
    var n := WordRun(s);
    var k := SpaceRun(s[n..]);
    if SpacesThenWord(s, n) then s[..n + k + WordRun(s[n + k..])]
    else s[..n]
  }

  /** The only place where the second word can start is after the run of spaces that follows `n`. */
  lemma SecondWordAfterSpaces(s: string, n: nat)
    requires n <= |s|
    ensures forall j :: SecondWordAt(s, n, j) ==> j == n + SpaceRun(s[n..])
  {
    var t := s[n..];
    var k := SpaceRun(t);
    forall j | SecondWordAt(s, n, j)
      ensures j == n + k
    {
      assert t[k] == s[n + k] && t[j - n] == s[j];
    }
  }

  /** When spaces and a word follow the first word, the two words and the spaces between them end at `e`. */
  lemma TwoWordSpan(s: string, n: nat, k: nat)
    requires n + k < |s| && 0 < k && IsWordChar(s[n + k])
    requires k == SpaceRun(s[n..])
    ensures var e := n + k + WordRun(s[n + k..]);
      && SecondWordAt(s, n, n + k)
      && WordCharsBetween(s, n + k, e)
      && (e < |s| ==> !IsWordChar(s[e]))
  {
    var t, u := s[n..], s[n + k..];
    var e := n + k + WordRun(u);
    forall i | n <= i < n + k
      ensures s[i] == ' '
    {
      assert t[i - n] == s[i];
    }
    forall i | n + k <= i < e
      ensures IsWordChar(s[i])
    {
      assert u[i - n - k] == s[i];
    }
    if e < |s| {
      assert u[e - n - k] == s[e];
    }
  }

  /**
   * The group is the whole first word; it goes on through the spaces and the
   * whole second word exactly when spaces and a word character follow the
   * first word; and it stops before the next character that is not `\w`.
   */
  lemma NameGroupMatchesPattern(s: string)
    requires s != [] && IsWordChar(s[0])
    ensures var n, g := WordRun(s), NameGroup(s);
      |g| == n <==> forall j :: !SecondWordAt(s, n, j)
    ensures var n, g := WordRun(s), NameGroup(s);
      |g| > n ==> exists j :: (SecondWordAt(s, n, j) && WordCharsBetween(s, j, |g|))
    ensures var g := NameGroup(s);
      |g| < |s| ==> !IsWordChar(s[|g|])
  {
    var n, g := WordRun(s), NameGroup(s);
    var k := SpaceRun(s[n..]);
    if SpacesThenWord(s, n) {
      var e := n + k + WordRun(s[n + k..]);
      assert |g| == e > n;
      TwoWordSpan(s, n, k);
      assert SecondWordAt(s, n, n + k) && WordCharsBetween(s, n + k, |g|);
    } else {
      assert |g| == n;
      SecondWordAfterSpaces(s, n);
      assert forall j :: !SecondWordAt(s, n, j);
    }
  }

  const NamePrefix: string := "my name is "

  /**
   * `my name is ` matches at offset `k` of `message`, ignoring case, and a
   * word character follows it, so that the group can match.
   */
  predicate NamePrefixAt(message: string, k: int)
  {
    && 0 <= k
    && k + |NamePrefix| < |message|
    && Lower(message[k..k + |NamePrefix|]) == NamePrefix
    && IsWordChar(message[k + |NamePrefix|])
  }

  /** `k` is the leftmost offset where the pattern matches. */
  predicate LeftmostNamePrefix(message: string, k: int)
  {
    NamePrefixAt(message, k) && forall j :: 0 <= j < k ==> !NamePrefixAt(message, j)
  }

  /**
   * `re.search(r"my name is (\w+(?:\s+\w+)?)", message, re.IGNORECASE)`:
   * a match exists exactly when the prefix matches somewhere, followed by a
   * word character, and the group is taken at the leftmost such offset.
   */
  function NameFallback(message: string): (r: Option<string>)
    ensures r.Some? <==> exists k :: NamePrefixAt(message, k)
    ensures r.Some? ==> exists k :: (LeftmostNamePrefix(message, k)
      && r.value == NameGroup(message[k + |NamePrefix|..]))
    decreases |message|
  {
    if |message| <= |NamePrefix| then None
    else if NamePrefixAt(message, 0) then
      assert LeftmostNamePrefix(message, 0);
      Some(NameGroup(message[0 + |NamePrefix|..]))
    else
      var r := NameFallback(message[1..]);
      NameFallbackShift(message, r);
      r
  }

  /** A match in `message[1..]` at `k` is a match in `message` at `k + 1`, and back. */
  lemma NamePrefixAtTail(message: string)
    requires message != []
    ensures forall k :: 1 <= k ==> (NamePrefixAt(message, k) <==> NamePrefixAt(message[1..], k - 1))
  {
    var t := message[1..];
    forall k | 1 <= k
      ensures NamePrefixAt(message, k) <==> NamePrefixAt(t, k - 1)
    {
      if k + |NamePrefix| < |message| {
        assert t[k - 1..k - 1 + |NamePrefix|] == message[k..k + |NamePrefix|];
        assert t[k - 1 + |NamePrefix|] == message[k + |NamePrefix|];
      }
    }
  }

  /** When the pattern does not match at offset 0, the search result of `message[1..]` carries over. */
  lemma NameFallbackShift(message: string, r: Option<string>)
    requires |message| > |NamePrefix| && !NamePrefixAt(message, 0)
    requires r.Some? <==> exists k :: NamePrefixAt(message[1..], k)
    requires r.Some? ==> exists k :: (LeftmostNamePrefix(message[1..], k)
      && r.value == NameGroup(message[1..][k + |NamePrefix|..]))
    ensures r.Some? <==> exists k :: NamePrefixAt(message, k)
    ensures r.Some? ==> exists k :: (LeftmostNamePrefix(message, k)
      && r.value == NameGroup(message[k + |NamePrefix|..]))
  {
    var t := message[1..];
    NamePrefixAtTail(message);
    if k :| NamePrefixAt(message, k) {
      assert k != 0;
      assert NamePrefixAt(t, k - 1);
    }
    if r.Some? {
      var k :| LeftmostNamePrefix(t, k) && r.value == NameGroup(t[k + |NamePrefix|..]);
      assert NamePrefixAt(message, k + 1);
      assert t[k + |NamePrefix|..] == message[k + 1 + |NamePrefix|..];
      forall j | 0 <= j < k + 1
        ensures !NamePrefixAt(message, j)
      {
        if j > 0 {
          assert !NamePrefixAt(t, j - 1);
        }
      }
      assert LeftmostNamePrefix(message, k + 1);
    }
  }

  /** The space-joined non-stop words of a message (`potential_name`). */
  function NameCandidate(message: string): string
  {
    Join(NonStopWords(Words(message)), " ")
  }

  /** The candidate is empty exactly when no word of the message survives the stop-word filter. */
  lemma NameCandidateEmpty(message: string)
    ensures NameCandidate(message) == "" <==> NonStopWords(Words(message)) == []
  {
    var kept := NonStopWords(Words(message));
    if kept != [] {
      assert kept[0] in Words(message);
      if |kept| > 1 {
        assert NameCandidate(message) == kept[0] + " " + Join(kept[1..], " ");
      }
    }
  }

  /**
   * extract_name_from_message: the non-stop words title-cased when they
   * are more than one character long, otherwise the fallback pattern's
   * group title-cased, otherwise nothing.
   */
  function ExtractName(message: string): (r: Option<string>)
    ensures r.Some? ==> r.value != []
  {
    var candidate := NameCandidate(message);
    if |candidate| > 1 then Some(Title(candidate))
    else match NameFallback(message)
      case Some(g) => Some(Title(g))
      case None => None
  }

  lemma {:induction false} NonStopWordsProper(ws: seq<string>)
    requires ProperWords(ws)
    ensures ProperWords(NonStopWords(ws))
  {
    if ws != [] {
      NonStopWordsProper(ws[1..]);
    }
  }

  /**
   * A name taken from the word filter is longer than one character, its
   * words are the message's non-stop words title-cased, in order, and none of
   * them is a stop word in any letter case.
   */
  lemma NameFromWordFilter(message: string)
    requires |NameCandidate(message)| > 1
    ensures ExtractName(message).Some?
    ensures var name := ExtractName(message).value;
      && |name| > 1
      && Lower(name) == Lower(NameCandidate(message))
      && Words(name) == seq(|NonStopWords(Words(message))|,
                            i requires 0 <= i < |NonStopWords(Words(message))| =>
                              Title(NonStopWords(Words(message))[i]))
      && forall i :: 0 <= i < |Words(name)| ==> !IsStopWord(Words(name)[i])
  {
    var kept := NonStopWords(Words(message));
    var titled := seq(|kept|, i requires 0 <= i < |kept| => Title(kept[i]));
    var name := ExtractName(message).value;
    NonStopWordsProper(Words(message));
    LowerOfTitle(false, NameCandidate(message));
    TitleOfJoin(kept);
    forall i | 0 <= i < |titled|
      ensures titled[i] != [] && NoSpaces(titled[i]) && !IsStopWord(titled[i])
    {
      TitleOfProperWord(kept[i]);
      LowerOfTitle(false, kept[i]);
    }
    WordsOfJoin(titled);
  }

  /** A message made only of stop words never yields a name from the filter. */
  lemma {:induction false} AllStopWordsLeaveNothing(ws: seq<string>)
    requires forall i :: 0 <= i < |ws| ==> IsStopWord(ws[i])
    ensures NonStopWords(ws) == []
  {
    if ws != [] {
      AllStopWordsLeaveNothing(ws[1..]);
    }
  }

  /**
   * A message made only of stop words reaches the "my name is" pattern,
   * and without a match for it yields no name.
   */
  lemma OnlyStopWordsUseFallback(message: string)
    requires forall i :: 0 <= i < |Words(message)| ==> IsStopWord(Words(message)[i])
    ensures NameFallback(message).None? ==> ExtractName(message).None?
    ensures NameFallback(message).Some? ==>
      ExtractName(message) == Some(Title(NameFallback(message).value))
  {
    AllStopWordsLeaveNothing(Words(message));
  }

  /**
   * A candidate of at most one character, whatever the words were, leaves the
   * name to the "my name is" pattern: its group title-cased, or no name.
   */
  lemma ShortCandidateUsesFallback(message: string)
    requires |NameCandidate(message)| <= 1
    ensures NameFallback(message).None? ==> ExtractName(message).None?
    ensures NameFallback(message).Some? ==>
      ExtractName(message) == Some(Title(NameFallback(message).value))
  {
  }

  /* ---------------- project ---------------- */

  /** A catalogue entry after parsing: its id and its name. */
  datatype Project = Project(id: string, name: string)

  /** `pname and pname in text_lower`, with `pname` the lower-cased project name. */
  predicate Mentions(text: string, p: Project)
    ensures Mentions(text, p) ==> 0 < |p.name| <= |text|
  {
    Lower(p.name) != "" && Contains(Lower(text), Lower(p.name))
  }

  /**
   * extract_project_interest and extract_project_from_ai_response (the
   * same search): the first project, in catalogue order, whose non-empty
   * lower-cased name occurs in the lower-cased text.
   */
  function ExtractProject(text: string, catalog: seq<Project>): (r: Option<Project>)
    ensures r.Some? <==> exists i :: 0 <= i < |catalog| && Mentions(text, catalog[i])
    ensures r.Some? ==> exists k :: (0 <= k < |catalog| && catalog[k] == r.value
      && Mentions(text, catalog[k])
      && forall j :: 0 <= j < k ==> !Mentions(text, catalog[j]))
  {
    if catalog == [] then None
    else if Mentions(text, catalog[0]) then Some(catalog[0])
    else
      var r := ExtractProject(text, catalog[1..]);
      assert forall i :: 0 < i < |catalog| ==> catalog[i] == catalog[1..][i - 1];
      assert r.Some? ==> exists k :: (0 <= k < |catalog[1..]| && catalog[1..][k] == r.value
        && Mentions(text, catalog[1..][k])
        && forall j :: 0 <= j < k ==> !Mentions(text, catalog[1..][j]));
      r
  }
}
