/** The number of leaderboard pages, read from the text of the `table-info` element
    ("<page> of <total>"): every match of the regular expression `[0-9]* of ` is
    replaced by nothing and what is left goes through `toInt`; a missing element
    means a single page. */
module PageCount {
  import opened Outcomes
  import opened KotlinText

  /** The end of the run of digits that starts at `i`. */
  function DigitRunEnd(s: string, i: nat): (e: nat)
    requires i <= |s|
    ensures i <= e <= |s|
    ensures forall k :: i <= k < e ==> IsDigit(s[k])
    ensures e == |s| || !IsDigit(s[e])
    decreases |s| - i
  {
    if i < |s| && IsDigit(s[i]) then DigitRunEnd(s, i + 1) else i
  }

  /** `[0-9]* of ` matches at `i`: the run of digits there is followed by " of ". */
  predicate MatchesAt(s: string, i: nat)
    requires i <= |s|
  {
    var e := DigitRunEnd(s, i);
    e + 4 <= |s| && s[e..e + 4] == " of "
  }

  /** `MatchesAt` is the regular expression's own semantics: some (possibly empty)
      run of digits starting at `i` is followed by " of ". Backtracking cannot find
      another end for the digits, since a digit is never the space that " of " starts with. */
  lemma MatchesAtIsRegexMatch(s: string, i: nat)
    requires i <= |s|
    ensures MatchesAt(s, i) <==>
      exists j :: i <= j && j + 4 <= |s| && AllDigits(s[i..j]) && s[j..j + 4] == " of "
  {
    var e := DigitRunEnd(s, i);
    if MatchesAt(s, i) {
      assert AllDigits(s[i..e]);
    }
    if j :| i <= j && j + 4 <= |s| && AllDigits(s[i..j]) && s[j..j + 4] == " of " {
      assert s[j] == ' ';
      assert forall k :: i <= k < j ==> IsDigit(s[k]) by {
        forall k | i <= k < j ensures IsDigit(s[k]) {
          assert s[i..j][k - i] == s[k];
        }
      }
      assert j == e;
    }
  }

  /** `replace("[0-9]* of ".toRegex(), "")`: scan left to right, dropping each match
      and resuming after it. */
  function RemoveMatches(s: string): string
    decreases |s|
  {
    if s == [] then []
    else if MatchesAt(s, 0) then RemoveMatches(s[DigitRunEnd(s, 0) + 4..])
    else [s[0]] + RemoveMatches(s[1..])
  }

  /** The page count `getWeeklyRankPosition` reads from page 1's `table-info`: 1 without
      the element, otherwise `toInt` of the text with the matches removed, which fails
      rather than falling back to 1. */
  function TotalPages(tableInfo: Option<string>): Result<int>
  {
    match tableInfo
    case None => Success(1)
    case Some(text) => ParseInt(RemoveMatches(text))
  }

  /** A text without spaces holds no match and is left as it is. */
  lemma {:induction false} RemoveMatchesWithoutSpace(s: string)
    requires ' ' !in s
    ensures RemoveMatches(s) == s
  {
    if s != [] {
      var e := DigitRunEnd(s, 0);
      if e < |s| {
        assert s[e] in s;
      }
      assert !MatchesAt(s, 0);
      assert forall c :: c in s[1..] ==> c in s;
      RemoveMatchesWithoutSpace(s[1..]);
      assert [s[0]] + s[1..] == s;
    }
  }

  /** A run of digits holds no space. */
  lemma DigitsLackSpace(t: string)
    requires AllDigits(t)
    ensures ' ' !in t
  {
  }

  /** In "<p> of <t>", with digit runs p and t, the one match is "<p> of ". */
  lemma {:induction false} RemoveMatchesOfShape(p: string, t: string)
    requires AllDigits(p) && AllDigits(t)
    ensures RemoveMatches(p + " of " + t) == t
  {
    var s := p + " of " + t;
    assert forall k :: 0 <= k < |p| ==> s[k] == p[k];
    assert s[|p|] == ' ';
    assert DigitRunEnd(s, 0) == |p|;
    assert s[|p|..|p| + 4] == " of ";
    assert s[|p| + 4..] == t;
    DigitsLackSpace(t);
    RemoveMatchesWithoutSpace(t);
  }

  /** "<p> of <t>", with digit runs p and t, gives t's value when it fits in 32 bits. */
  lemma TotalPagesOfShape(p: string, t: string)
    requires AllDigits(p) && AllDigits(t) && |t| >= 1
    requires DigitsValue(t) <= MaxInt
    ensures TotalPages(Some(p + " of " + t)) == Success(DigitsValue(t))
  {
    RemoveMatchesOfShape(p, t);
    ParseIntSpec(t);
  }

  /** Text that does not leave a numeral after the removal is a NumberFormatException,
      not a single page: for example "3 of " leaves "". */
  lemma TotalPagesRejects(text: string)
    requires !IsNumeral(RemoveMatches(text))
    ensures TotalPages(Some(text)) == Failure(NumberFormatError(RemoveMatches(text)))
  {
    ParseIntSpec(RemoveMatches(text));
  }
}
