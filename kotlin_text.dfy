/** The Kotlin/JVM string operations the scraper relies on: `split`, `joinToString`,
    `toInt`, and substring containment with and without `ignoreCase`. */
module KotlinText {
  import opened Outcomes

  const MinInt: int := -0x8000_0000
  const MaxInt: int := 0x7fff_ffff

  // ---------------------------------------------------------------- split / join

  /** `s.split(sep)` with one delimiter and no limit: every occurrence of `sep` cuts,
      empty pieces (leading, inner and trailing) are kept, and "" gives [""]. */
  function Split(s: string, sep: char): (r: seq<string>)
    ensures |r| >= 1
  {
    SplitFrom(s, sep, [])
  }

  /** Split `s`, where `piece` is the part of the current piece already scanned. */
  function SplitFrom(s: string, sep: char, piece: string): (r: seq<string>)
    ensures |r| >= 1
  {
    if s == [] then [piece]
    else if s[0] == sep then [piece] + SplitFrom(s[1..], sep, [])
    else SplitFrom(s[1..], sep, piece + [s[0]])
  }

  /** `pieces.joinToString(sep)`. */
  function Join(pieces: seq<string>, sep: char): string
  {
    if |pieces| == 0 then []
    else if |pieces| == 1 then pieces[0]
    else pieces[0] + [sep] + Join(pieces[1..], sep)
  }

  /** No piece of a split holds a character `c` that occurs in `s` only as the
      separator (in particular, the separator itself, or a character absent from `s`). */
  lemma SplitPiecesLack(s: string, sep: char, c: char)
    requires forall i :: 0 <= i < |s| ==> s[i] == sep || s[i] != c
    ensures forall k :: 0 <= k < |Split(s, sep)| ==> c !in Split(s, sep)[k]
  {
    SplitFromLacks(s, sep, [], c);
  }

  lemma {:induction false} SplitFromLacks(s: string, sep: char, piece: string, c: char)
    requires c !in piece
    requires forall i :: 0 <= i < |s| ==> s[i] == sep || s[i] != c
    ensures forall k :: 0 <= k < |SplitFrom(s, sep, piece)| ==> c !in SplitFrom(s, sep, piece)[k]
  {
    if s != [] {
      assert forall i :: 0 <= i < |s[1..]| ==> s[1..][i] == s[i + 1];
      if s[0] == sep {
        SplitFromLacks(s[1..], sep, [], c);
      } else {
        SplitFromLacks(s[1..], sep, piece + [s[0]], c);
      }
    }
  }

  /** Joining pieces that lack `c` with a separator other than `c` gives a string that lacks `c`. */
  lemma {:induction false} JoinLacks(pieces: seq<string>, sep: char, c: char)
    requires sep != c
    requires forall k :: 0 <= k < |pieces| ==> c !in pieces[k]
    ensures c !in Join(pieces, sep)
  {
    if |pieces| > 1 {
      JoinLacks(pieces[1..], sep, c);
    }
  }

  /** Joining the pieces of a split gives back the string that was split. */
  lemma JoinSplit(s: string, sep: char)
    ensures Join(Split(s, sep), sep) == s
  {
    JoinSplitFrom(s, sep, []);
  }

  lemma {:induction false} JoinSplitFrom(s: string, sep: char, piece: string)
    ensures Join(SplitFrom(s, sep, piece), sep) == piece + s
  {
    if s != [] {
      if s[0] == sep {
        JoinSplitFrom(s[1..], sep, []);
        var rest := SplitFrom(s[1..], sep, []);
        assert ([piece] + rest)[1..] == rest;
        assert s == [sep] + s[1..];
      } else {
        JoinSplitFrom(s[1..], sep, piece + [s[0]]);
        assert s == [s[0]] + s[1..];
      }
    }
  }

  /** A string without the separator is a single piece. */
  lemma SplitNoSeparator(s: string, sep: char)
    requires sep !in s
    ensures Split(s, sep) == [s]
  {
    SplitFromNoSeparator(s, sep, []);
    assert [] + s == s;
  }

  lemma {:induction false} SplitFromNoSeparator(s: string, sep: char, piece: string)
    requires sep !in s
    ensures SplitFrom(s, sep, piece) == [piece + s]
  {
    if s == [] {
      assert piece + s == piece;
    } else {
      assert s[0] in s;
      assert forall c :: c in s[1..] ==> c in s;
      assert s[0] != sep;
      SplitFromNoSeparator(s[1..], sep, piece + [s[0]]);
      assert piece + [s[0]] + s[1..] == piece + s;
    }
  }

  /** Splitting at one separator splits the two sides separately. */
  lemma SplitAround(a: string, b: string, sep: char)
    ensures Split(a + [sep] + b, sep) == Split(a, sep) + Split(b, sep)
  {
    SplitFromAround(a, b, sep, []);
  }

  lemma {:induction false} SplitFromAround(a: string, b: string, sep: char, piece: string)
    ensures SplitFrom(a + [sep] + b, sep, piece) == SplitFrom(a, sep, piece) + SplitFrom(b, sep, [])
  {
    if a == [] {
      assert (a + [sep] + b)[1..] == b;
    } else {
      assert (a + [sep] + b)[0] == a[0];
      assert (a + [sep] + b)[1..] == a[1..] + [sep] + b;
      if a[0] == sep {
        SplitFromAround(a[1..], b, sep, []);
      } else {
        SplitFromAround(a[1..], b, sep, piece + [a[0]]);
      }
    }
  }

  /** Splitting pieces that do not contain the separator undoes their join. */
  lemma {:induction false} SplitJoin(pieces: seq<string>, sep: char)
    requires |pieces| >= 1
    requires forall k :: 0 <= k < |pieces| ==> sep !in pieces[k]
    ensures Split(Join(pieces, sep), sep) == pieces
  {
    SplitNoSeparator(pieces[0], sep);
    if |pieces| > 1 {
      SplitJoin(pieces[1..], sep);
      SplitAround(pieces[0], Join(pieces[1..], sep), sep);
      assert [pieces[0]] + pieces[1..] == pieces;
    }
  }

  /** Joining is associative over a cut between two non-empty runs of pieces. */
  lemma {:induction false} JoinAppend(xs: seq<string>, ys: seq<string>, sep: char)
    requires |xs| >= 1 && |ys| >= 1
    ensures Join(xs + ys, sep) == Join(xs, sep) + [sep] + Join(ys, sep)
  {
    if |xs| == 1 {
      assert (xs + ys)[1..] == ys;
    } else {
      JoinAppend(xs[1..], ys, sep);
      assert (xs + ys)[1..] == xs[1..] + ys;
    }
  }

  // ---------------------------------------------------------------- toInt

  predicate IsDigit(c: char) { '0' <= c <= '9' }

  predicate AllDigits(s: string) { forall i :: 0 <= i < |s| ==> IsDigit(s[i]) }

  /** Value of a run of decimal digits, most significant first. */
  function DigitsValue(s: string): nat
    requires AllDigits(s)
  {
    if s == [] then 0
    else DigitsValue(s[..|s| - 1]) * 10 + (s[|s| - 1] as int - '0' as int)
  }

  /** Whether `s` is a decimal numeral: an optional sign and at least one digit. */
  predicate IsNumeral(s: string)
  {
    |s| >= 1 &&
    var digits := if s[0] == '-' || s[0] == '+' then s[1..] else s;
    |digits| >= 1 && AllDigits(digits)
  }

  /** The mathematical value of a numeral. */
  function NumeralValue(s: string): int
    requires IsNumeral(s)
  {
    if s[0] == '-' then -(DigitsValue(s[1..]) as int)
    else if s[0] == '+' then DigitsValue(s[1..])
    else DigitsValue(s)
  }

  /** `s.toInt()`, that is `Integer.parseInt(s)`: an optional sign (a lone sign is
      rejected), then the digits, accumulated from the left as a non-positive running
      value that may not go below the limit of the sign (`Int.MIN_VALUE` for `-`,
      `-Int.MAX_VALUE` otherwise); the result is that value, negated unless the sign
      is `-`. */
  function ParseInt(s: string): Result<int>
  {
    if |s| == 0 then Failure(NumberFormatError(s))
    else if s[0] == '-' || s[0] == '+' then
      if |s| == 1 then Failure(NumberFormatError(s))
      else
        var negated :- Accumulate(s, 1, 0, if s[0] == '-' then MinInt else -MaxInt);
        Success(if s[0] == '-' then negated else -negated)
    else
      var negated :- Accumulate(s, 0, 0, -MaxInt);
      Success(-negated)
  }

  /** The digit loop of `parseInt` from index `i` on, with running value `acc`: a
      non-digit, or a step that takes the value below `limit`, is a
      `NumberFormatException` for the whole input. */
  function Accumulate(s: string, i: nat, acc: int, limit: int): Result<int>
    requires i <= |s|
    decreases |s| - i
  {
    if i == |s| then Success(acc)
    else if !IsDigit(s[i]) then Failure(NumberFormatError(s))
    else
      var next := acc * 10 - (s[i] as int - '0' as int);
      if next < limit then Failure(NumberFormatError(s))
      else Accumulate(s, i + 1, next, limit)
  }

  /** A prefix of a run of digits has no greater value. */
  lemma {:induction false} DigitsValuePrefix(w: string, k: nat)
    requires AllDigits(w) && k <= |w|
    ensures AllDigits(w[..k]) && DigitsValue(w[..k]) <= DigitsValue(w)
    decreases |w|
  {
    if k < |w| {
      var w' := w[..|w| - 1];
      assert AllDigits(w');
      DigitsValuePrefix(w', k);
      assert w'[..k] == w[..k];
    } else {
      assert w[..k] == w;
    }
  }

  /** Having read the digits `s[start..i]`, the loop ends with the value of all of
      `s[start..]`, negated, exactly when they are all digits and that value does not
      pass the limit. */
  lemma {:induction false} AccumulateValue(s: string, start: nat, i: nat, limit: int)
    requires start <= i <= |s|
    requires AllDigits(s[start..i]) && limit <= -(DigitsValue(s[start..i]) as int)
    ensures Accumulate(s, i, -(DigitsValue(s[start..i]) as int), limit) ==
      if AllDigits(s[start..]) && limit <= -(DigitsValue(s[start..]) as int) then Success(-(DigitsValue(s[start..]) as int))
      else Failure(NumberFormatError(s))
    decreases |s| - i
  {
    if i == |s| {
      assert s[start..i] == s[start..];
    } else if !IsDigit(s[i]) {
      assert s[start..][i - start] == s[i];
    } else {
      var u := s[start..i + 1];
      assert u[..|u| - 1] == s[start..i];
      assert AllDigits(u);
      var next := -(DigitsValue(u) as int);
      assert next == -(DigitsValue(s[start..i]) as int) * 10 - (s[i] as int - '0' as int);
      if next < limit {
        if AllDigits(s[start..]) {
          DigitsValuePrefix(s[start..], i + 1 - start);
          assert s[start..][..i + 1 - start] == u;
        }
      } else {
        AccumulateValue(s, start, i + 1, limit);
      }
    }
  }

  /** `toInt` succeeds exactly on the numerals whose value fits in 32 bits, with that
      value; anything else is a `NumberFormatException` carrying the input. */
  lemma ParseIntSpec(s: string)
    ensures ParseInt(s).Success? <==> IsNumeral(s) && MinInt <= NumeralValue(s) <= MaxInt
    ensures ParseInt(s).Success? ==> ParseInt(s).value == NumeralValue(s)
    ensures ParseInt(s).Failure? ==> ParseInt(s).error == NumberFormatError(s)
  {
    if |s| >= 2 && (s[0] == '-' || s[0] == '+') {
      assert s[1..1] == [];
      AccumulateValue(s, 1, 1, if s[0] == '-' then MinInt else -MaxInt);
    } else if |s| >= 1 && s[0] != '-' && s[0] != '+' {
      assert s[0..0] == [] && s[0..] == s;
      AccumulateValue(s, 0, 0, -MaxInt);
    }
  }

  /** Decimal rendering of a natural number, without sign or leading zeros. */
  function DecimalString(n: nat): (s: string)
    ensures |s| >= 1 && AllDigits(s)
  {
    if n < 10 then ['0' + n as char]
    else DecimalString(n / 10) + ['0' + (n % 10) as char]
  }

  lemma {:induction false} DigitsValueOfDecimal(n: nat)
    ensures DigitsValue(DecimalString(n)) == n
  {
    var s := DecimalString(n);
    if n >= 10 {
      DigitsValueOfDecimal(n / 10);
      assert s[..|s| - 1] == DecimalString(n / 10);
    }
  }

  /** `toInt` reads back what Int.toString writes, across the whole 32-bit range. */
  lemma ParseIntRoundTrip(n: int)
    requires MinInt <= n <= MaxInt
    ensures n >= 0 ==> ParseInt(DecimalString(n)) == Success(n)
    ensures n < 0 ==> ParseInt("-" + DecimalString(-n)) == Success(n)
  {
    ParseIntSpec(if n >= 0 then DecimalString(n) else "-" + DecimalString(-n));
    if n >= 0 {
      DigitsValueOfDecimal(n);
    } else {
      DigitsValueOfDecimal(-n);
      assert ("-" + DecimalString(-n))[1..] == DecimalString(-n);
    }
  }

  // ---------------------------------------------------------------- contains

  /** ASCII `uppercaseChar` / `lowercaseChar`. */
  function UpperChar(c: char): char
  {
    if 'a' <= c <= 'z' then (c as int - 32) as char else c
  }

  function LowerChar(c: char): char
  {
    if 'A' <= c <= 'Z' then (c as int + 32) as char else c
  }

  /** `Char.equals(other, ignoreCase = true)`: equal after upper-casing, or after
      upper- then lower-casing. */
  predicate CharEqualsIgnoreCase(a: char, b: char)
  {
    UpperChar(a) == UpperChar(b) || LowerChar(UpperChar(a)) == LowerChar(UpperChar(b))
  }

  predicate CharEquals(a: char, b: char, ignoreCase: bool)
  {
    if ignoreCase then CharEqualsIgnoreCase(a, b) else a == b
  }

  /** `regionMatches`: `needle` occurs in `text` starting at index `i`. */
  predicate OccursAt(text: string, needle: string, i: int, ignoreCase: bool)
  {
    0 <= i && i + |needle| <= |text| &&
    forall j :: 0 <= j < |needle| ==> CharEquals(text[i + j], needle[j], ignoreCase)
  }

  /** `text.contains(needle, ignoreCase)`, scanning start positions left to right
      as `indexOf` does. */
  function Contains(text: string, needle: string, ignoreCase: bool): bool
  {
    ContainsFrom(text, needle, 0, ignoreCase)
  }

  function ContainsFrom(text: string, needle: string, from: nat, ignoreCase: bool): bool
    decreases |text| - from
  {
    if from + |needle| > |text| then false
    else if OccursAt(text, needle, from, ignoreCase) then true
    else ContainsFrom(text, needle, from + 1, ignoreCase)
  }

  /** The scan finds the needle exactly when it occurs somewhere. */
  lemma ContainsSpec(text: string, needle: string, ignoreCase: bool)
    ensures Contains(text, needle, ignoreCase) <==> exists i :: OccursAt(text, needle, i, ignoreCase)
  {
    ContainsFromSpec(text, needle, 0, ignoreCase);
  }

  lemma {:induction false} ContainsFromSpec(text: string, needle: string, from: nat, ignoreCase: bool)
    ensures ContainsFrom(text, needle, from, ignoreCase) <==>
      exists i :: from <= i && OccursAt(text, needle, i, ignoreCase)
    decreases |text| - from
  {
    if from + |needle| <= |text| && !OccursAt(text, needle, from, ignoreCase) {
      ContainsFromSpec(text, needle, from + 1, ignoreCase);
    }
  }

  /** A text that holds the needle anywhere, between any prefix and suffix, contains
      it, whether or not case is ignored. */
  lemma ContainsEmbedded(before: string, needle: string, after: string, ignoreCase: bool)
    ensures Contains(before + needle + after, needle, ignoreCase)
  {
    var text := before + needle + after;
    ContainsSpec(text, needle, ignoreCase);
    forall j | 0 <= j < |needle| ensures CharEquals(text[|before| + j], needle[j], ignoreCase) {
      assert text[|before| + j] == needle[j];
    }
    assert OccursAt(text, needle, |before|, ignoreCase);
  }
}
