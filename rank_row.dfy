/** `weeklyRankPairFormatter`: one leaderboard row's text, split on single spaces,
    becomes its integer position and a labelled four-line block. */
module RankRow {
  import opened Outcomes
  import opened KotlinText

  /** The pair the formatter returns: the sort key and the rendered text. */
  datatype RankEntry = RankEntry(position: int, text: string)

  /** The four fields of a row as the formatter reads them, verbatim. */
  datatype RowFields = RowFields(position: string, name: string, university: string, points: string)

  /** The tokens of the Name: token 1, then tokens 2 .. lastIndex-2 (none when the
      row has fewer than five tokens). */
  function NameTokens(t: seq<string>): (r: seq<string>)
    requires |t| >= 2
    ensures |r| >= 1 && r[0] == t[1]
  {
    t[1..if |t| >= 4 then |t| - 2 else 2]
  }

  /** Where each field comes from: token 0, the Name tokens joined with single spaces,
      token lastIndex-1 and token lastIndex. */
  function Fields(t: seq<string>): RowFields
    requires |t| >= 2
  {
    RowFields(t[0], Join(NameTokens(t), ' '), t[|t| - 2], t[|t| - 1])
  }

  /** `StringBuilder.appendLine`: the line, then a line feed. */
  function AppendLine(text: string, line: string): string
  {
    text + line + "\n"
  }

  /** The block of four newline-terminated labelled lines. */
  function Render(f: RowFields): string
  {
    var text := AppendLine([], "Position: " + f.position);
    var text := AppendLine(text, "Name: " + f.name);
    var text := AppendLine(text, "University: " + f.university);
    AppendLine(text, "Points: " + f.points)
  }

  /** The row text the fields were read from, fields separated by single spaces. */
  function Unparse(f: RowFields): string
  {
    f.position + " " + f.name + " " + f.university + " " + f.points
  }

  /** What the formatter returns for `input`. `toInt` on token 0 runs first, so a
      non-numeral there wins; a row of one token then fails on `tokens[1]`. */
  function FormatRow(input: string): Result<RankEntry>
  {
    var t := Split(input, ' ');
    var position :- ParseInt(t[0]);
    if |t| < 2 then Failure(IndexOutOfBounds(1, |t|))
    else Success(RankEntry(position, Render(Fields(t))))
  }

  /** The formatter itself: the Name is built token by token in a loop, the block by
      four appended lines. */
  method WeeklyRankPairFormatter(input: string) returns (r: Result<RankEntry>)
    ensures r == FormatRow(input)
  {
    var tokens := Split(input, ' ');
    var position := ParseInt(tokens[0]);
    if position.Failure? {
      return Failure(position.error);
    }
    if |tokens| < 2 {
      return Failure(IndexOutOfBounds(1, |tokens|));
    }
    var last := |tokens| - 1;
    var name := tokens[1];
    var i := 2;
    while i <= last - 2
      invariant 2 <= i && (i <= last - 1 || i == 2)
      invariant name == Join(tokens[1..i], ' ')
    {
      assert tokens[1..i + 1] == tokens[1..i] + [tokens[i]];
      JoinAppend(tokens[1..i], [tokens[i]], ' ');
      name := name + " " + tokens[i];
      i := i + 1;
    }
    assert tokens[1..i] == NameTokens(tokens);
    var text := "";
    text := AppendLine(text, "Position: " + tokens[0]);
    text := AppendLine(text, "Name: " + name);
    text := AppendLine(text, "University: " + tokens[last - 1]);
    text := AppendLine(text, "Points: " + tokens[last]);
    r := Success(RankEntry(position.value, text));
  }

  /** The error cases and the sort key: a non-numeral (or out-of-range) token 0 is a
      NumberFormatException; otherwise a row without a second token is an index error;
      every other row succeeds with token 0's integer value as its position. */
  lemma FormatRowOutcome(input: string)
    ensures var t := Split(input, ' ');
      && (!IsNumeral(t[0]) || !(MinInt <= NumeralValue(t[0]) <= MaxInt) ==>
            FormatRow(input) == Failure(NumberFormatError(t[0])))
      && (IsNumeral(t[0]) && MinInt <= NumeralValue(t[0]) <= MaxInt ==>
            if |t| < 2 then FormatRow(input) == Failure(IndexOutOfBounds(1, |t|))
            else FormatRow(input).Success? && FormatRow(input).value.position == NumeralValue(t[0]))
  {
    ParseIntSpec(Split(input, ' ')[0]);
  }

  /** With at least four tokens the fields are: Position token 0, Name the tokens
      1 .. lastIndex-2, University and Points the last two; joining them with single
      spaces gives back the row. */
  lemma {:induction false} FieldsRoundTrip(input: string)
    requires |Split(input, ' ')| >= 4
    ensures var t := Split(input, ' ');
      && Fields(t).position == t[0]
      && Split(Fields(t).name, ' ') == t[1..|t| - 2]
      && Fields(t).university == t[|t| - 2]
      && Fields(t).points == t[|t| - 1]
      && Unparse(Fields(t)) == input
  {
    var t := Split(input, ' ');
    var n := |t|;
    SplitPiecesLack(input, ' ', ' ');
    SplitJoin(t[1..n - 2], ' ');
    JoinSplit(input, ' ');
    assert t == [t[0]] + t[1..n - 2] + [t[n - 2]] + [t[n - 1]];
    JoinAppend([t[0]], t[1..n - 2], ' ');
    JoinAppend([t[0]] + t[1..n - 2], [t[n - 2]], ' ');
    JoinAppend([t[0]] + t[1..n - 2] + [t[n - 2]], [t[n - 1]], ' ');
  }

  /** Conversely, fields with no space in Position, University or Points read back
      as themselves, whatever the Name holds. */
  lemma {:induction false} UnparseRoundTrip(f: RowFields)
    requires ' ' !in f.position && ' ' !in f.university && ' ' !in f.points
    ensures |Split(Unparse(f), ' ')| >= 4
    ensures Fields(Split(Unparse(f), ' ')) == f
  {
    var ns := Split(f.name, ' ');
    JoinSplit(f.name, ' ');
    SplitNoSeparator(f.position, ' ');
    SplitNoSeparator(f.university, ' ');
    SplitNoSeparator(f.points, ' ');
    var up := f.university + [' '] + f.points;
    SplitAround(f.university, f.points, ' ');
    var nup := f.name + [' '] + up;
    SplitAround(f.name, up, ' ');
    SplitAround(f.position, nup, ' ');
    assert Unparse(f) == f.position + [' '] + nup;
    var t := Split(Unparse(f), ' ');
    assert t == [f.position] + ns + [f.university, f.points];
    assert t[1..|t| - 2] == ns;
  }

  /** Four newline-free lines, each appended with `appendLine`, split into those
      lines and a trailing empty piece. */
  lemma FourLines(l1: string, l2: string, l3: string, l4: string)
    requires '\n' !in l1 && '\n' !in l2 && '\n' !in l3 && '\n' !in l4
    ensures Split(AppendLine(AppendLine(AppendLine(AppendLine([], l1), l2), l3), l4), '\n')
            == [l1, l2, l3, l4, ""]
  {
    var nl := '\n';
    var s4 := l4 + [nl] + [];
    var s3 := l3 + [nl] + s4;
    var s2 := l2 + [nl] + s3;
    var s1 := l1 + [nl] + s2;
    assert AppendLine([], l1) == l1 + [nl];
    assert AppendLine(l1 + [nl], l2) == l1 + [nl] + (l2 + [nl]);
    assert AppendLine(l1 + [nl] + (l2 + [nl]), l3) == l1 + [nl] + (l2 + [nl] + (l3 + [nl]));
    assert AppendLine(l1 + [nl] + (l2 + [nl] + (l3 + [nl])), l4) == s1;
    SplitNoSeparator([], nl);
    SplitNoSeparator(l1, nl);
    SplitNoSeparator(l2, nl);
    SplitNoSeparator(l3, nl);
    SplitNoSeparator(l4, nl);
    SplitAround(l4, [], nl);
    SplitAround(l3, s4, nl);
    SplitAround(l2, s3, nl);
    SplitAround(l1, s2, nl);
  }

  /** A row without line breaks renders as exactly four newline-terminated lines:
      Position, Name, University and Points, in that order. */
  lemma FormatRowLines(input: string)
    requires '\n' !in input
    requires FormatRow(input).Success?
    ensures var t := Split(input, ' ');
      Split(FormatRow(input).value.text, '\n') ==
        ["Position: " + t[0], "Name: " + Fields(t).name, "University: " + t[|t| - 2], "Points: " + t[|t| - 1], ""]
  {
    var t := Split(input, ' ');
    var f := Fields(t);
    SplitPiecesLack(input, ' ', '\n');
    JoinLacks(NameTokens(t), ' ', '\n');
    var l1, l2, l3, l4 := "Position: " + f.position, "Name: " + f.name,
                          "University: " + f.university, "Points: " + f.points;
    assert '\n' !in l1 && '\n' !in l2 && '\n' !in l3 && '\n' !in l4;
    FourLines(l1, l2, l3, l4);
  }
}
