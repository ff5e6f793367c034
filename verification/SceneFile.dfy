/** The scene file: one line per scene, 513 decimal numbers separated by commas. */
module SceneFile {
  import opened Dmx
  import opened JavaInt

  datatype Option<T> = None | Some(value: T)

  function Digit(d: nat): char
    requires d < 10
  {
    ('0' as int + d) as char
  }

  predicate IsDigit(c: char) { '0' <= c <= '9' }

  function Digits(n: nat): (s: string)
    ensures 0 < |s| && forall i | 0 <= i < |s| :: IsDigit(s[i])
  {
    if n < 10 then [Digit(n)] else Digits(n / 10) + [Digit(n % 10)]
  }

  /** Decimal text of an integer, as string concatenation prints it. */
  function Print(v: int): (s: string)
    ensures 0 < |s| && forall i | 0 <= i < |s| :: IsDigit(s[i]) || s[i] == '-'
  {
    if v < 0 then "-" + Digits(-v) else Digits(v)
  }

  function Value(s: string): Option<nat> {
    if s == "" || !IsDigit(s[|s| - 1]) then None
    else
      var d := s[|s| - 1] as int - '0' as int;
      if |s| == 1 then Some(d)
      else match Value(s[..|s| - 1])
        case None => None
        case Some(n) => Some(10 * n + d)
  }

  /** Integer.parseInt: an optional sign, at least one digit, and a 32-bit value. */
  function Parse(s: string): Option<int> {
    var negative := s != "" && s[0] == '-';
    var signed := negative || (s != "" && s[0] == '+');
    match Value(if signed then s[1..] else s)
    case None => None
    case Some(n) =>
      var magnitude: int := n;
      var v := if negative then -magnitude else magnitude;
      if IsInt(v) then Some(v) else None
  }

  lemma {:induction false} ValueOfDigits(n: nat)
    ensures Value(Digits(n)) == Some(n)
  {
    if 10 <= n {
      ValueOfDigits(n / 10);
      assert Digits(n)[..|Digits(n)| - 1] == Digits(n / 10);
    }
  }

  function Power10(k: nat): nat { if k == 0 then 1 else 10 * Power10(k - 1) }

  /** The sum of the digits times their powers of ten, the first digit highest. */
  function Weighted(s: string): int {
    if s == "" then 0 else (s[0] as int - '0' as int) * Power10(|s| - 1) + Weighted(s[1..])
  }

  lemma {:induction false} WeightedLast(s: string, c: char)
    ensures Weighted(s + [c]) == 10 * Weighted(s) + (c as int - '0' as int)
  {
    var longer := s + [c];
    if s == "" {
      assert longer[1..] == "" && longer == [c];
    } else {
      WeightedLast(s[1..], c);
      assert longer[1..] == s[1..] + [c] && Power10(|s|) == 10 * Power10(|s| - 1);
      var d := s[0] as int - '0' as int;
      assert d * (10 * Power10(|s| - 1)) == 10 * (d * Power10(|s| - 1));
    }
  }

  /** A non-empty string of digits denotes its decimal value, and nothing else does. */
  lemma {:induction false} ValueIsDecimal(s: string)
    ensures Value(s) == if s != "" && AllDigits(s) then Some(Weighted(s)) else None
  {
    if s != "" {
      var front, c := s[..|s| - 1], s[|s| - 1];
      assert s == front + [c];
      WeightedLast(front, c);
      AllDigitsLast(front, c);
      ValueIsDecimal(front);
    }
  }

  predicate AllDigits(s: string) { forall i | 0 <= i < |s| :: IsDigit(s[i]) }

  lemma AllDigitsLast(front: string, c: char)
    ensures AllDigits(front + [c]) <==> AllDigits(front) && IsDigit(c)
  {
    assert (front + [c])[|front|] == c && forall i | 0 <= i < |front| :: (front + [c])[i] == front[i];
  }

  /** Printing gives the decimal digits without leading zeros. */
  lemma {:induction false} DigitsAreDecimal(n: nat)
    ensures Weighted(Digits(n)) == n && (10 <= n ==> Digits(n)[0] != '0')
  {
    if n < 10 {
      assert Digits(n)[1..] == "" && Power10(0) == 1;
    } else {
      DigitsAreDecimal(n / 10);
      WeightedLast(Digits(n / 10), Digit(n % 10));
    }
  }

  lemma ParsePrint(v: int)
    requires IsInt(v)
    ensures Parse(Print(v)) == Some(v)
  {
    if v < 0 {
      ValueOfDigits(-v);
      assert Print(v)[1..] == Digits(-v);
    } else {
      ValueOfDigits(v);
    }
  }

  /** The pieces of `s` between separators. */
  function Split(s: string, sep: char): (r: seq<string>)
    ensures 0 < |r|
  {
    if s == "" then [""]
    else
      var rest := Split(s[1..], sep);
      if s[0] == sep then [""] + rest else [[s[0]] + rest[0]] + rest[1..]
  }

  function Join(pieces: seq<string>, sep: char): string {
    if pieces == [] then ""
    else if |pieces| == 1 then pieces[0]
    else Join(pieces[..|pieces| - 1], sep) + [sep] + pieces[|pieces| - 1]
  }

  /** Every line end that readLine knows (a line feed, a carriage return, or both in this order)
      as a line feed. */
  function Unified(text: string): string {
    if text == "" then ""
    else if text[0] == '\r' then "\n" + Unified(text[if 1 < |text| && text[1] == '\n' then 2 else 1..])
    else [text[0]] + Unified(text[1..])
  }

  lemma {:induction false} UnifiedPlain(text: string)
    requires '\r' !in text
    ensures Unified(text) == text
  {
    if text != "" {
      UnifiedPlain(text[1..]);
      assert [text[0]] + text[1..] == text;
    }
  }

  /** Lines as readLine delivers them: a final line end ends the last line. */
  function Lines(text: string): seq<string> { Ended(Unified(text)) }

  /** Lines of a text whose line ends are line feeds. */
  function Ended(text: string): seq<string> {
    var parts := Split(text, '\n');
    if parts[|parts| - 1] == "" then parts[..|parts| - 1] else parts
  }

  lemma {:induction false} SplitNone(piece: string, sep: char)
    requires sep !in piece
    ensures Split(piece, sep) == [piece]
  {
    if piece != "" {
      SplitNone(piece[1..], sep);
      assert [piece[0]] + piece[1..] == piece;
    }
  }

  lemma {:induction false} SplitLast(s: string, sep: char, last: string)
    requires sep !in last
    ensures Split(s + [sep] + last, sep) == Split(s, sep) + [last]
  {
    var t := s + [sep] + last;
    if s == "" {
      assert t[1..] == last;
      SplitNone(last, sep);
    } else {
      assert t[1..] == s[1..] + [sep] + last;
      SplitLast(s[1..], sep, last);
    }
  }

  lemma {:induction false} SplitJoin(pieces: seq<string>, sep: char)
    requires pieces != [] && forall i | 0 <= i < |pieces| :: sep !in pieces[i]
    ensures Split(Join(pieces, sep), sep) == pieces
  {
    var k := |pieces| - 1;
    if k == 0 {
      SplitNone(pieces[0], sep);
    } else {
      SplitJoin(pieces[..k], sep);
      SplitLast(Join(pieces[..k], sep), sep, pieces[k]);
    }
  }

  ghost predicate IsRow(row: seq<int>) { |row| == SLOTS && forall i | 0 <= i < |row| :: IsInt(row[i]) }

  function Printed(row: seq<int>): (p: seq<string>)
    ensures |p| == |row| && forall i | 0 <= i < |p| :: p[i] == Print(row[i])
  {
    seq(|row|, i requires 0 <= i < |row| => Print(row[i]))
  }

  function RowText(row: seq<int>): string { Join(Printed(row), ',') }

  function RowTexts(scenes: seq<seq<int>>): (t: seq<string>)
    ensures |t| == |scenes| && forall k | 0 <= k < |t| :: t[k] == RowText(scenes[k])
  {
    seq(|scenes|, k requires 0 <= k < |scenes| => RowText(scenes[k]))
  }

  /** Lines with a line break after each. */
  function Concat(lines: seq<string>): string {
    if lines == [] then "" else Concat(lines[..|lines| - 1]) + (lines[|lines| - 1] + ['\n'])
  }

  /** The text of a scene list. */
  function Text(scenes: seq<seq<int>>): string { Concat(RowTexts(scenes)) }

  /** The row's first i numbers, with a comma after each. */
  function Begun(row: seq<int>, i: nat): string
    requires i <= |row|
  {
    if i == 0 then "" else RowText(row[..i]) + ","
  }

  lemma BegunStep(row: seq<int>, i: nat)
    requires i < |row|
    ensures Begun(row, i) + Print(row[i]) == RowText(row[..i + 1])
  {
    assert Printed(row[..i + 1])[..i] == Printed(row[..i]);
  }

  lemma Regroup(a: string, b: string, c: string)
    ensures a + (b + c) == a + b + c
  {
  }

  /** The line of one scene, built by the writer's inner loop. */
  method WriteLine(row: seq<int>) returns (line: string)
    requires |row| == SLOTS
    ensures line == RowText(row) + ['\n']
  {
    line := "";
    for i := 0 to SLOTS
      invariant line == if i < SLOTS then Begun(row, i) else RowText(row[..i]) + "\n"
    {
      BegunStep(row, i);
      if i != 512 {
        Regroup(line, Print(row[i]), ",");
        line := line + (Print(row[i]) + ",");
      } else {
        Regroup(line, Print(row[i]), "\n");
        line := line + (Print(row[i]) + "\n");
      }
    }
    assert row[..SLOTS] == row;
  }

  lemma TextPrefix(scenes: seq<seq<int>>, k: nat)
    requires k < |scenes|
    ensures Text(scenes[..k + 1]) == Text(scenes[..k]) + (RowText(scenes[k]) + ['\n'])
  {
    assert RowTexts(scenes[..k + 1])[..k] == RowTexts(scenes[..k]);
  }

  method UpdateSceneFile(scenes: seq<seq<int>>) returns (text: string)
    requires forall i | 0 <= i < |scenes| :: |scenes[i]| == SLOTS
    ensures text == Text(scenes)
  {
    text := "";
    for k := 0 to |scenes|
      invariant text == Text(scenes[..k])
    {
      var line := WriteLine(scenes[k]);
      TextPrefix(scenes, k);
      text := text + line;
    }
    assert scenes[..|scenes|] == scenes;
  }

  /** String.split drops empty pieces at the end. */
  function DropTrailing(pieces: seq<string>): seq<string> {
    if pieces != [] && pieces[|pieces| - 1] == "" then DropTrailing(pieces[..|pieces| - 1]) else pieces
  }

  function Pieces(line: string): seq<string> { DropTrailing(Split(line, ',')) }

  /** `row` is what the reader makes of a line; further pieces are ignored. */
  ghost predicate RowOf(line: string, row: seq<int>) {
    |row| == SLOTS <= |Pieces(line)| && forall i | 0 <= i < SLOTS :: Parse(Pieces(line)[i]) == Some(row[i])
  }

  ghost predicate FileOf(text: string, scenes: seq<seq<int>>) {
    |scenes| == |Lines(text)| && forall k | 0 <= k < |scenes| :: RowOf(Lines(text)[k], scenes[k])
  }

  /** None when a piece is missing or is not a number: the source throws. */
  method ParseLine(line: string) returns (r: Option<seq<int>>)
    ensures r.Some? ==> RowOf(line, r.value)
    ensures forall row | RowOf(line, row) :: r == Some(row)
  {
    var pieces, row := Pieces(line), [];
    for i := 0 to SLOTS
      invariant |row| == i <= |pieces| && forall j | 0 <= j < i :: Parse(pieces[j]) == Some(row[j])
    {
      if |pieces| <= i {
        return None;
      }
      match Parse(pieces[i])
      case None => return None;
      case Some(v) => row := row + [v];
    }
    forall other | RowOf(line, other) ensures other == row {
      RowUnique(line, other, row);
    }
    return Some(row);
  }

  method ParseSceneFile(text: string) returns (r: Option<seq<seq<int>>>)
    ensures r.Some? ==> FileOf(text, r.value)
    ensures forall scenes | FileOf(text, scenes) :: r == Some(scenes)
  {
    var lines, scenes := Lines(text), [];
    for k := 0 to |lines|
      invariant |scenes| == k && forall j | 0 <= j < k :: RowOf(lines[j], scenes[j])
    {
      var row := ParseLine(lines[k]);
      match row
      case None =>
        assert forall s :: FileOf(text, s) ==> RowOf(lines[k], s[k]);
        return None;
      case Some(v) => scenes := scenes + [v];
    }
    forall other | FileOf(text, other) ensures other == scenes {
      FileUnique(text, other, scenes);
    }
    return Some(scenes);
  }

  lemma RowUnique(line: string, a: seq<int>, b: seq<int>)
    requires RowOf(line, a) && RowOf(line, b)
    ensures a == b
  {
    forall i | 0 <= i < SLOTS ensures a[i] == b[i] {
      assert Parse(Pieces(line)[i]) == Some(a[i]) == Some(b[i]);
    }
  }

  lemma FileUnique(text: string, a: seq<seq<int>>, b: seq<seq<int>>)
    requires FileOf(text, a) && FileOf(text, b)
    ensures a == b
  {
    forall k | 0 <= k < |a| ensures a[k] == b[k] {
      RowUnique(Lines(text)[k], a[k], b[k]);
    }
  }

  lemma PrintedPieces(row: seq<int>)
    requires IsRow(row)
    ensures Pieces(RowText(row)) == Printed(row) && RowOf(RowText(row), row)
    ensures '\n' !in RowText(row) && '\r' !in RowText(row)
  {
    SplitJoin(Printed(row), ',');
    JoinHasNo(Printed(row), '\n');
    JoinHasNo(Printed(row), '\r');
    forall i | 0 <= i < SLOTS ensures Parse(Printed(row)[i]) == Some(row[i]) {
      ParsePrint(row[i]);
    }
  }

  lemma {:induction false} JoinHasNo(pieces: seq<string>, c: char)
    requires c != ',' && forall i | 0 <= i < |pieces| :: c !in pieces[i]
    ensures c !in Join(pieces, ',')
  {
    if |pieces| > 1 {
      JoinHasNo(pieces[..|pieces| - 1], c);
    }
  }

  /** The text ends with a line end, or is empty. */
  predicate Closed(text: string) { var parts := Split(text, '\n'); parts[|parts| - 1] == "" }

  /** Splitting off the last, finished line. */
  lemma EndedLast(front: string, line: string)
    requires '\n' !in line && Closed(front)
    ensures Ended(front + (line + ['\n'])) == Ended(front) + [line]
    ensures Closed(front + (line + ['\n']))
  {
    var parts := Split(front, '\n');
    var both := front + line;
    Regroup(front, line, ['\n']);
    SplitAfterBreak(front, line);
    SplitBreak(both);
    DropLast(parts[..|parts| - 1] + [line], "");
  }

  lemma {:induction false} SplitBreak(s: string)
    ensures Split(s + ['\n'], '\n') == Split(s, '\n') + [""]
  {
    var t := s + ['\n'];
    if s == "" {
      assert t[1..] == "";
    } else {
      assert t[1..] == s[1..] + ['\n'];
      SplitBreak(s[1..]);
    }
  }

  lemma DropLast(s: seq<string>, last: string)
    ensures (s + [last])[..|s + [last]| - 1] == s && (s + [last])[|s + [last]| - 1] == last
  {
  }

  /** Text after a final break extends the empty last piece. */
  lemma {:induction false} SplitAfterBreak(front: string, line: string)
    requires '\n' !in line && Closed(front)
    ensures Split(front + line, '\n') == Split(front, '\n')[..|Split(front, '\n')| - 1] + [line]
  {
    if front == "" {
      assert front + line == line;
      SplitNone(line, '\n');
    } else {
      var rest := Split(front[1..], '\n');
      assert (front + line)[1..] == front[1..] + line;
      assert |rest| == 1 ==> front[0] == '\n';
      SplitAfterBreak(front[1..], line);
    }
  }

  /** The lines of a text built line by line are those lines. */
  lemma {:induction false} EndedConcat(lines: seq<string>)
    requires forall k | 0 <= k < |lines| :: '\n' !in lines[k]
    ensures Ended(Concat(lines)) == lines
    ensures Closed(Concat(lines))
  {
    if lines != [] {
      var k := |lines| - 1;
      var front := Concat(lines[..k]);
      EndedConcat(lines[..k]);
      EndedLast(front, lines[k]);
      assert lines == lines[..k] + [lines[k]];
    }
  }

  /** Round trip: every list of 513-number scenes is read back as it was written. */
  lemma WrittenFileReadsBack(scenes: seq<seq<int>>)
    requires forall k | 0 <= k < |scenes| :: IsRow(scenes[k])
    ensures FileOf(Text(scenes), scenes)
  {
    forall k | 0 <= k < |scenes|
      ensures RowOf(RowText(scenes[k]), scenes[k]) && '\n' !in RowText(scenes[k]) && '\r' !in RowText(scenes[k])
    {
      PrintedPieces(scenes[k]);
    }
    EndedConcat(RowTexts(scenes));
    ConcatHasNoReturn(RowTexts(scenes));
    UnifiedPlain(Text(scenes));
  }

  lemma {:induction false} ConcatHasNoReturn(lines: seq<string>)
    requires forall k | 0 <= k < |lines| :: '\r' !in lines[k]
    ensures '\r' !in Concat(lines)
  {
    if lines != [] {
      ConcatHasNoReturn(lines[..|lines| - 1]);
    }
  }

  method SaveAndReload(scenes: seq<seq<int>>) returns (r: Option<seq<seq<int>>>)
    requires forall k | 0 <= k < |scenes| :: IsRow(scenes[k])
    ensures r == Some(scenes)
  {
    var text := UpdateSceneFile(scenes);
    WrittenFileReadsBack(scenes);
    r := ParseSceneFile(text);
  }
}
