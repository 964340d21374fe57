/**
 * The text formats of the pacman level files and the string primitives they
 * are read with: `str::lines`, `str::split_whitespace`, `char`'s and `u32`'s
 * `FromStr`. Comment lines start with '#'; empty lines are skipped.
 *
 * A pivot line holds four T/F flags (up, down, left, right) and two
 * coordinates; a position line holds two coordinates. Tokens after those are
 * ignored. Formatting functions give the canonical text of a level, and the
 * round-trip lemmas show the readers recover exactly what was written.
 */
module LevelFiles {
  import opened Wrappers

  const U32Limit := 0x1_0000_0000

  // ---------------------------------------------------------------------------
  // `str::lines`
  // ---------------------------------------------------------------------------

  /** Characters before the first '\n' (all of them if there is none). */
  function LineLength(s: string): (n: nat)
    ensures n <= |s|
    ensures forall i :: 0 <= i < n ==> s[i] != '\n'
    ensures n < |s| ==> s[n] == '\n'
  {
    if |s| == 0 || s[0] == '\n' then 0 else 1 + LineLength(s[1..])
  }

  /** A '\r' that ended up before a '\n' is part of a "\r\n" terminator. */
  function StripCR(l: string): string {
    if |l| > 0 && l[|l| - 1] == '\r' then l[..|l| - 1] else l
  }

  /**
   * `str::lines`: pieces between '\n's, each stripped of a "\r" that came
   * right before its '\n'; a final piece without a terminator is kept as is,
   * and a terminator at the very end does not start an empty last line.
   */
  function Lines(s: string): seq<string>
    decreases |s|
  {
    if |s| == 0 then []
    else
      var n := LineLength(s);
      if n == |s| then [s] else [StripCR(s[..n])] + Lines(s[n + 1..])
  }

  /** The lines both readers drop: comments and empty lines. */
  predicate Skipped(l: string) {
    (|l| > 0 && l[0] == '#') || l == ""
  }

  function Keep(ls: seq<string>): (r: seq<string>)
    decreases |ls|
  {
    if |ls| == 0 then []
    else (if Skipped(ls[0]) then [] else [ls[0]]) + Keep(ls[1..])
  }

  function KeptLines(content: string): seq<string> {
    Keep(Lines(content))
  }

  /** Keeping is filtering: a line survives exactly when it is not skipped, and the order is kept. */
  lemma {:induction false} KeepIsFilter(ls: seq<string>)
    ensures forall l :: l in Keep(ls) <==> l in ls && !Skipped(l)
    ensures |Keep(ls)| <= |ls|
    ensures (forall k :: 0 <= k < |ls| ==> !Skipped(ls[k])) ==> Keep(ls) == ls
    decreases |ls|
  {
    if |ls| > 0 {
      KeepIsFilter(ls[1..]);
      assert ls == [ls[0]] + ls[1..];
      if (forall k :: 0 <= k < |ls| ==> !Skipped(ls[k])) {
        assert forall k :: 0 <= k < |ls[1..]| ==> !Skipped(ls[1..][k]) by {
          forall k | 0 <= k < |ls[1..]| ensures !Skipped(ls[1..][k]) {
            assert ls[1..][k] == ls[k + 1];
          }
        }
      }
    }
  }

  // ---------------------------------------------------------------------------
  // `str::split_whitespace`
  // ---------------------------------------------------------------------------

  /** `char::is_whitespace`: the Unicode White_Space property. */
  predicate IsWhitespace(c: char) {
    ('\U{9}' <= c <= '\U{D}') || c == ' ' || c == '\U{85}' || c == '\U{A0}' || c == '\U{1680}' ||
    ('\U{2000}' <= c <= '\U{200A}') || c == '\U{2028}' || c == '\U{2029}' || c == '\U{202F}' ||
    c == '\U{205F}' || c == '\U{3000}'
  }

  predicate NoWhitespace(w: string) {
    forall i :: 0 <= i < |w| ==> !IsWhitespace(w[i])
  }

  /** Length of the leading run of non-whitespace characters. */
  function WordLength(s: string): (n: nat)
    ensures n <= |s|
    ensures NoWhitespace(s[..n])
    ensures n < |s| ==> IsWhitespace(s[n])
  {
    if |s| == 0 || IsWhitespace(s[0]) then 0
    else
      var m := WordLength(s[1..]);
      assert s[..m + 1] == [s[0]] + s[1..][..m];
      1 + m
  }

  /** The maximal runs of non-whitespace characters, in order. */
  function Tokens(s: string): (r: seq<string>)
    ensures forall k :: 0 <= k < |r| ==> |r[k]| > 0 && NoWhitespace(r[k])
    decreases |s|
  {
    if |s| == 0 then []
    else if IsWhitespace(s[0]) then Tokens(s[1..])
    else
      var n := WordLength(s);
      [s[..n]] + Tokens(s[n..])
  }

  lemma WordLengthOfWord(w: string, rest: string)
    requires NoWhitespace(w)
    requires rest == [] || IsWhitespace(rest[0])
    ensures WordLength(w + rest) == |w|
    decreases |w|
  {
    if |w| > 0 {
      assert (w + rest)[1..] == w[1..] + rest;
      WordLengthOfWord(w[1..], rest);
    } else {
      assert w + rest == rest;
    }
  }

  /** A word followed by one separator is the first token of a line. */
  lemma TokensOfWord(w: string, rest: string)
    requires |w| > 0 && NoWhitespace(w)
    ensures Tokens(w + [' '] + rest) == [w] + Tokens(rest)
    ensures Tokens(w) == [w]
  {
    var s := w + [' '] + rest;
    WordLengthOfWord(w, [' '] + rest);
    assert s == w + ([' '] + rest);
    assert s[..|w|] == w;
    assert s[|w|..] == [' '] + rest;
    assert s[|w|..][1..] == rest;
    WordLengthOfWord(w, []);
    assert w + [] == w;
    assert w[..|w|] == w && w[|w|..] == [];
  }

  // ---------------------------------------------------------------------------
  // `FromStr` for `char` and `u32`
  // ---------------------------------------------------------------------------

  /** `char_to_bool`: T/t is true, F/f is false, anything else is rejected. */
  function CharToBool(c: char): (r: Option<bool>)
    ensures r == Some(true) <==> c == 'T' || c == 't'
    ensures r == Some(false) <==> c == 'F' || c == 'f'
  {
    match c
    case 'T' => Some(true)
    case 't' => Some(true)
    case 'F' => Some(false)
    case 'f' => Some(false)
    case _ => None
  }

  /** `parse::<char>()` (exactly one character) followed by `char_to_bool`. */
  function ParseFlag(tok: string): Option<bool> {
    if |tok| == 1 then CharToBool(tok[0]) else None
  }

  predicate IsDigit(c: char) {
    '0' <= c <= '9'
  }

  function DigitValue(c: char): nat
    requires IsDigit(c)
  {
    c as int - '0' as int
  }

  function DigitsValue(d: string): nat
    requires forall i :: 0 <= i < |d| ==> IsDigit(d[i])
    decreases |d|
  {
    if |d| == 0 then 0 else 10 * DigitsValue(d[..|d| - 1]) + DigitValue(d[|d| - 1])
  }

  /**
   * `parse::<u32>()`: an optional '+', then one or more ASCII digits whose
   * value fits in 32 bits.
   */
  function ParseU32(tok: string): (r: Option<nat>)
    ensures r.Some? ==> r.value < U32Limit
    ensures r.Some? ==> |tok| > 0 && (IsDigit(tok[0]) || tok[0] == '+')
  {
    var digits := if |tok| > 0 && tok[0] == '+' then tok[1..] else tok;
    if |digits| == 0 || exists i :: 0 <= i < |digits| && !IsDigit(digits[i]) then None
    else if DigitsValue(digits) < U32Limit then Some(DigitsValue(digits))
    else None
  }

  // ---------------------------------------------------------------------------
  // The two line formats
  // ---------------------------------------------------------------------------

  /** One `read_pivots` record: the allowed directions and the pivot's centre. */
  datatype PivotRow = PivotRow(up: bool, down: bool, left: bool, right: bool, x: nat, y: nat)

  /** One pivot line: four flags, then two coordinates, then anything. */
  function ParsePivotLine(line: string): (r: Option<PivotRow>)
    ensures r.Some? ==> r.value.x < U32Limit && r.value.y < U32Limit
  {
    ParsePivotFields(Tokens(line))
  }

  /** The `parts.next()?` chain of a pivot line over its tokens. */
  function ParsePivotFields(t: seq<string>): (r: Option<PivotRow>)
    ensures r.Some? ==> r.value.x < U32Limit && r.value.y < U32Limit
  {
    if |t| < 6 then None
    else
      match (ParseFlag(t[0]), ParseFlag(t[1]), ParseFlag(t[2]), ParseFlag(t[3]), ParseU32(t[4]), ParseU32(t[5]))
      case (Some(u), Some(d), Some(l), Some(r), Some(x), Some(y)) => Some(PivotRow(u, d, l, r, x, y))
      case _ => None
  }

  /** A flag token is exactly one of the four letters T, t, F, f. */
  lemma ParseFlagExact(tok: string)
    ensures ParseFlag(tok) == Some(true) <==> tok == "T" || tok == "t"
    ensures ParseFlag(tok) == Some(false) <==> tok == "F" || tok == "f"
  {
    if |tok| == 1 {
      assert tok == [tok[0]];
    }
  }

  /**
   * A pivot line parses exactly when its first four tokens are flags and its
   * fifth and sixth are u32 numerals; the row holds those six values.
   */
  lemma PivotFieldsExact(t: seq<string>)
    ensures ParsePivotFields(t).Some? <==>
      |t| >= 6 && (forall i :: 0 <= i < 4 ==> ParseFlag(t[i]).Some?) && ParseU32(t[4]).Some? && ParseU32(t[5]).Some?
    ensures ParsePivotFields(t).Some? ==>
      var r := ParsePivotFields(t).value;
      Some(r.up) == ParseFlag(t[0]) && Some(r.down) == ParseFlag(t[1]) &&
      Some(r.left) == ParseFlag(t[2]) && Some(r.right) == ParseFlag(t[3]) &&
      Some(r.x) == ParseU32(t[4]) && Some(r.y) == ParseU32(t[5])
  {
    if |t| >= 6 && (forall i :: 0 <= i < 4 ==> ParseFlag(t[i]).Some?) {
      assert ParseFlag(t[0]).Some? && ParseFlag(t[1]).Some? && ParseFlag(t[2]).Some? && ParseFlag(t[3]).Some?;
    }
  }

  /** One position line: two coordinates, then anything. */
  function ParsePosition(line: string): (r: Option<(nat, nat)>)
    ensures r.Some? ==> r.value.0 < U32Limit && r.value.1 < U32Limit
  {
    ParsePositionFields(Tokens(line))
  }

  function ParsePositionFields(t: seq<string>): (r: Option<(nat, nat)>)
    ensures r.Some? ==> r.value.0 < U32Limit && r.value.1 < U32Limit
  {
    if |t| < 2 then None
    else
      match (ParseU32(t[0]), ParseU32(t[1]))
      case (Some(x), Some(y)) => Some((x, y))
      case _ => None
  }

  /** `collect()` into an `Option<Vec<_>>`: every element, or None at the first None. */
  function Collect<T>(items: seq<Option<T>>): Option<seq<T>>
    decreases |items|
  {
    if |items| == 0 then Some([])
    else
      match items[0]
      case None => None
      case Some(p) =>
        match Collect(items[1..])
        case None => None
        case Some(ps) => Some([p] + ps)
  }

  /** Each kept line mapped through the pivot-line parser. */
  function ParsePivotLines(ls: seq<string>): (r: seq<Option<PivotRow>>)
    ensures |r| == |ls| && forall k :: 0 <= k < |ls| ==> r[k] == ParsePivotLine(ls[k])
  {
    seq(|ls|, k requires 0 <= k < |ls| => ParsePivotLine(ls[k]))
  }

  /** `read_pivots`, given the file's contents. */
  function ReadPivots(content: string): Option<seq<PivotRow>> {
    Collect(ParsePivotLines(KeptLines(content)))
  }

  /** Collecting succeeds exactly when every element is present, and then keeps them all, in order. */
  lemma {:induction false} CollectExact<T>(items: seq<Option<T>>)
    ensures Collect(items).Some? <==> forall k :: 0 <= k < |items| ==> items[k].Some?
    ensures Collect(items).Some? ==>
      |Collect(items).value| == |items| &&
      forall k :: 0 <= k < |items| ==> Collect(items).value[k] == items[k].value
    decreases |items|
  {
    if |items| > 0 {
      var tail := items[1..];
      CollectExact(tail);
      match items[0]
      case None =>
      case Some(p) =>
        match Collect(tail)
        case None =>
          var k :| 0 <= k < |tail| && tail[k].None?;
          assert items[k + 1] == tail[k];
        case Some(ps) =>
          assert Collect(items) == Some([p] + ps);
          forall k | 0 <= k < |items|
            ensures items[k].Some? && ([p] + ps)[k] == items[k].value
          {
            if k > 0 {
              assert items[k] == tail[k - 1];
            }
          }
    }
  }

  /**
   * `read_pivots` succeeds exactly when every kept line parses, and then
   * returns one record per kept line, in file order.
   */
  lemma ReadPivotsExact(content: string)
    ensures ReadPivots(content).Some? <==>
      forall k :: 0 <= k < |KeptLines(content)| ==> ParsePivotLine(KeptLines(content)[k]).Some?
    ensures ReadPivots(content).Some? ==>
      |ReadPivots(content).value| == |KeptLines(content)| &&
      forall k :: 0 <= k < |KeptLines(content)| ==>
        ReadPivots(content).value[k] == ParsePivotLine(KeptLines(content)[k]).value
  {
    CollectExact(ParsePivotLines(KeptLines(content)));
  }

  /** `read_positions`, given the file's contents: the loop pushes one pair per kept line and gives up at the first bad one. */
  method ReadPositions(content: string) returns (r: Option<seq<(nat, nat)>>)
    ensures r.Some? <==> forall k :: 0 <= k < |KeptLines(content)| ==> ParsePosition(KeptLines(content)[k]).Some?
    ensures r.Some? ==>
      |r.value| == |KeptLines(content)| &&
      forall k :: 0 <= k < |KeptLines(content)| ==> r.value[k] == ParsePosition(KeptLines(content)[k]).value
  {
    var lines := KeptLines(content);
    var positions: seq<(nat, nat)> := [];
    for i := 0 to |lines|
      invariant |positions| == i
      invariant forall k :: 0 <= k < i ==> ParsePosition(lines[k]) == Some(positions[k])
    {
      var parts := Tokens(lines[i]);
      if |parts| == 0 {
        return None;
      }
      var x := ParseU32(parts[0]);
      if x.None? {
        return None;
      }
      if |parts| == 1 {
        return None;
      }
      var y := ParseU32(parts[1]);
      if y.None? {
        return None;
      }
      positions := positions + [(x.value, y.value)];
    }
    return Some(positions);
  }

  /** A line of blanks is neither empty nor a comment, so both readers keep it; it has no tokens, so both reject it. */
  lemma {:induction false} BlankLineRejected(line: string)
    requires |line| > 0 && forall i :: 0 <= i < |line| ==> IsWhitespace(line[i])
    ensures !Skipped(line) && Tokens(line) == []
    ensures ParsePosition(line) == None && ParsePivotLine(line) == None
    decreases |line|
  {
    if |line| > 1 {
      BlankLineRejected(line[1..]);
    }
  }

  /** One kept line of blanks makes both readers give up on the whole file. */
  lemma BlankLineSinksFile(content: string, k: nat)
    requires k < |KeptLines(content)|
    requires |KeptLines(content)[k]| > 0 && forall i :: 0 <= i < |KeptLines(content)[k]| ==> IsWhitespace(KeptLines(content)[k][i])
    ensures ReadPivots(content) == None
    ensures !forall j :: 0 <= j < |KeptLines(content)| ==> ParsePosition(KeptLines(content)[j]).Some?
  {
    BlankLineRejected(KeptLines(content)[k]);
    ReadPivotsExact(content);
  }

  // ---------------------------------------------------------------------------
  // Writing level files, and reading them back
  // ---------------------------------------------------------------------------

  function DigitChar(d: nat): (c: char)
    requires d < 10
    ensures IsDigit(c) && DigitValue(c) == d
  {
    ('0' as int + d) as char
  }

  /** The decimal numeral of n, without leading zeros. */
  function Decimal(n: nat): (s: string)
    ensures |s| > 0 && forall i :: 0 <= i < |s| ==> IsDigit(s[i])
    decreases n
  {
    if n < 10 then [DigitChar(n)] else Decimal(n / 10) + [DigitChar(n % 10)]
  }

  lemma {:induction false} DecimalValue(n: nat)
    ensures DigitsValue(Decimal(n)) == n
    decreases n
  {
    if n >= 10 {
      DecimalValue(n / 10);
      var s := Decimal(n);
      assert s[..|s| - 1] == Decimal(n / 10);
    }
  }

  /** Parsing the numeral of a 32-bit value gives the value back. */
  lemma ParseDecimal(n: nat)
    requires n < U32Limit
    ensures ParseU32(Decimal(n)) == Some(n)
  {
    DecimalValue(n);
  }


  function FlagChar(b: bool): string {
    if b then "T" else "F"
  }

  /** A position line: the two coordinates separated by a space. */
  function FormatPosition(p: (nat, nat)): string {
    Spaced([Decimal(p.0), Decimal(p.1)])
  }

  /** A pivot line: the four flags and the two coordinates separated by spaces. */
  function FormatPivot(row: PivotRow): string {
    Spaced(PivotWords(row))
  }

  function PivotWords(row: PivotRow): seq<string> {
    [FlagChar(row.up), FlagChar(row.down), FlagChar(row.left), FlagChar(row.right), Decimal(row.x), Decimal(row.y)]
  }

  /** Every line followed by '\n'. */
  function Unlines(ls: seq<string>): string
    decreases |ls|
  {
    if |ls| == 0 then "" else ls[0] + "\n" + Unlines(ls[1..])
  }

  /** A line that holds no '\n' and does not end in '\r'. */
  predicate PlainLine(l: string) {
    NoNewline(l) && (|l| > 0 ==> l[|l| - 1] != '\r')
  }

  lemma {:induction false} LinesOfUnlines(ls: seq<string>)
    requires forall k :: 0 <= k < |ls| ==> PlainLine(ls[k])
    ensures Lines(Unlines(ls)) == ls
    decreases |ls|
  {
    if |ls| > 0 {
      var l, rest := ls[0], Unlines(ls[1..]);
      var s := Unlines(ls);
      assert s == l + ("\n" + rest);
      LineLengthOfPlain(l, "\n" + rest);
      assert s[..|l|] == l;
      assert s[|l| + 1..] == rest;
      assert StripCR(l) == l;
      assert forall k :: 0 <= k < |ls[1..]| ==> PlainLine(ls[1..][k]) by {
        forall k | 0 <= k < |ls[1..]| ensures PlainLine(ls[1..][k]) {
          assert ls[1..][k] == ls[k + 1];
        }
      }
      LinesOfUnlines(ls[1..]);
      assert ls == [l] + ls[1..];
    }
  }

  predicate NoNewline(l: string) {
    forall i :: 0 <= i < |l| ==> l[i] != '\n'
  }

  lemma LineLengthOfPlain(l: string, rest: string)
    requires NoNewline(l) && |rest| > 0 && rest[0] == '\n'
    ensures LineLength(l + rest) == |l|
    decreases |l|
  {
    if |l| > 0 {
      assert (l + rest)[1..] == l[1..] + rest;
      LineLengthOfPlain(l[1..], rest);
    } else {
      assert l + rest == rest;
    }
  }

  function FormatPositions(ps: seq<(nat, nat)>): (ls: seq<string>)
    ensures |ls| == |ps| && forall k :: 0 <= k < |ps| ==> ls[k] == FormatPosition(ps[k])
  {
    seq(|ps|, k requires 0 <= k < |ps| => FormatPosition(ps[k]))
  }

  function FormatPivots(rows: seq<PivotRow>): (ls: seq<string>)
    ensures |ls| == |rows| && forall k :: 0 <= k < |rows| ==> ls[k] == FormatPivot(rows[k])
  {
    seq(|rows|, k requires 0 <= k < |rows| => FormatPivot(rows[k]))
  }

  predicate FitsU32(p: (nat, nat)) {
    p.0 < U32Limit && p.1 < U32Limit
  }

  /** Tokens of a line built from words joined by single spaces. */
  lemma TokensOfSpaced(ws: seq<string>)
    requires Words(ws)
    ensures Tokens(Spaced(ws)) == ws
    decreases |ws|
  {
    if |ws| == 1 {
      TokensOfWord(ws[0], []);
    } else {
      TokensOfSpaced(ws[1..]);
      TokensOfWord(ws[0], Spaced(ws[1..]));
      assert ws == [ws[0]] + ws[1..];
    }
  }

  /** Words joined by single spaces. */
  function Spaced(ws: seq<string>): string
    requires |ws| > 0
    decreases |ws|
  {
    if |ws| == 1 then ws[0] else ws[0] + [' '] + Spaced(ws[1..])
  }

  predicate Words(ws: seq<string>) {
    |ws| > 0 && forall k :: 0 <= k < |ws| ==> |ws[k]| > 0 && NoWhitespace(ws[k])
  }

  /** A spaced line holds no '\n' and starts and ends with its first and last words' characters. */
  lemma {:induction false} SpacedIsPlain(ws: seq<string>)
    requires Words(ws)
    ensures |Spaced(ws)| > 0 && Spaced(ws)[0] == ws[0][0]
    ensures Spaced(ws)[|Spaced(ws)| - 1] == ws[|ws| - 1][|ws[|ws| - 1]| - 1]
    ensures NoWhitespace(ws[|ws| - 1]) && PlainLine(Spaced(ws))
    decreases |ws|
  {
    if |ws| > 1 {
      SpacedIsPlain(ws[1..]);
      var l := Spaced(ws);
      assert l == ws[0] + ([' '] + Spaced(ws[1..]));
      forall i | 0 <= i < |l| ensures l[i] != '\n' {
        if i < |ws[0]| {
          assert l[i] == ws[0][i];
        } else if i > |ws[0]| {
          assert l[i] == Spaced(ws[1..])[i - |ws[0]| - 1];
        }
      }
    } else {
      var w := ws[0];
      forall i | 0 <= i < |w| ensures w[i] != '\n' {
        assert !IsWhitespace(w[i]);
      }
    }
  }

  lemma FormattedLine(ws: seq<string>)
    requires Words(ws) && ws[0][0] != '#'
    ensures PlainLine(Spaced(ws)) && !Skipped(Spaced(ws))
    ensures Tokens(Spaced(ws)) == ws
  {
    SpacedIsPlain(ws);
    TokensOfSpaced(ws);
  }

  lemma DecimalIsWord(n: nat)
    ensures |Decimal(n)| > 0 && NoWhitespace(Decimal(n)) && Decimal(n)[0] != '#'
  {
  }

  lemma PositionLineRoundTrip(p: (nat, nat))
    requires FitsU32(p)
    ensures ParsePosition(FormatPosition(p)) == Some(p)
    ensures PlainLine(FormatPosition(p)) && !Skipped(FormatPosition(p))
  {
    DecimalIsWord(p.0);
    DecimalIsWord(p.1);
    FormattedLine([Decimal(p.0), Decimal(p.1)]);
    ParseDecimal(p.0);
    ParseDecimal(p.1);
  }

  lemma PivotLineRoundTrip(row: PivotRow)
    requires row.x < U32Limit && row.y < U32Limit
    ensures ParsePivotLine(FormatPivot(row)) == Some(row)
    ensures PlainLine(FormatPivot(row)) && !Skipped(FormatPivot(row))
  {
    PivotWordsAreWords(row);
    FormattedLine(PivotWords(row));
    assert Tokens(FormatPivot(row))[..6] == PivotWords(row);
    PivotFieldsOfWords(Tokens(FormatPivot(row)), row);
  }

  lemma PivotWordsAreWords(row: PivotRow)
    ensures Words(PivotWords(row)) && PivotWords(row)[0][0] != '#' && |PivotWords(row)| == 6
  {
    DecimalIsWord(row.x);
    DecimalIsWord(row.y);
  }

  /** Tokens that start with a row's six words parse to that row. */
  lemma PivotFieldsOfWords(t: seq<string>, row: PivotRow)
    requires row.x < U32Limit && row.y < U32Limit
    requires |t| >= 6 && t[..6] == PivotWords(row)
    ensures ParsePivotFields(t) == Some(row)
  {
    assert t[4] == Decimal(row.x) && t[5] == Decimal(row.y);
    assert t[0] == FlagChar(row.up) && t[1] == FlagChar(row.down);
    assert t[2] == FlagChar(row.left) && t[3] == FlagChar(row.right);
    ParseDecimal(row.x);
    ParseDecimal(row.y);
  }

  lemma {:induction false} TokensOfSpacedThen(ws: seq<string>, rest: string)
    requires Words(ws)
    ensures Tokens(Spaced(ws) + [' '] + rest) == ws + Tokens(rest)
    decreases |ws|
  {
    if |ws| == 1 {
      TokensOfWord(ws[0], rest);
      assert ws == [ws[0]];
    } else {
      var w, more := ws[0], ws[1..];
      var tail := Spaced(more) + [' '] + rest;
      var lhs := Spaced(ws) + [' '] + rest;
      SpacedCons(ws, rest);
      assert lhs == w + [' '] + tail;
      TokensOfWord(w, tail);
      assert Tokens(lhs) == [w] + Tokens(tail);
      WordsTail(ws);
      TokensOfSpacedThen(more, rest);
      assert ws == [w] + more;
      AppendAssoc([w], more, Tokens(rest));
    }
  }

  lemma SpacedCons(ws: seq<string>, rest: string)
    requires |ws| > 1
    ensures Spaced(ws) + [' '] + rest == ws[0] + [' '] + (Spaced(ws[1..]) + [' '] + rest)
  {
  }

  lemma WordsTail(ws: seq<string>)
    requires Words(ws) && |ws| > 1
    ensures Words(ws[1..])
  {
    forall k | 0 <= k < |ws[1..]| ensures |ws[1..][k]| > 0 && NoWhitespace(ws[1..][k]) {
      assert ws[1..][k] == ws[k + 1];
    }
  }

  /** Whatever follows the sixth token of a pivot line is ignored. */
  lemma PivotLineIgnoresTail(row: PivotRow, tail: string)
    requires row.x < U32Limit && row.y < U32Limit
    ensures ParsePivotLine(FormatPivot(row) + [' '] + tail) == Some(row)
  {
    var ws := PivotWords(row);
    PivotWordsAreWords(row);
    TokensOfSpacedThen(ws, tail);
    assert (ws + Tokens(tail))[..6] == ws;
    PivotFieldsOfWords(ws + Tokens(tail), row);
  }

  /** Whatever follows the second token of a position line is ignored. */
  lemma PositionLineIgnoresTail(p: (nat, nat), tail: string)
    requires FitsU32(p)
    ensures ParsePosition(FormatPosition(p) + [' '] + tail) == Some(p)
  {
    DecimalIsWord(p.0);
    DecimalIsWord(p.1);
    TokensOfSpacedThen([Decimal(p.0), Decimal(p.1)], tail);
    ParseDecimal(p.0);
    ParseDecimal(p.1);
  }

  /** Writing positions one per line and reading the file back gives the same positions. */
  lemma PositionsRoundTrip(ps: seq<(nat, nat)>)
    requires forall k :: 0 <= k < |ps| ==> FitsU32(ps[k])
    ensures KeptLines(Unlines(FormatPositions(ps))) == FormatPositions(ps)
    ensures forall k :: 0 <= k < |ps| ==> ParsePosition(KeptLines(Unlines(FormatPositions(ps)))[k]) == Some(ps[k])
  {
    var ls := FormatPositions(ps);
    forall k | 0 <= k < |ps| ensures PlainLine(ls[k]) && !Skipped(ls[k]) && ParsePosition(ls[k]) == Some(ps[k]) {
      PositionLineRoundTrip(ps[k]);
    }
    LinesOfUnlines(ls);
    KeepIsFilter(ls);
  }

  /** Writing pivot rows one per line and reading the file back gives the same rows. */
  lemma PivotsRoundTrip(rows: seq<PivotRow>)
    requires forall k :: 0 <= k < |rows| ==> rows[k].x < U32Limit && rows[k].y < U32Limit
    ensures ReadPivots(Unlines(FormatPivots(rows))) == Some(rows)
  {
    var ls := FormatPivots(rows);
    forall k | 0 <= k < |rows| ensures PlainLine(ls[k]) && !Skipped(ls[k]) && ParsePivotLine(ls[k]) == Some(rows[k]) {
      PivotLineRoundTrip(rows[k]);
    }
    LinesOfUnlines(ls);
    KeepIsFilter(ls);
    CollectExact(ParsePivotLines(ls));
    assert ReadPivots(Unlines(ls)).value == rows;
  }
}
