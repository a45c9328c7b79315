/**
 The Go coverage profile (`coverage.out`) as the cache reads it: one block
 per line, `path:startLine.startCol,endLine.endCol statements count`, after
 an optional `mode:` header. A line that does not have this shape
 contributes nothing.

 `TotalsOf` and `EntriesOf` are what parsing a whole profile produces: the
 per-file `(covered, total)` pairs and the per-file entry lists, built one
 line at a time exactly as the parsing loop does. `EntriesFor`,
 `Statements` and `CoveredStatements` are independent reference definitions
 (a filter over the lines and two sums) that those maps are proved to agree
 with.
 */
module CoverageProfile {
  import opened Wrappers
  import opened KotlinStrings

  /** One coverage block of a source file; every field is a 32-bit `Int` in the Kotlin `CoverageEntry`. */
  datatype CoverageEntry = CoverageEntry(startLine: int, endLine: int, statements: int, count: int)

  /** The running `(covered, total)` pair kept per file. */
  datatype Totals = Totals(covered: int, total: int)

  /** A parsed line: the file it is about and its entry. */
  datatype Block = Block(file: string, entry: CoverageEntry)

  predicate EntryInIntRange(e: CoverageEntry) {
    InIntRange(e.startLine) && InIntRange(e.endLine) && InIntRange(e.statements) && InIntRange(e.count)
  }

  /**
   The body of the parsing loop for one line: `None` where the loop
   `continue`s, otherwise the file part of the location and the entry.
   Column numbers are read past and dropped.
   */
  function ParseLine(line: string): (r: Option<Block>)
    ensures StartsWith(line, "mode:") ==> r.None?
    ensures |Split(line, ' ')| < 3 ==> r.None?
    ensures r.Some? ==> EntryInIntRange(r.value.entry)
  {
    if StartsWith(line, "mode:") then None
    else
      var parts := Split(line, ' ');
      if |parts| < 3 then None
      else
        var location := parts[0];
        var filePart := SubstringBefore(location, ':');
        var range := Split(SubstringAfter(location, ':'), ',');
        if |range| != 2 then None
        else
          match (ToIntOrNull(SubstringBefore(range[0], '.')), ToIntOrNull(SubstringBefore(range[1], '.')),
                 ToIntOrNull(parts[1]), ToIntOrNull(parts[2]))
          case (Some(startLine), Some(endLine), Some(statements), Some(count)) =>
            Some(Block(filePart, CoverageEntry(startLine, endLine, statements, count)))
          case _ => None
  }

  /**
   Where an accepted block comes from: the line is no header, has at least
   three fields, its file is the location up to the first `:`, its range
   splits into exactly two positions, and each of the four numbers is what
   `toIntOrNull` reads from its token. Read backwards: a line any of these
   fails for is skipped.
   */
  lemma ParseLineAccepted(line: string)
    ensures ParseLine(line).Some? ==>
              var parts := Split(line, ' ');
              && !StartsWith(line, "mode:") && |parts| >= 3
              && SubstringBefore(parts[0], ':') == ParseLine(line).value.file
              && var range := Split(SubstringAfter(parts[0], ':'), ',');
              && |range| == 2
              && ToIntOrNull(SubstringBefore(range[0], '.')) == Some(ParseLine(line).value.entry.startLine)
              && ToIntOrNull(SubstringBefore(range[1], '.')) == Some(ParseLine(line).value.entry.endLine)
              && ToIntOrNull(parts[1]) == Some(ParseLine(line).value.entry.statements)
              && ToIntOrNull(parts[2]) == Some(ParseLine(line).value.entry.count)
  {
  }

  // ------------------------------------------------------- the line format

  /** A block line as `go test -coverprofile` writes it. */
  function FormatLine(file: string, startLine: int, startCol: int, endLine: int, endCol: int,
                      statements: int, count: int): string
  {
    file + ":" + FormatPosition(startLine, startCol) + "," + FormatPosition(endLine, endCol)
      + " " + IntToString(statements) + " " + IntToString(count)
  }

  /** A position `line.col` of a block line. */
  function FormatPosition(line: int, col: int): string {
    IntToString(line) + "." + IntToString(col)
  }

  /** A line can only look like a header when its file is called exactly `mode`. */
  lemma FormattedLineIsNoHeader(file: string, rest: string)
    requires ':' !in file && file != "mode"
    ensures !StartsWith(file + ":" + rest, "mode:")
  {
    var line := file + ":" + rest;
    assert line[|file|] == ':';
    if |line| >= 5 {
      if |file| >= 5 {
        assert line[..5][4] == file[4] != ':';
      } else if |file| < 4 {
        assert line[..5][|file|] == ':' != "mode:"[|file|];
      } else {
        assert line[..5][..4] == file != "mode";
      }
    }
  }

  /** A line that does not begin with `m` is no header. */
  lemma NoHeaderUnlessM(line: string)
    requires line != [] && line[0] != 'm'
    ensures !StartsWith(line, "mode:")
  {
    if |line| >= 5 {
      assert line[..5][0] != 'm';
    }
  }

  /** The position token `line.col` reads back its line number. */
  lemma ParsePosition(line: int, col: int)
    requires InIntRange(line)
    ensures ToIntOrNull(SubstringBefore(FormatPosition(line, col), '.')) == Some(line)
    ensures ' ' !in FormatPosition(line, col) && ',' !in FormatPosition(line, col)
  {
    IntToStringHasNoSeparators(line);
    SubstringsOfConcat(IntToString(line), '.', IntToString(col));
    ToIntOrNullOfIntToString(line);
  }

  /**
   `ParseLine` stated through the pieces the loop body extracts from a line:
   the first three space-separated fields count, and any further ones (a
   trailing space gives an empty fourth) are ignored.
   */
  lemma ParseLineOfPieces(line: string, location: string, statements: string, count: string,
                          range: string, first: string, second: string, block: Block)
    requires !StartsWith(line, "mode:")
    requires |Split(line, ' ')| >= 3
    requires Split(line, ' ')[0] == location && Split(line, ' ')[1] == statements && Split(line, ' ')[2] == count
    requires SubstringBefore(location, ':') == block.file && SubstringAfter(location, ':') == range
    requires Split(range, ',') == [first, second]
    requires ToIntOrNull(SubstringBefore(first, '.')) == Some(block.entry.startLine)
    requires ToIntOrNull(SubstringBefore(second, '.')) == Some(block.entry.endLine)
    requires ToIntOrNull(statements) == Some(block.entry.statements)
    requires ToIntOrNull(count) == Some(block.entry.count)
    ensures ParseLine(line) == Some(block)
  {
  }

  /** The three space-separated fields of a line whose fields hold no space. */
  lemma SplitFields(location: string, statements: string, count: string)
    requires ' ' !in location && ' ' !in statements && ' ' !in count
    ensures Split(location + " " + statements + " " + count, ' ') == [location, statements, count]
  {
    assert Join([count], ' ') == count;
    assert [statements, count][1..] == [count];
    assert Join([statements, count], ' ') == statements + [' '] + count;
    assert [location, statements, count][1..] == [statements, count];
    assert Join([location, statements, count], ' ') == location + [' '] + (statements + [' '] + count);
    SplitUnique(location + " " + statements + " " + count, ' ', [location, statements, count]);
  }

  /** The two space-separated fields of a line whose fields hold no space. */
  lemma SplitTwoFields(location: string, statements: string)
    requires ' ' !in location && ' ' !in statements
    ensures Split(location + " " + statements, ' ') == [location, statements]
  {
    assert [location, statements][1..] == [statements];
    assert Join([location, statements], ' ') == location + " " + statements;
    SplitUnique(location + " " + statements, ' ', [location, statements]);
  }

  /** The two comma-separated positions of a range. */
  lemma SplitRange(first: string, second: string)
    requires ',' !in first && ',' !in second
    ensures Split(first + "," + second, ',') == [first, second]
  {
    assert [first, second][1..] == [second];
    assert Join([first, second], ',') == first + "," + second;
    SplitUnique(first + "," + second, ',', [first, second]);
  }

  /**
   Round trip: every well-formed block line is accepted and yields the block
   it was written from, for any file name without a space or a colon other
   than `mode`, and any 32-bit numbers.
   */
  lemma ParseFormattedLine(file: string, startLine: int, startCol: int, endLine: int, endCol: int,
                           statements: int, count: int)
    requires ' ' !in file && ':' !in file && file != "mode"
    requires InIntRange(startLine) && InIntRange(endLine) && InIntRange(statements) && InIntRange(count)
    ensures ParseLine(FormatLine(file, startLine, startCol, endLine, endCol, statements, count))
            == Some(Block(file, CoverageEntry(startLine, endLine, statements, count)))
  {
    var st, ct := IntToString(statements), IntToString(count);
    IntToStringHasNoSeparators(statements);
    IntToStringHasNoSeparators(count);
    var first, second := FormatPosition(startLine, startCol), FormatPosition(endLine, endCol);
    ParsePosition(startLine, startCol);
    ParsePosition(endLine, endCol);
    ToIntOrNullOfIntToString(statements);
    ToIntOrNullOfIntToString(count);
    ParseAssembledLine(file, first, second, st, ct, Block(file, CoverageEntry(startLine, endLine, statements, count)));
  }

  /** A block line assembled from its fields is accepted when each number field reads back its value. */
  lemma ParseAssembledLine(file: string, first: string, second: string, statements: string, count: string, block: Block)
    requires ' ' !in file && ':' !in file && file != "mode" && block.file == file
    requires ' ' !in first && ',' !in first && ' ' !in second && ',' !in second
    requires ' ' !in statements && ' ' !in count
    requires ToIntOrNull(SubstringBefore(first, '.')) == Some(block.entry.startLine)
    requires ToIntOrNull(SubstringBefore(second, '.')) == Some(block.entry.endLine)
    requires ToIntOrNull(statements) == Some(block.entry.statements)
    requires ToIntOrNull(count) == Some(block.entry.count)
    ensures ParseLine(file + ":" + first + "," + second + " " + statements + " " + count) == Some(block)
  {
    var range := first + "," + second;
    var location := file + ":" + range;
    var line := file + ":" + first + "," + second + " " + statements + " " + count;
    AssembledLinePieces(file, first, second, statements, count);
    var parts := Split(line, ' ');
    assert parts[0] == location && parts[1] == statements && parts[2] == count;
    ParseLineOfPieces(line, location, statements, count, range, first, second, block);
  }

  /** The pieces `ParseLine` cuts out of a line assembled from its fields. */
  lemma AssembledLinePieces(file: string, first: string, second: string, statements: string, count: string)
    requires ' ' !in file && ':' !in file && file != "mode"
    requires ' ' !in first && ',' !in first && ' ' !in second && ',' !in second
    requires ' ' !in statements && ' ' !in count
    ensures var range := first + "," + second;
            var location := file + ":" + range;
            var line := file + ":" + first + "," + second + " " + statements + " " + count;
            && !StartsWith(line, "mode:")
            && Split(line, ' ') == [location, statements, count]
            && SubstringBefore(location, ':') == file && SubstringAfter(location, ':') == range
            && Split(range, ',') == [first, second]
  {
    var range := first + "," + second;
    var location := file + ":" + range;
    var line := file + ":" + first + "," + second + " " + statements + " " + count;
    assert line == location + " " + statements + " " + count;
    assert line == file + ":" + (range + " " + statements + " " + count);
    FormattedLineIsNoHeader(file, range + " " + statements + " " + count);
    assert ' ' !in location;
    SplitFields(location, statements, count);
    assert location == file + [':'] + range;
    SubstringsOfConcat(file, ':', range);
    SplitRange(first, second);
  }

  /**
   A location without a colon is used whole, as both the file and the range:
   `12,34 5 1` is accepted as the block of file `12,34` for lines 12 to 34.
   */
  lemma LocationWithoutColon(startLine: int, endLine: int, statements: int, count: int)
    requires InIntRange(startLine) && InIntRange(endLine) && InIntRange(statements) && InIntRange(count)
    ensures var location := IntToString(startLine) + "," + IntToString(endLine);
            ParseLine(location + " " + IntToString(statements) + " " + IntToString(count))
            == Some(Block(location, CoverageEntry(startLine, endLine, statements, count)))
  {
    var sl, el := IntToString(startLine), IntToString(endLine);
    var st, ct := IntToString(statements), IntToString(count);
    IntToStringHasNoSeparators(startLine);
    IntToStringHasNoSeparators(endLine);
    IntToStringHasNoSeparators(statements);
    IntToStringHasNoSeparators(count);
    var location := sl + "," + el;
    var line := location + " " + st + " " + ct;
    assert line[0] == sl[0] && (IsDigit(sl[0]) || sl[0] == '-');
    NoHeaderUnlessM(line);
    assert ' ' !in location && ':' !in location;
    SplitFields(location, st, ct);
    var parts := Split(line, ' ');
    assert parts[0] == location && parts[1] == st && parts[2] == ct;
    SplitRange(sl, el);
    assert SubstringBefore(sl, '.') == sl && SubstringBefore(el, '.') == el;
    ToIntOrNullOfIntToString(startLine);
    ToIntOrNullOfIntToString(endLine);
    ToIntOrNullOfIntToString(statements);
    ToIntOrNullOfIntToString(count);
    ParseLineOfPieces(line, location, st, ct, location, sl, el,
                      Block(location, CoverageEntry(startLine, endLine, statements, count)));
  }

  /** A range that does not split on `,` into exactly two positions is skipped. */
  lemma RangeWithoutCommaSkipped(file: string, position: string, statements: string, count: string)
    requires ' ' !in file && ':' !in file && file != "mode"
    requires ' ' !in position && ',' !in position && ' ' !in statements && ' ' !in count
    ensures ParseLine(file + ":" + position + " " + statements + " " + count) == None
  {
    var location := file + ":" + position;
    var line := location + " " + statements + " " + count;
    assert line == file + ":" + (position + " " + statements + " " + count);
    FormattedLineIsNoHeader(file, position + " " + statements + " " + count);
    assert ' ' !in location;
    SplitFields(location, statements, count);
    assert location == file + [':'] + position;
    SubstringsOfConcat(file, ':', position);
    assert Split(position, ',') == [position];
    RangeSkipped(line, position);
  }

  /**
   `ParseLine` rejects a line whose range part (after the first `:` of the
   first field) does not split on `,` into exactly two positions.
   */
  lemma RangeSkipped(line: string, range: string)
    requires SubstringAfter(Split(line, ' ')[0], ':') == range && |Split(range, ',')| != 2
    ensures ParseLine(line) == None
  {
    ParseLineAccepted(line);
  }

  /** A number field that `toIntOrNull` rejects makes the line skipped, whichever of the four it is. */
  lemma NumberRejected(line: string)
    requires var parts := Split(line, ' ');
             |parts| >= 3 &&
             var range := Split(SubstringAfter(parts[0], ':'), ',');
             || ToIntOrNull(parts[1]).None? || ToIntOrNull(parts[2]).None?
             || (|range| == 2 && (ToIntOrNull(SubstringBefore(range[0], '.')).None?
                                  || ToIntOrNull(SubstringBefore(range[1], '.')).None?))
    ensures ParseLine(line) == None
  {
    ParseLineAccepted(line);
  }

  /** A line shorter than three fields is skipped, even when its first field is a location. */
  lemma TwoFieldLineSkipped(location: string, statements: string)
    requires ' ' !in location && ' ' !in statements
    ensures ParseLine(location + " " + statements) == None
  {
    SplitTwoFields(location, statements);
  }

  /** An empty line splits into one empty field and is skipped. */
  lemma EmptyLineSkipped()
    ensures Split("", ' ') == [""]
    ensures ParseLine("") == None
  {
  }

  // ------------------------------------------------ the whole profile, line by line

  /** What the parsing loop makes of each line of the profile, in order. */
  function Parse(lines: seq<string>): (parsed: seq<Option<Block>>)
    ensures |parsed| == |lines|
  {
    seq(|lines|, i requires 0 <= i < |lines| => ParseLine(lines[i]))
  }

  /** One accepted block added to the running totals (`getOrDefault`, then assign). */
  function AddTotals(m: map<string, Totals>, b: Block): map<string, Totals> {
    var t := if b.file in m then m[b.file] else Totals(0, 0);
    m[b.file := Totals(t.covered + (if b.entry.count > 0 then b.entry.statements else 0),
                       t.total + b.entry.statements)]
  }

  /** One accepted block appended to its file's list (`computeIfAbsent(...).add`). */
  function AddEntry(m: map<string, seq<CoverageEntry>>, b: Block): map<string, seq<CoverageEntry>> {
    m[b.file := (if b.file in m then m[b.file] else []) + [b.entry]]
  }

  /** The totals after the loop has seen `parsed`. */
  function TotalsOf(parsed: seq<Option<Block>>): map<string, Totals> {
    if parsed == [] then map[]
    else
      var m := TotalsOf(parsed[..|parsed| - 1]);
      match parsed[|parsed| - 1]
      case None => m
      case Some(b) => AddTotals(m, b)
  }

  /** The per-file entry lists after the loop has seen `parsed`. */
  function EntriesOf(parsed: seq<Option<Block>>): map<string, seq<CoverageEntry>> {
    if parsed == [] then map[]
    else
      var m := EntriesOf(parsed[..|parsed| - 1]);
      match parsed[|parsed| - 1]
      case None => m
      case Some(b) => AddEntry(m, b)
  }

  /** One more line of the loop: a skipped line leaves both maps, an accepted block is added to both. */
  lemma FoldStep(parsed: seq<Option<Block>>, i: nat)
    requires i < |parsed|
    ensures parsed[i].None? ==>
              TotalsOf(parsed[..i + 1]) == TotalsOf(parsed[..i]) && EntriesOf(parsed[..i + 1]) == EntriesOf(parsed[..i])
    ensures parsed[i].Some? ==>
              TotalsOf(parsed[..i + 1]) == AddTotals(TotalsOf(parsed[..i]), parsed[i].value) &&
              EntriesOf(parsed[..i + 1]) == AddEntry(EntriesOf(parsed[..i]), parsed[i].value)
  {
    assert parsed[..i + 1][..i] == parsed[..i];
  }

  /** A `mode:` header line, whatever the mode, is skipped. */
  lemma HeaderSkipped(mode: string)
    ensures ParseLine("mode: " + mode) == None
  {
    assert ("mode: " + mode)[..5] == "mode:";
  }

  /**
   A profile of a header, one well-formed block line and one line of only two
   fields holds exactly that block: its file's pair is `(statements, statements)`
   when the block ran and `(0, statements)` when it did not.
   */
  lemma SingleBlockProfile(mode: string, file: string, startLine: int, startCol: int, endLine: int, endCol: int,
                           statements: int, count: int, location: string, field: string)
    requires ' ' !in file && ':' !in file && file != "mode"
    requires InIntRange(startLine) && InIntRange(endLine) && InIntRange(statements) && InIntRange(count)
    requires ' ' !in location && ' ' !in field
    ensures var lines := ["mode: " + mode, FormatLine(file, startLine, startCol, endLine, endCol, statements, count),
                          location + " " + field];
            && TotalsOf(Parse(lines)) == map[file := Totals(if count > 0 then statements else 0, statements)]
            && EntriesOf(Parse(lines)) == map[file := [CoverageEntry(startLine, endLine, statements, count)]]
  {
    var block := Block(file, CoverageEntry(startLine, endLine, statements, count));
    var lines := ["mode: " + mode, FormatLine(file, startLine, startCol, endLine, endCol, statements, count),
                  location + " " + field];
    HeaderSkipped(mode);
    ParseFormattedLine(file, startLine, startCol, endLine, endCol, statements, count);
    TwoFieldLineSkipped(location, field);
    ParseOfThree(lines[0], lines[1], lines[2]);
    OneBlockFolds(block);
  }

  /** The maps built from one accepted line between two skipped ones. */
  lemma OneBlockFolds(block: Block)
    ensures TotalsOf([None, Some(block), None])
            == map[block.file := Totals(if block.entry.count > 0 then block.entry.statements else 0, block.entry.statements)]
    ensures EntriesOf([None, Some(block), None]) == map[block.file := [block.entry]]
  {
    var parsed: seq<Option<Block>> := [None, Some(block), None];
    assert parsed[..2][..1][..0] == [];
    assert TotalsOf(parsed[..2][..1]) == map[] && EntriesOf(parsed[..2][..1]) == map[];
    assert parsed[..2][..1] == [None];
    assert TotalsOf(parsed[..2]) == AddTotals(map[], block) && EntriesOf(parsed[..2]) == AddEntry(map[], block);
    assert parsed[..2] == [None, Some(block)];
    assert [] + [block.entry] == [block.entry];
  }

  lemma ParseOfThree(first: string, second: string, third: string)
    ensures Parse([first, second, third]) == [ParseLine(first), ParseLine(second), ParseLine(third)]
  {
  }

  // ------------------------------------------------- reference definitions

  /** The entry of one parsed line if it is about `file`. */
  function EntryFor(p: Option<Block>, file: string): seq<CoverageEntry> {
    match p
    case Some(b) => if b.file == file then [b.entry] else []
    case None => []
  }

  /** The entries of the lines about `file`, in the order of the lines. */
  function EntriesFor(parsed: seq<Option<Block>>, file: string): seq<CoverageEntry> {
    if parsed == [] then [] else EntryFor(parsed[0], file) + EntriesFor(parsed[1..], file)
  }

  /** Sum of `statements` over `es`. */
  function Statements(es: seq<CoverageEntry>): int {
    if es == [] then 0 else es[0].statements + Statements(es[1..])
  }

  /** Sum of `statements` over the entries of `es` that ran (`count > 0`). */
  function CoveredStatements(es: seq<CoverageEntry>): int {
    if es == [] then 0
    else (if es[0].count > 0 then es[0].statements else 0) + CoveredStatements(es[1..])
  }

  /** The `(covered, total)` pair a list of entries should have. */
  function Aggregate(es: seq<CoverageEntry>): Totals {
    Totals(CoveredStatements(es), Statements(es))
  }

  // ---------------------------------------------------------------- lemmas

  /** One more line adds at most one entry, for its own file, at the end. */
  lemma {:induction false} EntriesForSnoc(parsed: seq<Option<Block>>, p: Option<Block>, file: string)
    ensures EntriesFor(parsed + [p], file) == EntriesFor(parsed, file) + EntryFor(p, file)
  {
    if parsed != [] {
      assert (parsed + [p])[1..] == parsed[1..] + [p];
      EntriesForSnoc(parsed[1..], p, file);
    } else {
      assert [p][1..] == [];
    }
  }

  /**
   Entry order: the list kept for a file holds exactly the entries of the
   accepted lines about that file, in file order, and a file has a list
   exactly when at least one of its lines was accepted.
   */
  lemma {:induction false} EntriesOfIsFilter(parsed: seq<Option<Block>>)
    ensures forall file :: file in EntriesOf(parsed) <==> EntriesFor(parsed, file) != []
    ensures forall file :: file in EntriesOf(parsed) ==> EntriesOf(parsed)[file] == EntriesFor(parsed, file)
  {
    if parsed != [] {
      var init, last := parsed[..|parsed| - 1], parsed[|parsed| - 1];
      assert parsed == init + [last];
      EntriesOfIsFilter(init);
      forall file
        ensures EntriesFor(parsed, file) == EntriesFor(init, file) + EntryFor(last, file)
      {
        EntriesForSnoc(init, last, file);
      }
    }
  }

  lemma {:induction false} SumsSnoc(es: seq<CoverageEntry>, e: CoverageEntry)
    ensures Statements(es + [e]) == Statements(es) + e.statements
    ensures CoveredStatements(es + [e]) == CoveredStatements(es) + (if e.count > 0 then e.statements else 0)
  {
    if es != [] {
      assert (es + [e])[1..] == es[1..] + [e];
      SumsSnoc(es[1..], e);
    } else {
      assert [e][1..] == [];
    }
  }

  /**
   Aggregation invariant: the totals map and the entries map have the same
   files, and each file's pair is the sum of the statements of its entries,
   and of those that ran.
   */
  lemma {:induction false} TotalsAgreeWithEntries(parsed: seq<Option<Block>>)
    ensures TotalsOf(parsed).Keys == EntriesOf(parsed).Keys
    ensures forall file :: file in TotalsOf(parsed) ==> TotalsOf(parsed)[file] == Aggregate(EntriesOf(parsed)[file])
  {
    if parsed != [] {
      var init := parsed[..|parsed| - 1];
      TotalsAgreeWithEntries(init);
      match parsed[|parsed| - 1]
      case None =>
      case Some(b) =>
        var es := if b.file in EntriesOf(init) then EntriesOf(init)[b.file] else [];
        SumsSnoc(es, b.entry);
    }
  }

  /** With no negative statement counts, `0 <= covered <= total`. */
  lemma {:induction false} CoveredWithinTotal(es: seq<CoverageEntry>)
    requires forall i :: 0 <= i < |es| ==> es[i].statements >= 0
    ensures 0 <= CoveredStatements(es) <= Statements(es)
  {
    if es != [] {
      CoveredWithinTotal(es[1..]);
    }
  }
}
