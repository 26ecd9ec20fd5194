/** Sanitizing (internal/sanitizer/sanitizer.go) and reading line ranges for the model
    (internal/llm/tools/read_file.go). */
module ReadFile {
  import opened Seqs
  import opened Text

  // ---------- the sanitizer ----------

  /** A rule is a pattern and its replacement, known by how many matches it finds in a text and what it makes of it. */
  datatype Rule = Rule(id: string, matches: string -> nat, replace: string -> string)

  datatype Sanitizer = Sanitizer(maxContentSize: int, rules: seq<Rule>)

  datatype Sanitized = Sanitized(content: string, matchesFound: nat, rulesApplied: seq<string>, source: string, timestamp: int)

  datatype SanitizeError = TooLarge(size: nat, limit: nat) | LengthMismatch

  predicate Fits(s: Sanitizer, content: string) { s.maxContentSize <= 0 || |content| <= s.maxContentSize }

  /** The rules in order, each on what the one before it left. */
  function Applied(rules: seq<Rule>, content: string): string {
    if rules == [] then content
    else
      var c, rule := Applied(rules[..|rules| - 1], content), rules[|rules| - 1];
      if rule.matches(c) == 0 then c else rule.replace(c)
  }

  function MatchCount(rules: seq<Rule>, content: string): nat {
    if rules == [] then 0
    else MatchCount(rules[..|rules| - 1], content) + rules[|rules| - 1].matches(Applied(rules[..|rules| - 1], content))
  }

  function RulesApplied(rules: seq<Rule>, content: string): seq<string> {
    if rules == [] then []
    else
      var front, rule := rules[..|rules| - 1], rules[|rules| - 1];
      RulesApplied(front, content) + if rule.matches(Applied(front, content)) == 0 then [] else [rule.id]
  }

  /** No rule is reported exactly if no match is counted, exactly if no rule matches the content itself, and then the
      content is unchanged. */
  lemma {:induction false} NoRuleMeansNoMatch(rules: seq<Rule>, content: string)
    ensures RulesApplied(rules, content) == [] <==> MatchCount(rules, content) == 0
    ensures RulesApplied(rules, content) == [] <==> forall i | 0 <= i < |rules| :: rules[i].matches(content) == 0
    ensures RulesApplied(rules, content) == [] ==> Applied(rules, content) == content
    ensures |RulesApplied(rules, content)| <= |rules| && |RulesApplied(rules, content)| <= MatchCount(rules, content)
  {
    if rules == [] {
    } else {
      NoRuleMeansNoMatch(rules[..|rules| - 1], content);
    }
  }

  lemma OneRule(rule: Rule, content: string)
    ensures Applied([rule], content) == if rule.matches(content) == 0 then content else rule.replace(content)
    ensures MatchCount([rule], content) == rule.matches(content)
    ensures RulesApplied([rule], content) == if rule.matches(content) == 0 then [] else [rule.id]
  {
    assert [rule][..0] == [];
  }

  /** More rules go on with what the first ones left. */
  lemma {:induction false} RulesCompose(a: seq<Rule>, b: seq<Rule>, content: string)
    ensures Applied(a + b, content) == Applied(b, Applied(a, content))
    ensures MatchCount(a + b, content) == MatchCount(a, content) + MatchCount(b, Applied(a, content))
    ensures RulesApplied(a + b, content) == RulesApplied(a, content) + RulesApplied(b, Applied(a, content))
  {
    if b == [] {
      assert a + b == a;
    } else {
      assert (a + b)[..|a + b| - 1] == a + b[..|b| - 1];
      RulesCompose(a, b[..|b| - 1], content);
    }
  }

  /** A replacement leaves no match of its own rule, and makes none for another. */
  ghost predicate Cleans(rules: seq<Rule>) {
    && (forall i, c | 0 <= i < |rules| :: rules[i].matches(rules[i].replace(c)) == 0)
    && (forall i, j, c | 0 <= i < |rules| && 0 <= j < |rules| && rules[j].matches(c) == 0 ::
          rules[j].matches(rules[i].replace(c)) == 0)
  }

  lemma {:induction false} NothingLeft(rules: seq<Rule>, content: string)
    requires Cleans(rules)
    ensures forall i | 0 <= i < |rules| :: rules[i].matches(Applied(rules, content)) == 0
  {
    if rules == [] {
    } else {
      var front, last := rules[..|rules| - 1], rules[|rules| - 1];
      assert Cleans(front) by {
        assert forall i | 0 <= i < |front| :: front[i] == rules[i];
      }
      NothingLeft(front, content);
      var c := Applied(front, content);
      forall i | 0 <= i < |rules|
        ensures rules[i].matches(Applied(rules, content)) == 0
      {
        assert i < |front| ==> front[i].matches(c) == 0 && rules[i] == front[i];
      }
    }
  }

  /** Under such rules nothing that a rule matches is left, and sanitizing again changes nothing and reports nothing. */
  lemma SanitizedIsClean(rules: seq<Rule>, content: string)
    requires Cleans(rules)
    ensures
      var clean := Applied(rules, content);
      && (forall i | 0 <= i < |rules| :: rules[i].matches(clean) == 0)
      && Applied(rules, clean) == clean && MatchCount(rules, clean) == 0 && RulesApplied(rules, clean) == []
  {
    NothingLeft(rules, content);
    NoRuleMeansNoMatch(rules, Applied(rules, content));
  }

  method SanitizeContent(s: Sanitizer, content: string, source: string, timestamp: int)
    returns (r: Result<Sanitized, SanitizeError>)
    ensures r == if Fits(s, content)
                 then Ok(Sanitized(Applied(s.rules, content), MatchCount(s.rules, content), RulesApplied(s.rules, content),
                                   source, timestamp))
                 else Err(TooLarge(|content|, s.maxContentSize))
    ensures r.Err? <==> 0 < s.maxContentSize < |content|
  {
    if s.maxContentSize > 0 && |content| > s.maxContentSize {
      return Err(TooLarge(|content|, s.maxContentSize));
    }
    var rulesApplied, matchCount, current := [], 0, content;
    for i := 0 to |s.rules|
      invariant current == Applied(s.rules[..i], content)
      invariant matchCount == MatchCount(s.rules[..i], content)
      invariant rulesApplied == RulesApplied(s.rules[..i], content)
    {
      assert s.rules[..i + 1][..i] == s.rules[..i];
      var matches := s.rules[i].matches(current);
      if matches == 0 {
        continue;
      }
      matchCount := matchCount + matches;
      rulesApplied := rulesApplied + [s.rules[i].id];
      current := s.rules[i].replace(current);
    }
    assert s.rules[..|s.rules|] == s.rules;
    r := Ok(Sanitized(current, matchCount, rulesApplied, source, timestamp));
  }

  /** All contents or, if one is too large, none. */
  method SanitizeBatch(s: Sanitizer, contents: seq<string>, sources: seq<string>, now: int)
    returns (r: Result<seq<Sanitized>, SanitizeError>)
    ensures r.Ok? <==> |contents| == |sources| && forall c | c in contents :: Fits(s, c)
    ensures r.Ok? ==> |r.value| == |contents|
    ensures r.Ok? ==> forall i | 0 <= i < |contents| ::
      r.value[i] == Sanitized(Applied(s.rules, contents[i]), MatchCount(s.rules, contents[i]),
                              RulesApplied(s.rules, contents[i]), sources[i], now)
    ensures r == Err(LengthMismatch) <==> |contents| != |sources|
    ensures r.Err? && r.error.TooLarge? ==>
      exists i | 0 <= i < |contents| :: r.error == TooLarge(|contents[i]|, s.maxContentSize)
        && 0 < s.maxContentSize < |contents[i]| && forall j | 0 <= j < i :: Fits(s, contents[j])
  {
    if |contents| != |sources| {
      return Err(LengthMismatch);
    }
    var results: seq<Sanitized> := [];
    for i := 0 to |contents|
      invariant |results| == i
      invariant forall j | 0 <= j < i :: Fits(s, contents[j])
      invariant forall j | 0 <= j < i ::
        results[j] == Sanitized(Applied(s.rules, contents[j]), MatchCount(s.rules, contents[j]),
                                RulesApplied(s.rules, contents[j]), sources[j], now)
    {
      var result := SanitizeContent(s, contents[i], sources[i], now);
      if result.Err? {
        assert contents[i] in contents;
        return Err(result.error);
      }
      results := results + [result.value];
    }
    r := Ok(results);
  }

  // ---------- formatting lines ----------

  function FormatLine(number: nat, line: string): string { Dec(number) + "\t" + line }

  /** A line on its own: sanitized, or marked if it is too large. */
  function SingleLine(s: Sanitizer, line: string): string {
    if Fits(s, line) then Applied(s.rules, line)
    else line + " [SANITIZATION-ERROR: content size exceeds limit: " + Dec(|line|) + " > " + Dec(s.maxContentSize) + "]"
  }

  method SanitizeSingleLine(s: Sanitizer, line: string, source: string, now: int) returns (r: string)
    ensures r == SingleLine(s, line)
  {
    var result := SanitizeContent(s, line, source, now);
    match result {
      case Ok(sanitized) => r := sanitized.content;
      case Err(e) =>
        r := line + " [SANITIZATION-ERROR: content size exceeds limit: " + Dec(e.size) + " > " + Dec(e.limit) + "]";
    }
  }

  /** A numbered line of the file. */
  datatype Line = Line(number: nat, text: string)

  /** Every line on its own. `sanitizer` is None if sanitizing is off or not available. */
  function Format(sanitizer: Option<Sanitizer>, lines: seq<Line>): (f: seq<string>)
    ensures |f| == |lines|
  {
    seq(|lines|, i requires 0 <= i < |lines| =>
      FormatLine(lines[i].number, if sanitizer.None? then lines[i].text else SingleLine(sanitizer.value, lines[i].text)))
  }

  /** A formatted line reads back: its number in front of the first tab, and behind it the line, sanitized if that is on
      and the line is not too large for it, or else with a mark behind it. */
  lemma FormattedReadsBack(sanitizer: Option<Sanitizer>, lines: seq<Line>, i: nat) returns (number: string, text: string)
    requires i < |lines|
    ensures Format(sanitizer, lines)[i] == number + "\t" + text && '\t' !in number && ParseDec(number) == Some(lines[i].number)
    ensures sanitizer.None? ==> text == lines[i].text
    ensures sanitizer.Some? && !(0 < sanitizer.value.maxContentSize < |lines[i].text|) ==>
      text == Applied(sanitizer.value.rules, lines[i].text)
    ensures sanitizer.Some? && 0 < sanitizer.value.maxContentSize < |lines[i].text| ==>
      lines[i].text < text
  {
    number := Dec(lines[i].number);
    text := if sanitizer.None? then lines[i].text else SingleLine(sanitizer.value, lines[i].text);
    ParseDecOfDec(lines[i].number);
    DecHasNo(lines[i].number, '\t');
  }

  lemma FormatConcat(sanitizer: Option<Sanitizer>, a: seq<Line>, b: seq<Line>)
    ensures Format(sanitizer, a + b) == Format(sanitizer, a) + Format(sanitizer, b)
  {
  }

  const BATCH_SIZE: nat := 1000

  method FormatResults(s: Sanitizer, batch: seq<Line>, results: seq<Sanitized>) returns (formatted: seq<string>)
    requires |results| == |batch|
    requires forall i | 0 <= i < |batch| :: Fits(s, batch[i].text) && results[i].content == Applied(s.rules, batch[i].text)
    ensures formatted == Format(Some(s), batch)
  {
    formatted := [];
    for i := 0 to |results|
      invariant formatted == Format(Some(s), batch[..i])
    {
      formatted := formatted + [FormatLine(batch[i].number, results[i].content)];
    }
    assert batch[..|batch|] == batch;
  }

  method FormatSingly(s: Sanitizer, batch: seq<Line>, sources: seq<string>, now: int) returns (formatted: seq<string>)
    requires |sources| == |batch|
    ensures formatted == Format(Some(s), batch)
  {
    formatted := [];
    for i := 0 to |batch|
      invariant formatted == Format(Some(s), batch[..i])
    {
      var line := SanitizeSingleLine(s, batch[i].text, sources[i], now);
      formatted := formatted + [FormatLine(batch[i].number, line)];
    }
    assert batch[..|batch|] == batch;
  }

  /** One batch: all of it at once, or line by line if that fails. */
  method FormatBatch(s: Sanitizer, batch: seq<Line>, path: string, now: int) returns (formatted: seq<string>)
    ensures formatted == Format(Some(s), batch)
  {
    var contents := seq(|batch|, i requires 0 <= i < |batch| => batch[i].text);
    var sources := seq(|batch|, i requires 0 <= i < |batch| => path + ":line_" + Dec(batch[i].number));
    var results := SanitizeBatch(s, contents, sources, now);
    if results.Ok? {
      forall i | 0 <= i < |batch|
        ensures Fits(s, batch[i].text) && results.value[i].content == Applied(s.rules, batch[i].text)
      {
        assert contents[i] == batch[i].text && contents[i] in contents;
      }
      formatted := FormatResults(s, batch, results.value);
    } else {
      formatted := FormatSingly(s, batch, sources, now);
    }
  }

  /** Sanitizing in batches, with fallback to single lines, gives what single lines give. `clock` is what time.Now answers. */
  method SanitizeAndFormatLines(s: Sanitizer, lines: seq<Line>, path: string, clock: nat -> int) returns (formatted: seq<string>)
    ensures formatted == Format(Some(s), lines)
  {
    formatted := [];
    var batchStart := 0;
    while batchStart < |lines|
      invariant formatted == Format(Some(s), lines[..if batchStart <= |lines| then batchStart else |lines|])
    {
      var batchEnd := batchStart + BATCH_SIZE;
      if batchEnd > |lines| {
        batchEnd := |lines|;
      }
      var batch := FormatBatch(s, lines[batchStart..batchEnd], path, clock(batchStart));
      assert lines[..batchEnd] == lines[..batchStart] + lines[batchStart..batchEnd];
      FormatConcat(Some(s), lines[..batchStart], lines[batchStart..batchEnd]);
      formatted := formatted + batch;
      batchStart := batchStart + BATCH_SIZE;
    }
    assert lines[..|lines|] == lines;
  }

  // ---------- line ranges ----------

  function Clamp(n: int, low: nat, high: nat): nat
    requires low <= high
  {
    if n < low then low else if n > high then high else n
  }

  /** The lines of the file from line `start` to line `stop`, with their numbers (from 1). */
  function LinesInRange(file: seq<string>, start: Option<int>, stop: Option<int>): seq<Line> {
    var low := if start.None? then 0 else Clamp(start.value - 1, 0, |file|);
    var high := if stop.None? then |file| else Clamp(stop.value, low, |file|);
    seq(high - low, i requires 0 <= i < high - low => Line(low + i + 1, file[low + i]))
  }

  lemma NotYet(file: seq<string>, start: Option<int>, stop: Option<int>, i: nat)
    requires i < |file| && start.Some? && i + 1 < start.value
    ensures LinesInRange(file[..i + 1], start, stop) == LinesInRange(file[..i], start, stop)
  {
  }

  lemma OneMoreLine(file: seq<string>, start: Option<int>, stop: Option<int>, i: nat)
    requires i < |file| && (start.Some? ==> start.value <= i + 1) && (stop.Some? ==> i + 1 <= stop.value)
    ensures LinesInRange(file[..i + 1], start, stop) == LinesInRange(file[..i], start, stop) + [Line(i + 1, file[i])]
  {
  }

  lemma StoppedEarly(file: seq<string>, start: Option<int>, stop: Option<int>, i: nat)
    requires i < |file| && stop.Some? && stop.value <= i && (start.Some? ==> start.value <= i + 1)
    ensures LinesInRange(file[..i], start, stop) == LinesInRange(file, start, stop)
  {
  }

  /** `file` is what the scanner delivers. */
  method ReadLinesInRange(file: seq<string>, start: Option<int>, stop: Option<int>) returns (lines: seq<Line>)
    ensures lines == LinesInRange(file, start, stop)
  {
    lines := [];
    var lineNum := 1;
    var startLine := if start.Some? then start.value else 1;
    for i := 0 to |file|
      invariant lineNum == i + 1
      invariant stop.Some? && i > 0 && i >= startLine ==> i <= stop.value
      invariant lines == LinesInRange(file[..i], start, stop)
    {
      if lineNum < startLine {
        NotYet(file, start, stop, i);
        lineNum := lineNum + 1;
        continue;
      }
      if stop.Some? && lineNum > stop.value {
        StoppedEarly(file, start, stop, i);
        return;
      }
      OneMoreLine(file, start, stop, i);
      lines := lines + [Line(lineNum, file[i])];
      lineNum := lineNum + 1;
    }
    assert file[..|file|] == file;
  }

  method JoinLines(lines: seq<string>) returns (r: string)
    ensures r == Join(lines, "\n")
  {
    if |lines| == 0 {
      return "";
    }
    r := lines[0];
    for i := 1 to |lines|
      invariant r == Join(lines[..i], "\n")
    {
      assert lines[..i + 1][..i] == lines[..i];
      r := r + "\n" + lines[i];
    }
    assert lines[..|lines|] == lines;
  }

  // ---------- reading ----------

  datatype Answer = Content(text: string) | NoLines(start: int, stop: Option<int>) | EmptyFile

  /** What the model is told about a range of the file. */
  function Answered(sanitizer: Option<Sanitizer>, file: seq<string>, start: Option<int>, stop: Option<int>): Answer {
    var lines := LinesInRange(file, start, stop);
    if lines != [] then Content(Join(Format(sanitizer, lines), "\n"))
    else if start.Some? then NoLines(start.value, stop)
    else EmptyFile
  }

  method ReadFileWithLineRange(sanitizer: Option<Sanitizer>, file: seq<string>, path: string, start: Option<int>, stop: Option<int>,
                               clock: nat -> int)
    returns (r: Answer)
    ensures r == Answered(sanitizer, file, start, stop)
    ensures r.Content? <==>
      && file != [] && (start.Some? ==> start.value <= |file|) && (stop.Some? ==> 1 <= stop.value)
      && (start.Some? && stop.Some? ==> start.value <= stop.value)
    ensures r == EmptyFile ==> start.None?
    ensures r.NoLines? ==> start == Some(r.start) && r.stop == stop
  {
    var lines := ReadLinesInRange(file, start, stop);
    if |lines| == 0 {
      if start.Some? {
        return NoLines(start.value, stop);
      }
      return EmptyFile;
    }
    var formatted;
    if sanitizer.None? {
      formatted := seq(|lines|, i requires 0 <= i < |lines| => FormatLine(lines[i].number, lines[i].text));
      assert formatted == Format(None, lines);
    } else {
      formatted := SanitizeAndFormatLines(sanitizer.value, lines, path, clock);
    }
    var text := JoinLines(formatted);
    r := Content(text);
  }

  /** Exactly the lines whose numbers lie in the range, in order. */
  lemma LinesInRangeMeans(file: seq<string>, start: Option<int>, stop: Option<int>)
    ensures
      var lines := LinesInRange(file, start, stop);
      && (forall i, j | 0 <= i < j < |lines| :: lines[i].number < lines[j].number)
      && (forall n: nat, t :: Line(n, t) in lines <==>
          1 <= n <= |file| && file[n - 1] == t && (start.Some? ==> start.value <= n) && (stop.Some? ==> n <= stop.value))
  {
    var lines := LinesInRange(file, start, stop);
    forall n: nat, t
      ensures Line(n, t) in lines <==>
        1 <= n <= |file| && file[n - 1] == t && (start.Some? ==> start.value <= n) && (stop.Some? ==> n <= stop.value)
    {
      if 1 <= n <= |file| && file[n - 1] == t && (start.Some? ==> start.value <= n) && (stop.Some? ==> n <= stop.value) {
        var low := if start.None? then 0 else Clamp(start.value - 1, 0, |file|);
        assert lines[n - 1 - low] == Line(n, t);
      }
    }
  }

  lemma RangesCompose(file: seq<string>, a: int, b: int, c: int)
    requires a <= b + 1 && b <= c
    ensures LinesInRange(file, Some(a), Some(b)) + LinesInRange(file, Some(b + 1), Some(c)) == LinesInRange(file, Some(a), Some(c))
  {
  }

  lemma {:induction false} JoinConcat(a: seq<string>, b: seq<string>, separator: string)
    requires a != [] && b != []
    ensures Join(a + b, separator) == Join(a, separator) + separator + Join(b, separator)
  {
    var front, last := b[..|b| - 1], b[|b| - 1];
    assert (a + b)[..|a + b| - 1] == a + front;
    if front == [] {
      assert a + front == a;
    } else {
      JoinConcat(a, front, separator);
    }
  }

  /** Reading a..b and then b+1..c tells the model what reading a..c does, although the batches are cut at
      different lines and a line that is too large makes different batches fall back. */
  lemma ReadingComposes(sanitizer: Option<Sanitizer>, file: seq<string>, a: int, b: int, c: int)
    requires a <= b + 1 && b <= c
    ensures
      var first := Answered(sanitizer, file, Some(a), Some(b));
      var second := Answered(sanitizer, file, Some(b + 1), Some(c));
      Answered(sanitizer, file, Some(a), Some(c)) ==
      if first.Content? && second.Content? then Content(first.text + "\n" + second.text)
      else if first.Content? then first
      else if second.Content? then second
      else NoLines(a, Some(c))
  {
    RangesCompose(file, a, b, c);
    var first, second := LinesInRange(file, Some(a), Some(b)), LinesInRange(file, Some(b + 1), Some(c));
    FormatConcat(sanitizer, first, second);
    if first == [] {
      assert first + second == second;
    } else if second == [] {
      assert first + second == first;
    } else {
      JoinConcat(Format(sanitizer, first), Format(sanitizer, second), "\n");
    }
  }
}
