/**
 * The scan state of one SemTeX file: replacement spans, parsed macro options,
 * the forward-only cursor, and the two helpers that the parser header defines
 * or documents completely (whitespace skipping and truth-value parsing).
 *
 * Raw `const char*` positions become offsets into the file's immutable text.
 */
module FileParser {
  import opened Wrappers

  /**
   * A span of the buffer to be replaced: from `start` up to, but not
   * including, `end`, replaced by `replaceWith`.
   */
  datatype Replacement = Replacement(start: nat, end: nat, replaceWith: string)
  {
    /** The span lies inside a buffer of `length` characters. */
    predicate Within(length: nat) {
      start <= end <= length
    }

    /** The span covers offset `i`. */
    predicate Covers(i: int) {
      start <= i < end
    }
  }

  /**
   * An ordered replacement log: every span lies before `bound` and each
   * span ends at or before the next one starts.
   */
  predicate OrderedLog(log: seq<Replacement>, bound: nat) {
    (forall i :: 0 <= i < |log| ==> log[i].Within(bound)) &&
    (forall i, j :: 0 <= i < j < |log| ==> log[i].end <= log[j].start)
  }

  /** Every span of the log is non-empty. */
  predicate NonEmptySpans(log: seq<Replacement>) {
    forall k :: 0 <= k < |log| ==> log[k].start < log[k].end
  }

  /** Two different spans of an ordered log cover no offset in common. */
  lemma OrderedLogDisjoint(log: seq<Replacement>, bound: nat, i: nat, j: nat)
    requires OrderedLog(log, bound)
    requires i < j < |log|
    ensures forall k :: !(log[i].Covers(k) && log[j].Covers(k))
  {
  }

  /**
   * Appending a span that starts at or after the log's bound keeps the log
   * ordered, with the span's end as the new bound.
   */
  lemma AppendKeepsOrder(log: seq<Replacement>, bound: nat, r: Replacement)
    requires OrderedLog(log, bound)
    requires bound <= r.start <= r.end
    ensures OrderedLog(log + [r], r.end)
  {
  }

  /** In an ordered log of non-empty spans the starts strictly increase. */
  lemma OrderedLogStartsIncrease(log: seq<Replacement>, bound: nat, i: nat, j: nat)
    requires OrderedLog(log, bound)
    requires NonEmptySpans(log)
    requires i < j < |log|
    ensures log[i].start < log[j].start
  {
    assert log[i].start < log[i].end;
  }

  /** Flags and key/value options read from `[...]` after a macro name. */
  datatype MacroOptions = MacroOptions(flags: set<string>, opts: map<string, string>)

  /** What the option parser followed by the brace-argument parser hand to a replacer. */
  datatype Arguments = Arguments(options: MacroOptions, args: seq<string>, after: nat)

  /** `std::isblank` in the C locale: a space or a horizontal tab, never a line break. */
  predicate IsBlank(c: char)
    ensures IsBlank(c) ==> c != '\n' && c != '\r'
  {
    c == ' ' || c == '\t'
  }

  /**
   * The offset where whitespace skipping starting at `from` stops: the first
   * offset at or after `from` that is `end` or holds a non-blank character.
   */
  function SkipBlanks(buffer: seq<char>, from: nat, end: nat): (r: nat)
    requires from <= end <= |buffer|
    ensures from <= r <= end
    ensures forall i :: from <= i < r ==> IsBlank(buffer[i])
    ensures r == end || !IsBlank(buffer[r])
    decreases end - from
  {
    if from < end && IsBlank(buffer[from]) then SkipBlanks(buffer, from + 1, end) else from
  }

  /** The stopping offset is the only one with the three properties above. */
  lemma SkipBlanksUnique(buffer: seq<char>, from: nat, end: nat, p: nat)
    requires from <= p <= end <= |buffer|
    requires forall i :: from <= i < p ==> IsBlank(buffer[i])
    requires p == end || !IsBlank(buffer[p])
    ensures SkipBlanks(buffer, from, end) == p
  {
  }

  /** A newline (or any other non-blank) at `k` is never skipped. */
  lemma SkipBlanksStopsAt(buffer: seq<char>, from: nat, end: nat, k: nat)
    requires from <= k < end <= |buffer|
    requires !IsBlank(buffer[k])
    ensures SkipBlanks(buffer, from, end) <= k
  {
  }

  /** Skipping again from where skipping stopped does not move. */
  lemma SkipBlanksIdempotent(buffer: seq<char>, from: nat, end: nat)
    requires from <= end <= |buffer|
    ensures SkipBlanks(buffer, SkipBlanks(buffer, from, end), end) == SkipBlanks(buffer, from, end)
  {
  }

  /** Literals the truth-value parser reads as true. */
  const TrueWords: set<string> := {"true", "True", "TRUE", "t", "T", "y", "Y", "yes", "Yes", "1"}

  /** Literals the truth-value parser reads as false. */
  const FalseWords: set<string> := {"false", "False", "FALSE", "f", "F", "n", "N", "no", "No", "0"}

  /** No literal is in both groups, so a truth value is well defined. */
  lemma TruthGroupsDisjoint()
    ensures TrueWords * FalseWords == {}
  {
    forall w | w in TrueWords * FalseWords
      ensures false
    {
    }
  }

  /**
   * Parses a true/false literal; any string in neither group is an
   * invalid-input error.
   */
  function GetStringTruthValue(str: string): (r: Result<bool>)
    ensures r == Ok(true) <==> str in TrueWords
    ensures r == Ok(false) <==> str in FalseWords
    ensures r.Err? <==> str !in TrueWords + FalseWords
  {
    TruthGroupsDisjoint();
    if str in TrueWords then Ok(true)
    else if str in FalseWords then Ok(false)
    else Err("\"" + str + "\" is not a truth value")
  }

  /** Matching is exact: other capitalisations are errors. */
  lemma TruthValueIsCaseExact()
    ensures GetStringTruthValue("yes") == Ok(true)
    ensures GetStringTruthValue("YES").Err?
    ensures GetStringTruthValue("No") == Ok(false)
    ensures GetStringTruthValue("nO").Err?
    ensures GetStringTruthValue("").Err?
  {
    assert "YES" != "Yes" && "YES" != "yes";
    assert "nO" != "no" && "nO" != "No";
  }

  /**
   * The cursor over one file's text. `end` never changes; `curr` only moves
   * forward; every replacement is non-empty and lies before `curr`, in order.
   */
  class Parser {
    var replacements: seq<Replacement>
    const buffer: seq<char>
    const end: nat
    var curr: nat
    const filename: string
    var currLine: int
    var unixNewlines: int
    var windowsNewlines: int
    var macNewlines: int

    ghost predicate Valid()
      reads this
    {
      curr <= end <= |buffer| && OrderedLog(replacements, curr) && NonEmptySpans(replacements)
    }

    constructor (file: string, buffer: seq<char>, current: nat, end: nat, startingLine: int := 1)
      requires current <= end <= |buffer|
      ensures Valid()
      ensures this.buffer == buffer && this.end == end && curr == current && filename == file
      ensures replacements == []
      ensures currLine == startingLine
      ensures unixNewlines == 0 && windowsNewlines == 0 && macNewlines == 0
    {
      replacements := [];
      this.buffer := buffer;
      this.end := end;
      curr := current;
      filename := file;
      currLine := startingLine;
      unixNewlines, windowsNewlines, macNewlines := 0, 0, 0;
    }

    /** Skips tabs and spaces; stops at `end`, a newline or any other character. */
    method EatWhitespace()
      requires Valid()
      modifies this`curr
      ensures Valid()
      ensures old(curr) <= curr <= end
      ensures curr == SkipBlanks(buffer, old(curr), end)
      ensures curr == end || !IsBlank(buffer[curr])
      ensures replacements == old(replacements) && currLine == old(currLine)
      ensures unixNewlines == old(unixNewlines) && windowsNewlines == old(windowsNewlines)
      ensures macNewlines == old(macNewlines)
    {
      while curr < end && IsBlank(buffer[curr])
        invariant old(curr) <= curr <= end
        invariant SkipBlanks(buffer, curr, end) == SkipBlanks(buffer, old(curr), end)
        invariant OrderedLog(replacements, curr)
      {
        curr := curr + 1;
      }
    }

    /** The starts of a valid parser's replacements strictly increase. */
    lemma LogStartsIncrease(i: nat, j: nat)
      requires Valid()
      requires i < j < |replacements|
      ensures replacements[i].start < replacements[j].start
    {
      OrderedLogStartsIncrease(replacements, curr, i, j);
    }
  }
}
