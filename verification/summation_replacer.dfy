/**
 * The `\summ` macro: validation of its flags, options and arguments, the
 * choice of the LaTeX it expands to, and the replacement it records.
 */
module SummationReplacer {
  import opened Wrappers
  import opened FileParser

  /** The trigger strings this replacer is registered under. */
  const Triggers: set<string> := {"\\summ"}

  /** The only flags `\summ` accepts. */
  const AcceptedFlags: set<string> := {"inf", "lim"}

  const NoOptionsMessage: string := "\\summation does not take options"
  const TooManyArgumentsMessage: string := "Too many arguments for \\summation"
  const ParseErrorSuffix: string := " in \\summation"

  function UnknownFlagMessage(flag: string): string {
    "Unknown argument \"" + flag + "\" for \\summation"
  }

  const SumCommand: string := "\\sum"
  const LimitsCommand: string := "\\limits"
  const MinusInfinity: string := "-\\infty"
  const Infinity: string := "\\infty"

  predicate StartsWith(s: string, prefix: string) {
    |prefix| <= |s| && s[..|prefix|] == prefix
  }

  // ---------------------------------------------------------------------------
  // Validation
  // ---------------------------------------------------------------------------

  /** The options and the argument count pass every check `replace` makes. */
  predicate Accepts(options: MacroOptions, numArgs: nat)
    ensures Accepts(options, numArgs) <==>
              |options.opts| == 0 && numArgs <= 3 &&
              forall flag :: flag in options.flags ==> flag == "inf" || flag == "lim"
  {
    |options.opts| == 0 && options.flags <= AcceptedFlags && numArgs <= 3
  }

  /**
   * `message` is an error `replace` may raise for these options and this
   * argument count. The checks run in order: options, then flags (in the
   * set's unspecified iteration order), then the argument count.
   */
  ghost predicate Rejects(options: MacroOptions, numArgs: nat, message: string)
    ensures Rejects(options, numArgs, message) ==> !Accepts(options, numArgs)
  {
    if |options.opts| != 0 then message == NoOptionsMessage
    else if !(options.flags <= AcceptedFlags) then
      exists flag :: flag in options.flags && flag !in AcceptedFlags && message == UnknownFlagMessage(flag)
    else numArgs > 3 && message == TooManyArgumentsMessage
  }

  /** Some error is raised exactly when the input is not accepted. */
  lemma RejectsUnlessAccepted(options: MacroOptions, numArgs: nat)
    ensures Accepts(options, numArgs) <==> !exists m :: Rejects(options, numArgs, m)
  {
    if !Accepts(options, numArgs) {
      if |options.opts| != 0 {
        assert Rejects(options, numArgs, NoOptionsMessage);
      } else if !(options.flags <= AcceptedFlags) {
        var flag :| flag in options.flags && flag !in AcceptedFlags;
        assert Rejects(options, numArgs, UnknownFlagMessage(flag));
      } else {
        assert Rejects(options, numArgs, TooManyArgumentsMessage);
      }
    }
  }

  /** An option is reported before an unknown flag and before too many arguments. */
  lemma OptionsCheckedFirst(options: MacroOptions, numArgs: nat, message: string)
    requires |options.opts| != 0
    ensures Rejects(options, numArgs, message) <==> message == NoOptionsMessage
  {
  }

  /**
   * Scans the flags for one outside `AcceptedFlags`, in no particular order,
   * and returns the first such flag it meets.
   */
  method FirstUnknownFlag(flags: set<string>) returns (unknown: Option<string>)
    ensures unknown.None? <==> flags <= AcceptedFlags
    ensures unknown.Some? ==> unknown.value in flags && unknown.value !in AcceptedFlags
  {
    var remaining := flags;
    while remaining != {}
      invariant remaining <= flags
      invariant forall flag :: flag in flags && flag !in remaining ==> flag in AcceptedFlags
      decreases |remaining|
    {
      var flag :| flag in remaining;
      if flag !in AcceptedFlags {
        return Some(flag);
      }
      remaining := remaining - {flag};
    }
    return None;
  }

  // ---------------------------------------------------------------------------
  // Output selection
  // ---------------------------------------------------------------------------

  /** Argument 0 is the counting variable; an empty one still counts. */
  function Variable(args: seq<string>): (v: Option<string>)
    ensures v.Some? <==> |args| >= 1
    ensures v.Some? ==> v.value == args[0]
  {
    if |args| >= 1 then Some(args[0]) else None
  }

  /** Argument 1 is the lower bound; an empty one counts as absent. */
  function LowerBound(args: seq<string>): (b: Option<string>)
    ensures b.Some? <==> |args| >= 2 && args[1] != ""
    ensures b.Some? ==> b.value == args[1] && b.value != ""
  {
    if |args| >= 2 && args[1] != "" then Some(args[1]) else None
  }

  /** Argument 2 is the upper bound; an empty one counts as absent. */
  function UpperBound(args: seq<string>): (b: Option<string>)
    ensures b.Some? <==> |args| >= 3 && args[2] != ""
    ensures b.Some? ==> b.value == args[2] && b.value != ""
  {
    if |args| >= 3 && args[2] != "" then Some(args[2]) else None
  }

  /**
   * The shape of a `\sum` expansion: whether `\limits` follows, and the
   * texts inside `_{...}` and `^{...}` when present.
   */
  datatype SumLayout = SumLayout(limits: bool, sub: Option<string>, sup: Option<string>)

  /** The layout `replace` chooses for the flags `inf`, `lim` and the arguments. */
  function Layout(inf: bool, lim: bool, args: seq<string>): (l: SumLayout)
    requires |args| <= 3
    ensures l.limits ==> lim
    ensures l.sub.None? <==> !inf && args == []
    ensures l.sup.None? <==> !inf && UpperBound(args).None?
    ensures |args| >= 1 ==> l.sub.Some? && StartsWith(l.sub.value, args[0])
    ensures UpperBound(args).Some? ==> l.sup == UpperBound(args)
    ensures UpperBound(args).None? && inf ==> l.sup == Some(Infinity)
    ensures LowerBound(args).Some? ==> l.sub == Some(args[0] + "=" + args[1])
    ensures LowerBound(args).None? && inf && |args| >= 1 ==> l.sub == Some(args[0] + "=" + MinusInfinity)
    ensures LowerBound(args).None? && inf && |args| == 0 ==> l.sub == Some(MinusInfinity)
    ensures LowerBound(args).None? && !inf && |args| >= 1 ==> l.sub == Some(args[0])
  {
    var wrt := Variable(args);
    var lower := LowerBound(args);
    var upper := UpperBound(args);
    var binding := if wrt.Some? then wrt.value + "=" else "";
    assert "" + MinusInfinity == MinusInfinity;
    SumLayout(
      (upper.Some? || lower.Some? || inf) && lim,
      if lower.Some? then Some(binding + lower.value)
      else if inf then Some(binding + MinusInfinity)
      else if wrt.Some? then Some(wrt.value)
      else None,
      if upper.Some? then Some(upper.value)
      else if inf then Some(Infinity)
      else None)
  }

  /** `\limits` appears exactly when `lim` is set and there is a superscript or an explicit lower bound. */
  lemma LimitsFollowBounds(inf: bool, lim: bool, args: seq<string>)
    requires |args| <= 3
    ensures Layout(inf, lim, args).limits <==>
            lim && (Layout(inf, lim, args).sup.Some? || LowerBound(args).Some?)
  {
  }

  /** The `lim` flag changes nothing but the presence of `\limits`. */
  lemma LimOnlyChangesLimits(inf: bool, args: seq<string>)
    requires |args| <= 3
    ensures Layout(inf, true, args).sub == Layout(inf, false, args).sub
    ensures Layout(inf, true, args).sup == Layout(inf, false, args).sup
    ensures !Layout(inf, false, args).limits
  {
  }

  /** A group `_{body}` or `^{body}`, or nothing. */
  function Group(marker: char, body: Option<string>): string {
    match body
    case None => ""
    case Some(b) => [marker, '{'] + b + "}"
  }

  /** The LaTeX text of a layout. */
  function Render(l: SumLayout): (r: string)
    ensures StartsWith(r, SumCommand)
    ensures r == SumCommand <==> l == SumLayout(false, None, None)
  {
    SumCommand + (if l.limits then LimitsCommand else "") + Group('_', l.sub) + Group('^', l.sup)
  }

  /** The replacement text for `\summ` with flags `inf`, `lim` and the arguments. */
  function Summation(inf: bool, lim: bool, args: seq<string>): (r: string)
    requires |args| <= 3
    ensures StartsWith(r, SumCommand)
  {
    Render(Layout(inf, lim, args))
  }

  // ---------------------------------------------------------------------------
  // Reading an expansion back
  // ---------------------------------------------------------------------------

  /** The offset of the first `c` in `s`, or `|s|` when there is none. */
  function IndexOf(s: string, c: char): (k: nat)
    ensures k <= |s|
    ensures k < |s| ==> s[k] == c
    ensures forall i :: 0 <= i < k ==> s[i] != c
  {
    if s == [] then 0
    else if s[0] == c then 0
    else 1 + IndexOf(s[1..], c)
  }

  /**
   * Reads an optional group opened by `marker` and `{` and closed by the
   * first `}`: the group's body, if any, and the text after it; `None` when
   * the group is never closed.
   */
  function ReadGroup(marker: char, s: string): Option<(Option<string>, string)> {
    if |s| >= 2 && s[0] == marker && s[1] == '{' then
      var k := IndexOf(s[2..], '}');
      if k < |s| - 2 then Some((Some(s[2..2 + k]), s[3 + k..])) else None
    else Some((None, s))
  }

  /** Reads `\sum`, an optional `\limits`, an optional `_{...}` and an optional `^{...}`, and nothing else. */
  function ReadLayout(s: string): Option<SumLayout> {
    if !StartsWith(s, SumCommand) then None
    else
      var afterSum := s[|SumCommand|..];
      var limits := StartsWith(afterSum, LimitsCommand);
      var afterLimits := if limits then afterSum[|LimitsCommand|..] else afterSum;
      match ReadGroup('_', afterLimits)
      case None => None
      case Some((sub, afterSub)) =>
        match ReadGroup('^', afterSub)
        case None => None
        case Some((sup, afterSup)) =>
          if afterSup == [] then Some(SumLayout(limits, sub, sup)) else None
  }

  predicate NoCloseBrace(s: string) {
    forall i :: 0 <= i < |s| ==> s[i] != '}'
  }

  predicate BraceFreeGroup(body: Option<string>) {
    body.Some? ==> NoCloseBrace(body.value)
  }

  /** A group whose body holds no `}` reads back as written, leaving what follows. */
  lemma ReadGroupOfGroup(marker: char, body: Option<string>, rest: string)
    requires BraceFreeGroup(body)
    requires body.None? ==> !(|rest| >= 2 && rest[0] == marker && rest[1] == '{')
    ensures ReadGroup(marker, Group(marker, body) + rest) == Some((body, rest))
  {
    if body.Some? {
      var b := body.value;
      var s := Group(marker, body) + rest;
      assert s == [marker, '{'] + b + "}" + rest;
      assert s[2..] == b + "}" + rest;
      var k := IndexOf(s[2..], '}');
      assert s[2..][|b|] == '}';
      assert k == |b|;
      assert s[2..2 + k] == b;
      assert s[3 + k..] == rest;
    } else {
      assert Group(marker, body) + rest == rest;
    }
  }

  /** Rendering is unambiguous: a layout whose texts hold no `}` reads back from its LaTeX. */
  lemma {:induction false} ReadRender(l: SumLayout)
    requires BraceFreeGroup(l.sub) && BraceFreeGroup(l.sup)
    ensures ReadLayout(Render(l)) == Some(l)
  {
    var supText := Group('^', l.sup);
    var groups := Group('_', l.sub) + supText;
    var afterSum := (if l.limits then LimitsCommand else "") + groups;
    assert Render(l) == SumCommand + afterSum;
    assert Render(l)[|SumCommand|..] == afterSum;
    if l.limits {
      assert afterSum[..|LimitsCommand|] == LimitsCommand;
      assert afterSum[|LimitsCommand|..] == groups;
    } else {
      assert afterSum == groups;
      if |groups| >= |LimitsCommand| {
        assert groups[0] == '_' || groups[0] == '^';
        assert groups[..|LimitsCommand|][0] != LimitsCommand[0];
      }
    }
    ReadGroupOfGroup('_', l.sub, supText);
    ReadGroupOfGroup('^', l.sup, "");
    assert supText + "" == supText;
  }

  /**
   * Every expansion reads back to the layout it was rendered from, when the
   * arguments hold no `}`.
   */
  lemma SummationReadsBack(inf: bool, lim: bool, args: seq<string>)
    requires |args| <= 3
    requires forall i :: 0 <= i < |args| ==> NoCloseBrace(args[i])
    ensures ReadLayout(Summation(inf, lim, args)) == Some(Layout(inf, lim, args))
  {
    var l := Layout(inf, lim, args);
    assert NoCloseBrace("=");
    assert NoCloseBrace(MinusInfinity);
    assert NoCloseBrace(Infinity);
    if |args| >= 1 {
      assert NoCloseBrace(args[0]);
      assert NoCloseBrace(args[0] + "=");
    }
    ReadRender(l);
  }

  // ---------------------------------------------------------------------------
  // Properties of the output
  // ---------------------------------------------------------------------------

  /** An empty lower or upper bound is the same as leaving it out. */
  lemma EmptyBoundsAreAbsent(inf: bool, lim: bool, v: string, lower: string)
    ensures Summation(inf, lim, [v, lower, ""]) == Summation(inf, lim, [v, lower])
    ensures Summation(inf, lim, [v, ""]) == Summation(inf, lim, [v])
  {
  }

  /** An empty variable is still a variable: `{}{1}` binds nothing to 1. */
  lemma EmptyVariableStillBinds(lower: string)
    requires lower != ""
    ensures Summation(false, false, ["", lower]) == SumCommand + "_{=" + lower + "}"
  {
  }

  /** `{i}{1}{n}` sums from i=1 to n. */
  lemma ExpansionWithBounds()
    ensures Summation(false, false, ["i", "1", "n"]) == "\\sum_{i=1}^{n}"
  {
  }

  /** `[inf]{i}` runs from minus to plus infinity. */
  lemma ExpansionInfinite()
    ensures Summation(true, false, ["i"]) == "\\sum_{i=-\\infty}^{\\infty}"
  {
    assert Layout(true, false, ["i"]) == SumLayout(false, Some("i" + "=" + MinusInfinity), Some(Infinity));
  }

  /** `[lim]{i}{1}{n}` puts the bounds in display position. */
  lemma ExpansionWithLimits()
    ensures Summation(false, true, ["i", "1", "n"]) == "\\sum\\limits_{i=1}^{n}"
  {
  }

  /** `[inf,lim]{k}` combines both flags. */
  lemma ExpansionInfiniteWithLimits()
    ensures Summation(true, true, ["k"]) == "\\sum\\limits_{k=-\\infty}^{\\infty}"
  {
    var args := ["k"];
    assert Variable(args) == Some("k");
    assert LowerBound(args) == None && UpperBound(args) == None;
    assert Layout(true, true, args).limits;
    assert Layout(true, true, args).sup == Some(Infinity);
    assert Layout(true, true, args).sub == Some("k" + "=" + MinusInfinity);
  }

  /** Explicit bounds win over `inf`: `[inf]{i}{0}{n}` has no infinity in it. */
  lemma ExpansionInfiniteWithBounds()
    ensures Summation(true, false, ["i", "0", "n"]) == "\\sum_{i=0}^{n}"
  {
  }

  /** `{}{1}{}` keeps the empty variable and drops the empty upper bound. */
  lemma ExpansionEmptyVariable()
    ensures Summation(false, false, ["", "1", ""]) == "\\sum_{=1}"
  {
  }

  /** `[lim]{i}` has a subscript but no bound, so no `\limits`. */
  lemma ExpansionBareVariable()
    ensures Summation(false, true, ["i"]) == "\\sum_{i}"
    ensures Summation(false, false, []) == "\\sum"
  {
  }

  /** Four arguments are always refused, with the argument-count message when nothing else is wrong. */
  lemma FourArgumentsRejected(message: string)
    ensures Rejects(MacroOptions({}, map[]), 4, message) <==> message == TooManyArgumentsMessage
    ensures !Accepts(MacroOptions({}, map[]), 4)
  {
  }

  // ---------------------------------------------------------------------------
  // The replacer
  // ---------------------------------------------------------------------------

  /**
   * Expands the `\summ` invocation at `pi.curr`. `parsed` is what the option
   * parser and the brace-argument parser return when run after the trigger,
   * with `after` the cursor position they leave behind; a parse error is
   * re-raised with the macro's name appended.
   */
  method Replace(matchedKey: string, pi: Parser, parsed: Result<Arguments>) returns (outcome: Outcome)
    requires pi.Valid()
    requires matchedKey in Triggers
    requires StartsWith(pi.buffer[pi.curr..pi.end], matchedKey)
    requires parsed.Ok? ==> pi.curr + |matchedKey| <= parsed.value.after <= pi.end
    modifies pi`curr, pi`replacements
    ensures pi.Valid()
    ensures old(pi.curr) + |matchedKey| <= pi.curr
    ensures parsed.Err? ==> outcome == Fail(parsed.message + ParseErrorSuffix)
    ensures parsed.Err? ==> pi.curr == old(pi.curr) + |matchedKey|
    ensures parsed.Ok? ==> pi.curr == parsed.value.after
    ensures parsed.Ok? ==>
              (outcome.Pass? <==> Accepts(parsed.value.options, |parsed.value.args|))
    ensures parsed.Ok? && outcome.Fail? ==>
              Rejects(parsed.value.options, |parsed.value.args|, outcome.message)
    ensures outcome.Pass? ==>
              var a := parsed.value;
              pi.replacements == old(pi.replacements) +
                [Replacement(old(pi.curr), pi.curr,
                  Summation("inf" in a.options.flags, "lim" in a.options.flags, a.args))]
    ensures outcome.Fail? ==> pi.replacements == old(pi.replacements)
  {
    var start := pi.curr;
    pi.curr := pi.curr + |matchedKey|;

    if parsed.Err? {
      return Fail(parsed.message + ParseErrorSuffix);
    }
    var options := parsed.value.options;
    var args := parsed.value.args;
    pi.curr := parsed.value.after;

    if |options.opts| != 0 {
      return Fail(NoOptionsMessage);
    }

    var unknown := FirstUnknownFlag(options.flags);
    if unknown.Some? {
      return Fail(UnknownFlagMessage(unknown.value));
    }

    if |args| > 3 {
      return Fail(TooManyArgumentsMessage);
    }

    var inf := "inf" in options.flags;
    var lim := "lim" in options.flags;
    var replacement := Replacement(start, pi.curr, Summation(inf, lim, args));
    AppendKeepsOrder(pi.replacements, start, replacement);
    pi.replacements := pi.replacements + [replacement];
    outcome := Pass;
  }
}
