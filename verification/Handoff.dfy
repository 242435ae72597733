/** Fitting a handoff context, as one argument, on the destination's command line. */
module Handoff {
  import opened Options

  const CONTEXT_LIMIT: int := 30 * 1024
  const COMMAND_LINE_LIMIT: int := 32767

  function Count(s: string, c: char): nat {
    if s == "" then 0 else (if s[0] == c then 1 else 0) + Count(s[1..], c)
  }

  /** An upper bound on an argument once quoted: every quote and backslash may be doubled, plus two quotes. */
  function ArgumentCost(argument: string): nat {
    |argument| + Count(argument, '"') + Count(argument, '\\') + 2
  }

  function CommandLineCost(arguments: seq<string>): nat {
    if arguments == [] then 0
    else CommandLineCost(arguments[..|arguments| - 1]) + ArgumentCost(arguments[|arguments| - 1]) + 1
  }

  method TotalCost(arguments: seq<string>) returns (cost: nat)
    ensures cost == CommandLineCost(arguments)
  {
    hide ArgumentCost;
    cost := |arguments|;
    for i := 0 to |arguments|
      invariant cost == CommandLineCost(arguments[..i]) + (|arguments| - i)
    {
      assert arguments[..i + 1][..i] == arguments[..i];
      cost := cost + ArgumentCost(arguments[i]);
    }
    assert arguments[..|arguments|] == arguments;
  }

  lemma {:induction false} CountAppend(a: string, b: string, c: char)
    ensures Count(a + b, c) == Count(a, c) + Count(b, c)
  {
    if a == "" {
      assert a + b == b;
    } else {
      assert (a + b)[0] == a[0] && (a + b)[1..] == a[1..] + b;
      CountAppend(a[1..], b, c);
    }
  }

  lemma CostAppend(a: string, b: string)
    ensures ArgumentCost(a + b) == ArgumentCost(a) + ArgumentCost(b) - 2
  {
    CountAppend(a, b, '"');
    CountAppend(a, b, '\\');
  }

  lemma {:induction false} CommandLineAppend(a: seq<string>, b: seq<string>)
    ensures CommandLineCost(a + b) == CommandLineCost(a) + CommandLineCost(b)
  {
    hide ArgumentCost;
    if b == [] {
      assert a + b == a;
    } else {
      assert (a + b)[..|a + b| - 1] == a + b[..|b| - 1];
      CommandLineAppend(a, b[..|b| - 1]);
    }
  }

  // ---- Windows quoting ------------------------------------------------------------------------------

  predicate NeedsQuotes(s: string) {
    s == "" || exists i :: 0 <= i < |s| && (s[i] == ' ' || s[i] == '\t')
  }

  function Backslashes(n: nat): string {
    seq(n, _ => '\\')
  }

  /** Backslashes before a quote, or before the closing quote, are doubled; a quote is escaped. */
  function EscapedBody(s: string, pending: nat, quoted: bool): string {
    if s == "" then (if quoted then Backslashes(pending) else "")
    else if s[0] == '\\' then "\\" + EscapedBody(s[1..], pending + 1, quoted)
    else if s[0] == '"' then Backslashes(pending) + "\\\"" + EscapedBody(s[1..], 0, quoted)
    else [s[0]] + EscapedBody(s[1..], 0, quoted)
  }

  function Escaped(s: string): string {
    if NeedsQuotes(s) then "\"" + EscapedBody(s, 0, true) + "\"" else EscapedBody(s, 0, false)
  }

  function CommandLine(arguments: seq<string>): string {
    if arguments == [] then ""
    else if |arguments| == 1 then Escaped(arguments[0])
    else CommandLine(arguments[..|arguments| - 1]) + " " + Escaped(arguments[|arguments| - 1])
  }

  lemma {:induction false} BodyWithinCost(s: string, pending: nat, quoted: bool)
    ensures |EscapedBody(s, pending, quoted)| <= |s| + Count(s, '"') + Count(s, '\\') + pending
  {
    if s != "" { BodyWithinCost(s[1..], if s[0] == '\\' then pending + 1 else 0, quoted); }
  }

  /** The quoted command line, with its terminator, is never longer than its cost. */
  lemma {:induction false} CommandLineWithinCost(arguments: seq<string>)
    requires arguments != []
    ensures |CommandLine(arguments)| + 1 <= CommandLineCost(arguments)
  {
    var last := arguments[|arguments| - 1];
    BodyWithinCost(last, 0, NeedsQuotes(last));
    if |arguments| > 1 {
      CommandLineWithinCost(arguments[..|arguments| - 1]);
    } else {
      assert arguments[..0] == [];
    }
  }

  // ---- The context ----------------------------------------------------------------------------------

  /**
   * The encoded context around its dirty paths: what comes before them, what comes after them (which
   * depends on whether the list is marked as truncated), and how one path is encoded.
   */
  datatype Frame = Frame(before: string, after: bool -> string, encode: string -> string)

  function EncodedPaths(frame: Frame, paths: seq<string>): string {
    if paths == [] then ""
    else if |paths| == 1 then frame.encode(paths[0])
    else EncodedPaths(frame, paths[..|paths| - 1]) + "," + frame.encode(paths[|paths| - 1])
  }

  function Encoded(frame: Frame, paths: seq<string>, truncated: bool): string {
    frame.before + EncodedPaths(frame, paths) + frame.after(truncated)
  }

  lemma OneMorePath(frame: Frame, paths: seq<string>)
    requires paths != []
    ensures ArgumentCost(Encoded(frame, paths[..|paths| - 1], true)) <= ArgumentCost(Encoded(frame, paths, true))
  {
    hide ArgumentCost;
    var init := paths[..|paths| - 1];
    var last := frame.encode(paths[|paths| - 1]);
    CostOfEncoded(frame, init, true);
    CostOfEncoded(frame, paths, true);
    if |paths| == 1 {
      CostAtLeastTwo(last);
      EmptyCost();
    } else {
      CostAppend(EncodedPaths(frame, init) + ",", last);
      CostAppend(EncodedPaths(frame, init), ",");
      CostAtLeastTwo(last);
      CostAtLeastTwo(",");
    }
  }

  lemma CostAtLeastTwo(s: string)
    ensures ArgumentCost(s) >= 2
  {
  }

  lemma EmptyCost()
    ensures ArgumentCost("") == 2
  {
  }

  lemma CostOfEncoded(frame: Frame, paths: seq<string>, truncated: bool)
    ensures ArgumentCost(Encoded(frame, paths, truncated))
            == ArgumentCost(frame.before) + ArgumentCost(EncodedPaths(frame, paths)) +
              ArgumentCost(frame.after(truncated)) - 4
  {
    hide ArgumentCost;
    CostAppend(frame.before + EncodedPaths(frame, paths), frame.after(truncated));
    CostAppend(frame.before, EncodedPaths(frame, paths));
  }

  /** A longer prefix never costs less. */
  lemma {:induction false} PrefixCost(frame: Frame, paths: seq<string>, i: nat, j: nat)
    requires i <= j <= |paths|
    ensures ArgumentCost(Encoded(frame, paths[..i], true)) <= ArgumentCost(Encoded(frame, paths[..j], true))
    decreases j
  {
    hide ArgumentCost, Encoded;
    if i < j {
      assert paths[..j][..j - 1] == paths[..j - 1];
      OneMorePath(frame, paths[..j]);
      PrefixCost(frame, paths, i, j - 1);
    }
  }

  /** Binary search for the first index at which a condition that stays true once true becomes true. */
  method SearchFirst(n: nat, condition: nat -> bool) returns (first: nat)
    requires forall a, b :: 0 <= a <= b < n && condition(a) ==> condition(b)
    ensures first <= n
    ensures forall a :: 0 <= a < first ==> !condition(a)
    ensures first < n ==> condition(first)
  {
    var i, j := 0, n;
    while i < j
      invariant 0 <= i <= j <= n
      invariant forall a :: 0 <= a < i ==> !condition(a)
      invariant j < n ==> condition(j)
    {
      var h := (i + j) / 2;
      if !condition(h) {
        forall a | 0 <= a < h + 1 ensures !condition(a) { }
        i := h + 1;
      } else {
        j := h;
      }
    }
    first := i;
  }

  /** A proper prefix that costs no more than the budget, while every longer one costs more. */
  predicate LongestFitting(frame: Frame, paths: seq<string>, budget: int, kept: nat) {
    && kept < |paths| && ArgumentCost(Encoded(frame, paths[..kept], true)) <= budget
    && forall k :: kept < k < |paths| ==> ArgumentCost(Encoded(frame, paths[..k], true)) > budget
  }

  /**
   * The whole list when it fits; otherwise the longest proper prefix that fits, marked as truncated; and
   * nothing when not even the empty prefix does.
   */
  method BuildContext(frame: Frame, paths: seq<string>, truncated: bool, budget: int) returns (context: Option<string>)
    ensures context.Some? ==> ArgumentCost(context.value) <= budget
    ensures ArgumentCost(Encoded(frame, paths, truncated)) <= budget ==>
      context == Some(Encoded(frame, paths, truncated))
    ensures ArgumentCost(Encoded(frame, paths, truncated)) > budget && context.Some? ==>
      exists kept: nat :: LongestFitting(frame, paths, budget, kept) &&
        context.value == Encoded(frame, paths[..kept], true)
    ensures context.None? <==>
      && ArgumentCost(Encoded(frame, paths, truncated)) > budget
      && forall k :: 0 <= k < |paths| ==> ArgumentCost(Encoded(frame, paths[..k], true)) > budget
  {
    hide ArgumentCost, Encoded;
    var encoded := Encoded(frame, paths, truncated);
    if ArgumentCost(encoded) > budget && |paths| > 0 {
      var over := (count: nat) => count < |paths| && ArgumentCost(Encoded(frame, paths[..count + 1], true)) > budget;
      forall a, b | 0 <= a <= b < |paths| - 1 && over(a) ensures over(b) {
        PrefixCost(frame, paths, a + 1, b + 1);
      }
      var kept := SearchFirst(|paths| - 1, over);
      encoded := Encoded(frame, paths[..kept], true);
      forall k | kept < k < |paths| ensures ArgumentCost(Encoded(frame, paths[..k], true)) > budget {
        assert over(kept);
        PrefixCost(frame, paths, kept + 1, k);
      }
      if kept > 0 { assert !over(kept - 1); }
      if ArgumentCost(encoded) <= budget {
        assert LongestFitting(frame, paths, budget, kept);
        return Some(encoded);
      }
      forall k | 0 <= k < |paths| ensures ArgumentCost(Encoded(frame, paths[..k], true)) > budget {
        PrefixCost(frame, paths, 0, k);
      }
      return None;
    }
    if ArgumentCost(encoded) > budget { return None; }
    context := Some(encoded);
  }

  /** The longest fitting prefix is one length, so the context is determined. */
  lemma LongestUnique(frame: Frame, paths: seq<string>, budget: int, a: nat, b: nat)
    requires LongestFitting(frame, paths, budget, a) && LongestFitting(frame, paths, budget, b)
    ensures a == b
  {
  }

  /** What is left for the context once everything else on the command line is counted. */
  function ContextBudget(prepared: seq<string>, rest: seq<string>): int {
    var overhead := CommandLineCost(prepared + [""] + rest) - ArgumentCost("");
    if CONTEXT_LIMIT < COMMAND_LINE_LIMIT - overhead then CONTEXT_LIMIT else COMMAND_LINE_LIMIT - overhead
  }

  /** A context within that budget leaves the quoted command line, terminator included, within the limit. */
  lemma HandoffFitsCommandLine(prepared: seq<string>, rest: seq<string>, context: string)
    requires ArgumentCost(context) <= ContextBudget(prepared, rest)
    ensures |CommandLine(prepared + [context] + rest)| + 1 <= COMMAND_LINE_LIMIT
  {
    hide ArgumentCost, CommandLine;
    var line := prepared + [context] + rest;
    CommandLineAppend(prepared + [context], rest);
    CommandLineAppend(prepared, [context]);
    CommandLineAppend(prepared + [""], rest);
    CommandLineAppend(prepared, [""]);
    assert [context][..0] == [] && [""][..0] == [];
    CommandLineWithinCost(line);
  }

  /** And it is all there is: a context over budget is over 30 KiB, or makes the line cost more than the limit. */
  lemma BudgetIsExact(prepared: seq<string>, rest: seq<string>, context: string)
    ensures ArgumentCost(context) <= ContextBudget(prepared, rest) <==>
      ArgumentCost(context) <= 30720 && CommandLineCost(prepared + [context] + rest) <= 32767
  {
    hide ArgumentCost;
    CommandLineAppend(prepared + [context], rest);
    CommandLineAppend(prepared, [context]);
    CommandLineAppend(prepared + [""], rest);
    CommandLineAppend(prepared, [""]);
    assert [context][..0] == [] && [""][..0] == [];
  }

  /** The cost of an argument is no more than quoting can take: some arguments of any length need it all. */
  lemma {:induction false} CostIsReached(quotes: nat)
    ensures var s := " " + seq(quotes, _ => '"');
            ArgumentCost(s) == 3 + 2 * quotes && |Escaped(s)| == ArgumentCost(s)
    ensures var s := " " + Backslashes(quotes);
            ArgumentCost(s) == 3 + 2 * quotes && |Escaped(s)| == ArgumentCost(s)
  {
    var q, b := seq(quotes, _ => '"'), Backslashes(quotes);
    QuotesEscaped(quotes);
    BackslashesEscaped(quotes, 0);
    CountAppend(" ", q, '"');
    CountAppend(" ", q, '\\');
    CountAppend(" ", b, '"');
    CountAppend(" ", b, '\\');
    OneBlank();
    assert (" " + q)[0] == ' ' && (" " + q)[1..] == q;
    assert (" " + b)[0] == ' ' && (" " + b)[1..] == b;
  }

  lemma OneBlank()
    ensures Count(" ", '"') == 0 && Count(" ", '\\') == 0
  {
  }

  lemma {:induction false} QuotesEscaped(n: nat)
    ensures var q := seq(n, _ => '"');
            Count(q, '"') == n && Count(q, '\\') == 0 && |EscapedBody(q, 0, true)| == 2 * n
  {
    if n > 0 {
      QuotesEscaped(n - 1);
      assert seq(n, _ => '"')[1..] == seq(n - 1, _ => '"');
    }
  }

  lemma {:induction false} BackslashesEscaped(n: nat, pending: nat)
    ensures var b := Backslashes(n);
            Count(b, '"') == 0 && Count(b, '\\') == n && |EscapedBody(b, pending, true)| == 2 * n + pending
  {
    if n > 0 {
      BackslashesEscaped(n - 1, pending + 1);
      assert Backslashes(n)[1..] == Backslashes(n - 1);
    }
  }

  /** Nor is that of a line: when each argument needs its own cost, the line and its terminator need the sum. */
  lemma {:induction false} LineCostIsReached(arguments: seq<string>)
    requires arguments != []
    requires forall i :: 0 <= i < |arguments| ==> |Escaped(arguments[i])| == ArgumentCost(arguments[i])
    ensures |CommandLine(arguments)| + 1 == CommandLineCost(arguments)
  {
    hide Escaped, ArgumentCost;
    if |arguments| > 1 {
      LineCostIsReached(arguments[..|arguments| - 1]);
    } else {
      assert arguments[..0] == [];
    }
  }
}
