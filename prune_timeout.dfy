/**
 * The prune timeout (`get_prune_timeout`) and the prune command built from it
 * (`prune_repository`).
 *
 * `RESTIC_PRUNE_TIMEOUT` is read with no default, so an unset variable ends the
 * process. Its resolved value must match
 * `^((?P<days>\d+?)d)?((?P<hours>\d+?)h)?((?P<minutes>\d+?)m)?((?P<seconds>\d+?)s)?$`;
 * anything else also ends the process. The matched groups become a `timedelta`;
 * a total of zero seconds means "no timeout".
 */
module PruneTimeout {
  import opened Wrappers
  import opened Text
  import opened EnvResolver

  const TimeoutVariable := "RESTIC_PRUNE_TIMEOUT"

  datatype Unit = Days | Hours | Minutes | Seconds

  /** The named groups of the pattern, in the order the pattern requires them. */
  const Units: seq<Unit> := [Days, Hours, Minutes, Seconds]

  function Letter(u: Unit): char
  {
    match u
    case Days => 'd'
    case Hours => 'h'
    case Minutes => 'm'
    case Seconds => 's'
  }

  /** Seconds per unit, as `timedelta` counts them. */
  function Factor(u: Unit): nat
  {
    match u
    case Days => 86400
    case Hours => 3600
    case Minutes => 60
    case Seconds => 1
  }

  /**
   * The largest `timedelta` is 999999999 days, 23:59:59.999999; a longer total
   * raises `OverflowError`.
   */
  const MaxTimedeltaSeconds: nat := 999999999 * 86400 + 86399

  /** Length of the run of ASCII digits at the start of `s`. */
  function DigitRun(s: string): (n: nat)
    ensures n <= |s| && AllDigits(s[..n])
    ensures n < |s| ==> !IsDigit(s[n])
  {
    if |s| == 0 || !IsDigit(s[0]) then 0
    else
      var n := 1 + DigitRun(s[1..]);
      assert s[..n] == [s[0]] + s[1..][..n - 1];
      n
  }

  /**
   * The group `(\d+?)<letter>` at the start of `s`: its digits, or `None` when
   * the group does not take part. The lazy `+?` makes no difference here: the
   * digits must be followed by the letter, which is not a digit, so the only
   * possible group is the whole run of digits.
   */
  function MatchGroup(s: string, letter: char): (g: Option<string>)
    requires !IsDigit(letter)
    ensures g.Some? ==>
      |g.value| > 0 && AllDigits(g.value) && |g.value| < |s| && s[..|g.value| + 1] == g.value + [letter]
  {
    var n := DigitRun(s);
    if n > 0 && n < |s| && s[n] == letter then Some(s[..n]) else None
  }

  /**
   * The optional groups of `units`, in order, from the start of `s`, and what is
   * left after them. A group that does not match is skipped: the pattern can
   * then only go on at the same place, because the text there is either a later
   * group or the end.
   */
  function MatchGroups(s: string, units: seq<Unit>): (r: (seq<Option<string>>, string))
    ensures |r.0| == |units|
    ensures forall i :: 0 <= i < |units| && r.0[i].Some? ==> |r.0[i].value| > 0 && AllDigits(r.0[i].value)
  {
    if |units| == 0 then ([], s)
    else
      var g := MatchGroup(s, Letter(units[0]));
      var rest := if g.Some? then s[|g.value| + 1..] else s;
      var r := MatchGroups(rest, units[1..]);
      ([g] + r.0, r.1)
  }

  /**
   * The whole pattern: the four groups, then the end of the text, where Python's
   * `$` also accepts a single final newline. `None` when the pattern does not match.
   */
  function MatchDuration(token: string): (groups: Option<seq<Option<string>>>)
    ensures groups.Some? ==> |groups.value| == |Units|
    ensures groups.Some? ==> forall i :: 0 <= i < |Units| && groups.value[i].Some? ==>
      |groups.value[i].value| > 0 && AllDigits(groups.value[i].value)
  {
    var r := MatchGroups(token, Units);
    if r.1 == "" || r.1 == "\n" then Some(r.0) else None
  }

  /** `timedelta(**time_params).total_seconds()` for whole-unit parameters. */
  function TimedeltaSeconds(params: map<Unit, nat>): nat
  {
    (if Days in params then 86400 * params[Days] else 0)
    + (if Hours in params then 3600 * params[Hours] else 0)
    + (if Minutes in params then 60 * params[Minutes] else 0)
    + (if Seconds in params then params[Seconds] else 0)
  }

  /** The value of one matched group, zero when it did not take part. */
  function GroupValue(g: Option<string>): nat
  {
    if g.Some? && AllDigits(g.value) then DecimalValue(g.value) else 0
  }

  /** The duration a list of matched groups stands for: 86400·d + 3600·h + 60·m + s. */
  function DurationSeconds(groups: seq<Option<string>>): nat
    requires |groups| == |Units|
  {
    86400 * GroupValue(groups[0]) + 3600 * GroupValue(groups[1])
    + 60 * GroupValue(groups[2]) + GroupValue(groups[3])
  }

  /** What `get_prune_timeout` comes to. */
  datatype Timeout =
    | NoTimeout              // returns `None`: prune runs unbounded
    | Limit(seconds: nat)    // returns a positive `timedelta`
    | Fatal                  // `fail`: unset or malformed variable
    | Overflow               // `timedelta` raises `OverflowError`

  /** The value `get_prune_timeout` returns for an environment, as one expression. */
  function TimeoutOf(env: Env): Timeout
  {
    if TimeoutVariable !in env then Fatal
    else
      var parts := MatchDuration(Resolve(env[TimeoutVariable], env, MaxResolveDepth));
      if parts.None? then Fatal
      else
        var total := DurationSeconds(parts.value);
        if total > MaxTimedeltaSeconds then Overflow
        else if total == 0 then NoTimeout
        else Limit(total)
  }

  /** `get_prune_timeout`. */
  method GetPruneTimeout(env: Env) returns (r: Timeout)
    ensures r == TimeoutOf(env)
  {
    var value := GetEnv(env, TimeoutVariable, Required);
    if value.Exit? || value.value.None? {
      return Fatal;
    }
    var token := value.value.value;
    var parts := MatchDuration(token);
    if parts.None? {
      return Fatal;
    }
    var groups := parts.value;
    var timeParams: map<Unit, nat> := map[];
    for i := 0 to |Units|
      invariant forall j :: 0 <= j < i ==> (Units[j] in timeParams <==> groups[j].Some?)
      invariant forall j :: i <= j < |Units| ==> Units[j] !in timeParams
      invariant forall j :: 0 <= j < i && groups[j].Some? ==>
        timeParams[Units[j]] == DecimalValue(groups[j].value)
    {
      if groups[i].Some? {
        timeParams := timeParams[Units[i] := DecimalValue(groups[i].value)];
      }
    }
    var total := TimedeltaSeconds(timeParams);
    assert total == DurationSeconds(groups);
    if total > MaxTimedeltaSeconds {
      return Overflow;
    }
    if total <= 0 {
      return NoTimeout;
    }
    return Limit(total);
  }

  // ---------------------------------------------------------------------------
  // The grammar, from the other side
  // ---------------------------------------------------------------------------

  /** Writes a duration in the token grammar: each present component as `<N><letter>`, in unit order. */
  function FormatDuration(components: seq<Option<nat>>, units: seq<Unit>): string
    requires |components| == |units|
  {
    if |units| == 0 then ""
    else
      (if components[0].Some? then NatToString(components[0].value) + [Letter(units[0])] else "")
      + FormatDuration(components[1..], units[1..])
  }

  /** The groups the pattern should capture from a formatted duration. */
  function RenderGroups(components: seq<Option<nat>>): (groups: seq<Option<string>>)
    ensures |groups| == |components|
    ensures forall i :: 0 <= i < |components| ==>
      groups[i] == (if components[i].Some? then Some(NatToString(components[i].value)) else None)
  {
    if |components| == 0 then []
    else
      var first := if components[0].Some? then Some(NatToString(components[0].value)) else None;
      [first] + RenderGroups(components[1..])
  }

  /** Each group that takes part is a non-empty run of digits. */
  predicate DigitGroups(groups: seq<Option<string>>)
  {
    forall i :: 0 <= i < |groups| && groups[i].Some? ==> |groups[i].value| > 0 && AllDigits(groups[i].value)
  }

  /** The text a list of captured groups stands for: each present group's digits and its letter, in unit order. */
  function Written(groups: seq<Option<string>>, units: seq<Unit>): string
    requires |groups| == |units|
  {
    if |units| == 0 then ""
    else
      (if groups[0].Some? then groups[0].value + [Letter(units[0])] else "")
      + Written(groups[1..], units[1..])
  }

  /** Formatting a duration writes the groups it renders. */
  lemma {:induction false} FormatIsWritten(components: seq<Option<nat>>, units: seq<Unit>)
    requires |components| == |units|
    ensures FormatDuration(components, units) == Written(RenderGroups(components), units)
  {
    if |units| > 0 {
      FormatIsWritten(components[1..], units[1..]);
      assert RenderGroups(components)[1..] == RenderGroups(components[1..]);
    }
  }

  lemma {:induction false} DigitRunOfDigits(digits: string, letter: char, rest: string)
    requires AllDigits(digits) && !IsDigit(letter)
    ensures DigitRun(digits + [letter] + rest) == |digits|
  {
    var s := digits + [letter] + rest;
    if |digits| == 0 {
      assert s[0] == letter;
    } else {
      assert s[1..] == digits[1..] + [letter] + rest;
      DigitRunOfDigits(digits[1..], letter, rest);
    }
  }

  /** A group written as digits and its own letter is captured, and matching goes on after the letter. */
  lemma GroupMatches(digits: string, letter: char, rest: string)
    requires |digits| > 0 && AllDigits(digits) && !IsDigit(letter)
    ensures MatchGroup(digits + [letter] + rest, letter) == Some(digits)
    ensures (digits + [letter] + rest)[|digits| + 1..] == rest
  {
    var s := digits + [letter] + rest;
    DigitRunOfDigits(digits, letter, rest);
    assert s[..|digits|] == digits;
    assert s[|digits|] == letter;
  }

  /** Digits followed by another unit's letter are not this unit's group. */
  lemma GroupSkipped(digits: string, other: char, letter: char, rest: string)
    requires AllDigits(digits) && !IsDigit(other) && !IsDigit(letter) && other != letter
    ensures MatchGroup(digits + [other] + rest, letter).None?
  {
    var s := digits + [other] + rest;
    DigitRunOfDigits(digits, other, rest);
    assert s[|digits|] == other;
  }

  /** No unit of `units` is written with `letter`. */
  predicate LetterUnused(units: seq<Unit>, letter: char)
  {
    forall j :: 0 <= j < |units| ==> Letter(units[j]) != letter
  }

  /** Each unit of `units` is written with a letter no later unit uses. */
  predicate DistinctLetters(units: seq<Unit>)
  {
    |units| == 0 || (LetterUnused(units[1..], Letter(units[0])) && DistinctLetters(units[1..]))
  }

  /** Written groups never match the group of a letter they do not use. */
  lemma {:induction false} NoGroupOfUnusedLetter(groups: seq<Option<string>>, units: seq<Unit>, end: string, letter: char)
    requires |groups| == |units| && DigitGroups(groups)
    requires end == "" || end == "\n"
    requires !IsDigit(letter) && LetterUnused(units, letter)
    ensures MatchGroup(Written(groups, units) + end, letter).None?
  {
    if |units| == 0 {
      assert Written(groups, units) + end == end;
    } else {
      var tail := Written(groups[1..], units[1..]);
      if groups[0].Some? {
        assert Written(groups, units) + end == groups[0].value + [Letter(units[0])] + (tail + end);
        GroupSkipped(groups[0].value, Letter(units[0]), letter, tail + end);
      } else {
        assert Written(groups, units) + end == tail + end;
        NoGroupOfUnusedLetter(groups[1..], units[1..], end, letter);
      }
    }
  }

  /** One step of `MatchGroups`: the first group is `g`, and the rest is matched from `rest`. */
  lemma MatchGroupsStep(s: string, units: seq<Unit>, g: Option<string>, rest: string)
    requires |units| > 0
    requires MatchGroup(s, Letter(units[0])) == g
    requires rest == if g.Some? then s[|g.value| + 1..] else s
    ensures MatchGroups(s, units) == ([g] + MatchGroups(rest, units[1..]).0, MatchGroups(rest, units[1..]).1)
  {
  }

  /** The first group of written groups is captured exactly when it is written. */
  lemma FirstGroup(groups: seq<Option<string>>, units: seq<Unit>, end: string)
    requires |groups| == |units| > 0 && DistinctLetters(units) && DigitGroups(groups)
    requires end == "" || end == "\n"
    ensures var s := Written(groups, units) + end;
      && MatchGroup(s, Letter(units[0])) == groups[0]
      && (if groups[0].Some? then s[|groups[0].value| + 1..] else s) == Written(groups[1..], units[1..]) + end
  {
    var tail := Written(groups[1..], units[1..]);
    var s := Written(groups, units) + end;
    if groups[0].Some? {
      assert s == groups[0].value + [Letter(units[0])] + (tail + end);
      GroupMatches(groups[0].value, Letter(units[0]), tail + end);
    } else {
      assert s == tail + end;
      NoGroupOfUnusedLetter(groups[1..], units[1..], end, Letter(units[0]));
    }
  }

  /** Matching written groups captures exactly those groups and leaves only `end`. */
  lemma {:induction false} MatchGroupsOfWritten(groups: seq<Option<string>>, units: seq<Unit>, end: string)
    requires |groups| == |units| && DistinctLetters(units) && DigitGroups(groups)
    requires end == "" || end == "\n"
    ensures MatchGroups(Written(groups, units) + end, units) == (groups, end)
  {
    if |units| > 0 {
      var s := Written(groups, units) + end;
      MatchGroupsOfWritten(groups[1..], units[1..], end);
      FirstGroup(groups, units, end);
      MatchGroupsStep(s, units, groups[0], Written(groups[1..], units[1..]) + end);
      assert groups == [groups[0]] + groups[1..];
    } else {
      assert Written(groups, units) + end == end;
    }
  }

  /** Matching a formatted duration captures exactly the numbers written and leaves only `end`. */
  lemma MatchGroupsOfFormat(components: seq<Option<nat>>, units: seq<Unit>, end: string)
    requires |components| == |units| && DistinctLetters(units)
    requires end == "" || end == "\n"
    ensures MatchGroups(FormatDuration(components, units) + end, units) == (RenderGroups(components), end)
  {
    FormatIsWritten(components, units);
    MatchGroupsOfWritten(RenderGroups(components), units, end);
  }

  /** The text one group reads: its digits and its letter, or nothing when it does not take part. */
  lemma ReadGroup(s: string, letter: char) returns (read: string, rest: string)
    requires !IsDigit(letter)
    ensures var g := MatchGroup(s, letter);
      && read == (if g.Some? then g.value + [letter] else "")
      && rest == (if g.Some? then s[|g.value| + 1..] else s)
      && s == read + rest
  {
    var g := MatchGroup(s, letter);
    if g.Some? {
      read, rest := g.value + [letter], s[|g.value| + 1..];
      assert s == s[..|g.value| + 1] + rest;
    } else {
      read, rest := "", s;
    }
  }

  /** Whatever `MatchGroups` captures, the text it read is those groups written out, followed by what is left. */
  lemma {:induction false} MatchGroupsReadsWritten(s: string, units: seq<Unit>)
    requires forall j :: 0 <= j < |units| ==> !IsDigit(Letter(units[j]))
    ensures var r := MatchGroups(s, units); s == Written(r.0, units) + r.1
  {
    if |units| > 0 {
      var g := MatchGroup(s, Letter(units[0]));
      var read, rest := ReadGroup(s, Letter(units[0]));
      var r := MatchGroups(rest, units[1..]);
      MatchGroupsReadsWritten(rest, units[1..]);
      WrittenCons(g, r.0, units);
      MatchGroupsStep(s, units, g, rest);
      assert s == read + (Written(r.0, units[1..]) + r.1);
      ConcatAssociative(read, Written(r.0, units[1..]), r.1);
    }
  }

  /** Writing a first group in front of others. */
  lemma WrittenCons(g: Option<string>, groups: seq<Option<string>>, units: seq<Unit>)
    requires |units| == |groups| + 1
    ensures Written([g] + groups, units) == (if g.Some? then g.value + [Letter(units[0])] else "") + Written(groups, units[1..])
  {
    assert ([g] + groups)[1..] == groups;
  }

  /** The four units are written with distinct letters, none of them a digit. */
  lemma UnitLetters()
    ensures DistinctLetters(Units)
    ensures forall j :: 0 <= j < |Units| ==> !IsDigit(Letter(Units[j]))
  {
    assert DistinctLetters(Units[3..]);
    assert DistinctLetters(Units[2..]);
    assert DistinctLetters(Units[1..]);
  }

  /**
   * The pattern accepts a token exactly when the token is its groups written
   * out in unit order, each a non-empty run of digits, with or without a final
   * newline: anything else, such as a unit out of order, a letter without
   * digits or trailing text, is rejected.
   */
  lemma MatchDurationExactly(token: string, groups: seq<Option<string>>)
    ensures MatchDuration(token) == Some(groups) <==>
      && |groups| == |Units| && DigitGroups(groups)
      && (token == Written(groups, Units) || token == Written(groups, Units) + "\n")
  {
    UnitLetters();
    if MatchDuration(token) == Some(groups) {
      MatchGroupsReadsWritten(token, Units);
    }
    if |groups| == |Units| && DigitGroups(groups) {
      if token == Written(groups, Units) {
        MatchGroupsOfWritten(groups, Units, "");
        assert token + "" == token;
      } else if token == Written(groups, Units) + "\n" {
        MatchGroupsOfWritten(groups, Units, "\n");
      }
    }
  }

  /**
   * Every duration written in the grammar, with or without a final newline, is
   * accepted, and the captured groups are the numbers written: formatting and
   * matching are inverse, and the seconds come out as 86400·d + 3600·h + 60·m + s.
   */
  lemma FormatThenMatch(components: seq<Option<nat>>, end: string)
    requires |components| == |Units|
    requires end == "" || end == "\n"
    ensures MatchDuration(FormatDuration(components, Units) + end) == Some(RenderGroups(components))
    ensures DurationSeconds(RenderGroups(components)) ==
      86400 * components[0].GetOr(0) + 3600 * components[1].GetOr(0)
      + 60 * components[2].GetOr(0) + components[3].GetOr(0)
  {
    UnitLetters();
    MatchGroupsOfFormat(components, Units, end);
    var groups := RenderGroups(components);
    forall i | 0 <= i < |Units| ensures GroupValue(groups[i]) == components[i].GetOr(0) {
      if components[i].Some? {
        DecimalValueOfNatToString(components[i].value);
      }
    }
  }

  /** The components of one day, written in the grammar and as the groups captured. */
  lemma OneDayComponents()
    ensures FormatDuration([Some(1), None, None, None], Units) == "1d"
    ensures RenderGroups([Some(1), None, None, None]) == [Some("1"), None, None, None]
  {
    assert NatToString(1) == "1";
    assert FormatDuration([Some(1), None, None, None], Units) == "1" + ['d'] + "";
  }

  /** One day is 86400 seconds. */
  lemma OneDayExample()
    ensures MatchDuration("1d") == Some([Some("1"), None, None, None])
    ensures DurationSeconds([Some("1"), None, None, None]) == 86400
  {
    OneDayComponents();
    FormatThenMatch([Some(1), None, None, None], "");
    assert "1d" + "" == "1d";
  }

  /** Zero seconds is accepted and totals zero, which disables the timeout. */
  lemma ZeroSecondsExample()
    ensures MatchDuration("0s") == Some([None, None, None, Some("0")])
    ensures DurationSeconds([None, None, None, Some("0")]) == 0
  {
    FormatThenMatch([None, None, None, Some(0)], "");
    assert FormatDuration([None, None, None, Some(0)], Units) + "" == "0s";
    assert RenderGroups([None, None, None, Some(0)]) == [None, None, None, Some("0")];
  }

  /**
   * A variable that resolves to a well-formed token: the timeout is the
   * token's total in seconds, no timeout when that total is zero, and an
   * overflow past the largest `timedelta`.
   */
  lemma TimeoutOfFormatted(env: Env, components: seq<Option<nat>>)
    requires |components| == |Units|
    requires TimeoutVariable in env
    requires Resolve(env[TimeoutVariable], env, MaxResolveDepth) == FormatDuration(components, Units)
    ensures var total := 86400 * components[0].GetOr(0) + 3600 * components[1].GetOr(0)
                         + 60 * components[2].GetOr(0) + components[3].GetOr(0);
      TimeoutOf(env) == if total > MaxTimedeltaSeconds then Overflow else if total == 0 then NoTimeout else Limit(total)
  {
    FormatThenMatch(components, "");
    assert FormatDuration(components, Units) + "" == FormatDuration(components, Units);
  }

  /** A token that is not in the grammar does not match. */
  lemma BogusDoesNotMatch()
    ensures MatchDuration("bogus").None?
  {
    assert DigitRun("bogus") == 0;
    assert MatchGroups("bogus", Units[3..]).1 == "bogus";
    assert MatchGroups("bogus", Units[2..]).1 == "bogus";
    assert MatchGroups("bogus", Units[1..]).1 == "bogus";
    assert MatchGroups("bogus", Units).1 == "bogus";
  }

  /** A token with its units out of order does not match: hours cannot come before days. */
  lemma OutOfOrderDoesNotMatch()
    ensures MatchDuration("1h1d").None?
  {
    GroupMatches("1", 'h', "1d");
    assert "1h1d" == "1" + ['h'] + "1d";
    GroupSkipped("1", 'h', 'd', "1d");
    assert "1d" == "1" + ['d'] + "";
    GroupSkipped("1", 'd', 'm', "");
    GroupSkipped("1", 'd', 's', "");
    assert MatchGroups("1d", Units[3..]).1 == "1d";
    assert MatchGroups("1d", Units[2..]).1 == "1d";
    assert MatchGroups("1h1d", Units[1..]).1 == "1d";
    assert MatchGroups("1h1d", Units).1 == "1d";
  }

  // ---------------------------------------------------------------------------
  // The prune command
  // ---------------------------------------------------------------------------

  const PruneBase: seq<string> := ["restic", "prune", "-o", "s3.list-objects-v1=true"]

  /**
   * The command `prune_repository` runs. With a limit it is prefixed by
   * `timeout <seconds>`, the seconds written as `str(timedelta.total_seconds())`:
   * below 10^16 a whole number of seconds prints as its digits and `.0`.
   */
  function PruneCommand(timeout: Timeout): seq<string>
    requires timeout.NoTimeout? || timeout.Limit?
  {
    match timeout
    case NoTimeout => PruneBase
    case Limit(seconds) => ["timeout", NatToString(seconds) + ".0"] + PruneBase
  }

  /** The prune command always ends with the plain `restic prune` and starts with `timeout` exactly when there is a limit. */
  lemma PruneCommandShape(timeout: Timeout)
    requires timeout.NoTimeout? || timeout.Limit?
    ensures var argv := PruneCommand(timeout);
      && |argv| >= |PruneBase| && argv[|argv| - |PruneBase|..] == PruneBase
      && (argv[0] == "timeout" <==> timeout.Limit?)
      && (timeout.Limit? ==> |argv| == |PruneBase| + 2 && argv[1] == NatToString(timeout.seconds) + ".0")
      && (timeout.NoTimeout? ==> argv == PruneBase)
  {
    if timeout.Limit? {
      var argv := PruneCommand(timeout);
      assert argv[|argv| - |PruneBase|..] == PruneBase;
    }
  }
}
