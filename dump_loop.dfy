/**
 * What the dump adapters share: reading a tool's listing line by line, and the
 * loop that dumps every selected name, stopping at the first command that fails.
 *
 * The commands an adapter issues for one name are given as a function from the
 * name to the commands, in the order the adapter issues them.
 */
module DumpLoop {
  import opened Wrappers
  import opened Outcomes
  import opened Selection

  /** What a listing function returns: `None` (the listing command failed), `False` (no names), or the names. */
  datatype Listing = NoListing | NoNames | Names(names: seq<string>)

  /**
   * The names kept from the first `n` lines: line `i` is kept when `keep(i, line)`
   * holds, as `name(line)`, in line order.
   */
  function Collect(lines: seq<string>, n: nat, keep: (nat, string) -> bool, name: string -> string): (r: seq<string>)
    requires n <= |lines|
    ensures |r| <= n
  {
    if n == 0 then []
    else Collect(lines, n - 1, keep, name) + (if keep(n - 1, lines[n - 1]) then [name(lines[n - 1])] else [])
  }

  /** A name is collected iff some kept line gives it. */
  lemma {:induction false} CollectMembers(lines: seq<string>, n: nat, keep: (nat, string) -> bool, name: string -> string, x: string)
    requires n <= |lines|
    ensures x in Collect(lines, n, keep, name) <==> exists i :: 0 <= i < n && keep(i, lines[i]) && name(lines[i]) == x
  {
    if n > 0 {
      CollectMembers(lines, n - 1, keep, name, x);
      if keep(n - 1, lines[n - 1]) && name(lines[n - 1]) == x {
        assert Collect(lines, n, keep, name)[|Collect(lines, n, keep, name)| - 1] == x;
      }
    }
  }

  /** Collecting keeps line order: the names of the first lines come first. */
  lemma {:induction false} CollectPrefix(lines: seq<string>, m: nat, n: nat, keep: (nat, string) -> bool, name: string -> string)
    requires m <= n <= |lines|
    ensures Collect(lines, m, keep, name) <= Collect(lines, n, keep, name)
    decreases n
  {
    if m < n {
      CollectPrefix(lines, m, n - 1, keep, name);
    }
  }

  /**
   * Every command the dump loop would issue if none failed: the commands of each
   * selected name, names in listing order.
   */
  function Plan<C>(names: seq<string>, includes: Option<seq<string>>, excludes: Option<seq<string>>, matches: Matcher,
                   commands: string -> seq<C>): seq<C>
  {
    if |names| == 0 then []
    else
      var last := names[|names| - 1];
      Plan(names[..|names| - 1], includes, excludes, matches, commands)
      + (if Selected(last, includes, excludes, matches) then commands(last) else [])
  }

  /** The commands of each name in turn. */
  function Expand<C>(names: seq<string>, commands: string -> seq<C>): seq<C>
  {
    if |names| == 0 then [] else Expand(names[..|names| - 1], commands) + commands(names[|names| - 1])
  }

  /** The plan is the commands of the selected names: selection first, then each name's commands. */
  lemma {:induction false} PlanOfSelection<C>(names: seq<string>, includes: Option<seq<string>>, excludes: Option<seq<string>>,
                                              matches: Matcher, commands: string -> seq<C>)
    ensures Plan(names, includes, excludes, matches, commands) == Expand(SelectNames(names, includes, excludes, matches), commands)
  {
    if |names| > 0 {
      var init := names[..|names| - 1];
      var last := names[|names| - 1];
      PlanOfSelection(init, includes, excludes, matches, commands);
      var selected := SelectNames(init, includes, excludes, matches);
      if Selected(last, includes, excludes, matches) {
        assert SelectNames(names, includes, excludes, matches) == selected + [last];
        assert (selected + [last])[..|selected|] == selected;
      } else {
        assert SelectNames(names, includes, excludes, matches) == selected;
      }
    }
  }

  /** Expanding distributes over concatenated lists of names. */
  lemma {:induction false} ExpandAppend<C>(a: seq<string>, b: seq<string>, commands: string -> seq<C>)
    ensures Expand(a + b, commands) == Expand(a, commands) + Expand(b, commands)
  {
    if |b| > 0 {
      var init := b[..|b| - 1];
      ExpandAppend(a, init, commands);
      assert (a + b)[..|a + b| - 1] == a + init;
    } else {
      assert a + b == a;
    }
  }

  /**
   * The commands of the k-th name come as one block, right after those of the
   * names before it and right before those of the names after it.
   */
  lemma ExpandAt<C>(names: seq<string>, k: nat, commands: string -> seq<C>)
    requires k < |names|
    ensures Expand(names, commands) == Expand(names[..k], commands) + commands(names[k]) + Expand(names[k + 1..], commands)
  {
    var upto, after := names[..k + 1], names[k + 1..];
    assert names == upto + after;
    ExpandAppend(upto, after, commands);
    assert upto[..k] == names[..k] && upto[k] == names[k];
  }

  /** A command is planned for a list of names iff it is one of some name's commands. */
  lemma {:induction false} ExpandMembers<C>(names: seq<string>, commands: string -> seq<C>, c: C)
    ensures c in Expand(names, commands) <==> exists k :: 0 <= k < |names| && c in commands(names[k])
  {
    if |names| > 0 {
      var n := |names| - 1;
      ExpandMembers(names[..n], commands, c);
      if c in Expand(names[..n], commands) {
        var k :| 0 <= k < n && c in commands(names[..n][k]);
        assert names[k] == names[..n][k];
      }
      if exists k :: 0 <= k < |names| && c in commands(names[k]) {
        var k :| 0 <= k < |names| && c in commands(names[k]);
        if k < n {
          assert names[..n][k] == names[k];
        }
      }
    }
  }

  /** One more name of the listing considered. */
  lemma PlanStep<C>(names: seq<string>, i: nat, includes: Option<seq<string>>, excludes: Option<seq<string>>,
                    matches: Matcher, commands: string -> seq<C>)
    requires i < |names|
    ensures Plan(names[..i + 1], includes, excludes, matches, commands)
      == Plan(names[..i], includes, excludes, matches, commands)
         + (if Selected(names[i], includes, excludes, matches) then commands(names[i]) else [])
  {
    assert names[..i + 1][..i] == names[..i];
  }

  /** The plan for the first names is the start of the plan for all of them. */
  lemma {:induction false} PlanPrefix<C>(names: seq<string>, i: nat, includes: Option<seq<string>>, excludes: Option<seq<string>>,
                                         matches: Matcher, commands: string -> seq<C>)
    requires i <= |names|
    ensures Plan(names[..i], includes, excludes, matches, commands) <= Plan(names, includes, excludes, matches, commands)
    decreases |names| - i
  {
    if i < |names| {
      PlanPrefix(names, i + 1, includes, excludes, matches, commands);
      PlanStep(names, i, includes, excludes, matches, commands);
    } else {
      assert names[..i] == names;
    }
  }

  /** The commands issued up to one inside a selected name's block are the start of the plan. */
  lemma StopInside<C>(names: seq<string>, i: nat, j: nat, includes: Option<seq<string>>, excludes: Option<seq<string>>,
                      matches: Matcher, commands: string -> seq<C>)
    requires i < |names| && Selected(names[i], includes, excludes, matches) && j < |commands(names[i])|
    ensures |Plan(names[..i], includes, excludes, matches, commands) + commands(names[i])[..j + 1]| > 0
    ensures Plan(names[..i], includes, excludes, matches, commands) + commands(names[i])[..j + 1]
         <= Plan(names, includes, excludes, matches, commands)
  {
    PlanStep(names, i, includes, excludes, matches, commands);
    PlanPrefix(names, i + 1, includes, excludes, matches, commands);
    var before, todo := Plan(names[..i], includes, excludes, matches, commands), commands(names[i]);
    assert before + todo[..j + 1] <= before + todo;
  }

  /**
   * The per-name loop of the adapters: the include block, the exclude block, then
   * the name's commands one after another; the first command that fails ends the
   * loop with `False`.
   */
  method DumpEach<C>(names: seq<string>, includes: Option<seq<string>>, excludes: Option<seq<string>>, matches: Matcher,
                     commands: string -> seq<C>, outcomes: seq<bool>)
    returns (ok: bool, issued: seq<C>)
    ensures FailFastRun(Plan(names, includes, excludes, matches, commands), outcomes, ok, issued)
  {
    issued := [];
    for i := 0 to |names|
      invariant issued == Plan(names[..i], includes, excludes, matches, commands)
      invariant forall k :: 0 <= k < |issued| ==> Succeeds(outcomes, k)
    {
      var name := names[i];
      PlanStep(names, i, includes, excludes, matches, commands);
      var selected := IsSelected(name, includes, excludes, matches);
      if !selected {
        continue;
      }
      var todo := commands(name);
      ghost var before := issued;
      for j := 0 to |todo|
        invariant issued == before + todo[..j]
        invariant forall k :: 0 <= k < |issued| ==> Succeeds(outcomes, k)
      {
        assert todo[..j + 1] == todo[..j] + [todo[j]];
        issued := issued + [todo[j]];
        if !Succeeds(outcomes, |issued| - 1) {
          StopInside(names, i, j, includes, excludes, matches, commands);
          FailFastStopped(Plan(names, includes, excludes, matches, commands), outcomes, issued);
          return false, issued;
        }
      }
      assert todo[..|todo|] == todo;
    }
    assert names[..|names|] == names;
    FailFastCompleted(Plan(names, includes, excludes, matches, commands), outcomes);
    ok := true;
  }
}
