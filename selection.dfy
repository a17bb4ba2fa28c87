/**
 * The include/exclude selection every dump adapter applies to the names it lists.
 *
 * A pattern is a regular expression, and `re.compile(p).match(name)` succeeds
 * when the pattern matches at the start of the name. The regular expression
 * engine is not modelled: `matches(p, name)` stands for that test.
 */
module Selection {
  import opened Wrappers

  /**
   * `matches(p, name)`: `re.compile(p).match(name)` is not `None`. Every
   * pattern is taken to be a valid regular expression: the `re.error` that
   * `re.compile` raises for an invalid one is not modelled.
   */
  type Matcher = (string, string) -> bool

  /** A pattern list takes effect when it is truthy: given, and not empty. */
  predicate Active(patterns: Option<seq<string>>)
  {
    patterns.Some? && |patterns.value| > 0
  }

  /** Some pattern of the list matches at the start of `name`. */
  predicate AnyMatches(patterns: seq<string>, name: string, matches: Matcher)
  {
    exists i :: 0 <= i < |patterns| && matches(patterns[i], name)
  }

  /** The flag-and-break loop over the patterns. */
  method AnyMatch(patterns: seq<string>, name: string, matches: Matcher) returns (found: bool)
    ensures found <==> AnyMatches(patterns, name, matches)
  {
    found := false;
    for i := 0 to |patterns|
      invariant !found
      invariant forall j :: 0 <= j < i ==> !matches(patterns[j], name)
    {
      if matches(patterns[i], name) {
        found := true;
        break;
      }
    }
  }

  /**
   * The selection rule: with include patterns, a name must match one of them;
   * with exclude patterns, it must match none. With both, both apply.
   */
  predicate Selected(name: string, includes: Option<seq<string>>, excludes: Option<seq<string>>, matches: Matcher)
  {
    && (Active(includes) ==> AnyMatches(includes.value, name, matches))
    && (Active(excludes) ==> !AnyMatches(excludes.value, name, matches))
  }

  /** The include block, then the exclude block, of the per-name loop. */
  method IsSelected(name: string, includes: Option<seq<string>>, excludes: Option<seq<string>>, matches: Matcher)
    returns (selected: bool)
    ensures selected <==> Selected(name, includes, excludes, matches)
  {
    if includes.Some? && |includes.value| > 0 {
      var included := AnyMatch(includes.value, name, matches);
      if !included {
        return false;
      }
    }
    if excludes.Some? && |excludes.value| > 0 {
      var excluded := AnyMatch(excludes.value, name, matches);
      if excluded {
        return false;
      }
    }
    return true;
  }

  /** The names the dump loop goes on to dump, in listing order. */
  function SelectNames(names: seq<string>, includes: Option<seq<string>>, excludes: Option<seq<string>>, matches: Matcher): (r: seq<string>)
    ensures |r| <= |names|
  {
    if |names| == 0 then []
    else
      var last := names[|names| - 1];
      SelectNames(names[..|names| - 1], includes, excludes, matches)
      + (if Selected(last, includes, excludes, matches) then [last] else [])
  }

  /** A name is dumped iff it is listed and selected. */
  lemma {:induction false} SelectNamesMembers(names: seq<string>, includes: Option<seq<string>>, excludes: Option<seq<string>>, matches: Matcher, n: string)
    ensures n in SelectNames(names, includes, excludes, matches) <==> n in names && Selected(n, includes, excludes, matches)
  {
    if |names| > 0 {
      var init := names[..|names| - 1];
      SelectNamesMembers(init, includes, excludes, matches, n);
      assert names == init + [names[|names| - 1]];
    }
  }

  /** Selection keeps listing order: it distributes over concatenated listings. */
  lemma {:induction false} SelectNamesAppend(a: seq<string>, b: seq<string>, includes: Option<seq<string>>, excludes: Option<seq<string>>, matches: Matcher)
    ensures SelectNames(a + b, includes, excludes, matches)
      == SelectNames(a, includes, excludes, matches) + SelectNames(b, includes, excludes, matches)
  {
    if |b| > 0 {
      var init := b[..|b| - 1];
      SelectNamesAppend(a, init, includes, excludes, matches);
      assert (a + b)[..|a + b| - 1] == a + init;
    } else {
      assert a + b == a;
    }
  }

  /** Without patterns every listed name is dumped. */
  lemma {:induction false} SelectNamesWithoutPatterns(names: seq<string>, includes: Option<seq<string>>, excludes: Option<seq<string>>, matches: Matcher)
    requires !Active(includes) && !Active(excludes)
    ensures SelectNames(names, includes, excludes, matches) == names
  {
    if |names| > 0 {
      SelectNamesWithoutPatterns(names[..|names| - 1], includes, excludes, matches);
    }
  }

  /**
   * Giving both include and exclude patterns is not rejected: both filters
   * apply, one after the other.
   */
  lemma {:induction false} BothFiltersApply(names: seq<string>, includes: Option<seq<string>>, excludes: Option<seq<string>>, matches: Matcher)
    ensures SelectNames(names, includes, excludes, matches)
      == SelectNames(SelectNames(names, includes, None, matches), None, excludes, matches)
  {
    if |names| > 0 {
      var init := names[..|names| - 1];
      var last := names[|names| - 1];
      BothFiltersApply(init, includes, excludes, matches);
      var first := SelectNames(init, includes, None, matches);
      var kept := if Selected(last, includes, None, matches) then [last] else [];
      SelectNamesAppend(first, kept, None, excludes, matches);
      if Selected(last, includes, None, matches) {
        assert SelectNames(kept, None, excludes, matches) == SelectNames([], None, excludes, matches)
          + (if Selected(last, None, excludes, matches) then [last] else []);
      }
    }
  }
}
