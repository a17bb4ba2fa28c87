/**
 * Resolution of `$(KEY)` placeholders in configuration strings against the
 * process environment (`resolve_env_placeholders` and `get_env`).
 *
 * A round finds every placeholder of the template as it stands at the start of
 * the round (`re.findall` with the pattern `\$\(([a-zA-Z0-9_-]+)\)`), then, for
 * each one in turn whose key is set, replaces every occurrence of it in the
 * current text (`str.replace`). Resolution stops after a round in which no found
 * key was set, and after ten rounds at the latest.
 */
module EnvResolver {
  import opened Wrappers
  import opened Text

  type Env = map<string, string>

  /** The round limit of the resolution loop. */
  const MaxResolveDepth: nat := 10

  predicate IsKeyChar(c: char)
  {
    'a' <= c <= 'z' || 'A' <= c <= 'Z' || '0' <= c <= '9' || c == '_' || c == '-'
  }

  predicate IsKey(k: string)
  {
    |k| > 0 && forall i :: 0 <= i < |k| ==> IsKeyChar(k[i])
  }

  function Placeholder(key: string): string
  {
    "$(" + key + ")"
  }

  /** Length of the run of key characters at the start of `s`. */
  function KeyRun(s: string): (n: nat)
    ensures n <= |s|
    ensures forall i :: 0 <= i < n ==> IsKeyChar(s[i])
    ensures n < |s| ==> !IsKeyChar(s[n])
  {
    if |s| == 0 || !IsKeyChar(s[0]) then 0 else 1 + KeyRun(s[1..])
  }

  /** The key of the placeholder the pattern matches at the very start of `s`, if any. */
  function PlaceholderAt(s: string): (r: Option<string>)
    ensures r.Some? ==> IsKey(r.value) && OccursAt(s, 0, Placeholder(r.value))
  {
    if |s| >= 2 && s[0] == '$' && s[1] == '(' then
      var n := KeyRun(s[2..]);
      if n > 0 && 2 + n < |s| && s[2 + n] == ')' then Some(s[2..2 + n]) else None
    else None
  }

  /** `re.findall`: the keys of the non-overlapping placeholders, scanning left to right. */
  function FindAll(s: string): (keys: seq<string>)
    ensures forall i :: 0 <= i < |keys| ==> IsKey(keys[i])
    decreases |s|
  {
    if |s| == 0 then []
    else match PlaceholderAt(s)
      case Some(k) => [k] + FindAll(s[|k| + 3..])
      case None => FindAll(s[1..])
  }

  /** `str.replace`: every non-overlapping occurrence of `pat`, leftmost first, becomes `with`. */
  function Replace(s: string, pat: string, with: string): string
    requires |pat| > 0
    decreases |s|
  {
    if |s| < |pat| then s
    else if s[..|pat|] == pat then with + Replace(s[|pat|..], pat, with)
    else [s[0]] + Replace(s[1..], pat, with)
  }

  /** The text after the inner loop of one round has handled `keys`, in order. */
  function Substitute(s: string, keys: seq<string>, env: Env): string
  {
    if |keys| == 0 then s
    else
      var before := Substitute(s, keys[..|keys| - 1], env);
      var key := keys[|keys| - 1];
      if key in env then Replace(before, Placeholder(key), env[key]) else before
  }

  /** Some placeholder found in `s` names a key that is set: a round would change `changed`. */
  predicate Resolvable(s: string, env: Env)
  {
    exists i :: 0 <= i < |FindAll(s)| && FindAll(s)[i] in env
  }

  function Round(s: string, env: Env): string
  {
    Substitute(s, FindAll(s), env)
  }

  /** Resolution with at most `fuel` rounds left. */
  function Resolve(s: string, env: Env, fuel: nat): string
    decreases fuel
  {
    if fuel == 0 || !Resolvable(s, env) then s else Resolve(Round(s, env), env, fuel - 1)
  }

  /** How many rounds performed a substitution. */
  function SubstitutionRounds(s: string, env: Env, fuel: nat): (n: nat)
    ensures n <= fuel
    decreases fuel
  {
    if fuel == 0 || !Resolvable(s, env) then 0 else 1 + SubstitutionRounds(Round(s, env), env, fuel - 1)
  }

  /** `resolve_env_placeholders`. */
  method ResolvePlaceholders(template: string, env: Env) returns (r: string)
    ensures r == Resolve(template, env, MaxResolveDepth)
  {
    r := template;
    var depth := 0;
    while depth < MaxResolveDepth
      invariant depth <= MaxResolveDepth
      invariant Resolve(r, env, MaxResolveDepth - depth) == Resolve(template, env, MaxResolveDepth)
    {
      depth := depth + 1;
      var changed := false;
      var found := FindAll(r);
      ghost var start := r;
      for i := 0 to |found|
        invariant r == Substitute(start, found[..i], env)
        invariant changed <==> exists j :: 0 <= j < i && found[j] in env
      {
        assert found[..i + 1][..i] == found[..i];
        if found[i] in env {
          r := Replace(r, Placeholder(found[i]), env[found[i]]);
          changed := true;
        }
      }
      assert found[..|found|] == found;
      if !changed {
        SubstituteWithoutSetKey(start, found, env);
        break;
      }
    }
  }

  /** A round in which no found key is set leaves the text alone. */
  lemma {:induction false} SubstituteWithoutSetKey(s: string, keys: seq<string>, env: Env)
    requires forall i :: 0 <= i < |keys| ==> keys[i] !in env
    ensures Substitute(s, keys, env) == s
  {
    if |keys| > 0 {
      SubstituteWithoutSetKey(s, keys[..|keys| - 1], env);
    }
  }

  // ---------------------------------------------------------------------------
  // Properties of resolution
  // ---------------------------------------------------------------------------

  /**
   * Resolution ends in one of two ways: all ten rounds substituted something, or
   * the result has no placeholder left whose key is set.
   */
  lemma {:induction false} EarlyStopLeavesNothingResolvable(s: string, env: Env, fuel: nat)
    requires SubstitutionRounds(s, env, fuel) < fuel
    ensures !Resolvable(Resolve(s, env, fuel), env)
    decreases fuel
  {
    if fuel > 0 && Resolvable(s, env) {
      EarlyStopLeavesNothingResolvable(Round(s, env), env, fuel - 1);
    }
  }

  /** Only the first character of a placeholder is a `$`. */
  lemma DollarOnlyAtStart(key: string, j: nat)
    requires IsKey(key) && 0 < j < |Placeholder(key)|
    ensures Placeholder(key)[j] != '$'
  {
    if 2 <= j < 2 + |key| {
      assert Placeholder(key)[j] == key[j - 2];
    }
  }

  /** A placeholder at the start of `s` is exactly what the pattern matches there. */
  lemma PlaceholderAtFinds(s: string, key: string)
    requires IsKey(key) && OccursAt(s, 0, Placeholder(key))
    ensures PlaceholderAt(s) == Some(key)
  {
    var p := Placeholder(key);
    var t := s[2..];
    assert s[..|p|] == p;
    assert s[0] == '$' && s[1] == '(';
    assert t[..|key|] == key by {
      assert t[..|key|] == s[2..2 + |key|] == p[2..2 + |key|];
    }
    assert t[|key|] == ')' by {
      assert t[|key|] == s[2 + |key|] == p[2 + |key|];
    }
    KeyRunOf(t, key);
    assert s[2..2 + |key|] == key;
  }

  lemma KeyRunOf(t: string, key: string)
    requires IsKey(key) && |key| < |t| && t[..|key|] == key && !IsKeyChar(t[|key|])
    ensures KeyRun(t) == |key|
  {
    assert forall i :: 0 <= i < |key| ==> t[i] == key[i];
  }

  /** `re.findall` misses no placeholder: every `$(KEY)` in the text is found. */
  lemma {:induction false} FindAllComplete(s: string, i: nat, key: string)
    requires IsKey(key) && OccursAt(s, i, Placeholder(key))
    ensures key in FindAll(s)
    decreases |s|
  {
    match PlaceholderAt(s)
    case Some(k) =>
      if i == 0 {
        PlaceholderAtFinds(s, key);
      } else if i < |k| + 3 {
        assert s[i] == Placeholder(key)[0];
        assert s[i] == Placeholder(k)[i];
        DollarOnlyAtStart(k, i);
      } else {
        assert OccursAt(s[|k| + 3..], i - (|k| + 3), Placeholder(key)) by {
          assert s[|k| + 3..][i - (|k| + 3)..i - (|k| + 3) + |Placeholder(key)|] == s[i..i + |Placeholder(key)|];
        }
        FindAllComplete(s[|k| + 3..], i - (|k| + 3), key);
      }
    case None =>
      if i == 0 {
        PlaceholderAtFinds(s, key);
      } else {
        assert OccursAt(s[1..], i - 1, Placeholder(key)) by {
          assert s[1..][i - 1..i - 1 + |Placeholder(key)|] == s[i..i + |Placeholder(key)|];
        }
        FindAllComplete(s[1..], i - 1, key);
      }
  }

  /**
   * The early-stop guarantee in terms of the text itself: when resolution stops
   * before its last round, no `$(KEY)` whose KEY is set remains anywhere.
   */
  lemma EarlyStopLeavesNoSetKey(s: string, env: Env, fuel: nat, key: string, i: nat)
    requires SubstitutionRounds(s, env, fuel) < fuel
    requires IsKey(key) && key in env
    ensures !OccursAt(Resolve(s, env, fuel), i, Placeholder(key))
  {
    EarlyStopLeavesNothingResolvable(s, env, fuel);
    if OccursAt(Resolve(s, env, fuel), i, Placeholder(key)) {
      FindAllComplete(Resolve(s, env, fuel), i, key);
    }
  }

  /**
   * `str.replace` moves no other placeholder: no occurrence of `$(a)` starts
   * inside the first `m` characters of `t`, so they are copied unchanged.
   */
  lemma {:induction false} ReplaceCopiesPrefix(t: string, a: string, v: string, m: nat)
    requires IsKey(a) && m <= |t|
    requires forall k :: 0 <= k < m ==> t[k] != '$'
    ensures Replace(t, Placeholder(a), v) == t[..m] + Replace(t[m..], Placeholder(a), v)
  {
    if m > 0 {
      var p := Placeholder(a);
      if |t| >= |p| {
        assert t[..|p|][0] == t[0];
        assert t[..|p|] != p;
      }
      var rest := Replace(t[1..], p, v);
      assert Replace(t, p, v) == [t[0]] + rest;
      ReplaceCopiesPrefix(t[1..], a, v, m - 1);
      assert t[1..][m - 1..] == t[m..];
      assert rest == t[1..][..m - 1] + Replace(t[m..], p, v);
      assert [t[0]] + t[1..][..m - 1] == t[..m];
      assert [t[0]] + (t[1..][..m - 1] + Replace(t[m..], p, v)) == ([t[0]] + t[1..][..m - 1]) + Replace(t[m..], p, v);
    }
  }

  /** Two different placeholders never overlap: one starting at 0 rules out the other before its end. */
  lemma PlaceholdersDoNotOverlap(s: string, a: string, x: string, i: nat)
    requires IsKey(a) && IsKey(x) && a != x
    requires OccursAt(s, 0, Placeholder(a)) && OccursAt(s, i, Placeholder(x))
    ensures i >= |Placeholder(a)|
  {
    if i == 0 {
      PlaceholderAtFinds(s, a);
      PlaceholderAtFinds(s, x);
    } else if i < |Placeholder(a)| {
      assert s[i] == Placeholder(x)[0];
      assert s[i] == Placeholder(a)[i];
      DollarOnlyAtStart(a, i);
    }
  }

  lemma OccursAfterPrefix(prefix: string, t: string, j: nat, q: string)
    requires OccursAt(t, j, q)
    ensures OccursAt(prefix + t, |prefix| + j, q)
  {
    assert (prefix + t)[|prefix| + j..|prefix| + j + |q|] == t[j..j + |q|];
  }

  lemma OccursInSuffix(s: string, m: nat, i: nat, q: string)
    requires m <= i && OccursAt(s, i, q)
    ensures OccursAt(s[m..], i - m, q)
  {
    assert s[m..][i - m..i - m + |q|] == s[i..i + |q|];
  }

  /** A placeholder `$(x)` at the very start where `$(a)` does not match survives the scan. */
  lemma ReplaceKeepsLeadingPlaceholder(s: string, a: string, v: string, x: string)
    requires IsKey(a) && IsKey(x)
    requires OccursAt(s, 0, Placeholder(x)) && |s| >= |Placeholder(a)|
    requires s[..|Placeholder(a)|] != Placeholder(a)
    ensures OccursAt(Replace(s, Placeholder(a), v), 0, Placeholder(x))
  {
    var p, q := Placeholder(a), Placeholder(x);
    var t := s[1..];
    forall k | 0 <= k < |q| - 1 ensures t[k] != '$' {
      assert t[k] == q[k + 1];
      DollarOnlyAtStart(x, k + 1);
    }
    ReplaceCopiesPrefix(t, a, v, |q| - 1);
    var r := Replace(s, p, v);
    assert r == [s[0]] + t[..|q| - 1] + Replace(t[|q| - 1..], p, v);
    assert r[..|q|] == [s[0]] + t[..|q| - 1] == s[..|q|];
  }

  /** Replacing `$(a)` leaves every occurrence of a different placeholder `$(x)` in place. */
  lemma {:induction false} ReplaceKeepsOtherPlaceholder(s: string, a: string, v: string, x: string, i: nat)
    requires IsKey(a) && IsKey(x) && a != x
    requires OccursAt(s, i, Placeholder(x))
    ensures Contains(Replace(s, Placeholder(a), v), Placeholder(x))
    decreases |s|
  {
    var p, q := Placeholder(a), Placeholder(x);
    var r := Replace(s, p, v);
    if |s| < |p| {
      assert OccursAt(r, i, q);
    } else if s[..|p|] == p {
      PlaceholdersDoNotOverlap(s, a, x, i);
      var t := s[|p|..];
      OccursInSuffix(s, |p|, i, q);
      ReplaceKeepsOtherPlaceholder(t, a, v, x, i - |p|);
      assert r == v + Replace(t, p, v);
      ContainsAfterPrefix(v, Replace(t, p, v), q);
    } else if i == 0 {
      ReplaceKeepsLeadingPlaceholder(s, a, v, x);
      assert OccursAt(r, 0, q);
    } else {
      var t := s[1..];
      OccursInSuffix(s, 1, i, q);
      ReplaceKeepsOtherPlaceholder(t, a, v, x, i - 1);
      assert r == [s[0]] + Replace(t, p, v);
      ContainsAfterPrefix([s[0]], Replace(t, p, v), q);
    }
  }

  lemma ContainsAfterPrefix(prefix: string, t: string, q: string)
    requires Contains(t, q)
    ensures Contains(prefix + t, q)
  {
    var j :| 0 <= j <= |t| && OccursAt(t, j, q);
    OccursAfterPrefix(prefix, t, j, q);
  }

  lemma {:induction false} SubstituteKeepsUnsetPlaceholder(s: string, keys: seq<string>, env: Env, x: string)
    requires forall i :: 0 <= i < |keys| ==> IsKey(keys[i])
    requires IsKey(x) && x !in env && Contains(s, Placeholder(x))
    ensures Contains(Substitute(s, keys, env), Placeholder(x))
  {
    if |keys| > 0 {
      SubstituteKeepsUnsetPlaceholder(s, keys[..|keys| - 1], env, x);
      var before := Substitute(s, keys[..|keys| - 1], env);
      var key := keys[|keys| - 1];
      if key in env {
        var i :| 0 <= i <= |before| && OccursAt(before, i, Placeholder(x));
        ReplaceKeepsOtherPlaceholder(before, key, env[key], x, i);
      }
    }
  }

  /** A placeholder whose key is not set is left verbatim: it survives every round. */
  lemma {:induction false} UnsetPlaceholderKept(s: string, env: Env, fuel: nat, x: string)
    requires IsKey(x) && x !in env && Contains(s, Placeholder(x))
    ensures Contains(Resolve(s, env, fuel), Placeholder(x))
    decreases fuel
  {
    if fuel > 0 && Resolvable(s, env) {
      SubstituteKeepsUnsetPlaceholder(s, FindAll(s), env, x);
      UnsetPlaceholderKept(Round(s, env), env, fuel - 1, x);
    }
  }

  /** A text that is one placeholder and nothing else yields exactly that key. */
  lemma FindAllOfPlaceholder(key: string)
    requires IsKey(key)
    ensures FindAll(Placeholder(key)) == [key]
  {
    assert OccursAt(Placeholder(key), 0, Placeholder(key));
    PlaceholderAtFinds(Placeholder(key), key);
    assert Placeholder(key)[|key| + 3..] == [];
  }

  /** A text that is one placeholder of a set key is resolvable, and one round replaces it by the key's value. */
  lemma PlaceholderRound(key: string, env: Env)
    requires IsKey(key) && key in env
    ensures Resolvable(Placeholder(key), env)
    ensures Round(Placeholder(key), env) == env[key]
  {
    var p := Placeholder(key);
    FindAllOfPlaceholder(key);
    assert FindAll(p)[0] in env;
    assert Substitute(p, [key], env) == Replace(Substitute(p, [], env), p, env[key]);
    assert p[|p|..] == [];
    assert Replace(p, p, env[key]) == env[key] + Replace([], p, env[key]);
  }

  /** The two-character keys of the example are placeholders `$(A)` and `$(B)`. */
  lemma ExamplePlaceholders()
    ensures IsKey("A") && IsKey("B")
    ensures Placeholder("A") == "$(A)" && Placeholder("B") == "$(B)"
  {
    assert IsKeyChar("A"[0]) && IsKeyChar("B"[0]);
    var a, b := Placeholder("A"), Placeholder("B");
    assert |a| == 4 && a[0] == '$' && a[1] == '(' && a[2] == 'A' && a[3] == ')';
    assert |b| == 4 && b[0] == '$' && b[1] == '(' && b[2] == 'B' && b[3] == ')';
  }

  /** Chained indirection: `$(A)` with A = `$(B)` and B = `x` resolves to `x` in two rounds. */
  lemma ChainedIndirectionResolves()
    ensures Resolve("$(A)", map["A" := "$(B)", "B" := "x"], MaxResolveDepth) == "x"
    ensures SubstitutionRounds("$(A)", map["A" := "$(B)", "B" := "x"], MaxResolveDepth) == 2
  {
    var env := map["A" := "$(B)", "B" := "x"];
    ExamplePlaceholders();
    PlaceholderRound("A", env);
    PlaceholderRound("B", env);
    assert !Resolvable("x", env) by {
      assert PlaceholderAt("x").None?;
      assert FindAll("x") == FindAll("x"[1..]);
    }
    assert Resolve("x", env, MaxResolveDepth - 2) == "x";
    assert SubstitutionRounds("x", env, MaxResolveDepth - 2) == 0;
  }

  // ---------------------------------------------------------------------------
  // get_env
  // ---------------------------------------------------------------------------

  /** The `default` argument of `get_env`: absent (`UNDEFINED`), or a value to return. */
  datatype Fallback = Required | Default(value: Option<string>)

  /** What `get_env` produces: a value, or the process exits through `fail`. */
  datatype Lookup = Value(value: Option<string>) | Exit

  /** `get_env`. */
  method GetEnv(env: Env, name: string, fallback: Fallback) returns (r: Lookup)
    ensures name in env ==> r == Value(Some(Resolve(env[name], env, MaxResolveDepth)))
    ensures name !in env && fallback.Default? ==> r == Value(fallback.value)
    ensures r.Exit? <==> name !in env && fallback.Required?
  {
    if name in env {
      var resolved := ResolvePlaceholders(env[name], env);
      return Value(Some(resolved));
    }
    if fallback.Default? {
      return Value(fallback.value);
    }
    return Exit;
  }
}
