/** The glob filter (libraries/zc/core/glob-filter.cc): a simulation of a
    non-deterministic automaton whose states are positions in the pattern,
    proved to decide a declarative matching relation. */
module Glob {

  predicate IsSlash(c: char) {
    c == '/' || c == '\\'
  }

  predicate NoSlash(s: string) {
    forall i | 0 <= i < |s| :: !IsSlash(s[i])
  }

  /** What a pattern means: '*' stands for any slash-free run, '?' for one
      character that is no slash, and every other character for itself. */
  ghost predicate Match(p: string, t: string)
    decreases |p|
  {
    if p == "" then t == ""
    else if p[0] == '*' then exists k | 0 <= k <= |t| :: NoSlash(t[..k]) && Match(p[1..], t[k..])
    else if p[0] == '?' then t != "" && !IsSlash(t[0]) && Match(p[1..], t[1..])
    else t != "" && t[0] == p[0] && Match(p[1..], t[1..])
  }

  /** A match may begin at the start of the name or just after a slash. */
  ghost predicate IsStart(name: string, j: nat) {
    j <= |name| && (j == 0 || IsSlash(name[j - 1]))
  }

  ghost predicate Accepts(p: string, name: string) {
    exists j: nat | IsStart(name, j) :: Match(p, name[j..])
  }

  /** Some automaton state among `states` accepts the text `t`. */
  ghost predicate AnyMatch(p: string, states: seq<nat>, t: string) {
    exists i | 0 <= i < |states| && states[i] <= |p| :: Match(p[states[i]..], t)
  }

  /** Some start strictly after position `i` yields a match. */
  ghost predicate LaterStart(p: string, name: string, i: nat) {
    exists j: nat | i < j && IsStart(name, j) :: Match(p, name[j..])
  }

  /** The states reached from `state` by reading `c`, in the order the automaton adds them. */
  function Step(p: string, c: char, state: nat): seq<nat>
    decreases |p| - state
  {
    if state >= |p| then []
    else if p[state] == '*' then (if IsSlash(c) then [] else [state]) + Step(p, c, state + 1)
    else if p[state] == '?' then (if IsSlash(c) then [] else [state + 1])
    else if c == p[state] then [state + 1] else []
  }

  /** All the states after reading `c`: a fresh start after a slash, then the successors of each old state. */
  function Advance(p: string, c: char, states: seq<nat>): seq<nat>
    decreases |states|
  {
    if states == [] then (if IsSlash(c) then [0] else [])
    else Advance(p, c, states[..|states| - 1]) + Step(p, c, states[|states| - 1])
  }

  /** Reading one character below a star: the star either ends here or swallows the character. */
  lemma StarUnfold(p: string, c: char, rest: string)
    requires p != "" && p[0] == '*'
    ensures Match(p, [c] + rest) <==> Match(p[1..], [c] + rest) || (!IsSlash(c) && Match(p, rest))
  {
    var t := [c] + rest;
    assert t[1..] == rest && t[0..] == t && t[..0] == "";
    if Match(p, t) {
      var k :| 0 <= k <= |t| && NoSlash(t[..k]) && Match(p[1..], t[k..]);
      if k > 0 {
        assert t[..k][0] == c;
        var run := rest[..k - 1];
        forall i | 0 <= i < |run| ensures !IsSlash(run[i]) {
          assert t[..k][i + 1] == run[i];
        }
        assert t[k..] == rest[k - 1..];
      }
    }
    if !IsSlash(c) && Match(p, rest) {
      var k :| 0 <= k <= |rest| && NoSlash(rest[..k]) && Match(p[1..], rest[k..]);
      var run := t[..k + 1];
      forall i | 0 <= i < |run| ensures !IsSlash(run[i]) {
        if i > 0 { assert run[i] == rest[..k][i - 1]; }
      }
      assert t[k + 1..] == rest[k..];
    }
  }

  lemma AnyMatchConcat(p: string, a: seq<nat>, b: seq<nat>, t: string)
    ensures AnyMatch(p, a + b, t) <==> AnyMatch(p, a, t) || AnyMatch(p, b, t)
  {
    var s := a + b;
    if AnyMatch(p, s, t) {
      var i :| 0 <= i < |s| && s[i] <= |p| && Match(p[s[i]..], t);
      if i < |a| { assert a[i] == s[i]; } else { assert b[i - |a|] == s[i]; }
    }
    if AnyMatch(p, a, t) {
      var i :| 0 <= i < |a| && a[i] <= |p| && Match(p[a[i]..], t);
      assert s[i] == a[i];
    }
    if AnyMatch(p, b, t) {
      var i :| 0 <= i < |b| && b[i] <= |p| && Match(p[b[i]..], t);
      assert s[|a| + i] == b[i];
    }
  }

  /** One step of the automaton is exact: what the successors accept of the
      rest is what the state accepts of the character and the rest. */
  lemma {:induction false} StepExact(p: string, c: char, state: nat, rest: string)
    requires state <= |p|
    ensures AnyMatch(p, Step(p, c, state), rest) <==> Match(p[state..], [c] + rest)
    decreases |p| - state
  {
    if state < |p| {
      var q := p[state..];
      assert q[0] == p[state] && q[1..] == p[state + 1..];
      var t := [c] + rest;
      assert t[0] == c && t[1..] == rest;
      if p[state] == '*' {
        var here := if IsSlash(c) then [] else [state];
        StarUnfold(q, c, rest);
        StepExact(p, c, state + 1, rest);
        AnyMatchConcat(p, here, Step(p, c, state + 1), rest);
        Singleton(p, state, rest);
      } else {
        Singleton(p, state + 1, rest);
      }
    }
  }

  lemma Singleton(p: string, state: nat, t: string)
    requires state <= |p|
    ensures AnyMatch(p, [state], t) <==> Match(p[state..], t)
  {
    assert [state][0] == state;
  }

  lemma {:induction false} StepBound(p: string, c: char, state: nat)
    requires state <= |p|
    ensures forall k | 0 <= k < |Step(p, c, state)| :: Step(p, c, state)[k] <= |p|
    decreases |p| - state
  {
    if state < |p| && p[state] == '*' { StepBound(p, c, state + 1); }
  }

  /** The whole state set is exact for one character: together the new states accept
      what the old ones accepted, and a match opened by a slash. */
  lemma {:induction false} AdvanceExact(p: string, c: char, states: seq<nat>, rest: string)
    requires forall k | 0 <= k < |states| :: states[k] <= |p|
    ensures forall k | 0 <= k < |Advance(p, c, states)| :: Advance(p, c, states)[k] <= |p|
    ensures AnyMatch(p, Advance(p, c, states), rest) <==>
            (IsSlash(c) && Match(p, rest)) || AnyMatch(p, states, [c] + rest)
    decreases |states|
  {
    if states == [] {
      Singleton(p, 0, rest);
      assert p[0..] == p;
    } else {
      var init, last := states[..|states| - 1], states[|states| - 1];
      assert states == init + [last];
      AdvanceExact(p, c, init, rest);
      StepExact(p, c, last, rest);
      StepBound(p, c, last);
      AnyMatchConcat(p, Advance(p, c, init), Step(p, c, last), rest);
      AnyMatchConcat(p, init, [last], [c] + rest);
      Singleton(p, last, [c] + rest);
    }
  }

  /** A state accepts the empty text exactly when only stars remain. */
  lemma {:induction false} MatchEmpty(p: string)
    ensures Match(p, "") <==> forall i | 0 <= i < |p| :: p[i] == '*'
    decreases |p|
  {
    if p != "" {
      MatchEmpty(p[1..]);
      if p[0] == '*' {
        assert ""[..0] == "" && ""[0..] == "";
        assert Match(p, "") <==> Match(p[1..], "");
        if forall i | 0 <= i < |p[1..]| :: p[1..][i] == '*' {
          forall i | 0 <= i < |p| ensures p[i] == '*' {
            if i > 0 { assert p[i] == p[1..][i - 1]; }
          }
        }
      }
    }
  }

  /** The starts not before `i + 1` are the one opened by a slash at `i`, if any, and the later ones. */
  lemma LaterStartUnfold(p: string, name: string, i: nat)
    requires i < |name|
    ensures LaterStart(p, name, i) <==>
            (IsSlash(name[i]) && Match(p, name[i + 1..])) || LaterStart(p, name, i + 1)
  {
    if IsSlash(name[i]) && Match(p, name[i + 1..]) {
      assert IsStart(name, i + 1);
    }
  }

  lemma Assoc(a: seq<nat>, b: seq<nat>, c: seq<nat>)
    ensures (a + b) + c == a + (b + c)
  {
  }

  class GlobFilter {
    const pattern: string
    var states: seq<nat>

    constructor (pattern: string)
      ensures this.pattern == pattern
    {
      this.pattern := pattern;
      this.states := [];
    }

    /** Decides whether the pattern matches the name, from its start or after any slash. */
    method Matches(name: string) returns (r: bool)
      modifies this
      ensures r <==> Accepts(pattern, name)
    {
      states := [0];
      Singleton(pattern, 0, name[0..]);
      assert pattern[0..] == pattern;
      assert IsStart(name, 0);
      var i := 0;
      while i < |name|
        invariant 0 <= i <= |name|
        invariant forall k | 0 <= k < |states| :: states[k] <= |pattern|
        invariant Accepts(pattern, name) <==>
                  AnyMatch(pattern, states, name[i..]) || LaterStart(pattern, name, i)
      {
        var c := name[i];
        var oldStates := states;
        assert name[i..] == [c] + name[i + 1..];
        AdvanceExact(pattern, c, oldStates, name[i + 1..]);
        LaterStartUnfold(pattern, name, i);
        ReadChar(c, oldStates);
        i := i + 1;
      }
      assert name[i..] == "";
      r := Accepting();
    }

    /** The body of the loop over the name: refills `states` from the states before. */
    method ReadChar(c: char, oldStates: seq<nat>)
      requires forall k | 0 <= k < |oldStates| :: oldStates[k] <= |pattern|
      modifies this
      ensures states == Advance(pattern, c, oldStates)
    {
      states := [];
      if IsSlash(c) { states := states + [0]; }
      var j := 0;
      while j < |oldStates|
        invariant 0 <= j <= |oldStates|
        invariant states == Advance(pattern, c, oldStates[..j])
      {
        assert oldStates[..j + 1][..j] == oldStates[..j];
        ApplyState(c, oldStates[j]);
        j := j + 1;
      }
      assert oldStates[..j] == oldStates;
    }

    /** The final scan: is some state at the end of the pattern, or at stars just before it? */
    method Accepting() returns (r: bool)
      requires forall k | 0 <= k < |states| :: states[k] <= |pattern|
      ensures r <==> AnyMatch(pattern, states, "")
    {
      var j := 0;
      while j < |states|
        invariant 0 <= j <= |states|
        invariant forall k | 0 <= k < j :: !Match(pattern[states[k]..], "")
      {
        var state := states[j];
        MatchEmpty(pattern[state..]);
        while state < |pattern| && pattern[state] == '*'
          invariant states[j] <= state <= |pattern|
          invariant forall k | states[j] <= k < state :: pattern[k] == '*'
        {
          state := state + 1;
        }
        if state == |pattern| { return true; }
        assert pattern[states[j]..][state - states[j]] == pattern[state];
        j := j + 1;
      }
      return false;
    }

    /** Adds to `states` every state reachable from `state` by reading `c`. */
    method ApplyState(c: char, state: nat)
      requires state <= |pattern|
      modifies this
      ensures states == old(states) + Step(pattern, c, state)
      decreases |pattern| - state
    {
      if state < |pattern| {
        hide Match, AnyMatch;
        if pattern[state] == '*' {
          ghost var here := if IsSlash(c) then [] else [state];
          Assoc(states, here, Step(pattern, c, state + 1));
          if !IsSlash(c) { states := states + [state]; }
          assert states == old(states) + here;
          ApplyState(c, state + 1);
        } else if pattern[state] == '?' {
          if !IsSlash(c) { states := states + [state + 1]; }
        } else if c == pattern[state] {
          states := states + [state + 1];
        }
      }
    }
  }
}
