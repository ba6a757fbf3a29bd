/** Which certificate identifiers the domain scopes of an application cover. The name normaliser is a parameter. */
module Scopes {
  import opened Base
  import opened Text

  type Normalizer = string -> Option<string>

  // ----- One scope and one identifier -----

  predicate HasPrefix(s: string, prefix: string) {
    prefix <= s
  }

  predicate HasSuffix(s: string, suffix: string) {
    |suffix| <= |s| && s[|s| - |suffix|..] == suffix
  }

  /** `strings.Count(value, ".")`. */
  function Dots(s: string): nat {
    if s == "" then 0 else (if s[0] == '.' then 1 else 0) + Dots(s[1..])
  }

  function LabelCount(value: string): nat {
    if value == "" then 0 else Dots(value) + 1
  }

  /** normalizedScopeCoversIdentifier. */
  predicate Covers(scope: string, identifier: string) {
    if scope == identifier then true
    else if HasPrefix(identifier, "*.") then false
    else if !HasPrefix(scope, "*.") then false
    else
      var base := scope[2..];
      HasSuffix(identifier, "." + base) && LabelCount(identifier) == LabelCount(base) + 1
  }

  /**
    The rule on labels: equal, or the scope's wildcard stands for exactly one leftmost label (section 6.4.3 of
    RFC 6125).
   */
  predicate CoversByLabels(scope: string, identifier: string) {
    var s, i := Split(scope, '.'), Split(identifier, '.');
    s == i || (|s| > 1 && s[0] == "*" && |s| == |i| && i[0] != "*" && i[1..] == s[1..])
  }

  lemma {:induction false} DotsAreSplits(s: string)
    ensures |Split(s, '.')| == Dots(s) + 1
  {
    if s != "" {
      DotsAreSplits(s[1..]);
    }
  }

  lemma {:induction false} DotsOfSum(a: string, b: string)
    ensures Dots(a + b) == Dots(a) + Dots(b)
  {
    if a == "" {
      assert a + b == b;
    } else {
      DotsOfSum(a[1..], b);
      assert (a + b)[1..] == a[1..] + b;
    }
  }

  lemma {:induction false} NoDots(s: string)
    ensures Dots(s) == 0 <==> '.' !in s
  {
    if s != "" {
      NoDots(s[1..]);
    }
  }

  /** The name with its first label taken off. */
  lemma FirstLabel(first: string, rest: string)
    requires '.' !in first
    ensures Split(first + "." + rest, '.') == [first] + Split(rest, '.')
  {
    SplitFirst(first, rest, '.');
  }

  lemma SplitIsFaithful(a: string, b: string)
    ensures Split(a, '.') == Split(b, '.') <==> a == b
  {
    JoinSplit(a, '.');
    JoinSplit(b, '.');
  }

  lemma WildcardLabels(name: string)
    ensures HasPrefix(name, "*.") <==> |Split(name, '.')| > 1 && Split(name, '.')[0] == "*"
    ensures HasPrefix(name, "*.") ==> Split(name, '.') == ["*"] + Split(name[2..], '.')
  {
    if HasPrefix(name, "*.") {
      assert name == "*" + "." + name[2..];
      FirstLabel("*", name[2..]);
    } else {
      JoinSplit(name, '.');
    }
  }

  /** The suffix and the dot count pin down one label in front of the base. */
  lemma OneLabelInFront(identifier: string, base: string)
    requires base != ""
    ensures
      HasSuffix(identifier, "." + base) && LabelCount(identifier) == LabelCount(base) + 1
      <==> |Split(identifier, '.')| > 1 && Split(identifier, '.')[1..] == Split(base, '.')
  {
    hide Split;
    var parts := Split(identifier, '.');
    if HasSuffix(identifier, "." + base) && LabelCount(identifier) == LabelCount(base) + 1 {
      var first := identifier[..|identifier| - |base| - 1];
      assert identifier == first + ("." + base);
      DotsBehind(first, base);
      NoDots(first);
      FirstLabel(first, base);
      assert identifier == first + "." + base;
    }
    if |parts| > 1 && parts[1..] == Split(base, '.') {
      JoinSplit(identifier, '.');
      JoinSplit(base, '.');
      assert identifier == parts[0] + "." + base;
      assert identifier[|identifier| - |base| - 1..] == "." + base;
      DotsAreSplits(identifier);
      DotsAreSplits(base);
    }
  }

  lemma DotsBehind(first: string, base: string)
    ensures Dots(first + ("." + base)) == Dots(first) + 1 + Dots(base)
  {
    DotsOfSum(first, "." + base);
    assert ("." + base)[1..] == base;
  }

  /** The suffix-and-count test is the rule on labels, for every scope but the wildcard of the empty name. */
  lemma CoversIsTheLabelRule(scope: string, identifier: string)
    requires scope != "*."
    ensures Covers(scope, identifier) <==> CoversByLabels(scope, identifier)
  {
    SplitIsFaithful(scope, identifier);
    WildcardLabels(scope);
    WildcardLabels(identifier);
    if HasPrefix(scope, "*.") {
      assert scope == "*." + scope[2..];
      OneLabelInFront(identifier, scope[2..]);
    }
  }

  /**
    Only that scope, which no normalised name is, tells the two apart: it covers no other name, the rule gives
    it "x.".
   */
  lemma EmptyWildcard(identifier: string)
    ensures Covers("*.", identifier) <==> identifier == "*."
    ensures CoversByLabels("*.", "x.")
  {
    FirstLabel("*", "");
    FirstLabel("x", "");
    assert "*" + "." + "" == "*." && "x" + "." + "" == "x.";
    if HasSuffix(identifier, ".") {
      NoDots(identifier);
      assert identifier[|identifier| - 1] == '.';
    }
  }

  // ----- All scopes and all identifiers -----

  predicate Covered(scopes: seq<string>, identifier: string) {
    exists i :: 0 <= i < |scopes| && Covers(scopes[i], identifier)
  }

  function Uncovered(scopes: seq<string>, names: seq<string>): seq<string> {
    if names == [] then []
    else
      var last := |names| - 1;
      Uncovered(scopes, names[..last]) + if Covered(scopes, names[last]) then [] else [names[last]]
  }

  /** The uncovered names are exactly those no scope covers, in their order, repetitions included. */
  lemma {:induction false} UncoveredExactly(scopes: seq<string>, names: seq<string>) returns (at: seq<nat>)
    ensures |at| == |Uncovered(scopes, names)|
    ensures forall k :: 0 <= k < |at| ==> at[k] < |names| && Uncovered(scopes, names)[k] == names[at[k]]
    ensures forall j, k :: 0 <= j < k < |at| ==> at[j] < at[k]
    ensures forall i: nat :: i < |names| ==> (i in at <==> !Covered(scopes, names[i]))
  {
    if names == [] {
      at := [];
    } else {
      hide Covered;
      var last := |names| - 1;
      at := UncoveredExactly(scopes, names[..last]);
      var before := at;
      if !Covered(scopes, names[last]) {
        at := at + [last];
      }
      forall i: nat | i < |names| ensures i in at <==> !Covered(scopes, names[i]) {
        if i < last {
          assert names[..last][i] == names[i];
        }
      }
    }
  }

  datatype Coverage = Coverage(normalized: seq<string>, uncovered: seq<string>)

  /** ScopesCoverIdentifiers. */
  method ScopesCoverIdentifiers(normalize: Normalizer, scopes: seq<string>, identifiers: seq<string>)
    returns (r: Option<Coverage>)
    ensures r.None? <==> exists i :: 0 <= i < |identifiers| && normalize(identifiers[i]).None?
    ensures r.Some? ==>
      && |r.value.normalized| == |identifiers|
      && (forall i :: 0 <= i < |identifiers| ==> normalize(identifiers[i]) == Some(r.value.normalized[i]))
      && r.value.uncovered == Uncovered(scopes, r.value.normalized)
  {
    var normalized: seq<string> := [];
    var uncovered: seq<string> := [];
    for i := 0 to |identifiers|
      invariant |normalized| == i
      invariant forall j :: 0 <= j < i ==> normalize(identifiers[j]) == Some(normalized[j])
      invariant uncovered == Uncovered(scopes, normalized)
    {
      var name := normalize(identifiers[i]);
      if name.None? {
        return None;
      }
      assert (normalized + [name.value])[..i] == normalized;
      normalized := normalized + [name.value];
      var covered := false;
      for k := 0 to |scopes|
        invariant !covered
        invariant forall j :: 0 <= j < k ==> !Covers(scopes[j], name.value)
      {
        if Covers(scopes[k], name.value) {
          covered := true;
          break;
        }
      }
      if !covered {
        uncovered := uncovered + [name.value];
      }
    }
    return Some(Coverage(normalized, uncovered));
  }
}
