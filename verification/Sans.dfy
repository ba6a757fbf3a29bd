/**
  The normal form of a list of certificate identifiers: normalised, without repetitions, sorted.
  The name normaliser is a parameter, and `slices.Sort` is modelled by insertion.
 */
module Sans {
  import opened Base

  type Normalizer = string -> Option<string>

  const MAX_IDENTIFIERS := 100

  // ----- Order -----

  /** Go's string order. */
  predicate Less(a: string, b: string) {
    if b == "" then false
    else if a == "" then true
    else a[0] < b[0] || (a[0] == b[0] && Less(a[1..], b[1..]))
  }

  lemma {:induction false} LessIsTotal(a: string, b: string)
    ensures a == b || Less(a, b) || Less(b, a)
    ensures !(Less(a, b) && Less(b, a)) && !Less(a, a)
  {
    if a != "" {
      LessIsTotal(a[1..], a[1..]);
    }
    if a != "" && b != "" {
      LessIsTotal(a[1..], b[1..]);
      if a[0] == b[0] && a[1..] == b[1..] {
        assert a == [a[0]] + a[1..] && b == [b[0]] + b[1..];
      }
    }
  }

  lemma {:induction false} LessIsTransitive(a: string, b: string, c: string)
    requires Less(a, b) && Less(b, c)
    ensures Less(a, c)
  {
    if a != "" && a[0] == b[0] && b[0] == c[0] {
      LessIsTransitive(a[1..], b[1..], c[1..]);
    }
  }

  /** The order is lexicographic: by the first character that differs, a proper beginning coming first. */
  lemma {:induction false} LessIsLexicographic(a: string, b: string)
    ensures
      Less(a, b) <==>
      exists i ::
        0 <= i <= |a| && i < |b| && a[..i] == b[..i] && (i == |a| || a[i] < b[i])
  {
    if a == "" {
      if b != "" {
        assert a[..0] == b[..0];
      }
    } else if b != "" {
      LessIsLexicographic(a[1..], b[1..]);
      if a[0] < b[0] {
        assert a[..0] == b[..0];
      }
      if a[0] == b[0] && Less(a[1..], b[1..]) {
        var i :| 0 <= i <= |a[1..]| && i < |b[1..]| && a[1..][..i] == b[1..][..i]
          && (i == |a[1..]| || a[1..][i] < b[1..][i]);
        assert a[..i + 1] == [a[0]] + a[1..][..i] && b[..i + 1] == [b[0]] + b[1..][..i];
      }
      if i :| 0 <= i <= |a| && i < |b| && a[..i] == b[..i] && (i == |a| || a[i] < b[i]) {
        if i > 0 {
          assert a[0] == a[..i][0] == b[..i][0] == b[0];
          assert a[1..][..i - 1] == a[..i][1..] && b[1..][..i - 1] == b[..i][1..];
        }
      }
    }
  }

  predicate Increasing(names: seq<string>) {
    forall i, j :: 0 <= i < j < |names| ==> Less(names[i], names[j])
  }

  function Insert(name: string, sorted: seq<string>): seq<string> {
    if sorted == [] || Less(name, sorted[0]) then [name] + sorted else [sorted[0]] + Insert(name, sorted[1..])
  }

  function Sort(names: seq<string>): seq<string> {
    if names == [] then [] else Insert(names[0], Sort(names[1..]))
  }

  lemma {:induction false} InsertKeeps(name: string, sorted: seq<string>)
    requires Increasing(sorted) && name !in sorted
    ensures Increasing(Insert(name, sorted)) && |Insert(name, sorted)| == |sorted| + 1
    ensures forall x :: x in Insert(name, sorted) <==> x == name || x in sorted
  {
    if sorted == [] {
    } else if Less(name, sorted[0]) {
      forall j | 0 <= j < |sorted| ensures Less(name, sorted[j]) {
        if j > 0 {
          LessIsTransitive(name, sorted[0], sorted[j]);
        }
      }
    } else {
      var rest := sorted[1..];
      InsertKeeps(name, rest);
      LessIsTotal(name, sorted[0]);
      assert sorted == [sorted[0]] + rest;
      forall x | x in Insert(name, rest) ensures Less(sorted[0], x) {
        if x != name {
          var k :| 0 <= k < |rest| && rest[k] == x;
          assert rest[k] == sorted[k + 1];
        }
      }
    }
  }

  predicate Distinct(names: seq<string>) {
    forall i, j :: 0 <= i < j < |names| ==> names[i] != names[j]
  }

  lemma {:induction false} SortSorts(names: seq<string>)
    requires Distinct(names)
    ensures Increasing(Sort(names)) && |Sort(names)| == |names|
    ensures forall x :: x in Sort(names) <==> x in names
  {
    if names != [] {
      SortSorts(names[1..]);
      assert names == [names[0]] + names[1..];
      InsertKeeps(names[0], Sort(names[1..]));
    }
  }

  /** A strictly sorted list is determined by its members. */
  lemma {:induction false} SortedIsCanonical(a: seq<string>, b: seq<string>)
    requires Increasing(a) && Increasing(b) && forall x :: x in a <==> x in b
    ensures a == b
  {
    if a == [] {
      assert forall i :: 0 <= i < |b| ==> b[i] in b;
    } else {
      assert a[0] in b && b[0] in b;
      FirstIsLeast(a, b);
      forall x ensures x in a[1..] <==> x in b[1..] {
        InRest(a, x);
        InRest(b, x);
      }
      SortedIsCanonical(a[1..], b[1..]);
      assert a == [a[0]] + a[1..] && b == [b[0]] + b[1..];
    }
  }

  lemma FirstIsLeast(a: seq<string>, b: seq<string>)
    requires Increasing(a) && Increasing(b) && |a| > 0 && |b| > 0 && a[0] in b && b[0] in a
    ensures a[0] == b[0]
  {
    LessIsTotal(a[0], b[0]);
  }

  lemma InRest(a: seq<string>, x: string)
    requires Increasing(a) && |a| > 0
    ensures x in a[1..] <==> x in a && x != a[0]
  {
    assert a == [a[0]] + a[1..];
    LessIsTotal(a[0], a[0]);
  }

  lemma {:induction false} DistinctSize(names: seq<string>)
    requires Distinct(names)
    ensures |Members(names)| == |names|
  {
    if names != [] {
      DistinctSize(names[1..]);
      assert names == [names[0]] + names[1..];
      assert Members(names) == {names[0]} + Members(names[1..]);
    }
  }

  function Members(names: seq<string>): set<string> {
    set x | x in names
  }

  // ----- NormalizeSANs -----

  function NormalForms(normalize: Normalizer, values: seq<string>): set<string> {
    set i | 0 <= i < |values| && normalize(values[i]).Some? :: normalize(values[i]).value
  }

  predicate AllValid(normalize: Normalizer, values: seq<string>) {
    forall i :: 0 <= i < |values| ==> normalize(values[i]).Some?
  }

  /**
    The list of the distinct normal forms in order, or nothing when a value is invalid or there are none or too
    many.
   */
  method NormalizeSANs(normalize: Normalizer, values: seq<string>) returns (r: Option<seq<string>>)
    ensures r.Some? ==> Increasing(r.value) && Members(r.value) == NormalForms(normalize, values)
    ensures r.Some? <==> AllValid(normalize, values) && 1 <= |NormalForms(normalize, values)| <= 100
  {
    if |values| == 0 {
      return None;
    }
    var seen: set<string> := {};
    var out: seq<string> := [];
    for i := 0 to |values|
      invariant Distinct(out) && Members(out) == seen
      invariant AllValid(normalize, values[..i]) && seen == NormalForms(normalize, values[..i])
    {
      var name := normalize(values[i]);
      if name.None? {
        return None;
      }
      OneMore(normalize, values, i);
      if name.value in seen {
        continue;
      }
      assert Members(out + [name.value]) == seen + {name.value};
      seen := seen + {name.value};
      out := out + [name.value];
    }
    assert values[..|values|] == values;
    DistinctSize(out);
    SortSorts(out);
    assert Members(Sort(out)) == Members(out);
    out := Sort(out);
    if |out| == 0 || |out| > MAX_IDENTIFIERS {
      return None;
    }
    return Some(out);
  }

  lemma OneMore(normalize: Normalizer, values: seq<string>, i: nat)
    requires i < |values| && normalize(values[i]).Some?
    ensures
      NormalForms(normalize, values[..i + 1])
      == NormalForms(normalize, values[..i]) + {normalize(values[i]).value}
    ensures AllValid(normalize, values[..i]) ==> AllValid(normalize, values[..i + 1])
  {
    var shorter, longer := values[..i], values[..i + 1];
    assert longer == shorter + [values[i]];
    forall x | x in NormalForms(normalize, shorter) ensures x in NormalForms(normalize, longer) {
      var j :| 0 <= j < i && normalize(shorter[j]).Some? && normalize(shorter[j]).value == x;
      assert longer[j] == shorter[j];
    }
    assert longer[i] == values[i];
    forall x | x in NormalForms(normalize, longer)
      ensures x in NormalForms(normalize, shorter) + {normalize(values[i]).value}
    {
      var j :| 0 <= j <= i && normalize(longer[j]).Some? && normalize(longer[j]).value == x;
      if j < i {
        assert longer[j] == shorter[j];
      }
    }
  }

  /** Order and repetition of the identifiers do not matter: requests for the same names have the same normal form. */
  lemma SameNamesSameForm(normalize: Normalizer, values: seq<string>, others: seq<string>, a: seq<string>,
                          b: seq<string>)
    requires Increasing(a) && Members(a) == NormalForms(normalize, values)
    requires Increasing(b) && Members(b) == NormalForms(normalize, others)
    ensures a == b <==> NormalForms(normalize, values) == NormalForms(normalize, others)
  {
    if NormalForms(normalize, values) == NormalForms(normalize, others) {
      forall x ensures x in a <==> x in b {
        assert x in a <==> x in Members(a);
        assert x in b <==> x in Members(b);
      }
      SortedIsCanonical(a, b);
    }
  }
}
