/**
  Relative link targets as Go's path/filepath reads them: splitting at slashes, `Clean` and `Dir`; and the
  test that decides whether a link may be the `current` link of a release directory.
 */
module LinkPaths {
  import opened Text

  const RELEASES := "releases"

  /** A file name that stays within its directory. */
  predicate Plain(name: string) {
    name != "" && name != "." && name != ".." && '/' !in name
  }

  predicate IsAbs(path: string) {
    path != "" && path[0] == '/'
  }

  /** The elements of a path after those already kept: empty ones and "." go, ".." takes back an ordinary one. */
  function Resolve(parts: seq<string>, kept: seq<string>): seq<string> {
    if parts == [] then kept
    else if parts[0] == "" || parts[0] == "." then Resolve(parts[1..], kept)
    else if parts[0] == ".." && kept != [] && kept[|kept| - 1] != ".." then Resolve(parts[1..], kept[..|kept| - 1])
    else Resolve(parts[1..], kept + [parts[0]])
  }

  function Elements(path: string): seq<string> {
    Resolve(Split(path, '/'), [])
  }

  /** `filepath.Clean` of a relative path. */
  function Clean(path: string): string {
    var parts := Elements(path);
    if parts == [] then "." else Join(parts, '/')
  }

  /** `filepath.Dir` of a relative path. */
  function Dir(path: string): string {
    var parts := Split(path, '/');
    if |parts| == 1 then "." else Clean(Join(parts[..|parts| - 1], '/'))
  }

  /** The test of safeCurrentSymlink on a link's target. */
  predicate SafeTarget(target: string) {
    && !IsAbs(target)
    && var clean := Clean(target);
       clean != "." && !("../" <= clean) && clean != ".." && Dir(clean) == RELEASES
  }

  /** The target names an entry of the releases directory. */
  predicate IntoReleases(target: string, name: string) {
    !IsAbs(target) && Elements(target) == [RELEASES, name] && Plain(name)
  }

  /** Elements in normal form: no slash, no empty one, no ".", and ".." only in front. */
  predicate Normal(parts: seq<string>) {
    && (forall i :: 0 <= i < |parts| ==> parts[i] != "" && parts[i] != "." && '/' !in parts[i])
    && (forall i :: 0 < i < |parts| && parts[i] == ".." ==> parts[i - 1] == "..")
  }

  lemma {:induction false} ResolveNormal(parts: seq<string>, kept: seq<string>)
    requires Normal(kept) && forall p :: p in parts ==> '/' !in p
    ensures Normal(Resolve(parts, kept))
  {
    if parts != [] {
      assert parts[0] in parts && forall p :: p in parts[1..] ==> p in parts;
      if parts[0] == "" || parts[0] == "." {
        ResolveNormal(parts[1..], kept);
      } else if parts[0] == ".." && kept != [] && kept[|kept| - 1] != ".." {
        ResolveNormal(parts[1..], kept[..|kept| - 1]);
      } else {
        ResolveNormal(parts[1..], kept + [parts[0]]);
      }
    }
  }

  lemma {:induction false} ResolveKeeps(parts: seq<string>, kept: seq<string>)
    requires Normal(kept + parts)
    ensures Resolve(parts, kept) == kept + parts
  {
    if parts == [] {
      assert kept + parts == kept;
    } else {
      var all := kept + parts;
      assert all[|kept|] == parts[0];
      assert kept != [] ==> all[|kept| - 1] == kept[|kept| - 1];
      assert kept + [parts[0]] + parts[1..] == all;
      ResolveKeeps(parts[1..], kept + [parts[0]]);
    }
  }

  lemma ElementsNormal(path: string)
    ensures Normal(Elements(path))
  {
    JoinSplit(path, '/');
    ResolveNormal(Split(path, '/'), []);
  }

  /** A path joined from elements in normal form has just these elements. */
  lemma NormalElements(parts: seq<string>)
    requires Normal(parts) && parts != []
    ensures Split(Join(parts, '/'), '/') == parts && Elements(Join(parts, '/')) == parts
    ensures Clean(Join(parts, '/')) == Join(parts, '/')
  {
    assert forall p :: p in parts ==> '/' !in p;
    SplitJoin(parts, '/');
    assert [] + parts == parts;
    ResolveKeeps(parts, []);
  }

  lemma JoinPair(a: string, b: string)
    ensures Join([a, b], '/') == a + "/" + b && Join([a], '/') == a
  {
    assert [a, b][1..] == [b];
  }

  /** The directory of a clean path is the path of all but its last element. */
  lemma DirOfNormal(parts: seq<string>)
    requires Normal(parts) && |parts| > 1
    ensures Dir(Join(parts, '/')) == Join(parts[..|parts| - 1], '/')
  {
    NormalElements(parts);
    NormalElements(parts[..|parts| - 1]);
  }

  lemma SafeImpliesInto(target: string)
    requires SafeTarget(target)
    ensures |Elements(target)| == 2 && IntoReleases(target, Elements(target)[1])
  {
    var parts := Elements(target);
    ElementsNormal(target);
    hide Elements, Resolve, Split;
    assert parts != [];
    NormalElements(parts);
    if |parts| > 1 {
      DirOfNormal(parts);
      var front := parts[..|parts| - 1];
      NormalElements(front);
      NormalElements([RELEASES]);
      JoinPair(RELEASES, "");
      assert front == [RELEASES];
      assert parts == [RELEASES, parts[1]];
    }
  }

  lemma IntoImpliesSafe(target: string, name: string)
    requires IntoReleases(target, name)
    ensures SafeTarget(target) && Clean(target) == RELEASES + "/" + name
  {
    var parts := [RELEASES, name];
    assert Normal(parts);
    hide Elements, Resolve, Split, Dir;
    JoinPair(RELEASES, name);
    DirOfNormal(parts);
    assert parts[..1] == [RELEASES];
  }

  lemma SafeIsInto(target: string)
    ensures SafeTarget(target) <==> exists name :: IntoReleases(target, name)
  {
    if SafeTarget(target) {
      SafeImpliesInto(target);
    }
    if name :| IntoReleases(target, name) {
      IntoImpliesSafe(target, name);
    }
  }

  // ----- Where a target leads -----

  // So many directories up from where the link is, then down these names.
  datatype Place = Place(ups: nat, down: seq<string>)

  const HERE := Place(0, [])

  /** One element of a path, followed from a place. */
  function Follow(at: Place, part: string): Place {
    if part == "" || part == "." then at
    else if part != ".." then at.(down := at.down + [part])
    else if at.down != [] then at.(down := at.down[..|at.down| - 1])
    else at.(ups := at.ups + 1)
  }

  function Walk(parts: seq<string>, at: Place): Place {
    if parts == [] then at else Walk(parts[1..], Follow(at, parts[0]))
  }

  lemma {:induction false} WalkOn(a: seq<string>, b: seq<string>, at: Place)
    ensures Walk(a + b, at) == Walk(b, Walk(a, at))
  {
    if a == [] {
      assert a + b == b;
    } else {
      assert (a + b)[1..] == a[1..] + b;
      WalkOn(a[1..], b, Follow(at, a[0]));
    }
  }

  /** Cleaning a path does not change where it leads. */
  lemma {:induction false} ResolveLeadsThere(parts: seq<string>, kept: seq<string>)
    requires Normal(kept) && forall p :: p in parts ==> '/' !in p
    ensures Walk(Resolve(parts, kept), HERE) == Walk(parts, Walk(kept, HERE))
  {
    if parts != [] {
      var part, rest := parts[0], parts[1..];
      assert part in parts && forall p :: p in rest ==> p in parts;
      if part == "" || part == "." {
        ResolveLeadsThere(rest, kept);
      } else if part == ".." && kept != [] && kept[|kept| - 1] != ".." {
        var last := kept[|kept| - 1];
        assert kept == kept[..|kept| - 1] + [last];
        WalkOn(kept[..|kept| - 1], [last], HERE);
        FollowBack(Walk(kept[..|kept| - 1], HERE), last);
        ResolveLeadsThere(rest, kept[..|kept| - 1]);
      } else {
        WalkOn(kept, [part], HERE);
        ResolveLeadsThere(rest, kept + [part]);
      }
    }
  }

  lemma FollowBack(at: Place, name: string)
    requires name != "" && name != "." && name != ".."
    ensures Follow(Walk([name], at), "..") == at
  {
    assert Walk([name], at) == Follow(at, name);
    assert (at.down + [name])[..|at.down|] == at.down;
  }

  /** The elements are so many ".." and then the names. */
  predicate Spells(parts: seq<string>, at: Place) {
    && at.ups <= |parts| && parts[at.ups..] == at.down
    && (forall i :: 0 <= i < at.ups ==> parts[i] == "..") && ".." !in at.down
  }

  lemma SpellsOn(front: seq<string>, last: string, at: Place)
    requires Spells(front, at) && Normal(front + [last])
    ensures Spells(front + [last], Follow(at, last))
  {
    var parts := front + [last];
    assert parts[|front|] == last;
    assert front != [] ==> parts[|front| - 1] == front[|front| - 1];
    assert at.down != [] ==> front[|front| - 1] == at.down[|at.down| - 1];
    assert parts[at.ups..] == at.down + [last];
  }

  /** Elements in normal form say where they lead. */
  lemma {:induction false} NormalLeads(parts: seq<string>)
    requires Normal(parts)
    ensures Spells(parts, Walk(parts, HERE))
  {
    if parts != [] {
      var front, last := parts[..|parts| - 1], parts[|parts| - 1];
      NormalLeads(front);
      assert parts == front + [last];
      SpellsOn(front, last, Walk(front, HERE));
      WalkOn(front, [last], HERE);
      assert Walk([last], Walk(front, HERE)) == Follow(Walk(front, HERE), last);
    }
  }

  /** To have these two elements is to lead straight to that entry. */
  lemma IntoLeads(target: string, name: string)
    ensures IntoReleases(target, name)
      <==> !IsAbs(target) && Walk(Split(target, '/'), HERE) == Place(0, ["releases", name])
  {
    var parts := Elements(target);
    JoinSplit(target, '/');
    ElementsNormal(target);
    ResolveLeadsThere(Split(target, '/'), []);
    NormalLeads(parts);
    hide Split, Resolve;
    if parts == [RELEASES, name] && Plain(name) {
      assert [RELEASES, name][1..] == [name];
      assert Walk([name], Follow(HERE, RELEASES)) == Follow(Follow(HERE, RELEASES), name);
    }
  }

  /** The test lets through exactly the relative targets that lead straight to an entry of the releases directory. */
  lemma SafeTargets(target: string)
    ensures SafeTarget(target)
      <==> !IsAbs(target) && exists name :: Walk(Split(target, '/'), HERE) == Place(0, ["releases", name])
  {
    SafeIsInto(target);
    forall name
      ensures IntoReleases(target, name)
        <==> !IsAbs(target) && Walk(Split(target, '/'), HERE) == Place(0, ["releases", name])
    {
      IntoLeads(target, name);
    }
    hide Split, SafeTarget, IntoReleases;
  }

  /** The target that a publish writes. */
  function TargetOf(name: string): string {
    RELEASES + "/" + name
  }

  lemma OwnTarget(name: string)
    requires Plain(name)
    ensures IntoReleases(TargetOf(name), name) && SafeTarget(TargetOf(name))
  {
    var parts := [RELEASES, name];
    assert Normal(parts);
    JoinPair(RELEASES, name);
    NormalElements(parts);
    hide Elements;
    IntoImpliesSafe(TargetOf(name), name);
  }

  // ----- Release names -----

  /** `strings.Trim(s, "\"")`. */
  function TrimQuotes(s: string): string {
    if s != "" && s[0] == '"' then TrimQuotes(s[1..])
    else if s != "" && s[|s| - 1] == '"' then TrimQuotes(s[..|s| - 1])
    else s
  }

  function LastSixteen(s: string): string {
    if |s| > 16 then s[|s| - 16..] else s
  }

  /** The replacer of "." and "/" by "_". */
  function Replaced(s: string): string {
    seq(|s|, i requires 0 <= i < |s| => if s[i] == '.' || s[i] == '/' then '_' else s[i])
  }

  function Signed(n: int): string {
    if n < 0 then "-" + Decimal(-n) else Decimal(n)
  }

  /** releaseName, from the material's ETag and version and the time in nanoseconds. */
  function ReleaseName(etag: string, version: int, nanos: int): string {
    Replaced(LastSixteen(TrimQuotes(etag))) + "-v" + Signed(version) + "-" + Signed(nanos)
  }

  /** Whatever the ETag, the name of a release stays within the releases directory. */
  lemma ReleaseNameIsPlain(etag: string, version: int, nanos: int)
    ensures Plain(ReleaseName(etag, version, nanos))
  {
    var front, v, t := Replaced(LastSixteen(TrimQuotes(etag))), Signed(version), Signed(nanos);
    SignedNoSlash(version);
    SignedNoSlash(nanos);
    assert '/' !in front;
    hide Signed, Replaced;
    var name := front + "-v" + v + "-" + t;
    assert name[|front|] == '-' && |name| > 2;
  }

  lemma SignedNoSlash(n: int)
    ensures '/' !in Signed(n)
  {
    var digits := Decimal(if n < 0 then -n else n);
    assert forall i :: 0 <= i < |digits| ==> digits[i] != '/';
  }

  /** What `strings.Trim` leaves: the text between the outermost quotes. */
  lemma {:induction false} Trimmed(s: string) returns (a: nat, b: nat)
    ensures a <= b <= |s| && TrimQuotes(s) == s[a..b]
    ensures forall i :: 0 <= i < |s| && !(a <= i < b) ==> s[i] == '"'
    ensures a < b ==> s[a] != '"' && s[b - 1] != '"'
  {
    if s != "" && s[0] == '"' {
      a, b := Trimmed(s[1..]);
      assert s[1..][a..b] == s[a + 1..b + 1];
      a, b := a + 1, b + 1;
    } else if s != "" && s[|s| - 1] == '"' {
      a, b := Trimmed(s[..|s| - 1]);
      assert s[..|s| - 1][a..b] == s[a..b];
    } else {
      a, b := 0, |s|;
      assert s[0..|s|] == s;
    }
  }

  /** The last sixteen characters, or all there are, with dots and slashes replaced. */
  predicate ShortForm(front: string, inner: string) {
    && |front| == (if |inner| > 16 then 16 else |inner|)
    && forall i :: 0 <= i < |front| ==>
         var c := inner[|inner| - |front| + i];
         front[i] == if c == '.' || c == '/' then '_' else c
  }

  /** The name of a release: the short form of the ETag between its quotes, then version and time. */
  lemma NamedAfterEtag(etag: string, version: int, nanos: int) returns (a: nat, b: nat, front: string)
    ensures a <= b <= |etag| && forall i :: 0 <= i < |etag| && !(a <= i < b) ==> etag[i] == '"'
    ensures a < b ==> etag[a] != '"' && etag[b - 1] != '"'
    ensures ShortForm(front, etag[a..b])
    ensures ReleaseName(etag, version, nanos) == front + "-v" + Signed(version) + "-" + Signed(nanos)
  {
    a, b := Trimmed(etag);
    front := Replaced(LastSixteen(etag[a..b]));
  }

  predicate DigitsOrMinus(s: string) {
    forall i :: 0 <= i < |s| ==> IsDigit(s[i]) || s[i] == '-'
  }

  lemma SignedText(n: int)
    ensures Signed(n) != "" && DigitsOrMinus(Signed(n))
    ensures forall i :: 1 <= i < |Signed(n)| ==> Signed(n)[i] != '-'
  {
  }

  lemma SignedDetermines(m: int, n: int)
    requires Signed(m) == Signed(n)
    ensures m == n
  {
    var a, b := if m < 0 then -m else m, if n < 0 then -n else n;
    ValueOfDecimal(a);
    ValueOfDecimal(b);
    assert IsDigit(Decimal(a)[0]) && IsDigit(Decimal(b)[0]);
    assert m < 0 <==> Signed(m)[0] == '-';
    assert n < 0 <==> Signed(n)[0] == '-';
    if m < 0 {
      assert Signed(m)[1..] == Decimal(a) && Signed(n)[1..] == Decimal(b);
    }
  }

  /** Two numbers with a minus sign between them are read back one way only. */
  lemma PairDetermines(m: int, n: int, k: int, l: int)
    requires Signed(m) + "-" + Signed(n) == Signed(k) + "-" + Signed(l)
    ensures m == k && n == l
  {
    var a, b, c, d := Signed(m), Signed(n), Signed(k), Signed(l);
    SignedText(m);
    SignedText(k);
    hide Signed;
    var s := a + "-" + b;
    assert s[|a|] == '-' && s == c + "-" + d && s[|c|] == '-';
    assert forall i :: 1 <= i < |a| ==> s[i] == a[i];
    assert forall i :: 1 <= i < |c| ==> s[i] == c[i];
    assert s[..|a|] == a && s[..|c|] == c && s[|a| + 1..] == b && s[|c| + 1..] == d;
    SignedDetermines(m, k);
    SignedDetermines(n, l);
  }

  /** Releases of different versions or moments never get the same name, whatever their ETags. */
  lemma NamesDiffer(etag: string, version: int, nanos: int, etag2: string, version2: int, nanos2: int)
    requires ReleaseName(etag, version, nanos) == ReleaseName(etag2, version2, nanos2)
    ensures version == version2 && nanos == nanos2
  {
    var f, g := Replaced(LastSixteen(TrimQuotes(etag))), Replaced(LastSixteen(TrimQuotes(etag2)));
    var r, t := Signed(version) + "-" + Signed(nanos), Signed(version2) + "-" + Signed(nanos2);
    SignedText(version);
    SignedText(nanos);
    SignedText(version2);
    SignedText(nanos2);
    var name := ReleaseName(etag, version, nanos);
    hide Signed, Replaced, LastSixteen, TrimQuotes;
    assert name == f + "-v" + r && name == g + "-v" + t;
    SameTail(f, r, g, t);
    PairDetermines(version, nanos, version2, nanos2);
  }

  /** The last v of a name starts its tail. */
  lemma SameTail(f: string, r: string, g: string, t: string)
    requires f + "-v" + r == g + "-v" + t && DigitsOrMinus(r) && DigitsOrMinus(t)
    ensures r == t
  {
    var name := f + "-v" + r;
    assert name[|f| + 1] == 'v' && name[|g| + 1] == 'v';
    assert forall i :: |f| + 2 <= i < |name| ==> name[i] == r[i - |f| - 2];
    assert name == g + "-v" + t;
    assert forall i :: |g| + 2 <= i < |name| ==> name[i] == t[i - |g| - 2];
    assert name[|f| + 2..] == r && name[|g| + 2..] == t;
  }
}
