/**
  Presenting and cleaning up a challenge record at a provider that may carry out a POST or DELETE and
  still report an error. One client acts at a time, and an effect is never later than its answer.
 */
module Cloudflare {
  import opened Base

  type RecordId = nat

  // A TXT record of the zone.
  datatype Record = Record(name: string, content: string)

  // The client asks for one page of this size and no second one.
  const PAGE := 100

  const MAX_ALLOWED_ATTEMPTS := 10

  type Records = map<RecordId, Record>

  function Named(records: Records, name: string): set<RecordId> {
    set id | id in records && records[id].name == name
  }

  function Matching(records: Records, r: Record): set<RecordId> {
    set id | id in records && records[id] == r
  }

  /** What a listing by name may return: every record of that name, or one full page of them. */
  predicate IsPage(records: Records, name: string, page: seq<RecordId>) {
    && (forall i :: 0 <= i < |page| ==> page[i] in Named(records, name))
    && (forall i, k :: 0 <= i < k < |page| ==> page[i] != page[k])
    && |page| == if |Named(records, name)| <= PAGE then |Named(records, name)| else PAGE
  }

  /** The other records of the name leave room on a page. */
  predicate Fits(records: Records, r: Record) {
    |Named(records, r.name) - Matching(records, r)| < 100
  }

  /** The records are as before, except for new copies of `r`. */
  predicate OnlyAdds(before: Records, after: Records, r: Record) {
    && (forall id :: id in before ==> id in after && after[id] == before[id])
    && (forall id :: id in after && id !in before ==> after[id] == r)
  }

  /** The records are as before, except for copies of `r` that are gone. */
  predicate OnlyRemoves(before: Records, after: Records, r: Record) {
    && (forall id :: id in after ==> id in before && after[id] == before[id])
    && (forall id :: id in before && id !in after ==> before[id] == r)
  }

  function Max1(n: nat): nat {
    if n == 0 then 1 else n
  }

  // ----- Pages -----

  function Shown(page: seq<RecordId>): set<RecordId> {
    set id | id in page
  }

  lemma {:induction false} DistinctCount(page: seq<RecordId>)
    requires forall i, k :: 0 <= i < k < |page| ==> page[i] != page[k]
    ensures |Shown(page)| == |page|
  {
    if page != [] {
      var rest, last := page[..|page| - 1], page[|page| - 1];
      DistinctCount(rest);
      assert page == rest + [last];
      assert Shown(page) == Shown(rest) + {last};
    }
  }

  lemma Subset(a: set<RecordId>, b: set<RecordId>)
    requires a <= b && |a| == |b|
    ensures a == b
  {
    if x :| x in b && x !in a {
      assert a <= b - {x};
      SubsetSize(a, b - {x});
    }
  }

  /** A page shows every record of the name when they all fit on it. */
  lemma PageShowsAll(records: Records, name: string, page: seq<RecordId>)
    requires IsPage(records, name, page) && |Named(records, name)| <= PAGE
    ensures forall id :: id in Named(records, name) ==> id in page
  {
    DistinctCount(page);
    Subset(Shown(page), Named(records, name));
    assert forall id :: id in Shown(page) <==> id in page;
  }

  lemma Enumerate(ids: set<RecordId>, n: nat) returns (page: seq<RecordId>)
    requires n <= |ids|
    ensures |page| == n && (forall i :: 0 <= i < n ==> page[i] in ids)
    ensures (forall i, k :: 0 <= i < k < n ==> page[i] != page[k])
    decreases n
  {
    if n == 0 {
      page := [];
    } else {
      var x :| x in ids;
      var rest := Enumerate(ids - {x}, n - 1);
      page := [x] + rest;
    }
  }

  /** With more of them than a page holds, any one can be missing from it. */
  lemma PageMayHide(records: Records, name: string, id: RecordId) returns (page: seq<RecordId>)
    requires id in Named(records, name) && |Named(records, name)| > PAGE
    ensures IsPage(records, name, page) && id !in page
  {
    page := Enumerate(Named(records, name) - {id}, PAGE);
  }

  lemma NamedOneMore(records: Records, id: RecordId, r: Record)
    requires id !in records
    ensures Named(records[id := r], r.name) == Named(records, r.name) + {id} && id !in Named(records, r.name)
  {
  }

  lemma MatchingOneMore(records: Records, id: RecordId, r: Record)
    requires id !in records
    ensures Matching(records[id := r], r) == Matching(records, r) + {id} && id !in Matching(records, r)
  {
  }

  lemma OneMore(records: Records, id: RecordId, r: Record)
    requires id !in records
    ensures Matching(records[id := r], r) == Matching(records, r) + {id}
    ensures |Matching(records[id := r], r)| == |Matching(records, r)| + 1
    ensures Fits(records[id := r], r) <==> Fits(records, r)
  {
    NamedOneMore(records, id, r);
    MatchingOneMore(records, id, r);
    hide Named, Matching;
    var named, copies := Named(records, r.name), Matching(records, r);
    assert (named + {id}) - (copies + {id}) == named - copies;
  }

  // ----- Rounds -----

  predicate Shows(records: Records, page: seq<RecordId>, r: Record)
    requires IsPage(records, r.name, page)
  {
    exists i :: 0 <= i < |page| && records[page[i]] == r
  }

  /** One round of Present: a page is listed, and a copy is posted, with or without effect, when it shows none. */
  ghost predicate Round(before: Records, after: Records, r: Record) {
    || after == before
    || exists page, id: RecordId ::
         IsPage(before, r.name, page) && !Shows(before, page, r) && id !in before && after == before[id := r]
  }

  /** The records after each of some rounds. */
  ghost predicate Rounds(run: seq<Records>, r: Record) {
    |run| > 0 && forall i :: 0 < i < |run| ==> Round(run[i - 1], run[i], r)
  }

  /** Where the others leave room and there is a copy, every page shows one. */
  lemma PageShowsCopy(records: Records, page: seq<RecordId>, r: Record)
    requires IsPage(records, r.name, page) && Fits(records, r) && Matching(records, r) != {}
    ensures Shows(records, page, r)
  {
    if !Shows(records, page, r) {
      var named, copies := Named(records, r.name), Matching(records, r);
      DistinctCount(page);
      assert Shown(page) <= named - copies;
      SubsetSize(Shown(page), named - copies);
    }
  }

  /** Where they do not, a page can be filled without a copy. */
  lemma PageHidesCopies(records: Records, r: Record) returns (page: seq<RecordId>)
    requires !Fits(records, r)
    ensures IsPage(records, r.name, page) && !Shows(records, page, r)
  {
    var others := Named(records, r.name) - Matching(records, r);
    SubsetSize(others, Named(records, r.name));
    page := Enumerate(others, PAGE);
    if |Named(records, r.name)| <= PAGE {
      Subset(others, Named(records, r.name));
    }
  }

  /** With room, rounds leave the records alone or add the one copy that was missing. */
  lemma {:induction false} RoundsFit(run: seq<Records>, i: nat, r: Record)
    requires Rounds(run, r) && Fits(run[0], r) && i < |run|
    ensures run[i] == run[0]
      || (Matching(run[0], r) == {} && exists id: RecordId :: id !in run[0] && run[i] == run[0][id := r])
    ensures |Matching(run[i], r)| <= Max1(|Matching(run[0], r)|)
  {
    if i > 0 {
      RoundsFit(run, i - 1, r);
      var before, after := run[i - 1], run[i];
      assert Round(before, after, r);
      if before != run[0] {
        var id: RecordId :| id !in run[0] && before == run[0][id := r];
        OneMore(run[0], id, r);
      }
      if after != before {
        var page, id: RecordId :| IsPage(before, r.name, page) && !Shows(before, page, r) && id !in before
          && after == before[id := r];
        if Matching(before, r) != {} {
          PageShowsCopy(before, page, r);
        }
        OneMore(before, id, r);
      }
    }
  }

  lemma UnusedId(records: Records) returns (id: RecordId)
    ensures id !in records
  {
    id := UnusedAmong(records.Keys);
  }

  lemma {:induction false} UnusedAmong(ids: set<RecordId>) returns (id: RecordId)
    ensures forall x :: x in ids ==> x < id
  {
    if ids == {} {
      id := 0;
    } else {
      var x :| x in ids;
      var rest := UnusedAmong(ids - {x});
      id := if rest <= x then x + 1 else rest;
      assert forall y :: y in ids ==> y == x || y in ids - {x};
    }
  }

  /** Without room a round can add a copy, whatever copies there are. */
  lemma RoundAdds(records: Records, r: Record) returns (after: Records)
    requires !Fits(records, r)
    ensures Round(records, after, r) && !Fits(after, r) && |Matching(after, r)| == |Matching(records, r)| + 1
  {
    var id := UnusedId(records);
    var page := PageHidesCopies(records, r);
    OneMore(records, id, r);
    after := records[id := r];
    hide IsPage, Shows, Fits, Matching;
  }

  /**
    So without room the first round hides every copy there is and adds one; a second, when there was none,
    adds another.
   */
  lemma RoundsExceed(records: Records, r: Record) returns (run: seq<Records>)
    requires !Fits(records, r)
    ensures Rounds(run, r) && run[0] == records && |run| <= 3
    ensures |Matching(run[|run| - 1], r)| > Max1(|Matching(records, r)|)
  {
    hide Round, Fits, Matching;
    var once := RoundAdds(records, r);
    var twice := RoundAdds(once, r);
    run := if |Matching(records, r)| == 0 then [records, once, twice] else [records, once];
  }

  /**
    A client with at least two attempts never makes more than one copy, or more than there were, if and only if
    the other records of the name leave room on a page.
   */
  lemma CopiesBounded(records: Records, r: Record, attempts: nat)
    requires attempts >= 2
    ensures Fits(records, r) <==>
      forall run {:trigger Rounds(run, r)} :: (Rounds(run, r) && run[0] == records && |run| <= attempts + 1) ==>
        |Matching(run[|run| - 1], r)| <= Max1(|Matching(records, r)|)
  {
    if Fits(records, r) {
      forall run | Rounds(run, r) && run[0] == records && |run| <= attempts + 1
        ensures |Matching(run[|run| - 1], r)| <= Max1(|Matching(records, r)|)
      {
        RoundsFit(run, |run| - 1, r);
      }
    } else {
      var run := RoundsExceed(records, r);
    }
  }

  // ----- The provider -----

  class Provider {
    var records: Records
    // Requests that were answered with an error, and rounds after which the client must not try again: the error
    // was not retryable, or the wait was interrupted.
    ghost var faults: nat
    ghost var stops: nat

    method List(name: string) returns (page: Option<seq<RecordId>>)
      modifies this`faults
      ensures page.Some? ==> IsPage(records, name, page.value) && faults == old(faults)
      ensures page.None? ==> faults == old(faults) + 1
    {
      var answer: seq<RecordId> := *;
      if IsPage(records, name, answer) {
        return Some(answer);
      }
      faults := faults + 1;
      return None;
    }

    method Post(r: Record) returns (ok: bool)
      modifies this`records, this`faults
      ensures faults == old(faults) + if ok then 0 else 1
      ensures records == old(records) || exists id: RecordId :: id !in old(records) && records == old(records)[id := r]
      ensures ok ==> Matching(records, r) != {}
    {
      var id: RecordId := *;
      var lost: bool := *;
      if id in records || lost {
        faults := faults + 1;
        return false;
      }
      records := records[id := r];
      assert records[id] == r;
      assert id in Matching(records, r);
      if * {
        faults := faults + 1;
        return false;
      }
      return true;
    }

    method Delete(id: RecordId) returns (ok: bool)
      modifies this`records, this`faults
      ensures faults == old(faults) + if ok then 0 else 1
      ensures records == old(records) || records == old(records) - {id}
      ensures ok ==> id !in records
    {
      var lost: bool := *;
      if id !in records || lost {
        faults := faults + 1;
        return false;
      }
      records := records - {id};
      if * {
        faults := faults + 1;
        return false;
      }
      return true;
    }
  }

  // How one round of the retried operation ended.
  datatype Result = Done | Retry | Stop

  // ----- The client -----

  /** providerRetry: whether the error is worth another round. */
  method Failure(provider: Provider) returns (result: Result)
    modifies provider`stops
    ensures result != Done && provider.stops == old(provider.stops) + if result == Stop then 1 else 0
  {
    if * {
      return Retry;
    }
    provider.stops := provider.stops + 1;
    return Stop;
  }

  /** The wait before another round, which the caller's context may interrupt. */
  method Wait(provider: Provider) returns (interrupted: bool)
    modifies provider`stops
    ensures provider.stops == old(provider.stops) + if interrupted then 1 else 0
  {
    interrupted := *;
    if interrupted {
      provider.stops := provider.stops + 1;
    }
  }

  method PresentOnce(provider: Provider, r: Record) returns (result: Result)
    modifies provider
    ensures Round(old(provider.records), provider.records, r)
    ensures result == Done ==> Matching(provider.records, r) != {} && provider.stops == old(provider.stops)
    // Each round has at most one error, and is done without one.
    ensures provider.faults == old(provider.faults) + if result == Done then 0 else 1
    ensures provider.stops == old(provider.stops) + if result == Stop then 1 else 0
  {
    var page := provider.List(r.name);
    if page.None? {
      result := Failure(provider);
      return;
    }
    for i := 0 to |page.value|
      invariant provider.records == old(provider.records) && provider.faults == old(provider.faults)
      invariant provider.stops == old(provider.stops)
      invariant forall k :: 0 <= k < i ==> provider.records[page.value[k]].content != r.content
    {
      if provider.records[page.value[i]].content == r.content {
        assert page.value[i] in Matching(provider.records, r);
        return Done;
      }
    }
    assert !Shows(provider.records, page.value, r);
    var ok := provider.Post(r);
    if ok {
      return Done;
    }
    result := Failure(provider);
  }

  lemma NoRounds(records: Records, r: Record)
    ensures Rounds([records], r) && OnlyAdds(records, records, r)
  {
  }

  lemma RoundOnlyAdds(before: Records, after: Records, r: Record)
    requires Round(before, after, r)
    ensures OnlyAdds(before, after, r)
  {
  }

  lemma OneRoundMore(run: seq<Records>, next: Records, r: Record)
    requires Rounds(run, r) && Round(run[|run| - 1], next, r) && OnlyAdds(run[0], run[|run| - 1], r)
    ensures Rounds(run + [next], r) && OnlyAdds(run[0], next, r)
  {
    hide Round;
    forall i | 0 < i <= |run| ensures Round((run + [next])[i - 1], (run + [next])[i], r) {
      if i < |run| {
        assert Round(run[i - 1], run[i], r);
      }
    }
    RoundOnlyAdds(run[|run| - 1], next, r);
  }

  /** Present: list, then create when nothing matches, over and over while the errors are retryable. */
  method Present(provider: Provider, maxAttempts: int, r: Record) returns (ok: bool, ghost run: seq<Records>)
    modifies provider
    ensures Rounds(run, r) && run[0] == old(provider.records) && run[|run| - 1] == provider.records
    ensures |run| <= if 1 <= maxAttempts <= MAX_ALLOWED_ATTEMPTS then maxAttempts + 1 else 1
    ensures OnlyAdds(old(provider.records), provider.records, r)
    ensures ok ==> Matching(provider.records, r) != {}
    ensures Fits(old(provider.records), r) ==>
      |Matching(provider.records, r)| <= Max1(|Matching(old(provider.records), r)|)
    ensures ok && Fits(old(provider.records), r) ==>
      |Matching(provider.records, r)| == Max1(|Matching(old(provider.records), r)|)
    // It fails only for a wrong setting, an error or interruption that ends it, or as many errors as attempts.
    ensures provider.faults >= old(provider.faults) && provider.stops >= old(provider.stops)
    ensures ok <==> 1 <= maxAttempts <= 10 && provider.stops == old(provider.stops)
                    && provider.faults < old(provider.faults) + maxAttempts
  {
    hide Rounds, Round, Fits, Matching, OnlyAdds;
    ok, run := false, [provider.records];
    NoRounds(provider.records, r);
    if maxAttempts < 1 || maxAttempts > MAX_ALLOWED_ATTEMPTS {
      return;
    }
    var attempt := 1;
    while true
      invariant 1 <= attempt <= maxAttempts && |run| == attempt
      invariant Rounds(run, r) && run[0] == old(provider.records) && run[|run| - 1] == provider.records
      invariant OnlyAdds(old(provider.records), provider.records, r)
      invariant provider.faults == old(provider.faults) + attempt - 1 && provider.stops == old(provider.stops)
      decreases maxAttempts - attempt
    {
      var result := PresentOnce(provider, r);
      OneRoundMore(run, provider.records, r);
      run := run + [provider.records];
      if Fits(old(provider.records), r) {
        RoundsFit(run, |run| - 1, r);
      }
      if result != Retry || attempt == maxAttempts {
        ok := result == Done;
        return;
      }
      var interrupted := Wait(provider);
      if interrupted {
        return;
      }
      attempt := attempt + 1;
    }
  }

  method CleanUpOnce(provider: Provider, r: Record) returns (result: Result)
    modifies provider
    ensures OnlyRemoves(old(provider.records), provider.records, r)
    ensures result == Done && |Named(old(provider.records), r.name)| <= 100 ==> Matching(provider.records, r) == {}
    ensures provider.faults == old(provider.faults) + if result == Done then 0 else 1
    ensures provider.stops == old(provider.stops) + if result == Stop then 1 else 0
  {
    var page := provider.List(r.name);
    if page.None? {
      result := Failure(provider);
      return;
    }
    var contents := provider.records;
    if |Named(contents, r.name)| <= PAGE {
      PageShowsAll(contents, r.name, page.value);
    }
    for i := 0 to |page.value|
      invariant OnlyRemoves(contents, provider.records, r)
      invariant provider.faults == old(provider.faults) && provider.stops == old(provider.stops)
      invariant forall k :: 0 <= k < i ==> page.value[k] !in Matching(provider.records, r)
    {
      if contents[page.value[i]].content != r.content {
        continue;
      }
      var ok := provider.Delete(page.value[i]);
      if !ok {
        result := Failure(provider);
        return;
      }
    }
    assert forall id :: id in Matching(provider.records, r) ==> id in Named(contents, r.name);
    return Done;
  }

  /** CleanUp: list, then delete every match, over and over while the errors are retryable. */
  method CleanUp(provider: Provider, maxAttempts: int, r: Record) returns (ok: bool)
    modifies provider
    ensures OnlyRemoves(old(provider.records), provider.records, r)
    ensures ok && |Named(old(provider.records), r.name)| <= 100 ==> Matching(provider.records, r) == {}
    ensures provider.faults >= old(provider.faults) && provider.stops >= old(provider.stops)
    ensures ok <==> 1 <= maxAttempts <= 10 && provider.stops == old(provider.stops)
                    && provider.faults < old(provider.faults) + maxAttempts
  {
    if maxAttempts < 1 || maxAttempts > MAX_ALLOWED_ATTEMPTS {
      return false;
    }
    for attempt := 1 to maxAttempts + 1
      invariant OnlyRemoves(old(provider.records), provider.records, r)
      invariant provider.faults == old(provider.faults) + attempt - 1 && provider.stops == old(provider.stops)
    {
      ghost var before := provider.records;
      assert Named(before, r.name) <= Named(old(provider.records), r.name);
      SubsetSize(Named(before, r.name), Named(old(provider.records), r.name));
      var result := CleanUpOnce(provider, r);
      if result == Done {
        return true;
      }
      if result == Stop || attempt == maxAttempts {
        return false;
      }
      var interrupted := Wait(provider);
      if interrupted {
        return false;
      }
    }
    return false;
  }
}
