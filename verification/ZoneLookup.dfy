/**
  Finding the zone of a DNS name, and the challenge record written into it. Names are taken as the
  name normaliser, a parameter, leaves them.
 */
module ZoneLookup {
  import opened Base
  import opened Sans
  import opened Scopes
  import opened Text
  import opened Zones

  // ----- FindZoneForDNSName -----

  /** The name is the zone's or ends with a dot and the zone's. */
  predicate Within(name: string, zone: string) {
    name == zone || HasSuffix(name, "." + zone)
  }

  predicate Match(db: Db, name: string, z: Id) {
    && z in db.zones && db.zones[z].provider in db.providers && db.providers[db.zones[z].provider].active
    && Within(name, db.zones[z].name)
  }

  /** First by `length(zone_name) desc, zone_name asc`. */
  predicate FirstMatch(db: Db, name: string, z: Id) {
    && Match(db, name, z)
    && forall y :: y in db.zones && Match(db, name, y) ==>
         db.zones[y].name == db.zones[z].name || Precedes(db.zones[z].name, db.zones[y].name)
  }

  ghost function FindZone(db: Db, name: string): Option<Id> {
    if z :| FirstMatch(db, name, z) then Some(z) else None
  }

  lemma {:induction false} FirstMatchExists(db: Db, name: string, among: set<Id>, z: Id) returns (f: Id)
    requires z in among && among <= db.zones.Keys && forall y :: y in among ==> Match(db, name, y)
    ensures f in among
    ensures forall y ::
      y in among ==> db.zones[y].name == db.zones[f].name || Precedes(db.zones[f].name, db.zones[y].name)
  {
    var rest := among - {z};
    if rest == {} {
      f := z;
    } else {
      var y: Id :| y in rest;
      var g: Id := FirstMatchExists(db, name, rest, y);
      PrecedesIsTotal(db.zones[g].name, db.zones[z].name);
      f := if Precedes(db.zones[z].name, db.zones[g].name) then z else g;
      forall x | x in rest && f == z && Precedes(db.zones[g].name, db.zones[x].name)
        ensures Precedes(db.zones[z].name, db.zones[x].name)
      {
        PrecedesIsTransitive(db.zones[z].name, db.zones[g].name, db.zones[x].name);
      }
    }
    assert forall x :: x in among ==> x == z || x in rest;
  }

  /** Zones of one length that hold a name are one zone. */
  lemma SameLengthSameZone(name: string, a: string, b: string)
    requires Within(name, a) && Within(name, b) && |a| == |b|
    ensures a == b
  {
    if HasSuffix(name, "." + a) && HasSuffix(name, "." + b) {
      assert ("." + a)[1..] == a && ("." + b)[1..] == b;
    }
  }

  /** An active provider has this zone, and the name is its name or lies below it. */
  ghost predicate HoldsName(db: Db, name: string, z: Id) {
    && z in db.zones
    && db.zones[z].provider in db.providers && db.providers[db.zones[z].provider].active
    && (name == db.zones[z].name || exists front :: name == front + "." + db.zones[z].name)
  }

  lemma MatchHoldsName(db: Db, name: string, z: Id)
    ensures Match(db, name, z) <==> HoldsName(db, name, z)
  {
    if Match(db, name, z) && name != db.zones[z].name {
      var at := |name| - |db.zones[z].name| - 1;
      assert name == name[..at] + ("." + db.zones[z].name);
      assert name == name[..at] + "." + db.zones[z].name;
    }
    if HoldsName(db, name, z) && name != db.zones[z].name {
      var front :| name == front + "." + db.zones[z].name;
      assert name[|name| - |db.zones[z].name| - 1..] == "." + db.zones[z].name;
    }
  }

  /**
    The lookup finds a zone whenever an active provider has one for the name; it is the longest, and every other
    one is strictly shorter.
   */
  lemma FindsLongestZone(db: Db, name: string)
    requires OneOwner(db)
    ensures
      match FindZone(db, name)
      case None => forall z :: z in db.zones ==> !HoldsName(db, name, z)
      case Some(z) =>
        && HoldsName(db, name, z)
        && forall y :: y in db.zones && HoldsName(db, name, y) && y != z ==> |db.zones[y].name| < |db.zones[z].name|
  {
    forall z ensures Match(db, name, z) <==> HoldsName(db, name, z) {
      MatchHoldsName(db, name, z);
    }
    FindsLongestMatch(db, name);
    hide HoldsName, Match, FindZone;
  }

  lemma FindsLongestMatch(db: Db, name: string)
    requires OneOwner(db)
    ensures
      match FindZone(db, name)
      case None => forall z :: z in db.zones ==> !Match(db, name, z)
      case Some(z) =>
        && Match(db, name, z)
        && forall y :: y in db.zones && Match(db, name, y) && y != z ==> |db.zones[y].name| < |db.zones[z].name|
  {
    if z :| z in db.zones && Match(db, name, z) {
      var all := set y | y in db.zones && Match(db, name, y);
      var f := FirstMatchExists(db, name, all, z);
      assert FirstMatch(db, name, f);
      var found := FindZone(db, name).value;
      forall y | y in db.zones && Match(db, name, y) && y != found ensures |db.zones[y].name| < |db.zones[found].name| {
        if |db.zones[y].name| == |db.zones[found].name| {
          SameLengthSameZone(name, db.zones[y].name, db.zones[found].name);
        }
      }
    }
  }

  /** A suffix behind a dot is a suffix of labels. */
  lemma {:induction false} WithinIsLabelSuffix(name: string, zone: string)
    ensures Within(name, zone) <==> exists k :: 0 <= k < |Split(name, '.')| && Split(name, '.')[k..] == Split(zone, '.')
  {
    JoinSplit(name, '.');
    JoinSplit(zone, '.');
    var labels := Split(name, '.');
    if name == zone {
      assert labels[0..] == labels;
    } else if HasSuffix(name, "." + zone) {
      var front := name[..|name| - |zone| - 1];
      assert name == front + "." + zone;
      SplitBehind(front, zone);
      var k := |Split(front, '.')|;
      assert labels[k..] == Split(zone, '.');
    } else if k :| 0 <= k < |labels| && labels[k..] == Split(zone, '.') {
      JoinedTail(labels, k);
    }
  }

  lemma SplitStep(s: string, c: char)
    requires s != ""
    ensures
      var rest := Split(s[1..], c);
      Split(s, c) == if s[0] == c then [""] + rest else [[s[0]] + rest[0]] + rest[1..]
  {
  }

  /** Splitting around any one dot. */
  lemma {:induction false} SplitBehind(front: string, zone: string)
    ensures Split(front + "." + zone, '.') == Split(front, '.') + Split(zone, '.')
  {
    hide Split;
    var s := front + "." + zone;
    SplitStep(s, '.');
    if front == "" {
      assert s[1..] == zone;
      SplitOne("", '.');
    } else {
      SplitBehind(front[1..], zone);
      assert s[1..] == front[1..] + "." + zone;
      SplitStep(front, '.');
      Prepended(s[0], Split(front[1..], '.'), Split(zone, '.'));
    }
  }

  lemma Prepended(c: char, a: seq<string>, b: seq<string>)
    requires |a| > 0
    ensures [[c] + (a + b)[0]] + (a + b)[1..] == [[c] + a[0]] + a[1..] + b
    ensures [""] + (a + b) == [""] + a + b
  {
  }

  lemma {:induction false} JoinedTail(labels: seq<string>, k: nat)
    requires k < |labels|
    ensures Within(Join(labels, '.'), Join(labels[k..], '.'))
  {
    if k == 0 {
      assert labels[0..] == labels;
    } else {
      JoinedTail(labels[1..], k - 1);
      assert labels[1..][k - 1..] == labels[k..];
      WithinBehind(labels[0] + ".", Join(labels[1..], '.'), Join(labels[k..], '.'));
      assert Join(labels, '.') == labels[0] + "." + Join(labels[1..], '.');
    }
  }

  lemma WithinBehind(front: string, name: string, zone: string)
    requires Within(name, zone) && |front| > 0 && front[|front| - 1] == '.'
    ensures Within(front + name, zone) && front + name != zone
  {
    var s := front + name;
    if name == zone {
      assert s[|s| - |zone| - 1..] == "." + zone;
    } else {
      assert s[|s| - |zone| - 1..] == name[|name| - |zone| - 1..];
    }
  }

  // ----- The challenge record -----

  const CHALLENGE_LABEL := "_acme-challenge"
  const DEFAULT_TTL := 120

  datatype Operation = Operation(zone: string, record: string, txt: string, ttl: int)

  function Lower(c: char): char {
    if 'A' <= c <= 'Z' then c - 'A' + 'a' else c
  }

  function ToLower(s: string): string {
    seq(|s|, i requires 0 <= i < |s| => Lower(s[i]))
  }

  /** normalizeDNSTXTRecordName. */
  function NormalizeRecord(normalize: Normalizer, record: string): Option<string> {
    var prefix := CHALLENGE_LABEL + ".";
    if !HasPrefix(ToLower(record), prefix) then None
    else
      match normalize(record[|prefix|..])
      case None => None
      case Some(name) => Some(prefix + name)
  }

  /** normalizeDNS01ChallengeOperation; `validText` tells whether the TXT value is acceptable. */
  function NormalizeOperation(normalize: Normalizer, validText: string -> bool, op: Operation): Option<Operation> {
    match normalize(op.zone)
    case None => None
    case Some(zone) =>
      match NormalizeRecord(normalize, op.record)
      case None => None
      case Some(record) =>
        if record != CHALLENGE_LABEL + "." + zone && !HasSuffix(record, "." + zone) then None
        else if !validText(op.txt) then None
        else Some(Operation(zone, record, op.txt, if op.ttl <= 0 then DEFAULT_TTL else op.ttl))
  }

  function TrimSuffix(s: string, suffix: string): string {
    if HasSuffix(s, suffix) then s[..|s| - |suffix|] else s
  }

  /** relativeTXTRecordName. */
  function RelativeName(record: string, zone: string): string {
    var relative := TrimSuffix(record, "." + zone);
    if relative == "" then "@" else relative
  }

  /** The in-zone check asks exactly whether the host behind the challenge label lies in the zone. */
  lemma InZone(host: string, zone: string)
    ensures
      var record := CHALLENGE_LABEL + "." + host;
      record == CHALLENGE_LABEL + "." + zone || HasSuffix(record, "." + zone) <==> Within(host, zone)
  {
    var record := CHALLENGE_LABEL + "." + host;
    var prefix := CHALLENGE_LABEL + ".";
    assert record == prefix + host;
    if Within(host, zone) {
      WithinBehind(prefix, host, zone);
    }
    if record == prefix + zone {
      assert record[|prefix|..] == host && (prefix + zone)[|prefix|..] == zone;
    } else if HasSuffix(record, "." + zone) {
      var at := |record| - |zone| - 1;
      assert record[at] == ("." + zone)[0] == '.';
      assert at >= |CHALLENGE_LABEL| by {
        if at < |CHALLENGE_LABEL| {
          assert record[at] == CHALLENGE_LABEL[at];
          NoDotInLabel(at);
        }
      }
      if at == |CHALLENGE_LABEL| {
        assert record[at + 1..] == host && ("." + zone)[1..] == zone;
        assert record[at..][1..] == record[at + 1..];
      } else {
        assert host[at - |prefix|..] == record[at..];
      }
    }
  }

  lemma NoDotInLabel(i: nat)
    requires i < |CHALLENGE_LABEL|
    ensures CHALLENGE_LABEL[i] != '.'
  {
    assert CHALLENGE_LABEL == ['_', 'a', 'c', 'm', 'e', '-', 'c', 'h', 'a', 'l', 'l', 'e', 'n', 'g', 'e'];
  }

  /**
    For every accepted operation the relative name and the zone rebuild the record, and the relative name is
    never "@".
   */
  lemma RelativeRebuilds(normalize: Normalizer, validText: string -> bool, op: Operation)
    requires NormalizeOperation(normalize, validText, op).Some?
    ensures
      var n := NormalizeOperation(normalize, validText, op).value;
      RelativeName(n.record, n.zone) + "." + n.zone == n.record && RelativeName(n.record, n.zone) != "@"
  {
    var n := NormalizeOperation(normalize, validText, op).value;
    var host := AcceptedHost(normalize, validText, op);
    hide NormalizeOperation, Within;
    WithinBehind(CHALLENGE_LABEL + ".", host, n.zone);
    assert n.record == CHALLENGE_LABEL + "." + host;
    Rebuilt(n.record, n.zone);
  }

  lemma AcceptedHost(normalize: Normalizer, validText: string -> bool, op: Operation) returns (host: string)
    requires NormalizeOperation(normalize, validText, op).Some?
    ensures
      var n := NormalizeOperation(normalize, validText, op).value;
      n.record == CHALLENGE_LABEL + "." + host && Within(host, n.zone)
  {
    var n := NormalizeOperation(normalize, validText, op).value;
    host := normalize(op.record[|CHALLENGE_LABEL + "."|..]).value;
    hide Within;
    assert n.record == CHALLENGE_LABEL + "." + host;
    InZone(host, n.zone);
  }

  /** Cutting the suffix off and putting it back. */
  lemma Rebuilt(record: string, zone: string)
    requires Within(record, zone) && record != zone && |record| > 0 && record[0] == '_'
    ensures RelativeName(record, zone) + "." + zone == record && RelativeName(record, zone) != "@"
  {
    var relative := record[..|record| - |zone| - 1];
    assert relative + ("." + zone) == record;
  }

  /** The record for a name always passes the check for the zone the lookup found for that name. */
  lemma FoundZoneAccepts(db: Db, normalize: Normalizer, validText: string -> bool, name: string, txt: string, ttl: int)
    requires OneOwner(db) && FindZone(db, name).Some? && validText(txt)
    requires normalize(name) == Some(name)
    requires var zone := db.zones[FindZone(db, name).value].name; normalize(zone) == Some(zone)
    ensures
      var zone := db.zones[FindZone(db, name).value].name;
      var record := CHALLENGE_LABEL + "." + name;
      NormalizeOperation(normalize, validText, Operation(zone, record, txt, ttl))
      == Some(Operation(zone, record, txt, if ttl <= 0 then DEFAULT_TTL else ttl))
  {
    FindsLongestMatch(db, name);
    var zone := db.zones[FindZone(db, name).value].name;
    var prefix := CHALLENGE_LABEL + ".";
    var record := prefix + name;
    assert ToLower(record)[..|prefix|] == prefix;
    assert record[|prefix|..] == name;
    InZone(name, zone);
  }

  /** The record's name begins with the challenge label, in any case, and a dot. */
  predicate Labelled(record: string) {
    |record| >= 16
    && forall i :: 0 <= i < 16 ==> record[i] == "_acme-challenge."[i] || record[i] == "_ACME-CHALLENGE."[i]
  }

  /**
    An operation is accepted exactly when its zone and the host behind the challenge label normalise, the host is
    the zone's name or lies below it, and the text is valid; it then has the normal forms and a time to live of
    two minutes where none is asked.
   */
  lemma AcceptsExactly(normalize: Normalizer, validText: string -> bool, op: Operation, n: Operation)
    ensures
      NormalizeOperation(normalize, validText, op) == Some(n)
      <==>
      && normalize(op.zone) == Some(n.zone) && Labelled(op.record) && validText(op.txt) && n.txt == op.txt
      && n.ttl == (if op.ttl <= 0 then 120 else op.ttl)
      && match normalize(op.record[16..])
         case None => false
         case Some(host) =>
           && n.record == "_acme-challenge." + host
           && exists k :: 0 <= k < |Split(host, '.')| && Split(host, '.')[k..] == Split(n.zone, '.')
  {
    hide ToLower, Labelled, Within, Split, HasPrefix;
    LabelTested(op.record);
    if Labelled(op.record) && normalize(op.record[16..]).Some? && normalize(op.zone).Some? {
      var host := normalize(op.record[16..]).value;
      InZone(host, normalize(op.zone).value);
      WithinIsLabelSuffix(host, normalize(op.zone).value);
      assert CHALLENGE_LABEL + "." + host == "_acme-challenge." + host;
    }
  }

  lemma LabelTested(record: string)
    ensures Labelled(record) ==> |record| >= 16
    ensures |CHALLENGE_LABEL + "."| == 16 && (HasPrefix(ToLower(record), CHALLENGE_LABEL + ".") <==> Labelled(record))
  {
    var prefix := CHALLENGE_LABEL + ".";
    assert prefix == "_acme-challenge." && |prefix| == 16;
    forall i | 0 <= i < 16 && i < |record|
      ensures Lower(record[i]) == prefix[i] <==> record[i] == prefix[i] || record[i] == "_ACME-CHALLENGE."[i]
    {
    }
  }
}
