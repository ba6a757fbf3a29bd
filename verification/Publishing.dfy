/**
  Publishing a certificate into an output directory, one filesystem call at a time. A call may fail,
  the process may die before or after any call, and power may go: what was not synced may then be
  lost, entry by entry. Callers hold the directory lock, so publishes never overlap.
 */
module Publishing {
  import opened Base
  import opened LinkPaths
  import opened Text

  type Gen = string

  // The texts written to disk, the metadata already encoded; ETag and version go into the release's name.
  datatype Material = Material(
    certPem: string,
    chainPem: string,
    fullchainPem: string,
    privateKeyPem: string,
    metadata: string,
    etag: string,
    version: int)

  datatype Call = Call(generation: Gen, material: Material)

  datatype File = File(data: string, synced: bool)

  // `synced` says that the folder's entries are on disk.
  datatype Folder = Folder(files: map<string, File>, synced: bool)

  // What is found at the path of `current`.
  datatype Link = Absent | NotALink | Symlink(target: string)

  datatype Presence = Missing | Volatile | Durable

  // `settled` holds the releases whose entries are on disk, `maybe` every value `current` may have
  // after a power loss, `root` the state of the `releases` directory's own entry.
  datatype Disk = Disk(
    root: Presence,
    staging: map<Gen, Folder>,
    releases: map<Gen, Folder>,
    settled: set<Gen>,
    links: set<Gen>,
    current: Link,
    maybe: set<Link>)

  const EMPTY := Disk(Missing, map[], map[], {}, {}, Absent, {Absent})

  const METADATA_FILE := ".certhub-material.json"

  /** The link that a publish writes. */
  function Named(gen: Gen): Link {
    Symlink(TargetOf(gen))
  }

  /** The release that a link names. */
  function Leads(l: Link): Option<Gen> {
    if l.Symlink? && SafeTarget(l.target) then
      SafeImpliesInto(l.target);
      Some(Elements(l.target)[1])
    else None
  }

  /** What safeCurrentSymlink accepts. */
  predicate SafeCurrent(l: Link) {
    !l.NotALink? && (l.Symlink? ==> SafeTarget(l.target))
  }

  /** Nothing yet, or a link as a publish writes it. */
  predicate Own(l: Link) {
    l.Absent? || (l.Symlink? && RELEASES + "/" <= l.target && Plain(l.target[|RELEASES| + 1..]))
  }

  lemma LeadsToNamed(gen: Gen)
    requires Plain(gen)
    ensures Leads(Named(gen)) == Some(gen) && SafeCurrent(Named(gen)) && Own(Named(gen))
  {
    OwnTarget(gen);
    assert TargetOf(gen)[|RELEASES| + 1..] == gen;
  }

  /** The test accepts exactly an absent `current` and the links that name a release. */
  lemma SafeCurrentLeads(l: Link)
    ensures SafeCurrent(l) <==> l.Absent? || Leads(l).Some?
    ensures l.Symlink? ==> forall g ::
      Leads(l) == Some(g)
      <==> !IsAbs(l.target) && Walk(Split(l.target, '/'), HERE) == Place(0, ["releases", g])
  {
    if l.Symlink? {
      forall g ensures Leads(l) == Some(g)
        <==> !IsAbs(l.target) && Walk(Split(l.target, '/'), HERE) == Place(0, ["releases", g])
      {
        IntoLeads(l.target, g);
        SafeIsInto(l.target);
      }
    }
  }

  lemma OwnLeads(l: Link)
    requires Own(l) && !l.Absent?
    ensures Leads(l).Some? && l == Named(Leads(l).value)
  {
    var gen := l.target[|RELEASES| + 1..];
    assert l.target == TargetOf(gen);
    LeadsToNamed(gen);
  }

  function PemFiles(m: Material): seq<(string, string)> {
    [("cert.pem", m.certPem), ("chain.pem", m.chainPem), ("fullchain.pem", m.fullchainPem),
      ("privkey.pem", m.privateKeyPem)]
  }

  /** The five complete files of one call, all on disk. */
  function Complete(m: Material): Folder {
    Folder(map["cert.pem" := File(m.certPem, true), "chain.pem" := File(m.chainPem, true),
               "fullchain.pem" := File(m.fullchainPem, true), "privkey.pem" := File(m.privateKeyPem, true),
               METADATA_FILE := File(m.metadata, true)],
           true)
  }

  /** The folder holds the five files, each with its own text of the material. */
  predicate HoldsFiles(folder: Folder, m: Material) {
    var files := folder.files;
    && files.Keys == {"cert.pem", "chain.pem", "fullchain.pem", "privkey.pem", ".certhub-material.json"}
    && files["cert.pem"].data == m.certPem
    && files["chain.pem"].data == m.chainPem
    && files["fullchain.pem"].data == m.fullchainPem
    && files["privkey.pem"].data == m.privateKeyPem
    && files[".certhub-material.json"].data == m.metadata
  }

  lemma CompleteHolds(m: Material)
    ensures HoldsFiles(Complete(m), m)
  {
  }

  function Written(files: seq<(string, string)>, n: nat): map<string, File>
    requires n <= |files|
  {
    if n == 0 then map[] else Written(files, n - 1)[files[n - 1].0 := File(files[n - 1].1, true)]
  }

  lemma AllWritten(m: Material)
    ensures Written(PemFiles(m), |PemFiles(m)|)[METADATA_FILE := File(m.metadata, true)] == Complete(m).files
  {
    var files := PemFiles(m);
    assert Written(files, 1) == map["cert.pem" := File(m.certPem, true)];
    assert Written(files, 2) == Written(files, 1)["chain.pem" := File(m.chainPem, true)];
    assert Written(files, 3) == Written(files, 2)["fullchain.pem" := File(m.fullchainPem, true)];
    assert Written(files, 4) == Written(files, 3)["privkey.pem" := File(m.privateKeyPem, true)];
  }

  /** No file is written twice. */
  lemma NameIsNew(m: Material, i: nat)
    requires i <= |PemFiles(m)|
    ensures (if i < |PemFiles(m)| then PemFiles(m)[i].0 else METADATA_FILE) !in Written(PemFiles(m), i)
  {
    var files := PemFiles(m);
    WrittenNames(files, i);
    forall k | 0 <= k < i ensures files[k].0 != if i < |files| then files[i].0 else METADATA_FILE {
      assert files[0].0[1] == 'e' && files[1].0[1] == 'h' && files[2].0[1] == 'u' && files[3].0[1] == 'r';
    }
  }

  lemma {:induction false} WrittenNames(files: seq<(string, string)>, n: nat)
    requires n <= |files|
    ensures forall name :: name in Written(files, n) ==> exists k :: 0 <= k < n && files[k].0 == name
  {
    if n > 0 {
      WrittenNames(files, n - 1);
    }
  }

  // ----- What holds of a disk -----

  ghost predicate FromOneCall(gen: Gen, folder: Folder, calls: seq<Call>) {
    exists i :: 0 <= i < |calls| && calls[i].generation == gen && folder == Complete(calls[i].material)
  }

  /** If `current` names a release, it is one with the five complete files of one call. */
  ghost predicate Resolves(d: Disk, calls: seq<Call>) {
    match Leads(d.current)
    case None => true
    case Some(g) => g in d.releases && FromOneCall(g, d.releases[g], calls)
  }

  predicate NamesSettled(d: Disk, l: Link) {
    Leads(l).Some? ==> Leads(l).value in d.settled
  }

  ghost predicate Inv(d: Disk, calls: seq<Call>) {
    && d.current in d.maybe
    && d.settled <= d.releases.Keys
    && (d.root == Missing ==> d.releases == map[])
    && (forall g :: g in d.releases ==> FromOneCall(g, d.releases[g], calls))
    && (forall l :: l in d.maybe ==> NamesSettled(d, l))
  }

  lemma InvResolves(d: Disk, calls: seq<Call>)
    requires Inv(d, calls)
    ensures Resolves(d, calls)
  {
  }

  /** The releases that no failure may take away: `releases` is synced, or `current` may already name one of them. */
  function Held(d: Disk): set<Gen> {
    if Anchored(d) && d.root != Durable then {} else d.settled
  }

  /** The `releases` entry is on disk, or `current` cannot yet name a release. */
  predicate Anchored(d: Disk) {
    d.root == Durable || forall l :: l in d.maybe ==> Leads(l).None?
  }

  /** Held releases stay held, unchanged, a synced `releases` stays synced, and links come only from publishes. */
  predicate Keeps(d: Disk, e: Disk) {
    && Held(d) <= Held(e) && (d.root == Durable ==> e.root == Durable)
    && (forall l :: l in e.maybe && !Own(l) ==> l in d.maybe)
    && forall g :: g in Held(d) && g in d.releases ==> g in e.releases && e.releases[g] == d.releases[g]
  }

  /** Every release stays, unchanged. */
  predicate KeepsAll(d: Disk, e: Disk) {
    Keeps(d, e) && forall g :: g in d.releases ==> g in e.releases && e.releases[g] == d.releases[g]
  }

  // ----- Power loss -----

  /** What a folder may hold after a power loss: entries and texts that were not synced may be lost or torn. */
  predicate FolderAfterLoss(f: Folder, g: Folder) {
    && g.files.Keys <= f.files.Keys && g.synced
    && (f.synced ==> g.files.Keys == f.files.Keys)
    && (forall n :: n in g.files ==> g.files[n].synced && (f.files[n].synced ==> g.files[n].data == f.files[n].data))
  }

  predicate PowerLoss(d: Disk, e: Disk) {
    && e.current in d.maybe && e.maybe == {e.current} && e.links <= d.links
    && e.root != Volatile && (d.root == Durable ==> e.root == Durable) && (d.root == Missing ==> e.root == Missing)
    && e.settled == e.releases.Keys && e.releases.Keys <= d.releases.Keys
    && (if e.root == Missing then e.releases == map[] else d.settled <= e.settled)
    && (forall g :: g in e.releases ==> FolderAfterLoss(d.releases[g], e.releases[g]))
  }

  lemma CompleteSurvives(m: Material, g: Folder)
    requires FolderAfterLoss(Complete(m), g)
    ensures g == Complete(m)
  {
    var f := Complete(m);
    assert forall n :: n in f.files ==> g.files[n] == File(f.files[n].data, true);
    assert g.files == f.files;
  }

  lemma PowerLossKeeps(d: Disk, e: Disk, calls: seq<Call>)
    requires Inv(d, calls) && Anchored(d) && PowerLoss(d, e)
    ensures Inv(e, calls) && Keeps(d, e)
  {
    forall g | g in e.releases ensures e.releases[g] == d.releases[g] {
      var i :| 0 <= i < |calls| && calls[i].generation == g && d.releases[g] == Complete(calls[i].material);
      CompleteSurvives(calls[i].material, e.releases[g]);
    }
  }

  /**
    A power loss can leave `current` dangling exactly when a release was switched in before `releases` itself
    was synced.
   */
  lemma PowerLossSafe(d: Disk, calls: seq<Call>)
    requires Inv(d, calls)
    ensures Anchored(d) <==> forall e {:trigger PowerLoss(d, e)} :: PowerLoss(d, e) ==> Resolves(e, calls)
  {
    if Anchored(d) {
      forall e | PowerLoss(d, e) ensures Resolves(e, calls) {
        PowerLossKeeps(d, e, calls);
      }
    } else {
      var l :| l in d.maybe && Leads(l).Some?;
      var lost := Disk(Missing, map[], map[], {}, {}, l, {l});
      assert PowerLoss(d, lost) && !Resolves(lost, calls);
    }
  }

  // ----- Filesystem calls, when they take effect -----

  function MadeStaging(d: Disk, gen: Gen): Disk {
    d.(staging := d.staging[gen := Folder(map[], false)])
  }

  function FilePut(d: Disk, gen: Gen, name: string, file: File): Disk
    requires gen in d.staging
  {
    var folder := d.staging[gen];
    // Only a new entry needs another sync of the folder.
    d.(staging := d.staging[gen := Folder(folder.files[name := file], folder.synced && name in folder.files)])
  }

  lemma PutTwice(d: Disk, gen: Gen, name: string, a: File, b: File)
    requires gen in d.staging && name !in d.staging[gen].files
    ensures FilePut(FilePut(d, gen, name, a), gen, name, b) == FilePut(d, gen, name, b)
  {
    var files := d.staging[gen].files;
    assert files[name := a][name := b] == files[name := b];
    var folder := Folder(files[name := b], false);
    assert FilePut(FilePut(d, gen, name, a), gen, name, b).staging == d.staging[gen := folder];
  }

  function FileGone(d: Disk, gen: Gen, name: string): Disk
    requires gen in d.staging
  {
    d.(staging := d.staging[gen := Folder(d.staging[gen].files - {name}, false)])
  }

  function FolderSynced(d: Disk, gen: Gen): Disk
    requires gen in d.staging
  {
    d.(staging := d.staging[gen := d.staging[gen].(synced := true)])
  }

  function Moved(d: Disk, gen: Gen): Disk
    requires gen in d.staging
  {
    d.(staging := d.staging - {gen}, releases := d.releases[gen := d.staging[gen]], settled := d.settled - {gen})
  }

  function ReleasesSynced(d: Disk): Disk {
    d.(settled := d.releases.Keys)
  }

  function Linked(d: Disk, gen: Gen): Disk {
    d.(links := d.links + {gen})
  }

  function Switched(d: Disk, gen: Gen): Disk {
    d.(links := d.links - {gen}, current := Named(gen), maybe := d.maybe + {Named(gen)})
  }

  function RootSynced(d: Disk): Disk {
    d.(root := if d.root == Missing then Missing else Durable, maybe := {d.current})
  }

  /** The release is in place and on disk. */
  function Placed(d: Disk, gen: Gen, m: Material): Disk {
    d.(staging := d.staging - {gen}, releases := d.releases[gen := Complete(m)], settled := d.releases.Keys + {gen})
  }

  /** `current` names the release. */
  function Shown(d: Disk, gen: Gen): Disk {
    d.(current := Named(gen), maybe := d.maybe + {Named(gen)})
  }

  function Rooted(d: Disk): Disk {
    d.(root := if d.root == Missing then Volatile else d.root)
  }

  /** The disk at the moment a publish that goes through has just switched the link. */
  function SwitchMoment(d: Disk, gen: Gen, m: Material): Disk {
    Shown(Placed(Rooted(d), gen, m), gen)
  }

  /** Only staging folders and temporary links differ. */
  predicate Aside(d: Disk, e: Disk) {
    e == d.(staging := e.staging, links := e.links)
  }

  lemma AsideKeeps(d: Disk, e: Disk, calls: seq<Call>)
    requires Inv(d, calls) && Aside(d, e)
    ensures Inv(e, calls) && KeepsAll(d, e)
  {
  }

  lemma ReleasesFull(d: Disk, gen: Gen, calls: seq<Call>)
    requires Inv(d, calls) && gen in d.releases
    ensures d.releases[gen].files != map[]
  {
    var i :| 0 <= i < |calls| && calls[i].generation == gen && d.releases[gen] == Complete(calls[i].material);
    assert METADATA_FILE in d.releases[gen].files;
  }

  /** Moving a complete folder to a free name publishes it. */
  lemma MovedKeeps(d: Disk, gen: Gen, m: Material, calls: seq<Call>)
    requires Inv(d, calls) && d.root != Missing
    requires gen in d.staging && d.staging[gen] == Complete(m) && Call(gen, m) in calls
    requires gen in d.releases ==> d.releases[gen].files == map[]
    ensures Inv(Moved(d, gen), calls) && KeepsAll(d, Moved(d, gen))
  {
    if gen in d.releases {
      ReleasesFull(d, gen, calls);
    } else {
      assert FromOneCall(gen, d.staging[gen], calls);
    }
  }

  /** The switch is safe because the release's own entry is already on disk. */
  lemma SwitchedKeeps(d: Disk, gen: Gen, calls: seq<Call>)
    requires Inv(d, calls) && gen in d.settled && Plain(gen)
    ensures Inv(Switched(d, gen), calls) && KeepsAll(d, Switched(d, gen))
  {
    LeadsToNamed(gen);
    hide Leads, Own;
  }

  /** Syncing the output directory makes the new link, and the releases behind it, permanent. */
  lemma RootSyncedKeeps(d: Disk, calls: seq<Call>)
    requires Inv(d, calls) && d.root != Missing
    ensures Inv(RootSynced(d), calls) && KeepsAll(d, RootSynced(d))
  {
  }

  lemma KeepsAllOn(a: Disk, b: Disk, c: Disk)
    requires KeepsAll(a, b) && (b == c || KeepsAll(b, c))
    ensures KeepsAll(a, c)
  {
  }

  lemma KeepsAllAside(a: Disk, b: Disk, c: Disk)
    requires KeepsAll(a, b) && Aside(b, c)
    ensures KeepsAll(a, c)
  {
  }

  /** Without that sync a power loss could lose the release that `current` names. */
  lemma SwitchNeedsSync(d: Disk, gen: Gen, calls: seq<Call>)
    requires Inv(d, calls) && d.root == Durable && gen in d.releases && gen !in d.settled && Plain(gen)
    ensures exists e {:trigger PowerLoss(Switched(d, gen), e)} :: PowerLoss(Switched(d, gen), e) && !Resolves(e, calls)
  {
    LeadsToNamed(gen);
    hide Leads, Own;
    var s := Switched(d, gen);
    var lost := Disk(Durable, map[], map g | g in d.settled :: d.releases[g], d.settled, {}, Named(gen), {Named(gen)});
    forall g | g in lost.releases ensures FolderAfterLoss(s.releases[g], lost.releases[g]) {
      assert FromOneCall(g, d.releases[g], calls);
    }
    assert PowerLoss(s, lost) && !Resolves(lost, calls);
  }

  /**
    What one publish may do to `current`: nothing, or name a new release holding this call's files, for good
    when it succeeds.
   */
  predicate Outcome(d: Disk, e: Disk, gen: Gen, m: Material, ok: bool) {
    if ok || e.current != d.current then
      && e.current == Named(gen) && gen !in d.releases && gen in e.releases && e.releases[gen] == Complete(m)
      && (ok ==> e.maybe == {Named(gen)} && e.root == Durable && gen in e.settled)
    else
      d.maybe <= e.maybe <= d.maybe + {Named(gen)}
  }

  lemma RootStays(d: Disk, e: Disk, gen: Gen, m: Material, ok: bool)
    requires Outcome(d, e, gen, m, ok) && KeepsAll(d, e)
    ensures ok || d.root == Durable ==> e.root == Durable
  {
  }

  /** A change of staging folders after the outcome. */
  lemma AsideOutcome(d: Disk, staged: Disk, e: Disk, gen: Gen, m: Material, ok: bool)
    requires KeepsAll(d, staged) && Outcome(d, staged, gen, m, ok) && Aside(staged, e)
    ensures KeepsAll(d, e) && Outcome(d, e, gen, m, ok)
  {
  }

  /** Nothing of that name is there yet. */
  predicate Unused(d: Disk, gen: Gen) {
    gen !in d.staging && gen !in d.releases && gen !in d.links
  }

  predicate Left(before: set<Gen>, after: set<Gen>, gen: Gen) {
    gen in after && gen !in before
  }

  lemma OutcomeOver(d: Disk, prepared: Disk, e: Disk, gen: Gen, m: Material, ok: bool)
    requires prepared == d.(root := prepared.root, staging := prepared.staging) && KeepsAll(d, prepared)
    requires KeepsAll(prepared, e) && Outcome(prepared, e, gen, m, ok)
    ensures KeepsAll(d, e) && Outcome(d, e, gen, m, ok)
  {
  }

  lemma PlacedOver(d: Disk, gen: Gen, m: Material)
    ensures Placed(MadeStaging(Rooted(d), gen), gen, m) == Placed(Rooted(d), gen, m)
  {
    assert MadeStaging(Rooted(d), gen).staging - {gen} == d.staging - {gen};
  }

  /** The free name of a release is not yet what `current` names. */
  lemma NotNamedYet(d: Disk, gen: Gen, calls: seq<Call>)
    requires Inv(d, calls) && gen !in d.releases && Plain(gen)
    ensures d.current != Named(gen)
  {
    LeadsToNamed(gen);
    hide Leads;
    assert NamesSettled(d, d.current);
  }

  lemma SwitchedOutcome(d: Disk, staged: Disk, e: Disk, gen: Gen, m: Material, ok: bool)
    requires Aside(d, staged) && staged.links == d.links && staged.staging - {gen} == d.staging - {gen}
    requires gen !in d.releases && d.root != Missing && e.releases == Placed(staged, gen, m).releases
    requires e.current == d.current || e.current == Named(gen)
    requires e.current == d.current ==> e.maybe == d.maybe
    requires d.current != Named(gen)
    requires ok ==> gen in e.settled && e == RootSynced(Shown(Placed(staged, gen, m), gen))
    ensures Outcome(d, e, gen, m, ok) && (ok ==> Placed(staged, gen, m) == Placed(d, gen, m))
  {
  }

  lemma NoOutcome(d: Disk, e: Disk, gen: Gen, m: Material)
    requires e.current == d.current && e.maybe == d.maybe
    ensures Outcome(d, e, gen, m, false)
  {
  }

  /**
    The one moment at which a power loss can leave `current` dangling: the switch of a publish before
    `releases` was ever synced.
   */
  lemma SwitchIsAnchored(d: Disk, gen: Gen, m: Material, calls: seq<Call>)
    requires Inv(SwitchMoment(d, gen, m), calls) && Plain(gen)
    ensures Anchored(SwitchMoment(d, gen, m)) <==> d.root == Durable
    ensures d.root != Durable <==>
      exists e {:trigger PowerLoss(SwitchMoment(d, gen, m), e)} :: PowerLoss(SwitchMoment(d, gen, m), e)
        && !Resolves(e, calls)
  {
    LeadsToNamed(gen);
    PowerLossSafe(SwitchMoment(d, gen, m), calls);
    hide PowerLoss, Resolves, Inv, Leads;
  }

  /**
    It is reached: every publish of complete files into an empty directory passes a sound moment that is not
    anchored.
   */
  lemma FirstSwitchDangles(gen: Gen, m: Material)
    requires Plain(gen)
    ensures
      var s := SwitchMoment(EMPTY, gen, m);
      && Inv(s, [Call(gen, m)]) && !Anchored(s)
      && exists e {:trigger PowerLoss(s, e)} :: PowerLoss(s, e) && !Resolves(e, [Call(gen, m)])
  {
    var s := SwitchMoment(EMPTY, gen, m);
    LeadsToNamed(gen);
    assert [Call(gen, m)][0] == Call(gen, m);
    assert FromOneCall(gen, Complete(m), [Call(gen, m)]);
    hide Leads;
    assert Inv(s, [Call(gen, m)]);
    SwitchIsAnchored(EMPTY, gen, m, [Call(gen, m)]);
  }

  // ----- Traces -----

  /** Every disk state of the trace is sound, and no step takes a held release away. */
  ghost predicate Sound(trace: seq<Disk>, calls: seq<Call>) {
    && (forall i :: 0 <= i < |trace| ==> Inv(trace[i], calls))
    && (forall i :: 0 < i < |trace| ==> Keeps(trace[i - 1], trace[i]))
  }

  lemma {:induction false} HeldForGood(trace: seq<Disk>, calls: seq<Call>, i: nat, j: nat)
    requires Sound(trace, calls) && i <= j < |trace|
    ensures Keeps(trace[i], trace[j])
    decreases j
  {
    if i < j {
      HeldForGood(trace, calls, i, j - 1);
      assert Inv(trace[i], calls) && Inv(trace[j - 1], calls);
    }
  }

  /**
    In a directory that starts clean, `current` is at every moment absent or a release with the five files of
    one call.
   */
  lemma AlwaysResolves(trace: seq<Disk>, calls: seq<Call>, i: nat)
    requires Sound(trace, calls) && i < |trace| && forall l :: l in trace[0].maybe ==> Own(l)
    ensures trace[i].current.Absent? ||
      exists g :: trace[i].current == Named(g) && g in trace[i].releases && FromOneCall(g, trace[i].releases[g], calls)
  {
    HeldForGood(trace, calls, 0, i);
    assert Inv(trace[i], calls);
    InvResolves(trace[i], calls);
    assert Own(trace[i].current);
    if !trace[i].current.Absent? {
      OwnLeads(trace[i].current);
    }
  }

  /** A release that `current` once named is there, unchanged, at every later moment. */
  lemma PublishedNeverChanges(trace: seq<Disk>, calls: seq<Call>, i: nat, j: nat)
    requires Sound(trace, calls) && i <= j < |trace| && Leads(trace[i].current).Some?
    ensures
      var g := Leads(trace[i].current).value;
      g in trace[i].releases && g in trace[j].releases && trace[j].releases[g] == trace[i].releases[g]
  {
    HeldForGood(trace, calls, i, j);
    assert Inv(trace[i], calls);
  }

  /** ReadMetadata: the metadata file behind `current`, decoded; nothing when a step of it fails. */
  function ReadMetadata<T>(d: Disk, decode: string -> Option<T>): Option<T> {
    match Leads(d.current)
    case None => None
    case Some(g) =>
      if g in d.releases && METADATA_FILE in d.releases[g].files then decode(d.releases[g].files[METADATA_FILE].data)
      else None
  }

  /**
    Once the `releases` entry is on disk, every power loss at every later moment leaves `current` absent or
    resolving.
   */
  lemma SafeOnceSynced(trace: seq<Disk>, calls: seq<Call>, i: nat, j: nat, e: Disk)
    requires Sound(trace, calls) && i <= j < |trace| && trace[i].root == Durable && PowerLoss(trace[j], e)
    ensures trace[j].root == Durable && Inv(e, calls) && Resolves(e, calls) && Keeps(trace[j], e)
  {
    HeldForGood(trace, calls, i, j);
    assert Inv(trace[j], calls);
    PowerLossKeeps(trace[j], e, calls);
    InvResolves(e, calls);
  }

  /** At every moment what is read is the metadata of the very call whose certificate and key are behind `current`. */
  lemma MetadataFits<T>(trace: seq<Disk>, calls: seq<Call>, decode: string -> Option<T>, i: nat)
    requires Sound(trace, calls) && i < |trace|
    ensures
      match Leads(trace[i].current)
      case None => ReadMetadata(trace[i], decode) == None
      case Some(g) =>
        exists k :: 0 <= k < |calls| && g in trace[i].releases && trace[i].releases[g] == Complete(calls[k].material)
          && ReadMetadata(trace[i], decode) == decode(calls[k].material.metadata)
  {
    assert Inv(trace[i], calls);
    InvResolves(trace[i], calls);
    if Leads(trace[i].current).Some? {
      var g := Leads(trace[i].current).value;
      var k :| 0 <= k < |calls| && calls[k].generation == g && trace[i].releases[g] == Complete(calls[k].material);
    }
  }

  /**
    At every moment where `current` leads to a release, that release holds exactly five files, each with its own
    text of one and the same call.
   */
  lemma FilesOfOneCall(trace: seq<Disk>, calls: seq<Call>, i: nat)
    requires Sound(trace, calls) && i < |trace| && Leads(trace[i].current).Some?
    ensures
      var g := Leads(trace[i].current).value;
      g in trace[i].releases
      && exists k :: 0 <= k < |calls| && calls[k].generation == g && HoldsFiles(trace[i].releases[g], calls[k].material)
  {
    assert Inv(trace[i], calls);
    InvResolves(trace[i], calls);
    var g := Leads(trace[i].current).value;
    var k :| 0 <= k < |calls| && calls[k].generation == g && trace[i].releases[g] == Complete(calls[k].material);
    CompleteHolds(calls[k].material);
  }

  lemma SoundForMore(trace: seq<Disk>, calls: seq<Call>, call: Call)
    requires Sound(trace, calls)
    ensures Sound(trace, calls + [call])
  {
    hide Keeps;
    var more := calls + [call];
    forall i | 0 <= i < |trace| ensures Inv(trace[i], more) {
      assert Inv(trace[i], calls);
      forall g | g in trace[i].releases ensures FromOneCall(g, trace[i].releases[g], more) {
        var k :| 0 <= k < |calls| && calls[k].generation == g && trace[i].releases[g] == Complete(calls[k].material);
        assert more[k] == calls[k];
      }
    }
  }

  function Calls(todo: seq<(Material, int)>): seq<Call> {
    seq(|todo|, i requires 0 <= i < |todo| =>
          Call(ReleaseName(todo[i].0.etag, todo[i].0.version, todo[i].1), todo[i].0))
  }

  // ----- The program -----

  class FileSystem {
    var disk: Disk
    var alive: bool
    ghost var trace: seq<Disk>
    ghost var calls: seq<Call>
    // Calls that failed, fell short or killed the process.
    ghost var faults: nat

    ghost predicate Valid()
      reads this
    {
      |trace| > 0 && trace[|trace| - 1] == disk && Sound(trace, calls)
    }

    constructor (disk: Disk, ghost calls: seq<Call>)
      requires Inv(disk, calls)
      ensures Valid() && alive && this.disk == disk && this.calls == calls && trace == [disk]
    {
      this.disk := disk;
      this.alive := true;
      this.trace := [disk];
      this.calls := calls;
      this.faults := 0;
    }

    lemma Now()
      requires Valid()
      ensures Inv(disk, calls) && |trace| > 0 && trace[|trace| - 1] == disk
    {
    }

    /** The disk was in this state at some moment after the first `from`. */
    ghost predicate Passed(from: nat, d: Disk)
      reads this
    {
      exists i :: from <= i < |trace| && trace[i] == d
    }

    /** One filesystem call: it fails, it takes effect, or the process dies before or after it. */
    method Syscall(effect: Disk) returns (ok: bool)
      requires Valid() && Inv(effect, calls) && KeepsAll(disk, effect)
      modifies this
      ensures Valid() && calls == old(calls) && old(trace) <= trace && KeepsAll(old(disk), disk)
      ensures disk == old(disk) || disk == effect
      ensures alive ==> old(alive)
      ensures ok ==> alive && disk == effect
      ensures alive && !ok ==> disk == old(disk)
      ensures faults >= old(faults) && (ok ==> faults == old(faults))
      ensures old(alive) && !ok ==> faults > old(faults)
    {
      ok := false;
      if !alive {
        return;
      }
      if * {
        alive, faults := false, faults + 1;
        return;
      }
      if * {
        faults := faults + 1;
        return;
      }
      disk := effect;
      trace := trace + [effect];
      if * {
        alive, faults := false, faults + 1;
        return;
      }
      ok := true;
    }

    /** A call that only touches one staging folder or a temporary link. */
    method AsideCall(effect: Disk) returns (ok: bool)
      requires Valid() && Aside(disk, effect)
      modifies this
      ensures Valid() && calls == old(calls) && old(trace) <= trace
      ensures Aside(old(disk), disk) && (disk == old(disk) || disk == effect)
      ensures alive ==> old(alive)
      ensures ok ==> alive && disk == effect
      ensures alive && !ok ==> disk == old(disk)
      ensures faults >= old(faults) && (ok ==> faults == old(faults))
      ensures old(alive) && !ok ==> faults > old(faults)
    {
      AsideKeeps(disk, effect, calls);
      ok := Syscall(effect);
    }

    /** A write that put down less than it was given is an error too. */
    method FellShort()
      requires Valid()
      modifies this`faults
      ensures Valid() && faults == old(faults) + 1
    {
      faults := faults + 1;
    }

    /** `writeReleaseFile`: create, write, sync, close and chmod; a failed write may leave any part of the text. */
    method WriteReleaseFile(gen: Gen, name: string, data: string) returns (ok: bool)
      requires Valid() && gen in disk.staging
      modifies this
      ensures Valid() && calls == old(calls) && old(trace) <= trace
      ensures Aside(old(disk), disk) && disk.links == old(disk).links
      ensures gen in disk.staging && disk.staging - {gen} == old(disk).staging - {gen}
      ensures alive ==> old(alive)
      ensures ok ==> alive && name !in old(disk).staging[gen].files
      ensures ok ==> disk == FilePut(old(disk), gen, name, File(data, true))
      ensures faults >= old(faults) && (ok ==> faults == old(faults))
      ensures old(alive) && !ok && name !in old(disk).staging[gen].files ==> faults > old(faults)
    {
      hide Valid, KeepsAll, Inv;
      if name in disk.staging[gen].files {
        return false;
      }
      ok := AsideCall(FilePut(disk, gen, name, File("", false)));
      if !ok {
        return;
      }
      var torn: string := *;
      ok := AsideCall(FilePut(disk, gen, name, File(if |torn| < |data| && torn <= data then torn else data, false)));
      if !ok {
        return;
      }
      if disk.staging[gen].files[name].data != data {
        FellShort();
        return false;
      }
      PutTwice(old(disk), gen, name, File("", false), File(data, false));
      PutTwice(old(disk), gen, name, File(data, false), File(data, true));
      ok := AsideCall(FilePut(disk, gen, name, File(data, true)));
      if !ok {
        return;
      }
      ok := AsideCall(disk);
    }

    /** `os.RemoveAll` on a staging folder; it may stop half-way. */
    method RemoveStaging(gen: Gen)
      requires Valid()
      modifies this
      ensures Valid() && calls == old(calls) && old(trace) <= trace
      ensures Aside(old(disk), disk) && disk.links == old(disk).links
      ensures disk.staging - {gen} == old(disk).staging - {gen}
      ensures alive ==> old(alive)
      ensures faults >= old(faults) && (alive && gen in disk.staging ==> faults > old(faults))
    {
      if gen !in disk.staging {
        return;
      }
      var names := disk.staging[gen].files.Keys;
      while names != {}
        invariant Valid() && calls == old(calls) && old(trace) <= trace
        invariant Aside(old(disk), disk) && disk.links == old(disk).links
        invariant gen in disk.staging && disk.staging - {gen} == old(disk).staging - {gen}
        invariant alive ==> old(alive)
        invariant faults >= old(faults)
        decreases |names|
      {
        var name :| name in names;
        var ok := AsideCall(FileGone(disk, gen, name));
        if !ok {
          return;
        }
        names := names - {name};
      }
      var _ := AsideCall(disk.(staging := disk.staging - {gen}));
    }

    /** A call that changes nothing modelled here and may fail. */
    method Probe() returns (ok: bool)
      requires Valid()
      modifies this
      ensures Valid() && calls == old(calls) && old(trace) <= trace && disk == old(disk)
      ensures alive ==> old(alive)
      ensures ok ==> alive
      ensures faults >= old(faults) && (ok ==> faults == old(faults))
      ensures old(alive) && !ok ==> faults > old(faults)
    {
      ok := AsideCall(disk);
    }

    method SafeCurrentSymlink() returns (ok: bool)
      requires Valid()
      modifies this
      ensures Valid() && calls == old(calls) && old(trace) <= trace && disk == old(disk)
      ensures alive ==> old(alive)
      ensures ok ==> alive && SafeCurrent(disk.current)
      ensures faults >= old(faults) && (ok ==> faults == old(faults))
      ensures old(alive) && !ok && SafeCurrent(disk.current) ==> faults > old(faults)
    {
      ok := Probe();
      ok := ok && SafeCurrent(disk.current);
    }

    /** Writes the five files into the staging folder and syncs it. */
    method StageFiles(gen: Gen, m: Material) returns (ok: bool)
      requires Valid() && gen in disk.staging && disk.staging[gen] == Folder(map[], false)
      modifies this
      ensures Valid() && calls == old(calls) && old(trace) <= trace
      ensures Aside(old(disk), disk) && disk.links == old(disk).links
      ensures gen in disk.staging && disk.staging - {gen} == old(disk).staging - {gen}
      ensures alive ==> old(alive)
      ensures ok ==> alive && disk.staging[gen] == Complete(m) && HoldsFiles(disk.staging[gen], m)
      ensures faults >= old(faults) && (ok ==> faults == old(faults))
      ensures old(alive) && !ok ==> faults > old(faults)
    {
      hide Valid, HoldsFiles;
      var files := PemFiles(m);
      for i := 0 to |files|
        invariant Valid() && calls == old(calls) && old(trace) <= trace && Aside(old(disk), disk)
        invariant disk.links == old(disk).links
        invariant gen in disk.staging && disk.staging - {gen} == old(disk).staging - {gen}
        invariant disk.staging[gen] == Folder(Written(files, i), false)
        invariant alive ==> old(alive)
        invariant faults == old(faults) && alive == old(alive)
      {
        NameIsNew(m, i);
        ok := WriteReleaseFile(gen, files[i].0, files[i].1);
        if !ok {
          return;
        }
      }
      NameIsNew(m, |files|);
      ok := WriteReleaseFile(gen, METADATA_FILE, m.metadata);
      if !ok {
        return;
      }
      AllWritten(m);
      CompleteHolds(m);
      ok := AsideCall(FolderSynced(disk, gen));
    }

    /** Moves the staged release into place; `ok` once its entry is on disk. */
    method MoveIntoPlace(gen: Gen, m: Material) returns (ok: bool, moved: bool)
      requires Valid() && Call(gen, m) in calls && disk.root != Missing
      requires gen in disk.staging && disk.staging[gen] == Complete(m)
      modifies this
      ensures Valid() && calls == old(calls) && old(trace) <= trace && KeepsAll(old(disk), disk)
      ensures disk.staging - {gen} == old(disk).staging - {gen}
      ensures disk.current == old(disk).current && disk.maybe == old(disk).maybe && disk.root == old(disk).root
      ensures alive ==> old(alive)
      ensures ok ==> alive && gen !in old(disk).releases && disk == Placed(old(disk), gen, m)
      ensures ok ==> moved
      ensures moved ==> gen !in disk.staging
      ensures disk.links == old(disk).links
      ensures faults >= old(faults) && (ok ==> faults == old(faults))
      ensures old(alive) && !ok && gen !in old(disk).releases ==> faults > old(faults)
    {
      moved := false;
      if gen in disk.releases {
        ReleasesFull(disk, gen, calls);
      }
      // Renaming a directory onto another one fails unless that one is empty.
      if gen in disk.releases && disk.releases[gen].files != map[] {
        return false, false;
      }
      MovedKeeps(disk, gen, m, calls);
      ok := Syscall(Moved(disk, gen));
      if !ok {
        return;
      }
      moved := true;
      ok := Syscall(ReleasesSynced(disk));
    }

    /** Switches `current` to the release by renaming a temporary link over it. */
    method SwitchCurrent(gen: Gen) returns (ok: bool)
      requires Valid() && disk.root != Missing && gen in disk.settled && disk.current != Named(gen) && Plain(gen)
      modifies this
      ensures Valid() && calls == old(calls) && old(trace) <= trace && KeepsAll(old(disk), disk)
      ensures disk.staging == old(disk).staging && disk.releases == old(disk).releases
      ensures alive ==> old(alive)
      ensures disk.current == old(disk).current || disk.current == Named(gen)
      ensures disk.current == old(disk).current ==> disk.maybe == old(disk).maybe
      ensures ok ==> alive && gen in disk.settled && disk == RootSynced(Shown(old(disk), gen))
      ensures ok ==> Passed(|old(trace)|, Shown(old(disk), gen))
      ensures faults >= old(faults) && (ok ==> faults == old(faults))
      ensures ok ==> gen !in old(disk).links
      ensures old(alive) && !ok && SafeCurrent(old(disk).current) && gen !in old(disk).links ==> faults > old(faults)
      ensures alive && Left(old(disk).links, disk.links, gen) ==> faults >= old(faults) + 2
    {
      hide Valid, Inv, KeepsAll, SafeCurrent, Plain, Leads, Own, Sound;
      Now();
      ok := SafeCurrentSymlink();
      ok := ok && gen !in disk.links;
      if ok {
        ok := AsideCall(Linked(disk, gen));
      }
      ghost var linked := disk;
      AsideKeeps(old(disk), linked, calls);
      if !ok {
        return;
      }
      Now();
      SwitchedKeeps(disk, gen, calls);
      ok := Syscall(Switched(disk, gen));
      ghost var switched := disk;
      KeepsAllOn(old(disk), linked, switched);
      if !ok {
        var _ := AsideCall(disk.(links := disk.links - {gen}));
        KeepsAllAside(old(disk), switched, disk);
        return;
      }
      Now();
      ghost var at := |trace| - 1;
      assert switched == Shown(old(disk), gen);
      RootSyncedKeeps(disk, calls);
      ok := Syscall(RootSynced(disk));
      KeepsAllOn(old(disk), switched, disk);
      assert trace[at] == switched;
    }

    method PublishStaged(gen: Gen, m: Material) returns (ok: bool, cleanup: bool)
      requires Valid() && Call(gen, m) in calls && disk.root != Missing && SafeCurrent(disk.current) && Plain(gen)
      requires gen in disk.staging && disk.staging[gen] == Folder(map[], false)
      modifies this
      ensures Valid() && calls == old(calls) && old(trace) <= trace && KeepsAll(old(disk), disk)
      ensures disk.staging - {gen} == old(disk).staging - {gen}
      ensures alive ==> old(alive)
      ensures Outcome(old(disk), disk, gen, m, ok)
      ensures ok ==> alive && !cleanup && gen !in old(disk).releases && gen !in old(disk).links
      ensures faults >= old(faults) && (ok ==> faults == old(faults))
      ensures old(alive) && !ok && gen !in old(disk).releases && gen !in old(disk).links ==> faults > old(faults)
      ensures old(alive) && cleanup && gen !in old(disk).releases ==> faults > old(faults)
      ensures !cleanup ==> gen !in disk.staging
      ensures alive && Left(old(disk).links, disk.links, gen) ==> faults >= old(faults) + 2
      ensures var moment := Shown(Placed(old(disk), gen, m), gen);
              ok ==> disk == RootSynced(moment) && Passed(|old(trace)|, moment)
    {
      hide Valid, KeepsAll, Outcome, SafeCurrent, Plain, Inv;
      Now();
      ok := StageFiles(gen, m);
      ghost var staged := disk;
      AsideKeeps(old(disk), staged, calls);
      if !ok {
        NoOutcome(old(disk), disk, gen, m);
        return false, true;
      }
      var moved;
      ok, moved := MoveIntoPlace(gen, m);
      cleanup := !moved;
      ghost var placed := disk;
      KeepsAllOn(old(disk), staged, placed);
      if ok {
        NotNamedYet(old(disk), gen, calls);
        ok := SwitchCurrent(gen);
        KeepsAllOn(old(disk), placed, disk);
        SwitchedOutcome(old(disk), staged, disk, gen, m, ok);
      } else {
        NoOutcome(old(disk), disk, gen, m);
      }
    }

    /** Checks, directories and an empty staging folder; a folder left over from an earlier call is an error. */
    method Prepare(gen: Gen) returns (ok: bool)
      requires Valid()
      modifies this
      ensures Valid() && calls == old(calls) && old(trace) <= trace && KeepsAll(old(disk), disk)
      ensures alive ==> old(alive)
      ensures disk.(root := old(disk).root, staging := old(disk).staging) == old(disk)
      ensures disk.staging - {gen} == old(disk).staging - {gen}
      ensures ok ==> alive && disk.root != Missing && SafeCurrent(disk.current) && gen !in old(disk).staging
      ensures ok ==> disk == MadeStaging(Rooted(old(disk)), gen)
      ensures alive && !ok && gen !in old(disk).staging ==> gen !in disk.staging
      ensures faults >= old(faults) && (ok ==> faults == old(faults))
      ensures old(alive) && !ok && SafeCurrent(old(disk).current) && gen !in old(disk).staging ==> faults > old(faults)
    {
      // prepareOutDir and lockOutDir.
      ok := Probe();
      if !ok {
        return;
      }
      ok := SafeCurrentSymlink();
      if !ok {
        return;
      }
      ok := Syscall(Rooted(disk));
      if !ok {
        return;
      }
      // The staging root, and the checks of both directories.
      ok := Probe();
      if !ok || gen in disk.staging {
        return false;
      }
      ok := AsideCall(MadeStaging(disk, gen));
    }

    /** One publish into the directory, at a time given in nanoseconds. */
    method PublishMaterial(m: Material, nanos: int) returns (ok: bool, gen: Gen)
      requires Valid()
      modifies this
      ensures gen == ReleaseName(m.etag, m.version, nanos)
      ensures Valid() && calls == old(calls) + [Call(gen, m)] && old(trace) <= trace && KeepsAll(old(disk), disk)
      ensures disk.staging - {gen} == old(disk).staging - {gen}
      ensures alive ==> old(alive)
      ensures Outcome(old(disk), disk, gen, m, ok)
      ensures ok ==> alive && disk == RootSynced(SwitchMoment(old(disk), gen, m))
      ensures ok ==> gen in disk.releases && HoldsFiles(disk.releases[gen], m)
      ensures ok ==> Passed(|old(trace)|, SwitchMoment(old(disk), gen, m))
      ensures !SafeCurrent(old(disk).current) ==> disk.current == old(disk).current
      // It succeeds exactly when no call fails and what it must create is not there yet.
      ensures faults >= old(faults)
      ensures ok <==> old(alive) && faults == old(faults) && SafeCurrent(old(disk).current) && Unused(old(disk), gen)
      // A folder or link of its own stays behind only when the process dies or the cleanup fails too.
      ensures alive && Left(old(disk).staging.Keys, disk.staging.Keys, gen) ==>
        faults >= old(faults) + if gen in old(disk).releases then 1 else 2
      ensures alive && Left(old(disk).links, disk.links, gen) ==> faults >= old(faults) + 2
    {
      gen := ReleaseName(m.etag, m.version, nanos);
      ReleaseNameIsPlain(m.etag, m.version, nanos);
      calls := calls + [Call(gen, m)];
      SoundForMore(trace, old(calls), Call(gen, m));
      assert Call(gen, m) in calls && Valid();
      hide Valid, Outcome, KeepsAll, ReleaseName, Plain, SafeCurrent, HoldsFiles;
      ok := Prepare(gen);
      ghost var prepared := disk;
      if ok {
        ok := PublishPrepared(gen, m);
        OutcomeOver(old(disk), prepared, disk, gen, m, ok);
        if ok {
          PlacedOver(old(disk), gen, m);
          CompleteHolds(m);
        }
      } else {
        NoOutcome(old(disk), disk, gen, m);
      }
    }

    /** The part behind the staging folder, with its deferred cleanup. */
    method PublishPrepared(gen: Gen, m: Material) returns (ok: bool)
      requires Valid() && Call(gen, m) in calls && disk.root != Missing && SafeCurrent(disk.current) && Plain(gen)
      requires gen in disk.staging && disk.staging[gen] == Folder(map[], false)
      modifies this
      ensures Valid() && calls == old(calls) && old(trace) <= trace && KeepsAll(old(disk), disk)
      ensures disk.staging - {gen} == old(disk).staging - {gen}
      ensures alive ==> old(alive)
      ensures Outcome(old(disk), disk, gen, m, ok)
      ensures ok ==> alive && gen !in old(disk).releases && gen !in old(disk).links
      ensures faults >= old(faults) && (ok ==> faults == old(faults))
      ensures old(alive) && !ok && gen !in old(disk).releases && gen !in old(disk).links ==> faults > old(faults)
      ensures alive && gen in disk.staging ==> faults >= old(faults) + if gen in old(disk).releases then 1 else 2
      ensures alive && Left(old(disk).links, disk.links, gen) ==> faults >= old(faults) + 2
      ensures var moment := Shown(Placed(old(disk), gen, m), gen);
              ok ==> disk == RootSynced(moment) && Passed(|old(trace)|, moment)
    {
      hide Valid, Outcome, KeepsAll, Plain, SafeCurrent;
      var cleanup;
      ok, cleanup := PublishStaged(gen, m);
      ghost var staged := disk;
      if cleanup {
        RemoveStaging(gen);
      }
      AsideOutcome(old(disk), staged, disk, gen, m, ok);
    }

    /** Power is lost: what was not synced may be gone. */
    method LosePower(lost: Disk)
      requires Valid() && Anchored(disk) && PowerLoss(disk, lost)
      modifies this
      ensures Valid() && calls == old(calls) && trace == old(trace) + [lost] && disk == lost && !alive
      ensures old(disk).root == Durable ==> disk.root == Durable
    {
      PowerLossKeeps(disk, lost, calls);
      disk := lost;
      trace := trace + [lost];
      alive := false;
    }

    /**
      Any number of publishes one after the other, each possibly cut short by the death of the process or by a
      power loss. Left out is a loss at the one kind of moment described by SwitchIsAnchored: after the switch of
      a publish that began before `releases` was ever synced. Once it is, every power loss is taken in.
     */
    method PublishAll(todo: seq<(Material, int)>)
      requires Valid()
      modifies this
      ensures Valid() && old(trace) <= trace && calls == old(calls) + Calls(todo)
      ensures old(disk).root == Durable ==> disk.root == Durable
    {
      for i := 0 to |todo|
        invariant Valid() && old(trace) <= trace && calls == old(calls) + Calls(todo[..i])
        invariant old(disk).root == Durable ==> disk.root == Durable
      {
        hide Valid, ReleaseName;
        var _ := OnePublish(todo[i].0, todo[i].1);
        assert todo[..i + 1] == todo[..i] + [todo[i]];
      }
    }

    /** One publish, whatever ends it, and the restart after it. */
    method OnePublish(m: Material, nanos: int) returns (ok: bool)
      requires Valid()
      modifies this
      ensures Valid() && old(trace) <= trace && alive
      ensures calls == old(calls) + [Call(ReleaseName(m.etag, m.version, nanos), m)]
      ensures ok || old(disk).root == Durable ==> disk.root == Durable
    {
      hide ReleaseName, Sound, Passed, PowerLoss, Outcome, KeepsAll, SwitchMoment, RootSynced;
      var gen;
      ok, gen := PublishMaterial(m, nanos);
      RootStays(old(disk), disk, gen, m, ok);
      var lost: Disk := *;
      if PowerLoss(disk, lost) && (disk.root == Durable || Anchored(disk)) {
        LosePower(lost);
      }
      alive := true;
    }
  }

  /** What a successful publish put in place survives any power loss. */
  lemma SuccessIsDurable(d: Disk, e: Disk, lost: Disk, gen: Gen, m: Material, calls: seq<Call>)
    requires Inv(d, calls) && Inv(e, calls) && Outcome(d, e, gen, m, true) && PowerLoss(e, lost)
    ensures lost.current == Named(gen) && gen in lost.releases && lost.releases[gen] == Complete(m)
  {
    PowerLossKeeps(e, lost, calls);
  }
}
