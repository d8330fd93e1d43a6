/** The template operations of the adapter (adapter.go) over a store, and referential integrity. */
module StoreIntegrity {
  import opened Wrappers
  import opened TemplateStore
  import opened StoreEquivalence
  import opened IndexIntegrity

  // ------------------------------------------------ the adapter's operations

  /** A request with the identifiers and the time the adapter draws for it; `from` is the image found in the
      Dockerfile, or empty. */
  datatype AdapterOp =
    | NewTemplate(name: string, dockerfile: string, from: string, startCmd: string, cpuCount: int, memoryMB: int,
                  id: Id, buildID: Id, now: int)
    | DropTemplate(id: Id)
    | Rebuild(id: Id, dockerfile: string, from: string, startCmd: string, buildID: Id)
    | NewAlias(id: Id, alias: Id)
    | DropAlias(id: Id, alias: Id)
    | NewTag(id: Id, name: Id, buildID: Id, now: int)
    | DropTag(id: Id, name: Id)

  const DEFAULT_IMAGE := "python:3.11-slim"

  function NewEntry(op: AdapterOp): Entry
    requires op.NewTemplate?
  {
    Entry(op.id, op.name, if op.dockerfile != "" && op.from != "" then op.from else DEFAULT_IMAGE, op.dockerfile,
          op.startCmd, op.cpuCount, op.memoryMB, op.buildID, op.now, map[])
  }

  /** The update callback of TriggerBuild. */
  function Rebuilt(e: Entry, op: AdapterOp): Entry
    requires op.Rebuild?
  {
    e.(buildID := op.buildID,
       dockerfile := if op.dockerfile != "" then op.dockerfile else e.dockerfile,
       imageURI := if op.dockerfile != "" && op.from != "" then op.from else e.imageURI,
       startCmd := if op.startCmd != "" then op.startCmd else e.startCmd)
  }

  function Ready(buildID: Id): Build { Build(buildID, "ready", "", "") }

  /** The store calls an operation makes; which ones depends only on the templates stored. */
  function Calls(templates: map<Id, Entry>, op: AdapterOp): seq<Op> {
    match op
    case NewTemplate(name, _, _, _, _, _, id, buildID, _) =>
      if name == "" then []
      else [CreateTemplate(NewEntry(op))] + (if id in templates then [] else [SaveBuild(id, Ready(buildID))])
    case DropTemplate(id) => [DeleteAliases(id), DeleteTags(id), DeleteBuilds(id), DeleteTemplate(id)]
    case Rebuild(id, _, _, _, buildID) =>
      [UpdateTemplate(id, (e: Entry) => Ok(Rebuilt(e, op)))]
      + (if id in templates then [SaveBuild(id, Ready(buildID))] else [])
    case NewAlias(id, alias) =>
      if alias == "" then [] else [GetTemplate(id)] + (if id in templates then [AddAlias(id, alias)] else [])
    case DropAlias(id, alias) => [RemoveAlias(id, alias)]
    case NewTag(id, name, buildID, now) =>
      if name == "" then []
      else [GetTemplate(id)] + (if id in templates then [SaveTag(id, Tag(name, id, buildID, now))] else [])
    case DropTag(id, name) => [DeleteTag(id, name)]
  }

  /** What an operation leaves in the in-memory store, and the replies it got from it. */
  function AdapterStep(s: Memory, op: AdapterOp): Memory { MemoryRun(s, Calls(s.templates, op)).0 }
  function AdapterReply(s: Memory, op: AdapterOp): seq<Reply> { MemoryRun(s, Calls(s.templates, op)).1 }

  function AdapterRun(s: Memory, ops: seq<AdapterOp>): Memory
    decreases |ops|
  {
    if ops == [] then s else AdapterRun(AdapterStep(s, ops[0]), ops[1..])
  }

  function AdapterReplies(s: Memory, ops: seq<AdapterOp>): seq<seq<Reply>>
    decreases |ops|
  {
    if ops == [] then [] else [AdapterReply(s, ops[0])] + AdapterReplies(AdapterStep(s, ops[0]), ops[1..])
  }

  /** What the adapter shows of a template. */
  datatype Template = Template(
    templateID: Id, name: string, cpuCount: int, memoryMB: int, buildID: Id, createdAt: int,
    metadata: map<string, string>)

  /** GetTemplate; an identifier that is not stored is shown as a template of that name made now. */
  function Shown(s: Memory, id: Id, now: int): Template {
    if id in s.templates then
      var e := s.templates[id];
      Template(e.templateID, e.name, e.cpuCount, e.memoryMB, e.buildID, e.createdAt, e.metadata)
    else Template(id, id, 0, 0, "", now, map[])
  }

  // ------------------------------------------------ integrity

  /** The operation files a build. */
  predicate Files(templates: map<Id, Entry>, op: AdapterOp) {
    (op.NewTemplate? && op.name != "" && op.id !in templates) || (op.Rebuild? && op.id in templates)
  }

  /** The build identifier drawn for it is fresh, or already filed under the same template. */
  predicate Admissible(templates: map<Id, Entry>, builds: map<Id, Build>, filed: map<Id, set<Id>>, op: AdapterOp) {
    Files(templates, op) ==> op.buildID !in builds || Filed(filed, op.id, op.buildID)
  }

  /** The entry under which it is filed. */
  function FiledEntry(templates: map<Id, Entry>, op: AdapterOp): Entry
    requires Files(templates, op)
  {
    if op.NewTemplate? then NewEntry(op) else Rebuilt(templates[op.id], op)
  }

  /** The alias lists as sets. */
  function Listing(aliases: map<Id, seq<Id>>): map<Id, set<Id>> { map id | id in aliases :: Elements(aliases[id]) }

  lemma ListingAt(aliases: map<Id, seq<Id>>, id: Id)
    ensures SetAt(Listing(aliases), id) == Elements(SeqAt(aliases, id))
  {
  }

  ghost predicate Integrity(s: Memory) {
    && BuildsSound(s.templates, s.builds, s.templateBuilds)
    && AliasesSound(s.templates, Listing(s.aliases), s.aliasReverse)
    && forall id :: id in s.templates || SeqAt(s.tags, id) == []
  }

  // ------------------------------------------------ short runs

  lemma Run1(s: Memory, a: Op)
    ensures MemoryRun(s, [a]).0 == MemoryStep(s, a).0
  {
    assert [a][1..] == [];
  }

  lemma Run2(s: Memory, a: Op, b: Op)
    ensures MemoryRun(s, [a] + [b]).0 == MemoryStep(MemoryStep(s, a).0, b).0
  {
    assert ([a] + [b])[1..] == [b];
    Run1(MemoryStep(s, a).0, b);
  }

  lemma Run4(s: Memory, a: Op, b: Op, c: Op, d: Op)
    ensures MemoryRun(s, [a, b, c, d]).0 == MemoryStep(MemoryStep(MemoryStep(MemoryStep(s, a).0, b).0, c).0, d).0
  {
    assert [a, b, c, d][1..] == [b, c, d] && [b, c, d][1..] == [c] + [d];
    Run2(MemoryStep(MemoryStep(s, a).0, b).0, c, d);
  }

  // ------------------------------------------------ each operation keeps integrity

  /** What an operation that files a build leaves. */
  function WithBuild(s: Memory, op: AdapterOp): Memory
    requires Files(s.templates, op)
  {
    s.(templates := s.templates[op.id := FiledEntry(s.templates, op)],
       builds := s.builds[op.buildID := Ready(op.buildID)], templateBuilds := File(s.templateBuilds, op.id, op.buildID))
  }

  lemma FilesIs(s: Memory, op: AdapterOp)
    requires Files(s.templates, op)
    ensures AdapterStep(s, op) == WithBuild(s, op)
  {
    var first := if op.NewTemplate? then CreateTemplate(NewEntry(op))
                 else UpdateTemplate(op.id, (e: Entry) => Ok(Rebuilt(e, op)));
    Run2(s, first, SaveBuild(op.id, Ready(op.buildID)));
  }

  /** A creation or rebuild that is refused changes nothing. */
  lemma RefusedIs(s: Memory, op: AdapterOp)
    requires (op.NewTemplate? || op.Rebuild?) && !Files(s.templates, op)
    ensures AdapterStep(s, op) == s
  {
    if op.Rebuild? {
      var update := UpdateTemplate(op.id, (e: Entry) => Ok(Rebuilt(e, op)));
      assert [update] + [] == [update];
      Run1(s, update);
    } else if op.name != "" {
      assert [CreateTemplate(NewEntry(op))] + [] == [CreateTemplate(NewEntry(op))];
      Run1(s, CreateTemplate(NewEntry(op)));
    }
  }

  /** Filing keeps integrity exactly for admissible build identifiers. */
  lemma FilingIsExact(s: Memory, op: AdapterOp)
    requires Integrity(s) && Files(s.templates, op)
    ensures Integrity(WithBuild(s, op)) <==> Admissible(s.templates, s.builds, s.templateBuilds, op)
  {
    var e, b := FiledEntry(s.templates, op), Ready(op.buildID);
    if Admissible(s.templates, s.builds, s.templateBuilds, op) {
      FileBuild(s.templates, s.builds, s.templateBuilds, e, b);
      EnterTemplate(s.templates, Listing(s.aliases), s.aliasReverse, op.id, e);
    } else {
      FileTwice(s.builds, s.templateBuilds, op.id, b);
    }
  }

  /** The state DeleteTemplate leaves. */
  function Dropped(s: Memory, id: Id): Memory {
    Memory(s.templates - {id}, s.builds - SetAt(s.templateBuilds, id), s.templateBuilds - {id}, s.aliases - {id},
           s.aliasReverse - Elements(SeqAt(s.aliases, id)), s.tags - {id})
  }

  lemma DropIs(s: Memory, id: Id)
    ensures AdapterStep(s, DropTemplate(id)) == Dropped(s, id)
  {
    Run4(s, DeleteAliases(id), DeleteTags(id), DeleteBuilds(id), DeleteTemplate(id));
    assert id !in s.templates ==> s.templates - {id} == s.templates;
  }

  lemma DropKeeps(s: Memory, id: Id)
    requires Integrity(s)
    ensures Integrity(Dropped(s, id))
    ensures forall a :: a in Dropped(s, id).aliasReverse ==> Dropped(s, id).aliasReverse[a] != id
  {
    var s' := Dropped(s, id);
    DropBuilds(s.templates, s.builds, s.templateBuilds, s'.templateBuilds, id);
    ListingAt(s.aliases, id);
    ListingDropped(s.aliases, id);
    DropAliases(s.templates, Listing(s.aliases), s.aliasReverse, Listing(s'.aliases), id);
    forall x ensures x in s'.templates || SeqAt(s'.tags, x) == [] {
      assert x in s.templates || SeqAt(s.tags, x) == [];
    }
  }

  lemma ListingDropped(aliases: map<Id, seq<Id>>, id: Id)
    ensures Emptied(Listing(aliases), Listing(aliases - {id}), id)
  {
  }

  lemma AddAliasKeeps(s: Memory, id: Id, a: Id)
    requires Integrity(s) && id in s.templates
    ensures Integrity(MemoryStep(s, AddAlias(id, a)).0)
  {
    var s' := MemoryStep(s, AddAlias(id, a)).0;
    if s' != s {
      Claim(s.templates, Listing(s.aliases), s.aliasReverse, Listing(s'.aliases), s'.aliasReverse, id, a);
    }
  }

  lemma RemoveAliasKeeps(s: Memory, id: Id, a: Id)
    requires Integrity(s)
    ensures Integrity(MemoryStep(s, RemoveAlias(id, a)).0)
  {
    var s', l := MemoryStep(s, RemoveAlias(id, a)).0, SeqAt(s.aliases, id);
    if a in l {
      CutBetween(l, IndexOf(l, a));
      var listed, listed' := Listing(s.aliases), Listing(s'.aliases);
      forall x ensures SetAt(listed, x) - {a} <= SetAt(listed', x) <= SetAt(listed, x) {
        ListingAt(s.aliases, x);
        ListingAt(s'.aliases, x);
      }
      Release(s.templates, Listing(s.aliases), s.aliasReverse, Listing(s'.aliases), a);
    }
  }

  lemma CutBetween(l: seq<Id>, i: nat)
    requires i < |l|
    ensures Elements(l) - {l[i]} <= Elements(Cut(l, i)) <= Elements(l)
  {
    forall x | x in l && x != l[i] ensures x in Cut(l, i) {
      var j :| 0 <= j < |l| && l[j] == x;
      CutAt(l, i, if j < i then j else j - 1);
    }
    forall x | x in Cut(l, i) ensures x in l {
      var j :| 0 <= j < |l| - 1 && Cut(l, i)[j] == x;
      CutAt(l, i, j);
    }
  }

  lemma SaveTagKeeps(s: Memory, id: Id, tag: Tag)
    requires Integrity(s) && id in s.templates
    ensures Integrity(MemoryStep(s, SaveTag(id, tag)).0)
  {
  }

  lemma DeleteTagKeeps(s: Memory, id: Id, name: Id)
    requires Integrity(s)
    ensures Integrity(MemoryStep(s, DeleteTag(id, name)).0)
  {
    assert id in s.templates || SeqAt(s.tags, id) == [];
  }

  lemma CheckedKeeps(s: Memory, id: Id, op: Op)
    requires Integrity(s) && (op.AddAlias? || op.SaveTag?) && op.id == id
    ensures Integrity(MemoryRun(s, [GetTemplate(id)] + (if id in s.templates then [op] else [])).0)
  {
    if id in s.templates {
      Run2(s, GetTemplate(id), op);
      if op.AddAlias? { AddAliasKeeps(s, id, op.alias); } else { SaveTagKeeps(s, id, op.tag); }
    } else {
      assert [GetTemplate(id)] + [] == [GetTemplate(id)];
      Run1(s, GetTemplate(id));
    }
  }

  /** Every completed adapter operation keeps referential integrity, exactly when the build identifier it files
      is fresh or already filed under the same template. */
  lemma IntegrityIsExact(s: Memory, op: AdapterOp)
    requires Integrity(s)
    ensures Integrity(AdapterStep(s, op)) <==> Admissible(s.templates, s.builds, s.templateBuilds, op)
  {
    if Files(s.templates, op) {
      FilesIs(s, op);
      FilingIsExact(s, op);
    } else if op.NewTemplate? || op.Rebuild? {
      RefusedIs(s, op);
    } else {
      PlainKeeps(s, op);
    }
  }

  /** The operations that file no build. */
  lemma PlainKeeps(s: Memory, op: AdapterOp)
    requires Integrity(s) && !op.NewTemplate? && !op.Rebuild?
    ensures Integrity(AdapterStep(s, op))
  {
    match op {
      case DropTemplate(id) =>
        DropIs(s, id);
        DropKeeps(s, id);
      case NewAlias(id, alias) => if alias != "" { CheckedKeeps(s, id, AddAlias(id, alias)); }
      case DropAlias(id, alias) =>
        Run1(s, RemoveAlias(id, alias));
        RemoveAliasKeeps(s, id, alias);
      case NewTag(id, name, buildID, now) =>
        if name != "" { CheckedKeeps(s, id, SaveTag(id, Tag(name, id, buildID, now))); }
      case DropTag(id, name) =>
        Run1(s, DeleteTag(id, name));
        DeleteTagKeeps(s, id, name);
    }
  }

  predicate AdmissibleRun(s: Memory, ops: seq<AdapterOp>)
    decreases |ops|
  {
    ops == [] ||
    (&& Admissible(s.templates, s.builds, s.templateBuilds, ops[0])
     && AdmissibleRun(AdapterStep(s, ops[0]), ops[1..]))
  }

  lemma {:induction false} RunIntegrity(s: Memory, ops: seq<AdapterOp>)
    requires Integrity(s) && AdmissibleRun(s, ops)
    ensures Integrity(AdapterRun(s, ops))
    decreases |ops|
  {
    if ops != [] {
      IntegrityIsExact(s, ops[0]);
      RunIntegrity(AdapterStep(s, ops[0]), ops[1..]);
    }
  }

  /** Referential integrity after every sequential run of adapter operations with admissible build identifiers. */
  lemma ReferentialIntegrity(ops: seq<AdapterOp>)
    requires AdmissibleRun(EMPTY_MEMORY, ops)
    ensures Integrity(AdapterRun(EMPTY_MEMORY, ops))
  {
    RunIntegrity(EMPTY_MEMORY, ops);
  }

  /** A deleted template leaves no alias, tag or build behind, and no alias resolves to it. */
  lemma DeletedLeavesNothing(s: Memory, id: Id)
    requires Integrity(s)
    ensures
      var s' := AdapterStep(s, DropTemplate(id));
      && id !in s'.templates && SetAt(s'.templateBuilds, id) == {}
      && SeqAt(s'.aliases, id) == [] && SeqAt(s'.tags, id) == []
      && (forall a :: a in s'.aliasReverse ==> s'.aliasReverse[a] != id)
      && (forall b :: Filed(s.templateBuilds, id, b) ==> b !in s'.builds)
  {
    DropIs(s, id);
    DropKeeps(s, id);
  }
}
