/** The adapter's operations over the Redis store: referential integrity, and agreement with the memory store. */
module RedisIntegrity {
  import opened Wrappers
  import opened TemplateStore
  import opened StoreEquivalence
  import opened IndexIntegrity
  import opened StoreIntegrity

  function RedisAdapterStep(r: Redis, op: AdapterOp): Redis { RedisRun(r, Calls(r.templates, op)).0 }
  function RedisAdapterReply(r: Redis, op: AdapterOp): seq<Reply> { RedisRun(r, Calls(r.templates, op)).1 }

  function RedisAdapterRun(r: Redis, ops: seq<AdapterOp>): Redis
    decreases |ops|
  {
    if ops == [] then r else RedisAdapterRun(RedisAdapterStep(r, ops[0]), ops[1..])
  }

  function RedisAdapterReplies(r: Redis, ops: seq<AdapterOp>): seq<seq<Reply>>
    decreases |ops|
  {
    if ops == [] then []
    else [RedisAdapterReply(r, ops[0])] + RedisAdapterReplies(RedisAdapterStep(r, ops[0]), ops[1..])
  }

  // ------------------------------------------------ agreement

  ghost predicate DisciplinedOps(s: Memory, ops: seq<AdapterOp>)
    decreases |ops|
  {
    ops == [] || (Disciplined(s, Calls(s.templates, ops[0])) && DisciplinedOps(AdapterStep(s, ops[0]), ops[1..]))
  }

  /** While no alias is claimed twice, the adapters over the two stores get the same replies and leave related
      stores. */
  lemma {:induction false} AdaptersAgree(s: Memory, r: Redis, ops: seq<AdapterOp>)
    requires Related(s, r) && DisciplinedOps(s, ops)
    ensures AdapterReplies(s, ops) == RedisAdapterReplies(r, ops)
    ensures Related(AdapterRun(s, ops), RedisAdapterRun(r, ops))
    decreases |ops|
  {
    if ops != [] {
      RunsAgree(s, r, Calls(s.templates, ops[0]));
      AdaptersAgree(AdapterStep(s, ops[0]), RedisAdapterStep(r, ops[0]), ops[1..]);
    }
  }

  // ------------------------------------------------ integrity, with second claims or without

  ghost predicate RedisIntegrity(r: Redis) {
    && BuildsSound(r.templates, r.builds, r.templateBuilds)
    && AliasesSound(r.templates, r.templateAliases, r.aliases)
    && forall id :: id in r.templates || HashAt(r.tags, id) == map[]
  }

  lemma Run1(r: Redis, a: Op)
    ensures RedisRun(r, [a]).0 == RedisStep(r, a).0
  {
    assert [a][1..] == [];
  }

  lemma Run2(r: Redis, a: Op, b: Op)
    ensures RedisRun(r, [a] + [b]).0 == RedisStep(RedisStep(r, a).0, b).0
  {
    assert ([a] + [b])[1..] == [b];
    Run1(RedisStep(r, a).0, b);
  }

  lemma Run4(r: Redis, a: Op, b: Op, c: Op, d: Op)
    ensures RedisRun(r, [a, b, c, d]).0 == RedisStep(RedisStep(RedisStep(RedisStep(r, a).0, b).0, c).0, d).0
  {
    assert [a, b, c, d][1..] == [b, c, d] && [b, c, d][1..] == [c] + [d];
    Run2(RedisStep(RedisStep(r, a).0, b).0, c, d);
  }

  function WithBuild(r: Redis, op: AdapterOp): Redis
    requires Files(r.templates, op)
  {
    r.(templates := r.templates[op.id := FiledEntry(r.templates, op)],
       builds := r.builds[op.buildID := Ready(op.buildID)], templateBuilds := File(r.templateBuilds, op.id, op.buildID))
  }

  lemma FilesIs(r: Redis, op: AdapterOp)
    requires Files(r.templates, op)
    ensures RedisAdapterStep(r, op) == WithBuild(r, op)
  {
    var first := if op.NewTemplate? then CreateTemplate(NewEntry(op))
                 else UpdateTemplate(op.id, (e: Entry) => Ok(Rebuilt(e, op)));
    Run2(r, first, SaveBuild(op.id, Ready(op.buildID)));
  }

  lemma RefusedIs(r: Redis, op: AdapterOp)
    requires (op.NewTemplate? || op.Rebuild?) && !Files(r.templates, op)
    ensures RedisAdapterStep(r, op) == r
  {
    if op.Rebuild? {
      var update := UpdateTemplate(op.id, (e: Entry) => Ok(Rebuilt(e, op)));
      assert [update] + [] == [update];
      Run1(r, update);
    } else if op.name != "" {
      assert [CreateTemplate(NewEntry(op))] + [] == [CreateTemplate(NewEntry(op))];
      Run1(r, CreateTemplate(NewEntry(op)));
    }
  }

  lemma FilingIsExact(r: Redis, op: AdapterOp)
    requires RedisIntegrity(r) && Files(r.templates, op)
    ensures RedisIntegrity(WithBuild(r, op)) <==> Admissible(r.templates, r.builds, r.templateBuilds, op)
  {
    var e, b := FiledEntry(r.templates, op), Ready(op.buildID);
    if Admissible(r.templates, r.builds, r.templateBuilds, op) {
      FileBuild(r.templates, r.builds, r.templateBuilds, e, b);
      EnterTemplate(r.templates, r.templateAliases, r.aliases, op.id, e);
    } else {
      FileTwice(r.builds, r.templateBuilds, op.id, b);
    }
  }

  /** What the cascade of DeleteTemplate leaves: a set that was empty is not deleted. */
  ghost predicate IsDropped(r: Redis, r': Redis, id: Id) {
    && r'.templates == r.templates - {id}
    && r'.builds == r.builds - SetAt(r.templateBuilds, id) && Emptied(r.templateBuilds, r'.templateBuilds, id)
    && r'.aliases == r.aliases - SetAt(r.templateAliases, id) && Emptied(r.templateAliases, r'.templateAliases, id)
    && r'.tags == r.tags - {id}
  }

  lemma DropAliasesIs(r: Redis, id: Id)
    ensures
      var r' := RedisStep(r, DeleteAliases(id)).0;
      && r' == r.(aliases := r.aliases - SetAt(r.templateAliases, id), templateAliases := r'.templateAliases)
      && Emptied(r.templateAliases, r'.templateAliases, id)
  {
    assert r.aliases - {} == r.aliases;
  }

  lemma DropBuildsIs(r: Redis, id: Id)
    ensures
      var r' := RedisStep(r, DeleteBuilds(id)).0;
      && r' == r.(builds := r.builds - SetAt(r.templateBuilds, id), templateBuilds := r'.templateBuilds)
      && Emptied(r.templateBuilds, r'.templateBuilds, id)
  {
    assert r.builds - {} == r.builds;
  }

  lemma DropEntryIs(r: Redis, id: Id)
    ensures RedisStep(r, DeleteTemplate(id)).0 == r.(templates := r.templates - {id})
  {
    assert id !in r.templates ==> r.templates - {id} == r.templates;
  }

  lemma DropIs(r: Redis, id: Id)
    ensures IsDropped(r, RedisAdapterStep(r, DropTemplate(id)), id)
  {
    Run4(r, DeleteAliases(id), DeleteTags(id), DeleteBuilds(id), DeleteTemplate(id));
    var r1 := RedisStep(r, DeleteAliases(id)).0;
    var r2 := RedisStep(r1, DeleteTags(id)).0;
    DropAliasesIs(r, id);
    DropBuildsIs(r2, id);
    DropEntryIs(RedisStep(r2, DeleteBuilds(id)).0, id);
  }

  lemma DropKeeps(r: Redis, r': Redis, id: Id)
    requires RedisIntegrity(r) && IsDropped(r, r', id)
    ensures RedisIntegrity(r')
    ensures forall a :: a in r'.aliases ==> r'.aliases[a] != id
  {
    DropBuilds(r.templates, r.builds, r.templateBuilds, r'.templateBuilds, id);
    DropAliases(r.templates, r.templateAliases, r.aliases, r'.templateAliases, id);
  }

  lemma AddAliasKeeps(r: Redis, id: Id, a: Id)
    requires RedisIntegrity(r) && id in r.templates
    ensures RedisIntegrity(RedisStep(r, AddAlias(id, a)).0)
  {
    var r' := RedisStep(r, AddAlias(id, a)).0;
    Claim(r.templates, r.templateAliases, r.aliases, r'.templateAliases, r'.aliases, id, a);
  }

  lemma RemoveAliasKeeps(r: Redis, id: Id, a: Id)
    requires RedisIntegrity(r)
    ensures RedisIntegrity(RedisStep(r, RemoveAlias(id, a)).0)
  {
    var r' := RedisStep(r, RemoveAlias(id, a)).0;
    if a in SetAt(r.templateAliases, id) {
      Release(r.templates, r.templateAliases, r.aliases, r'.templateAliases, a);
    }
  }

  lemma TagsKeep(r: Redis, op: Op)
    requires RedisIntegrity(r) && ((op.SaveTag? && op.id in r.templates) || op.DeleteTag?)
    ensures RedisIntegrity(RedisStep(r, op).0)
  {
    assert op.id in r.templates || HashAt(r.tags, op.id) == map[];
  }

  lemma CheckedKeeps(r: Redis, id: Id, op: Op)
    requires RedisIntegrity(r) && (op.AddAlias? || op.SaveTag?) && op.id == id
    ensures RedisIntegrity(RedisRun(r, [GetTemplate(id)] + (if id in r.templates then [op] else [])).0)
  {
    if id in r.templates {
      Run2(r, GetTemplate(id), op);
      if op.AddAlias? { AddAliasKeeps(r, id, op.alias); } else { TagsKeep(r, op); }
    } else {
      assert [GetTemplate(id)] + [] == [GetTemplate(id)];
      Run1(r, GetTemplate(id));
    }
  }

  lemma PlainKeeps(r: Redis, op: AdapterOp)
    requires RedisIntegrity(r) && !op.NewTemplate? && !op.Rebuild?
    ensures RedisIntegrity(RedisAdapterStep(r, op))
  {
    match op {
      case DropTemplate(id) =>
        DropIs(r, id);
        DropKeeps(r, RedisAdapterStep(r, op), id);
      case NewAlias(id, alias) => if alias != "" { CheckedKeeps(r, id, AddAlias(id, alias)); }
      case DropAlias(id, alias) =>
        Run1(r, RemoveAlias(id, alias));
        RemoveAliasKeeps(r, id, alias);
      case NewTag(id, name, buildID, now) =>
        if name != "" { CheckedKeeps(r, id, SaveTag(id, Tag(name, id, buildID, now))); }
      case DropTag(id, name) =>
        Run1(r, DeleteTag(id, name));
        TagsKeep(r, DeleteTag(id, name));
    }
  }

  /** Every completed adapter operation keeps the integrity of the Redis store, second claims of an alias
      included, exactly when the build identifier it files is fresh or already filed under the same template. */
  lemma RedisIntegrityIsExact(r: Redis, op: AdapterOp)
    requires RedisIntegrity(r)
    ensures RedisIntegrity(RedisAdapterStep(r, op)) <==> Admissible(r.templates, r.builds, r.templateBuilds, op)
  {
    if Files(r.templates, op) {
      FilesIs(r, op);
      FilingIsExact(r, op);
    } else if op.NewTemplate? || op.Rebuild? {
      RefusedIs(r, op);
    } else {
      PlainKeeps(r, op);
    }
  }

  predicate AdmissibleRun(r: Redis, ops: seq<AdapterOp>)
    decreases |ops|
  {
    ops == [] ||
    (&& Admissible(r.templates, r.builds, r.templateBuilds, ops[0])
     && AdmissibleRun(RedisAdapterStep(r, ops[0]), ops[1..]))
  }

  lemma {:induction false} RunIntegrity(r: Redis, ops: seq<AdapterOp>)
    requires RedisIntegrity(r) && AdmissibleRun(r, ops)
    ensures RedisIntegrity(RedisAdapterRun(r, ops))
    decreases |ops|
  {
    if ops != [] {
      RedisIntegrityIsExact(r, ops[0]);
      RunIntegrity(RedisAdapterStep(r, ops[0]), ops[1..]);
    }
  }

  /** Referential integrity of the Redis store after every sequential run of adapter operations. */
  lemma RedisReferentialIntegrity(ops: seq<AdapterOp>)
    requires AdmissibleRun(EMPTY_REDIS, ops)
    ensures RedisIntegrity(RedisAdapterRun(EMPTY_REDIS, ops))
  {
    RunIntegrity(EMPTY_REDIS, ops);
  }

  /** A deleted template leaves no alias, tag or build in Redis, and no alias resolves to it. */
  lemma RedisDeletedLeavesNothing(r: Redis, id: Id)
    requires RedisIntegrity(r)
    ensures
      var r' := RedisAdapterStep(r, DropTemplate(id));
      && id !in r'.templates && SetAt(r'.templateBuilds, id) == {}
      && SetAt(r'.templateAliases, id) == {} && HashAt(r'.tags, id) == map[]
      && (forall a :: a in r'.aliases ==> r'.aliases[a] != id)
      && (forall b :: Filed(r.templateBuilds, id, b) ==> b !in r'.builds)
  {
    DropIs(r, id);
    DropKeeps(r, RedisAdapterStep(r, DropTemplate(id)), id);
  }
}
