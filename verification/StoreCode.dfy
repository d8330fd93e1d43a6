/** The in-memory template store and the adapter's template methods as code that updates its maps in place. */
module StoreCode {
  import opened Wrappers
  import opened TemplateStore
  import opened StoreIntegrity

  /** memory_store.go */
  class MemoryTemplateStore {
    var templates: map<Id, Entry>
    var builds: map<Id, Build>
    var templateBuilds: map<Id, set<Id>>
    var aliases: map<Id, seq<Id>>
    var aliasReverse: map<Id, Id>
    var tags: map<Id, seq<Tag>>

    ghost function View(): Memory
      reads this
    {
      Memory(templates, builds, templateBuilds, aliases, aliasReverse, tags)
    }

    constructor ()
      ensures View() == EMPTY_MEMORY
    {
      templates, builds, templateBuilds := map[], map[], map[];
      aliases, aliasReverse, tags := map[], map[], map[];
    }

    method CreateTemplate(entry: Entry) returns (r: Reply)
      modifies this`templates
      ensures (View(), r) == MemoryStep(old(View()), TemplateStore.CreateTemplate(entry))
    {
      if entry.templateID in templates {
        return Failed(TemplateExists);
      }
      templates := templates[entry.templateID := entry];
      r := Done;
    }

    method GetTemplate(id: Id) returns (r: Reply)
      ensures (View(), r) == MemoryStep(View(), TemplateStore.GetTemplate(id))
    {
      r := if id in templates then OneTemplate(templates[id]) else Failed(TemplateNotFound);
    }

    method UpdateTemplate(id: Id, update: Entry -> Result<Entry, string>) returns (r: Reply)
      modifies this`templates
      ensures (View(), r) == MemoryStep(old(View()), TemplateStore.UpdateTemplate(id, update))
    {
      if id !in templates {
        return Failed(TemplateNotFound);
      }
      var updated := update(templates[id]);
      if updated.Err? {
        return Failed(UpdateFailed(updated.error));
      }
      templates := templates[id := updated.value];
      r := Done;
    }

    method DeleteTemplate(id: Id) returns (r: Reply)
      modifies this`templates
      ensures (View(), r) == MemoryStep(old(View()), TemplateStore.DeleteTemplate(id))
    {
      if id !in templates {
        return Failed(TemplateNotFound);
      }
      templates := templates - {id};
      r := Done;
    }

    method SaveBuild(id: Id, build: Build) returns (r: Reply)
      modifies this`builds, this`templateBuilds
      ensures (View(), r) == MemoryStep(old(View()), TemplateStore.SaveBuild(id, build))
    {
      builds := builds[build.buildID := build];
      if id !in templateBuilds {
        templateBuilds := templateBuilds[id := {}];
      }
      templateBuilds := templateBuilds[id := templateBuilds[id] + {build.buildID}];
      assert templateBuilds == old(templateBuilds)[id := SetAt(old(templateBuilds), id) + {build.buildID}];
      r := Done;
    }

    method GetBuild(buildID: Id) returns (r: Reply)
      ensures (View(), r) == MemoryStep(View(), TemplateStore.GetBuild(buildID))
    {
      r := if buildID in builds then OneBuild(builds[buildID]) else Failed(BuildNotFound);
    }

    method ListBuilds(id: Id) returns (r: Reply)
      ensures (View(), r) == MemoryStep(View(), TemplateStore.ListBuilds(id))
    {
      var ids := if id in templateBuilds then templateBuilds[id] else {};
      ghost var all := ids;
      var result: set<Build> := {};
      while ids != {}
        invariant ids <= all
        invariant result == set b | b in all - ids && b in builds :: builds[b]
        decreases |ids|
      {
        var buildID :| buildID in ids;
        if buildID in builds {
          result := result + {builds[buildID]};
        }
        ids := ids - {buildID};
      }
      assert all - ids == SetAt(templateBuilds, id);
      assert result == set b | b in SetAt(templateBuilds, id) && b in builds :: builds[b];
      r := Builds(result);
    }

    method DeleteBuilds(id: Id) returns (r: Reply)
      modifies this`builds, this`templateBuilds
      ensures (View(), r) == MemoryStep(old(View()), TemplateStore.DeleteBuilds(id))
    {
      var ids := if id in templateBuilds then templateBuilds[id] else {};
      ghost var all := ids;
      while ids != {}
        invariant ids <= all && builds == old(builds) - (all - ids)
        invariant templateBuilds == old(templateBuilds)
        decreases |ids|
      {
        var buildID :| buildID in ids;
        builds := builds - {buildID};
        ids := ids - {buildID};
      }
      assert all - ids == SetAt(templateBuilds, id);
      assert builds == old(builds) - SetAt(templateBuilds, id);
      templateBuilds := templateBuilds - {id};
      r := Done;
    }

    method AddAlias(id: Id, alias: Id) returns (r: Reply)
      modifies this`aliases, this`aliasReverse
      ensures (View(), r) == MemoryStep(old(View()), TemplateStore.AddAlias(id, alias))
    {
      var list := if id in aliases then aliases[id] else [];
      if alias in list {
        return Done;
      }
      aliases := aliases[id := list + [alias]];
      aliasReverse := aliasReverse[alias := id];
      r := Done;
    }

    method RemoveAlias(id: Id, alias: Id) returns (r: Reply)
      modifies this`aliases, this`aliasReverse
      ensures (View(), r) == MemoryStep(old(View()), TemplateStore.RemoveAlias(id, alias))
    {
      var list := if id in aliases then aliases[id] else [];
      var i := IndexOf(list, alias);
      if i == |list| {
        return Failed(AliasNotFound);
      }
      aliases := aliases[id := list[..i] + list[i + 1..]];
      aliasReverse := aliasReverse - {alias};
      r := Done;
    }

    method ResolveAlias(alias: Id) returns (r: Reply)
      ensures (View(), r) == MemoryStep(View(), TemplateStore.ResolveAlias(alias))
    {
      r := if alias in aliasReverse then Resolved(aliasReverse[alias]) else Failed(AliasNotFound);
    }

    method DeleteAliases(id: Id) returns (r: Reply)
      modifies this`aliases, this`aliasReverse
      ensures (View(), r) == MemoryStep(old(View()), TemplateStore.DeleteAliases(id))
    {
      var list := if id in aliases then aliases[id] else [];
      for i := 0 to |list|
        invariant aliasReverse == old(aliasReverse) - Elements(list[..i]) && aliases == old(aliases)
      {
        assert list[..i + 1] == list[..i] + [list[i]];
        aliasReverse := aliasReverse - {list[i]};
      }
      assert list[..|list|] == list;
      assert aliasReverse == old(aliasReverse) - Elements(SeqAt(aliases, id));
      aliases := aliases - {id};
      r := Done;
    }

    method SaveTag(id: Id, tag: Tag) returns (r: Reply)
      modifies this`tags
      ensures (View(), r) == MemoryStep(old(View()), TemplateStore.SaveTag(id, tag))
    {
      var list := if id in tags then tags[id] else [];
      for i := 0 to |list|
        invariant forall j :: 0 <= j < i ==> list[j].name != tag.name
      {
        if list[i].name == tag.name {
          tags := tags[id := list[i := tag]];
          assert i == TagIndex(list, tag.name);
          return Done;
        }
      }
      assert TagIndex(list, tag.name) == |list|;
      tags := tags[id := list + [tag]];
      r := Done;
    }

    method DeleteTag(id: Id, name: Id) returns (r: Reply)
      modifies this`tags
      ensures (View(), r) == MemoryStep(old(View()), TemplateStore.DeleteTag(id, name))
    {
      var list := if id in tags then tags[id] else [];
      var idx := 0;
      while idx < |list| && list[idx].name != name
        invariant idx <= |list|
        invariant forall j :: 0 <= j < idx ==> list[j].name != name
      {
        idx := idx + 1;
      }
      assert idx == TagIndex(list, name);
      if idx == |list| {
        return Failed(TagNotFound);
      }
      tags := tags[id := list[..idx] + list[idx + 1..]];
      r := Done;
    }

    method DeleteTags(id: Id) returns (r: Reply)
      modifies this`tags
      ensures (View(), r) == MemoryStep(old(View()), TemplateStore.DeleteTags(id))
    {
      tags := tags - {id};
      r := Done;
    }
  }

  datatype Answer = Accepted | NameRequired | Refused(error: Error)

  /** The cascade leaves the answer of its last call to the templates. */
  lemma CascadeReply(s: Memory, id: Id)
    ensures
      var s1 := MemoryStep(s, DeleteAliases(id)).0;
      var s3 := MemoryStep(MemoryStep(s1, DeleteTags(id)).0, DeleteBuilds(id)).0;
      MemoryStep(s3, DeleteTemplate(id)).1 == if id in s.templates then Done else Failed(TemplateNotFound)
  {
  }

  /** The template methods of adapter.go, each a sequence of calls on the store. */
  class Adapter {
    const store: MemoryTemplateStore

    constructor (store: MemoryTemplateStore)
      ensures this.store == store
    {
      this.store := store;
    }

    method CreateTemplate(op: AdapterOp) returns (r: Answer)
      requires op.NewTemplate?
      modifies store
      ensures store.View() == AdapterStep(old(store.View()), op)
      ensures r == if op.name == "" then NameRequired
                   else if op.id in old(store.templates) then Refused(TemplateExists) else Accepted
    {
      if op.name == "" {
        return NameRequired;
      }
      ghost var s := store.View();
      ghost var create := TemplateStore.CreateTemplate(NewEntry(op));
      ghost var save := TemplateStore.SaveBuild(op.id, Ready(op.buildID));
      Run1(s, create);
      Run2(s, create, save);
      assert [create] + [] == [create];
      var reply := store.CreateTemplate(NewEntry(op));
      if reply.Failed? {
        return Refused(reply.error);
      }
      reply := store.SaveBuild(op.id, Ready(op.buildID));
      r := Accepted;
    }

    method GetTemplate(id: Id, now: int) returns (t: Template)
      ensures t == Shown(store.View(), id, now)
    {
      var reply := store.GetTemplate(id);
      if reply.OneTemplate? {
        var e := reply.entry;
        return Template(e.templateID, e.name, e.cpuCount, e.memoryMB, e.buildID, e.createdAt, e.metadata);
      }
      t := Template(id, id, 0, 0, "", now, map[]);
    }

    method DeleteTemplate(id: Id) returns (r: Answer)
      modifies store
      ensures store.View() == AdapterStep(old(store.View()), DropTemplate(id))
      ensures r == if id in old(store.templates) then Accepted else Refused(TemplateNotFound)
    {
      ghost var s := store.View();
      Run4(s, TemplateStore.DeleteAliases(id), TemplateStore.DeleteTags(id), TemplateStore.DeleteBuilds(id),
           TemplateStore.DeleteTemplate(id));
      CascadeReply(s, id);
      var _ := store.DeleteAliases(id);
      var _ := store.DeleteTags(id);
      var _ := store.DeleteBuilds(id);
      var reply := store.DeleteTemplate(id);
      r := if reply.Failed? then Refused(reply.error) else Accepted;
    }

    method TriggerBuild(op: AdapterOp) returns (r: Answer)
      requires op.Rebuild?
      modifies store
      ensures store.View() == AdapterStep(old(store.View()), op)
      ensures r == if op.id in old(store.templates) then Accepted else Refused(TemplateNotFound)
    {
      var update := (e: Entry) => Ok(Rebuilt(e, op));
      ghost var s := store.View();
      ghost var first := TemplateStore.UpdateTemplate(op.id, update);
      ghost var save := TemplateStore.SaveBuild(op.id, Ready(op.buildID));
      Run1(s, first);
      Run2(s, first, save);
      assert [first] + [] == [first];
      var reply := store.UpdateTemplate(op.id, update);
      if reply.Failed? {
        return Refused(reply.error);
      }
      reply := store.SaveBuild(op.id, Ready(op.buildID));
      r := Accepted;
    }

    method CreateAlias(id: Id, alias: Id) returns (r: Answer)
      modifies store
      ensures store.View() == AdapterStep(old(store.View()), NewAlias(id, alias))
      ensures r == if alias == "" then NameRequired
                   else if id in old(store.templates) then Accepted else Refused(TemplateNotFound)
    {
      if alias == "" {
        return NameRequired;
      }
      ghost var s := store.View();
      Run1(s, TemplateStore.GetTemplate(id));
      Run2(s, TemplateStore.GetTemplate(id), TemplateStore.AddAlias(id, alias));
      assert [TemplateStore.GetTemplate(id)] + [] == [TemplateStore.GetTemplate(id)];
      var reply := store.GetTemplate(id);
      if reply.Failed? {
        return Refused(TemplateNotFound);
      }
      reply := store.AddAlias(id, alias);
      r := Accepted;
    }

    method DeleteAlias(id: Id, alias: Id) returns (r: Answer)
      modifies store
      ensures store.View() == AdapterStep(old(store.View()), DropAlias(id, alias))
      ensures r == if alias in old(SeqAt(store.aliases, id)) then Accepted else Refused(AliasNotFound)
    {
      Run1(store.View(), TemplateStore.RemoveAlias(id, alias));
      var reply := store.RemoveAlias(id, alias);
      r := if reply.Failed? then Refused(reply.error) else Accepted;
    }

    method CreateTag(id: Id, name: Id, buildID: Id, now: int) returns (r: Answer)
      modifies store
      ensures store.View() == AdapterStep(old(store.View()), NewTag(id, name, buildID, now))
      ensures r == if name == "" then NameRequired
                   else if id in old(store.templates) then Accepted else Refused(TemplateNotFound)
    {
      if name == "" {
        return NameRequired;
      }
      var tag := Tag(name, id, buildID, now);
      ghost var s := store.View();
      Run1(s, TemplateStore.GetTemplate(id));
      Run2(s, TemplateStore.GetTemplate(id), TemplateStore.SaveTag(id, tag));
      assert [TemplateStore.GetTemplate(id)] + [] == [TemplateStore.GetTemplate(id)];
      var reply := store.GetTemplate(id);
      if reply.Failed? {
        return Refused(TemplateNotFound);
      }
      reply := store.SaveTag(id, tag);
      r := Accepted;
    }
  }
}
