/** The Redis template store (redis_store.go): every method as the commands it issues on one keyspace. */
module RedisCode {
  import opened Wrappers
  import opened TemplateStore
  import opened RedisKeyspace

  const DEFAULT_PREFIX := "e2bgateway:opensandbox:"

  /** The loop that decodes the values of a hash. */
  method ReadEntries(fields: map<string, Cell>) returns (entries: set<Entry>)
    requires forall k :: k in fields ==> fields[k].EntryCell?
    ensures entries == set k | k in fields :: fields[k].entry
  {
    var left := fields.Keys;
    entries := {};
    while left != {}
      invariant left <= fields.Keys
      invariant entries == set k | k in fields.Keys - left :: fields[k].entry
      decreases |left|
    {
      var k :| k in left;
      entries := entries + {fields[k].entry};
      left := left - {k};
    }
    assert fields.Keys - left == fields.Keys;
  }

  lemma ReadEntriesStored(stored: map<Id, Entry>, fields: map<string, Cell>)
    requires forall k :: k in fields <==> k in stored
    requires forall k :: k in fields ==> fields[k] == EntryCell(stored[k])
    ensures (set k | k in fields :: fields[k].entry) == stored.Values
  {
    var values := set k | k in fields :: fields[k].entry;
    forall v | v in stored.Values ensures v in values {
      var k :| k in stored && stored[k] == v;
      assert fields[k].entry == v;
    }
  }

  /** The loop that decodes the values of a hash. */
  method ReadTags(fields: map<string, Cell>) returns (tags: set<Tag>)
    requires forall k :: k in fields ==> fields[k].TagCell?
    ensures tags == set k | k in fields :: fields[k].tag
  {
    var left := fields.Keys;
    tags := {};
    while left != {}
      invariant left <= fields.Keys
      invariant tags == set k | k in fields.Keys - left :: fields[k].tag
      decreases |left|
    {
      var k :| k in left;
      tags := tags + {fields[k].tag};
      left := left - {k};
    }
    assert fields.Keys - left == fields.Keys;
  }

  lemma ReadTagsStored(stored: map<Id, Tag>, fields: map<string, Cell>)
    requires forall k :: k in fields <==> k in stored
    requires forall k :: k in fields ==> fields[k] == TagCell(stored[k])
    ensures (set k | k in fields :: fields[k].tag) == stored.Values
  {
    var values := set k | k in fields :: fields[k].tag;
    forall v | v in stored.Values ensures v in values {
      var k :| k in stored && stored[k] == v;
      assert fields[k].tag == v;
    }
  }

  /** The loop over the answer to HMGET, whose missing fields are skipped. */
  method ReadBuilds(ids: set<Id>, fields: map<string, Cell>) returns (builds: set<Build>)
    requires forall k :: k in fields ==> fields[k].BuildCell?
    ensures builds == set b | b in ids && b in fields :: fields[b].build
  {
    var left := ids;
    builds := {};
    while left != {}
      invariant left <= ids
      invariant builds == set b | b in ids - left && b in fields :: fields[b].build
      decreases |left|
    {
      var b :| b in left;
      if b in fields {
        builds := builds + {fields[b].build};
      }
      left := left - {b};
    }
    assert ids - left == ids;
  }

  lemma ReadBuildsStored(stored: map<Id, Build>, fields: map<string, Cell>, ids: set<Id>)
    requires forall k :: k in fields <==> k in stored
    requires forall k :: k in fields ==> fields[k] == BuildCell(stored[k])
    ensures (set b | b in ids && b in fields :: fields[b].build) == (set b | b in ids && b in stored :: stored[b])
  {
    var builds := set b | b in ids && b in fields :: fields[b].build;
    forall x | x in (set b | b in ids && b in stored :: stored[b]) ensures x in builds {
      var b :| b in ids && b in stored && stored[b] == x;
      assert fields[b].build == x;
    }
  }

  class RedisTemplateStore {
    const keyPrefix: string
    var db: Keyspace
    ghost var state: Redis             // the hashes and sets that the keyspace stands for

    ghost predicate Valid()
      reads this
    {
      Represents(db, keyPrefix, state)
    }

    constructor (keyPrefix: string)
      ensures Valid() && state == EMPTY_REDIS
      ensures this.keyPrefix == if keyPrefix == "" then "e2bgateway:opensandbox:" else keyPrefix
    {
      this.keyPrefix := if keyPrefix == "" then DEFAULT_PREFIX else keyPrefix;
      db, state := map[], EMPTY_REDIS;
      new;
      EmptyRepresents(this.keyPrefix);
    }

    method CreateTemplate(entry: Entry) returns (r: Reply)
      requires Valid()
      modifies this
      ensures Valid() && (state, r) == RedisStep(old(state), TemplateStore.CreateTemplate(entry))
    {
      var key := Key(keyPrefix, TemplateTable);
      ReadSlot(db, keyPrefix, state, TemplateTable);
      PutEntry(db, keyPrefix, state, entry.templateID, entry);
      var ok := entry.templateID !in Fields(db, key);
      db := HSetNX(db, key, entry.templateID, EntryCell(entry));
      if !ok {
        return Failed(TemplateExists);
      }
      state := state.(templates := state.templates[entry.templateID := entry]);
      r := Done;
    }

    method GetTemplate(id: Id) returns (r: Reply)
      requires Valid()
      ensures (state, r) == RedisStep(state, TemplateStore.GetTemplate(id))
    {
      ReadSlot(db, keyPrefix, state, TemplateTable);
      var fields := Fields(db, Key(keyPrefix, TemplateTable));
      r := if id in fields then OneTemplate(fields[id].entry) else Failed(TemplateNotFound);
    }

    method ListTemplates() returns (r: Reply)
      requires Valid()
      ensures (state, r) == RedisStep(state, TemplateStore.ListTemplates)
    {
      ReadSlot(db, keyPrefix, state, TemplateTable);
      var fields := Fields(db, Key(keyPrefix, TemplateTable));
      ReadEntriesStored(state.templates, fields);
      var entries := ReadEntries(fields);
      r := Templates(entries);
    }

    method UpdateTemplate(id: Id, update: Entry -> Result<Entry, string>) returns (r: Reply)
      requires Valid()
      modifies this
      ensures Valid() && (state, r) == RedisStep(old(state), TemplateStore.UpdateTemplate(id, update))
    {
      var key := Key(keyPrefix, TemplateTable);
      ReadSlot(db, keyPrefix, state, TemplateTable);
      var fields := Fields(db, key);
      if id !in fields {
        return Failed(TemplateNotFound);
      }
      var updated := update(fields[id].entry);
      if updated.Err? {
        return Failed(UpdateFailed(updated.error));
      }
      PutEntry(db, keyPrefix, state, id, updated.value);
      db := HSet(db, key, id, EntryCell(updated.value));
      state := state.(templates := state.templates[id := updated.value]);
      r := Done;
    }

    method DeleteTemplate(id: Id) returns (r: Reply)
      requires Valid()
      modifies this
      ensures Valid() && (state, r) == RedisStep(old(state), TemplateStore.DeleteTemplate(id))
    {
      var key := Key(keyPrefix, TemplateTable);
      ReadSlot(db, keyPrefix, state, TemplateTable);
      DropEntry(db, keyPrefix, state, id);
      var n := if id in Fields(db, key) then 1 else 0;
      db := HDel(db, key, {id});
      assert n == 0 ==> state.templates - {id} == state.templates;
      state := state.(templates := state.templates - {id});
      r := if n == 0 then Failed(TemplateNotFound) else Done;
    }

    method SaveBuild(id: Id, build: Build) returns (r: Reply)
      requires Valid()
      modifies this
      ensures Valid() && (state, r) == RedisStep(old(state), TemplateStore.SaveBuild(id, build))
    {
      PutBuild(db, keyPrefix, state, build);
      db := HSet(db, Key(keyPrefix, BuildTable), build.buildID, BuildCell(build));
      state := state.(builds := state.builds[build.buildID := build]);
      FileBuild(db, keyPrefix, state, id, build.buildID);
      db := SAdd(db, Key(keyPrefix, BuildSet(id)), build.buildID);
      state := state.(templateBuilds := state.templateBuilds[id := SetAt(state.templateBuilds, id) + {build.buildID}]);
      r := Done;
    }

    method GetBuild(buildID: Id) returns (r: Reply)
      requires Valid()
      ensures (state, r) == RedisStep(state, TemplateStore.GetBuild(buildID))
    {
      ReadSlot(db, keyPrefix, state, BuildTable);
      var fields := Fields(db, Key(keyPrefix, BuildTable));
      r := if buildID in fields then OneBuild(fields[buildID].build) else Failed(BuildNotFound);
    }

    /** SMEMBERS, then HMGET. */
    method ListBuilds(id: Id) returns (r: Reply)
      requires Valid()
      ensures (state, r) == RedisStep(state, TemplateStore.ListBuilds(id))
    {
      ReadSlot(db, keyPrefix, state, BuildTable);
      ReadSlot(db, keyPrefix, state, BuildSet(id));
      var ids := MembersOf(db, Key(keyPrefix, BuildSet(id)));
      var fields := Fields(db, Key(keyPrefix, BuildTable));
      ReadBuildsStored(state.builds, fields, ids);
      var builds := ReadBuilds(ids, fields);
      r := Builds(builds);
    }

    method DeleteBuilds(id: Id) returns (r: Reply)
      requires Valid()
      modifies this
      ensures Valid() && (state, r) == RedisStep(old(state), TemplateStore.DeleteBuilds(id))
    {
      var setKey := Key(keyPrefix, BuildSet(id));
      ReadSlot(db, keyPrefix, state, BuildSet(id));
      var ids := MembersOf(db, setKey);
      if ids == {} {
        return Done;
      }
      DropBuilds(db, keyPrefix, state, ids);
      db := HDel(db, Key(keyPrefix, BuildTable), ids);
      state := state.(builds := state.builds - ids);
      UnfileBuilds(db, keyPrefix, state, id);
      db := Del(db, setKey);
      state := state.(templateBuilds := state.templateBuilds - {id});
      r := Done;
    }

    method AddAlias(id: Id, alias: Id) returns (r: Reply)
      requires Valid()
      modifies this
      ensures Valid() && (state, r) == RedisStep(old(state), TemplateStore.AddAlias(id, alias))
    {
      var key := Key(keyPrefix, AliasTable);
      ReadSlot(db, keyPrefix, state, AliasTable);
      PutAlias(db, keyPrefix, state, alias, id);
      ghost var free := alias !in Fields(db, key);
      db := HSetNX(db, key, alias, IdCell(id));
      state := state.(aliases := if free then state.aliases[alias := id] else state.aliases);
      ListAlias(db, keyPrefix, state, id, alias);
      db := SAdd(db, Key(keyPrefix, AliasSet(id)), alias);
      state := state.(templateAliases := state.templateAliases[id := SetAt(state.templateAliases, id) + {alias}]);
      r := Done;
    }

    method RemoveAlias(id: Id, alias: Id) returns (r: Reply)
      requires Valid()
      modifies this
      ensures Valid() && (state, r) == RedisStep(old(state), TemplateStore.RemoveAlias(id, alias))
    {
      var setKey := Key(keyPrefix, AliasSet(id));
      ReadSlot(db, keyPrefix, state, AliasSet(id));
      var removed := if alias in MembersOf(db, setKey) then 1 else 0;
      if removed == 0 {
        assert MembersOf(db, setKey) - {alias} == MembersOf(db, setKey);
        WriteSlot(db, keyPrefix, state, state, AliasSet(id));
      } else {
        UnlistAlias(db, keyPrefix, state, id, alias);
      }
      db := SRem(db, setKey, alias);
      if removed == 0 {
        return Failed(AliasNotFound);
      }
      state := state.(templateAliases := state.templateAliases[id := SetAt(state.templateAliases, id) - {alias}]);
      DropAliases(db, keyPrefix, state, {alias});
      db := HDel(db, Key(keyPrefix, AliasTable), {alias});
      state := state.(aliases := state.aliases - {alias});
      r := Done;
    }

    method ListAliases(id: Id) returns (r: Reply)
      requires Valid()
      ensures (state, r) == RedisStep(state, TemplateStore.ListAliases(id))
    {
      ReadSlot(db, keyPrefix, state, AliasSet(id));
      r := Aliases(MembersOf(db, Key(keyPrefix, AliasSet(id))));
    }

    method ResolveAlias(alias: Id) returns (r: Reply)
      requires Valid()
      ensures (state, r) == RedisStep(state, TemplateStore.ResolveAlias(alias))
    {
      ReadSlot(db, keyPrefix, state, AliasTable);
      var fields := Fields(db, Key(keyPrefix, AliasTable));
      r := if alias in fields then Resolved(fields[alias].id) else Failed(AliasNotFound);
    }

    method DeleteAliases(id: Id) returns (r: Reply)
      requires Valid()
      modifies this
      ensures Valid() && (state, r) == RedisStep(old(state), TemplateStore.DeleteAliases(id))
    {
      var setKey := Key(keyPrefix, AliasSet(id));
      ReadSlot(db, keyPrefix, state, AliasSet(id));
      var aliases := MembersOf(db, setKey);
      if aliases == {} {
        return Done;
      }
      DropAliases(db, keyPrefix, state, aliases);
      db := HDel(db, Key(keyPrefix, AliasTable), aliases);
      state := state.(aliases := state.aliases - aliases);
      UnlistAliases(db, keyPrefix, state, id);
      db := Del(db, setKey);
      state := state.(templateAliases := state.templateAliases - {id});
      r := Done;
    }

    method SaveTag(id: Id, tag: Tag) returns (r: Reply)
      requires Valid()
      modifies this
      ensures Valid() && (state, r) == RedisStep(old(state), TemplateStore.SaveTag(id, tag))
    {
      PutTagCell(db, keyPrefix, state, id, tag);
      db := HSet(db, Key(keyPrefix, TagTable(id)), tag.name, TagCell(tag));
      state := state.(tags := state.tags[id := HashAt(state.tags, id)[tag.name := tag]]);
      r := Done;
    }

    method ListTags(id: Id) returns (r: Reply)
      requires Valid()
      ensures (state, r) == RedisStep(state, TemplateStore.ListTags(id))
    {
      ReadSlot(db, keyPrefix, state, TagTable(id));
      var fields := Fields(db, Key(keyPrefix, TagTable(id)));
      ReadTagsStored(HashAt(state.tags, id), fields);
      var tags := ReadTags(fields);
      r := Tags(tags);
    }

    method DeleteTag(id: Id, name: Id) returns (r: Reply)
      requires Valid()
      modifies this
      ensures Valid() && (state, r) == RedisStep(old(state), TemplateStore.DeleteTag(id, name))
    {
      var hashKey := Key(keyPrefix, TagTable(id));
      ReadSlot(db, keyPrefix, state, TagTable(id));
      var n := if name in Fields(db, hashKey) then 1 else 0;
      if n == 0 {
        assert Fields(db, hashKey) - {name} == Fields(db, hashKey);
        WriteSlot(db, keyPrefix, state, state, TagTable(id));
      } else {
        DropTagCell(db, keyPrefix, state, id, name);
      }
      db := HDel(db, hashKey, {name});
      if n == 0 {
        return Failed(TagNotFound);
      }
      state := state.(tags := state.tags[id := HashAt(state.tags, id) - {name}]);
      r := Done;
    }

    method DeleteTags(id: Id) returns (r: Reply)
      requires Valid()
      modifies this
      ensures Valid() && (state, r) == RedisStep(old(state), TemplateStore.DeleteTags(id))
    {
      DropTagTable(db, keyPrefix, state, id);
      db := Del(db, Key(keyPrefix, TagTable(id)));
      state := state.(tags := state.tags - {id});
      r := Done;
    }
  }
}
