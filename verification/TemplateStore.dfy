/**
 The template store of internal/adapter/opensandbox: its operations, and what the
 in-memory store (memory_store.go) and the Redis store (redis_store.go) do for
 each.  JSON values are stored as themselves.
 */
module TemplateStore {
  import opened Wrappers

  type Id = string

  datatype Entry = Entry(
    templateID: Id, name: string, imageURI: string, dockerfile: string, startCmd: string,
    cpuCount: int, memoryMB: int, buildID: Id, createdAt: int, metadata: map<string, string>)

  datatype Build = Build(buildID: Id, status: string, logs: string, error: string)

  datatype Tag = Tag(name: Id, templateID: Id, buildID: Id, createdAt: int)

  datatype Error =
    | TemplateNotFound | TemplateExists | BuildNotFound | AliasNotFound | TagNotFound
    | UpdateFailed(message: string)

  datatype Op =
    | CreateTemplate(entry: Entry)
    | GetTemplate(id: Id)
    | ListTemplates
    | UpdateTemplate(id: Id, update: Entry -> Result<Entry, string>)
    | DeleteTemplate(id: Id)
    | SaveBuild(id: Id, build: Build)
    | GetBuild(buildID: Id)
    | ListBuilds(id: Id)
    | DeleteBuilds(id: Id)
    | AddAlias(id: Id, alias: Id)
    | RemoveAlias(id: Id, alias: Id)
    | ListAliases(id: Id)
    | ResolveAlias(alias: Id)
    | DeleteAliases(id: Id)
    | SaveTag(id: Id, tag: Tag)
    | ListTags(id: Id)
    | DeleteTag(id: Id, name: Id)
    | DeleteTags(id: Id)

  /** Results; lists are compared as sets. */
  datatype Reply =
    | Done
    | Failed(error: Error)
    | OneTemplate(entry: Entry)
    | Templates(entries: set<Entry>)
    | OneBuild(build: Build)
    | Builds(builds: set<Build>)
    | Aliases(aliases: set<Id>)
    | Resolved(id: Id)
    | Tags(tags: set<Tag>)

  function SetAt<K(==)>(m: map<K, set<Id>>, k: K): set<Id> { if k in m then m[k] else {} }
  function SeqAt<T>(m: map<Id, seq<T>>, k: Id): seq<T> { if k in m then m[k] else [] }
  function Elements<T>(s: seq<T>): set<T> { set x | x in s }

  // ------------------------------------------------ the in-memory store

  datatype Memory = Memory(
    templates: map<Id, Entry>,
    builds: map<Id, Build>,
    templateBuilds: map<Id, set<Id>>,
    aliases: map<Id, seq<Id>>,
    aliasReverse: map<Id, Id>,
    tags: map<Id, seq<Tag>>)

  const EMPTY_MEMORY := Memory(map[], map[], map[], map[], map[], map[])

  /** The first index of `x`, or the length. */
  function IndexOf(s: seq<Id>, x: Id): (i: nat)
    ensures i <= |s| && (i < |s| ==> s[i] == x) && x !in s[..i]
    ensures i == |s| <==> x !in s
  {
    if s == [] then 0 else if s[0] == x then 0 else IndexOf(s[1..], x) + 1
  }

  /** The first index of a tag of that name, or the length. */
  function TagIndex(s: seq<Tag>, name: Id): (i: nat)
    ensures i <= |s| && (i < |s| ==> s[i].name == name)
    ensures forall j :: 0 <= j < i ==> s[j].name != name
  {
    if s == [] then 0 else if s[0].name == name then 0 else TagIndex(s[1..], name) + 1
  }

  function Cut<T>(s: seq<T>, i: nat): seq<T>
    requires i < |s|
  {
    s[..i] + s[i + 1..]
  }

  function PutTag(s: seq<Tag>, tag: Tag): seq<Tag> {
    var i := TagIndex(s, tag.name);
    if i < |s| then s[i := tag] else s + [tag]
  }

  function MemoryStep(s: Memory, op: Op): (Memory, Reply) {
    match op
    case CreateTemplate(e) =>
      if e.templateID in s.templates then (s, Failed(TemplateExists))
      else (s.(templates := s.templates[e.templateID := e]), Done)
    case GetTemplate(id) =>
      (s, if id in s.templates then OneTemplate(s.templates[id]) else Failed(TemplateNotFound))
    case ListTemplates => (s, Templates(s.templates.Values))
    case UpdateTemplate(id, update) =>
      if id !in s.templates then (s, Failed(TemplateNotFound))
      else
        (match update(s.templates[id])
         case Err(message) => (s, Failed(UpdateFailed(message)))
         case Ok(e) => (s.(templates := s.templates[id := e]), Done))
    case DeleteTemplate(id) =>
      if id !in s.templates then (s, Failed(TemplateNotFound))
      else (s.(templates := s.templates - {id}), Done)
    case SaveBuild(id, b) =>
      (s.(builds := s.builds[b.buildID := b],
          templateBuilds := s.templateBuilds[id := SetAt(s.templateBuilds, id) + {b.buildID}]), Done)
    case GetBuild(b) => (s, if b in s.builds then OneBuild(s.builds[b]) else Failed(BuildNotFound))
    case ListBuilds(id) =>
      (s, Builds(set b | b in SetAt(s.templateBuilds, id) && b in s.builds :: s.builds[b]))
    case DeleteBuilds(id) =>
      (s.(builds := s.builds - SetAt(s.templateBuilds, id), templateBuilds := s.templateBuilds - {id}), Done)
    case AddAlias(id, alias) =>
      var aliases := SeqAt(s.aliases, id);
      if alias in aliases then (s, Done)
      else (s.(aliases := s.aliases[id := aliases + [alias]], aliasReverse := s.aliasReverse[alias := id]), Done)
    case RemoveAlias(id, alias) =>
      var aliases := SeqAt(s.aliases, id);
      if alias !in aliases then (s, Failed(AliasNotFound))
      else (s.(aliases := s.aliases[id := Cut(aliases, IndexOf(aliases, alias))],
               aliasReverse := s.aliasReverse - {alias}), Done)
    case ListAliases(id) => (s, Aliases(Elements(SeqAt(s.aliases, id))))
    case ResolveAlias(alias) =>
      (s, if alias in s.aliasReverse then Resolved(s.aliasReverse[alias]) else Failed(AliasNotFound))
    case DeleteAliases(id) =>
      (s.(aliases := s.aliases - {id}, aliasReverse := s.aliasReverse - Elements(SeqAt(s.aliases, id))), Done)
    case SaveTag(id, tag) => (s.(tags := s.tags[id := PutTag(SeqAt(s.tags, id), tag)]), Done)
    case ListTags(id) => (s, Tags(Elements(SeqAt(s.tags, id))))
    case DeleteTag(id, name) =>
      var tags := SeqAt(s.tags, id);
      if TagIndex(tags, name) == |tags| then (s, Failed(TagNotFound))
      else (s.(tags := s.tags[id := Cut(tags, TagIndex(tags, name))]), Done)
    case DeleteTags(id) => (s.(tags := s.tags - {id}), Done)
  }

  // ------------------------------------------------ the Redis store

  /** The keys of the Redis layout: hashes and sets. */
  datatype Redis = Redis(
    templates: map<Id, Entry>,
    builds: map<Id, Build>,
    templateBuilds: map<Id, set<Id>>,
    aliases: map<Id, Id>,
    templateAliases: map<Id, set<Id>>,
    tags: map<Id, map<Id, Tag>>)

  const EMPTY_REDIS := Redis(map[], map[], map[], map[], map[], map[])

  function HashAt(m: map<Id, map<Id, Tag>>, k: Id): map<Id, Tag> { if k in m then m[k] else map[] }

  function RedisStep(s: Redis, op: Op): (Redis, Reply) {
    match op
    case CreateTemplate(e) =>
      if e.templateID in s.templates then (s, Failed(TemplateExists))
      else (s.(templates := s.templates[e.templateID := e]), Done)
    case GetTemplate(id) =>
      (s, if id in s.templates then OneTemplate(s.templates[id]) else Failed(TemplateNotFound))
    case ListTemplates => (s, Templates(s.templates.Values))
    case UpdateTemplate(id, update) =>
      if id !in s.templates then (s, Failed(TemplateNotFound))
      else
        (match update(s.templates[id])
         case Err(message) => (s, Failed(UpdateFailed(message)))
         case Ok(e) => (s.(templates := s.templates[id := e]), Done))
    case DeleteTemplate(id) =>
      if id !in s.templates then (s, Failed(TemplateNotFound))
      else (s.(templates := s.templates - {id}), Done)
    case SaveBuild(id, b) =>
      (s.(builds := s.builds[b.buildID := b],
          templateBuilds := s.templateBuilds[id := SetAt(s.templateBuilds, id) + {b.buildID}]), Done)
    case GetBuild(b) => (s, if b in s.builds then OneBuild(s.builds[b]) else Failed(BuildNotFound))
    case ListBuilds(id) =>
      (s, Builds(set b | b in SetAt(s.templateBuilds, id) && b in s.builds :: s.builds[b]))
    case DeleteBuilds(id) =>
      var ids := SetAt(s.templateBuilds, id);
      if ids == {} then (s, Done)
      else (s.(builds := s.builds - ids, templateBuilds := s.templateBuilds - {id}), Done)
    case AddAlias(id, alias) =>
      (s.(aliases := if alias in s.aliases then s.aliases else s.aliases[alias := id],
          templateAliases := s.templateAliases[id := SetAt(s.templateAliases, id) + {alias}]), Done)
    case RemoveAlias(id, alias) =>
      if alias !in SetAt(s.templateAliases, id) then (s, Failed(AliasNotFound))
      else (s.(templateAliases := s.templateAliases[id := SetAt(s.templateAliases, id) - {alias}],
               aliases := s.aliases - {alias}), Done)
    case ListAliases(id) => (s, Aliases(SetAt(s.templateAliases, id)))
    case ResolveAlias(alias) =>
      (s, if alias in s.aliases then Resolved(s.aliases[alias]) else Failed(AliasNotFound))
    case DeleteAliases(id) =>
      var aliases := SetAt(s.templateAliases, id);
      if aliases == {} then (s, Done)
      else (s.(aliases := s.aliases - aliases, templateAliases := s.templateAliases - {id}), Done)
    case SaveTag(id, tag) => (s.(tags := s.tags[id := HashAt(s.tags, id)[tag.name := tag]]), Done)
    case ListTags(id) => (s, Tags(HashAt(s.tags, id).Values))
    case DeleteTag(id, name) =>
      if name !in HashAt(s.tags, id) then (s, Failed(TagNotFound))
      else (s.(tags := s.tags[id := HashAt(s.tags, id) - {name}]), Done)
    case DeleteTags(id) => (s.(tags := s.tags - {id}), Done)
  }
}
