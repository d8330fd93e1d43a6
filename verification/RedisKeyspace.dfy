/**
 The Redis keyspace under the template store (redis_store.go): its keys, the
 commands used on them, and how a keyspace holds the store's hashes and sets.
 */
module RedisKeyspace {
  import opened TemplateStore

  /** A hash field: a JSON document, or the template of an alias. */
  datatype Cell = EntryCell(entry: Entry) | BuildCell(build: Build) | TagCell(tag: Tag) | IdCell(id: Id)

  datatype Value = Hash(fields: map<string, Cell>) | Members(members: set<string>)

  type Keyspace = map<string, Value>

  // ------------------------------------------------ keys

  /** What a key stands for. */
  datatype Slot =
    | TemplateTable
    | BuildTable
    | AliasTable
    | BuildSet(id: Id)
    | AliasSet(id: Id)
    | TagTable(id: Id)

  function Suffix(slot: Slot): string {
    match slot
    case TemplateTable => "templates"
    case BuildTable => "builds"
    case AliasTable => "aliases"
    case BuildSet(id) => "template_builds:" + id
    case AliasSet(id) => "template_aliases:" + id
    case TagTable(id) => "tags:" + id
  }

  function Key(prefix: string, slot: Slot): string { prefix + Suffix(slot) }

  /** The kind of a slot can be read off its suffix. */
  function Kind(suffix: string): nat {
    if |suffix| < 5 then 6
    else if suffix[0] == 'b' then 1
    else if suffix[0] == 'a' then 2
    else if suffix[1] == 'a' then 5
    else if |suffix| < 10 then 0
    else if suffix[9] == 'b' then 3
    else 4
  }

  lemma KindOfSuffix(slot: Slot)
    ensures Kind(Suffix(slot)) ==
      match slot
      case TemplateTable => 0
      case BuildTable => 1
      case AliasTable => 2
      case BuildSet(_) => 3
      case AliasSet(_) => 4
      case TagTable(_) => 5
  {
    match slot {
      case BuildSet(id) => assert Suffix(slot)[..16] == "template_builds:" && Suffix(slot)[9] == "template_builds:"[9];
      case AliasSet(id) =>
        assert Suffix(slot)[..17] == "template_aliases:" && Suffix(slot)[9] == "template_aliases:"[9];
      case TagTable(id) => assert Suffix(slot)[..5] == "tags:";
      case _ =>
    }
  }

  /** Two keys of one store never collide, whatever the identifiers are. */
  lemma KeysDistinct(prefix: string, a: Slot, b: Slot)
    ensures Key(prefix, a) == Key(prefix, b) <==> a == b
  {
    if Key(prefix, a) == Key(prefix, b) {
      assert Key(prefix, a)[|prefix|..] == Suffix(a) && Key(prefix, b)[|prefix|..] == Suffix(b);
      KindOfSuffix(a);
      KindOfSuffix(b);
      match a {
        case BuildSet(id) => assert Suffix(a)[16..] == id && Suffix(b)[16..] == b.id;
        case AliasSet(id) => assert Suffix(a)[17..] == id && Suffix(b)[17..] == b.id;
        case TagTable(id) => assert Suffix(a)[5..] == id && Suffix(b)[5..] == b.id;
        case _ =>
      }
    }
  }

  // ------------------------------------------------ commands

  function Fields(db: Keyspace, k: string): map<string, Cell> {
    if k in db && db[k].Hash? then db[k].fields else map[]
  }

  /** SMEMBERS */
  function MembersOf(db: Keyspace, k: string): set<string> {
    if k in db && db[k].Members? then db[k].members else {}
  }

  predicate Void(v: Value) { v == Hash(map[]) || v == Members({}) }

  /** A hash or set that becomes empty is deleted with its key. */
  function Put(db: Keyspace, k: string, v: Value): Keyspace { if Void(v) then db - {k} else db[k := v] }

  function HSet(db: Keyspace, k: string, f: string, c: Cell): Keyspace { Put(db, k, Hash(Fields(db, k)[f := c])) }

  function HSetNX(db: Keyspace, k: string, f: string, c: Cell): Keyspace {
    if f in Fields(db, k) then db else HSet(db, k, f, c)
  }

  function HDel(db: Keyspace, k: string, fs: set<string>): Keyspace { Put(db, k, Hash(Fields(db, k) - fs)) }

  function SAdd(db: Keyspace, k: string, m: string): Keyspace { Put(db, k, Members(MembersOf(db, k) + {m})) }

  function SRem(db: Keyspace, k: string, m: string): Keyspace { Put(db, k, Members(MembersOf(db, k) - {m})) }

  function Del(db: Keyspace, k: string): Keyspace { db - {k} }

  // ------------------------------------------------ what the keyspace holds

  /** What the store keeps in a slot. */
  function Content(r: Redis, slot: Slot): Value {
    match slot
    case TemplateTable => Hash(map id | id in r.templates :: EntryCell(r.templates[id]))
    case BuildTable => Hash(map b | b in r.builds :: BuildCell(r.builds[b]))
    case AliasTable => Hash(map a | a in r.aliases :: IdCell(r.aliases[a]))
    case BuildSet(id) => Members(SetAt(r.templateBuilds, id))
    case AliasSet(id) => Members(SetAt(r.templateAliases, id))
    case TagTable(id) => Hash(map n | n in HashAt(r.tags, id) :: TagCell(HashAt(r.tags, id)[n]))
  }

  predicate Holds(db: Keyspace, k: string, v: Value) {
    if Void(v) then k !in db else k in db && db[k] == v
  }

  ghost predicate Represents(db: Keyspace, prefix: string, r: Redis) {
    forall slot :: Holds(db, Key(prefix, slot), Content(r, slot))
  }

  /** Reading a slot gives its content, never a value of the wrong type. */
  lemma ReadSlot(db: Keyspace, prefix: string, r: Redis, slot: Slot)
    requires Represents(db, prefix, r)
    ensures Content(r, slot).Hash? ==> Fields(db, Key(prefix, slot)) == Content(r, slot).fields
    ensures Content(r, slot).Members? ==> MembersOf(db, Key(prefix, slot)) == Content(r, slot).members
  {
    assert Holds(db, Key(prefix, slot), Content(r, slot));
  }

  /** Writing one slot leaves every other one as it is. */
  lemma WriteSlot(db: Keyspace, prefix: string, r: Redis, r': Redis, slot: Slot)
    requires Represents(db, prefix, r)
    requires forall other :: other != slot ==> Content(r', other) == Content(r, other)
    ensures Represents(Put(db, Key(prefix, slot), Content(r', slot)), prefix, r')
  {
    var db' := Put(db, Key(prefix, slot), Content(r', slot));
    forall other ensures Holds(db', Key(prefix, other), Content(r', other)) {
      KeysDistinct(prefix, slot, other);
      assert Holds(db, Key(prefix, other), Content(r, other));
    }
  }

  // ------------------------------------------------ each command as an update of the store

  lemma PutEntry(db: Keyspace, prefix: string, r: Redis, id: Id, e: Entry)
    requires Represents(db, prefix, r)
    ensures
      var r' := r.(templates := r.templates[id := e]);
      Represents(HSet(db, Key(prefix, TemplateTable), id, EntryCell(e)), prefix, r')
  {
    var r' := r.(templates := r.templates[id := e]);
    ReadSlot(db, prefix, r, TemplateTable);
    WriteSlot(db, prefix, r, r', TemplateTable);
    assert Content(r', TemplateTable) == Hash(Fields(db, Key(prefix, TemplateTable))[id := EntryCell(e)]);
  }

  lemma DropEntry(db: Keyspace, prefix: string, r: Redis, id: Id)
    requires Represents(db, prefix, r)
    ensures
      var r' := r.(templates := r.templates - {id});
      Represents(HDel(db, Key(prefix, TemplateTable), {id}), prefix, r')
  {
    var r' := r.(templates := r.templates - {id});
    ReadSlot(db, prefix, r, TemplateTable);
    WriteSlot(db, prefix, r, r', TemplateTable);
    assert Content(r', TemplateTable) == Hash(Fields(db, Key(prefix, TemplateTable)) - {id});
  }

  lemma PutBuild(db: Keyspace, prefix: string, r: Redis, b: Build)
    requires Represents(db, prefix, r)
    ensures
      var r' := r.(builds := r.builds[b.buildID := b]);
      Represents(HSet(db, Key(prefix, BuildTable), b.buildID, BuildCell(b)), prefix, r')
  {
    var r' := r.(builds := r.builds[b.buildID := b]);
    ReadSlot(db, prefix, r, BuildTable);
    WriteSlot(db, prefix, r, r', BuildTable);
    assert Content(r', BuildTable) == Hash(Fields(db, Key(prefix, BuildTable))[b.buildID := BuildCell(b)]);
  }

  lemma DropBuilds(db: Keyspace, prefix: string, r: Redis, ids: set<Id>)
    requires Represents(db, prefix, r)
    ensures
      var r' := r.(builds := r.builds - ids);
      Represents(HDel(db, Key(prefix, BuildTable), ids), prefix, r')
  {
    var r' := r.(builds := r.builds - ids);
    ReadSlot(db, prefix, r, BuildTable);
    WriteSlot(db, prefix, r, r', BuildTable);
    assert Content(r', BuildTable) == Hash(Fields(db, Key(prefix, BuildTable)) - ids);
  }

  lemma PutAlias(db: Keyspace, prefix: string, r: Redis, a: Id, id: Id)
    requires Represents(db, prefix, r)
    ensures
      var r' := r.(aliases := r.aliases[a := id]);
      Represents(HSet(db, Key(prefix, AliasTable), a, IdCell(id)), prefix, r')
  {
    var r' := r.(aliases := r.aliases[a := id]);
    ReadSlot(db, prefix, r, AliasTable);
    WriteSlot(db, prefix, r, r', AliasTable);
    assert Content(r', AliasTable) == Hash(Fields(db, Key(prefix, AliasTable))[a := IdCell(id)]);
  }

  lemma DropAliases(db: Keyspace, prefix: string, r: Redis, ids: set<Id>)
    requires Represents(db, prefix, r)
    ensures
      var r' := r.(aliases := r.aliases - ids);
      Represents(HDel(db, Key(prefix, AliasTable), ids), prefix, r')
  {
    var r' := r.(aliases := r.aliases - ids);
    ReadSlot(db, prefix, r, AliasTable);
    WriteSlot(db, prefix, r, r', AliasTable);
    assert Content(r', AliasTable) == Hash(Fields(db, Key(prefix, AliasTable)) - ids);
  }

  lemma FileBuild(db: Keyspace, prefix: string, r: Redis, id: Id, b: Id)
    requires Represents(db, prefix, r)
    ensures
      var r' := r.(templateBuilds := r.templateBuilds[id := SetAt(r.templateBuilds, id) + {b}]);
      Represents(SAdd(db, Key(prefix, BuildSet(id)), b), prefix, r')
  {
    var r' := r.(templateBuilds := r.templateBuilds[id := SetAt(r.templateBuilds, id) + {b}]);
    ReadSlot(db, prefix, r, BuildSet(id));
    WriteSlot(db, prefix, r, r', BuildSet(id));
    assert Content(r', BuildSet(id)) == Members(MembersOf(db, Key(prefix, BuildSet(id))) + {b});
  }

  lemma UnfileBuilds(db: Keyspace, prefix: string, r: Redis, id: Id)
    requires Represents(db, prefix, r)
    ensures
      var r' := r.(templateBuilds := r.templateBuilds - {id});
      Represents(Del(db, Key(prefix, BuildSet(id))), prefix, r')
  {
    var r' := r.(templateBuilds := r.templateBuilds - {id});
    ReadSlot(db, prefix, r, BuildSet(id));
    WriteSlot(db, prefix, r, r', BuildSet(id));
    assert Content(r', BuildSet(id)) == Members({});
  }

  lemma ListAlias(db: Keyspace, prefix: string, r: Redis, id: Id, a: Id)
    requires Represents(db, prefix, r)
    ensures
      var r' := r.(templateAliases := r.templateAliases[id := SetAt(r.templateAliases, id) + {a}]);
      Represents(SAdd(db, Key(prefix, AliasSet(id)), a), prefix, r')
  {
    var r' := r.(templateAliases := r.templateAliases[id := SetAt(r.templateAliases, id) + {a}]);
    ReadSlot(db, prefix, r, AliasSet(id));
    WriteSlot(db, prefix, r, r', AliasSet(id));
    assert Content(r', AliasSet(id)) == Members(MembersOf(db, Key(prefix, AliasSet(id))) + {a});
  }

  lemma UnlistAlias(db: Keyspace, prefix: string, r: Redis, id: Id, a: Id)
    requires Represents(db, prefix, r)
    ensures
      var r' := r.(templateAliases := r.templateAliases[id := SetAt(r.templateAliases, id) - {a}]);
      Represents(SRem(db, Key(prefix, AliasSet(id)), a), prefix, r')
  {
    var r' := r.(templateAliases := r.templateAliases[id := SetAt(r.templateAliases, id) - {a}]);
    ReadSlot(db, prefix, r, AliasSet(id));
    WriteSlot(db, prefix, r, r', AliasSet(id));
    assert Content(r', AliasSet(id)) == Members(MembersOf(db, Key(prefix, AliasSet(id))) - {a});
  }

  lemma UnlistAliases(db: Keyspace, prefix: string, r: Redis, id: Id)
    requires Represents(db, prefix, r)
    ensures
      var r' := r.(templateAliases := r.templateAliases - {id});
      Represents(Del(db, Key(prefix, AliasSet(id))), prefix, r')
  {
    var r' := r.(templateAliases := r.templateAliases - {id});
    ReadSlot(db, prefix, r, AliasSet(id));
    WriteSlot(db, prefix, r, r', AliasSet(id));
    assert Content(r', AliasSet(id)) == Members({});
  }

  lemma PutTagCell(db: Keyspace, prefix: string, r: Redis, id: Id, t: Tag)
    requires Represents(db, prefix, r)
    ensures
      var r' := r.(tags := r.tags[id := HashAt(r.tags, id)[t.name := t]]);
      Represents(HSet(db, Key(prefix, TagTable(id)), t.name, TagCell(t)), prefix, r')
  {
    var r' := r.(tags := r.tags[id := HashAt(r.tags, id)[t.name := t]]);
    ReadSlot(db, prefix, r, TagTable(id));
    WriteSlot(db, prefix, r, r', TagTable(id));
    assert Content(r', TagTable(id)) == Hash(Fields(db, Key(prefix, TagTable(id)))[t.name := TagCell(t)]);
  }

  lemma DropTagCell(db: Keyspace, prefix: string, r: Redis, id: Id, n: Id)
    requires Represents(db, prefix, r)
    ensures
      var r' := r.(tags := r.tags[id := HashAt(r.tags, id) - {n}]);
      Represents(HDel(db, Key(prefix, TagTable(id)), {n}), prefix, r')
  {
    var r' := r.(tags := r.tags[id := HashAt(r.tags, id) - {n}]);
    ReadSlot(db, prefix, r, TagTable(id));
    WriteSlot(db, prefix, r, r', TagTable(id));
    assert Content(r', TagTable(id)) == Hash(Fields(db, Key(prefix, TagTable(id))) - {n});
  }

  lemma DropTagTable(db: Keyspace, prefix: string, r: Redis, id: Id)
    requires Represents(db, prefix, r)
    ensures
      var r' := r.(tags := r.tags - {id});
      Represents(Del(db, Key(prefix, TagTable(id))), prefix, r')
  {
    var r' := r.(tags := r.tags - {id});
    ReadSlot(db, prefix, r, TagTable(id));
    WriteSlot(db, prefix, r, r', TagTable(id));
    assert Content(r', TagTable(id)) == Hash(map[]);
  }

  lemma EmptyRepresents(prefix: string)
    ensures Represents(map[], prefix, EMPTY_REDIS)
  {
  }
}
