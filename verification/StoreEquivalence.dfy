/** The two template stores give the same answers, and exactly when they stop doing so. */
module StoreEquivalence {
  import opened TemplateStore

  // ------------------------------------------------ lists that stand for sets and hashes

  predicate NoDuplicates(s: seq<Id>) {
    forall i, j :: 0 <= i < j < |s| ==> s[i] != s[j]
  }

  lemma AppendElements(s: seq<Id>, x: Id)
    requires NoDuplicates(s) && x !in s
    ensures NoDuplicates(s + [x]) && Elements(s + [x]) == Elements(s) + {x}
  {
  }

  lemma CutAt(s: seq<Id>, i: nat, j: nat)
    requires i < |s| && j < |s| - 1
    ensures Cut(s, i)[j] == s[if j < i then j else j + 1]
  {
  }

  lemma CutDistinct(s: seq<Id>, i: nat)
    requires NoDuplicates(s) && i < |s|
    ensures NoDuplicates(Cut(s, i)) && s[i] !in Cut(s, i)
  {
    var c := Cut(s, i);
    forall j, k | 0 <= j < k < |c| ensures c[j] != c[k] {
      CutAt(s, i, j);
      CutAt(s, i, k);
    }
    forall j | 0 <= j < |c| ensures c[j] != s[i] {
      CutAt(s, i, j);
    }
  }

  lemma CutElements(s: seq<Id>, x: Id)
    requires NoDuplicates(s) && x in s
    ensures NoDuplicates(Cut(s, IndexOf(s, x))) && Elements(Cut(s, IndexOf(s, x))) == Elements(s) - {x}
  {
    var i := IndexOf(s, x);
    var c := Cut(s, i);
    CutDistinct(s, i);
    forall y | y in s && y != x ensures y in c {
      var j :| 0 <= j < |s| && s[j] == y;
      CutAt(s, i, if j < i then j else j - 1);
    }
    forall y | y in c ensures y in s {
      var j :| 0 <= j < |c| && c[j] == y;
      CutAt(s, i, j);
    }
  }

  /** A list of tags with one tag per name, as a hash. */
  predicate TagsMatch(s: seq<Tag>, h: map<Id, Tag>) {
    && (forall i, j :: 0 <= i < j < |s| ==> s[i].name != s[j].name)
    && (forall i :: 0 <= i < |s| ==> s[i].name in h && h[s[i].name] == s[i])
    && (forall n :: n in h ==> h[n].name == n && h[n] in s)
  }

  lemma PutTagMatches(s: seq<Tag>, h: map<Id, Tag>, tag: Tag)
    requires TagsMatch(s, h)
    ensures TagsMatch(PutTag(s, tag), h[tag.name := tag])
  {
    var i, s', h' := TagIndex(s, tag.name), PutTag(s, tag), h[tag.name := tag];
    assert tag in s' by { assert s'[i] == tag; }
    forall n | n in h' ensures h'[n].name == n && h'[n] in s' {
      if n != tag.name {
        var j :| 0 <= j < |s| && s[j] == h[n];
        assert s'[j] == h[n];
      }
    }
  }

  lemma CutTagMatches(s: seq<Tag>, h: map<Id, Tag>, i: nat)
    requires TagsMatch(s, h) && i < |s|
    ensures TagsMatch(Cut(s, i), h - {s[i].name})
  {
    var s', h' := Cut(s, i), h - {s[i].name};
    forall n | n in h' ensures h'[n].name == n && h'[n] in s' {
      var j :| 0 <= j < |s| && s[j] == h[n];
      assert if j < i then s'[j] == h[n] else s'[j - 1] == h[n];
    }
  }

  lemma TagElements(s: seq<Tag>, h: map<Id, Tag>)
    requires TagsMatch(s, h)
    ensures Elements(s) == h.Values
  {
    forall t | t in Elements(s) ensures t in h.Values {
      var i :| 0 <= i < |s| && s[i] == t;
      assert t.name in h && h[t.name] == t;
    }
  }

  // ------------------------------------------------ the simulation relation

  ghost predicate BuildsRelated(m: Memory, r: Redis) {
    && m.templates == r.templates && m.builds == r.builds
    && forall id :: SetAt(m.templateBuilds, id) == SetAt(r.templateBuilds, id)
  }

  ghost predicate AliasesRelated(m: Memory, r: Redis) {
    && m.aliasReverse == r.aliases
    && forall id :: AliasListRelated(m, r, id)
  }

  predicate AliasListRelated(m: Memory, r: Redis, id: Id) {
    NoDuplicates(SeqAt(m.aliases, id)) && Elements(SeqAt(m.aliases, id)) == SetAt(r.templateAliases, id)
  }

  ghost predicate TagsRelated(m: Memory, r: Redis) {
    forall id :: TagListRelated(m, r, id)
  }

  predicate TagListRelated(m: Memory, r: Redis, id: Id) {
    TagsMatch(SeqAt(m.tags, id), HashAt(r.tags, id))
  }

  predicate InverseAt(m: Memory, id: Id, a: Id) {
    ListsAlias(m, id, a) <==> (a in m.aliasReverse && m.aliasReverse[a] == id)
  }

  /** The forward and reverse alias indexes are exact inverses. */
  ghost predicate Inverse(m: Memory) { forall id, a :: InverseAt(m, id, a) }

  predicate ListsAlias(m: Memory, id: Id, a: Id) { a in SeqAt(m.aliases, id) }

  ghost predicate Related(m: Memory, r: Redis) {
    BuildsRelated(m, r) && AliasesRelated(m, r) && TagsRelated(m, r) && Inverse(m)
  }

  /** No other template holds the alias that is being added. */
  ghost predicate Unclaimed(m: Memory, op: Op) {
    op.AddAlias? ==> forall id :: id != op.id ==> !ListsAlias(m, id, op.alias)
  }

  predicate TouchesAliases(op: Op) {
    op.AddAlias? || op.RemoveAlias? || op.DeleteAliases?
  }

  predicate TouchesTags(op: Op) {
    op.SaveTag? || op.DeleteTag? || op.DeleteTags?
  }

  predicate TouchesBuilds(op: Op) {
    op.CreateTemplate? || op.UpdateTemplate? || op.DeleteTemplate? || op.SaveBuild? || op.DeleteBuilds?
  }

  /** Which part of either store an operation can change. */
  lemma MemoryFrame(m: Memory, op: Op)
    ensures var m' := MemoryStep(m, op).0;
      && (!TouchesBuilds(op) ==>
           m'.templates == m.templates && m'.builds == m.builds && m'.templateBuilds == m.templateBuilds)
      && (!TouchesAliases(op) ==> m'.aliases == m.aliases && m'.aliasReverse == m.aliasReverse)
      && (!TouchesTags(op) ==> m'.tags == m.tags)
  {
  }

  lemma RedisFrame(r: Redis, op: Op)
    ensures var r' := RedisStep(r, op).0;
      && (!TouchesBuilds(op) ==>
           r'.templates == r.templates && r'.builds == r.builds && r'.templateBuilds == r.templateBuilds)
      && (!TouchesAliases(op) ==> r'.templateAliases == r.templateAliases && r'.aliases == r.aliases)
      && (!TouchesTags(op) ==> r'.tags == r.tags)
  {
  }

  lemma SaveBuildStep(m: Memory, r: Redis, id: Id, b: Build)
    requires BuildsRelated(m, r)
    ensures BuildsRelated(MemoryStep(m, SaveBuild(id, b)).0, RedisStep(r, SaveBuild(id, b)).0)
  {
    assert SetAt(m.templateBuilds, id) == SetAt(r.templateBuilds, id);
    var m', r' := MemoryStep(m, SaveBuild(id, b)).0, RedisStep(r, SaveBuild(id, b)).0;
    forall x ensures SetAt(m'.templateBuilds, x) == SetAt(r'.templateBuilds, x) {
      assert SetAt(m.templateBuilds, x) == SetAt(r.templateBuilds, x);
    }
  }

  lemma DeleteBuildsStep(m: Memory, r: Redis, id: Id)
    requires BuildsRelated(m, r)
    ensures BuildsRelated(MemoryStep(m, DeleteBuilds(id)).0, RedisStep(r, DeleteBuilds(id)).0)
  {
    assert SetAt(m.templateBuilds, id) == SetAt(r.templateBuilds, id);
    var m', r' := MemoryStep(m, DeleteBuilds(id)).0, RedisStep(r, DeleteBuilds(id)).0;
    forall x ensures SetAt(m'.templateBuilds, x) == SetAt(r'.templateBuilds, x) {
      assert SetAt(m.templateBuilds, x) == SetAt(r.templateBuilds, x);
    }
  }

  lemma BuildStep(m: Memory, r: Redis, op: Op)
    requires BuildsRelated(m, r)
    ensures BuildsRelated(MemoryStep(m, op).0, RedisStep(r, op).0)
  {
    if !TouchesBuilds(op) {
      MemoryFrame(m, op);
      RedisFrame(r, op);
    } else {
      match op {
        case SaveBuild(id, b) => SaveBuildStep(m, r, id, b);
        case DeleteBuilds(id) => DeleteBuildsStep(m, r, id);
        case _ =>
      }
    }
  }

  lemma TagsElsewhere(m: Memory, r: Redis, m': Memory, r': Redis, id: Id)
    requires TagsRelated(m, r) && TagListRelated(m', r', id)
    requires forall x :: x != id ==> SeqAt(m'.tags, x) == SeqAt(m.tags, x) && HashAt(r'.tags, x) == HashAt(r.tags, x)
    ensures TagsRelated(m', r')
  {
    forall x ensures TagListRelated(m', r', x) {
      assert TagListRelated(m, r, x);
    }
  }

  lemma TagPresent(s: seq<Tag>, h: map<Id, Tag>, name: Id)
    requires TagsMatch(s, h)
    ensures TagIndex(s, name) < |s| <==> name in h
  {
    assert name in h ==> h[name] in s;
  }

  /** Cutting a tag from the list and deleting its field. */
  lemma CutTagRelated(m: Memory, r: Redis, m': Memory, r': Redis, id: Id, i: nat)
    requires TagListRelated(m, r, id) && i < |SeqAt(m.tags, id)|
    requires SeqAt(m'.tags, id) == Cut(SeqAt(m.tags, id), i)
    requires HashAt(r'.tags, id) == HashAt(r.tags, id) - {SeqAt(m.tags, id)[i].name}
    ensures TagListRelated(m', r', id)
  {
    CutTagMatches(SeqAt(m.tags, id), HashAt(r.tags, id), i);
  }

  lemma DeletePresentTag(m: Memory, r: Redis, id: Id, name: Id)
    requires TagsRelated(m, r) && TagIndex(SeqAt(m.tags, id), name) < |SeqAt(m.tags, id)|
    ensures
      var s := SeqAt(m.tags, id);
      TagsRelated(m.(tags := m.tags[id := Cut(s, TagIndex(s, name))]),
                  r.(tags := r.tags[id := HashAt(r.tags, id) - {name}]))
  {
    var s, h := SeqAt(m.tags, id), HashAt(r.tags, id);
    var i := TagIndex(s, name);
    var m', r' := m.(tags := m.tags[id := Cut(s, i)]), r.(tags := r.tags[id := h - {name}]);
    assert TagListRelated(m, r, id);
    CutTagRelated(m, r, m', r', id, i);
    TagsElsewhere(m, r, m', r', id);
  }

  lemma DeleteTagStep(m: Memory, r: Redis, id: Id, name: Id)
    requires TagsRelated(m, r)
    ensures TagsRelated(MemoryStep(m, DeleteTag(id, name)).0, RedisStep(r, DeleteTag(id, name)).0)
    ensures MemoryStep(m, DeleteTag(id, name)).1 == RedisStep(r, DeleteTag(id, name)).1
  {
    assert TagListRelated(m, r, id);
    TagPresent(SeqAt(m.tags, id), HashAt(r.tags, id), name);
    if TagIndex(SeqAt(m.tags, id), name) < |SeqAt(m.tags, id)| {
      DeletePresentTag(m, r, id, name);
    }
  }

  lemma SaveTagStep(m: Memory, r: Redis, id: Id, tag: Tag)
    requires TagsRelated(m, r)
    ensures TagsRelated(MemoryStep(m, SaveTag(id, tag)).0, RedisStep(r, SaveTag(id, tag)).0)
  {
    var s, h := SeqAt(m.tags, id), HashAt(r.tags, id);
    assert TagListRelated(m, r, id);
    PutTagMatches(s, h, tag);
    TagsElsewhere(m, r, m.(tags := m.tags[id := PutTag(s, tag)]), r.(tags := r.tags[id := h[tag.name := tag]]), id);
  }

  lemma DeleteTagsStep(m: Memory, r: Redis, id: Id)
    requires TagsRelated(m, r)
    ensures TagsRelated(MemoryStep(m, DeleteTags(id)).0, RedisStep(r, DeleteTags(id)).0)
  {
    TagsElsewhere(m, r, m.(tags := m.tags - {id}), r.(tags := r.tags - {id}), id);
  }

  lemma OtherTagStep(m: Memory, r: Redis, op: Op)
    requires TagsRelated(m, r) && !TouchesTags(op)
    ensures TagsRelated(MemoryStep(m, op).0, RedisStep(r, op).0)
    ensures op.ListTags? ==> MemoryStep(m, op).1 == RedisStep(r, op).1
  {
    MemoryFrame(m, op);
    RedisFrame(r, op);
    var m', r' := MemoryStep(m, op).0, RedisStep(r, op).0;
    forall id ensures TagListRelated(m', r', id) {
      assert TagListRelated(m, r, id);
    }
    if op.ListTags? {
      assert TagListRelated(m, r, op.id);
      TagElements(SeqAt(m.tags, op.id), HashAt(r.tags, op.id));
    }
  }

  lemma TagStep(m: Memory, r: Redis, op: Op)
    requires TagsRelated(m, r)
    ensures TagsRelated(MemoryStep(m, op).0, RedisStep(r, op).0)
    ensures op.DeleteTag? || op.ListTags? ==> MemoryStep(m, op).1 == RedisStep(r, op).1
  {
    if !TouchesTags(op) {
      OtherTagStep(m, r, op);
    } else {
      match op {
        case SaveTag(id, tag) => SaveTagStep(m, r, id, tag);
        case DeleteTag(id, name) => DeleteTagStep(m, r, id, name);
        case DeleteTags(id) => DeleteTagsStep(m, r, id);
      }
    }
  }

  lemma AliasesElsewhere(m: Memory, r: Redis, m': Memory, r': Redis, id: Id)
    requires AliasesRelated(m, r) && m'.aliasReverse == r'.aliases && AliasListRelated(m', r', id)
    requires forall x :: x != id ==>
      SeqAt(m'.aliases, x) == SeqAt(m.aliases, x) && SetAt(r'.templateAliases, x) == SetAt(r.templateAliases, x)
    ensures AliasesRelated(m', r')
  {
    forall x ensures AliasListRelated(m', r', x) {
      assert AliasListRelated(m, r, x);
    }
  }

  lemma AddAliasStep(m: Memory, r: Redis, id: Id, a: Id)
    requires AliasesRelated(m, r) && Inverse(m) && Unclaimed(m, AddAlias(id, a))
    ensures AliasesRelated(MemoryStep(m, AddAlias(id, a)).0, RedisStep(r, AddAlias(id, a)).0)
  {
    var s := SeqAt(m.aliases, id);
    assert AliasListRelated(m, r, id);
    assert InverseAt(m, id, a);
    if a in m.aliasReverse {
      assert InverseAt(m, m.aliasReverse[a], a);
    }
    if a in s {
      assert a in Elements(s);
    } else {
      AppendElements(s, a);
    }
    AliasesElsewhere(m, r, MemoryStep(m, AddAlias(id, a)).0, RedisStep(r, AddAlias(id, a)).0, id);
  }

  lemma RemoveAliasStep(m: Memory, r: Redis, id: Id, a: Id)
    requires AliasesRelated(m, r)
    ensures AliasesRelated(MemoryStep(m, RemoveAlias(id, a)).0, RedisStep(r, RemoveAlias(id, a)).0)
    ensures MemoryStep(m, RemoveAlias(id, a)).1 == RedisStep(r, RemoveAlias(id, a)).1
  {
    var s := SeqAt(m.aliases, id);
    assert AliasListRelated(m, r, id);
    assert a in s <==> a in Elements(s);
    if a in s {
      CutElements(s, a);
      AliasesElsewhere(m, r, MemoryStep(m, RemoveAlias(id, a)).0, RedisStep(r, RemoveAlias(id, a)).0, id);
    }
  }

  lemma DeleteAliasesStep(m: Memory, r: Redis, id: Id)
    requires AliasesRelated(m, r)
    ensures AliasesRelated(MemoryStep(m, DeleteAliases(id)).0, RedisStep(r, DeleteAliases(id)).0)
  {
    assert AliasListRelated(m, r, id);
    assert Elements<Id>([]) == {};
    AliasesElsewhere(m, r, MemoryStep(m, DeleteAliases(id)).0, RedisStep(r, DeleteAliases(id)).0, id);
  }

  lemma AliasStep(m: Memory, r: Redis, op: Op)
    requires AliasesRelated(m, r) && Inverse(m) && TouchesAliases(op) && Unclaimed(m, op)
    ensures AliasesRelated(MemoryStep(m, op).0, RedisStep(r, op).0)
    ensures MemoryStep(m, op).1 == RedisStep(r, op).1
  {
    match op {
      case AddAlias(id, a) => AddAliasStep(m, r, id, a);
      case RemoveAlias(id, a) => RemoveAliasStep(m, r, id, a);
      case DeleteAliases(id) => DeleteAliasesStep(m, r, id);
    }
  }

  lemma AddAliasInverse(m: Memory, id: Id, a: Id, id': Id, a': Id)
    requires Unclaimed(m, AddAlias(id, a)) && InverseAt(m, id', a')
    ensures InverseAt(MemoryStep(m, AddAlias(id, a)).0, id', a')
  {
  }

  lemma RemoveAliasInverse(m: Memory, id: Id, a: Id, id': Id, a': Id)
    requires Inverse(m) && NoDuplicates(SeqAt(m.aliases, id))
    ensures InverseAt(MemoryStep(m, RemoveAlias(id, a)).0, id', a')
  {
    var s := SeqAt(m.aliases, id);
    assert InverseAt(m, id', a') && InverseAt(m, id, a);
    if a in s {
      CutElements(s, a);
      var c := Cut(s, IndexOf(s, a));
      assert a' in c <==> a' in Elements(c);
    }
  }

  lemma DeleteAliasesInverse(m: Memory, id: Id, id': Id, a': Id)
    requires InverseAt(m, id', a') && InverseAt(m, id, a')
    ensures InverseAt(MemoryStep(m, DeleteAliases(id)).0, id', a')
  {
    assert a' in SeqAt(m.aliases, id) <==> a' in Elements(SeqAt(m.aliases, id));
  }

  lemma InverseStep(m: Memory, op: Op)
    requires Inverse(m) && Unclaimed(m, op)
    requires forall id :: NoDuplicates(SeqAt(m.aliases, id))
    ensures Inverse(MemoryStep(m, op).0)
  {
    var m' := MemoryStep(m, op).0;
    forall id, a ensures ListsAlias(m', id, a) <==> (a in m'.aliasReverse && m'.aliasReverse[a] == id) {
      assert InverseAt(m, id, a);
      if TouchesAliases(op) {
        assert InverseAt(m, op.id, a);
        match op {
          case AddAlias(x, y) => AddAliasInverse(m, x, y, id, a);
          case RemoveAlias(x, y) => RemoveAliasInverse(m, x, y, id, a);
          case DeleteAliases(x) => DeleteAliasesInverse(m, x, id, a);
        }
      } else {
        MemoryFrame(m, op);
      }
    }
  }

  /** One operation on related stores: the same answer, and related stores again. */
  lemma StepsAgree(m: Memory, r: Redis, op: Op)
    requires Related(m, r) && Unclaimed(m, op)
    ensures MemoryStep(m, op).1 == RedisStep(r, op).1
    ensures Related(MemoryStep(m, op).0, RedisStep(r, op).0)
  {
    BuildStep(m, r, op);
    TagStep(m, r, op);
    forall id ensures NoDuplicates(SeqAt(m.aliases, id)) {
      assert AliasListRelated(m, r, id);
    }
    InverseStep(m, op);
    if TouchesAliases(op) {
      AliasStep(m, r, op);
    } else {
      OtherStep(m, r, op);
    }
  }

  lemma OtherStep(m: Memory, r: Redis, op: Op)
    requires BuildsRelated(m, r) && AliasesRelated(m, r) && !TouchesAliases(op)
    ensures AliasesRelated(MemoryStep(m, op).0, RedisStep(r, op).0)
    ensures op.DeleteTag? || op.ListTags? || MemoryStep(m, op).1 == RedisStep(r, op).1
  {
    var m', r' := MemoryStep(m, op).0, RedisStep(r, op).0;
    MemoryFrame(m, op);
    RedisFrame(r, op);
    forall id ensures AliasListRelated(m', r', id) {
      assert AliasListRelated(m, r, id);
    }
    if op.ListBuilds? { assert SetAt(m.templateBuilds, op.id) == SetAt(r.templateBuilds, op.id); }
    if op.ListAliases? { assert AliasListRelated(m, r, op.id); }
  }

  // ------------------------------------------------ whole runs

  function MemoryRun(m: Memory, ops: seq<Op>): (Memory, seq<Reply>)
    decreases |ops|
  {
    if ops == [] then (m, [])
    else
      var (m1, reply) := MemoryStep(m, ops[0]);
      var (m2, replies) := MemoryRun(m1, ops[1..]);
      (m2, [reply] + replies)
  }

  function RedisRun(r: Redis, ops: seq<Op>): (Redis, seq<Reply>)
    decreases |ops|
  {
    if ops == [] then (r, [])
    else
      var (r1, reply) := RedisStep(r, ops[0]);
      var (r2, replies) := RedisRun(r1, ops[1..]);
      (r2, [reply] + replies)
  }

  /** No alias is added to a second template while a first still holds it. */
  ghost predicate Disciplined(m: Memory, ops: seq<Op>)
    decreases |ops|
  {
    ops == [] || (Unclaimed(m, ops[0]) && Disciplined(MemoryStep(m, ops[0]).0, ops[1..]))
  }

  lemma {:induction false} RunsAgree(m: Memory, r: Redis, ops: seq<Op>)
    requires Related(m, r) && Disciplined(m, ops)
    ensures MemoryRun(m, ops).1 == RedisRun(r, ops).1
    ensures Related(MemoryRun(m, ops).0, RedisRun(r, ops).0)
    decreases |ops|
  {
    if ops != [] {
      StepsAgree(m, r, ops[0]);
      RunsAgree(MemoryStep(m, ops[0]).0, RedisStep(r, ops[0]).0, ops[1..]);
    }
  }

  lemma EmptyRelated()
    ensures Related(EMPTY_MEMORY, EMPTY_REDIS)
  {
  }

  /** On every disciplined run from empty, the stores return the same results and errors, and the alias
      indexes of both are exact inverses. */
  lemma StoresEquivalent(ops: seq<Op>)
    requires Disciplined(EMPTY_MEMORY, ops)
    ensures MemoryRun(EMPTY_MEMORY, ops).1 == RedisRun(EMPTY_REDIS, ops).1
    ensures Inverse(MemoryRun(EMPTY_MEMORY, ops).0)
    ensures
      var r := RedisRun(EMPTY_REDIS, ops).0;
      forall id, a :: a in SetAt(r.templateAliases, id) <==> (a in r.aliases && r.aliases[a] == id)
  {
    EmptyRelated();
    RunsAgree(EMPTY_MEMORY, EMPTY_REDIS, ops);
    var m, r := MemoryRun(EMPTY_MEMORY, ops).0, RedisRun(EMPTY_REDIS, ops).0;
    forall id, a ensures a in SetAt(r.templateAliases, id) <==> (a in r.aliases && r.aliases[a] == id) {
      assert AliasListRelated(m, r, id);
      assert InverseAt(m, id, a);
      assert a in SeqAt(m.aliases, id) <==> a in Elements(SeqAt(m.aliases, id));
    }
  }

  /** The discipline is exact: after adding an alias to related stores, resolving it gives the same answer
      in both exactly when no other template held it. */
  lemma SecondClaimDiverges(m: Memory, r: Redis, id: Id, a: Id)
    requires Related(m, r)
    ensures
      var add := AddAlias(id, a);
      MemoryStep(MemoryStep(m, add).0, ResolveAlias(a)).1 == RedisStep(RedisStep(r, add).0, ResolveAlias(a)).1
      <==> Unclaimed(m, add)
  {
    var add := AddAlias(id, a);
    assert InverseAt(m, id, a);
    if Unclaimed(m, add) {
      StepsAgree(m, r, add);
      assert Unclaimed(MemoryStep(m, add).0, ResolveAlias(a));
      StepsAgree(MemoryStep(m, add).0, RedisStep(r, add).0, ResolveAlias(a));
    } else {
      var other :| other != id && ListsAlias(m, other, a);
      assert InverseAt(m, other, a);
    }
  }
}
