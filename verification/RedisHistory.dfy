/** The Redis template store told from the positions of the calls made before, second claims of an alias included. */
module RedisHistory {
  import opened Wrappers
  import opened TemplateStore
  import opened StoreEquivalence
  import opened Histories
  import opened StoreHistory

  /** The Redis store after the first `i` calls. */
  function RedisAfter(ops: seq<Op>, i: nat): Redis
    requires i <= |ops|
  {
    RedisRun(EMPTY_REDIS, ops[..i]).0
  }

  lemma {:induction false} RedisSnoc(r: Redis, ops: seq<Op>, op: Op)
    ensures RedisRun(r, ops + [op]).0 == RedisStep(RedisRun(r, ops).0, op).0
    decreases |ops|
  {
    if ops == [] {
      assert (ops + [op])[1..] == [];
    } else {
      assert (ops + [op])[1..] == ops[1..] + [op];
      RedisSnoc(RedisStep(r, ops[0]).0, ops[1..], op);
    }
  }

  lemma RedisAfterStep(ops: seq<Op>, i: nat)
    requires i < |ops|
    ensures RedisAfter(ops, i + 1) == RedisStep(RedisAfter(ops, i), ops[i]).0
  {
    assert ops[..i + 1] == ops[..i] + [ops[i]];
    RedisSnoc(EMPTY_REDIS, ops[..i], ops[i]);
  }

  // ------------------------------------------------ everything but aliases

  lemma {:induction false} PartsRelated(ops: seq<Op>, i: nat)
    requires i <= |ops|
    ensures BuildsRelated(After(ops, i), RedisAfter(ops, i)) && TagsRelated(After(ops, i), RedisAfter(ops, i))
    decreases i
  {
    if i > 0 {
      PartsRelated(ops, i - 1);
      AfterStep(ops, i - 1);
      RedisAfterStep(ops, i - 1);
      BuildStep(After(ops, i - 1), RedisAfter(ops, i - 1), ops[i - 1]);
      TagStep(After(ops, i - 1), RedisAfter(ops, i - 1), ops[i - 1]);
    }
  }

  predicate AsksNoAlias(op: Op) {
    op.GetTemplate? || op.ListTemplates? || op.GetBuild? || op.ListBuilds? || op.ListTags?
  }

  /** On every run, whoever claims which alias, Redis answers the queries for templates, builds and tags as the
      memory store does. */
  lemma RedisAnswersAlike(ops: seq<Op>, query: Op)
    requires AsksNoAlias(query)
    ensures RedisStep(RedisAfter(ops, |ops|), query).1 == MemoryStep(After(ops, |ops|), query).1
  {
    PartsRelated(ops, |ops|);
    var m, r := After(ops, |ops|), RedisAfter(ops, |ops|);
    if query.ListTags? {
      assert TagListRelated(m, r, query.id);
      TagElements(SeqAt(m.tags, query.id), HashAt(r.tags, query.id));
    } else if query.ListBuilds? {
      assert SetAt(m.templateBuilds, query.id) == SetAt(r.templateBuilds, query.id);
    }
  }

  // ------------------------------------------------ aliases

  predicate ListsAliasIn(r: Redis, id: Id, a: Id) { a in SetAt(r.templateAliases, id) }

  lemma RedisAliasStepIs(r: Redis, op: Op, r': Redis, id: Id, a: Id)
    requires r' == RedisStep(r, op).0
    ensures ListsAliasIn(r', id, a) <==> AddsAlias(op, id, a) || (ListsAliasIn(r, id, a) && !EndsAlias(op, id, a))
  {
    if !TouchesAliases(op) {
      RedisFrame(r, op);
    }
  }

  lemma RedisAliasesHeld(ops: seq<Op>, id: Id, a: Id)
    ensures ListsAliasIn(RedisAfter(ops, |ops|), id, a) <==> Listed(ops, id, a)
  {
    var holds := (i: nat) => i <= |ops| && ListsAliasIn(RedisAfter(ops, i), id, a);
    var adds := (i: nat) => i < |ops| && AddsAlias(ops[i], id, a);
    var ends := (i: nat) => i < |ops| && EndsAlias(ops[i], id, a);
    forall i | 0 <= i < |ops| ensures holds(i + 1) <==> adds(i) || (holds(i) && !ends(i)) {
      RedisAfterStep(ops, i);
      RedisAliasStepIs(RedisAfter(ops, i), ops[i], RedisAfter(ops, i + 1), id, a);
    }
    LastWriter(|ops|, holds, adds, ends);
    assert forall j :: 0 <= j < |ops| ==> (EndsAlias(ops[j], id, a) <==> ends(j));
    assert forall k :: 0 <= k < |ops| ==> (AddsAlias(ops[k], id, a) <==> adds(k));
  }

  /** Redis lists the aliases the memory store lists, on every run. */
  lemma RedisAliasesByPosition(ops: seq<Op>, id: Id, a: Id)
    ensures
      var reply := RedisStep(RedisAfter(ops, |ops|), ListAliases(id)).1;
      reply.Aliases? && (a in reply.aliases <==> Listed(ops, id, a))
  {
    RedisAliasesHeld(ops, id, a);
  }

  /** The call removes the alias from a template that lists it. */
  ghost predicate Frees(ops: seq<Op>, i: nat, a: Id)
    requires i < |ops|
  {
    && (ops[i].RemoveAlias? || ops[i].DeleteAliases?)
    && EndsAlias(ops[i], ops[i].id, a) && Listed(ops[..i], ops[i].id, a)
  }

  /** From position `d` on, at the start or right behind a removal, the alias is not removed, and the first call
      to add it to any template is at `k`. */
  ghost predicate FirstClaim(ops: seq<Op>, a: Id, d: nat, k: nat) {
    && d <= k < |ops| && (d == 0 || Frees(ops, d - 1, a))
    && (forall j :: d <= j < |ops| ==> !Frees(ops, j, a))
    && (forall j :: d <= j < k ==> !(ops[j].AddAlias? && ops[j].alias == a))
    && ops[k].AddAlias? && ops[k].alias == a
  }

  function Owner(r: Redis, a: Id): Option<Id> { if a in r.aliases then Some(r.aliases[a]) else None }

  lemma OwnerStepIs(r: Redis, op: Op, r': Redis, a: Id)
    requires r' == RedisStep(r, op).0
    ensures Owner(r', a) ==
      if (op.RemoveAlias? && op.alias == a && ListsAliasIn(r, op.id, a))
         || (op.DeleteAliases? && ListsAliasIn(r, op.id, a)) then None
      else if Owner(r, a).None? && op.AddAlias? && op.alias == a then Some(op.id)
      else Owner(r, a)
  {
    if !TouchesAliases(op) {
      RedisFrame(r, op);
    }
  }

  lemma RedisAfterPrefix(ops: seq<Op>, i: nat)
    requires i <= |ops|
    ensures RedisAfter(ops[..i], i) == RedisAfter(ops, i)
  {
    assert ops[..i][..i] == ops[..i];
  }

  lemma OwnerAfter(ops: seq<Op>, i: nat, a: Id)
    requires i < |ops|
    ensures Owner(RedisAfter(ops, i + 1), a) ==
      if Frees(ops, i, a) then None
      else if Owner(RedisAfter(ops, i), a).None? && ops[i].AddAlias? && ops[i].alias == a then Some(ops[i].id)
      else Owner(RedisAfter(ops, i), a)
  {
    RedisAfterStep(ops, i);
    RedisAfterPrefix(ops, i);
    if TouchesAliases(ops[i]) { RedisAliasesHeld(ops[..i], ops[i].id, a); }
    OwnerStepIs(RedisAfter(ops, i), ops[i], RedisAfter(ops, i + 1), a);
  }

  lemma {:induction false} OwnerBetween(ops: seq<Op>, a: Id, d: nat, k: nat, i: nat)
    requires FirstClaim(ops, a, d, k) && d <= i <= |ops|
    ensures Owner(RedisAfter(ops, i), a) == if i <= k then None else Some(ops[k].id)
    decreases i
  {
    if i > 0 {
      OwnerAfter(ops, i - 1, a);
      if i > d { OwnerBetween(ops, a, d, k, i - 1); }
    }
  }

  /** Redis resolves an alias to the template it was first added to since it was last removed from a template
      that listed it. */
  lemma RedisResolvesByPosition(ops: seq<Op>, a: Id, d: nat, k: nat)
    requires FirstClaim(ops, a, d, k)
    ensures RedisStep(RedisAfter(ops, |ops|), ResolveAlias(a)).1 == Resolved(ops[k].id)
  {
    OwnerBetween(ops, a, d, k, |ops|);
  }

  lemma {:induction false} FindStart(ops: seq<Op>, a: Id, i: nat) returns (d: nat)
    requires i <= |ops| && Owner(RedisAfter(ops, i), a).None?
    ensures d <= i && (d == 0 || Frees(ops, d - 1, a))
    ensures forall j :: d <= j < i ==> !Frees(ops, j, a) && !(ops[j].AddAlias? && ops[j].alias == a)
    decreases i
  {
    if i == 0 || Frees(ops, i - 1, a) {
      d := i;
    } else {
      OwnerAfter(ops, i - 1, a);
      d := FindStart(ops, a, i - 1);
    }
  }

  lemma {:induction false} FindClaim(ops: seq<Op>, a: Id, i: nat) returns (d: nat, k: nat)
    requires i <= |ops| && Owner(RedisAfter(ops, i), a).Some?
    ensures d <= k < i && (d == 0 || Frees(ops, d - 1, a))
    ensures forall j :: d <= j < i ==> !Frees(ops, j, a)
    ensures forall j :: d <= j < k ==> !(ops[j].AddAlias? && ops[j].alias == a)
    ensures ops[k].AddAlias? && ops[k].alias == a
    decreases i
  {
    OwnerAfter(ops, i - 1, a);
    if Owner(RedisAfter(ops, i - 1), a).None? {
      d := FindStart(ops, a, i - 1);
      k := i - 1;
    } else {
      d, k := FindClaim(ops, a, i - 1);
    }
  }

  /** And it resolves none for which there is no such position. */
  lemma UnresolvedByPosition(ops: seq<Op>, a: Id)
    requires forall d: nat, k: nat :: !FirstClaim(ops, a, d, k)
    ensures RedisStep(RedisAfter(ops, |ops|), ResolveAlias(a)).1 == Failed(AliasNotFound)
  {
    if Owner(RedisAfter(ops, |ops|), a).Some? {
      var d, k := FindClaim(ops, a, |ops|);
      assert FirstClaim(ops, a, d, k);
    }
  }
}
