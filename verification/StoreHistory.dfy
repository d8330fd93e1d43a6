/** What the in-memory template store answers to each query, told from the positions of the calls made before. */
module StoreHistory {
  import opened Wrappers
  import opened TemplateStore
  import opened StoreEquivalence
  import opened Histories

  /** The store after the first `i` calls. */
  function After(ops: seq<Op>, i: nat): Memory
    requires i <= |ops|
  {
    MemoryRun(EMPTY_MEMORY, ops[..i]).0
  }

  lemma {:induction false} RunSnoc(m: Memory, ops: seq<Op>, op: Op)
    ensures MemoryRun(m, ops + [op]).0 == MemoryStep(MemoryRun(m, ops).0, op).0
    decreases |ops|
  {
    if ops == [] {
      assert (ops + [op])[1..] == [];
    } else {
      assert (ops + [op])[1..] == ops[1..] + [op];
      RunSnoc(MemoryStep(m, ops[0]).0, ops[1..], op);
    }
  }

  lemma AfterStep(ops: seq<Op>, i: nat)
    requires i < |ops|
    ensures After(ops, i + 1) == MemoryStep(After(ops, i), ops[i]).0
  {
    assert ops[..i + 1] == ops[..i] + [ops[i]];
    RunSnoc(EMPTY_MEMORY, ops[..i], ops[i]);
  }

  // ------------------------------------------------ lists without duplicates

  predicate UniqueNames(s: seq<Tag>) { forall i, j :: 0 <= i < j < |s| ==> s[i].name != s[j].name }

  predicate KeyedById(builds: map<Id, Build>) { forall b :: b in builds ==> builds[b].buildID == b }

  ghost predicate Tidy(s: Memory) {
    && (forall id :: UniqueNames(SeqAt(s.tags, id)))
    && (forall id :: NoDuplicates(SeqAt(s.aliases, id)))
    && KeyedById(s.builds)
  }

  lemma PutUnique(s: seq<Tag>, tag: Tag)
    requires UniqueNames(s)
    ensures UniqueNames(PutTag(s, tag))
    ensures forall t :: t in PutTag(s, tag) <==> t == tag || (t in s && t.name != tag.name)
  {
    var i, s' := TagIndex(s, tag.name), PutTag(s, tag);
    assert s'[i] == tag;
    forall t | t in s && t.name != tag.name ensures t in s' {
      var j :| 0 <= j < |s| && s[j] == t;
      assert s'[j] == t;
    }
  }

  lemma CutUnique(s: seq<Tag>, name: Id)
    requires UniqueNames(s) && TagIndex(s, name) < |s|
    ensures UniqueNames(Cut(s, TagIndex(s, name)))
    ensures forall t :: t in Cut(s, TagIndex(s, name)) <==> t in s && t.name != name
  {
    var i := TagIndex(s, name);
    var s' := Cut(s, i);
    CutIndex(s, i);
    forall t | t in s && t.name != name ensures t in s' {
      var j :| 0 <= j < |s| && s[j] == t;
      assert s'[if j < i then j else j - 1] == t;
    }
    forall t | t in s' ensures t in s && t.name != name {
      var j :| 0 <= j < |s'| && s'[j] == t;
      assert t == s[if j < i then j else j + 1];
    }
  }

  lemma CutIndex(s: seq<Tag>, i: nat)
    requires i < |s|
    ensures |Cut(s, i)| == |s| - 1
    ensures forall j :: 0 <= j < |s| - 1 ==> Cut(s, i)[j] == s[if j < i then j else j + 1]
  {
  }

  lemma NoneNamed(s: seq<Tag>, name: Id)
    ensures TagIndex(s, name) == |s| <==> forall t :: t in s ==> t.name != name
  {
    if TagIndex(s, name) < |s| {
      assert s[TagIndex(s, name)] in s;
    }
  }

  lemma TidyTags(s: Memory, op: Op)
    requires Tidy(s)
    ensures forall id :: UniqueNames(SeqAt(MemoryStep(s, op).0.tags, id))
  {
    var s' := MemoryStep(s, op).0;
    forall id ensures UniqueNames(SeqAt(s'.tags, id)) {
      assert UniqueNames(SeqAt(s.tags, id));
      if !TouchesTags(op) {
        MemoryFrame(s, op);
      } else if op.SaveTag? {
        PutUnique(SeqAt(s.tags, op.id), op.tag);
      } else if op.DeleteTag? && TagIndex(SeqAt(s.tags, op.id), op.name) < |SeqAt(s.tags, op.id)| {
        CutUnique(SeqAt(s.tags, op.id), op.name);
      }
    }
  }

  lemma TidyAliases(s: Memory, op: Op)
    requires Tidy(s)
    ensures forall id :: NoDuplicates(SeqAt(MemoryStep(s, op).0.aliases, id))
  {
    var s' := MemoryStep(s, op).0;
    forall id ensures NoDuplicates(SeqAt(s'.aliases, id)) {
      var list := SeqAt(s.aliases, id);
      assert NoDuplicates(list);
      if op.RemoveAlias? && op.id == id && op.alias in list {
        CutElements(list, op.alias);
      }
    }
  }

  lemma TidyBuilds(s: Memory, op: Op)
    requires KeyedById(s.builds)
    ensures KeyedById(MemoryStep(s, op).0.builds)
  {
  }

  lemma TidyStep(s: Memory, op: Op, s': Memory)
    requires Tidy(s) && s' == MemoryStep(s, op).0
    ensures Tidy(s')
  {
    TidyTags(s, op);
    TidyAliases(s, op);
    TidyBuilds(s, op);
  }

  lemma {:induction false} AfterTidy(ops: seq<Op>, i: nat)
    requires i <= |ops|
    ensures Tidy(After(ops, i))
    decreases i
  {
    if i > 0 {
      AfterTidy(ops, i - 1);
      AfterStep(ops, i - 1);
      TidyStep(After(ops, i - 1), ops[i - 1], After(ops, i));
    }
  }

  // ------------------------------------------------ tags

  predicate SavesTag(op: Op, id: Id, t: Tag) { op.SaveTag? && op.id == id && op.tag == t }

  predicate EndsTag(op: Op, id: Id, name: Id) {
    || (op.SaveTag? && op.id == id && op.tag.name == name)
    || (op.DeleteTag? && op.id == id && op.name == name)
    || (op.DeleteTags? && op.id == id)
  }

  lemma SaveTagIs(s: Memory, op: Op, id: Id, t: Tag)
    requires op.SaveTag? && UniqueNames(SeqAt(s.tags, id))
    ensures t in SeqAt(MemoryStep(s, op).0.tags, id)
       <==> SavesTag(op, id, t) || (t in SeqAt(s.tags, id) && !EndsTag(op, id, t.name))
  {
    if op.id == id { PutUnique(SeqAt(s.tags, id), op.tag); }
  }

  lemma DeleteTagIs(s: Memory, op: Op, id: Id, t: Tag)
    requires op.DeleteTag? && UniqueNames(SeqAt(s.tags, id))
    ensures t in SeqAt(MemoryStep(s, op).0.tags, id) <==> t in SeqAt(s.tags, id) && !EndsTag(op, id, t.name)
  {
    var list := SeqAt(s.tags, id);
    if op.id == id {
      NoneNamed(list, op.name);
      if TagIndex(list, op.name) < |list| { CutUnique(list, op.name); }
    }
  }

  lemma TagStepIs(s: Memory, op: Op, s': Memory, id: Id, t: Tag)
    requires UniqueNames(SeqAt(s.tags, id)) && s' == MemoryStep(s, op).0
    ensures t in SeqAt(s'.tags, id)
       <==> SavesTag(op, id, t) || (t in SeqAt(s.tags, id) && !EndsTag(op, id, t.name))
  {
    if op.SaveTag? {
      SaveTagIs(s, op, id, t);
    } else if op.DeleteTag? {
      DeleteTagIs(s, op, id, t);
    } else if !op.DeleteTags? {
      MemoryFrame(s, op);
    }
  }

  lemma TagsHeld(ops: seq<Op>, id: Id, t: Tag)
    ensures t in SeqAt(After(ops, |ops|).tags, id) <==>
      exists k :: 0 <= k < |ops| && SavesTag(ops[k], id, t)
                  && forall j :: k < j < |ops| ==> !EndsTag(ops[j], id, t.name)
  {
    var holds := (i: nat) => i <= |ops| && t in SeqAt(After(ops, i).tags, id);
    var adds := (i: nat) => i < |ops| && SavesTag(ops[i], id, t);
    var ends := (i: nat) => i < |ops| && EndsTag(ops[i], id, t.name);
    forall i | 0 <= i < |ops| ensures holds(i + 1) <==> adds(i) || (holds(i) && !ends(i)) {
      AfterStep(ops, i);
      AfterTidy(ops, i);
      TagStepIs(After(ops, i), ops[i], After(ops, i + 1), id, t);
    }
    LastWriter(|ops|, holds, adds, ends);
    assert forall j :: 0 <= j < |ops| ==> (EndsTag(ops[j], id, t.name) <==> ends(j));
    assert forall k :: 0 <= k < |ops| ==> (SavesTag(ops[k], id, t) <==> adds(k));
  }

  /** The tags listed for a template: each one saved under it such that no later call saved a tag of that name
      under the same template, deleted the tag or deleted the template's tags. */
  lemma TagsByPosition(ops: seq<Op>, id: Id, t: Tag)
    ensures
      var reply := MemoryStep(After(ops, |ops|), ListTags(id)).1;
      reply.Tags? &&
      (t in reply.tags <==>
        exists k :: 0 <= k < |ops| && SavesTag(ops[k], id, t)
                    && forall j :: k < j < |ops| ==> !EndsTag(ops[j], id, t.name))
  {
    TagsHeld(ops, id, t);
  }

  // ------------------------------------------------ aliases

  predicate AddsAlias(op: Op, id: Id, a: Id) { op.AddAlias? && op.id == id && op.alias == a }

  predicate EndsAlias(op: Op, id: Id, a: Id) {
    (op.RemoveAlias? && op.id == id && op.alias == a) || (op.DeleteAliases? && op.id == id)
  }

  lemma AliasStepIs(s: Memory, op: Op, s': Memory, id: Id, a: Id)
    requires NoDuplicates(SeqAt(s.aliases, id)) && s' == MemoryStep(s, op).0
    ensures ListsAlias(s', id, a) <==> AddsAlias(op, id, a) || (ListsAlias(s, id, a) && !EndsAlias(op, id, a))
  {
    var list := SeqAt(s.aliases, id);
    if !TouchesAliases(op) {
      MemoryFrame(s, op);
    } else if op.RemoveAlias? && op.id == id && op.alias in list {
      CutElements(list, op.alias);
      assert ListsAlias(s', id, a) <==> a in Elements(Cut(list, IndexOf(list, op.alias)));
    }
  }

  /** Some call added the alias to the template, and no later one removed it from there or deleted the
      template's aliases. */
  ghost predicate Listed(ops: seq<Op>, id: Id, a: Id) {
    exists k :: 0 <= k < |ops| && AddsAlias(ops[k], id, a) && forall j :: k < j < |ops| ==> !EndsAlias(ops[j], id, a)
  }

  lemma AliasesHeld(ops: seq<Op>, id: Id, a: Id)
    ensures ListsAlias(After(ops, |ops|), id, a) <==> Listed(ops, id, a)
  {
    var holds := (i: nat) => i <= |ops| && ListsAlias(After(ops, i), id, a);
    var adds := (i: nat) => i < |ops| && AddsAlias(ops[i], id, a);
    var ends := (i: nat) => i < |ops| && EndsAlias(ops[i], id, a);
    forall i | 0 <= i < |ops| ensures holds(i + 1) <==> adds(i) || (holds(i) && !ends(i)) {
      AfterStep(ops, i);
      AfterTidy(ops, i);
      AliasStepIs(After(ops, i), ops[i], After(ops, i + 1), id, a);
    }
    LastWriter(|ops|, holds, adds, ends);
    assert forall j :: 0 <= j < |ops| ==> (EndsAlias(ops[j], id, a) <==> ends(j));
    assert forall k :: 0 <= k < |ops| ==> (AddsAlias(ops[k], id, a) <==> adds(k));
  }

  lemma AliasesByPosition(ops: seq<Op>, id: Id, a: Id)
    ensures
      var reply := MemoryStep(After(ops, |ops|), ListAliases(id)).1;
      reply.Aliases? && (a in reply.aliases <==> Listed(ops, id, a))
  {
    AliasesHeld(ops, id, a);
  }

  /** The call claims the alias for the template: it adds it where it is not listed already. */
  ghost predicate Claims(ops: seq<Op>, i: nat, id: Id, a: Id)
    requires i < |ops|
  {
    AddsAlias(ops[i], id, a) && !Listed(ops[..i], id, a)
  }

  /** The call ends who an alias stands for: another claim, or the removal from any template that lists it. */
  ghost predicate EndsClaim(ops: seq<Op>, i: nat, a: Id)
    requires i < |ops|
  {
    && (ops[i].AddAlias? || ops[i].RemoveAlias? || ops[i].DeleteAliases?)
    && (if ops[i].AddAlias? then Claims(ops, i, ops[i].id, a)
        else EndsAlias(ops[i], ops[i].id, a) && Listed(ops[..i], ops[i].id, a))
  }

  predicate ResolvesTo(s: Memory, a: Id, id: Id) { a in s.aliasReverse && s.aliasReverse[a] == id }

  lemma ClaimStepIs(s: Memory, op: Op, s': Memory, a: Id, id: Id)
    requires s' == MemoryStep(s, op).0
    ensures ResolvesTo(s', a, id) <==>
      || (AddsAlias(op, id, a) && !ListsAlias(s, id, a))
      || (&& ResolvesTo(s, a, id)
          && !(op.AddAlias? && op.alias == a && !ListsAlias(s, op.id, a))
          && !(op.RemoveAlias? && op.alias == a && ListsAlias(s, op.id, a))
          && !(op.DeleteAliases? && ListsAlias(s, op.id, a)))
  {
    if !TouchesAliases(op) {
      MemoryFrame(s, op);
    }
  }

  lemma AfterPrefix(ops: seq<Op>, i: nat)
    requires i <= |ops|
    ensures After(ops[..i], i) == After(ops, i)
  {
    assert ops[..i][..i] == ops[..i];
  }

  /** An alias resolves to the template that claimed it last, unless the alias has been removed since from any
      template that listed it. */
  lemma ResolvesByPosition(ops: seq<Op>, a: Id, id: Id)
    ensures
      var reply := MemoryStep(After(ops, |ops|), ResolveAlias(a)).1;
      && (reply.Resolved? || reply == Failed(AliasNotFound))
      && (reply == Resolved(id) <==>
           exists k :: 0 <= k < |ops| && Claims(ops, k, id, a) && forall j :: k < j < |ops| ==> !EndsClaim(ops, j, a))
  {
    var holds := (i: nat) => i <= |ops| && ResolvesTo(After(ops, i), a, id);
    var adds := (i: nat) => i < |ops| && Claims(ops, i, id, a);
    var ends := (i: nat) => i < |ops| && EndsClaim(ops, i, a);
    forall i | 0 <= i < |ops| ensures holds(i + 1) <==> adds(i) || (holds(i) && !ends(i)) {
      AfterStep(ops, i);
      AfterPrefix(ops, i);
      AliasesHeld(ops[..i], id, a);
      if TouchesAliases(ops[i]) { AliasesHeld(ops[..i], ops[i].id, a); }
      ClaimStepIs(After(ops, i), ops[i], After(ops, i + 1), a, id);
    }
    LastWriter(|ops|, holds, adds, ends);
    assert forall j :: 0 <= j < |ops| ==> (EndsClaim(ops, j, a) <==> ends(j));
    assert forall k :: 0 <= k < |ops| ==> (Claims(ops, k, id, a) <==> adds(k));
  }

  // ------------------------------------------------ builds

  predicate FilesBuild(op: Op, id: Id, b: Id) { op.SaveBuild? && op.id == id && op.build.buildID == b }

  predicate EndsBuilds(op: Op, id: Id) { op.DeleteBuilds? && op.id == id }

  /** Some call saved a build of that identifier under the template, and no later one deleted its builds. */
  ghost predicate Kept(ops: seq<Op>, id: Id, b: Id) {
    exists k :: 0 <= k < |ops| && FilesBuild(ops[k], id, b) && forall j :: k < j < |ops| ==> !EndsBuilds(ops[j], id)
  }

  predicate FiledIn(s: Memory, id: Id, b: Id) { b in SetAt(s.templateBuilds, id) }

  lemma FiledStepIs(s: Memory, op: Op, s': Memory, id: Id, b: Id)
    requires s' == MemoryStep(s, op).0
    ensures FiledIn(s', id, b) <==> FilesBuild(op, id, b) || (FiledIn(s, id, b) && !EndsBuilds(op, id))
  {
    if !TouchesBuilds(op) {
      MemoryFrame(s, op);
    }
  }

  lemma BuildsFiled(ops: seq<Op>, id: Id, b: Id)
    ensures FiledIn(After(ops, |ops|), id, b) <==> Kept(ops, id, b)
  {
    var holds := (i: nat) => i <= |ops| && FiledIn(After(ops, i), id, b);
    var adds := (i: nat) => i < |ops| && FilesBuild(ops[i], id, b);
    var ends := (i: nat) => i < |ops| && EndsBuilds(ops[i], id);
    forall i | 0 <= i < |ops| ensures holds(i + 1) <==> adds(i) || (holds(i) && !ends(i)) {
      AfterStep(ops, i);
      FiledStepIs(After(ops, i), ops[i], After(ops, i + 1), id, b);
    }
    LastWriter(|ops|, holds, adds, ends);
    assert forall j :: 0 <= j < |ops| ==> (EndsBuilds(ops[j], id) <==> ends(j));
    assert forall k :: 0 <= k < |ops| ==> (FilesBuild(ops[k], id, b) <==> adds(k));
  }

  predicate SavesBuild(op: Op, x: Build) { op.SaveBuild? && op.build == x }

  /** The call replaces the build of that identifier, or deletes the builds of a template that keeps it. */
  ghost predicate EndsBuild(ops: seq<Op>, i: nat, b: Id)
    requires i < |ops|
  {
    || (ops[i].SaveBuild? && ops[i].build.buildID == b)
    || (ops[i].DeleteBuilds? && Kept(ops[..i], ops[i].id, b))
  }

  predicate Stored(s: Memory, x: Build) { x.buildID in s.builds && s.builds[x.buildID] == x }

  lemma StoredStepIs(s: Memory, op: Op, s': Memory, x: Build)
    requires s' == MemoryStep(s, op).0
    ensures Stored(s', x) <==>
      || SavesBuild(op, x)
      || (&& Stored(s, x) && !(op.SaveBuild? && op.build.buildID == x.buildID)
          && !(op.DeleteBuilds? && FiledIn(s, op.id, x.buildID)))
  {
    if !TouchesBuilds(op) {
      MemoryFrame(s, op);
    }
  }

  lemma BuildsStored(ops: seq<Op>, x: Build)
    ensures Stored(After(ops, |ops|), x) <==>
      exists k :: 0 <= k < |ops| && SavesBuild(ops[k], x) && forall j :: k < j < |ops| ==> !EndsBuild(ops, j, x.buildID)
  {
    var holds := (i: nat) => i <= |ops| && Stored(After(ops, i), x);
    var adds := (i: nat) => i < |ops| && SavesBuild(ops[i], x);
    var ends := (i: nat) => i < |ops| && EndsBuild(ops, i, x.buildID);
    forall i | 0 <= i < |ops| ensures holds(i + 1) <==> adds(i) || (holds(i) && !ends(i)) {
      AfterStep(ops, i);
      AfterPrefix(ops, i);
      if ops[i].DeleteBuilds? { BuildsFiled(ops[..i], ops[i].id, x.buildID); }
      StoredStepIs(After(ops, i), ops[i], After(ops, i + 1), x);
    }
    LastWriter(|ops|, holds, adds, ends);
    assert forall j :: 0 <= j < |ops| ==> (EndsBuild(ops, j, x.buildID) <==> ends(j));
    assert forall k :: 0 <= k < |ops| ==> (SavesBuild(ops[k], x) <==> adds(k));
  }

  /** A build is found exactly when it was saved and, since then, none of its identifier was saved and the
      builds of no template that kept it were deleted. */
  lemma BuildByPosition(ops: seq<Op>, x: Build)
    ensures
      var reply := MemoryStep(After(ops, |ops|), GetBuild(x.buildID)).1;
      && (reply.OneBuild? || reply == Failed(BuildNotFound))
      && (reply == OneBuild(x) <==>
           exists k :: 0 <= k < |ops| && SavesBuild(ops[k], x)
                       && forall j :: k < j < |ops| ==> !EndsBuild(ops, j, x.buildID))
  {
    BuildsStored(ops, x);
  }

  /** The builds listed for a template: those it keeps and that are still found. */
  lemma BuildsByPosition(ops: seq<Op>, id: Id, x: Build)
    ensures
      var s := After(ops, |ops|);
      var reply := MemoryStep(s, ListBuilds(id)).1;
      reply.Builds? &&
      (x in reply.builds <==> Kept(ops, id, x.buildID) && MemoryStep(s, GetBuild(x.buildID)).1 == OneBuild(x))
  {
    AfterTidy(ops, |ops|);
    BuildsFiled(ops, id, x.buildID);
  }

  // ------------------------------------------------ templates

  predicate Creates(op: Op, id: Id) { op.CreateTemplate? && op.entry.templateID == id }

  predicate Deletes(op: Op, id: Id) { op.DeleteTemplate? && op.id == id }

  /** The entry after the calls: each update of it that succeeds applied in turn. */
  function Updated(e: Entry, id: Id, ops: seq<Op>): Entry
    decreases |ops|
  {
    if ops == [] then e
    else
      var before := Updated(e, id, ops[..|ops| - 1]);
      var op := ops[|ops| - 1];
      if op.UpdateTemplate? && op.id == id && op.update(before).Ok? then op.update(before).value else before
  }

  /** From position `d` on, at the start or right behind a deletion, there is no deletion of the template, and
      the first attempt to create it is at `k`. */
  predicate Born(ops: seq<Op>, id: Id, d: nat, k: nat) {
    && d <= k < |ops| && (d == 0 || Deletes(ops[d - 1], id))
    && (forall j :: d <= j < |ops| ==> !Deletes(ops[j], id))
    && (forall j :: d <= j < k ==> !Creates(ops[j], id))
    && Creates(ops[k], id)
  }

  lemma TemplatesStay(s: Memory, op: Op)
    requires !(op.CreateTemplate? || op.UpdateTemplate? || op.DeleteTemplate?)
    ensures MemoryStep(s, op).0.templates == s.templates
  {
  }

  /** The entry the call leaves, from the entry before it. */
  function EntryAfter(before: Option<Entry>, op: Op, id: Id): Option<Entry> {
    match before
    case None => if op.CreateTemplate? && op.entry.templateID == id then Some(op.entry) else None
    case Some(e) =>
      if op.DeleteTemplate? && op.id == id then None
      else if op.UpdateTemplate? && op.id == id && op.update(e).Ok? then Some(op.update(e).value)
      else before
  }

  function Find(s: Memory, id: Id): Option<Entry> { if id in s.templates then Some(s.templates[id]) else None }

  lemma CreateIs(s: Memory, op: Op, id: Id)
    requires op.CreateTemplate?
    ensures Find(MemoryStep(s, op).0, id) == EntryAfter(Find(s, id), op, id)
  {
  }

  lemma UpdateIs(s: Memory, op: Op, id: Id)
    requires op.UpdateTemplate?
    ensures Find(MemoryStep(s, op).0, id) == EntryAfter(Find(s, id), op, id)
  {
  }

  lemma EntryStepIs(s: Memory, op: Op, s': Memory, id: Id)
    requires s' == MemoryStep(s, op).0
    ensures Find(s', id) == EntryAfter(Find(s, id), op, id)
  {
    if op.CreateTemplate? {
      CreateIs(s, op, id);
    } else if op.UpdateTemplate? {
      UpdateIs(s, op, id);
    } else if !op.DeleteTemplate? {
      TemplatesStay(s, op);
    }
  }

  /** A template is there exactly when it was created and not deleted since. */
  lemma PresentByPosition(ops: seq<Op>, id: Id)
    ensures MemoryStep(After(ops, |ops|), GetTemplate(id)).1.OneTemplate? <==>
      exists k :: 0 <= k < |ops| && Creates(ops[k], id) && forall j :: k < j < |ops| ==> !Deletes(ops[j], id)
  {
    var holds := (i: nat) => i <= |ops| && Find(After(ops, i), id).Some?;
    var adds := (i: nat) => i < |ops| && Creates(ops[i], id);
    var ends := (i: nat) => i < |ops| && Deletes(ops[i], id);
    forall i | 0 <= i < |ops| ensures holds(i + 1) <==> adds(i) || (holds(i) && !ends(i)) {
      AfterStep(ops, i);
      EntryStepIs(After(ops, i), ops[i], After(ops, i + 1), id);
    }
    LastWriter(|ops|, holds, adds, ends);
    assert forall j :: 0 <= j < |ops| ==> (Deletes(ops[j], id) <==> ends(j));
    assert forall k :: 0 <= k < |ops| ==> (Creates(ops[k], id) <==> adds(k));
  }

  lemma {:induction false} AbsentUntil(ops: seq<Op>, id: Id, d: nat, k: nat, i: nat)
    requires Born(ops, id, d, k) && d <= i <= k
    ensures Find(After(ops, i), id).None?
    decreases i
  {
    if i > 0 {
      AfterStep(ops, i - 1);
      EntryStepIs(After(ops, i - 1), ops[i - 1], After(ops, i), id);
      if i > d { AbsentUntil(ops, id, d, k, i - 1); }
    }
  }

  lemma {:induction false} EntryAt(ops: seq<Op>, id: Id, d: nat, k: nat, i: nat)
    requires Born(ops, id, d, k) && k < i <= |ops|
    ensures Find(After(ops, i), id) == Some(Updated(ops[k].entry, id, ops[k + 1..i]))
    decreases i
  {
    AfterStep(ops, i - 1);
    if i == k + 1 {
      AbsentUntil(ops, id, d, k, k);
    } else {
      EntryAt(ops, id, d, k, i - 1);
      assert ops[k + 1..i][..i - k - 2] == ops[k + 1..i - 1];
    }
    EntryStepIs(After(ops, i - 1), ops[i - 1], After(ops, i), id);
  }

  /** The template found is the entry of the first creation since the last deletion, with every later update
      that succeeded applied to it. */
  lemma TemplateByPosition(ops: seq<Op>, id: Id, d: nat, k: nat)
    requires Born(ops, id, d, k)
    ensures MemoryStep(After(ops, |ops|), GetTemplate(id)).1 == OneTemplate(Updated(ops[k].entry, id, ops[k + 1..]))
  {
    EntryAt(ops, id, d, k, |ops|);
    assert ops[k + 1..|ops|] == ops[k + 1..];
  }

  // ------------------------------------------------ the other answers

  predicate IsListed(s: Memory, x: Entry, id: Id) { MemoryStep(s, GetTemplate(id)).1 == OneTemplate(x) }

  /** Whether a call is refused, told by what the queries answer before it. */
  lemma RefusalsByQuery(s: Memory, op: Op)
    ensures
      var reply := MemoryStep(s, op).1;
      match op
      case CreateTemplate(e) =>
        reply == if MemoryStep(s, GetTemplate(e.templateID)).1.OneTemplate? then Failed(TemplateExists) else Done
      case DeleteTemplate(id) => reply == if IsMissing(s, id) then Failed(TemplateNotFound) else Done
      case UpdateTemplate(id, update) =>
        (match MemoryStep(s, GetTemplate(id)).1
         case OneTemplate(e) => reply == (match update(e) case Ok(_) => Done case Err(m) => Failed(UpdateFailed(m)))
         case _ => reply == Failed(TemplateNotFound))
      case RemoveAlias(id, a) =>
        reply == if a in MemoryStep(s, ListAliases(id)).1.aliases then Done else Failed(AliasNotFound)
      case DeleteTag(id, name) =>
        reply == if exists t :: t in MemoryStep(s, ListTags(id)).1.tags && t.name == name
                 then Done else Failed(TagNotFound)
      case _ => !reply.Failed? || op.GetTemplate? || op.GetBuild? || op.ResolveAlias?
  {
    if op.DeleteTag? { NoneNamed(SeqAt(s.tags, op.id), op.name); }
  }

  predicate IsMissing(s: Memory, id: Id) { MemoryStep(s, GetTemplate(id)).1 == Failed(TemplateNotFound) }

  /** The templates listed are those found one by one. */
  lemma TemplatesListed(s: Memory, x: Entry)
    ensures
      var reply := MemoryStep(s, ListTemplates).1;
      reply.Templates? && (x in reply.entries <==> exists id :: IsListed(s, x, id))
  {
    if x in s.templates.Values {
      var id :| id in s.templates && s.templates[id] == x;
      assert IsListed(s, x, id);
    }
  }
}
