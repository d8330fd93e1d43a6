/** What the adapter's clients see of templates, builds, aliases and tags, told from the positions of the requests
    made before. */
module AdapterHistory {
  import opened Wrappers
  import opened TemplateStore
  import opened StoreEquivalence
  import opened StoreIntegrity
  import opened Histories
  import H = StoreHistory

  /** The store after the first `i` requests. */
  function After(ops: seq<AdapterOp>, i: nat): Memory
    requires i <= |ops|
  {
    AdapterRun(EMPTY_MEMORY, ops[..i])
  }

  lemma {:induction false} RunSnoc(s: Memory, ops: seq<AdapterOp>, op: AdapterOp)
    ensures AdapterRun(s, ops + [op]) == AdapterStep(AdapterRun(s, ops), op)
    decreases |ops|
  {
    if ops == [] {
      assert (ops + [op])[1..] == [];
    } else {
      assert (ops + [op])[1..] == ops[1..] + [op];
      RunSnoc(AdapterStep(s, ops[0]), ops[1..], op);
    }
  }

  lemma AfterStep(ops: seq<AdapterOp>, i: nat)
    requires i < |ops|
    ensures After(ops, i + 1) == AdapterStep(After(ops, i), ops[i])
  {
    assert ops[..i + 1] == ops[..i] + [ops[i]];
    RunSnoc(EMPTY_MEMORY, ops[..i], ops[i]);
  }

  lemma AfterPrefix(ops: seq<AdapterOp>, i: nat)
    requires i <= |ops|
    ensures After(ops[..i], i) == After(ops, i)
  {
    assert ops[..i][..i] == ops[..i];
  }

  // ------------------------------------------------ one request

  /** What a request leaves, told by at most one store call, a filed build or a deletion. */
  function Plain(s: Memory, op: AdapterOp): Memory {
    match op
    case NewAlias(id, a) => if a != "" && id in s.templates then MemoryStep(s, AddAlias(id, a)).0 else s
    case DropAlias(id, a) => MemoryStep(s, RemoveAlias(id, a)).0
    case NewTag(id, name, b, now) =>
      if name != "" && id in s.templates then MemoryStep(s, SaveTag(id, Tag(name, id, b, now))).0 else s
    case DropTag(id, name) => MemoryStep(s, DeleteTag(id, name)).0
    case DropTemplate(id) => Dropped(s, id)
    case _ => if Files(s.templates, op) then WithBuild(s, op) else s
  }

  lemma CheckedIs(s: Memory, id: Id, call: Op)
    ensures MemoryRun(s, [GetTemplate(id)] + (if id in s.templates then [call] else [])).0
         == if id in s.templates then MemoryStep(s, call).0 else s
  {
    if id in s.templates {
      Run2(s, GetTemplate(id), call);
    } else {
      assert [GetTemplate(id)] + [] == [GetTemplate(id)];
      Run1(s, GetTemplate(id));
    }
  }

  lemma PlainIs(s: Memory, op: AdapterOp)
    ensures AdapterStep(s, op) == Plain(s, op)
  {
    match op {
      case NewAlias(id, a) => if a != "" { CheckedIs(s, id, AddAlias(id, a)); }
      case DropAlias(id, a) => Run1(s, RemoveAlias(id, a));
      case NewTag(id, name, b, now) => if name != "" { CheckedIs(s, id, SaveTag(id, Tag(name, id, b, now))); }
      case DropTag(id, name) => Run1(s, DeleteTag(id, name));
      case DropTemplate(id) => DropIs(s, id);
      case _ => if Files(s.templates, op) { FilesIs(s, op); } else { RefusedIs(s, op); }
    }
  }

  lemma TidyStep(s: Memory, op: AdapterOp)
    requires H.Tidy(s)
    ensures H.Tidy(Plain(s, op))
  {
    match op {
      case NewAlias(id, a) =>
        H.TidyStep(s, AddAlias(id, a), MemoryStep(s, AddAlias(id, a)).0);
      case DropAlias(id, a) =>
        H.TidyStep(s, RemoveAlias(id, a), MemoryStep(s, RemoveAlias(id, a)).0);
      case NewTag(id, name, b, now) =>
        H.TidyStep(s, SaveTag(id, Tag(name, id, b, now)), MemoryStep(s, SaveTag(id, Tag(name, id, b, now))).0);
      case DropTag(id, name) =>
        H.TidyStep(s, DeleteTag(id, name), MemoryStep(s, DeleteTag(id, name)).0);
      case DropTemplate(id) => TidyDrop(s, id);
      case _ =>
    }
  }

  lemma TidyDrop(s: Memory, id: Id)
    requires H.Tidy(s)
    ensures H.Tidy(Dropped(s, id))
  {
    var s' := Dropped(s, id);
    forall x ensures H.UniqueNames(SeqAt(s'.tags, x)) && NoDuplicates(SeqAt(s'.aliases, x)) {
      assert H.UniqueNames(SeqAt(s.tags, x)) && NoDuplicates(SeqAt(s.aliases, x));
    }
  }

  lemma {:induction false} AfterTidy(ops: seq<AdapterOp>, i: nat)
    requires i <= |ops|
    ensures H.Tidy(After(ops, i))
    decreases i
  {
    if i > 0 {
      AfterTidy(ops, i - 1);
      AfterStep(ops, i - 1);
      PlainIs(After(ops, i - 1), ops[i - 1]);
      TidyStep(After(ops, i - 1), ops[i - 1]);
    }
  }

  // ------------------------------------------------ templates

  predicate Creates(op: AdapterOp, id: Id) { op.NewTemplate? && op.id == id && op.name != "" }

  predicate Drops(op: AdapterOp, id: Id) { op.DropTemplate? && op.id == id }

  /** The template was created, and not deleted since. */
  ghost predicate Alive(ops: seq<AdapterOp>, id: Id) {
    exists k :: 0 <= k < |ops| && Creates(ops[k], id) && forall j :: k < j < |ops| ==> !Drops(ops[j], id)
  }

  lemma EntryStepIs(s: Memory, op: AdapterOp, id: Id)
    ensures H.Find(Plain(s, op), id) ==
      match H.Find(s, id)
      case None => if Creates(op, id) then Some(NewEntry(op)) else None
      case Some(e) =>
        if Drops(op, id) then None else if op.Rebuild? && op.id == id then Some(Rebuilt(e, op)) else Some(e)
  {
    match op {
      case NewAlias(x, a) => H.TemplatesStay(s, AddAlias(x, a));
      case DropAlias(x, a) => H.TemplatesStay(s, RemoveAlias(x, a));
      case NewTag(x, name, b, now) => H.TemplatesStay(s, SaveTag(x, Tag(name, x, b, now)));
      case DropTag(x, name) => H.TemplatesStay(s, DeleteTag(x, name));
      case _ =>
    }
  }

  lemma EntryAfter(ops: seq<AdapterOp>, i: nat, id: Id)
    requires i < |ops|
    ensures H.Find(After(ops, i + 1), id) ==
      match H.Find(After(ops, i), id)
      case None => if Creates(ops[i], id) then Some(NewEntry(ops[i])) else None
      case Some(e) =>
        if Drops(ops[i], id) then None
        else if ops[i].Rebuild? && ops[i].id == id then Some(Rebuilt(e, ops[i])) else Some(e)
  {
    AfterStep(ops, i);
    PlainIs(After(ops, i), ops[i]);
    EntryStepIs(After(ops, i), ops[i], id);
  }

  lemma AliveIs(ops: seq<AdapterOp>, id: Id)
    ensures id in After(ops, |ops|).templates <==> Alive(ops, id)
  {
    var holds := (i: nat) => i <= |ops| && H.Find(After(ops, i), id).Some?;
    var adds := (i: nat) => i < |ops| && Creates(ops[i], id);
    var ends := (i: nat) => i < |ops| && Drops(ops[i], id);
    forall i | 0 <= i < |ops| ensures holds(i + 1) <==> adds(i) || (holds(i) && !ends(i)) {
      EntryAfter(ops, i, id);
    }
    LastWriter(|ops|, holds, adds, ends);
    assert forall j :: 0 <= j < |ops| ==> (Drops(ops[j], id) <==> ends(j));
    assert forall k :: 0 <= k < |ops| ==> (Creates(ops[k], id) <==> adds(k));
  }

  /** From position `d` on, at the start or right behind a deletion, the template is not deleted, and the first
      request to create it is at `k`. */
  predicate Born(ops: seq<AdapterOp>, id: Id, d: nat, k: nat) {
    && d <= k < |ops| && (d == 0 || Drops(ops[d - 1], id))
    && (forall j :: d <= j < |ops| ==> !Drops(ops[j], id))
    && (forall j :: d <= j < k ==> !Creates(ops[j], id))
    && Creates(ops[k], id)
  }

  /** A template that is alive was born somewhere. */
  lemma Birth(ops: seq<AdapterOp>, id: Id) returns (d: nat, k: nat)
    requires Alive(ops, id)
    ensures Born(ops, id, d, k)
  {
    k :| 0 <= k < |ops| && Creates(ops[k], id) && forall j :: k < j < |ops| ==> !Drops(ops[j], id);
    d := k;
    while d > 0 && !Drops(ops[d - 1], id)
      invariant d <= k < |ops| && Creates(ops[k], id)
      invariant forall j :: d <= j < |ops| ==> !Drops(ops[j], id)
      invariant forall j :: d <= j < k ==> !Creates(ops[j], id)
    {
      d := d - 1;
      if Creates(ops[d], id) { k := d; }
    }
  }

  lemma {:induction false} AbsentUntil(ops: seq<AdapterOp>, id: Id, d: nat, k: nat, i: nat)
    requires Born(ops, id, d, k) && d <= i <= k
    ensures H.Find(After(ops, i), id).None?
    decreases i
  {
    if i > 0 {
      EntryAfter(ops, i - 1, id);
      if i > d { AbsentUntil(ops, id, d, k, i - 1); }
    }
  }

  /** The parts of a template that only its creation sets. */
  predicate Fixed(e: Entry, made: AdapterOp)
    requires made.NewTemplate?
  {
    && e.templateID == made.id && e.name == made.name && e.cpuCount == made.cpuCount && e.memoryMB == made.memoryMB
    && e.createdAt == made.now && e.metadata == map[]
  }

  lemma {:induction false} FixedAt(ops: seq<AdapterOp>, id: Id, d: nat, k: nat, i: nat)
    requires Born(ops, id, d, k) && k < i <= |ops|
    ensures H.Find(After(ops, i), id).Some? && Fixed(H.Find(After(ops, i), id).value, ops[k])
    decreases i
  {
    EntryAfter(ops, i - 1, id);
    if i == k + 1 {
      AbsentUntil(ops, id, d, k, k);
    } else {
      FixedAt(ops, id, d, k, i - 1);
    }
  }

  /** The parts that a rebuild may set again. */
  datatype Field = BuildID | Dockerfile | Image | StartCmd

  function Value(e: Entry, f: Field): string {
    match f
    case BuildID => e.buildID
    case Dockerfile => e.dockerfile
    case Image => e.imageURI
    case StartCmd => e.startCmd
  }

  /** The request sets the field of an existing template. */
  predicate Sets(op: AdapterOp, id: Id, f: Field) {
    && op.Rebuild? && op.id == id
    && match f
       case BuildID => true
       case Dockerfile => op.dockerfile != ""
       case Image => op.dockerfile != "" && op.from != ""
       case StartCmd => op.startCmd != ""
  }

  /** The value a creation or a rebuild gives to the field. */
  function Given(op: AdapterOp, f: Field): string
    requires op.NewTemplate? || op.Rebuild?
  {
    match f
    case BuildID => op.buildID
    case Dockerfile => op.dockerfile
    case Image => if op.NewTemplate? && (op.dockerfile == "" || op.from == "") then "python:3.11-slim" else op.from
    case StartCmd => op.startCmd
  }

  lemma {:induction false} ValueAt(ops: seq<AdapterOp>, id: Id, d: nat, k: nat, f: Field, m: nat, i: nat)
    requires Born(ops, id, d, k) && k <= m < i <= |ops| && (m == k || Sets(ops[m], id, f))
    requires forall j :: m < j < |ops| ==> !Sets(ops[j], id, f)
    ensures H.Find(After(ops, i), id).Some? && Value(H.Find(After(ops, i), id).value, f) == Given(ops[m], f)
    decreases i
  {
    EntryAfter(ops, i - 1, id);
    if i > m + 1 {
      ValueAt(ops, id, d, k, f, m, i - 1);
    } else if m == k {
      AbsentUntil(ops, id, d, k, k);
    } else {
      FixedAt(ops, id, d, k, i - 1);
    }
  }

  /** What a client is shown of a template: the name, CPU count, memory and time of the first creation since the
      last deletion, and the build of the last rebuild since then. */
  lemma TemplateShown(ops: seq<AdapterOp>, id: Id, d: nat, k: nat, m: nat, now: int)
    requires Born(ops, id, d, k)
    requires k <= m < |ops| && (m == k || (ops[m].Rebuild? && ops[m].id == id))
    requires forall j :: m < j < |ops| ==> !(ops[j].Rebuild? && ops[j].id == id)
    ensures Shown(After(ops, |ops|), id, now)
         == Template(id, ops[k].name, ops[k].cpuCount, ops[k].memoryMB, ops[m].buildID, ops[k].now, map[])
  {
    FixedAt(ops, id, d, k, |ops|);
    forall j | m < j < |ops| ensures !Sets(ops[j], id, BuildID) {
      assert !(ops[j].Rebuild? && ops[j].id == id);
    }
    ValueAt(ops, id, d, k, BuildID, m, |ops|);
  }

  /** Dockerfile, image and start command of the stored entry: those of the last rebuild since then that brought
      one, or else those of the creation. */
  lemma FieldIsLastSet(ops: seq<AdapterOp>, id: Id, d: nat, k: nat, f: Field, m: nat)
    requires Born(ops, id, d, k) && k <= m < |ops| && (m == k || Sets(ops[m], id, f))
    requires forall j :: m < j < |ops| ==> !Sets(ops[j], id, f)
    ensures
      var reply := MemoryStep(After(ops, |ops|), GetTemplate(id)).1;
      reply.OneTemplate? && Value(reply.entry, f) == Given(ops[m], f)
  {
    ValueAt(ops, id, d, k, f, m, |ops|);
  }

  /** A template that is not alive is shown as a made-up one of that name. */
  lemma UnknownShown(ops: seq<AdapterOp>, id: Id, now: int)
    requires !Alive(ops, id)
    ensures Shown(After(ops, |ops|), id, now) == Template(id, id, 0, 0, "", now, map[])
  {
    AliveIs(ops, id);
  }

  // ------------------------------------------------ tags

  predicate Tags(op: AdapterOp, id: Id, t: Tag) {
    op == NewTag(id, t.name, t.buildID, t.createdAt) && t.name != "" && t.templateID == id
  }

  predicate Untags(op: AdapterOp, id: Id, name: Id) {
    (op.NewTag? && op.id == id && op.name == name) || op == DropTag(id, name) || op == DropTemplate(id)
  }

  lemma TagStepIs(s: Memory, op: AdapterOp, id: Id, t: Tag)
    requires H.UniqueNames(SeqAt(s.tags, id)) && (t in SeqAt(s.tags, id) ==> id in s.templates && t.name != "")
    ensures t in SeqAt(Plain(s, op).tags, id) <==>
      (Tags(op, id, t) && id in s.templates) || (t in SeqAt(s.tags, id) && !Untags(op, id, t.name))
  {
    match op {
      case NewAlias(x, a) => MemoryFrame(s, AddAlias(x, a));
      case DropAlias(x, a) => MemoryFrame(s, RemoveAlias(x, a));
      case NewTag(x, name, b, now) =>
        var call := SaveTag(x, Tag(name, x, b, now));
        H.TagStepIs(s, call, MemoryStep(s, call).0, id, t);
      case DropTag(x, name) => H.TagStepIs(s, DeleteTag(x, name), MemoryStep(s, DeleteTag(x, name)).0, id, t);
      case _ =>
    }
  }

  /** The request puts the tag on a template that is alive. */
  ghost predicate TagsAt(ops: seq<AdapterOp>, i: nat, id: Id, t: Tag)
    requires i < |ops|
  {
    Tags(ops[i], id, t) && Alive(ops[..i], id)
  }

  lemma {:induction false} TagsSound(ops: seq<AdapterOp>, i: nat, id: Id, t: Tag)
    requires i <= |ops| && t in SeqAt(After(ops, i).tags, id)
    ensures id in After(ops, i).templates && t.name != ""
    decreases i
  {
    if i > 0 {
      AfterStep(ops, i - 1);
      AfterTidy(ops, i - 1);
      PlainIs(After(ops, i - 1), ops[i - 1]);
      EntryAfter(ops, i - 1, id);
      if t in SeqAt(After(ops, i - 1).tags, id) { TagsSound(ops, i - 1, id, t); }
      TagStepIs(After(ops, i - 1), ops[i - 1], id, t);
    }
  }

  /** The tags a client is shown of a template: each one put on it while it was alive such that no later request
      put a tag of that name on it, took it off or deleted the template. */
  lemma TagsShown(ops: seq<AdapterOp>, id: Id, t: Tag)
    ensures
      var reply := MemoryStep(After(ops, |ops|), ListTags(id)).1;
      reply.Tags? &&
      (t in reply.tags <==>
        exists k :: 0 <= k < |ops| && TagsAt(ops, k, id, t)
                    && forall j :: k < j < |ops| ==> !Untags(ops[j], id, t.name))
  {
    var holds := (i: nat) => i <= |ops| && t in SeqAt(After(ops, i).tags, id);
    var adds := (i: nat) => i < |ops| && TagsAt(ops, i, id, t);
    var ends := (i: nat) => i < |ops| && Untags(ops[i], id, t.name);
    forall i | 0 <= i < |ops| ensures holds(i + 1) <==> adds(i) || (holds(i) && !ends(i)) {
      TagAfter(ops, i, id, t);
    }
    LastWriter(|ops|, holds, adds, ends);
    assert forall j :: 0 <= j < |ops| ==> (Untags(ops[j], id, t.name) <==> ends(j));
    assert forall k :: 0 <= k < |ops| ==> (TagsAt(ops, k, id, t) <==> adds(k));
  }

  lemma TagAfter(ops: seq<AdapterOp>, i: nat, id: Id, t: Tag)
    requires i < |ops|
    ensures t in SeqAt(After(ops, i + 1).tags, id) <==>
      TagsAt(ops, i, id, t) || (t in SeqAt(After(ops, i).tags, id) && !Untags(ops[i], id, t.name))
  {
    AfterStep(ops, i);
    AfterTidy(ops, i);
    AfterPrefix(ops, i);
    AliveIs(ops[..i], id);
    PlainIs(After(ops, i), ops[i]);
    if t in SeqAt(After(ops, i).tags, id) { TagsSound(ops, i, id, t); }
    TagStepIs(After(ops, i), ops[i], id, t);
  }

  // ------------------------------------------------ aliases

  /** The request names the template by the alias while it is alive. */
  ghost predicate AliasesAt(ops: seq<AdapterOp>, i: nat, id: Id, a: Id)
    requires i < |ops|
  {
    ops[i] == NewAlias(id, a) && a != "" && Alive(ops[..i], id)
  }

  predicate Unaliases(op: AdapterOp, id: Id, a: Id) { op == DropAlias(id, a) || op == DropTemplate(id) }

  /** The alias was given to the template, and not taken from it since. */
  ghost predicate Listed(ops: seq<AdapterOp>, id: Id, a: Id) {
    exists k :: 0 <= k < |ops| && AliasesAt(ops, k, id, a) && forall j :: k < j < |ops| ==> !Unaliases(ops[j], id, a)
  }

  lemma AliasStepIs(s: Memory, op: AdapterOp, id: Id, a: Id)
    requires NoDuplicates(SeqAt(s.aliases, id))
    ensures ListsAlias(Plain(s, op), id, a) <==>
      || (op == NewAlias(id, a) && a != "" && id in s.templates)
      || (ListsAlias(s, id, a) && !Unaliases(op, id, a))
  {
    match op {
      case NewAlias(x, y) => H.AliasStepIs(s, AddAlias(x, y), MemoryStep(s, AddAlias(x, y)).0, id, a);
      case DropAlias(x, y) => H.AliasStepIs(s, RemoveAlias(x, y), MemoryStep(s, RemoveAlias(x, y)).0, id, a);
      case NewTag(x, name, b, now) => MemoryFrame(s, SaveTag(x, Tag(name, x, b, now)));
      case DropTag(x, name) => MemoryFrame(s, DeleteTag(x, name));
      case _ =>
    }
  }

  lemma AliasAfter(ops: seq<AdapterOp>, i: nat, id: Id, a: Id)
    requires i < |ops|
    ensures ListsAlias(After(ops, i + 1), id, a) <==>
      AliasesAt(ops, i, id, a) || (ListsAlias(After(ops, i), id, a) && !Unaliases(ops[i], id, a))
  {
    AfterStep(ops, i);
    AfterTidy(ops, i);
    AfterPrefix(ops, i);
    AliveIs(ops[..i], id);
    PlainIs(After(ops, i), ops[i]);
    AliasStepIs(After(ops, i), ops[i], id, a);
  }

  /** The aliases of a template: each one given to it while it was alive and not taken from it since. */
  lemma AliasesListed(ops: seq<AdapterOp>, id: Id, a: Id)
    ensures
      var reply := MemoryStep(After(ops, |ops|), ListAliases(id)).1;
      reply.Aliases? && (a in reply.aliases <==> Listed(ops, id, a))
  {
    var holds := (i: nat) => i <= |ops| && ListsAlias(After(ops, i), id, a);
    var adds := (i: nat) => i < |ops| && AliasesAt(ops, i, id, a);
    var ends := (i: nat) => i < |ops| && Unaliases(ops[i], id, a);
    forall i | 0 <= i < |ops| ensures holds(i + 1) <==> adds(i) || (holds(i) && !ends(i)) {
      AliasAfter(ops, i, id, a);
    }
    LastWriter(|ops|, holds, adds, ends);
    assert forall j :: 0 <= j < |ops| ==> (Unaliases(ops[j], id, a) <==> ends(j));
    assert forall k :: 0 <= k < |ops| ==> (AliasesAt(ops, k, id, a) <==> adds(k));
  }

  // ------------------------------------------------ builds

  /** The request makes the build for the template: its creation, or a rebuild while it is alive. */
  ghost predicate Builds(ops: seq<AdapterOp>, i: nat, id: Id, b: Id)
    requires i < |ops|
  {
    || (Creates(ops[i], id) && !Alive(ops[..i], id) && ops[i].buildID == b)
    || (ops[i].Rebuild? && ops[i].id == id && Alive(ops[..i], id) && ops[i].buildID == b)
  }

  lemma FiledStepIs(s: Memory, op: AdapterOp, id: Id, b: Id)
    ensures H.FiledIn(Plain(s, op), id, b) <==>
      || (Files(s.templates, op) && op.id == id && op.buildID == b)
      || (H.FiledIn(s, id, b) && !Drops(op, id))
  {
    match op {
      case NewAlias(x, a) => MemoryFrame(s, AddAlias(x, a));
      case DropAlias(x, a) => MemoryFrame(s, RemoveAlias(x, a));
      case NewTag(x, name, y, now) => MemoryFrame(s, SaveTag(x, Tag(name, x, y, now)));
      case DropTag(x, name) => MemoryFrame(s, DeleteTag(x, name));
      case _ =>
    }
  }

  lemma FiledAfter(ops: seq<AdapterOp>, i: nat, id: Id, b: Id)
    requires i < |ops|
    ensures H.FiledIn(After(ops, i + 1), id, b) <==>
      Builds(ops, i, id, b) || (H.FiledIn(After(ops, i), id, b) && !Drops(ops[i], id))
  {
    AfterStep(ops, i);
    AfterPrefix(ops, i);
    AliveIs(ops[..i], id);
    PlainIs(After(ops, i), ops[i]);
    FiledStepIs(After(ops, i), ops[i], id, b);
  }

  /** The build was made for the template, which has not been deleted since. */
  ghost predicate Kept(ops: seq<AdapterOp>, id: Id, b: Id) {
    exists k :: 0 <= k < |ops| && Builds(ops, k, id, b) && forall j :: k < j < |ops| ==> !Drops(ops[j], id)
  }

  lemma KeptIs(ops: seq<AdapterOp>, id: Id, b: Id)
    ensures H.FiledIn(After(ops, |ops|), id, b) <==> Kept(ops, id, b)
  {
    var holds := (i: nat) => i <= |ops| && H.FiledIn(After(ops, i), id, b);
    var adds := (i: nat) => i < |ops| && Builds(ops, i, id, b);
    var ends := (i: nat) => i < |ops| && Drops(ops[i], id);
    forall i | 0 <= i < |ops| ensures holds(i + 1) <==> adds(i) || (holds(i) && !ends(i)) {
      FiledAfter(ops, i, id, b);
    }
    LastWriter(|ops|, holds, adds, ends);
    assert forall j :: 0 <= j < |ops| ==> (Drops(ops[j], id) <==> ends(j));
    assert forall k :: 0 <= k < |ops| ==> (Builds(ops, k, id, b) <==> adds(k));
  }

  /** A build is known: made, and no template that kept it deleted since. */
  ghost predicate Known(ops: seq<AdapterOp>, b: Id) {
    exists k :: 0 <= k < |ops| && Builds(ops, k, ops[k].id, b) && forall j :: k < j < |ops| ==> !Forgets(ops, j, b)
  }

  ghost predicate Forgets(ops: seq<AdapterOp>, i: nat, b: Id)
    requires i < |ops|
  {
    ops[i].DropTemplate? && Kept(ops[..i], ops[i].id, b)
  }

  lemma KnownStepIs(s: Memory, op: AdapterOp, b: Id)
    ensures b in Plain(s, op).builds <==>
      || (Files(s.templates, op) && op.buildID == b)
      || (b in s.builds && !(op.DropTemplate? && H.FiledIn(s, op.id, b)))
    ensures b in Plain(s, op).builds ==>
      Plain(s, op).builds[b] ==
        if Files(s.templates, op) && op.buildID == b then Build(b, "ready", "", "") else s.builds[b]
  {
    match op {
      case NewAlias(x, a) => MemoryFrame(s, AddAlias(x, a));
      case DropAlias(x, a) => MemoryFrame(s, RemoveAlias(x, a));
      case NewTag(x, name, y, now) => MemoryFrame(s, SaveTag(x, Tag(name, x, y, now)));
      case DropTag(x, name) => MemoryFrame(s, DeleteTag(x, name));
      case _ =>
    }
  }

  lemma KnownAfter(ops: seq<AdapterOp>, i: nat, b: Id)
    requires i < |ops|
    ensures b in After(ops, i + 1).builds <==>
      Builds(ops, i, ops[i].id, b) || (b in After(ops, i).builds && !Forgets(ops, i, b))
    ensures b in After(ops, i + 1).builds ==>
      After(ops, i + 1).builds[b] == Build(b, "ready", "", "")
      || (b in After(ops, i).builds && After(ops, i + 1).builds[b] == After(ops, i).builds[b])
  {
    AfterStep(ops, i);
    AfterPrefix(ops, i);
    AliveIs(ops[..i], ops[i].id);
    KeptIs(ops[..i], ops[i].id, b);
    PlainIs(After(ops, i), ops[i]);
    KnownStepIs(After(ops, i), ops[i], b);
  }

  lemma {:induction false} ReadyAt(ops: seq<AdapterOp>, i: nat, b: Id)
    requires i <= |ops| && b in After(ops, i).builds
    ensures After(ops, i).builds[b] == Build(b, "ready", "", "")
    decreases i
  {
    if i > 0 {
      KnownAfter(ops, i - 1, b);
      if b in After(ops, i - 1).builds { ReadyAt(ops, i - 1, b); }
    }
  }

  /** GetBuildStatus: every build that is known is ready, and no other is found. */
  lemma BuildShown(ops: seq<AdapterOp>, b: Id)
    ensures MemoryStep(After(ops, |ops|), GetBuild(b)).1 ==
      if Known(ops, b) then OneBuild(Build(b, "ready", "", "")) else Failed(BuildNotFound)
  {
    KnownIs(ops, b);
    if b in After(ops, |ops|).builds { ReadyAt(ops, |ops|, b); }
  }

  lemma KnownIs(ops: seq<AdapterOp>, b: Id)
    ensures b in After(ops, |ops|).builds <==> Known(ops, b)
  {
    var holds := (i: nat) => i <= |ops| && b in After(ops, i).builds;
    var adds := (i: nat) => i < |ops| && Builds(ops, i, ops[i].id, b);
    var ends := (i: nat) => i < |ops| && Forgets(ops, i, b);
    forall i | 0 <= i < |ops| ensures holds(i + 1) <==> adds(i) || (holds(i) && !ends(i)) {
      KnownAfter(ops, i, b);
    }
    LastWriter(|ops|, holds, adds, ends);
    assert forall j :: 0 <= j < |ops| ==> (Forgets(ops, j, b) <==> ends(j));
    assert forall k :: 0 <= k < |ops| ==> (Builds(ops, k, ops[k].id, b) <==> adds(k));
  }

  // ------------------------------------------------ what an alias stands for

  ghost predicate Claims(ops: seq<AdapterOp>, i: nat, id: Id, a: Id)
    requires i < |ops|
  {
    AliasesAt(ops, i, id, a) && !Listed(ops[..i], id, a)
  }

  ghost predicate EndsClaim(ops: seq<AdapterOp>, i: nat, a: Id)
    requires i < |ops|
  {
    || Claims(ops, i, ops[i].id, a)
    || (Unaliases(ops[i], ops[i].id, a) && Listed(ops[..i], ops[i].id, a))
  }

  lemma ClaimStepIs(s: Memory, op: AdapterOp, a: Id, id: Id)
    ensures H.ResolvesTo(Plain(s, op), a, id) <==>
      || (op == NewAlias(id, a) && a != "" && id in s.templates && !ListsAlias(s, id, a))
      || (&& H.ResolvesTo(s, a, id)
          && !(op == NewAlias(op.id, a) && a != "" && op.id in s.templates && !ListsAlias(s, op.id, a))
          && !(Unaliases(op, op.id, a) && ListsAlias(s, op.id, a)))
  {
    match op {
      case NewAlias(x, y) => H.ClaimStepIs(s, AddAlias(x, y), MemoryStep(s, AddAlias(x, y)).0, a, id);
      case DropAlias(x, y) => H.ClaimStepIs(s, RemoveAlias(x, y), MemoryStep(s, RemoveAlias(x, y)).0, a, id);
      case NewTag(x, name, b, now) => MemoryFrame(s, SaveTag(x, Tag(name, x, b, now)));
      case DropTag(x, name) => MemoryFrame(s, DeleteTag(x, name));
      case _ =>
    }
  }

  lemma ClaimAfter(ops: seq<AdapterOp>, i: nat, a: Id, id: Id)
    requires i < |ops|
    ensures H.ResolvesTo(After(ops, i + 1), a, id) <==>
      Claims(ops, i, id, a) || (H.ResolvesTo(After(ops, i), a, id) && !EndsClaim(ops, i, a))
  {
    AfterStep(ops, i);
    AfterPrefix(ops, i);
    AliveIs(ops[..i], id);
    AliveIs(ops[..i], ops[i].id);
    AliasesListed(ops[..i], id, a);
    AliasesListed(ops[..i], ops[i].id, a);
    PlainIs(After(ops, i), ops[i]);
    ClaimStepIs(After(ops, i), ops[i], a, id);
  }

  /** An alias stands for the template that claimed it last, unless it has been taken since from any template
      that had it. */
  lemma AliasResolves(ops: seq<AdapterOp>, a: Id, id: Id)
    ensures MemoryStep(After(ops, |ops|), ResolveAlias(a)).1 == Resolved(id) <==>
      exists k :: 0 <= k < |ops| && Claims(ops, k, id, a) && forall j :: k < j < |ops| ==> !EndsClaim(ops, j, a)
  {
    var holds := (i: nat) => i <= |ops| && H.ResolvesTo(After(ops, i), a, id);
    var adds := (i: nat) => i < |ops| && Claims(ops, i, id, a);
    var ends := (i: nat) => i < |ops| && EndsClaim(ops, i, a);
    forall i | 0 <= i < |ops| ensures holds(i + 1) <==> adds(i) || (holds(i) && !ends(i)) {
      ClaimAfter(ops, i, a, id);
    }
    LastWriter(|ops|, holds, adds, ends);
    assert forall j :: 0 <= j < |ops| ==> (EndsClaim(ops, j, a) <==> ends(j));
    assert forall k :: 0 <= k < |ops| ==> (Claims(ops, k, id, a) <==> adds(k));
  }
}
