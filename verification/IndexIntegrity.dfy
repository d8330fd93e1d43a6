/**
 Referential integrity of the indexes that both template stores keep: builds by
 identifier and by template, aliases by template and in reverse.
 */
module IndexIntegrity {
  import opened TemplateStore

  // ------------------------------------------------ builds

  predicate Filed(filed: map<Id, set<Id>>, id: Id, b: Id) { b in SetAt(filed, id) }

  /** Each template's current build is filed under it. */
  ghost predicate CurrentBuildsSound(templates: map<Id, Entry>, filed: map<Id, set<Id>>) {
    forall id :: id in templates ==> templates[id].templateID == id && Filed(filed, id, templates[id].buildID)
  }

  /** The builds are exactly the disjoint union of the per-template sets. */
  ghost predicate BuildsPartitioned(builds: map<Id, Build>, filed: map<Id, set<Id>>) {
    && (forall id, b :: Filed(filed, id, b) ==> b in builds)
    && (forall b :: b in builds ==> exists id :: Filed(filed, id, b))
    && (forall id, id', b :: Filed(filed, id, b) && Filed(filed, id', b) ==> id == id')
  }

  /** Only templates own something. */
  ghost predicate OnlyTemplates(templates: map<Id, Entry>, owned: map<Id, set<Id>>) {
    forall id :: id in templates || SetAt(owned, id) == {}
  }

  ghost predicate BuildsSound(templates: map<Id, Entry>, builds: map<Id, Build>, filed: map<Id, set<Id>>) {
    CurrentBuildsSound(templates, filed) && BuildsPartitioned(builds, filed) && OnlyTemplates(templates, filed)
  }

  /** The index after a build has been filed. */
  function File(filed: map<Id, set<Id>>, id: Id, b: Id): map<Id, set<Id>> {
    filed[id := SetAt(filed, id) + {b}]
  }

  lemma FilePartition(builds: map<Id, Build>, filed: map<Id, set<Id>>, id: Id, b: Build)
    requires BuildsPartitioned(builds, filed) && (b.buildID !in builds || Filed(filed, id, b.buildID))
    ensures BuildsPartitioned(builds[b.buildID := b], File(filed, id, b.buildID))
  {
    var builds', filed' := builds[b.buildID := b], File(filed, id, b.buildID);
    assert forall x, y :: Filed(filed', x, y) <==> Filed(filed, x, y) || (x == id && y == b.buildID);
    forall y | y in builds' ensures exists x :: Filed(filed', x, y) {
      if y == b.buildID {
        assert Filed(filed', id, y);
      } else {
        var x :| Filed(filed, x, y);
        assert Filed(filed', x, y);
      }
    }
  }

  /** A build becomes the current one of a template. */
  lemma FileBuild(templates: map<Id, Entry>, builds: map<Id, Build>, filed: map<Id, set<Id>>, e: Entry, b: Build)
    requires BuildsSound(templates, builds, filed) && e.buildID == b.buildID
    requires b.buildID !in builds || Filed(filed, e.templateID, b.buildID)
    ensures BuildsSound(templates[e.templateID := e], builds[b.buildID := b], File(filed, e.templateID, b.buildID))
  {
    var id := e.templateID;
    var templates', filed' := templates[id := e], File(filed, id, b.buildID);
    FilePartition(builds, filed, id, b);
    forall x | x in templates' ensures templates'[x].templateID == x && Filed(filed', x, templates'[x].buildID) {
      if x != id { assert Filed(filed, x, templates[x].buildID); }
    }
  }

  /** A build filed under another template already breaks the partition. */
  lemma FileTwice(builds: map<Id, Build>, filed: map<Id, set<Id>>, id: Id, b: Build)
    requires BuildsPartitioned(builds, filed) && b.buildID in builds && !Filed(filed, id, b.buildID)
    ensures !BuildsPartitioned(builds[b.buildID := b], File(filed, id, b.buildID))
  {
    var owner :| Filed(filed, owner, b.buildID);
    var filed' := File(filed, id, b.buildID);
    assert Filed(filed', owner, b.buildID) && Filed(filed', id, b.buildID);
  }

  /** `m'` is `m` without what `id` owned. */
  ghost predicate Emptied(m: map<Id, set<Id>>, m': map<Id, set<Id>>, id: Id) {
    forall x :: SetAt(m', x) == if x == id then {} else SetAt(m, x)
  }

  lemma DropBuilds(templates: map<Id, Entry>, builds: map<Id, Build>, filed: map<Id, set<Id>>, filed': map<Id, set<Id>>,
                   id: Id)
    requires BuildsSound(templates, builds, filed) && Emptied(filed, filed', id)
    ensures BuildsSound(templates - {id}, builds - SetAt(filed, id), filed')
  {
    var builds' := builds - SetAt(filed, id);
    assert forall x, b :: Filed(filed', x, b) <==> x != id && Filed(filed, x, b);
    forall x, b | Filed(filed', x, b) ensures b in builds' {
      assert Filed(filed, x, b) && !Filed(filed, id, b);
    }
    forall b | b in builds' ensures exists x :: Filed(filed', x, b) {
      var x :| Filed(filed, x, b);
      assert Filed(filed', x, b);
    }
    forall x | x in templates - {id} ensures templates[x].templateID == x && Filed(filed', x, templates[x].buildID) {
      assert Filed(filed, x, templates[x].buildID);
    }
  }

  // ------------------------------------------------ aliases

  /** Each alias that resolves names an existing template that lists it. */
  ghost predicate AliasesSound(templates: map<Id, Entry>, listed: map<Id, set<Id>>, reverse: map<Id, Id>) {
    && (forall a :: a in reverse ==> reverse[a] in templates && a in SetAt(listed, reverse[a]))
    && OnlyTemplates(templates, listed)
  }

  /** A template comes to list an alias, whether it wins the reverse entry or not. */
  lemma Claim(templates: map<Id, Entry>, listed: map<Id, set<Id>>, reverse: map<Id, Id>,
              listed': map<Id, set<Id>>, reverse': map<Id, Id>, id: Id, a: Id)
    requires AliasesSound(templates, listed, reverse) && id in templates
    requires forall x :: SetAt(listed', x) == if x == id then SetAt(listed, id) + {a} else SetAt(listed, x)
    requires reverse' == reverse[a := id] || reverse' == reverse
    ensures AliasesSound(templates, listed', reverse')
  {
    forall x | x in reverse' ensures reverse'[x] in templates && x in SetAt(listed', reverse'[x]) {
      if x in reverse { assert x in SetAt(listed, reverse[x]); }
    }
    forall x ensures x in templates || SetAt(listed', x) == {} {
      assert x in templates || SetAt(listed, x) == {};
    }
  }

  /** A template gives an alias up. */
  lemma Release(templates: map<Id, Entry>, listed: map<Id, set<Id>>, reverse: map<Id, Id>, listed': map<Id, set<Id>>,
                a: Id)
    requires AliasesSound(templates, listed, reverse)
    requires forall x :: SetAt(listed, x) - {a} <= SetAt(listed', x) <= SetAt(listed, x)
    ensures AliasesSound(templates, listed', reverse - {a})
  {
    var reverse' := reverse - {a};
    forall x | x in reverse' ensures reverse'[x] in templates && x in SetAt(listed', reverse'[x]) {
      assert x in SetAt(listed, reverse[x]) - {a};
    }
    forall x ensures x in templates || SetAt(listed', x) == {} {
      assert SetAt(listed', x) <= SetAt(listed, x);
    }
  }

  lemma DropAliases(templates: map<Id, Entry>, listed: map<Id, set<Id>>, reverse: map<Id, Id>,
                    listed': map<Id, set<Id>>, id: Id)
    requires AliasesSound(templates, listed, reverse) && Emptied(listed, listed', id)
    ensures AliasesSound(templates - {id}, listed', reverse - SetAt(listed, id))
    ensures forall a :: a in reverse - SetAt(listed, id) ==> reverse[a] != id
  {
    var reverse' := reverse - SetAt(listed, id);
    forall a | a in reverse' ensures reverse'[a] in templates - {id} && a in SetAt(listed', reverse'[a]) {
      assert a in SetAt(listed, reverse[a]) && a !in SetAt(listed, id);
    }
    forall x ensures x in templates - {id} || SetAt(listed', x) == {} {
      assert x in templates || SetAt(listed, x) == {};
    }
  }

  /** Entering a template changes nothing for the aliases. */
  lemma EnterTemplate(templates: map<Id, Entry>, listed: map<Id, set<Id>>, reverse: map<Id, Id>, id: Id, e: Entry)
    requires AliasesSound(templates, listed, reverse)
    ensures AliasesSound(templates[id := e], listed, reverse)
  {
  }
}
