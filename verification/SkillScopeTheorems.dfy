/** What the move of Skill ownership keeps, when it is refused, and what the way back restores. */
module SkillScopeTheorems {
  import opened Identity
  import opened Wrappers
  import opened Sets
  import opened SkillScope

  // ---- Catalogs ---------------------------------------------------------------------------

  /** What a project could run before 0017: the published versions of the sources it owns. */
  ghost function OwnedCatalog(db: Db, project: Id): set<Id>
    requires References(db) && db.sourceProject.Keys == db.sources.Keys
  {
    set v | v in db.versions && db.versions[v].status == PUBLISHED
      && db.sourceProject[db.versions[v].source] == project
  }

  /** What a project can run afterwards: the versions it has enabled and not disabled. */
  ghost function EnabledCatalog(db: Db, project: Id): set<Id> {
    set b | b in db.bindings && b.0 == project && db.bindings[b].disabledAt.None? :: b.1
  }

  // ---- 0017 alone -------------------------------------------------------------------------

  lemma SeedKeys(db: Db, project: Id, v: Id)
    requires References(db) && db.sourceProject.Keys == db.sources.Keys
    ensures (project, v) in Seed(db, db.versions.Keys)
       <==> v in db.versions && db.versions[v].status == PUBLISHED && db.sourceProject[db.versions[v].source] == project
  {
  }

  /** 0017 succeeds exactly when no source is orphaned, and can then be undone without a trace. */
  lemma Upgrade17Exact(db: Db)
    requires Valid15(db)
    ensures Upgrade17(db).Ok? <==> forall s | s in db.sources :: db.sourceProject[s] in db.projects
    ensures Upgrade17(db).Ok? ==> Valid17(Upgrade17(db).value) && Downgrade17(Upgrade17(db).value) == db
  {
    if Upgrade17(db).Ok? {
      var after := Upgrade17(db).value;
      assert after.sourceOrg.Keys == after.sources.Keys;
      forall b | b in after.bindings ensures b.0 in after.projects && b.1 in after.versions {
        SeedKeys(db.(sourceOrg := Backfill(db)), b.0, b.1);
      }
    }
  }

  /** The seed keeps every project's catalog, and never trips the scope guard of 0018. */
  lemma SeedKeepsCatalogs(db: Db)
    requires Valid15(db) && Upgrade17(db).Ok?
    ensures Valid17(Upgrade17(db).value)
    ensures forall p: Id :: EnabledCatalog(Upgrade17(db).value, p) == OwnedCatalog(db, p)
    ensures forall b | b in Upgrade17(db).value.bindings :: InScope(Upgrade17(db).value, b)
  {
    Upgrade17Exact(db);
    var after := Upgrade17(db).value;
    var filled := db.(sourceOrg := Backfill(db));
    forall p: Id ensures EnabledCatalog(after, p) == OwnedCatalog(db, p) {
      forall v: Id ensures v in EnabledCatalog(after, p) <==> v in OwnedCatalog(db, p) {
        SeedKeys(filled, p, v);
        if v in OwnedCatalog(db, p) {
          assert (p, v) in after.bindings;
        }
      }
    }
    forall b | b in after.bindings ensures InScope(after, b) {
      SeedKeys(filled, b.0, b.1);
    }
  }

  /** Everything 0017 writes: one organization per source, one open binding per published version. */
  lemma BackfilledRows(db: Db)
    requires Valid15(db) && Upgrade17(db).Ok?
    ensures var after := Upgrade17(db).value;
            && after == db.(sourceOrg := after.sourceOrg, bindings := after.bindings)
            && after.sourceOrg.Keys == db.sources.Keys
            && (forall s | s in db.sources :: after.sourceOrg[s] == db.projects[db.sourceProject[s]])
            && (forall p: Id, v: Id :: (p, v) in after.bindings <==>
                 v in db.versions && db.versions[v].status == "PUBLISHED"
                 && db.sourceProject[db.versions[v].source] == p)
    ensures forall b | b in Upgrade17(db).value.bindings ::
              var row, version := Upgrade17(db).value.bindings[b], db.versions[b.1];
              && row.enabledBy == db.sources[version.source].importedBy && row.disabledAt == None
              && (version.publishedAt.Some? ==> row.enabledAt == version.publishedAt.value)
              && (version.publishedAt.None? ==> row.enabledAt == version.createdAt)
  {
    var filled := db.(sourceOrg := Backfill(db));
    forall p: Id, v: Id {
      SeedKeys(filled, p, v);
    }
    forall b | b in Upgrade17(db).value.bindings ensures Upgrade17(db).value.bindings[b] == SeedRow(filled, b.1) {
      SeedKeys(filled, b.0, b.1);
    }
  }

  // ---- The counting guards of 0018 --------------------------------------------------------

  /** No group of equal content counts two rows exactly when no two sources share owner and content. */
  lemma ContentGuardExact(sources: map<Id, Source>, owner: map<Id, Id>)
    requires owner.Keys == sources.Keys
    ensures DuplicateContent(sources, owner) <==> !UniqueContent(sources, owner)
  {
    forall s | s in sources
      ensures |ContentGroup(sources, owner, s)| > 1
         <==> exists t :: t in sources && t != s && SameContent(sources, owner, s, t)
    {
      var group := ContentGroup(sources, owner, s);
      MoreThanOne(group, s);
      assert forall t :: t in group <==> t in sources && SameContent(sources, owner, s, t);
    }
  }

  /** The unique key of 0018: two skills share a key only in different organizations. */
  lemma ScopedKeyExact(skills: map<Id, string>, org: map<Id, Id>)
    requires org.Keys == skills.Keys
    ensures UniqueScopedKey(skills, org)
       <==> forall s, t | s in skills && t in skills && s != t :: skills[s] == skills[t] ==> org[s] != org[t]
  {
    if UniqueScopedKey(skills, org) {
      forall s, t | s in skills && t in skills && s != t ensures skills[s] == skills[t] ==> org[s] != org[t] {
        assert SameScopedKey(skills, org, s, t) ==> s == t;
      }
    }
  }

  /** No group of equal keys counts two rows exactly when no two skills share a key. */
  lemma KeyGuardExact(skills: map<Id, string>)
    ensures DuplicateKey(skills) <==> !UniqueKey(skills)
  {
    forall s | s in skills
      ensures |KeyGroup(skills, s)| > 1 <==> exists t :: t in skills && t != s && SameKey(skills, s, t)
    {
      var group := KeyGroup(skills, s);
      MoreThanOne(group, s);
      assert forall t :: t in group <==> t in skills && SameKey(skills, s, t);
    }
  }

  /** A published version enabled inside the organization of its source. */
  ghost predicate InScope(db: Db, b: (Id, Id))
    requires References(db) && BindingReferences(db) && SourceOrganizations(db) && b in db.bindings
  {
    db.versions[b.1].status == PUBLISHED && db.projects[b.0] == db.sourceOrg[db.versions[b.1].source]
  }

  lemma BindingGuardExact(db: Db)
    requires References(db) && BindingReferences(db) && SourceOrganizations(db)
    ensures |InvalidBindings(db)| > 0 <==> exists b :: b in db.bindings && !InScope(db, b)
  {
    if b :| b in db.bindings && !InScope(db, b) {
      SubsetSize({b}, InvalidBindings(db));
    }
    assert |InvalidBindings(db)| > 0 ==> InvalidBindings(db) != {};
  }

  // ---- 0018 -------------------------------------------------------------------------------

  /** After 0018 every skill belongs to the one organization all its versions' sources belong to. */
  ghost predicate SkillsFollowSources(db: Db)
    requires References(db) && SourceOrganizations(db) && db.skillOrg.Keys == db.skills.Keys
  {
    && (forall v | v in db.versions :: db.skillOrg[db.versions[v].skill] == db.sourceOrg[db.versions[v].source])
    && (forall s | s in db.skills :: HasVersion(db, s))
  }

  /** The two skill guards of 0018 together: every skill has exactly one organization. */
  lemma SkillGuards(db: Db)
    requires References(db) && SourceOrganizations(db)
    requires SkillsScoped(db)
    ensures forall s | s in db.skills :: OrganizationsOf(db, s) == {SkillOrganizations(db)[s]}
  {
    forall s | s in db.skills ensures OrganizationsOf(db, s) == {SkillOrganizations(db)[s]} {
      AtMostOneValue(OrganizationsOf(db, s));
    }
  }

  lemma ScopedVersion(db: Db, v: Id)
    requires References(db) && SourceOrganizations(db) && v in db.versions
    ensures db.sourceOrg[db.versions[v].source] in OrganizationsOf(db, db.versions[v].skill)
  {
  }

  lemma ScopedOrganizations(db: Db, s: Id)
    requires References(db) && SourceOrganizations(db) && s in db.skills
    ensures OrganizationsOf(db, s) <= db.organizations
    ensures OrganizationsOf(db, s) != {} ==> HasVersion(db, s)
  {
  }

  lemma KeyStaysUnique(skills: map<Id, string>, org: map<Id, Id>)
    requires UniqueKey(skills) && org.Keys == skills.Keys
    ensures UniqueScopedKey(skills, org)
  {
    forall s, t | s in skills && t in skills && SameScopedKey(skills, org, s, t) ensures s == t {
      assert SameKey(skills, s, t);
    }
  }

  /** Two versions of one skill. */
  ghost predicate Siblings(db: Db, s: Id, v: Id, w: Id) {
    v in db.versions && w in db.versions && db.versions[v].skill == s && db.versions[w].skill == s
  }

  /** All versions of the skill hang on sources of one organization. */
  ghost predicate OneOrganizationSkill(db: Db, s: Id)
    requires References(db) && SourceOrganizations(db)
  {
    forall v, w {:trigger Siblings(db, s, v, w)} | Siblings(db, s, v, w)
      :: db.sourceOrg[db.versions[v].source] == db.sourceOrg[db.versions[w].source]
  }

  ghost predicate HasVersion(db: Db, s: Id) {
    exists v :: v in db.versions && db.versions[v].skill == s
  }

  /** The guards of 0018, said without its aggregates. */
  ghost predicate Scopable(db: Db)
    requires Valid17(db)
  {
    && UniqueContent(db.sources, db.sourceOrg)
    && (forall b | b in db.bindings :: InScope(db, b))
    && (forall s | s in db.skills :: OneOrganizationSkill(db, s) && HasVersion(db, s))
  }

  lemma SkillGuardExact(db: Db, s: Id)
    requires References(db) && SourceOrganizations(db) && s in db.skills
    ensures |OrganizationsOf(db, s)| <= 1 <==> OneOrganizationSkill(db, s)
    ensures s in SkillOrganizations(db) <==> HasVersion(db, s)
  {
    var orgs := OrganizationsOf(db, s);
    AtMostOneValue(orgs);
    forall v | v in db.versions && db.versions[v].skill == s ensures db.sourceOrg[db.versions[v].source] in orgs {
    }
    ScopedOrganizations(db, s);
    if OneOrganizationSkill(db, s) {
      forall x, y | x in orgs && y in orgs ensures x == y {
        var v :| v in db.versions && db.versions[v].skill == s && db.sourceOrg[db.versions[v].source] == x;
        var w :| w in db.versions && db.versions[w].skill == s && db.sourceOrg[db.versions[w].source] == y;
        assert Siblings(db, s, v, w);
      }
    }
  }

  lemma SkillGuardsExact(db: Db)
    requires References(db) && SourceOrganizations(db)
    ensures SkillsScoped(db)
       <==> (forall s | s in db.skills :: OneOrganizationSkill(db, s) && HasVersion(db, s))
  {
    forall s | s in db.skills
      ensures |OrganizationsOf(db, s)| <= 1 <==> OneOrganizationSkill(db, s)
      ensures s in SkillOrganizations(db) <==> HasVersion(db, s)
    {
      SkillGuardExact(db, s);
    }
  }

  /** The counting guards of 0018 let through exactly the databases without the conflicts they look for. */
  lemma Upgrade18Exact(db: Db)
    requires Valid17(db)
    ensures Upgrade18(db).Ok? <==> Scopable(db)
  {
    GuardsInOrder(db);
    ContentGuardExact(db.sources, db.sourceOrg);
    BindingGuardExact(db);
    SkillGuardsExact(db);
  }

  /** The new column: every skill gets an existing organization, the one behind all its versions. */
  lemma ScopedColumn(db: Db)
    requires References(db) && SourceOrganizations(db)
    requires SkillsScoped(db)
    ensures SkillOrganizations(db).Keys == db.skills.Keys
    ensures forall s | s in db.skills :: SkillOrganizations(db)[s] in db.organizations && HasVersion(db, s)
    ensures forall v | v in db.versions ::
              SkillOrganizations(db)[db.versions[v].skill] == db.sourceOrg[db.versions[v].source]
  {
    SkillGuards(db);
    forall s | s in db.skills ensures SkillOrganizations(db)[s] in db.organizations && HasVersion(db, s) {
      ScopedOrganizations(db, s);
      assert SkillOrganizations(db)[s] in OrganizationsOf(db, s);
    }
    forall v | v in db.versions
      ensures SkillOrganizations(db)[db.versions[v].skill] == db.sourceOrg[db.versions[v].source]
    {
      ScopedVersion(db, v);
    }
  }

  lemma ScopedIsValid(db: Db, orgs: map<Id, Id>)
    requires Valid17(db) && UniqueContent(db.sources, db.sourceOrg) && orgs.Keys == db.skills.Keys
    requires forall s | s in db.skills :: orgs[s] in db.organizations
    ensures Valid18(db.(skillOrg := orgs, sourceProject := map[]))
  {
    KeyStaysUnique(db.skills, orgs);
  }

  /** A successful 0018 meets every constraint of its schema and keeps all enablements. */
  lemma Upgrade18Sound(db: Db)
    requires Valid17(db) && Upgrade18(db).Ok?
    ensures Valid18(Upgrade18(db).value) && SkillsFollowSources(Upgrade18(db).value)
    ensures Upgrade18(db).value.bindings == db.bindings
  {
    GuardsInOrder(db);
    ContentGuardExact(db.sources, db.sourceOrg);
    ScopedColumn(db);
    ScopedIsValid(db, SkillOrganizations(db));
  }

  /** The organization a source has through its project, before 0017 gives it one of its own. */
  ghost function ProjectOrganization(db: Db, source: Id): Id
    requires References(db) && db.sourceProject.Keys == db.sources.Keys && source in db.sources
  {
    if db.sourceProject[source] in db.projects then db.projects[db.sourceProject[source]] else 0
  }

  ghost predicate SameContentInOrganization(db: Db, s: Id, t: Id)
    requires References(db) && db.sourceProject.Keys == db.sources.Keys && s in db.sources && t in db.sources
  {
    ProjectOrganization(db, s) == ProjectOrganization(db, t) && db.sources[s].contentHash == db.sources[t].contentHash
  }

  ghost predicate OneOwnerSkill(db: Db, s: Id)
    requires References(db) && db.sourceProject.Keys == db.sources.Keys
  {
    forall v, w {:trigger Siblings(db, s, v, w)} | Siblings(db, s, v, w)
      :: ProjectOrganization(db, db.versions[v].source) == ProjectOrganization(db, db.versions[w].source)
  }

  /** In terms of the database before 0017: when both upgrades go through. */
  ghost predicate Movable(db: Db)
    requires Valid15(db)
  {
    && (forall s | s in db.sources :: db.sourceProject[s] in db.projects)
    && (forall s, t {:trigger SameContentInOrganization(db, s, t)}
          | s in db.sources && t in db.sources && SameContentInOrganization(db, s, t) :: s == t)
    && (forall s | s in db.skills :: OneOwnerSkill(db, s) && HasVersion(db, s))
  }

  /** 0017 turns the organization of a source's project into the source's own. */
  lemma BackfilledScope(db: Db, mid: Db)
    requires Valid15(db) && Valid17(mid) && mid.versions == db.versions && mid.skills == db.skills
    requires mid.sources == db.sources
    requires forall s | s in db.sources :: db.sourceProject[s] in db.projects
    requires forall s | s in db.sources :: mid.sourceOrg[s] == ProjectOrganization(db, s)
    ensures Movable(db)
       <==> (UniqueContent(mid.sources, mid.sourceOrg)
             && forall s | s in db.skills :: OneOrganizationSkill(mid, s) && HasVersion(mid, s))
  {
    forall s | s in db.skills
      ensures OneOrganizationSkill(mid, s) <==> OneOwnerSkill(db, s)
      ensures HasVersion(mid, s) <==> HasVersion(db, s)
    {
      BackfilledSkill(db, mid, s);
    }
    BackfilledContent(db, mid);
  }

  lemma BackfilledSkill(db: Db, mid: Db, s: Id)
    requires References(db) && References(mid) && SourceOrganizations(mid)
    requires mid.versions == db.versions && mid.sources == db.sources && db.sourceProject.Keys == db.sources.Keys
    requires forall t | t in db.sources :: mid.sourceOrg[t] == ProjectOrganization(db, t)
    ensures OneOrganizationSkill(mid, s) <==> OneOwnerSkill(db, s)
    ensures HasVersion(mid, s) <==> HasVersion(db, s)
  {
    forall v, w ensures Siblings(mid, s, v, w) <==> Siblings(db, s, v, w) {
    }
  }

  lemma BackfilledContent(db: Db, mid: Db)
    requires References(db) && db.sourceProject.Keys == db.sources.Keys
    requires mid.sources == db.sources && mid.sourceOrg.Keys == mid.sources.Keys
    requires forall t | t in db.sources :: mid.sourceOrg[t] == ProjectOrganization(db, t)
    ensures UniqueContent(mid.sources, mid.sourceOrg)
       <==> (forall s, t {:trigger SameContentInOrganization(db, s, t)}
               | s in db.sources && t in db.sources && SameContentInOrganization(db, s, t) :: s == t)
  {
    forall s, t | s in db.sources && t in db.sources
      ensures SameContent(mid.sources, mid.sourceOrg, s, t) <==> SameContentInOrganization(db, s, t) {
    }
  }

  /** Both upgrades succeed exactly on movable databases; the catalogs survive the whole move. */
  lemma MoveExact(db: Db)
    requires Valid15(db)
    ensures Upgrade17(db).Ok? ==> Valid17(Upgrade17(db).value)
    ensures (Upgrade17(db).Ok? && Upgrade18(Upgrade17(db).value).Ok?) <==> Movable(db)
    ensures Movable(db) ==>
      forall p: Id :: EnabledCatalog(Upgrade18(Upgrade17(db).value).value, p) == OwnedCatalog(db, p)
  {
    Upgrade17Exact(db);
    if Upgrade17(db).Ok? {
      var mid := Upgrade17(db).value;
      SeedKeepsCatalogs(db);
      Upgrade18Exact(mid);
      BackfilledScope(db, mid);
      if Upgrade18(mid).Ok? {
        Upgrade18Sound(mid);
        forall p: Id ensures EnabledCatalog(Upgrade18(mid).value, p) == OwnedCatalog(db, p) {
          assert EnabledCatalog(Upgrade18(mid).value, p) == EnabledCatalog(mid, p);
        }
      }
    }
  }

  // ---- The way back -----------------------------------------------------------------------

  ghost predicate Bound(db: Db, s: Id, b: (Id, Id))
    requires BindingReferences(db)
  {
    b in db.bindings && db.versions[b.1].source == s
  }

  /** The source has a binding, and all its bindings name one project. */
  ghost predicate OneProjectSource(db: Db, s: Id)
    requires BindingReferences(db)
  {
    exists b :: Bound(db, s, b) && forall a | Bound(db, s, a) :: a.0 == b.0
  }

  lemma BoundProject(db: Db, s: Id, b: (Id, Id))
    requires BindingReferences(db) && Bound(db, s, b)
    ensures b.0 in ProjectsOf(db, s)
  {
  }

  lemma OneProject(db: Db, s: Id)
    requires BindingReferences(db)
    ensures |ProjectsOf(db, s)| == 1 <==> OneProjectSource(db, s)
  {
    var projects := ProjectsOf(db, s);
    AtMostOneValue(projects);
    forall b | Bound(db, s, b) ensures b.0 in projects {
      BoundProject(db, s, b);
    }
    forall p | p in projects ensures exists b :: Bound(db, s, b) && b.0 == p {
      var b :| b in db.bindings && db.versions[b.1].source == s && b.0 == p;
      assert Bound(db, s, b);
    }
    assert |projects| == 0 <==> projects == {};
  }

  lemma RestoredProject(db: Db, s: Id, b: (Id, Id))
    requires BindingReferences(db) && s in db.sources && |ProjectsOf(db, s)| == 1 && Bound(db, s, b)
    ensures s in RestoredProjects(db) && RestoredProjects(db)[s] == b.0
  {
    BoundProject(db, s, b);
    AtMostOneValue(ProjectsOf(db, s));
  }

  /** The restored column, source by source. */
  lemma RestoredColumn(db: Db)
    requires References(db) && BindingReferences(db) && forall s | s in db.sources :: |ProjectsOf(db, s)| == 1
    ensures RestoredProjects(db).Keys == db.sources.Keys
    ensures forall b | b in db.bindings :: RestoredProjects(db)[db.versions[b.1].source] == b.0
  {
    forall s | s in db.sources ensures s in RestoredProjects(db) {
      OneProject(db, s);
      var b :| Bound(db, s, b);
      RestoredProject(db, s, b);
    }
    forall b | b in db.bindings ensures RestoredProjects(db)[db.versions[b.1].source] == b.0 {
      RestoredProject(db, db.versions[b.1].source, b);
    }
  }

  ghost predicate SameContentInProject(db: Db, a: (Id, Id), b: (Id, Id))
    requires References(db) && BindingReferences(db)
  {
    && a in db.bindings && b in db.bindings && a.0 == b.0
    && db.sources[db.versions[a.1].source].contentHash == db.sources[db.versions[b.1].source].contentHash
  }

  /** No project is bound to two sources of equal content. */
  ghost predicate ContentOncePerProject(db: Db)
    requires References(db) && BindingReferences(db)
  {
    forall a, b | SameContentInProject(db, a, b) :: db.versions[a.1].source == db.versions[b.1].source
  }

  lemma ContentFromProjects(db: Db, column: map<Id, Id>)
    requires References(db) && BindingReferences(db) && column.Keys == db.sources.Keys
    requires forall b | b in db.bindings :: column[db.versions[b.1].source] == b.0
    requires UniqueContent(db.sources, column)
    ensures ContentOncePerProject(db)
  {
    forall a, b | SameContentInProject(db, a, b) ensures db.versions[a.1].source == db.versions[b.1].source {
      assert SameContent(db.sources, column, db.versions[a.1].source, db.versions[b.1].source);
    }
  }

  lemma ProjectsFromContent(db: Db, column: map<Id, Id>)
    requires References(db) && BindingReferences(db) && column.Keys == db.sources.Keys
    requires forall b | b in db.bindings :: column[db.versions[b.1].source] == b.0
    requires forall s | s in db.sources :: exists b :: Bound(db, s, b)
    requires ContentOncePerProject(db)
    ensures UniqueContent(db.sources, column)
  {
    forall s, t | s in db.sources && t in db.sources && SameContent(db.sources, column, s, t) ensures s == t {
      var a :| Bound(db, s, a);
      var b :| Bound(db, t, b);
      assert SameContentInProject(db, a, b);
    }
  }

  /** Every source is bound to exactly one project, and the two old unique keys would hold again. */
  ghost predicate Returnable(db: Db)
    requires Valid18(db)
  {
    && (forall s | s in db.sources :: OneProjectSource(db, s))
    && ContentOncePerProject(db)
    && UniqueKey(db.skills)
  }

  lemma RestoredOwners(db: Db)
    requires References(db) && BindingReferences(db)
    requires forall s | s in db.sources :: OneProjectSource(db, s)
    ensures RestoredProjects(db).Keys == db.sources.Keys
    ensures UniqueContent(db.sources, RestoredProjects(db)) <==> ContentOncePerProject(db)
  {
    DistinctProjects(db);
    RestoredColumn(db);
    if ContentOncePerProject(db) {
      ProjectsFromContent(db, RestoredProjects(db));
    }
    if UniqueContent(db.sources, RestoredProjects(db)) {
      ContentFromProjects(db, RestoredProjects(db));
    }
  }

  lemma DistinctProjects(db: Db)
    requires BindingReferences(db)
    ensures (exists s :: s in db.sources && |ProjectsOf(db, s)| != 1)
       <==> !(forall s | s in db.sources :: OneProjectSource(db, s))
  {
    forall s | s in db.sources ensures |ProjectsOf(db, s)| == 1 <==> OneProjectSource(db, s) {
      OneProject(db, s);
    }
  }

  lemma RefusedWhenAmbiguous(db: Db)
    requires Valid18(db) && exists s :: s in db.sources && |ProjectsOf(db, s)| != 1
    ensures Downgrade18(db).Refused?
  {
  }

  lemma DecidedByKeys(db: Db)
    requires Valid18(db) && !exists s :: s in db.sources && |ProjectsOf(db, s)| != 1
    requires RestoredProjects(db).Keys == db.sources.Keys
    ensures Downgrade18(db).Ok? <==> UniqueContent(db.sources, RestoredProjects(db)) && UniqueKey(db.skills)
  {
    KeyGuardExact(db.skills);
  }

  /** For every 0018 database: the downgrade goes through exactly when nothing is ambiguous. */
  lemma Downgrade18Exact(db: Db)
    requires Valid18(db)
    ensures Downgrade18(db).Ok? <==> Returnable(db)
  {
    DistinctProjects(db);
    if forall s | s in db.sources :: OneProjectSource(db, s) {
      RestoredOwners(db);
      DecidedByKeys(db);
    } else {
      RefusedWhenAmbiguous(db);
    }
  }

  /** Whatever comes back meets every constraint of the 0017 schema. */
  lemma Downgrade18Sound(db: Db)
    requires Valid18(db) && Downgrade18(db).Ok?
    ensures Valid17(Downgrade18(db).value)
  {
    KeyGuardExact(db.skills);
  }

  // ---- Round trips ------------------------------------------------------------------------

  ghost predicate HasPublished(db: Db, s: Id) {
    exists v :: v in db.versions && db.versions[v].status == PUBLISHED && db.versions[v].source == s
  }

  /** A published version paired with the project that owned its source before 0017. */
  ghost predicate IsSeed(db: Db, b: (Id, Id))
    requires References(db) && db.sourceProject.Keys == db.sources.Keys
  {
    b.1 in db.versions && db.versions[b.1].status == PUBLISHED && db.sourceProject[db.versions[b.1].source] == b.0
  }

  /** The bindings are the seeded ones, and versions and sources are those of db. */
  ghost predicate Seeded(db: Db, top: Db)
    requires References(db) && db.sourceProject.Keys == db.sources.Keys
  {
    && top.versions == db.versions && top.sources == db.sources
    && forall b: (Id, Id) :: b in top.bindings <==> IsSeed(db, b)
  }

  /** So it is after both upgrades. */
  lemma MovedIsSeeded(db: Db)
    requires Valid15(db) && Upgrade17(db).Ok? && Valid17(Upgrade17(db).value) && Upgrade18(Upgrade17(db).value).Ok?
    ensures Seeded(db, Upgrade18(Upgrade17(db).value).value)
  {
    var mid := Upgrade17(db).value;
    GuardsInOrder(mid);
    forall b: (Id, Id) ensures b in mid.bindings <==> IsSeed(db, b) {
      SeedKeys(db.(sourceOrg := Backfill(db)), b.0, b.1);
    }
  }

  lemma PublishedIsBound(db: Db, top: Db, s: Id)
    requires References(db) && db.sourceProject.Keys == db.sources.Keys && Seeded(db, top) && BindingReferences(top)
    requires HasPublished(db, s)
    ensures OneProjectSource(top, s)
  {
    var v :| v in db.versions && db.versions[v].status == PUBLISHED && db.versions[v].source == s;
    var b := (db.sourceProject[s], v);
    assert IsSeed(db, b);
    assert Bound(top, s, b);
    forall a | Bound(top, s, a) ensures a.0 == b.0 {
      assert IsSeed(db, a);
    }
  }

  lemma BoundIsPublished(db: Db, top: Db, s: Id)
    requires References(db) && db.sourceProject.Keys == db.sources.Keys && Seeded(db, top) && BindingReferences(top)
    requires OneProjectSource(top, s)
    ensures HasPublished(db, s)
  {
    var b :| Bound(top, s, b);
    assert IsSeed(db, b);
  }

  lemma SeededSource(db: Db, top: Db, s: Id)
    requires References(db) && db.sourceProject.Keys == db.sources.Keys && Seeded(db, top) && BindingReferences(top)
    ensures OneProjectSource(top, s) <==> HasPublished(db, s)
  {
    if HasPublished(db, s) {
      PublishedIsBound(db, top, s);
    }
    if OneProjectSource(top, s) {
      BoundIsPublished(db, top, s);
    }
  }

  lemma SeededContent(db: Db, top: Db)
    requires References(db) && db.sourceProject.Keys == db.sources.Keys && UniqueContent(db.sources, db.sourceProject)
    requires Seeded(db, top) && References(top) && BindingReferences(top)
    ensures ContentOncePerProject(top)
  {
    forall a, b | SameContentInProject(top, a, b) ensures db.versions[a.1].source == db.versions[b.1].source {
      assert IsSeed(db, a) && IsSeed(db, b);
      assert SameContent(db.sources, db.sourceProject, db.versions[a.1].source, db.versions[b.1].source);
    }
  }

  /**
   Undoing 0018 right after it: possible exactly when every source has a published version, and then
   it gives back the 0017 database itself, every source with its original project. Undoing 0017 as
   well gives back the original.
   */
  lemma MoveAndReturn(db: Db)
    requires Valid15(db) && Movable(db)
    ensures Upgrade17(db).Ok? && Valid17(Upgrade17(db).value) && Upgrade18(Upgrade17(db).value).Ok?
    ensures Valid18(Upgrade18(Upgrade17(db).value).value)
    ensures var back := Downgrade18(Upgrade18(Upgrade17(db).value).value);
            && (back.Ok? <==> forall s | s in db.sources :: HasPublished(db, s))
            && (back.Ok? ==> back == Upgrade17(db) && Downgrade17(back.value) == db)
  {
    MoveExact(db);
    Upgrade17Exact(db);
    var mid := Upgrade17(db).value;
    Upgrade18Sound(mid);
    var top := Upgrade18(mid).value;
    MovedIsSeeded(db);
    Downgrade18Exact(top);
    MovedIsReturnable(db, top);
    if Downgrade18(top).Ok? {
      DowngradedColumns(top);
      ReturnedProjects(db, top);
      GuardsInOrder(mid);
    }
  }

  lemma MovedIsReturnable(db: Db, top: Db)
    requires Valid15(db) && Movable(db) && Valid18(top) && Seeded(db, top) && UniqueKey(top.skills)
    ensures Returnable(top) <==> forall s | s in db.sources :: HasPublished(db, s)
  {
    SeededContent(db, top);
    forall s | s in db.sources ensures OneProjectSource(top, s) <==> HasPublished(db, s) {
      SeededSource(db, top, s);
    }
  }

  /** Every source gets back the project that owned it. */
  lemma ReturnedProjects(db: Db, top: Db)
    requires References(db) && db.sourceProject.Keys == db.sources.Keys && Seeded(db, top)
    requires References(top) && BindingReferences(top) && forall s | s in top.sources :: |ProjectsOf(top, s)| == 1
    ensures RestoredProjects(top) == db.sourceProject
  {
    forall b | b in top.bindings ensures b.0 == db.sourceProject[top.versions[b.1].source] {
      assert IsSeed(db, b);
    }
    ReturnedColumn(top, db.sourceProject);
  }

  lemma DowngradedColumns(top: Db)
    requires Valid18(top) && Downgrade18(top).Ok?
    ensures forall s | s in top.sources :: |ProjectsOf(top, s)| == 1
    ensures Downgrade18(top).value == top.(sourceProject := RestoredProjects(top), skillOrg := map[])
  {
  }

  lemma ReturnedColumn(top: Db, column: map<Id, Id>)
    requires References(top) && BindingReferences(top) && column.Keys == top.sources.Keys
    requires forall s | s in top.sources :: |ProjectsOf(top, s)| == 1
    requires forall b | b in top.bindings :: b.0 == column[top.versions[b.1].source]
    ensures RestoredProjects(top) == column
  {
    RestoredColumn(top);
    forall s | s in top.sources ensures RestoredProjects(top)[s] == column[s] {
      OneProject(top, s);
      var b :| Bound(top, s, b);
    }
  }

  /**
   From any 0018 database that can go back: going forward again restores it exactly when every
   binding is published within one organization and every skill follows its versions' sources.
   */
  lemma ReturnAndMove(top: Db)
    requires Valid18(top) && Downgrade18(top).Ok?
    ensures Valid17(Downgrade18(top).value)
    ensures Upgrade18(Downgrade18(top).value) == Ok(top)
       <==> SkillsFollowSources(top) && forall b | b in top.bindings :: InScope(top, b)
  {
    Downgrade18Sound(top);
    DowngradedColumns(top);
    Returns(top, Downgrade18(top).value);
  }

  lemma Returns(top: Db, mid: Db)
    requires Valid18(top) && Valid17(mid) && mid == top.(sourceProject := mid.sourceProject, skillOrg := map[])
    ensures Upgrade18(mid) == Ok(top) <==> SkillsFollowSources(top) && forall b | b in top.bindings :: InScope(top, b)
  {
    SameBindings(top, mid);
    if Upgrade18(mid).Ok? {
      Rescoped(top, mid);
    } else if SkillsFollowSources(top) {
      Rescopable(top, mid);
      Upgrade18Exact(mid);
    }
  }

  lemma Rescoped(top: Db, mid: Db)
    requires Valid18(top) && Valid17(mid) && Upgrade18(mid).Ok?
    requires mid == top.(sourceProject := mid.sourceProject, skillOrg := map[])
    ensures forall b | b in mid.bindings :: InScope(mid, b)
    ensures Upgrade18(mid) == Ok(top) <==> SkillsFollowSources(top)
  {
    Upgrade18Sound(mid);
    BindingGuardExact(mid);
    var again := Upgrade18(mid).value;
    assert again == top.(skillOrg := again.skillOrg);
    if SkillsFollowSources(top) {
      FollowingIsUnique(top, again);
    }
  }

  lemma SameBindings(a: Db, b: Db)
    requires References(a) && BindingReferences(a) && SourceOrganizations(a)
    requires References(b) && BindingReferences(b) && SourceOrganizations(b)
    requires a.bindings == b.bindings && a.versions == b.versions && a.projects == b.projects
    requires a.sourceOrg == b.sourceOrg
    ensures (forall x | x in a.bindings :: InScope(a, x)) <==> (forall x | x in b.bindings :: InScope(b, x))
  {
    forall x | x in a.bindings ensures InScope(a, x) <==> InScope(b, x) {
    }
  }

  lemma Rescopable(top: Db, mid: Db)
    requires References(top) && SourceOrganizations(top) && top.skillOrg.Keys == top.skills.Keys
    requires References(mid) && SourceOrganizations(mid) && SkillsFollowSources(top)
    requires mid.skills == top.skills && mid.versions == top.versions && mid.sourceOrg == top.sourceOrg
    ensures forall s | s in mid.skills :: OneOrganizationSkill(mid, s) && HasVersion(mid, s)
  {
  }

  lemma FollowingIsUnique(a: Db, b: Db)
    requires References(a) && SourceOrganizations(a) && a.skillOrg.Keys == a.skills.Keys
    requires References(b) && SourceOrganizations(b) && b.skillOrg.Keys == b.skills.Keys
    requires SkillsFollowSources(a) && SkillsFollowSources(b)
    requires a.skills == b.skills && a.versions == b.versions && a.sourceOrg == b.sourceOrg
    ensures a.skillOrg == b.skillOrg
  {
    forall s | s in a.skills ensures a.skillOrg[s] == b.skillOrg[s] {
      var v :| v in a.versions && a.versions[v].skill == s;
    }
  }

  ghost predicate Active(db: Db, b: (Id, Id)) {
    b in db.bindings && db.bindings[b].disabledAt.None?
  }

  /**
   Going back from an 0018 database that lived on keeps every project's catalog exactly when the
   published versions and the active bindings are the same versions: a disabled or never enabled
   version becomes runnable again, because 0017 reads ownership and not enablement.
   */
  lemma ReturnKeepsCatalogs(top: Db)
    requires Valid18(top) && Downgrade18(top).Ok?
    ensures Valid17(Downgrade18(top).value)
    ensures (forall p: Id :: OwnedCatalog(Downgrade18(top).value, p) == EnabledCatalog(top, p))
       <==> (forall v | v in top.versions ::
               top.versions[v].status == PUBLISHED <==> exists p: Id :: Active(top, (p, v)))
  {
    Downgrade18Sound(top);
    DowngradedColumns(top);
    RestoredColumn(top);
    CatalogsAgree(top, Downgrade18(top).value);
  }

  lemma CatalogsAgree(top: Db, mid: Db)
    requires References(top) && BindingReferences(top) && References(mid)
    requires mid.sourceProject.Keys == mid.sources.Keys && mid.versions == top.versions && mid.sources == top.sources
    requires forall b | b in top.bindings :: mid.sourceProject[top.versions[b.1].source] == b.0
    ensures (forall p: Id :: OwnedCatalog(mid, p) == EnabledCatalog(top, p))
       <==> (forall v | v in top.versions ::
               top.versions[v].status == PUBLISHED <==> exists p: Id :: Active(top, (p, v)))
  {
    if forall p: Id :: OwnedCatalog(mid, p) == EnabledCatalog(top, p) {
      forall v | v in top.versions
        ensures top.versions[v].status == PUBLISHED <==> exists p: Id :: Active(top, (p, v))
      {
        var owner := mid.sourceProject[top.versions[v].source];
        assert OwnedCatalog(mid, owner) == EnabledCatalog(top, owner);
        EnabledMember(top, owner, v);
      }
    }
    if forall v | v in top.versions :: top.versions[v].status == PUBLISHED <==> exists p: Id :: Active(top, (p, v)) {
      forall p: Id, v: Id ensures v in OwnedCatalog(mid, p) <==> v in EnabledCatalog(top, p) {
        EnabledMember(top, p, v);
      }
    }
  }

  lemma EnabledMember(db: Db, p: Id, v: Id)
    ensures v in EnabledCatalog(db, p) <==> Active(db, (p, v))
  {
    if Active(db, (p, v)) {
      assert (p, v).1 in EnabledCatalog(db, p);
    }
  }

  // ---- Databases on the failing side ------------------------------------------------------

  const ONE_SOURCE := map[1 := Source("sha256:a", 9)]

  /** One project, one source and one published version, whose only binding is disabled. */
  const DISABLED := Db({7}, map[3 := 7], ONE_SOURCE, map[], map[1 := 7], map[4 := "skill"], map[4 := 7],
                       map[5 := Version(4, 1, PUBLISHED, Some(10), 8)], map[(3, 5) := Binding(9, 10, Some(11))])

  /** One project and one source with a draft only. */
  const DRAFT := Db({7}, map[3 := 7], ONE_SOURCE, map[1 := 3], map[], map[4 := "skill"], map[],
                    map[5 := Version(4, 1, "DRAFT", None, 8)], map[])

  lemma DisabledIsValid()
    ensures Valid18(DISABLED)
    ensures DISABLED.bindings.Keys == {(3, 5)} && DISABLED.versions.Keys == {5} && DISABLED.sources.Keys == {1}
  {
    assert DISABLED.skills.Keys == {4};
  }

  lemma DisabledCanReturn()
    ensures Valid18(DISABLED) && Returnable(DISABLED)
  {
    DisabledIsValid();
    var b := (3, 5);
    assert b in DISABLED.bindings.Keys && DISABLED.versions[5].source == 1;
    assert forall a | a in DISABLED.bindings :: a == b;
    assert Bound(DISABLED, 1, b);
    assert OneProjectSource(DISABLED, 1);
  }

  /** Going back makes the disabled version of this database runnable again. */
  lemma DisabledVersionReturns()
    ensures Valid18(DISABLED) && Downgrade18(DISABLED).Ok? && Valid17(Downgrade18(DISABLED).value)
    ensures 5 in OwnedCatalog(Downgrade18(DISABLED).value, 3) && 5 !in EnabledCatalog(DISABLED, 3)
  {
    DisabledCanReturn();
    Downgrade18Exact(DISABLED);
    Downgrade18Sound(DISABLED);
    EnabledMember(DISABLED, 3, 5);
    DisabledIsOwned(Downgrade18(DISABLED).value);
  }

  lemma DisabledIsOwned(back: Db)
    requires Valid18(DISABLED) && Downgrade18(DISABLED) == Ok(back) && Valid17(back)
    ensures 5 in OwnedCatalog(back, 3)
  {
    DowngradedColumns(DISABLED);
    RestoredColumn(DISABLED);
    var b := (3, 5);
    assert b in DISABLED.bindings;
    assert RestoredProjects(DISABLED)[DISABLED.versions[b.1].source] == b.0;
  }

  lemma DraftIsMovable()
    ensures Valid15(DRAFT) && Movable(DRAFT) && 1 in DRAFT.sources && !HasPublished(DRAFT, 1)
  {
    assert DRAFT.versions.Keys == {5} && DRAFT.skills.Keys == {4} && DRAFT.sources.Keys == {1};
    assert 5 in DRAFT.versions && DRAFT.versions[5].skill == 4 && DRAFT.versions[5].status == "DRAFT";
    assert HasVersion(DRAFT, 4);
  }

  /** Both upgrades accept this database, and the downgrade right after them refuses. */
  lemma DraftCannotReturn()
    ensures Valid15(DRAFT) && Upgrade17(DRAFT).Ok? && Valid17(Upgrade17(DRAFT).value)
    ensures Upgrade18(Upgrade17(DRAFT).value).Ok? && Valid18(Upgrade18(Upgrade17(DRAFT).value).value)
    ensures Downgrade18(Upgrade18(Upgrade17(DRAFT).value).value).Refused?
  {
    DraftIsMovable();
    RefusedWithoutPublished(DRAFT, 1);
  }

  lemma RefusedWithoutPublished(db: Db, s: Id)
    requires Valid15(db) && Movable(db) && s in db.sources && !HasPublished(db, s)
    ensures Upgrade17(db).Ok? && Valid17(Upgrade17(db).value) && Upgrade18(Upgrade17(db).value).Ok?
    ensures Valid18(Upgrade18(Upgrade17(db).value).value)
    ensures Downgrade18(Upgrade18(Upgrade17(db).value).value).Refused?
  {
    MoveAndReturn(db);
  }
}
