/**
 The two migrations that move the ownership of Skill sources from projects to organizations, and
 the guarded way back.

 A table is a finite map from row id to row. A column that a migration adds, fills or drops is a map
 of its own from row id to value, in which a missing key is NULL; a dropped column is empty.
 */
module SkillScope {
  import opened Identity
  import opened Sets
  import opened Wrappers

  datatype Source = Source(contentHash: string, importedBy: Id)
  datatype Version = Version(skill: Id, source: Id, status: string, publishedAt: Option<int>, createdAt: int)
  datatype Binding = Binding(enabledBy: Id, enabledAt: int, disabledAt: Option<int>)

  /**
   `skills` maps a skill to its key. `bindings` is keyed by project and version, as
   uq_project_skill_versions_project_version makes possible.
   */
  datatype Db = Db(organizations: set<Id>, projects: map<Id, Id>, sources: map<Id, Source>,
                   sourceProject: map<Id, Id>, sourceOrg: map<Id, Id>,
                   skills: map<Id, string>, skillOrg: map<Id, Id>,
                   versions: map<Id, Version>, bindings: map<(Id, Id), Binding>)

  const PUBLISHED := "PUBLISHED"

  // ---- Constraints of the three schemas ---------------------------------------------------

  predicate References(db: Db) {
    && (forall p | p in db.projects :: db.projects[p] in db.organizations)
    && (forall v | v in db.versions :: db.versions[v].skill in db.skills && db.versions[v].source in db.sources)
  }

  predicate BindingReferences(db: Db) {
    forall b | b in db.bindings :: b.0 in db.projects && b.1 in db.versions
  }

  predicate SameContent(sources: map<Id, Source>, owner: map<Id, Id>, s: Id, t: Id)
    requires owner.Keys == sources.Keys && s in sources && t in sources
  {
    owner[s] == owner[t] && sources[s].contentHash == sources[t].contentHash
  }

  /** The unique key (owner, content_hash), for whichever column owns the sources. */
  predicate UniqueContent(sources: map<Id, Source>, owner: map<Id, Id>)
    requires owner.Keys == sources.Keys
  {
    forall s, t {:trigger SameContent(sources, owner, s, t)}
      | s in sources && t in sources && SameContent(sources, owner, s, t) :: s == t
  }

  predicate SameKey(skills: map<Id, string>, s: Id, t: Id)
    requires s in skills && t in skills
  {
    skills[s] == skills[t]
  }

  /** The unique index on skills.key. */
  predicate UniqueKey(skills: map<Id, string>) {
    forall s, t {:trigger SameKey(skills, s, t)} | s in skills && t in skills && SameKey(skills, s, t) :: s == t
  }

  predicate SameScopedKey(skills: map<Id, string>, org: map<Id, Id>, s: Id, t: Id)
    requires org.Keys == skills.Keys && s in skills && t in skills
  {
    org[s] == org[t] && skills[s] == skills[t]
  }

  /** The unique key (organization_id, key). */
  predicate UniqueScopedKey(skills: map<Id, string>, org: map<Id, Id>)
    requires org.Keys == skills.Keys
  {
    forall s, t {:trigger SameScopedKey(skills, org, s, t)}
      | s in skills && t in skills && SameScopedKey(skills, org, s, t) :: s == t
  }

  predicate SourceOrganizations(db: Db) {
    && db.sourceOrg.Keys == db.sources.Keys
    && (forall s | s in db.sourceOrg :: db.sourceOrg[s] in db.organizations)
  }

  /** Before 0017: a source names its project, without a foreign key. */
  predicate Valid15(db: Db) {
    && References(db)
    && db.sourceProject.Keys == db.sources.Keys && UniqueContent(db.sources, db.sourceProject) && UniqueKey(db.skills)
    && db.sourceOrg == map[] && db.skillOrg == map[] && db.bindings == map[]
  }

  predicate Valid17(db: Db) {
    && References(db) && BindingReferences(db) && SourceOrganizations(db)
    && db.sourceProject.Keys == db.sources.Keys && UniqueContent(db.sources, db.sourceProject) && UniqueKey(db.skills)
    && db.skillOrg == map[]
  }

  predicate Valid18(db: Db) {
    && References(db) && BindingReferences(db) && SourceOrganizations(db)
    && UniqueContent(db.sources, db.sourceOrg)
    && db.skillOrg.Keys == db.skills.Keys && UniqueScopedKey(db.skills, db.skillOrg)
    && (forall s | s in db.skills :: db.skillOrg[s] in db.organizations)
    && db.sourceProject == map[]
  }

  // ---- 0017 -------------------------------------------------------------------------------

  function Backfill(db: Db): map<Id, Id>
    requires db.sourceProject.Keys == db.sources.Keys
  {
    map s | s in db.sources && db.sourceProject[s] in db.projects :: db.projects[db.sourceProject[s]]
  }

  function SeedRow(db: Db, v: Id): Binding
    requires v in db.versions && db.versions[v].source in db.sources
  {
    var version := db.versions[v];
    Binding(db.sources[version.source].importedBy,
            if version.publishedAt.Some? then version.publishedAt.value else version.createdAt, None)
  }

  /** The rows the seeding INSERT ... SELECT produces for the versions in `some`. */
  function Seed(db: Db, some: set<Id>): map<(Id, Id), Binding>
    requires References(db) && db.sourceProject.Keys == db.sources.Keys && some <= db.versions.Keys
  {
    map v | v in some && db.versions[v].status == PUBLISHED
      :: (db.sourceProject[db.versions[v].source], v) := SeedRow(db, v)
  }

  /** One more version adds the binding of its owner, if it is published, and nothing else. */
  lemma SeedNext(db: Db, done: set<Id>, v: Id)
    requires References(db) && db.sourceProject.Keys == db.sources.Keys
    requires done <= db.versions.Keys && v in db.versions && v !in done
    ensures var key := (db.sourceProject[db.versions[v].source], v);
            key !in Seed(db, done)
            && Seed(db, done + {v})
               == if db.versions[v].status == PUBLISHED then Seed(db, done)[key := SeedRow(db, v)] else Seed(db, done)
  {
    var key := (db.sourceProject[db.versions[v].source], v);
    var now := Seed(db, done + {v});
    if db.versions[v].status == PUBLISHED {
      assert key in now && now[key] == SeedRow(db, v);
    }
  }

  function Upgrade17(db: Db): Result<Db>
    requires Valid15(db)
  {
    if exists s :: s in db.sources && s !in Backfill(db) then Refused
    else
      var filled := db.(sourceOrg := Backfill(db));
      Ok(filled.(bindings := Seed(filled, db.versions.Keys)))
  }

  function Downgrade17(db: Db): Db {
    db.(sourceOrg := map[], bindings := map[])
  }

  // ---- 0018 -------------------------------------------------------------------------------

  /** The sources grouped with s: same owner, same content. */
  function ContentGroup(sources: map<Id, Source>, owner: map<Id, Id>, s: Id): set<Id>
    requires owner.Keys == sources.Keys && s in sources
  {
    set t | t in sources && SameContent(sources, owner, s, t)
  }

  /** GROUP BY organization_id, content_hash HAVING count(*) > 1 finds a group. */
  predicate DuplicateContent(sources: map<Id, Source>, owner: map<Id, Id>)
    requires owner.Keys == sources.Keys
  {
    exists s :: s in sources && |ContentGroup(sources, owner, s)| > 1
  }

  function KeyGroup(skills: map<Id, string>, s: Id): set<Id>
    requires s in skills
  {
    set t | t in skills && SameKey(skills, s, t)
  }

  /** GROUP BY key HAVING count(*) > 1 finds a group. */
  predicate DuplicateKey(skills: map<Id, string>) {
    exists s :: s in skills && |KeyGroup(skills, s)| > 1
  }

  /** The rows the enablement guard counts. */
  function InvalidBindings(db: Db): set<(Id, Id)>
    requires References(db) && BindingReferences(db) && SourceOrganizations(db)
  {
    set b | b in db.bindings
      && (db.versions[b.1].status != PUBLISHED || db.projects[b.0] != db.sourceOrg[db.versions[b.1].source])
  }

  /** The organizations of the sources behind one skill's versions. */
  function OrganizationsOf(db: Db, skill: Id): set<Id>
    requires References(db) && SourceOrganizations(db)
  {
    set v | v in db.versions && db.versions[v].skill == skill :: db.sourceOrg[db.versions[v].source]
  }

  function SkillOrganizations(db: Db): map<Id, Id>
    requires References(db) && SourceOrganizations(db)
  {
    map s | s in db.skills && OrganizationsOf(db, s) != {} :: MinOf(OrganizationsOf(db, s))
  }

  function Upgrade18(db: Db): Result<Db>
    requires Valid17(db)
  {
    if DuplicateContent(db.sources, db.sourceOrg) then Refused
    else if |InvalidBindings(db)| > 0 then Refused
    else if exists s :: s in db.skills && |OrganizationsOf(db, s)| > 1 then Refused
    else if exists s :: s in db.skills && s !in SkillOrganizations(db) then Refused
    else Ok(db.(skillOrg := SkillOrganizations(db), sourceProject := map[]))
  }

  /** Every skill has versions, and all its versions' sources belong to one organization. */
  predicate SkillsScoped(db: Db)
    requires References(db) && SourceOrganizations(db)
  {
    forall s | s in db.skills :: |OrganizationsOf(db, s)| <= 1 && s in SkillOrganizations(db)
  }

  /** The four guards one after the other. */
  lemma GuardsInOrder(db: Db)
    requires Valid17(db)
    ensures Upgrade18(db)
         == if !DuplicateContent(db.sources, db.sourceOrg) && |InvalidBindings(db)| == 0 && SkillsScoped(db)
            then Ok(db.(skillOrg := SkillOrganizations(db), sourceProject := map[])) else Refused
  {
  }

  /** The projects that were ever bound to a version of the source, disabled bindings included. */
  function ProjectsOf(db: Db, source: Id): set<Id>
    requires BindingReferences(db)
  {
    set b | b in db.bindings && db.versions[b.1].source == source :: b.0
  }

  function RestoredProjects(db: Db): map<Id, Id>
    requires BindingReferences(db)
  {
    map s | s in db.sources && ProjectsOf(db, s) != {} :: MinOf(ProjectsOf(db, s))
  }

  /** The rebuilt unique key over (project, content) stops the migration like a guard does. */
  function Downgrade18(db: Db): Result<Db>
    requires Valid18(db)
  {
    if exists s :: s in db.sources && |ProjectsOf(db, s)| != 1 then Refused
    else
      var restored := db.(sourceProject := RestoredProjects(db));
      if restored.sourceProject.Keys != db.sources.Keys then Refused
      else if !UniqueContent(restored.sources, restored.sourceProject) then Refused
      else if DuplicateKey(restored.skills) then Refused
      else Ok(restored.(skillOrg := map[]))
  }

  // ---- The migrations as they run ---------------------------------------------------------

  /** The tables the two migrations touch; each migration runs in one transaction. */
  class SkillLibrary {
    var organizations: set<Id>
    var projects: map<Id, Id>
    var sources: map<Id, Source>
    var sourceProject: map<Id, Id>
    var sourceOrg: map<Id, Id>
    var skills: map<Id, string>
    var skillOrg: map<Id, Id>
    var versions: map<Id, Version>
    var bindings: map<(Id, Id), Binding>

    function Rows(): Db
      reads this
    {
      Db(organizations, projects, sources, sourceProject, sourceOrg, skills, skillOrg, versions, bindings)
    }

    constructor (db: Db)
      ensures Rows() == db
    {
      organizations, projects, sources := db.organizations, db.projects, db.sources;
      sourceProject, sourceOrg := db.sourceProject, db.sourceOrg;
      skills, skillOrg := db.skills, db.skillOrg;
      versions, bindings := db.versions, db.bindings;
    }

    method Upgrade0017() returns (ok: bool)
      requires Valid15(Rows())
      modifies this
      ensures ok == Upgrade17(old(Rows())).Ok?
      ensures Rows() == if ok then Upgrade17(old(Rows())).value else old(Rows())
    {
      ok := AddSkillSourceOrganization();
      if ok { SeedExistingEnablements(); }
    }

    /** The column, filled from the projects unless a source names none. */
    method AddSkillSourceOrganization() returns (ok: bool)
      requires References(Rows()) && sourceProject.Keys == sources.Keys && sourceOrg == map[]
      modifies this`sourceOrg
      ensures ok <==> !exists s :: s in sources && s !in Backfill(old(Rows()))
      ensures Rows() == if ok then old(Rows()).(sourceOrg := Backfill(old(Rows()))) else old(Rows())
    {
      var filled := Backfill(Rows());
      ok := !exists s :: s in sources && s !in filled;
      if ok { sourceOrg := filled; }
    }

    method SeedExistingEnablements()
      requires References(Rows()) && sourceProject.Keys == sources.Keys && bindings == map[]
      modifies this`bindings
      ensures Rows() == old(Rows()).(bindings := Seed(old(Rows()), old(versions.Keys)))
    {
      ghost var before := Rows();
      var rest := versions.Keys;
      ghost var done: set<Id> := {};
      while rest != {}
        invariant rest + done == versions.Keys && rest !! done
        invariant bindings == Seed(before, done)
      {
        var v :| v in rest;
        SeedNext(before, done, v);
        rest := rest - {v};
        done := done + {v};
        var version := versions[v];
        if version.status == PUBLISHED {
          var key := (sourceProject[version.source], v);
          if key !in bindings {
            bindings := bindings[key := Binding(sources[version.source].importedBy,
              if version.publishedAt.Some? then version.publishedAt.value else version.createdAt, None)];
          }
        }
      }
      assert done == versions.Keys;
    }

    /** The dropped column and table leave the older schema; the migration has no guard. */
    method Downgrade0017()
      requires Valid17(Rows())
      modifies this
      ensures Rows() == Downgrade17(old(Rows())) && Valid15(Rows())
    {
      bindings := map[];
      sourceOrg := map[];
    }

    method Upgrade0018() returns (ok: bool)
      requires Valid17(Rows())
      modifies this
      ensures ok == Upgrade18(old(Rows())).Ok?
      ensures Rows() == if ok then Upgrade18(old(Rows())).value else old(Rows())
    {
      ghost var before := Rows();
      GuardsInOrder(before);
      if DuplicateContent(sources, sourceOrg) || |InvalidBindings(Rows())| > 0 { return false; }
      ok := ScopeSkillsToOrganization();
      if ok { ContractSkillSources(); }
    }

    /** The column, filled unless one of the two skill guards raises. */
    method ScopeSkillsToOrganization() returns (ok: bool)
      requires References(Rows()) && SourceOrganizations(Rows()) && skillOrg == map[]
      modifies this`skillOrg
      ensures ok <==> SkillsScoped(old(Rows()))
      ensures Rows() == if ok then old(Rows()).(skillOrg := SkillOrganizations(old(Rows()))) else old(Rows())
    {
      if exists s :: s in skills && |OrganizationsOf(Rows(), s)| > 1 { return false; }
      var scoped := SkillOrganizations(Rows());
      ok := !exists s :: s in skills && s !in scoped;
      if ok { skillOrg := scoped; }
    }

    method ContractSkillSources()
      modifies this`sourceProject
      ensures Rows() == old(Rows()).(sourceProject := map[])
    {
      sourceProject := map[];
    }

    method Downgrade0018() returns (ok: bool)
      requires Valid18(Rows())
      modifies this
      ensures ok == Downgrade18(old(Rows())).Ok?
      ensures Rows() == if ok then Downgrade18(old(Rows())).value else old(Rows())
    {
      if exists s :: s in sources && |ProjectsOf(Rows(), s)| != 1 { return false; }
      var scoped := RestoredProjects(Rows());
      sourceProject := scoped;
      if sourceProject.Keys != sources.Keys || !UniqueContent(sources, sourceProject) || DuplicateKey(skills) {
        sourceProject := map[];
        return false;
      }
      skillOrg := map[];
      return true;
    }
  }
}
