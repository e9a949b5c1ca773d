/**
 * Replacing custom action scopes that duplicate platform scopes: migration `c9e4f54f0a2b`. The scope
 * table is a map from its primary key, and `role_scope` is a set because of its unique pair.
 */
module ScopeLinks {
  import opened Wrappers

  datatype Source = Platform | CustomSource

  datatype Scope = Scope(
    org: Option<nat>, source: Source, resource: string, action: string, sourceRef: Option<string>, name: string)

  datatype Link = Link(role: nat, scope: nat)

  datatype Db = Db(scopes: map<nat, Scope>, links: set<Link>)

  // ---------------------------------------------------------------- duplicates

  predicate IsActionScope(s: Scope) {
    s.resource == "action" && s.action == "execute"
  }

  predicate IsCustomScope(s: Scope) {
    s.org.Some? && s.source == CustomSource && IsActionScope(s) && s.sourceRef.Some?
  }

  predicate IsPlatformScope(s: Scope) {
    s.org == None && s.source == Platform && IsActionScope(s)
  }

  /** One row of `duplicate_scope_pairs`; SQL's `=` on two source references holds only where both are present. */
  predicate Pair(scopes: map<nat, Scope>, custom: nat, platform: nat) {
    && custom in scopes && platform in scopes
    && IsCustomScope(scopes[custom]) && IsPlatformScope(scopes[platform])
    && scopes[platform].name == scopes[custom].name && scopes[platform].sourceRef == scopes[custom].sourceRef
  }

  predicate Duplicate(scopes: map<nat, Scope>, custom: nat) {
    exists p :: p in scopes && Pair(scopes, custom, p)
  }

  // ---------------------------------------------------------------- the three statements

  function Remapped(db: Db): set<Link> {
    set l, p | l in db.links && p in db.scopes && Pair(db.scopes, l.scope, p) :: Link(l.role, p)
  }

  function Stale(db: Db): set<Link> {
    set l | l in db.links && Duplicate(db.scopes, l.scope)
  }

  function Remap(db: Db): Db {
    db.(links := db.links + Remapped(db))
  }

  function Unlink(db: Db): Db {
    db.(links := db.links - Stale(db))
  }

  function DeleteDuplicates(db: Db): Db {
    db.(scopes := map s | s in db.scopes && !Duplicate(db.scopes, s) :: db.scopes[s])
  }

  function Canonical(db: Db): Db {
    DeleteDuplicates(Unlink(Remap(db)))
  }

  // ---------------------------------------------------------------- what a role may do

  /** A foreign key with no dangling links. */
  ghost predicate Linked(db: Db) {
    forall l :: l in db.links ==> l.scope in db.scopes
  }

  /** Some scope of the role has this name, stands for this action on this resource, and has this source. */
  ghost predicate Holds(db: Db, role: nat, name: string, resource: string, action: string, sourceRef: Option<string>) {
    exists s :: s in db.scopes && Link(role, s) in db.links && db.scopes[s].name == name &&
                db.scopes[s].resource == resource && db.scopes[s].action == action && db.scopes[s].sourceRef == sourceRef
  }

  ghost predicate HoldsBy(db: Db, role: nat, s: nat, t: Scope) {
    && s in db.scopes && Link(role, s) in db.links
    && db.scopes[s] == t.(org := db.scopes[s].org, source := db.scopes[s].source)
  }

  lemma PlatformIsNoDuplicate(scopes: map<nat, Scope>, s: nat)
    requires s in scopes && IsPlatformScope(scopes[s])
    ensures !Duplicate(scopes, s)
  {}

  /** The links afterwards: those to scopes that stay, and those that follow a duplicate to its platform scope. */
  lemma LinksAfter(db: Db, role: nat, s: nat)
    ensures Link(role, s) in Canonical(db).links <==>
            !Duplicate(db.scopes, s) &&
            (Link(role, s) in db.links || exists c :: Link(role, c) in db.links && Pair(db.scopes, c, s))
  {
    var remapped := Remap(db);
    if exists c :: Link(role, c) in db.links && Pair(db.scopes, c, s) {
      var c :| Link(role, c) in db.links && Pair(db.scopes, c, s);
      var l := Link(role, c);
      assert l in db.links && s in db.scopes && Pair(db.scopes, l.scope, s);
      assert Link(role, s) in Remapped(db);
      PlatformIsNoDuplicate(db.scopes, s);
    }
    if Link(role, s) in Remapped(db) {
      var l, p :| l in db.links && p in db.scopes && Pair(db.scopes, l.scope, p) && Link(l.role, p) == Link(role, s);
      assert Link(role, l.scope) in db.links && Pair(db.scopes, l.scope, s);
    }
  }

  /** Every role holds exactly the permissions, and so the scope names, that it held before. */
  lemma PermissionsKept(db: Db, role: nat, name: string, resource: string, action: string, sourceRef: Option<string>)
    ensures Holds(Canonical(db), role, name, resource, action, sourceRef) <==>
            Holds(db, role, name, resource, action, sourceRef)
  {
    var after := Canonical(db);
    var scope := Scope(None, Platform, resource, action, sourceRef, name);
    if Holds(db, role, name, resource, action, sourceRef) {
      var s :| s in db.scopes && Link(role, s) in db.links && db.scopes[s].name == name &&
          db.scopes[s].resource == resource && db.scopes[s].action == action && db.scopes[s].sourceRef == sourceRef;
      assert HoldsBy(db, role, s, scope);
      var t := KeptBy(db, role, s, scope);
    }
    if Holds(after, role, name, resource, action, sourceRef) {
      var s :| s in after.scopes && Link(role, s) in after.links && after.scopes[s].name == name &&
          after.scopes[s].resource == resource && after.scopes[s].action == action && after.scopes[s].sourceRef == sourceRef;
      assert HoldsBy(after, role, s, scope);
      var t := HeldBefore(db, role, s, scope);
    }
  }

  lemma KeptBy(db: Db, role: nat, s: nat, scope: Scope) returns (t: nat)
    requires HoldsBy(db, role, s, scope)
    ensures HoldsBy(Canonical(db), role, t, scope)
  {
    if Duplicate(db.scopes, s) {
      t :| t in db.scopes && Pair(db.scopes, s, t);
      PlatformIsNoDuplicate(db.scopes, t);
    } else {
      t := s;
    }
    LinksAfter(db, role, t);
  }

  lemma HeldBefore(db: Db, role: nat, s: nat, scope: Scope) returns (t: nat)
    requires HoldsBy(Canonical(db), role, s, scope)
    ensures HoldsBy(db, role, t, scope)
  {
    LinksAfter(db, role, s);
    if Link(role, s) in db.links {
      t := s;
    } else {
      t :| Link(role, t) in db.links && Pair(db.scopes, t, s);
    }
  }

  /** No link dangles, in the end or while the duplicates are deleted. */
  lemma LinksStayValid(db: Db)
    requires Linked(db)
    ensures forall l :: l in Unlink(Remap(db)).links ==> !Duplicate(db.scopes, l.scope)
    ensures Linked(Canonical(db))
  {
    forall l | l in Canonical(db).links ensures l.scope in Canonical(db).scopes {
      LinksAfter(db, l.role, l.scope);
    }
  }

  /**
   * A scope is removed exactly if it is an organization's custom `execute` scope on actions with a source, and
   * some platform `execute` scope on actions has the same name and the same source.
   */
  lemma RemovedExactly(db: Db, s: nat, scope: Scope)
    requires s in db.scopes && db.scopes[s] == scope
    ensures s !in Canonical(db).scopes <==>
            && scope.org != None && scope.source == CustomSource && scope.sourceRef != None
            && scope.resource == "action" && scope.action == "execute"
            && exists p :: p in db.scopes && db.scopes[p] == scope.(org := None, source := Platform)
  {
    if Duplicate(db.scopes, s) {
      var p :| p in db.scopes && Pair(db.scopes, s, p);
      assert db.scopes[p] == scope.(org := None, source := Platform);
    }
    if exists p :: p in db.scopes && db.scopes[p] == scope.(org := None, source := Platform) {
      var p :| p in db.scopes && db.scopes[p] == scope.(org := None, source := Platform);
      assert IsCustomScope(scope) ==> Pair(db.scopes, s, p);
    }
  }

  /** Exactly the duplicates are gone: no custom scope is left beside a platform scope of its name and source. */
  lemma DuplicatesGone(db: Db)
    ensures forall s :: s in Canonical(db).scopes <==> s in db.scopes && !Duplicate(db.scopes, s)
    ensures forall s :: s in Canonical(db).scopes ==> Canonical(db).scopes[s] == db.scopes[s]
    ensures forall s :: !Duplicate(Canonical(db).scopes, s)
  {
    var after := Canonical(db).scopes;
    assert forall s, p :: Pair(after, s, p) ==> Pair(db.scopes, s, p) && s in after;
  }

  /** Without duplicates nothing changes, so a second run changes nothing. */
  lemma Idempotent(db: Db)
    ensures (forall s :: s in db.scopes ==> !Duplicate(db.scopes, s)) ==> Canonical(db) == db
    ensures Canonical(Canonical(db)) == Canonical(db)
  {
    DuplicatesGone(db);
    NothingToDo(Canonical(db));
    if forall s :: s in db.scopes ==> !Duplicate(db.scopes, s) {
      NothingToDo(db);
    }
  }

  lemma NothingToDo(db: Db)
    requires forall s :: s in db.scopes ==> !Duplicate(db.scopes, s)
    ensures Canonical(db) == db
  {
    assert forall c, p :: Pair(db.scopes, c, p) ==> Duplicate(db.scopes, c);
    assert Remapped(db) == {};
    assert Stale(db) == {};
    assert DeleteDuplicates(db).scopes == db.scopes;
  }

  // ---------------------------------------------------------------- in place

  class Tables {
    var scopes: map<nat, Scope>
    var links: set<Link>

    constructor (db: Db)
      ensures Contents() == db
    {
      scopes, links := db.scopes, db.links;
    }

    function Contents(): Db
      reads this
    {
      Db(scopes, links)
    }

    /** `upgrade`: `INSERT … ON CONFLICT DO NOTHING`, then two `DELETE`s, each on the tables the last one left. */
    method Upgrade()
      requires Linked(Contents())
      modifies this
      ensures Contents() == Canonical(old(Contents())) && Linked(Contents())
    {
      LinksStayValid(Contents());
      links := links + Remapped(Contents());
      links := links - Stale(Contents());
      scopes := map s | s in scopes && !Duplicate(scopes, s) :: scopes[s];
    }
  }
}
