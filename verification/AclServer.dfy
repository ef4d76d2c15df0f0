/**
  The server's side of an ACL script: who may grant what, and what GRANT,
  REVOKE and SET SESSION AUTHORIZATION do to the privileges of one object
  (src/postgres/backend/utils/adt/acl.cpp, src/postgres/backend/catalog/aclchk.cpp).
  Roles are plain names without memberships, and the session that runs the
  script acts as the owner of the object.
 */
module AclServer {
  import opened Basics
  import opened AclItems

  /** The empty grantee is PUBLIC. */
  datatype Key = Key(grantor: string, grantee: string, priv: Priv)

  /** The privileges granted, each with its grant option bit. */
  type Acl = map<Key, bool>

  datatype Who = Public | Role(name: string) | Group(name: string)

  datatype Command =
    | RevokeAll(from: Who)
    | Grant(spec: Spec, to: Who, option: bool)
    | SetAuthorization(role: string)
    | ResetAuthorization

  datatype Session = Session(acl: Acl, user: Option<string>)

  function RoleOf(who: Who): string {
    if who.Public? then "" else who.name
  }

  function Actor(s: Session, owner: string): string {
    if s.user.Some? then s.user.value else owner
  }

  /** The grants that carry the grant option. */
  function Options(acl: Acl): (ks: set<Key>) {
    set k | k in acl && acl[k]
  }

  /** The owner may always grant; anyone else needs the option. */
  ghost predicate MayGrant(options: set<Key>, owner: string, role: string, p: Priv) {
    role == owner || exists k :: k in options && k.grantee == role && k.priv == p
  }

  /** A chain of options from the owner to the role, kept clear of one role. */
  ghost predicate Chain(options: set<Key>, owner: string, role: string, avoided: string, p: Priv, path: seq<string>) {
    && path != [] && path[0] == owner && path[|path| - 1] == role
    && (forall i :: 0 < i < |path| ==> path[i] != avoided && Key(path[i - 1], path[i], p) in options)
  }

  /** An option may not be granted back to a role that the grantor owes it to. */
  ghost predicate NotCircular(options: set<Key>, owner: string, role: string, target: string, p: Priv) {
    role == owner || exists path :: Chain(options, owner, role, target, p, path)
  }

  function Granted(acl: Acl, grantor: string, grantee: string, ps: set<Priv>, option: bool): (r: Acl) {
    acl + (map p | p in ps :: Key(grantor, grantee, p) :=
             option || (Key(grantor, grantee, p) in acl && acl[Key(grantor, grantee, p)]))
  }

  function Revoked(acl: Acl, grantor: string, grantee: string, app: seq<Priv>): (r: Acl) {
    map k | k in acl && !(k.grantor == grantor && k.grantee == grantee && k.priv in app) :: acl[k]
  }

  /** A GRANT that is refused leaves the privileges as they were. */
  ghost predicate Refused(options: set<Key>, owner: string, actor: string, who: Who, ps: set<Priv>, option: bool) {
    option && (who.Public? || exists p :: p in ps && !NotCircular(options, owner, actor, RoleOf(who), p))
  }

  /**
    One command.  For a column, `table` is the grant options on its table: they
    let a role grant on the column, but do not count as a chain of options there.
   */
  ghost function Exec(s: Session, owner: string, app: seq<Priv>, c: Command, table: set<Key>): (r: Session) {
    match c
    case SetAuthorization(role) => s.(user := Some(role))
    case ResetAuthorization => s.(user := None)
    case RevokeAll(who) => s.(acl := Revoked(s.acl, Actor(s, owner), RoleOf(who), app))
    case Grant(spec, who, option) =>
      var options, actor := Options(s.acl), Actor(s, owner);
      var ps := set p | p in Expand(spec, app) && MayGrant(options + table, owner, actor, p);
      if Refused(options, owner, actor, who, ps, option) then s
      else s.(acl := Granted(s.acl, actor, RoleOf(who), ps, option))
  }

  ghost function Run(s: Session, owner: string, app: seq<Priv>, cs: seq<Command>, table: set<Key>): (r: Session) {
    if cs == [] then s
    else Exec(Run(s, owner, app, cs[..|cs| - 1], table), owner, app, cs[|cs| - 1], table)
  }

  lemma {:induction false} RunConcat(s: Session, owner: string, app: seq<Priv>, a: seq<Command>, b: seq<Command>,
                                     table: set<Key>)
    ensures Run(s, owner, app, a + b, table) == Run(Run(s, owner, app, a, table), owner, app, b, table)
  {
    if b == [] {
      Units(a);
    } else {
      RunConcat(s, owner, app, a, b[..|b| - 1], table);
      assert (a + b)[..|a + b| - 1] == a + b[..|b| - 1];
    }
  }
}
