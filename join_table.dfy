/**
 * The role-permission join table (`RolPer`) as the RBAC handlers read it:
 * which pairs are linked, the links of one role, and the permission
 * documents those links lead to.
 */
module JoinTable {
  import opened Wrappers
  import opened Schema
  import opened Store

  /** Some row of the join table holds the pair (`rolId`, `permisoId`). */
  predicate Linked(rolPer: map<Id, RolPer>, rolId: Id, permisoId: Id)
  {
    exists k :: k in rolPer && rolPer[k] == RolPer(rolId, permisoId)
  }

  /** No two rows of the join table hold the same pair. */
  predicate NoDuplicateLinks(rolPer: map<Id, RolPer>)
  {
    forall a, b :: a in rolPer && b in rolPer && a != b ==> rolPer[a] != rolPer[b]
  }

  /** No two permissions share a name. */
  predicate UniqueNames(permisos: map<Id, Permiso>)
  {
    forall a, b :: a in permisos && b in permisos && a != b ==> permisos[a].nombre != permisos[b].nombre
  }

  /** Some link of role `rolId` leads to an existing permission called `name`. */
  predicate RoleGrants(rolPer: map<Id, RolPer>, permisos: map<Id, Permiso>, rolId: Id, name: string)
  {
    exists l :: l in rolPer && rolPer[l].rolId == rolId && rolPer[l].permisoId in permisos
      && permisos[rolPer[l].permisoId].nombre == name
  }

  /** The join-table filter `rolId == …`. */
  function OfRole(rolId: Id): RolPer -> bool
  {
    (link: RolPer) => link.rolId == rolId
  }

  /** Links of role `rolId` whose permission still exists. */
  function OfRoleToExisting(rolId: Id, permisos: map<Id, Permiso>): RolPer -> bool
  {
    (link: RolPer) => link.rolId == rolId && link.permisoId in permisos
  }

  /** The links of role `rolId`, in creation order (`.filter(rolId == …).collect()`). */
  function LinksOfRole(rolPer: map<Id, RolPer>, rolId: Id, bound: nat): (r: seq<Id>)
    requires Bounded(rolPer, bound)
    ensures forall l :: l in r <==> l in rolPer && rolPer[l].rolId == rolId
    ensures forall i, j :: 0 <= i < j < |r| ==> r[i] < r[j]
  {
    WhereSpec(rolPer, OfRole(rolId), bound);
    Where(rolPer, OfRole(rolId), bound)
  }

  /** The join-table filter `permisoId == …`. */
  function ToPermission(permisoId: Id): RolPer -> bool
  {
    (link: RolPer) => link.permisoId == permisoId
  }

  /** The links to permission `permisoId`, in creation order (`.filter(permisoId == …).collect()`). */
  function LinksToPermission(rolPer: map<Id, RolPer>, permisoId: Id, bound: nat): (r: seq<Id>)
    requires Bounded(rolPer, bound)
    ensures forall l :: l in r <==> l in rolPer && rolPer[l].permisoId == permisoId
    ensures forall i, j :: 0 <= i < j < |r| ==> r[i] < r[j]
  {
    WhereSpec(rolPer, ToPermission(permisoId), bound);
    Where(rolPer, ToPermission(permisoId), bound)
  }

  /**
   * The join table once every link `drop` selects is gone (the cascade of
   * `deleteRole` and `deletePermission`): exactly the other links remain,
   * each under its own id and unchanged.
   */
  function WithoutLinks(rolPer: map<Id, RolPer>, drop: RolPer -> bool): (r: map<Id, RolPer>)
    ensures forall k :: k in r <==> k in rolPer && !drop(rolPer[k])
    ensures forall k :: k in r ==> r[k] == rolPer[k]
  {
    map k | k in rolPer && !drop(rolPer[k]) :: rolPer[k]
  }

  /** A cascading delete keeps the join table free of repeated pairs. */
  lemma WithoutLinksKeepsNoDuplicates(rolPer: map<Id, RolPer>, drop: RolPer -> bool)
    requires NoDuplicateLinks(rolPer)
    ensures NoDuplicateLinks(WithoutLinks(rolPer, drop))
  {
  }

  /** The join-table filter `rolId == … && permisoId == …`. */
  function OfPair(rolId: Id, permisoId: Id): RolPer -> bool
  {
    (link: RolPer) => link == RolPer(rolId, permisoId)
  }

  /** The ids listed in `links`. */
  function Elements(links: seq<Id>): set<Id>
  {
    set l | l in links
  }

  /**
   * Deletes the collected links one after another (the `Promise.all` of
   * `db.delete`). Each delete finds its row, since the ids are distinct and
   * all present when collected.
   */
  method DeleteLinks(db: Database, links: seq<Id>)
    requires forall i, j :: 0 <= i < j < |links| ==> links[i] < links[j]
    requires forall l :: l in links ==> l in db.rolPer
    modifies db`rolPer
    ensures db.rolPer == old(db.rolPer) - Elements(links)
  {
    var i := 0;
    while i < |links|
      invariant 0 <= i <= |links|
      invariant db.rolPer == old(db.rolPer) - Elements(links[..i])
    {
      assert links[i] !in links[..i];
      assert links[i] in db.rolPer;
      assert Elements(links[..i + 1]) == Elements(links[..i]) + {links[i]} by {
        assert links[..i + 1] == links[..i] + [links[i]];
      }
      db.rolPer := db.rolPer - {links[i]};
      i := i + 1;
    }
    assert links[..i] == links;
  }

  /**
   * The `permisoId` of every link of role `rolId`, in link (creation) order
   * and one entry per link (`links.map(link => link.permisoId)`).
   */
  function PermisoIdsOfRole(rolPer: map<Id, RolPer>, rolId: Id, bound: nat): (r: seq<Id>)
    ensures |r| <= bound
    decreases bound
  {
    if bound == 0 then []
    else
      var id := bound - 1;
      PermisoIdsOfRole(rolPer, rolId, id)
        + (if id in rolPer && rolPer[id].rolId == rolId then [rolPer[id].permisoId] else [])
  }

  /** A permission document as a query returns it: its id and its fields. */
  datatype PermisoDoc = PermisoDoc(id: Id, permiso: Permiso)

  /**
   * `ctx.db.get` on every id, keeping the documents that exist, in order
   * (`Promise.all(ids.map(get))` followed by `.filter(p => p !== null)`).
   */
  function GetAll(ids: seq<Id>, permisos: map<Id, Permiso>): (r: seq<PermisoDoc>)
    ensures |r| <= |ids|
  {
    if ids == [] then []
    else
      var rest := GetAll(ids[1..], permisos);
      if ids[0] in permisos then [PermisoDoc(ids[0], permisos[ids[0]])] + rest else rest
  }

  /** The documents fetched are exactly those of the given ids that exist. */
  lemma {:induction false} GetAllMembers(ids: seq<Id>, permisos: map<Id, Permiso>)
    ensures forall d :: d in GetAll(ids, permisos) <==> d.id in ids && d.id in permisos && permisos[d.id] == d.permiso
  {
    if ids != [] {
      GetAllMembers(ids[1..], permisos);
      assert forall x :: x in ids <==> x == ids[0] || x in ids[1..];
    }
  }

  /** Getting the documents of `a + b` gets those of `a`, then those of `b`. */
  lemma {:induction false} GetAllAppend(a: seq<Id>, b: seq<Id>, permisos: map<Id, Permiso>)
    ensures GetAll(a + b, permisos) == GetAll(a, permisos) + GetAll(b, permisos)
  {
    if a != [] {
      assert (a + b)[0] == a[0] && (a + b)[1..] == a[1..] + b;
      GetAllAppend(a[1..], b, permisos);
    } else {
      assert a + b == b;
    }
  }

  /** The names of the given permission documents, in order (`.map(p => p.nombre)`). */
  function Names(docs: seq<PermisoDoc>): (r: seq<string>)
    ensures |r| == |docs|
    ensures forall i :: 0 <= i < |docs| ==> r[i] == docs[i].permiso.nombre
  {
    if docs == [] then [] else [docs[0].permiso.nombre] + Names(docs[1..])
  }

  /** The names of the permissions role `rolId` reaches through its links, in link order. */
  function GrantedNames(rolPer: map<Id, RolPer>, permisos: map<Id, Permiso>, rolId: Id, bound: nat): seq<string>
  {
    Names(GetAll(PermisoIdsOfRole(rolPer, rolId, bound), permisos))
  }

  /** The name the link `id` of role `rolId` leads to, when that permission exists. */
  function NameOfLink(rolPer: map<Id, RolPer>, permisos: map<Id, Permiso>, rolId: Id, id: Id): seq<string>
  {
    if id in rolPer && rolPer[id].rolId == rolId && rolPer[id].permisoId in permisos
    then [permisos[rolPer[id].permisoId].nombre] else []
  }

  /** `GrantedNames` grows by the name the link `bound - 1` leads to, if any. */
  lemma GrantedNamesStep(rolPer: map<Id, RolPer>, permisos: map<Id, Permiso>, rolId: Id, bound: nat)
    requires bound > 0
    ensures GrantedNames(rolPer, permisos, rolId, bound)
         == GrantedNames(rolPer, permisos, rolId, bound - 1) + NameOfLink(rolPer, permisos, rolId, bound - 1)
  {
    var id := bound - 1;
    var front := PermisoIdsOfRole(rolPer, rolId, id);
    var last := if id in rolPer && rolPer[id].rolId == rolId then [rolPer[id].permisoId] else [];
    assert PermisoIdsOfRole(rolPer, rolId, bound) == front + last;
    GetAllAppend(front, last, permisos);
    NamesAppend(GetAll(front, permisos), GetAll(last, permisos));
    assert Names(GetAll(last, permisos)) == NameOfLink(rolPer, permisos, rolId, id) by {
      if last != [] {
        assert last[1..] == [];
        assert GetAll(last, permisos)
            == (if last[0] in permisos then [PermisoDoc(last[0], permisos[last[0]])] else []);
      }
    }
  }

  /** Names of `a + b` are the names of `a`, then those of `b`. */
  lemma {:induction false} NamesAppend(a: seq<PermisoDoc>, b: seq<PermisoDoc>)
    ensures Names(a + b) == Names(a) + Names(b)
  {
    var n := Names(a + b);
    assert |n| == |Names(a) + Names(b)|;
    forall i | 0 <= i < |n| ensures n[i] == (Names(a) + Names(b))[i] {
      if i < |a| {
        assert (a + b)[i] == a[i];
      } else {
        assert (a + b)[i] == b[i - |a|];
      }
    }
  }

  /** Some link of role `rolId` below `bound` leads to an existing permission called `name`. */
  predicate GrantsBelow(rolPer: map<Id, RolPer>, permisos: map<Id, Permiso>, rolId: Id, name: string, bound: nat)
  {
    exists l :: l in rolPer && l < bound && rolPer[l].rolId == rolId && rolPer[l].permisoId in permisos
      && permisos[rolPer[l].permisoId].nombre == name
  }

  /** A name is granted exactly when a link of the role leads to an existing permission with that name. */
  lemma {:induction false} GrantedNamesMembers(rolPer: map<Id, RolPer>, permisos: map<Id, Permiso>, rolId: Id, bound: nat)
    ensures forall name ::
              name in GrantedNames(rolPer, permisos, rolId, bound) <==> GrantsBelow(rolPer, permisos, rolId, name, bound)
  {
    if bound > 0 {
      var id := bound - 1;
      GrantedNamesMembers(rolPer, permisos, rolId, id);
      GrantedNamesStep(rolPer, permisos, rolId, bound);
      var front, last := GrantedNames(rolPer, permisos, rolId, id), NameOfLink(rolPer, permisos, rolId, id);
      forall name
        ensures name in GrantedNames(rolPer, permisos, rolId, bound) <==> GrantsBelow(rolPer, permisos, rolId, name, bound)
      {
        assert name in front + last <==> name in front || name in last;
        if GrantsBelow(rolPer, permisos, rolId, name, bound) {
          var l :| l in rolPer && l < bound && rolPer[l].rolId == rolId && rolPer[l].permisoId in permisos
            && permisos[rolPer[l].permisoId].nombre == name;
          if l < id {
            assert GrantsBelow(rolPer, permisos, rolId, name, id);
          } else {
            assert name in last;
          }
        }
        if name in last {
          assert GrantsBelow(rolPer, permisos, rolId, name, bound) by {
            assert id in rolPer && id < bound && rolPer[id].rolId == rolId && rolPer[id].permisoId in permisos
              && permisos[rolPer[id].permisoId].nombre == name;
          }
        }
      }
    }
  }

  /**
   * Over a join table whose ids are all below `bound`, a role is granted
   * exactly the names its links lead to.
   */
  lemma GrantedNamesIffGrants(rolPer: map<Id, RolPer>, permisos: map<Id, Permiso>, rolId: Id, bound: nat)
    requires Bounded(rolPer, bound)
    ensures forall name ::
              name in GrantedNames(rolPer, permisos, rolId, bound) <==> RoleGrants(rolPer, permisos, rolId, name)
  {
    GrantedNamesMembers(rolPer, permisos, rolId, bound);
  }

  /** A permission id is listed for a role exactly when some link below `bound` pairs them. */
  lemma {:induction false} PermisoIdsOfRoleMembers(rolPer: map<Id, RolPer>, rolId: Id, bound: nat)
    ensures forall pid :: pid in PermisoIdsOfRole(rolPer, rolId, bound) <==>
              exists l :: l in rolPer && l < bound && rolPer[l] == RolPer(rolId, pid)
  {
    if bound > 0 {
      PermisoIdsOfRoleMembers(rolPer, rolId, bound - 1);
      forall pid | (exists l :: l in rolPer && l < bound && rolPer[l] == RolPer(rolId, pid))
        ensures pid in PermisoIdsOfRole(rolPer, rolId, bound)
      {
        var l :| l in rolPer && l < bound && rolPer[l] == RolPer(rolId, pid);
        if l < bound - 1 {
          assert pid in PermisoIdsOfRole(rolPer, rolId, bound - 1);
        }
      }
    }
  }

  /**
   * One entry per link: a role is granted exactly as many names as it has
   * links to existing permissions, repeated pairs included.
   */
  lemma {:induction false} GrantedNamesCount(rolPer: map<Id, RolPer>, permisos: map<Id, Permiso>, rolId: Id, bound: nat)
    ensures |GrantedNames(rolPer, permisos, rolId, bound)| == |Where(rolPer, OfRoleToExisting(rolId, permisos), bound)|
  {
    if bound > 0 {
      GrantedNamesCount(rolPer, permisos, rolId, bound - 1);
      GrantedNamesStep(rolPer, permisos, rolId, bound);
      WhereStep(rolPer, OfRoleToExisting(rolId, permisos), bound);
    }
  }

  /** A sequence without repeated elements. */
  predicate Distinct<T(==)>(s: seq<T>)
  {
    forall i, j :: 0 <= i < j < |s| ==> s[i] != s[j]
  }

  /** Appending an element not yet present keeps a sequence distinct. */
  lemma DistinctSnoc<T>(s: seq<T>, x: T)
    requires Distinct(s) && x !in s
    ensures Distinct(s + [x])
  {
    var t := s + [x];
    assert forall i :: 0 <= i < |s| ==> t[i] == s[i];
  }

  /**
   * Under no duplicate links and unique names, the name the link `id` leads
   * to is not granted by any earlier link of the same role.
   */
  lemma NewNameIsFresh(rolPer: map<Id, RolPer>, permisos: map<Id, Permiso>, rolId: Id, id: nat)
    requires NoDuplicateLinks(rolPer) && UniqueNames(permisos)
    requires id in rolPer && rolPer[id].rolId == rolId && rolPer[id].permisoId in permisos
    ensures !GrantsBelow(rolPer, permisos, rolId, permisos[rolPer[id].permisoId].nombre, id)
  {
  }

  /**
   * With no duplicate links and unique permission names, a role is granted
   * each name at most once.
   */
  lemma {:induction false} GrantedNamesDistinct(rolPer: map<Id, RolPer>, permisos: map<Id, Permiso>, rolId: Id, bound: nat)
    requires NoDuplicateLinks(rolPer) && UniqueNames(permisos)
    ensures Distinct(GrantedNames(rolPer, permisos, rolId, bound))
  {
    if bound > 0 {
      var id := bound - 1;
      GrantedNamesDistinct(rolPer, permisos, rolId, id);
      GrantedNamesStep(rolPer, permisos, rolId, bound);
      var front := GrantedNames(rolPer, permisos, rolId, id);
      if id in rolPer && rolPer[id].rolId == rolId && rolPer[id].permisoId in permisos {
        var name := permisos[rolPer[id].permisoId].nombre;
        assert NameOfLink(rolPer, permisos, rolId, id) == [name];
        assert name !in front by {
          GrantedNamesMembers(rolPer, permisos, rolId, id);
          NewNameIsFresh(rolPer, permisos, rolId, id);
        }
        DistinctSnoc(front, name);
        assert GrantedNames(rolPer, permisos, rolId, bound) == front + [name];
      } else {
        assert NameOfLink(rolPer, permisos, rolId, id) == [];
        assert GrantedNames(rolPer, permisos, rolId, bound) == front;
      }
    } else {
      assert GrantedNames(rolPer, permisos, rolId, bound) == [];
    }
  }
}
