/** The platform catalogue of apps/api/src/platforms/platforms.service.ts,
    over a table that stands for the Prisma model behind
    apps/api/src/platforms/platforms.repository.ts: `name` is a unique
    column, so the table itself refuses a second platform of the same name,
    and the service's own checks turn most of those refusals into Conflict
    beforehand. Fresh ids and the clock are method parameters. */
module PlatformsService {
  import opened Wrappers
  import Listing

  datatype Platform = Platform(id: string, name: string, createdAt: int)

  /** The ordering key of `orderBy: { createdAt: "desc" }`. */
  const ByCreatedAt: Platform -> int := (p: Platform) => p.createdAt

  /** Some platform is called `name`. */
  ghost predicate NameTaken(platforms: map<string, Platform>, name: string)
  {
    exists id :: id in platforms && platforms[id].name == name
  }

  /** Some platform other than `id` is called `name`. */
  ghost predicate NameTakenByOther(platforms: map<string, Platform>, id: string, name: string)
  {
    exists other :: other in platforms && other != id && platforms[other].name == name
  }

  /** Every row sits under its own id, and no two share a name. */
  ghost predicate WellFormed(platforms: map<string, Platform>)
  {
    && (forall id :: id in platforms ==> platforms[id].id == id)
    && (forall a, b :: a in platforms && b in platforms && platforms[a].name == platforms[b].name ==> a == b)
  }

  /** `list` holds every platform exactly once. */
  ghost predicate Lists(list: seq<Platform>, platforms: map<string, Platform>)
  {
    && (forall i :: 0 <= i < |list| ==> list[i].id in platforms && platforms[list[i].id] == list[i])
    && (forall id :: id in platforms ==> platforms[id] in list)
    && Listing.Distinct(list)
  }

  /** `listing` holds every platform exactly once, newest first. */
  ghost predicate NewestFirst(listing: seq<Platform>, platforms: map<string, Platform>)
  {
    Lists(listing, platforms) && Listing.NonIncreasing(listing, ByCreatedAt)
  }

  /** Sorting all platforms by creation time, newest first, gives the
      listing `findAll` slices. */
  lemma SortedIsNewestFirst(all: seq<Platform>, sorted: seq<Platform>, platforms: map<string, Platform>)
    requires Lists(all, platforms)
    requires sorted == Listing.SortDesc(all, ByCreatedAt)
    ensures NewestFirst(sorted, platforms)
  {
    Listing.DistinctPermutation(all, sorted);
    forall i | 0 <= i < |sorted|
      ensures sorted[i].id in platforms && platforms[sorted[i].id] == sorted[i]
    {
      assert sorted[i] in multiset(all);
    }
    forall id | id in platforms ensures platforms[id] in sorted {
      assert platforms[id] in multiset(all);
    }
  }

  /** Renaming a platform to a name no other platform holds keeps names
      unique. */
  lemma RenameKeepsWellFormed(platforms: map<string, Platform>, id: string, name: string)
    requires WellFormed(platforms) && id in platforms
    requires !NameTakenByOther(platforms, id, name)
    ensures WellFormed(platforms[id := platforms[id].(name := name)])
  {
    var m := platforms[id := platforms[id].(name := name)];
    forall a, b | a in m && b in m && m[a].name == m[b].name ensures a == b {
      if a != id && b != id {
        assert m[a] == platforms[a] && m[b] == platforms[b];
      }
    }
  }

  datatype StoreError =
    | RecordMissing     // no row with that id
    | UniqueViolation   // another row already has that name

  datatype Error = NotFound | Conflict | Store(cause: StoreError)

  class PlatformTable {
    var platforms: map<string, Platform>

    ghost predicate Valid()
      reads this
    {
      WellFormed(platforms)
    }

    constructor (platforms: map<string, Platform>)
      requires WellFormed(platforms)
      ensures Valid() && this.platforms == platforms
    {
      this.platforms := platforms;
    }

    /** `findMany`: every platform once, in the order the table yields them. */
    method All() returns (all: seq<Platform>)
      requires Valid()
      ensures Lists(all, platforms)
    {
      all := [];
      var rest := platforms.Keys;
      while rest != {}
        invariant rest <= platforms.Keys
        invariant forall i :: 0 <= i < |all| ==> all[i].id in platforms && platforms[all[i].id] == all[i]
        invariant forall i :: 0 <= i < |all| ==> all[i].id !in rest
        invariant forall id :: id in platforms && id !in rest ==> platforms[id] in all
        invariant Listing.Distinct(all)
        decreases |rest|
      {
        var id :| id in rest;
        var p := platforms[id];
        assert p !in all by {
          forall i | 0 <= i < |all| ensures all[i] != p {
            assert all[i].id !in rest;
          }
        }
        Listing.DistinctAppend(all, p);
        all := all + [p];
        rest := rest - {id};
      }
    }

    /** `findUnique({ where: { name } })`. */
    method FindByName(name: string) returns (r: Option<Platform>)
      requires Valid()
      ensures r.Some? ==> r.value.id in platforms && platforms[r.value.id] == r.value && r.value.name == name
      ensures r.None? <==> !NameTaken(platforms, name)
    {
      if id :| id in platforms && platforms[id].name == name {
        r := Some(platforms[id]);
      } else {
        r := None;
      }
    }

    /** `create`: a new row under a fresh id, unless the name is taken. */
    method Insert(name: string, freshId: string, now: int) returns (r: Result<Platform, StoreError>)
      requires Valid() && freshId !in platforms
      modifies this
      ensures Valid()
      ensures NameTaken(old(platforms), name) ==> r == Err(UniqueViolation) && platforms == old(platforms)
      ensures !NameTaken(old(platforms), name) ==>
        r == Ok(Platform(freshId, name, now)) && platforms == old(platforms)[freshId := r.value]
    {
      if id :| id in platforms && platforms[id].name == name {
        return Err(UniqueViolation);
      }
      var p := Platform(freshId, name, now);
      platforms := platforms[freshId := p];
      r := Ok(p);
    }

    /** `update(id, data)`: an omitted name changes nothing; a given one is
        written as is, unless another row holds it. */
    method Update(id: string, name: Option<string>) returns (r: Result<Platform, StoreError>)
      requires Valid()
      modifies this
      ensures Valid()
      ensures id !in old(platforms) ==> r == Err(RecordMissing) && platforms == old(platforms)
      ensures id in old(platforms) && name.None? ==> r == Ok(old(platforms)[id]) && platforms == old(platforms)
      ensures id in old(platforms) && name.Some? && NameTakenByOther(old(platforms), id, name.value)
        ==> r == Err(UniqueViolation) && platforms == old(platforms)
      ensures id in old(platforms) && name.Some? && !NameTakenByOther(old(platforms), id, name.value)
        ==> r == Ok(old(platforms)[id].(name := name.value)) && platforms == old(platforms)[id := r.value]
    {
      if id !in platforms {
        return Err(RecordMissing);
      }
      if name.None? {
        return Ok(platforms[id]);
      }
      if other :| other in platforms && other != id && platforms[other].name == name.value {
        return Err(UniqueViolation);
      }
      RenameKeepsWellFormed(platforms, id, name.value);
      var p := platforms[id].(name := name.value);
      platforms := platforms[id := p];
      r := Ok(p);
    }

    /** `delete`: removes that row and no other. */
    method Delete(id: string) returns (r: Result<Platform, StoreError>)
      requires Valid()
      modifies this
      ensures Valid()
      ensures id !in old(platforms) ==> r == Err(RecordMissing) && platforms == old(platforms)
      ensures id in old(platforms) ==> r == Ok(old(platforms)[id]) && platforms == old(platforms) - {id}
    {
      if id !in platforms {
        return Err(RecordMissing);
      }
      r := Ok(platforms[id]);
      platforms := platforms - {id};
    }
  }

  class Service {
    const table: PlatformTable

    ghost predicate Valid()
      reads this, table
    {
      table.Valid()
    }

    constructor (table: PlatformTable)
      requires table.Valid()
      ensures Valid() && this.table == table
    {
      this.table := table;
    }

    /** `findAll`: `slice(skip, skip + limit)` of all platforms newest
        first, with `skip = (page - 1) * limit` and JavaScript's slice
        rules for any page and limit; `total` counts every platform. For a
        page of at least 1 and a non-negative limit the slice is at most
        `limit` platforms starting at `skip`. */
    method FindAll(page: int, limit: int) returns (platforms: seq<Platform>, total: nat, ghost listing: seq<Platform>)
      requires Valid()
      ensures NewestFirst(listing, table.platforms)
      ensures platforms == Listing.JsSlice(listing, (page - 1) * limit, (page - 1) * limit + limit)
      ensures page >= 1 && limit >= 0 ==> platforms == Listing.Window(listing, (page - 1) * limit, limit)
      ensures total == |listing|
      ensures page >= 1 && limit >= 0 ==> |platforms| <= limit
      ensures page >= 1 && limit >= 0 ==> forall i :: 0 <= i < |platforms| ==>
        platforms[i].id in table.platforms && table.platforms[platforms[i].id] == platforms[i]
    {
      var all := table.All();
      var sorted := Listing.SortDesc(all, ByCreatedAt);
      SortedIsNewestFirst(all, sorted, table.platforms);
      listing := sorted;
      var skip := (page - 1) * limit;
      platforms := Listing.JsSlice(sorted, skip, skip + limit);
      if page >= 1 && limit >= 0 {
        Listing.JsSliceIsWindow(sorted, skip, limit);
      }
      total := |sorted|;
    }

    /** `findById`: the platform, or NotFound. */
    method FindById(id: string) returns (r: Result<Platform, Error>)
      ensures id !in table.platforms ==> r == Err(NotFound)
      ensures id in table.platforms ==> r == Ok(table.platforms[id])
    {
      if id !in table.platforms {
        return Err(NotFound);
      }
      r := Ok(table.platforms[id]);
    }

    /** `create`: Conflict when the name exists, and otherwise exactly one
        platform with that name is added; the table never refuses what the
        service let through. */
    method Create(name: string, freshId: string, now: int) returns (r: Result<Platform, Error>)
      requires Valid() && freshId !in table.platforms
      modifies table
      ensures Valid()
      ensures NameTaken(old(table.platforms), name) ==> r == Err(Conflict) && table.platforms == old(table.platforms)
      ensures !NameTaken(old(table.platforms), name) ==>
        r == Ok(Platform(freshId, name, now)) && table.platforms == old(table.platforms)[freshId := r.value]
    {
      var existing := table.FindByName(name);
      if existing.Some? {
        return Err(Conflict);
      }
      var created := table.Insert(name, freshId, now);
      r := Ok(created.value);
    }

    /** `update`: NotFound first; Conflict only for a given, non-empty name
        that differs from the current one and is taken. An omitted name or
        the current one never conflicts. The empty name skips the check,
        so only for it can the table's own uniqueness refusal surface. */
    method Update(id: string, name: Option<string>) returns (r: Result<Platform, Error>)
      requires Valid()
      modifies table
      ensures Valid()
      ensures r.Err? ==> table.platforms == old(table.platforms)
      ensures r == Err(NotFound) <==> id !in old(table.platforms)
      ensures r != Err(Store(RecordMissing))
      ensures r == Err(Conflict) <==>
        && id in old(table.platforms)
        && name.Some? && name.value != "" && name.value != old(table.platforms)[id].name
        && NameTaken(old(table.platforms), name.value)
      ensures r == Err(Store(UniqueViolation)) ==> name == Some("")
      ensures r.Ok? ==>
        && id in old(table.platforms)
        && r.value == old(table.platforms)[id].(name := if name.Some? then name.value else old(table.platforms)[id].name)
        && table.platforms == old(table.platforms)[id := r.value]
      ensures id in old(table.platforms) && (name.None? || name.value == old(table.platforms)[id].name)
        ==> r == Ok(old(table.platforms)[id])
      ensures id in old(table.platforms) && name.Some? && !NameTakenByOther(old(table.platforms), id, name.value)
        ==> r == Ok(old(table.platforms)[id].(name := name.value))
    {
      var found := FindById(id);
      if found.Err? {
        return Err(found.error);
      }
      var platform := found.value;
      if name.Some? && name.value != "" && name.value != platform.name {
        var existing := table.FindByName(name.value);
        if existing.Some? {
          return Err(Conflict);
        }
      }
      var updated := table.Update(id, name);
      if updated.Err? {
        return Err(Store(updated.error));
      }
      r := Ok(updated.value);
    }

    /** `delete`: NotFound for an absent id; otherwise exactly that platform
        is removed. */
    method Delete(id: string) returns (err: Option<Error>)
      requires Valid()
      modifies table
      ensures Valid()
      ensures id !in old(table.platforms) ==> err == Some(NotFound) && table.platforms == old(table.platforms)
      ensures id in old(table.platforms) ==> err == None && table.platforms == old(table.platforms) - {id}
    {
      var found := FindById(id);
      if found.Err? {
        return Some(found.error);
      }
      var _ := table.Delete(id);
      err := None;
    }
  }
}
