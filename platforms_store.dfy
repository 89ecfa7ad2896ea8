/** The web store of apps/web/src/stores/platforms.store.ts: the platform
    list the management dialog edits. Every async action starts with
    `Begin` and ends with the `Complete…` of that action, given the outcome
    of its request. Failure messages are translation keys. */
module PlatformsStore {
  import opened Wrappers
  import opened WebApi

  const LoadFailed := "errors.loadPlatformsFailed"
  const CreateFailed := "errors.createPlatformFailed"
  const UpdateFailed := "errors.updatePlatformFailed"
  const DeleteFailed := "errors.deletePlatformFailed"

  datatype Pagination = Pagination(page: int, limit: int, total: int)

  /** `platforms.map(p => p.id === id ? updated : p)`. */
  function ReplaceById(s: seq<Platform>, id: string, updated: Platform): (r: seq<Platform>)
    ensures |r| == |s|
  {
    if s == [] then []
    else [if s[0].id == id then updated else s[0]] + ReplaceById(s[1..], id, updated)
  }

  /** `platforms.filter(p => p.id !== id)`. */
  function RemoveById(s: seq<Platform>, id: string): (r: seq<Platform>)
    ensures |r| <= |s|
    ensures forall i :: 0 <= i < |r| ==> r[i].id != id
  {
    if s == [] then []
    else if s[0].id == id then RemoveById(s[1..], id)
    else [s[0]] + RemoveById(s[1..], id)
  }

  /** Every element with the id is the updated record, and every other
      element is the one that was there. */
  lemma {:induction false} ReplaceAt(s: seq<Platform>, id: string, updated: Platform, i: nat)
    requires i < |s|
    ensures ReplaceById(s, id, updated)[i] == if s[i].id == id then updated else s[i]
    decreases i
  {
    if i > 0 {
      ReplaceAt(s[1..], id, updated, i - 1);
    }
  }

  /** Filtering splits over concatenation, so the kept elements stay in
      their order. */
  lemma {:induction false} RemoveConcat(a: seq<Platform>, b: seq<Platform>, id: string)
    ensures RemoveById(a + b, id) == RemoveById(a, id) + RemoveById(b, id)
    decreases |a|
  {
    if a == [] {
      assert a + b == b;
    } else {
      assert (a + b)[0] == a[0] && (a + b)[1..] == a[1..] + b;
      RemoveConcat(a[1..], b, id);
    }
  }

  /** An element with another id survives the filter. */
  lemma {:induction false} RemoveKeeps(s: seq<Platform>, id: string, p: Platform)
    requires p in s && p.id != id
    ensures p in RemoveById(s, id)
    decreases |s|
  {
    if s[0] != p {
      RemoveKeeps(s[1..], id, p);
    }
  }

  /** A list without the id is left as it is. */
  lemma {:induction false} RemoveAbsent(s: seq<Platform>, id: string)
    requires forall i :: 0 <= i < |s| ==> s[i].id != id
    ensures RemoveById(s, id) == s
    decreases |s|
  {
    if s != [] {
      RemoveAbsent(s[1..], id);
    }
  }

  /** An update whose response keeps the id changes nothing outside that
      id: filtering the id out before or after it gives the same list. */
  lemma {:induction false} ReplaceOnlyTouchesId(s: seq<Platform>, id: string, updated: Platform)
    requires updated.id == id
    ensures RemoveById(ReplaceById(s, id, updated), id) == RemoveById(s, id)
    decreases |s|
  {
    if s != [] {
      ReplaceOnlyTouchesId(s[1..], id, updated);
    }
  }

  class Store {
    var platforms: seq<Platform>
    var isLoading: bool
    var error: Option<string>
    var pagination: Pagination

    /** An empty list, page 1 of 10. */
    constructor ()
      ensures platforms == [] && !isLoading && error.None? && pagination == Pagination(1, 10, 0)
    {
      platforms := [];
      isLoading := false;
      error := None;
      pagination := Pagination(1, 10, 0);
    }

    /** The first `set` of every action. */
    method Begin()
      modifies this
      ensures isLoading && error.None?
      ensures platforms == old(platforms) && pagination == old(pagination)
    {
      isLoading := true;
      error := None;
    }

    /** `loadPlatforms(page, limit)`, after the request: the page replaces
        the list and the pagination records the arguments and the total. */
    method CompleteLoad(page: int, limit: int, outcome: Outcome<PlatformPage>)
      modifies this
      ensures !isLoading
      ensures outcome.Success? ==>
        && platforms == outcome.value.platforms
        && pagination == Pagination(page, limit, outcome.value.total)
        && error == old(error)
      ensures outcome.Failure? ==>
        && platforms == old(platforms) && pagination == old(pagination)
        && error == Some(ErrorText(outcome.message, LoadFailed))
    {
      match outcome {
        case Success(response) =>
          platforms := response.platforms;
          pagination := Pagination(page, limit, response.total);
          isLoading := false;
        case Failure(message) =>
          error := Some(ErrorText(message, LoadFailed));
          isLoading := false;
      }
    }

    /** `createPlatform`, after the request: the new platform goes last. */
    method CompleteCreate(outcome: Outcome<Platform>) returns (rethrown: bool)
      modifies this
      ensures !isLoading && pagination == old(pagination)
      ensures rethrown <==> outcome.Failure?
      ensures outcome.Success? ==> platforms == old(platforms) + [outcome.value] && error == old(error)
      ensures outcome.Failure? ==>
        platforms == old(platforms) && error == Some(ErrorText(outcome.message, CreateFailed))
    {
      match outcome {
        case Success(created) =>
          platforms := platforms + [created];
          isLoading := false;
          rethrown := false;
        case Failure(message) =>
          error := Some(ErrorText(message, CreateFailed));
          isLoading := false;
          rethrown := true;
      }
    }

    /** `updatePlatform(id)`, after the request. */
    method CompleteUpdate(id: string, outcome: Outcome<Platform>) returns (rethrown: bool)
      modifies this
      ensures !isLoading && pagination == old(pagination)
      ensures rethrown <==> outcome.Failure?
      ensures outcome.Success? ==> platforms == ReplaceById(old(platforms), id, outcome.value) && error == old(error)
      ensures outcome.Failure? ==>
        platforms == old(platforms) && error == Some(ErrorText(outcome.message, UpdateFailed))
    {
      match outcome {
        case Success(updated) =>
          platforms := ReplaceById(platforms, id, updated);
          isLoading := false;
          rethrown := false;
        case Failure(message) =>
          error := Some(ErrorText(message, UpdateFailed));
          isLoading := false;
          rethrown := true;
      }
    }

    /** `deletePlatform(id)`, after the request. */
    method CompleteDelete(id: string, outcome: Outcome<()>) returns (rethrown: bool)
      modifies this
      ensures !isLoading && pagination == old(pagination)
      ensures rethrown <==> outcome.Failure?
      ensures outcome.Success? ==> platforms == RemoveById(old(platforms), id) && error == old(error)
      ensures outcome.Failure? ==>
        platforms == old(platforms) && error == Some(ErrorText(outcome.message, DeleteFailed))
    {
      match outcome {
        case Success(_) =>
          platforms := RemoveById(platforms, id);
          isLoading := false;
          rethrown := false;
        case Failure(message) =>
          error := Some(ErrorText(message, DeleteFailed));
          isLoading := false;
          rethrown := true;
      }
    }

    /** `clearError`. */
    method ClearError()
      modifies this
      ensures error.None?
      ensures platforms == old(platforms) && isLoading == old(isLoading) && pagination == old(pagination)
    {
      error := None;
    }
  }
}
