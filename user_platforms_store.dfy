/** The web store of apps/web/src/stores/user-platforms.store.ts: the
    loaded bindings with their cursor paging, the cache of generated codes,
    and the set of bindings whose code is being generated. Each async
    action is a `Begin…` method, run when it is called, and a `Complete…`
    method, run with the outcome of the request it awaited; other actions
    are not interleaved between the two. Failure messages are translation
    keys. */
module UserPlatformsStore {
  import opened Wrappers
  import opened WebApi

  const DefaultLimit: nat := 20
  const LoadFailed := "errors.loadUserPlatformsFailed"
  const LoadMoreFailed := "errors.loadMoreFailed"
  const GenerateFailed := "errors.generateOTPFailed"

  /** The list and paging fields of the store, as one value. */
  datatype Paging = Paging(
    userPlatforms: seq<Binding>, total: int, currentPage: int,
    isLoading: bool, isLoadingMore: bool, hasMore: bool, nextCursor: Option<string>)

  class Store {
    var userPlatforms: seq<Binding>
    var total: int
    var currentPage: int
    var isLoading: bool
    var isLoadingMore: bool
    var error: Option<string>
    var otpData: map<string, OtpResponse>
    var hasMore: bool
    var nextCursor: Option<string>
    /** `ongoingOTPGenerations`, the closure's in-flight set. */
    var ongoing: set<string>

    /** The list and paging fields, which code generation never touches. */
    ghost function PagingState(): Paging
      reads this
    {
      Paging(userPlatforms, total, currentPage, isLoading, isLoadingMore, hasMore, nextCursor)
    }

    /** The initial state of the store. */
    constructor ()
      ensures userPlatforms == [] && total == 0 && currentPage == 1
      ensures !isLoading && !isLoadingMore && error.None?
      ensures otpData == map[] && hasMore && nextCursor.None? && ongoing == {}
    {
      userPlatforms := [];
      total := 0;
      currentPage := 1;
      isLoading := false;
      isLoadingMore := false;
      error := None;
      otpData := map[];
      hasMore := true;
      nextCursor := None;
      ongoing := {};
    }

    /** `loadUserPlatforms`, up to the request. */
    method BeginLoad()
      modifies this
      ensures isLoading && error.None?
      ensures userPlatforms == old(userPlatforms) && total == old(total) && currentPage == old(currentPage)
      ensures isLoadingMore == old(isLoadingMore) && otpData == old(otpData)
      ensures hasMore == old(hasMore) && nextCursor == old(nextCursor) && ongoing == old(ongoing)
    {
      isLoading := true;
      error := None;
    }

    /** `loadUserPlatforms(page)`, after the request: a page replaces the
        list, and more is expected exactly when it carries a cursor. */
    method CompleteLoad(page: int, outcome: Outcome<BindingPage>)
      modifies this
      ensures !isLoading
      ensures outcome.Success? ==>
        && userPlatforms == outcome.value.data
        && total == outcome.value.total
        && currentPage == page
        && hasMore == Truthy(outcome.value.nextCursor)
        && nextCursor == outcome.value.nextCursor
        && error == old(error)
      ensures outcome.Failure? ==>
        && error == Some(ErrorText(outcome.message, LoadFailed))
        && userPlatforms == old(userPlatforms) && total == old(total) && currentPage == old(currentPage)
        && hasMore == old(hasMore) && nextCursor == old(nextCursor)
      ensures isLoadingMore == old(isLoadingMore) && otpData == old(otpData) && ongoing == old(ongoing)
    {
      match outcome
      case Success(response) =>
        userPlatforms := response.data;
        total := response.total;
        currentPage := page;
        isLoading := false;
        hasMore := Truthy(response.nextCursor);
        nextCursor := response.nextCursor;
      case Failure(message) =>
        error := Some(ErrorText(message, LoadFailed));
        isLoading := false;
    }

    /** `loadMoreUserPlatforms`, up to the request: nothing happens while a
        page is loading, when no more is expected, or without a cursor;
        otherwise the cursor to send is returned. */
    method BeginLoadMore() returns (cursor: Option<string>)
      modifies this
      ensures cursor.None? <==> old(isLoadingMore) || !old(hasMore) || !Truthy(old(nextCursor))
      ensures cursor.None? ==> isLoadingMore == old(isLoadingMore) && error == old(error)
      ensures cursor.Some? ==> cursor == old(nextCursor) && isLoadingMore && error.None?
      ensures userPlatforms == old(userPlatforms) && total == old(total) && currentPage == old(currentPage)
      ensures isLoading == old(isLoading) && otpData == old(otpData)
      ensures hasMore == old(hasMore) && nextCursor == old(nextCursor) && ongoing == old(ongoing)
    {
      if isLoadingMore || !hasMore || !Truthy(nextCursor) {
        return None;
      }
      isLoadingMore := true;
      error := None;
      cursor := nextCursor;
    }

    /** `loadMoreUserPlatforms`, after the request: the new page follows the
        loaded list, in order. */
    method CompleteLoadMore(outcome: Outcome<BindingPage>)
      modifies this
      ensures !isLoadingMore
      ensures outcome.Success? ==>
        && userPlatforms == old(userPlatforms) + outcome.value.data
        && total == outcome.value.total
        && hasMore == Truthy(outcome.value.nextCursor)
        && nextCursor == outcome.value.nextCursor
        && error == old(error)
      ensures outcome.Failure? ==>
        && error == Some(ErrorText(outcome.message, LoadMoreFailed))
        && userPlatforms == old(userPlatforms) && total == old(total)
        && hasMore == old(hasMore) && nextCursor == old(nextCursor)
      ensures currentPage == old(currentPage) && isLoading == old(isLoading)
      ensures otpData == old(otpData) && ongoing == old(ongoing)
    {
      match outcome
      case Success(response) =>
        userPlatforms := userPlatforms + response.data;
        total := response.total;
        isLoadingMore := false;
        hasMore := Truthy(response.nextCursor);
        nextCursor := response.nextCursor;
      case Failure(message) =>
        error := Some(ErrorText(message, LoadMoreFailed));
        isLoadingMore := false;
    }

    /** `generateOTP`, up to the request: a binding already in flight is
        refused with "already in progress" and nothing changes; otherwise it
        joins the in-flight set. */
    method BeginGenerateOtp(id: string) returns (alreadyInProgress: bool)
      modifies this
      ensures alreadyInProgress <==> id in old(ongoing)
      ensures alreadyInProgress ==> ongoing == old(ongoing) && error == old(error)
      ensures !alreadyInProgress ==> ongoing == old(ongoing) + {id} && error.None?
      ensures userPlatforms == old(userPlatforms) && total == old(total) && currentPage == old(currentPage)
      ensures isLoading == old(isLoading) && isLoadingMore == old(isLoadingMore) && otpData == old(otpData)
      ensures hasMore == old(hasMore) && nextCursor == old(nextCursor)
    {
      if id in ongoing {
        return true;
      }
      ongoing := ongoing + {id};
      error := None;
      alreadyInProgress := false;
    }

    /** `generateOTP`, after the request: a code is cached under its
        binding alone, a failure sets the error and is rethrown, and either
        way the binding leaves the in-flight set. */
    method CompleteGenerateOtp(id: string, outcome: Outcome<OtpResponse>) returns (rethrown: bool)
      requires id in ongoing
      modifies this
      ensures rethrown <==> outcome.Failure?
      ensures ongoing == old(ongoing) - {id}
      ensures outcome.Success? ==> otpData == old(otpData)[id := outcome.value] && error == old(error)
      ensures outcome.Failure? ==> otpData == old(otpData) && error == Some(ErrorText(outcome.message, GenerateFailed))
      ensures userPlatforms == old(userPlatforms) && total == old(total) && currentPage == old(currentPage)
      ensures isLoading == old(isLoading) && isLoadingMore == old(isLoadingMore)
      ensures hasMore == old(hasMore) && nextCursor == old(nextCursor)
    {
      match outcome {
        case Success(response) =>
          otpData := otpData[id := response];
          rethrown := false;
        case Failure(message) =>
          error := Some(ErrorText(message, GenerateFailed));
          rethrown := true;
      }
      ongoing := ongoing - {id};
    }

    /** `clearError`. */
    method ClearError()
      modifies this
      ensures error.None?
      ensures userPlatforms == old(userPlatforms) && total == old(total) && currentPage == old(currentPage)
      ensures isLoading == old(isLoading) && isLoadingMore == old(isLoadingMore) && otpData == old(otpData)
      ensures hasMore == old(hasMore) && nextCursor == old(nextCursor) && ongoing == old(ongoing)
    {
      error := None;
    }

    /** `clearOTPData`: drops the given binding's code and no other. */
    method ClearOtpData(id: string)
      modifies this
      ensures otpData == old(otpData) - {id}
      ensures userPlatforms == old(userPlatforms) && total == old(total) && currentPage == old(currentPage)
      ensures isLoading == old(isLoading) && isLoadingMore == old(isLoadingMore) && error == old(error)
      ensures hasMore == old(hasMore) && nextCursor == old(nextCursor) && ongoing == old(ongoing)
    {
      otpData := otpData - {id};
    }

    /** `resetUserPlatforms`: the paging fields return to their initial
        values; the code cache, the flags and the error stay. */
    method ResetUserPlatforms()
      modifies this
      ensures userPlatforms == [] && total == 0 && currentPage == 1 && hasMore && nextCursor.None?
      ensures otpData == old(otpData) && ongoing == old(ongoing)
      ensures isLoading == old(isLoading) && isLoadingMore == old(isLoadingMore) && error == old(error)
    {
      userPlatforms := [];
      total := 0;
      currentPage := 1;
      hasMore := true;
      nextCursor := None;
    }
  }
}
