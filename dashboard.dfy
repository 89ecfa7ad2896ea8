/** The logic of apps/web/src/pages/Dashboard.tsx that is not rendering:
    the one-second countdown tick of the displayed codes, code generation
    with its refreshing marks, the bind form's submission, and the clean-up
    after a binding is deleted. The interval and the `setTimeout` that
    re-requests expired codes are not modelled: the tick is called, and it
    returns the bindings whose code must be regenerated. The component's
    `refreshingPlatforms` state and its ref are always updated together
    and are one set here. */
module Dashboard {
  import opened Wrappers
  import opened WebApi
  import Strings
  import UserPlatformsStore

  const Required := "validation.required"
  const CreateFailed := "errors.createUserPlatformFailed"

  datatype BindField = PlatformIdField | AccountNameField | SecretField

  /** The bind form's inputs. */
  datatype NewBinding = NewBinding(platformId: string, accountName: string, secret: string)

  const EmptyBinding := NewBinding("", "", "")

  /** `userPlatforms.some(p => p.id === id)`. */
  predicate Loaded(bindings: seq<Binding>, id: string)
  {
    exists b :: b in bindings && b.id == id
  }

  /** The countdowns one tick leaves: entries of bindings still loaded that
      were positive, one lower. */
  function Ticked(countdowns: map<string, int>, bindings: seq<Binding>): map<string, int>
  {
    map k | k in countdowns && Loaded(bindings, k) && countdowns[k] > 0 :: countdowns[k] - 1
  }

  /** The bindings one tick finds expired: still loaded, at zero or below. */
  function Expired(countdowns: map<string, int>, bindings: seq<Binding>): set<string>
  {
    set k | k in countdowns && Loaded(bindings, k) && countdowns[k] <= 0
  }

  /** The state of the tick's `forEach` once the keys outside `pending`
      have been visited. */
  function PartlyTicked(countdowns: map<string, int>, bindings: seq<Binding>, pending: set<string>): map<string, int>
  {
    map k | k in countdowns && (k in pending || (Loaded(bindings, k) && countdowns[k] > 0))
      :: if k in pending then countdowns[k] else countdowns[k] - 1
  }

  /** Every counted binding is in exactly one place after a tick: still
      counting, one lower; expired; or dropped because it is no longer
      loaded. */
  lemma TickPartition(countdowns: map<string, int>, bindings: seq<Binding>, id: string)
    requires id in countdowns
    ensures !Loaded(bindings, id) ==> id !in Ticked(countdowns, bindings) && id !in Expired(countdowns, bindings)
    ensures Loaded(bindings, id) && countdowns[id] > 0 ==>
      id in Ticked(countdowns, bindings) && Ticked(countdowns, bindings)[id] == countdowns[id] - 1
      && id !in Expired(countdowns, bindings)
    ensures Loaded(bindings, id) && countdowns[id] <= 0 ==>
      id in Expired(countdowns, bindings) && id !in Ticked(countdowns, bindings)
  {
  }

  /** A tick adds no binding, and over no countdowns it changes nothing. */
  lemma TickShrinks(countdowns: map<string, int>, bindings: seq<Binding>)
    ensures Ticked(countdowns, bindings).Keys <= countdowns.Keys
    ensures Expired(countdowns, bindings) <= countdowns.Keys
    ensures countdowns == map[] ==> Ticked(countdowns, bindings) == map[] && Expired(countdowns, bindings) == {}
  {
  }

  /** `n` ticks. */
  function Ticks(countdowns: map<string, int>, bindings: seq<Binding>, n: nat): map<string, int>
  {
    if n == 0 then countdowns else Ticked(Ticks(countdowns, bindings, n - 1), bindings)
  }

  /** A code shown with `expiresIn` seconds left, while its binding stays
      loaded, reads `expiresIn - n` after `n` ticks, and the tick after it
      reads zero hands it back for regeneration. */
  lemma {:induction false} CountdownRunsDown(countdowns: map<string, int>, bindings: seq<Binding>, id: string, n: nat)
    requires id in countdowns && Loaded(bindings, id) && n <= countdowns[id]
    ensures id in Ticks(countdowns, bindings, n) && Ticks(countdowns, bindings, n)[id] == countdowns[id] - n
    ensures n == countdowns[id] ==> id in Expired(Ticks(countdowns, bindings, n), bindings)
    decreases n
  {
    if n > 0 {
      CountdownRunsDown(countdowns, bindings, id, n - 1);
      TickPartition(Ticks(countdowns, bindings, n - 1), bindings, id);
    }
  }

  /** Which bind fields are empty, each with the "required" message. */
  function BindErrors(form: NewBinding): (errors: map<BindField, string>)
    ensures PlatformIdField in errors <==> form.platformId == ""
    ensures AccountNameField in errors <==> form.accountName == ""
    ensures SecretField in errors <==> form.secret == ""
    ensures forall f :: f in errors ==> errors[f] == Required
  {
    var e1: map<BindField, string> := if form.platformId == "" then map[PlatformIdField := Required] else map[];
    var e2 := if form.accountName == "" then e1[AccountNameField := Required] else e1;
    if form.secret == "" then e2[SecretField := Required] else e2
  }

  /** The request the bind form sends: the inputs with every whitespace
      character removed from the secret. */
  function CleanedBinding(form: NewBinding): (request: NewBinding)
    ensures request.platformId == form.platformId && request.accountName == form.accountName
    ensures forall i :: 0 <= i < |request.secret| ==> !Strings.IsWhitespace(request.secret[i])
  {
    form.(secret := Strings.RemoveWhitespace(form.secret))
  }

  /** A secret pasted in groups, such as "JBSW Y3DP", is sent as the
      groups run together. */
  lemma CleanedSecretJoinsGroups(a: string, b: string, form: NewBinding)
    requires forall i :: 0 <= i < |a| ==> !Strings.IsWhitespace(a[i])
    requires forall i :: 0 <= i < |b| ==> !Strings.IsWhitespace(b[i])
    requires form.secret == a + " " + b
    ensures CleanedBinding(form).secret == a + b
  {
    var space := " ";
    assert Strings.RemoveWhitespace(space) == [] by {
      assert Strings.IsWhitespace(space[0]) && space[1..] == [];
    }
    Strings.RemoveWhitespaceKeepsOthers(a, space);
    Strings.RemoveWhitespaceKeepsOthers(a + space, b);
    assert Strings.RemoveWhitespace(a) == a && Strings.RemoveWhitespace(b) == b;
  }

  /** The effect that runs when the loaded list changes: in list order,
      the id of every binding without a cached code, each handed to
      `handleGenerateOTP`. */
  function CodesToGenerate(bindings: seq<Binding>, otpData: map<string, OtpResponse>): (ids: seq<string>)
    ensures |ids| <= |bindings|
    ensures forall id :: id in ids <==> Loaded(bindings, id) && id !in otpData
  {
    if bindings == [] then []
    else
      var rest := CodesToGenerate(bindings[1..], otpData);
      assert forall id :: Loaded(bindings, id) <==> bindings[0].id == id || Loaded(bindings[1..], id) by {
        forall id ensures Loaded(bindings, id) ==> bindings[0].id == id || Loaded(bindings[1..], id) {
          if Loaded(bindings, id) {
            var b :| b in bindings && b.id == id;
            if b != bindings[0] {
              assert b in bindings[1..];
            }
          }
        }
      }
      (if bindings[0].id !in otpData then [bindings[0].id] else []) + rest
  }

  class Page {
    /** `otpCountdowns`: seconds left per binding. */
    var countdowns: map<string, int>
    /** `refreshingPlatformsRef`, kept equal to `refreshingPlatforms`. */
    var refreshing: set<string>
    var newBinding: NewBinding
    var formErrors: map<BindField, string>
    var showBindPlatform: bool
    var platformsError: Option<string>

    constructor ()
      ensures countdowns == map[] && refreshing == {} && newBinding == EmptyBinding
      ensures formErrors == map[] && !showBindPlatform && platformsError.None?
    {
      countdowns := map[];
      refreshing := {};
      newBinding := EmptyBinding;
      formErrors := map[];
      showBindPlatform := false;
      platformsError := None;
    }

    /** The interval callback: visits every countdown once, drops those of
        bindings no longer loaded, lowers the positive ones, and drops and
        reports the rest. When nothing changed the previous map is kept. */
    method Tick(bindings: seq<Binding>) returns (expired: set<string>)
      modifies this
      ensures countdowns == Ticked(old(countdowns), bindings)
      ensures expired == Expired(old(countdowns), bindings)
      ensures refreshing == old(refreshing) && newBinding == old(newBinding) && formErrors == old(formErrors)
      ensures showBindPlatform == old(showBindPlatform) && platformsError == old(platformsError)
    {
      var prev := countdowns;
      var newCountdowns := prev;
      var hasChanges := false;
      expired := {};
      var pending := prev.Keys;
      assert newCountdowns == PartlyTicked(prev, bindings, pending);
      while pending != {}
        invariant pending <= prev.Keys
        invariant newCountdowns == PartlyTicked(prev, bindings, pending)
        invariant expired == set k | k in prev && k !in pending && Loaded(bindings, k) && prev[k] <= 0
        invariant hasChanges <==> pending != prev.Keys
        decreases pending
      {
        var key :| key in pending;
        var value := newCountdowns[key];
        if !Loaded(bindings, key) {
          newCountdowns := newCountdowns - {key};
        } else if value > 0 {
          newCountdowns := newCountdowns[key := value - 1];
        } else {
          expired := expired + {key};
          newCountdowns := newCountdowns - {key};
        }
        hasChanges := true;
        pending := pending - {key};
        assert newCountdowns == PartlyTicked(prev, bindings, pending);
      }
      assert newCountdowns == Ticked(prev, bindings);
      countdowns := if hasChanges then newCountdowns else prev;
    }

    /** `handleGenerateOTP`, up to the request. A binding no longer loaded
        loses its code and countdown; one already refreshing is ignored;
        otherwise it is marked and the store is asked, and the mark is
        removed again when the store refuses. Returns whether the request
        went out. */
    method BeginGenerateOtp(platformId: string, bindings: seq<Binding>, store: UserPlatformsStore.Store)
      returns (requested: bool)
      modifies this, store
      ensures requested ==> platformId in store.ongoing && platformId in refreshing
      ensures requested <==> Loaded(bindings, platformId) && platformId !in old(refreshing) && platformId !in old(store.ongoing)
      ensures !Loaded(bindings, platformId) ==>
        && store.otpData == old(store.otpData) - {platformId}
        && countdowns == old(countdowns) - {platformId}
        && refreshing == old(refreshing)
      ensures Loaded(bindings, platformId) ==> countdowns == old(countdowns) && store.otpData == old(store.otpData)
      ensures Loaded(bindings, platformId) && platformId in old(refreshing) ==> refreshing == old(refreshing)
      ensures Loaded(bindings, platformId) && platformId !in old(refreshing) ==>
        refreshing == if requested then old(refreshing) + {platformId} else old(refreshing)
      ensures store.ongoing == if requested then old(store.ongoing) + {platformId} else old(store.ongoing)
      ensures store.error == if requested then None else old(store.error)
      ensures store.PagingState() == old(store.PagingState())
      ensures newBinding == old(newBinding) && formErrors == old(formErrors)
      ensures showBindPlatform == old(showBindPlatform) && platformsError == old(platformsError)
    {
      if !Loaded(bindings, platformId) {
        store.ClearOtpData(platformId);
        countdowns := countdowns - {platformId};
        return false;
      }
      if platformId in refreshing {
        return false;
      }
      refreshing := refreshing + {platformId};
      var alreadyInProgress := store.BeginGenerateOtp(platformId);
      if alreadyInProgress {
        refreshing := refreshing - {platformId};
        return false;
      }
      requested := true;
    }

    /** `handleGenerateOTP`, after the request: a new code restarts its
        countdown at the server's `expiresIn`; either way the mark goes. */
    method CompleteGenerateOtp(platformId: string, outcome: Outcome<OtpResponse>, store: UserPlatformsStore.Store)
      requires platformId in store.ongoing
      modifies this, store
      ensures refreshing == old(refreshing) - {platformId}
      ensures outcome.Success? ==> countdowns == old(countdowns)[platformId := outcome.value.expiresIn]
      ensures outcome.Failure? ==> countdowns == old(countdowns)
      ensures outcome.Success? ==> store.otpData == old(store.otpData)[platformId := outcome.value] && store.error == old(store.error)
      ensures outcome.Failure? ==>
        && store.otpData == old(store.otpData)
        && store.error == Some(ErrorText(outcome.message, UserPlatformsStore.GenerateFailed))
      ensures store.ongoing == old(store.ongoing) - {platformId}
      ensures store.PagingState() == old(store.PagingState())
      ensures newBinding == old(newBinding) && formErrors == old(formErrors)
      ensures showBindPlatform == old(showBindPlatform) && platformsError == old(platformsError)
    {
      var rethrown := store.CompleteGenerateOtp(platformId, outcome);
      if !rethrown {
        countdowns := countdowns[platformId := outcome.value.expiresIn];
      }
      refreshing := refreshing - {platformId};
    }

    /** `handleBindPlatform`, up to the request: with an empty field each
        empty field shows its error and nothing is sent; otherwise the
        errors are cleared and the cleaned inputs are sent. */
    method SubmitBinding() returns (request: Option<NewBinding>)
      modifies this
      ensures formErrors == BindErrors(newBinding)
      ensures request.Some? <==> newBinding.platformId != "" && newBinding.accountName != "" && newBinding.secret != ""
      ensures request.Some? ==> request.value == CleanedBinding(newBinding)
      ensures newBinding == old(newBinding) && countdowns == old(countdowns) && refreshing == old(refreshing)
      ensures showBindPlatform == old(showBindPlatform) && platformsError == old(platformsError)
    {
      var errors: map<BindField, string> := map[];
      if newBinding.platformId == "" {
        errors := errors[PlatformIdField := Required];
      }
      if newBinding.accountName == "" {
        errors := errors[AccountNameField := Required];
      }
      if newBinding.secret == "" {
        errors := errors[SecretField := Required];
      }
      if |errors.Keys| > 0 {
        formErrors := errors;
        return None;
      }
      formErrors := map[];
      request := Some(newBinding.(secret := Strings.RemoveWhitespace(newBinding.secret)));
    }

    /** `handleBindPlatform`, after the request: success closes the dialog
        and empties the form; a failure shows its message. */
    method CompleteBinding(outcome: Outcome<Binding>)
      modifies this
      ensures outcome.Success? ==> !showBindPlatform && newBinding == EmptyBinding
      ensures outcome.Success? && old(showBindPlatform) ==> formErrors == map[] && platformsError.None?
      ensures outcome.Success? && !old(showBindPlatform) ==>
        formErrors == old(formErrors) && platformsError == old(platformsError)
      ensures outcome.Failure? ==>
        && showBindPlatform == old(showBindPlatform) && newBinding == old(newBinding)
        && platformsError == Some(ErrorText(outcome.message, CreateFailed))
        && formErrors == old(formErrors)
      ensures countdowns == old(countdowns) && refreshing == old(refreshing)
    {
      match outcome {
        case Success(_) =>
          var wasOpen := showBindPlatform;
          showBindPlatform := false;
          newBinding := EmptyBinding;
          if wasOpen {
            DialogClosed();
          }
        case Failure(message) =>
          platformsError := Some(ErrorText(message, CreateFailed));
      }
    }

    /** The effect that runs when the bind dialog closes: its field errors
        and the shown error are cleared. */
    method DialogClosed()
      modifies this
      ensures formErrors == map[] && platformsError.None?
      ensures countdowns == old(countdowns) && refreshing == old(refreshing)
      ensures newBinding == old(newBinding) && showBindPlatform == old(showBindPlatform)
    {
      formErrors := map[];
      platformsError := None;
    }

    /** The effect that runs when the platform store's error changes: a
        non-empty error is shown; an empty or absent one leaves the shown
        error as it is. */
    method ShowStoreError(storeError: Option<string>)
      modifies this
      ensures platformsError == if Truthy(storeError) then storeError else old(platformsError)
      ensures countdowns == old(countdowns) && refreshing == old(refreshing) && formErrors == old(formErrors)
      ensures newBinding == old(newBinding) && showBindPlatform == old(showBindPlatform)
    {
      if storeError.Some? && storeError.value != "" {
        platformsError := storeError;
      }
    }

    /** `handleDeletePlatform`, after the request: a deleted binding loses
        its code, its countdown and its refreshing mark; a failure changes
        nothing. */
    method CompleteDeletePlatform(platformId: string, deleted: bool, store: UserPlatformsStore.Store)
      modifies this, store
      ensures deleted ==> store.otpData == old(store.otpData) - {platformId}
      ensures deleted ==> countdowns == old(countdowns) - {platformId} && refreshing == old(refreshing) - {platformId}
      ensures !deleted ==> store.otpData == old(store.otpData) && countdowns == old(countdowns) && refreshing == old(refreshing)
      ensures store.ongoing == old(store.ongoing) && store.error == old(store.error)
      ensures store.PagingState() == old(store.PagingState())
      ensures newBinding == old(newBinding) && formErrors == old(formErrors)
      ensures showBindPlatform == old(showBindPlatform) && platformsError == old(platformsError)
    {
      if deleted {
        store.ClearOtpData(platformId);
        countdowns := countdowns - {platformId};
        refreshing := refreshing - {platformId};
      }
    }
  }
}
