/**
 * The dating screen's store (mobile/src/stores/datingStore.ts): the loaded profiles, a cursor
 * into them, the swipes made in this session, and loading and error flags.
 *
 * The signed-in user comes from the authentication store and is a parameter; the service calls
 * go to the `SwipeStore` model with their outcomes as inputs.
 */
module DatingStore {
  import opened Wrappers
  import opened DatingTypes
  import opened DatingService

  const NotSignedIn := "Du måste vara inloggad"

  class DatingStore {
    var profiles: seq<DatingProfile>
    var currentProfileIndex: nat
    var isLoading: bool
    var error: Option<string>
    var swipeHistory: seq<SwipeRecord>

    /** The cursor points at a profile or just past the last one. */
    predicate Valid()
      reads this
    {
      currentProfileIndex <= |profiles|
    }

    /** `initialState`. */
    predicate IsInitial()
      reads this
    {
      profiles == [] && currentProfileIndex == 0 && !isLoading && error == None && swipeHistory == []
    }

    constructor()
      ensures IsInitial() && Valid()
    {
      profiles := [];
      currentProfileIndex := 0;
      isLoading := false;
      error := None;
      swipeHistory := [];
    }

    /**
     * `loadProfiles`: without a user only the error is set. Otherwise the swipe history is read
     * (empty if that fails), profiles are fetched excluding it, and on success they replace the
     * list with the cursor back at 0; on failure the error is set. Loading ends either way.
     */
    method LoadProfiles(user: Option<string>, svc: SwipeStore, historyReadOk: bool, fetched: Result<seq<UserDoc>, string>)
      modifies this
      ensures user.None? ==>
        && error == Some(NotSignedIn)
        && profiles == old(profiles) && currentProfileIndex == old(currentProfileIndex)
        && isLoading == old(isLoading) && swipeHistory == old(swipeHistory)
      ensures user.Some? && fetched.Ok? ==>
        var exclude := if historyReadOk then SwipedBy(svc.swipes, user.value) else {};
        && profiles == TakeFirst(EligibleProfiles(fetched.value, user.value, exclude))
        && currentProfileIndex == 0 && !isLoading && error == None && swipeHistory == old(swipeHistory)
      ensures user.Some? && fetched.Err? ==>
        && error == Some(FetchProfilesError) && !isLoading
        && profiles == old(profiles) && currentProfileIndex == old(currentProfileIndex) && swipeHistory == old(swipeHistory)
      ensures old(Valid()) ==> Valid()
    {
      if user.None? {
        error := Some(NotSignedIn);
        return;
      }
      isLoading, error := true, None;
      var swipedUserIds := svc.GetSwipeHistory(user.value, historyReadOk);
      var result := SwipeStore.GetProfiles(user.value, swipedUserIds, fetched);
      match result
      case Ok(loaded) =>
        profiles, isLoading, currentProfileIndex := loaded, false, 0;
      case Err(message) =>
        error, isLoading := Some(if message != "" then message else "Kunde inte ladda profiler"), false;
    }

    /**
     * `swipe`: nothing happens without a user or a current profile. A stored swipe appends one
     * history record for the current profile and moves the cursor on by one; `reload` reports
     * whether the cursor was within the last two profiles, which makes the store load more. A
     * failed save sets the error and moves nothing.
     */
    method Swipe(user: Option<string>, action: SwipeAction, svc: SwipeStore, timestamp: string,
                 writeOk: bool, matchReadOk: bool, matchWriteOk: bool)
      returns (reload: bool)
      modifies this, svc
      ensures user.None? || old(currentProfileIndex) >= |old(profiles)| ==>
        && !reload && profiles == old(profiles) && currentProfileIndex == old(currentProfileIndex)
        && swipeHistory == old(swipeHistory) && error == old(error)
        && svc.swipes == old(svc.swipes) && svc.matches == old(svc.matches)
      ensures user.Some? && old(currentProfileIndex) < |old(profiles)| && writeOk ==>
        && svc.swipes == old(svc.swipes)[(user.value, old(profiles)[old(currentProfileIndex)].id) :=
             SwipeRecord(user.value, old(profiles)[old(currentProfileIndex)].id, action, timestamp)]
        && swipeHistory == old(swipeHistory) + [SwipeRecord(user.value, old(profiles)[old(currentProfileIndex)].id, action, timestamp)]
        && currentProfileIndex == old(currentProfileIndex) + 1
        && reload == (old(currentProfileIndex) >= |old(profiles)| - 2)
        && error == old(error)
      ensures user.Some? && old(currentProfileIndex) < |old(profiles)| && writeOk ==>
        var target := old(profiles)[old(currentProfileIndex)].id;
        if IsLike(action) && matchReadOk && matchWriteOk && IsMatch(svc.swipes, user.value, target)
        then svc.matches == old(svc.matches) + [Match(SortedPair(user.value, target), timestamp)]
        else svc.matches == old(svc.matches)
      ensures user.Some? && old(currentProfileIndex) < |old(profiles)| && !writeOk ==>
        && !reload && error == Some(SaveSwipeError)
        && currentProfileIndex == old(currentProfileIndex) && swipeHistory == old(swipeHistory)
        && svc.swipes == old(svc.swipes) && svc.matches == old(svc.matches)
      ensures profiles == old(profiles) && isLoading == old(isLoading)
      ensures old(Valid()) ==> Valid()
    {
      if user.None? || currentProfileIndex >= |profiles| {
        return false;
      }
      var currentProfile := profiles[currentProfileIndex];
      var saved := svc.SaveSwipe(user.value, currentProfile.id, action, timestamp, writeOk, matchReadOk, matchWriteOk);
      if saved.Err? {
        error := Some(if saved.error != "" then saved.error else "Kunde inte spara swipe");
        return false;
      }
      var swipeRecord := SwipeRecord(user.value, currentProfile.id, action, timestamp);
      swipeHistory, currentProfileIndex := swipeHistory + [swipeRecord], currentProfileIndex + 1;
      reload := currentProfileIndex - 1 >= |profiles| - 2;
    }

    /** `getCurrentProfile`: the profile under the cursor, or null past the end. */
    function GetCurrentProfile(): (r: Option<DatingProfile>)
      reads this
      ensures r.Some? <==> currentProfileIndex < |profiles|
      ensures r.Some? ==> r.value == profiles[currentProfileIndex]
    {
      if currentProfileIndex < |profiles| then Some(profiles[currentProfileIndex]) else None
    }

    /** `getNextProfile`: the profile after the cursor, or null. */
    function GetNextProfile(): (r: Option<DatingProfile>)
      reads this
      ensures r.Some? <==> currentProfileIndex + 1 < |profiles|
      ensures r.Some? ==> r.value == profiles[currentProfileIndex + 1]
    {
      if currentProfileIndex + 1 < |profiles| then Some(profiles[currentProfileIndex + 1]) else None
    }

    /** `reset`: back to the initial state. */
    method Reset()
      modifies this
      ensures IsInitial() && Valid()
    {
      profiles, currentProfileIndex, isLoading, error, swipeHistory := [], 0, false, None, [];
    }
  }

  /**
   * Loading a list and swiping it: each stored swipe makes the next profile current, the
   * profile that was next becomes current, and only the last two swipes ask for a reload.
   */
  method SwipeThroughLoadedList(user: string, svc: SwipeStore, fetched: seq<UserDoc>, timestamp: string)
    returns (store: DatingStore, reloads: seq<bool>)
    modifies svc
    ensures store.currentProfileIndex == |store.profiles| && |reloads| == |store.profiles|
    ensures |store.swipeHistory| == |store.profiles|
    ensures forall i :: 0 <= i < |reloads| ==> reloads[i] == (i >= |store.profiles| - 2)
    ensures forall i :: 0 <= i < |store.swipeHistory| ==> store.swipeHistory[i].targetUserId == store.profiles[i].id
  {
    store := new DatingStore();
    store.LoadProfiles(Some(user), svc, true, Ok(fetched));
    reloads := [];
    while store.currentProfileIndex < |store.profiles|
      invariant fresh(store) && store.Valid()
      invariant store.currentProfileIndex == |reloads| == |store.swipeHistory|
      invariant forall i :: 0 <= i < |reloads| ==> reloads[i] == (i >= |store.profiles| - 2)
      invariant forall i :: 0 <= i < |store.swipeHistory| ==> store.swipeHistory[i].targetUserId == store.profiles[i].id
      decreases |store.profiles| - store.currentProfileIndex
    {
      var next := store.GetNextProfile();
      var reload := store.Swipe(Some(user), Like, svc, timestamp, true, true, true);
      assert next.Some? ==> store.GetCurrentProfile() == next;
      reloads := reloads + [reload];
    }
  }
}
