/**
 * The dating back end as seen from the app (mobile/src/services/datingService.ts): which fetched
 * user documents become swipeable profiles, how a swipe is stored under (user, target), when a
 * like creates a match, and the list of users already swiped.
 *
 * Firestore is abstracted: the fetched `users` documents are an input list (the query's ordering
 * and limit of 50 are the store's business), the `swipes` sub-collections are one map keyed by
 * (owner, target), and `matches` is a list. Each remote call's success is an input.
 */
module DatingService {
  import opened Wrappers
  import opened DatingTypes

  /** The fields of a fetched user document; any may be missing. */
  datatype UserData = UserData(
    email: Option<string>,
    name: Option<string>,
    gender: Option<string>,
    age: Option<AgeValue>,
    location: Option<string>,
    occupation: Option<string>,
    interests: Option<string>,
    about: Option<string>,
    videoURL: Option<string>,
    createdAt: Option<string>,
    updatedAt: Option<string>)

  datatype UserDoc = UserDoc(id: string, data: UserData)

  /** Profiles returned per call. */
  const MaxProfiles := 20

  const FetchProfilesError := "Kunde inte hämta profiler"
  const SaveSwipeError := "Kunde inte spara swipe"

  /** The filter of `getProfiles`: not the current user, has a video, not already swiped. */
  function Eligible(d: UserDoc, currentUserId: string, excludeIds: set<string>): (r: bool)
    ensures r ==> d.id != currentUserId && d.id !in excludeIds && d.data.videoURL.Some? && d.data.videoURL.value != ""
  {
    d.id != currentUserId && TruthyText(d.data.videoURL) && d.id !in excludeIds
  }

  /** The profile pushed for an eligible document; a missing or empty email becomes ''. */
  function ToProfile(d: UserDoc): (p: DatingProfile)
    ensures p.id == d.id && p.videoURL == d.data.videoURL
    ensures p.email == if TruthyText(d.data.email) then d.data.email.value else ""
  {
    var x := d.data;
    DatingProfile(
      d.id, if TruthyText(x.email) then x.email.value else "", x.name, x.gender, x.age, x.location,
      x.occupation, x.interests, x.about, x.videoURL, x.createdAt, x.updatedAt)
  }

  /** The profiles of the eligible documents, in fetched order. */
  function EligibleProfiles(docs: seq<UserDoc>, currentUserId: string, excludeIds: set<string>): (r: seq<DatingProfile>)
    ensures |r| <= |docs|
  {
    if docs == [] then []
    else
      var d := docs[|docs| - 1];
      EligibleProfiles(docs[..|docs| - 1], currentUserId, excludeIds)
        + (if Eligible(d, currentUserId, excludeIds) then [ToProfile(d)] else [])
  }

  /** Every profile comes from an eligible document: never the user, never without video, never excluded. */
  lemma {:induction false} EligibleProfilesAreEligible(docs: seq<UserDoc>, currentUserId: string, excludeIds: set<string>)
    ensures forall p :: p in EligibleProfiles(docs, currentUserId, excludeIds) ==>
      exists d :: d in docs && Eligible(d, currentUserId, excludeIds) && p == ToProfile(d)
  {
    if docs != [] {
      var init := docs[..|docs| - 1];
      EligibleProfilesAreEligible(init, currentUserId, excludeIds);
      assert forall d :: d in init ==> d in docs;
    }
  }

  /** Every eligible document yields a profile. */
  lemma {:induction false} EligibleDocsAreKept(docs: seq<UserDoc>, currentUserId: string, excludeIds: set<string>)
    ensures forall d :: d in docs && Eligible(d, currentUserId, excludeIds) ==>
      ToProfile(d) in EligibleProfiles(docs, currentUserId, excludeIds)
  {
    if docs != [] {
      var init := docs[..|docs| - 1];
      EligibleDocsAreKept(init, currentUserId, excludeIds);
      assert docs == init + [docs[|docs| - 1]];
    }
  }

  /** The filter keeps fetched order: filtering a concatenation concatenates the filtered parts. */
  lemma {:induction false} EligibleProfilesAppend(a: seq<UserDoc>, b: seq<UserDoc>, currentUserId: string, excludeIds: set<string>)
    ensures EligibleProfiles(a + b, currentUserId, excludeIds)
      == EligibleProfiles(a, currentUserId, excludeIds) + EligibleProfiles(b, currentUserId, excludeIds)
    decreases |b|
  {
    if b == [] {
      assert a + b == a;
    } else {
      var bi, last := b[..|b| - 1], b[|b| - 1];
      EligibleProfilesAppend(a, bi, currentUserId, excludeIds);
      var tail := if Eligible(last, currentUserId, excludeIds) then [ToProfile(last)] else [];
      assert (a + b)[..|a + b| - 1] == a + bi;
      assert (a + b)[|a + b| - 1] == last;
      assert EligibleProfiles(a + b, currentUserId, excludeIds) == EligibleProfiles(a + bi, currentUserId, excludeIds) + tail;
      assert EligibleProfiles(b, currentUserId, excludeIds) == EligibleProfiles(bi, currentUserId, excludeIds) + tail;
    }
  }

  /** `profiles.slice(0, 20)`. */
  function TakeFirst(profiles: seq<DatingProfile>): (r: seq<DatingProfile>)
    ensures |r| <= MaxProfiles && |r| <= |profiles|
    ensures r == profiles[..|r|]
    ensures |r| == if |profiles| <= MaxProfiles then |profiles| else MaxProfiles
    ensures |profiles| <= MaxProfiles ==> r == profiles
  {
    if |profiles| <= MaxProfiles then profiles else profiles[..MaxProfiles]
  }

  /** None of the profiles returned by `getProfiles` is the current user's, lacks a video, or is excluded. */
  lemma ReturnedProfilesQualify(docs: seq<UserDoc>, currentUserId: string, excludeIds: set<string>)
    ensures forall p :: p in TakeFirst(EligibleProfiles(docs, currentUserId, excludeIds)) ==>
      p.id != currentUserId && TruthyText(p.videoURL) && p.id !in excludeIds
  {
    var all := EligibleProfiles(docs, currentUserId, excludeIds);
    EligibleProfilesAreEligible(docs, currentUserId, excludeIds);
    forall p | p in TakeFirst(all) ensures p.id != currentUserId && TruthyText(p.videoURL) && p.id !in excludeIds {
      assert p in all;
    }
  }

  /** The swipe sub-collections (`users/{owner}/swipes/{target}`) and the `matches` collection. */
  class SwipeStore {
    var swipes: map<(string, string), SwipeRecord>
    var matches: seq<Match>

    constructor()
      ensures swipes == map[] && matches == []
    {
      swipes := map[];
      matches := [];
    }

    /**
     * `getProfiles`: the snapshot's documents are walked in order and the eligible ones pushed;
     * the first 20 are returned. A failed fetch raises the fixed error.
     */
    static method GetProfiles(currentUserId: string, excludeIds: set<string>, fetched: Result<seq<UserDoc>, string>)
      returns (r: Result<seq<DatingProfile>, string>)
      ensures fetched.Err? ==> r == Err(FetchProfilesError)
      ensures fetched.Ok? ==> r == Ok(TakeFirst(EligibleProfiles(fetched.value, currentUserId, excludeIds)))
    {
      if fetched.Err? {
        return Err(FetchProfilesError);
      }
      var docs := fetched.value;
      var profiles: seq<DatingProfile> := [];
      for i := 0 to |docs|
        invariant profiles == EligibleProfiles(docs[..i], currentUserId, excludeIds)
      {
        var d := docs[i];
        assert docs[..i + 1][..i] == docs[..i];
        if d.id != currentUserId && TruthyText(d.data.videoURL) && d.id !in excludeIds {
          profiles := profiles + [ToProfile(d)];
        }
      }
      assert docs[..|docs|] == docs;
      return Ok(TakeFirst(profiles));
    }

    /**
     * `saveSwipe`: writes (or overwrites) the record under (user, target); for a like or a
     * superlike it then checks for a match, whose read and write failures are swallowed.
     */
    method SaveSwipe(userId: string, targetUserId: string, action: SwipeAction, timestamp: string,
                     writeOk: bool, matchReadOk: bool, matchWriteOk: bool)
      returns (r: Result<(), string>)
      modifies this
      ensures !writeOk ==> r == Err(SaveSwipeError) && swipes == old(swipes) && matches == old(matches)
      ensures writeOk ==> r.Ok?
      ensures writeOk ==> swipes == old(swipes)[(userId, targetUserId) := SwipeRecord(userId, targetUserId, action, timestamp)]
      ensures writeOk && IsLike(action) && matchReadOk && matchWriteOk && IsMatch(swipes, userId, targetUserId) ==>
        matches == old(matches) + [Match(SortedPair(userId, targetUserId), timestamp)]
      ensures !(writeOk && IsLike(action) && matchReadOk && matchWriteOk && IsMatch(swipes, userId, targetUserId)) ==>
        matches == old(matches)
    {
      if !writeOk {
        return Err(SaveSwipeError);
      }
      swipes := swipes[(userId, targetUserId) := SwipeRecord(userId, targetUserId, action, timestamp)];
      if action == Like || action == Superlike {
        var matched := CheckForMatch(userId, targetUserId, timestamp, matchReadOk, matchWriteOk);
      }
      return Ok(());
    }

    /** `checkForMatch`: true when the target's record for the user is a like or superlike. */
    method CheckForMatch(userId: string, targetUserId: string, timestamp: string, readOk: bool, writeOk: bool)
      returns (matched: bool)
      modifies this
      ensures swipes == old(swipes)
      ensures matched == (readOk && IsMatch(swipes, userId, targetUserId))
      ensures matched && writeOk ==> matches == old(matches) + [Match(SortedPair(userId, targetUserId), timestamp)]
      ensures !(matched && writeOk) ==> matches == old(matches)
    {
      if !readOk {
        return false;
      }
      if (targetUserId, userId) in swipes {
        var data := swipes[(targetUserId, userId)];
        if data.action == Like || data.action == Superlike {
          if writeOk {
            matches := matches + [Match(SortedPair(userId, targetUserId), timestamp)];
          }
          return true;
        }
      }
      return false;
    }

    /** `getSwipeHistory`: the targets this user has swiped; empty when reading fails. */
    method GetSwipeHistory(userId: string, readOk: bool) returns (ids: set<string>)
      ensures readOk ==> ids == SwipedBy(swipes, userId)
      ensures !readOk ==> ids == {}
    {
      if !readOk {
        return {};
      }
      ids := SwipedBy(swipes, userId);
    }
  }

  predicate IsLike(a: SwipeAction)
  {
    a == Like || a == Superlike
  }

  /** The target has liked the user back; a match therefore needs the target to have swiped the user. */
  function IsMatch(swipes: map<(string, string), SwipeRecord>, userId: string, targetUserId: string): (r: bool)
    ensures r ==> userId in SwipedBy(swipes, targetUserId)
    ensures r ==> IsLike(swipes[(targetUserId, userId)].action)
  {
    (targetUserId, userId) in swipes && IsLike(swipes[(targetUserId, userId)].action)
  }

  function SwipedBy(swipes: map<(string, string), SwipeRecord>, userId: string): (ids: set<string>)
    ensures forall t :: t in ids <==> (userId, t) in swipes
  {
    set k | k in swipes && k.0 == userId :: k.1
  }

  /** Comparison of strings by character code, as JavaScript's default `sort` compares them. */
  predicate StringLess(a: string, b: string)
  {
    if a == [] then b != []
    else if b == [] then false
    else if a[0] != b[0] then a[0] < b[0]
    else StringLess(a[1..], b[1..])
  }

  /** Of two different strings exactly one is less than the other. */
  lemma {:induction false} StringLessTotal(a: string, b: string)
    ensures a != b ==> (StringLess(a, b) <==> !StringLess(b, a))
    ensures !StringLess(a, a)
  {
    if a != [] && b != [] && a[0] == b[0] {
      StringLessTotal(a[1..], b[1..]);
      if a != b {
        assert a == [a[0]] + a[1..] && b == [b[0]] + b[1..];
      }
    }
    if a != [] {
      StringLessTotal(a[1..], a[1..]);
    }
  }

  /** `[a, b].sort()`. */
  function SortedPair(a: string, b: string): (r: seq<string>)
    ensures |r| == 2 && multiset(r) == multiset{a, b}
    ensures !StringLess(r[1], r[0])
  {
    StringLessTotal(a, b);
    if StringLess(b, a) then [b, a] else [a, b]
  }

  /** A match records the same pair whichever of the two users liked last. */
  lemma SortedPairSymmetric(a: string, b: string)
    ensures SortedPair(a, b) == SortedPair(b, a)
  {
    StringLessTotal(a, b);
  }

  /**
   * `saveSwipe` called for a like from `a` to `b` and then for a like back, every write succeeding:
   * the first call adds no match when `b` had not liked `a` yet, the second adds exactly one.
   */
  method LikeEachOther(store: SwipeStore, a: string, b: string, t1: string, t2: string)
    requires a != b && !IsMatch(store.swipes, a, b)
    modifies store
    ensures store.matches == old(store.matches) + [Match(SortedPair(a, b), t2)]
  {
    LikeBackCompletesMatch(store.swipes, a, b, Like, Like, t1, t2);
    var r1 := store.SaveSwipe(a, b, Like, t1, true, true, true);
    var r2 := store.SaveSwipe(b, a, Like, t2, true, true, true);
  }

  /**
   * Two users swiping on each other, as `saveSwipe` stores the records: the first swipe matches only
   * when the other had already liked back, the second matches exactly when the first was a like,
   * and when both are likes the match records the same pair from either side.
   */
  lemma LikeBackCompletesMatch(swipes: map<(string, string), SwipeRecord>, a: string, b: string,
                               first: SwipeAction, back: SwipeAction, t1: string, t2: string)
    requires a != b
    ensures var s1 := swipes[(a, b) := SwipeRecord(a, b, first, t1)];
      var s2 := s1[(b, a) := SwipeRecord(b, a, back, t2)];
      && (IsMatch(s1, a, b) <==> IsMatch(swipes, a, b))
      && (IsMatch(s2, b, a) <==> IsLike(first))
      && (IsLike(first) && IsLike(back) ==> IsMatch(s2, a, b) && SortedPair(b, a) == SortedPair(a, b))
  {
    SortedPairSymmetric(a, b);
  }
}
