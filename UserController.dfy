/** The user controller over an in-memory user collection: creation,
    the status toggle and the weekday listing. */
module UserController {
  import opened UserModel
  import opened Pagination
  import opened StatusToggle
  import opened Listing

  /** Why a creation is refused (the 400 reply). */
  datatype CreateError = UserAlreadyExists

  /** The user collection, in its natural (insertion) order. */
  class UserStore {
    var users: seq<User>
    var nextId: nat

    /** Emails are unique, every point agrees with its raw coordinates,
        and identifiers increase in insertion order below `nextId`. */
    ghost predicate Valid()
      reads this
    {
      && EmailsUnique(users)
      && LocationsConsistent(users)
      && (forall i :: 0 <= i < |users| ==> users[i].id < nextId)
      && (forall i, j :: 0 <= i < j < |users| ==> users[i].id < users[j].id)
    }

    constructor ()
      ensures Valid() && users == [] && nextId == 0
    {
      users := [];
      nextId := 0;
    }

    /** `User.findOne({ email })`: the first record with this email, if any. */
    method FindByEmail(email: string) returns (found: Option<nat>)
      ensures found.Some? ==> found.value < |users| && users[found.value].email == email
      ensures found.Some? ==> forall i :: 0 <= i < found.value ==> users[i].email != email
      ensures found.None? <==> !EmailTaken(users, email)
    {
      var i := 0;
      while i < |users|
        invariant 0 <= i <= |users|
        invariant forall k :: 0 <= k < i ==> users[k].email != email
      {
        if users[i].email == email {
          return Some(i);
        }
        i := i + 1;
      }
      return None;
    }

    /** `createUser`: refuses an email that is already stored and then
        changes nothing; otherwise appends exactly one record holding the
        given fields, the point [longitude, latitude], the status
        "active" and the weekday of the clock, and reports its profile. */
    method CreateUser(name: string, email: string, password: string, address: string,
                      latitude: real, longitude: real, today: DayOfWeek)
      returns (r: Result<Profile, CreateError>)
      requires Valid()
      modifies this
      ensures Valid()
      ensures EmailTaken(old(users), email) ==>
        r == Err(UserAlreadyExists) && users == old(users) && nextId == old(nextId)
      ensures !EmailTaken(old(users), email) ==>
        && users == old(users) + [NewUser(old(nextId), name, email, password, address, latitude, longitude, today)]
        && r == Ok(ProfileOf(users[|users| - 1]))
        && nextId == old(nextId) + 1
    {
      var existing := FindByEmail(email);
      if existing.Some? {
        return Err(UserAlreadyExists);
      }
      var u := NewUser(nextId, name, email, password, address, latitude, longitude, today);
      AppendKeepsEmailsUnique(users, u);
      users := users + [u];
      nextId := nextId + 1;
      r := Ok(ProfileOf(u));
    }

    /** `changeUserStatus`: one pass over the collection that rewrites every
        record's status from its own current value and keeps everything else. */
    method ChangeUserStatus()
      requires Valid()
      modifies this
      ensures Valid()
      ensures users == ToggleAll(old(users)) && nextId == old(nextId)
    {
      var i := 0;
      while i < |users|
        invariant 0 <= i <= |users| == |old(users)|
        invariant forall k :: 0 <= k < i ==> users[k] == Toggle(old(users)[k])
        invariant forall k :: i <= k < |users| ==> users[k] == old(users)[k]
        invariant nextId == old(nextId)
      {
        users := users[i := Toggle(users[i])];
        i := i + 1;
      }
    }

    /** One day's query: scan the collection, count the records on day
        `day + 1`, keep those past the first `skip` matches until `limit`
        are kept, and reduce each to name and email. */
    method FindByDay(day: DayArg, skip: nat, limit: PosInt) returns (r: seq<Entry>)
      ensures r == Project(Limit(Skip(Matching(users, day), skip), limit))
    {
      var i, seen := 0, 0;
      r := [];
      ghost var matched: seq<User> := [];
      ghost var kept: seq<User> := [];
      while i < |users|
        invariant 0 <= i <= |users|
        invariant matched == Matching(users[..i], day)
        invariant seen == |matched|
        invariant kept == Limit(Skip(matched, skip), limit)
        invariant r == Project(kept)
      {
        var u := users[i];
        MatchingAppend(users[..i], u, day);
        assert users[..i + 1] == users[..i] + [u];
        if OnDay(u, day) {
          WindowAppend(matched, u, skip, limit);
          if skip <= seen && |r| < limit {
            ProjectAppend(kept, u);
            r := r + [Entry(u.name, u.email)];
            kept := kept + [u];
          }
          seen := seen + 1;
          matched := matched + [u];
        }
        i := i + 1;
      }
      assert users[..i] == users;
    }

    /** `getUserListing`: validate page and limit, split `week_number`, and
        fill the response from one query per requested day. */
    method GetUserListing(weekNumber: Option<seq<DayArg>>, page: Param, limit: Param)
      returns (r: Result<Response, ListingError>)
      ensures r == GetListing(users, weekNumber, page, limit)
    {
      var validated := ValidatePaging(page, limit);
      if validated.Err? {
        return Err(validated.error);
      }
      if weekNumber.None? {
        return Err(MissingWeekNumber);
      }
      var response := FillResponse(weekNumber.value, validated.value);
      return Ok(response);
    }

    /** The loop of `getUserListing`: for each requested day in turn, run
        that day's query and write its entries under the day's key. */
    method FillResponse(days: seq<DayArg>, paging: Paging) returns (response: Response)
      ensures response == Respond(users, days, paging)
    {
      response := map[];
      for k := 0 to |days|
        invariant response == Respond(users, days[..k], paging)
      {
        var day := days[k];
        var dayName := DayKey(day);
        var skip := SkipCount(paging.page, paging.limit);
        var bucket := FindByDay(day, skip, paging.limit);
        BucketIsQuery(users, day, paging);
        RespondAppend(users, days[..k], day, paging);
        assert days[..k + 1] == days[..k] + [day];
        response := response[dayName := bucket];
      }
      assert days[..|days|] == days;
    }
  }
}
