/** The weekday listing: validation of `page` and `limit`, the day-name
    table, the per-day query and the response built one day at a time. */
module Listing {
  import opened UserModel
  import opened Pagination

  /** A `page` or `limit` query parameter after `parseInt(_, 10)`: absent,
      an integer, or NaN. */
  datatype Param = Missing | Int(value: int) | NotANumber

  /** One comma-separated entry of `week_number` after `Number(_)`: an
      integer, or a value that is no integer (NaN or a fraction). */
  datatype DayArg = Num(n: int) | NonInteger

  /** A listing entry: only the name and the email of a record. */
  datatype Entry = Entry(name: string, email: string)

  /** The listing's failures: the two 400 replies, and the 500 reply that
      follows from splitting an absent `week_number`. */
  datatype ListingError = InvalidPage | InvalidLimit | MissingWeekNumber

  /** Validated pagination. */
  datatype Paging = Paging(page: PosInt, limit: PosInt)

  type Response = map<string, seq<Entry>>

  const DefaultPage: PosInt := 1
  const DefaultLimit: PosInt := 10

  /** The key a day index gets in the response (`dayMap`); indices
      outside 0..6 and non-integers have none, and JavaScript then uses
      the key "undefined". */
  const DayNames: seq<string> :=
    ["sunday", "monday", "tuesday", "wednesday", "thursday", "friday", "saturday"]
  const NoDayName: string := "undefined"

  /** A parameter passes validation when it is absent or a positive integer. */
  predicate Acceptable(p: Param)
  {
    p.Missing? || (p.Int? && p.value >= 1)
  }

  /** The value a validated parameter stands for. */
  function ValueOr(p: Param, default: PosInt): PosInt
    requires Acceptable(p)
  {
    if p.Missing? then default else p.value
  }

  /** Page is checked before limit; absent values default to 1 and 10. */
  function ValidatePaging(page: Param, limit: Param): (r: Result<Paging, ListingError>)
    ensures r.Ok? <==> Acceptable(page) && Acceptable(limit)
    ensures r == Err(InvalidPage) <==> !Acceptable(page)
    ensures r == Err(InvalidLimit) <==> Acceptable(page) && !Acceptable(limit)
    ensures r.Ok? ==> r.value == Paging(ValueOr(page, DefaultPage), ValueOr(limit, DefaultLimit))
    ensures r.Ok? && page.Missing? ==> r.value.page == 1
    ensures r.Ok? && limit.Missing? ==> r.value.limit == 10
  {
    if page.NotANumber? || (page.Int? && page.value < 1) then Err(InvalidPage)
    else if limit.NotANumber? || (limit.Int? && limit.value < 1) then Err(InvalidLimit)
    else Ok(Paging(if page.Missing? then DefaultPage else page.value,
                   if limit.Missing? then DefaultLimit else limit.value))
  }

  /** A day index with a name in the table. */
  predicate Named(d: DayArg)
  {
    d.Num? && 0 <= d.n < 7
  }

  /** The response key of a requested day. */
  function DayKey(d: DayArg): (k: string)
    ensures Named(d) ==> k == DayNames[d.n]
    ensures !Named(d) ==> k == NoDayName
  {
    if Named(d) then DayNames[d.n] else NoDayName
  }

  /** The inverse of the day table: the index of a day name. */
  function DayIndex(name: string): (r: Option<nat>)
    ensures r.Some? ==> r.value < 7 && DayNames[r.value] == name
    ensures r.None? ==> name !in DayNames
  {
    if name == "sunday" then Some(0)
    else if name == "monday" then Some(1)
    else if name == "tuesday" then Some(2)
    else if name == "wednesday" then Some(3)
    else if name == "thursday" then Some(4)
    else if name == "friday" then Some(5)
    else if name == "saturday" then Some(6)
    else None
  }

  /** Day indices 0..6 map to seven distinct names and back; every
      other requested day gets the one key "undefined", which is no day name. */
  lemma DayKeyRoundTrip(d: DayArg)
    ensures Named(d) ==> DayIndex(DayKey(d)) == Some(d.n)
    ensures !Named(d) ==> DayIndex(DayKey(d)) == None
  {
  }

  /** Two requested days share a key exactly when they are the same
      named day or both have no name. */
  lemma DayKeyShared(d: DayArg, e: DayArg)
    ensures DayKey(d) == DayKey(e) <==> (Named(d) && Named(e) && d.n == e.n) || (!Named(d) && !Named(e))
  {
  }

  /** The query filter `$dayOfWeek(register_at) == day + 1`; NaN and
      fractions equal no stored day. A record matches exactly one day,
      and that day is named: the index one below its stored day of week. */
  predicate OnDay(u: User, d: DayArg): (b: bool)
    ensures b <==> Named(d) && d.n == u.registeredOn - 1
  {
    d.Num? && u.registeredOn == d.n + 1
  }

  /** The records the filter selects, in store order. */
  function Matching(users: seq<User>, d: DayArg): (r: seq<User>)
    ensures |r| <= |users|
    ensures forall u :: u in r ==> u in users && OnDay(u, d)
    ensures forall u :: u in users && OnDay(u, d) ==> u in r
  {
    if users == [] then []
    else
      var rest := Matching(users[..|users| - 1], d);
      var last := users[|users| - 1];
      assert users == users[..|users| - 1] + [last];
      if OnDay(last, d) then rest + [last] else rest
  }

  /** `.select("name email")` and the map to `{ name, email }`. */
  function Project(users: seq<User>): (r: seq<Entry>)
    ensures |r| == |users|
    ensures forall i :: 0 <= i < |users| ==> r[i] == Entry(users[i].name, users[i].email)
  {
    seq(|users|, i requires 0 <= i < |users| => Entry(users[i].name, users[i].email))
  }

  /** The bucket of one requested day: the page of its matching records,
      reduced to name and email. It depends on nothing but the store,
      the day and the paging. */
  function Bucket(users: seq<User>, d: DayArg, paging: Paging): (r: seq<Entry>)
    ensures |r| <= paging.limit
    ensures var s := SkipCount(paging.page, paging.limit); var m := |Matching(users, d)|;
      |r| == if s >= m then 0 else Min(paging.limit, m - s)
    ensures forall j :: 0 <= j < |r| ==>
      var k := SkipCount(paging.page, paging.limit) + j;
      k < |Matching(users, d)| && r[j] == Entry(Matching(users, d)[k].name, Matching(users, d)[k].email)
    ensures !Named(d) ==> r == []
  {
    UnnamedDayMatchesNothing(users, d);
    Project(Page(Matching(users, d), paging.page, paging.limit))
  }

  /** A bucket is what that day's query returns: the matches after the
      skip count, cut at the limit, reduced to name and email. */
  lemma BucketIsQuery(users: seq<User>, d: DayArg, paging: Paging)
    ensures Bucket(users, d, paging)
         == Project(Limit(Skip(Matching(users, d), SkipCount(paging.page, paging.limit)), paging.limit))
  {
  }

  /** No stored day of week is d + 1 for a day d outside 0..6: such a
      day's query selects nothing. */
  lemma {:induction false} UnnamedDayMatchesNothing(users: seq<User>, d: DayArg)
    ensures !Named(d) ==> Matching(users, d) == []
  {
    if users != [] {
      UnnamedDayMatchesNothing(users[..|users| - 1], d);
    }
  }

  /** The response after the loop has handled `days`, in order: each day
      writes its bucket under its key, a later write replacing an earlier one. */
  function Respond(users: seq<User>, days: seq<DayArg>, paging: Paging): (r: Response)
    ensures days != [] ==>
      var last := days[|days| - 1];
      DayKey(last) in r && r[DayKey(last)] == Bucket(users, last, paging)
  {
    if days == [] then map[]
    else
      var last := days[|days| - 1];
      assert days == days[..|days| - 1] + [last];
      Respond(users, days[..|days| - 1], paging)[DayKey(last) := Bucket(users, last, paging)]
  }

  /** Handling one more day writes that day's bucket under its key. */
  lemma RespondAppend(users: seq<User>, days: seq<DayArg>, d: DayArg, paging: Paging)
    ensures Respond(users, days + [d], paging) == Respond(users, days, paging)[DayKey(d) := Bucket(users, d, paging)]
  {
    assert (days + [d])[..|days|] == days;
  }

  /** Days that share a key share a bucket, so the order of the writes
      does not matter. */
  lemma SharedKeySameBucket(users: seq<User>, d: DayArg, e: DayArg, paging: Paging)
    requires DayKey(d) == DayKey(e)
    ensures Bucket(users, d, paging) == Bucket(users, e, paging)
  {
  }

  /** The response has one key per distinct day key (every day outside 0..6
      and every non-integer shares "undefined"), and under each requested
      day's key stands that day's own bucket. */
  lemma {:induction false} RespondBuckets(users: seq<User>, days: seq<DayArg>, paging: Paging)
    ensures Respond(users, days, paging).Keys == set d | d in days :: DayKey(d)
    ensures forall d :: d in days ==> Respond(users, days, paging)[DayKey(d)] == Bucket(users, d, paging)
  {
    if days != [] {
      var init := days[..|days| - 1];
      var last := days[|days| - 1];
      assert days == init + [last];
      RespondBuckets(users, init, paging);
      var r := Respond(users, days, paging);
      forall d | d in days
        ensures r[DayKey(d)] == Bucket(users, d, paging)
      {
        if DayKey(d) == DayKey(last) {
          SharedKeySameBucket(users, d, last, paging);
        } else {
          assert d in init;
        }
      }
      assert r.Keys == set d | d in days :: DayKey(d) by {
        forall k | k in r.Keys
          ensures exists d :: d in days && DayKey(d) == k
        {
          if k != DayKey(last) {
            var d :| d in init && DayKey(d) == k;
            assert d in days;
          }
        }
      }
    }
  }

  /** The whole listing: validation first, then the split of
      `week_number`, then one query per requested day. */
  function GetListing(users: seq<User>, weekNumber: Option<seq<DayArg>>, page: Param, limit: Param)
    : (r: Result<Response, ListingError>)
    ensures r.Ok? <==> Acceptable(page) && Acceptable(limit) && weekNumber.Some?
    ensures r.Err? ==> r.error == if !Acceptable(page) then InvalidPage
                                  else if !Acceptable(limit) then InvalidLimit
                                  else MissingWeekNumber
  {
    match ValidatePaging(page, limit)
    case Err(e) => Err(e)
    case Ok(paging) =>
      if weekNumber.None? then Err(MissingWeekNumber)
      else Ok(Respond(users, weekNumber.value, paging))
  }

  /** What the listing replies: the 400 for a bad page before the one for a
      bad limit, both before `week_number` is looked at; otherwise one key
      per distinct day key (every day outside 0..6 and every non-integer
      shares "undefined"), each holding its own page of at most
      `limit` entries, computed independently of the other requested days. */
  lemma ListingReply(users: seq<User>, weekNumber: Option<seq<DayArg>>, page: Param, limit: Param)
    ensures !Acceptable(page) ==> GetListing(users, weekNumber, page, limit) == Err(InvalidPage)
    ensures Acceptable(page) && !Acceptable(limit) ==> GetListing(users, weekNumber, page, limit) == Err(InvalidLimit)
    ensures Acceptable(page) && Acceptable(limit) && weekNumber.None? ==>
      GetListing(users, weekNumber, page, limit) == Err(MissingWeekNumber)
    ensures Acceptable(page) && Acceptable(limit) && weekNumber.Some? ==>
      var paging := Paging(ValueOr(page, DefaultPage), ValueOr(limit, DefaultLimit));
      var r := GetListing(users, weekNumber, page, limit);
      && r.Ok?
      && r.value.Keys == (set d | d in weekNumber.value :: DayKey(d))
      && forall d :: d in weekNumber.value ==>
           r.value[DayKey(d)] == Bucket(users, d, paging)
           && |r.value[DayKey(d)]| <= paging.limit
           && r.value[DayKey(d)] == GetListing(users, Some([d]), page, limit).value[DayKey(d)]
  {
    if Acceptable(page) && Acceptable(limit) && weekNumber.Some? {
      var paging := Paging(ValueOr(page, DefaultPage), ValueOr(limit, DefaultLimit));
      RespondBuckets(users, weekNumber.value, paging);
      forall d | d in weekNumber.value
        ensures Respond(users, [d], paging)[DayKey(d)] == Bucket(users, d, paging)
      {
        RespondBuckets(users, [d], paging);
      }
    }
  }

  /** Every record falls on exactly one of the seven days: the unpaged
      matches of days 0..6 together count the whole store. */
  lemma {:induction false} WeekdayPartition(users: seq<User>)
    ensures |Matching(users, Num(0))| + |Matching(users, Num(1))| + |Matching(users, Num(2))|
          + |Matching(users, Num(3))| + |Matching(users, Num(4))| + |Matching(users, Num(5))|
          + |Matching(users, Num(6))| == |users|
  {
    if users != [] {
      WeekdayPartition(users[..|users| - 1]);
    }
  }

  /** The filter of a longer store is the filter of the shorter one, plus
      the new record when it is on the day. */
  lemma MatchingAppend(users: seq<User>, u: User, d: DayArg)
    ensures Matching(users + [u], d) == Matching(users, d) + (if OnDay(u, d) then [u] else [])
  {
  }

  /** Projection goes record by record. */
  lemma ProjectAppend(users: seq<User>, u: User)
    ensures Project(users + [u]) == Project(users) + [Entry(u.name, u.email)]
  {
  }
}
