/** The per-record conditional update of the status toggle:
    `status := $cond(status == "active", "inactive", "active")`. */
module StatusToggle {
  import opened UserModel

  /** The new status of one record: "inactive" for an "active" record,
      "active" for any other value (including values other than the two). */
  function ToggledStatus(s: string): (r: string)
    ensures r == Active || r == Inactive
    ensures r == Inactive <==> s == Active
  {
    if s == Active then Inactive else Active
  }

  /** One record after the update: its status flipped, every other field kept. */
  function Toggle(u: User): (v: User)
    ensures v.status == ToggledStatus(u.status)
    ensures v.(status := u.status) == u
  {
    u.(status := ToggledStatus(u.status))
  }

  /** The whole collection after the update, record by record. */
  function ToggleAll(users: seq<User>): (r: seq<User>)
    ensures |r| == |users|
    ensures forall i :: 0 <= i < |users| ==> r[i] == Toggle(users[i])
  {
    seq(|users|, i requires 0 <= i < |users| => Toggle(users[i]))
  }

  /** Every status is one of the two values the toggle produces. */
  predicate TwoValued(users: seq<User>)
  {
    forall i :: 0 <= i < |users| ==> users[i].status == Active || users[i].status == Inactive
  }

  /** How many records have status `s`. */
  function CountStatus(users: seq<User>, s: string): (n: nat)
    ensures n <= |users|
  {
    if users == [] then 0
    else (if users[0].status == s then 1 else 0) + CountStatus(users[1..], s)
  }

  /** After one toggle every status is "active" or "inactive". */
  lemma ToggleIsTwoValued(users: seq<User>)
    ensures TwoValued(ToggleAll(users))
  {
  }

  /** On a collection whose statuses are all "active" or "inactive",
      toggling twice restores every record. */
  lemma ToggleTwiceRestores(users: seq<User>)
    requires TwoValued(users)
    ensures ToggleAll(ToggleAll(users)) == users
  {
  }

  /** Record by record: toggling twice restores every record whose status
      is "active" or "inactive", whatever the other records hold. */
  lemma ToggleTwiceRestoresRecord(users: seq<User>, i: nat)
    requires i < |users|
    requires users[i].status == Active || users[i].status == Inactive
    ensures ToggleAll(ToggleAll(users))[i] == users[i]
  {
  }

  /** On any collection, the toggle has period two from its first
      application on: toggling three times is toggling once. */
  lemma ToggleThriceIsOnce(users: seq<User>)
    ensures ToggleAll(ToggleAll(ToggleAll(users))) == ToggleAll(users)
  {
  }

  /** The toggle turns the "active" records into the "inactive" ones and
      all the others into the "active" ones. */
  lemma {:induction false} ToggleCounts(users: seq<User>)
    ensures CountStatus(ToggleAll(users), Inactive) == CountStatus(users, Active)
    ensures CountStatus(ToggleAll(users), Active) == |users| - CountStatus(users, Active)
  {
    if users != [] {
      ToggleCounts(users[1..]);
      assert ToggleAll(users)[1..] == ToggleAll(users[1..]);
    }
  }
}
