/**
 * The observable-gauge callback `get_active_users_last_hour_callback`:
 * it lists all users, keeps those whose `last_active_at` is an integer no
 * older than one hour, and reports exactly one observation with their number.
 * Every failure (the listing raising, a `users` value that cannot be
 * iterated, a user that does not encode to a dictionary) is reported as a
 * single observation of 0.
 *
 * The asynchronous `get_users` call, the JSON encoding of each user and the
 * clock are collaborators: their outcomes are the parameters `fetch` and `now`.
 */
module ActiveUsers {
  import opened Wrappers

  /** Width of the recency window in seconds. */
  const WindowSeconds: int := 3600

  /** The value found under "last_active_at" in one encoded user. */
  datatype Stamp =
    | Absent                // key missing, or null
    | IntStamp(seconds: int)
    | BoolStamp(flag: bool) // a Python bool passes `isinstance(_, int)`
    | OtherStamp            // a float, a string, a nested object, ...

  /** One element of the listing after JSON encoding. */
  datatype User =
    | Record(lastActiveAt: Stamp) // encodes to a dictionary
    | NonRecord                   // encodes to something without `.get`: reading it raises

  /** What `users_response.get("users", [])` yields, when it is present. */
  datatype UsersValue = UserList(users: seq<User>) | NotIterable

  /** The value `get_users` returned. */
  datatype Listing = NotDict | Dict(usersEntry: Option<UsersValue>)

  /** The outcome of awaiting `get_users`. */
  datatype Fetch = Raised | Returned(listing: Listing)

  /** Outcome of the counting loop: a count, or an exception part-way. */
  datatype Outcome = Completed(count: nat) | Failed

  datatype Observation = Observation(value: int)

  /** The integer the source compares with the cutoff, when `isinstance(_, int)` holds. */
  function IntValue(s: Stamp): Option<int>
  {
    match s
    case IntStamp(t) => Some(t)
    case BoolStamp(b) => Some(if b then 1 else 0)
    case _ => None
  }

  /** A user the loop counts for the given cutoff. */
  predicate IsActive(u: User, cutoff: int)
  {
    u.Record? && IntValue(u.lastActiveAt).Some? && IntValue(u.lastActiveAt).value >= cutoff
  }

  /** Number of users the loop counts, read from the front. */
  function CountActive(users: seq<User>, cutoff: int): (r: nat)
    ensures r <= |users|
  {
    if users == [] then 0
    else CountActive(users[..|users| - 1], cutoff) + (if IsActive(users[|users| - 1], cutoff) then 1 else 0)
  }

  /** True when iterating `users` raises before the loop ends. */
  predicate RaisesWhileCounting(users: seq<User>)
  {
    exists i :: 0 <= i < |users| && users[i].NonRecord?
  }

  /** What the loop over `users` produces, with the clock reading `now`. */
  function CountOutcome(users: seq<User>, now: int): Outcome
  {
    if RaisesWhileCounting(users) then Failed else Completed(CountActive(users, now - WindowSeconds))
  }

  /** The users the loop iterates over, or None when getting them raises. */
  function Iterated(fetch: Fetch): (r: Option<seq<User>>)
    ensures r.None? <==> fetch.Raised? || fetch == Returned(Dict(Some(NotIterable)))
    ensures fetch == Returned(NotDict) || fetch == Returned(Dict(None)) ==> r == Some([])
    ensures (fetch.Returned? && fetch.listing.Dict? && fetch.listing.usersEntry.Some?
             && fetch.listing.usersEntry.value.UserList?)
            ==> r == Some(fetch.listing.usersEntry.value.users)
  {
    match fetch
    case Raised => None
    case Returned(NotDict) => Some([])
    case Returned(Dict(None)) => Some([])
    case Returned(Dict(Some(NotIterable))) => None
    case Returned(Dict(Some(UserList(us)))) => Some(us)
  }

  /** The value of the single observation the callback reports. */
  function Reported(fetch: Fetch, now: int): (r: nat)
    ensures fetch.Raised? ==> r == 0
    ensures Iterated(fetch).None? ==> r == 0
    ensures fetch == Returned(NotDict) || fetch == Returned(Dict(None)) ==> r == 0
    ensures Iterated(fetch).Some? ==> r <= |Iterated(fetch).value|
    ensures Iterated(fetch).Some? && RaisesWhileCounting(Iterated(fetch).value) ==> r == 0
  {
    match Iterated(fetch)
    case None => 0
    case Some(users) =>
      match CountOutcome(users, now)
      case Completed(c) => c
      case Failed => 0
  }

  /** The counting loop of the callback (the `for user in users` statement). */
  method CountActiveUsers(users: seq<User>, now: int) returns (r: Outcome)
    ensures r == CountOutcome(users, now)
  {
    var oneHourAgo := now - WindowSeconds;
    var activeCount: nat := 0;
    var i := 0;
    while i < |users|
      invariant 0 <= i <= |users|
      invariant !RaisesWhileCounting(users[..i])
      invariant activeCount == CountActive(users[..i], oneHourAgo)
    {
      var user := users[i];
      if user.NonRecord? {
        return Failed;
      }
      var lastActiveAt := IntValue(user.lastActiveAt);
      if lastActiveAt.Some? && lastActiveAt.value >= oneHourAgo {
        activeCount := activeCount + 1;
      }
      assert users[..i + 1][..i] == users[..i];
      i := i + 1;
    }
    assert users[..i] == users;
    r := Completed(activeCount);
  }

  /** The whole callback: always exactly one observation. */
  method ActiveUsersLastHour(fetch: Fetch, now: int) returns (obs: seq<Observation>)
    ensures |obs| == 1
    ensures obs[0].value == Reported(fetch, now)
  {
    var users: seq<User>;
    match fetch {
      case Raised =>
        return [Observation(0)];
      case Returned(listing) =>
        match listing {
          case NotDict =>
            users := [];
          case Dict(entry) =>
            match entry {
              case None =>
                users := [];
              case Some(NotIterable) =>
                return [Observation(0)];
              case Some(UserList(us)) =>
                users := us;
            }
        }
    }
    var outcome := CountActiveUsers(users, now);
    match outcome {
      case Completed(c) =>
        obs := [Observation(c)];
      case Failed =>
        obs := [Observation(0)];
    }
  }

  // ---------------------------------------------------------------------
  // Properties of the count

  /** The indices of the users the loop counts: an independent reference. */
  ghost function ActiveIndices(users: seq<User>, cutoff: int): set<int>
  {
    set i | 0 <= i < |users| && IsActive(users[i], cutoff)
  }

  /** The count is the number of users that pass the type guard and the cutoff. */
  lemma {:induction false} CountActiveIsCardinality(users: seq<User>, cutoff: int)
    ensures CountActive(users, cutoff) == |ActiveIndices(users, cutoff)|
  {
    if users != [] {
      var n := |users| - 1;
      var init := users[..n];
      CountActiveIsCardinality(init, cutoff);
      var last := if IsActive(users[n], cutoff) then {n} else {};
      assert ActiveIndices(users, cutoff) == ActiveIndices(init, cutoff) + last by {
        forall i | i in ActiveIndices(users, cutoff)
          ensures i in ActiveIndices(init, cutoff) + last
        {
          if i < n { assert init[i] == users[i]; }
        }
        forall i | i in ActiveIndices(init, cutoff)
          ensures i in ActiveIndices(users, cutoff)
        {
          assert init[i] == users[i];
        }
      }
      assert n !in ActiveIndices(init, cutoff);
    }
  }

  /** Counting distributes over concatenation of listings. */
  lemma {:induction false} CountActiveAppend(a: seq<User>, b: seq<User>, cutoff: int)
    ensures CountActive(a + b, cutoff) == CountActive(a, cutoff) + CountActive(b, cutoff)
    decreases |b|
  {
    if b == [] {
      assert a + b == a;
    } else {
      var n := |b| - 1;
      CountActiveAppend(a, b[..n], cutoff);
      assert (a + b)[..|a + b| - 1] == a + b[..n];
    }
  }

  /** Taking one user out changes the count by exactly that user's contribution. */
  lemma RemoveOneUser(users: seq<User>, i: int, cutoff: int)
    requires 0 <= i < |users|
    ensures CountActive(users, cutoff)
         == CountActive(users[..i] + users[i + 1..], cutoff) + (if IsActive(users[i], cutoff) then 1 else 0)
  {
    assert users == users[..i] + [users[i]] + users[i + 1..];
    CountActiveAppend(users[..i] + [users[i]], users[i + 1..], cutoff);
    CountActiveAppend(users[..i], [users[i]], cutoff);
    CountActiveAppend(users[..i], users[i + 1..], cutoff);
    assert [users[i]][..0] == [];
  }

  /** The cutoff is inclusive: a user active exactly one hour ago is counted. */
  lemma InclusiveCutoff(users: seq<User>, i: int, now: int)
    requires 0 <= i < |users|
    requires users[i] == Record(IntStamp(now - WindowSeconds))
    ensures CountActive(users, now - WindowSeconds)
         == CountActive(users[..i] + users[i + 1..], now - WindowSeconds) + 1
  {
    RemoveOneUser(users, i, now - WindowSeconds);
  }

  /** A user active one second before the window opens is not counted. */
  lemma OneSecondTooOld(users: seq<User>, i: int, now: int)
    requires 0 <= i < |users|
    requires users[i] == Record(IntStamp(now - WindowSeconds - 1))
    ensures CountActive(users, now - WindowSeconds)
         == CountActive(users[..i] + users[i + 1..], now - WindowSeconds)
  {
    RemoveOneUser(users, i, now - WindowSeconds);
  }

  /** A user whose `last_active_at` is absent or not an integer never adds to the count. */
  lemma NonIntegerStampNeverCounted(users: seq<User>, i: int, cutoff: int)
    requires 0 <= i < |users|
    requires users[i] == Record(Absent) || users[i] == Record(OtherStamp)
    ensures CountActive(users, cutoff) == CountActive(users[..i] + users[i + 1..], cutoff)
  {
    RemoveOneUser(users, i, cutoff);
  }

  /** Every user is counted exactly when the count equals the number of users. */
  lemma {:induction false} AllCountedIff(users: seq<User>, cutoff: int)
    ensures CountActive(users, cutoff) == |users|
        <==> forall i :: 0 <= i < |users| ==> IsActive(users[i], cutoff)
  {
    if users != [] {
      var n := |users| - 1;
      AllCountedIff(users[..n], cutoff);
      if CountActive(users, cutoff) == |users| {
        forall i | 0 <= i < |users| ensures IsActive(users[i], cutoff) {
          if i < n { assert users[..n][i] == users[i]; }
        }
      }
      if forall i :: 0 <= i < |users| ==> IsActive(users[i], cutoff) {
        forall i | 0 <= i < n ensures IsActive(users[..n][i], cutoff) {
          assert users[..n][i] == users[i];
        }
      }
    }
  }

  /** The count is zero exactly when no user passes the type guard and the cutoff. */
  lemma {:induction false} NoneCountedIff(users: seq<User>, cutoff: int)
    ensures CountActive(users, cutoff) == 0
        <==> forall i :: 0 <= i < |users| ==> !IsActive(users[i], cutoff)
  {
    if users != [] {
      var n := |users| - 1;
      NoneCountedIff(users[..n], cutoff);
      if CountActive(users, cutoff) == 0 {
        forall i | 0 <= i < |users| ensures !IsActive(users[i], cutoff) {
          if i < n { assert users[..n][i] == users[i]; }
        }
      }
      if forall i :: 0 <= i < |users| ==> !IsActive(users[i], cutoff) {
        forall i | 0 <= i < n ensures !IsActive(users[..n][i], cutoff) {
          assert users[..n][i] == users[i];
        }
      }
    }
  }

  /**
   * End to end: for a listing the loop completes, the reported value is the
   * number of users whose stamp is an integer at least `now - 3600`.
   */
  lemma ReportedIsActiveCount(users: seq<User>, now: int)
    requires forall i :: 0 <= i < |users| ==> users[i].Record?
    ensures Reported(Returned(Dict(Some(UserList(users)))), now)
         == |ActiveIndices(users, now - WindowSeconds)|
  {
    CountActiveIsCardinality(users, now - WindowSeconds);
  }

  /** Users active ten seconds ago, 3601 seconds ago and never: exactly one is reported. */
  lemma ReportedExample(now: int)
    ensures Reported(Returned(Dict(Some(UserList(
              [Record(IntStamp(now - 10)), Record(IntStamp(now - 3601)), Record(Absent)])))), now) == 1
  {
    var users := [Record(IntStamp(now - 10)), Record(IntStamp(now - 3601)), Record(Absent)];
    var cutoff := now - WindowSeconds;
    assert users[..2][..1][..0] == [];
    assert users[..2][..1] == [Record(IntStamp(now - 10))];
    assert users[..2] == [Record(IntStamp(now - 10)), Record(IntStamp(now - 3601))];
    assert CountActive(users[..2][..1], cutoff) == 1;
    assert CountActive(users[..2], cutoff) == 1;
    assert CountActive(users, cutoff) == 1;
    assert !RaisesWhileCounting(users);
  }
}
